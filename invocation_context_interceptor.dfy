/** The first interceptor of the chain: it gates every invocation on the
    cache's lifecycle status, refuses a missing context, suppresses failures
    of fail-silently invocations, marks the caller's transaction for rollback
    on any other failure of a local transactional invocation, and resets the
    context on every exit once the rest of the chain has been invoked.

    The rest of the chain is an oracle: the result it returns or the
    exception it throws is a parameter. The transaction table is reduced to
    the set of transactions it holds a local record for. */
module Interceptors {
  import opened Base
  import opened Transactions

  /** The per-invocation context; `resets` counts the calls to reset(). */
  class InvocationContext {
    var inTxScope: bool
    var originLocal: bool
    var flags: set<Flag>
    var lookedUpKeys: set<Key>
    var resets: nat

    constructor (inTxScope: bool, originLocal: bool, flags: set<Flag>)
      ensures this.inTxScope == inTxScope && this.originLocal == originLocal && this.flags == flags
      ensures lookedUpKeys == {} && resets == 0
    {
      this.inTxScope := inTxScope;
      this.originLocal := originLocal;
      this.flags := flags;
      lookedUpKeys := {};
      resets := 0;
    }

    /** Clears the in-flight lookup state. */
    method Reset()
      modifies this`lookedUpKeys, this`resets
      ensures lookedUpKeys == {} && resets == old(resets) + 1
    {
      lookedUpKeys := {};
      resets := resets + 1;
    }
  }

  /** What the interceptor reads of a context. */
  datatype ContextView = ContextView(inTxScope: bool, originLocal: bool, failSilently: bool)

  function ViewOf(ctx: InvocationContext?): (v: Option<ContextView>)
    reads ctx
    ensures v.Some? <==> ctx != null
  {
    if ctx == null then None
    else Some(ContextView(ctx.inTxScope, ctx.originLocal, FailSilently in ctx.flags))
  }

  /** stoppingAndNotAllowed: a STOPPING cache only accepts invocations of a transaction
      that has a local record. */
  predicate StoppingAndNotAllowed(status: ComponentStatus, inTxScope: bool, hasLocalTx: bool)
  {
    status.IsStopping() && (!inTxScope || (inTxScope && !hasLocalTx))
  }

  /** isValidRunningTx: the transaction may still be marked rollback-only. */
  predicate IsValidRunningTx(txStatus: int)
  {
    txStatus == STATUS_ACTIVE || txStatus == STATUS_PREPARING
  }

  /** What handleAll does: its result, whether it invoked the rest of the chain (and
      so reset the context), and whether it marked the current transaction rollback-only. */
  datatype HandleOutcome = HandleOutcome(result: Result<Option<Value>>, invoked: bool, marksRollback: bool)

  /** handleAll as a function of what it observes: the lifecycle status, the context, whether
      the current transaction has a local record, the current transaction's status, and the
      outcome of the rest of the chain. */
  function HandleAllOutcome(
    status: ComponentStatus,
    ctx: Option<ContextView>,
    hasLocalTx: bool,
    currentTxStatus: Option<int>,
    downstream: Result<Option<Value>>): HandleOutcome
  {
    if status.IsTerminated() then
      HandleOutcome(Err(IllegalStateException("TERMINATED")), false, false)
    else if status.IsStopping() && ctx.None? then
      // stoppingAndNotAllowed dereferences the context before the null check
      HandleOutcome(Err(NullPointerException), false, false)
    else if ctx.Some? && StoppingAndNotAllowed(status, ctx.value.inTxScope, hasLocalTx) then
      HandleOutcome(Err(IllegalStateException("STOPPING")), false, false)
    else if ctx.None? then
      HandleOutcome(Err(IllegalStateException("Null context not allowed!!")), false, false)
    else if downstream.Ok? then
      HandleOutcome(downstream, true, false)
    else if ctx.value.failSilently then
      HandleOutcome(Ok(None), true, false)
    else
      var marks := ctx.value.inTxScope && ctx.value.originLocal
                   && currentTxStatus.Some? && IsValidRunningTx(currentTxStatus.value);
      HandleOutcome(downstream, true, marks)
  }

  /** visitLockControlCommand's normalisation: a null result becomes false. */
  function NonNullResult(r: Result<Option<Value>>): (r': Result<Option<Value>>)
    ensures r'.Ok? ==> r'.value.Some?
    ensures r.Err? ==> r' == r
    ensures r.Ok? && r.value.Some? ==> r' == r
    ensures r == Ok(None) ==> r' == Ok(Some(BoolValue(false)))
  {
    if r == Ok(None) then Ok(Some(BoolValue(false))) else r
  }

  predicate HasLocalRecord(tm: TransactionManager, localTxs: set<DummyTransaction>)
    reads tm
  {
    tm.current != null && tm.current in localTxs
  }

  function CurrentTxStatus(tm: TransactionManager): Option<int>
    reads tm, tm.current
  {
    if tm.current == null then None else Some(tm.current.status)
  }

  /** markTxForRollbackAndRethrow: marks the current transaction rollback-only when it is
      still running, then rethrows the failure. */
  method MarkTxForRollbackAndRethrow(ctx: InvocationContext, tm: TransactionManager, th: Exception)
    returns (r: Result<Option<Value>>)
    modifies tm.current
    ensures r == Err(th)
    ensures tm.current != null ==>
      tm.current.status == (if ctx.originLocal && ctx.inTxScope && IsValidRunningTx(old(tm.current.status))
                            then STATUS_MARKED_ROLLBACK else old(tm.current.status))
    ensures tm.current != null ==>
      unchanged(tm.current`resources, tm.current`syncs, tm.current`prepareStatus, tm.current`log)
  {
    if ctx.originLocal && ctx.inTxScope {
      var transaction := tm.current;
      if transaction != null && IsValidRunningTx(transaction.GetStatus()) {
        transaction.SetRollbackOnly();
      }
    }
    r := Err(th);
  }

  method HandleAll(
    status: ComponentStatus,
    ctx: InvocationContext?,
    tm: TransactionManager,
    localTxs: set<DummyTransaction>,
    downstream: Result<Option<Value>>)
    returns (r: Result<Option<Value>>)
    modifies ctx, tm.current
    ensures var o := HandleAllOutcome(status, old(ViewOf(ctx)), old(HasLocalRecord(tm, localTxs)),
                                      old(CurrentTxStatus(tm)), downstream);
      && r == o.result
      && (ctx != null ==>
            && ctx.resets == old(ctx.resets) + (if o.invoked then 1 else 0)
            && (o.invoked ==> ctx.lookedUpKeys == {})
            && (!o.invoked ==> ctx.lookedUpKeys == old(ctx.lookedUpKeys)))
      && (tm.current != null ==>
            tm.current.status == if o.marksRollback then STATUS_MARKED_ROLLBACK else old(tm.current.status))
    ensures ctx != null ==> unchanged(ctx`inTxScope, ctx`originLocal, ctx`flags)
    ensures tm.current != null ==>
      unchanged(tm.current`resources, tm.current`syncs, tm.current`prepareStatus, tm.current`log)
  {
    var suppressExceptions := false;
    if status.IsTerminated() {
      return Err(IllegalStateException("TERMINATED"));
    } else if status.IsStopping() {
      if ctx == null {
        return Err(NullPointerException);
      }
      var hasLocalTx := tm.current != null && tm.current in localTxs;
      if !ctx.inTxScope || (ctx.inTxScope && !hasLocalTx) {
        return Err(IllegalStateException("STOPPING"));
      }
    }
    if ctx == null {
      return Err(IllegalStateException("Null context not allowed!!"));
    }
    if FailSilently in ctx.flags {
      suppressExceptions := true;
    }

    // try { invokeNextInterceptor } catch ... finally { ctx.reset() }
    if downstream.Ok? {
      r := downstream;
    } else if suppressExceptions {
      r := Ok(None);
    } else if ctx.inTxScope && ctx.originLocal {
      r := MarkTxForRollbackAndRethrow(ctx, tm, downstream.error);
    } else {
      r := downstream;
    }
    ctx.Reset();
  }

  method VisitLockControlCommand(
    status: ComponentStatus,
    ctx: InvocationContext?,
    tm: TransactionManager,
    localTxs: set<DummyTransaction>,
    downstream: Result<Option<Value>>)
    returns (r: Result<Option<Value>>)
    modifies ctx, tm.current
    ensures r == NonNullResult(HandleAllOutcome(status, old(ViewOf(ctx)), old(HasLocalRecord(tm, localTxs)),
                                                old(CurrentTxStatus(tm)), downstream).result)
    ensures r.Ok? ==> r.value.Some?
    ensures var o := HandleAllOutcome(status, old(ViewOf(ctx)), old(HasLocalRecord(tm, localTxs)),
                                      old(CurrentTxStatus(tm)), downstream);
      && (ctx != null ==>
            && ctx.resets == old(ctx.resets) + (if o.invoked then 1 else 0)
            && (o.invoked ==> ctx.lookedUpKeys == {})
            && (!o.invoked ==> ctx.lookedUpKeys == old(ctx.lookedUpKeys)))
      && (tm.current != null ==>
            tm.current.status == if o.marksRollback then STATUS_MARKED_ROLLBACK else old(tm.current.status))
    ensures ctx != null ==> unchanged(ctx`inTxScope, ctx`originLocal, ctx`flags)
    ensures tm.current != null ==>
      unchanged(tm.current`resources, tm.current`syncs, tm.current`prepareStatus, tm.current`log)
  {
    var retval := HandleAll(status, ctx, tm, localTxs, downstream);
    r := if retval == Ok(None) then Ok(Some(BoolValue(false))) else retval;
  }

  // ---------------------------------------------------------------------------
  // Properties of handleAll

  /** A TERMINATED component rejects before any other check. */
  lemma TerminatedRejectsFirst(ctx: Option<ContextView>, hasLocalTx: bool, txStatus: Option<int>,
                               downstream: Result<Option<Value>>)
    ensures var o := HandleAllOutcome(Terminated, ctx, hasLocalTx, txStatus, downstream);
      o.result.Err? && o.result.error.IllegalStateException? && !o.invoked && !o.marksRollback
  {
  }

  /** A STOPPING component accepts an invocation exactly when it is in transaction scope
      and its transaction has a local record. */
  lemma StoppingAcceptsOnlyOngoingTransactions(ctx: ContextView, hasLocalTx: bool, txStatus: Option<int>,
                                               downstream: Result<Option<Value>>)
    ensures var o := HandleAllOutcome(Stopping, Some(ctx), hasLocalTx, txStatus, downstream);
      && (o.invoked <==> ctx.inTxScope && hasLocalTx)
      && (!o.invoked ==> o.result == Err(IllegalStateException("STOPPING")))
  {
  }

  /** A running component refuses a null context, without invoking the chain. */
  lemma NullContextRejected(status: ComponentStatus, hasLocalTx: bool, txStatus: Option<int>,
                            downstream: Result<Option<Value>>)
    requires !status.IsTerminated() && !status.IsStopping()
    ensures HandleAllOutcome(status, None, hasLocalTx, txStatus, downstream)
            == HandleOutcome(Err(IllegalStateException("Null context not allowed!!")), false, false)
  {
  }

  /** Once the chain has been invoked: a returned value passes through; with FAIL_SILENTLY a
      failure becomes null; otherwise the same failure is rethrown, and the current
      transaction is marked rollback-only exactly when the invocation is local,
      transactional and the transaction is ACTIVE or PREPARING. */
  lemma FailureHandling(status: ComponentStatus, ctx: ContextView, hasLocalTx: bool, txStatus: Option<int>,
                        downstream: Result<Option<Value>>)
    requires !status.IsTerminated() && !StoppingAndNotAllowed(status, ctx.inTxScope, hasLocalTx)
    ensures var o := HandleAllOutcome(status, Some(ctx), hasLocalTx, txStatus, downstream);
      && o.invoked
      && (downstream.Ok? ==> o.result == downstream && !o.marksRollback)
      && (downstream.Err? && ctx.failSilently ==> o.result == Ok(None) && !o.marksRollback)
      && (downstream.Err? && !ctx.failSilently ==>
            o.result == downstream
            && (o.marksRollback <==> ctx.inTxScope && ctx.originLocal
                                     && txStatus.Some? && IsValidRunningTx(txStatus.value)))
  {
  }
}
