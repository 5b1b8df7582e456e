/** The dummy JTA transaction: a two-phase-commit state machine over an
    ordered list of XA resources and a set of synchronizations.

    XA resources and synchronizations are collaborators whose behaviour is
    not visible; each one is modelled by the outcome it produces for each
    call (it succeeds, throws an XAException, or throws any other
    throwable). Every call made to a collaborator is appended to the
    transaction's `log`, so that order and completeness of the phases can be
    stated. The transaction manager is reduced to its "current transaction"
    association. */
module Transactions {
  import opened Base

  // javax.transaction.Status
  const STATUS_ACTIVE: int := 0
  const STATUS_MARKED_ROLLBACK: int := 1
  const STATUS_PREPARED: int := 2
  const STATUS_COMMITTED: int := 3
  const STATUS_ROLLEDBACK: int := 4
  const STATUS_UNKNOWN: int := 5
  const STATUS_NO_TRANSACTION: int := 6
  const STATUS_PREPARING: int := 7
  const STATUS_COMMITTING: int := 8
  const STATUS_ROLLING_BACK: int := 9

  // javax.transaction.xa.XAResource
  const XA_OK: int := 0
  const XA_RDONLY: int := 3

  /** What an XA resource does when it is called. */
  datatype Outcome = Succeeds | ThrowsXA | ThrowsOther

  /** What an XA resource does when it is asked to prepare: it votes, or throws. */
  datatype PrepareOutcome = Votes(code: int) | PrepareThrowsXA | PrepareThrowsOther

  /** An enlisted XA resource, described by its behaviour in each phase. */
  datatype XAResource = XAResource(
    id: nat,
    onStart: Outcome,
    onPrepare: PrepareOutcome,
    onCommit: Outcome,
    onRollback: Outcome)

  /** A registered synchronization; `failsBefore` says whether its
      beforeCompletion callback throws. Failures of afterCompletion are caught
      and only logged by the source, so they are not modelled. */
  datatype Synchronization = Synchronization(id: nat, failsBefore: bool)

  datatype XAPhase = XAStart | XAPrepare | XACommit | XARollback

  /** One call from the transaction to a collaborator. */
  datatype Event =
    | XACall(phase: XAPhase, resource: XAResource)
    | BeforeCompletionCall(sync: Synchronization)
    | AfterCompletionCall(sync: Synchronization, status: int)

  /** The fields of a transaction, as one value. */
  datatype TxState = TxState(
    status: int,
    resources: seq<XAResource>,
    syncs: seq<Synchronization>,
    prepareStatus: int,
    log: seq<Event>)

  /** The state a transaction operation leaves and what it throws (None: it returns normally). */
  datatype Completion = Completion(state: TxState, thrown: Option<Exception>)

  // ---------------------------------------------------------------------------
  // Reference definitions of the phases

  /** Index of the first resource at which a phase loop stops, or |rs| when it runs to the end. */
  function FirstStop(rs: seq<XAResource>, stops: XAResource -> bool): (k: nat)
    ensures k <= |rs|
    ensures forall j :: 0 <= j < k ==> !stops(rs[j])
    ensures k < |rs| ==> stops(rs[k])
  {
    if rs == [] then 0
    else if stops(rs[0]) then 0
    else 1 + FirstStop(rs[1..], stops)
  }

  /** The resources a loop stopping at index k has called: up to and including the k-th. */
  function Through(rs: seq<XAResource>, k: nat): seq<XAResource>
    requires k <= |rs|
  {
    if k < |rs| then rs[..k + 1] else rs
  }

  /** The prepare loop ends at a resource that does not vote. */
  predicate PrepareStops(r: XAResource) { !r.onPrepare.Votes? }

  /** The rollback loop catches XAException; only another throwable ends it. */
  predicate RollbackStops(r: XAResource) { r.onRollback == ThrowsOther }

  /** The commit loop ends at the first resource that throws anything. */
  predicate CommitStops(r: XAResource) { r.onCommit != Succeeds }

  function Calls(phase: XAPhase, rs: seq<XAResource>): (es: seq<Event>)
    ensures |es| == |rs|
    ensures forall i :: 0 <= i < |rs| ==> es[i] == XACall(phase, rs[i])
  {
    seq(|rs|, i requires 0 <= i < |rs| => XACall(phase, rs[i]))
  }

  function BeforeCompletionCalls(ss: seq<Synchronization>): (es: seq<Event>)
    ensures |es| == |ss|
    ensures forall i :: 0 <= i < |ss| ==> es[i] == BeforeCompletionCall(ss[i])
  {
    seq(|ss|, i requires 0 <= i < |ss| => BeforeCompletionCall(ss[i]))
  }

  function AfterCompletionCalls(ss: seq<Synchronization>, status: int): (es: seq<Event>)
    ensures |es| == |ss|
    ensures forall i :: 0 <= i < |ss| ==> es[i] == AfterCompletionCall(ss[i], status)
  {
    seq(|ss|, i requires 0 <= i < |ss| => AfterCompletionCall(ss[i], status))
  }

  /** No beforeCompletion callback throws. */
  predicate BeforeCompletionSucceeds(ss: seq<Synchronization>)
  {
    forall i :: 0 <= i < |ss| ==> !ss[i].failsBefore
  }

  /** The prepare status recorded after the given resources have voted: the last vote, or `initial`. */
  function LastVote(rs: seq<XAResource>, initial: int): int
  {
    if rs == [] then initial
    else match rs[|rs| - 1].onPrepare
      case Votes(code) => code
      case _ => LastVote(rs[..|rs| - 1], initial)
  }

  /** runRollback: every resource is asked to roll back, in order, until one throws a
      non-XA throwable, which escapes. */
  function RollbackPhase(s: TxState): Completion
  {
    var k := FirstStop(s.resources, RollbackStops);
    var s' := s.(log := s.log + Calls(XARollback, Through(s.resources, k)));
    Completion(s', if k < |s.resources| then Some(UncheckedThrowable(s.resources[k].id)) else None)
  }

  /** notifyAfterCompletion(status): every synchronization is told the status, then the set is cleared. */
  function AfterCompletion(s: TxState, status: int): TxState
  {
    s.(log := s.log + AfterCompletionCalls(s.syncs, status), syncs := [])
  }

  /** commit() from the rollback decision on (lines 91-93): roll back, then throw RollbackException. */
  function CommitRollingBack(s: TxState): Completion
  {
    var r := RollbackPhase(s);
    if r.thrown.Some? then r
    else Completion(r.state, Some(RollbackException("Exception rolled back")))
  }

  /** commit() from the commit decision on (lines 97-107). */
  function CommitPrepared(s: TxState): Completion
  {
    var s1 := s.(status := STATUS_COMMITTING);
    if s1.prepareStatus == XA_RDONLY then
      Completion(AfterCompletion(s1.(status := STATUS_COMMITTED), STATUS_COMMITTED), None)
    else
      var k := FirstStop(s1.resources, CommitStops);
      var s2 := s1.(log := s1.log + Calls(XACommit, Through(s1.resources, k)));
      if k == |s1.resources| then
        Completion(AfterCompletion(s2.(status := STATUS_COMMITTED), STATUS_COMMITTED), None)
      else if s1.resources[k].onCommit == ThrowsXA then
        Completion(AfterCompletion(s2.(status := STATUS_UNKNOWN), STATUS_UNKNOWN), Some(HeuristicMixedException))
      else
        Completion(AfterCompletion(s2, STATUS_COMMITTING), Some(UncheckedThrowable(s1.resources[k].id)))
  }

  /** commit()'s prepare phase and what follows it; `perVote` selects the commit phase that
      commits every resource that voted XA_OK instead of the one written (see CommitPrepared). */
  function PrepareAndCommit(s: TxState, perVote: bool): Completion
  {
    var successfulInit := BeforeCompletionSucceeds(s.syncs);
    var s1 := s.(log := s.log + BeforeCompletionCalls(s.syncs));
    if !successfulInit then
      CommitRollingBack(s1.(status := STATUS_ROLLING_BACK))
    else
      var k := FirstStop(s1.resources, PrepareStops);
      var s2 := s1.(status := STATUS_PREPARING,
                    log := s1.log + Calls(XAPrepare, Through(s1.resources, k)),
                    prepareStatus := LastVote(s1.resources[..k], s1.prepareStatus));
      if k < |s1.resources| && s1.resources[k].onPrepare == PrepareThrowsOther then
        Completion(s2, Some(SystemException("Unexpected error from resource manager")))
      else
        var s3 := s2.(status := if k < |s1.resources| then STATUS_ROLLING_BACK else STATUS_PREPARED);
        if s3.status == STATUS_MARKED_ROLLBACK || s3.status == STATUS_ROLLING_BACK then
          CommitRollingBack(s3)
        else if perVote then
          CommitPreparedPerVote(s3)
        else
          CommitPrepared(s3)
  }

  /** The whole of commit(), as written. */
  function CommitOutcome(s: TxState): Completion
  {
    PrepareAndCommit(s, false)
  }

  /** The resources that voted anything but XA_RDONLY, in enlistment order. */
  function ReadWriteVoters(rs: seq<XAResource>): (ws: seq<XAResource>)
    ensures forall r :: r in ws <==> r in rs && r.onPrepare != Votes(XA_RDONLY)
    ensures |ws| <= |rs|
  {
    if rs == [] then []
    else (if rs[0].onPrepare == Votes(XA_RDONLY) then [] else [rs[0]]) + ReadWriteVoters(rs[1..])
  }

  /** The commit phase as evidently intended: every resource that did not vote XA_RDONLY is
      committed, whatever the last vote was. */
  function CommitPreparedPerVote(s: TxState): Completion
  {
    var s1 := s.(status := STATUS_COMMITTING);
    var ws := ReadWriteVoters(s1.resources);
    var k := FirstStop(ws, CommitStops);
    var s2 := s1.(log := s1.log + Calls(XACommit, Through(ws, k)));
    if k == |ws| then
      Completion(AfterCompletion(s2.(status := STATUS_COMMITTED), STATUS_COMMITTED), None)
    else if ws[k].onCommit == ThrowsXA then
      Completion(AfterCompletion(s2.(status := STATUS_UNKNOWN), STATUS_UNKNOWN), Some(HeuristicMixedException))
    else
      Completion(AfterCompletion(s2, STATUS_COMMITTING), Some(UncheckedThrowable(ws[k].id)))
  }

  /** commit() as its documentation promises: a transaction marked for rollback only is rolled
      back and RollbackException is thrown; otherwise every read-write voter is committed. */
  function IntendedCommitOutcome(s: TxState): Completion
  {
    if s.status == STATUS_MARKED_ROLLBACK then CommitRollingBack(s.(status := STATUS_ROLLING_BACK))
    else PrepareAndCommit(s, true)
  }

  /** The whole of rollback(). Any throwable escaping runRollback is wrapped in an
      IllegalStateException, and the status stays ROLLING_BACK. */
  function RollbackOutcome(s: TxState): Completion
  {
    var r := RollbackPhase(s.(status := STATUS_ROLLING_BACK));
    if r.thrown.Some? then Completion(r.state, Some(IllegalStateException("rollback failed")))
    else Completion(AfterCompletion(r.state.(status := STATUS_ROLLEDBACK), STATUS_ROLLEDBACK), None)
  }

  /** registerSynchronization's check of the status: None when the registration is accepted. */
  function RegistrationRefusal(status: int): (e: Option<Exception>)
    ensures e.None? <==> status == STATUS_ACTIVE || status == STATUS_PREPARING
    ensures e.Some? && e.value.RollbackException? <==>
      status in {STATUS_MARKED_ROLLBACK, STATUS_ROLLING_BACK, STATUS_ROLLEDBACK}
    ensures e.Some? ==> e.value.RollbackException? || e.value.IllegalStateException?
  {
    if status == STATUS_ACTIVE || status == STATUS_PREPARING then None
    else if status == STATUS_PREPARED then Some(IllegalStateException("already prepared"))
    else if status == STATUS_COMMITTING then Some(IllegalStateException("already started committing"))
    else if status == STATUS_COMMITTED then Some(IllegalStateException("already committed"))
    else if status == STATUS_MARKED_ROLLBACK then Some(RollbackException("already marked for rollback"))
    else if status == STATUS_ROLLING_BACK then Some(RollbackException("already started rolling back"))
    else if status == STATUS_ROLLEDBACK then Some(RollbackException("already rolled back"))
    else if status == STATUS_NO_TRANSACTION then Some(IllegalStateException("no transaction"))
    else if status == STATUS_UNKNOWN then Some(IllegalStateException("unknown state"))
    else Some(IllegalStateException("illegal status"))
  }

  // ---------------------------------------------------------------------------
  // Properties of commit() and rollback()

  /** If a beforeCompletion callback throws, the others are still notified, no resource
      is prepared, every resource is asked to roll back (until one throws a non-XA
      throwable), the status is left at ROLLING_BACK and no afterCompletion runs. */
  lemma BeforeCompletionFailureRollsBack(s: TxState)
    requires !BeforeCompletionSucceeds(s.syncs)
    ensures var c := CommitOutcome(s);
      var k := FirstStop(s.resources, RollbackStops);
      && c.state.status == STATUS_ROLLING_BACK
      && c.state.log == s.log + BeforeCompletionCalls(s.syncs) + Calls(XARollback, Through(s.resources, k))
      && c.state.syncs == s.syncs
      && c.thrown == Some(if k < |s.resources| then UncheckedThrowable(s.resources[k].id)
                          else RollbackException("Exception rolled back"))
  {
  }

  /** Prepare runs in enlistment order up to the first resource that does not vote. An
      XAException there leads to the rollback branch; any other throwable becomes a
      SystemException and leaves the status at PREPARING. */
  lemma PrepareStopsAtFirstFailure(s: TxState)
    requires BeforeCompletionSucceeds(s.syncs)
    requires FirstStop(s.resources, PrepareStops) < |s.resources|
    ensures var c := CommitOutcome(s);
      var k := FirstStop(s.resources, PrepareStops);
      var prepared := s.log + BeforeCompletionCalls(s.syncs) + Calls(XAPrepare, s.resources[..k + 1]);
      && (s.resources[k].onPrepare == PrepareThrowsOther ==>
            c.state.status == STATUS_PREPARING && c.state.log == prepared
            && c.thrown == Some(SystemException("Unexpected error from resource manager")))
      && (s.resources[k].onPrepare == PrepareThrowsXA ==>
            c.state.status == STATUS_ROLLING_BACK && c.state.syncs == s.syncs
            && c.state.log[..|prepared|] == prepared
            && c.thrown.Some? && (c.thrown.value.RollbackException? || c.thrown.value.UncheckedThrowable?))
  {
  }

  /** After the prepare phase the status is PREPARED or ROLLING_BACK, whatever it was
      before: in particular a MARKED_ROLLBACK set before commit() is overwritten, and a
      transaction whose synchronizations and resources all succeed commits. */
  lemma CommitIgnoresEarlierStatus(s: TxState)
    requires BeforeCompletionSucceeds(s.syncs)
    requires forall i :: 0 <= i < |s.resources| ==> s.resources[i].onPrepare.Votes?
    requires forall i :: 0 <= i < |s.resources| ==> s.resources[i].onCommit == Succeeds
    ensures CommitOutcome(s).state.status == STATUS_COMMITTED
    ensures CommitOutcome(s).thrown.None?
  {
    var k := FirstStop(s.resources, PrepareStops);
    assert k == |s.resources|;
  }

  /** Rollback is best effort: when no resource throws anything but an XAException,
      every enlisted resource is asked to roll back, in order. */
  lemma RollbackIsBestEffort(s: TxState)
    requires forall i :: 0 <= i < |s.resources| ==> s.resources[i].onRollback != ThrowsOther
    ensures RollbackPhase(s).state.log == s.log + Calls(XARollback, s.resources)
    ensures RollbackPhase(s).thrown.None?
  {
  }

  /** With a recorded prepare status of XA_RDONLY no resource is committed. Otherwise
      resources are committed in order, and the first XAException sets UNKNOWN and
      raises HeuristicMixedException. Either way afterCompletion runs with the final
      status and the synchronizations are cleared. */
  lemma CommitPhaseOutcome(s: TxState)
    ensures var c := CommitPrepared(s);
      var k := FirstStop(s.resources, CommitStops);
      && c.state.syncs == []
      && (s.prepareStatus == XA_RDONLY ==>
            c.state.status == STATUS_COMMITTED && c.thrown.None?
            && c.state.log == s.log + AfterCompletionCalls(s.syncs, STATUS_COMMITTED))
      && (s.prepareStatus != XA_RDONLY && k < |s.resources| && s.resources[k].onCommit == ThrowsXA ==>
            c.state.status == STATUS_UNKNOWN && c.thrown == Some(HeuristicMixedException)
            && c.state.log == s.log + Calls(XACommit, s.resources[..k + 1])
                              + AfterCompletionCalls(s.syncs, STATUS_UNKNOWN))
      && (s.prepareStatus != XA_RDONLY && k == |s.resources| ==>
            c.state.status == STATUS_COMMITTED && c.thrown.None?
            && c.state.log == s.log + Calls(XACommit, s.resources)
                              + AfterCompletionCalls(s.syncs, STATUS_COMMITTED))
  {
  }

  /** afterCompletion runs, and the synchronizations are cleared, exactly when commit()
      got past the prepare phase with every resource voting; on the rollback and
      SystemException paths the synchronizations are left registered. */
  lemma AfterCompletionOnlyOnCommitPath(s: TxState)
    ensures var c := CommitOutcome(s);
      var reachedCommit := BeforeCompletionSucceeds(s.syncs) && FirstStop(s.resources, PrepareStops) == |s.resources|;
      && (reachedCommit ==> c.state.syncs == [] && !(c.thrown.Some? && c.thrown.value.RollbackException?))
      && (!reachedCommit ==> c.state.syncs == s.syncs && c.state.status in {STATUS_PREPARING, STATUS_ROLLING_BACK})
  {
  }

  /** rollback() asks every resource to roll back and, on success, ends ROLLEDBACK after
      telling every synchronization; a non-XA throwable from a resource becomes an
      IllegalStateException and leaves the status at ROLLING_BACK. */
  lemma RollbackOutcomeStates(s: TxState)
    ensures var c := RollbackOutcome(s);
      var k := FirstStop(s.resources, RollbackStops);
      && (k == |s.resources| ==>
            c.thrown.None? && c.state.status == STATUS_ROLLEDBACK && c.state.syncs == []
            && c.state.log == s.log + Calls(XARollback, s.resources)
                              + AfterCompletionCalls(s.syncs, STATUS_ROLLEDBACK))
      && (k < |s.resources| ==>
            c.thrown == Some(IllegalStateException("rollback failed"))
            && c.state.status == STATUS_ROLLING_BACK && c.state.syncs == s.syncs)
  {
  }

  // ---------------------------------------------------------------------------
  // Defects: as written, with the input that shows them, and as evidently intended

  /** As written, the commit phase consults only the last vote: resource A votes XA_OK, resource
      B votes XA_RDONLY, and the transaction ends COMMITTED without A ever being committed. */
  lemma ReadOnlyLastVoteSkipsCommit()
    ensures var a := XAResource(1, Succeeds, Votes(XA_OK), Succeeds, Succeeds);
      var b := XAResource(2, Succeeds, Votes(XA_RDONLY), Succeeds, Succeeds);
      var c := CommitOutcome(TxState(STATUS_ACTIVE, [a, b], [], XA_OK, []));
      c.state.status == STATUS_COMMITTED && c.thrown.None? && XACall(XACommit, a) !in c.state.log
  {
    var a := XAResource(1, Succeeds, Votes(XA_OK), Succeeds, Succeeds);
    var b := XAResource(2, Succeeds, Votes(XA_RDONLY), Succeeds, Succeeds);
    var rs := [a, b];
    assert FirstStop(rs, PrepareStops) == 2 by {
      assert FirstStop(rs[1..], PrepareStops) == 1 + FirstStop(rs[1..][1..], PrepareStops);
    }
    assert rs[..2][..1] == [a];
    assert LastVote(rs[..2], XA_OK) == XA_RDONLY;
  }

  /** As evidently intended, once every resource has voted and none fails to commit, exactly the
      resources that voted something other than XA_RDONLY are committed, in order. */
  lemma IntendedCommitCommitsEveryWriter(s: TxState)
    requires s.status != STATUS_MARKED_ROLLBACK
    requires BeforeCompletionSucceeds(s.syncs)
    requires forall i :: 0 <= i < |s.resources| ==> s.resources[i].onPrepare.Votes?
    requires forall i :: 0 <= i < |s.resources| ==> s.resources[i].onCommit == Succeeds
    ensures var c := IntendedCommitOutcome(s);
      && c.state.status == STATUS_COMMITTED && c.thrown.None?
      && c.state.log == s.log + BeforeCompletionCalls(s.syncs) + Calls(XAPrepare, s.resources)
                        + Calls(XACommit, ReadWriteVoters(s.resources)) + AfterCompletionCalls(s.syncs, STATUS_COMMITTED)
  {
    var k := FirstStop(s.resources, PrepareStops);
    assert k == |s.resources|;
    var ws := ReadWriteVoters(s.resources);
    var j := FirstStop(ws, CommitStops);
    forall i | 0 <= i < |ws| ensures !CommitStops(ws[i]) {
      assert ws[i] in s.resources;
    }
    assert j == |ws|;
  }

  /** As written, a transaction marked for rollback only commits when every resource votes and
      commits: the MARKED_ROLLBACK status is overwritten by the prepare phase. */
  lemma MarkedRollbackStillCommits()
    ensures var a := XAResource(1, Succeeds, Votes(XA_OK), Succeeds, Succeeds);
      var c := CommitOutcome(TxState(STATUS_MARKED_ROLLBACK, [a], [], XA_OK, []));
      c.state.status == STATUS_COMMITTED && c.thrown.None? && XACall(XACommit, a) in c.state.log
  {
    var a := XAResource(1, Succeeds, Votes(XA_OK), Succeeds, Succeeds);
    assert FirstStop([a], PrepareStops) == 1;
    assert FirstStop([a], CommitStops) == 1;
  }

  /** As evidently intended, commit() of a transaction marked for rollback only prepares and
      commits nothing: every resource is asked to roll back and RollbackException is thrown
      (or the non-XA throwable that stopped the rollback escapes). */
  lemma IntendedCommitHonoursRollbackOnly(s: TxState)
    requires s.status == STATUS_MARKED_ROLLBACK
    ensures var c := IntendedCommitOutcome(s);
      var k := FirstStop(s.resources, RollbackStops);
      && c.state.status == STATUS_ROLLING_BACK
      && c.state.log == s.log + Calls(XARollback, Through(s.resources, k))
      && c.thrown == Some(if k < |s.resources| then UncheckedThrowable(s.resources[k].id)
                          else RollbackException("Exception rolled back"))
  {
  }

  // ---------------------------------------------------------------------------
  // Helper lemmas

  lemma FirstStopAt(rs: seq<XAResource>, stops: XAResource -> bool, i: nat)
    requires i <= |rs|
    requires forall j :: 0 <= j < i ==> !stops(rs[j])
    requires i < |rs| ==> stops(rs[i])
    ensures FirstStop(rs, stops) == i
  {
  }

  lemma CallsSnoc(phase: XAPhase, rs: seq<XAResource>, i: nat)
    requires i < |rs|
    ensures Calls(phase, rs[..i + 1]) == Calls(phase, rs[..i]) + [XACall(phase, rs[i])]
  {
  }

  // ---------------------------------------------------------------------------
  // The transaction manager and the transaction

  /** DummyBaseTransactionManager, reduced to the transaction associated with the caller. */
  class TransactionManager {
    var current: DummyTransaction?

    constructor ()
      ensures current == null
    {
      current := null;
    }
  }

  class DummyTransaction {
    const tm: TransactionManager
    var status: int
    var resources: seq<XAResource>
    var syncs: seq<Synchronization>     // the HashSet, in its iteration order; no duplicates
    var prepareStatus: int
    var log: seq<Event>                 // calls made to resources and synchronizations

    function State(): TxState
      reads this
    {
      TxState(status, resources, syncs, prepareStatus, log)
    }

    constructor (tm: TransactionManager)
      ensures this.tm == tm
      ensures State() == TxState(STATUS_ACTIVE, [], [], 0, [])
    {
      this.tm := tm;
      status := STATUS_ACTIVE;
      resources := [];
      syncs := [];
      prepareStatus := 0;
      log := [];
    }

    function GetStatus(): int
      reads this
    {
      status
    }

    method SetRollbackOnly()
      modifies this`status
      ensures status == STATUS_MARKED_ROLLBACK
    {
      status := STATUS_MARKED_ROLLBACK;
    }

    /** Appends the resource, then starts it; the resource stays enlisted even when start fails. */
    method EnlistResource(res: XAResource) returns (r: Result<bool>)
      modifies this`resources, this`log
      ensures resources == old(resources) + [res]
      ensures log == old(log) + [XACall(XAStart, res)]
      ensures r == match res.onStart
        case Succeeds => Ok(true)
        case ThrowsXA => Err(SystemException("XAException on start"))
        case ThrowsOther => Err(UncheckedThrowable(res.id))
    {
      resources := resources + [res];
      log := log + [XACall(XAStart, res)];
      match res.onStart {
        case Succeeds => r := Ok(true);
        case ThrowsXA => r := Err(SystemException("XAException on start"));
        case ThrowsOther => r := Err(UncheckedThrowable(res.id));
      }
    }

    method DelistResource(res: XAResource, flag: int) returns (r: Result<bool>)
      ensures r == Err(SystemException("not supported"))
    {
      r := Err(SystemException("not supported"));
    }

    method RegisterSynchronization(sync: Option<Synchronization>) returns (thrown: Option<Exception>)
      modifies this`syncs
      ensures sync.None? ==> thrown == Some(IllegalArgumentException("null synchronization"))
      ensures sync.Some? ==> thrown == RegistrationRefusal(status)
      ensures thrown.None? ==> syncs == if sync.value in old(syncs) then old(syncs) else old(syncs) + [sync.value]
      ensures thrown.Some? ==> syncs == old(syncs)
    {
      if sync.None? {
        return Some(IllegalArgumentException("null synchronization"));
      }
      thrown := RegistrationRefusal(status);
      if thrown.None? && sync.value !in syncs {
        syncs := syncs + [sync.value];
      }
    }

    method NotifyBeforeCompletion() returns (ok: bool)
      modifies this`log
      ensures ok == BeforeCompletionSucceeds(syncs)
      ensures log == old(log) + BeforeCompletionCalls(syncs)
    {
      ok := true;
      var i := 0;
      while i < |syncs|
        invariant 0 <= i <= |syncs|
        invariant ok == BeforeCompletionSucceeds(syncs[..i])
        invariant log == old(log) + BeforeCompletionCalls(syncs[..i])
      {
        log := log + [BeforeCompletionCall(syncs[i])];
        if syncs[i].failsBefore {
          ok := false;
        }
        i := i + 1;
      }
      assert syncs[..i] == syncs;
    }

    method NotifyAfterCompletion(st: int)
      modifies this`log, this`syncs
      ensures State() == AfterCompletion(old(State()), st)
    {
      var i := 0;
      while i < |syncs|
        invariant 0 <= i <= |syncs|
        invariant syncs == old(syncs)
        invariant log == old(log) + AfterCompletionCalls(syncs[..i], st)
      {
        log := log + [AfterCompletionCall(syncs[i], st)];
        i := i + 1;
      }
      assert syncs[..i] == syncs;
      syncs := [];
    }

    /** Returns Ok(false) when a resource throws XAException ("wants to roll back"). */
    method RunPrepare() returns (r: Result<bool>)
      requires tm.current == this
      modifies this`log, this`prepareStatus
      ensures var k := FirstStop(resources, PrepareStops);
        && log == old(log) + Calls(XAPrepare, Through(resources, k))
        && prepareStatus == LastVote(resources[..k], old(prepareStatus))
        && r == (if k == |resources| then Ok(true)
                 else if resources[k].onPrepare == PrepareThrowsXA then Ok(false)
                 else Err(SystemException("Unexpected error from resource manager")))
    {
      var transaction := tm.current;
      var rs := transaction.resources;
      var i := 0;
      while i < |rs|
        invariant 0 <= i <= |rs|
        invariant forall j :: 0 <= j < i ==> !PrepareStops(rs[j])
        invariant log == old(log) + Calls(XAPrepare, rs[..i])
        invariant prepareStatus == LastVote(rs[..i], old(prepareStatus))
      {
        var res := rs[i];
        log := log + [XACall(XAPrepare, res)];
        CallsSnoc(XAPrepare, rs, i);
        match res.onPrepare {
          case Votes(code) =>
            transaction.prepareStatus := code;
          case PrepareThrowsXA =>
            FirstStopAt(rs, PrepareStops, i);
            return Ok(false);
          case PrepareThrowsOther =>
            FirstStopAt(rs, PrepareStops, i);
            return Err(SystemException("Unexpected error from resource manager"));
        }
        assert rs[..i + 1][..i] == rs[..i];
        i := i + 1;
      }
      FirstStopAt(rs, PrepareStops, i);
      assert rs[..i] == rs;
      r := Ok(true);
    }

    /** Best effort: an XAException is caught; any other throwable escapes. */
    method RunRollback() returns (escaped: Option<Exception>)
      requires tm.current == this
      modifies this`log
      ensures Completion(State(), escaped) == RollbackPhase(old(State()))
    {
      var transaction := tm.current;
      var rs := transaction.resources;
      var i := 0;
      while i < |rs|
        invariant 0 <= i <= |rs|
        invariant forall j :: 0 <= j < i ==> !RollbackStops(rs[j])
        invariant log == old(log) + Calls(XARollback, rs[..i])
      {
        var res := rs[i];
        log := log + [XACall(XARollback, res)];
        CallsSnoc(XARollback, rs, i);
        if res.onRollback == ThrowsOther {
          FirstStopAt(rs, RollbackStops, i);
          return Some(UncheckedThrowable(res.id));
        }
        // an XAException is only logged
        i := i + 1;
      }
      FirstStopAt(rs, RollbackStops, i);
      assert rs[..i] == rs;
      escaped := None;
    }

    /** Commits every resource two-phase, unless the recorded prepare status is XA_RDONLY. */
    method RunCommitTx() returns (thrown: Option<Exception>)
      requires tm.current == this
      modifies this`log
      ensures prepareStatus == XA_RDONLY ==> log == old(log) && thrown.None?
      ensures prepareStatus != XA_RDONLY ==>
        var k := FirstStop(resources, CommitStops);
        && log == old(log) + Calls(XACommit, Through(resources, k))
        && thrown == (if k == |resources| then None
                      else if resources[k].onCommit == ThrowsXA then Some(HeuristicMixedException)
                      else Some(UncheckedThrowable(resources[k].id)))
    {
      var transaction := tm.current;
      if transaction.prepareStatus == XA_RDONLY {
        return None;
      }
      var rs := transaction.resources;
      var i := 0;
      while i < |rs|
        invariant 0 <= i <= |rs|
        invariant forall j :: 0 <= j < i ==> !CommitStops(rs[j])
        invariant log == old(log) + Calls(XACommit, rs[..i])
      {
        var res := rs[i];
        log := log + [XACall(XACommit, res)];
        CallsSnoc(XACommit, rs, i);
        if res.onCommit == ThrowsXA {
          FirstStopAt(rs, CommitStops, i);
          return Some(HeuristicMixedException);
        } else if res.onCommit == ThrowsOther {
          FirstStopAt(rs, CommitStops, i);
          return Some(UncheckedThrowable(res.id));
        }
        i := i + 1;
      }
      FirstStopAt(rs, CommitStops, i);
      assert rs[..i] == rs;
      thrown := None;
    }

    method Commit() returns (thrown: Option<Exception>)
      requires tm.current == this
      modifies this, tm
      ensures tm.current == null
      ensures Completion(State(), thrown) == CommitOutcome(old(State()))
    {
      var successfulInit := NotifyBeforeCompletion();
      if successfulInit {
        status := STATUS_PREPARING;
      }
      var prepared := false;
      if successfulInit {
        var p := RunPrepare();
        if p.Err? {
          tm.current := null;
          return Some(p.error);
        }
        prepared := p.value;
      }
      if !prepared {
        status := STATUS_ROLLING_BACK;
      } else {
        status := STATUS_PREPARED;
      }

      if status == STATUS_MARKED_ROLLBACK || status == STATUS_ROLLING_BACK {
        thrown := RunRollback();
        if thrown.None? {
          thrown := Some(RollbackException("Exception rolled back"));
        }
        tm.current := null;
        return;
      }

      thrown := CommitPhase();
      tm.current := null;
    }

    /** commit()'s inner try block (lines 97-107): commit, set the final status, then tell the
        synchronizations in its finally clause. */
    method CommitPhase() returns (thrown: Option<Exception>)
      requires tm.current == this
      modifies this`status, this`log, this`syncs
      ensures Completion(State(), thrown) == CommitPrepared(old(State()))
    {
      status := STATUS_COMMITTING;
      thrown := RunCommitTx();
      if thrown == Some(HeuristicMixedException) {
        status := STATUS_UNKNOWN;
      } else if thrown.None? {
        status := STATUS_COMMITTED;
      }
      NotifyAfterCompletion(status);
    }

    /** Any throwable is wrapped in IllegalStateException; the association is cleared only on success. */
    method Rollback() returns (thrown: Option<Exception>)
      requires tm.current == this
      modifies this, tm
      ensures Completion(State(), thrown) == RollbackOutcome(old(State()))
      ensures tm.current == if thrown.None? then null else this
    {
      status := STATUS_ROLLING_BACK;
      var escaped := RunRollback();
      if escaped.Some? {
        return Some(IllegalStateException("rollback failed"));
      }
      status := STATUS_ROLLEDBACK;
      NotifyAfterCompletion(STATUS_ROLLEDBACK);
      tm.current := null;
      thrown := None;
    }
  }
}
