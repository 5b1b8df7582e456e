/** The lock-control command: a request, sent to other nodes, to lock or unlock a
    set of keys on behalf of a global transaction.

    The keys are held in one of three shapes: none (both fields null), one key
    held unboxed in `singleKey`, or a copied set in `keys`. The command is
    marshalled as a parameter array whose fourth element, the mode byte 1, 2
    or 3, says which shape follows. On the receiving node, `perform` looks the
    global transaction up in the remote transaction table (a map here) and
    hands the command to the interceptor chain, whose outcome is an oracle. */
module LockControl {
  import opened Base
  import Interceptors

  const COMMAND_ID: int := 3

  /** A cluster-wide transaction identifier. */
  type GlobalTransaction = nat

  /** One element of the marshalled parameter array. */
  datatype Param =
    | GtxParam(gtx: Option<GlobalTransaction>)
    | StringParam(s: Option<string>)
    | BoolParam(b: bool)
    | ByteParam(v: int)
    | KeyParam(k: Key)
    | KeySetParam(ks: set<Key>)
    | FlagsParam(fs: Option<set<Flag>>)

  /** The fields of a command. */
  datatype LockFields = LockFields(
    globalTx: Option<GlobalTransaction>,
    cacheName: Option<string>,
    keys: Option<set<Key>>,
    singleKey: Option<Key>,
    implicit: bool,
    unlock: bool,
    flags: Option<set<Flag>>)

  /** The two key fields are never both set. */
  predicate ValidFields(f: LockFields)
  {
    !(f.keys.Some? && f.singleKey.Some?)
  }

  function Elements(ks: seq<Key>): set<Key>
  {
    set k | k in ks
  }

  /** The constructor: null or empty keys give no key, one key is held unboxed and
      several keys are copied into a set. */
  function FromKeys(keys: Option<seq<Key>>, cacheName: Option<string>, flags: Option<set<Flag>>, implicit: bool): (f: LockFields)
    ensures ValidFields(f)
  {
    var base := LockFields(None, cacheName, None, None, implicit, false, flags);
    if keys.None? || |keys.value| == 0 then base
    else if |keys.value| == 1 then base.(singleKey := Some(keys.value[0]))
    else base.(keys := Some(Elements(keys.value)))
  }

  /** getKeys(). */
  function KeysOf(f: LockFields): set<Key>
  {
    if f.keys.None? then (if f.singleKey.None? then {} else {f.singleKey.value})
    else f.keys.value
  }

  /** multipleKeys(). */
  predicate MultipleKeys(f: LockFields)
  {
    f.keys.Some? && |f.keys.value| > 1
  }

  /** replaceKey(oldKey, replacement). */
  function Replaced(f: LockFields, oldKey: Key, replacement: Key): LockFields
  {
    if f.singleKey.Some? && f.singleKey.value == oldKey then f.(singleKey := Some(replacement))
    else if f.keys.Some? && oldKey in f.keys.value then f.(keys := Some(f.keys.value - {oldKey} + {replacement}))
    else f
  }

  /** replaceKeys(replacements), the map's entries taken in its iteration order. */
  function ReplacedAll(f: LockFields, replacements: seq<(Key, Key)>): LockFields
    decreases |replacements|
  {
    if replacements == [] then f
    else ReplacedAll(Replaced(f, replacements[0].0, replacements[0].1), replacements[1..])
  }

  /** getParameters(). */
  function Parameters(f: LockFields): (args: seq<Param>)
    ensures |args| == (if (f.keys.None? || f.keys.value == {}) && f.singleKey.None? then 5 else 6)
    ensures args[3] == ByteParam(if f.keys.Some? && f.keys.value != {} then 3 else if f.singleKey.Some? then 2 else 1)
  {
    var header := [GtxParam(f.globalTx), StringParam(f.cacheName), BoolParam(f.unlock)];
    if f.keys.None? || f.keys.value == {} then
      if f.singleKey.None? then header + [ByteParam(1), FlagsParam(f.flags)]
      else header + [ByteParam(2), KeyParam(f.singleKey.value), FlagsParam(f.flags)]
    else header + [ByteParam(3), KeySetParam(f.keys.value), FlagsParam(f.flags)]
  }

  /** The casts setParameters performs succeed. */
  predicate WellTyped(args: seq<Param>)
  {
    && |args| >= 4
    && args[0].GtxParam? && args[1].StringParam? && args[2].BoolParam? && args[3].ByteParam?
    && (args[3].v == 1 && |args| == 5 ==> args[4].FlagsParam?)
    && (args[3].v == 2 ==> |args| >= 5 && args[4].KeyParam? && (|args| == 6 ==> args[5].FlagsParam?))
    && (args[3].v == 3 ==> |args| >= 5 && args[4].KeySetParam? && (|args| == 6 ==> args[5].FlagsParam?))
  }

  /** setParameters(commandId, args). */
  function ApplyParameters(f: LockFields, commandId: int, args: seq<Param>): (r: Result<LockFields>)
    requires commandId == COMMAND_ID ==> WellTyped(args)
    ensures r.Ok? ==> ValidFields(r.value) && r.value.implicit == f.implicit
  {
    if commandId != COMMAND_ID then Err(IllegalStateException("Unusupported command id"))
    else
      var g := f.(globalTx := args[0].gtx, cacheName := args[1].s, unlock := args[2].b,
                  keys := None, singleKey := None);
      var mode := args[3].v;
      if mode == 1 then
        Ok(if |args| == 5 then g.(flags := args[4].fs) else g)
      else if mode == 2 then
        Ok(g.(singleKey := Some(args[4].k), flags := if |args| == 6 then args[5].fs else g.flags))
      else if mode == 3 then
        Ok(g.(keys := Some(args[4].ks), flags := if |args| == 6 then args[5].fs else g.flags))
      else Ok(g)
  }

  // ---------------------------------------------------------------------------
  // Properties of the key representation and of marshalling

  /** The constructor keeps exactly the given keys, and multipleKeys() holds exactly when
      more than one distinct key was given. */
  lemma ConstructorKeepsKeys(keys: Option<seq<Key>>, cacheName: Option<string>, flags: Option<set<Flag>>, implicit: bool)
    ensures var f := FromKeys(keys, cacheName, flags, implicit);
      && KeysOf(f) == (if keys.None? then {} else Elements(keys.value))
      && (MultipleKeys(f) <==> keys.Some? && |Elements(keys.value)| > 1)
      && (keys.Some? && |keys.value| == 1 ==> f.singleKey == Some(keys.value[0]) && f.keys.None?)
  {
    if keys.Some? && |keys.value| == 1 {
      assert Elements(keys.value) == {keys.value[0]};
    }
  }

  /** replaceKey substitutes the replacement for the old key when, and only when, the old key
      is present. */
  lemma ReplaceKeySubstitutes(f: LockFields, oldKey: Key, replacement: Key)
    requires ValidFields(f)
    ensures ValidFields(Replaced(f, oldKey, replacement))
    ensures oldKey in KeysOf(f) ==> KeysOf(Replaced(f, oldKey, replacement)) == KeysOf(f) - {oldKey} + {replacement}
    ensures oldKey !in KeysOf(f) ==> Replaced(f, oldKey, replacement) == f
  {
  }

  /** replaceKeys never adds a key other than a replacement, never grows the key set, and keeps
      the representation valid. */
  lemma {:induction false} ReplaceKeysBounded(f: LockFields, replacements: seq<(Key, Key)>)
    requires ValidFields(f)
    decreases |replacements|
    ensures var g := ReplacedAll(f, replacements);
      && ValidFields(g)
      && |KeysOf(g)| <= |KeysOf(f)|
      && KeysOf(g) <= KeysOf(f) + (set i | 0 <= i < |replacements| :: replacements[i].1)
      && g.globalTx == f.globalTx && g.unlock == f.unlock && g.flags == f.flags
  {
    if replacements != [] {
      var (o, n) := replacements[0];
      var f1 := Replaced(f, o, n);
      ReplaceKeySubstitutes(f, o, n);
      if o in KeysOf(f) {
        assert KeysOf(f1) == KeysOf(f) - {o} + {n};
        assert |KeysOf(f) - {o}| == |KeysOf(f)| - 1;
      }
      ReplaceKeysBounded(f1, replacements[1..]);
      var tail := set i | 0 <= i < |replacements[1..]| :: replacements[1..][i].1;
      var all := set i | 0 <= i < |replacements| :: replacements[i].1;
      assert n in all by { assert replacements[0].1 == n; }
      assert tail <= all by {
        forall x | x in tail ensures x in all {
          var i :| 0 <= i < |replacements[1..]| && replacements[1..][i].1 == x;
          assert replacements[i + 1].1 == x;
        }
      }
    }
  }

  /** setParameters(COMMAND_ID, getParameters()) restores the transaction, the cache name, the
      unlock flag, the key representation and the flags; only an empty (non-null) key set comes
      back as no key, which getKeys() cannot tell apart. */
  lemma ParametersRoundTrip(f: LockFields, target: LockFields)
    requires ValidFields(f)
    ensures WellTyped(Parameters(f))
    ensures var r := ApplyParameters(target, COMMAND_ID, Parameters(f));
      && r.Ok?
      && r.value.globalTx == f.globalTx && r.value.cacheName == f.cacheName
      && r.value.unlock == f.unlock && r.value.flags == f.flags
      && r.value.implicit == target.implicit
      && KeysOf(r.value) == KeysOf(f)
      && (f.keys != Some({}) ==> r.value.keys == f.keys && r.value.singleKey == f.singleKey)
  {
  }

  /** A foreign command id is refused. */
  lemma ForeignCommandIdRefused(f: LockFields, commandId: int, args: seq<Param>)
    requires commandId != COMMAND_ID
    ensures ApplyParameters(f, commandId, args).Err?
    ensures ApplyParameters(f, commandId, args).error.IllegalStateException?
  {
  }

  // ---------------------------------------------------------------------------
  // The remote side: perform against the remote transaction table

  /** The shadow of a transaction started on another node; created with no modifications. */
  datatype RemoteTransaction = RemoteTransaction(globalTx: GlobalTransaction, modifications: seq<Key>)

  /** The call perform hands to the interceptor chain: the remote transaction the context is
      bound to, and the flags that override the context's (None: no override). */
  datatype Invocation = Invocation(transaction: RemoteTransaction, flagsOverride: Option<set<Flag>>)

  /** What perform does to the table and to the chain, and what it returns. */
  datatype PerformOutcome = PerformOutcome(
    table: map<GlobalTransaction, RemoteTransaction>,
    invocation: Option<Invocation>,
    result: Result<Option<Value>>)

  function PerformSpec(f: LockFields, contextGiven: bool, table: map<GlobalTransaction, RemoteTransaction>,
                       downstream: Result<Option<Value>>): PerformOutcome
    requires !contextGiven ==> f.globalTx.Some?
  {
    if contextGiven then PerformOutcome(table, None, Err(IllegalStateException("Expected null context!")))
    else
      var gtx := f.globalTx.value;
      if gtx !in table && f.unlock then PerformOutcome(table, None, Ok(None))
      else
        var tx := if gtx in table then table[gtx] else RemoteTransaction(gtx, []);
        var override := if f.flags.Some? && f.flags.value != {} then f.flags else None;
        PerformOutcome(table[gtx := tx], Some(Invocation(tx, override)), downstream)
  }

  /** A non-null context is refused before the global transaction is looked at, so the
      refusal holds whether or not a transaction is attached; nothing else happens. */
  lemma PerformRefusesContext(f: LockFields, table: map<GlobalTransaction, RemoteTransaction>,
                              downstream: Result<Option<Value>>)
    ensures var o := PerformSpec(f, true, table, downstream);
      o.table == table && o.invocation.None? && o.result == Err(IllegalStateException("Expected null context!"))
  {
  }

  /** Unlocking a transaction this node does not know is a no-op returning null; locking
      for one creates exactly one new remote transaction, with no modifications; a known
      transaction is reused and the table is left alone. */
  lemma PerformUnknownTransaction(f: LockFields, table: map<GlobalTransaction, RemoteTransaction>,
                                  downstream: Result<Option<Value>>)
    requires f.globalTx.Some?
    ensures var o := PerformSpec(f, false, table, downstream);
      var gtx := f.globalTx.value;
      && (gtx !in table && f.unlock ==> o.table == table && o.invocation.None? && o.result == Ok(None))
      && (gtx !in table && !f.unlock ==>
            && o.table.Keys == table.Keys + {gtx}
            && |o.table.Keys| == |table.Keys| + 1
            && o.table[gtx] == RemoteTransaction(gtx, [])
            && (forall g :: g in table ==> o.table[g] == table[g])
            && o.invocation == Some(Invocation(o.table[gtx], o.invocation.value.flagsOverride))
            && o.result == downstream)
      && (gtx in table ==> o.table == table && o.invocation.Some? && o.invocation.value.transaction == table[gtx])
  {
  }

  class TransactionTable {
    var remoteTransactions: map<GlobalTransaction, RemoteTransaction>

    constructor ()
      ensures remoteTransactions == map[]
    {
      remoteTransactions := map[];
    }
  }

  class LockControlCommand {
    var globalTx: Option<GlobalTransaction>
    var cacheName: Option<string>
    var keys: Option<set<Key>>
    var singleKey: Option<Key>
    var implicit: bool
    var unlock: bool
    var flags: Option<set<Flag>>

    function Fields(): LockFields
      reads this
    {
      LockFields(globalTx, cacheName, keys, singleKey, implicit, unlock, flags)
    }

    /** The no-argument constructor used before setParameters. */
    constructor Empty()
      ensures Fields() == LockFields(None, None, None, None, false, false, None)
    {
      globalTx, cacheName, keys, singleKey := None, None, None, None;
      implicit, unlock, flags := false, false, None;
    }

    constructor (keys: Option<seq<Key>>, cacheName: Option<string>, flags: Option<set<Flag>>, implicit: bool)
      ensures Fields() == FromKeys(keys, cacheName, flags, implicit)
    {
      globalTx := None;
      this.cacheName := cacheName;
      this.keys := None;
      this.singleKey := None;
      unlock := false;
      if keys.Some? && |keys.value| != 0 {
        if |keys.value| == 1 {
          this.singleKey := Some(keys.value[0]);
        } else {
          // defensive copy
          this.keys := Some(Elements(keys.value));
        }
      }
      this.flags := flags;
      this.implicit := implicit;
    }

    method AttachGlobalTransaction(gtx: GlobalTransaction)
      modifies this`globalTx
      ensures Fields() == old(Fields()).(globalTx := Some(gtx))
    {
      globalTx := Some(gtx);
    }

    function GetKeys(): set<Key>
      reads this
    {
      KeysOf(Fields())
    }

    /** getSingleKey(): the unboxed key, else the first key of the set in its iteration order. */
    method GetSingleKey() returns (k: Option<Key>)
      ensures singleKey.Some? ==> k == singleKey
      ensures k.Some? <==> GetKeys() != {} || singleKey.Some?
      ensures k.Some? && singleKey.None? ==> k.value in GetKeys()
    {
      if singleKey.None? {
        if keys.Some? {
          if keys.value != {} {
            var sk :| sk in keys.value;
            return Some(sk);
          }
          return None;
        } else {
          return None;
        }
      } else {
        return singleKey;
      }
    }

    method ReplaceKey(oldKey: Key, replacement: Key)
      modifies this`singleKey, this`keys
      ensures Fields() == Replaced(old(Fields()), oldKey, replacement)
    {
      if singleKey.Some? && singleKey.value == oldKey {
        singleKey := Some(replacement);
      } else {
        if keys.Some? {
          if oldKey in keys.value {
            keys := Some(keys.value - {oldKey} + {replacement});
          }
        }
      }
    }

    method ReplaceKeys(replacements: seq<(Key, Key)>)
      modifies this`singleKey, this`keys
      ensures Fields() == ReplacedAll(old(Fields()), replacements)
    {
      var i := 0;
      while i < |replacements|
        invariant 0 <= i <= |replacements|
        invariant ReplacedAll(Fields(), replacements[i..]) == ReplacedAll(old(Fields()), replacements)
      {
        assert replacements[i..][1..] == replacements[i + 1..];
        ReplaceKey(replacements[i].0, replacements[i].1);
        i := i + 1;
      }
    }

    function GetParameters(): seq<Param>
      reads this
    {
      Parameters(Fields())
    }

    method SetParameters(commandId: int, args: seq<Param>) returns (thrown: Option<Exception>)
      requires commandId == COMMAND_ID ==> WellTyped(args)
      modifies this
      ensures var r := ApplyParameters(old(Fields()), commandId, args);
        && (r.Ok? ==> thrown.None? && Fields() == r.value)
        && (r.Err? ==> thrown == Some(r.error) && Fields() == old(Fields()))
    {
      if commandId != COMMAND_ID {
        return Some(IllegalStateException("Unusupported command id"));
      }
      globalTx := args[0].gtx;
      cacheName := args[1].s;
      unlock := args[2].b;
      keys := None;
      singleKey := None;
      var mode := args[3].v;
      if mode == 1 {
        if |args| == 5 {
          flags := args[4].fs;
        }
      } else if mode == 2 {
        singleKey := Some(args[4].k);
        if |args| == 6 {
          flags := args[5].fs;
        }
      } else if mode == 3 {
        keys := Some(args[4].ks);
        if |args| == 6 {
          flags := args[5].fs;
        }
      }
      thrown := None;
    }

    /** perform on the receiving node. The context argument must be null. */
    method Perform(ctx: Interceptors.InvocationContext?, txTable: TransactionTable,
                   downstream: Result<Option<Value>>)
      returns (r: Result<Option<Value>>, invocation: Option<Invocation>)
      requires ctx == null ==> globalTx.Some?
      modifies txTable
      ensures var o := PerformSpec(Fields(), ctx != null, old(txTable.remoteTransactions), downstream);
        && txTable.remoteTransactions == o.table && invocation == o.invocation && r == o.result
    {
      if ctx != null {
        return Err(IllegalStateException("Expected null context!")), None;
      }
      var gtx := globalTx.value;
      var transaction: RemoteTransaction;
      if gtx !in txTable.remoteTransactions {
        if unlock {
          return Ok(None), None;
        }
        // a remote transaction without any modifications
        transaction := RemoteTransaction(gtx, []);
        txTable.remoteTransactions := txTable.remoteTransactions[gtx := transaction];
      } else {
        transaction := txTable.remoteTransactions[gtx];
      }
      var override: Option<set<Flag>> := None;
      if flags.Some? && flags.value != {} {
        override := flags;
      }
      invocation := Some(Invocation(transaction, override));
      r := downstream;
    }
  }
}
