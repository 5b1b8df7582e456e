/** The invalidate command: it drops a list of keys from memory, one removal
    per key, and travels as a count-prefixed parameter array.

    The removal of one key (the superclass's perform, which is not part of this
    model) is an abstract per-key effect recorded in the `invalidated` log. */
module Invalidation {
  import opened Base

  const COMMAND_ID: int := 6

  /** One element of the marshalled parameter array: the key count or a key. */
  datatype Param = CountParam(n: int) | KeyParam(k: Key)

  /** getParameters() as a value: the count, then the keys in array order; a null key array
      is sent as no keys. */
  function Parameters(keys: Option<seq<Key>>): (args: seq<Param>)
    ensures |args| == (if keys.None? then 0 else |keys.value|) + 1
    ensures args[0] == CountParam(|args| - 1)
    ensures forall i | 1 <= i < |args| :: args[i] == KeyParam(keys.value[i - 1])
  {
    if keys.None? || |keys.value| == 0 then [CountParam(0)]
    else if |keys.value| == 1 then [CountParam(1), KeyParam(keys.value[0])]
    else [CountParam(|keys.value|)] + seq(|keys.value|, i requires 0 <= i < |keys.value| => KeyParam(keys.value[i]))
  }

  /** The array setParameters can read: a non-negative count followed by at least that many keys. */
  predicate WellFormed(args: seq<Param>)
  {
    && |args| >= 1
    && args[0].CountParam?
    && 0 <= args[0].n < |args|
    && forall i | 1 <= i <= args[0].n :: args[i].KeyParam?
  }

  /** setParameters(commandId, args) as a value: the key array it installs. */
  function ApplyParameters(commandId: int, args: seq<Param>): (r: Result<seq<Key>>)
    requires commandId == COMMAND_ID ==> WellFormed(args)
    ensures commandId != COMMAND_ID <==> r.Err?
    ensures r.Err? ==> r.error.IllegalStateException?
    ensures r.Ok? ==> |r.value| == args[0].n
  {
    if commandId != COMMAND_ID then Err(IllegalStateException("Invalid method id"))
    else Ok(seq(args[0].n, i requires 0 <= i < args[0].n => args[i + 1].k))
  }

  /** setParameters(COMMAND_ID, getParameters()) restores the keys; a null key array comes back
      as an empty one. */
  lemma ParametersRoundTrip(keys: Option<seq<Key>>)
    ensures WellFormed(Parameters(keys))
    ensures ApplyParameters(COMMAND_ID, Parameters(keys)) == Ok(if keys.None? then [] else keys.value)
  {
    var ks := if keys.None? then [] else keys.value;
    var r := ApplyParameters(COMMAND_ID, Parameters(keys)).value;
    assert |r| == |ks|;
    forall i | 0 <= i < |ks| ensures r[i] == ks[i] {
      assert Parameters(keys)[i + 1] == KeyParam(ks[i]);
    }
    assert r == ks;
  }

  /** Conversely, the parameters of the decoded keys are the prefix of the array that was read. */
  lemma DecodeThenEncode(args: seq<Param>)
    requires WellFormed(args)
    ensures Parameters(Some(ApplyParameters(COMMAND_ID, args).value)) == args[..args[0].n + 1]
  {
    var ks := ApplyParameters(COMMAND_ID, args).value;
    var p := Parameters(Some(ks));
    assert |p| == |args[..args[0].n + 1]|;
    forall i | 0 <= i < |p| ensures p[i] == args[i] {
      if i > 0 {
        assert p[i] == KeyParam(ks[i - 1]);
      }
    }
  }

  /** Elementwise comparison of two key arrays of the same length. */
  function ElementsEqual(a: seq<Key>, b: seq<Key>): (r: bool)
    requires |a| == |b|
    ensures r <==> a == b
  {
    if a == [] then true
    else a[0] == b[0] && ElementsEqual(a[1..], b[1..])
  }

  /** Arrays.equals on two possibly-null key arrays. */
  function ArraysEqual(a: Option<seq<Key>>, b: Option<seq<Key>>): (r: bool)
    ensures r <==> a == b
  {
    if a.None? || b.None? then a.None? && b.None?
    else |a.value| == |b.value| && ElementsEqual(a.value, b.value)
  }

  class InvalidateCommand {
    var keys: array?<Key>
    /** The inherited `key` field, which the superclass's removal reads. */
    var key: Option<Key>
    /** The keys handed to the superclass's removal, in order. */
    var invalidated: seq<Key>

    function KeyList(): Option<seq<Key>>
      reads this, keys
    {
      if keys == null then None else Some(keys[..])
    }

    /** The no-argument constructor used before setParameters. */
    constructor Empty()
      ensures keys == null && key.None? && invalidated == []
    {
      keys := null;
      key := None;
      invalidated := [];
    }

    /** The varargs constructor keeps the caller's array. */
    constructor Varargs(keys: array?<Key>)
      ensures this.keys == keys && key.None? && invalidated == []
    {
      this.keys := keys;
      key := None;
      invalidated := [];
    }

    /** The collection constructor: a null or empty collection gives an empty array, otherwise
        the elements in collection order. */
    constructor (keys: Option<seq<Key>>)
      ensures this.keys != null && fresh(this.keys)
      ensures this.keys[..] == if keys.None? then [] else keys.value
      ensures key.None? && invalidated == []
    {
      if keys.None? || |keys.value| == 0 {
        this.keys := new Key[0];
      } else {
        this.keys := new Key[|keys.value|](i requires 0 <= i < |keys.value| => keys.value[i]);
      }
      key := None;
      invalidated := [];
    }

    /** invalidate(ctx, k): the superclass removes the key it finds in `key`. */
    method Invalidate(k: Key)
      modifies this`key, this`invalidated
      ensures key == Some(k) && invalidated == old(invalidated) + [k]
    {
      key := Some(k);
      invalidated := invalidated + [k];
    }

    /** perform(ctx): invalidates each key once, in array order, and returns null; a null key
        array raises NullPointerException. */
    method Perform() returns (r: Result<Option<Value>>)
      modifies this`key, this`invalidated
      ensures keys == null ==> r == Err(NullPointerException) && invalidated == old(invalidated)
      ensures keys != null ==> r == Ok(None) && invalidated == old(invalidated) + keys[..]
      ensures keys != null && keys.Length > 0 ==> key == Some(keys[keys.Length - 1])
      ensures keys != null && keys.Length == 0 ==> key == old(key)
    {
      if keys == null {
        return Err(NullPointerException);
      }
      var i := 0;
      while i < keys.Length
        invariant 0 <= i <= keys.Length
        invariant invalidated == old(invalidated) + keys[..i]
        invariant i > 0 ==> key == Some(keys[i - 1])
        invariant i == 0 ==> key == old(key)
      {
        Invalidate(keys[i]);
        i := i + 1;
      }
      assert keys[..i] == keys[..];
      r := Ok(None);
    }

    method GetParameters() returns (args: array<Param>)
      ensures fresh(args)
      ensures args[..] == Parameters(KeyList())
    {
      if keys == null || keys.Length == 0 {
        args := new Param[1](_ => CountParam(0));
      } else if keys.Length == 1 {
        var only := keys[0];
        args := new Param[2](i => if i == 0 then CountParam(1) else KeyParam(only));
      } else {
        args := new Param[keys.Length + 1](_ => CountParam(0));
        args[0] := CountParam(keys.Length);
        // System.arraycopy(keys, 0, args, 1, keys.Length)
        var i := 0;
        while i < keys.Length
          invariant 0 <= i <= keys.Length
          invariant args[0] == CountParam(keys.Length)
          invariant forall j | 0 <= j < i :: args[j + 1] == KeyParam(keys[j])
        {
          args[i + 1] := KeyParam(keys[i]);
          i := i + 1;
        }
      }
    }

    method SetParameters(commandId: int, args: array<Param>) returns (thrown: Option<Exception>)
      requires commandId == COMMAND_ID ==> WellFormed(args[..])
      modifies this`keys
      ensures var r := ApplyParameters(commandId, args[..]);
        && (r.Ok? ==> thrown.None? && keys != null && fresh(keys) && keys[..] == r.value)
        && (r.Err? ==> thrown == Some(r.error) && keys == old(keys))
    {
      if commandId != COMMAND_ID {
        return Some(IllegalStateException("Invalid method id"));
      }
      var size := args[0].n;
      var copy := new Key[size];
      if size == 1 {
        copy[0] := args[1].k;
      } else if size > 0 {
        // System.arraycopy(args, 1, keys, 0, size)
        var i := 0;
        while i < size
          invariant 0 <= i <= size
          invariant forall j | 0 <= j < i :: copy[j] == args[j + 1].k
        {
          copy[i] := args[i + 1].k;
          i := i + 1;
        }
      }
      keys := copy;
      thrown := None;
    }

    /** getKey() is not supported on a multi-key command. */
    function GetKey(): (r: Result<Key>)
      ensures r.Err? && r.error == UnsupportedOperationException
    {
      Err(UnsupportedOperationException)
    }

    /** equals(o): the same object, or another invalidate command that the superclass deems
        equal and whose key arrays are elementwise equal (both null counts as equal). */
    predicate Equals(that: InvalidateCommand?, superEquals: bool)
      reads this, keys, that, if that == null then null else that.keys
      ensures Equals(that, superEquals) <==>
        this == that || (that != null && superEquals && KeyList() == that.KeyList())
    {
      this == that || (that != null && superEquals && ArraysEqual(KeyList(), that.KeyList()))
    }
  }
}
