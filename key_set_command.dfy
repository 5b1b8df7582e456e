/** The key-set command and its transactional projection.

    Without transactional modifications, `perform` wraps the data container's
    key set unchanged. Otherwise it returns a filtered, read-only view that
    layers the entries the transaction has looked up (each marked created,
    changed or removed) on the container's key set: its size adjusts the
    container's count, its membership test consults the looked-up entry first,
    and its iterator yields the created keys and then the container keys the
    transaction has not removed.

    The container's key set is a duplicate-free sequence (its iteration order)
    and the looked-up entries a sequence in the order of the map's values. */
module KeySet {
  import opened Base

  /** A looked-up entry, with the markers the filtered view reads. */
  datatype CacheEntry = CacheEntry(key: Key, created: bool, changed: bool, removed: bool)

  predicate DistinctKeys(es: seq<CacheEntry>)
  {
    forall i, j :: 0 <= i < j < |es| ==> es[i].key != es[j].key
  }

  predicate Distinct(ks: seq<Key>)
  {
    forall i, j :: 0 <= i < j < |ks| ==> ks[i] != ks[j]
  }

  /** lookedUpEntries.get(k): the entry for k, or null. */
  function Lookup(es: seq<CacheEntry>, k: Key): (r: Option<CacheEntry>)
    ensures r.Some? ==> r.value in es && r.value.key == k
    ensures r.None? <==> forall e | e in es :: e.key != k
  {
    if es == [] then None
    else if es[0].key == k then Some(es[0])
    else Lookup(es[1..], k)
  }

  /** The looked-up entry for k exists and is marked removed. */
  predicate RemovedKey(es: seq<CacheEntry>, k: Key)
  {
    var e := Lookup(es, k);
    e.Some? && e.value.removed
  }

  /** What the filtered view holds. */
  datatype FilteredKeySet = FilteredKeySet(keySet: seq<Key>, lookedUpEntries: seq<CacheEntry>)

  /** What perform returns: the container's keys, wrapped read-only, or the filtered view. */
  datatype KeySetResult = Immutable(keys: seq<Key>) | Filtered(view: FilteredKeySet)

  /** perform(ctx). Whether the context has transactional modifications is decided by the
      superclass and is a parameter here. */
  function Perform(noTxModifications: bool, containerKeys: seq<Key>, lookedUp: seq<CacheEntry>): (r: KeySetResult)
    ensures noTxModifications <==> r.Immutable?
    ensures r.Immutable? ==> r.keys == containerKeys
    ensures r.Filtered? ==> r.view.keySet == containerKeys && r.view.lookedUpEntries == lookedUp
  {
    if noTxModifications then Immutable(containerKeys)
    else Filtered(FilteredKeySet(containerKeys, lookedUp))
  }

  /** What one looked-up entry does to size(): a created entry adds one, otherwise a removed one
      takes one away. */
  function Weight(e: CacheEntry): int
  {
    if e.created then 1 else if e.removed then -1 else 0
  }

  function Delta(es: seq<CacheEntry>): int
  {
    if es == [] then 0 else Weight(es[0]) + Delta(es[1..])
  }

  /** size(): the container's count adjusted by the looked-up entries, never below zero. The
      container's keys form a set, so its count is the length of a duplicate-free sequence. */
  method Size(s: FilteredKeySet) returns (n: int)
    requires Distinct(s.keySet)
    ensures n >= 0
    ensures n == if |s.keySet| + Delta(s.lookedUpEntries) < 0 then 0 else |s.keySet| + Delta(s.lookedUpEntries)
  {
    var size := |s.keySet|;
    var es := s.lookedUpEntries;
    var i := 0;
    while i < |es|
      invariant 0 <= i <= |es|
      invariant size + Delta(es[i..]) == |s.keySet| + Delta(es)
    {
      assert es[i..][1..] == es[i + 1..];
      var e := es[i];
      if e.created {
        size := size + 1;
      } else if e.removed {
        size := size - 1;
      }
      i := i + 1;
    }
    n := if size < 0 then 0 else size;
  }

  /** contains(o). The looked-up entry is dereferenced without a null check, so a key the
      transaction has not looked up raises NullPointerException. */
  function Contains(s: FilteredKeySet, k: Key): (r: Result<bool>)
    ensures r.Err? <==> Lookup(s.lookedUpEntries, k).None?
    ensures r.Err? ==> r.error == NullPointerException
    ensures RemovedKey(s.lookedUpEntries, k) ==> r == Ok(false)
  {
    match Lookup(s.lookedUpEntries, k)
    case None => Err(NullPointerException)
    case Some(e) =>
      if e.removed then Ok(false)
      else if e.changed || e.created then Ok(true)
      else Ok(k in s.keySet)
  }

  /** The mutators of the view and of its iterator. */
  datatype Mutator = Add(k: Key) | Remove(k: Key) | AddAll(ks: seq<Key>) | RetainAll(ks: seq<Key>)
                   | RemoveAll(ks: seq<Key>) | Clear | IteratorRemove

  /** The view is read-only: every mutator raises UnsupportedOperationException. */
  function Mutate(s: FilteredKeySet, m: Mutator): (r: Result<bool>)
    ensures r == Err(UnsupportedOperationException)
  {
    Err(UnsupportedOperationException)
  }

  // ---------------------------------------------------------------------------
  // The order of iteration

  /** The keys of the created entries, in lookup order. */
  function CreatedKeys(es: seq<CacheEntry>): (ks: seq<Key>)
    ensures |ks| <= |es|
  {
    if es == [] then []
    else (if es[0].created then [es[0].key] else []) + CreatedKeys(es[1..])
  }

  /** The container keys whose looked-up entry is absent or not removed, in container order. */
  function Surviving(keys: seq<Key>, es: seq<CacheEntry>): (ks: seq<Key>)
    ensures |ks| <= |keys|
  {
    if keys == [] then []
    else (if RemovedKey(es, keys[0]) then [] else [keys[0]]) + Surviving(keys[1..], es)
  }

  /** The sequence the iterator yields. */
  function Iteration(s: FilteredKeySet): seq<Key>
  {
    CreatedKeys(s.lookedUpEntries) + Surviving(s.keySet, s.lookedUpEntries)
  }

  lemma {:induction false} CreatedKeysMembers(es: seq<CacheEntry>, k: Key)
    ensures k in CreatedKeys(es) <==> exists e | e in es :: e.created && e.key == k
  {
    if es != [] {
      CreatedKeysMembers(es[1..], k);
      if k in CreatedKeys(es[1..]) {
        var e :| e in es[1..] && e.created && e.key == k;
        assert e in es;
      }
      if exists e | e in es :: e.created && e.key == k {
        var e :| e in es && e.created && e.key == k;
        if e != es[0] {
          assert e in es[1..];
        }
      }
    }
  }

  lemma {:induction false} SurvivingMembers(keys: seq<Key>, es: seq<CacheEntry>, k: Key)
    ensures k in Surviving(keys, es) <==> k in keys && !RemovedKey(es, k)
  {
    if keys != [] {
      SurvivingMembers(keys[1..], es, k);
      assert keys == [keys[0]] + keys[1..];
    }
  }

  /** Membership in the iteration: a key is yielded exactly when a created entry carries it, or
      the container holds it and the transaction has not removed it. */
  lemma IterationMembers(s: FilteredKeySet, k: Key)
    ensures k in Iteration(s) <==>
      (exists e | e in s.lookedUpEntries :: e.created && e.key == k)
      || (k in s.keySet && !RemovedKey(s.lookedUpEntries, k))
  {
    CreatedKeysMembers(s.lookedUpEntries, k);
    SurvivingMembers(s.keySet, s.lookedUpEntries, k);
  }

  /** The iterator does not de-duplicate: a created key the container also holds is yielded twice. */
  lemma CreatedContainerKeyRepeats(s: FilteredKeySet, k: Key)
    requires exists e | e in s.lookedUpEntries :: e.created && e.key == k
    requires k in s.keySet && !RemovedKey(s.lookedUpEntries, k)
    ensures multiset(Iteration(s))[k] >= 2
  {
    CreatedKeysMembers(s.lookedUpEntries, k);
    SurvivingMembers(s.keySet, s.lookedUpEntries, k);
    var a := CreatedKeys(s.lookedUpEntries);
    var b := Surviving(s.keySet, s.lookedUpEntries);
    assert multiset(a + b) == multiset(a) + multiset(b);
  }

  // ---------------------------------------------------------------------------
  // Agreement of size, contains and iteration on a coherent transaction

  /** The markers agree with the container: a created key is new to it, a removed or merely
      changed key is in it, and no entry is both created and removed. */
  predicate Coherent(s: FilteredKeySet)
  {
    && Distinct(s.keySet)
    && DistinctKeys(s.lookedUpEntries)
    && forall e | e in s.lookedUpEntries ::
         && !(e.created && e.removed)
         && (e.created ==> e.key !in s.keySet)
         && (e.removed ==> e.key in s.keySet)
         && (e.changed && !e.created ==> e.key in s.keySet)
  }

  /** For a key the transaction has looked up, contains agrees with what the iterator yields. */
  lemma ContainsAgreesWithIteration(s: FilteredKeySet, k: Key)
    requires Coherent(s)
    requires Lookup(s.lookedUpEntries, k).Some?
    ensures Contains(s, k) == Ok(k in Iteration(s))
  {
    IterationMembers(s, k);
    var e := Lookup(s.lookedUpEntries, k).value;
    if exists e' | e' in s.lookedUpEntries :: e'.created && e'.key == k {
      var e' :| e' in s.lookedUpEntries && e'.created && e'.key == k;
      LookupUnique(s.lookedUpEntries, e', k);
    }
  }

  /** With distinct keys, the entry found for a key is the only one carrying it. */
  lemma {:induction false} LookupUnique(es: seq<CacheEntry>, e: CacheEntry, k: Key)
    requires DistinctKeys(es)
    requires e in es && e.key == k
    ensures Lookup(es, k) == Some(e)
  {
    if es[0] != e {
      assert e in es[1..];
      HeadKeyUnique(es);
      LookupUnique(es[1..], e, k);
    }
  }

  /** With distinct keys, the first entry's key is carried by no later entry. */
  lemma HeadKeyUnique(es: seq<CacheEntry>)
    requires DistinctKeys(es) && es != []
    ensures DistinctKeys(es[1..])
    ensures forall e | e in es[1..] :: e.key != es[0].key
  {
    forall e | e in es[1..] ensures e.key != es[0].key {
      var j :| 0 <= j < |es[1..]| && es[1..][j] == e;
      assert es[j + 1] == e;
    }
  }

  function EntryKeys(es: seq<CacheEntry>): set<Key>
  {
    set e | e in es :: e.key
  }

  /** The keys of the removed entries. */
  function RemovedKeys(es: seq<CacheEntry>): set<Key>
  {
    if es == [] then {} else (if es[0].removed then {es[0].key} else {}) + RemovedKeys(es[1..])
  }

  function CreatedCount(es: seq<CacheEntry>): nat
  {
    if es == [] then 0 else (if es[0].created then 1 else 0) + CreatedCount(es[1..])
  }

  function RemovedOnlyCount(es: seq<CacheEntry>): nat
  {
    if es == [] then 0 else (if !es[0].created && es[0].removed then 1 else 0) + RemovedOnlyCount(es[1..])
  }

  lemma {:induction false} DeltaSplits(es: seq<CacheEntry>)
    ensures Delta(es) == CreatedCount(es) - RemovedOnlyCount(es)
    ensures |CreatedKeys(es)| == CreatedCount(es)
  {
    if es != [] {
      DeltaSplits(es[1..]);
    }
  }

  lemma {:induction false} RemovedKeysCarried(es: seq<CacheEntry>)
    ensures RemovedKeys(es) <= EntryKeys(es)
  {
    if es != [] {
      RemovedKeysCarried(es[1..]);
      assert EntryKeys(es) == {es[0].key} + EntryKeys(es[1..]);
    }
  }

  lemma {:induction false} RemovedKeysAreRemoved(es: seq<CacheEntry>, k: Key)
    requires DistinctKeys(es)
    ensures k in RemovedKeys(es) <==> RemovedKey(es, k)
  {
    if es != [] {
      HeadKeyUnique(es);
      RemovedKeysAreRemoved(es[1..], k);
      RemovedKeysCarried(es[1..]);
    }
  }

  lemma {:induction false} RemovedKeysCount(es: seq<CacheEntry>)
    requires DistinctKeys(es)
    requires forall e | e in es :: !(e.created && e.removed)
    ensures |RemovedKeys(es)| == RemovedOnlyCount(es)
  {
    if es != [] {
      assert forall e | e in es[1..] :: e in es;
      HeadKeyUnique(es);
      RemovedKeysCount(es[1..]);
      RemovedKeysCarried(es[1..]);
    }
  }

  /** The container keys the transaction removed. */
  function RemovedAmong(keys: seq<Key>, es: seq<CacheEntry>): set<Key>
  {
    set k | k in keys && RemovedKey(es, k)
  }

  lemma DistinctTail(keys: seq<Key>)
    requires keys != [] && Distinct(keys)
    ensures Distinct(keys[1..]) && keys[0] !in keys[1..]
  {
    forall j | 0 <= j < |keys| - 1 ensures keys[1..][j] != keys[0] {
      assert keys[1..][j] == keys[j + 1];
    }
  }

  lemma RemovedAmongCons(keys: seq<Key>, es: seq<CacheEntry>)
    requires keys != []
    ensures RemovedAmong(keys, es)
            == RemovedAmong(keys[1..], es) + (if RemovedKey(es, keys[0]) then {keys[0]} else {})
  {
    assert keys == [keys[0]] + keys[1..];
  }

  lemma {:induction false} SurvivingCount(keys: seq<Key>, es: seq<CacheEntry>)
    requires Distinct(keys)
    ensures |Surviving(keys, es)| == |keys| - |RemovedAmong(keys, es)|
  {
    if keys != [] {
      var tail := keys[1..];
      DistinctTail(keys);
      SurvivingCount(tail, es);
      RemovedAmongCons(keys, es);
      assert keys[0] !in RemovedAmong(tail, es);
    }
  }


  /** On a coherent transaction, size() counts exactly the keys the iterator yields. */
  lemma SizeMatchesIteration(s: FilteredKeySet)
    requires Coherent(s)
    ensures |s.keySet| + Delta(s.lookedUpEntries) == |Iteration(s)|
  {
    var es := s.lookedUpEntries;
    DeltaSplits(es);
    SurvivingCount(s.keySet, es);
    RemovedKeysCount(es);
    assert RemovedAmong(s.keySet, es) == RemovedKeys(es) by {
      forall k ensures k in RemovedAmong(s.keySet, es) <==> k in RemovedKeys(es) {
        RemovedKeysAreRemoved(es, k);
        if RemovedKey(es, k) {
          assert Lookup(es, k).value in es;
        }
      }
    }
  }

  // ---------------------------------------------------------------------------
  // The two-phase iterator

  /** The iterator over the filtered view: a cursor into the looked-up entries, then a cursor
      into the container's keys, and the key fetched ahead (None when none is pending). */
  class KeySetIterator {
    const view: FilteredKeySet
    var i1: nat
    var i2: nat
    var atIt1: bool
    var next: Option<Key>

    ghost predicate Valid()
      reads this
    {
      && i1 <= |view.lookedUpEntries|
      && i2 <= |view.keySet|
      && (atIt1 ==> i2 == 0)
    }

    /** The keys still to be yielded. */
    function Remaining(): seq<Key>
      reads this
      requires Valid()
    {
      (if next.Some? then [next.value] else [])
      + (if atIt1 then CreatedKeys(view.lookedUpEntries[i1..]) + Surviving(view.keySet, view.lookedUpEntries)
         else Surviving(view.keySet[i2..], view.lookedUpEntries))
    }

    constructor (view: FilteredKeySet)
      ensures Valid()
      ensures Remaining() == Iteration(view)
    {
      this.view := view;
      i1, i2 := 0, 0;
      atIt1 := true;
      next := None;
      new;
      FetchNext();
    }

    /** fetchNext(): advance to the next created entry, then to the next container key the
        transaction did not remove. */
    method FetchNext()
      requires Valid() && next.None?
      modifies this`i1, this`i2, this`atIt1, this`next
      ensures Valid()
      ensures Remaining() == old(Remaining())
      ensures next.None? ==> Remaining() == []
    {
      if atIt1 {
        SeekCreated();
      }
      if !atIt1 {
        SeekSurviving();
      }
    }

    /** The first loop of fetchNext, over the looked-up entries. */
    method SeekCreated()
      requires Valid() && next.None? && atIt1
      modifies this`i1, this`atIt1, this`next
      ensures Valid()
      ensures Remaining() == old(Remaining())
      ensures atIt1 <==> next.Some?
    {
      var es := view.lookedUpEntries;
      var found := false;
      while i1 < |es|
        invariant i1 <= |es| && next.None? && atIt1 && !found
        invariant CreatedKeys(es[i1..]) == old(CreatedKeys(es[i1..]))
      {
        assert es[i1..][1..] == es[i1 + 1..];
        var e := es[i1];
        i1 := i1 + 1;
        if e.created {
          next := Some(e.key);
          found := true;
          break;
        }
      }
      if !found {
        atIt1 := false;
        assert view.keySet[i2..] == view.keySet;
      }
    }

    /** The second loop of fetchNext, over the container's keys. */
    method SeekSurviving()
      requires Valid() && next.None? && !atIt1
      modifies this`i2, this`next
      ensures Valid()
      ensures Remaining() == old(Remaining())
      ensures next.None? ==> Remaining() == []
    {
      var es := view.lookedUpEntries;
      var ks := view.keySet;
      while i2 < |ks|
        invariant i2 <= |ks| && next.None?
        invariant Surviving(ks[i2..], es) == old(Surviving(ks[i2..], es))
      {
        assert ks[i2..][1..] == ks[i2 + 1..];
        var k := ks[i2];
        i2 := i2 + 1;
        if !RemovedKey(es, k) {
          next := Some(k);
          return;
        }
      }
    }

    /** hasNext() fetches ahead at most once and does not consume the fetched key. */
    method HasNext() returns (b: bool)
      requires Valid()
      modifies this`i1, this`i2, this`atIt1, this`next
      ensures Valid()
      ensures Remaining() == old(Remaining())
      ensures b <==> Remaining() != []
      ensures b ==> next.Some?
    {
      if next.None? {
        FetchNext();
      }
      b := next.Some?;
    }

    /** next() yields the first remaining key, or raises NoSuchElementException. */
    method Next() returns (r: Result<Key>)
      requires Valid()
      modifies this`i1, this`i2, this`atIt1, this`next
      ensures Valid()
      ensures old(Remaining()) == [] ==> r == Err(NoSuchElementException) && Remaining() == []
      ensures old(Remaining()) != [] ==> r == Ok(old(Remaining())[0]) && Remaining() == old(Remaining())[1..]
    {
      if next.None? {
        FetchNext();
      }
      if next.None? {
        return Err(NoSuchElementException);
      }
      var ret := next.value;
      next := None;
      r := Ok(ret);
    }
  }
}
