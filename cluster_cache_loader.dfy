/** The cluster cache loader: on a local read of a running cache it asks the
    other members of the cluster for the key and reconciles their responses.

    The remote procedure call is an oracle: its outcome (the responses the
    validity filter accepted, or the failure it raised) is a parameter, and the
    calls made are recorded in the loader's `remoteCalls` log. Responses are
    compared by value, as the response classes' equals does. */
module ClusterLoader {
  import opened Base

  type Address = nat

  /** An InternalCacheValue as carried in a response. */
  datatype CacheValue = CacheValue(value: Value, lifespan: int, maxIdle: int)

  /** The entry a loaded value becomes for its key. */
  datatype InternalCacheEntry = InternalCacheEntry(key: Key, value: Value, lifespan: int, maxIdle: int)

  /** A member's response: a SuccessfulResponse carrying a (possibly null) value, or a response
      of another class, successful or not. */
  datatype Response =
    | SuccessfulResponse(responseValue: Option<CacheValue>)
    | OtherResponse(kind: nat, successful: bool)

  /** A ClusteredGetCommand broadcast to the cluster, with the members whose responses the
      validity filter lets through. */
  datatype RemoteCall = ClusteredGet(key: Key, validMembers: set<Address>)

  const CONFLICTING_RESPONSES := "Responses contains more than 1 element and these elements are not equal, so can't decide which one to use"
  const UNKNOWN_RESPONSES := "Unknown responses from remote cache"
  const REMOTE_CALL_FAILED := "error while doing remote call"

  /** doRemoteCall's valid members, the ones whose responses count: the cluster members
      without the local address. */
  function ValidMembers(members: seq<Address>, self: Address): (t: set<Address>)
    ensures self !in t
    ensures forall a :: a in t <==> a in members && a != self
  {
    (set a | a in members) - {self}
  }

  function Distinct(rs: seq<Response>): set<Response>
  {
    set r | r in rs
  }

  /** What the single resolved response yields. */
  function FromResponse(key: Key, r: Response): (e: Result<Option<InternalCacheEntry>>)
    ensures e.Ok? <==> r.SuccessfulResponse? && r.responseValue.Some?
    ensures e.Ok? ==> e.value.Some? && e.value.value.key == key && e.value.value.value == r.responseValue.value.value
    ensures r.SuccessfulResponse? && r.responseValue.None? ==> e == Err(NullPointerException)
    ensures !r.SuccessfulResponse? ==> e == Err(CacheLoaderException(UNKNOWN_RESPONSES))
  {
    match r
    case SuccessfulResponse(v) =>
      if v.None? then Err(NullPointerException)
      else Ok(Some(InternalCacheEntry(key, v.value.value, v.value.lifespan, v.value.maxIdle)))
    case OtherResponse(_, _) => Err(CacheLoaderException(UNKNOWN_RESPONSES))
  }

  /** load(key)'s reconciliation of the responses: none gives null; several are first
      de-duplicated and more than one distinct response is refused; the one left is resolved. */
  function Resolve(key: Key, rs: seq<Response>): Result<Option<InternalCacheEntry>>
  {
    if |rs| == 0 then Ok(None)
    else if |rs| > 1 && |Distinct(rs)| > 1 then Err(CacheLoaderException(CONFLICTING_RESPONSES))
    else
      // the de-duplicated set then holds rs[0] alone
      FromResponse(key, rs[0])
  }

  /** load(key) as a function of the cache status, of where the call came from and of the
      outcome of the remote call. */
  function LoadOutcome(status: ComponentStatus, originLocal: bool, key: Key,
                       rpc: Result<seq<Response>>): Result<Option<InternalCacheEntry>>
  {
    if !(status == Running && originLocal) then Ok(None)
    else if rpc.Err? then Err(CacheLoaderException(REMOTE_CALL_FAILED))
    else Resolve(key, rpc.value)
  }

  // ---------------------------------------------------------------------------
  // Properties of the reconciliation

  lemma SingletonSet(rs: seq<Response>)
    requires |rs| > 0 && |Distinct(rs)| <= 1
    ensures Distinct(rs) == {rs[0]}
    ensures forall i | 0 <= i < |rs| :: rs[i] == rs[0]
  {
    assert rs[0] in Distinct(rs);
    forall i | 0 <= i < |rs| ensures rs[i] == rs[0] {
      if rs[i] != rs[0] {
        assert {rs[0], rs[i]} <= Distinct(rs);
        assert |{rs[0], rs[i]}| == 2;
        SubsetCardinality({rs[0], rs[i]}, Distinct(rs));
      }
    }
  }

  lemma SubsetCardinality(a: set<Response>, b: set<Response>)
    requires a <= b
    ensures |a| <= |b|
  {
    if a != {} {
      var x :| x in a;
      SubsetCardinality(a - {x}, b - {x});
    }
  }

  lemma NoResponses(rs: seq<Response>)
    ensures Distinct(rs) == {} <==> rs == []
  {
    if rs != [] {
      assert rs[0] in Distinct(rs);
    }
  }

  lemma AllEqualSet(rs: seq<Response>)
    requires |rs| > 0 && forall i | 0 <= i < |rs| :: rs[i] == rs[0]
    ensures Distinct(rs) == {rs[0]}
  {
  }

  /** The outcome depends only on the set of distinct responses: neither their order nor
      duplicates matter. */
  lemma ResolveDependsOnlyOnDistinct(key: Key, rs1: seq<Response>, rs2: seq<Response>)
    requires Distinct(rs1) == Distinct(rs2)
    ensures Resolve(key, rs1) == Resolve(key, rs2)
  {
    NoResponses(rs1);
    NoResponses(rs2);
    if |rs1| == 0 || |rs2| == 0 {
    } else if |Distinct(rs1)| > 1 {
      if |rs1| == 1 {
        AllEqualSet(rs1);
      }
      if |rs2| == 1 {
        AllEqualSet(rs2);
      }
    } else {
      SingletonSet(rs1);
      SingletonSet(rs2);
    }
  }

  /** Two different responses are refused; when every response is the same one, that one
      decides. */
  lemma ResolveCases(key: Key, rs: seq<Response>)
    ensures rs == [] ==> Resolve(key, rs) == Ok(None)
    ensures (exists i, j | 0 <= i < |rs| && 0 <= j < |rs| :: rs[i] != rs[j]) ==>
      Resolve(key, rs) == Err(CacheLoaderException(CONFLICTING_RESPONSES))
    ensures (rs != [] && forall i | 0 <= i < |rs| :: rs[i] == rs[0]) ==>
      Resolve(key, rs) == FromResponse(key, rs[0])
  {
    if exists i, j | 0 <= i < |rs| && 0 <= j < |rs| :: rs[i] != rs[j] {
      var i, j :| 0 <= i < |rs| && 0 <= j < |rs| && rs[i] != rs[j];
      if |Distinct(rs)| <= 1 {
        SingletonSet(rs);
        assert false;
      }
    } else if rs != [] {
      AllEqualSet(rs);
    }
  }

  /** Only a running cache serving a local call consults the cluster; a failed remote call is
      wrapped in CacheLoaderException. */
  lemma LoadGate(status: ComponentStatus, originLocal: bool, key: Key, rpc: Result<seq<Response>>)
    ensures status != Running || !originLocal ==> LoadOutcome(status, originLocal, key, rpc) == Ok(None)
    ensures status == Running && originLocal && rpc.Err? ==>
      LoadOutcome(status, originLocal, key, rpc) == Err(CacheLoaderException(REMOTE_CALL_FAILED))
    ensures status == Running && originLocal && rpc.Ok? ==>
      LoadOutcome(status, originLocal, key, rpc) == Resolve(key, rpc.value)
  {
  }

  class ClusterCacheLoader {
    /** The cache's lifecycle status. */
    var status: ComponentStatus
    /** The local address and the cluster view. */
    const self: Address
    var members: seq<Address>
    /** The remote calls made, in order. */
    var remoteCalls: seq<RemoteCall>

    constructor (self: Address, members: seq<Address>, status: ComponentStatus)
      ensures this.self == self && this.members == members && this.status == status && remoteCalls == []
    {
      this.self := self;
      this.members := members;
      this.status := status;
      remoteCalls := [];
    }

    /** doRemoteCall: broadcast the command and wait for valid responses from the members other
        than this node. */
    method DoRemoteCall(key: Key, rpc: Result<seq<Response>>) returns (r: Result<seq<Response>>)
      modifies this`remoteCalls
      ensures remoteCalls == old(remoteCalls) + [ClusteredGet(key, ValidMembers(members, self))]
      ensures rpc.Ok? ==> r == rpc
      ensures rpc.Err? ==> r == Err(CacheLoaderException(REMOTE_CALL_FAILED))
    {
      var validMembers := set a | a in members;
      validMembers := validMembers - {self};
      remoteCalls := remoteCalls + [ClusteredGet(key, validMembers)];
      if rpc.Err? {
        return Err(CacheLoaderException(REMOTE_CALL_FAILED));
      }
      r := rpc;
    }

    /** load(key). Whether the call is local is read from the invocation context. */
    method Load(key: Key, originLocal: bool, rpc: Result<seq<Response>>)
      returns (r: Result<Option<InternalCacheEntry>>)
      modifies this`remoteCalls
      ensures r == LoadOutcome(status, originLocal, key, rpc)
      ensures remoteCalls == old(remoteCalls)
        + (if status == Running && originLocal then [ClusteredGet(key, ValidMembers(members, self))] else [])
    {
      if !(status == Running && originLocal) {
        return Ok(None);
      }
      var responses := DoRemoteCall(key, rpc);
      if responses.Err? {
        return Err(responses.error);
      }
      var rs := responses.value;
      if |rs| == 0 {
        return Ok(None);
      }
      var response: Response;
      if |rs| > 1 {
        var setResponses := Distinct(rs);
        if |setResponses| > 1 {
          return Err(CacheLoaderException(CONFLICTING_RESPONSES));
        }
        SingletonSet(rs);
        response :| response in setResponses;
      } else {
        response := rs[0];
      }
      if response.SuccessfulResponse? {
        if response.responseValue.None? {
          return Err(NullPointerException);
        }
        var v := response.responseValue.value;
        return Ok(Some(InternalCacheEntry(key, v.value, v.lifespan, v.maxIdle)));
      }
      r := Err(CacheLoaderException(UNKNOWN_RESPONSES));
    }

    /** loadAll(): this loader never lists entries. */
    function LoadAll(): (r: set<InternalCacheEntry>)
      ensures r == {}
    {
      {}
    }

    /** load(maxElems): this loader never lists entries. */
    function LoadSome(maxElems: int): (r: set<InternalCacheEntry>)
      ensures r == {}
    {
      {}
    }

    /** loadAllKeys(keysToExclude): this loader never lists keys. */
    function LoadAllKeys(keysToExclude: set<Key>): (r: set<Key>)
      ensures r == {}
    {
      {}
    }
  }
}
