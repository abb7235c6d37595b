/** The simulated cache. It owns residency and sizes; the policy owns the order of
    eviction and hears of every hit, insertion and eviction through callbacks. */
module CacheSimulator {
  import opened Common
  import opened OrderedDict
  import opened CachePolicy

  datatype CacheObj = CacheObj(key: Key, size: nat)

  datatype CacheError = SizeNotPositive | CandidateNotInCache

  // The object constructor: sizes must be positive, and count as 1 when they are ignored.
  function MakeObj(key: Key, size: int, considerObjSize: bool): Result<CacheObj, CacheError> {
    if size <= 0 then Err(SizeNotPositive)
    else Ok(CacheObj(key, if considerObjSize then size else 1))
  }

  type Contents = Dict<Key, CacheObj>

  function TotalSize(d: Contents): nat {
    if d == [] then 0 else d[0].1.size + TotalSize(d[1..])
  }

  // What the policy is told, in order.
  datatype Event = WasHit(key: Key) | WasInserted(key: Key) | WasEvicted(key: Key)

  datatype Sim = Sim(
    capacity: nat, cache: Contents, accesses: nat, hits: nat, segments: Segments, log: seq<Event>)

  function Empty(capacity: nat): Sim {
    Sim(capacity, [], 0, 0, Segments([], []), [])
  }

  // One `evict` with its callback; the policy's candidate must be resident.
  function EvictOne(s: Sim): Result<Sim, CacheError> {
    match Candidate(s.segments)
    case None => Err(CandidateNotInCache)
    case Some(k) =>
      if !Has(s.cache, k) then Err(CandidateNotInCache)
      else Ok(s.(cache := Delete(s.cache, k), segments := AfterEvict(s.segments, k), log := s.log + [WasEvicted(k)]))
  }

  lemma {:induction false} DeleteShrinks<V>(d: Dict<Key, V>, k: Key)
    requires Has(d, k)
    ensures |Delete(d, k)| == |d| - 1
  {
    if d[0].0 != k {
      DeleteShrinks(d[1..], k);
    }
  }

  // The eviction loop.
  function MakeRoom(s: Sim, need: nat): Result<Sim, CacheError>
    decreases |s.cache|
  {
    if TotalSize(s.cache) + need <= s.capacity then Ok(s)
    else
      match EvictOne(s)
      case Err(e) => Err(e)
      case Ok(t) =>
        DeleteShrinks(s.cache, Candidate(s.segments).value);
        MakeRoom(t, need)
  }

  // `get`: the answer is whether the object was resident.
  function Serve(s0: Sim, obj: CacheObj): (Sim, Result<bool, CacheError>) {
    var s := s0.(accesses := s0.accesses + 1);
    if Has(s.cache, obj.key) then
      (s.(hits := s.hits + 1, segments := AfterHit(s.segments, obj.key, s.accesses), log := s.log + [WasHit(obj.key)]),
       Ok(true))
    else if obj.size > s.capacity then (s, Ok(false))
    else
      match MakeRoom(s, obj.size)
      case Err(e) => (s, Err(e))
      case Ok(t) =>
        (t.(cache := Put(t.cache, obj.key, obj), segments := AfterInsert(t.segments, obj.key, t.accesses),
            log := t.log + [WasInserted(obj.key)]),
         Ok(false))
  }

  class Cache {
    const capacity: nat
    var cache: Contents
    var naccess: nat
    var nhit: nat
    const policy: My
    ghost var log: seq<Event>

    ghost function State(): Sim
      reads this, policy
    {
      Sim(capacity, cache, naccess, nhit, policy.State(), log)
    }

    constructor (capacity: nat)
      ensures fresh(policy) && State() == Empty(capacity)
    {
      this.capacity := capacity;
      cache := [];
      naccess, nhit := 0, 0;
      log := [];
      policy := new My();
    }

    // The `size` property.
    method Size() returns (total: nat)
      ensures total == TotalSize(cache)
    {
      total := 0;
      var i := 0;
      while i < |cache|
        invariant 0 <= i <= |cache|
        invariant total + TotalSize(cache[i..]) == TotalSize(cache)
      {
        assert cache[i..][1..] == cache[i + 1..];
        total := total + cache[i].1.size;
        i := i + 1;
      }
    }

    method Evict() returns (r: Result<CacheObj, CacheError>)
      modifies this, policy
      ensures naccess == old(naccess) && nhit == old(nhit)
      ensures r.Err? ==> State() == old(State()) && EvictOne(old(State())) == Err(r.error)
      ensures r.Ok? ==> EvictOne(old(State())) == Ok(State())
      ensures r.Ok? ==> var k := Candidate(old(policy.State())).value;
                        Has(old(cache), k) && r.value == OrderedDict.Get(old(cache), k)
    {
      var candidate := policy.Evict();
      if candidate.None? || !Has(cache, candidate.value) {
        return Err(CandidateNotInCache);
      }
      var evicted := OrderedDict.Get(cache, candidate.value);
      cache := Delete(cache, candidate.value);
      policy.UpdateAfterEvict(candidate.value);
      log := log + [WasEvicted(candidate.value)];
      return Ok(evicted);
    }

    method Get(obj: CacheObj) returns (r: Result<bool, CacheError>)
      modifies this, policy
      ensures r == Serve(old(State()), obj).1
      ensures r.Ok? ==> State() == Serve(old(State()), obj).0
    {
      hide Put, OrderedDict.Delete, Has, TotalSize;
      naccess := naccess + 1;
      if Has(cache, obj.key) {
        nhit := nhit + 1;
        policy.UpdateAfterHit(obj.key, naccess);
        log := log + [WasHit(obj.key)];
        return Ok(true);
      }
      if obj.size > capacity {
        return Ok(false);
      }
      ghost var counted := State();
      var size := Size();
      while size + obj.size > capacity
        invariant size == TotalSize(cache) && naccess == counted.accesses
        invariant MakeRoom(State(), obj.size) == MakeRoom(counted, obj.size)
        decreases |cache|
      {
        ghost var before := State();
        var evicted := Evict();
        if evicted.Err? {
          return Err(evicted.error);
        }
        DeleteShrinks(before.cache, Candidate(before.segments).value);
        size := Size();
      }
      cache := Put(cache, obj.key, obj);
      policy.UpdateAfterInsert(obj.key, naccess);
      log := log + [WasInserted(obj.key)];
      return Ok(false);
    }
  }
}
