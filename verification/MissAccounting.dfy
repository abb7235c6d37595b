/** Hits and misses over whole traces, and the driver that measures the miss ratio. */
module MissAccounting {
  import opened Common
  import opened OrderedDict
  import opened CachePolicy
  import opened CacheSimulator
  import opened CacheRuns

  function DistinctKeys(trace: seq<CacheObj>): set<Key> {
    set obj | obj in trace :: obj.key
  }

  function Misses(s: Sim): int {
    s.accesses - s.hits
  }

  lemma DistinctKeysAppend(trace: seq<CacheObj>, obj: CacheObj)
    ensures DistinctKeys(trace + [obj]) == DistinctKeys(trace) + {obj.key}
  {
  }

  // Every access is counted once, and the first access to a key is a miss.
  lemma {:induction false} MissesCoverKeys(capacity: nat, trace: seq<CacheObj>)
    ensures var s := Run(capacity, trace);
            && s.accesses == |trace| && s.hits <= s.accesses
            && Keys(s.cache) <= DistinctKeys(trace)
            && Misses(s) >= |DistinctKeys(trace)|
  {
    if trace != [] {
      var before, obj := trace[..|trace| - 1], trace[|trace| - 1];
      MissesCoverKeys(capacity, before);
      RunCoupled(capacity, before);
      var s := Run(capacity, before);
      AccessCoupled(s, obj);
      KeysAreHas(s.cache, obj.key);
      assert trace == before + [obj];
      DistinctKeysAppend(before, obj);
      if obj.key in DistinctKeys(before) {
        assert DistinctKeys(trace) == DistinctKeys(before);
      }
    } else {
      assert DistinctKeys(trace) == {};
    }
  }

  // The first object seen under each key, in order of first sight.
  function Catalog(trace: seq<CacheObj>): Contents {
    if trace == [] then []
    else
      var before, obj := Catalog(trace[..|trace| - 1]), trace[|trace| - 1];
      if Has(before, obj.key) then before else Put(before, obj.key, obj)
  }

  lemma {:induction false} CatalogKeys(trace: seq<CacheObj>)
    ensures Distinct(Catalog(trace)) && Keys(Catalog(trace)) == DistinctKeys(trace)
    ensures |Catalog(trace)| == |DistinctKeys(trace)|
  {
    hide Distinct, Put, OrderedDict.Keys;
    NoKeys();
    if trace == [] {
    } else {
      var before, obj := trace[..|trace| - 1], trace[|trace| - 1];
      CatalogKeys(before);
      assert trace == before + [obj];
      DistinctKeysAppend(before, obj);
      KeysAreHas(Catalog(before), obj.key);
      PutKeeps(Catalog(before), obj.key, obj);
    }
    AsMapSize(Catalog(trace));
  }

  // An access that is a hit or fits beside everything else evicts nothing.
  lemma FitsStep(s: Sim, obj: CacheObj)
    requires Has(s.cache, obj.key) || TotalSize(s.cache) + obj.size <= s.capacity
    ensures var (t, _) := Serve(s, obj);
            && t.accesses == s.accesses + 1
            && t.cache == (if Has(s.cache, obj.key) then s.cache else Put(s.cache, obj.key, obj))
            && t.hits == s.hits + (if Has(s.cache, obj.key) then 1 else 0)
  {
  }

  lemma NoKeys()
    ensures Distinct<Key, CacheObj>([]) && Keys<Key, CacheObj>([]) == {} == DistinctKeys([])
  {
  }

  // If one object of each key fits at once, nothing is ever evicted: the cache is the
  // catalog of the trace and only first accesses miss.
  lemma {:induction false} EverythingFits(capacity: nat, trace: seq<CacheObj>)
    requires TotalSize(Catalog(trace)) <= capacity
    ensures Run(capacity, trace).cache == Catalog(trace)
    ensures Misses(Run(capacity, trace)) == |DistinctKeys(trace)|
  {
    hide Serve, DistinctKeys, Put, TotalSize;
    CatalogKeys(trace);
    if trace == [] {
    } else {
      var before, obj := trace[..|trace| - 1], trace[|trace| - 1];
      var c := Catalog(before);
      CatalogKeys(before);
      if !Has(c, obj.key) {
        SizeAfterInsert(c, obj.key, obj);
        PutLength(c, obj.key, obj);
      }
      EverythingFits(capacity, before);
      RunCoupled(capacity, before);
      FitsStep(Run(capacity, before), obj);
    }
  }

  lemma {:induction false} PutLength(d: Contents, k: Key, obj: CacheObj)
    requires !Has(d, k)
    ensures |Put(d, k, obj)| == |d| + 1
  {
    if d == [] {
    } else {
      PutLength(d[1..], k, obj);
    }
  }

  lemma {:induction false} UnitSizes(d: Contents)
    requires forall i :: 0 <= i < |d| ==> d[i].1.size == 1
    ensures TotalSize(d) == |d|
  {
    if d == [] {
    } else {
      assert forall i :: 0 <= i < |d[1..]| ==> d[1..][i] == d[i + 1];
      UnitSizes(d[1..]);
    }
  }

  lemma {:induction false} CatalogHolds(trace: seq<CacheObj>)
    ensures forall i :: 0 <= i < |Catalog(trace)| ==> Catalog(trace)[i].1 in trace
  {
    if trace == [] {
    } else {
      var before, obj := trace[..|trace| - 1], trace[|trace| - 1];
      CatalogHolds(before);
      CatalogKeys(before);
      PutKeeps(Catalog(before), obj.key, obj);
    }
  }

  // With unit sizes the misses are exactly the distinct keys once those all fit.
  lemma UnitMisses(capacity: nat, trace: seq<CacheObj>)
    requires forall obj :: obj in trace ==> obj.size == 1
    requires |DistinctKeys(trace)| <= capacity
    ensures Misses(Run(capacity, trace)) == |DistinctKeys(trace)|
  {
    CatalogHolds(trace);
    UnitSizes(Catalog(trace));
    CatalogKeys(trace);
    EverythingFits(capacity, trace);
  }

  datatype RunError = ZeroDivision | CacheRaised(error: CacheError)

  // The trace-driving loop; rounding the ratio to four places is left to the caller.
  method RunTrace(capacity: nat, trace: seq<CacheObj>) returns (r: Result<real, RunError>)
    ensures r.Err? <==> trace == []
    ensures trace == [] ==> r == Err(ZeroDivision)
    ensures r.Ok? ==> r.value == 1.0 - Run(capacity, trace).hits as real / |trace| as real
    ensures r.Ok? ==> |DistinctKeys(trace)| as real / |trace| as real <= r.value <= 1.0
    ensures r.Ok? && TotalSize(Catalog(trace)) <= capacity
        ==> r.value == |DistinctKeys(trace)| as real / |trace| as real
  {
    var cache := new Cache(capacity);
    for i := 0 to |trace|
      invariant fresh(cache) && fresh(cache.policy) && cache.State() == Run(capacity, trace[..i])
    {
      assert trace[..i + 1][..i] == trace[..i];
      NoAccessRaises(capacity, trace[..i], trace[i]);
      var _ := cache.Get(trace[i]);
    }
    assert trace[..|trace|] == trace;
    MissesCoverKeys(capacity, trace);
    if cache.naccess == 0 {
      return Err(ZeroDivision);
    }
    r := Ok(1.0 - cache.nhit as real / cache.naccess as real);
    Ratios(|DistinctKeys(trace)|, cache.nhit, |trace|);
    if TotalSize(Catalog(trace)) <= capacity {
      EverythingFits(capacity, trace);
    }
  }

  lemma Ratios(distinct: nat, hits: nat, total: nat)
    requires 0 < total && distinct + hits <= total
    ensures distinct as real / total as real <= 1.0 - hits as real / total as real <= 1.0
    ensures distinct + hits == total ==> 1.0 - hits as real / total as real == distinct as real / total as real
  {
    var d, h, t := distinct as real, hits as real, total as real;
    Quotient(d, t);
    Quotient(h, t);
    var x, y := d / t, h / t;
    assert (1.0 - y - x) * t == t - h - d;
    Sign(1.0 - y - x, t);
    Sign(y, t);
  }

  lemma Quotient(a: real, t: real)
    requires t > 0.0
    ensures (a / t) * t == a
  {
  }

  lemma Sign(x: real, t: real)
    requires t > 0.0
    ensures x * t >= 0.0 ==> x >= 0.0
    ensures x * t == 0.0 ==> x == 0.0
  {
    if x < 0.0 {
      assert x * t < 0.0;
    }
  }
}
