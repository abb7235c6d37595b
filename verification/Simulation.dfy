/** From a trace to a miss ratio: `_read_trace` turns entries into cache objects, and the
    driver replays them. */
module Simulation {
  import opened Common
  import opened CacheSimulator
  import opened CacheRuns
  import opened MissAccounting
  import opened TraceCodec
  import opened TraceIndex

  // `_read_trace`: keys become text, and sizes count only when asked for.
  function ReadTrace(rs: seq<Record>, considerObjSize: bool): Result<seq<CacheObj>, CacheError> {
    if rs == [] then Ok([])
    else
      match MakeObj(Decimal(rs[0].key), if considerObjSize then rs[0].size else 1, considerObjSize)
      case Err(e) => Err(e)
      case Ok(obj) =>
        match ReadTrace(rs[1..], considerObjSize)
        case Err(e) => Err(e)
        case Ok(objs) => Ok([obj] + objs)
  }

  lemma {:induction false} ReadTraceIs(rs: seq<Record>, considerObjSize: bool)
    ensures ReadTrace(rs, considerObjSize).Err?
       <==> considerObjSize && exists i :: 0 <= i < |rs| && rs[i].size <= 0
    ensures ReadTrace(rs, considerObjSize).Ok? ==>
              var objs := ReadTrace(rs, considerObjSize).value;
              && |objs| == |rs|
              && forall i :: 0 <= i < |rs| ==>
                   objs[i] == CacheObj(Decimal(rs[i].key), if considerObjSize then rs[i].size else 1)
  {
    if rs == [] {
    } else {
      ReadTraceIs(rs[1..], considerObjSize);
      assert forall i :: 1 <= i < |rs| ==> rs[i] == rs[1..][i - 1];
      assert forall i :: 0 <= i < |rs[1..]| ==> rs[1..][i] == rs[i + 1];
    }
  }

  function Image<K, V>(keys: set<K>, f: K -> V): set<V> {
    set k | k in keys :: f(k)
  }

  lemma {:induction false} InjectiveImage<K, V>(keys: set<K>, f: K -> V)
    requires forall x, y :: x in keys && y in keys && f(x) == f(y) ==> x == y
    ensures |Image(keys, f)| == |keys|
  {
    if keys == {} {
      assert Image(keys, f) == {};
    } else {
      var x :| x in keys;
      InjectiveImage(keys - {x}, f);
      assert Image(keys, f) == Image(keys - {x}, f) + {f(x)};
    }
  }

  function Texts(keys: set<int>): set<string> {
    Image(keys, Decimal)
  }

  // Mapping distinct numbers to text keeps them distinct.
  lemma TextKeys(keys: set<int>)
    ensures |Texts(keys)| == |keys|
  {
    forall x, y | x in keys && y in keys && Decimal(x) == Decimal(y) ensures x == y {
      DecimalInjective(x, y);
    }
    InjectiveImage(keys, Decimal);
  }

  // The simulator sees as many different keys as the trace has.
  lemma NdvIsDistinctKeys(rs: seq<Record>, considerObjSize: bool)
    requires ReadTrace(rs, considerObjSize).Ok?
    ensures |DistinctKeys(ReadTrace(rs, considerObjSize).value)| == Ndv(rs)
  {
    var objs := ReadTrace(rs, considerObjSize).value;
    ReadTraceIs(rs, considerObjSize);
    var keys := set r | r in rs :: r.key;
    TextKeys(keys);
    assert DistinctKeys(objs) == Texts(keys) by {
      forall i | 0 <= i < |rs| ensures Decimal(rs[i].key) in DistinctKeys(objs) && objs[i].key == Decimal(rs[i].key) {
        assert objs[i] in objs;
        assert rs[i] in rs;
      }
    }
  }

  // Misses of a whole trace against its number of distinct keys.
  lemma MissesAgainstNdv(rs: seq<Record>, considerObjSize: bool, capacity: nat)
    requires ReadTrace(rs, considerObjSize).Ok?
    ensures var s := Run(capacity, ReadTrace(rs, considerObjSize).value);
            && s.accesses == |rs| && Misses(s) + s.hits == |rs|
            && Misses(s) >= Ndv(rs)
            && (!considerObjSize && capacity >= Ndv(rs) ==> Misses(s) == Ndv(rs))
  {
    var objs := ReadTrace(rs, considerObjSize).value;
    ReadTraceIs(rs, considerObjSize);
    NdvIsDistinctKeys(rs, considerObjSize);
    MissesCoverKeys(capacity, objs);
    if !considerObjSize && capacity >= Ndv(rs) {
      UnitMisses(capacity, objs);
    }
  }
}
