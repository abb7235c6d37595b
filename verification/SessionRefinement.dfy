/** The session cache against a table of timestamps that keeps no order.

    The cache never compares timestamps across entries: it trusts dictionary order.
    Under a clock that does not go back, dictionary order is timestamp order, and each
    operation does what the unordered table would do. */
module SessionRefinement {
  import opened Common
  import opened OrderedDict
  import opened SessionCache

  type Table<K, V> = map<K, (V, real)>

  ghost predicate InTimeOrder<K, V>(d: Entries<K, V>) {
    forall i, j :: 0 <= i < j < |d| ==> d[i].1.1 <= d[j].1.1
  }

  ghost predicate UpTo<K, V>(d: Entries<K, V>, now: real) {
    forall i :: 0 <= i < |d| ==> d[i].1.1 <= now
  }

  // Everything the cache keeps between operations when the clock last read `now`.
  ghost predicate Sound<K, V>(d: Entries<K, V>, maxSize: nat, now: real) {
    Distinct(d) && InTimeOrder(d) && UpTo(d, now) && |d| <= maxSize
  }

  // ------------------------------------------------ expiry

  // The entries idle for less than `ttl`.
  ghost function Live<K, V>(m: Table<K, V>, now: real, ttl: real): Table<K, V> {
    map k | k in m && now - m[k].1 < ttl :: m[k]
  }

  // No expired entry stands behind a live one.
  ghost predicate ExpiredComeFirst<K, V>(d: Entries<K, V>, now: real, ttl: real) {
    forall i, j :: 0 <= i < j < |d| && Expired(d[j], now, ttl) ==> Expired(d[i], now, ttl)
  }

  lemma {:induction false} ExpiredPrefixSplits<K, V>(d: Entries<K, V>, now: real, ttl: real)
    ensures forall i :: 0 <= i < ExpiredPrefix(d, now, ttl) ==> Expired(d[i], now, ttl)
    ensures var n := ExpiredPrefix(d, now, ttl); n < |d| ==> !Expired(d[n], now, ttl)
  {
    if d != [] && Expired(d[0], now, ttl) {
      ExpiredPrefixSplits(d[1..], now, ttl);
      assert forall i :: 1 <= i < |d| ==> d[i] == d[1..][i - 1];
    }
  }

  lemma {:induction false} AllLive<K, V>(d: Entries<K, V>, now: real, ttl: real)
    requires Distinct(d)
    requires forall i :: 0 <= i < |d| ==> !Expired(d[i], now, ttl)
    ensures Live(AsMap(d), now, ttl) == AsMap(d)
  {
    if d == [] {
    } else {
      assert forall i :: 0 <= i < |d[1..]| ==> d[1..][i] == d[i + 1];
      AllLive(d[1..], now, ttl);
    }
  }

  // The early `break` of the scan loses nothing exactly when expired entries come first.
  lemma {:induction false} ExpireIsLiveIff<K, V>(d: Entries<K, V>, now: real, ttl: real)
    requires Distinct(d)
    ensures AsMap(Expire(d, now, ttl)) == Live(AsMap(d), now, ttl) <==> ExpiredComeFirst(d, now, ttl)
  {
    if d == [] {
    } else {
      var h, t := d[0], d[1..];
      assert forall i :: 0 <= i < |t| ==> t[i] == d[i + 1];
      assert forall i :: 1 <= i < |d| ==> d[i] == t[i - 1];
      if Expired(h, now, ttl) {
        ExpireIsLiveIff(t, now, ttl);
        AsMapReads(t, h.0);
        assert Expire(d, now, ttl) == Expire(t, now, ttl);
        assert Live(AsMap(d), now, ttl) == Live(AsMap(t), now, ttl);
      } else if j :| 0 < j < |d| && Expired(d[j], now, ttl) {
        IndexHas(d, j);
        AsMapReads(d, d[j].0);
        assert d[j].0 in AsMap(d) && d[j].0 !in Live(AsMap(d), now, ttl);
      } else {
        AllLive(d, now, ttl);
      }
    }
  }

  // A clock that goes back between two accesses leaves an expired entry behind a live one.
  lemma ClockSetBackKeepsAnExpiredEntry()
    ensures var d0: Entries<nat, ()> := Store([], 10.0, 5, 1, (), 100.0, 100.0);
            var d := Store(d0, 10.0, 5, 2, (), 50.0, 50.0);
            Expired(d[1], 105.0, 10.0) && Has(Expire(d, 105.0, 10.0), 2)
  {
    var d0: Entries<nat, ()> := Store([], 10.0, 5, 1, (), 100.0, 100.0);
    assert d0 == [(1, ((), 100.0))];
    var d := Store(d0, 10.0, 5, 2, (), 50.0, 50.0);
    assert Touched(d0, 2, (), 50.0) == [(1, ((), 100.0)), (2, ((), 50.0))];
    assert d == [(1, ((), 100.0)), (2, ((), 50.0))];
  }

  lemma ExpireKeepsOrder<K, V>(d: Entries<K, V>, now: real, ttl: real)
    requires Distinct(d)
    ensures Distinct(Expire(d, now, ttl))
    ensures InTimeOrder(d) ==> InTimeOrder(Expire(d, now, ttl)) && ExpiredComeFirst(d, now, ttl)
  {
    var n := ExpiredPrefix(d, now, ttl);
    assert d == d[..n] + d[n..];
    DistinctConcat(d[..n], d[n..]);
  }

  lemma DeleteKeepsOrder<K, V>(d: Entries<K, V>, k: K)
    ensures InTimeOrder(d) ==> InTimeOrder(Delete(d, k))
    ensures forall t :: UpTo(d, t) ==> UpTo(Delete(d, k), t)
  {
    if Has(d, k) {
      var i := DeleteShifts(d, k);
      var e := Delete(d, k);
      assert forall j :: 0 <= j < |e| ==> e[j] == d[if j < i then j else j + 1];
    } else {
      DeleteAbsent(d, k);
    }
  }

  lemma TouchedKeepsOrder<K, V>(d: Entries<K, V>, k: K, v: V, now: real)
    requires Distinct(d) && InTimeOrder(d) && UpTo(d, now)
    ensures var e := Touched(d, k, v, now);
            Distinct(e) && InTimeOrder(e) && UpTo(e, now)
    ensures AsMap(Touched(d, k, v, now)) == AsMap(d)[k := (v, now)]
    ensures |Touched(d, k, v, now)| == if Has(d, k) then |d| else |d| + 1
  {
    hide Distinct, Has, OrderedDict.Delete, Put, AsMap;
    DeleteKeepsOrder(d, k);
    DeleteKeeps(d, k);
    PutKeeps(Delete(d, k), k, (v, now));
  }

  // The front of an ordered dictionary is an entry with the smallest timestamp.
  lemma FrontIsOldest<K, V>(d: Entries<K, V>)
    requires Distinct(d) && InTimeOrder(d) && d != []
    ensures d[0].0 in AsMap(d)
    ensures forall k :: k in AsMap(d) ==> AsMap(d)[d[0].0].1 <= AsMap(d)[k].1
    ensures AsMap(d[1..]) == AsMap(d) - {d[0].0}
  {
    forall k | k in AsMap(d) ensures AsMap(d)[d[0].0].1 <= AsMap(d)[k].1 {
      AsMapReads(d, k);
      var i := HasIndex(d, k);
    }
    AsMapReads(d[1..], d[0].0);
  }

  // ------------------------------------------------ operations

  datatype Op<K, V> =
    | Read(k: K, scan: real, refresh: real)
    | Write(k: K, v: V, stamp: real, scan: real)
    | Remove(k: K)
    | Count(scan: real)

  datatype Outcome<K, V> =
    | Found(r: Result<V, Missing<K>>)
    | Stored
    | Removed(ok: bool)
    | Size(n: nat)

  // The clock readings of an operation do not go back, and it leaves the clock at `last`.
  ghost predicate Forward<K, V>(now: real, op: Op<K, V>) {
    match op
    case Read(_, scan, refresh) => now <= scan <= refresh
    case Write(_, _, stamp, scan) => now <= stamp <= scan
    case Remove(_) => true
    case Count(scan) => now <= scan
  }

  ghost function Clock<K, V>(now: real, op: Op<K, V>): real {
    match op
    case Read(_, _, refresh) => refresh
    case Write(_, _, _, scan) => scan
    case Remove(_) => now
    case Count(scan) => scan
  }

  // What the class methods do to the dictionary and answer.
  ghost function Perform<K, V>(d: Entries<K, V>, ttl: real, maxSize: nat, op: Op<K, V>)
    : (Entries<K, V>, Outcome<K, V>)
  {
    match op
    case Read(k, scan, refresh) =>
      var (e, r) := Lookup(d, ttl, k, scan, refresh);
      (e, Found(r))
    case Write(k, v, stamp, scan) => (Store(d, ttl, maxSize, k, v, stamp, scan), Stored)
    case Remove(k) => (Delete(d, k), Removed(Has(d, k)))
    case Count(scan) => (Expire(d, scan, ttl), Size(|Expire(d, scan, ttl)|))
  }

  // The unordered table: expiry filters, and overflow removes some least recent entry.
  ghost predicate TableStep<K(!new), V>(m: Table<K, V>, ttl: real, maxSize: nat, op: Op<K, V>,
                                        m': Table<K, V>, out: Outcome<K, V>)
  {
    match op
    case Read(k, scan, refresh) =>
      var live := Live(m, scan, ttl);
      if k in live then out == Found(Ok(live[k].0)) && m' == live[k := (live[k].0, refresh)]
      else out == Found(Err(KeyError(k))) && m' == live
    case Write(k, v, stamp, scan) =>
      var live := Live(m[k := (v, stamp)], scan, ttl);
      && out == Stored
      && if |live| <= maxSize then m' == live
         else exists victim :: LeastRecent(live, victim) && m' == live - {victim}
    case Remove(k) => out == Removed(k in m) && m' == m - {k}
    case Count(scan) => out == Size(|Live(m, scan, ttl)|) && m' == Live(m, scan, ttl)
  }

  ghost predicate LeastRecent<K, V>(m: Table<K, V>, victim: K) {
    victim in m && forall k :: k in m ==> m[victim].1 <= m[k].1
  }

  lemma ExpireRefines<K, V>(d: Entries<K, V>, maxSize: nat, now: real, scan: real, ttl: real)
    requires Sound(d, maxSize, now) && now <= scan
    ensures Sound(Expire(d, scan, ttl), maxSize, scan)
    ensures AsMap(Expire(d, scan, ttl)) == Live(AsMap(d), scan, ttl)
    ensures |Expire(d, scan, ttl)| == |Live(AsMap(d), scan, ttl)|
  {
    ExpireKeepsOrder(d, scan, ttl);
    ExpireIsLiveIff(d, scan, ttl);
    AsMapSize(Expire(d, scan, ttl));
  }

  lemma ReadRefines<K(!new), V>(d: Entries<K, V>, ttl: real, maxSize: nat, now: real, k: K, scan: real, refresh: real)
    requires Sound(d, maxSize, now) && now <= scan <= refresh
    ensures var (e, r) := Lookup(d, ttl, k, scan, refresh);
            Sound(e, maxSize, refresh) && TableStep(AsMap(d), ttl, maxSize, Read(k, scan, refresh), AsMap(e), Found(r))
  {
    ExpireRefines(d, maxSize, now, scan, ttl);
    var live := Expire(d, scan, ttl);
    AsMapReads(live, k);
    if Has(live, k) {
      TouchedKeepsOrder(live, k, Get(live, k).0, refresh);
    }
  }

  lemma WriteRefines<K(!new), V>(d: Entries<K, V>, ttl: real, maxSize: nat, now: real,
                                 k: K, v: V, stamp: real, scan: real)
    requires Sound(d, maxSize, now) && now <= stamp <= scan
    ensures var e := Store(d, ttl, maxSize, k, v, stamp, scan);
            Sound(e, maxSize, scan) && TableStep(AsMap(d), ttl, maxSize, Write(k, v, stamp, scan), AsMap(e), Stored)
  {
    hide LeastRecent, Live, Expire, Touched, AsMap, InTimeOrder, Distinct;
    TouchedKeepsOrder(d, k, v, stamp);
    ExpireRefines(Touched(d, k, v, stamp), maxSize + 1, stamp, scan, ttl);
    var live := Expire(Touched(d, k, v, stamp), scan, ttl);
    OverflowRefines(live, maxSize, scan);
  }

  // Dropping the front when one entry too many is live.
  lemma OverflowRefines<K(!new), V>(live: Entries<K, V>, maxSize: nat, now: real)
    requires Sound(live, maxSize + 1, now)
    ensures var e := if |live| > maxSize then live[1..] else live;
            && Sound(e, maxSize, now)
            && |live| == |AsMap(live)|
            && if |live| <= maxSize then AsMap(e) == AsMap(live)
               else exists victim :: LeastRecent(AsMap(live), victim) && AsMap(e) == AsMap(live) - {victim}
  {
    AsMapSize(live);
    if |live| > maxSize {
      FrontIsOldest(live);
      assert LeastRecent(AsMap(live), live[0].0);
    }
  }

  lemma StepRefines<K(!new), V>(d: Entries<K, V>, ttl: real, maxSize: nat, now: real, op: Op<K, V>)
    requires Sound(d, maxSize, now) && Forward(now, op)
    ensures var (e, out) := Perform(d, ttl, maxSize, op);
            Sound(e, maxSize, Clock(now, op)) && TableStep(AsMap(d), ttl, maxSize, op, AsMap(e), out)
  {
    match op
    case Read(k, scan, refresh) => ReadRefines(d, ttl, maxSize, now, k, scan, refresh);
    case Write(k, v, stamp, scan) => WriteRefines(d, ttl, maxSize, now, k, v, stamp, scan);
    case Remove(k) =>
      DeleteKeepsOrder(d, k);
      DeleteKeeps(d, k);
      AsMapReads(d, k);
    case Count(scan) => ExpireRefines(d, maxSize, now, scan, ttl);
  }

  // `get_tools` with every reading of its own. A session live at the first scan answers with
  // its tool and is stamped by the second reading; otherwise the tool that was built is stored
  // under the third, taken after the building, and expiry runs with the fourth.
  lemma GetOrCreateRefines<K(!new), V>(d: Entries<K, V>, ttl: real, maxSize: nat, now: real, k: K, created: V,
                                       scan: real, refresh: real, stamp: real, rescan: real)
    requires Sound(d, maxSize, now) && now <= scan <= refresh && scan <= stamp <= rescan
    ensures var (e, tool) := GetOrCreate(d, ttl, maxSize, k, created, scan, refresh, stamp, rescan);
            var live := Live(AsMap(d), scan, ttl);
            if k in live then
              tool == live[k].0 && AsMap(e) == live[k := (tool, refresh)] && Sound(e, maxSize, refresh)
            else
              && tool == created && Sound(e, maxSize, rescan)
              && TableStep(live, ttl, maxSize, Write(k, created, stamp, rescan), AsMap(e), Stored)
  {
    hide Live, Expire, Touched, AsMap, InTimeOrder, Distinct, UpTo;
    ReadRefines(d, ttl, maxSize, now, k, scan, refresh);
    ExpireRefines(d, maxSize, now, scan, ttl);
    var (mid, r) := Lookup(d, ttl, k, scan, refresh);
    if r.Err? {
      WriteRefines(mid, ttl, maxSize, scan, k, created, stamp, rescan);
    }
  }

  // A tool that took 30 seconds to build counts from its end, so it is still there 575 seconds
  // later.
  lemma BuildingTimeDoesNotCount<V>(tool: V, other: V)
    ensures var (d, _) := GetOrCreate<nat, V>([], 600.0, 5, 1, tool, 0.0, 0.0, 30.0, 30.0);
            && d == [(1, (tool, 30.0))]
            && GetOrCreate(d, 600.0, 5, 1, other, 605.0, 605.0, 605.0, 605.0) == ([(1, (tool, 605.0))], tool)
  {
    var d: Entries<nat, V> := [(1, (tool, 30.0))];
    assert Store([], 600.0, 5, 1, tool, 30.0, 30.0) == d;
    assert d[1..] == [];
    assert Expire(d, 605.0, 600.0) == d;
    assert Touched(d, 1, tool, 605.0) == [(1, (tool, 605.0))];
  }

  // ------------------------------------------------ runs

  ghost predicate ForwardRun<K, V>(now: real, ops: seq<Op<K, V>>)
    decreases |ops|
  {
    ops != [] ==> Forward(now, ops[0]) && ForwardRun(Clock(now, ops[0]), ops[1..])
  }

  ghost function PerformAll<K, V>(d: Entries<K, V>, ttl: real, maxSize: nat, ops: seq<Op<K, V>>)
    : (Entries<K, V>, seq<Outcome<K, V>>)
    decreases |ops|
  {
    if ops == [] then (d, [])
    else
      var (e, out) := Perform(d, ttl, maxSize, ops[0]);
      var (last, outs) := PerformAll(e, ttl, maxSize, ops[1..]);
      (last, [out] + outs)
  }

  ghost predicate TableRun<K(!new), V(!new)>(m: Table<K, V>, ttl: real, maxSize: nat, ops: seq<Op<K, V>>,
                                             m': Table<K, V>, outs: seq<Outcome<K, V>>)
    decreases |ops|
  {
    if ops == [] then m' == m && outs == []
    else
      && outs != []
      && exists mid :: TableStep(m, ttl, maxSize, ops[0], mid, outs[0])
                    && TableRun(mid, ttl, maxSize, ops[1..], m', outs[1..])
  }

  // Every run of the cache is a run of the unordered table, answer for answer, and the
  // size limit holds at its end (so at every point of every longer run).
  lemma {:induction false} RunRefines<K(!new), V(!new)>(d: Entries<K, V>, ttl: real, maxSize: nat, now: real, ops: seq<Op<K, V>>)
    requires Sound(d, maxSize, now) && ForwardRun(now, ops)
    ensures var (e, outs) := PerformAll(d, ttl, maxSize, ops);
            && TableRun(AsMap(d), ttl, maxSize, ops, AsMap(e), outs)
            && Distinct(e) && InTimeOrder(e) && |e| <= maxSize
    decreases |ops|
  {
    if ops == [] {
    } else {
      StepRefines(d, ttl, maxSize, now, ops[0]);
      var (mid, out) := Perform(d, ttl, maxSize, ops[0]);
      RunRefines(mid, ttl, maxSize, Clock(now, ops[0]), ops[1..]);
      var (e, outs) := PerformAll(mid, ttl, maxSize, ops[1..]);
      assert ([out] + outs)[1..] == outs;
    }
  }
}
