/** Whole runs of `get_tools`, with one clock reading per call: what the session cache
    holds is a function of the call history alone, so caches of different sizes are
    comparable and hits can be read off the history. */
module SessionRecency {
  import opened Text
  import opened OrderedDict
  import opened SessionCache
  import opened SessionRefinement

  // One call: the session asked for, the tool that would be built for it, the time.
  datatype Call<K, V> = Call(key: K, created: V, now: real)

  type History<K, V> = seq<Call<K, V>>

  function Answered<K(==), V>(d: Entries<K, V>, ttl: real, maxSize: nat, c: Call<K, V>): (Entries<K, V>, V) {
    GetOrCreate(d, ttl, maxSize, c.key, c.created, c.now, c.now, c.now, c.now)
  }

  // The dictionary after the calls of `h`, starting empty.
  function State<K(==), V>(h: History<K, V>, ttl: real, maxSize: nat): Entries<K, V> {
    if h == [] then [] else Answered(State(h[..|h| - 1], ttl, maxSize), ttl, maxSize, h[|h| - 1]).0
  }

  // Does the next call find its session?
  predicate Hit<K(==), V>(h: History<K, V>, ttl: real, maxSize: nat, c: Call<K, V>) {
    Has(Expire(State(h, ttl, maxSize), c.now, ttl), c.key)
  }

  ghost predicate ClockForward<K, V>(h: History<K, V>) {
    forall i, j :: 0 <= i < j < |h| ==> h[i].now <= h[j].now
  }

  ghost predicate NotBefore<K, V>(now: real, h: History<K, V>) {
    forall i :: 0 <= i < |h| ==> h[i].now <= now
  }

  // ------------------------------------------------ the recency list

  // Every session ever asked for, least recently used first, with its last use.
  function Recency<K(==), V>(h: History<K, V>): Entries<K, ()> {
    if h == [] then []
    else Touched(Recency(h[..|h| - 1]), h[|h| - 1].key, (), h[|h| - 1].now)
  }

  // The most recent `maxSize` sessions that are still live.
  function Window<K, V>(r: Entries<K, V>, now: real, ttl: real, maxSize: nat): Entries<K, V> {
    LastN(Expire(r, now, ttl), maxSize)
  }

  // The entries of a dictionary without the tools.
  function Stamps<K, V>(d: Entries<K, V>): Entries<K, ()> {
    if d == [] then [] else [(d[0].0, ((), d[0].1.1))] + Stamps(d[1..])
  }

  lemma {:induction false} RecencyIsOrdered<K, V>(h: History<K, V>)
    requires ClockForward(h)
    ensures Distinct(Recency(h)) && InTimeOrder(Recency(h))
    ensures forall now :: NotBefore(now, h) ==> UpTo(Recency(h), now)
  {
    if h == [] {
    } else {
      var h', c := h[..|h| - 1], h[|h| - 1];
      RecencyIsOrdered(h');
      assert NotBefore(c.now, h');
      TouchedKeepsOrder(Recency(h'), c.key, (), c.now);
      forall now | NotBefore(now, h) ensures UpTo(Recency(h), now) {
        assert h[|h| - 1].now <= now;
      }
    }
  }

  // ------------------------------------------------ Stamps commutes with the cache

  lemma {:induction false} StampsIndex<K, V>(d: Entries<K, V>)
    ensures |Stamps(d)| == |d|
    ensures forall i :: 0 <= i < |d| ==> Stamps(d)[i] == (d[i].0, ((), d[i].1.1))
  {
    if d == [] {
    } else {
      StampsIndex(d[1..]);
    }
  }

  lemma {:induction false} StampsHas<K, V>(d: Entries<K, V>, k: K)
    ensures Has(Stamps(d), k) <==> Has(d, k)
    ensures Stamps(Delete(d, k)) == Delete(Stamps(d), k)
    ensures Distinct(Stamps(d)) <==> Distinct(d)
  {
    if d == [] {
    } else {
      StampsHas(d[1..], k);
      StampsHas(d[1..], d[0].0);
      assert Stamps(d)[1..] == Stamps(d[1..]);
      if d[0].0 != k {
        assert Delete(d, k)[1..] == Delete(d[1..], k);
      }
    }
  }

  lemma StampsAppend<K, V>(d: Entries<K, V>, k: K, v: V, now: real)
    ensures Stamps(d + [(k, (v, now))]) == Stamps(d) + [(k, ((), now))]
  {
    StampsIndex(d);
    StampsIndex(d + [(k, (v, now))]);
  }

  lemma {:induction false} StampsExpire<K, V>(d: Entries<K, V>, now: real, ttl: real)
    ensures Stamps(Expire(d, now, ttl)) == Expire(Stamps(d), now, ttl)
  {
    if d == [] {
    } else {
      assert Stamps(d)[1..] == Stamps(d[1..]);
      if Expired(d[0], now, ttl) {
        StampsExpire(d[1..], now, ttl);
        assert Expire(d, now, ttl) == Expire(d[1..], now, ttl);
        assert Expire(Stamps(d), now, ttl) == Expire(Stamps(d[1..]), now, ttl);
      }
    }
  }

  lemma StampsStore<K, V>(d: Entries<K, V>, ttl: real, maxSize: nat, k: K, v: V, now: real)
    ensures Stamps(Store(d, ttl, maxSize, k, v, now, now)) == Store(Stamps(d), ttl, maxSize, k, (), now, now)
  {
    StampsTouched(d, k, v, now);
    StampsExpire(Touched(d, k, v, now), now, ttl);
    StampsIndex(Expire(Touched(d, k, v, now), now, ttl));
  }

  lemma StampsTouched<K, V>(d: Entries<K, V>, k: K, v: V, now: real)
    ensures Stamps(Touched(d, k, v, now)) == Touched(Stamps(d), k, (), now)
  {
    StampsHas(d, k);
    StampsAppend(Delete(d, k), k, v, now);
  }

  // One call, seen through the stamps alone.
  lemma StampsAnswered<K, V>(d: Entries<K, V>, ttl: real, maxSize: nat, c: Call<K, V>)
    ensures var live := Expire(Stamps(d), c.now, ttl);
            && (Has(live, c.key) <==> Has(Expire(d, c.now, ttl), c.key))
            && Stamps(Answered(d, ttl, maxSize, c).0)
            == if Has(live, c.key) then Touched(live, c.key, (), c.now)
               else Store(live, ttl, maxSize, c.key, (), c.now, c.now)
  {
    StampsExpire(d, c.now, ttl);
    var live := Expire(d, c.now, ttl);
    StampsHas(live, c.key);
    if Has(live, c.key) {
      StampsTouched(live, c.key, Get(live, c.key).0, c.now);
    } else {
      StampsStore(live, ttl, maxSize, c.key, c.created, c.now);
    }
  }

  // ------------------------------------------------ one call moves the window

  // In time order the expired entries are exactly a prefix, so its length is forced.
  lemma {:induction false} PrefixLength<K, V>(d: Entries<K, V>, now: real, ttl: real, n: nat)
    requires n <= |d|
    requires forall i :: 0 <= i < n ==> Expired(d[i], now, ttl)
    requires n < |d| ==> !Expired(d[n], now, ttl)
    ensures ExpiredPrefix(d, now, ttl) == n
  {
    if n == 0 {
    } else {
      assert forall i :: 0 <= i < n - 1 ==> d[1..][i] == d[i + 1];
      PrefixLength(d[1..], now, ttl, n - 1);
    }
  }

  // The window, as the suffix it is.
  lemma WindowIsSuffix<K, V>(r: Entries<K, V>, now: real, ttl: real, maxSize: nat) returns (a: nat)
    ensures a <= |r| && Window(r, now, ttl, maxSize) == r[a..]
    ensures var n := ExpiredPrefix(r, now, ttl); n <= a && a == if |r| - n <= maxSize then n else |r| - maxSize
  {
    var n := ExpiredPrefix(r, now, ttl);
    a := if |r| - n <= maxSize then n else |r| - maxSize;
  }

  lemma PrefixOfSuffix<K, V>(r: Entries<K, V>, now: real, ttl: real, a: nat)
    requires InTimeOrder(r) && a <= |r|
    ensures var n := ExpiredPrefix(r, now, ttl);
            ExpiredPrefix(r[a..], now, ttl) == if n <= a then 0 else n - a
  {
    var n := ExpiredPrefix(r, now, ttl);
    ExpiredPrefixSplits(r, now, ttl);
    var m := if n <= a then 0 else n - a;
    assert m < |r[a..]| ==> r[a..][m] == r[a + m] && r[n].1.1 <= r[a + m].1.1;
    PrefixLength(r[a..], now, ttl, m);
  }

  lemma PrefixGrows<K, V>(r: Entries<K, V>, now0: real, now: real, ttl: real)
    requires now0 <= now
    ensures ExpiredPrefix(r, now0, ttl) <= ExpiredPrefix(r, now, ttl)
  {
    if r != [] {
      PrefixGrows(r[1..], now0, now, ttl);
    }
  }

  lemma WindowExpires<K, V>(r: Entries<K, V>, now0: real, now: real, ttl: real, maxSize: nat)
    requires InTimeOrder(r) && now0 <= now
    ensures Expire(Window(r, now0, ttl, maxSize), now, ttl) == Window(r, now, ttl, maxSize)
  {
    hide InTimeOrder, ExpiredPrefix;
    var a := WindowIsSuffix(r, now0, ttl, maxSize);
    var b := WindowIsSuffix(r, now, ttl, maxSize);
    PrefixGrows(r, now0, now, ttl);
    PrefixOfSuffix(r, now, ttl, a);
  }

  // Touching a key that lies behind position `b` does not disturb what is before it.
  lemma TouchedBehind<K>(r: Entries<K, ()>, b: nat, k: K, now: real)
    requires Distinct(r) && b <= |r| && Has(r[b..], k)
    ensures Touched(r, k, (), now) == r[..b] + Touched(r[b..], k, (), now)
    ensures |Touched(r, k, (), now)| == |r|
  {
    hide Distinct, Has, OrderedDict.Delete, OrderedDict.Keys;
    var p, w := r[..b], r[b..];
    assert r == p + w;
    DistinctConcat(p, w);
    KeysAreHas(p, k);
    KeysAreHas(w, k);
    DeleteFromConcat(p, w, k);
    DeleteKeeps(w, k);
  }

  lemma WindowHit<K>(r: Entries<K, ()>, now: real, ttl: real, maxSize: nat, k: K)
    requires Distinct(r) && InTimeOrder(r) && UpTo(r, now)
    requires Has(Window(r, now, ttl, maxSize), k)
    ensures Touched(Window(r, now, ttl, maxSize), k, (), now)
         == Window(Touched(r, k, (), now), now, ttl, maxSize)
  {
    hide Distinct, Has, OrderedDict.Delete, ExpiredPrefix, InTimeOrder, UpTo;
    var b := WindowIsSuffix(r, now, ttl, maxSize);
    var n := ExpiredPrefix(r, now, ttl);
    TouchedBehind(r, b, k, now);
    var r' := Touched(r, k, (), now);
    assert Has(r[n..], k) by {
      assert r[n..] == r[n..b] + r[b..];
      DeleteFromConcat(r[n..b], r[b..], k);
    }
    TouchedFresh(r, k, now, ttl, n);
    PrefixLength(r', now, ttl, n);
    var b' := WindowIsSuffix(r', now, ttl, maxSize);
    assert b' == b;
  }

  // Touching a live session leaves the expired prefix as it was.
  lemma TouchedFresh<K>(r: Entries<K, ()>, k: K, now: real, ttl: real, n: nat)
    requires Distinct(r) && n == ExpiredPrefix(r, now, ttl) && Has(r[n..], k)
    requires InTimeOrder(r) && UpTo(r, now)
    ensures var r' := Touched(r, k, (), now);
            && n < |r'| && !Expired(r'[n], now, ttl)
            && forall i :: 0 <= i < n ==> Expired(r'[i], now, ttl)
  {
    hide Distinct, Has, OrderedDict.Delete, ExpiredPrefix;
    TouchedBehind(r, n, k, now);
    var p, w := r[..n], r[n..];
    var i := DeleteShifts(w, k);
    var w' := Touched(w, k, (), now);
    var r' := Touched(r, k, (), now);
    ExpiredPrefixSplits(r, now, ttl);
    assert w'[0] == if i > 0 then w[0] else if 1 < |w| then w[1] else (k, ((), now));
    assert w[0] == r[n] && (1 < |w| ==> w[1] == r[n + 1]);
    assert r'[n] == w'[0];
    assert forall j :: 0 <= j < n ==> r'[j] == r[j];
  }

  lemma WindowMiss<K>(r: Entries<K, ()>, now: real, ttl: real, maxSize: nat, k: K)
    requires Distinct(r) && InTimeOrder(r) && UpTo(r, now)
    requires !Has(Window(r, now, ttl, maxSize), k)
    ensures Store(Window(r, now, ttl, maxSize), ttl, maxSize, k, (), now, now)
         == Window(Touched(r, k, (), now), now, ttl, maxSize)
  {
    var w := Window(r, now, ttl, maxSize);
    DeleteAbsent(w, k);
    var r' := Touched(r, k, (), now);
    TouchedKeepsOrder(r, k, (), now);
    if ttl <= 0.0 {
      PrefixLength(r', now, ttl, |r'|);
      PrefixLength(r, now, ttl, |r|);
      PrefixLength(w + [(k, ((), now))], now, ttl, |w| + 1);
    } else {
      WindowMissLive(r, now, ttl, maxSize, k);
    }
  }

  // Touching a session outside the window appends it behind the window's sessions.
  lemma TouchedBefore<K>(r: Entries<K, ()>, b: nat, k: K, now: real) returns (q: Entries<K, ()>)
    requires b <= |r| && !Has(r[b..], k)
    ensures q == Delete(r[..b], k)
    ensures Touched(r, k, (), now) == q + r[b..] + [(k, ((), now))]
  {
    var p, w := r[..b], r[b..];
    assert r == p + w;
    DeleteFromConcat(p, w, k);
    DeleteAbsent(w, k);
    if !Has(p, k) {
      DeleteAbsent(p, k);
    }
    q := Delete(p, k);
  }

  // Storing a live session in a full or partly full window.
  lemma StoreAppends<K>(w: Entries<K, ()>, ttl: real, maxSize: nat, k: K, now: real)
    requires !Has(w, k) && (w != [] ==> !Expired(w[0], now, ttl)) && ttl > 0.0 && |w| <= maxSize
    ensures Store(w, ttl, maxSize, k, (), now, now) == LastN(w + [(k, ((), now))], maxSize)
  {
    DeleteAbsent(w, k);
    PrefixLength(w + [(k, ((), now))], now, ttl, 0);
  }

  lemma WindowMissLive<K>(r: Entries<K, ()>, now: real, ttl: real, maxSize: nat, k: K)
    requires Distinct(r) && InTimeOrder(r) && UpTo(r, now) && ttl > 0.0
    requires !Has(Window(r, now, ttl, maxSize), k)
    ensures Store(Window(r, now, ttl, maxSize), ttl, maxSize, k, (), now, now)
         == Window(Touched(r, k, (), now), now, ttl, maxSize)
  {
    hide Distinct, Has, OrderedDict.Delete, ExpiredPrefix, Store, UpTo;
    var b := WindowIsSuffix(r, now, ttl, maxSize);
    var w := r[b..];
    var n := ExpiredPrefix(r, now, ttl);
    PrefixOfSuffix(r, now, ttl, b);
    ExpiredPrefixSplits(w, now, ttl);
    StoreAppends(w, ttl, maxSize, k, now);
    var q := TouchedBefore(r, b, k, now);
    var r' := Touched(r, k, (), now);
    var w' := w + [(k, ((), now))];
    assert r' == q + w';
    if b == n {
      AllExpiredDelete(r, now, ttl, n, k);
      assert w'[0] == r'[|q|];
      PrefixLength(r', now, ttl, |q|);
      assert r'[|q|..] == w';
    } else {
      WindowMissFull(r, now, ttl, k, b);
      var b' := WindowIsSuffix(r', now, ttl, maxSize);
      assert r'[b'..] == w'[1..];
    }
  }

  lemma AllExpiredDelete<K, V>(r: Entries<K, V>, now: real, ttl: real, n: nat, k: K)
    requires n == ExpiredPrefix(r, now, ttl)
    ensures forall j :: 0 <= j < |Delete(r[..n], k)| ==> Expired(Delete(r[..n], k)[j], now, ttl)
  {
    ExpiredPrefixSplits(r, now, ttl);
    var p := r[..n];
    if Has(p, k) {
      var i := DeleteShifts(p, k);
    } else {
      DeleteAbsent(p, k);
    }
  }

  // With the window full, touching another session leaves at least as many live ones.
  lemma WindowMissFull<K>(r: Entries<K, ()>, now: real, ttl: real, k: K, b: nat)
    requires Distinct(r) && InTimeOrder(r) && ttl > 0.0 && b <= |r|
    requires ExpiredPrefix(r, now, ttl) < b && !Has(r[b..], k)
    ensures var r' := Touched(r, k, (), now);
            |r'| - ExpiredPrefix(r', now, ttl) > |r| - b
  {
    var w := r[b..];
    var q := TouchedBefore(r, b, k, now);
    var r' := Touched(r, k, (), now);
    ExpiredPrefixSplits(r, now, ttl);
    ExpiredPrefixSplits(r', now, ttl);
    assert !Expired(r'[|q|], now, ttl) by {
      if w != [] {
        assert r'[|q|] == w[0] == r[b];
      } else {
        assert r'[|q|] == (k, ((), now));
      }
    }
  }

  // ------------------------------------------------ whole runs

  lemma {:induction false} StateIsWindowFrom<K, V>(h: History<K, V>, ttl: real, maxSize: nat)
    requires h != [] && ClockForward(h)
    ensures Stamps(State(h, ttl, maxSize)) == Window(Recency(h), h[|h| - 1].now, ttl, maxSize)
    decreases |h|
  {
    var h', c := h[..|h| - 1], h[|h| - 1];
    var r := Recency(h');
    RecencyIsOrdered(h');
    assert NotBefore(c.now, h');
    StampsAnswered(State(h', ttl, maxSize), ttl, maxSize, c);
    if h' == [] {
      assert Window(r, c.now, ttl, maxSize) == [];
    } else {
      StateIsWindowFrom(h', ttl, maxSize);
      WindowExpires(r, h'[|h'| - 1].now, c.now, ttl, maxSize);
    }
    var w := Window(r, c.now, ttl, maxSize);
    if Has(w, c.key) {
      WindowHit(r, c.now, ttl, maxSize, c.key);
    } else {
      WindowMiss(r, c.now, ttl, maxSize, c.key);
    }
  }

  // After any run, what survives until `now` is the most recent `maxSize` live sessions.
  lemma StateIsWindow<K, V>(h: History<K, V>, ttl: real, maxSize: nat, now: real)
    requires ClockForward(h) && NotBefore(now, h)
    ensures Stamps(Expire(State(h, ttl, maxSize), now, ttl)) == Window(Recency(h), now, ttl, maxSize)
  {
    StampsExpire(State(h, ttl, maxSize), now, ttl);
    if h != [] {
      RecencyIsOrdered(h);
      StateIsWindowFrom(h, ttl, maxSize);
      WindowExpires(Recency(h), h[|h| - 1].now, now, ttl, maxSize);
    }
  }

  ghost predicate IsSuffix<T>(s: seq<T>, t: seq<T>) {
    |s| <= |t| && t[|t| - |s|..] == s
  }

  // The stack property: on the same calls a smaller cache holds a suffix of a larger one.
  lemma Inclusion<K, V>(h: History<K, V>, ttl: real, small: nat, large: nat)
    requires ClockForward(h) && small <= large
    ensures IsSuffix(Stamps(State(h, ttl, small)), Stamps(State(h, ttl, large)))
  {
    if h != [] {
      hide State, Recency, Stamps, ExpiredPrefix;
      var r, now := Recency(h), h[|h| - 1].now;
      StateIsWindowFrom(h, ttl, small);
      StateIsWindowFrom(h, ttl, large);
      var a := WindowIsSuffix(r, now, ttl, small);
      var b := WindowIsSuffix(r, now, ttl, large);
      assert r[b..][a - b..] == r[a..];
    }
  }

  // So every hit of the smaller cache is a hit of the larger.
  lemma HitsGrowWithSize<K, V>(h: History<K, V>, ttl: real, small: nat, large: nat, c: Call<K, V>)
    requires ClockForward(h + [c]) && small <= large
    ensures Hit(h, ttl, small, c) ==> Hit(h, ttl, large, c)
  {
    HistoryOf(h, c);
    HitIsInWindow(h, ttl, small, c);
    HitIsInWindow(h, ttl, large, c);
    var r := Recency(h);
    var a := WindowIsSuffix(r, c.now, ttl, small);
    var b := WindowIsSuffix(r, c.now, ttl, large);
    assert r[b..] == r[b..a] + r[a..];
    DeleteFromConcat(r[b..a], r[a..], c.key);
  }

  lemma HitIsInWindow<K, V>(h: History<K, V>, ttl: real, maxSize: nat, c: Call<K, V>)
    requires ClockForward(h) && NotBefore(c.now, h)
    ensures Hit(h, ttl, maxSize, c) <==> Has(Window(Recency(h), c.now, ttl, maxSize), c.key)
  {
    StateIsWindow(h, ttl, maxSize, c.now);
    StampsHas(Expire(State(h, ttl, maxSize), c.now, ttl), c.key);
  }

  lemma HistoryOf<K, V>(h: History<K, V>, c: Call<K, V>)
    requires ClockForward(h + [c])
    ensures ClockForward(h) && NotBefore(c.now, h)
  {
    var g := h + [c];
    assert forall i :: 0 <= i < |h| ==> h[i] == g[i];
    assert g[|h|] == c;
  }

  // ------------------------------------------------ hits, read off the history

  ghost predicate LastUse<K, V>(h: History<K, V>, k: K, i: nat) {
    i < |h| && h[i].key == k && forall j :: i < j < |h| ==> h[j].key != k
  }

  ghost function SessionsIn<K, V>(h: History<K, V>): set<K> {
    set c | c in h :: c.key
  }

  // The entries behind `k` in a dictionary.
  function Behind<K(==), V>(d: Dict<K, V>, k: K): Dict<K, V>
    requires Has(d, k)
  {
    if d[0].0 == k then d[1..] else Behind(d[1..], k)
  }

  lemma {:induction false} BehindAfterTouch<K>(d: Entries<K, ()>, x: K, k: K, now: real)
    requires Distinct(d) && Has(d, k) && x != k
    ensures var e := Touched(d, x, (), now);
            && Has(e, k) && Get(e, k) == Get(d, k)
            && Keys(Behind(e, k)) == Keys(Behind(d, k)) + {x}
  {
    var h, t := d[0], d[1..];
    var e := Touched(d, x, (), now);
    var last := [(x, ((), now))];
    if h.0 == k {
      assert e == [h] + (Delete(t, x) + last);
      DeleteKeeps(t, x);
      DistinctConcat(Delete(t, x), last);
      assert Keys(last) == {x};
      assert e[1..] == Delete(t, x) + last;
    } else if h.0 == x {
      assert e == t + last;
      DeleteFromConcat(t, last, k);
      BehindConcat(t, last, k);
      GetConcat(t, last, k);
      DistinctConcat(Behind(t, k), last);
      assert Keys(last) == {x};
    } else {
      BehindAfterTouch(t, x, k, now);
      assert e == [h] + Touched(t, x, (), now);
      assert e[1..] == Touched(t, x, (), now);
    }
  }

  lemma {:induction false} BehindConcat<K, V>(p: Dict<K, V>, s: Dict<K, V>, k: K)
    requires Has(p, k)
    ensures Has(p + s, k) && Behind(p + s, k) == Behind(p, k) + s
  {
    assert (p + s)[1..] == p[1..] + s;
    if p[0].0 != k {
      BehindConcat(p[1..], s, k);
    }
  }

  lemma {:induction false} GetConcat<K, V>(p: Dict<K, V>, s: Dict<K, V>, k: K)
    requires Has(p, k)
    ensures Has(p + s, k) && Get(p + s, k) == Get(p, k)
  {
    assert (p + s)[1..] == p[1..] + s;
    if p[0].0 != k {
      GetConcat(p[1..], s, k);
    }
  }

  lemma SessionsAppend<K, V>(h: History<K, V>, c: Call<K, V>)
    ensures SessionsIn(h + [c]) == SessionsIn(h) + {c.key}
  {
  }

  lemma NoSessions<K, V>()
    ensures SessionsIn<K, V>([]) == Keys<K, ((), real)>([])
  {
  }

  // The recency list knows each session's last use, and who was used since.
  lemma {:induction false} RecencyReads<K, V>(h: History<K, V>, k: K, i: nat)
    requires ClockForward(h) && LastUse(h, k, i)
    ensures Has(Recency(h), k) && Get(Recency(h), k) == ((), h[i].now)
    ensures Keys(Behind(Recency(h), k)) == SessionsIn(h[i + 1..])
  {
    hide Distinct, Has, OrderedDict.Delete, OrderedDict.Keys, OrderedDict.Get, Behind, InTimeOrder, UpTo, SessionsIn;
    var h', c := h[..|h| - 1], h[|h| - 1];
    RecencyIsOrdered(h');
    var r := Recency(h');
    if c.key == k {
      NoSessions<K, V>();
      DeleteKeeps(r, k);
      LastOfTouched(Delete(r, k), k, ((), c.now));
      assert h[i + 1..] == [];
    } else {
      assert LastUse(h', k, i);
      RecencyReads(h', k, i);
      BehindAfterTouch(r, c.key, k, c.now);
      assert h[i + 1..] == h'[i + 1..] + [c];
      SessionsAppend(h'[i + 1..], c);
    }
  }

  lemma {:induction false} LastOfTouched<K, V>(d: Dict<K, V>, k: K, v: V)
    requires !Has(d, k)
    ensures Has(d + [(k, v)], k) && Get(d + [(k, v)], k) == v && Behind(d + [(k, v)], k) == []
  {
    if d == [] {
    } else {
      LastOfTouched(d[1..], k, v);
      assert (d + [(k, v)])[1..] == d[1..] + [(k, v)];
    }
  }

  lemma {:induction false} RecencyHoldsUsed<K, V>(h: History<K, V>, k: K) returns (i: nat)
    requires Has(Recency(h), k)
    ensures LastUse(h, k, i)
  {
    var h', c := h[..|h| - 1], h[|h| - 1];
    if c.key == k {
      i := |h| - 1;
    } else {
      TouchedHas(Recency(h'), c.key, k, c.now);
      i := RecencyHoldsUsed(h', k);
    }
  }

  lemma {:induction false} TouchedHas<K>(d: Entries<K, ()>, x: K, k: K, now: real)
    requires Has(Touched(d, x, (), now), k) && x != k
    ensures Has(d, k)
  {
    if d == [] {
    } else if d[0].0 == x {
      DeleteFromConcat(d[1..], [(x, ((), now))], k);
    } else {
      var e := Touched(d, x, (), now);
      assert e[1..] == Touched(d[1..], x, (), now);
      if e[0].0 != k {
        TouchedHas(d[1..], x, k, now);
      }
    }
  }

  // A session is in the window iff it is live and few enough sessions are behind it.
  lemma InWindowIff<K>(r: Entries<K, ()>, now: real, ttl: real, maxSize: nat, k: K)
    requires Distinct(r) && InTimeOrder(r)
    ensures Has(Window(r, now, ttl, maxSize), k)
       <==> Has(r, k) && now - Get(r, k).1 < ttl && |Keys(Behind(r, k))| < maxSize
  {
    var b := WindowIsSuffix(r, now, ttl, maxSize);
    var n := ExpiredPrefix(r, now, ttl);
    assert r == r[..b] + r[b..];
    DeleteFromConcat(r[..b], r[b..], k);
    if Has(r, k) {
      var i := RankOf(r, k);
      DistinctSize(r[i + 1..]);
      SuffixHas(r, b, i);
      ExpiredPrefixSplits(r, now, ttl);
      assert now - r[i].1.1 < ttl <==> n <= i;
    }
  }

  lemma SuffixHas<K, V>(r: Dict<K, V>, b: nat, i: nat)
    requires Distinct(r) && b <= |r| && i < |r|
    ensures Has(r[b..], r[i].0) <==> b <= i
  {
    var p, w := r[..b], r[b..];
    assert r == p + w;
    DistinctConcat(p, w);
    KeysAreHas(p, r[i].0);
    KeysAreHas(w, r[i].0);
    if b <= i {
      IndexHas(w, i - b);
    } else {
      IndexHas(p, i);
    }
  }

  lemma {:induction false} RankOf<K, V>(d: Dict<K, V>, k: K) returns (i: nat)
    requires Distinct(d) && Has(d, k)
    ensures i < |d| && d[i] == (k, Get(d, k)) && Behind(d, k) == d[i + 1..]
    ensures Distinct(d[i + 1..])
  {
    if d[0].0 == k {
      i := 0;
    } else {
      var j := RankOf(d[1..], k);
      i := j + 1;
      assert d[1..][j + 1..] == d[i + 1..];
    }
  }

  lemma DistinctSize<K, V>(d: Dict<K, V>)
    requires Distinct(d)
    ensures |Keys(d)| == |d|
  {
    AsMapSize(d);
  }

  // Session `k`, last used by call `i`, was used recently enough and few others were since.
  ghost predicate RecentlyUsed<K, V>(h: History<K, V>, ttl: real, maxSize: nat, k: K, now: real, i: nat) {
    LastUse(h, k, i) && now - h[i].now < ttl && |SessionsIn(h[i + 1..])| < maxSize
  }

  // A call hits exactly when its session was used less than `ttl` ago and fewer than
  // `maxSize` different sessions were used since.
  lemma HitIff<K, V>(h: History<K, V>, ttl: real, maxSize: nat, c: Call<K, V>)
    requires ClockForward(h + [c])
    ensures Hit(h, ttl, maxSize, c) <==> exists i: nat :: RecentlyUsed(h, ttl, maxSize, c.key, c.now, i)
  {
    HistoryOf(h, c);
    HitIsInWindow(h, ttl, maxSize, c);
    RecencyIsOrdered(h);
    InWindowIff(Recency(h), c.now, ttl, maxSize, c.key);
    if Has(Recency(h), c.key) {
      var i := RecencyHoldsUsed(h, c.key);
      RecencyReads(h, c.key, i);
      assert Hit(h, ttl, maxSize, c) <==> RecentlyUsed(h, ttl, maxSize, c.key, c.now, i);
      forall j: nat | RecentlyUsed(h, ttl, maxSize, c.key, c.now, j) ensures j == i {
        assert h[i].key == h[j].key;
      }
    } else {
      forall i: nat | LastUse(h, c.key, i) ensures false {
        RecencyReads(h, c.key, i);
      }
    }
  }

  // ------------------------------------------------ which tool a call returns

  // What the last call of `h` returned.
  function Answer<K(==), V>(h: History<K, V>, ttl: real, maxSize: nat): V
    requires h != []
  {
    Answered(State(h[..|h| - 1], ttl, maxSize), ttl, maxSize, h[|h| - 1]).1
  }

  lemma StateIsDistinct<K, V>(h: History<K, V>, ttl: real, maxSize: nat)
    requires ClockForward(h)
    ensures Distinct(State(h, ttl, maxSize))
  {
    var d := State(h, ttl, maxSize);
    if d != [] {
      var r, now := Recency(h), h[|h| - 1].now;
      StateIsWindowFrom(h, ttl, maxSize);
      RecencyIsOrdered(h);
      var a := WindowIsSuffix(r, now, ttl, maxSize);
      SuffixGet(r, a, d[0].0);
      StampsHas(d, d[0].0);
    }
  }

  lemma SuffixGet<K, V>(d: Dict<K, V>, n: nat, k: K)
    requires Distinct(d) && n <= |d|
    ensures Distinct(d[n..])
    ensures Has(d[n..], k) ==> Has(d, k) && Get(d, k) == Get(d[n..], k)
  {
    assert d == d[..n] + d[n..];
    DistinctConcat(d[..n], d[n..]);
    if Has(d[n..], k) {
      var i := HasIndex(d[n..], k);
      assert d[n + i] == d[n..][i];
      IndexHas(d, n + i);
    }
  }

  lemma TouchedReads<K, V>(d: Entries<K, V>, x: K, v: V, now: real, k: K)
    requires Distinct(d)
    ensures var e := Touched(d, x, v, now);
            && Distinct(e)
            && Has(e, x) && Get(e, x) == (v, now)
            && (k != x && Has(e, k) ==> Has(d, k) && Get(d, k) == Get(e, k))
  {
    DeleteKeeps(d, x);
    PutKeeps(Delete(d, x), x, (v, now));
    LastOfTouched(Delete(d, x), x, (v, now));
    var e := Touched(d, x, v, now);
    AsMapReads(d, k);
    AsMapReads(e, k);
  }

  // What one call does to the entries, seen from a session `k` still resident after it.
  lemma AnsweredReads<K, V>(d: Entries<K, V>, ttl: real, maxSize: nat, c: Call<K, V>, k: K)
    requires Distinct(d)
    requires Has(Answered(d, ttl, maxSize, c).0, k)
    ensures var (e, answer) := Answered(d, ttl, maxSize, c);
            if k == c.key then Get(e, k).0 == answer
            else Has(d, k) && Get(d, k) == Get(e, k)
  {
    var live := Expire(d, c.now, ttl);
    SuffixGet(d, ExpiredPrefix(d, c.now, ttl), k);
    if Has(live, c.key) {
      TouchedReads(live, c.key, Get(live, c.key).0, c.now, k);
    } else {
      TouchedReads(live, c.key, c.created, c.now, k);
      var t := Touched(live, c.key, c.created, c.now);
      var n := ExpiredPrefix(t, c.now, ttl);
      SuffixGet(t, n, k);
      if |t[n..]| > maxSize {
        SuffixGet(t, n + 1, k);
        assert t[n..][1..] == t[n + 1..];
      }
    }
  }

  // A resident session holds the tool its last use returned.
  lemma {:induction false} ResidentTool<K, V>(h: History<K, V>, ttl: real, maxSize: nat, k: K, i: nat)
    requires ClockForward(h) && LastUse(h, k, i) && Has(State(h, ttl, maxSize), k)
    ensures Get(State(h, ttl, maxSize), k).0 == Answer(h[..i + 1], ttl, maxSize)
  {
    var h', c := h[..|h| - 1], h[|h| - 1];
    StateIsDistinct(h', ttl, maxSize);
    AnsweredReads(State(h', ttl, maxSize), ttl, maxSize, c, k);
    if c.key == k {
      assert h[..i + 1] == h;
    } else {
      assert LastUse(h', k, i) && h'[..i + 1] == h[..i + 1];
      ResidentTool(h', ttl, maxSize, k, i);
    }
  }

  // A call returns what its session's last use returned if that use is recent enough,
  // and the newly built tool otherwise.
  lemma AnswerIs<K, V>(h: History<K, V>, ttl: real, maxSize: nat, c: Call<K, V>, i: nat)
    requires ClockForward(h + [c]) && LastUse(h, c.key, i)
    ensures Answer(h + [c], ttl, maxSize)
         == if RecentlyUsed(h, ttl, maxSize, c.key, c.now, i) then Answer(h[..i + 1], ttl, maxSize)
            else c.created
  {
    HistoryOf(h, c);
    HitIff(h, ttl, maxSize, c);
    var d := State(h, ttl, maxSize);
    assert (h + [c])[..|h|] == h;
    if RecentlyUsed(h, ttl, maxSize, c.key, c.now, i) {
      StateIsDistinct(h, ttl, maxSize);
      SuffixGet(d, ExpiredPrefix(d, c.now, ttl), c.key);
      ResidentTool(h, ttl, maxSize, c.key, i);
    } else {
      forall j: nat | LastUse(h, c.key, j) ensures j == i {
        assert h[i].key == h[j].key;
      }
    }
  }
}
