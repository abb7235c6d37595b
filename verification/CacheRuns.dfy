/** Whole runs of the cache with its policy: the two never disagree about residency, and
    every victim is the one an account of the past alone would choose. */
module CacheRuns {
  import opened Common
  import opened OrderedDict
  import opened CachePolicy
  import opened CacheSimulator

  // ------------------------------------------------ coupling

  // The segments split the resident keys between them.
  ghost predicate Linked(s: Sim) {
    && Distinct(s.cache) && Distinct(s.segments.probation) && Distinct(s.segments.protected)
    && Keys(s.segments.probation) !! Keys(s.segments.protected)
    && Keys(s.cache) == Keys(s.segments.probation) + Keys(s.segments.protected)
  }

  // What holds between accesses.
  ghost predicate Coupled(s: Sim) {
    Linked(s) && TotalSize(s.cache) <= s.capacity
  }

  lemma {:induction false} SizeAfterDelete(d: Contents, k: Key)
    requires Has(d, k)
    ensures TotalSize(Delete(d, k)) == TotalSize(d) - Get(d, k).size
  {
    if d[0].0 != k {
      SizeAfterDelete(d[1..], k);
      assert Delete(d, k)[1..] == Delete(d[1..], k);
    }
  }

  lemma {:induction false} SizeAfterInsert(d: Contents, k: Key, obj: CacheObj)
    requires !Has(d, k)
    ensures TotalSize(Put(d, k, obj)) == TotalSize(d) + obj.size
  {
    if d == [] {
    } else {
      SizeAfterInsert(d[1..], k, obj);
      assert Put(d, k, obj)[1..] == Put(d[1..], k, obj);
    }
  }

  // With the segments linked, eviction names a resident key as long as anything is resident.
  lemma EvictLinked(s: Sim)
    requires Linked(s) && s.cache != []
    ensures EvictOne(s).Ok? && Linked(EvictOne(s).value)
    ensures Keys(EvictOne(s).value.cache) == Keys(s.cache) - {Candidate(s.segments).value}
  {
    var g := s.segments;
    FirstKey(s.cache);
    assert s.cache[0].0 in Keys(g.probation) + Keys(g.protected);
    assert g.probation != [] || g.protected != [];
    var k := Candidate(g).value;
    if g.probation != [] { FirstKey(g.probation); } else { FirstKey(g.protected); }
    assert k in Keys(s.cache);
    KeysAreHas(s.cache, k);
    KeysAreHas(g.probation, k);
    KeysAreHas(g.protected, k);
    DeleteKeeps(s.cache, k);
    DeleteKeeps(g.probation, k);
    DeleteKeeps(g.protected, k);
  }

  lemma FirstKey<V>(d: Dict<Key, V>)
    requires d != []
    ensures d[0].0 in Keys(d)
  {
  }

  // Making room succeeds for everything that fits, and only removes.
  lemma {:induction false} MakeRoomLinked(s: Sim, need: nat)
    requires Linked(s) && need <= s.capacity
    ensures MakeRoom(s, need).Ok?
    ensures var t := MakeRoom(s, need).value;
            && Linked(t) && Keys(t.cache) <= Keys(s.cache) && TotalSize(t.cache) + need <= s.capacity
            && (t.capacity, t.accesses, t.hits) == (s.capacity, s.accesses, s.hits)
    decreases |s.cache|
  {
    if TotalSize(s.cache) + need > s.capacity {
      EvictLinked(s);
      DeleteShrinks(s.cache, Candidate(s.segments).value);
      MakeRoomLinked(EvictOne(s).value, need);
    }
  }

  lemma HitLinked(s: Sim, k: Key, now: nat)
    requires Linked(s) && Has(s.cache, k)
    ensures Linked(s.(segments := AfterHit(s.segments, k, now)))
  {
    hide Distinct, Has, OrderedDict.Keys, OrderedDict.Delete, Put;
    var g := s.segments;
    KeysAreHas(s.cache, k);
    KeysAreHas(g.probation, k);
    KeysAreHas(g.protected, k);
    DeleteKeeps(g.probation, k);
    DeleteKeeps(g.protected, k);
    PutKeeps(g.protected, k, now);
    if !Has(g.probation, k) {
      var v := OrderedDict.Get(g.protected, k);
      PutKeeps(Delete(g.protected, k), k, v);
    }
  }

  lemma InsertLinked(s: Sim, obj: CacheObj, now: nat)
    requires Linked(s) && !Has(s.cache, obj.key)
    ensures Linked(s.(cache := Put(s.cache, obj.key, obj), segments := AfterInsert(s.segments, obj.key, now)))
  {
    KeysAreHas(s.cache, obj.key);
    PutKeeps(s.cache, obj.key, obj);
    PutKeeps(s.segments.probation, obj.key, now);
  }

  // An access never raises, keeps the coupling, and leaves any object that fits resident;
  // it is a hit exactly when the object was resident.
  lemma AccessCoupled(s: Sim, obj: CacheObj)
    requires Coupled(s)
    ensures var (t, r) := Serve(s, obj);
            && r == Ok(Has(s.cache, obj.key))
            && Coupled(t) && t.capacity == s.capacity
            && t.accesses == s.accesses + 1
            && t.hits == s.hits + (if Has(s.cache, obj.key) then 1 else 0)
            && (obj.size <= s.capacity ==> Has(t.cache, obj.key))
            && Keys(t.cache) <= Keys(s.cache) + {obj.key}
  {
    var s1 := s.(accesses := s.accesses + 1);
    if Has(s.cache, obj.key) {
      HitLinked(s1, obj.key, s1.accesses);
    } else if obj.size <= s.capacity {
      MakeRoomLinked(s1, obj.size);
      var t := MakeRoom(s1, obj.size).value;
      KeysAreHas(s.cache, obj.key);
      KeysAreHas(t.cache, obj.key);
      InsertLinked(t, obj, t.accesses);
      SizeAfterInsert(t.cache, obj.key, obj);
      PutKeeps(t.cache, obj.key, obj);
    }
  }

  // ------------------------------------------------ runs

  // The cache after a trace of accesses.
  function Run(capacity: nat, trace: seq<CacheObj>): Sim {
    if trace == [] then Empty(capacity)
    else Serve(Run(capacity, trace[..|trace| - 1]), trace[|trace| - 1]).0
  }

  lemma {:induction false} RunCoupled(capacity: nat, trace: seq<CacheObj>)
    ensures Coupled(Run(capacity, trace)) && Run(capacity, trace).capacity == capacity
  {
    if trace == [] {
    } else {
      RunCoupled(capacity, trace[..|trace| - 1]);
      AccessCoupled(Run(capacity, trace[..|trace| - 1]), trace[|trace| - 1]);
    }
  }

  // On every trace, with any sizes, every access is answered.
  lemma NoAccessRaises(capacity: nat, trace: seq<CacheObj>, obj: CacheObj)
    ensures Serve(Run(capacity, trace), obj).1 == Ok(Has(Run(capacity, trace).cache, obj.key))
  {
    RunCoupled(capacity, trace);
    AccessCoupled(Run(capacity, trace), obj);
  }

  // ------------------------------------------------ the victim, told from the past

  // One past the position of the last occurrence of an event; 0 if there is none.
  function LastTime(log: seq<Event>, e: Event): (n: nat)
    ensures n <= |log|
  {
    if log == [] then 0
    else if log[|log| - 1] == e then |log|
    else LastTime(log[..|log| - 1], e)
  }

  // The keys inserted and not evicted since.
  function Residents(log: seq<Event>): set<Key> {
    if log == [] then {}
    else
      var before := Residents(log[..|log| - 1]);
      match log[|log| - 1]
      case WasHit(_) => before
      case WasInserted(k) => before + {k}
      case WasEvicted(k) => before - {k}
  }

  // Not hit since its last insertion.
  predicate Unproven(log: seq<Event>, k: Key) {
    LastTime(log, WasHit(k)) < LastTime(log, WasInserted(k))
  }

  // The earliest inserted of the residents not hit since their insertion, if there are any;
  // otherwise the resident whose latest hit is the oldest.
  ghost predicate RightVictim(log: seq<Event>, v: Key) {
    && v in Residents(log)
    && if exists k :: k in Residents(log) && Unproven(log, k) then
         && Unproven(log, v)
         && forall k :: k in Residents(log) && Unproven(log, k)
              ==> LastTime(log, WasInserted(v)) <= LastTime(log, WasInserted(k))
       else
         forall k :: k in Residents(log) ==> LastTime(log, WasHit(v)) <= LastTime(log, WasHit(k))
  }

  ghost predicate VictimsRight(log: seq<Event>) {
    log != [] ==>
      && VictimsRight(log[..|log| - 1])
      && (log[|log| - 1].WasEvicted? ==> RightVictim(log[..|log| - 1], log[|log| - 1].key))
  }

  // In order of last insertion, or of last hit.
  ghost predicate InOrderOf(log: seq<Event>, d: Segment, event: Key -> Event) {
    forall i, j :: 0 <= i < j < |d| ==> LastTime(log, event(d[i].0)) < LastTime(log, event(d[j].0))
  }

  // The segments say of the past what the log says.
  ghost predicate Reflects(g: Segments, log: seq<Event>) {
    && Residents(log) == Keys(g.probation) + Keys(g.protected)
    && (forall k :: k in Keys(g.probation) ==> Unproven(log, k))
    && (forall k :: k in Keys(g.protected) ==> !Unproven(log, k))
    && InOrderOf(log, g.probation, k => WasInserted(k))
    && InOrderOf(log, g.protected, k => WasHit(k))
  }

  lemma LastTimeAppend(log: seq<Event>, e: Event, f: Event)
    ensures LastTime(log + [e], f) == if e == f then |log| + 1 else LastTime(log, f)
    ensures Residents(log + [e])
         == match e
            case WasHit(_) => Residents(log)
            case WasInserted(k) => Residents(log) + {k}
            case WasEvicted(k) => Residents(log) - {k}
    ensures VictimsRight(log + [e])
       <==> VictimsRight(log) && (e.WasEvicted? ==> RightVictim(log, e.key))
  {
    assert (log + [e])[..|log|] == log;
  }

  lemma KeyTimes(log: seq<Event>, e: Event, d: Segment, event: Key -> Event)
    requires forall k :: k in Keys(d) ==> event(k) != e
    ensures forall i :: 0 <= i < |d| ==> LastTime(log + [e], event(d[i].0)) == LastTime(log, event(d[i].0))
  {
    forall i | 0 <= i < |d| ensures LastTime(log + [e], event(d[i].0)) == LastTime(log, event(d[i].0)) {
      IndexHas(d, i);
      KeysAreHas(d, d[i].0);
      LastTimeAppend(log, e, event(d[i].0));
    }
  }

  lemma OrderKept(log: seq<Event>, e: Event, d: Segment, event: Key -> Event)
    requires InOrderOf(log, d, event) && forall k :: k in Keys(d) ==> event(k) != e
    ensures InOrderOf(log + [e], d, event)
  {
    KeyTimes(log, e, d, event);
  }

  // The key the event is about goes to the end.
  lemma OrderAppend(log: seq<Event>, d: Segment, k: Key, v: nat, event: Key -> Event)
    requires InOrderOf(log, d, event) && forall x :: x in Keys(d) ==> event(x) != event(k)
    ensures InOrderOf(log + [event(k)], d + [(k, v)], event)
  {
    KeyTimes(log, event(k), d, event);
    LastTimeAppend(log, event(k), event(k));
    var d' := d + [(k, v)];
    assert forall i :: 0 <= i < |d| ==> d'[i] == d[i];
  }

  lemma OrderDelete(log: seq<Event>, d: Segment, k: Key, event: Key -> Event)
    requires InOrderOf(log, d, event)
    ensures InOrderOf(log, Delete(d, k), event)
  {
    if Has(d, k) {
      var i := DeleteShifts(d, k);
      var e := Delete(d, k);
      assert forall j :: 0 <= j < |e| ==> e[j] == d[if j < i then j else j + 1];
    } else {
      DeleteAbsent(d, k);
    }
  }

  // The front of an ordered segment is its earliest key.
  lemma FrontIsFirst(log: seq<Event>, d: Segment, event: Key -> Event, k: Key)
    requires InOrderOf(log, d, event) && d != [] && k in Keys(d)
    ensures LastTime(log, event(d[0].0)) <= LastTime(log, event(k))
  {
    KeysAreHas(d, k);
    var i := HasIndex(d, k);
  }

  ghost predicate Disjoint(g: Segments) {
    Distinct(g.probation) && Distinct(g.protected) && Keys(g.probation) !! Keys(g.protected)
  }

  lemma EvictRight(g: Segments, log: seq<Event>)
    requires Disjoint(g) && Reflects(g, log) && Candidate(g).Some?
    ensures RightVictim(log, Candidate(g).value)
  {
    var v := Candidate(g).value;
    if g.probation != [] {
      FirstKey(g.probation);
      forall k | k in Residents(log) && Unproven(log, k)
        ensures LastTime(log, WasInserted(v)) <= LastTime(log, WasInserted(k))
      {
        FrontIsFirst(log, g.probation, x => WasInserted(x), k);
      }
    } else {
      FirstKey(g.protected);
      forall k | k in Residents(log) ensures LastTime(log, WasHit(v)) <= LastTime(log, WasHit(k)) {
        FrontIsFirst(log, g.protected, x => WasHit(x), k);
      }
    }
  }

  lemma EvictReflects(g: Segments, log: seq<Event>)
    requires Disjoint(g) && Reflects(g, log) && Candidate(g).Some?
    ensures var v := Candidate(g).value;
            Reflects(AfterEvict(g, v), log + [WasEvicted(v)])
  {
    var v := Candidate(g).value;
    var e := WasEvicted(v);
    KeysAreHas(g.probation, v);
    KeysAreHas(g.protected, v);
    DeleteKeeps(g.probation, v);
    DeleteKeeps(g.protected, v);
    forall k ensures Unproven(log + [e], k) <==> Unproven(log, k) {
      LastTimeAppend(log, e, WasInserted(k));
      LastTimeAppend(log, e, WasHit(k));
    }
    OrderDelete(log, g.probation, v, k => WasInserted(k));
    OrderDelete(log, g.protected, v, k => WasHit(k));
    var g' := AfterEvict(g, v);
    OrderKept(log, e, g'.probation, k => WasInserted(k));
    OrderKept(log, e, g'.protected, k => WasHit(k));
  }

  lemma HitTimes(log: seq<Event>, k: Key)
    ensures forall x :: Unproven(log + [WasHit(k)], x) <==> x != k && Unproven(log, x)
  {
    forall x ensures Unproven(log + [WasHit(k)], x) <==> x != k && Unproven(log, x) {
      LastTimeAppend(log, WasHit(k), WasInserted(x));
      LastTimeAppend(log, WasHit(k), WasHit(x));
    }
  }

  lemma HitInProbation(g: Segments, log: seq<Event>, k: Key, now: nat)
    requires Disjoint(g) && Reflects(g, log) && Has(g.probation, k)
    ensures Reflects(AfterHit(g, k, now), log + [WasHit(k)])
  {
    var e := WasHit(k);
    KeysAreHas(g.probation, k);
    KeysAreHas(g.protected, k);
    DeleteKeeps(g.probation, k);
    PutKeeps(g.protected, k, now);
    HitTimes(log, k);
    LastTimeAppend(log, e, e);
    OrderDelete(log, g.probation, k, x => WasInserted(x));
    OrderKept(log, e, Delete(g.probation, k), x => WasInserted(x));
    OrderAppend(log, g.protected, k, now, x => WasHit(x));
  }

  lemma HitInProtected(g: Segments, log: seq<Event>, k: Key, now: nat)
    requires Disjoint(g) && Reflects(g, log) && Has(g.protected, k) && !Has(g.probation, k)
    ensures Reflects(AfterHit(g, k, now), log + [WasHit(k)])
  {
    hide LastTime, Residents, Distinct, OrderedDict.Delete, OrderedDict.Get;
    var e := WasHit(k);
    var v := OrderedDict.Get(g.protected, k);
    var d := Delete(g.protected, k);
    KeysAreHas(g.probation, k);
    KeysAreHas(g.protected, k);
    DeleteKeeps(g.protected, k);
    KeysAppend(d, k, v);
    HitTimes(log, k);
    LastTimeAppend(log, e, e);
    OrderKept(log, e, g.probation, x => WasInserted(x));
    OrderDelete(log, g.protected, k, x => WasHit(x));
    OrderAppend(log, d, k, v, x => WasHit(x));
    assert AfterHit(g, k, now) == g.(protected := d + [(k, v)]);
  }

  lemma KeysAppend(d: Segment, k: Key, v: nat)
    ensures Keys(d + [(k, v)]) == Keys(d) + {k}
  {
    if d == [] {
      assert d + [(k, v)] == [(k, v)];
    } else {
      KeysAppend(d[1..], k, v);
      assert (d + [(k, v)])[1..] == d[1..] + [(k, v)];
    }
  }

  lemma HitReflects(g: Segments, log: seq<Event>, k: Key, now: nat)
    requires Disjoint(g) && Reflects(g, log) && k in Residents(log)
    ensures Reflects(AfterHit(g, k, now), log + [WasHit(k)])
  {
    KeysAreHas(g.probation, k);
    KeysAreHas(g.protected, k);
    if Has(g.probation, k) {
      HitInProbation(g, log, k, now);
    } else {
      HitInProtected(g, log, k, now);
    }
  }

  lemma InsertReflects(g: Segments, log: seq<Event>, k: Key, now: nat)
    requires Disjoint(g) && Reflects(g, log) && k !in Residents(log)
    ensures Reflects(AfterInsert(g, k, now), log + [WasInserted(k)])
  {
    var e := WasInserted(k);
    KeysAreHas(g.probation, k);
    PutKeeps(g.probation, k, now);
    forall x ensures Unproven(log + [e], x) <==> x == k || Unproven(log, x) {
      LastTimeAppend(log, e, WasInserted(x));
      LastTimeAppend(log, e, WasHit(x));
    }
    LastTimeAppend(log, e, e);
    OrderAppend(log, g.probation, k, now, x => WasInserted(x));
    OrderKept(log, e, g.protected, x => WasHit(x));
  }

  // ------------------------------------------------ the log, told from the accesses

  // What the policy was told about accesses, evictions left out.
  function Told(log: seq<Event>): seq<Event> {
    if log == [] then []
    else Told(log[..|log| - 1]) + if log[|log| - 1].WasEvicted? then [] else [log[|log| - 1]]
  }

  // What an access has to be reported as: a hit on a resident key, the insertion of an object
  // that can fit, or nothing.
  function Report(resident: bool, obj: CacheObj, capacity: nat): seq<Event> {
    if resident then [WasHit(obj.key)] else if obj.size <= capacity then [WasInserted(obj.key)] else []
  }

  function Dictated(capacity: nat, trace: seq<CacheObj>): seq<Event> {
    if trace == [] then []
    else
      var before, obj := trace[..|trace| - 1], trace[|trace| - 1];
      Dictated(capacity, before) + Report(obj.key in Keys(Run(capacity, before).cache), obj, capacity)
  }

  lemma ToldAppend(log: seq<Event>, e: Event)
    ensures Told(log + [e]) == Told(log) + if e.WasEvicted? then [] else [e]
  {
    assert (log + [e])[..|log|] == log;
  }

  // Making room evicts only while the object does not fit, tells of nothing else, and leaves
  // the other objects as they are.
  lemma {:induction false} MakeRoomEvicts(s: Sim, need: nat) returns (last: Sim)
    requires Linked(s) && need <= s.capacity
    ensures MakeRoom(s, need).Ok?
    ensures var t := MakeRoom(s, need).value;
            && Told(t.log) == Told(s.log)
            && (forall k :: Has(t.cache, k) ==> Has(s.cache, k) && Get(t.cache, k) == Get(s.cache, k))
            && if TotalSize(s.cache) + need <= s.capacity then t == s
               else EvictOne(last) == Ok(t) && TotalSize(last.cache) + need > s.capacity && last.capacity == s.capacity
    decreases |s.cache|
  {
    last := s;
    if TotalSize(s.cache) + need > s.capacity {
      var v := Candidate(s.segments).value;
      EvictLinked(s);
      DeleteShrinks(s.cache, v);
      var u := EvictOne(s).value;
      ToldAppend(s.log, WasEvicted(v));
      var later := MakeRoomEvicts(u, need);
      if TotalSize(u.cache) + need > s.capacity {
        last := later;
      }
      var t := MakeRoom(u, need).value;
      forall k | Has(t.cache, k) ensures Has(s.cache, k) && Get(t.cache, k) == Get(s.cache, k) {
        DeleteReads(s.cache, v, k);
      }
    }
  }

  // Which of its three ways an access takes.
  lemma ServeCases(s: Sim, obj: CacheObj)
    ensures var t := Serve(s, obj).0;
            if Has(s.cache, obj.key) then t.cache == s.cache && t.log == s.log + [WasHit(obj.key)]
            else if obj.size > s.capacity then t.cache == s.cache && t.log == s.log
            else
              var room := MakeRoom(s.(accesses := s.accesses + 1), obj.size);
              room.Ok? ==> t.cache == Put(room.value.cache, obj.key, obj) && t.log == room.value.log + [WasInserted(obj.key)]
  {
  }

  // One access: what is told and what is resident afterwards. Nothing is evicted for an object
  // that is resident, cannot fit, or fits as it is.
  lemma AccessTells(s: Sim, obj: CacheObj)
    requires Coupled(s)
    ensures var t := Serve(s, obj).0;
            && Told(t.log) == Told(s.log) + Report(obj.key in Keys(s.cache), obj, s.capacity)
            && (Has(s.cache, obj.key) || obj.size > s.capacity ==> t.cache == s.cache)
            && (!Has(s.cache, obj.key) && obj.size <= s.capacity ==>
                  && Has(t.cache, obj.key) && Get(t.cache, obj.key) == obj
                  && forall k :: Has(t.cache, k) && k != obj.key ==> Has(s.cache, k) && Get(t.cache, k) == Get(s.cache, k))
            && (Has(s.cache, obj.key) || obj.size > s.capacity || TotalSize(s.cache) + obj.size <= s.capacity
                ==> t.log == s.log + Report(obj.key in Keys(s.cache), obj, s.capacity))
  {
    hide Serve, Told, TotalSize, Put, OrderedDict.Get, OrderedDict.Keys, Has, Distinct, MakeRoom, EvictOne;
    KeysAreHas(s.cache, obj.key);
    ServeCases(s, obj);
    ToldAppend(s.log, WasHit(obj.key));
    assert Told(s.log) + [] == Told(s.log) && s.log + [] == s.log;
    if !Has(s.cache, obj.key) && obj.size <= s.capacity {
      var s1 := s.(accesses := s.accesses + 1);
      var _ := MakeRoomEvicts(s1, obj.size);
      var r := MakeRoom(s1, obj.size).value;
      ToldAppend(r.log, WasInserted(obj.key));
      InsertKeeps(s.cache, r.cache, obj);
    }
  }

  lemma InsertKeeps(before: Contents, room: Contents, obj: CacheObj)
    requires forall k :: Has(room, k) ==> Has(before, k) && Get(room, k) == Get(before, k)
    ensures var d := Put(room, obj.key, obj);
            && Has(d, obj.key) && Get(d, obj.key) == obj
            && forall k :: Has(d, k) && k != obj.key ==> Has(before, k) && Get(d, k) == Get(before, k)
  {
    var d := Put(room, obj.key, obj);
    PutReads(room, obj.key, obj, obj.key);
    forall k | Has(d, k) && k != obj.key ensures Has(before, k) && Get(d, k) == Get(before, k) {
      PutReads(room, obj.key, obj, k);
    }
  }

  ghost predicate Faithful(s: Sim) {
    Linked(s) && Reflects(s.segments, s.log) && VictimsRight(s.log)
  }

  lemma {:induction false} MakeRoomFaithful(s: Sim, need: nat)
    requires Faithful(s) && need <= s.capacity
    ensures MakeRoom(s, need).Ok? && Faithful(MakeRoom(s, need).value)
    decreases |s.cache|
  {
    if TotalSize(s.cache) + need > s.capacity {
      var v := Candidate(s.segments).value;
      EvictLinked(s);
      EvictRight(s.segments, s.log);
      EvictReflects(s.segments, s.log);
      LastTimeAppend(s.log, WasEvicted(v), WasEvicted(v));
      DeleteShrinks(s.cache, v);
      MakeRoomFaithful(EvictOne(s).value, need);
    }
  }

  lemma HitFaithful(s: Sim, k: Key, now: nat)
    requires Faithful(s) && Has(s.cache, k)
    ensures Faithful(s.(segments := AfterHit(s.segments, k, now), log := s.log + [WasHit(k)]))
  {
    hide Reflects;
    ReflectsResidents(s);
    KeysAreHas(s.cache, k);
    HitLinked(s, k, now);
    HitReflects(s.segments, s.log, k, now);
    LastTimeAppend(s.log, WasHit(k), WasHit(k));
  }

  lemma InsertFaithful(s: Sim, obj: CacheObj, now: nat)
    requires Faithful(s) && !Has(s.cache, obj.key)
    ensures Faithful(s.(cache := Put(s.cache, obj.key, obj), segments := AfterInsert(s.segments, obj.key, now),
                        log := s.log + [WasInserted(obj.key)]))
  {
    hide Reflects;
    ReflectsResidents(s);
    KeysAreHas(s.cache, obj.key);
    InsertLinked(s, obj, now);
    InsertReflects(s.segments, s.log, obj.key, now);
    LastTimeAppend(s.log, WasInserted(obj.key), WasInserted(obj.key));
  }

  lemma ReflectsResidents(s: Sim)
    requires Faithful(s)
    ensures Residents(s.log) == Keys(s.cache)
  {
  }

  lemma AccessFaithful(s: Sim, obj: CacheObj)
    requires Faithful(s)
    ensures Faithful(Serve(s, obj).0)
  {
    hide Reflects, VictimsRight;
    var s1 := s.(accesses := s.accesses + 1);
    assert Faithful(s1);
    if Has(s.cache, obj.key) {
      HitFaithful(s1, obj.key, s1.accesses);
    } else if obj.size <= s.capacity {
      MakeRoomLinked(s1, obj.size);
      MakeRoomFaithful(s1, obj.size);
      var t := MakeRoom(s1, obj.size).value;
      KeysAreHas(s.cache, obj.key);
      KeysAreHas(t.cache, obj.key);
      InsertFaithful(t, obj, t.accesses);
    }
  }

  // In every run the log without its evictions is what the accesses dictate, at every eviction
  // the victim is the right one by the log, and the log's residents are the cache's.
  lemma {:induction false} EveryVictimIsRight(capacity: nat, trace: seq<CacheObj>)
    ensures Told(Run(capacity, trace).log) == Dictated(capacity, trace)
    ensures VictimsRight(Run(capacity, trace).log)
    ensures Residents(Run(capacity, trace).log) == Keys(Run(capacity, trace).cache)
    ensures Faithful(Run(capacity, trace))
  {
    if trace == [] {
    } else {
      EveryVictimIsRight(capacity, trace[..|trace| - 1]);
      RunCoupled(capacity, trace[..|trace| - 1]);
      AccessTells(Run(capacity, trace[..|trace| - 1]), trace[|trace| - 1]);
      AccessFaithful(Run(capacity, trace[..|trace| - 1]), trace[|trace| - 1]);
    }
  }

  // ------------------------------------------------ the numbers filed with the keys

  // Every entry of `e` is one of `d`.
  ghost predicate Within(e: Segment, d: Segment) {
    forall k :: Has(e, k) ==> Has(d, k) && Get(e, k) == Get(d, k)
  }

  lemma {:induction false} MakeRoomFiles(s: Sim, need: nat)
    requires Linked(s) && need <= s.capacity
    ensures MakeRoom(s, need).Ok?
    ensures var t := MakeRoom(s, need).value;
            && Within(t.segments.probation, s.segments.probation) && Within(t.segments.protected, s.segments.protected)
    decreases |s.cache|
  {
    if TotalSize(s.cache) + need > s.capacity {
      var v := Candidate(s.segments).value;
      EvictLinked(s);
      DeleteShrinks(s.cache, v);
      MakeRoomFiles(EvictOne(s).value, need);
      forall k ensures Has(Delete(s.segments.probation, v), k) ==>
                         Has(s.segments.probation, k) && Get(Delete(s.segments.probation, v), k) == Get(s.segments.probation, k)
      {
        DeleteReads(s.segments.probation, v, k);
      }
      forall k ensures Has(Delete(s.segments.protected, v), k) ==>
                         Has(s.segments.protected, k) && Get(Delete(s.segments.protected, v), k) == Get(s.segments.protected, k)
      {
        DeleteReads(s.segments.protected, v, k);
      }
    }
  }

  lemma HitFiles(g: Segments, x: Key, now: nat, k: Key)
    requires Disjoint(g)
    ensures var h := AfterHit(g, x, now);
            && (Has(h.probation, k) ==>
                  k != x && Has(g.probation, k) && Get(h.probation, k) == Get(g.probation, k))
            && (Has(h.protected, k) ==>
                  || (k == x && Has(g.probation, k) && Get(h.protected, k) == now)
                  || (Has(g.protected, k) && Get(h.protected, k) == Get(g.protected, k)))
  {
    if Has(g.probation, x) {
      DeleteReads(g.probation, x, k);
      PutReads(g.protected, x, now, k);
    } else if Has(g.protected, x) {
      var v := Get(g.protected, x);
      DeleteReads(g.protected, x, k);
      DeleteReads(g.protected, x, x);
      PutKeeps(Delete(g.protected, x), x, v) by {
        DeleteKeeps(g.protected, x);
      }
      PutReads(Delete(g.protected, x), x, v, k);
      assert MoveToEnd(g.protected, x) == Put(Delete(g.protected, x), x, v);
    }
  }

  // An access files its key under the access count when it inserts or promotes it, and no
  // other key anew; a resident key does not stay in probation.
  lemma AccessFiles(s: Sim, obj: CacheObj, k: Key)
    requires Coupled(s)
    ensures var g, h := s.segments, Serve(s, obj).0.segments;
            && (Has(h.probation, k) ==>
                  if k == obj.key then Get(h.probation, k) == s.accesses + 1
                  else Has(g.probation, k) && Get(h.probation, k) == Get(g.probation, k))
            && (Has(h.protected, k) ==>
                  || (k == obj.key && Has(g.probation, k) && Get(h.protected, k) == s.accesses + 1)
                  || (Has(g.protected, k) && Get(h.protected, k) == Get(g.protected, k)))
  {
    var now: nat := s.accesses + 1;
    if Has(s.cache, obj.key) {
      HitFiles(s.segments, obj.key, now, k);
    } else {
      KeysAreHas(s.cache, obj.key);
      KeysAreHas(s.segments.probation, obj.key);
      if obj.size <= s.capacity {
        var s1 := s.(accesses := now);
        MakeRoomLinked(s1, obj.size);
        MakeRoomFiles(s1, obj.size);
        var t := MakeRoom(s1, obj.size).value;
        PutReads(t.segments.probation, obj.key, now, k);
        assert Serve(s, obj).0.segments == AfterInsert(t.segments, obj.key, now);
      }
    }
  }

  // Access number `v` of the trace was the last to `k`.
  ghost predicate LastAccess(trace: seq<CacheObj>, k: Key, v: nat) {
    1 <= v <= |trace| && trace[v - 1].key == k && forall j :: v <= j < |trace| ==> trace[j].key != k
  }

  // Access number `v` was to `k` and found it in probation.
  ghost predicate Promoted(capacity: nat, trace: seq<CacheObj>, k: Key, v: nat) {
    && 1 <= v <= |trace| && trace[v - 1].key == k
    && Has(Run(capacity, trace[..v - 1]).segments.probation, k)
  }

  ghost predicate Filed(capacity: nat, trace: seq<CacheObj>, g: Segments, k: Key) {
    && (Has(g.probation, k) ==> LastAccess(trace, k, Get(g.probation, k)))
    && (Has(g.protected, k) ==> Promoted(capacity, trace, k, Get(g.protected, k)))
  }

  // A key in probation is filed under its last access, one in the protected segment under the
  // access that promoted it.
  lemma {:induction false} FiledUnder(capacity: nat, trace: seq<CacheObj>, k: Key)
    ensures Filed(capacity, trace, Run(capacity, trace).segments, k)
  {
    if trace == [] {
    } else {
      hide Serve, Has, OrderedDict.Get, Filed;
      var before, obj := trace[..|trace| - 1], trace[|trace| - 1];
      FiledUnder(capacity, before, k);
      RunCoupled(capacity, before);
      AccessesCounted(capacity, before);
      assert trace == before + [obj];
      FiledNext(capacity, before, Run(capacity, before), obj, k);
    }
  }

  lemma FiledNext(capacity: nat, before: seq<CacheObj>, s: Sim, obj: CacheObj, k: Key)
    requires Coupled(s) && s == Run(capacity, before) && s.accesses == |before|
    requires Filed(capacity, before, s.segments, k)
    ensures Filed(capacity, before + [obj], Serve(s, obj).0.segments, k)
  {
    hide Serve, Has, OrderedDict.Get, Run, Coupled;
    var trace := before + [obj];
    AccessFiles(s, obj, k);
    assert trace[..|before|] == before;
    if Has(s.segments.protected, k) {
      var v := Get(s.segments.protected, k);
      assert trace[..v - 1] == before[..v - 1];
    }
  }

  lemma {:induction false} AccessesCounted(capacity: nat, trace: seq<CacheObj>)
    ensures Run(capacity, trace).accesses == |trace|
  {
    if trace == [] {
    } else {
      hide Serve;
      AccessesCounted(capacity, trace[..|trace| - 1]);
      RunCoupled(capacity, trace[..|trace| - 1]);
      AccessCoupled(Run(capacity, trace[..|trace| - 1]), trace[|trace| - 1]);
    }
  }
}
