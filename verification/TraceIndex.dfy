/** A trace of cache accesses held as mutable entries: loading, the next-access index,
    writing a slice back, and the number of distinct keys. */
module TraceIndex {
  import opened Common
  import opened TraceCodec

  class TraceEntry {
    var time: int
    var key: int
    var size: int
    var nextVtime: int

    constructor (r: Record)
      ensures Value() == r
    {
      time, key, size, nextVtime := r.time, r.key, r.size, r.nextVtime;
    }

    function Value(): Record
      reads this
    {
      Record(time, key, size, nextVtime)
    }
  }

  // Entry `j` is the next one after `i` with the same key.
  ghost predicate Next(rs: seq<Record>, i: int, j: int) {
    && 0 <= i < j < |rs| && rs[j].key == rs[i].key
    && forall m :: i < m < j ==> rs[m].key != rs[i].key
  }

  // Every entry's next access is the time of the next entry with its key, or -1.
  ghost predicate Indexed(rs: seq<Record>) {
    && (forall i, j :: Next(rs, i, j) ==> rs[i].nextVtime == rs[j].time)
    && (forall i :: 0 <= i < |rs| && (forall j :: i < j < |rs| ==> rs[j].key != rs[i].key)
          ==> rs[i].nextVtime == -1)
  }

  ghost predicate SameButIndex(a: seq<Record>, b: seq<Record>) {
    |a| == |b| && forall i :: 0 <= i < |a| ==> a[i].(nextVtime := 0) == b[i].(nextVtime := 0)
  }

  // An index is unique: the other fields determine it.
  lemma IndexIsUnique(a: seq<Record>, b: seq<Record>)
    requires SameButIndex(a, b) && Indexed(a) && Indexed(b)
    ensures a == b
  {
    assert forall i :: 0 <= i < |a| ==> a[i].key == b[i].key && a[i].time == b[i].time;
    forall i | 0 <= i < |a| ensures a[i] == b[i] {
      if j :| i < j < |a| && a[j].key == a[i].key {
        var m := FirstAfter(a, i, j);
        assert Next(b, i, m);
      }
    }
  }

  lemma {:induction false} FirstAfter(rs: seq<Record>, i: nat, j: nat) returns (m: nat)
    requires i < j < |rs| && rs[j].key == rs[i].key
    ensures Next(rs, i, m)
    decreases j
  {
    if k :| i < k < j && rs[k].key == rs[i].key {
      m := FirstAfter(rs, i, k);
    } else {
      m := j;
    }
  }

  // The positions of Python's `entries[start:end]` after the writer's clamping.
  function Bounds(n: nat, start: Option<int>, end: Option<int>): (b: (nat, nat))
    ensures b.0 <= b.1 <= n
  {
    var lo := if start.None? || start.value < 0 then 0 else start.value;
    var hi := if end.None? || end.value > n then n
              else if end.value >= 0 then end.value
              else if n + end.value < 0 then 0 else n + end.value;
    if lo > hi then (hi, hi) else (lo, hi)
  }

  function Slice<T>(s: seq<T>, start: Option<int>, end: Option<int>): seq<T> {
    s[Bounds(|s|, start, end).0..Bounds(|s|, start, end).1]
  }

  // Position `i` lies at or after the start and before the end, which counts from the back if
  // it is negative; a bound that is not given does not bound.
  predicate InSlice(n: nat, start: Option<int>, end: Option<int>, i: int) {
    && 0 <= i < n
    && (start.Some? ==> start.value <= i)
    && (end.Some? ==> i < if end.value >= 0 then end.value else n + end.value)
  }

  // The elements at these positions, in order.
  function Selected<T>(s: seq<T>, start: Option<int>, end: Option<int>): seq<T> {
    SelectedFrom(s, start, end, 0)
  }

  function SelectedFrom<T>(s: seq<T>, start: Option<int>, end: Option<int>, i: nat): seq<T>
    requires i <= |s|
    decreases |s| - i
  {
    if i == |s| then []
    else (if InSlice(|s|, start, end, i) then [s[i]] else []) + SelectedFrom(s, start, end, i + 1)
  }

  lemma BoundsIff(n: nat, start: Option<int>, end: Option<int>, i: int)
    ensures Bounds(n, start, end).0 <= i < Bounds(n, start, end).1 <==> InSlice(n, start, end, i)
  {
  }

  // The slice holds exactly the selected elements.
  lemma SliceIsSelected<T>(s: seq<T>, start: Option<int>, end: Option<int>)
    ensures Slice(s, start, end) == Selected(s, start, end)
  {
    hide Bounds, InSlice;
    var (lo, hi) := Bounds(|s|, start, end);
    forall j ensures lo <= j < hi <==> InSlice(|s|, start, end, j) {
      BoundsIff(|s|, start, end, j);
    }
    SkipTo(s, start, end, 0, lo);
    RangeFrom(s, start, end, lo, hi);
  }

  lemma {:induction false} SkipTo<T>(s: seq<T>, start: Option<int>, end: Option<int>, i: nat, lo: nat)
    requires i <= lo <= |s| && forall j :: i <= j < lo ==> !InSlice(|s|, start, end, j)
    ensures SelectedFrom(s, start, end, i) == SelectedFrom(s, start, end, lo)
    decreases lo - i
  {
    if i == lo {
    } else {
      SkipTo(s, start, end, i + 1, lo);
    }
  }

  lemma {:induction false} RangeFrom<T>(s: seq<T>, start: Option<int>, end: Option<int>, i: nat, hi: nat)
    requires i <= hi <= |s| && forall j :: i <= j < |s| ==> (InSlice(|s|, start, end, j) <==> j < hi)
    ensures SelectedFrom(s, start, end, i) == s[i..hi]
    decreases |s| - i
  {
    hide InSlice;
    if i == |s| {
    } else if i < hi {
      RangeFrom(s, start, end, i + 1, hi);
      assert [s[i]] + s[i + 1..hi] == s[i..hi];
    } else {
      SkipTo(s, start, end, i, |s|);
    }
  }

  // The number of distinct keys.
  function Ndv(rs: seq<Record>): nat {
    |set r | r in rs :: r.key|
  }

  class Trace {
    var entries: seq<TraceEntry>

    // The entries are different objects.
    ghost predicate Valid()
      reads this
    {
      forall i, j :: 0 <= i < j < |entries| ==> entries[i] != entries[j]
    }

    ghost function Footprint(): set<TraceEntry>
      reads this
    {
      set e | e in entries
    }

    ghost function Records(): seq<Record>
      reads this, entries
    {
      seq(|entries|, i requires 0 <= i < |entries| reads this, entries => entries[i].Value())
    }

    constructor (records: seq<Record>)
      ensures Valid() && Records() == records && fresh(Footprint())
    {
      entries := [];
      new;
      for i := 0 to |records|
        invariant Valid() && forall j :: 0 <= j < |entries| ==> fresh(entries[j])
        invariant |entries| == i && forall j :: 0 <= j < i ==> entries[j].Value() == records[j]
      {
        var entry := new TraceEntry(records[i]);
        entries := entries + [entry];
      }
    }

    method GetNdv() returns (n: nat)
      ensures n == Ndv(Records())
    {
      var keys := set e | e in entries :: e.key;
      assert keys == set r | r in Records() :: r.key by {
        assert forall i :: 0 <= i < |entries| ==> Records()[i] == entries[i].Value();
        forall e | e in entries ensures e.key in (set r | r in Records() :: r.key) {
          var i :| 0 <= i < |entries| && entries[i] == e;
          assert Records()[i] in Records();
        }
      }
      return |keys|;
    }

    // The single backward pass.
    method SetNextVtime()
      requires Valid()
      modifies Footprint()
      ensures entries == old(entries)
      ensures SameButIndex(old(Records()), Records()) && Indexed(Records())
    {
      hide NextTime, Seen, Indexed, SameButIndex;
      ghost var rs := Records();
      NoneSeen(rs);
      ghost var pos: map<int, int> := map[];
      var seen: map<int, int> := map[];
      var i := |entries|;
      while i > 0
        invariant 0 <= i <= |entries|
        invariant SameFields(rs)
        invariant Seen(rs, i, pos) && TimesAt(rs, pos, seen)
        invariant forall j :: i <= j < |entries| ==> entries[j].nextVtime == NextTime(rs, j)
      {
        i := i - 1;
        var entry := entries[i];
        SeenNext(rs, i, pos);
        assert entry.key == rs[i].key && entry.time == rs[i].time;
        if entry.key in seen {
          entry.nextVtime := seen[entry.key];
        } else {
          entry.nextVtime := -1;
        }
        seen := seen[entry.key := entry.time];
        pos := pos[entry.key := i];
      }
      NextTimesIndex(rs, Records());
    }

    // All but the index is as recorded in `rs`.
    ghost predicate SameFields(rs: seq<Record>)
      reads this, entries
    {
      && |entries| == |rs|
      && forall j :: 0 <= j < |entries| ==>
           (entries[j].time, entries[j].key, entries[j].size) == (rs[j].time, rs[j].key, rs[j].size)
    }

    // `to_bin`: the file holds the slice's records before the first that cannot be packed,
    // which is the whole slice if none raises.
    method ToBin(start: Option<int>, end: Option<int>)
      returns (file: seq<Byte>, r: Result<(), CodecError>)
      ensures var part := Selected(Records(), start, end);
              var n := Packable(part);
              && r == (if n == |part| then Ok(()) else Err(StructError))
              && WriteBin(part[..n]) == Ok(file) && ReadBin(file) == Ok(MaskedAll(part[..n]))
    {
      hide WriteBin, ReadBin, MaskedAll, RecordToBin, Bounds, Packable, Selected;
      ghost var part := Slice(Records(), start, end);
      SliceIsSelected(Records(), start, end);
      var (lo, hi) := Bounds(|entries|, start, end);
      file := [];
      NothingWritten();
      assert part[..0] == [];
      for i := lo to hi
        invariant i - lo <= Packable(part)
        invariant WriteBin(part[..i - lo]) == Ok(file)
      {
        ghost var n := i - lo;
        var entry := entries[i];
        assert part[n] == entry.Value();
        assert part[..n + 1] == part[..n] + [part[n]];
        PackedIff(part, n);
        match RecordToBin(entry.Value())
        case Err(e) =>
          BinRoundTrip(part[..n]);
          return file, Err(e);
        case Ok(data) =>
          WriteBinAppend(part[..n], part[n]);
          file := file + data;
      }
      assert part[..hi - lo] == part;
      BinRoundTrip(part);
      r := Ok(());
    }

    // `to_csv`: reading the file back gives the slice.
    method ToCsv(start: Option<int>, end: Option<int>) returns (file: string)
      ensures file == WriteCsv(Selected(Records(), start, end))
      ensures ReadCsv(file) == Ok(Selected(Records(), start, end))
    {
      hide WriteCsv, ReadCsv, RecordToCsv, Bounds, Selected;
      ghost var part := Slice(Records(), start, end);
      SliceIsSelected(Records(), start, end);
      var (lo, hi) := Bounds(|entries|, start, end);
      file := "";
      NothingWritten();
      assert part[..0] == [];
      for i := lo to hi
        invariant file == WriteCsv(part[..i - lo])
      {
        assert part[i - lo] == entries[i].Value();
        assert part[..i - lo + 1] == part[..i - lo] + [part[i - lo]];
        WriteCsvAppend(part[..i - lo], part[i - lo]);
        file := file + (RecordToCsv(entries[i].Value()) + "\n");
      }
      assert part[..hi - lo] == part;
      CsvRoundTrip(part);
    }
  }

  lemma NothingWritten()
    ensures WriteBin([]) == Ok([]) && WriteCsv([]) == ""
  {
  }

  // The writer's next record is packed exactly when it is not past the packable ones.
  lemma PackedIff(rs: seq<Record>, n: nat)
    requires n <= Packable(rs) && n < |rs|
    ensures RecordToBin(rs[n]).Ok? <==> n < Packable(rs)
    ensures RecordToBin(rs[n]).Err? ==> RecordToBin(rs[n]) == Err(StructError)
  {
    if n < Packable(rs) {
      assert rs[..Packable(rs)][n] == rs[n];
    }
  }

  // Reading a file, and indexing it unless its index is already there.
  method LoadBin(file: seq<Byte>, nextVtimeSet: bool) returns (r: Result<Trace, CodecError>)
    ensures r.Err? <==> ReadBin(file).Err?
    ensures r.Err? ==> r == Err(StructError) && |file| % RECORD_SIZE != 0
    ensures r.Ok? ==> r.value.Valid() && fresh(r.value) && fresh(r.value.Footprint())
    ensures r.Ok? ==> SameButIndex(ReadBin(file).value, r.value.Records())
    ensures r.Ok? ==> if nextVtimeSet then r.value.Records() == ReadBin(file).value else Indexed(r.value.Records())
  {
    BinFileIff(file);
    match ReadBin(file)
    case Err(e) => return Err(e);
    case Ok(records) =>
      var trace := new Trace(records);
      if !nextVtimeSet {
        trace.SetNextVtime();
      }
      return Ok(trace);
  }

  method LoadCsv(file: string, nextVtimeSet: bool) returns (r: Result<Trace, CodecError>)
    ensures r.Err? <==> ReadCsv(file).Err?
    ensures r.Err? ==> r.error == ReadCsv(file).error
    ensures r.Ok? ==> r.value.Valid() && fresh(r.value) && fresh(r.value.Footprint())
    ensures r.Ok? ==> SameButIndex(ReadCsv(file).value, r.value.Records())
    ensures r.Ok? ==> if nextVtimeSet then r.value.Records() == ReadCsv(file).value else Indexed(r.value.Records())
  {
    match ReadCsv(file)
    case Err(e) => return Err(e);
    case Ok(records) =>
      var trace := new Trace(records);
      if !nextVtimeSet {
        trace.SetNextVtime();
      }
      return Ok(trace);
  }

  // Writing a slice and loading it again gives the slice back, up to the masks.
  lemma SliceBinRoundTrip(rs: seq<Record>, start: Option<int>, end: Option<int>)
    requires AllFit(Selected(rs, start, end))
    ensures WriteBin(Selected(rs, start, end)).Ok?
    ensures ReadBin(WriteBin(Selected(rs, start, end)).value) == Ok(Selected(MaskedAll(rs), start, end))
  {
    hide WriteBin, ReadBin, MaskedAll, Bounds, Selected;
    SliceIsSelected(rs, start, end);
    SliceIsSelected(MaskedAll(rs), start, end);
    var part := Slice(rs, start, end);
    BinRoundTrip(part);
    MaskedIndex(rs);
    MaskedIndex(part);
    var (lo, hi) := Bounds(|rs|, start, end);
    assert forall i :: 0 <= i < |part| ==> part[i] == rs[lo + i];
    assert MaskedAll(part) == MaskedAll(rs)[lo..hi];
  }

  lemma {:induction false} MaskedIndex(rs: seq<Record>)
    ensures |MaskedAll(rs)| == |rs| && forall i :: 0 <= i < |rs| ==> MaskedAll(rs)[i] == Masked(rs[i])
  {
    if rs == [] {
    } else {
      MaskedIndex(rs[1..]);
    }
  }

  // ------------------------------------------------ the backward pass, as positions

  // The nearest later access of entry `i`, as the index should record it.
  ghost function NextTime(rs: seq<Record>, i: int): int {
    if exists j :: Next(rs, i, j) then var j :| Next(rs, i, j); rs[j].time else -1
  }

  // `pos` maps every key at or after `i` to its first position there.
  ghost predicate Seen(rs: seq<Record>, i: nat, pos: map<int, int>) {
    && (forall j :: i <= j < |rs| ==> rs[j].key in pos)
    && (forall k :: k in pos ==> i <= pos[k] < |rs| && rs[pos[k]].key == k
                                 && forall m :: i <= m < pos[k] ==> rs[m].key != k)
  }

  ghost predicate TimesAt(rs: seq<Record>, pos: map<int, int>, seen: map<int, int>) {
    && seen.Keys == pos.Keys
    && forall k :: k in pos ==> 0 <= pos[k] < |rs| && seen[k] == rs[pos[k]].time
  }

  lemma NextIsUnique(rs: seq<Record>, i: int, a: int, b: int)
    requires Next(rs, i, a) && Next(rs, i, b)
    ensures a == b
  {
    assert rs[a].key == rs[b].key;
  }

  lemma NextTimeIs(rs: seq<Record>, i: int, j: int)
    requires Next(rs, i, j)
    ensures NextTime(rs, i) == rs[j].time
  {
    var m :| Next(rs, i, m) && NextTime(rs, i) == rs[m].time;
    NextIsUnique(rs, i, j, m);
  }

  lemma NoneSeen(rs: seq<Record>)
    ensures Seen(rs, |rs|, map[])
  {
  }

  lemma SeenNext(rs: seq<Record>, i: nat, pos: map<int, int>)
    requires i < |rs| && Seen(rs, i + 1, pos)
    ensures Seen(rs, i, pos[rs[i].key := i])
    ensures NextTime(rs, i) == if rs[i].key in pos then rs[pos[rs[i].key]].time else -1
  {
    var k := rs[i].key;
    if k in pos {
      assert Next(rs, i, pos[k]);
      NextTimeIs(rs, i, pos[k]);
    } else {
      forall j ensures !Next(rs, i, j) {
      }
    }
  }

  lemma NextTimesIndex(rs: seq<Record>, after: seq<Record>)
    requires |after| == |rs|
    requires forall i :: 0 <= i < |rs| ==>
      (after[i].time, after[i].key, after[i].size) == (rs[i].time, rs[i].key, rs[i].size)
    requires forall i :: 0 <= i < |rs| ==> after[i].nextVtime == NextTime(rs, i)
    ensures SameButIndex(rs, after) && Indexed(after)
  {
    forall i, j | Next(after, i, j) ensures after[i].nextVtime == after[j].time {
      assert Next(rs, i, j);
      NextTimeIs(rs, i, j);
    }
    forall i | 0 <= i < |after| && (forall j :: i < j < |after| ==> after[j].key != after[i].key)
      ensures after[i].nextVtime == -1
    {
      forall j | i < j < |rs| ensures rs[j].key != rs[i].key {
        assert after[j].key != after[i].key;
      }
    }
  }
}
