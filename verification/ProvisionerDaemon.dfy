/** The daemon's cycle of checks on the table. CloudLab's answers, the users' idle times
    and the clock are parameters; like the commands, the cycle returns its protocol steps. */
module ProvisionerDaemon {
  import opened Common
  import opened OrderedDict
  import opened ProvisionerProtocol
  import opened ClusterStore
  import opened ProvisionerCommands

  const UNCLAIMED_CLUSTER_TIMEOUT_HOURS: real := 16.0
  const CLAIMED_CLUSTER_INACTIVITY_TIMEOUT_HOURS: real := 48.0

  // What a scan makes of the rows it has dealt with: `f` of the row if it was picked.
  ghost predicate Rewrites(db: Db, db': Db, picked: set<SliceName>, row: Option<User> -> Row) {
    && db'.Keys == db.Keys
    && forall s :: s in db ==> db'[s] == if s in picked then row(db[s].owner) else db[s]
  }

  // The names among the first `n` rows whose cluster satisfies `f`.
  ghost function Picked(rows: Table, n: nat, f: (SliceName, Cluster) -> bool): set<SliceName>
    requires n <= |rows|
  {
    set i | 0 <= i < n && f(rows[i].0, rows[i].1) :: rows[i].0
  }

  // The slices whose cluster has the status and satisfies `f`.
  ghost function Chosen(t: Table, status: Status, f: (SliceName, Cluster) -> bool): set<SliceName> {
    set s | s in Keys(t) && Has(t, s) && Get(t, s).status == status && f(s, Get(t, s))
  }

  lemma PickedNext(rows: Table, n: nat, f: (SliceName, Cluster) -> bool)
    requires n < |rows| && Distinct(rows)
    ensures Picked(rows, n + 1, f) == Picked(rows, n, f) + (if f(rows[n].0, rows[n].1) then {rows[n].0} else {})
    ensures rows[n].0 !in Picked(rows, n, f)
  {
    forall i | 0 <= i < n ensures rows[i].0 != rows[n].0 {
      KeysDiffer(rows, i, n);
    }
  }

  // Picking from the rows a SELECT returned is choosing from the table.
  lemma PickedIsChosen(t: Table, status: Status, f: (SliceName, Cluster) -> bool)
    requires Distinct(t)
    ensures var rows := Select(t, status); Picked(rows, |rows|, f) == Chosen(t, status, f)
  {
    var rows := Select(t, status);
    SelectDistinct(t, status);
    forall s ensures s in Picked(rows, |rows|, f) <==> s in Chosen(t, status, f) {
      SelectReads(t, status, s);
      KeysAreHas(t, s);
      if Has(rows, s) {
        var i := HasIndex(rows, s);
        assert rows[i].0 == s;
      }
      forall i | 0 <= i < |rows| && rows[i].0 == s ensures Has(rows, s) && Get(rows, s) == rows[i].1 {
        IndexHas(rows, i);
      }
    }
  }

  // One row of a scan: rewritten if it is picked, left alone otherwise.
  lemma RewriteNext(db: Db, before: Db, after: Db, picked: set<SliceName>, row: Option<User> -> Row,
                    s: SliceName, hit: bool)
    requires Rewrites(db, before, picked, row) && s in db && s !in picked
    requires after == if hit then before[s := row(before[s].owner)] else before
    ensures Rewrites(db, after, picked + (if hit then {s} else {}), row)
  {
  }

  lemma RestOfNames(rows: Table, n: nat)
    requires n < |rows|
    ensures |Names(rows)| == |rows| && Names(rows)[n] == rows[n].0
    ensures Rest(Names(rows)[n..]) == Names(rows)[n + 1..]
  {
    NamesIndex(rows);
  }

  // ------------------------------------------------ unclaimed clusters

  ghost function TimedOut(now: real): (SliceName, Cluster) -> bool {
    (_, c: Cluster) => now - c.createdAt > UNCLAIMED_CLUSTER_TIMEOUT_HOURS
  }

  lemma TimeoutStep(start: State, steps: seq<Step>, db: Db, todo: seq<SliceName>, a: Action, db': Db)
    requires Traces(start, steps, Alone(db, Daemon, TimeoutScan(todo))) && todo != []
    requires (a == TimeOut && db' == Execute(db, SetStatus(todo[0], Terminating))) || (a == Skip && db' == db)
    ensures Traces(start, steps + [Step(Daemon, a)], Alone(db', Daemon, TimeoutScan(Rest(todo))))
  {
    hide Traces;
    Go(start, steps, db, Daemon, TimeoutScan(todo), a, db', TimeoutScan(Rest(todo)));
  }

  // One row of the scan.
  lemma TimeoutRow(start: State, steps: seq<Step>, db: Db, before: Db, after: Db, rows: Table, i: nat, now: real)
    requires i < |rows| && Distinct(rows) && rows[i].0 in db
    requires |Names(rows)| == |rows| && Traces(start, steps, Alone(before, Daemon, TimeoutScan(Names(rows)[i..])))
    requires Rewrites(db, before, Picked(rows, i, TimedOut(now)), owner => Row(Terminating, owner))
    requires var late := now - rows[i].1.createdAt > UNCLAIMED_CLUSTER_TIMEOUT_HOURS;
             after == if late then Execute(before, SetStatus(rows[i].0, Terminating)) else before
    ensures var late := now - rows[i].1.createdAt > UNCLAIMED_CLUSTER_TIMEOUT_HOURS;
            Traces(start, steps + [Step(Daemon, if late then TimeOut else Skip)],
                   Alone(after, Daemon, TimeoutScan(Names(rows)[i + 1..])))
    ensures Rewrites(db, after, Picked(rows, i + 1, TimedOut(now)), owner => Row(Terminating, owner))
  {
    hide Traces, Picked;
    var late := now - rows[i].1.createdAt > UNCLAIMED_CLUSTER_TIMEOUT_HOURS;
    RestOfNames(rows, i);
    PickedNext(rows, i, TimedOut(now));
    RewriteNext(db, before, after, Picked(rows, i, TimedOut(now)), owner => Row(Terminating, owner), rows[i].0, late);
    TimeoutStep(start, steps, before, Names(rows)[i..], if late then TimeOut else Skip, after);
  }

  method CheckUnclaimedClusterTimeout(sm: StateManager, now: real, ghost start: State, ghost steps0: seq<Step>)
    returns (ghost steps: seq<Step>, ghost p: Proc)
    requires sm.Valid() && Traces(start, steps0, Alone(sm.Db(), Daemon, CycleStart))
    modifies sm
    ensures sm.Valid() && Traces(start, steps, Alone(sm.Db(), Daemon, p)) && p.TimeoutScan?
    ensures Rewrites(old(sm.Db()), sm.Db(), Chosen(old(sm.clusters), UnclaimedReady, TimedOut(now)),
                     owner => Row(Terminating, owner))
    ensures SameColumns(old(sm.clusters), sm.clusters)
    ensures Select(sm.clusters, Claimed) == Select(old(sm.clusters), Claimed)
  {
    hide Traces, Picked, Chosen, Enabled, View, OrderedDict.Put, OrderedDict.Has, Patched;
    ghost var db := sm.Db();
    var rows := sm.GetClustersByStatus(UnclaimedReady);
    ghost var todo := Names(rows);
    ghost var row := owner => Row(Terminating, owner);
    NamesIndex(rows);
    ListedRows(db, UnclaimedReady, todo);
    StartScan(start, steps0, db, todo);
    steps := steps0 + [Step(Daemon, ListReady(todo))];
    assert todo[0..] == todo;
    NonePicked(rows, TimedOut(now));
    SameColumnsSelf(sm.clusters);
    for i := 0 to |rows|
      invariant sm.Valid() && |todo| == |rows|
      invariant Traces(start, steps, Alone(sm.Db(), Daemon, TimeoutScan(todo[i..])))
      invariant Rewrites(db, sm.Db(), Picked(rows, i, TimedOut(now)), row)
      invariant SameColumns(old(sm.clusters), sm.clusters)
      invariant Select(sm.clusters, Claimed) == Select(old(sm.clusters), Claimed)
    {
      var (slice, cluster) := rows[i];
      ghost var before := sm.Db();
      var late := now - cluster.createdAt > UNCLAIMED_CLUSTER_TIMEOUT_HOURS;
      if late {
        LateRow(old(sm.clusters), sm.clusters, rows, i, now);
        var _ := sm.UpdateClusterRecord(slice, Patch(status := Some(Terminating)));
      }
      TimeoutRow(start, steps, db, before, sm.Db(), rows, i, now);
      steps := steps + [Step(Daemon, if late then TimeOut else Skip)];
    }
    p := TimeoutScan(todo[|rows|..]);
    PickedIsChosen(old(sm.clusters), UnclaimedReady, TimedOut(now));
  }

  // Writing a late row, which is still as it was listed, changes no other column and no
  // claimed row.
  lemma LateRow(t0: Table, t: Table, rows: Table, i: nat, now: real)
    requires i < |rows| && Distinct(rows) && rows[i].0 in View(t0) && View(t0)[rows[i].0].status == UnclaimedReady
    requires Rewrites(View(t0), View(t), Picked(rows, i, TimedOut(now)), owner => Row(Terminating, owner))
    requires SameColumns(t0, t)
    ensures Has(t, rows[i].0)
    ensures var t' := Put(t, rows[i].0, Patched(Get(t, rows[i].0), Patch(status := Some(Terminating))));
            SameColumns(t0, t') && Select(t', Claimed) == Select(t, Claimed)
  {
    hide Picked, SameColumns;
    PickedNext(rows, i, TimedOut(now));
    ViewReads(t, rows[i].0);
    UpdateKeepsColumns(t0, t, rows[i].0, Patch(status := Some(Terminating)));
    SelectElsewhere(t, rows[i].0, Patched(Get(t, rows[i].0), Patch(status := Some(Terminating))), Claimed);
  }

  // An update of a row's status and owner keeps the other columns.
  lemma UpdateKeepsColumns(t0: Table, t: Table, s: SliceName, patch: Patch)
    requires SameColumns(t0, t) && Has(t, s)
    requires patch.aggregateName.None? && patch.controlNode.None? && patch.evaluationOverride.None?
    ensures SameColumns(t0, Put(t, s, Patched(Get(t, s), patch)))
  {
    PutKeepsColumns(t0, t, s, Patched(Get(t, s), patch));
  }

  lemma SameColumnsSelf(t: Table)
    ensures SameColumns(t, t)
  {
  }

  lemma StartScan(start: State, steps: seq<Step>, db: Db, todo: seq<SliceName>)
    requires Traces(start, steps, Alone(db, Daemon, CycleStart)) && Lists(db, UnclaimedReady, todo)
    ensures Traces(start, steps + [Step(Daemon, ListReady(todo))], Alone(db, Daemon, TimeoutScan(todo)))
  {
    hide Traces;
    Go(start, steps, db, Daemon, CycleStart, ListReady(todo), db, TimeoutScan(todo));
  }

  lemma NonePicked(rows: Table, f: (SliceName, Cluster) -> bool)
    ensures Picked(rows, 0, f) == {}
  {
  }

  // ------------------------------------------------ claimed clusters

  // How long ago a user was on each of a cluster's nodes; None for a node that tells nothing,
  // and for a cluster without a list of nodes.
  type Durations = Option<seq<Option<real>>>

  datatype Idleness = Unknown | Idle(hours: real) | Raises

  function Least(nodes: seq<Option<real>>): (least: real)
    requires nodes != [] && None !in nodes
    ensures Some(least) in nodes && forall d :: d in nodes ==> least <= d.value
  {
    var first := nodes[0].value;
    if |nodes| == 1 then first
    else
      var rest := Least(nodes[1..]);
      if first <= rest then first else rest
  }

  // `min` of the nodes' durations. It raises on no nodes, and on comparing a missing duration,
  // which takes two nodes.
  function IdlenessOf(nodes: Durations): Idleness {
    if nodes.None? || nodes.value == [] then Raises
    else if nodes.value == [None] then Unknown
    else if None in nodes.value then Raises
    else Idle(Least(nodes.value))
  }

  // The check raises on a cluster without nodes, and on one with a silent node among others; a
  // single silent node is skipped over.
  lemma IdlenessIs(nodes: Durations)
    ensures IdlenessOf(nodes) == Raises
       <==> nodes.None? || |nodes.value| == 0 || (|nodes.value| >= 2 && exists i :: 0 <= i < |nodes.value| && nodes.value[i].None?)
    ensures IdlenessOf(nodes) == Unknown <==> nodes.Some? && |nodes.value| == 1 && nodes.value[0].None?
  {
    if nodes.Some? && None in nodes.value {
      var i :| 0 <= i < |nodes.value| && nodes.value[i] == None;
      assert |nodes.value| == 1 ==> nodes.value == [None];
    }
  }

  // A cluster's idle time exceeds a limit exactly when it has nodes and each of them tells a
  // duration beyond it.
  lemma IdleIff(nodes: Durations, limit: real)
    ensures IdlenessOf(nodes).Idle? && IdlenessOf(nodes).hours > limit
       <==> nodes.Some? && nodes.value != [] && forall d :: d in nodes.value ==> d.Some? && d.value > limit
  {
    if nodes.Some? && nodes.value != [] && None !in nodes.value {
      assert Some(Least(nodes.value)) in nodes.value;
    }
  }

  ghost function LeftIdle(nodes: SliceName -> Durations): (SliceName, Cluster) -> bool {
    (s: SliceName, c: Cluster) =>
      && !c.evaluationOverride && IdlenessOf(nodes(s)).Idle?
      && IdlenessOf(nodes(s)).hours > CLAIMED_CLUSTER_INACTIVITY_TIMEOUT_HOURS
  }

  ghost function Breaks(nodes: SliceName -> Durations): (SliceName, Cluster) -> bool {
    (s: SliceName, c: Cluster) => !c.evaluationOverride && IdlenessOf(nodes(s)).Raises?
  }

  // The first row at which the scan raises, or the end.
  ghost function FirstBreak(rows: Table, nodes: SliceName -> Durations): (n: nat)
    ensures n <= |rows| && (n < |rows| ==> Breaks(nodes)(rows[n].0, rows[n].1))
    ensures forall i :: 0 <= i < n ==> !Breaks(nodes)(rows[i].0, rows[i].1)
  {
    if rows == [] || Breaks(nodes)(rows[0].0, rows[0].1) then 0 else 1 + FirstBreak(rows[1..], nodes)
  }

  // The claimed clusters the check reclaims: the idle ones listed before that row.
  ghost function Reclaimed(t: Table, nodes: SliceName -> Durations): set<SliceName> {
    var rows := Select(t, Claimed);
    Picked(rows, FirstBreak(rows, nodes), LeftIdle(nodes))
  }

  // It reclaims all idle clusters if and only if none is listed behind the first that makes
  // it raise.
  lemma ReclaimsAllIff(t: Table, nodes: SliceName -> Durations)
    requires Distinct(t)
    ensures var rows := Select(t, Claimed);
            Reclaimed(t, nodes) == Chosen(t, Claimed, LeftIdle(nodes))
            <==> forall i :: FirstBreak(rows, nodes) <= i < |rows| ==> !LeftIdle(nodes)(rows[i].0, rows[i].1)
  {
    hide LeftIdle, Breaks;
    SelectDistinct(t, Claimed);
    PickedIsChosen(t, Claimed, LeftIdle(nodes));
    var rows := Select(t, Claimed);
    PickedAllIff(rows, FirstBreak(rows, nodes), LeftIdle(nodes));
  }

  lemma PickedAllIff(rows: Table, n: nat, f: (SliceName, Cluster) -> bool)
    requires n <= |rows| && Distinct(rows)
    ensures Picked(rows, n, f) == Picked(rows, |rows|, f)
       <==> forall i :: n <= i < |rows| ==> !f(rows[i].0, rows[i].1)
  {
    forall i, j | 0 <= i < j < |rows| ensures rows[i].0 != rows[j].0 {
      KeysDiffer(rows, i, j);
    }
    if i :| n <= i < |rows| && f(rows[i].0, rows[i].1) {
      assert rows[i].0 in Picked(rows, |rows|, f) && rows[i].0 !in Picked(rows, n, f);
    }
  }

  // Three nodes of which one tells nothing, and a long idle cluster listed behind them is not
  // reclaimed, nor is anything else.
  lemma SilentNodeStopsTheScan(silent: SliceName, idle: SliceName, c: Cluster)
    requires silent != idle && c.status == Claimed && !c.evaluationOverride
    ensures var t := [(silent, c), (idle, c)];
            var nodes := s => if s == silent then Some([Some(100.0), None, Some(100.0)]) else Some([Some(100.0)]);
            Reclaimed(t, nodes) == {} && Chosen(t, Claimed, LeftIdle(nodes)) == {idle}
  {
    var t := [(silent, c), (idle, c)];
    var nodes := s => if s == silent then Some([Some(100.0), None, Some(100.0)]) else Some([Some(100.0)]);
    assert t[1..] == [(idle, c)] && t[1..][1..] == [];
    assert Select(t[1..], Claimed) == [(idle, c)] + Select(t[1..][1..], Claimed) == t[1..];
    assert Select(t, Claimed) == [(silent, c)] + t[1..] == t;
    assert Some([Some(100.0), None, Some(100.0)]).value[1] == None;
    assert IdlenessOf(nodes(silent)) == Raises && IdlenessOf(nodes(idle)) == Idle(100.0);
    assert FirstBreak(t, nodes) == 0;
    forall s ensures s in Chosen(t, Claimed, LeftIdle(nodes)) <==> s == idle {
      KeysAreHas(t, s);
      assert Has(t[1..], s) <==> s == idle;
      if s == idle {
        assert Get(t, s) == Get(t[1..], s) == c;
      }
    }
  }

  lemma InactivityStep(start: State, steps: seq<Step>, db: Db, todo: seq<SliceName>, a: Action, db': Db)
    requires Traces(start, steps, Alone(db, Daemon, InactivityScan(todo))) && todo != []
    requires (a == Reclaim && db' == Execute(db, SetOwned(todo[0], Terminating, None))) || (a == Skip && db' == db)
    ensures Traces(start, steps + [Step(Daemon, a)], Alone(db', Daemon, InactivityScan(Rest(todo))))
  {
    hide Traces;
    Go(start, steps, db, Daemon, InactivityScan(todo), a, db', InactivityScan(Rest(todo)));
  }

  lemma StartInactivity(start: State, steps: seq<Step>, db: Db, p: Proc, todo: seq<SliceName>)
    requires Traces(start, steps, Alone(db, Daemon, p)) && p.TimeoutScan? && Lists(db, Claimed, todo)
    ensures Traces(start, steps + [Step(Daemon, ListClaimed(todo))], Alone(db, Daemon, InactivityScan(todo)))
  {
    hide Traces;
    Go(start, steps, db, Daemon, p, ListClaimed(todo), db, InactivityScan(todo));
  }

  // One row of the scan.
  lemma InactivityRow(start: State, steps: seq<Step>, db: Db, before: Db, after: Db, rows: Table, i: nat,
                      nodes: SliceName -> Durations)
    requires i < |rows| && Distinct(rows) && rows[i].0 in db
    requires |Names(rows)| == |rows| && Traces(start, steps, Alone(before, Daemon, InactivityScan(Names(rows)[i..])))
    requires Rewrites(db, before, Picked(rows, i, LeftIdle(nodes)), _ => Row(Terminating, None))
    requires after == if LeftIdle(nodes)(rows[i].0, rows[i].1) then Execute(before, SetOwned(rows[i].0, Terminating, None))
                      else before
    ensures var left := LeftIdle(nodes)(rows[i].0, rows[i].1);
            Traces(start, steps + [Step(Daemon, if left then Reclaim else Skip)],
                   Alone(after, Daemon, InactivityScan(Names(rows)[i + 1..])))
    ensures Rewrites(db, after, Picked(rows, i + 1, LeftIdle(nodes)), _ => Row(Terminating, None))
  {
    hide Traces, Picked;
    var left := LeftIdle(nodes)(rows[i].0, rows[i].1);
    RestOfNames(rows, i);
    PickedNext(rows, i, LeftIdle(nodes));
    RewriteNext(db, before, after, Picked(rows, i, LeftIdle(nodes)), _ => Row(Terminating, None), rows[i].0, left);
    InactivityStep(start, steps, before, Names(rows)[i..], if left then Reclaim else Skip, after);
  }

  // The body of the loop.
  method CheckOneForInactivity(sm: StateManager, nodes: SliceName -> Durations, rows: Table, i: nat,
                               ghost t0: Table, ghost start: State, ghost steps0: seq<Step>)
    returns (breaks: bool, ghost steps: seq<Step>)
    requires sm.Valid() && i < |rows| == |Names(rows)| && Distinct(rows) && rows[i].0 in View(t0)
    requires SameColumns(t0, sm.clusters)
    requires Rewrites(View(t0), sm.Db(), Picked(rows, i, LeftIdle(nodes)), _ => Row(Terminating, None))
    requires Traces(start, steps0, Alone(sm.Db(), Daemon, InactivityScan(Names(rows)[i..])))
    modifies sm
    ensures sm.Valid() && SameColumns(t0, sm.clusters)
    ensures breaks <==> Breaks(nodes)(rows[i].0, rows[i].1)
    ensures breaks ==> sm.clusters == old(sm.clusters) && steps == steps0
    ensures !breaks ==>
              && Rewrites(View(t0), sm.Db(), Picked(rows, i + 1, LeftIdle(nodes)), _ => Row(Terminating, None))
              && Traces(start, steps, Alone(sm.Db(), Daemon, InactivityScan(Names(rows)[i + 1..])))
  {
    hide Traces, Picked, Enabled, View, OrderedDict.Put, OrderedDict.Has, Patched, SameColumns;
    var (slice, cluster) := rows[i];
    ghost var before := sm.Db();
    var idleness := IdlenessOf(nodes(slice));
    if !cluster.evaluationOverride && idleness.Raises? {
      return true, steps0;
    }
    var left := !cluster.evaluationOverride && idleness.Idle?
                && idleness.hours > CLAIMED_CLUSTER_INACTIVITY_TIMEOUT_HOURS;
    if left {
      ReclaimKeepsColumns(t0, sm.clusters, slice);
      var _ := sm.UpdateClusterRecord(slice, Patch(status := Some(Terminating), claimedBy := Some(None)));
    }
    InactivityRow(start, steps0, View(t0), before, sm.Db(), rows, i, nodes);
    return false, steps0 + [Step(Daemon, if left then Reclaim else Skip)];
  }

  method CheckClaimedClusterInactivity(sm: StateManager, nodes: SliceName -> Durations, ghost p0: Proc,
                                       ghost start: State, ghost steps0: seq<Step>)
    returns (ghost steps: seq<Step>, ghost p: Proc, ghost picked: set<SliceName>)
    requires sm.Valid() && p0.TimeoutScan? && Traces(start, steps0, Alone(sm.Db(), Daemon, p0))
    modifies sm
    ensures sm.Valid() && Traces(start, steps, Alone(sm.Db(), Daemon, p)) && p.InactivityScan?
    ensures Rewrites(old(sm.Db()), sm.Db(), picked, _ => Row(Terminating, None))
    ensures picked == Reclaimed(old(sm.clusters), nodes) && picked <= Chosen(old(sm.clusters), Claimed, LeftIdle(nodes))
    ensures Chosen(old(sm.clusters), Claimed, Breaks(nodes)) == {}
        ==> picked == Chosen(old(sm.clusters), Claimed, LeftIdle(nodes))
    ensures SameColumns(old(sm.clusters), sm.clusters)
  {
    hide Traces, Picked, Chosen, Enabled, View, OrderedDict.Put, OrderedDict.Has, Patched;
    ghost var db := sm.Db();
    var rows := sm.GetClustersByStatus(Claimed);
    ghost var todo := Names(rows);
    ghost var row := (_: Option<User>) => Row(Terminating, None);
    NamesIndex(rows);
    ListedRows(db, Claimed, todo);
    StartInactivity(start, steps0, db, p0, todo);
    steps := steps0 + [Step(Daemon, ListClaimed(todo))];
    assert todo[0..] == todo;
    NonePicked(rows, LeftIdle(nodes));
    SameColumnsSelf(sm.clusters);
    var i := 0;
    while i < |rows|
      invariant 0 <= i <= |rows| == |todo| && sm.Valid()
      invariant Traces(start, steps, Alone(sm.Db(), Daemon, InactivityScan(todo[i..])))
      invariant Rewrites(db, sm.Db(), Picked(rows, i, LeftIdle(nodes)), row)
      invariant i <= FirstBreak(rows, nodes) && SameColumns(old(sm.clusters), sm.clusters)
    {
      var breaks;
      breaks, steps := CheckOneForInactivity(sm, nodes, rows, i, old(sm.clusters), start, steps);
      if breaks {
        break;
      }
      i := i + 1;
    }
    p := InactivityScan(todo[i..]);
    picked := Picked(rows, i, LeftIdle(nodes));
    PickedGrows(rows, i, LeftIdle(nodes));
    PickedIsChosen(old(sm.clusters), Claimed, LeftIdle(nodes));
    PickedIsChosen(old(sm.clusters), Claimed, Breaks(nodes));
    if i < |rows| {
      PickedMember(rows, i, Breaks(nodes));
    }
  }

  lemma ReclaimKeepsColumns(t0: Table, t: Table, s: SliceName)
    requires SameColumns(t0, t) && s in View(t)
    ensures Has(t, s)
    ensures SameColumns(t0, Put(t, s, Patched(Get(t, s), Patch(status := Some(Terminating), claimedBy := Some(None)))))
  {
    hide SameColumns;
    ViewReads(t, s);
    UpdateKeepsColumns(t0, t, s, Patch(status := Some(Terminating), claimedBy := Some(None)));
  }

  lemma PickedGrows(rows: Table, n: nat, f: (SliceName, Cluster) -> bool)
    requires n <= |rows|
    ensures Picked(rows, n, f) <= Picked(rows, |rows|, f)
  {
  }

  lemma PickedMember(rows: Table, n: nat, f: (SliceName, Cluster) -> bool)
    requires n < |rows| && f(rows[n].0, rows[n].1)
    ensures rows[n].0 in Picked(rows, |rows|, f)
  {
  }

  // ------------------------------------------------ terminating clusters

  datatype Deletion = Deleted | NotDeleted | DeletionRaised

  ghost function Gone(answer: SliceName -> Deletion): (SliceName, Cluster) -> bool {
    (s: SliceName, c: Cluster) =>
      c.aggregateName == "" || c.aggregateName == PENDING_AGGREGATE || answer(s).Deleted?
  }

  lemma TerminateStep(start: State, steps: seq<Step>, db: Db, todo: seq<SliceName>, gone: bool, db': Db)
    requires Traces(start, steps, Alone(db, Daemon, TerminateScan(todo))) && todo != []
    requires db' == Execute(db, SetStatus(todo[0], if gone then Terminated else Terminating))
    ensures Traces(start, steps + [Step(Daemon, if gone then MarkTerminated else RetryTermination)],
                   Alone(db', Daemon, TerminateScan(Rest(todo))))
  {
    hide Traces;
    Go(start, steps, db, Daemon, TerminateScan(todo), if gone then MarkTerminated else RetryTermination, db',
       TerminateScan(Rest(todo)));
  }

  lemma StartTerminating(start: State, steps: seq<Step>, db: Db, p: Proc, todo: seq<SliceName>)
    requires Traces(start, steps, Alone(db, Daemon, p)) && Lists(db, Terminating, todo)
    requires p.Provision? || p.ProvisionGuarded? || p.ProvisionBuilds?
    ensures Traces(start, steps + [Step(Daemon, ListTerminating(todo))], Alone(db, Daemon, TerminateScan(todo)))
  {
    hide Traces;
    Go(start, steps, db, Daemon, p, ListTerminating(todo), db, TerminateScan(todo));
  }

  // One row of the scan; a row that is not gone is set to terminating again.
  lemma TerminateRow(start: State, steps: seq<Step>, db: Db, before: Db, after: Db, rows: Table, i: nat,
                     answer: SliceName -> Deletion)
    requires i < |rows| && Distinct(rows) && rows[i].0 in db && db[rows[i].0].status == Terminating
    requires |Names(rows)| == |rows| && Traces(start, steps, Alone(before, Daemon, TerminateScan(Names(rows)[i..])))
    requires Rewrites(db, before, Picked(rows, i, Gone(answer)), owner => Row(Terminated, owner))
    requires after == Execute(before, SetStatus(rows[i].0, if Gone(answer)(rows[i].0, rows[i].1) then Terminated
                                                           else Terminating))
    ensures var gone := Gone(answer)(rows[i].0, rows[i].1);
            Traces(start, steps + [Step(Daemon, if gone then MarkTerminated else RetryTermination)],
                   Alone(after, Daemon, TerminateScan(Names(rows)[i + 1..])))
    ensures Rewrites(db, after, Picked(rows, i + 1, Gone(answer)), owner => Row(Terminated, owner))
  {
    hide Traces, Picked;
    var gone := Gone(answer)(rows[i].0, rows[i].1);
    var row := (owner: Option<User>) => Row(Terminated, owner);
    RestOfNames(rows, i);
    PickedNext(rows, i, Gone(answer));
    assert before[rows[i].0] == db[rows[i].0];
    assert after == if gone then before[rows[i].0 := row(before[rows[i].0].owner)] else before;
    RewriteNext(db, before, after, Picked(rows, i, Gone(answer)), row, rows[i].0, gone);
    TerminateStep(start, steps, before, Names(rows)[i..], gone, after);
  }

  method ProcessTerminatingClusters(sm: StateManager, answer: SliceName -> Deletion, ghost p0: Proc,
                                    ghost start: State, ghost steps0: seq<Step>)
    returns (ghost steps: seq<Step>)
    requires sm.Valid() && Traces(start, steps0, Alone(sm.Db(), Daemon, p0))
    requires p0.Provision? || p0.ProvisionGuarded? || p0.ProvisionBuilds?
    modifies sm
    ensures sm.Valid() && Traces(start, steps, State(sm.Db(), map[]))
    ensures Rewrites(old(sm.Db()), sm.Db(), Chosen(old(sm.clusters), Terminating, Gone(answer)),
                     owner => Row(Terminated, owner))
    ensures SameColumns(old(sm.clusters), sm.clusters)
  {
    hide Traces, Picked, Chosen, Enabled, View, OrderedDict.Put, OrderedDict.Has, Patched;
    ghost var db := sm.Db();
    var rows := sm.GetClustersByStatus(Terminating);
    ghost var todo := Names(rows);
    ghost var row := owner => Row(Terminated, owner);
    NamesIndex(rows);
    ListedRows(db, Terminating, todo);
    StartTerminating(start, steps0, db, p0, todo);
    steps := steps0 + [Step(Daemon, ListTerminating(todo))];
    assert todo[0..] == todo;
    NonePicked(rows, Gone(answer));
    SameColumnsSelf(sm.clusters);
    for i := 0 to |rows|
      invariant sm.Valid() && |todo| == |rows|
      invariant Traces(start, steps, Alone(sm.Db(), Daemon, TerminateScan(todo[i..])))
      invariant Rewrites(db, sm.Db(), Picked(rows, i, Gone(answer)), row)
      invariant SameColumns(old(sm.clusters), sm.clusters)
    {
      var (slice, cluster) := rows[i];
      ghost var before := sm.Db();
      var gone := cluster.aggregateName == "" || cluster.aggregateName == PENDING_AGGREGATE || answer(slice).Deleted?;
      StatusKeepsColumns(old(sm.clusters), sm.clusters, slice);
      if gone {
        sm.DeleteClusterRecord(slice);
      } else {
        var _ := sm.UpdateClusterRecord(slice, Patch(status := Some(Terminating)));
      }
      TerminateRow(start, steps, db, before, sm.Db(), rows, i, answer);
      steps := steps + [Step(Daemon, if gone then MarkTerminated else RetryTermination)];
    }
    PickedIsChosen(old(sm.clusters), Terminating, Gone(answer));
    EndCycle(start, steps, sm.Db(), TerminateScan(todo[|rows|..]));
    steps := steps + [Step(Daemon, Stop)];
  }

  // Setting a row's status, as a deletion and an update do.
  lemma StatusKeepsColumns(t0: Table, t: Table, s: SliceName)
    requires SameColumns(t0, t) && s in View(t)
    ensures Has(t, s) && SameColumns(t0, Put(t, s, Get(t, s).(status := Terminated)))
    ensures SameColumns(t0, Put(t, s, Patched(Get(t, s), Patch(status := Some(Terminating)))))
  {
    hide SameColumns;
    ViewReads(t, s);
    PutKeepsColumns(t0, t, s, Get(t, s).(status := Terminated)) by {
      ColumnsAt(t0, t, s);
    }
    UpdateKeepsColumns(t0, t, s, Patch(status := Some(Terminating)));
  }

  lemma ColumnsAt(t0: Table, t: Table, s: SliceName)
    requires SameColumns(t0, t)
    ensures Has(t0, s) ==> SameColumnsAt(t0, t, s)
  {
  }

  lemma EndCycle(start: State, steps: seq<Step>, db: Db, p: Proc)
    requires Traces(start, steps, Alone(db, Daemon, p)) && p.TerminateScan?
    ensures Traces(start, steps + [Step(Daemon, Stop)], State(db, map[]))
  {
    hide Traces;
    End(start, steps, db, Daemon, p, Stop, db);
  }

  // Which rows the three scans act on, with their limits in hours.
  lemma ScansActOn(now: real, nodes: SliceName -> Durations, answer: SliceName -> Deletion, s: SliceName, c: Cluster)
    ensures TimedOut(now)(s, c) <==> now - c.createdAt > 16.0
    ensures LeftIdle(nodes)(s, c)
       <==> && !c.evaluationOverride && nodes(s).Some? && nodes(s).value != []
            && forall d :: d in nodes(s).value ==> d.Some? && d.value > 48.0
    ensures Breaks(nodes)(s, c)
       <==> && !c.evaluationOverride
            && (nodes(s).None? || |nodes(s).value| == 0
                || (|nodes(s).value| >= 2 && exists i :: 0 <= i < |nodes(s).value| && nodes(s).value[i].None?))
    ensures Gone(answer)(s, c) <==> c.aggregateName in {"", "<PENDING>"} || answer(s) == Deleted
  {
    IdleIff(nodes(s), 48.0);
    IdlenessIs(nodes(s));
  }

  // ------------------------------------------------ automatic provisioning

  // CloudLab's answers to one attempt, with the slice name generated for it.
  datatype Attempt = Attempt(slice: SliceName, now: real, experiment: Option<Experiment>, nodesReady: bool)

  predicate Succeeds(a: Attempt) {
    a.experiment.Some? && a.experiment.value.hasLogin && a.experiment.value.control.Some? && a.nodesReady
  }

  // Only new rows, unowned, ready or in error.
  ghost predicate Adds(db: Db, db': Db) {
    && (forall s :: s in db ==> s in db' && db'[s] == db[s])
    && (forall s :: s in db' && s !in db ==> db'[s].status in {UnclaimedReady, Error} && db'[s].owner == None)
  }

  lemma ProvisionSteps(start: State, steps: seq<Step>, db: Db, n: nat, s: SliceName, ok: bool)
    requires Traces(start, steps, Alone(db, Daemon, Provision(n))) && n > 0
    requires |Managed(db)| < MAX_TOTAL_CLUSTERS && s !in db
    ensures Traces(start,
                   steps + [Step(Daemon, Guard), Step(Daemon, Create(s)), Step(Daemon, if ok then MarkReady else MarkError)],
                   Alone(db[s := Row(if ok then UnclaimedReady else Error, None)], Daemon, Provision(n - 1)))
  {
    hide Traces, Enabled, NextProc, StatementOf, Managed;
    var a := if ok then MarkReady else MarkError;
    var db1 := db[s := Row(AutoProvisioning, None)];
    var db2 := db[s := Row(if ok then UnclaimedReady else Error, None)];
    ProvisionMoves(db, n, s, ok);
    Go(start, steps, db, Daemon, Provision(n), Guard, db, ProvisionGuarded(n));
    Go(start, steps + [Step(Daemon, Guard)], db, Daemon, ProvisionGuarded(n), Create(s), db1, ProvisionBuilds(s, n));
    Go(start, steps + [Step(Daemon, Guard)] + [Step(Daemon, Create(s))], db1, Daemon, ProvisionBuilds(s, n), a, db2,
       Provision(n - 1));
    assert steps + [Step(Daemon, Guard)] + [Step(Daemon, Create(s))] + [Step(Daemon, a)]
        == steps + [Step(Daemon, Guard), Step(Daemon, Create(s)), Step(Daemon, a)];
  }

  lemma ProvisionMoves(db: Db, n: nat, s: SliceName, ok: bool)
    requires n > 0 && |Managed(db)| < MAX_TOTAL_CLUSTERS && s !in db
    ensures Enabled(Alone(db, Daemon, Provision(n)), Step(Daemon, Guard))
    ensures StatementOf(Provision(n), Guard) == Query && NextProc(db, Provision(n), Guard) == Some(ProvisionGuarded(n))
    ensures Enabled(Alone(db, Daemon, ProvisionGuarded(n)), Step(Daemon, Create(s)))
    ensures StatementOf(ProvisionGuarded(n), Create(s)) == Insert(s, AutoProvisioning, None)
    ensures NextProc(db, ProvisionGuarded(n), Create(s)) == Some(ProvisionBuilds(s, n))
    ensures var db1 := db[s := Row(AutoProvisioning, None)];
            var a := if ok then MarkReady else MarkError;
            && Enabled(Alone(db1, Daemon, ProvisionBuilds(s, n)), Step(Daemon, a))
            && StatementOf(ProvisionBuilds(s, n), a) == SetStatus(s, if ok then UnclaimedReady else Error)
            && NextProc(db1, ProvisionBuilds(s, n), a) == Some(Provision(n - 1))
  {
  }

  lemma StartProvision(start: State, steps: seq<Step>, db: Db, p: Proc, needed: nat)
    requires Traces(start, steps, Alone(db, Daemon, p)) && p.InactivityScan?
    requires var have := |Available(db)|;
             needed == if have < MIN_AVAILABLE_CLUSTERS then MIN_AVAILABLE_CLUSTERS - have else 0
    ensures Traces(start, steps + [Step(Daemon, CountAvailable)], Alone(db, Daemon, Provision(needed)))
  {
    hide Traces;
    Go(start, steps, db, Daemon, p, CountAvailable, db, Provision(needed));
  }

  lemma AvailableGrows(db: Db, s: SliceName, ok: bool)
    requires s !in db
    ensures |Available(db[s := Row(if ok then UnclaimedReady else Error, None)])|
         == |Available(db)| + if ok then 1 else 0
  {
    hide WithStatus, IsManaged;
    var row := Row(if ok then UnclaimedReady else Error, None);
    StatusAdds(db, s, row, AutoProvisioning);
    StatusAdds(db, s, row, UnclaimedReady);
    SplitUnion(WithStatus(db, AutoProvisioning), WithStatus(db, UnclaimedReady), s, ok);
  }

  lemma SplitUnion(a: set<SliceName>, b: set<SliceName>, s: SliceName, more: bool)
    requires s !in a && s !in b
    ensures |a + {} + (b + (if more then {s} else {}))| == |a + b| + if more then 1 else 0
  {
    assert a + {} + (b + (if more then {s} else {})) == (a + b) + (if more then {s} else {});
  }

  lemma StatusAdds(db: Db, s: SliceName, row: Row, status: Status)
    requires s !in db
    ensures WithStatus(db[s := row], status) == WithStatus(db, status) + (if row.status == status then {s} else {})
    ensures s !in WithStatus(db, status)
  {
  }

  // Every attempt is answered well, and the names are new and different.
  ghost predicate AllGood(db: Db, attempts: nat -> Attempt) {
    && (forall i: nat :: Succeeds(attempts(i)) && attempts(i).slice !in db)
    && (forall i: nat, j: nat :: i < j ==> attempts(i).slice != attempts(j).slice)
  }

  // The new rows are those of the first `n` attempts.
  ghost predicate FromAttempts(db: Db, db': Db, attempts: nat -> Attempt, n: nat) {
    forall s :: s in db' && s !in db ==> exists j: nat :: j < n && attempts(j).slice == s
  }

  lemma FreshName(db: Db, db': Db, attempts: nat -> Attempt, n: nat)
    requires FromAttempts(db, db', attempts, n) && AllGood(db, attempts)
    ensures attempts(n).slice !in db'
  {
    assert attempts(n).slice !in db;
    assert forall j: nat :: j < n ==> attempts(j).slice != attempts(n).slice;
  }

  lemma AttemptAdds(db: Db, before: Db, after: Db, attempts: nat -> Attempt, n: nat)
    requires Adds(db, before) && FromAttempts(db, before, attempts, n) && attempts(n).slice !in before
    requires after == before[attempts(n).slice := Row(if Succeeds(attempts(n)) then UnclaimedReady else Error, None)]
    ensures Adds(db, after) && FromAttempts(db, after, attempts, n + 1)
  {
    forall s | s in after && s !in db ensures exists j: nat :: j < n + 1 && attempts(j).slice == s {
      if s == attempts(n).slice {
        assert n < n + 1;
      } else {
        assert s in before;
        var j: nat :| j < n && attempts(j).slice == s;
      }
    }
  }

  lemma GoodSucceeds(db: Db, attempts: nat -> Attempt, n: nat)
    requires AllGood(db, attempts)
    ensures Succeeds(attempts(n))
  {
  }

  lemma NothingAdded(db: Db, attempts: nat -> Attempt)
    ensures Adds(db, db) && FromAttempts(db, db, attempts, 0)
  {
  }

  // The row an attempt leaves: its experiment's aggregate and control node are stored once they
  // are known, whether or not the nodes come up.
  function Provisioned(a: Attempt): Cluster {
    if Usable(a.experiment) then
      Cluster(if a.nodesReady then UnclaimedReady else Error, None,
              a.experiment.value.aggregateName, a.experiment.value.control, a.now, false)
    else Cluster(Error, None, PENDING_AGGREGATE, None, a.now, false)
  }

  // Column by column.
  lemma ProvisionedIs(a: Attempt)
    ensures var c := Provisioned(a);
            && c.claimedBy == None && c.createdAt == a.now && !c.evaluationOverride
            && (c.status == UnclaimedReady <==> Succeeds(a)) && (c.status == Error <==> !Succeeds(a))
            && (Usable(a.experiment) ==>
                  && c.aggregateName == a.experiment.value.aggregateName
                  && c.controlNode.Some? && c.controlNode == a.experiment.value.control)
            && (!Usable(a.experiment) ==> c.aggregateName == PENDING_AGGREGATE && c.controlNode == None)
  {
  }

  // The rows of the first attempts, and how many of these failed.
  function ProvisionedRows(attempts: nat -> Attempt, n: nat): Table {
    if n == 0 then [] else ProvisionedRows(attempts, n - 1) + [(attempts(n - 1).slice, Provisioned(attempts(n - 1)))]
  }

  function FailedAttempts(attempts: nat -> Attempt, n: nat): nat {
    if n == 0 then 0 else FailedAttempts(attempts, n - 1) + if Succeeds(attempts(n - 1)) then 0 else 1
  }

  // One attempt: the row is recorded before CloudLab is asked, then marked.
  method AutoProvisionOne(sm: StateManager, a: Attempt) returns (ok: bool)
    requires sm.Valid() && a.slice !in sm.Db()
    modifies sm
    ensures sm.Valid() && ok == Succeeds(a)
    ensures sm.Db() == old(sm.Db())[a.slice := Row(if ok then UnclaimedReady else Error, None)]
    ensures sm.clusters == old(sm.clusters) + [(a.slice, Provisioned(a))]
  {
    hide View, OrderedDict.Put, OrderedDict.Has, OrderedDict.Get;
    ghost var t := sm.clusters;
    ghost var c := Cluster(AutoProvisioning, None, PENDING_AGGREGATE, None, a.now, false);
    NewRow(t, a.slice, c);
    var _ := sm.CreateClusterRecord(a.slice, PENDING_AGGREGATE, AutoProvisioning, None, false, a.now);
    if a.experiment.None? || !a.experiment.value.hasLogin || a.experiment.value.control.None? {
      RewriteNewRow(t, a.slice, c, c.(status := Error));
      var _ := sm.UpdateClusterRecord(a.slice, Patch(status := Some(Error)));
      return false;
    }
    ghost var known := c.(aggregateName := a.experiment.value.aggregateName, controlNode := a.experiment.value.control);
    RewriteNewRow(t, a.slice, c, known);
    RewriteNewRow(t, a.slice, known, Provisioned(a));
    var _ := sm.UpdateClusterRecord(a.slice, Patch(aggregateName := Some(a.experiment.value.aggregateName),
                                                   controlNode := Some(a.experiment.value.control)));
    var _ := sm.UpdateClusterRecord(a.slice, Patch(status := Some(if a.nodesReady then UnclaimedReady else Error)));
    return a.nodesReady;
  }

  lemma NewRow(t: Table, s: SliceName, c: Cluster)
    requires Distinct(t) && s !in View(t)
    ensures !Has(t, s) && Put(t, s, c) == t + [(s, c)]
  {
    ViewReads(t, s);
    PutKeeps(t, s, c);
  }

  // Rewriting a row at the end.
  lemma RewriteNewRow(t: Table, s: SliceName, c: Cluster, c': Cluster)
    requires Distinct(t) && s !in View(t)
    ensures Has(t + [(s, c)], s) && Get(t + [(s, c)], s) == c
    ensures Put(t + [(s, c)], s, c') == t + [(s, c')]
  {
    NewRow(t, s, c);
    NewRow(t, s, c');
    PutReads(t, s, c, s);
    PutTwice(t, s, c, c');
  }

  // What was there stays in its place.
  lemma AppendKeepsColumns(t0: Table, t: Table, s: SliceName, c: Cluster)
    requires Distinct(t) && s !in View(t) && SameColumns(t0, t)
    ensures SameColumns(t0, t + [(s, c)])
  {
    hide SameColumns;
    NewRow(t, s, c);
    PutKeepsColumns(t0, t, s, c) by {
      ColumnsAt(t0, t, s);
    }
  }

  function Shortfall(db: Db): nat {
    if |Available(db)| < MIN_AVAILABLE_CLUSTERS then MIN_AVAILABLE_CLUSTERS - |Available(db)| else 0
  }

  // As many attempts were made as the pool was short of, unless the total limit or a slice name
  // that is taken stopped them; the latter counts as a failure.
  ghost predicate Attempted(db: Db, db': Db, attempts: nat -> Attempt, n: nat, failures: nat) {
    && n <= Shortfall(db)
    && if n == Shortfall(db) || |Managed(db')| >= MAX_TOTAL_CLUSTERS then failures == FailedAttempts(attempts, n)
       else attempts(n).slice in db' && failures == FailedAttempts(attempts, n) + 1
  }

  method CheckAutomaticProvisioning(sm: StateManager, attempts: nat -> Attempt, ghost p0: Proc,
                                    ghost start: State, ghost steps0: seq<Step>)
    returns (failures: nat, ghost steps: seq<Step>, ghost p: Proc, ghost n: nat)
    requires sm.Valid() && p0.InactivityScan? && Traces(start, steps0, Alone(sm.Db(), Daemon, p0))
    modifies sm
    ensures sm.Valid() && Traces(start, steps, Alone(sm.Db(), Daemon, p)) && p.Provision?
    ensures Adds(old(sm.Db()), sm.Db())
    ensures if failures == 0 then
              |Available(sm.Db())| >= MIN_AVAILABLE_CLUSTERS || |Managed(sm.Db())| >= MAX_TOTAL_CLUSTERS
            else |Available(sm.Db())| < MIN_AVAILABLE_CLUSTERS
    ensures SameColumns(old(sm.clusters), sm.clusters)
    ensures sm.clusters == old(sm.clusters) + ProvisionedRows(attempts, n)
    ensures Attempted(old(sm.Db()), sm.Db(), attempts, n, failures)
    ensures AllGood(old(sm.Db()), attempts) ==> failures == 0
  {
    hide Traces, Enabled, SameColumns, Provisioned, Adds, FromAttempts, AllGood, Available, Managed, View, OrderedDict.Put, OrderedDict.Has, Patched;
    failures := 0;
    ghost var db := sm.Db();
    var pool := sm.CountTotalAvailableClusters();
    var needed := if pool < MIN_AVAILABLE_CLUSTERS then MIN_AVAILABLE_CLUSTERS - pool else 0;
    StartProvision(start, steps0, db, p0, needed);
    NothingAdded(db, attempts);
    SameColumnsSelf(sm.clusters);
    steps := steps0 + [Step(Daemon, CountAvailable)];
    var i := 0;
    while i < needed
      invariant 0 <= i <= needed && sm.Valid()
      invariant Traces(start, steps, Alone(sm.Db(), Daemon, Provision(needed - i)))
      invariant Adds(db, sm.Db())
      invariant FromAttempts(db, sm.Db(), attempts, i)
      invariant failures <= i && |Available(sm.Db())| == pool + i - failures
      invariant failures == FailedAttempts(attempts, i)
      invariant sm.clusters == old(sm.clusters) + ProvisionedRows(attempts, i)
      invariant SameColumns(old(sm.clusters), sm.clusters)
      invariant AllGood(db, attempts) ==> failures == 0
    {
      var total := sm.CountTotalManagedClusters();
      if total >= MAX_TOTAL_CLUSTERS {
        break;
      }
      var attempt := attempts(i);
      ghost var before := sm.Db();
      ViewReads(sm.clusters, attempt.slice);
      if AllGood(db, attempts) {
        FreshName(db, before, attempts, i);
        GoodSucceeds(db, attempts, i);
      }
      if Has(sm.clusters, attempt.slice) {
        // the INSERT raises and the check is over
        failures := failures + 1;
        break;
      }
      ghost var before1 := sm.clusters;
      var ok := AutoProvisionOne(sm, attempt);
      AppendKeepsColumns(old(sm.clusters), before1, attempt.slice, Provisioned(attempt));
      AttemptAdds(db, before, sm.Db(), attempts, i);
      AvailableGrows(before, attempt.slice, ok);
      ProvisionSteps(start, steps, before, needed - i, attempt.slice, ok);
      steps := steps + [Step(Daemon, Guard), Step(Daemon, Create(attempt.slice)),
                        Step(Daemon, if ok then MarkReady else MarkError)];
      failures := if ok then failures else failures + 1;
      i := i + 1;
    }
    p := Provision(needed - i);
    n := i;
  }

  // ------------------------------------------------ one cycle

  // What a whole cycle makes of a row, by the table it starts with: a ready row past its
  // timeout, a claimed row that is reclaimed and a terminating row all end terminated if their
  // experiment can be deleted, and terminating if not.
  ghost function AfterCycle(t: Table, now: real, nodes: SliceName -> Durations, answer: SliceName -> Deletion,
                            s: SliceName): Row
    requires Has(t, s)
  {
    var c := Get(t, s);
    var reclaimed := s in Reclaimed(t, nodes);
    if c.status == Terminating || (c.status == UnclaimedReady && TimedOut(now)(s, c)) || reclaimed then
      Row(if Gone(answer)(s, c) then Terminated else Terminating, if reclaimed then None else c.claimedBy)
    else RowOf(c)
  }

  // Case by case.
  lemma AfterCycleIs(t: Table, now: real, nodes: SliceName -> Durations, answer: SliceName -> Deletion, s: SliceName)
    requires Distinct(t) && Has(t, s)
    ensures var c, row := Get(t, s), AfterCycle(t, now, nodes, answer, s);
            && (c.status == UnclaimedReady && now - c.createdAt > 16.0 ==>
                  row == Row(if Gone(answer)(s, c) then Terminated else Terminating, c.claimedBy))
            && (c.status == UnclaimedReady && now - c.createdAt <= 16.0 ==> row == Row(UnclaimedReady, c.claimedBy))
            && (c.status == Claimed && s in Reclaimed(t, nodes) ==>
                  row == Row(if Gone(answer)(s, c) then Terminated else Terminating, None))
            && (c.status == Claimed && s !in Reclaimed(t, nodes) ==> row == Row(Claimed, c.claimedBy))
            && (c.status == Terminating ==>
                  row == Row(if Gone(answer)(s, c) then Terminated else Terminating, c.claimedBy))
            && (c.status in {AutoProvisioning, UserProvisioning, Error, Terminated} ==> row == Row(c.status, c.claimedBy))
  {
    hide Reclaimed, Gone, Distinct, Has, OrderedDict.Get;
    if s in Reclaimed(t, nodes) {
      ReclaimedAreClaimed(t, nodes, s);
    }
  }

  lemma InChosen(t: Table, status: Status, f: (SliceName, Cluster) -> bool, s: SliceName)
    requires Has(t, s)
    ensures s in Chosen(t, status, f) <==> Get(t, s).status == status && f(s, Get(t, s))
  {
    KeysAreHas(t, s);
  }

  lemma ReclaimedAreClaimed(t: Table, nodes: SliceName -> Durations, s: SliceName)
    requires Distinct(t) && Has(t, s) && s in Reclaimed(t, nodes)
    ensures Get(t, s).status == Claimed
  {
    hide LeftIdle, Chosen, Picked;
    var rows := Select(t, Claimed);
    PickedGrows(rows, FirstBreak(rows, nodes), LeftIdle(nodes));
    PickedIsChosen(t, Claimed, LeftIdle(nodes));
    InChosen(t, Claimed, LeftIdle(nodes), s);
  }

  // A row through the first two scans.
  lemma ScannedRow(t: Table, t1: Table, t2: Table, now: real, nodes: SliceName -> Durations, s: SliceName)
    requires Distinct(t) && Has(t, s) && SameColumns(t, t1) && SameColumns(t1, t2)
    requires Rewrites(View(t), View(t1), Chosen(t, UnclaimedReady, TimedOut(now)), owner => Row(Terminating, owner))
    requires Select(t1, Claimed) == Select(t, Claimed)
    requires Rewrites(View(t1), View(t2), Reclaimed(t1, nodes), _ => Row(Terminating, None))
    ensures var c := Get(t, s);
            var reclaimed := s in Reclaimed(t, nodes);
            && Has(t2, s) && Get(t2, s).aggregateName == c.aggregateName
            && RowOf(Get(t2, s)) == if reclaimed then Row(Terminating, None)
                                    else if c.status == UnclaimedReady && TimedOut(now)(s, c)
                                    then Row(Terminating, c.claimedBy)
                                    else RowOf(c)
  {
    hide Chosen, Picked, LeftIdle;
    ViewReads(t, s);
    InChosen(t, UnclaimedReady, TimedOut(now), s);
    assert SameColumnsAt(t, t1, s);
    ViewReads(t1, s);
    assert SameColumnsAt(t1, t2, s);
    ViewReads(t2, s);
  }

  // And through the rest of the cycle.
  lemma CycleRow(t: Table, t2: Table, t3: Table, db: Db, now: real, nodes: SliceName -> Durations,
                 answer: SliceName -> Deletion, s: SliceName)
    requires Distinct(t) && Has(t, s) && Has(t2, s) && Get(t2, s).aggregateName == Get(t, s).aggregateName
    requires RowOf(Get(t2, s)) == if s in Reclaimed(t, nodes) then Row(Terminating, None)
                                  else if Get(t, s).status == UnclaimedReady && TimedOut(now)(s, Get(t, s))
                                  then Row(Terminating, Get(t, s).claimedBy)
                                  else RowOf(Get(t, s))
    requires Adds(View(t2), View(t3)) && SameColumns(t2, t3)
    requires Rewrites(View(t3), db, Chosen(t3, Terminating, Gone(answer)), owner => Row(Terminated, owner))
    ensures s in db && db[s] == AfterCycle(t, now, nodes, answer, s)
  {
    hide Chosen, Reclaimed;
    ViewReads(t2, s);
    assert SameColumnsAt(t2, t3, s);
    ViewReads(t3, s);
    InChosen(t3, Terminating, Gone(answer), s);
  }

  lemma NewRows(t0: Table, t2: Table, t3: Table, db: Db, answer: SliceName -> Deletion, s: SliceName)
    requires Adds(View(t2), View(t3)) && View(t2).Keys == View(t0).Keys
    requires Rewrites(View(t3), db, Chosen(t3, Terminating, Gone(answer)), owner => Row(Terminated, owner))
    requires s in db && s !in View(t0)
    ensures db[s] in {Row(UnclaimedReady, None), Row(Error, None)}
  {
    hide Chosen;
    ViewReads(t3, s);
    InChosen(t3, Terminating, Gone(answer), s);
  }

  // Reading the table with the provisioned rows at its end.
  lemma {:induction false} AppendedReads(t: Table, attempts: nat -> Attempt, n: nat, s: SliceName)
    requires Distinct(t + ProvisionedRows(attempts, n))
    ensures Has(t + ProvisionedRows(attempts, n), s) <==> Has(t, s) || exists i: nat :: i < n && attempts(i).slice == s
    ensures forall i: nat :: i < n && attempts(i).slice == s ==>
              Has(t + ProvisionedRows(attempts, n), s) && Get(t + ProvisionedRows(attempts, n), s) == Provisioned(attempts(i))
    decreases n
  {
    if n == 0 {
      assert t + [] == t;
    } else {
      hide Distinct, Has, OrderedDict.Get, Put, OrderedDict.Keys, Provisioned;
      var before, last := t + ProvisionedRows(attempts, n - 1), attempts(n - 1);
      var row := [(last.slice, Provisioned(last))];
      assert t + ProvisionedRows(attempts, n) == before + row;
      SplitLast(before, last.slice, Provisioned(last));
      AppendedReads(t, attempts, n - 1, s);
      PutReads(before, last.slice, Provisioned(last), s);
      if s == last.slice {
        assert n - 1 < n;
      }
    }
  }

  lemma SplitLast(t: Table, s: SliceName, c: Cluster)
    requires Distinct(t + [(s, c)])
    ensures Distinct(t) && !Has(t, s) && t + [(s, c)] == Put(t, s, c)
  {
    DistinctConcat(t, [(s, c)]);
    KeysAreHas(t, s);
    KeysAreHas([(s, c)], s);
    PutKeeps(t, s, c);
  }

  // The new rows at the end of a cycle.
  lemma NewRowsOf(t0: Table, t2: Table, t3: Table, t4: Table, attempts: nat -> Attempt, n: nat,
                  answer: SliceName -> Deletion, s: SliceName)
    requires Distinct(t3) && t3 == t2 + ProvisionedRows(attempts, n)
    requires View(t2).Keys == View(t0).Keys && SameColumns(t3, t4)
    requires Rewrites(View(t3), View(t4), Chosen(t3, Terminating, Gone(answer)), owner => Row(Terminated, owner))
    ensures s in View(t4) <==> s in View(t0) || exists i: nat :: i < n && attempts(i).slice == s
    ensures forall i: nat :: i < n && attempts(i).slice == s ==> Has(t4, s) && Get(t4, s) == Provisioned(attempts(i))
  {
    hide Chosen, Distinct, Has, OrderedDict.Get, Gone;
    AppendedReads(t2, attempts, n, s);
    ViewReads(t2, s);
    ViewReads(t3, s);
    ViewReads(t4, s);
    forall i: nat | i < n && attempts(i).slice == s ensures Has(t4, s) && Get(t4, s) == Provisioned(attempts(i)) {
      ColumnsAt(t3, t4, s);
      InChosen(t3, Terminating, Gone(answer), s);
    }
  }

  // Terminating rows that become terminated count nowhere before or after.
  lemma CountsKept(t: Table, db: Db, answer: SliceName -> Deletion)
    requires Rewrites(View(t), db, Chosen(t, Terminating, Gone(answer)), owner => Row(Terminated, owner))
    ensures Available(db) == Available(View(t)) && Managed(db) == Managed(View(t))
  {
    hide Chosen;
    forall s | s in Chosen(t, Terminating, Gone(answer)) ensures s in View(t) ==> View(t)[s].status == Terminating {
      ViewReads(t, s);
      if s in View(t) {
        InChosen(t, Terminating, Gone(answer), s);
      }
    }
  }

  lemma GoodKept(db: Db, db': Db, attempts: nat -> Attempt)
    requires AllGood(db, attempts) && db'.Keys == db.Keys
    ensures AllGood(db', attempts)
  {
  }

  // Every row there was ends in the status and with the owner that `AfterCycle` says.
  ghost predicate OldRowsAre(t: Table, db: Db, now: real, nodes: SliceName -> Durations, answer: SliceName -> Deletion) {
    forall s :: Has(t, s) ==> s in db && db[s] == AfterCycle(t, now, nodes, answer, s)
  }

  // The new rows are those of the first `n` attempts, ready or in error.
  ghost predicate NewRowsAre(t: Table, t': Table, attempts: nat -> Attempt, n: nat) {
    && (forall s :: s in View(t') <==> s in View(t) || exists i: nat :: i < n && attempts(i).slice == s)
    && (forall s, i: nat :: i < n && attempts(i).slice == s ==> Has(t', s) && Get(t', s) == Provisioned(attempts(i)))
    && (forall s :: s in View(t') && s !in View(t) ==> View(t')[s] in {Row(UnclaimedReady, None), Row(Error, None)})
  }

  // A cycle from one table to another, with `n` attempts made; the rows there were keep their
  // place and their other columns.
  ghost predicate Cycled(t: Table, t': Table, now: real, nodes: SliceName -> Durations, attempts: nat -> Attempt,
                         answer: SliceName -> Deletion, n: nat)
  {
    SameColumns(t, t') && OldRowsAre(t, View(t'), now, nodes, answer) && NewRowsAre(t, t', attempts, n)
  }

  lemma OldRowsCycled(t: Table, t1: Table, t2: Table, t3: Table, db: Db, now: real, nodes: SliceName -> Durations,
                      answer: SliceName -> Deletion)
    requires Distinct(t) && SameColumns(t, t1) && SameColumns(t1, t2) && SameColumns(t2, t3)
    requires Rewrites(View(t), View(t1), Chosen(t, UnclaimedReady, TimedOut(now)), owner => Row(Terminating, owner))
    requires Select(t1, Claimed) == Select(t, Claimed)
    requires Rewrites(View(t1), View(t2), Reclaimed(t1, nodes), _ => Row(Terminating, None))
    requires Adds(View(t2), View(t3))
    requires Rewrites(View(t3), db, Chosen(t3, Terminating, Gone(answer)), owner => Row(Terminated, owner))
    ensures OldRowsAre(t, db, now, nodes, answer)
  {
    hide View, OrderedDict.Has, OrderedDict.Get, Distinct, Chosen, Reclaimed, AfterCycle, Adds, SameColumns, Gone, TimedOut,
         Rewrites, Select;
    forall s | Has(t, s) ensures s in db && db[s] == AfterCycle(t, now, nodes, answer, s) {
      ScannedRow(t, t1, t2, now, nodes, s);
      CycleRow(t, t2, t3, db, now, nodes, answer, s);
    }
  }

  lemma NewRowsCycled(t: Table, t2: Table, t3: Table, t4: Table, attempts: nat -> Attempt, answer: SliceName -> Deletion,
                      n: nat)
    requires Distinct(t3) && View(t2).Keys == View(t).Keys && SameColumns(t3, t4)
    requires Adds(View(t2), View(t3)) && t3 == t2 + ProvisionedRows(attempts, n)
    requires Rewrites(View(t3), View(t4), Chosen(t3, Terminating, Gone(answer)), owner => Row(Terminated, owner))
    ensures NewRowsAre(t, t4, attempts, n)
  {
    hide View, OrderedDict.Has, OrderedDict.Get, Distinct, Chosen, Adds, SameColumns, Provisioned, Gone, ProvisionedRows,
         Rewrites, Select;
    forall s | s in View(t4) && s !in View(t) ensures View(t4)[s] in {Row(UnclaimedReady, None), Row(Error, None)} {
      NewRows(t, t2, t3, View(t4), answer, s);
    }
    forall s ensures s in View(t4) <==> s in View(t) || exists i: nat :: i < n && attempts(i).slice == s {
      NewRowsOf(t, t2, t3, t4, attempts, n, answer, s);
    }
    forall s, i: nat | i < n && attempts(i).slice == s ensures Has(t4, s) && Get(t4, s) == Provisioned(attempts(i)) {
      NewRowsOf(t, t2, t3, t4, attempts, n, answer, s);
    }
  }

  lemma CycleIs(t: Table, t1: Table, t2: Table, t3: Table, t4: Table, now: real, nodes: SliceName -> Durations,
                attempts: nat -> Attempt, answer: SliceName -> Deletion, n: nat)
    requires Distinct(t) && Distinct(t3)
    requires SameColumns(t, t1) && SameColumns(t1, t2) && SameColumns(t2, t3) && SameColumns(t3, t4)
    requires Rewrites(View(t), View(t1), Chosen(t, UnclaimedReady, TimedOut(now)), owner => Row(Terminating, owner))
    requires Select(t1, Claimed) == Select(t, Claimed)
    requires Rewrites(View(t1), View(t2), Reclaimed(t1, nodes), _ => Row(Terminating, None))
    requires Adds(View(t2), View(t3)) && t3 == t2 + ProvisionedRows(attempts, n)
    requires Rewrites(View(t3), View(t4), Chosen(t3, Terminating, Gone(answer)), owner => Row(Terminated, owner))
    ensures Cycled(t, t4, now, nodes, attempts, answer, n)
  {
    SameKeys(t, t1, t2, now, nodes);
    hide View, Distinct, Chosen, Reclaimed, Adds, SameColumns, ProvisionedRows, Rewrites, Select, OldRowsAre, NewRowsAre;
    SameColumnsChain(t, t1, t2);
    SameColumnsChain(t, t2, t3);
    SameColumnsChain(t, t3, t4);
    OldRowsCycled(t, t1, t2, t3, View(t4), now, nodes, answer);
    NewRowsCycled(t, t2, t3, t4, attempts, answer, n);
  }

  lemma SameKeys(t: Table, t1: Table, t2: Table, now: real, nodes: SliceName -> Durations)
    requires Rewrites(View(t), View(t1), Chosen(t, UnclaimedReady, TimedOut(now)), owner => Row(Terminating, owner))
    requires Rewrites(View(t1), View(t2), Reclaimed(t1, nodes), _ => Row(Terminating, None))
    ensures View(t2).Keys == View(t).Keys
  {
  }

  method RunAllChecks(sm: StateManager, now: real, nodes: SliceName -> Durations, attempts: nat -> Attempt,
                      answer: SliceName -> Deletion)
    returns (failures: nat, ghost steps: seq<Step>, ghost n: nat)
    requires sm.Valid()
    modifies sm
    ensures sm.Valid() && Traces(State(old(sm.Db()), map[]), steps, State(sm.Db(), map[]))
    ensures Cycled(old(sm.clusters), sm.clusters, now, nodes, attempts, answer, n)
    ensures if failures == 0 then
              |Available(sm.Db())| >= MIN_AVAILABLE_CLUSTERS || |Managed(sm.Db())| >= MAX_TOTAL_CLUSTERS
            else |Available(sm.Db())| < MIN_AVAILABLE_CLUSTERS
    ensures AllGood(old(sm.Db()), attempts) ==> failures == 0
    ensures |Managed(old(sm.Db()))| <= MAX_TOTAL_CLUSTERS ==> |Managed(sm.Db())| <= MAX_TOTAL_CLUSTERS
    ensures forall u :: |HeldBy(old(sm.Db()), u)| <= MAX_CLUSTERS_PER_USER
                    ==> |HeldBy(sm.Db(), u)| <= MAX_CLUSTERS_PER_USER
  {
    hide Traces, Enabled, View, Distinct, Chosen, Reclaimed, AllGood, Adds, SameColumns, Cycled, Attempted,
         ProvisionedRows, Available, Managed, HeldBy;
    ghost var start := State(sm.Db(), map[]);
    ghost var t := sm.clusters;
    ghost var p, picked;
    Begin(sm.Db(), Daemon, StartCycle);
    steps, p := CheckUnclaimedClusterTimeout(sm, now, start, [Step(Daemon, StartCycle)]);
    ghost var t1 := sm.clusters;
    steps, p, picked := CheckClaimedClusterInactivity(sm, nodes, p, start, steps);
    ghost var t2 := sm.clusters;
    if AllGood(View(t), attempts) {
      GoodKept(View(t), View(t2), attempts);
    }
    failures, steps, p, n := CheckAutomaticProvisioning(sm, attempts, p, start, steps);
    ghost var t3 := sm.clusters;
    steps := ProcessTerminatingClusters(sm, answer, p, start, steps);
    CycleIs(t, t1, t2, t3, sm.clusters, now, nodes, attempts, answer, n);
    CountsKept(t3, sm.Db(), answer);
    KeepsLimits(View(t), steps, sm.Db());
  }
}
