/** `claim` and `relinquish` as they run on the table. What the outside world answers
    (CloudLab, SSH, the user table, the clock) is a parameter. Each method also returns the
    protocol steps it took, so that what is proved about runs holds of it. */
module ProvisionerCommands {
  import opened Common
  import opened OrderedDict
  import opened ProvisionerProtocol
  import opened ProvisionerPerUser
  import opened ClusterStore

  // ------------------------------------------------ traces of one process

  // Taken alone, the steps lead from `start` to `st`.
  ghost predicate Traces(start: State, steps: seq<Step>, st: State) {
    IsRun(start, steps, 1) && Final(start, steps, 1) == st
  }

  ghost function Alone(db: Db, pid: Pid, p: Proc): State {
    State(db, map[pid := p])
  }

  lemma Extend(start: State, steps: seq<Step>, st: State, step: Step, st': State)
    requires Traces(start, steps, st) && Takes(st, step, st') && |st'.procs| <= 1
    ensures Traces(start, steps + [step], st')
  {
    hide Enabled, After;
    assert |st.procs| <= 1 by {
      InFlight(start, steps, 1);
    }
    assert IsRun(st', [], 1);
    OneStep(st, step, [], 1);
    assert [step] + [] == [step];
    RunConcat(start, steps, [step], 1);
  }

  lemma {:induction false} InFlight(st: State, steps: seq<Step>, k: nat)
    requires IsRun(st, steps, k)
    ensures |Final(st, steps, k).procs| <= k
    decreases |steps|
  {
    hide Enabled, After;
    if steps == [] {
    } else {
      InFlight(After(st, steps[0]), steps[1..], k);
    }
  }

  // The process moves on.
  lemma Go(start: State, steps: seq<Step>, db: Db, pid: Pid, p: Proc, a: Action, db': Db, q: Proc)
    requires Traces(start, steps, Alone(db, pid, p)) && Enabled(Alone(db, pid, p), Step(pid, a))
    requires db' == Execute(db, StatementOf(p, a)) && NextProc(db, p, a) == Some(q)
    ensures Traces(start, steps + [Step(pid, a)], Alone(db', pid, q))
  {
    assert map[pid := p][pid := q] == map[pid := q];
    Extend(start, steps, Alone(db, pid, p), Step(pid, a), Alone(db', pid, q));
  }

  // The process is done.
  lemma End(start: State, steps: seq<Step>, db: Db, pid: Pid, p: Proc, a: Action, db': Db)
    requires Traces(start, steps, Alone(db, pid, p)) && Enabled(Alone(db, pid, p), Step(pid, a))
    requires db' == Execute(db, StatementOf(p, a)) && NextProc(db, p, a) == None
    ensures Traces(start, steps + [Step(pid, a)], State(db', map[]))
  {
    assert map[pid := p] - {pid} == map[];
    Extend(start, steps, Alone(db, pid, p), Step(pid, a), State(db', map[]));
  }

  lemma Begin(db: Db, pid: Pid, a: Action)
    requires MayStart(pid, a)
    ensures Traces(State(db, map[]), [Step(pid, a)], Alone(db, pid, Started(a)))
  {
    Extend(State(db, map[]), [], State(db, map[]), Step(pid, a), Alone(db, pid, Started(a)));
    assert [] + [Step(pid, a)] == [Step(pid, a)];
  }

  // Serial runs keep both limits.
  lemma SerialBounds(db: Db, steps: seq<Step>, db': Db, u: User)
    requires Traces(State(db, map[]), steps, State(db', map[]))
    ensures |Managed(db)| <= MAX_TOTAL_CLUSTERS ==> |Managed(db')| <= MAX_TOTAL_CLUSTERS
    ensures |HeldBy(db, u)| <= MAX_CLUSTERS_PER_USER ==> |HeldBy(db', u)| <= MAX_CLUSTERS_PER_USER
  {
    if |Managed(db)| <= MAX_TOTAL_CLUSTERS {
      ProvisionersInFlight(State(db, map[]), steps, 1);
      ProvisioningBound(db, steps, 1, 1);
    }
    if |HeldBy(db, u)| <= MAX_CLUSTERS_PER_USER {
      ClaimersInFlight(State(db, map[]), steps, u, 1);
      PerUserBound(db, steps, 1, u, 1);
    }
  }

  lemma KeepsLimits(db: Db, steps: seq<Step>, db': Db)
    requires Traces(State(db, map[]), steps, State(db', map[]))
    ensures |Managed(db)| <= MAX_TOTAL_CLUSTERS ==> |Managed(db')| <= MAX_TOTAL_CLUSTERS
    ensures forall u :: |HeldBy(db, u)| <= MAX_CLUSTERS_PER_USER ==> |HeldBy(db', u)| <= MAX_CLUSTERS_PER_USER
  {
    hide Traces;
    SerialBounds(db, steps, db', "");
    forall u | |HeldBy(db, u)| <= MAX_CLUSTERS_PER_USER ensures |HeldBy(db', u)| <= MAX_CLUSTERS_PER_USER {
      SerialBounds(db, steps, db', u);
    }
  }

  // ------------------------------------------------ the steps of the commands

  lemma StopTrace(start: State, steps: seq<Step>, db: Db, pid: Pid, p: Proc)
    requires Traces(start, steps, Alone(db, pid, p))
    ensures Traces(start, steps + [Step(pid, Stop)], State(db, map[]))
  {
    hide Traces;
    End(start, steps, db, pid, p, Stop, db);
  }

  lemma AdmitTrace(start: State, steps: seq<Step>, db: Db, pid: Pid, u: User)
    requires Traces(start, steps, Alone(db, pid, ClaimStart(u))) && |HeldBy(db, u)| < MAX_CLUSTERS_PER_USER
    ensures Traces(start, steps + [Step(pid, Admit)], Alone(db, pid, ClaimAdmitted(u)))
  {
    hide Traces;
    Go(start, steps, db, pid, ClaimStart(u), Admit, db, ClaimAdmitted(u));
  }

  lemma FindNoneTrace(start: State, steps: seq<Step>, db: Db, pid: Pid, u: User)
    requires Traces(start, steps, Alone(db, pid, ClaimAdmitted(u))) && WithStatus(db, UnclaimedReady) == {}
    ensures Traces(start, steps + [Step(pid, FindNone)], Alone(db, pid, ClaimUnserved(u)))
  {
    hide Traces;
    Go(start, steps, db, pid, ClaimAdmitted(u), FindNone, db, ClaimUnserved(u));
  }

  // Taking a ready row: the list was read, then the user's name is written.
  lemma TakeTrace(start: State, steps: seq<Step>, db: Db, pid: Pid, u: User, s: SliceName)
    requires Traces(start, steps, Alone(db, pid, ClaimAdmitted(u))) && s in WithStatus(db, UnclaimedReady)
    ensures Traces(start, steps + [Step(pid, Pick(s))] + [Step(pid, Take)],
                   Alone(db[s := Row(UserProvisioning, Some(u))], pid, ClaimHolds(u, s)))
  {
    hide Traces;
    Go(start, steps, db, pid, ClaimAdmitted(u), Pick(s), db, ClaimPicked(u, s));
    Go(start, steps + [Step(pid, Pick(s))], db, pid, ClaimPicked(u, s), Take, db[s := Row(UserProvisioning, Some(u))],
       ClaimHolds(u, s));
  }

  lemma GuardTrace(start: State, steps: seq<Step>, db: Db, pid: Pid, u: User)
    requires Traces(start, steps, Alone(db, pid, ClaimUnserved(u))) && |Managed(db)| < MAX_TOTAL_CLUSTERS
    ensures Traces(start, steps + [Step(pid, Guard)], Alone(db, pid, ClaimGuarded(u)))
  {
    hide Traces;
    Go(start, steps, db, pid, ClaimUnserved(u), Guard, db, ClaimGuarded(u));
  }

  lemma CreateTrace(start: State, steps: seq<Step>, db: Db, pid: Pid, u: User, s: SliceName)
    requires Traces(start, steps, Alone(db, pid, ClaimGuarded(u))) && s !in db
    ensures Traces(start, steps + [Step(pid, Create(s))],
                   Alone(db[s := Row(UserProvisioning, Some(u))], pid, ClaimBuilds(u, s)))
  {
    hide Traces;
    Go(start, steps, db, pid, ClaimGuarded(u), Create(s), db[s := Row(UserProvisioning, Some(u))], ClaimBuilds(u, s));
  }

  // The last write of a claim that holds its row, or has built it.
  lemma FinishTrace(start: State, steps: seq<Step>, db: Db, pid: Pid, p: Proc)
    requires p.ClaimHolds? || p.ClaimBuilds?
    requires Traces(start, steps, Alone(db, pid, p)) && p.slice in db && db[p.slice].owner == Some(p.user)
    ensures Traces(start, steps + [Step(pid, Finish)] + (if p.ClaimHolds? then [] else [Step(pid, Stop)]),
                   State(db[p.slice := Row(Claimed, Some(p.user))], map[]))
  {
    hide Traces;
    var db' := db[p.slice := Row(Claimed, Some(p.user))];
    if p.ClaimHolds? {
      End(start, steps, db, pid, p, Finish, db');
      assert steps + [Step(pid, Finish)] + [] == steps + [Step(pid, Finish)];
    } else {
      Go(start, steps, db, pid, p, Finish, db', ClaimBuilt(p.user, p.slice));
      StopTrace(start, steps + [Step(pid, Finish)], db', pid, ClaimBuilt(p.user, p.slice));
    }
  }

  lemma FailTrace(start: State, steps: seq<Step>, db: Db, pid: Pid, p: Proc)
    requires p.ClaimHolds? || p.ClaimBuilds?
    requires Traces(start, steps, Alone(db, pid, p)) && p.slice in db && db[p.slice].owner == Some(p.user)
    ensures Traces(start, steps + [Step(pid, Fail)],
                   Alone(db[p.slice := Row(Error, Some(p.user))], pid, ClaimFailing(p.user, p.slice)))
  {
    hide Traces;
    Go(start, steps, db, pid, p, Fail, db[p.slice := Row(Error, Some(p.user))], ClaimFailing(p.user, p.slice));
  }

  lemma AbandonTrace(start: State, steps: seq<Step>, db: Db, pid: Pid, u: User, s: SliceName)
    requires Traces(start, steps, Alone(db, pid, ClaimFailing(u, s))) && s in db && db[s].owner == Some(u)
    ensures Traces(start, steps + [Step(pid, Abandon)], State(db[s := Row(Terminating, Some(u))], map[]))
  {
    hide Traces;
    End(start, steps, db, pid, ClaimFailing(u, s), Abandon, db[s := Row(Terminating, Some(u))]);
  }

  lemma ReleaseTrace(start: State, steps: seq<Step>, db: Db, pid: Pid, u: User, s: SliceName)
    requires Traces(start, steps, Alone(db, pid, RelinquishStart(u, s)))
    requires s in db && db[s] == Row(Claimed, Some(u))
    ensures Traces(start, steps + [Step(pid, CheckOwned)] + [Step(pid, Release)],
                   State(db[s := Row(Terminating, None)], map[]))
  {
    hide Traces;
    Go(start, steps, db, pid, RelinquishStart(u, s), CheckOwned, db, RelinquishWrites(s));
    End(start, steps + [Step(pid, CheckOwned)], db, pid, RelinquishWrites(s), Release, db[s := Row(Terminating, None)]);
  }

  // ------------------------------------------------ claim

  // How installing the user's key on the nodes ends: `Raised` for the SSH errors that are
  // caught there, `Crashed` for any other exception, as when the login list is missing.
  datatype KeyInstall = Installed | Refused | Raised | Crashed

  datatype Experiment = Experiment(aggregateName: string, hasLogin: bool, control: Option<string>)

  datatype ClaimWorld = ClaimWorld(
    validEmail: bool, registered: bool, nodesReady: bool, keys: KeyInstall,
    newSlice: SliceName, experiment: Option<Experiment>, now: real)

  datatype ClaimOutcome =
    | InvalidEmail | NotRegistered | UserLimitReached | TotalLimitReached | SliceTaken
    | Unfinished(slice: SliceName)
    | Failed(slice: SliceName)
    | Abandoned(slice: SliceName)
    | Got(slice: SliceName)

  // The command got as far as a row.
  predicate HasRow(r: ClaimOutcome) {
    r.Unfinished? || r.Failed? || r.Abandoned? || r.Got?
  }

  // What the command leaves behind: its slice's row in the status its outcome says, and
  // every other row as it was.
  ghost predicate LeftBehind(r: ClaimOutcome, u: User, db: Db, db': Db) {
    if HasRow(r) then
      && db' - {r.slice} == db - {r.slice} && r.slice in db'
      && db'[r.slice] == Row(if r.Got? then Claimed
                             else if r.Unfinished? then UserProvisioning
                             else if r.Failed? then Error
                             else Terminating, Some(u))
    else db' == db
  }

  function StatusOf(r: ClaimOutcome): Status
    requires HasRow(r)
  {
    match r
    case Got(_) => Claimed
    case Unfinished(_) => UserProvisioning
    case Failed(_) => Error
    case _ => Terminating
  }

  // Every column of that row: a ready row keeps what was listed and takes the override once it
  // is claimed; a new row has what it was created with, and once it is claimed the experiment's
  // aggregate and control node.
  function RowLeft(r: ClaimOutcome, u: User, evalOverride: bool, ready: Option<Cluster>, w: ClaimWorld): Cluster
    requires HasRow(r)
  {
    match ready
    case Some(c) =>
      Cluster(StatusOf(r), Some(u), c.aggregateName, c.controlNode, c.createdAt,
              if r.Got? then evalOverride else c.evaluationOverride)
    case None =>
      var claimed := r.Got? && w.experiment.Some?;
      Cluster(StatusOf(r), Some(u), if claimed then w.experiment.value.aggregateName else PENDING_AGGREGATE,
              if claimed then w.experiment.value.control else None, w.now, evalOverride)
  }

  // Column by column.
  lemma RowLeftIs(r: ClaimOutcome, u: User, evalOverride: bool, ready: Option<Cluster>, w: ClaimWorld)
    requires HasRow(r) && (r.Got? ==> Completes(ready, w))
    ensures var c := RowLeft(r, u, evalOverride, ready, w);
            && c.claimedBy == Some(u)
            && (c.status == Claimed <==> r.Got?) && (c.status == UserProvisioning <==> r.Unfinished?)
            && (c.status == Error <==> r.Failed?) && (c.status == Terminating <==> r.Abandoned?)
            && (ready.Some? ==>
                  && (c.aggregateName, c.controlNode) == (ready.value.aggregateName, ready.value.controlNode)
                  && c.createdAt == ready.value.createdAt
                  && c.evaluationOverride == if r.Got? then evalOverride else ready.value.evaluationOverride)
            && (ready.None? ==>
                  && c.createdAt == w.now && c.evaluationOverride == evalOverride
                  && if r.Got? then
                       && c.aggregateName == w.experiment.value.aggregateName
                       && c.controlNode.Some? && c.controlNode == w.experiment.value.control
                     else c.aggregateName == PENDING_AGGREGATE && c.controlNode == None)
  {
  }

  // The table afterwards: that row in its place, or a new one at the end, and nothing else.
  ghost predicate TableLeft(r: ClaimOutcome, u: User, evalOverride: bool, w: ClaimWorld, t: Table, t': Table) {
    t' == if HasRow(r) then Put(t, r.slice, RowLeft(r, u, evalOverride, ReadyRow(t), w)) else t
  }

  // The first ready row, if there is one.
  ghost function FirstReady(t: Table): Option<(SliceName, Cluster)> {
    var rows := Select(t, UnclaimedReady);
    if rows == [] then None else Some(rows[0])
  }

  ghost function ReadyRow(t: Table): Option<Cluster> {
    if FirstReady(t).None? then None else Some(FirstReady(t).value.1)
  }

  // The slice a command works on: the first ready one, or a new one.
  ghost function SliceFor(t: Table, w: ClaimWorld): SliceName {
    if FirstReady(t).None? then w.newSlice else FirstReady(t).value.0
  }

  // The limits and the new slice's name let the user's command go ahead.
  ghost predicate Served(t: Table, u: User, w: ClaimWorld) {
    && w.validEmail && w.registered && |HeldBy(View(t), u)| < MAX_CLUSTERS_PER_USER
    && (FirstReady(t).Some? || (|Managed(View(t))| < MAX_TOTAL_CLUSTERS && w.newSlice !in View(t)))
  }

  predicate Usable(e: Option<Experiment>) {
    e.Some? && e.value.hasLogin && e.value.control.Some?
  }

  // There is a control node to install the key through: on the ready row, or on the new
  // experiment when no row was ready.
  predicate Reachable(ready: Option<Cluster>, w: ClaimWorld) {
    if ready.Some? then ready.value.controlNode !in {None, Some("")} else Usable(w.experiment)
  }

  predicate Completes(ready: Option<Cluster>, w: ClaimWorld) {
    Reachable(ready, w) && w.nodesReady && w.keys == Installed
  }

  // The command ends and leaves its row in user provisioning; a crash on a ready row is
  // caught nowhere.
  predicate Strands(ready: Option<Cluster>, w: ClaimWorld) {
    || (ready.Some? && !Reachable(ready, w))
    || (Reachable(ready, w) && w.nodesReady && (w.keys == Refused || (ready.Some? && w.keys == Crashed)))
  }

  // The command gives up on a row whose experiment it knows.
  predicate Abandons(ready: Option<Cluster>, w: ClaimWorld) {
    if ready.Some? then
      Reachable(ready, w) && w.nodesReady && w.keys == Raised && ready.value.aggregateName != ""
    else
      && w.experiment.Some? && w.experiment.value.aggregateName != ""
      && (!Reachable(ready, w) || (w.nodesReady && w.keys in {Raised, Crashed}))
  }

  // Which of the four outcomes a command that has a row comes to.
  ghost predicate ComesTo(r: ClaimOutcome, slice: SliceName, ready: Option<Cluster>, w: ClaimWorld) {
    && r in {Unfinished(slice), Failed(slice), Abandoned(slice), Got(slice)}
    && (r.Got? <==> Completes(ready, w))
    && (r.Unfinished? <==> Strands(ready, w))
    && (r.Abandoned? <==> Abandons(ready, w))
  }

  // A command that holds a row gives up on it: ERROR, then TERMINATING if an experiment exists.
  method GiveUp(sm: StateManager, pid: Pid, email: User, slice: SliceName, abandon: bool,
                ghost p: Proc, ghost start: State, ghost steps0: seq<Step>)
    returns (r: ClaimOutcome, ghost steps: seq<Step>)
    requires sm.Valid() && slice in sm.Db() && sm.Db()[slice].owner == Some(email)
    requires p in {ClaimHolds(email, slice), ClaimBuilds(email, slice)}
    requires Traces(start, steps0, Alone(sm.Db(), pid, p))
    modifies sm
    ensures sm.Valid() && Traces(start, steps, State(sm.Db(), map[]))
    ensures r == if abandon then Abandoned(slice) else Failed(slice)
    ensures Has(old(sm.clusters), slice)
    ensures sm.clusters == Put(old(sm.clusters), slice, Get(old(sm.clusters), slice).(status := StatusOf(r)))
  {
    hide Traces, View, OrderedDict.Put, OrderedDict.Has;
    ViewReads(sm.clusters, slice);
    ghost var t := sm.clusters;
    ghost var c := Get(t, slice);
    ghost var failed := c.(status := Error);
    PutReads(t, slice, failed, slice);
    PutTwice(t, slice, failed, c.(status := Terminating));
    var _ := sm.UpdateClusterRecord(slice, Patch(status := Some(Error)));
    FailTrace(start, steps0, old(sm.Db()), pid, p);
    steps := steps0 + [Step(pid, Fail)];
    ghost var db := sm.Db();
    if abandon {
      var _ := sm.UpdateClusterRecord(slice, Patch(status := Some(Terminating)));
      AbandonTrace(start, steps, db, pid, email, slice);
      return Abandoned(slice), steps + [Step(pid, Abandon)];
    } else {
      StopTrace(start, steps, db, pid, ClaimFailing(email, slice));
      return Failed(slice), steps + [Step(pid, Stop)];
    }
  }

  // `claim` from the point where it has written its user on a ready row.
  method FinishReady(sm: StateManager, pid: Pid, email: User, evalOverride: bool, w: ClaimWorld,
                     slice: SliceName, row: Cluster, ghost start: State, ghost steps0: seq<Step>)
    returns (r: ClaimOutcome, ghost steps: seq<Step>)
    requires sm.Valid() && Has(sm.clusters, slice)
    requires Get(sm.clusters, slice) == row.(status := UserProvisioning, claimedBy := Some(email))
    requires Traces(start, steps0, Alone(sm.Db(), pid, ClaimHolds(email, slice)))
    modifies sm
    ensures sm.Valid() && Traces(start, steps, State(sm.Db(), map[]))
    ensures ComesTo(r, slice, Some(row), w)
    ensures sm.clusters == Put(old(sm.clusters), slice, RowLeft(r, email, evalOverride, Some(row), w))
  {
    hide Traces, View, OrderedDict.Put, OrderedDict.Has;
    ghost var db := sm.Db();
    ViewReads(sm.clusters, slice);
    PutSame(sm.clusters, slice);
    if row.controlNode == None || row.controlNode == Some("") {
      StopTrace(start, steps0, db, pid, ClaimHolds(email, slice));
      return Unfinished(slice), steps0 + [Step(pid, Stop)];
    }
    if !w.nodesReady {
      r, steps := GiveUp(sm, pid, email, slice, false, ClaimHolds(email, slice), start, steps0);
      return;
    }
    match w.keys
    case Refused | Crashed =>
      StopTrace(start, steps0, db, pid, ClaimHolds(email, slice));
      return Unfinished(slice), steps0 + [Step(pid, Stop)];
    case Raised =>
      r, steps := GiveUp(sm, pid, email, slice, row.aggregateName != "", ClaimHolds(email, slice), start, steps0);
    case Installed =>
      var _ := sm.UpdateClusterRecord(slice, Patch(status := Some(Claimed), claimedBy := Some(Some(email)),
                                                   evaluationOverride := Some(evalOverride)));
      FinishTrace(start, steps0, db, pid, ClaimHolds(email, slice));
      return Got(slice), steps0 + [Step(pid, Finish)] + [];
  }

  // `claim` once it has found a ready row.
  method ClaimReady(sm: StateManager, pid: Pid, email: User, evalOverride: bool, w: ClaimWorld,
                    slice: SliceName, row: Cluster, ghost start: State, ghost steps0: seq<Step>)
    returns (r: ClaimOutcome, ghost steps: seq<Step>)
    requires sm.Valid() && slice in WithStatus(sm.Db(), UnclaimedReady)
    requires Has(sm.clusters, slice) && Get(sm.clusters, slice) == row
    requires Traces(start, steps0, Alone(sm.Db(), pid, ClaimAdmitted(email)))
    modifies sm
    ensures sm.Valid() && Traces(start, steps, State(sm.Db(), map[]))
    ensures ComesTo(r, slice, Some(row), w)
    ensures sm.clusters == Put(old(sm.clusters), slice, RowLeft(r, email, evalOverride, Some(row), w))
  {
    hide Traces, View, OrderedDict.Put, OrderedDict.Has, Completes, Strands, Abandons, RowLeft;
    ghost var db := sm.Db();
    ghost var t := sm.clusters;
    ghost var taken := row.(status := UserProvisioning, claimedBy := Some(email));
    PutReads(t, slice, taken, slice);
    var _ := sm.UpdateClusterRecord(slice, Patch(status := Some(UserProvisioning), claimedBy := Some(Some(email))));
    TakeTrace(start, steps0, db, pid, email, slice);
    assert sm.Db() == db[slice := Row(UserProvisioning, Some(email))];
    r, steps := FinishReady(sm, pid, email, evalOverride, w, slice, row, start,
                            steps0 + [Step(pid, Pick(slice))] + [Step(pid, Take)]);
    PutTwice(t, slice, taken, RowLeft(r, email, evalOverride, Some(row), w));
  }

  // Seen as statuses and owners.
  lemma LeftIs(r: ClaimOutcome, u: User, evalOverride: bool, ready: Option<Cluster>, w: ClaimWorld, t: Table, t': Table)
    requires HasRow(r) && Distinct(t) && t' == Put(t, r.slice, RowLeft(r, u, evalOverride, ready, w))
    ensures LeftBehind(r, u, View(t), View(t'))
  {
    hide View, Put, Distinct;
    ViewPut(t, r.slice, RowLeft(r, u, evalOverride, ready, w));
  }

  // The row a new cluster starts with.
  function NewCluster(u: User, evalOverride: bool, w: ClaimWorld): Cluster {
    Cluster(UserProvisioning, Some(u), PENDING_AGGREGATE, None, w.now, evalOverride)
  }

  // `claim` from the point where it has created a row of its own.
  method FinishBuilding(sm: StateManager, pid: Pid, email: User, ghost evalOverride: bool, w: ClaimWorld,
                        slice: SliceName, ghost start: State, ghost steps0: seq<Step>)
    returns (r: ClaimOutcome, ghost steps: seq<Step>)
    requires sm.Valid() && Has(sm.clusters, slice) && Get(sm.clusters, slice) == NewCluster(email, evalOverride, w)
    requires Traces(start, steps0, Alone(sm.Db(), pid, ClaimBuilds(email, slice)))
    modifies sm
    ensures sm.Valid() && Traces(start, steps, State(sm.Db(), map[]))
    ensures ComesTo(r, slice, None, w)
    ensures sm.clusters == Put(old(sm.clusters), slice, RowLeft(r, email, evalOverride, None, w))
  {
    hide Traces, View, OrderedDict.Put, OrderedDict.Has;
    ghost var db := sm.Db();
    ViewReads(sm.clusters, slice);
    PutSame(sm.clusters, slice);
    if w.experiment.None? {
      r, steps := GiveUp(sm, pid, email, slice, false, ClaimBuilds(email, slice), start, steps0);
      return;
    }
    var experiment := w.experiment.value;
    if !experiment.hasLogin || experiment.control.None? || (w.nodesReady && w.keys in {Raised, Crashed}) {
      r, steps := GiveUp(sm, pid, email, slice, experiment.aggregateName != "", ClaimBuilds(email, slice), start, steps0);
      return;
    }
    if !w.nodesReady {
      r, steps := GiveUp(sm, pid, email, slice, false, ClaimBuilds(email, slice), start, steps0);
      return;
    }
    if w.keys == Refused {
      StopTrace(start, steps0, db, pid, ClaimBuilds(email, slice));
      return Unfinished(slice), steps0 + [Step(pid, Stop)];
    }
    var _ := sm.UpdateClusterRecord(slice, Patch(status := Some(Claimed),
                                                 aggregateName := Some(experiment.aggregateName),
                                                 controlNode := Some(experiment.control)));
    FinishTrace(start, steps0, db, pid, ClaimBuilds(email, slice));
    return Got(slice), steps0 + [Step(pid, Finish)] + [Step(pid, Stop)];
  }

  // `claim` once it has found no ready row.
  method ClaimNew(sm: StateManager, pid: Pid, email: User, evalOverride: bool, w: ClaimWorld,
                  ghost start: State, ghost steps0: seq<Step>)
    returns (r: ClaimOutcome, ghost steps: seq<Step>)
    requires sm.Valid()
    requires Traces(start, steps0, Alone(sm.Db(), pid, ClaimUnserved(email)))
    modifies sm
    ensures sm.Valid() && Traces(start, steps, State(sm.Db(), map[]))
    ensures if |Managed(old(sm.Db()))| >= MAX_TOTAL_CLUSTERS then r == TotalLimitReached
            else if w.newSlice in old(sm.Db()) then r == SliceTaken
            else ComesTo(r, w.newSlice, None, w)
    ensures sm.clusters == if HasRow(r) then Put(old(sm.clusters), w.newSlice, RowLeft(r, email, evalOverride, None, w))
                           else old(sm.clusters)
  {
    hide Traces, View, OrderedDict.Put, OrderedDict.Has, Patched, Managed, RowLeft;
    ghost var db := sm.Db();
    ghost var t := sm.clusters;
    ghost var row := NewCluster(email, evalOverride, w);
    var total := sm.CountTotalManagedClusters();
    if total >= MAX_TOTAL_CLUSTERS {
      StopTrace(start, steps0, db, pid, ClaimUnserved(email));
      return TotalLimitReached, steps0 + [Step(pid, Stop)];
    }
    GuardTrace(start, steps0, db, pid, email);
    steps := steps0 + [Step(pid, Guard)];
    var created := sm.CreateClusterRecord(w.newSlice, PENDING_AGGREGATE, UserProvisioning, Some(email), evalOverride, w.now);
    if created.Err? {
      StopTrace(start, steps, db, pid, ClaimGuarded(email));
      return SliceTaken, steps + [Step(pid, Stop)];
    }
    CreateTrace(start, steps, db, pid, email, w.newSlice);
    ViewReads(t, w.newSlice);
    PutKeeps(t, w.newSlice, row);
    PutReads(t, w.newSlice, row, w.newSlice);
    r, steps := FinishBuilding(sm, pid, email, evalOverride, w, w.newSlice, start, steps + [Step(pid, Create(w.newSlice))]);
    PutTwice(t, w.newSlice, row, RowLeft(r, email, evalOverride, None, w));
  }

  lemma Nothing(db: Db)
    ensures Traces(State(db, map[]), [], State(db, map[]))
  {
  }

  // `claim` for a registered user.
  method ClaimRegistered(sm: StateManager, pid: Pid, email: User, evalOverride: bool, w: ClaimWorld)
    returns (r: ClaimOutcome, ghost steps: seq<Step>)
    requires sm.Valid() && pid.Cli?
    modifies sm
    ensures sm.Valid() && Traces(State(old(sm.Db()), map[]), steps, State(sm.Db(), map[]))
    ensures TableLeft(r, email, evalOverride, w, old(sm.clusters), sm.clusters)
    ensures LeftBehind(r, email, old(sm.Db()), sm.Db())
    ensures r != InvalidEmail && r != NotRegistered
    ensures r == UserLimitReached <==> |HeldBy(old(sm.Db()), email)| >= MAX_CLUSTERS_PER_USER
    ensures r == TotalLimitReached
       <==> |HeldBy(old(sm.Db()), email)| < MAX_CLUSTERS_PER_USER
            && WithStatus(old(sm.Db()), UnclaimedReady) == {} && |Managed(old(sm.Db()))| >= MAX_TOTAL_CLUSTERS
    ensures HasRow(r) <==> Served(old(sm.clusters), email, w.(validEmail := true, registered := true))
    ensures HasRow(r) ==> ComesTo(r, SliceFor(old(sm.clusters), w), ReadyRow(old(sm.clusters)), w)
  {
    hide Traces, View, OrderedDict.Put, OrderedDict.Has, Patched, Completes, Strands, Abandons, Managed, HeldBy, RowLeft;
    ghost var db := sm.Db();
    ghost var t := sm.clusters;
    ghost var start := State(db, map[]);
    Begin(db, pid, StartClaim(email));
    steps := [Step(pid, StartClaim(email))];
    ReadyRows(sm.clusters);
    var held := sm.CountUserClaimedClusters(email);
    if held >= MAX_CLUSTERS_PER_USER {
      StopTrace(start, steps, db, pid, ClaimStart(email));
      return UserLimitReached, steps + [Step(pid, Stop)];
    }
    AdmitTrace(start, steps, db, pid, email);
    steps := steps + [Step(pid, Admit)];
    var ready := sm.GetClustersByStatus(UnclaimedReady);
    if ready != [] {
      FirstSelected(t, UnclaimedReady);
      r, steps := ClaimReady(sm, pid, email, evalOverride, w, ready[0].0, ready[0].1, start, steps);
    } else {
      FindNoneTrace(start, steps, db, pid, email);
      r, steps := ClaimNew(sm, pid, email, evalOverride, w, start, steps + [Step(pid, FindNone)]);
    }
    if HasRow(r) {
      LeftIs(r, email, evalOverride, ReadyRow(t), w, t, sm.clusters);
    }
  }

  lemma FirstSelected(t: Table, status: Status)
    requires Distinct(t) && Select(t, status) != []
    ensures var (s, c) := Select(t, status)[0]; Has(t, s) && Get(t, s) == c
  {
    SelectReads(t, status, Select(t, status)[0].0);
  }

  // The first ready row is the first of the table that is ready, and there is one unless no row
  // is.
  lemma ReadyRows(t: Table)
    requires Distinct(t)
    ensures FirstReady(t).None? <==> WithStatus(View(t), UnclaimedReady) == {}
    ensures FirstReady(t).Some? ==>
              && FirstReady(t).value.0 in WithStatus(View(t), UnclaimedReady)
              && exists i :: 0 <= i < |t| && t[i] == FirstReady(t).value && t[i].1.status == UnclaimedReady
                             && forall k :: 0 <= k < i ==> t[k].1.status != UnclaimedReady
  {
    hide View;
    SelectLists(t, UnclaimedReady);
    SomeRows(View(t), UnclaimedReady, Select(t, UnclaimedReady));
    if Select(t, UnclaimedReady) != [] {
      var i := SelectFirst(t, UnclaimedReady);
    }
  }

  lemma SomeRows(db: Db, status: Status, rows: Table)
    requires Lists(db, status, Names(rows))
    ensures rows == [] <==> WithStatus(db, status) == {}
    ensures rows != [] ==> rows[0].0 in WithStatus(db, status)
  {
    NamesIndex(rows);
    ListedRows(db, status, Names(rows));
    if rows != [] {
      assert Names(rows)[0] == rows[0].0 && rows[0].0 in Names(rows);
      assert rows[0].0 in WithStatus(db, status);
    }
    if WithStatus(db, status) != {} {
      var s :| s in WithStatus(db, status);
      RowListed(db, status, Names(rows), s);
    }
  }

  // The whole command, run alone: which outcome it has and when, and what it keeps.
  method Claim(sm: StateManager, pid: Pid, email: User, evalOverride: bool, w: ClaimWorld)
    returns (r: ClaimOutcome, ghost steps: seq<Step>)
    requires sm.Valid() && pid.Cli?
    modifies sm
    ensures sm.Valid() && Traces(State(old(sm.Db()), map[]), steps, State(sm.Db(), map[]))
    ensures TableLeft(r, email, evalOverride, w, old(sm.clusters), sm.clusters)
    ensures LeftBehind(r, email, old(sm.Db()), sm.Db())
    ensures r == InvalidEmail <==> !w.validEmail
    ensures r == NotRegistered <==> w.validEmail && !w.registered
    ensures r == UserLimitReached
       <==> w.validEmail && w.registered && |HeldBy(old(sm.Db()), email)| >= MAX_CLUSTERS_PER_USER
    ensures r == TotalLimitReached
       <==> w.validEmail && w.registered && |HeldBy(old(sm.Db()), email)| < MAX_CLUSTERS_PER_USER
            && WithStatus(old(sm.Db()), UnclaimedReady) == {} && |Managed(old(sm.Db()))| >= MAX_TOTAL_CLUSTERS
    ensures HasRow(r) <==> Served(old(sm.clusters), email, w)
    ensures HasRow(r) ==> ComesTo(r, SliceFor(old(sm.clusters), w), ReadyRow(old(sm.clusters)), w)
    ensures |Managed(old(sm.Db()))| <= MAX_TOTAL_CLUSTERS ==> |Managed(sm.Db())| <= MAX_TOTAL_CLUSTERS
    ensures forall u :: |HeldBy(old(sm.Db()), u)| <= MAX_CLUSTERS_PER_USER
                    ==> |HeldBy(sm.Db(), u)| <= MAX_CLUSTERS_PER_USER
  {
    hide Traces, View, OrderedDict.Put, OrderedDict.Has, Patched, ComesTo, Managed, HeldBy, FirstReady, WithStatus;
    if !w.validEmail || !w.registered {
      Nothing(sm.Db());
      r, steps := if w.validEmail then NotRegistered else InvalidEmail, [];
    } else {
      r, steps := ClaimRegistered(sm, pid, email, evalOverride, w);
    }
    KeepsLimits(old(sm.Db()), steps, sm.Db());
  }

  // A row the command leaves unfinished stays as it is through everything that any
  // processes do later.
  lemma UnfinishedForever(r: ClaimOutcome, u: User, db: Db, db': Db, later: seq<Step>, n: nat)
    requires LeftBehind(r, u, db, db') && r.Unfinished? && IsRun(State(db', map[]), later, n)
    ensures var end := Final(State(db', map[]), later, n).db;
            && r.slice in end && end[r.slice] == Row(UserProvisioning, Some(u))
            && r.slice in HeldBy(end, u) && r.slice in Managed(end)
  {
    StrandedForever(State(db', map[]), later, n, r.slice);
  }

  // Two claims whose key is refused, and the user is told the limit is reached without
  // having a single cluster to relinquish.
  method RefusedKeysLockOut(email: User, a: SliceName, b: SliceName) returns (r: ClaimOutcome, claimed: nat)
    requires a != b
    ensures r == UserLimitReached && claimed == 0
  {
    hide Traces, Patched, View, Put, Managed, HeldBy, WithStatus, FirstReady;
    var sm := new StateManager();
    var w := ClaimWorld(true, true, true, Refused, a, Some(Experiment("aggregate", true, Some("node"))), 0.0);
    AllUnfinished(sm.Db(), email);
    ReadyRows(sm.clusters);
    var first, _ := Claim(sm, Cli(0), email, false, w);
    OneMore(first, email, map[], sm.Db());
    AllUnfinished(sm.Db(), email);
    ReadyRows(sm.clusters);
    ghost var db := sm.Db();
    var second, _ := Claim(sm, Cli(1), email, false, w.(newSlice := b));
    OneMore(second, email, db, sm.Db());
    AllUnfinished(sm.Db(), email);
    ghost var steps;
    r, steps := Claim(sm, Cli(2), email, false, w);
    var rows := sm.GetClustersByStatus(Claimed);
    SomeRows(sm.Db(), Claimed, rows);
    claimed := |rows|;
  }

  lemma OneMore(r: ClaimOutcome, u: User, db: Db, db': Db)
    requires LeftBehind(r, u, db, db') && r.Unfinished?
    requires forall s :: s in db ==> db[s] == Row(UserProvisioning, Some(u))
    ensures forall s :: s in db' ==> db'[s] == Row(UserProvisioning, Some(u))
    ensures db'.Keys == db.Keys + {r.slice}
  {
    forall s ensures s in db' <==> s in db || s == r.slice {
      assert s in db' - {r.slice} <==> s in db - {r.slice};
    }
    forall s | s in db' && s != r.slice ensures db'[s] == db[s] {
      assert (db' - {r.slice})[s] == (db - {r.slice})[s];
    }
  }

  lemma AllUnfinished(db: Db, u: User)
    requires forall s :: s in db ==> db[s] == Row(UserProvisioning, Some(u))
    ensures HeldBy(db, u) == db.Keys && Managed(db) == db.Keys
    ensures WithStatus(db, UnclaimedReady) == {} && WithStatus(db, Claimed) == {}
  {
  }

  // ------------------------------------------------ relinquish

  method Relinquish(sm: StateManager, pid: Pid, email: User, slice: SliceName, validEmail: bool, registered: bool)
    returns (released: bool, ghost steps: seq<Step>)
    requires sm.Valid() && pid.Cli?
    modifies sm
    ensures sm.Valid() && Traces(State(old(sm.Db()), map[]), steps, State(sm.Db(), map[]))
    ensures released <==> validEmail && registered && slice in old(sm.Db())
                          && old(sm.Db())[slice] == Row(Claimed, Some(email))
    ensures sm.Db() == if released then old(sm.Db())[slice := Row(Terminating, None)] else old(sm.Db())
    ensures !released ==> sm.clusters == old(sm.clusters)
    ensures released ==> Has(old(sm.clusters), slice)
                         && sm.clusters == Put(old(sm.clusters), slice,
                                               Get(old(sm.clusters), slice).(status := Terminating, claimedBy := None))
  {
    hide IsRun, Final, Traces, View, OrderedDict.Put, OrderedDict.Has;
    ghost var db := sm.Db();
    ghost var start := State(db, map[]);
    Nothing(db);
    if !validEmail || !registered {
      return false, [];
    }
    ViewReads(sm.clusters, slice);
    if !Has(sm.clusters, slice) {
      return false, [];
    }
    var row := Get(sm.clusters, slice);
    if row.claimedBy != Some(email) || row.status != Claimed {
      return false, [];
    }
    Begin(db, pid, StartRelinquish(email, slice));
    steps := [Step(pid, StartRelinquish(email, slice))];
    var _ := sm.UpdateClusterRecord(slice, Patch(status := Some(Terminating), claimedBy := Some(None)));
    ReleaseTrace(start, steps, db, pid, email, slice);
    return true, steps + [Step(pid, CheckOwned)] + [Step(pid, Release)];
  }
}
