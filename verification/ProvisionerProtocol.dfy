/** The cluster provisioner as a protocol: one daemon and any number of `claim` and
    `relinquish` commands share the clusters table. Each SQL statement is one atomic
    step; between two statements of a process any other process may run, so a count may
    be stale when the row it allowed is created, and a row may have changed status
    between being listed and being written. */
module ProvisionerProtocol {
  import opened Common

  type SliceName = string
  type User = string

  const MAX_TOTAL_CLUSTERS: nat := 8
  const MIN_AVAILABLE_CLUSTERS: nat := 2
  const MAX_CLUSTERS_PER_USER: nat := 2

  datatype Status =
    | AutoProvisioning | UserProvisioning | UnclaimedReady | Claimed
    | Terminating | Error | Terminated

  datatype Row = Row(status: Status, owner: Option<User>)

  type Db = map<SliceName, Row>

  // ------------------------------------------------ the counters

  predicate IsManaged(s: Status) {
    s in {AutoProvisioning, UserProvisioning, UnclaimedReady, Claimed}
  }

  function Managed(db: Db): set<SliceName> {
    set s | s in db && IsManaged(db[s].status)
  }

  function WithStatus(db: Db, status: Status): set<SliceName> {
    set s | s in db && db[s].status == status
  }

  function Available(db: Db): set<SliceName> {
    WithStatus(db, AutoProvisioning) + WithStatus(db, UnclaimedReady)
  }

  // The rows that count against a user.
  function HeldBy(db: Db, u: User): set<SliceName> {
    set s | s in db && db[s].owner == Some(u) && db[s].status in {Claimed, UserProvisioning}
  }

  // ------------------------------------------------ processes

  datatype Pid = Daemon | Cli(n: nat)

  // Where a process stands between two of its SQL statements.
  datatype Proc =
    | ClaimStart(user: User)
    | ClaimAdmitted(user: User)
    | ClaimPicked(user: User, slice: SliceName)
    | ClaimHolds(user: User, slice: SliceName)
    | ClaimUnserved(user: User)
    | ClaimGuarded(user: User)
    | ClaimBuilds(user: User, slice: SliceName)
    | ClaimBuilt(user: User, slice: SliceName)
    | ClaimFailing(user: User, slice: SliceName)
    | RelinquishStart(user: User, slice: SliceName)
    | RelinquishWrites(slice: SliceName)
    | CycleStart
    | TimeoutScan(todo: seq<SliceName>)
    | InactivityScan(todo: seq<SliceName>)
    | Provision(needed: nat)
    | ProvisionGuarded(needed: nat)
    | ProvisionBuilds(slice: SliceName, needed: nat)
    | TerminateScan(todo: seq<SliceName>)

  datatype State = State(db: Db, procs: map<Pid, Proc>)

  datatype Action =
    // processes come and go; any process may stop anywhere (early return, exception, kill)
    | StartClaim(user: User) | StartRelinquish(user: User, slice: SliceName) | StartCycle | Stop
    // claim
    | Admit | Pick(slice: SliceName) | FindNone | Guard | Create(slice: SliceName)
    | Take | Finish | Fail | Abandon
    // relinquish
    | CheckOwned | Release
    // the daemon's cycle
    | ListReady(todo: seq<SliceName>) | ListClaimed(todo: seq<SliceName>) | CountAvailable
    | ListTerminating(todo: seq<SliceName>)
    | Skip | TimeOut | Reclaim | MarkReady | MarkError | MarkTerminated | RetryTermination

  datatype Step = Step(pid: Pid, action: Action)

  // The write an SQL statement makes; an UPDATE of a row that is not there changes nothing.
  datatype Statement =
    | Query
    | SetStatus(s: SliceName, status: Status)
    | SetOwned(s: SliceName, status: Status, owner: Option<User>)
    | Insert(s: SliceName, status: Status, owner: Option<User>)

  function Execute(db: Db, w: Statement): Db {
    match w
    case Query => db
    case SetStatus(s, status) => if s in db then db[s := db[s].(status := status)] else db
    case SetOwned(s, status, owner) => if s in db then db[s := Row(status, owner)] else db
    case Insert(s, status, owner) => db[s := Row(status, owner)]
  }

  // `todo` lists exactly the rows that have the status.
  predicate Lists(db: Db, status: Status, todo: seq<SliceName>) {
    (set s | s in todo) == WithStatus(db, status)
  }

  lemma ListedRows(db: Db, status: Status, todo: seq<SliceName>)
    requires Lists(db, status, todo)
    ensures forall s :: s in todo ==> s in db && db[s].status == status
  {
    forall s | s in todo ensures s in db && db[s].status == status {
      assert s in (set x | x in todo);
      assert s in WithStatus(db, status);
    }
  }

  lemma RowListed(db: Db, status: Status, todo: seq<SliceName>, s: SliceName)
    requires Lists(db, status, todo) && s in WithStatus(db, status)
    ensures s in todo
  {
    assert s in (set x | x in todo);
  }

  predicate MayStart(pid: Pid, a: Action) {
    if pid.Daemon? then a.StartCycle? else a.StartClaim? || a.StartRelinquish?
  }

  predicate Enabled(st: State, step: Step) {
    var Step(pid, a) := step;
    if pid !in st.procs then MayStart(pid, a)
    else
      var p := st.procs[pid];
      match a
      case Stop => true
      case Admit => p.ClaimStart? && |HeldBy(st.db, p.user)| < MAX_CLUSTERS_PER_USER
      case Pick(s) => p.ClaimAdmitted? && s in WithStatus(st.db, UnclaimedReady)
      case FindNone => p.ClaimAdmitted? && WithStatus(st.db, UnclaimedReady) == {}
      case Guard =>
        (p.ClaimUnserved? || (p.Provision? && p.needed > 0)) && |Managed(st.db)| < MAX_TOTAL_CLUSTERS
      case Create(s) => (p.ClaimGuarded? || p.ProvisionGuarded?) && s !in st.db
      case Take => p.ClaimPicked?
      case Finish => p.ClaimHolds? || p.ClaimBuilds?
      case Fail => p.ClaimHolds? || p.ClaimBuilds? || p.ClaimBuilt?
      case Abandon => p.ClaimFailing?
      case CheckOwned =>
        p.RelinquishStart? && p.slice in st.db && st.db[p.slice] == Row(Claimed, Some(p.user))
      case Release => p.RelinquishWrites?
      case ListReady(todo) => p.CycleStart? && Lists(st.db, UnclaimedReady, todo)
      case ListClaimed(todo) => p.TimeoutScan? && Lists(st.db, Claimed, todo)
      case CountAvailable => p.InactivityScan?
      case ListTerminating(todo) =>
        (p.Provision? || p.ProvisionGuarded? || p.ProvisionBuilds?) && Lists(st.db, Terminating, todo)
      case Skip => (p.TimeoutScan? || p.InactivityScan? || p.TerminateScan?) && p.todo != []
      case TimeOut => p.TimeoutScan? && p.todo != []
      case Reclaim => p.InactivityScan? && p.todo != []
      case MarkReady => p.ProvisionBuilds?
      case MarkError => p.ProvisionBuilds?
      case MarkTerminated => p.TerminateScan? && p.todo != []
      case RetryTermination => p.TerminateScan? && p.todo != []
      case _ => false
  }

  // The statement a process issues with an action.
  function StatementOf(p: Proc, a: Action): Statement {
    match a
    case Take => if p.ClaimPicked? then SetOwned(p.slice, UserProvisioning, Some(p.user)) else Query
    case Finish =>
      if p.ClaimHolds? then SetOwned(p.slice, Claimed, Some(p.user))
      else if p.ClaimBuilds? then SetStatus(p.slice, Claimed)
      else Query
    case Fail => if p.ClaimHolds? || p.ClaimBuilds? || p.ClaimBuilt? then SetStatus(p.slice, Error) else Query
    case Abandon => if p.ClaimFailing? then SetStatus(p.slice, Terminating) else Query
    case Create(s) =>
      if p.ClaimGuarded? then Insert(s, UserProvisioning, Some(p.user))
      else if p.ProvisionGuarded? then Insert(s, AutoProvisioning, None)
      else Query
    case Release => if p.RelinquishWrites? then SetOwned(p.slice, Terminating, None) else Query
    case MarkReady => if p.ProvisionBuilds? then SetStatus(p.slice, UnclaimedReady) else Query
    case MarkError => if p.ProvisionBuilds? then SetStatus(p.slice, Error) else Query
    case TimeOut => if p.TimeoutScan? && p.todo != [] then SetStatus(p.todo[0], Terminating) else Query
    case Reclaim => if p.InactivityScan? && p.todo != [] then SetOwned(p.todo[0], Terminating, None) else Query
    case MarkTerminated => if p.TerminateScan? && p.todo != [] then SetStatus(p.todo[0], Terminated) else Query
    case RetryTermination => if p.TerminateScan? && p.todo != [] then SetStatus(p.todo[0], Terminating) else Query
    case _ => Query
  }

  // Where the process stands afterwards; None when it is done.
  function NextProc(db: Db, p: Proc, a: Action): Option<Proc> {
    match a
    case Admit => if p.ClaimStart? then Some(ClaimAdmitted(p.user)) else None
    case Pick(s) => if p.ClaimAdmitted? then Some(ClaimPicked(p.user, s)) else None
    case FindNone => if p.ClaimAdmitted? then Some(ClaimUnserved(p.user)) else None
    case Take => if p.ClaimPicked? then Some(ClaimHolds(p.user, p.slice)) else None
    case Guard =>
      if p.ClaimUnserved? then Some(ClaimGuarded(p.user))
      else if p.Provision? then Some(ProvisionGuarded(p.needed))
      else None
    case Create(s) =>
      if p.ClaimGuarded? then Some(ClaimBuilds(p.user, s))
      else if p.ProvisionGuarded? then Some(ProvisionBuilds(s, p.needed))
      else None
    case Finish => if p.ClaimBuilds? then Some(ClaimBuilt(p.user, p.slice)) else None
    case Fail =>
      if p.ClaimHolds? || p.ClaimBuilds? || p.ClaimBuilt? then Some(ClaimFailing(p.user, p.slice)) else None
    case CheckOwned => if p.RelinquishStart? then Some(RelinquishWrites(p.slice)) else None
    case ListReady(todo) => if p.CycleStart? then Some(TimeoutScan(todo)) else None
    case ListClaimed(todo) => if p.TimeoutScan? then Some(InactivityScan(todo)) else None
    case CountAvailable =>
      if p.InactivityScan? then
        var have := |Available(db)|;
        Some(Provision(if have < MIN_AVAILABLE_CLUSTERS then MIN_AVAILABLE_CLUSTERS - have else 0))
      else None
    case MarkReady => if p.ProvisionBuilds? then Some(Provision(Less(p.needed))) else None
    case MarkError => if p.ProvisionBuilds? then Some(Provision(Less(p.needed))) else None
    case ListTerminating(todo) => Some(TerminateScan(todo))
    case Skip =>
      if p.TimeoutScan? then Some(TimeoutScan(Rest(p.todo)))
      else if p.InactivityScan? then Some(InactivityScan(Rest(p.todo)))
      else if p.TerminateScan? then Some(TerminateScan(Rest(p.todo)))
      else None
    case TimeOut => if p.TimeoutScan? then Some(TimeoutScan(Rest(p.todo))) else None
    case Reclaim => if p.InactivityScan? then Some(InactivityScan(Rest(p.todo))) else None
    case MarkTerminated => if p.TerminateScan? then Some(TerminateScan(Rest(p.todo))) else None
    case RetryTermination => if p.TerminateScan? then Some(TerminateScan(Rest(p.todo))) else None
    case _ => None
  }

  function Started(a: Action): Proc {
    match a
    case StartClaim(u) => ClaimStart(u)
    case StartRelinquish(u, s) => RelinquishStart(u, s)
    case _ => CycleStart
  }

  function After(st: State, step: Step): State {
    var Step(pid, a) := step;
    if pid !in st.procs then st.(procs := st.procs[pid := Started(a)])
    else
      var p := st.procs[pid];
      State(Execute(st.db, StatementOf(p, a)),
            match NextProc(st.db, p, a)
            case Some(q) => st.procs[pid := q]
            case None => st.procs - {pid})
  }

  // What is left of a scan once its first row is dealt with.
  function Rest(todo: seq<SliceName>): seq<SliceName> {
    if todo == [] then [] else todo[1..]
  }

  function Less(n: nat): nat {
    if n == 0 then 0 else n - 1
  }

  // ------------------------------------------------ runs

  // `steps` can be taken from `st`, with never more than `k` processes in flight.
  predicate IsRun(st: State, steps: seq<Step>, k: nat)
    decreases |steps|
  {
    |st.procs| <= k
    && (steps != [] ==> Enabled(st, steps[0]) && IsRun(After(st, steps[0]), steps[1..], k))
  }

  function Final(st: State, steps: seq<Step>, k: nat): State
    requires IsRun(st, steps, k)
    decreases |steps|
  {
    if steps == [] then st else Final(After(st, steps[0]), steps[1..], k)
  }

  predicate Takes(st: State, step: Step, st': State) {
    Enabled(st, step) && After(st, step) == st'
  }

  predicate IsRelinquish(p: Proc) {
    p.RelinquishStart? || p.RelinquishWrites?
  }

  // The daemon and the `claim` commands in flight.
  function Provisioners(procs: map<Pid, Proc>): set<Pid> {
    set p | p in procs && !IsRelinquish(procs[p])
  }

  // Along the run, never more than `k` of these are in flight.
  ghost predicate ProvisionersAtMost(st: State, steps: seq<Step>, k: nat)
    decreases |steps|
  {
    |Provisioners(st.procs)| <= k
    && (steps != [] ==> ProvisionersAtMost(After(st, steps[0]), steps[1..], k))
  }

  lemma {:induction false} ProvisionersInFlight(st: State, steps: seq<Step>, k: nat)
    requires IsRun(st, steps, k)
    ensures ProvisionersAtMost(st, steps, k)
    decreases |steps|
  {
    hide Enabled, After;
    SubsetSize(Provisioners(st.procs), st.procs.Keys);
    if steps == [] {
    } else {
      ProvisionersInFlight(After(st, steps[0]), steps[1..], k);
    }
  }

  lemma OneStep(st: State, step: Step, rest: seq<Step>, k: nat)
    requires |st.procs| <= k && Enabled(st, step) && IsRun(After(st, step), rest, k)
    ensures IsRun(st, [step] + rest, k) && Final(st, [step] + rest, k) == Final(After(st, step), rest, k)
  {
    hide Enabled, After;
    assert ([step] + rest)[1..] == rest;
  }

  lemma {:induction false} RunConcat(st: State, a: seq<Step>, b: seq<Step>, k: nat)
    requires IsRun(st, a, k) && IsRun(Final(st, a, k), b, k)
    ensures IsRun(st, a + b, k) && Final(st, a + b, k) == Final(Final(st, a, k), b, k)
    decreases |a|
  {
    hide Enabled, After;
    if a == [] {
      assert a + b == b;
    } else {
      assert (a + b)[1..] == a[1..] + b;
      RunConcat(After(st, a[0]), a[1..], b, k);
    }
  }

  // ------------------------------------------------ tokens

  // A process that passed the total count and has not created its row yet.
  predicate Pending(p: Proc) {
    p.ClaimGuarded? || p.ProvisionGuarded?
  }

  // A process that may still give its slice a managed status, whatever the row says now.
  predicate Targets(p: Proc) {
    p.ClaimPicked? || p.ClaimHolds? || p.ClaimBuilds? || p.ProvisionBuilds?
  }

  function PendingSet(procs: map<Pid, Proc>): set<Pid> {
    set p | p in procs && Pending(procs[p])
  }

  function TargetHolders(procs: map<Pid, Proc>): set<Pid> {
    set p | p in procs && Targets(procs[p])
  }

  function TargetSet(procs: map<Pid, Proc>): set<SliceName> {
    SlicesOf(procs, TargetHolders(procs))
  }

  function SlicesOf(procs: map<Pid, Proc>, holders: set<Pid>): set<SliceName>
    requires forall p :: p in holders ==> p in procs && Targets(procs[p])
  {
    set p | p in holders && p in procs && Targets(procs[p]) :: procs[p].slice
  }

  // Rows that are managed or may become so without passing a count, each counted once.
  function Tokens(st: State): nat {
    |Managed(st.db) + TargetSet(st.procs)| + |PendingSet(st.procs)|
  }

  lemma SubsetSize<T>(a: set<T>, b: set<T>)
    requires a <= b
    ensures |a| <= |b|
  {
    assert b == a + (b - a);
  }

  lemma {:induction false} TargetsAtMostHolders(procs: map<Pid, Proc>, holders: set<Pid>)
    requires forall p :: p in holders ==> p in procs && Targets(procs[p])
    ensures |SlicesOf(procs, holders)| <= |holders|
  {
    if holders == {} {
      assert SlicesOf(procs, holders) == {};
    } else {
      var p :| p in holders;
      var rest := holders - {p};
      TargetsAtMostHolders(procs, rest);
      assert SlicesOf(procs, holders) == SlicesOf(procs, rest) + {procs[p].slice};
    }
  }

  // Tokens exceed the managed rows by at most one per daemon or `claim` in flight; a
  // `relinquish` never has one.
  lemma TokensBound(st: State)
    ensures |Managed(st.db)| <= Tokens(st) <= |Managed(st.db)| + |Provisioners(st.procs)|
  {
    var m, t := Managed(st.db), TargetSet(st.procs);
    var holders, pending := TargetHolders(st.procs), PendingSet(st.procs);
    SubsetSize(m, m + t);
    TargetsAtMostHolders(st.procs, holders);
    assert |m + t| <= |m| + |t|;
    assert holders !! pending;
    SubsetSize(holders + pending, Provisioners(st.procs));
  }

  // ------------------------------------------------ how a step moves tokens

  // A process that moves on without a token leaves the others' tokens as they were.
  lemma ProcMove(procs: map<Pid, Proc>, pid: Pid, p: Proc)
    ensures var procs' := procs[pid := p];
            && TargetSet(procs') <= TargetSet(procs) + (if Targets(p) then {p.slice} else {})
            && PendingSet(procs') == PendingSet(procs) - {pid} + (if Pending(p) then {pid} else {})
  {
  }

  lemma ProcEnd(procs: map<Pid, Proc>, pid: Pid)
    ensures TargetSet(procs - {pid}) <= TargetSet(procs)
    ensures PendingSet(procs - {pid}) == PendingSet(procs) - {pid}
  {
  }

  lemma InTargetSet(procs: map<Pid, Proc>, pid: Pid)
    requires pid in procs && Targets(procs[pid])
    ensures procs[pid].slice in TargetSet(procs)
  {
  }

  lemma ShrinkTokens(st: State, st': State)
    requires Managed(st'.db) + TargetSet(st'.procs) <= Managed(st.db) + TargetSet(st.procs)
    requires PendingSet(st'.procs) <= PendingSet(st.procs)
    ensures Tokens(st') <= Tokens(st)
  {
    SubsetSize(Managed(st'.db) + TargetSet(st'.procs), Managed(st.db) + TargetSet(st.procs));
    SubsetSize(PendingSet(st'.procs), PendingSet(st.procs));
  }

  // Creating a row turns a pending token into a target.
  lemma CreateTokens(st: State, step: Step)
    requires Enabled(st, step) && step.action.Create? && step.pid in st.procs
    ensures Tokens(After(st, step)) <= Tokens(st)
  {
    var st', pid, s := After(st, step), step.pid, step.action.slice;
    var p := st.procs[pid];
    var q := NextProc(st.db, p, step.action).value;
    CreateMoves(st.db, p, s);
    ProcMove(st.procs, pid, q);
    hide Managed, TargetSet, StatementOf, NextProc, Execute;
    TradeToken(st, st', pid, s);
  }

  // A pending process that finds its slice trades one token for the other.
  lemma TradeToken(st: State, st': State, pid: Pid, s: SliceName)
    requires Managed(st'.db) + TargetSet(st'.procs) <= Managed(st.db) + TargetSet(st.procs) + {s}
    requires pid in PendingSet(st.procs) && PendingSet(st'.procs) == PendingSet(st.procs) - {pid}
    ensures Tokens(st') <= Tokens(st)
  {
    hide Managed, TargetSet, PendingSet;
    var before := Managed(st.db) + TargetSet(st.procs);
    SubsetSize(Managed(st'.db) + TargetSet(st'.procs), before + {s});
    assert |before + {s}| <= |before| + 1;
  }

  lemma CreateMoves(db: Db, p: Proc, s: SliceName)
    requires Pending(p) && s !in db
    ensures var q := NextProc(db, p, Create(s));
            q.Some? && Targets(q.value) && q.value.slice == s && !Pending(q.value)
    ensures Managed(Execute(db, StatementOf(p, Create(s)))) == Managed(db) + {s}
  {
  }

  // Only passing a count can add a token.
  lemma StepTokens(st: State, step: Step)
    requires Enabled(st, step) && !step.action.Guard?
    ensures Tokens(After(st, step)) <= Tokens(st)
  {
    var st', pid, a := After(st, step), step.pid, step.action;
    if pid !in st.procs {
      ProcMove(st.procs, pid, st'.procs[pid]);
      ShrinkTokens(st, st');
    } else if a.Create? {
      CreateTokens(st, step);
    } else {
      MoveTokens(st, step);
      ShrinkTokens(st, st');
    }
  }

  // A managed status is only written to the writer's own target, or to a row it creates
  // while its token is pending.
  lemma ManagedWrites(p: Proc, a: Action)
    ensures match StatementOf(p, a)
            case Query => true
            case SetStatus(s, status) => IsManaged(status) ==> Targets(p) && p.slice == s
            case SetOwned(s, status, _) => IsManaged(status) ==> Targets(p) && p.slice == s
            case Insert(s, _, _) => Pending(p) && a == Create(s)
  {
  }

  lemma MoveDb(db: Db, p: Proc, a: Action)
    requires !a.Create?
    ensures Managed(Execute(db, StatementOf(p, a))) <= Managed(db) + (if Targets(p) then {p.slice} else {})
  {
    ManagedWrites(p, a);
  }

  // A new target is a row that was managed when it was listed.
  lemma MoveTarget(st: State, pid: Pid, a: Action)
    requires Enabled(st, Step(pid, a)) && pid in st.procs && !a.Guard? && !a.Create?
    ensures var p, q := st.procs[pid], NextProc(st.db, st.procs[pid], a);
            && (q.Some? ==> !Pending(q.value))
            && (q.Some? && Targets(q.value) ==>
                  q.value.slice in Managed(st.db) || (Targets(p) && q.value.slice == p.slice))
  {
  }

  lemma MoveTokens(st: State, step: Step)
    requires Enabled(st, step) && step.pid in st.procs && !step.action.Guard? && !step.action.Create?
    ensures var st' := After(st, step);
            && Managed(st'.db) + TargetSet(st'.procs) <= Managed(st.db) + TargetSet(st.procs)
            && PendingSet(st'.procs) <= PendingSet(st.procs)
  {
    var st', pid := After(st, step), step.pid;
    var p := st.procs[pid];
    MoveDb(st.db, p, step.action);
    MoveTarget(st, pid, step.action);
    if Targets(p) {
      InTargetSet(st.procs, pid);
    }
    match NextProc(st.db, p, step.action)
    case Some(q) => ProcMove(st.procs, pid, q);
    case None => ProcEnd(st.procs, pid);
  }

  lemma GuardTokens(st: State, step: Step)
    requires Enabled(st, step) && step.action.Guard?
    ensures Tokens(After(st, step)) <= MAX_TOTAL_CLUSTERS - 1 + |Provisioners(st.procs)|
  {
    var st' := After(st, step);
    TokensBound(st');
    assert Provisioners(st'.procs) == Provisioners(st.procs);
  }

  // ------------------------------------------------ the total bound

  // However the processes interleave, tokens never exceed the limit by more than the
  // daemon and the `claim` commands in flight beyond the first of them.
  lemma {:induction false} RunTokens(st: State, steps: seq<Step>, n: nat, k: nat)
    requires IsRun(st, steps, n) && ProvisionersAtMost(st, steps, k)
    requires Tokens(st) <= MAX_TOTAL_CLUSTERS - 1 + k
    ensures Tokens(Final(st, steps, n)) <= MAX_TOTAL_CLUSTERS - 1 + k
    decreases |steps|
  {
    hide Enabled, After;
    if steps == [] {
    } else {
      if steps[0].action.Guard? {
        GuardTokens(st, steps[0]);
      } else {
        StepTokens(st, steps[0]);
      }
      RunTokens(After(st, steps[0]), steps[1..], n, k);
    }
  }

  // With at most `k` of the daemon and the `claim` commands in flight, amid any number of
  // other processes, there are never more than MAX_TOTAL_CLUSTERS - 1 + k managed clusters.
  lemma ProvisioningBound(db: Db, steps: seq<Step>, n: nat, k: nat)
    requires |Managed(db)| <= MAX_TOTAL_CLUSTERS - 1 + k
    requires IsRun(State(db, map[]), steps, n) && ProvisionersAtMost(State(db, map[]), steps, k)
    ensures |Managed(Final(State(db, map[]), steps, n).db)| <= MAX_TOTAL_CLUSTERS - 1 + k
  {
    var st := State(db, map[]);
    TokensBound(st);
    assert Provisioners(st.procs) == {};
    RunTokens(st, steps, n, k);
    TokensBound(Final(st, steps, n));
  }
}
