/** The per-user limit under interleaving. A row a `claim` command created for its user is
    touched by no other process until the command gives it the claimed status, and every
    other write of a counted status names its own user. */
module ProvisionerPerUser {
  import opened Common
  import opened ProvisionerProtocol

  predicate IsClaim(p: Proc) {
    p.ClaimStart? || p.ClaimAdmitted? || p.ClaimPicked? || p.ClaimHolds? || p.ClaimUnserved?
    || p.ClaimGuarded? || p.ClaimBuilds? || p.ClaimBuilt? || p.ClaimFailing?
  }

  // The `claim` commands of a user in flight.
  function Claimers(procs: map<Pid, Proc>, u: User): set<Pid> {
    set p | p in procs && IsClaim(procs[p]) && procs[p].user == u
  }

  // ------------------------------------------------ rows under construction

  // The rows a process may still write.
  function Mentions(p: Proc): set<SliceName> {
    match p
    case ClaimPicked(_, s) => {s}
    case ClaimHolds(_, s) => {s}
    case ClaimBuilds(_, s) => {s}
    case ClaimBuilt(_, s) => {s}
    case ClaimFailing(_, s) => {s}
    case RelinquishWrites(s) => {s}
    case ProvisionBuilds(s, _) => {s}
    case TimeoutScan(todo) => set s | s in todo
    case InactivityScan(todo) => set s | s in todo
    case TerminateScan(todo) => set s | s in todo
    case _ => {}
  }

  ghost predicate MentionsExist(st: State) {
    forall p :: p in st.procs ==> Mentions(st.procs[p]) <= st.db.Keys
  }

  ghost predicate OwnRow(db: Db, p: Proc) {
    p.ClaimBuilds? ==> p.slice in db && db[p.slice] == Row(UserProvisioning, Some(p.user))
  }

  ghost predicate RowsExclusive(st: State) {
    && (forall p :: p in st.procs ==> OwnRow(st.db, st.procs[p]))
    && (forall p, q :: p in st.procs && q in st.procs && p != q && st.procs[p].ClaimBuilds?
          ==> st.procs[p].slice !in Mentions(st.procs[q]))
  }

  ghost predicate Inv(st: State) {
    MentionsExist(st) && RowsExclusive(st)
  }

  // A statement writes a mentioned row or creates a new one.
  lemma WritesMentioned(db: Db, p: Proc, a: Action)
    requires a.Create? ==> a.slice !in db
    ensures db.Keys <= Execute(db, StatementOf(p, a)).Keys
    ensures forall s :: s in db && s !in Mentions(p) ==> Execute(db, StatementOf(p, a))[s] == db[s]
    ensures a.Create? && Pending(p) ==> a.slice in Execute(db, StatementOf(p, a))
  {
  }

  // A process comes to mention only rows it mentioned, listed, or just created; a listed
  // row is not being built by a user.
  lemma NextMentioned(st: State, pid: Pid, a: Action)
    requires Enabled(st, Step(pid, a)) && pid in st.procs
    ensures var q := NextProc(st.db, st.procs[pid], a);
            q.Some? ==>
              forall s :: s in Mentions(q.value) ==>
                || s in Mentions(st.procs[pid])
                || (s in st.db && st.db[s].status != UserProvisioning)
                || (a == Create(s) && s !in st.db && Pending(st.procs[pid]))
  {
    hide WithStatus, Managed, HeldBy;
    match a
    case Pick(_) => PickedRow(st, pid, a);
    case ListReady(todo) => ListedRows(st.db, UnclaimedReady, todo);
    case ListClaimed(todo) => ListedRows(st.db, Claimed, todo);
    case ListTerminating(todo) => ListedRows(st.db, Terminating, todo);
    case _ =>
  }

  lemma PickedRow(st: State, pid: Pid, a: Action)
    requires a.Pick? && Enabled(st, Step(pid, a)) && pid in st.procs
    ensures a.slice in st.db && st.db[a.slice].status == UnclaimedReady
  {
  }

  // A process is building a row for its user only if it was, or has just created it.
  lemma NextBuilds(db: Db, p: Proc, a: Action)
    ensures var q := NextProc(db, p, a);
            q.Some? && q.value.ClaimBuilds? ==>
              p.ClaimGuarded? && a == Create(q.value.slice) && q.value.user == p.user
              && StatementOf(p, a) == Insert(q.value.slice, UserProvisioning, Some(p.user))
  {
  }

  lemma InvMoves(st: State, pid: Pid, a: Action, q: Proc)
    requires Inv(st) && Enabled(st, Step(pid, a)) && pid in st.procs
    requires NextProc(st.db, st.procs[pid], a) == Some(q)
    ensures Inv(After(st, Step(pid, a)))
  {
    var p := st.procs[pid];
    var st' := After(st, Step(pid, a));
    WritesMentioned(st.db, p, a);
    NextMentioned(st, pid, a);
    NextBuilds(st.db, p, a);
    assert st'.procs == st.procs[pid := q];
    forall x | x in st'.procs ensures OwnRow(st'.db, st'.procs[x]) && Mentions(st'.procs[x]) <= st'.db.Keys {
      if x != pid {
        assert st'.procs[x] == st.procs[x];
        assert OwnRow(st.db, st.procs[x]);
      }
    }
    forall x, y | x in st'.procs && y in st'.procs && x != y && st'.procs[x].ClaimBuilds?
      ensures st'.procs[x].slice !in Mentions(st'.procs[y])
    {
      if x == pid {
        assert st'.procs[y] == st.procs[y];
      } else {
        assert OwnRow(st.db, st.procs[x]);
      }
    }
  }

  lemma InvEnds(st: State, pid: Pid, a: Action)
    requires Inv(st) && Enabled(st, Step(pid, a)) && pid in st.procs
    requires NextProc(st.db, st.procs[pid], a).None?
    ensures Inv(After(st, Step(pid, a)))
  {
    var p := st.procs[pid];
    var st' := After(st, Step(pid, a));
    WritesMentioned(st.db, p, a);
    forall x | x in st'.procs ensures OwnRow(st'.db, st'.procs[x]) && Mentions(st'.procs[x]) <= st'.db.Keys {
      assert st'.procs[x] == st.procs[x];
      assert OwnRow(st.db, st.procs[x]);
    }
  }

  lemma InvStep(st: State, step: Step)
    requires Inv(st) && Enabled(st, step)
    ensures Inv(After(st, step))
  {
    if step.pid in st.procs {
      match NextProc(st.db, st.procs[step.pid], step.action)
      case Some(q) => InvMoves(st, step.pid, step.action, q);
      case None => InvEnds(st, step.pid, step.action);
    }
  }

  // ------------------------------------------------ rows nobody works on

  // A row in user provisioning that no process may write.
  ghost predicate Stranded(st: State, s: SliceName) {
    && s in st.db && st.db[s].status == UserProvisioning
    && forall p :: p in st.procs ==> s !in Mentions(st.procs[p])
  }

  lemma StrandedStep(st: State, step: Step, s: SliceName)
    requires Stranded(st, s) && Enabled(st, step)
    ensures Stranded(After(st, step), s) && After(st, step).db[s] == st.db[s]
  {
    if step.pid in st.procs {
      WritesMentioned(st.db, st.procs[step.pid], step.action);
      NextMentioned(st, step.pid, step.action);
    }
  }

  // Such a row is never written again: it counts against its user and the total for good.
  lemma {:induction false} StrandedForever(st: State, steps: seq<Step>, k: nat, s: SliceName)
    requires Stranded(st, s) && IsRun(st, steps, k)
    ensures s in Final(st, steps, k).db && Final(st, steps, k).db[s] == st.db[s]
    decreases |steps|
  {
    hide Enabled, After, Stranded;
    if steps != [] {
      StrandedStep(st, steps[0], s);
      StrandedForever(After(st, steps[0]), steps[1..], k, s);
    } else {
      StrandedRow(st, s);
    }
  }

  lemma StrandedRow(st: State, s: SliceName)
    requires Stranded(st, s)
    ensures s in st.db && st.db[s].status == UserProvisioning
  {
  }

  // ------------------------------------------------ tokens of one user

  predicate UserPending(p: Proc, u: User) {
    (p.ClaimAdmitted? || p.ClaimUnserved? || p.ClaimGuarded?) && p.user == u
  }

  predicate UserTargets(p: Proc, u: User) {
    (p.ClaimPicked? || p.ClaimHolds? || p.ClaimBuilds?) && p.user == u
  }

  function UserPendingSet(procs: map<Pid, Proc>, u: User): set<Pid> {
    set p | p in procs && UserPending(procs[p], u)
  }

  function UserHolders(procs: map<Pid, Proc>, u: User): set<Pid> {
    set p | p in procs && UserTargets(procs[p], u)
  }

  function UserTargetSet(procs: map<Pid, Proc>, u: User): set<SliceName> {
    SlicesOf(procs, UserHolders(procs, u))
  }

  function UserTokens(st: State, u: User): nat {
    |HeldBy(st.db, u) + UserTargetSet(st.procs, u)| + |UserPendingSet(st.procs, u)|
  }

  lemma UserTokensBound(st: State, u: User)
    ensures |HeldBy(st.db, u)| <= UserTokens(st, u) <= |HeldBy(st.db, u)| + |Claimers(st.procs, u)|
  {
    var m, t := HeldBy(st.db, u), UserTargetSet(st.procs, u);
    var holders, pending := UserHolders(st.procs, u), UserPendingSet(st.procs, u);
    SubsetSize(m, m + t);
    TargetsAtMostHolders(st.procs, holders);
    assert |m + t| <= |m| + |t|;
    assert holders !! pending;
    SubsetSize(holders + pending, Claimers(st.procs, u));
  }

  lemma UserProcMove(procs: map<Pid, Proc>, pid: Pid, p: Proc, u: User)
    ensures var procs' := procs[pid := p];
            && UserTargetSet(procs', u) <= UserTargetSet(procs, u) + (if UserTargets(p, u) then {p.slice} else {})
            && UserPendingSet(procs', u)
            == UserPendingSet(procs, u) - {pid} + (if UserPending(p, u) then {pid} else {})
  {
  }

  lemma UserProcEnd(procs: map<Pid, Proc>, pid: Pid, u: User)
    ensures UserTargetSet(procs - {pid}, u) <= UserTargetSet(procs, u)
    ensures UserPendingSet(procs - {pid}, u) == UserPendingSet(procs, u) - {pid}
  {
  }

  lemma InUserTargetSet(procs: map<Pid, Proc>, pid: Pid, u: User)
    requires pid in procs && UserTargets(procs[pid], u)
    ensures procs[pid].slice in UserTargetSet(procs, u)
  {
    assert pid in UserHolders(procs, u);
  }

  // A write makes a row count against `u` only if `u`'s command targets or creates it.
  lemma HeldWrites(db: Db, p: Proc, a: Action, u: User)
    requires OwnRow(db, p) && (a.Create? ==> a.slice !in db)
    ensures HeldBy(Execute(db, StatementOf(p, a)), u)
         <= HeldBy(db, u) + (if UserTargets(p, u) then {p.slice} else {})
            + (if a.Create? && UserPending(p, u) then {a.slice} else {})
  {
  }

  // How a step moves the user's tokens, seen from the process that takes it.
  lemma UserNext(db: Db, p: Proc, a: Action, u: User)
    requires !a.Admit?
    ensures match NextProc(db, p, a)
            case None => true
            case Some(q) =>
              && (UserPending(q, u) ==> UserPending(p, u))
              && (UserTargets(q, u) ==>
                    (UserTargets(p, u) && p.slice == q.slice) || (UserPending(p, u) && !UserPending(q, u)))
    ensures a.Create? && UserPending(p, u) ==>
              match NextProc(db, p, a)
              case None => StatementOf(p, a) == Query
              case Some(q) => UserTargets(q, u) && q.slice == a.slice
  {
  }

  lemma UserShrink(st: State, st': State, u: User)
    requires HeldBy(st'.db, u) + UserTargetSet(st'.procs, u) <= HeldBy(st.db, u) + UserTargetSet(st.procs, u)
    requires UserPendingSet(st'.procs, u) <= UserPendingSet(st.procs, u)
    ensures UserTokens(st', u) <= UserTokens(st, u)
  {
    SubsetSize(HeldBy(st'.db, u) + UserTargetSet(st'.procs, u), HeldBy(st.db, u) + UserTargetSet(st.procs, u));
    SubsetSize(UserPendingSet(st'.procs, u), UserPendingSet(st.procs, u));
  }

  // A pending command that finds its slice trades one token for the other.
  lemma UserTrade(st: State, st': State, u: User, pid: Pid, s: SliceName)
    requires HeldBy(st'.db, u) + UserTargetSet(st'.procs, u)
          <= HeldBy(st.db, u) + UserTargetSet(st.procs, u) + {s}
    requires pid in UserPendingSet(st.procs, u)
    requires UserPendingSet(st'.procs, u) == UserPendingSet(st.procs, u) - {pid}
    ensures UserTokens(st', u) <= UserTokens(st, u)
  {
    var before := HeldBy(st.db, u) + UserTargetSet(st.procs, u);
    SubsetSize(HeldBy(st'.db, u) + UserTargetSet(st'.procs, u), before + {s});
    assert |before + {s}| <= |before| + 1;
  }

  lemma UserStepMoves(st: State, st': State, pid: Pid, a: Action, q: Proc, u: User)
    requires pid in st.procs && OwnRow(st.db, st.procs[pid]) && !a.Admit? && (a.Create? ==> a.slice !in st.db)
    requires NextProc(st.db, st.procs[pid], a) == Some(q)
    requires st' == State(Execute(st.db, StatementOf(st.procs[pid], a)), st.procs[pid := q])
    ensures UserTokens(st', u) <= UserTokens(st, u)
  {
    var p := st.procs[pid];
    HeldWrites(st.db, p, a, u);
    UserNext(st.db, p, a, u);
    UserProcMove(st.procs, pid, q, u);
    if UserTargets(p, u) {
      InUserTargetSet(st.procs, pid, u);
      UserShrink(st, st', u);
    } else if UserTargets(q, u) {
      UserTrade(st, st', u, pid, q.slice);
    } else {
      UserShrink(st, st', u);
    }
  }

  lemma UserStepEnds(st: State, st': State, pid: Pid, a: Action, u: User)
    requires pid in st.procs && OwnRow(st.db, st.procs[pid]) && !a.Admit? && (a.Create? ==> a.slice !in st.db)
    requires NextProc(st.db, st.procs[pid], a).None?
    requires st' == State(Execute(st.db, StatementOf(st.procs[pid], a)), st.procs - {pid})
    ensures UserTokens(st', u) <= UserTokens(st, u)
  {
    var p := st.procs[pid];
    HeldWrites(st.db, p, a, u);
    UserNext(st.db, p, a, u);
    UserProcEnd(st.procs, pid, u);
    if UserTargets(p, u) {
      InUserTargetSet(st.procs, pid, u);
    }
    UserShrink(st, st', u);
  }

  // Passing the per-user count is the one step that can add a token of the user.
  lemma UserAdmit(st: State, pid: Pid, u: User)
    requires Enabled(st, Step(pid, Admit)) && pid in st.procs
    ensures var st' := After(st, Step(pid, Admit));
            || UserTokens(st', u) <= UserTokens(st, u)
            || UserTokens(st', u) <= MAX_CLUSTERS_PER_USER - 1 + |Claimers(st'.procs, u)|
  {
    var st' := After(st, Step(pid, Admit));
    var v := st.procs[pid].user;
    if v == u {
      UserTokensBound(st', u);
    } else {
      UserProcMove(st.procs, pid, ClaimAdmitted(v), u);
      UserShrink(st, st', u);
    }
  }

  lemma UserStart(st: State, pid: Pid, p: Proc, u: User)
    requires !UserTargets(p, u) && !UserPending(p, u)
    ensures UserTokens(State(st.db, st.procs[pid := p]), u) <= UserTokens(st, u)
  {
    UserProcMove(st.procs, pid, p, u);
    UserShrink(st, State(st.db, st.procs[pid := p]), u);
  }

  lemma UserStep(st: State, step: Step, u: User)
    requires Inv(st) && Enabled(st, step)
    ensures var st' := After(st, step);
            || UserTokens(st', u) <= UserTokens(st, u)
            || UserTokens(st', u) <= MAX_CLUSTERS_PER_USER - 1 + |Claimers(st'.procs, u)|
  {
    var st', pid, a := After(st, step), step.pid, step.action;
    if pid !in st.procs {
      UserStart(st, pid, Started(a), u);
    } else if a.Admit? {
      UserAdmit(st, pid, u);
    } else {
      assert OwnRow(st.db, st.procs[pid]);
      match NextProc(st.db, st.procs[pid], a)
      case Some(q) => UserStepMoves(st, st', pid, a, q, u);
      case None => UserStepEnds(st, st', pid, a, u);
    }
  }

  // Along the run, never more than `j` of the user's `claim` commands are in flight.
  ghost predicate ClaimersAtMost(st: State, steps: seq<Step>, u: User, j: nat)
    decreases |steps|
  {
    |Claimers(st.procs, u)| <= j
    && (steps != [] ==> ClaimersAtMost(After(st, steps[0]), steps[1..], u, j))
  }

  lemma {:induction false} ClaimersInFlight(st: State, steps: seq<Step>, u: User, k: nat)
    requires IsRun(st, steps, k)
    ensures ClaimersAtMost(st, steps, u, k)
    decreases |steps|
  {
    hide Enabled, After;
    SubsetSize(Claimers(st.procs, u), st.procs.Keys);
    if steps == [] {
    } else {
      ClaimersInFlight(After(st, steps[0]), steps[1..], u, k);
    }
  }

  lemma {:induction false} RunUserTokens(st: State, steps: seq<Step>, k: nat, u: User, j: nat)
    requires Inv(st) && IsRun(st, steps, k) && ClaimersAtMost(st, steps, u, j)
    requires UserTokens(st, u) <= MAX_CLUSTERS_PER_USER - 1 + j
    ensures UserTokens(Final(st, steps, k), u) <= MAX_CLUSTERS_PER_USER - 1 + j
    decreases |steps|
  {
    if steps == [] {
    } else {
      InvStep(st, steps[0]);
      UserStep(st, steps[0], u);
      assert |Claimers(After(st, steps[0]).procs, u)| <= j;
      RunUserTokens(After(st, steps[0]), steps[1..], k, u, j);
    }
  }

  // A user with at most `j` claims in flight at a time, amid any number of other processes,
  // never holds more than MAX_CLUSTERS_PER_USER - 1 + j clusters.
  lemma PerUserBound(db: Db, steps: seq<Step>, k: nat, u: User, j: nat)
    requires IsRun(State(db, map[]), steps, k) && ClaimersAtMost(State(db, map[]), steps, u, j)
    requires |HeldBy(db, u)| <= MAX_CLUSTERS_PER_USER - 1 + j
    ensures |HeldBy(Final(State(db, map[]), steps, k).db, u)| <= MAX_CLUSTERS_PER_USER - 1 + j
  {
    var st := State(db, map[]);
    UserTokensBound(st, u);
    assert Claimers(st.procs, u) == {};
    RunUserTokens(st, steps, k, u, j);
    UserTokensBound(Final(st, steps, k), u);
  }
}
