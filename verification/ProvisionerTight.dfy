/** The bounds are reached. From an empty table, and with never more than `k` processes in
    flight, MAX_TOTAL_CLUSTERS - 1 + k clusters can be managed; and with never more than `j`
    claims of one user in flight, that user can hold MAX_CLUSTERS_PER_USER - 1 + j. */
module ProvisionerTight {
  import opened Common
  import opened ProvisionerProtocol
  import opened ProvisionerPerUser

  // Whom the i-th command serves.
  type Customers = nat -> User

  // Slice names, pairwise different.
  function Name(i: nat): string {
    seq(i, _ => 'x')
  }

  lemma NamesDiffer(i: nat, j: nat)
    requires i != j
    ensures Name(i) != Name(j)
  {
    assert |Name(i)| == i && |Name(j)| == j;
  }

  // The first n commands have created one cluster each.
  function Rows(n: nat, who: Customers): Db {
    if n == 0 then map[] else Rows(n - 1, who)[Name(n - 1) := Row(UserProvisioning, Some(who(n - 1)))]
  }

  // Commands a..b have passed the total count and are about to create their rows.
  function Crowd(a: nat, b: nat, who: Customers): map<Pid, Proc>
    decreases b - a
  {
    if a >= b then map[] else Crowd(a + 1, b, who)[Cli(a) := ClaimGuarded(who(a))]
  }

  lemma {:induction false} RowsAre(n: nat, who: Customers)
    ensures forall s :: s in Rows(n, who) ==>
      |s| < n && s == Name(|s|) && Rows(n, who)[s] == Row(UserProvisioning, Some(who(|s|)))
    ensures |Rows(n, who).Keys| == n
    ensures Name(n) !in Rows(n, who)
  {
    assert |Name(n)| == n;
    if n == 0 {
    } else {
      RowsAre(n - 1, who);
      assert |Name(n - 1)| == n - 1;
      assert Rows(n, who).Keys == Rows(n - 1, who).Keys + {Name(n - 1)};
    }
  }

  lemma RowsCount(n: nat, who: Customers)
    ensures Managed(Rows(n, who)) == Rows(n, who).Keys && |Managed(Rows(n, who))| == n
    ensures WithStatus(Rows(n, who), UnclaimedReady) == {}
    ensures Name(n) !in Rows(n, who)
  {
    RowsAre(n, who);
  }

  // Any later customer is below the limit.
  ghost predicate MayEnter(n: nat, who: Customers) {
    forall b: nat :: b >= n ==> |HeldBy(Rows(n, who), who(b))| < MAX_CLUSTERS_PER_USER
  }

  lemma {:induction false} CrowdIs(a: nat, b: nat, who: Customers)
    requires a <= b
    ensures |Crowd(a, b, who)| == b - a
    ensures forall p :: p in Crowd(a, b, who) ==> p.Cli? && a <= p.n < b
    ensures Crowd(a, b, who)[Cli(b) := ClaimGuarded(who(b))] == Crowd(a, b + 1, who)
    decreases b - a
  {
    if a < b {
      CrowdIs(a + 1, b, who);
    } else {
      assert Crowd(a + 1, b + 1, who) == map[];
    }
  }

  function Enter(b: nat, who: Customers): seq<Step> {
    [Step(Cli(b), StartClaim(who(b))), Step(Cli(b), Admit), Step(Cli(b), FindNone), Step(Cli(b), Guard)]
  }

  // The steps of a new command up to its row, in a table without ready rows.
  lemma EnterSteps(db: Db, procs: map<Pid, Proc>, pid: Pid, u: User)
    requires pid !in procs && pid.Cli? && |HeldBy(db, u)| < MAX_CLUSTERS_PER_USER
    requires WithStatus(db, UnclaimedReady) == {} && |Managed(db)| < MAX_TOTAL_CLUSTERS
    ensures Takes(State(db, procs), Step(pid, StartClaim(u)), State(db, procs[pid := ClaimStart(u)]))
    ensures Takes(State(db, procs[pid := ClaimStart(u)]), Step(pid, Admit), State(db, procs[pid := ClaimAdmitted(u)]))
    ensures Takes(State(db, procs[pid := ClaimAdmitted(u)]), Step(pid, FindNone), State(db, procs[pid := ClaimUnserved(u)]))
    ensures Takes(State(db, procs[pid := ClaimUnserved(u)]), Step(pid, Guard), State(db, procs[pid := ClaimGuarded(u)]))
  {
    Overwrite(procs, pid, ClaimStart(u), ClaimAdmitted(u));
    Overwrite(procs, pid, ClaimAdmitted(u), ClaimUnserved(u));
    Overwrite(procs, pid, ClaimUnserved(u), ClaimGuarded(u));
  }

  lemma Overwrite(procs: map<Pid, Proc>, pid: Pid, p: Proc, q: Proc)
    ensures procs[pid := p][pid := q] == procs[pid := q]
  {
  }

  // One more command passes the total count while n < MAX_TOTAL_CLUSTERS rows exist.
  lemma EnterOne(n: nat, b: nat, who: Customers, k: nat)
    requires n <= b && n < MAX_TOTAL_CLUSTERS && b + 1 - n <= k && MayEnter(n, who)
    ensures IsRun(State(Rows(n, who), Crowd(n, b, who)), Enter(b, who), k)
    ensures Final(State(Rows(n, who), Crowd(n, b, who)), Enter(b, who), k)
         == State(Rows(n, who), Crowd(n, b + 1, who))
  {
    hide Enabled, After, Managed, HeldBy, WithStatus;
    RowsCount(n, who);
    CrowdIs(n, b, who);
    var db, procs, pid, u := Rows(n, who), Crowd(n, b, who), Cli(b), who(b);
    assert pid !in procs;
    EnterSteps(db, procs, pid, u);
    OneStep(State(db, procs[pid := ClaimUnserved(u)]), Step(pid, Guard), [], k);
    OneStep(State(db, procs[pid := ClaimAdmitted(u)]), Step(pid, FindNone), [Step(pid, Guard)], k);
    OneStep(State(db, procs[pid := ClaimStart(u)]), Step(pid, Admit), [Step(pid, FindNone), Step(pid, Guard)], k);
    OneStep(State(db, procs), Step(pid, StartClaim(u)), [Step(pid, Admit), Step(pid, FindNone), Step(pid, Guard)], k);
  }

  // A command that passed the count creates its row and returns.
  lemma BuildSteps(db: Db, procs: map<Pid, Proc>, pid: Pid, u: User, s: SliceName)
    requires pid in procs && procs[pid] == ClaimGuarded(u) && s !in db
    ensures var db' := db[s := Row(UserProvisioning, Some(u))];
            var st1 := State(db', procs[pid := ClaimBuilds(u, s)]);
            && Takes(State(db, procs), Step(pid, Create(s)), st1)
            && Takes(st1, Step(pid, Stop), State(db', procs - {pid}))
  {
    assert procs[pid := ClaimBuilds(u, s)] - {pid} == procs - {pid};
  }

  // The oldest command of the crowd does so.
  lemma BuildOne(n: nat, b: nat, who: Customers, k: nat)
    requires n < b && b - n <= k
    ensures var steps := [Step(Cli(n), Create(Name(n))), Step(Cli(n), Stop)];
            && IsRun(State(Rows(n, who), Crowd(n, b, who)), steps, k)
            && Final(State(Rows(n, who), Crowd(n, b, who)), steps, k)
            == State(Rows(n + 1, who), Crowd(n + 1, b, who))
  {
    hide Enabled, After, IsRun, Final, Name, Managed, WithStatus;
    CrowdIs(n + 1, b, who);
    assert Cli(n) !in Crowd(n + 1, b, who);
    assert |Crowd(n, b, who)| == b - n by {
      CrowdIs(n, b, who);
    }
    RowsCount(n, who);
    BuildRun(Rows(n, who), Crowd(n, b, who), Cli(n), who(n), Name(n), k);
    assert Crowd(n, b, who) - {Cli(n)} == Crowd(n + 1, b, who);
  }

  lemma BuildRun(db: Db, procs: map<Pid, Proc>, pid: Pid, u: User, s: SliceName, k: nat)
    requires pid in procs && procs[pid] == ClaimGuarded(u) && s !in db && |procs| <= k
    ensures var steps := [Step(pid, Create(s)), Step(pid, Stop)];
            && IsRun(State(db, procs), steps, k)
            && Final(State(db, procs), steps, k)
            == State(db[s := Row(UserProvisioning, Some(u))], procs - {pid})
  {
    hide Enabled, After;
    BuildSteps(db, procs, pid, u, s);
    var st1 := State(db[s := Row(UserProvisioning, Some(u))], procs[pid := ClaimBuilds(u, s)]);
    assert procs == (procs - {pid})[pid := ClaimGuarded(u)];
    assert |st1.procs| == |procs|;
    OneStep(st1, Step(pid, Stop), [], k);
    OneStep(State(db, procs), Step(pid, Create(s)), [Step(pid, Stop)], k);
  }

  lemma {:induction false} EnterAll(n: nat, b: nat, m: nat, who: Customers, k: nat) returns (steps: seq<Step>)
    requires n <= b && n < MAX_TOTAL_CLUSTERS && b + m - n <= k && MayEnter(n, who)
    ensures IsRun(State(Rows(n, who), Crowd(n, b, who)), steps, k)
    ensures Final(State(Rows(n, who), Crowd(n, b, who)), steps, k) == State(Rows(n, who), Crowd(n, b + m, who))
    decreases m
  {
    hide Enabled, After, MayEnter, Enter, Rows;
    if m == 0 {
      steps := [];
      CrowdIs(n, b, who);
    } else {
      EnterOne(n, b, who, k);
      var rest := EnterAll(n, b + 1, m - 1, who, k);
      steps := Enter(b, who) + rest;
      RunConcat(State(Rows(n, who), Crowd(n, b, who)), Enter(b, who), rest, k);
    }
  }

  lemma {:induction false} BuildAll(n: nat, m: nat, who: Customers, k: nat) returns (steps: seq<Step>)
    requires m <= k
    ensures IsRun(State(Rows(n, who), Crowd(n, n + m, who)), steps, k)
    ensures Final(State(Rows(n, who), Crowd(n, n + m, who)), steps, k)
         == State(Rows(n + m, who), Crowd(n + m, n + m, who))
    decreases m
  {
    hide Enabled, After, Name, Rows;
    if m == 0 {
      steps := [];
      CrowdIs(n, n, who);
    } else {
      BuildOne(n, n + m, who, k);
      var rest := BuildAll(n + 1, m - 1, who, k);
      var first := [Step(Cli(n), Create(Name(n))), Step(Cli(n), Stop)];
      steps := first + rest;
      RunConcat(State(Rows(n, who), Crowd(n, n + m, who)), first, rest, k);
    }
  }

  // A whole crowd enters on the same n rows, then every command of it creates its own.
  lemma Rush(n: nat, m: nat, who: Customers, k: nat) returns (steps: seq<Step>)
    requires n < MAX_TOTAL_CLUSTERS && m <= k && MayEnter(n, who)
    ensures IsRun(State(Rows(n, who), map[]), steps, k)
    ensures Final(State(Rows(n, who), map[]), steps, k) == State(Rows(n + m, who), map[])
  {
    hide Enabled, After, Rows, MayEnter, IsRun, Final;
    assert Crowd(n, n, who) == map[] && Crowd(n + m, n + m, who) == map[];
    var enter := EnterAll(n, n, m, who, k);
    var build := BuildAll(n, m, who, k);
    RunConcat(State(Rows(n, who), map[]), enter, build, k);
    steps := enter + build;
  }

  // Commands one at a time fill the table.
  lemma {:induction false} Fill(n: nat, who: Customers, k: nat) returns (steps: seq<Step>)
    requires n < MAX_TOTAL_CLUSTERS && 1 <= k
    requires forall m: nat :: m < n ==> MayEnter(m, who)
    ensures IsRun(State(map[], map[]), steps, k)
    ensures Final(State(map[], map[]), steps, k) == State(Rows(n, who), map[])
    decreases n
  {
    hide Enabled, After, MayEnter;
    if n == 0 {
      steps := [];
    } else {
      var before := Fill(n - 1, who, k);
      var last := Rush(n - 1, 1, who, k);
      RunConcat(State(map[], map[]), before, last, k);
      steps := before + last;
    }
  }

  // First one at a time up to n rows, then k at once.
  lemma FillThenRush(n: nat, who: Customers, k: nat) returns (steps: seq<Step>)
    requires n < MAX_TOTAL_CLUSTERS && 1 <= k
    requires forall m: nat :: m <= n ==> MayEnter(m, who)
    ensures IsRun(State(map[], map[]), steps, k)
    ensures Final(State(map[], map[]), steps, k) == State(Rows(n + k, who), map[])
  {
    hide Enabled, After, MayEnter, Rows, IsRun, Final;
    var before := Fill(n, who, k);
    var rush := Rush(n, k, who, k);
    RunConcat(State(map[], map[]), before, rush, k);
    steps := before + rush;
  }

  // Every command serves a customer of its own.
  lemma StrangersMayEnter(n: nat)
    ensures MayEnter(n, Name)
  {
    RowsAre(n, Name);
    forall b: nat | b >= n ensures HeldBy(Rows(n, Name), Name(b)) == {} {
      forall s | s in Rows(n, Name) ensures Name(|s|) != Name(b) {
        NamesDiffer(|s|, b);
      }
    }
  }

  lemma BoundIsReached(k: nat)
    requires 1 <= k
    ensures exists steps :: IsRun(State(map[], map[]), steps, k) && ProvisionersAtMost(State(map[], map[]), steps, k)
                         && |Managed(Final(State(map[], map[]), steps, k).db)| == MAX_TOTAL_CLUSTERS - 1 + k
  {
    hide Enabled, After, MayEnter, IsRun, Final, ProvisionersAtMost, Managed, WithStatus, Rows;
    forall m: nat ensures MayEnter(m, Name) {
      StrangersMayEnter(m);
    }
    var steps := FillThenRush(MAX_TOTAL_CLUSTERS - 1, Name, k);
    ProvisionersInFlight(State(map[], map[]), steps, k);
    RowsCount(MAX_TOTAL_CLUSTERS - 1 + k, Name);
    assert IsRun(State(map[], map[]), steps, k);
  }

  // All commands serve one user.
  lemma AllHeld(n: nat, u: User)
    ensures |HeldBy(Rows(n, _ => u), u)| == n
  {
    RowsAre(n, _ => u);
    assert HeldBy(Rows(n, _ => u), u) == Rows(n, _ => u).Keys;
  }

  // The per-user bound is reached too, for every user and every number of their claims.
  lemma PerUserBoundIsReached(u: User, j: nat)
    requires 1 <= j
    ensures exists steps :: IsRun(State(map[], map[]), steps, j) && ClaimersAtMost(State(map[], map[]), steps, u, j)
                         && |HeldBy(Final(State(map[], map[]), steps, j).db, u)| == MAX_CLUSTERS_PER_USER - 1 + j
  {
    hide Enabled, After, IsRun, Final, ClaimersAtMost, HeldBy, Rows;
    var who := _ => u;
    forall m: nat | m < MAX_CLUSTERS_PER_USER ensures MayEnter(m, who) {
      AllHeld(m, u);
    }
    var steps := FillThenRush(MAX_CLUSTERS_PER_USER - 1, who, j);
    ClaimersInFlight(State(map[], map[]), steps, u, j);
    AllHeld(MAX_CLUSTERS_PER_USER - 1 + j, u);
    assert IsRun(State(map[], map[]), steps, j);
  }
}
