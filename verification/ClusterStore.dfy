/** The clusters table and its `StateManager`: rows in insertion order, keyed by slice
    name, as the SQL statements read and write them. `View` is what the protocol sees. */
module ClusterStore {
  import opened Common
  import opened OrderedDict
  import opened ProvisionerProtocol

  const PENDING_AGGREGATE := "<PENDING>"

  // The columns the provisioner's decisions depend on.
  datatype Cluster = Cluster(
    status: Status, claimedBy: Option<User>, aggregateName: string, controlNode: Option<string>,
    createdAt: real, evaluationOverride: bool)

  type Table = Dict<SliceName, Cluster>

  datatype StoreError = IntegrityError | ValueError

  // The keyword arguments of an update; None for a column that is not given. A name that is
  // no column an update may set is an invalid field; `others` is given when columns beyond
  // those of a `Cluster` are.
  datatype Patch = Patch(
    status: Option<Status> := None, claimedBy: Option<Option<User>> := None,
    aggregateName: Option<string> := None, controlNode: Option<Option<string>> := None,
    evaluationOverride: Option<bool> := None, invalidField: bool := false, others: bool := false)

  function GetOr<T>(o: Option<T>, default: T): T {
    match o case Some(v) => v case None => default
  }

  function Patched(c: Cluster, p: Patch): Cluster {
    Cluster(GetOr(p.status, c.status), GetOr(p.claimedBy, c.claimedBy), GetOr(p.aggregateName, c.aggregateName),
            GetOr(p.controlNode, c.controlNode), c.createdAt, GetOr(p.evaluationOverride, c.evaluationOverride))
  }

  function RowOf(c: Cluster): Row {
    Row(c.status, c.claimedBy)
  }

  function View(t: Table): Db {
    if t == [] then map[] else View(t[1..])[t[0].0 := RowOf(t[0].1)]
  }

  // The statement an update of one row amounts to.
  function UpdateStatement(db: Db, s: SliceName, p: Patch): Statement
  {
    if s in db && !p.invalidField && (p.status.Some? || p.claimedBy.Some?) then
      SetOwned(s, GetOr(p.status, db[s].status), GetOr(p.claimedBy, db[s].owner))
    else Query
  }

  lemma {:induction false} ViewReads(t: Table, s: SliceName)
    ensures s in View(t) <==> Has(t, s)
    ensures Has(t, s) ==> View(t)[s] == RowOf(Get(t, s))
  {
    if t == [] {
    } else {
      ViewReads(t[1..], s);
    }
  }

  lemma {:induction false} ViewPut(t: Table, s: SliceName, c: Cluster)
    requires Distinct(t)
    ensures View(Put(t, s, c)) == View(t)[s := RowOf(c)]
  {
    if t == [] {
    } else {
      if t[0].0 == s {
        assert Put(t, s, c)[1..] == t[1..];
      } else {
        ViewPut(t[1..], s, c);
        assert Put(t, s, c)[1..] == Put(t[1..], s, c);
      }
    }
  }

  lemma {:induction false} ViewDelete(t: Table, s: SliceName)
    requires Distinct(t)
    ensures View(Delete(t, s)) == View(t) - {s}
  {
    if t == [] {
    } else {
      ViewReads(t[1..], t[0].0);
      if t[0].0 != s {
        ViewDelete(t[1..], s);
        assert Delete(t, s)[1..] == Delete(t[1..], s);
      }
    }
  }

  // `SELECT ... WHERE status = ?`, in insertion order.
  function Select(t: Table, status: Status): Table {
    if t == [] then []
    else (if t[0].1.status == status then [t[0]] else []) + Select(t[1..], status)
  }

  function Names(t: Table): seq<SliceName> {
    if t == [] then [] else [t[0].0] + Names(t[1..])
  }

  // `SELECT COUNT(*) WHERE status IN ...`.
  function CountIn(t: Table, statuses: set<Status>): nat {
    if t == [] then 0 else (if t[0].1.status in statuses then 1 else 0) + CountIn(t[1..], statuses)
  }

  // `SELECT COUNT(*) WHERE claimed_by_user_id = ? AND status IN ...`.
  function CountOwned(t: Table, u: User, statuses: set<Status>): nat {
    if t == [] then 0
    else (if t[0].1.claimedBy == Some(u) && t[0].1.status in statuses then 1 else 0) + CountOwned(t[1..], u, statuses)
  }

  function RowsIn(db: Db, statuses: set<Status>): set<SliceName> {
    set s | s in db && db[s].status in statuses
  }

  lemma {:induction false} CountInIs(t: Table, statuses: set<Status>)
    requires Distinct(t)
    ensures CountIn(t, statuses) == |RowsIn(View(t), statuses)|
  {
    if t != [] {
      var s, rest := t[0].0, t[1..];
      CountInIs(rest, statuses);
      ViewReads(rest, s);
      assert RowsIn(View(t), statuses)
          == RowsIn(View(rest), statuses) + (if t[0].1.status in statuses then {s} else {});
    } else {
      assert RowsIn(View(t), statuses) == {};
    }
  }

  lemma {:induction false} CountOwnedIs(t: Table, u: User)
    requires Distinct(t)
    ensures CountOwned(t, u, {Claimed, UserProvisioning}) == |HeldBy(View(t), u)|
  {
    if t != [] {
      var s, c, rest := t[0].0, t[0].1, t[1..];
      CountOwnedIs(rest, u);
      ViewReads(rest, s);
      assert HeldBy(View(t), u)
          == HeldBy(View(rest), u)
             + (if c.claimedBy == Some(u) && c.status in {Claimed, UserProvisioning} then {s} else {});
    } else {
      assert HeldBy(View(t), u) == {};
    }
  }

  lemma {:induction false} NamesIndex(t: Table)
    ensures |Names(t)| == |t|
    ensures forall i :: 0 <= i < |t| ==> Names(t)[i] == t[i].0
  {
    if t == [] {
    } else {
      NamesIndex(t[1..]);
    }
  }

  lemma {:induction false} SelectReads(t: Table, status: Status, s: SliceName)
    requires Distinct(t)
    ensures Has(Select(t, status), s) <==> Has(t, s) && Get(t, s).status == status
    ensures Has(Select(t, status), s) ==> Get(Select(t, status), s) == Get(t, s)
  {
    if t == [] {
    } else {
      SelectReads(t[1..], status, s);
      var first := if t[0].1.status == status then [t[0]] else [];
      assert first == [t[0]] ==> Select(t, status)[1..] == Select(t[1..], status);
      assert first == [] ==> Select(t, status) == Select(t[1..], status);
    }
  }

  // Selecting goes through the table row by row.
  lemma {:induction false} SelectConcat(t: Table, u: Table, status: Status)
    ensures Select(t + u, status) == Select(t, status) + Select(u, status)
  {
    if t == [] {
      assert t + u == u;
    } else {
      SelectConcat(t[1..], u, status);
      assert (t + u)[0] == t[0] && (t + u)[1..] == t[1..] + u;
      var first := if t[0].1.status == status then [t[0]] else [];
      Associates(first, Select(t[1..], status), Select(u, status));
    }
  }

  lemma Associates<T>(a: seq<T>, b: seq<T>, c: seq<T>)
    ensures a + b + c == a + (b + c)
  {
  }

  // The first selected row is the first in the table with the status.
  lemma {:induction false} SelectFirst(t: Table, status: Status) returns (i: nat)
    requires Select(t, status) != []
    ensures i < |t| && t[i] == Select(t, status)[0] && t[i].1.status == status
    ensures forall k :: 0 <= k < i ==> t[k].1.status != status
  {
    if t[0].1.status == status {
      i := 0;
    } else {
      var j := SelectFirst(t[1..], status);
      i := j + 1;
      assert forall k :: 1 <= k < i ==> t[k] == t[1..][k - 1];
    }
  }

  lemma {:induction false} SelectDistinct(t: Table, status: Status)
    requires Distinct(t)
    ensures Distinct(Select(t, status))
  {
    if t == [] {
    } else {
      SelectDistinct(t[1..], status);
      SelectReads(t[1..], status, t[0].0);
      if t[0].1.status == status {
        assert Select(t, status)[1..] == Select(t[1..], status);
      } else {
        assert Select(t, status) == Select(t[1..], status);
      }
    }
  }

  lemma {:induction false} NamesHas(t: Table, s: SliceName)
    ensures s in Names(t) <==> Has(t, s)
  {
    if t == [] {
    } else {
      NamesHas(t[1..], s);
    }
  }

  // The names of the selected rows are exactly the rows with the status.
  lemma SelectLists(t: Table, status: Status)
    requires Distinct(t)
    ensures Lists(View(t), status, Names(Select(t, status)))
  {
    forall s ensures s in Names(Select(t, status)) <==> s in WithStatus(View(t), status) {
      NamesHas(Select(t, status), s);
      SelectReads(t, status, s);
      ViewReads(t, s);
    }
  }

  // ------------------------------------------------ what a write leaves alone

  // Every row of `t` is in `t'`, in its place, with no column but status and owner changed.
  ghost predicate SameColumns(t: Table, t': Table) {
    Names(t) <= Names(t') && forall s :: Has(t, s) ==> SameColumnsAt(t, t', s)
  }

  ghost predicate SameColumnsAt(t: Table, t': Table, s: SliceName)
    requires Has(t, s)
  {
    Has(t', s) && Get(t', s) == Get(t, s).(status := Get(t', s).status, claimedBy := Get(t', s).claimedBy)
  }

  lemma {:induction false} PutNames(t: Table, s: SliceName, c: Cluster)
    ensures Names(Put(t, s, c)) == if Has(t, s) then Names(t) else Names(t) + [s]
  {
    if t == [] {
    } else {
      PutNames(t[1..], s, c);
      assert t[0].0 == s ==> Put(t, s, c)[1..] == t[1..];
      assert t[0].0 != s ==> Put(t, s, c)[1..] == Put(t[1..], s, c);
    }
  }

  // A write to a row's status and owner, or to a row `t0` does not have.
  lemma PutKeepsColumns(t0: Table, t: Table, s: SliceName, c: Cluster)
    requires SameColumns(t0, t)
    requires Has(t0, s) ==> Has(t, s) && c == Get(t, s).(status := c.status, claimedBy := c.claimedBy)
    ensures SameColumns(t0, Put(t, s, c))
  {
    hide OrderedDict.Put, OrderedDict.Has, OrderedDict.Get, Names;
    PutNames(t, s, c);
    forall x | Has(t0, x) ensures SameColumnsAt(t0, Put(t, s, c), x) {
      assert SameColumnsAt(t0, t, x);
      PutReads(t, s, c, x);
    }
  }

  lemma SameColumnsChain(t: Table, t1: Table, t2: Table)
    requires SameColumns(t, t1) && SameColumns(t1, t2)
    ensures SameColumns(t, t2)
  {
    hide OrderedDict.Has, OrderedDict.Get, Names;
    forall x | Has(t, x) ensures SameColumnsAt(t, t2, x) {
      assert SameColumnsAt(t, t1, x) && SameColumnsAt(t1, t2, x);
    }
  }

  // Moving a row from one other status to another leaves a SELECT as it is.
  lemma {:induction false} SelectElsewhere(t: Table, s: SliceName, c: Cluster, status: Status)
    requires Has(t, s) && Get(t, s).status != status && c.status != status
    ensures Select(Put(t, s, c), status) == Select(t, status)
  {
    if t[0].0 == s {
      assert Put(t, s, c)[1..] == t[1..];
    } else {
      SelectElsewhere(t[1..], s, c, status);
      assert Put(t, s, c)[1..] == Put(t[1..], s, c);
    }
  }

  class StateManager {
    var clusters: Table

    ghost predicate Valid()
      reads this
    {
      Distinct(clusters)
    }

    ghost function Db(): Db
      reads this
    {
      View(clusters)
    }

    constructor ()
      ensures Valid() && Db() == map[]
    {
      clusters := [];
    }

    method CreateClusterRecord(slice: SliceName, aggregateName: string, status: Status, owner: Option<User>,
                               evaluationOverride: bool, now: real)
      returns (r: Result<SliceName, StoreError>)
      requires Valid()
      modifies this
      ensures Valid()
      ensures r == if slice in old(Db()) then Err(IntegrityError) else Ok(slice)
      ensures r.Err? ==> clusters == old(clusters)
      ensures r.Ok? ==> clusters == old(clusters)
                        + [(slice, Cluster(status, owner, aggregateName, None, now, evaluationOverride))]
      ensures r.Ok? ==> Db() == Execute(old(Db()), Insert(slice, status, owner))
    {
      ViewReads(clusters, slice);
      if Has(clusters, slice) {
        return Err(IntegrityError);
      }
      var row := Cluster(status, owner, aggregateName, None, now, evaluationOverride);
      PutKeeps(clusters, slice, row);
      ViewPut(clusters, slice, row);
      clusters := Put(clusters, slice, row);
      return Ok(slice);
    }

    method UpdateClusterRecord(slice: SliceName, patch: Patch) returns (r: Result<Option<bool>, StoreError>)
      requires Valid()
      modifies this
      ensures Valid()
      ensures r == if patch == Patch() then Err(ValueError) else if patch.invalidField then Ok(Some(false)) else Ok(None)
      ensures clusters == if Has(old(clusters), slice) && !patch.invalidField
                          then Put(old(clusters), slice, Patched(Get(old(clusters), slice), patch))
                          else old(clusters)
      ensures Db() == Execute(old(Db()), UpdateStatement(old(Db()), slice, patch))
    {
      ViewReads(clusters, slice);
      if Has(clusters, slice) {
        var row := Patched(Get(clusters, slice), patch);
        PutKeeps(clusters, slice, row);
        ViewPut(clusters, slice, row);
        if patch == Patch() {
          PutSame(clusters, slice);
        }
      }
      if patch == Patch() {
        return Err(ValueError);
      }
      if patch.invalidField {
        return Ok(Some(false));
      }
      if Has(clusters, slice) {
        clusters := Put(clusters, slice, Patched(Get(clusters, slice), patch));
      }
      return Ok(None);
    }

    method DeleteClusterRecord(slice: SliceName, softDelete: bool := true)
      requires Valid()
      modifies this
      ensures Valid()
      ensures clusters == if !softDelete then Delete(old(clusters), slice)
                          else if Has(old(clusters), slice)
                          then Put(old(clusters), slice, Get(old(clusters), slice).(status := Terminated))
                          else old(clusters)
      ensures Db() == if softDelete then Execute(old(Db()), SetStatus(slice, Terminated)) else old(Db()) - {slice}
    {
      ViewReads(clusters, slice);
      DeleteKeeps(clusters, slice);
      ViewDelete(clusters, slice);
      if !softDelete {
        clusters := Delete(clusters, slice);
      } else if Has(clusters, slice) {
        var row := Get(clusters, slice).(status := Terminated);
        PutKeeps(clusters, slice, row);
        ViewPut(clusters, slice, row);
        clusters := Put(clusters, slice, row);
      }
    }

    method GetClustersByStatus(status: Status) returns (rows: Table)
      requires Valid()
      ensures rows == Select(clusters, status)
      ensures Distinct(rows) && Lists(Db(), status, Names(rows))
    {
      SelectLists(clusters, status);
      SelectDistinct(clusters, status);
      return Select(clusters, status);
    }

    method CountTotalManagedClusters() returns (n: nat)
      requires Valid()
      ensures n == |Managed(Db())|
      ensures n == |set s | s in Db() && Db()[s].status !in {Terminating, Error, Terminated}|
    {
      var statuses := {AutoProvisioning, UserProvisioning, UnclaimedReady, Claimed};
      CountInIs(clusters, statuses);
      assert RowsIn(Db(), statuses) == Managed(Db());
      assert RowsIn(Db(), statuses) == set s | s in Db() && Db()[s].status !in {Terminating, Error, Terminated} by {
        forall s | s in Db() ensures Db()[s].status in statuses <==> Db()[s].status !in {Terminating, Error, Terminated} {
          SevenStatuses(Db()[s].status);
        }
      }
      return CountIn(clusters, statuses);
    }

    method CountTotalAvailableClusters() returns (n: nat)
      requires Valid()
      ensures n == |Available(Db())|
      ensures n == |set s | s in Db() && (Db()[s].status == AutoProvisioning || Db()[s].status == UnclaimedReady)|
    {
      var statuses := {AutoProvisioning, UnclaimedReady};
      CountInIs(clusters, statuses);
      assert RowsIn(Db(), statuses) == Available(Db());
      assert RowsIn(Db(), statuses)
          == set s | s in Db() && (Db()[s].status == AutoProvisioning || Db()[s].status == UnclaimedReady);
      return CountIn(clusters, statuses);
    }

    method CountUserClaimedClusters(u: User) returns (n: nat)
      requires Valid()
      ensures n == |HeldBy(Db(), u)|
    {
      CountOwnedIs(clusters, u);
      return CountOwned(clusters, u, {Claimed, UserProvisioning});
    }
  }

  lemma SevenStatuses(s: Status)
    ensures s in {AutoProvisioning, UserProvisioning, UnclaimedReady, Claimed} <==> s !in {Terminating, Error, Terminated}
  {
    match s
    case AutoProvisioning =>
    case _ =>
  }

  lemma {:induction false} PutSame(t: Table, s: SliceName)
    requires Has(t, s)
    ensures Put(t, s, Get(t, s)) == t
  {
    if t[0].0 != s {
      PutSame(t[1..], s);
    }
  }
}
