/** One pass as the source runs it, and what it leaves when nothing else writes. */
module ManifestStore {
  import opened Calls
  import opened ManifestSync
  import opened Wrappers

  // ---- an undisturbed pass -------------------------------------------------------------

  /** The table after the first `k` upserts. */
  ghost function AfterUpserts(rows: Table, m: Manifest, groups: set<int>, k: nat): Table
    requires k <= |m.releases|
  {
    if k == 0 then rows
    else
      var before, r := AfterUpserts(rows, m, groups, k - 1), m.releases[k - 1];
      if MayUpsert(before, r.pcr0, m.serial) then before[r.pcr0 := Upserted(m, groups, r)] else before
  }

  ghost function AfterDeletes(rows: Table, serial: int, deletes: set<nat>): Table {
    map p | p in rows && !(p in deletes && MayDelete(rows, p, serial)) :: rows[p]
  }

  ghost function Pass(rows: Table, m: Manifest, groups: set<int>): Table {
    if Rejects(rows, m) then rows
    else AfterDeletes(AfterUpserts(rows, m, groups, |m.releases|), m.serial, Deletes(rows, m))
  }

  /** A process of the state machine on its own, every call answered. */
  ghost function RunAlone(rows: Table, q: Proc): Table
    decreases Stage(q), Left(q)
  {
    match q
    case Finished => rows
    case Delete(_, deletes) =>
      if deletes == {} then rows
      else
        var pick :| pick in deletes;
        var step := Act(rows, q, Answered, pick);
        RunAlone(step.rows, step.next)
    case _ =>
      var step := Act(rows, q, Answered, 0);
      RunAlone(step.rows, step.next)
  }

  ghost function Stage(q: Proc): nat {
    match q
    case Finished => 0
    case Delete(_, _) => 1
    case Upsert(_, _, _, _) => 2
    case Scan(_, _) => 3
  }

  ghost function Left(q: Proc): nat {
    match q
    case Delete(_, deletes) => |deletes|
    case Upsert(m, _, k, _) => if k < |m.releases| then |m.releases| - k else 0
    case _ => 0
  }

  lemma {:induction false} DeletesAlone(rows: Table, serial: int, deletes: set<nat>)
    ensures RunAlone(rows, Delete(serial, deletes)) == AfterDeletes(rows, serial, deletes)
    decreases |deletes|
  {
    if deletes == {} {
      assert AfterDeletes(rows, serial, deletes) == rows;
    } else {
      var pick :| pick in deletes && RunAlone(rows, Delete(serial, deletes)) ==
        RunAlone(Act(rows, Delete(serial, deletes), Answered, pick).rows, Delete(serial, deletes - {pick}));
      var rows' := Act(rows, Delete(serial, deletes), Answered, pick).rows;
      DeletesAlone(rows', serial, deletes - {pick});
      assert AfterDeletes(rows', serial, deletes - {pick}) == AfterDeletes(rows, serial, deletes);
    }
  }

  lemma {:induction false} UpsertsAlone(rows: Table, m: Manifest, groups: set<int>, k: nat, deletes: set<nat>)
    requires k <= |m.releases|
    ensures RunAlone(AfterUpserts(rows, m, groups, k), Upsert(m, groups, k, deletes)) ==
            AfterDeletes(AfterUpserts(rows, m, groups, |m.releases|), m.serial, deletes)
    decreases |m.releases| - k
  {
    if k == |m.releases| {
      DeletesAlone(AfterUpserts(rows, m, groups, k), m.serial, deletes);
    } else {
      UpsertsAlone(rows, m, groups, k + 1, deletes);
    }
  }

  /** A pass of the state machine that nothing disturbs does what `Pass` says. */
  lemma PassAlone(rows: Table, m: Manifest, groups: set<int>)
    ensures RunAlone(rows, Scan(m, groups)) == Pass(rows, m, groups)
  {
    if !Rejects(rows, m) {
      UpsertsAlone(rows, m, groups, 0, Deletes(rows, m));
      assert Act(rows, Scan(m, groups), Answered, 0) == Step(rows, Upsert(m, groups, 0, Deletes(rows, m)));
    } else {
      assert Act(rows, Scan(m, groups), Answered, 0) == Step(rows, Finished);
    }
  }

  // ---- what it leaves -------------------------------------------------------------------

  /** A release as the manifest lists it: available exactly if its group exists, stamped with the manifest's serial and bytes. */
  ghost predicate ListedRow(row: Row, r: Release, m: Manifest, groups: set<int>) {
    && row.number == r.number && row.status == r.status && row.sealKey == r.sealKey && row.endsAt == r.endsAt
    && (row.available <==> r.number in groups) && row.serial == Some(m.serial) && row.sha == Some(m.sha)
  }

  /** The synced rows are exactly the manifest's releases, with its attributes; rows it does not list and no sync wrote are as before. */
  ghost predicate Synced(before: Table, rows: Table, m: Manifest, groups: set<int>) {
    && (forall k :: 0 <= k < |m.releases| ==>
          m.releases[k].pcr0 in rows && ListedRow(rows[m.releases[k].pcr0], m.releases[k], m, groups))
    && (forall p :: p in rows && rows[p].serial.Some? ==> Lists(m, p))
    && (forall p :: p in before && before[p].serial.None? && !Lists(m, p) ==> p in rows && rows[p] == before[p])
    && (forall p :: p in rows && !Lists(m, p) ==> p in before)
  }

  /** One of the first `k` releases. */
  ghost predicate ListsBefore(m: Manifest, k: nat, p: nat) { exists j :: 0 <= j < k && j < |m.releases| && m.releases[j].pcr0 == p }

  /** After `k` upserts: the first `k` releases as the manifest has them, every other row as before. */
  ghost predicate UpsertedTo(rows: Table, rows': Table, m: Manifest, groups: set<int>, k: nat)
    requires k <= |m.releases|
  {
    && (forall j :: 0 <= j < k ==> m.releases[j].pcr0 in rows' && rows'[m.releases[j].pcr0] == Upserted(m, groups, m.releases[j]))
    && (forall p :: !ListsBefore(m, k, p) ==> (p in rows' <==> p in rows) && (p in rows ==> rows'[p] == rows[p]))
  }

  lemma ListsOneMore(m: Manifest, k: nat, p: nat)
    requires k < |m.releases|
    ensures ListsBefore(m, k + 1, p) <==> ListsBefore(m, k, p) || p == m.releases[k].pcr0
  {
  }

  lemma UpsertOne(rows: Table, before: Table, m: Manifest, groups: set<int>, k: nat)
    requires k < |m.releases| && WellListed(m.releases) && UpsertedTo(rows, before, m, groups, k)
    ensures UpsertedTo(rows, before[m.releases[k].pcr0 := Upserted(m, groups, m.releases[k])], m, groups, k + 1)
  {
    var r := m.releases[k];
    forall p ensures ListsBefore(m, k + 1, p) <==> ListsBefore(m, k, p) || p == r.pcr0 { ListsOneMore(m, k, p); }
  }

  lemma MayUpsertNext(rows: Table, before: Table, m: Manifest, groups: set<int>, k: nat)
    requires k < |m.releases| && WellListed(m.releases) && UpsertedTo(rows, before, m, groups, k) && !Rejects(rows, m)
    ensures MayUpsert(before, m.releases[k].pcr0, m.serial)
  {
    var p := m.releases[k].pcr0;
    assert !ListsBefore(m, k, p);
    assert p in rows && rows[p].serial.Some? ==> rows[p].serial.value <= m.serial;
  }

  lemma NoneUpserted(rows: Table, m: Manifest, groups: set<int>)
    ensures UpsertedTo(rows, rows, m, groups, 0)
  {
  }

  lemma {:induction false} UpsertsDo(rows: Table, m: Manifest, groups: set<int>, k: nat)
    requires k <= |m.releases| && WellListed(m.releases) && !Rejects(rows, m)
    ensures UpsertedTo(rows, AfterUpserts(rows, m, groups, k), m, groups, k)
    decreases k
  {
    hide WellListed, Rejects, UpsertedTo, MayUpsert, Upserted;
    if k == 0 {
      NoneUpserted(rows, m, groups);
    } else {
      UpsertsDo(rows, m, groups, k - 1);
      var before := AfterUpserts(rows, m, groups, k - 1);
      MayUpsertNext(rows, before, m, groups, k - 1);
      UpsertOne(rows, before, m, groups, k - 1);
    }
  }

  /** A synced row that an accepted manifest does not list has a lower serial: with the same one it would have the same bytes and be listed. */
  lemma Stale(rows: Table, catalog: map<nat, Manifest>, m: Manifest, p: nat)
    requires RowsOk(rows, catalog) && !Rejects(rows, m) && m.sha in catalog && catalog[m.sha] == m
    requires p in rows && rows[p].serial.Some? && !Lists(m, p)
    ensures rows[p].serial.value < m.serial
  {
    assert RowOk(catalog, p, rows[p]);
  }

  /**
   * From any table earlier passes left, whole or half done, one undisturbed
   * pass of an accepted manifest leaves exactly its releases as the synced
   * rows, with its numbers and statuses, and touches no other operator row.
   */
  lemma UndisturbedPassConverges(s: State, m: Manifest, groups: set<int>)
    requires Reachable(s) && CanStep(s, Start(m, groups)) && !Rejects(s.rows, m)
    ensures Synced(s.rows, RunAlone(s.rows, Scan(m, groups)), m, groups)
  {
    ReachableInv(s);
    InvKept(s, Start(m, groups));
    PassAlone(s.rows, m, groups);
    PassSyncs(s.rows, Next(s, Start(m, groups)).catalog, m, groups);
  }

  lemma PassSyncs(rows: Table, catalog: map<nat, Manifest>, m: Manifest, groups: set<int>)
    requires RowsOk(rows, catalog) && m.sha in catalog && catalog[m.sha] == m
    requires WellListed(m.releases) && !Rejects(rows, m)
    ensures Synced(rows, Pass(rows, m, groups), m, groups)
  {
    var upserted := AfterUpserts(rows, m, groups, |m.releases|);
    UpsertsDo(rows, m, groups, |m.releases|);
    assert forall p :: ListsBefore(m, |m.releases|, p) <==> Lists(m, p);
    forall p | p in Deletes(rows, m) ensures MayDelete(upserted, p, m.serial) { Stale(rows, catalog, m, p); }
    forall k | 0 <= k < |m.releases| ensures m.releases[k].pcr0 !in Deletes(rows, m) { assert Lists(m, m.releases[k].pcr0); }
  }

  // ---- the pass as the source runs it -----------------------------------------------------

  /** An operator's row, one of an older serial, or one of this serial and these bytes (or of no bytes). */
  ghost predicate Allows(row: Row, m: Manifest) {
    row.serial.Some? ==> row.serial.value < m.serial || (row.serial.value == m.serial && (row.sha.None? || row.sha.value == m.sha))
  }

  class Releases {
    var rows: Table

    /** The handler from the parsed manifest on: plan, conditional upserts in order, conditional deletes. */
    method Sync(m: Manifest, groups: set<int>) returns (accepted: bool)
      requires 1 <= m.serial
      modifies this
      ensures accepted == !Rejects(old(rows), m)
      ensures accepted <==> forall p :: p in old(rows) ==> Allows(old(rows)[p], m)
      ensures rows == Pass(old(rows), m, groups)
    {
      var reject := IsRejected(m);
      if reject { return false; }
      ghost var before := rows;
      var deletes := set p | p in rows && rows[p].serial.Some? && !ListsIt(m, p);
      for k := 0 to |m.releases|
        invariant rows == AfterUpserts(before, m, groups, k)
      {
        var r := m.releases[k];
        if MayUpsert(rows, r.pcr0, m.serial) { rows := rows[r.pcr0 := Upserted(m, groups, r)]; }
      }
      ghost var upserted := rows;
      assert deletes == Deletes(before, m);
      ghost var end := AfterDeletes(rows, m.serial, deletes);
      while deletes != {}
        invariant AfterDeletes(rows, m.serial, deletes) == end
        decreases |deletes|
      {
        var p :| p in deletes;
        if MayDelete(rows, p, m.serial) { rows := rows - {p}; }
        deletes := deletes - {p};
      }
      return true;
    }

    predicate ListsIt(m: Manifest, p: nat) { exists k :: 0 <= k < |m.releases| && m.releases[k].pcr0 == p }

    /** syncPlan's refusals: the highest serial among the synced rows, then the bytes it was synced with. */
    method IsRejected(m: Manifest) returns (reject: bool)
      requires 1 <= m.serial
      ensures reject == Rejects(rows, m)
      ensures reject <==> exists p :: p in rows && !Allows(rows[p], m)
    {
      var synced := set p | p in rows && rows[p].serial.Some?;
      var top := 0;
      var rest := synced;
      while rest != {}
        invariant rest <= synced && 0 <= top
        invariant forall p :: p in synced - rest ==> rows[p].serial.value <= top
        invariant top == 0 || exists p :: p in synced - rest && rows[p].serial.value == top
        decreases |rest|
      {
        var p :| p in rest;
        if rows[p].serial.value > top { top := rows[p].serial.value; }
        rest := rest - {p};
      }
      if m.serial < top {
        var p :| p in synced && rows[p].serial.value == top;
        assert p in rows && m.serial < rows[p].serial.value;
        return true;
      }
      reject := exists p :: p in synced && rows[p].serial.value == m.serial == top && rows[p].sha.Some? && rows[p].sha.value != m.sha;
      assert forall p :: p in rows && rows[p].serial.Some? ==> p in synced && rows[p].serial.value <= top <= m.serial;
    }
  }
}
