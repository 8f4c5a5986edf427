/**
 * The release manifest and its sync into the releases table
 * (lambda/shared/manifest.ts, lambda/vault/manifest-sync.ts): concurrent passes
 * of conditional upserts and deletes, as a state machine.
 */
module ManifestSync {
  import opened Calls
  import opened Runs
  import opened Wrappers

  // ---- the manifest ----------------------------------------------------------------

  const MAX_SAFE := 9_007_199_254_740_991

  /** A listed release. Texts are numbered; `endsAt` is the optional date. */
  datatype Release = Release(number: int, pcr0: nat, status: nat, sealKey: nat, endsAt: Option<nat>)

  /** `sha`: the digest of the manifest's bytes. */
  datatype Manifest = Manifest(serial: int, releases: seq<Release>, sha: nat)

  /** An entry of the JSON: `number` and `pcr0` if they have the required form, `rest` whether everything else has. */
  datatype Entry = NotAnObject | Entry(number: Option<int>, pcr0: Option<nat>, rest: bool, status: nat, sealKey: nat, endsAt: Option<nat>)

  predicate ValidNumber(n: Option<int>) { n.Some? && 1 <= n.value <= MAX_SAFE }

  predicate ValidEntry(e: Entry) { e.Entry? && ValidNumber(e.number) && e.pcr0.Some? && e.rest }

  function ReleaseOf(e: Entry): Release
    requires ValidEntry(e)
  {
    Release(e.number.value, e.pcr0.value, e.status, e.sealKey, e.endsAt)
  }

  /** Release numbers strictly increase and no PCR0 is listed twice. */
  ghost predicate WellListed(rs: seq<Release>) {
    && (forall i :: 0 <= i < |rs| ==> 1 <= rs[i].number)
    && (forall i, j :: 0 <= i < j < |rs| ==> rs[i].number < rs[j].number)
    && (forall i, j :: 0 <= i < j < |rs| ==> rs[i].pcr0 != rs[j].pcr0)
  }

  /** The list an accepted manifest has, entry by entry. */
  ghost predicate Reads(es: seq<Entry>, rs: seq<Release>) {
    |rs| == |es| && forall i :: 0 <= i < |es| ==> ValidEntry(es[i]) && rs[i] == ReleaseOf(es[i])
  }

  /** Every entry in its form, numbered from 1 up to the largest safe integer in increasing order, no PCR0 twice. */
  ghost predicate IsList(es: seq<Entry>) {
    && (forall i :: 0 <= i < |es| ==>
          && es[i].Entry? && es[i].number.Some? && 1 <= es[i].number.value <= 9_007_199_254_740_991 && es[i].pcr0.Some? && es[i].rest)
    && (forall i, j :: 0 <= i < j < |es| ==> es[i].number.value < es[j].number.value && es[i].pcr0.value != es[j].pcr0.value)
  }

  lemma ListsAreRead(es: seq<Entry>)
    ensures IsList(es) <==> exists rs: seq<Release> :: Reads(es, rs) && WellListed(rs)
  {
    if IsList(es) {
      var rs := seq(|es|, i requires 0 <= i < |es| => ReleaseOf(es[i]));
      assert Reads(es, rs) && WellListed(rs);
    }
    if exists rs: seq<Release> :: Reads(es, rs) && WellListed(rs) {
      var rs: seq<Release> :| Reads(es, rs) && WellListed(rs);
      assert forall i :: 0 <= i < |es| ==> rs[i].number == es[i].number.value && rs[i].pcr0 == es[i].pcr0.value;
    }
  }

  /**
   * parseManifest's loop over the entries. It accepts exactly the lists of
   * valid entries that are well listed.
   */
  method ParseReleases(es: seq<Entry>) returns (r: Option<seq<Release>>)
    ensures r.Some? ==> Reads(es, r.value) && WellListed(r.value)
    ensures r.None? ==> !exists rs: seq<Release> :: Reads(es, rs) && WellListed(rs)
    ensures r.Some? <==> IsList(es)
  {
    ListsAreRead(es);
    var releases: seq<Release> := [];
    var pcr0s: set<nat> := {};
    var last := 0;
    for i := 0 to |es|
      invariant Reads(es[..i], releases) && WellListed(releases)
      invariant forall p :: p in pcr0s <==> exists k :: 0 <= k < i && releases[k].pcr0 == p
      invariant last == if i == 0 then 0 else releases[i - 1].number
    {
      hide WellListed;
      var e := es[i];
      if e.NotAnObject? || !ValidNumber(e.number) {
        NotReadable(es, i);
        return None;
      }
      if e.number.value <= last {
        NotIncreasing(es, releases, i);
        return None;
      }
      last := e.number.value;
      if e.pcr0.None? {
        NotReadable(es, i);
        return None;
      }
      if e.pcr0.value in pcr0s {
        var k :| 0 <= k < i && releases[k].pcr0 == e.pcr0.value;
        ListedTwice(es, releases, k, i);
        return None;
      }
      pcr0s := pcr0s + {e.pcr0.value};
      if !e.rest {
        NotReadable(es, i);
        return None;
      }
      OneMoreListed(releases, ReleaseOf(e));
      releases := releases + [ReleaseOf(e)];
    }
    r := Some(releases);
  }

  lemma NotReadable(es: seq<Entry>, i: nat)
    requires i < |es| && !ValidEntry(es[i])
    ensures !exists rs: seq<Release> :: Reads(es, rs) && WellListed(rs)
  {
  }

  lemma OneMoreListed(rs: seq<Release>, r: Release)
    requires WellListed(rs) && 1 <= r.number && (rs != [] ==> rs[|rs| - 1].number < r.number)
    requires forall k :: 0 <= k < |rs| ==> rs[k].pcr0 != r.pcr0
    ensures WellListed(rs + [r])
  {
  }

  lemma NotIncreasing(es: seq<Entry>, releases: seq<Release>, i: nat)
    requires i < |es| && Reads(es[..i], releases) && es[i].Entry? && ValidNumber(es[i].number)
    requires es[i].number.value <= if i == 0 then 0 else releases[i - 1].number
    ensures !exists rs: seq<Release> :: Reads(es, rs) && WellListed(rs)
  {
    forall rs: seq<Release> | Reads(es, rs) ensures !WellListed(rs) {
      assert rs[i] == ReleaseOf(es[i]);
      if i > 0 { assert rs[i - 1] == ReleaseOf(es[i - 1]) == releases[i - 1]; }
    }
  }

  lemma ListedTwice(es: seq<Entry>, releases: seq<Release>, k: nat, i: nat)
    requires k < i < |es| && Reads(es[..i], releases) && es[i].Entry?
    requires Some(releases[k].pcr0) == es[i].pcr0
    ensures !exists rs: seq<Release> :: Reads(es, rs) && WellListed(rs)
  {
    forall rs: seq<Release> | Reads(es, rs) ensures !WellListed(rs) {
      assert rs[i] == ReleaseOf(es[i]) && rs[k] == ReleaseOf(es[k]) == releases[k];
    }
  }

  // ---- the table ----------------------------------------------------------------------

  /** A row of the releases table; an operator's row has no serial. */
  datatype Row = Row(number: int, status: nat, sealKey: nat, available: bool, endsAt: Option<nat>, serial: Option<int>, sha: Option<nat>)

  type Table = map<nat, Row>

  function Upserted(m: Manifest, groups: set<int>, r: Release): Row {
    Row(r.number, r.status, r.sealKey, r.number in groups, r.endsAt, Some(m.serial), Some(m.sha))
  }

  predicate MayUpsert(rows: Table, p: nat, serial: int) {
    p !in rows || rows[p].serial.None? || rows[p].serial.value <= serial
  }

  predicate MayDelete(rows: Table, p: nat, serial: int) {
    p in rows && rows[p].serial.Some? && rows[p].serial.value < serial
  }

  predicate Lists(m: Manifest, p: nat) { exists k :: 0 <= k < |m.releases| && m.releases[k].pcr0 == p }

  /** syncPlan's refusals: an older serial, or the top serial with other bytes. */
  predicate Rejects(rows: Table, m: Manifest) {
    exists p :: p in rows && rows[p].serial.Some?
      && (m.serial < rows[p].serial.value
          || (m.serial == rows[p].serial.value && rows[p].sha.Some? && rows[p].sha.value != m.sha))
  }

  /** syncPlan's deletes: synced rows the manifest does not list. */
  function Deletes(rows: Table, m: Manifest): set<nat> {
    set p | p in rows && rows[p].serial.Some? && !Lists(m, p)
  }

  // ---- the passes -----------------------------------------------------------------------

  datatype Proc =
    | Finished
    | Scan(m: Manifest, groups: set<int>)
    | Upsert(m: Manifest, groups: set<int>, k: nat, deletes: set<nat>)
    | Delete(serial: int, deletes: set<nat>)

  datatype Step = Step(rows: Table, next: Proc)

  /** One call of a pass. `pick`: which of the remaining deletes is next. */
  function Act(rows: Table, q: Proc, c: Call, pick: nat): Step {
    match q
    case Finished => Step(rows, Finished)
    case Scan(m, groups) =>
      Step(rows, if !c.Answered? || Rejects(rows, m) then Finished else Upsert(m, groups, 0, Deletes(rows, m)))
    case Upsert(m, groups, k, deletes) =>
      if k >= |m.releases| then Step(rows, Delete(m.serial, deletes))
      else
        var r := m.releases[k];
        var holds := MayUpsert(rows, r.pcr0, m.serial);
        Step(if holds && !c.Lost? then rows[r.pcr0 := Upserted(m, groups, r)] else rows,
             if c.Answered? then Upsert(m, groups, k + 1, deletes) else Finished)
    case Delete(serial, deletes) =>
      if pick !in deletes then Step(rows, if deletes == {} then Finished else q)
      else
        var holds := MayDelete(rows, pick, serial);
        Step(if holds && !c.Lost? then rows - {pick} else rows,
             if c.Answered? then Delete(serial, deletes - {pick}) else Finished)
  }

  /** `catalog`: the manifests passes have read, by digest. */
  datatype State = State(rows: Table, catalog: map<nat, Manifest>, procs: seq<Proc>)

  /** `Operator`: an operator writes a row the sync has not written (a canary). */
  datatype Event =
    | Operator(p: nat, row: Row)
    | Start(m: Manifest, groups: set<int>)
    | Makes(p: nat, c: Call, pick: nat)
    | Stops(p: nat)

  /** Different manifests have different digests. */
  ghost predicate CanStep(s: State, e: Event) {
    match e
    case Operator(p, row) => row.serial.None? && row.sha.None? && (p in s.rows ==> s.rows[p].serial.None?)
    case Start(m, _) => 1 <= m.serial && WellListed(m.releases) && (m.sha in s.catalog ==> s.catalog[m.sha] == m)
    case Makes(p, _, _) => p < |s.procs|
    case Stops(p) => p < |s.procs|
  }

  ghost function Next(s: State, e: Event): State
    requires CanStep(s, e)
  {
    match e
    case Operator(p, row) => s.(rows := s.rows[p := row])
    case Start(m, groups) => s.(catalog := s.catalog[m.sha := m], procs := s.procs + [Scan(m, groups)])
    case Makes(p, c, pick) =>
      var step := Act(s.rows, s.procs[p], c, pick);
      s.(rows := step.rows, procs := s.procs[p := step.next])
    case Stops(p) => s.(procs := s.procs[p := Finished])
  }

  ghost function StepOf(s: State, e: Event): Option<State> { if CanStep(s, e) then Some(Next(s, e)) else None }

  ghost function Exec(s: State, es: seq<Event>): Option<State> { Run(StepOf, s, es) }

  /** A table with operator rows only. */
  ghost predicate Init(s: State) {
    s.catalog == map[] && s.procs == [] && forall p :: p in s.rows ==> s.rows[p].serial.None? && s.rows[p].sha.None?
  }

  ghost predicate Reachable(s: State) {
    exists s0: State, es: seq<Event> :: Init(s0) && Exec(s0, es) == Some(s)
  }

  // ---- the invariant ------------------------------------------------------------------

  /** A synced row was written from a manifest that lists it. */
  ghost predicate RowOk(catalog: map<nat, Manifest>, p: nat, row: Row) {
    && (row.serial.Some? <==> row.sha.Some?)
    && (row.sha.Some? ==>
          && row.sha.value in catalog
          && row.serial == Some(catalog[row.sha.value].serial)
          && Lists(catalog[row.sha.value], p))
  }

  ghost predicate RowsOk(rows: Table, catalog: map<nat, Manifest>) {
    forall p :: p in rows ==> RowOk(catalog, p, rows[p])
  }

  ghost predicate ProcOk(catalog: map<nat, Manifest>, q: Proc) {
    match q
    case Scan(m, _) => m.sha in catalog && catalog[m.sha] == m
    case Upsert(m, _, _, _) => m.sha in catalog && catalog[m.sha] == m
    case _ => true
  }

  ghost predicate Inv(s: State) {
    && RowsOk(s.rows, s.catalog)
    && (forall p :: 0 <= p < |s.procs| ==> ProcOk(s.catalog, s.procs[p]))
    && (forall h :: h in s.catalog ==> s.catalog[h].sha == h && 1 <= s.catalog[h].serial)
  }

  lemma ActKeeps(rows: Table, catalog: map<nat, Manifest>, q: Proc, c: Call, pick: nat)
    requires RowsOk(rows, catalog) && ProcOk(catalog, q)
    ensures RowsOk(Act(rows, q, c, pick).rows, catalog) && ProcOk(catalog, Act(rows, q, c, pick).next)
  {
    if q.Upsert? && q.k < |q.m.releases| { assert Lists(q.m, q.m.releases[q.k].pcr0); }
  }

  lemma InvKept(s: State, e: Event)
    requires Inv(s) && CanStep(s, e)
    ensures Inv(Next(s, e))
  {
    if e.Makes? {
      hide Act;
      ActKeeps(s.rows, s.catalog, s.procs[e.p], e.c, e.pick);
    } else {
      hide Lists;
    }
  }

  lemma ReachableInv(s: State)
    requires Reachable(s)
    ensures Inv(s)
  {
    hide Inv, Next, CanStep;
    var s0: State, es: seq<Event> :| Init(s0) && Exec(s0, es) == Some(s);
    InitInv(s0);
    forall s: State, e: Event | Inv(s) && StepOf(s, e).Some? ensures Inv(StepOf(s, e).value) { InvKept(s, e); }
    RunKeeps(StepOf, Inv, s0, es);
  }

  lemma InitInv(s: State)
    requires Init(s)
    ensures Inv(s)
  {
  }

  // ---- safety ---------------------------------------------------------------------------

  /** An operator's row counts as serial 0: every manifest's is 1 or more. */
  function SerialOf(row: Row): int { if row.serial.None? then 0 else row.serial.value }

  /** Through any run in which the row always exists, its serial never goes down. */
  ghost predicate ExistsThroughout(s: State, es: seq<Event>, p: nat)
    requires Exec(s, es).Some?
    decreases |es|
  {
    p in s.rows && (es != [] ==> ExistsThroughout(Next(s, es[0]), es[1..], p))
  }

  lemma SerialStep(s: State, e: Event, p: nat)
    requires Inv(s) && CanStep(s, e) && p in s.rows && p in Next(s, e).rows
    ensures SerialOf(s.rows[p]) <= SerialOf(Next(s, e).rows[p])
  {
    hide Lists, Rejects, Deletes;
    if e.Makes? { assert ProcOk(s.catalog, s.procs[e.p]); }
  }

  lemma {:induction false} SerialsRise(s: State, es: seq<Event>, p: nat)
    requires Inv(s) && Exec(s, es).Some? && ExistsThroughout(s, es, p)
    ensures p in Exec(s, es).value.rows && SerialOf(s.rows[p]) <= SerialOf(Exec(s, es).value.rows[p])
    decreases |es|
  {
    hide Inv, Next, CanStep, SerialOf;
    if es != [] {
      InvKept(s, es[0]);
      SerialStep(s, es[0], p);
      SerialsRise(Next(s, es[0]), es[1..], p);
    }
  }

  lemma SerialNeverDecreases(s: State, es: seq<Event>, p: nat)
    requires Reachable(s) && Exec(s, es).Some? && ExistsThroughout(s, es, p)
    ensures p in Exec(s, es).value.rows && SerialOf(s.rows[p]) <= SerialOf(Exec(s, es).value.rows[p])
  {
    ReachableInv(s);
    SerialsRise(s, es, p);
  }

  /** A row goes only by a pass's delete, and only if it was synced with a lower serial than the pass's. */
  lemma OnlyOlderRowsGo(s: State, e: Event, p: nat)
    requires CanStep(s, e) && p in s.rows && p !in Next(s, e).rows
    ensures e.Makes? && s.procs[e.p].Delete? && p in s.procs[e.p].deletes
    ensures s.rows[p].serial.Some? && s.rows[p].serial.value < s.procs[e.p].serial
  {
    hide Lists, Rejects, Deletes;
  }

  /** Some manifest a pass has read lists the release. */
  ghost predicate EverListed(s: State, p: nat) { exists h :: h in s.catalog && Lists(s.catalog[h], p) }

  lemma CatalogGrows(s: State, e: Event, p: nat)
    requires CanStep(s, e) && EverListed(s, p)
    ensures EverListed(Next(s, e), p)
  {
    hide Lists, Act;
    var h :| h in s.catalog && Lists(s.catalog[h], p);
    assert h in Next(s, e).catalog && Next(s, e).catalog[h] == s.catalog[h];
  }

  lemma UnlistedStep(s: State, e: Event, p: nat)
    requires Inv(s) && CanStep(s, e) && p in s.rows && !EverListed(s, p)
    ensures p in Next(s, e).rows
  {
    hide Lists, Rejects, Deletes;
    assert RowOk(s.catalog, p, s.rows[p]);
  }

  /** A row no manifest ever listed is never deleted, whatever passes run. */
  lemma OperatorRowsStay(s: State, es: seq<Event>, p: nat)
    requires Reachable(s) && Exec(s, es).Some? && p in s.rows && !EverListed(Exec(s, es).value, p)
    ensures p in Exec(s, es).value.rows
  {
    ReachableInv(s);
    hide Inv, Next, CanStep, EverListed;
    var stays := (t: State) => Inv(t) && (p in t.rows || EverListed(t, p));
    forall t: State, e: Event | stays(t) && StepOf(t, e).Some? ensures stays(StepOf(t, e).value) {
      InvKept(t, e);
      if EverListed(t, p) { CatalogGrows(t, e, p); } else { UnlistedStep(t, e, p); }
    }
    RunKeeps(StepOf, stays, s, es);
  }
}
