/**
 * The vault release scaler (lambda/vault/scaler-logic.ts): one pass over the
 * release rows, with a running total of the desired capacity. Times are epoch
 * milliseconds; a text that is no time is None.
 */
module Scaler {
  import opened Wrappers

  const LIVE_HEARTBEAT_MS := 90_000
  const START_FRESH_MS := 300_000
  const BUSY_REFRESH_MS := 300_000

  /** A release row's key or a group's tag: a PCR0 value, or a text that is none. */
  datatype Key = Pcr0(id: nat) | NotPcr0(id: nat)

  datatype Status = Active | Deprecated | Retired | Canary | Removed | Other

  datatype ReleaseRow = ReleaseRow(
    release: Key, number: Option<int>, status: Status, unavailable: bool, rescue: bool,
    requested: Option<int>, issued: Option<int>, busyAt: Option<int>)

  datatype Group = Group(name: nat, pcr0: Key, number: int, min: int, max: int, desired: int)

  datatype Instance = Instance(heartbeatAt: int, load: int)

  datatype Limits = Limits(perRelease: int, total: int, idleMinutes: int)

  datatype Snapshot = Snapshot(
    now: int, releases: seq<ReleaseRow>, groups: seq<Group>, live: map<Key, seq<Instance>>, limits: Limits)

  datatype Reason = Start | Idle | NotRoutable

  datatype Change = Change(group: nat, release: Key, from: int, to: int, reason: Reason)

  function Max(a: int, b: int): int { if a < b then b else a }
  function Min(a: int, b: int): int { if a < b then a else b }

  predicate Routable(r: ReleaseRow) {
    !r.unavailable && (match r.status
                       case Removed => r.rescue
                       case Other => false
                       case _ => true)
  }

  // ---- what a pass knows of one row -----------------------------------------------

  predicate NumbersAgree(row: ReleaseRow, g: Group) { row.number.None? || row.number.value == g.number }

  /** The first group whose tags agree with the row. */
  function GroupFor(gs: seq<Group>, row: ReleaseRow): (r: Option<nat>)
    ensures r.Some? ==> r.value < |gs| && gs[r.value].pcr0 == row.release && NumbersAgree(row, gs[r.value])
  {
    if gs == [] then None
    else if gs[0].pcr0 == row.release && NumbersAgree(row, gs[0]) then Some(0)
    else
      var r := GroupFor(gs[1..], row);
      if r.Some? then Some(r.value + 1) else None
  }

  predicate IsLive(i: Instance, now: int) { i.heartbeatAt * 1000 >= now - LIVE_HEARTBEAT_MS }

  predicate AnyLive(s: Snapshot, row: ReleaseRow) {
    row.release in s.live
    && exists k :: 0 <= k < |s.live[row.release]| && IsLive(s.live[row.release][k], s.now)
  }

  predicate Busy(s: Snapshot, row: ReleaseRow) {
    row.release in s.live
    && exists k :: 0 <= k < |s.live[row.release]| && IsLive(s.live[row.release][k], s.now) && s.live[row.release][k].load > 0
  }

  predicate Fresh(s: Snapshot, row: ReleaseRow) {
    row.requested.Some? && s.now - row.requested.value <= START_FRESH_MS
  }

  predicate NewRequest(s: Snapshot, row: ReleaseRow) {
    Fresh(s, row) && (row.issued.None? || row.requested.value > row.issued.value)
  }

  /** The latest of the row's activity markers. */
  function LastActivity(row: ReleaseRow): Option<int> {
    Later(Later(row.requested, row.issued), row.busyAt)
  }

  function Later(a: Option<int>, b: Option<int>): Option<int> {
    if a.None? then b else if b.None? then a else Some(Max(a.value, b.value))
  }

  predicate WantsStart(s: Snapshot, row: ReleaseRow, g: Group) {
    Routable(row) && NewRequest(s, row) && !AnyLive(s, row) && g.desired < 1
  }

  predicate WithinReleaseCap(s: Snapshot, g: Group) { Min(s.limits.perRelease, g.max) >= 1 }

  predicate IsIdle(s: Snapshot, row: ReleaseRow) {
    !Busy(s, row) && LastActivity(row).Some? && s.now - LastActivity(row).value >= s.limits.idleMinutes * 60_000
  }

  // ---- what a pass does with one row -------------------------------------------------

  /** The capacity change a row brings about when `total` is the desired total so far. */
  function ChangeOf(s: Snapshot, row: ReleaseRow, total: int): Option<Change> {
    var at := GroupFor(s.groups, row);
    if row.release.NotPcr0? || at.None? then None
    else
      var g := s.groups[at.value];
      if !Routable(row) then
        if g.desired > g.min then Some(Change(g.name, row.release, g.desired, g.min, NotRoutable)) else None
      else if WantsStart(s, row, g) then
        if WithinReleaseCap(s, g) && total + 1 <= s.limits.total then Some(Change(g.name, row.release, g.desired, 1, Start)) else None
      else if g.desired > g.min && IsIdle(s, row) then Some(Change(g.name, row.release, g.desired, g.min, Idle))
      else None
  }

  /** A start the total cap alone holds back. */
  predicate BlockedByTotal(s: Snapshot, row: ReleaseRow, total: int) {
    var at := GroupFor(s.groups, row);
    row.release.Pcr0? && at.Some? && WantsStart(s, row, s.groups[at.value])
    && WithinReleaseCap(s, s.groups[at.value]) && total + 1 > s.limits.total
  }

  /** A fresh start request that cannot be served: no group, or a cap. */
  predicate Blocked(s: Snapshot, row: ReleaseRow, total: int) {
    var at := GroupFor(s.groups, row);
    if row.release.NotPcr0? then false
    else if at.None? then NewRequest(s, row) && Routable(row)
    else WantsStart(s, row, s.groups[at.value]) && !(WithinReleaseCap(s, s.groups[at.value]) && total + 1 <= s.limits.total)
  }

  /** Busy with an old or no `busy_at`, or scaled up by hand with no marker at all. */
  predicate MarksBusy(s: Snapshot, row: ReleaseRow) {
    var at := GroupFor(s.groups, row);
    && row.release.Pcr0? && at.Some? && Routable(row)
    && if Busy(s, row) then row.busyAt.None? || s.now - row.busyAt.value >= BUSY_REFRESH_MS
       else
         var g := s.groups[at.value];
         !WantsStart(s, row, g) && g.desired > g.min && LastActivity(row).None?
  }

  // ---- the whole pass ------------------------------------------------------------------

  function Total(gs: seq<Group>): int {
    if gs == [] then 0 else Total(gs[..|gs| - 1]) + Max(0, gs[|gs| - 1].desired)
  }

  function Delta(c: Option<Change>): int { if c.None? then 0 else c.value.to - c.value.from }

  /** The running total after the first `i` rows. */
  function TotalAfter(s: Snapshot, i: nat): int
    requires i <= |s.releases|
  {
    if i == 0 then Total(s.groups)
    else
      var t := TotalAfter(s, i - 1);
      t + Delta(ChangeOf(s, s.releases[i - 1], t))
  }

  function ChangeAt(s: Snapshot, i: nat): Option<Change>
    requires i < |s.releases|
  {
    ChangeOf(s, s.releases[i], TotalAfter(s, i))
  }

  function ToSeq<T>(o: Option<T>): seq<T> { if o.None? then [] else [o.value] }

  /** The plan's `setDesired` from the first `i` rows. */
  function Changes(s: Snapshot, i: nat): seq<Change>
    requires i <= |s.releases|
  {
    if i == 0 then [] else Changes(s, i - 1) + ToSeq(ChangeAt(s, i - 1))
  }

  function Plan(s: Snapshot): seq<Change> { Changes(s, |s.releases|) }

  /** Keys and names are unique (the table's and the group service's), and capacities in order. */
  ghost predicate ValidSnapshot(s: Snapshot) {
    && (forall i, j :: 0 <= i < j < |s.releases| ==> s.releases[i].release != s.releases[j].release)
    && UniqueNames(s.groups)
    && (forall i :: 0 <= i < |s.groups| ==> 0 <= s.groups[i].min <= s.groups[i].desired <= s.groups[i].max)
  }

  ghost predicate UniqueNames(gs: seq<Group>) {
    forall i, j :: 0 <= i < j < |gs| ==> gs[i].name != gs[j].name
  }

  // ---- the pass as the source runs it -----------------------------------------------------

  datatype Output = Output(
    setDesired: seq<Change>, markStartIssued: seq<Key>, markBusy: seq<Key>,
    startsIssued: nat, stopsIssued: nat, startsBlocked: nat)

  function Starts(cs: seq<Change>): seq<Key> {
    if cs == [] then []
    else
      var last := cs[|cs| - 1];
      Starts(cs[..|cs| - 1]) + if last.reason.Start? then [last.release] else []
  }

  function BusyMarks(s: Snapshot, i: nat): seq<Key>
    requires i <= |s.releases|
  {
    if i == 0 then [] else BusyMarks(s, i - 1) + if MarksBusy(s, s.releases[i - 1]) then [s.releases[i - 1].release] else []
  }

  function BlockedCount(s: Snapshot, i: nat): nat
    requires i <= |s.releases|
  {
    if i == 0 then 0 else BlockedCount(s, i - 1) + if Blocked(s, s.releases[i - 1], TotalAfter(s, i - 1)) then 1 else 0
  }

  function Raises(cs: seq<Change>): nat {
    if cs == [] then 0 else Raises(cs[..|cs| - 1]) + if cs[|cs| - 1].to > cs[|cs| - 1].from then 1 else 0
  }
}
