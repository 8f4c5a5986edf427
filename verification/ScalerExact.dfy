/**
 * What a plan does to each release, named by its row's status, markers and
 * instances and by its group's capacities: exactly which releases it starts,
 * stops, marks as busy and reports as blocked.
 */
module ScalerExact {
  import opened Scaler
  import opened ScalerTheorems
  import opened ScalerFixedPoint
  import opened ScalerPass
  import opened Wrappers

  // ---- a row, named directly -----------------------------------------------------------

  /** Available, and active, deprecated, retired or a canary; a removed one only while it can be rescued. */
  ghost predicate MayRun(row: ReleaseRow) {
    !row.unavailable && (row.status in {Active, Deprecated, Retired, Canary} || (row.status == Removed && row.rescue))
  }

  /** The `k`-th instance of the release was heard of in the last 90 seconds. */
  ghost predicate LiveAt(s: Snapshot, row: ReleaseRow, k: nat) {
    row.release in s.live && k < |s.live[row.release]| && s.live[row.release][k].heartbeatAt * 1000 >= s.now - 90_000
  }

  ghost predicate InUse(s: Snapshot, row: ReleaseRow) { exists k: nat :: LiveAt(s, row, k) && s.live[row.release][k].load > 0 }

  ghost predicate NothingLive(s: Snapshot, row: ReleaseRow) { forall k: nat :: !LiveAt(s, row, k) }

  /** A start was asked for in the last 5 minutes, after the last one was issued. */
  ghost predicate Asked(s: Snapshot, row: ReleaseRow) {
    row.requested.Some? && s.now - row.requested.value <= 5 * 60_000 && (row.issued.None? || row.issued.value < row.requested.value)
  }

  ghost predicate Before(marker: Option<int>, t: int) { marker.Some? ==> marker.value <= t }

  ghost predicate Unmarked(row: ReleaseRow) { row.requested.None? && row.issued.None? && row.busyAt.None? }

  /** There is a marker, and the idle time has passed since every one. */
  ghost predicate Quiet(s: Snapshot, row: ReleaseRow) {
    var t := s.now - s.limits.idleMinutes * 60_000;
    !Unmarked(row) && Before(row.requested, t) && Before(row.issued, t) && Before(row.busyAt, t)
  }

  ghost predicate TagsAgree(row: ReleaseRow, g: Group) { g.pcr0 == row.release && (row.number.None? || row.number.value == g.number) }

  /** The row's group: the first whose tags agree with it. */
  ghost predicate IsGroupOf(s: Snapshot, row: ReleaseRow, k: nat) {
    k < |s.groups| && TagsAgree(row, s.groups[k]) && forall j :: 0 <= j < k ==> !TagsAgree(row, s.groups[j])
  }

  /** The desired total with the changes of the rows before `i` made. */
  ghost function TotalBefore(s: Snapshot, i: nat): int
    requires i <= |s.releases|
  {
    Total(ApplyAll(s.groups, Changes(s, i)))
  }

  /** A total is none for no group, and that of the others and the group's own desired ones. */
  lemma TotalIs(gs: seq<Group>, g: Group)
    ensures Total([]) == 0
    ensures Total(gs + [g]) == Total(gs) + if g.desired > 0 then g.desired else 0
  {
    assert (gs + [g])[..|gs|] == gs;
  }

  // ---- the model's terms are these -------------------------------------------------------

  lemma {:induction false} GroupFound(gs: seq<Group>, row: ReleaseRow, k: nat)
    requires k < |gs| && TagsAgree(row, gs[k]) && forall j :: 0 <= j < k ==> !TagsAgree(row, gs[j])
    ensures GroupFor(gs, row) == Some(k)
    decreases k
  {
    if k > 0 {
      assert !TagsAgree(row, gs[0]);
      GroupFound(gs[1..], row, k - 1);
    }
  }

  lemma {:induction false} NoGroupFound(gs: seq<Group>, row: ReleaseRow)
    requires forall j :: 0 <= j < |gs| ==> !TagsAgree(row, gs[j])
    ensures GroupFor(gs, row) == None
  {
    if gs != [] {
      assert !TagsAgree(row, gs[0]);
      NoGroupFound(gs[1..], row);
    }
  }

  lemma Liveness(s: Snapshot, row: ReleaseRow)
    ensures AnyLive(s, row) <==> !NothingLive(s, row)
    ensures Busy(s, row) <==> InUse(s, row)
  {
    if AnyLive(s, row) {
      var k :| 0 <= k < |s.live[row.release]| && IsLive(s.live[row.release][k], s.now);
      assert LiveAt(s, row, k);
    }
    if Busy(s, row) {
      var k :| 0 <= k < |s.live[row.release]| && IsLive(s.live[row.release][k], s.now) && s.live[row.release][k].load > 0;
      assert LiveAt(s, row, k);
    }
    if InUse(s, row) {
      var k: nat :| LiveAt(s, row, k) && s.live[row.release][k].load > 0;
      assert IsLive(s.live[row.release][k], s.now);
    }
    if !NothingLive(s, row) {
      var k: nat :| LiveAt(s, row, k);
      assert IsLive(s.live[row.release][k], s.now);
    }
  }

  lemma Terms(s: Snapshot, row: ReleaseRow)
    ensures Routable(row) <==> MayRun(row)
    ensures NewRequest(s, row) <==> Asked(s, row)
    ensures LastActivity(row).None? <==> Unmarked(row)
    ensures IsIdle(s, row) <==> !Busy(s, row) && Quiet(s, row)
  {
    hide Busy;
  }

  /** What the `i`-th row changes. */
  lemma RowChange(s: Snapshot, i: nat, k: nat)
    requires ValidSnapshot(s) && i < |s.releases| && s.releases[i].release.Pcr0? && IsGroupOf(s, s.releases[i], k)
    ensures var row, g, c := s.releases[i], s.groups[k], ChangeAt(s, i);
            && (c.Some? ==> c.value.group == g.name && c.value.release == row.release && c.value.from == g.desired)
            && (c.Some? && c.value.reason.Start? <==>
                  && MayRun(row) && Asked(s, row) && NothingLive(s, row) && g.desired < 1
                  && 1 <= s.limits.perRelease && 1 <= g.max && TotalBefore(s, i) + 1 <= s.limits.total)
            && (c.Some? && c.value.reason.Start? ==> c.value.to == 1)
            && (c.Some? && c.value.reason.NotRoutable? <==> !MayRun(row) && g.desired > g.min)
            && (c.Some? && c.value.reason.Idle? <==> MayRun(row) && g.desired > g.min && !InUse(s, row) && Quiet(s, row))
            && (c.Some? && !c.value.reason.Start? ==> c.value.to == g.min)
  {
    var row := s.releases[i];
    Tracks(s, i);
    assert TotalBefore(s, i) == TotalAfter(s, i);
    GroupFound(s.groups, row, k);
    Liveness(s, row);
    Terms(s, row);
    hide GroupFor, AnyLive, Busy, NewRequest, IsIdle, Routable, MayRun, Asked, NothingLive, InUse, Quiet, Total, TotalAfter, Changes, ApplyAll, IsGroupOf;
  }

  // ---- what a plan does ----------------------------------------------------------------------

  ghost predicate Makes(s: Snapshot, c: Change) { exists n :: 0 <= n < |Plan(s)| && Plan(s)[n] == c }

  /** A change of a release's row is the row's. */
  lemma MadeByRow(s: Snapshot, i: nat, c: Change)
    requires ValidSnapshot(s) && i < |s.releases| && s.releases[i].release == c.release
    ensures Makes(s, c) <==> ChangeAt(s, i) == Some(c)
  {
    hide ChangeOf;
    if Makes(s, c) {
      var n :| 0 <= n < |Plan(s)| && Plan(s)[n] == c;
      var j := RowOf(s, |s.releases|, n);
      var _ := ChangeIsSound(s, s.releases[j], TotalAfter(s, j));
      assert j == i;
    }
    if ChangeAt(s, i) == Some(c) {
      PlaceInPlan(s, i, |s.releases|);
      assert Plan(s)[|Changes(s, i)|] == c;
    }
  }

  /**
   * The plan starts a release, from 0 to 1, if and only if it may run, was
   * asked for freshly and newly, nothing of it is live, its group desires
   * none, and there is room in both caps and under the group's maximum.
   */
  lemma StartsExactly(s: Snapshot, i: nat, k: nat)
    requires ValidSnapshot(s) && i < |s.releases| && s.releases[i].release.Pcr0? && IsGroupOf(s, s.releases[i], k)
    ensures var row, g := s.releases[i], s.groups[k];
            Makes(s, Change(g.name, row.release, g.desired, 1, Start)) <==>
              && MayRun(row) && Asked(s, row) && NothingLive(s, row) && g.desired < 1
              && 1 <= s.limits.perRelease && 1 <= g.max && TotalBefore(s, i) + 1 <= s.limits.total
  {
    hide ChangeAt, MayRun, Asked, NothingLive, InUse, Quiet, TotalBefore, Makes, ValidSnapshot;
    RowChange(s, i, k);
    MadeByRow(s, i, Change(s.groups[k].name, s.releases[i].release, s.groups[k].desired, 1, Start));
  }

  /**
   * It stops one, to its group's minimum, if and only if the group desires
   * more and the release may not run, or is in use by nobody and has been
   * quiet for the idle time.
   */
  lemma StopsExactly(s: Snapshot, i: nat, k: nat)
    requires ValidSnapshot(s) && i < |s.releases| && s.releases[i].release.Pcr0? && IsGroupOf(s, s.releases[i], k)
    ensures var row, g := s.releases[i], s.groups[k];
            && (Makes(s, Change(g.name, row.release, g.desired, g.min, NotRoutable)) <==> g.desired > g.min && !MayRun(row))
            && (Makes(s, Change(g.name, row.release, g.desired, g.min, Idle)) <==>
                  g.desired > g.min && MayRun(row) && !InUse(s, row) && Quiet(s, row))
  {
    hide ChangeAt, MayRun, Asked, NothingLive, InUse, Quiet, TotalBefore, Makes, ValidSnapshot;
    RowChange(s, i, k);
    MadeByRow(s, i, Change(s.groups[k].name, s.releases[i].release, s.groups[k].desired, s.groups[k].min, NotRoutable));
    MadeByRow(s, i, Change(s.groups[k].name, s.releases[i].release, s.groups[k].desired, s.groups[k].min, Idle));
  }

  /** No plan changes, and so none lowers, a release that may run while a live instance of it is in use. */
  lemma NothingInUseIsStopped(s: Snapshot, i: nat, c: Change)
    requires ValidSnapshot(s) && i < |s.releases| && MayRun(s.releases[i]) && InUse(s, s.releases[i])
    requires c.release == s.releases[i].release
    ensures !Makes(s, c)
  {
    Terms(s, s.releases[i]);
    Liveness(s, s.releases[i]);
    MadeByRow(s, i, c);
    hide MayRun, InUse, Busy, Total, ValidSnapshot, TotalAfter;
  }

  /**
   * A release is marked as busy if and only if it may run, has a group, and is
   * in use with no mark in the last 5 minutes, or is above its minimum with
   * no marker at all and in use by nobody.
   */
  lemma MarksExactly(s: Snapshot, i: nat, k: nat)
    requires ValidSnapshot(s) && i < |s.releases| && s.releases[i].release.Pcr0? && IsGroupOf(s, s.releases[i], k)
    ensures var row, g := s.releases[i], s.groups[k];
            row.release in BusyMarks(s, |s.releases|) <==>
              && MayRun(row)
              && (if InUse(s, row) then row.busyAt.None? || s.now - row.busyAt.value >= 5 * 60_000 else g.desired > g.min && Unmarked(row))
  {
    var row := s.releases[i];
    GroupFound(s.groups, row, k);
    Liveness(s, row);
    Terms(s, row);
    MarkedByRow(s, i, |s.releases|);
    hide GroupFor, AnyLive, Busy, IsIdle, Routable, MayRun, InUse, BusyMarks, ValidSnapshot;
  }

  lemma {:induction false} MarkedByRow(s: Snapshot, i: nat, m: nat)
    requires ValidSnapshot(s) && i < |s.releases| && m <= |s.releases|
    ensures s.releases[i].release in BusyMarks(s, m) <==> i < m && MarksBusy(s, s.releases[i])
    decreases m
  {
    hide MarksBusy;
    if m > 0 {
      MarkedByRow(s, i, m - 1);
      assert i != m - 1 ==> s.releases[i].release != s.releases[m - 1].release;
    }
  }

  /** A row counts as a blocked start if and only if it may run, was asked for, and has no group, or nothing live and no room. */
  lemma BlockedExactly(s: Snapshot, i: nat)
    requires ValidSnapshot(s) && i < |s.releases| && s.releases[i].release.Pcr0?
    ensures var row := s.releases[i];
            && (forall k: nat :: IsGroupOf(s, row, k) ==>
                  (Blocked(s, row, TotalAfter(s, i)) <==>
                     && MayRun(row) && Asked(s, row) && NothingLive(s, row) && s.groups[k].desired < 1
                     && (s.limits.perRelease < 1 || s.groups[k].max < 1 || TotalBefore(s, i) + 1 > s.limits.total)))
            && ((forall j :: 0 <= j < |s.groups| ==> !TagsAgree(row, s.groups[j])) ==>
                  (Blocked(s, row, TotalAfter(s, i)) <==> MayRun(row) && Asked(s, row)))
  {
    var row := s.releases[i];
    hide ValidSnapshot, Blocked, MayRun, Asked, NothingLive, TotalAfter, TotalBefore, TagsAgree, IsGroupOf;
    if forall j :: 0 <= j < |s.groups| ==> !TagsAgree(row, s.groups[j]) { BlockedWithoutGroup(s, i); }
    forall k: nat | IsGroupOf(s, row, k)
      ensures Blocked(s, row, TotalAfter(s, i)) <==>
              && MayRun(row) && Asked(s, row) && NothingLive(s, row) && s.groups[k].desired < 1
              && (s.limits.perRelease < 1 || s.groups[k].max < 1 || TotalBefore(s, i) + 1 > s.limits.total)
    {
      BlockedInGroup(s, i, k);
    }
  }

  lemma BlockedWithoutGroup(s: Snapshot, i: nat)
    requires i < |s.releases| && s.releases[i].release.Pcr0?
    requires forall j :: 0 <= j < |s.groups| ==> !TagsAgree(s.releases[i], s.groups[j])
    ensures Blocked(s, s.releases[i], TotalAfter(s, i)) <==> MayRun(s.releases[i]) && Asked(s, s.releases[i])
  {
    hide GroupFor, AnyLive, Routable, MayRun, Asked, NewRequest;
    Terms(s, s.releases[i]);
    NoGroupFound(s.groups, s.releases[i]);
  }

  lemma BlockedInGroup(s: Snapshot, i: nat, k: nat)
    requires ValidSnapshot(s) && i < |s.releases| && s.releases[i].release.Pcr0? && IsGroupOf(s, s.releases[i], k)
    ensures var row := s.releases[i];
            Blocked(s, row, TotalAfter(s, i)) <==>
              && MayRun(row) && Asked(s, row) && NothingLive(s, row) && s.groups[k].desired < 1
              && (s.limits.perRelease < 1 || s.groups[k].max < 1 || TotalBefore(s, i) + 1 > s.limits.total)
  {
    hide GroupFor, AnyLive, Busy, NewRequest, IsIdle, Routable, MayRun, Asked, NothingLive, InUse, Total, Changes, ApplyAll, TotalAfter;
    var row := s.releases[i];
    Tracks(s, i);
    assert TotalBefore(s, i) == TotalAfter(s, i);
    Liveness(s, row);
    Terms(s, row);
    GroupFound(s.groups, row, k);
  }
}
