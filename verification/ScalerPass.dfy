/** `plan` as the source runs it: maps built in loops, then one loop over the rows that moves the capacities and the total. */
module ScalerPass {
  import opened Scaler
  import opened ScalerTheorems
  import opened ScalerFixedPoint
  import opened Wrappers

  // ---- the maps --------------------------------------------------------------------------

  /** `groupFor` after the groups `gs`: for every row, the first group whose tags agree with it. */
  ghost predicate MapsGroups(releases: seq<ReleaseRow>, gs: seq<Group>, groupFor: map<Key, nat>) {
    forall i :: 0 <= i < |releases| && releases[i].release.Pcr0? ==> Finds(gs, groupFor, releases[i])
  }

  ghost predicate Finds(gs: seq<Group>, groupFor: map<Key, nat>, row: ReleaseRow) {
    GroupFor(gs, row) == if row.release in groupFor then Some(groupFor[row.release]) else None
  }

  lemma {:induction false} GroupForAppend(gs: seq<Group>, g: Group, row: ReleaseRow)
    ensures GroupFor(gs + [g], row) ==
            if GroupFor(gs, row).Some? then GroupFor(gs, row)
            else if g.pcr0 == row.release && NumbersAgree(row, g) then Some(|gs|) else None
  {
    if gs == [] {
      assert [g][1..] == [];
      assert GroupFor([], row) == None;
    } else {
      GroupForAppend(gs[1..], g, row);
      assert (gs + [g])[1..] == gs[1..] + [g];
    }
  }

  method RowNumber(releases: seq<ReleaseRow>, key: Key) returns (row: Option<ReleaseRow>)
    ensures row.Some? ==> row.value in releases && row.value.release == key
    ensures row.None? ==> forall i :: 0 <= i < |releases| ==> releases[i].release != key
  {
    for i := 0 to |releases|
      invariant forall j :: 0 <= j < i ==> releases[j].release != key
    {
      if releases[i].release == key { return Some(releases[i]); }
    }
    return None;
  }

  method MapGroups(s: Snapshot) returns (groupFor: map<Key, nat>)
    requires ValidSnapshot(s)
    ensures MapsGroups(s.releases, s.groups, groupFor)
  {
    hide GroupFor;
    groupFor := map[];
    GroupForNone(s.releases);
    for n := 0 to |s.groups|
      invariant MapsGroups(s.releases, s.groups[..n], groupFor)
      invariant forall key :: key in groupFor ==> key.Pcr0?
    {
      var g := s.groups[n];
      ghost var before := groupFor;
      assert s.groups[..n + 1] == s.groups[..n] + [g];
      if g.pcr0.Pcr0? && g.pcr0 !in groupFor {
        var row := RowNumber(s.releases, g.pcr0);
        if row.None? || NumbersAgree(row.value, g) { groupFor := groupFor[g.pcr0 := n]; }
      }
      forall i | 0 <= i < |s.releases| && s.releases[i].release.Pcr0?
        ensures Finds(s.groups[..n + 1], groupFor, s.releases[i])
      {
        GroupForAppend(s.groups[..n], g, s.releases[i]);
        assert Finds(s.groups[..n], before, s.releases[i]);
      }
    }
    assert s.groups[..|s.groups|] == s.groups;
  }

  lemma GroupForNone(releases: seq<ReleaseRow>)
    ensures forall i :: 0 <= i < |releases| ==> GroupFor([], releases[i]) == None
  {
  }

  /** Every group's capacity, as long as no row before `i` was for it. */
  ghost predicate Untouched(s: Snapshot, i: nat, desired: map<nat, int>) {
    forall k :: 0 <= k < |s.groups| && NotYet(s, i, k) ==> s.groups[k].name in desired && desired[s.groups[k].name] == s.groups[k].desired
  }

  method CapacityMap(s: Snapshot) returns (desired: map<nat, int>, total: int)
    requires ValidSnapshot(s)
    ensures total == Total(s.groups) && Untouched(s, 0, desired)
  {
    desired, total := map[], 0;
    for k := 0 to |s.groups|
      invariant total == Total(s.groups[..k])
      invariant forall j :: 0 <= j < k ==> s.groups[j].name in desired && desired[s.groups[j].name] == s.groups[j].desired
    {
      assert s.groups[..k + 1][..k] == s.groups[..k];
      total := total + Max(0, s.groups[k].desired);
      desired := desired[s.groups[k].name := s.groups[k].desired];
    }
    assert s.groups[..|s.groups|] == s.groups;
  }

  method CountLive(s: Snapshot, row: ReleaseRow) returns (anyLive: bool, busy: bool)
    ensures anyLive == AnyLive(s, row) && busy == Busy(s, row)
  {
    anyLive, busy := false, false;
    if row.release !in s.live { return; }
    var all := s.live[row.release];
    for k := 0 to |all|
      invariant anyLive == exists j :: 0 <= j < k && IsLive(all[j], s.now)
      invariant busy == exists j :: 0 <= j < k && IsLive(all[j], s.now) && all[j].load > 0
    {
      if IsLive(all[k], s.now) {
        anyLive := true;
        if all[k].load > 0 { busy := true; }
      }
    }
  }

  // ---- the pass ---------------------------------------------------------------------------

  /** What one row does, with its group's capacity now `cur`: the change, a block, a busy mark. */
  method OneRow(s: Snapshot, row: ReleaseRow, at: Option<nat>, cur: int, total: int)
    returns (change: Option<Change>, blocked: bool, marksBusy: bool)
    requires row.release.Pcr0? && at == GroupFor(s.groups, row)
    requires at.Some? ==> cur == s.groups[at.value].desired
    ensures change == ChangeOf(s, row, total)
    ensures blocked == Blocked(s, row, total)
    ensures marksBusy == MarksBusy(s, row)
  {
    hide GroupFor, LastActivity, Busy, AnyLive;
    change, blocked, marksBusy := None, false, false;
    var newRequest := NewRequest(s, row);
    if at.None? { return None, newRequest && Routable(row), false; }
    var g := s.groups[at.value];
    if !Routable(row) {
      if cur > g.min { change := Some(Change(g.name, row.release, cur, g.min, NotRoutable)); }
      return;
    }
    var anyLive, busy := CountLive(s, row);
    if busy && (row.busyAt.None? || s.now - row.busyAt.value >= BUSY_REFRESH_MS) { marksBusy := true; }
    if newRequest && !anyLive && cur < 1 {
      var cap := Min(s.limits.perRelease, g.max);
      if cap < 1 || total + 1 > s.limits.total {
        blocked := true;
      } else {
        change := Some(Change(g.name, row.release, cur, 1, Start));
      }
      LiveIfBusy(s, row);
      return;
    }
    if cur > g.min && !busy {
      var last := LastActivity(row);
      if last.None? {
        marksBusy := true;
      } else if s.now - last.value >= s.limits.idleMinutes * 60_000 {
        change := Some(Change(g.name, row.release, cur, g.min, Idle));
      }
    }
  }

  lemma LiveIfBusy(s: Snapshot, row: ReleaseRow)
    ensures Busy(s, row) ==> AnyLive(s, row)
  {
  }

  /** What the plan holds after a row's change, block and busy mark. */
  function Recorded(out: Output, row: ReleaseRow, change: Option<Change>, blocked: bool, marksBusy: bool): Output {
    var raises := change.Some? && change.value.to > change.value.from;
    Output(out.setDesired + ToSeq(change),
           if change.Some? && change.value.reason.Start? then out.markStartIssued + [row.release] else out.markStartIssued,
           if marksBusy then out.markBusy + [row.release] else out.markBusy,
           if raises then out.startsIssued + 1 else out.startsIssued,
           if change.Some? && !raises then out.stopsIssued + 1 else out.stopsIssued,
           if blocked then out.startsBlocked + 1 else out.startsBlocked)
  }

  ghost predicate Progress(s: Snapshot, i: nat, total: int, out: Output)
    requires i <= |s.releases|
  {
    && total == TotalAfter(s, i)
    && out.setDesired == Changes(s, i) && out.markStartIssued == Starts(Changes(s, i))
    && out.markBusy == BusyMarks(s, i) && out.startsBlocked == BlockedCount(s, i)
    && out.startsIssued == Raises(Changes(s, i)) && out.startsIssued + out.stopsIssued == |Changes(s, i)|
  }

  lemma Snoc(cs: seq<Change>, c: Change)
    ensures Starts(cs + [c]) == Starts(cs) + if c.reason.Start? then [c.release] else []
    ensures Raises(cs + [c]) == Raises(cs) + if c.to > c.from then 1 else 0
  {
    assert (cs + [c])[..|cs|] == cs;
  }

  /** What the functions of the plan say of one row more. */
  lemma RowMore(s: Snapshot, i: nat)
    requires i < |s.releases|
    ensures TotalAfter(s, i + 1) == TotalAfter(s, i) + Delta(ChangeAt(s, i))
    ensures Changes(s, i + 1) == Changes(s, i) + ToSeq(ChangeAt(s, i))
    ensures BusyMarks(s, i + 1) == BusyMarks(s, i) + if MarksBusy(s, s.releases[i]) then [s.releases[i].release] else []
    ensures BlockedCount(s, i + 1) == BlockedCount(s, i) + if Blocked(s, s.releases[i], TotalAfter(s, i)) then 1 else 0
  {
    hide ChangeOf, MarksBusy, Blocked;
  }

  lemma ProgressRow(s: Snapshot, i: nat, total: int, out: Output, change: Option<Change>, blocked: bool, marksBusy: bool)
    requires ValidSnapshot(s) && i < |s.releases| && Progress(s, i, total, out)
    requires change == ChangeOf(s, s.releases[i], total)
    requires blocked == Blocked(s, s.releases[i], total) && marksBusy == MarksBusy(s, s.releases[i])
    ensures Progress(s, i + 1, total + Delta(change), Recorded(out, s.releases[i], change, blocked, marksBusy))
  {
    hide ChangeOf, MarksBusy, Blocked, Starts, Raises, BusyMarks, BlockedCount, TotalAfter, Changes, ValidSnapshot;
    RowMore(s, i);
    if change.Some? {
      ChangeNamesRow(s, s.releases[i], total);
      Snoc(Changes(s, i), change.value);
    } else {
      assert Changes(s, i + 1) == Changes(s, i);
    }
  }

  lemma ChangeNamesRow(s: Snapshot, row: ReleaseRow, total: int)
    requires ChangeOf(s, row, total).Some?
    ensures ChangeOf(s, row, total).value.release == row.release
  {
  }

  method RunPlan(s: Snapshot) returns (out: Output)
    requires ValidSnapshot(s)
    ensures out.setDesired == Plan(s)
    ensures out.markStartIssued == Starts(Plan(s))
    ensures out.markBusy == BusyMarks(s, |s.releases|)
    ensures out.startsIssued == Raises(Plan(s)) && out.startsIssued + out.stopsIssued == |Plan(s)|
    ensures out.startsBlocked == BlockedCount(s, |s.releases|)
  {
    hide ChangeOf, MarksBusy, Blocked, GroupFor, NotYet, Untouched, Recorded;
    var groupFor := MapGroups(s);
    var desired: map<nat, int>, total: int := map[], 0;
    desired, total := CapacityMap(s);
    out := Output([], [], [], 0, 0, 0);
    for i := 0 to |s.releases|
      invariant Untouched(s, i, desired) && Progress(s, i, total, out)
    {
      hide Progress, TotalAfter;
      var row := s.releases[i];
      var change: Option<Change>, blocked, marksBusy := None, false, false;
      if row.release.Pcr0? {
        assert Finds(s.groups, groupFor, row);
        var at := if row.release in groupFor then Some(groupFor[row.release]) else None;
        var cur := 0;
        if at.Some? { cur := CurrentOf(s, i, at.value, desired); }
        change, blocked, marksBusy := OneRow(s, row, at, cur, total);
      } else {
        SkippedRow(s, i, total);
      }
      TotalIs(s, i, total, out);
      ProgressRow(s, i, total, out, change, blocked, marksBusy);
      StaysUntouched(s, i, desired);
      out := Recorded(out, row, change, blocked, marksBusy);
      if change.Some? { desired, total := desired[change.value.group := change.value.to], total + change.value.to - change.value.from; }
    }
  }

  lemma TotalIs(s: Snapshot, i: nat, total: int, out: Output)
    requires i <= |s.releases| && Progress(s, i, total, out)
    ensures total == TotalAfter(s, i)
  {
  }

  /** The capacity of a row's group: no row before it was for that group. */
  method CurrentOf(s: Snapshot, i: nat, k: nat, desired: map<nat, int>) returns (cur: int)
    requires ValidSnapshot(s) && i < |s.releases| && Untouched(s, i, desired)
    requires GroupFor(s.groups, s.releases[i]) == Some(k)
    ensures k < |s.groups| && cur == s.groups[k].desired
  {
    FirstForItsGroup(s, i, k);
    cur := desired[s.groups[k].name];
  }

  lemma SkippedRow(s: Snapshot, i: nat, total: int)
    requires i < |s.releases| && s.releases[i].release.NotPcr0?
    ensures ChangeOf(s, s.releases[i], total).None? && !Blocked(s, s.releases[i], total) && !MarksBusy(s, s.releases[i])
  {
  }

  lemma StaysUntouched(s: Snapshot, i: nat, before: map<nat, int>)
    requires ValidSnapshot(s) && i < |s.releases| && Untouched(s, i, before)
    ensures Untouched(s, i + 1, if ChangeAt(s, i).Some? then before[ChangeAt(s, i).value.group := ChangeAt(s, i).value.to] else before)
  {
    hide ChangeOf, NotYet;
    forall k | 0 <= k < |s.groups| && NotYet(s, i + 1, k)
      ensures NotYet(s, i, k) && (ChangeAt(s, i).Some? ==> s.groups[k].name != ChangeAt(s, i).value.group)
    {
      NotYetBefore(s, i + 1, k);
      if ChangeAt(s, i).Some? {
        var k' := ChangeIsSound(s, s.releases[i], TotalAfter(s, i));
        assert k != k';
      }
    }
  }

  // ---- where one pass is not enough -------------------------------------------------------

  const NOW := 100_000_000

  function Wanting(): ReleaseRow { ReleaseRow(Pcr0(1), None, Active, false, false, Some(NOW), None, None) }
  function Idling(): ReleaseRow { ReleaseRow(Pcr0(2), None, Active, false, false, Some(0), None, None) }

  /** Under a total cap of 1, a start waits for an idle stop later in the same pass. */
  function Crowded(): Snapshot {
    Snapshot(NOW, [Wanting(), Idling()], [Group(1, Pcr0(1), 1, 0, 1, 0), Group(2, Pcr0(2), 2, 0, 1, 1)], map[], Limits(1, 1, 30))
  }

  lemma CrowdedPass()
    ensures ValidSnapshot(Crowded())
    ensures TotalAfter(Crowded(), 2) == 0 && Plan(Crowded()) == [Change(2, Pcr0(2), 1, 0, Idle)]
    ensures ChangeAt(Crowded(), 0) == None && ChangeAt(Crowded(), 1) == Some(Change(2, Pcr0(2), 1, 0, Idle))
  {
    var s := Crowded();
    assert s.groups[1..][0] == s.groups[1];
    assert s.groups[..1] == [s.groups[0]] && s.groups[..1][..0] == [];
    assert Total([]) == 0 && Total(s.groups[..1]) == 0 && Total(s.groups) == 1;
    assert GroupFor(s.groups, Wanting()) == Some(0);
    assert GroupFor(s.groups[1..], Idling()) == Some(0);
    assert TotalAfter(s, 0) == 1 && ChangeAt(s, 0) == None;
    assert TotalAfter(s, 1) == 1 && Changes(s, 1) == [];
  }

  /** The second pass still starts the release the first one had to leave. */
  lemma OnePassIsNotEnough()
    ensures ValidSnapshot(Crowded()) && Plan(Crowded()) != []
    ensures Plan(After(Crowded())) != []
  {
    CrowdedPass();
    var s := Crowded();
    var s' := After(s);
    AfterIsValid(s);
    assert GroupFor(s.groups, s.releases[0]) == Some(0);
    GroupAfter(s, 0, 0);
    SameGroupFor(s.groups, s'.groups, s.releases[0], s'.releases[0]);
    StartsNow(s');
  }

  lemma StartsNow(s: Snapshot)
    requires ValidSnapshot(s) && |s.releases| == 2 && s.limits == Limits(1, 1, 30) && Total(s.groups) == 0
    requires GroupFor(s.groups, s.releases[0]) == Some(0)
    requires WantsStart(s, s.releases[0], s.groups[0]) && s.groups[0].max == 1 && s.releases[0].release.Pcr0?
    ensures Plan(s) != []
  {
    assert ChangeAt(s, 0).Some?;
    PlaceInPlan(s, 0, 2);
  }

  // ---- without an idle time --------------------------------------------------------------

  /** Two releases asked for at the same time, with the capacities `a` and `b`, their starts issued as said, and a total cap of 1. */
  function Pair(minutes: int, a: int, b: int, issued: Option<int>, issued': Option<int>): Snapshot {
    Snapshot(NOW, [Wanting().(issued := issued), Wanting().(release := Pcr0(2), issued := issued')],
             [Group(1, Pcr0(1), 1, 0, 1, a), Group(2, Pcr0(2), 2, 0, 1, b)], map[], Limits(1, 1, minutes))
  }

  lemma PairPass(s: Snapshot, minutes: int, a: int, b: int, issued: Option<int>, issued': Option<int>)
    requires s == Pair(minutes, a, b, issued, issued') && a >= 0 && b >= 0
    ensures Total(s.groups) == a + b
    ensures GroupFor(s.groups, s.releases[0]) == Some(0) && GroupFor(s.groups, s.releases[1]) == Some(1)
    ensures ChangeAt(s, 0) == ChangeOf(s, s.releases[0], a + b)
    ensures ChangeAt(s, 1) == ChangeOf(s, s.releases[1], a + b + Delta(ChangeAt(s, 0)))
    ensures !MarksBusy(s, s.releases[0]) && !MarksBusy(s, s.releases[1])
  {
    hide ChangeOf;
    assert s.groups[1..][0] == s.groups[1];
    assert GroupFor(s.groups[1..], s.releases[1]) == Some(0);
    assert s.groups[..1] == [s.groups[0]] && s.groups[..1][..0] == [];
    assert Total([]) == 0 && Total(s.groups[..1]) == a && Total(s.groups) == a + b;
    assert TotalAfter(s, 0) == a + b;
    assert TotalAfter(s, 1) == a + b + Delta(ChangeAt(s, 0));
  }

  /** A pass over such a pair leaves such a pair. */
  lemma PairAfter(minutes: int, a: int, b: int, issued: Option<int>, issued': Option<int>) returns (s: Snapshot)
    requires 0 <= a <= 1 && 0 <= b <= 1
    ensures s == Pair(minutes, a, b, issued, issued') && ValidSnapshot(s)
    ensures GroupFor(s.groups, s.releases[0]) == Some(0) && GroupFor(s.groups, s.releases[1]) == Some(1)
    ensures ChangeAt(s, 0) == ChangeOf(s, s.releases[0], a + b)
    ensures ChangeAt(s, 1) == ChangeOf(s, s.releases[1], a + b + Delta(ChangeAt(s, 0)))
    ensures var c, c' := ChangeAt(s, 0), ChangeAt(s, 1);
            After(s) == Pair(minutes,
              if c.Some? then c.value.to else a, if c'.Some? then c'.value.to else b,
              if c.Some? && c.value.reason.Start? then Some(NOW) else issued, if c'.Some? && c'.value.reason.Start? then Some(NOW) else issued')
  {
    hide ChangeOf, MarksBusy, TotalAfter;
    s := Pair(minutes, a, b, issued, issued');
    PairPass(s, minutes, a, b, issued, issued');
    AfterIsValid(s);
    GroupAfter(s, 0, 0);
    GroupAfter(s, 1, 1);
    var s' := After(s);
    assert s'.groups == [s'.groups[0], s'.groups[1]];
    assert s'.releases == [s'.releases[0], s'.releases[1]];
  }

  /** With no idle time the pair takes turns: the one just started is idle at once, and the third pass still stops one. */
  lemma NoIdleTimeTakesTurns(minutes: int)
    requires minutes <= 0
    ensures ValidSnapshot(Pair(minutes, 0, 0, None, None)) && Plan(After(After(Pair(minutes, 0, 0, None, None)))) != []
  {
    hide GroupFor, After, TotalAfter, Changes;
    var s := PairAfter(minutes, 0, 0, None, None);
    assert After(s) == Pair(minutes, 1, 0, Some(NOW), None);
    var s1 := PairAfter(minutes, 1, 0, Some(NOW), None);
    assert After(s1) == Pair(minutes, 0, 1, Some(NOW), Some(NOW));
    var s2 := PairAfter(minutes, 0, 1, Some(NOW), Some(NOW));
    assert ChangeAt(s2, 1).Some?;
    PlaceInPlan(s2, 1, 2);
  }

  ghost predicate TwoPassesAlwaysSettle(minutes: int) {
    forall s: Snapshot :: ValidSnapshot(s) && s.limits.idleMinutes == minutes ==> Plan(After(After(s))) == []
  }

  /** Two passes settle every snapshot if and only if there is an idle time at all. */
  lemma TwoPassesSettleExactly(minutes: int)
    ensures TwoPassesAlwaysSettle(minutes) <==> minutes >= 1
  {
    hide Plan, After, ValidSnapshot;
    if minutes >= 1 {
      forall s: Snapshot | ValidSnapshot(s) && s.limits.idleMinutes == minutes ensures Plan(After(After(s))) == [] { TwoPassesSettle(s); }
    } else {
      NoIdleTimeTakesTurns(minutes);
      assert Pair(minutes, 0, 0, None, None).limits.idleMinutes == minutes;
    }
  }
}
