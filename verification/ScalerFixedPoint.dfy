/**
 * Passes repeated over their own output, with the same clock and instances:
 * the capacities come to rest after at most two, and after one unless a start
 * waits and room was left for it.
 */
module ScalerFixedPoint {
  import opened Scaler
  import opened ScalerTheorems
  import opened Wrappers

  /** A row with the markers a pass writes: a start is recorded as issued now, a busy mark is of now. */
  function AfterRow(s: Snapshot, i: nat): ReleaseRow
    requires i < |s.releases|
  {
    var row, c := s.releases[i], ChangeAt(s, i);
    row.(issued := if c.Some? && c.value.reason.Start? then Some(s.now) else row.issued,
         busyAt := if MarksBusy(s, row) then Some(s.now) else row.busyAt)
  }

  /** The snapshot after a pass was carried out. */
  function After(s: Snapshot): Snapshot {
    s.(groups := ApplyAll(s.groups, Plan(s)),
       releases := seq(|s.releases|, i requires 0 <= i < |s.releases| => AfterRow(s, i)))
  }

  // ---- a group after a pass -------------------------------------------------------------

  lemma {:induction false} ApplyAllMiss(gs: seq<Group>, cs: seq<Change>, k: nat)
    requires k < |gs| && forall m :: 0 <= m < |cs| ==> cs[m].group != gs[k].name
    ensures ApplyAll(gs, cs)[k] == gs[k]
    decreases |cs|
  {
    if cs != [] { ApplyAllMiss(gs, cs[..|cs| - 1], k); }
  }

  lemma {:induction false} ApplyAllHit(gs: seq<Group>, cs: seq<Change>, k: nat, m: nat)
    requires k < |gs| && m < |cs| && cs[m].group == gs[k].name
    requires forall n :: 0 <= n < |cs| && n != m ==> cs[n].group != gs[k].name
    ensures ApplyAll(gs, cs)[k] == gs[k].(desired := cs[m].to)
    decreases |cs|
  {
    var n := |cs| - 1;
    if m < n { ApplyAllHit(gs, cs[..n], k, m); } else { ApplyAllMiss(gs, cs[..n], k); }
  }

  lemma {:induction false} PlaceInPlan(s: Snapshot, i: nat, m: nat)
    requires i < m <= |s.releases| && ChangeAt(s, i).Some?
    ensures |Changes(s, i)| < |Changes(s, m)| && Changes(s, m)[|Changes(s, i)|] == ChangeAt(s, i).value
    decreases m
  {
    hide ChangeAt;
    if i < m - 1 { PlaceInPlan(s, i, m - 1); }
  }

  /** Only a row's own change is of its group. */
  lemma OwnChangeOnly(s: Snapshot, i: nat, k: nat, n: nat)
    requires ValidSnapshot(s) && i < |s.releases| && GroupFor(s.groups, s.releases[i]) == Some(k)
    requires n < |Plan(s)| && Plan(s)[n].group == s.groups[k].name
    ensures ChangeAt(s, i) == Some(Plan(s)[n])
  {
    hide ChangeOf;
    var j := RowOf(s, |s.releases|, n);
    var k' := ChangeIsSound(s, s.releases[j], TotalAfter(s, j));
    assert k' == k;
    assert j == i;
  }

  lemma GroupAfter(s: Snapshot, i: nat, k: nat)
    requires ValidSnapshot(s) && i < |s.releases| && GroupFor(s.groups, s.releases[i]) == Some(k)
    ensures After(s).groups[k] ==
            if ChangeAt(s, i).Some? then s.groups[k].(desired := ChangeAt(s, i).value.to) else s.groups[k]
  {
    hide ChangeOf;
    if ChangeAt(s, i).Some? {
      var c := ChangeAt(s, i).value;
      var _ := ChangeIsSound(s, s.releases[i], TotalAfter(s, i));
      PlaceInPlan(s, i, |s.releases|);
      var m := |Changes(s, i)|;
      forall n | 0 <= n < |Plan(s)| && n != m ensures Plan(s)[n].group != s.groups[k].name {
        if n < m { EachGroupChangesOnce(s, n, m); } else { EachGroupChangesOnce(s, m, n); }
      }
      ApplyAllHit(s.groups, Plan(s), k, m);
    } else {
      forall n | 0 <= n < |Plan(s)| ensures Plan(s)[n].group != s.groups[k].name {
        if Plan(s)[n].group == s.groups[k].name { OwnChangeOnly(s, i, k, n); }
      }
      ApplyAllMiss(s.groups, Plan(s), k);
    }
  }

  lemma {:induction false} SameGroupFor(gs: seq<Group>, gs': seq<Group>, row: ReleaseRow, row': ReleaseRow)
    requires SameButDesired(gs, gs') && row'.release == row.release && row'.number == row.number
    ensures GroupFor(gs', row') == GroupFor(gs, row)
  {
    if gs != [] { SameGroupFor(gs[1..], gs'[1..], row, row'); }
  }

  lemma NamesStay(gs: seq<Group>, gs': seq<Group>)
    requires UniqueNames(gs) && SameButDesired(gs, gs')
    ensures UniqueNames(gs')
  {
    forall i, j | 0 <= i < j < |gs'| ensures gs'[i].name != gs'[j].name { assert gs[i].name != gs[j].name; }
  }

  lemma AfterGroups(s: Snapshot)
    requires ValidSnapshot(s)
    ensures SameButDesired(s.groups, After(s).groups) && UniqueNames(After(s).groups)
    ensures Total(After(s).groups) == TotalAfter(s, |s.releases|)
    ensures forall k :: 0 <= k < |s.groups| ==> 0 <= After(s).groups[k].min <= After(s).groups[k].desired <= After(s).groups[k].max
  {
    hide ChangeOf, MarksBusy, NotYet, UniqueNames;
    Tracks(s, |s.releases|);
    assert UniqueNames(s.groups);
    NamesStay(s.groups, After(s).groups);
  }

  lemma AfterIsValid(s: Snapshot)
    requires ValidSnapshot(s)
    ensures ValidSnapshot(After(s)) && SameButDesired(s.groups, After(s).groups)
    ensures Total(After(s).groups) == TotalAfter(s, |s.releases|)
  {
    hide ChangeOf, MarksBusy, UniqueNames, ApplyAll, TotalAfter, Total;
    AfterGroups(s);
    forall i, j | 0 <= i < j < |s.releases| ensures After(s).releases[i].release != After(s).releases[j].release {
      assert s.releases[i].release != s.releases[j].release;
    }
  }

  // ---- the second pass on one row -----------------------------------------------------------

  /** What the row and its group are after a pass, spelled out. */
  ghost predicate Passed(s: Snapshot, row: ReleaseRow, g: Group, total: int, row': ReleaseRow, g': Group) {
    var c := ChangeOf(s, row, total);
    && row'.issued == (if c.Some? && c.value.reason.Start? then Some(s.now) else row.issued)
    && row'.busyAt == (if MarksBusy(s, row) then Some(s.now) else row.busyAt)
    && row' == row.(issued := row'.issued, busyAt := row'.busyAt)
    && g' == g.(desired := if c.Some? then c.value.to else g.desired)
  }

  /** Stopped as idle with its start request still new: an idle time under the 5 minutes a request stays fresh. */
  predicate StoppedYetWanted(s: Snapshot, row: ReleaseRow, total: int) {
    var c := ChangeOf(s, row, total);
    c.Some? && c.value.reason.Idle? && c.value.to < 1
    && NewRequest(s, row) && !AnyLive(s, row) && WithinReleaseCap(s, s.groups[GroupFor(s.groups, row).value])
  }

  /** A start that the pass leaves to come: held back by the total cap alone, or of a release it has just stopped. */
  predicate StartWaits(s: Snapshot, row: ReleaseRow, total: int) {
    BlockedByTotal(s, row, total) || StoppedYetWanted(s, row, total)
  }

  /** A row that was stopped, started or marked is left alone; only a start that waits can still come. */
  lemma SettledRow(s: Snapshot, row: ReleaseRow, k: nat, total: int, s': Snapshot, row': ReleaseRow, total': int)
    requires s.limits.idleMinutes >= 1 && ValidSnapshot(s)
    requires s' == s.(groups := s'.groups, releases := s'.releases) && SameButDesired(s.groups, s'.groups)
    requires GroupFor(s.groups, row) == Some(k) && GroupFor(s'.groups, row') == Some(k)
    requires Passed(s, row, s.groups[k], total, row', s'.groups[k])
    requires ChangeOf(s', row', total').Some?
    ensures ChangeOf(s', row', total').value.reason.Start? && StartWaits(s, row, total)
  {
    hide GroupFor;
    assert AnyLive(s', row') == AnyLive(s, row) && Busy(s', row') == Busy(s, row);
  }

  lemma SecondChange(s: Snapshot, i: nat, total': int)
    requires ValidSnapshot(s) && s.limits.idleMinutes >= 1 && i < |s.releases|
    requires ChangeOf(After(s), After(s).releases[i], total').Some?
    ensures ChangeOf(After(s), After(s).releases[i], total').value.reason.Start?
    ensures StartWaits(s, s.releases[i], TotalAfter(s, i))
  {
    AfterIsValid(s);
    var row, row' := s.releases[i], After(s).releases[i];
    SameGroupFor(s.groups, After(s).groups, row, row');
    if GroupFor(s.groups, row).Some? {
      hide ChangeOf, MarksBusy, StartWaits;
      var k := GroupFor(s.groups, row).value;
      GroupAfter(s, i, k);
      SettledRow(s, row, k, TotalAfter(s, i), After(s), row', total');
    }
  }

  lemma {:induction false} NothingChanges(s: Snapshot, i: nat)
    requires i <= |s.releases| && forall j :: 0 <= j < i ==> ChangeAt(s, j).None?
    ensures Changes(s, i) == [] && TotalAfter(s, i) == Total(s.groups)
    decreases i
  {
    hide ChangeOf;
    if i > 0 { NothingChanges(s, i - 1); }
  }

  // ---- the fixed point -----------------------------------------------------------------------

  /** Some start was left to come. */
  ghost predicate SomeStartWaits(s: Snapshot) {
    exists i :: 0 <= i < |s.releases| && StartWaits(s, s.releases[i], TotalAfter(s, i))
  }

  /** After the pass there is room under the total cap for one more instance. */
  predicate RoomLeft(s: Snapshot) { Total(After(s).groups) + 1 <= s.limits.total }

  /** A second pass changes nothing on the first `i` rows, unless a start waits and there is room for it. */
  lemma {:induction false} NothingWithoutRoom(s: Snapshot, i: nat)
    requires ValidSnapshot(s) && s.limits.idleMinutes >= 1 && i <= |s.releases|
    requires !SomeStartWaits(s) || !RoomLeft(s)
    ensures forall j :: 0 <= j < i ==> ChangeAt(After(s), j).None?
    decreases i
  {
    hide ChangeAt, After, SomeStartWaits, RoomLeft, ValidSnapshot;
    if i > 0 {
      NothingWithoutRoom(s, i - 1);
      NothingAt(s, i - 1);
    }
  }

  lemma NothingAt(s: Snapshot, j: nat)
    requires ValidSnapshot(s) && s.limits.idleMinutes >= 1 && j < |s.releases|
    requires !SomeStartWaits(s) || !RoomLeft(s)
    requires forall k :: 0 <= k < j ==> ChangeAt(After(s), k).None?
    ensures ChangeAt(After(s), j).None?
  {
    hide ChangeOf, StartWaits, MarksBusy, ApplyAll, UniqueNames, SameButDesired, Total, Changes;
    var s' := After(s);
    if ChangeAt(s', j).Some? {
      NothingChanges(s', j);
      AfterIsValid(s);
      SecondChange(s, j, TotalAfter(s', j));
      var _ := ChangeIsSound(s', s'.releases[j], TotalAfter(s', j));
    }
  }

  /** A start that waits is still wanted after the pass, by the same group with the same caps. */
  lemma StillWanted(s: Snapshot, i: nat, total: int)
    requires ValidSnapshot(s) && i < |s.releases| && StartWaits(s, s.releases[i], TotalAfter(s, i))
    requires total + 1 <= s.limits.total
    ensures ChangeOf(After(s), After(s).releases[i], total).Some?
  {
    hide ApplyAll, Changes, TotalAfter;
    AfterIsValid(s);
    var row, row' := s.releases[i], After(s).releases[i];
    SameGroupFor(s.groups, After(s).groups, row, row');
    var k := GroupFor(s.groups, row).value;
    GroupAfter(s, i, k);
    assert AnyLive(After(s), row') == AnyLive(s, row);
  }

  /** A start that waits and room for it: the second pass does something. */
  lemma RoomIsUsed(s: Snapshot)
    requires ValidSnapshot(s) && SomeStartWaits(s) && RoomLeft(s)
    ensures Plan(After(s)) != []
  {
    hide ChangeOf, StartWaits, MarksBusy, ApplyAll, Total, Changes;
    var s' := After(s);
    var i :| 0 <= i < |s.releases| && StartWaits(s, s.releases[i], TotalAfter(s, i));
    if forall j :: 0 <= j < i ==> ChangeAt(s', j).None? {
      NothingChanges(s', i);
      StillWanted(s, i, TotalAfter(s', i));
      PlaceInPlan(s', i, |s'.releases|);
    } else {
      var j :| 0 <= j < i && ChangeAt(s', j).Some?;
      PlaceInPlan(s', j, |s'.releases|);
    }
  }

  /**
   * Exactly when one pass settles the capacities: unless a start waits, held
   * back by the total cap or of a release just stopped, and the pass left
   * room for it.
   */
  lemma OnePassSettlesExactly(s: Snapshot)
    requires ValidSnapshot(s) && s.limits.idleMinutes >= 1
    ensures Plan(After(s)) == [] <==> (SomeStartWaits(s) ==> !RoomLeft(s))
  {
    hide ChangeOf, StartWaits, MarksBusy, ApplyAll, Total, Changes, SomeStartWaits, RoomLeft;
    if SomeStartWaits(s) && RoomLeft(s) {
      RoomIsUsed(s);
    } else {
      NothingWithoutRoom(s, |s.releases|);
      NothingChanges(After(s), |After(s).releases|);
    }
  }

  /** With an idle time over the 5 minutes of a fresh request (it is 30), only the total cap matters. */
  lemma OnlyTheCapHoldsBack(s: Snapshot, i: nat)
    requires i < |s.releases| && s.limits.idleMinutes > 5
    ensures StartWaits(s, s.releases[i], TotalAfter(s, i)) <==> BlockedByTotal(s, s.releases[i], TotalAfter(s, i))
  {
  }

  /** Then, if the cap held no start back, a second pass changes nothing. */
  lemma OnePassSettles(s: Snapshot)
    requires ValidSnapshot(s) && s.limits.idleMinutes > 5
    requires forall i :: 0 <= i < |s.releases| ==> !BlockedByTotal(s, s.releases[i], TotalAfter(s, i))
    ensures Plan(After(s)) == []
  {
    hide ChangeOf, StartWaits, BlockedByTotal, MarksBusy, RoomLeft;
    forall i | 0 <= i < |s.releases| ensures !StartWaits(s, s.releases[i], TotalAfter(s, i)) { OnlyTheCapHoldsBack(s, i); }
    OnePassSettlesExactly(s);
  }

  /** When every change is a start, the running total only rises. */
  lemma {:induction false} OnlyRises(s: Snapshot, i: nat, j: nat)
    requires ValidSnapshot(s) && i <= j <= |s.releases|
    requires forall k :: 0 <= k < |s.releases| && ChangeAt(s, k).Some? ==> ChangeAt(s, k).value.reason.Start?
    ensures TotalAfter(s, i) <= TotalAfter(s, j)
    decreases j
  {
    hide ChangeOf;
    if i < j {
      OnlyRises(s, i, j - 1);
      if ChangeAt(s, j - 1).Some? { var _ := ChangeIsSound(s, s.releases[j - 1], TotalAfter(s, j - 1)); }
    }
  }

  /** A start the cap held back in a pass of starts only is held back in the next pass too. */
  lemma {:induction false} StillHeldBack(s: Snapshot, i: nat)
    requires ValidSnapshot(s) && s.limits.idleMinutes >= 1 && i <= |s.releases|
    requires forall k :: 0 <= k < |s.releases| && ChangeAt(s, k).Some? ==> ChangeAt(s, k).value.reason.Start?
    ensures forall j :: 0 <= j < i ==> ChangeAt(After(s), j).None?
    decreases i
  {
    hide ChangeOf, StartWaits, MarksBusy, ApplyAll, UniqueNames, SameButDesired, Total, Changes;
    if i > 0 {
      StillHeldBack(s, i - 1);
      var s', j := After(s), i - 1;
      if ChangeAt(s', j).Some? {
        NothingChanges(s', j);
        AfterIsValid(s);
        OnlyRises(s, j, |s.releases|);
        SecondChange(s, j, TotalAfter(s', j));
        assert BlockedByTotal(s, s.releases[j], TotalAfter(s, j)) by { OnlyStartsWait(s, j); }
        Held(s, s', j);
      }
    }
  }

  lemma OnlyStartsWait(s: Snapshot, j: nat)
    requires j < |s.releases| && StartWaits(s, s.releases[j], TotalAfter(s, j))
    requires ChangeAt(s, j).Some? ==> ChangeAt(s, j).value.reason.Start?
    ensures BlockedByTotal(s, s.releases[j], TotalAfter(s, j))
  {
  }

  lemma Held(s: Snapshot, s': Snapshot, j: nat)
    requires j < |s.releases| && |s'.releases| == |s.releases| && s'.limits == s.limits
    requires BlockedByTotal(s, s.releases[j], TotalAfter(s, j))
    requires TotalAfter(s, j) <= TotalAfter(s', j)
    ensures ChangeAt(s', j).None? || !ChangeAt(s', j).value.reason.Start?
  {
  }

  /** Whatever the snapshot, the capacities are at rest after two passes. */
  lemma TwoPassesSettle(s: Snapshot)
    requires ValidSnapshot(s) && s.limits.idleMinutes >= 1
    ensures Plan(After(After(s))) == []
  {
    hide ChangeOf, StartWaits, MarksBusy;
    AfterIsValid(s);
    var s1 := After(s);
    forall k | 0 <= k < |s1.releases| && ChangeAt(s1, k).Some? ensures ChangeAt(s1, k).value.reason.Start? {
      SecondChange(s, k, TotalAfter(s1, k));
    }
    StillHeldBack(s1, |s1.releases|);
    NothingChanges(After(s1), |s1.releases|);
  }
}
