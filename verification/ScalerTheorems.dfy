/** The caps, the one change a group gets, and the fixed point of repeated passes. */
module ScalerTheorems {
  import opened Scaler
  import opened Wrappers

  // ---- applying a plan ----------------------------------------------------------------

  function Apply(gs: seq<Group>, c: Change): (r: seq<Group>)
    ensures |r| == |gs|
    ensures forall k :: 0 <= k < |gs| ==> r[k] == if gs[k].name == c.group then gs[k].(desired := c.to) else gs[k]
  {
    if gs == [] then []
    else
      var n := |gs| - 1;
      Apply(gs[..n], c) + [if gs[n].name == c.group then gs[n].(desired := c.to) else gs[n]]
  }

  /** The groups after the changes, made in order. */
  function ApplyAll(gs: seq<Group>, cs: seq<Change>): (r: seq<Group>)
    ensures |r| == |gs|
  {
    if cs == [] then gs else Apply(ApplyAll(gs, cs[..|cs| - 1]), cs[|cs| - 1])
  }

  ghost predicate SameButDesired(gs: seq<Group>, gs': seq<Group>) {
    |gs'| == |gs| && forall k :: 0 <= k < |gs| ==> gs'[k] == gs[k].(desired := gs'[k].desired)
  }

  lemma {:induction false} ApplyKeepsTotal(gs: seq<Group>, c: Change)
    requires forall k :: 0 <= k < |gs| ==> gs[k].name != c.group
    ensures Apply(gs, c) == gs
  {
    assert forall k :: 0 <= k < |gs| ==> Apply(gs, c)[k] == gs[k];
  }

  lemma {:induction false} ApplyTotal(gs: seq<Group>, c: Change, k: nat)
    requires UniqueNames(gs) && k < |gs| && gs[k].name == c.group
    requires gs[k].desired == c.from && 0 <= c.from && 0 <= c.to
    ensures Total(Apply(gs, c)) == Total(gs) + c.to - c.from
    decreases |gs|
  {
    var n := |gs| - 1;
    assert Apply(gs, c)[..n] == Apply(gs[..n], c);
    if k == n {
      ApplyKeepsTotal(gs[..n], c);
    } else {
      ApplyTotal(gs[..n], c, k);
      assert gs[n].name != c.group;
    }
  }

  // ---- one pass ---------------------------------------------------------------------------

  /** No row before `i` is for this group. */
  ghost predicate NotYet(s: Snapshot, i: nat, k: nat)
    requires k < |s.groups|
  {
    forall j :: 0 <= j < i && j < |s.releases| ==> s.releases[j].release != s.groups[k].pcr0
  }

  /** After `i` rows: the running total is the total, a group no row was for is untouched, and capacities stay in order. */
  ghost predicate Tracked(s: Snapshot, i: nat, gs: seq<Group>)
    requires i <= |s.releases|
  {
    && SameButDesired(s.groups, gs)
    && Total(gs) == TotalAfter(s, i)
    && (forall k :: 0 <= k < |gs| && NotYet(s, i, k) ==> gs[k] == s.groups[k])
    && (forall k :: 0 <= k < |gs| ==> 0 <= gs[k].min <= gs[k].desired <= gs[k].max)
  }

  /** What a change says, whatever the total: it is one of the three kinds, of the row's own group. */
  lemma ChangeIsSound(s: Snapshot, row: ReleaseRow, total: int) returns (k: nat)
    requires ValidSnapshot(s) && ChangeOf(s, row, total).Some?
    ensures k < |s.groups| && GroupFor(s.groups, row) == Some(k)
    ensures var c, g := ChangeOf(s, row, total).value, s.groups[k];
            && c.group == g.name && c.release == row.release == g.pcr0 && c.from == g.desired
            && (c.reason.Start? ==> c.from == 0 && c.to == 1 && g.max >= 1 && total + 1 <= s.limits.total)
            && (!c.reason.Start? ==> c.to == g.min < c.from)
  {
    k := GroupFor(s.groups, row).value;
  }

  lemma NotYetBefore(s: Snapshot, i: nat, k: nat)
    requires 0 < i <= |s.releases| && k < |s.groups| && NotYet(s, i, k)
    ensures NotYet(s, i - 1, k) && s.releases[i - 1].release != s.groups[k].pcr0
  {
  }

  lemma FirstForItsGroup(s: Snapshot, i: nat, k: nat)
    requires ValidSnapshot(s) && i < |s.releases| && k < |s.groups| && s.groups[k].pcr0 == s.releases[i].release
    ensures NotYet(s, i, k)
  {
  }

  /** One row's change, on top of what the earlier rows did. */
  lemma TracksChange(s: Snapshot, i: nat, gs: seq<Group>)
    requires ValidSnapshot(s) && 0 < i <= |s.releases| && Tracked(s, i - 1, gs) && ChangeAt(s, i - 1).Some?
    ensures Tracked(s, i, Apply(gs, ChangeAt(s, i - 1).value))
  {
    hide ChangeOf, NotYet, Apply;
    var c := ChangeAt(s, i - 1).value;
    var k := ChangeIsSound(s, s.releases[i - 1], TotalAfter(s, i - 1));
    FirstForItsGroup(s, i - 1, k);
    forall a, b | 0 <= a < b < |gs| ensures gs[a].name != gs[b].name { assert s.groups[a].name != s.groups[b].name; }
    ApplyTotal(gs, c, k);
    var gs' := Apply(gs, c);
    forall m | 0 <= m < |gs| && m != k ensures gs'[m] == gs[m] {
      assert gs[m] == s.groups[m].(desired := gs[m].desired) && s.groups[m].name != c.group;
    }
    forall m | 0 <= m < |gs| && NotYet(s, i, m) ensures gs'[m] == s.groups[m] { NotYetBefore(s, i, m); }
  }

  lemma TracksNothing(s: Snapshot, i: nat, gs: seq<Group>)
    requires ValidSnapshot(s) && 0 < i <= |s.releases| && Tracked(s, i - 1, gs) && ChangeAt(s, i - 1).None?
    ensures Tracked(s, i, gs)
  {
    hide ChangeOf, NotYet;
    forall m | 0 <= m < |gs| && NotYet(s, i, m) ensures gs[m] == s.groups[m] { NotYetBefore(s, i, m); }
  }

  lemma {:induction false} Tracks(s: Snapshot, i: nat)
    requires ValidSnapshot(s) && i <= |s.releases|
    ensures Tracked(s, i, ApplyAll(s.groups, Changes(s, i)))
    decreases i
  {
    hide ChangeAt, Tracked;
    if i == 0 {
      TracksStart(s);
    } else {
      Tracks(s, i - 1);
      var gs := ApplyAll(s.groups, Changes(s, i - 1));
      if ChangeAt(s, i - 1).Some? {
        TracksChange(s, i, gs);
        assert Changes(s, i)[..|Changes(s, i)| - 1] == Changes(s, i - 1);
      } else {
        TracksNothing(s, i, gs);
        assert Changes(s, i) == Changes(s, i - 1);
      }
    }
  }

  lemma TracksStart(s: Snapshot)
    requires ValidSnapshot(s)
    ensures Tracked(s, 0, s.groups)
  {
  }

  lemma {:induction false} TotalCapped(s: Snapshot, i: nat)
    requires ValidSnapshot(s) && i <= |s.releases|
    ensures TotalAfter(s, i) <= Max(Total(s.groups), s.limits.total)
    decreases i
  {
    if i > 0 {
      TotalCapped(s, i - 1);
      hide ChangeOf;
      var t := TotalAfter(s, i - 1);
      if ChangeOf(s, s.releases[i - 1], t).Some? { var k := ChangeIsSound(s, s.releases[i - 1], t); }
    }
  }

  /** Every beginning of a plan is what the first rows gave. */
  lemma {:induction false} PrefixOfPlan(s: Snapshot, m: nat, n: nat) returns (i: nat)
    requires m <= |s.releases| && n <= |Changes(s, m)|
    ensures i <= m && Changes(s, m)[..n] == Changes(s, i)
    decreases m
  {
    hide ChangeAt;
    if n == |Changes(s, m)| {
      i := m;
    } else {
      i := PrefixOfPlan(s, m - 1, n);
    }
  }

  /** However far the plan's changes have been made, the total desired capacity is within the larger of its start and the cap. */
  lemma EveryPrefixWithinCap(s: Snapshot, n: nat)
    requires ValidSnapshot(s) && n <= |Plan(s)|
    ensures Total(ApplyAll(s.groups, Plan(s)[..n])) <= Max(Total(s.groups), s.limits.total)
  {
    var i := PrefixOfPlan(s, |s.releases|, n);
    Tracks(s, i);
    TotalCapped(s, i);
  }

  // ---- each change ----------------------------------------------------------------------------

  /** The row a change comes from. */
  lemma {:induction false} RowOf(s: Snapshot, m: nat, n: nat) returns (i: nat)
    requires m <= |s.releases| && n < |Changes(s, m)|
    ensures i < m && ChangeAt(s, i) == Some(Changes(s, m)[n]) && |Changes(s, i)| == n
    decreases m
  {
    hide ChangeAt;
    if n < |Changes(s, m - 1)| {
      i := RowOf(s, m - 1, n);
    } else {
      i := m - 1;
    }
  }

  ghost predicate IsRow(s: Snapshot, row: ReleaseRow) { row in s.releases && row.release.Pcr0? }

  /**
   * Every start is of a routable release with a fresh request newer than the
   * last start, with nothing live, from 0 to 1, within the per-release cap and
   * its group's maximum; every stop goes to the group's minimum, an idle one
   * only for a release none of whose live instances holds anything.
   */
  lemma EveryChangeIsJustified(s: Snapshot, n: nat) returns (row: ReleaseRow, g: Group)
    requires ValidSnapshot(s) && n < |Plan(s)|
    ensures IsRow(s, row) && g in s.groups
    ensures var c := Plan(s)[n];
            && c.group == g.name && c.release == row.release == g.pcr0 && c.from == g.desired
            && (c.reason.Start? ==>
                  && Routable(row) && NewRequest(s, row) && !AnyLive(s, row)
                  && c.from == 0 && c.to == 1 <= Min(s.limits.perRelease, g.max))
            && (c.reason.Idle? ==>
                  && Routable(row) && !Busy(s, row) && c.to == g.min < c.from
                  && LastActivity(row).Some? && s.now - LastActivity(row).value >= s.limits.idleMinutes * 60_000)
            && (c.reason.NotRoutable? ==> !Routable(row) && c.to == g.min < c.from)
  {
    var i := RowOf(s, |s.releases|, n);
    row := s.releases[i];
    g := s.groups[GroupFor(s.groups, row).value];
  }

  /** No two changes of a plan are of the same group or the same release. */
  lemma EachGroupChangesOnce(s: Snapshot, m: nat, n: nat)
    requires ValidSnapshot(s) && m < n < |Plan(s)|
    ensures Plan(s)[m].group != Plan(s)[n].group && Plan(s)[m].release != Plan(s)[n].release
  {
    hide ChangeOf;
    var i := RowOf(s, |s.releases|, m);
    var j := RowOf(s, |s.releases|, n);
    var a := ChangeIsSound(s, s.releases[i], TotalAfter(s, i));
    var b := ChangeIsSound(s, s.releases[j], TotalAfter(s, j));
    assert i != j;
    assert a != b;
  }
}
