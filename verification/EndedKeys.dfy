/**
 * Recovering keys whose recovery ended without the vault adopting them
 * (lambda/member/vault.ts): which ones a new recovery carries over, and that a
 * key told "recovery ended" is admitted in no role (with
 * lambda/shared/vault-tombstone.ts).
 */
module EndedKeys {
  import opened Wrappers
  import VaultRow

  const KEEP_S := 30 * 86_400
  const GRACE_S := 3600
  const MAX_ENDED := 5

  datatype StoredKey = StoredKey(key: nat, kid: nat, seqNo: Option<int>, until: Option<int>)
  datatype Why = WasCancelled | WasExpired
  datatype EndedKey = EndedKey(kid: nat, key: nat, endedAt: int, reason: Why)

  datatype Recovery = Recovery(
    state: VaultRow.RecoveryState, expiresAt: int, cancelledAt: Option<int>,
    recovering: Option<StoredKey>, claimKeys: seq<StoredKey>, ended: seq<EndedKey>)

  datatype Row = Row(
    appKey: Option<StoredKey>, appKeyNext: Option<StoredKey>, appKeyPending: Option<StoredKey>, recovery: Option<Recovery>)

  predicate Active(r: Recovery, now: int) { now < r.expiresAt && !VaultRow.Ended(r.state) }

  /** The recovery's own recovering key, once it ended without the vault adopting it. */
  function EndedOf(prev: Option<Recovery>, now: int): Option<EndedKey> {
    if prev.None? || Active(prev.value, now) || prev.value.recovering.None? then None
    else
      var r, k := prev.value, prev.value.recovering.value;
      match r.state
      case Cancelled =>
        var at := if r.cancelledAt.Some? && r.cancelledAt.value < r.expiresAt then r.cancelledAt.value else r.expiresAt;
        Some(EndedKey(k.kid, k.key, at, WasCancelled))
      case Registered => Some(EndedKey(k.kid, k.key, r.expiresAt, WasExpired))
      case _ => None
  }

  // ---- what a new recovery carries over ---------------------------------------------------

  /** The ends a row knows: those it carried, then its own. */
  function Known(prev: Option<Recovery>, now: int): seq<EndedKey> {
    if prev.None? then [] else prev.value.ended + (if EndedOf(prev, now).Some? then [EndedOf(prev, now).value] else [])
  }

  predicate Kept(e: EndedKey, now: int) { now < e.endedAt + KEEP_S }

  function KeptOf(es: seq<EndedKey>, now: int): seq<EndedKey> {
    if es == [] then []
    else
      var before, e := KeptOf(es[..|es| - 1], now), es[|es| - 1];
      if Kept(e, now) then before + [e] else before
  }

  /** The place of a kid among the entries of a map, in the order they were first set. */
  function PlaceOf(entries: seq<EndedKey>, kid: nat): (r: Option<nat>)
    ensures r.Some? ==> r.value < |entries| && entries[r.value].kid == kid
    ensures r.None? ==> forall i :: 0 <= i < |entries| ==> entries[i].kid != kid
  {
    if entries == [] then None
    else if entries[0].kid == kid then Some(0)
    else
      var r := PlaceOf(entries[1..], kid);
      if r.Some? then Some(r.value + 1) else None
  }

  /** The map by kid: an end takes the place of an earlier or equal one. */
  function SetByKid(entries: seq<EndedKey>, e: EndedKey): seq<EndedKey> {
    var at := PlaceOf(entries, e.kid);
    if at.None? then entries + [e]
    else if e.endedAt >= entries[at.value].endedAt then entries[at.value := e]
    else entries
  }

  function ByKid(es: seq<EndedKey>): seq<EndedKey> {
    if es == [] then [] else SetByKid(ByKid(es[..|es| - 1]), es[|es| - 1])
  }

  /** Into a sorted sequence, after every entry that ended no later: what a stable sort does with one more element. */
  function Insert(sorted: seq<EndedKey>, e: EndedKey): seq<EndedKey> {
    if sorted == [] then [e]
    else if sorted[|sorted| - 1].endedAt <= e.endedAt then sorted + [e]
    else Insert(sorted[..|sorted| - 1], e) + [sorted[|sorted| - 1]]
  }

  function SortByEnd(es: seq<EndedKey>): seq<EndedKey> {
    if es == [] then [] else Insert(SortByEnd(es[..|es| - 1]), es[|es| - 1])
  }

  function Newest(es: seq<EndedKey>): seq<EndedKey> { if |es| <= MAX_ENDED then es else es[|es| - MAX_ENDED..] }

  function Carry(known: seq<EndedKey>, now: int): seq<EndedKey> { Newest(SortByEnd(ByKid(KeptOf(known, now)))) }

  /** carriedEndedKeys: filter, map by kid, sort, and the last five. */
  method CarriedEndedKeys(prev: Option<Recovery>, now: int) returns (out: seq<EndedKey>)
    ensures out == Carry(Known(prev, now), now)
  {
    var known := if prev.Some? then prev.value.ended else [];
    var own := EndedOf(prev, now);
    if own.Some? { known := known + [own.value]; }
    assert known == Known(prev, now);
    var all: seq<EndedKey> := [];
    for i := 0 to |known|
      invariant all == KeptOf(known[..i], now)
    {
      assert known[..i + 1][..i] == known[..i];
      if Kept(known[i], now) { all := all + [known[i]]; }
    }
    assert known[..|known|] == known;
    var byKid: seq<EndedKey> := [];
    for i := 0 to |all|
      invariant byKid == ByKid(all[..i])
    {
      assert all[..i + 1][..i] == all[..i];
      var e := all[i];
      var at := PlaceOf(byKid, e.kid);
      if at.None? {
        byKid := byKid + [e];
      } else if e.endedAt >= byKid[at.value].endedAt {
        byKid := byKid[at.value := e];
      }
    }
    assert all[..|all|] == all;
    var sorted := SortByEnd(byKid);
    out := if |sorted| > MAX_ENDED then sorted[|sorted| - MAX_ENDED..] else sorted;
  }

  // ---- the selection it stands for -----------------------------------------------------------

  ghost predicate Increasing(es: seq<EndedKey>) {
    forall i, j :: 0 <= i < j < |es| ==> es[i].endedAt < es[j].endedAt
  }

  ghost predicate HasKid(es: seq<EndedKey>, kid: nat) { exists i :: 0 <= i < |es| && es[i].kid == kid }

  /** From a history in order: the last end of each kid, if not past its 30 days. */
  ghost function Latest(es: seq<EndedKey>, now: int): seq<EndedKey> {
    if es == [] then []
    else
      var rest := Latest(es[1..], now);
      if Kept(es[0], now) && !HasKid(es[1..], es[0].kid) then [es[0]] + rest else rest
  }

  /** The newest five of those. */
  ghost function Select(history: seq<EndedKey>, now: int): seq<EndedKey> { Newest(Latest(history, now)) }

  // ---- the selection, one end at a time ----------------------------------------------------

  ghost function Without(es: seq<EndedKey>, kid: nat): seq<EndedKey> {
    if es == [] then []
    else if es[|es| - 1].kid == kid then Without(es[..|es| - 1], kid)
    else Without(es[..|es| - 1], kid) + [es[|es| - 1]]
  }

  lemma {:induction false} WithoutJoin(a: seq<EndedKey>, b: seq<EndedKey>, kid: nat)
    ensures Without(a + b, kid) == Without(a, kid) + Without(b, kid)
    decreases |b|
  {
    if b == [] {
      assert a + b == a;
    } else {
      assert (a + b)[..|a + b| - 1] == a + b[..|b| - 1];
      WithoutJoin(a, b[..|b| - 1], kid);
    }
  }

  lemma {:induction false} WithoutAbsent(es: seq<EndedKey>, kid: nat)
    requires !HasKid(es, kid)
    ensures Without(es, kid) == es
  {
    if es != [] {
      var t := es[..|es| - 1];
      assert forall i :: 0 <= i < |t| ==> t[i] == es[i];
      WithoutAbsent(t, kid);
    }
  }

  function Maybe(e: EndedKey, now: int): seq<EndedKey> { if Kept(e, now) then [e] else [] }

  lemma {:induction false} HasKidMore(es: seq<EndedKey>, o: EndedKey, kid: nat)
    ensures HasKid(es + [o], kid) <==> HasKid(es, kid) || o.kid == kid
  {
    var all := es + [o];
    assert all[|es|] == o;
    assert forall i :: 0 <= i < |es| ==> all[i] == es[i];
  }

  lemma WithoutOne(e: EndedKey, kid: nat)
    ensures Without([e], kid) == if e.kid == kid then [] else [e]
  {
    assert [e][..0] == [];
    assert Without([], kid) == [];
  }

  /** One more end: it takes the place of its kid's. */
  lemma {:induction false} LatestMore(es: seq<EndedKey>, o: EndedKey, now: int)
    ensures Latest(es + [o], now) == Without(Latest(es, now), o.kid) + Maybe(o, now)
  {
    hide HasKid;
    if es == [] {
      assert [o][1..] == [] && !HasKid([], o.kid) by { NoKidInNone(o.kid); }
      assert Latest([], now) == [];
    } else {
      LatestMore(es[1..], o, now);
      assert (es + [o])[1..] == es[1..] + [o];
      HasKidMore(es[1..], o, es[0].kid);
      WithoutJoin([es[0]], Latest(es[1..], now), o.kid);
      WithoutOne(es[0], o.kid);
    }
  }

  lemma NoKidInNone(kid: nat)
    ensures !HasKid([], kid)
  {
  }

  lemma {:induction false} NoneKept(es: seq<EndedKey>, now: int)
    requires forall i :: 0 <= i < |es| ==> !Kept(es[i], now)
    ensures Latest(es, now) == [] && KeptOf(es, now) == []
  {
    if es != [] {
      LatestNone(es, now);
      NoneKept(es[..|es| - 1], now);
    }
  }

  lemma {:induction false} LatestNone(es: seq<EndedKey>, now: int)
    requires forall i :: 0 <= i < |es| ==> !Kept(es[i], now)
    ensures Latest(es, now) == []
  {
    if es != [] { LatestNone(es[1..], now); }
  }

  // ---- the code's way comes to the same -------------------------------------------------------

  ghost predicate Sorted(es: seq<EndedKey>) {
    forall i, j :: 0 <= i < j < |es| ==> es[i].endedAt <= es[j].endedAt
  }

  /** Every end came before `bound`. */
  ghost predicate Below(es: seq<EndedKey>, bound: int) { forall i :: 0 <= i < |es| ==> es[i].endedAt < bound }

  lemma {:induction false} InsertKeeps(es: seq<EndedKey>, e: EndedKey, bound: int, kid: nat)
    ensures Below(es, bound) && e.endedAt < bound ==> Below(Insert(es, e), bound)
    ensures !HasKid(es, kid) && e.kid != kid ==> !HasKid(Insert(es, e), kid)
  {
    if es != [] && es[|es| - 1].endedAt > e.endedAt { InsertKeeps(es[..|es| - 1], e, bound, kid); }
  }

  lemma {:induction false} SortKeeps(es: seq<EndedKey>, bound: int, kid: nat)
    ensures Below(es, bound) ==> Below(SortByEnd(es), bound)
    ensures !HasKid(es, kid) ==> !HasKid(SortByEnd(es), kid)
  {
    if es != [] {
      var t := es[..|es| - 1];
      assert forall i :: 0 <= i < |t| ==> t[i] == es[i];
      SortKeeps(t, bound, kid);
      InsertKeeps(SortByEnd(t), es[|es| - 1], bound, kid);
    }
  }

  lemma {:induction false} InsertSorted(es: seq<EndedKey>, e: EndedKey)
    requires Sorted(es)
    ensures Sorted(Insert(es, e))
  {
    if es != [] && es[|es| - 1].endedAt > e.endedAt {
      var t, last := es[..|es| - 1], es[|es| - 1];
      InsertSorted(t, e);
      assert forall i :: 0 <= i < |t| ==> t[i].endedAt < last.endedAt + 1;
      InsertKeeps(t, e, last.endedAt + 1, 0);
    }
  }

  lemma {:induction false} SortSorted(es: seq<EndedKey>)
    ensures Sorted(SortByEnd(es))
  {
    if es != [] {
      SortSorted(es[..|es| - 1]);
      InsertSorted(SortByEnd(es[..|es| - 1]), es[|es| - 1]);
    }
  }

  lemma {:induction false} InsertOfKid(es: seq<EndedKey>, e: EndedKey)
    ensures Without(Insert(es, e), e.kid) == Without(es, e.kid)
  {
    if es == [] {
      WithoutOne(e, e.kid);
    } else {
      var t, last := es[..|es| - 1], es[|es| - 1];
      if last.endedAt <= e.endedAt {
        WithoutJoin(es, [e], e.kid);
        WithoutOne(e, e.kid);
      } else {
        InsertOfKid(t, e);
        WithoutJoin(Insert(t, e), [last], e.kid);
        WithoutJoin(t, [last], e.kid);
        assert es == t + [last];
      }
    }
  }

  lemma {:induction false} WithoutBelow(es: seq<EndedKey>, bound: int, kid: nat)
    requires Below(es, bound)
    ensures Below(Without(es, kid), bound)
  {
    if es != [] { WithoutBelow(es[..|es| - 1], bound, kid); }
  }

  lemma AllBefore(es: seq<EndedKey>, e: EndedKey)
    requires Below(es, e.endedAt + 1)
    ensures Insert(es, e) == es + [e]
  {
  }

  lemma {:induction false} InsertOther(es: seq<EndedKey>, e: EndedKey, kid: nat)
    requires Sorted(es) && e.kid != kid
    ensures Without(Insert(es, e), kid) == Insert(Without(es, kid), e)
  {
    hide Without;
    if es == [] {
      WithoutOne(e, kid);
      WithoutNone(kid);
    } else {
      var t, last := es[..|es| - 1], es[|es| - 1];
      if last.endedAt <= e.endedAt {
        WithoutLast(es, e, kid);
        assert Below(es, e.endedAt + 1);
        WithoutBelow(es, e.endedAt + 1, kid);
        AllBefore(Without(es, kid), e);
      } else {
        InsertOther(t, e, kid);
        InsertedBefore(es, e);
        WithoutLast(Insert(t, e), last, kid);
        assert es == t + [last];
        WithoutLast(t, last, kid);
        if last.kid != kid { InsertBeforeLast(Without(t, kid), last, e); }
      }
    }
  }

  lemma WithoutNone(kid: nat)
    ensures Without([], kid) == []
  {
  }

  lemma InsertedBefore(es: seq<EndedKey>, e: EndedKey)
    requires es != [] && es[|es| - 1].endedAt > e.endedAt
    ensures Insert(es, e) == Insert(es[..|es| - 1], e) + [es[|es| - 1]]
  {
  }

  lemma WithoutLast(es: seq<EndedKey>, e: EndedKey, kid: nat)
    ensures Without(es + [e], kid) == if e.kid == kid then Without(es, kid) else Without(es, kid) + [e]
  {
    WithoutJoin(es, [e], kid);
    WithoutOne(e, kid);
  }

  lemma {:induction false} InsertBeforeLast(es: seq<EndedKey>, o: EndedKey, b: EndedKey)
    requires b.endedAt < o.endedAt
    ensures Insert(es + [o], b) == Insert(es, b) + [o]
  {
    assert (es + [o])[..|es|] == es;
  }

  /** Kids of a map's entries are distinct. */
  ghost predicate DistinctKids(es: seq<EndedKey>) {
    forall i, j :: 0 <= i < j < |es| ==> es[i].kid != es[j].kid
  }

  /** Sorting after an entry was replaced by the newest end: that end comes last, the rest as before. */
  lemma {:induction false} SortReplaced(es: seq<EndedKey>, p: nat, o: EndedKey)
    requires p < |es| && es[p].kid == o.kid && DistinctKids(es) && Below(es, o.endedAt)
    ensures SortByEnd(es[p := o]) == Without(SortByEnd(es), o.kid) + [o]
    decreases |es|
  {
    hide Insert, Without, HasKid;
    var t, b := es[..|es| - 1], es[|es| - 1];
    if p == |es| - 1 {
      assert es[p := o][..p] == t;
      NoKidBefore(es, o.kid);
      SortKeeps(t, o.endedAt + 1, o.kid);
      AllBefore(SortByEnd(t), o);
      InsertOfKid(SortByEnd(t), b);
      WithoutAbsent(SortByEnd(t), o.kid);
    } else {
      assert es[p := o][..|es| - 1] == t[p := o];
      SortReplaced(t, p, o);
      SortSorted(t);
      InsertBeforeLast(Without(SortByEnd(t), o.kid), o, b);
      InsertOther(SortByEnd(t), b, o.kid);
    }
  }

  lemma NoKidBefore(es: seq<EndedKey>, kid: nat)
    requires es != [] && es[|es| - 1].kid == kid && DistinctKids(es)
    ensures !HasKid(es[..|es| - 1], kid)
  {
  }

  lemma SetByKidOk(es: seq<EndedKey>, o: EndedKey)
    requires DistinctKids(es) && Below(es, o.endedAt)
    ensures DistinctKids(SetByKid(es, o)) && Below(SetByKid(es, o), o.endedAt + 1)
    ensures SortByEnd(SetByKid(es, o)) == Without(SortByEnd(es), o.kid) + [o]
  {
    hide Insert, Without;
    var at := PlaceOf(es, o.kid);
    if at.None? {
      assert (es + [o])[..|es|] == es;
      SortKeeps(es, o.endedAt + 1, o.kid);
      AllBefore(SortByEnd(es), o);
      WithoutAbsent(SortByEnd(es), o.kid);
    } else {
      SortReplaced(es, at.value, o);
    }
  }

  /** The map of a history in order: distinct kids, and sorted it is the latest ends. */
  lemma {:induction false} CarryIsLatest(es: seq<EndedKey>, now: int)
    requires Increasing(es)
    ensures DistinctKids(ByKid(KeptOf(es, now)))
    ensures forall bound :: Below(es, bound) ==> Below(ByKid(KeptOf(es, now)), bound)
    ensures SortByEnd(ByKid(KeptOf(es, now))) == Latest(es, now)
  {
    hide Latest, SortByEnd, SetByKid, Without;
    if es == [] {
      assert KeptOf(es, now) == [] && ByKid([]) == [];
      EmptyCase(now);
    } else {
      var t, o := es[..|es| - 1], es[|es| - 1];
      assert es == t + [o];
      CarryIsLatest(t, now);
      LatestMore(t, o, now);
      assert Below(t, o.endedAt);
      if Kept(o, now) {
        assert (KeptOf(t, now) + [o])[..|KeptOf(t, now)|] == KeptOf(t, now);
        SetByKidOk(ByKid(KeptOf(t, now)), o);
      } else {
        NoneKept(es, now);
        EmptyCase(now);
      }
    }
  }

  lemma EmptyCase(now: int)
    ensures SortByEnd([]) == [] && Latest([], now) == []
  {
  }

  /** For ends in order, what the code carries is the newest five of the latest ends. */
  lemma CarryIsSelect(es: seq<EndedKey>, now: int)
    requires Increasing(es)
    ensures Carry(es, now) == Select(es, now)
  {
    CarryIsLatest(es, now);
  }
}
