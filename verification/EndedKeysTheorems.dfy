/** Carrying ended keys through any chain of recoveries, and telling a key that its recovery ended. */
module EndedKeysTheorems {
  import opened EndedKeys
  import opened Wrappers
  import VaultRow

  // ---- filtering --------------------------------------------------------------------

  lemma {:induction false} KeptJoin(a: seq<EndedKey>, b: seq<EndedKey>, now: int)
    ensures KeptOf(a + b, now) == KeptOf(a, now) + KeptOf(b, now)
    decreases |b|
  {
    if b == [] {
      assert a + b == a;
    } else {
      assert (a + b)[..|a + b| - 1] == a + b[..|b| - 1];
      KeptJoin(a, b[..|b| - 1], now);
    }
  }

  lemma KeptOne(e: EndedKey, now: int)
    ensures KeptOf([e], now) == Maybe(e, now)
  {
    assert [e][..0] == [];
    assert KeptOf([], now) == [];
  }

  /** The last part of the ends, from `d` on, is what is kept. */
  ghost predicate KeptFrom(es: seq<EndedKey>, now: int, d: nat) {
    d <= |es| && forall i :: 0 <= i < |es| ==> (Kept(es[i], now) <==> d <= i)
  }

  lemma {:induction false} KeptIsTail(es: seq<EndedKey>, now: int, d: nat)
    requires KeptFrom(es, now, d)
    ensures KeptOf(es, now) == es[d..]
    decreases |es|
  {
    if es != [] {
      var t := es[..|es| - 1];
      assert Kept(es[|es| - 1], now) <==> d < |es|;
      if d < |es| {
        KeptIsTail(t, now, d);
        assert es[d..] == t[d..] + [es[|es| - 1]];
      } else {
        KeptIsTail(t, now, d - 1);
      }
    }
  }

  /** Of ends in order, the kept ones are the last ones. */
  lemma {:induction false} KeptSuffix(es: seq<EndedKey>, now: int) returns (d: nat)
    requires Increasing(es)
    ensures KeptFrom(es, now, d)
  {
    if es == [] {
      d := 0;
    } else {
      var t := es[..|es| - 1];
      assert forall i :: 0 <= i < |t| ==> t[i] == es[i];
      d := KeptSuffix(t, now);
      if !Kept(es[|es| - 1], now) { d := |es|; }
    }
  }

  lemma TailKept(es: seq<EndedKey>, now: int, d: nat, m: nat)
    requires KeptFrom(es, now, d) && m <= |es|
    ensures KeptFrom(es[m..], now, if d <= m then 0 else d - m)
  {
    hide Kept;
    assert forall i :: 0 <= i < |es| - m ==> es[m..][i] == es[m + i];
  }

  lemma KeptOfNewest(es: seq<EndedKey>, now: int)
    requires Increasing(es)
    ensures KeptOf(Newest(es), now) == Newest(KeptOf(es, now))
  {
    hide KeptOf, Kept;
    var d := KeptSuffix(es, now);
    KeptIsTail(es, now, d);
    if |es| > MAX_ENDED {
      var m := |es| - MAX_ENDED;
      TailKept(es, now, d, m);
      KeptIsTail(es[m..], now, if d <= m then 0 else d - m);
      if d > m { assert es[m..][d - m..] == es[d..]; }
    }
  }

  // ---- the latest ends --------------------------------------------------------------

  ghost predicate Above(es: seq<EndedKey>, bound: int) { forall i :: 0 <= i < |es| ==> bound < es[i].endedAt }

  lemma {:induction false} LatestFrom(es: seq<EndedKey>, now: int, bound: int, kid: nat)
    ensures Above(es, bound) ==> Above(Latest(es, now), bound)
    ensures HasKid(Latest(es, now), kid) ==> HasKid(es, kid)
  {
    if es != [] {
      var t := es[1..];
      assert forall i :: 0 <= i < |t| ==> t[i] == es[i + 1];
      LatestFrom(t, now, bound, kid);
      if HasKid(Latest(es, now), kid) && !HasKid(t, kid) { assert es[0].kid == kid; }
    }
  }

  lemma {:induction false} LatestOrdered(es: seq<EndedKey>, now: int)
    requires Increasing(es)
    ensures Increasing(Latest(es, now)) && DistinctKids(Latest(es, now))
  {
    if es != [] {
      var t := es[1..];
      assert forall i :: 0 <= i < |t| ==> t[i] == es[i + 1];
      LatestOrdered(t, now);
      LatestFrom(t, now, es[0].endedAt, es[0].kid);
      assert Above(t, es[0].endedAt);
    }
  }

  lemma {:induction false} LatestLater(es: seq<EndedKey>, now: int, later: int)
    requires now <= later
    ensures Latest(es, later) == KeptOf(Latest(es, now), later)
  {
    hide HasKid;
    if es == [] {
      assert KeptOf([], later) == [];
    } else {
      var rest := Latest(es[1..], now);
      LatestLater(es[1..], now, later);
      KeptJoin([es[0]], rest, later);
      KeptOne(es[0], later);
    }
  }

  lemma {:induction false} LatestOfDistinct(es: seq<EndedKey>, now: int)
    requires DistinctKids(es)
    ensures Latest(es, now) == KeptOf(es, now)
  {
    if es == [] {
      assert KeptOf([], now) == [];
    } else {
      var t := es[1..];
      assert forall i :: 0 <= i < |t| ==> t[i] == es[i + 1];
      LatestOfDistinct(t, now);
      assert !HasKid(t, es[0].kid);
      KeptJoin([es[0]], t, now);
      KeptOne(es[0], now);
      assert es == [es[0]] + t;
    }
  }

  lemma NewestOrdered(es: seq<EndedKey>)
    requires Increasing(es) && DistinctKids(es)
    ensures Increasing(Newest(es)) && DistinctKids(Newest(es))
    ensures forall bound :: Below(es, bound) ==> Below(Newest(es), bound)
  {
    if |es| > MAX_ENDED {
      var m := |es| - MAX_ENDED;
      assert forall i :: 0 <= i < MAX_ENDED ==> es[m..][i] == es[m + i];
    }
  }

  // ---- five at a time is as good as all at once ---------------------------------------------

  lemma {:induction false} WithoutCount(es: seq<EndedKey>, kid: nat)
    requires DistinctKids(es)
    ensures |es| - 1 <= |Without(es, kid)| <= |es|
  {
    if es != [] {
      var t := es[..|es| - 1];
      assert forall i :: 0 <= i < |t| ==> t[i] == es[i];
      WithoutCount(t, kid);
      if es[|es| - 1].kid == kid { WithoutAbsent(t, kid); }
    }
  }

  lemma NewestIs(es: seq<EndedKey>)
    ensures Newest(es) == if |es| <= MAX_ENDED then es else es[|es| - MAX_ENDED..]
  {
  }

  lemma TailIsEnough(es: seq<EndedKey>, o: EndedKey)
    requires DistinctKids(es)
    ensures Newest(Without(Newest(es), o.kid) + [o]) == Newest(Without(es, o.kid) + [o])
  {
    hide Without, Newest;
    if |es| <= MAX_ENDED {
      NewestIs(es);
    } else {
      NewestIs(es);
      var m := |es| - MAX_ENDED;
      var a, b := es[..m], es[m..];
      assert es == a + b;
      assert forall i :: 0 <= i < MAX_ENDED ==> b[i] == es[m + i];
      WithoutJoin(a, b, o.kid);
      WithoutCount(b, o.kid);
      var wa, wb := Without(a, o.kid), Without(b, o.kid);
      LastOfBoth(wa, wb + [o]);
      assert wa + wb + [o] == wa + (wb + [o]);
    }
  }

  lemma LastOfBoth(a: seq<EndedKey>, b: seq<EndedKey>)
    requires |b| >= MAX_ENDED
    ensures Newest(a + b) == Newest(b)
  {
  }

  /** What was carried at an earlier time, with one more end or none, gives the same as the whole history. */
  lemma SelectCarries(history: seq<EndedKey>, own: seq<EndedKey>, now: int, later: int)
    requires Increasing(history + own) && |own| <= 1 && now <= later
    ensures Increasing(Select(history, now) + own)
    ensures Select(Select(history, now) + own, later) == Select(history + own, later)
  {
    assert forall i, j :: 0 <= i < j < |history| ==> (history + own)[i] == history[i] && (history + own)[j] == history[j];
    var l := Latest(history, now);
    LatestOrdered(history, now);
    NewestOrdered(l);
    var s := Newest(l);
    LatestOfDistinct(s, later);
    KeptOfNewest(l, later);
    LatestLater(history, now, later);
    var p := Latest(history, later);
    assert Latest(s, later) == Newest(p);
    if own == [] {
      assert s + own == s && history + own == history;
      assert Newest(Newest(p)) == Newest(p);
    } else {
      var o := own[0];
      assert own == [o];
      OwnLast(history, own, now);
      LatestMore(s, o, later);
      LatestMore(history, o, later);
      LatestOrdered(history, later);
      if Kept(o, later) {
        TailIsEnough(p, o);
      } else {
        AllExpired(history, own, later);
      }
    }
  }

  lemma AllExpired(history: seq<EndedKey>, own: seq<EndedKey>, now: int)
    requires Increasing(history + own) && |own| == 1 && !Kept(own[0], now)
    ensures Latest(history, now) == []
  {
    assert (history + own)[|history|] == own[0];
    forall i | 0 <= i < |history| ensures !Kept(history[i], now) { assert (history + own)[i] == history[i]; }
    LatestNone(history, now);
  }

  /** The own end is after all that was selected. */
  lemma OwnLast(history: seq<EndedKey>, own: seq<EndedKey>, now: int)
    requires Increasing(history + own) && |own| == 1 && Increasing(Select(history, now))
    ensures Increasing(Select(history, now) + own)
  {
    var o := own[0];
    assert (history + own)[|history|] == o;
    forall i | 0 <= i < |history| ensures history[i].endedAt < o.endedAt { assert (history + own)[i] == history[i]; }
    SelectBelow(history, now, o.endedAt);
  }

  lemma {:induction false} LatestBelow(es: seq<EndedKey>, now: int, bound: int)
    requires Below(es, bound)
    ensures Below(Latest(es, now), bound)
  {
    if es != [] { LatestBelow(es[1..], now, bound); }
  }

  lemma SelectBelow(es: seq<EndedKey>, now: int, bound: int)
    requires Below(es, bound)
    ensures Below(Select(es, now), bound)
  {
    LatestBelow(es, now, bound);
  }

  // ---- a chain of recoveries -----------------------------------------------------------------

  /** Recovery `i + 1` replaced recovery `i` at `nows[i]` and carried over what the code carries; the first had nothing before it. */
  ghost predicate Chain(rs: seq<Recovery>, nows: seq<int>) {
    && |rs| == |nows|
    && (rs != [] ==> rs[0].ended == [])
    && (forall i :: 0 <= i < |rs| - 1 ==> nows[i] <= nows[i + 1])
    && (forall i :: 0 <= i < |rs| - 1 ==> rs[i + 1].ended == Carry(Known(Some(rs[i]), nows[i]), nows[i]))
  }

  function OwnEnd(r: Recovery, now: int): seq<EndedKey> {
    if EndedOf(Some(r), now).Some? then [EndedOf(Some(r), now).value] else []
  }

  /** Every recovery's own end, in order. */
  ghost function Ends(rs: seq<Recovery>, nows: seq<int>): seq<EndedKey>
    requires |rs| == |nows|
  {
    if rs == [] then []
    else Ends(rs[..|rs| - 1], nows[..|nows| - 1]) + OwnEnd(rs[|rs| - 1], nows[|nows| - 1])
  }

  lemma StartIncreasing(a: seq<EndedKey>, b: seq<EndedKey>)
    requires Increasing(a + b)
    ensures Increasing(a)
  {
    assert forall i :: 0 <= i < |a| ==> (a + b)[i] == a[i];
  }

  /**
   * After any chain of recoveries whose keys ended at distinct, increasing
   * times, what the last one hands on is what one would select from the whole
   * history: the latest end of each kid, within its 30 days, the newest five.
   */
  lemma {:induction false} CarriedIsSelectedFromHistory(rs: seq<Recovery>, nows: seq<int>)
    requires Chain(rs, nows) && rs != [] && Increasing(Ends(rs, nows))
    ensures var n := |rs| - 1;
            Carry(Known(Some(rs[n]), nows[n]), nows[n]) == Select(Ends(rs, nows), nows[n])
    decreases |rs|
  {
    hide Carry, Select, EndedOf, Latest, Increasing;
    var n := |rs| - 1;
    var own := OwnEnd(rs[n], nows[n]);
    var before := Ends(rs[..n], nows[..n]);
    assert Ends(rs, nows) == before + own;
    if n == 0 {
      assert before == [];
      assert Known(Some(rs[0]), nows[0]) == own == before + own;
      CarryIsSelect(own, nows[0]);
    } else {
      StartIncreasing(before, own);
      CarriedIsSelectedFromHistory(rs[..n], nows[..n]);
      assert rs[n].ended == Select(before, nows[n - 1]);
      SelectCarries(before, own, nows[n - 1], nows[n]);
      CarryIsSelect(Select(before, nows[n - 1]) + own, nows[n]);
    }
  }

  // ---- telling a key that its recovery ended -----------------------------------------------------

  /** The host's pending app key, while it counts. */
  function PendingAppKey(v: Row): Option<StoredKey> {
    if v.appKeyNext.None? || v.appKeyNext.value.seqNo.None? then None
    else if v.appKey.None? then v.appKeyNext
    else if v.appKey.value.kid == v.appKeyNext.value.kid then None
    else if v.appKey.value.seqNo.None? || v.appKeyNext.value.seqNo.value <= v.appKey.value.seqNo.value then None
    else v.appKeyNext
  }

  function OptionSeq(k: Option<StoredKey>): seq<StoredKey> { if k.None? then [] else [k.value] }

  function VaultAppKeys(v: Row): seq<StoredKey> { OptionSeq(v.appKey) + OptionSeq(PendingAppKey(v)) }

  predicate LivePending(v: Row, now: int) {
    v.appKeyPending.Some? && v.appKeyPending.value.until.Some? && v.appKeyPending.value.until.value > now
  }

  predicate KeyInUse(v: Row, kid: nat, now: int) {
    (v.appKey.Some? && v.appKey.value.kid == kid) || (LivePending(v, now) && v.appKeyPending.value.kid == kid)
  }

  datatype Role = AppRole | PendingRole | ClaimRole | RecoveringRole

  predicate Adopted(v: Row, r: Recovery) {
    r.recovering.Some? && v.appKey.Some? && r.recovering.value.kid == v.appKey.value.kid
  }

  function NotInUse(v: Row, ks: seq<StoredKey>, now: int): (r: seq<StoredKey>)
    ensures forall k :: k in r <==> k in ks && !KeyInUse(v, k.kid, now)
  {
    if ks == [] then []
    else
      assert forall k :: k in ks <==> k == ks[0] || k in ks[1..];
      (if KeyInUse(v, ks[0].kid, now) then [] else [ks[0]]) + NotInUse(v, ks[1..], now)
  }

  /** The keys a row admits in a role now. */
  function KeysFor(v: Row, role: Role, now: int): seq<StoredKey> {
    match role
    case AppRole => VaultAppKeys(v)
    case PendingRole =>
      if LivePending(v, now) && (v.appKey.None? || v.appKeyPending.value.kid != v.appKey.value.kid) then [v.appKeyPending.value] else []
    case ClaimRole =>
      if v.recovery.None? || !Active(v.recovery.value, now) || Adopted(v, v.recovery.value) then []
      else NotInUse(v, v.recovery.value.claimKeys, now)
    case RecoveringRole =>
      if v.recovery.None? || !Active(v.recovery.value, now) || Adopted(v, v.recovery.value) then []
      else OptionSeq(v.recovery.value.recovering)
  }

  predicate NamesKid(k: Option<StoredKey>, kid: nat) { k.Some? && k.value.kid == kid }

  /** Admitted now or soon: never told that its recovery ended. */
  predicate MayBeAdmitted(v: Row, kid: nat, now: int) {
    || NamesKid(v.appKey, kid) || NamesKid(v.appKeyNext, kid) || NamesKid(v.appKeyPending, kid)
    || (v.recovery.Some? && Active(v.recovery.value, now)
        && (NamesKid(v.recovery.value.recovering, kid)
            || exists i :: 0 <= i < |v.recovery.value.claimKeys| && v.recovery.value.claimKeys[i].kid == kid))
  }

  /** The first of the ends of a kid that no other end of it is after. */
  function LatestOfKid(es: seq<EndedKey>, kid: nat): (r: Option<EndedKey>)
    ensures r.Some? ==> r.value in es && r.value.kid == kid
    ensures r.Some? ==> forall i :: 0 <= i < |es| && es[i].kid == kid ==> es[i].endedAt <= r.value.endedAt
    ensures r.None? ==> forall i :: 0 <= i < |es| ==> es[i].kid != kid
  {
    if es == [] then None
    else
      var n := |es| - 1;
      var before := LatestOfKid(es[..n], kid);
      assert forall i :: 0 <= i < n ==> es[..n][i] == es[i];
      if es[n].kid == kid && (before.None? || es[n].endedAt > before.value.endedAt) then Some(es[n]) else before
  }

  function EndedKeyFor(v: Row, kid: nat, now: int): Option<EndedKey> {
    if MayBeAdmitted(v, kid, now) then None
    else
      var latest := LatestOfKid(Known(v.recovery, now), kid);
      if latest.Some? && latest.value.endedAt + GRACE_S <= now < latest.value.endedAt + KEEP_S then latest else None
  }

  /** A kid that is told its recovery ended is admitted in no role, and is judged by its latest known end. */
  lemma ToldIsNeverAdmitted(v: Row, kid: nat, now: int, role: Role)
    requires EndedKeyFor(v, kid, now).Some?
    ensures forall k :: k in KeysFor(v, role, now) ==> k.kid != kid
    ensures var e := EndedKeyFor(v, kid, now).value;
            && e.kid == kid && e in Known(v.recovery, now)
            && e.endedAt + GRACE_S <= now < e.endedAt + KEEP_S
            && forall i :: 0 <= i < |Known(v.recovery, now)| && Known(v.recovery, now)[i].kid == kid ==>
                 Known(v.recovery, now)[i].endedAt <= e.endedAt
  {
    hide Known, Active;
  }

  // ---- the same, named directly ---------------------------------------------------------------

  /** The end of a recovery that was cancelled, or expired registered, with a recovering key the vault never adopted. */
  ghost predicate EndedAt(r: Recovery, now: int, e: EndedKey) {
    && r.recovering.Some? && e.kid == r.recovering.value.kid && e.key == r.recovering.value.key
    && (|| (r.state == VaultRow.Cancelled && e.reason == WasCancelled
            && e.endedAt == if r.cancelledAt.Some? && r.cancelledAt.value < r.expiresAt then r.cancelledAt.value else r.expiresAt)
        || (r.state == VaultRow.Registered && r.expiresAt <= now && e.reason == WasExpired && e.endedAt == r.expiresAt))
  }

  /** A recovery's own end, exactly: none while it runs, none of one pending, completed or refused. */
  lemma OwnEndIs(r: Recovery, now: int, e: EndedKey)
    ensures OwnEnd(r, now) == [e] <==> EndedAt(r, now, e)
    ensures |OwnEnd(r, now)| <= 1
  {
  }

  /** At most five are handed on, each within its 30 days, of different keys. */
  lemma HandedOn(known: seq<EndedKey>, now: int)
    requires Increasing(known)
    ensures var out := Carry(known, now);
            |out| <= 5 && DistinctKids(out) && Increasing(out)
            && forall i :: 0 <= i < |out| ==> out[i] in known && now < out[i].endedAt + 30 * 86_400
  {
    hide Carry, Latest, Newest, Increasing, DistinctKids;
    CarryIsSelect(known, now);
    LatestOrdered(known, now);
    NewestOrdered(Latest(known, now));
    LatestOnes(known, now);
    NewestFrom(Latest(known, now));
  }

  lemma {:induction false} LatestOnes(es: seq<EndedKey>, now: int)
    ensures forall e :: e in Latest(es, now) ==> e in es && now < e.endedAt + 30 * 86_400
  {
    if es != [] {
      LatestOnes(es[1..], now);
      assert es == [es[0]] + es[1..];
    }
  }

  lemma NewestFrom(es: seq<EndedKey>)
    ensures |Newest(es)| <= 5 && forall e :: e in Newest(es) ==> e in es
  {
  }

  ghost predicate Runs(r: Recovery, now: int) {
    now < r.expiresAt && (r.state == VaultRow.Pending || r.state == VaultRow.Registered)
  }

  ghost predicate Names(k: Option<StoredKey>, kid: nat) { k.Some? && k.value.kid == kid }

  /** A kid that the row names as an app key, or that its running recovery has as a claim or recovering key. */
  ghost predicate NamedByRow(v: Row, kid: nat, now: int) {
    || Names(v.appKey, kid) || Names(v.appKeyNext, kid) || Names(v.appKeyPending, kid)
    || (v.recovery.Some? && Runs(v.recovery.value, now)
        && (Names(v.recovery.value.recovering, kid) || exists k :: k in v.recovery.value.claimKeys && k.kid == kid))
  }

  /** A kid is told that its recovery ended if and only if the row names it nowhere and its latest known end is an hour old and not 30 days. */
  lemma ToldExactly(v: Row, kid: nat, now: int)
    ensures EndedKeyFor(v, kid, now).Some? <==>
            && !NamedByRow(v, kid, now)
            && exists e :: e in Known(v.recovery, now) && e.kid == kid && e.endedAt + 3600 <= now < e.endedAt + 30 * 86_400
                 && forall o :: o in Known(v.recovery, now) && o.kid == kid ==> o.endedAt <= e.endedAt
  {
    hide Known, Active;
    RunsIsActive(v, now);
    var known := Known(v.recovery, now);
    assert MayBeAdmitted(v, kid, now) <==> NamedByRow(v, kid, now) by { NamedForms(v, kid, now); }
    var latest := LatestOfKid(known, kid);
    if latest.Some? {
      forall o | o in known && o.kid == kid ensures o.endedAt <= latest.value.endedAt {
        var i :| 0 <= i < |known| && known[i] == o;
      }
    }
  }

  lemma RunsIsActive(v: Row, now: int)
    ensures v.recovery.Some? ==> (Active(v.recovery.value, now) <==> Runs(v.recovery.value, now))
  {
  }

  lemma NamedForms(v: Row, kid: nat, now: int)
    ensures MayBeAdmitted(v, kid, now) <==> NamedByRow(v, kid, now)
  {
    hide Active;
    RunsIsActive(v, now);
    if v.recovery.Some? {
      var ks := v.recovery.value.claimKeys;
      if exists k :: k in ks && k.kid == kid {
        var k :| k in ks && k.kid == kid;
        var i :| 0 <= i < |ks| && ks[i] == k;
      }
      if exists i :: 0 <= i < |ks| && ks[i].kid == kid {
        var i :| 0 <= i < |ks| && ks[i].kid == kid;
        assert ks[i] in ks;
      }
    }
  }

  ghost predicate Redeemed(v: Row, now: int) {
    v.appKeyPending.Some? && v.appKeyPending.value.until.Some? && now < v.appKeyPending.value.until.value
  }

  /** The recovery's keys count: it runs, and its recovering key is not the app key yet. */
  ghost predicate KeysCount(v: Row, now: int) {
    && v.recovery.Some? && Runs(v.recovery.value, now)
    && !(v.recovery.value.recovering.Some? && v.appKey.Some? && v.recovery.value.recovering.value.kid == v.appKey.value.kid)
  }

  /** Which keys a row admits: the redeemed one for its hour, the claim keys not in use and the recovering key while their recovery runs. */
  lemma AdmittedExactly(v: Row, k: StoredKey, now: int)
    ensures k in KeysFor(v, PendingRole, now) <==>
            v.appKeyPending == Some(k) && Redeemed(v, now) && !Names(v.appKey, k.kid)
    ensures k in KeysFor(v, RecoveringRole, now) <==> KeysCount(v, now) && v.recovery.value.recovering == Some(k)
    ensures k in KeysFor(v, ClaimRole, now) <==>
            KeysCount(v, now) && k in v.recovery.value.claimKeys && !Names(v.appKey, k.kid) && !(Redeemed(v, now) && Names(v.appKeyPending, k.kid))
    ensures k in KeysFor(v, AppRole, now) <==>
            || v.appKey == Some(k)
            || (v.appKeyNext == Some(k) && k.seqNo.Some?
                && (v.appKey.Some? ==> v.appKey.value.kid != k.kid && v.appKey.value.seqNo.Some? && v.appKey.value.seqNo.value < k.seqNo.value))
  {
    RunsIsActive(v, now);
    hide Active, NotInUse;
  }
}
