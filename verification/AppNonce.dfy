/**
 * A signed app request and its replays (lambda/shared/app-auth.ts, appHeader
 * and spendNonce in lambda/member/vault.ts): the header's time is checked
 * against the clock, then the nonce is spent by a conditional write that a
 * record blocks for a while. The two read the clock each for itself.
 */
module AppNonce {
  import opened Runs
  import opened Wrappers

  const TS_WINDOW_S := 300
  const NONCE_TTL_S := 600

  /** `ts`: the signed time. `life`: how long a nonce record blocks. `oneReading`: both checks use the first clock reading. */
  datatype Params = Params(ts: int, life: int, oneReading: bool)

  /** `first`, `second`: the readings of a request that passed both checks. */
  datatype Passed = Passed(first: int, second: int)

  /** `expires`: the nonce record. */
  datatype World = World(now: int, expires: Option<int>, passed: seq<Passed>)

  /** One arrival of the same signed request. */
  datatype Proc =
    | Finished
    | CheckTime
    | ReadAgain(first: int)
    | Spend(first: int, second: int)

  datatype Step = Step(w: World, next: Proc)

  function Abs(x: int): int { if x < 0 then -x else x }

  predicate InWindow(ps: Params, t: int) { Abs(t - ps.ts) <= TS_WINDOW_S }

  predicate MaySpend(w: World, t: int) { w.expires.None? || w.expires.value < t }

  function Act(ps: Params, w: World, q: Proc): Step {
    match q
    case Finished => Step(w, Finished)
    case CheckTime => Step(w, if InWindow(ps, w.now) then ReadAgain(w.now) else Finished)
    case ReadAgain(first) => Step(w, Spend(first, if ps.oneReading then first else w.now))
    case Spend(first, second) =>
      if MaySpend(w, second)
      then Step(w.(expires := Some(second + ps.life), passed := w.passed + [Passed(first, second)]), Finished)
      else Step(w, Finished)
  }

  datatype State = State(ps: Params, w: World, procs: seq<Proc>)

  datatype Event = Tick(t: int) | Arrives | Moves(p: nat)

  predicate CanStep(s: State, e: Event) {
    match e
    case Tick(t) => s.w.now <= t
    case Arrives => true
    case Moves(p) => p < |s.procs|
  }

  function Next(s: State, e: Event): State
    requires CanStep(s, e)
  {
    match e
    case Tick(t) => s.(w := s.w.(now := t))
    case Arrives => s.(procs := s.procs + [CheckTime])
    case Moves(p) =>
      var step := Act(s.ps, s.w, s.procs[p]);
      s.(w := step.w, procs := s.procs[p := step.next])
  }

  ghost function StepOf(s: State, e: Event): Option<State> { if CanStep(s, e) then Some(Next(s, e)) else None }

  ghost function Exec(s: State, es: seq<Event>): Option<State> { Run(StepOf, s, es) }

  ghost predicate Init(s: State) { s.procs == [] && s.w.expires.None? && s.w.passed == [] && s.ps.life >= 0 }

  ghost predicate Reachable(s: State) {
    exists s0: State, es: seq<Event> :: Init(s0) && Exec(s0, es) == Some(s)
  }

  // ---- the invariant --------------------------------------------------------------------

  ghost predicate ReadingsOk(ps: Params, first: int, second: int) {
    InWindow(ps, first) && first <= second && (ps.oneReading ==> second == first)
  }

  ghost predicate Inv(s: State) {
    && s.ps.life >= 0
    && (s.w.expires.None? <==> s.w.passed == [])
    && (s.w.passed != [] ==> s.w.expires == Some(s.w.passed[|s.w.passed| - 1].second + s.ps.life))
    && (forall i :: 0 <= i < |s.w.passed| ==> ReadingsOk(s.ps, s.w.passed[i].first, s.w.passed[i].second))
    && (forall i, j :: 0 <= i < j < |s.w.passed| ==> s.w.passed[i].second + s.ps.life < s.w.passed[j].second)
    && (forall p :: 0 <= p < |s.procs| && s.procs[p].ReadAgain? ==> InWindow(s.ps, s.procs[p].first) && s.procs[p].first <= s.w.now)
    && (forall p :: 0 <= p < |s.procs| && s.procs[p].Spend? ==> ReadingsOk(s.ps, s.procs[p].first, s.procs[p].second))
  }

  lemma InvKept(s: State, e: Event)
    requires Inv(s) && CanStep(s, e)
    ensures Inv(Next(s, e)) && Next(s, e).ps == s.ps
  {
    hide InWindow;
    if e.Moves? && s.procs[e.p].CheckTime? { assert InWindow(s.ps, s.w.now) || Next(s, e).procs[e.p].Finished?; }
  }

  lemma ReachableInv(s: State)
    requires Reachable(s)
    ensures Inv(s)
  {
    hide Inv, Next, CanStep;
    var s0: State, es: seq<Event> :| Init(s0) && Exec(s0, es) == Some(s);
    InitInv(s0);
    forall s: State, e: Event | Inv(s) && StepOf(s, e).Some? ensures Inv(StepOf(s, e).value) { InvKept(s, e); }
    RunKeeps(StepOf, Inv, s0, es);
  }

  lemma InitInv(s: State)
    requires Init(s)
    ensures Inv(s)
  {
  }

  // ---- single use --------------------------------------------------------------------------

  /** An arrival about to spend the nonce passes exactly if none has passed, or its reading is past the last pass's record. */
  lemma PassesExactly(s: State, p: nat)
    requires Reachable(s) && p < |s.procs| && s.procs[p].Spend?
    ensures var passed, second := s.w.passed, s.procs[p].second;
            Next(s, Moves(p)).w.passed ==
              if passed == [] || passed[|passed| - 1].second + s.ps.life < second then passed + [Passed(s.procs[p].first, second)] else passed
  {
    ReachableInv(s);
  }

  /**
   * Once the request has passed, with the record's 600 s or more: an arrival
   * passes again exactly if it read the clock a second time past the record,
   * and then its readings straddle the end of the time window.
   */
  lemma AReplayStraddlesTheWindow(s: State, p: nat)
    requires Reachable(s) && s.ps.life >= NONCE_TTL_S && s.w.passed != [] && p < |s.procs| && s.procs[p].Spend?
    ensures |Next(s, Moves(p)).w.passed| == |s.w.passed| + 1 <==> s.w.passed[|s.w.passed| - 1].second + s.ps.life < s.procs[p].second
    ensures s.w.passed[|s.w.passed| - 1].second + s.ps.life < s.procs[p].second ==>
              s.procs[p].first <= s.ps.ts + TS_WINDOW_S < s.procs[p].second && !s.ps.oneReading
  {
    PassesExactly(s, p);
    ReachableInv(s);
    var last := s.w.passed[|s.w.passed| - 1];
    assert ReadingsOk(s.ps, last.first, last.second) && ReadingsOk(s.ps, s.procs[p].first, s.procs[p].second);
  }

  /** With one clock reading a request, the same signed request passes at most once, over all time and interleavings. */
  lemma PassesAtMostOnce(s: State)
    requires Reachable(s) && s.ps.life >= NONCE_TTL_S && s.ps.oneReading
    ensures |s.w.passed| <= 1
  {
    hide Next, CanStep, Inv;
    var s0: State, es: seq<Event> :| Init(s0) && Exec(s0, es) == Some(s);
    var once := (t: State) => Reachable(t) && (t.ps.life >= NONCE_TTL_S && t.ps.oneReading ==> |t.w.passed| <= 1);
    assert Exec(s0, []) == Some(s0);
    forall t: State, e: Event | once(t) && StepOf(t, e).Some? ensures once(StepOf(t, e).value) { StaysOnce(t, e); }
    RunKeeps(StepOf, once, s0, es);
  }

  lemma StaysOnce(s: State, e: Event)
    requires Reachable(s) && CanStep(s, e)
    requires s.ps.life >= NONCE_TTL_S && s.ps.oneReading ==> |s.w.passed| <= 1
    ensures Reachable(Next(s, e))
    ensures var s' := Next(s, e); s'.ps.life >= NONCE_TTL_S && s'.ps.oneReading ==> |s'.w.passed| <= 1
  {
    var s0: State, es: seq<Event> :| Init(s0) && Exec(s0, es) == Some(s);
    var es' := Extend(StepOf, s0, es, s, e);
    assert Exec(s0, es') == Some(Next(s, e));
    if s.ps.life >= NONCE_TTL_S && e.Moves? && s.procs[e.p].Spend? && s.w.passed != [] { AReplayStraddlesTheWindow(s, e.p); }
  }

  // ---- where it ends -------------------------------------------------------------------------

  lemma Then(s0: State, es: seq<Event>, s: State, e: Event) returns (es': seq<Event>, s': State)
    requires Exec(s0, es) == Some(s) && CanStep(s, e)
    ensures s' == Next(s, e) && Exec(s0, es') == Some(s')
  {
    hide Next, CanStep;
    es' := Extend(StepOf, s0, es, s, e);
    s' := Next(s, e);
  }

  /** The request passes 300 s before its time. */
  lemma EarlyPass(ps: Params) returns (s0: State, es: seq<Event>, s: State)
    requires ps.life >= 0
    ensures Init(s0) && Exec(s0, es) == Some(s)
    ensures var t := ps.ts - TS_WINDOW_S;
            s == State(ps, World(t, Some(t + ps.life), [Passed(t, t)]), [Finished])
  {
    s0 := State(ps, World(ps.ts - TS_WINDOW_S, None, []), []);
    es, s := Then(s0, [], s0, Arrives);
    es, s := Then(s0, es, s, Moves(0));
    assert s.procs == [ReadAgain(s0.w.now)];
    es, s := Then(s0, es, s, Moves(0));
    es, s := Then(s0, es, s, Moves(0));
  }

  /** The two readings of the code: a replay read at the window's last second and again past the record passes, however long the record blocks. */
  lemma TwoReadingsLetOneReplayThrough(ts: int, life: int) returns (s0: State, es: seq<Event>, s: State)
    requires life >= 0
    ensures Init(s0) && Exec(s0, es) == Some(s) && s.ps == Params(ts, life, false)
    ensures |s.w.passed| == 2
  {
    s0, es, s := EarlyPass(Params(ts, life, false));
    es, s := Then(s0, es, s, Tick(ts + TS_WINDOW_S));
    es, s := Then(s0, es, s, Arrives);
    assert s.procs == [Finished, CheckTime];
    es, s := Then(s0, es, s, Moves(1));
    assert s.procs == [Finished, ReadAgain(ts + TS_WINDOW_S)];
    es, s := Then(s0, es, s, Tick(ts + TS_WINDOW_S + life + 1));
    es, s := Then(s0, es, s, Moves(1));
    es, s := Then(s0, es, s, Moves(1));
  }

  /** The 600 s meet the window exactly: any shorter record lets a replay through even with one reading. */
  lemma AnyShorterRecordIsTooShort(ts: int, life: int) returns (s0: State, es: seq<Event>, s: State)
    requires 0 <= life < NONCE_TTL_S
    ensures Init(s0) && Exec(s0, es) == Some(s) && s.ps == Params(ts, life, true)
    ensures |s.w.passed| == 2
  {
    s0, es, s := EarlyPass(Params(ts, life, true));
    es, s := Then(s0, es, s, Tick(ts + TS_WINDOW_S));
    es, s := Then(s0, es, s, Arrives);
    assert s.procs == [Finished, CheckTime];
    es, s := Then(s0, es, s, Moves(1));
    assert s.procs == [Finished, ReadAgain(ts + TS_WINDOW_S)];
    es, s := Then(s0, es, s, Moves(1));
    es, s := Then(s0, es, s, Moves(1));
  }

  ghost predicate SingleUse(ps: Params) {
    forall s: State :: Reachable(s) && s.ps == ps ==> |s.w.passed| <= 1
  }

  /** A signed request passes at most once in every run if and only if a request reads the clock once and the record blocks 600 s or more. */
  lemma SingleUseExactly(ps: Params)
    requires ps.life >= 0
    ensures SingleUse(ps) <==> ps.oneReading && ps.life >= NONCE_TTL_S
  {
    hide Init, Exec;
    if ps.oneReading && ps.life >= NONCE_TTL_S {
      forall s: State | Reachable(s) && s.ps == ps ensures |s.w.passed| <= 1 { PassesAtMostOnce(s); }
    } else {
      var s0, es, s;
      if ps.oneReading {
        s0, es, s := AnyShorterRecordIsTooShort(ps.ts, ps.life);
      } else {
        s0, es, s := TwoReadingsLetOneReplayThrough(ps.ts, ps.life);
      }
      assert Reachable(s) && s.ps == ps;
    }
  }

  // ---- the two checks as the source runs them --------------------------------------------------

  class NonceStore {
    var expires: Option<int>

    /** The conditional write of the nonce record, with its own clock reading. */
    method SpendNonce(now: int) returns (ok: bool)
      modifies this
      ensures ok == (old(expires).None? || old(expires).value < now)
      ensures expires == if ok then Some(now + NONCE_TTL_S) else old(expires)
    {
      ok := expires.None? || expires.value < now;
      if ok { expires := Some(now + NONCE_TTL_S); }
    }

    /** Header time, then nonce; `first` and `second` are the readings of the two. Exactly the steps of one arrival. */
    method Admit(ts: int, first: int, second: int, ghost passed: seq<Passed>) returns (ok: bool)
      requires first <= second
      modifies this
      ensures ok == (InWindow(Params(ts, NONCE_TTL_S, false), first) && (old(expires).None? || old(expires).value < second))
      ensures ok <==> ts - 300 <= first <= ts + 300 && (old(expires).None? || old(expires).value < second)
      ensures expires == if ok then Some(second + 600) else old(expires)
      ensures var w := World(second, old(expires), passed);
              InWindow(Params(ts, NONCE_TTL_S, false), first) ==>
                Act(Params(ts, NONCE_TTL_S, false), w, Spend(first, second)).w ==
                World(second, expires, if ok then passed + [Passed(first, second)] else passed)
    {
      if Abs(first - ts) > TS_WINDOW_S { return false; }
      ok := SpendNonce(second);
    }
  }
}
