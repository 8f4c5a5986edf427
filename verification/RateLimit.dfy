/**
 * The attempt lockout of lambda/shared/ratelimit.ts under any concurrency: a
 * reservation adds to a live window below its limit, or starts a new one. A
 * caller reads the clock once a round; its conditional writes take effect up
 * to `stall` seconds later. No clear and no forced lock happens meanwhile.
 */
module RateLimit {
  import opened Calls
  import opened Runs
  import opened Wrappers

  const ROUNDS := 3

  datatype Item = Item(count: int, expiresAt: int)

  /** An attempt handed out: when its write took effect, in which window, and its number. */
  datatype Reserved = Reserved(at: int, window: nat, number: int)

  /** `starts`: the clock readings that opened the windows, in order. */
  datatype World = World(now: int, item: Option<Item>, starts: seq<int>, reserved: seq<Reserved>)

  /** `round`: of three; `t`: its clock reading. */
  datatype Proc =
    | Finished
    | ReadClock(round: nat)
    | Add(round: nat, t: int)
    | Put(round: nat, t: int)
    | Get(round: nat, t: int)

  datatype Step = Step(w: World, next: Proc)

  datatype Params = Params(max: int, window: int, stall: int)

  ghost predicate ValidParams(ps: Params) { ps.max >= 1 && ps.window >= 1 && ps.stall >= 0 }

  predicate MayAdd(item: Option<Item>, t: int, max: int) {
    item.Some? && item.value.expiresAt > t && item.value.count < max
  }

  predicate MayPut(item: Option<Item>, t: int) { item.None? || item.value.expiresAt <= t }

  function Act(ps: Params, w: World, q: Proc, c: Call): Step {
    match q
    case Finished => Step(w, Finished)
    case ReadClock(round) => Step(w, if round >= ROUNDS then Finished else Add(round, w.now))
    case Add(round, t) =>
      if !MayAdd(w.item, t, ps.max) then Step(w, if c.Answered? then Put(round, t) else Finished)
      else if c.Lost? then Step(w, Finished)
      else
        var item := w.item.value.(count := w.item.value.count + 1);
        var window: nat := if w.starts == [] then 0 else |w.starts| - 1;
        var mine := if c.Answered? then [Reserved(w.now, window, item.count)] else [];
        Step(w.(item := Some(item), reserved := w.reserved + mine), Finished)
    case Put(round, t) =>
      if !MayPut(w.item, t) then Step(w, if c.Answered? then Get(round, t) else Finished)
      else if c.Lost? then Step(w, Finished)
      else
        var mine := if c.Answered? then [Reserved(w.now, |w.starts|, 1)] else [];
        Step(w.(item := Some(Item(1, t + ps.window)), starts := w.starts + [t], reserved := w.reserved + mine), Finished)
    case Get(round, t) =>
      var locked := w.item.Some? && w.item.value.expiresAt > t && w.item.value.count >= ps.max;
      Step(w, if !c.Answered? || locked then Finished else ReadClock(round + 1))
  }

  datatype State = State(ps: Params, w: World, procs: seq<Proc>)

  datatype Event =
    | Tick(t: int)
    | Start
    | Makes(p: nat, c: Call)
    | Stops(p: nat)

  predicate InTime(s: State, q: Proc) { (q.Add? || q.Put?) ==> s.w.now <= q.t + s.ps.stall }

  predicate CanStep(s: State, e: Event) {
    match e
    case Tick(t) => s.w.now <= t
    case Start => true
    case Makes(p, _) => p < |s.procs| && InTime(s, s.procs[p])
    case Stops(p) => p < |s.procs|
  }

  function Next(s: State, e: Event): State
    requires CanStep(s, e)
  {
    match e
    case Tick(t) => s.(w := s.w.(now := t))
    case Start => s.(procs := s.procs + [ReadClock(0)])
    case Makes(p, c) =>
      var step := Act(s.ps, s.w, s.procs[p], c);
      s.(w := step.w, procs := s.procs[p := step.next])
    case Stops(p) => s.(procs := s.procs[p := Finished])
  }

  ghost function StepOf(s: State, e: Event): Option<State> { if CanStep(s, e) then Some(Next(s, e)) else None }

  ghost function Exec(s: State, es: seq<Event>): Option<State> { Run(StepOf, s, es) }

  ghost predicate Init(s: State) {
    ValidParams(s.ps) && s.procs == [] && s.w.item.None? && s.w.starts == [] && s.w.reserved == []
  }

  ghost predicate Reachable(s: State) {
    exists s0: State, es: seq<Event> :: Init(s0) && Exec(s0, es) == Some(s)
  }

  // ---- the invariant ---------------------------------------------------------------------

  ghost predicate StartsApart(starts: seq<int>, window: int) {
    forall i, j :: 0 <= i < j < |starts| ==> starts[i] + window * (j - i) <= starts[j]
  }

  ghost predicate ReservedOk(ps: Params, w: World, r: Reserved) {
    && r.window < |w.starts| && 1 <= r.number <= ps.max
    && w.starts[r.window] <= r.at
    && (if r.number == 1 then r.at <= w.starts[r.window] + ps.stall else r.at < w.starts[r.window] + ps.window + ps.stall)
    && (r.window == |w.starts| - 1 && w.item.Some? ==> r.number <= w.item.value.count)
  }

  ghost predicate WorldOk(ps: Params, w: World) {
    && StartsApart(w.starts, ps.window)
    && (w.item.None? <==> w.starts == [])
    && (w.item.Some? ==> 1 <= w.item.value.count <= ps.max && w.item.value.expiresAt == w.starts[|w.starts| - 1] + ps.window)
    && (w.starts != [] ==> w.starts[|w.starts| - 1] <= w.now)
    && (forall i :: 0 <= i < |w.reserved| ==> ReservedOk(ps, w, w.reserved[i]))
    && (forall i, j :: 0 <= i < j < |w.reserved| ==>
          w.reserved[i].window != w.reserved[j].window || w.reserved[i].number != w.reserved[j].number)
  }

  ghost predicate Inv(s: State) {
    && ValidParams(s.ps) && WorldOk(s.ps, s.w)
    && forall p :: 0 <= p < |s.procs| && (s.procs[p].Add? || s.procs[p].Put?) ==> s.procs[p].t <= s.w.now
  }

  lemma AddStep(ps: Params, w: World, round: nat, t: int, c: Call)
    requires ValidParams(ps) && WorldOk(ps, w) && t <= w.now <= t + ps.stall
    ensures WorldOk(ps, Act(ps, w, Add(round, t), c).w)
  {
    var w' := Act(ps, w, Add(round, t), c).w;
    if w' != w {
      forall i | 0 <= i < |w.reserved| ensures ReservedOk(ps, w', w'.reserved[i]) { assert ReservedOk(ps, w, w.reserved[i]); }
      if c.Answered? { assert ReservedOk(ps, w', w'.reserved[|w.reserved|]); }
    }
  }

  lemma PutStep(ps: Params, w: World, round: nat, t: int, c: Call)
    requires ValidParams(ps) && WorldOk(ps, w) && t <= w.now <= t + ps.stall
    ensures WorldOk(ps, Act(ps, w, Put(round, t), c).w)
  {
    var w' := Act(ps, w, Put(round, t), c).w;
    if w' != w {
      var n := |w.starts|;
      forall i | 0 <= i < n ensures w.starts[i] + ps.window * (n - i) <= t {
        if i < n - 1 { assert w.starts[i] + ps.window * (n - 1 - i) <= w.starts[n - 1]; }
        assert ps.window * (n - i) == ps.window * (n - 1 - i) + ps.window;
      }
      forall i | 0 <= i < |w.reserved| ensures ReservedOk(ps, w', w'.reserved[i]) { assert ReservedOk(ps, w, w.reserved[i]); }
    }
  }

  lemma InvKept(s: State, e: Event)
    requires Inv(s) && CanStep(s, e)
    ensures Inv(Next(s, e))
  {
    hide ReservedOk, StartsApart;
    if e.Makes? && s.procs[e.p].Add? {
      AddStep(s.ps, s.w, s.procs[e.p].round, s.procs[e.p].t, e.c);
    } else if e.Makes? && s.procs[e.p].Put? {
      PutStep(s.ps, s.w, s.procs[e.p].round, s.procs[e.p].t, e.c);
    } else {
      Idle(s.ps, s.w, Next(s, e).w);
    }
  }

  lemma Idle(ps: Params, w: World, w': World)
    requires WorldOk(ps, w) && w' == w.(now := w'.now) && w.now <= w'.now
    ensures WorldOk(ps, w')
  {
    forall i | 0 <= i < |w.reserved| ensures ReservedOk(ps, w', w'.reserved[i]) { assert ReservedOk(ps, w, w.reserved[i]); }
  }

  lemma ReachableInv(s: State)
    requires Reachable(s)
    ensures Inv(s)
  {
    hide Inv, Next, CanStep;
    var s0: State, es: seq<Event> :| Init(s0) && Exec(s0, es) == Some(s);
    InitInv(s0);
    forall s: State, e: Event | Inv(s) && StepOf(s, e).Some? ensures Inv(StepOf(s, e).value) { InvKept(s, e); }
    RunKeeps(StepOf, Inv, s0, es);
  }

  lemma InitInv(s: State)
    requires Init(s)
    ensures Inv(s)
  {
  }

  // ---- what it means --------------------------------------------------------------------

  /** No attempt number is handed out twice in a window, none beyond the limit, and windows open `window` seconds apart or more. */
  lemma NumbersAreDistinct(s: State, i: nat, j: nat)
    requires Reachable(s) && i < j < |s.w.reserved|
    ensures 1 <= s.w.reserved[i].number <= s.ps.max
    ensures s.w.reserved[i].window == s.w.reserved[j].window ==> s.w.reserved[i].number != s.w.reserved[j].number
  {
    ReachableInv(s);
    assert ReservedOk(s.ps, s.w, s.w.reserved[i]);
  }

  lemma WindowsAreApart(s: State, i: nat, j: nat)
    requires Reachable(s) && i < j < |s.w.starts|
    ensures s.w.starts[i] + s.ps.window * (j - i) <= s.w.starts[j]
  {
    ReachableInv(s);
  }

  /** The reservations of windows `lo` to `hi`. */
  ghost function OfWindows(rs: seq<Reserved>, lo: nat, hi: int): set<nat> {
    set i: nat | i < |rs| && lo <= rs[i].window <= hi
  }

  /** Indices whose attempt is in one window are at most `max`: their numbers differ. */
  lemma OneWindow(s: State, k: nat)
    requires Inv(s)
    ensures |OfWindows(s.w.reserved, k, k)| <= s.ps.max
  {
    var rs := s.w.reserved;
    var idx := OfWindows(rs, k, k);
    var numbers := set i | i in idx :: rs[i].number;
    forall i | i in idx ensures 1 <= rs[i].number <= s.ps.max { assert ReservedOk(s.ps, s.w, rs[i]); }
    Injected(rs, idx, numbers);
    UpTo(numbers, s.ps.max);
  }

  lemma {:induction false} Injected(rs: seq<Reserved>, idx: set<nat>, numbers: set<int>)
    requires forall i :: i in idx ==> i < |rs|
    requires forall i, j :: i in idx && j in idx && i != j ==> rs[i].number != rs[j].number
    requires numbers == set i | i in idx :: rs[i].number
    ensures |numbers| == |idx|
    decreases |idx|
  {
    if idx == {} {
      assert numbers == {};
    } else {
      var i :| i in idx;
      var rest := idx - {i};
      var numbers' := set j | j in rest :: rs[j].number;
      Injected(rs, rest, numbers');
      assert rs[i].number !in numbers';
      assert numbers == numbers' + {rs[i].number};
    }
  }

  lemma {:induction false} UpTo(numbers: set<int>, max: int)
    requires 0 <= max && forall n :: n in numbers ==> 1 <= n <= max
    ensures |numbers| <= max
    decreases max
  {
    if max > 0 {
      UpTo(numbers - {max}, max - 1);
    } else {
      assert forall n :: n in numbers ==> n != 0 && n < 1;
      assert numbers == {};
    }
  }

  lemma {:induction false} ManyWindows(s: State, lo: nat, hi: int)
    requires Inv(s) && lo <= hi + 1
    ensures |OfWindows(s.w.reserved, lo, hi)| <= (hi + 1 - lo) * s.ps.max
    decreases hi + 1 - lo
  {
    hide Inv;
    var rs := s.w.reserved;
    if lo == hi + 1 {
      assert OfWindows(rs, lo, hi) == {};
    } else {
      ManyWindows(s, lo, hi - 1);
      OneWindow(s, hi);
      assert OfWindows(rs, lo, hi) == OfWindows(rs, lo, hi - 1) + OfWindows(rs, hi, hi);
      OneMore(hi - lo, s.ps.max);
    }
  }

  lemma OneMore(n: int, max: int)
    ensures (n + 1) * max == n * max + max
  {
  }

  /** The attempts whose writes took effect in the `window` seconds from `a` on. */
  ghost function InSpan(s: State, a: int): set<nat> {
    set i: nat | i < |s.w.reserved| && a <= s.w.reserved[i].at < a + s.ps.window
  }

  function CeilDiv(n: int, d: int): int
    requires d >= 1
  {
    (n + d - 1) / d
  }

  /** The members of a set of attempts in the earliest and in the latest window. */
  lemma {:induction false} Extremes(rs: seq<Reserved>, idx: set<nat>) returns (first: nat, last: nat)
    requires idx != {} && forall i :: i in idx ==> i < |rs|
    ensures first in idx && last in idx
    ensures forall i :: i in idx ==> rs[first].window <= rs[i].window <= rs[last].window
    decreases |idx|
  {
    var i :| i in idx;
    var rest := idx - {i};
    if rest == {} {
      assert idx == {i};
      first, last := i, i;
    } else {
      first, last := Extremes(rs, rest);
      if rs[i].window < rs[first].window { first := i; }
      if rs[i].window > rs[last].window { last := i; }
    }
  }

  lemma Fewer(a: set<nat>, b: set<nat>)
    requires a <= b
    ensures |a| <= |b|
  {
    assert b == a + (b - a);
  }

  lemma Times(a: int, b: int, max: int)
    requires a <= b && 0 <= max
    ensures a * max <= b * max
  {
    assert b * max - a * max == (b - a) * max;
  }

  lemma Ceiling(w: int, n: nat, extra: int)
    requires w >= 1 && extra >= 0 && w * n < 2 * w + extra
    ensures n + 1 <= 2 + CeilDiv(extra, w)
  {
    var c := CeilDiv(extra, w);
    assert extra <= w * c by { assert extra + w - 1 == w * c + (extra + w - 1) % w; }
    assert w * n < w * (2 + c);
    if n >= 2 + c { Times(2 + c, n, w); }
  }

  /** The stall that matters: an add reads the clock a second or more before its window ends; with a limit of one there are no adds. */
  function Overhang(ps: Params): int {
    var late := if ps.max == 1 then ps.stall - ps.window else ps.stall - 1;
    if late < 0 then 0 else late
  }

  /** Two attempts less than a window length apart are of windows not far from each other. */
  lemma FewWindows(s: State, a: int, i: nat, j: nat)
    requires Inv(s) && i in InSpan(s, a) && j in InSpan(s, a)
    ensures s.w.reserved[j].window - s.w.reserved[i].window + 1 <= 2 + CeilDiv(Overhang(s.ps), s.ps.window)
  {
    var w := s.ps.window;
    var r, r' := s.w.reserved[i], s.w.reserved[j];
    assert ReservedOk(s.ps, s.w, r) && ReservedOk(s.ps, s.w, r');
    if r.window < r'.window {
      var n := r'.window - r.window;
      assert s.w.starts[r.window] + w * n <= s.w.starts[r'.window];
      assert w * n < 2 * w + Overhang(s.ps);
      Ceiling(w, n, Overhang(s.ps));
    } else {
      Ceiling(w, 0, Overhang(s.ps));
    }
  }

  /**
   * In any span of one window length, at most two windows' worth of attempts
   * plus one for every window length begun by which a call's stall reaches
   * past the end of its window.
   */
  lemma AttemptsInAnySpan(s: State, a: int)
    requires Reachable(s)
    ensures s.ps.window >= 1
    ensures |InSpan(s, a)| <= (2 + CeilDiv(Overhang(s.ps), s.ps.window)) * s.ps.max
  {
    ReachableInv(s);
    var rs := s.w.reserved;
    var bound := 2 + CeilDiv(Overhang(s.ps), s.ps.window);
    Ceiling(s.ps.window, 0, Overhang(s.ps));
    if InSpan(s, a) != {} {
      var i, j := Extremes(rs, InSpan(s, a));
      var lo, hi := rs[i].window, rs[j].window;
      assert InSpan(s, a) <= OfWindows(rs, lo, hi);
      Fewer(InSpan(s, a), OfWindows(rs, lo, hi));
      ManyWindows(s, lo, hi);
      FewWindows(s, a, i, j);
      Times(hi + 1 - lo, bound, s.ps.max);
    } else {
      Times(0, bound, s.ps.max);
    }
  }

  /** The calls are prompt enough for "twice the limit". */
  predicate PromptEnough(ps: Params) { ps.stall <= 1 || (ps.max == 1 && ps.stall <= ps.window) }

  lemma TwiceTheLimit(s: State, a: int)
    requires Reachable(s) && PromptEnough(s.ps)
    ensures |InSpan(s, a)| <= 2 * s.ps.max
  {
    AttemptsInAnySpan(s, a);
    ReachableInv(s);
    assert Overhang(s.ps) == 0 || (s.ps.max == 1 && s.ps.stall == 1 && s.ps.stall - s.ps.window <= 0);
    assert Overhang(s.ps) == 0 && CeilDiv(0, s.ps.window) == 0;
  }
}
