/**
 * When "at most twice the limit of attempts in any span of one window length"
 * holds: exactly when calls are prompt enough. For all other limits, windows
 * and stalls a run breaks it.
 */
module RateLimitRuns {
  import opened Calls
  import opened RateLimit
  import opened Runs
  import opened Wrappers

  function Unused(ps: Params): State { State(ps, World(0, None, [], []), []) }

  ghost predicate Leads(es: seq<Event>, s: State) { Exec(Unused(s.ps), es) == Some(s) }

  lemma Then(es: seq<Event>, s: State, e: Event) returns (es': seq<Event>, s': State)
    requires Leads(es, s) && CanStep(s, e)
    ensures s' == Next(s, e) && Leads(es', s')
  {
    hide Next, CanStep;
    es' := Extend(StepOf, Unused(s.ps), es, s, e);
    s' := Next(s, e);
    assert s'.ps == s.ps by { ParamsStay(s, e); }
  }

  lemma ParamsStay(s: State, e: Event)
    requires CanStep(s, e)
    ensures Next(s, e).ps == s.ps
  {
  }

  // ---- what one caller can do --------------------------------------------------------

  /** A caller that finds no live window and is about to open one. */
  lemma StallsBeforePut(es0: seq<Event>, s0: State) returns (es: seq<Event>, s: State)
    requires Leads(es0, s0) && ValidParams(s0.ps) && MayPut(s0.w.item, s0.w.now)
    ensures Leads(es, s) && s == s0.(procs := s0.procs + [Put(0, s0.w.now)])
  {
    var p := |s0.procs|;
    es, s := Then(es0, s0, Start);
    es, s := Then(es, s, Makes(p, Answered));
    assert s.procs == s0.procs + [Add(0, s0.w.now)];
    es, s := Then(es, s, Makes(p, Answered));
  }

  /** Its write, when it comes. */
  lemma Puts(es0: seq<Event>, s0: State, p: nat) returns (es: seq<Event>, s: State)
    requires Leads(es0, s0) && p < |s0.procs| && s0.procs[p].Put? && MayPut(s0.w.item, s0.procs[p].t)
    requires s0.w.now <= s0.procs[p].t + s0.ps.stall
    ensures Leads(es, s) && s.ps == s0.ps && s.procs == s0.procs[p := Finished]
    ensures s.w == s0.w.(item := Some(Item(1, s0.procs[p].t + s0.ps.window)), starts := s0.w.starts + [s0.procs[p].t],
                         reserved := s0.w.reserved + [Reserved(s0.w.now, |s0.w.starts|, 1)])
  {
    es, s := Then(es0, s0, Makes(p, Answered));
  }

  lemma OpensWindow(es0: seq<Event>, s0: State) returns (es: seq<Event>, s: State)
    requires Leads(es0, s0) && ValidParams(s0.ps) && MayPut(s0.w.item, s0.w.now)
    ensures Leads(es, s) && s.ps == s0.ps && |s.procs| == |s0.procs| + 1 && s.procs[..|s0.procs|] == s0.procs
    ensures s.w == s0.w.(item := Some(Item(1, s0.w.now + s0.ps.window)), starts := s0.w.starts + [s0.w.now],
                         reserved := s0.w.reserved + [Reserved(s0.w.now, |s0.w.starts|, 1)])
  {
    es, s := StallsBeforePut(es0, s0);
    es, s := Puts(es, s, |s0.procs|);
  }

  /** `n` more callers have read the clock. */
  lemma {:induction false} Readers(es0: seq<Event>, s0: State, n: nat) returns (es: seq<Event>, s: State)
    requires Leads(es0, s0)
    ensures Leads(es, s) && s.ps == s0.ps && s.w == s0.w && |s.procs| == |s0.procs| + n
    ensures s.procs[..|s0.procs|] == s0.procs
    ensures forall k :: |s0.procs| <= k < |s.procs| ==> s.procs[k] == Add(0, s0.w.now)
    decreases n
  {
    es, s := es0, s0;
    if n > 0 {
      var p := |s0.procs|;
      es, s := Then(es, s, Start);
      es, s := Then(es, s, Makes(p, Answered));
      assert s.procs == s0.procs + [Add(0, s0.w.now)];
      var s1 := s;
      es, s := Readers(es, s, n - 1);
      assert s.procs[..p] == s1.procs[..p];
      assert s.procs[p] == s1.procs[p];
    }
  }

  /** One of them adds to the live window. */
  lemma Adds(es0: seq<Event>, s0: State, p: nat) returns (es: seq<Event>, s: State)
    requires Leads(es0, s0) && p < |s0.procs| && s0.procs[p].Add? && s0.w.starts != []
    requires MayAdd(s0.w.item, s0.procs[p].t, s0.ps.max) && s0.w.now <= s0.procs[p].t + s0.ps.stall
    ensures Leads(es, s) && s.ps == s0.ps && s.procs == s0.procs[p := Finished]
    ensures |s.w.reserved| == |s0.w.reserved| + 1 && s.w.reserved[|s0.w.reserved|].at == s0.w.now
    ensures s.w == s0.w.(item := Some(s0.w.item.value.(count := s0.w.item.value.count + 1)),
                         reserved := s0.w.reserved + [s.w.reserved[|s0.w.reserved|]])
  {
    es, s := Then(es0, s0, Makes(p, Answered));
    assert s.w.reserved == s0.w.reserved + [s.w.reserved[|s0.w.reserved|]];
  }

  /** They all add, from process `p` on, as long as the limit lets them. */
  lemma {:induction false} AllAdd(es0: seq<Event>, s0: State, p: nat, t: int) returns (es: seq<Event>, s: State)
    requires Leads(es0, s0) && p <= |s0.procs| && s0.w.starts != [] && s0.w.now <= t + s0.ps.stall
    requires forall k :: p <= k < |s0.procs| ==> s0.procs[k] == Add(0, t)
    requires s0.w.item.Some? && s0.w.item.value.expiresAt > t && s0.w.item.value.count + |s0.procs| - p <= s0.ps.max
    ensures Leads(es, s) && s.ps == s0.ps && |s.procs| == |s0.procs| && s.w.now == s0.w.now && s.w.starts == s0.w.starts
    ensures s.w.item.Some? && s.w.item.value.expiresAt == s0.w.item.value.expiresAt
    ensures |s.w.reserved| == |s0.w.reserved| + |s0.procs| - p && s.w.reserved[..|s0.w.reserved|] == s0.w.reserved
    ensures forall i :: |s0.w.reserved| <= i < |s.w.reserved| ==> s.w.reserved[i].at == s0.w.now
    decreases |s0.procs| - p
  {
    es, s := es0, s0;
    if p < |s0.procs| {
      es, s := Adds(es, s, p);
      var s1 := s;
      var n := |s0.w.reserved|;
      es, s := AllAdd(es, s, p + 1, t);
      assert s.w.reserved[..n] == s1.w.reserved[..n];
      assert s.w.reserved[n] == s1.w.reserved[n];
    }
  }

  // ---- counting a span ----------------------------------------------------------------

  /** The numbers from `from` up to `n`, without `n`. */
  ghost function Range(from: nat, n: nat): (r: set<nat>)
    requires from <= n
    ensures |r| == n - from
    ensures forall i :: i in r <==> from <= i < n
  {
    if n == from then {} else Range(from, n - 1) + {n - 1}
  }

  /** All attempts from `from` on are in the span. */
  lemma SpanHolds(s: State, a: int, from: nat)
    requires from <= |s.w.reserved|
    requires forall i :: from <= i < |s.w.reserved| ==> a <= s.w.reserved[i].at < a + s.ps.window
    ensures |InSpan(s, a)| >= |s.w.reserved| - from
  {
    Fewer(Range(from, |s.w.reserved|), InSpan(s, a));
  }

  // ---- the runs -----------------------------------------------------------------------

  /** A limit of one: two callers stall before they open their windows, and a third opens the next in time. */
  lemma StalledOpenings(ps: Params) returns (es: seq<Event>, s: State)
    requires ValidParams(ps) && ps.max == 1 && ps.stall > ps.window
    ensures Leads(es, s) && s.ps == ps && |InSpan(s, ps.window + 1)| > 2 * ps.max
  {
    var w := ps.window;
    assert Leads([], Unused(ps));
    es, s := StallsBeforePut([], Unused(ps));
    es, s := Then(es, s, Tick(w));
    es, s := StallsBeforePut(es, s);
    assert s.procs == [Put(0, 0), Put(0, w)];
    es, s := Then(es, s, Tick(w + 1));
    es, s := Puts(es, s, 0);
    es, s := Puts(es, s, 1);
    assert s.w.reserved == [Reserved(w + 1, 0, 1), Reserved(w + 1, 1, 1)];
    es, s := Then(es, s, Tick(2 * w));
    es, s := OpensWindow(es, s);
    SpanHolds(s, w + 1, 0);
  }

  /** The first window, an attempt of it stalled past its end, and a full second window at that time. */
  lemma StalledAddThenFullWindow(ps: Params) returns (es: seq<Event>, s: State)
    requires ValidParams(ps) && ps.max >= 2 && ps.stall >= 2
    ensures Leads(es, s) && s.ps == ps && s.w.now == ps.window + 1 && |s.w.starts| == 2
    ensures s.w.item.Some? && s.w.item.value.expiresAt == 2 * ps.window
    ensures |s.w.reserved| == 2 + ps.max
    ensures forall i :: 1 <= i < |s.w.reserved| ==> s.w.reserved[i].at == ps.window + 1
  {
    var w := ps.window;
    assert Leads([], Unused(ps));
    es, s := OpensWindow([], Unused(ps));
    es, s := Then(es, s, Tick(w - 1));
    es, s := Readers(es, s, 1);
    es, s := Then(es, s, Tick(w));
    es, s := StallsBeforePut(es, s);
    es, s := Readers(es, s, ps.max - 1);
    assert s.procs[1] == Add(0, w - 1) && s.procs[2] == Put(0, w);
    es, s := Then(es, s, Tick(w + 1));
    es, s := Adds(es, s, 1);
    es, s := Puts(es, s, 2);
    assert |s.w.reserved| == 3 && s.w.reserved[1].at == w + 1 && s.w.reserved[2].at == w + 1;
    var s1 := s;
    es, s := AllAdd(es, s, 3, w);
    assert forall i :: 0 <= i < 3 ==> s.w.reserved[i] == s1.w.reserved[i];
  }

  /** Any larger limit: an attempt stalled by two seconds falls before two full windows. */
  lemma StalledAdds(ps: Params) returns (es: seq<Event>, s: State)
    requires ValidParams(ps) && ps.max >= 2 && ps.stall >= 2
    ensures Leads(es, s) && s.ps == ps && |InSpan(s, ps.window + 1)| > 2 * ps.max
  {
    var w := ps.window;
    es, s := StalledAddThenFullWindow(ps);
    es, s := Then(es, s, Tick(2 * w));
    es, s := OpensWindow(es, s);
    var p := |s.procs|;
    es, s := Readers(es, s, ps.max - 1);
    var s1 := s;
    es, s := AllAdd(es, s, p, 2 * w);
    assert forall i :: 0 <= i < |s1.w.reserved| ==> s.w.reserved[i] == s1.w.reserved[i];
    SpanHolds(s, w + 1, 1);
  }

  /** "At most twice the limit", for every reachable state and every span. */
  ghost predicate TwiceAtMost(ps: Params) {
    forall s: State, a: int :: Reachable(s) && s.ps == ps ==> |InSpan(s, a)| <= 2 * ps.max
  }

  /**
   * It holds exactly when a call stalls one second at most, or the limit is
   * one and a call stalls no longer than a window.
   */
  lemma TwiceExactlyWhenPrompt(ps: Params)
    requires ValidParams(ps)
    ensures TwiceAtMost(ps) <==> PromptEnough(ps)
  {
    if PromptEnough(ps) {
      forall s: State, a: int | Reachable(s) && s.ps == ps ensures |InSpan(s, a)| <= 2 * ps.max { TwiceTheLimit(s, a); }
    } else {
      var es, s;
      if ps.max == 1 { es, s := StalledOpenings(ps); } else { es, s := StalledAdds(ps); }
      assert Init(Unused(ps)) && Reachable(s);
      assert |InSpan(s, ps.window + 1)| > 2 * ps.max;
    }
  }

  /** PIN comparisons follow a reservation each: with calls that stall a second at most, ten in any 15 minutes. */
  lemma PinComparisonsInAnySpan(s: State, a: int)
    requires Reachable(s) && s.ps.max == 5 && s.ps.window == 15 * 60 && s.ps.stall <= 1
    ensures |InSpan(s, a)| <= 10
  {
    TwiceTheLimit(s, a);
  }
}
