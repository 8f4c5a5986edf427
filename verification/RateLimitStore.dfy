/**
 * The lockout and the fixed-window counter as stored items that methods
 * change.
 */
module RateLimitStore {
  import opened Calls
  import opened RateLimit
  import opened Wrappers

  // ---- the lockout ------------------------------------------------------------------------

  predicate Locked(item: Option<Item>, now: int, max: int) {
    item.Some? && item.value.expiresAt > now && item.value.count >= max
  }

  class Lockout {
    var item: Option<Item>
    var now: int

    /** Reserve one attempt before it is checked; alone on the key, and in less than a second. */
    method Reserve(max: int, windowSeconds: int) returns (n: Option<int>)
      requires max >= 1 && windowSeconds >= 1
      modifies `item
      ensures n.None? <==> old(Locked(item, now, max))
      ensures n.None? ==> item == old(item)
      ensures n.Some? && old(item.Some? && item.value.expiresAt > now) ==>
                n.value == old(item.value.count) + 1 <= max && item == Some(old(item.value).(count := n.value))
      ensures n.Some? && !old(item.Some? && item.value.expiresAt > now) ==>
                n.value == 1 && item == Some(Item(1, now + windowSeconds))
    {
      for i := 0 to ROUNDS
        invariant item == old(item) && (i > 0 ==> old(Locked(item, now, max)))
      {
        if MayAdd(item, now, max) {
          item := Some(item.value.(count := item.value.count + 1));
          return Some(item.value.count);
        }
        if MayPut(item, now) {
          item := Some(Item(1, now + windowSeconds));
          return Some(1);
        }
        if Locked(item, now, max) { return None; }
      }
      return None;
    }

    /** Locked until `until`. */
    method LockUntil(max: int, until: int)
      modifies `item
      ensures item == Some(Item(max, until))
      ensures forall t :: t < until ==> Locked(item, t, max)
    {
      item := Some(Item(max, until));
    }

    method Clear()
      modifies `item
      ensures item == None
    {
      item := None;
    }
  }

  /** A process alone, its calls answered within the second. */
  function AloneFor(ps: Params, w: World, q: Proc, calls: nat): Step
    decreases calls
  {
    if calls == 0 then Step(w, q)
    else
      var step := Act(ps, w, q, Answered);
      AloneFor(ps, step.w, step.next, calls - 1)
  }

  /** Such a process of the state machine reserves what `Reserve` does: one more, a first one, or nothing exactly when locked. */
  lemma ReservesAlone(ps: Params, w: World)
    requires ValidParams(ps)
    ensures AloneFor(ps, w, ReadClock(0), 4).next == Finished
    ensures var end := AloneFor(ps, w, ReadClock(0), 4).w;
            if w.item.Some? && w.item.value.expiresAt > w.now then
              if w.item.value.count >= ps.max then end == w
              else
                && end.item == Some(Item(w.item.value.count + 1, w.item.value.expiresAt)) && end.starts == w.starts
                && |end.reserved| == |w.reserved| + 1 && end.reserved[..|w.reserved|] == w.reserved
                && end.reserved[|w.reserved|].number == w.item.value.count + 1
            else
              && end.item == Some(Item(1, w.now + ps.window)) && end.starts == w.starts + [w.now]
              && end.reserved == w.reserved + [Reserved(w.now, |w.starts|, 1)]
  {
    var read := Act(ps, w, ReadClock(0), Answered);
    var added := Act(ps, read.w, read.next, Answered);
    var put := Act(ps, added.w, added.next, Answered);
    var got := Act(ps, put.w, put.next, Answered);
    assert AloneFor(ps, put.w, put.next, 1) == got;
    assert AloneFor(ps, added.w, added.next, 2) == got;
    assert AloneFor(ps, read.w, read.next, 3) == got;
  }

  // ---- the fixed-window counter --------------------------------------------------------------

  /** The start of the window a clock reading falls in. */
  function WindowStart(t: int, window: int): int
    requires window >= 1
  {
    t - t % window
  }

  lemma StartIsMultiple(t: int, window: int)
    requires window >= 1
    ensures WindowStart(t, window) == (t / window) * window
    ensures WindowStart(t, window) <= t < WindowStart(t, window) + window
  {
    assert t == window * (t / window) + t % window;
  }

  lemma SameWindow(t: int, k: int, window: int)
    requires window >= 1 && k * window <= t < k * window + window
    ensures WindowStart(t, window) == k * window
  {
    StartIsMultiple(t, window);
    var b := t / window;
    if b < k { Times(b + 1, k, window); OneMore(b, window); }
    if b > k { Times(k + 1, b, window); OneMore(k, window); }
  }

  /** One hit: its clock reading, and the count it got. */
  datatype Hit = Hit(t: int, count: int)

  /** Counts per window, and every hit that was answered. The add is atomic, so hits come one after another in any order of their readings. */
  class Counter {
    const window: int
    var counts: map<int, int>
    ghost var hits: seq<Hit>

    ghost predicate Valid()
      reads this
    {
      && window >= 1
      && (forall i :: 0 <= i < |hits| ==>
            && WindowStart(hits[i].t, window) in counts
            && 1 <= hits[i].count <= counts[WindowStart(hits[i].t, window)])
      && (forall k :: k in counts ==> counts[k] >= 1)
      && HitsOk(hits, window)
    }

    constructor (windowSeconds: int)
      requires windowSeconds >= 1
      ensures Valid() && window == windowSeconds && counts == map[] && hits == []
    {
      window := windowSeconds;
      counts := map[];
      hits := [];
    }

    /** `now` is the caller's clock reading; the add may take effect any time later. */
    method DoHit(now: int, limit: int) returns (allowed: bool, retryAfter: int, count: int)
      requires Valid()
      modifies this
      ensures Valid()
      ensures hits == old(hits) + [Hit(now, count)]
      ensures count == (if WindowStart(now, window) in old(counts) then old(counts)[WindowStart(now, window)] else 0) + 1
      ensures counts == old(counts)[WindowStart(now, window) := count]
      ensures allowed == (count <= limit) && 1 <= retryAfter <= window
    {
      var start := WindowStart(now, window);
      count := (if start in counts then counts[start] else 0) + 1;
      counts := counts[start := count];
      hits := hits + [Hit(now, count)];
      StartIsMultiple(now, window);
      allowed := count <= limit;
      retryAfter := start + window - now;
    }
  }

  /** Hits of one window have different counts, from 1 on. */
  ghost predicate HitsOk(hits: seq<Hit>, window: int)
    requires window >= 1
  {
    && (forall i :: 0 <= i < |hits| ==> 1 <= hits[i].count)
    && (forall i, j :: 0 <= i < j < |hits| && WindowStart(hits[i].t, window) == WindowStart(hits[j].t, window) ==>
          hits[i].count != hits[j].count)
  }

  /** The allowed hits whose clock read a time in the span. */
  ghost function Allowed(hits: seq<Hit>, limit: int, from: int, to: int): set<nat> {
    set i: nat | i < |hits| && hits[i].count <= limit && from <= hits[i].t < to
  }

  lemma {:induction false} DistinctCounts(hits: seq<Hit>, idx: set<nat>, counts: set<int>)
    requires forall i :: i in idx ==> i < |hits|
    requires forall i, j :: i in idx && j in idx && i != j ==> hits[i].count != hits[j].count
    requires counts == set i | i in idx :: hits[i].count
    ensures |counts| == |idx|
    decreases |idx|
  {
    if idx == {} {
      assert counts == {};
    } else {
      var i :| i in idx;
      var counts' := set j | j in idx - {i} :: hits[j].count;
      DistinctCounts(hits, idx - {i}, counts');
      assert hits[i].count !in counts';
      assert counts == counts' + {hits[i].count};
    }
  }

  lemma AllowedInOneWindow(hits: seq<Hit>, window: int, limit: int, k: int)
    requires window >= 1 && limit >= 0 && HitsOk(hits, window)
    ensures |Allowed(hits, limit, k * window, k * window + window)| <= limit
  {
    var idx := Allowed(hits, limit, k * window, k * window + window);
    forall i | i in idx ensures WindowStart(hits[i].t, window) == k * window { SameWindow(hits[i].t, k, window); }
    hide WindowStart;
    var counts := set i | i in idx :: hits[i].count;
    DistinctCounts(hits, idx, counts);
    UpTo(counts, limit);
  }

  /** At most twice the limit of allowed hits read the clock in any span of one window length. */
  lemma AllowedInAnySpan(hits: seq<Hit>, window: int, limit: int, from: int)
    requires window >= 1 && limit >= 0 && HitsOk(hits, window)
    ensures |Allowed(hits, limit, from, from + window)| <= 2 * limit
  {
    hide HitsOk;
    var k := from / window;
    StartIsMultiple(from, window);
    AllowedInOneWindow(hits, window, limit, k);
    AllowedInOneWindow(hits, window, limit, k + 1);
    OneMore(k, window);
    var start := k * window;
    var a, b := Allowed(hits, limit, start, start + window), Allowed(hits, limit, start + window, start + window + window);
    assert Allowed(hits, limit, from, from + window) <= a + b;
    Fewer(Allowed(hits, limit, from, from + window), a + b);
  }
}
