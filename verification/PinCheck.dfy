/**
 * The PIN check (lambda/shared/pin.ts): an attempt reserved before the
 * comparison, five in 15 minutes, and a long lock past 15 wrong ones a day.
 * Checks come one after another, in the order of their clock readings.
 */
module PinCheck {
  import opened RateLimit
  import opened RateLimitStore
  import opened Wrappers

  const PIN_MAX := 5
  const PIN_WINDOW := 15 * 60
  const DAILY_MAX := 15
  const DAY := 86_400

  datatype PinCheck = Right | Wrong(locked: bool, attemptsLeft: int, justLocked: bool)

  /** The lockout's item and the day's counts. */
  datatype Stored = Stored(item: Option<Item>, counts: map<int, int>)

  function Counted(counts: map<int, int>, day: int): int { if day in counts then counts[day] else 0 }

  function Attempted(item: Option<Item>, now: int): Item {
    if item.Some? && item.value.expiresAt > now then item.value.(count := item.value.count + 1) else Item(1, now + PIN_WINDOW)
  }

  /** What a check leaves. */
  function AfterCheck(s: Stored, now: int, right: bool, longLock: int): Stored {
    if Locked(s.item, now, PIN_MAX) then s
    else if right then s.(item := None)
    else
      var day := WindowStart(now, DAY);
      var count := Counted(s.counts, day) + 1;
      Stored(Some(if count > DAILY_MAX then Item(PIN_MAX, now + longLock) else Attempted(s.item, now)), s.counts[day := count])
  }

  /** The comparison happens only after an attempt was reserved; a right PIN clears the lockout, a wrong one counts for the day. */
  method CheckPin(lock: Lockout, daily: Counter, right: bool, longLock: int) returns (r: PinCheck, compared: bool)
    requires daily.Valid() && daily.window == DAY && longLock >= 1
    modifies lock`item, daily
    ensures daily.Valid()
    ensures compared == !old(Locked(lock.item, lock.now, PIN_MAX))
    ensures Stored(lock.item, daily.counts) == AfterCheck(old(Stored(lock.item, daily.counts)), lock.now, right, longLock)
    ensures r.Right? <==> compared && right
    ensures compared <==> old(lock.item.None? || lock.item.value.expiresAt <= lock.now || lock.item.value.count < 5)
    ensures !compared ==> r == Wrong(true, 0, false) && lock.item == old(lock.item) && daily.counts == old(daily.counts)
    ensures r.Right? ==> lock.item == None && daily.counts == old(daily.counts)
    ensures compared && !right ==>
              var day := lock.now - lock.now % 86_400;
              var count := 1 + if day in old(daily.counts) then old(daily.counts)[day] else 0;
              && daily.counts == old(daily.counts)[day := count]
              && lock.item == Some(
                   if count > 15 then Item(5, lock.now + longLock)
                   else if old(lock.item.Some? && lock.item.value.expiresAt > lock.now) then old(lock.item).value.(count := old(lock.item).value.count + 1)
                   else Item(1, lock.now + 900))
    ensures compared && !right ==>
              var count := Counted(daily.counts, WindowStart(lock.now, DAY));
              if count > DAILY_MAX then r == Wrong(true, 0, count == DAILY_MAX + 1)
              else lock.item.Some? && r == Wrong(lock.item.value.count >= PIN_MAX, PIN_MAX - lock.item.value.count, lock.item.value.count >= PIN_MAX)
  {
    compared := false;
    var n := lock.Reserve(PIN_MAX, PIN_WINDOW);
    if n.None? { return Wrong(true, 0, false), false; }
    compared := true;
    if right {
      lock.Clear();
      return Right, true;
    }
    var allowed, _, count := daily.DoHit(lock.now, DAILY_MAX);
    if !allowed {
      lock.LockUntil(PIN_MAX, lock.now + longLock);
      return Wrong(true, 0, count == DAILY_MAX + 1), true;
    }
    var locked := n.value >= PIN_MAX;
    r := Wrong(locked, if n.value <= PIN_MAX then PIN_MAX - n.value else 0, locked);
  }

  // ---- a day of checks --------------------------------------------------------------------

  datatype Check = Check(now: int, right: bool)

  predicate InOrder(checks: seq<Check>) { forall i, j :: 0 <= i < j < |checks| ==> checks[i].now <= checks[j].now }

  predicate IsWrongIn(s: Stored, c: Check, day: int) {
    !Locked(s.item, c.now, PIN_MAX) && !c.right && WindowStart(c.now, DAY) == day
  }

  /** The wrong PINs compared on a day. */
  function WrongOn(s: Stored, checks: seq<Check>, day: int, longLock: int): nat
    decreases |checks|
  {
    if checks == [] then 0
    else
      (if IsWrongIn(s, checks[0], day) then 1 else 0)
      + WrongOn(AfterCheck(s, checks[0].now, checks[0].right, longLock), checks[1..], day, longLock)
  }

  /** Past the daily maximum: the last wrong one read `last`, each `longLock` after the one before, and its lock holds. */
  ghost predicate DayOk(s: Stored, clock: int, day: int, longLock: int, last: int) {
    var over := Counted(s.counts, day) - DAILY_MAX;
    over > 0 ==>
      && day + (over - 1) * longLock <= last < day + DAY && last <= clock
      && (clock < last + longLock ==> s.item == Some(Item(PIN_MAX, last + longLock)))
  }

  lemma CheckKeeps(s: Stored, clock: int, day: int, longLock: int, last: int, c: Check) returns (last': int)
    requires longLock >= 1 && clock <= c.now && DayOk(s, clock, day, longLock, last)
    ensures DayOk(AfterCheck(s, c.now, c.right, longLock), c.now, day, longLock, last')
    ensures Counted(AfterCheck(s, c.now, c.right, longLock).counts, day) ==
            Counted(s.counts, day) + if IsWrongIn(s, c, day) then 1 else 0
  {
    var over := Counted(s.counts, day) - DAILY_MAX;
    last' := last;
    if IsWrongIn(s, c, day) && over >= 0 {
      StartIsMultiple(c.now, DAY);
      last' := c.now;
      if over > 0 { OneMore(over - 1, longLock); }
    }
  }

  lemma {:induction false} DayKept(s: Stored, clock: int, checks: seq<Check>, day: int, longLock: int, last: int)
    requires longLock >= 1 && InOrder(checks) && (checks != [] ==> clock <= checks[0].now)
    requires DayOk(s, clock, day, longLock, last)
    ensures var n := Counted(s.counts, day) + WrongOn(s, checks, day, longLock);
            n > DAILY_MAX ==> (n - DAILY_MAX - 1) * longLock < DAY
    decreases |checks|
  {
    hide AfterCheck, IsWrongIn;
    if checks != [] {
      var c := checks[0];
      var last' := CheckKeeps(s, clock, day, longLock, last, c);
      DayKept(AfterCheck(s, c.now, c.right, longLock), c.now, checks[1..], day, longLock, last');
    }
  }

  /**
   * On one day, whatever right PINs are given in between: past 15 wrong PINs
   * compared, each further one is a long lock after the one before.
   */
  lemma WrongPinsInADay(checks: seq<Check>, day: int, longLock: int)
    requires longLock >= 1 && InOrder(checks)
    ensures WrongOn(Stored(None, map[]), checks, day, longLock) <= DAILY_MAX + CeilDiv(DAY, longLock)
  {
    var n := WrongOn(Stored(None, map[]), checks, day, longLock);
    DayKept(Stored(None, map[]), if checks == [] then 0 else checks[0].now, checks, day, longLock, 0);
    var k := CeilDiv(DAY, longLock);
    assert DAY <= k * longLock by { assert DAY + longLock - 1 == longLock * k + (DAY + longLock - 1) % longLock; }
    if n - DAILY_MAX - 1 >= k { Times(k, n - DAILY_MAX - 1, longLock); }
  }

  /** With the real lock of 24 hours 16 a day, with the staging one of an hour 39. */
  lemma WrongPinsWithTheRealLocks(checks: seq<Check>, day: int)
    requires InOrder(checks)
    ensures WrongOn(Stored(None, map[]), checks, day, 24 * 3600) <= 16
    ensures WrongOn(Stored(None, map[]), checks, day, 3600) <= 39
  {
    WrongPinsInADay(checks, day, 24 * 3600);
    WrongPinsInADay(checks, day, 3600);
  }
}
