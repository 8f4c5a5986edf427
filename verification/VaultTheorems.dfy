/** What holds over every run of the processes on a vault row, and one run that shows where a wish ends. */
module VaultTheorems {
  import opened Calls
  import opened Runs
  import opened Wrappers
  import opened VaultRow
  import opened VaultInvariant

  // ---- runs ---------------------------------------------------------------------------

  /** History only grows, time passes, and a recovery still on the row is the same one, later. */
  ghost predicate Onward(w: World, w': World) {
    && w.now <= w'.now
    && w.h.written <= w'.h.written && w.h.cancelled <= w'.h.cancelled && w.h.executed <= w'.h.executed
    && (w'.row.recovery.Some? ==>
          var r' := w'.row.recovery.value;
          r'.id !in w.h.written || (Names(w.row, r'.id) && Later(w.row.recovery.value, r')))
  }

  lemma OnwardTwice(a: World, b: World, c: World)
    requires Onward(a, b) && Onward(b, c)
    ensures Onward(a, c)
  {
  }

  lemma StepOnward(s: State, e: Event)
    requires Inv(s) && CanStep(s, e)
    ensures Onward(s.w, Next(s, e).w)
  {
    hide WorldOk, ProcOk, Act, Starts, MintedOk;
    if e.Makes? { ActStep(s.w, e.p, s.procs[e.p], e.c); }
  }

  lemma RunOnward(s: State, es: seq<Event>)
    requires Inv(s) && Exec(s, es).Some?
    ensures Inv(Exec(s, es).value) && Onward(s.w, Exec(s, es).value.w)
  {
    hide Inv, Next, CanStep, Onward;
    OnwardSame(s.w);
    var later := (t: State) => Inv(t) && Onward(s.w, t.w);
    forall t: State, e: Event | later(t) && StepOf(t, e).Some? ensures later(StepOf(t, e).value) {
      InvKept(t, e);
      StepOnward(t, e);
      OnwardTwice(s.w, t.w, Next(t, e).w);
    }
    RunKeeps(StepOf, later, s, es);
  }

  lemma OnwardSame(w: World)
    ensures Onward(w, w)
  {
  }

  lemma ReachableInv(s: State)
    requires Reachable(s)
    ensures Inv(s)
  {
    hide Exec;
    var s0: State, es: seq<Event> :| Init(s0) && Exec(s0, es) == Some(s);
    InitInv(s0);
    RunOnward(s0, es);
  }

  lemma InitInv(s: State)
    requires Init(s)
    ensures Inv(s)
  {
  }

  // ---- recovery and start-over on one row -----------------------------------------------

  /**
   * Whenever a row holds a start-over and a recovery, the recovery is the one
   * the start-over's request read. It is active exactly if it has not ended
   * and its `expires_at`, past when the request read it, was moved since to a
   * time still to come.
   */
  lemma StartOverBesideRecovery(s: State)
    requires Reachable(s) && s.w.row.startOver.Some? && s.w.row.recovery.Some?
    ensures var d, r := s.w.row.startOver.value, s.w.row.recovery.value;
            && d.id in s.w.h.made && s.w.h.made[d.id].read.Some?
            && var asked := s.w.h.made[d.id];
               && asked.read.value.id == r.id
               && (Ended(r.state) || asked.read.value.expiresAt <= asked.requestedAt)
               && (Active(Some(r), s.w.now) <==> !Ended(r.state) && asked.read.value.expiresAt <= asked.requestedAt <= s.w.now < r.expiresAt)
  {
    ReachableInv(s);
  }

  ghost predicate Meet(w: World) { w.row.startOver.Some? && Active(w.row.recovery, w.now) }

  /**
   * The three writes that bring a start-over and an active recovery together:
   * an attempt's or the enclave's later time beside a start-over, and a
   * start-over's write after such a time, which its condition does not see.
   */
  ghost predicate BringsTogether(s: State, e: Event) {
    e.Makes? && e.p < |s.procs| && !e.c.Lost? &&
    match s.procs[e.p]
    case AttemptWrite(r, moved) =>
      && s.w.row.startOver.Some? && Names(s.w.row, r.id) && s.w.row.recovery.value.state.Registered?
      && s.w.row.recovery.value.expiresAt < moved && s.w.now < moved
    case TimesWrite(r, notBefore, expires) =>
      && s.w.row.startOver.Some? && Names(s.w.row, r.id) && s.w.row.recovery.value.state.Pending?
      && !s.w.row.recovery.value.enclaveTimes && s.w.now < WithEnclaveTimes(r, notBefore, expires).expiresAt
    case StartOverWrite(read, _, _) =>
      && s.w.row.startOver.None? && SameRecovery(s.w.row, read) && Active(s.w.row.recovery, s.w.now)
    case _ => false
  }

  /** A start-over and an active recovery come to meet by exactly these events. */
  lemma MeetExactly(s: State, e: Event)
    requires CanStep(s, e) && !Meet(s.w)
    ensures Meet(Next(s, e).w) <==> BringsTogether(s, e)
  {
    hide WithEnclaveTimes, Scaled, NewRecovery;
    if e.Makes? {
      var q := s.procs[e.p];
      if Begins(q) {
      } else if Cancels(q) {
      } else if OnSlots(q) {
      }
    }
  }

  ghost predicate MeetsInRun(s: State, es: seq<Event>)
    decreases |es|
  {
    Meet(s.w) || (es != [] && CanStep(s, es[0]) && MeetsInRun(Next(s, es[0]), es[1..]))
  }

  ghost predicate BroughtTogetherInRun(s: State, es: seq<Event>)
    decreases |es|
  {
    es != [] && CanStep(s, es[0]) && (BringsTogether(s, es[0]) || BroughtTogetherInRun(Next(s, es[0]), es[1..]))
  }

  /** In a run of a new vault the two never meet if and only if none of these writes takes effect. */
  lemma NeverMeetExactly(s: State, es: seq<Event>)
    requires Init(s)
    ensures !MeetsInRun(s, es) <==> !BroughtTogetherInRun(s, es)
  {
    MeetInRun(s, es);
  }

  lemma {:induction false} MeetInRun(s: State, es: seq<Event>)
    requires !Meet(s.w)
    ensures MeetsInRun(s, es) <==> BroughtTogetherInRun(s, es)
    decreases |es|
  {
    hide Next, CanStep, Meet, BringsTogether;
    if es != [] && CanStep(s, es[0]) {
      MeetExactly(s, es[0]);
      if !Meet(Next(s, es[0]).w) { MeetInRun(Next(s, es[0]), es[1..]); }
    }
  }

  /** No recovery is ever created beside a start-over, and no start-over beside an active recovery as its request saw it. */
  lemma NeitherIsCreatedBesideTheOther(s: State, e: Event)
    requires Reachable(s) && CanStep(s, e)
    ensures var w, w' := s.w, Next(s, e).w;
            && (w'.row.recovery.Some? && !Names(w.row, w'.row.recovery.value.id) ==>
                  w.row.startOver.None? && w'.row.startOver.None?)
            && (w'.row.startOver.Some? && w.row.startOver.None? ==>
                  w'.row.recovery == w.row.recovery && !Active(w'.h.made[w'.row.startOver.value.id].read, w'.h.made[w'.row.startOver.value.id].requestedAt))
  {
    ReachableInv(s);
    hide WorldOk, ProcOk, MintedOk, Active, Starts, NewRecovery, WithEnclaveTimes;
    if e.Makes? {
      CreatedAlone(s.w, e.p, s.procs[e.p], e.c);
    }
  }

  lemma CreatedAlone(w: World, p: nat, q: Proc, c: Call)
    requires ProcOk(w, p, q)
    ensures var w' := Act(w, p, q, c).w;
            && (w'.row.recovery.Some? && !Names(w.row, w'.row.recovery.value.id) ==>
                  w.row.startOver.None? && w'.row.startOver.None?)
            && (w'.row.startOver.Some? && w.row.startOver.None? ==>
                  && w'.row.recovery == w.row.recovery
                  && w'.row.startOver.value.id in w'.h.made
                  && !Active(w'.h.made[w'.row.startOver.value.id].read, w'.h.made[w'.row.startOver.value.id].requestedAt))
  {
    hide Active, NewRecovery, WithEnclaveTimes, Past, Won, WonByApp;
  }

  // ---- one recovery over any run ----------------------------------------------------------

  /** The five changes of state: `pending` to `registered`, `cancelled` or `unavailable`, `registered` to `cancelled` or `completed`. */
  predicate Arrow(a: RecoveryState, b: RecoveryState) {
    || (a.Pending? && (b.Registered? || b.Cancelled? || b.Unavailable?))
    || (a.Registered? && (b.Cancelled? || b.Completed?))
  }

  /** A recovery that one event leaves on the row kept its state or took one of the five arrows. */
  lemma OneEventOneArrow(s: State, e: Event, id: nat)
    requires Reachable(s) && CanStep(s, e)
    requires Names(s.w.row, id) && Names(Next(s, e).w.row, id)
    ensures var a, b := s.w.row.recovery.value.state, Next(s, e).w.row.recovery.value.state;
            a == b || Arrow(a, b)
  {
    ReachableInv(s);
    hide WorldOk, ProcOk, MintedOk, Act, Starts;
    if e.Makes? {
      RowIdWritten(s.w);
      Unwritten(s.w, e.p, s.procs[e.p]);
      ActArrow(s.w, e.p, s.procs[e.p], e.c, id);
    }
  }

  lemma RowIdWritten(w: World)
    requires WorldOk(w) && w.row.recovery.Some?
    ensures w.row.recovery.value.id in w.h.written
  {
  }

  lemma Unwritten(w: World, p: nat, q: Proc)
    requires ProcOk(w, p, q)
    ensures q.RequestWrite? ==> p !in w.h.written
  {
  }

  lemma ActArrow(w: World, p: nat, q: Proc, c: Call, id: nat)
    requires Names(w.row, id) && Names(Act(w, p, q, c).w.row, id) && (q.RequestWrite? ==> p != id)
    ensures var a, b := w.row.recovery.value.state, Act(w, p, q, c).w.row.recovery.value.state;
            a == b || Arrow(a, b)
  {
    hide WithEnclaveTimes, Active, Scaled;
    if Begins(q) {
    } else if Cancels(q) {
    } else if OnSlots(q) {
    }
  }

  ghost predicate Arrows(a: RecoveryState, b: RecoveryState, n: nat)
    decreases n
  {
    if n == 0 then a == b else exists m :: Arrow(a, m) && Arrows(m, b, n - 1)
  }

  /** What runs are said to allow is what the arrows reach, no more. */
  lemma ReachesByArrows(a: RecoveryState, b: RecoveryState)
    ensures Reaches(a, b) <==> exists n: nat :: Arrows(a, b, n)
  {
    assert Arrows(a, a, 0) && Arrows(b, b, 0);
    if Arrow(a, b) {
      assert Arrows(a, b, 1);
    } else if Reaches(a, b) && a != b {
      assert Arrow(a, Registered) && Arrow(Registered, b);
      assert Arrows(Registered, b, 1);
      assert Arrows(a, b, 2);
    }
    forall n: nat | Arrows(a, b, n) ensures Reaches(a, b) { ArrowsReach(a, b, n); }
  }

  lemma {:induction false} ArrowsReach(a: RecoveryState, b: RecoveryState, n: nat)
    requires Arrows(a, b, n)
    ensures Reaches(a, b)
    decreases n
  {
    if n > 0 {
      var m :| Arrow(a, m) && Arrows(m, b, n - 1);
      ArrowsReach(m, b, n - 1);
    }
  }

  /**
   * A recovery that is on the row at two times: its state is one the arrows
   * reach, its times only later, and not at all once it ended.
   * One that was replaced never comes back.
   */
  lemma RecoveryOnlyMovesOn(s: State, es: seq<Event>, id: nat)
    requires Reachable(s) && Exec(s, es).Some?
    ensures var w' := Exec(s, es).value.w;
            && (Names(s.w.row, id) && Names(w'.row, id) ==> Later(s.w.row.recovery.value, w'.row.recovery.value))
            && (id in s.w.h.written && !Names(s.w.row, id) ==> !Names(w'.row, id))
  {
    ReachableInv(s);
    hide Later, Exec;
    RunOnward(s, es);
  }

  /**
   * Over any interleaving of cancels by session, link and phone, registers,
   * completions and refusals, at most one cancel of a recovery takes effect;
   * a cancelled recovery names its way; the enclave is told of a recovery's
   * cancel at most once, only if the member's side won; the phone-cancel
   * email is only for a recovery whose one cancel was by the phone.
   */
  lemma OneCancelAndItsMessages(s: State)
    requires Reachable(s)
    ensures forall i, j :: 0 <= i < j < |s.w.h.wins| ==> s.w.h.wins[i].id != s.w.h.wins[j].id
    ensures s.w.row.recovery.Some? && s.w.row.recovery.value.state.Cancelled? ==>
              exists i :: 0 <= i < |s.w.h.wins| && s.w.h.wins[i].id == s.w.row.recovery.value.id
                && Some(s.w.h.wins[i].via) == s.w.row.recovery.value.via
    ensures forall i, j :: 0 <= i < j < |s.w.h.told| ==> s.w.h.told[i] != s.w.h.told[j]
    ensures forall i :: 0 <= i < |s.w.h.told| ==> WonOnSite(s.w.h.wins, s.w.h.told[i]) && !WonByApp(s.w.h.wins, s.w.h.told[i])
    ensures forall i :: 0 <= i < |s.w.h.mailed| ==> WonByApp(s.w.h.wins, s.w.h.mailed[i]) && !WonOnSite(s.w.h.wins, s.w.h.mailed[i])
  {
    ReachableInv(s);
    assert forall id :: !(WonOnSite(s.w.h.wins, id) && WonByApp(s.w.h.wins, id));
  }

  /**
   * The clock of the recovery on the row: available 24 scaled hours or more
   * after the request, expiring within 130 days of it, and open for 24 scaled
   * hours or more unless it expires at that cap.
   */
  lemma RecoveryClock(s: State)
    requires Reachable(s) && s.w.row.recovery.Some?
    ensures var r := s.w.row.recovery.value;
            && r.requestedAt + Scaled(DAY, r.scale) <= r.availableAt
            && r.expiresAt <= r.requestedAt + MAX_SPAN
            && (r.availableAt + Scaled(DAY, r.scale) <= r.expiresAt || r.expiresAt == r.requestedAt + MAX_SPAN)
  {
    ReachableInv(s);
  }

  // ---- one start-over over any run ----------------------------------------------------------

  /** A start-over is never both cancelled and taken up; `delete` is sent only for one taken up, 24 scaled hours or more after its request. */
  lemma CancelledOrCarriedOut(s: State)
    requires Reachable(s)
    ensures s.w.h.executed !! s.w.h.cancelled
    ensures forall i :: 0 <= i < |s.w.h.deletes| ==>
              var sent := s.w.h.deletes[i];
              && sent.id in s.w.h.executed && sent.id in s.w.h.made
              && s.w.h.made[sent.id].requestedAt + Scaled(DAY, s.w.h.made[sent.id].scale) <= sent.at
  {
    ReachableInv(s);
  }

  /** A start-over recorded as queued has had its `delete` sent: the retry, which skips it, loses none. */
  lemma QueuedIsSent(s: State)
    requires Reachable(s) && s.w.row.startOver.Some? && s.w.row.startOver.value.queuedAt.Some?
    ensures Deleted(s.w.h.deletes, s.w.row.startOver.value.id) && s.w.row.startOver.value.id in s.w.h.executed
  {
    ReachableInv(s);
    var i :| 0 <= i < |s.w.h.deletes| && s.w.h.deletes[i].id == s.w.row.startOver.value.id;
  }

  lemma CancelledNeverDeleted(s: State, es: seq<Event>, id: nat)
    requires Inv(s) && id in s.w.h.cancelled && Exec(s, es).Some?
    ensures !Deleted(s.w.h.deletes, id) && !Deleted(Exec(s, es).value.w.h.deletes, id)
  {
    hide Exec;
    RunOnward(s, es);
  }

  /** Once a cancel's write took effect (the member's or support's), no `delete` was or will be sent for that start-over. */
  lemma ACancelSticks(s: State, p: nat, c: Call, es: seq<Event>)
    requires Reachable(s) && p < |s.procs| && (s.procs[p].UndoWrite? || s.procs[p].SupportWrite?)
    requires Waits(s.w.row, s.procs[p].id) && !c.Lost?
    requires Exec(Next(s, Makes(p, c)), es).Some?
    ensures !Deleted(s.w.h.deletes, s.procs[p].id)
    ensures !Deleted(Exec(Next(s, Makes(p, c)), es).value.w.h.deletes, s.procs[p].id)
  {
    ReachableInv(s);
    InvKept(s, Makes(p, c));
    CancelledNeverDeleted(Next(s, Makes(p, c)), es, s.procs[p].id);
  }

  /**
   * A reinstatement's cancel step that was completed: the start-over it read
   * as pending is carried out neither before nor at any time after.
   */
  lemma ReinstatementEndsTheStartOver(s: State, p: nat, es: seq<Event>)
    requires Reachable(s) && p < |s.procs| && s.procs[p].SupportDone? && s.procs[p].pending.Some?
    requires Exec(s, es).Some?
    ensures !Deleted(s.w.h.deletes, s.procs[p].pending.value)
    ensures !Deleted(Exec(s, es).value.w.h.deletes, s.procs[p].pending.value)
  {
    ReachableInv(s);
    assert ProcOk(s.w, p, s.procs[p]);
    CancelledNeverDeleted(s, es, s.procs[p].pending.value);
  }

  // ---- where it ends ------------------------------------------------------------------------

  const START := State(World(0, true, Row(None, None, None, None), History({}, [], [], [], map[], {}, {}, [])), [])

  ghost predicate Leads(es: seq<Event>, s: State) { Exec(START, es) == Some(s) }

  lemma Then(es: seq<Event>, s: State, e: Event) returns (es': seq<Event>, s': State)
    requires Leads(es, s) && CanStep(s, e)
    ensures s' == Next(s, e) && Leads(es', s')
  {
    hide Next, CanStep;
    es' := Extend(StepOf, START, es, s, e);
    s' := Next(s, e);
  }

  /** A recovery is requested and registered with key 7. */
  lemma RegisteredRecovery() returns (es: seq<Event>, s: State)
    ensures Leads(es, s) && s.procs == [Finished, Finished] && s.w.now == 0
    ensures s.w.row == Row(Some(NewRecovery(0, 0, 1).(state := Registered, recovering := Some(7))), None, None, None)
  {
    hide WithEnclaveTimes, ActSlots, ActCancel, ActStartOver;
    assert Leads([], START);
    es, s := RequestedRecovery();
    es, s := RegistersRecovery(es, s);
  }

  lemma RequestedRecovery() returns (es: seq<Event>, s: State)
    ensures Leads(es, s) && s.procs == [Finished] && s.w.now == 0
    ensures s.w.row == Row(Some(NewRecovery(0, 0, 1)), None, None, None)
  {
    hide WithEnclaveTimes, ActSlots, ActCancel, ActStartOver, Scaled;
    assert Leads([], START);
    es, s := Then([], START, Start(Read(ToRequest(0, 1))));
    assert s.procs == [Read(ToRequest(0, 1))];
    es, s := Then(es, s, Makes(0, Answered));
    assert s.procs == [RequestWrite(None, 0, 1)];
    es, s := Then(es, s, Makes(0, Answered));
  }

  lemma RegistersRecovery(es0: seq<Event>, s0: State) returns (es: seq<Event>, s: State)
    requires Leads(es0, s0) && s0.procs == [Finished] && s0.w.now == 0
    requires s0.w.row == Row(Some(NewRecovery(0, 0, 1)), None, None, None)
    ensures Leads(es, s) && s.procs == [Finished, Finished] && s.w.now == 0
    ensures s.w.row == Row(Some(NewRecovery(0, 0, 1).(state := Registered, recovering := Some(7))), None, None, None)
  {
    hide WithEnclaveTimes, ActBegin, ActCancel, ActStartOver, Scaled;
    es, s := Then(es0, s0, Start(RegisterRead(0, 7, 0)));
    assert s.procs == [Finished, RegisterRead(0, 7, 0)];
    es, s := Then(es, s, Makes(1, Answered));
    assert s.procs == [Finished, RegisterWrite(0, Some(7), 0)];
    es, s := Then(es, s, Makes(1, Answered));
  }

  /** It expires, and a start-over is requested. */
  lemma ExpiredThenStartOver() returns (es: seq<Event>, s: State)
    ensures Leads(es, s) && s.procs == [Finished, Finished, Finished] && s.w.now == 2 * DAY
    ensures s.w.row.recovery == Some(NewRecovery(0, 0, 1).(state := Registered, recovering := Some(7)))
    ensures s.w.row.startOver == Some(StartOver(2, false, 3 * DAY, None)) && s.w.row.appKey == None
  {
    es, s := RegisteredRecovery();
    var r := s.w.row.recovery;
    assert r.value.expiresAt == 2 * DAY;
    var ask := ToStartOver(2 * DAY, 1);
    es, s := Then(es, s, Tick(2 * DAY));
    es, s := Then(es, s, Start(Read(ask)));
    assert s.procs == [Finished, Finished, Read(ask)];
    es, s := Then(es, s, Makes(2, Answered));
    assert s.procs == [Finished, Finished, StartOverWrite(r, 2 * DAY, 1)];
    es, s := Then(es, s, Makes(2, Answered));
  }

  /**
   * The plain wish "an active recovery and a start-over never meet" is false.
   * An attempt reported late moves the expired recovery's `expires_at` to the
   * enclave's later time, and it is active again beside the pending start-over.
   */
  lemma ActiveRecoveryBesidePendingStartOver() returns (es: seq<Event>, s: State)
    ensures Leads(es, s) && Init(START)
    ensures Active(s.w.row.recovery, s.w.now)
    ensures s.w.row.startOver.Some? && !s.w.row.startOver.value.executing
  {
    es, s := ExpiredThenStartOver();
    var r := s.w.row.recovery.value;
    es, s := Then(es, s, Start(AttemptRead(0, 4 * DAY)));
    assert s.procs == [Finished, Finished, Finished, AttemptRead(0, 4 * DAY)];
    es, s := Then(es, s, Makes(3, Answered));
    assert s.procs == [Finished, Finished, Finished, AttemptWrite(r, 4 * DAY)];
    es, s := Then(es, s, Makes(3, Answered));
  }

  /** The enclave's times, read late from their slot, do it too. */
  lemma LateTimesBesideStartOver() returns (es: seq<Event>, s: State)
    ensures Leads(es, s) && Meet(s.w) && s.w.row.recovery.value.state.Pending?
  {
    hide ActCancel, ActStartOver;
    es, s := RequestedRecovery();
    var ask := ToStartOver(2 * DAY, 1);
    es, s := Then(es, s, Tick(2 * DAY));
    es, s := Then(es, s, Start(Read(ask)));
    es, s := Then(es, s, Makes(1, Answered));
    assert s.procs == [Finished, StartOverWrite(Some(NewRecovery(0, 0, 1)), 2 * DAY, 1)];
    es, s := Then(es, s, Makes(1, Answered));
    es, s := Then(es, s, Start(TimesRead(3 * DAY, 4 * DAY)));
    es, s := Then(es, s, Makes(2, Answered));
    assert s.procs[2] == TimesWrite(NewRecovery(0, 0, 1), 3 * DAY, 4 * DAY);
    es, s := Then(es, s, Makes(2, Answered));
  }

  /** And a start-over's write after the recovery it read as expired was moved. */
  lemma StartOverWrittenAfterTheMove() returns (es: seq<Event>, s: State)
    ensures Leads(es, s) && Meet(s.w) && s.procs == [Finished, Finished, Finished, Finished]
  {
    hide ActCancel, ActStartOver, WithEnclaveTimes;
    es, s := RegisteredRecovery();
    var r := s.w.row.recovery.value;
    var ask := ToStartOver(2 * DAY, 1);
    es, s := Then(es, s, Tick(2 * DAY));
    es, s := Then(es, s, Start(Read(ask)));
    es, s := Then(es, s, Makes(2, Answered));
    assert s.procs == [Finished, Finished, StartOverWrite(Some(r), 2 * DAY, 1)];
    es, s := Then(es, s, Start(AttemptRead(0, 4 * DAY)));
    es, s := Then(es, s, Makes(3, Answered));
    assert s.procs[3] == AttemptWrite(r, 4 * DAY);
    es, s := Then(es, s, Makes(3, Answered));
    es, s := Then(es, s, Makes(2, Answered));
  }
}
