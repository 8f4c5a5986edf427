/**
 * One vault row and everything that writes its `recovery` and `deletion`: the
 * recovery request, its three cancels, register, completion, the enclave's
 * refusal and times, an attempt's later expiry, the start-over request, its
 * cancels and the job that carries it out (lambda/member/vault.ts,
 * lambda/jobs/cleanup.ts).
 *
 * Each handler is a process; each read or conditional write is one step. What
 * the enclave's host puts in its slots and in `app_key` is arbitrary.
 */
module VaultRow {
  import opened Calls
  import opened Runs
  import opened Wrappers

  const DAY := 86_400
  const MAX_SPAN := 130 * DAY

  /** The staging time scale: real time, or a day in an hour. */
  type Scale = s: int | s == 1 || s == 24 witness 1

  function Scaled(seconds: int, scale: Scale): int { (seconds + scale - 1) / scale }

  function Max(a: int, b: int): int { if a < b then b else a }
  function Min(a: int, b: int): int { if a < b then a else b }

  // ---- the row -------------------------------------------------------------------

  datatype RecoveryState = Pending | Registered | Cancelled | Unavailable | Completed
  datatype Via = Session | Link | App

  datatype Recovery = Recovery(
    id: nat, state: RecoveryState, requestedAt: int, availableAt: int, expiresAt: int, scale: Scale,
    enclaveTimes: bool, via: Option<Via>, recovering: Option<nat>)

  datatype StartOver = StartOver(id: nat, executing: bool, deletesAt: int, queuedAt: Option<int>)

  /** The key a setup code was redeemed with; live before `until`. */
  datatype Redeemed = Redeemed(key: nat, until: int)

  datatype Row = Row(recovery: Option<Recovery>, startOver: Option<StartOver>, appKey: Option<nat>, redeemed: Option<Redeemed>)

  predicate Ended(s: RecoveryState) { s.Cancelled? || s.Unavailable? || s.Completed? }

  /** Pending, available or registered, before `expires_at`. */
  predicate Active(r: Option<Recovery>, now: int) {
    r.Some? && now < r.value.expiresAt && !Ended(r.value.state)
  }

  predicate Names(w: Row, id: nat) { w.recovery.Some? && w.recovery.value.id == id }

  /** The vault's app key, or one being set up as such. */
  predicate KeyInUse(v: Row, key: nat, now: int) {
    v.appKey == Some(key) || (v.redeemed.Some? && v.redeemed.value.key == key && v.redeemed.value.until > now)
  }

  /** The vault has adopted the recovering key. */
  predicate IsCompleted(v: Row) {
    v.recovery.Some? && v.recovery.value.state.Registered?
    && v.recovery.value.recovering.Some? && v.recovery.value.recovering == v.appKey
  }

  function NewRecovery(id: nat, now: int, scale: Scale): Recovery {
    var availableAt := now + Scaled(DAY, scale);
    Recovery(id, Pending, now, availableAt, availableAt + Scaled(DAY, scale), scale, false, None, None)
  }

  /** The enclave's clear times, with the API's own floors and cap. */
  function WithEnclaveTimes(r: Recovery, notBefore: int, expires: int): Recovery {
    var availableAt := Max(r.requestedAt + Scaled(DAY, r.scale), notBefore);
    var expiresAt := Min(r.requestedAt + MAX_SPAN, Max(expires, availableAt + Scaled(DAY, r.scale)));
    r.(availableAt := availableAt, expiresAt := expiresAt, enclaveTimes := true)
  }

  function AsCompleted(r: Recovery): Recovery { r.(state := Completed, recovering := None) }

  // ---- history --------------------------------------------------------------------

  /** A cancel write that took effect: which recovery, by which way, by which process. */
  datatype Win = Win(id: nat, via: Via, winner: nat)

  /** A start-over as it was requested, with the recovery its request had read. */
  datatype Made = Made(requestedAt: int, deletesAt: int, scale: Scale, read: Option<Recovery>)

  datatype Sent = Sent(id: nat, at: int)

  /**
   * `written`: recovery ids ever on the row. `told`: recoveries whose
   * `recovery_cancel` was queued. `mailed`: phone-cancel emails. `executed`,
   * `cancelled`: start-overs taken up or cancelled. `deletes`: the `delete`
   * messages sent.
   */
  datatype History = History(
    written: set<nat>, wins: seq<Win>, told: seq<nat>, mailed: seq<nat>,
    made: map<nat, Made>, executed: set<nat>, cancelled: set<nat>, deletes: seq<Sent>)

  /** `member`: the account is active. */
  datatype World = World(now: int, member: bool, row: Row, h: History)

  // ---- processes -------------------------------------------------------------------

  /** What a process that begins with the completion check goes on to do. */
  datatype Purpose =
    | ToRequest(now: int, scale: Scale)
    | ToStartOver(now: int, scale: Scale)
    | ToCancel(id: nat, via: Via, now: int)
    | ToNotice(id: nat, now: int)

  datatype Proc =
    | Finished
    | Read(todo: Purpose)
    | Complete(todo: Purpose, v: Row)
    | RequestWrite(read: Option<Recovery>, now: int, scale: Scale)
    | StartOverWrite(read: Option<Recovery>, now: int, scale: Scale)
    | CancelWrite(id: nat, via: Via, now: int)
    | TellEnclave(id: nat)
    // a cancel from the phone, after its write lost; and its email
    | NoticeReread(id: nat)
    | NoticeMail(id: nat)
    // the slots' answers
    | RegisterRead(id: nat, key: nat, now: int)
    | RegisterWrite(id: nat, recovering: Option<nat>, now: int)
    | RefuseWrite(id: nat)
    | TimesRead(notBefore: int, expires: int)
    | TimesWrite(r: Recovery, notBefore: int, expires: int)
    | AttemptRead(id: nat, expires: int)
    | AttemptWrite(r: Recovery, moved: int)
    // cancels of the start-over: the member's, and the one a reinstatement makes
    | UndoRead(id: nat)
    | UndoWrite(id: nat)
    | SupportRead
    | SupportWrite(id: nat)
    | SupportDone(pending: Option<nat>)
    // the job
    | JobStanding(id: nat, started: int)
    | JobExecute(id: nat, started: int)
    | JobSend(id: nat)
    | JobMarkQueued(id: nat)

  datatype Step = Step(w: World, next: Proc)

  function Decide(todo: Purpose, v: Row): Proc {
    match todo
    case ToRequest(now, scale) =>
      if Active(v.recovery, now) || v.startOver.Some? then Finished else RequestWrite(v.recovery, now, scale)
    case ToStartOver(now, scale) =>
      if Active(v.recovery, now) || v.startOver.Some? then Finished else StartOverWrite(v.recovery, now, scale)
    case ToCancel(id, via, now) =>
      if Names(v, id) && Active(v.recovery, now) then CancelWrite(id, via, now) else Finished
    case ToNotice(id, now) =>
      if Names(v, id) then CancelWrite(id, App, now) else NoticeReread(id)
  }

  /** The condition on what the writer had read: the same recovery, or still none. */
  predicate SameRecovery(w: Row, read: Option<Recovery>) {
    if read.None? then w.recovery.None? else Names(w, read.value.id)
  }

  function SetRecovery(w: World, r: Recovery): World { w.(row := w.row.(recovery := Some(r))) }

  function ActBegin(w: World, p: nat, q: Proc, c: Call): Step
    requires q.Read? || q.Complete? || q.RequestWrite? || q.StartOverWrite?
  {
    match q
    case Read(todo) =>
      if !c.Answered? then Step(w, Finished)
      else if IsCompleted(w.row) then Step(w, Complete(todo, w.row))
      else Step(w, Decide(todo, w.row))
    case Complete(todo, v) =>
      if v.recovery.None? then Step(w, Finished)
      else
        var r := v.recovery.value;
        var holds := Names(w.row, r.id) && w.row.recovery.value.state.Registered? && w.row.recovery.value.recovering == r.recovering;
        var w' := if holds && !c.Lost? then SetRecovery(w, AsCompleted(w.row.recovery.value)) else w;
        var v' := if holds then v.(recovery := Some(AsCompleted(r))) else v;
        Step(w', if c.Answered? then Decide(todo, v') else Finished)
    case RequestWrite(read, now, scale) =>
      var holds := SameRecovery(w.row, read) && w.row.startOver.None?;
      var w' := if holds && !c.Lost?
        then SetRecovery(w, NewRecovery(p, now, scale)).(h := w.h.(written := w.h.written + {p})) else w;
      Step(w', Finished)
    case StartOverWrite(read, now, scale) =>
      var holds := SameRecovery(w.row, read) && w.row.startOver.None?;
      var deletesAt := now + Scaled(DAY, scale);
      var row' := w.row.(startOver := Some(StartOver(p, false, deletesAt, None)));
      var h' := w.h.(made := w.h.made[p := Made(now, deletesAt, scale, read)]);
      Step(if holds && !c.Lost? then w.(row := row', h := h') else w, Finished)
  }

  function ActCancel(w: World, p: nat, q: Proc, c: Call): Step
    requires q.CancelWrite? || q.TellEnclave? || q.NoticeReread? || q.NoticeMail?
  {
    match q
    case CancelWrite(id, via, now) =>
      var holds := Names(w.row, id) && !Ended(w.row.recovery.value.state) && w.row.recovery.value.expiresAt > now;
      var w' := if holds && !c.Lost?
        then SetRecovery(w, w.row.recovery.value.(state := Cancelled, via := Some(via))).(h := w.h.(wins := w.h.wins + [Win(id, via, p)]))
        else w;
      Step(w',
        if !c.Answered? then Finished
        else if !holds then (if via.App? then NoticeReread(id) else Finished)
        else if via.App? then NoticeMail(id) else TellEnclave(id))
    case TellEnclave(id) =>
      Step(if c.Lost? then w else w.(h := w.h.(told := w.h.told + [id])), Finished)
    case NoticeReread(id) =>
      var won := Names(w.row, id) && w.row.recovery.value.state.Cancelled? && w.row.recovery.value.via == Some(App);
      Step(w, if c.Answered? && won then NoticeMail(id) else Finished)
    case NoticeMail(id) =>
      Step(if c.Lost? then w else w.(h := w.h.(mailed := w.h.mailed + [id])), Finished)
  }

  function ActSlots(w: World, q: Proc, c: Call): Step
    requires q.RegisterRead? || q.RegisterWrite? || q.RefuseWrite? || q.TimesRead? || q.TimesWrite? || q.AttemptRead? || q.AttemptWrite?
  {
    match q
    case RegisterRead(id, key, now) =>
      Step(w, if !c.Answered? then Finished else RegisterWrite(id, if KeyInUse(w.row, key, now) then None else Some(key), now))
    case RegisterWrite(id, recovering, _) =>
      var holds := Names(w.row, id) && w.row.recovery.value.state.Pending?;
      Step(if holds && !c.Lost? then SetRecovery(w, w.row.recovery.value.(state := Registered, recovering := recovering)) else w, Finished)
    case RefuseWrite(id) =>
      var holds := Names(w.row, id) && w.row.recovery.value.state.Pending?;
      Step(if holds && !c.Lost? then SetRecovery(w, w.row.recovery.value.(state := Unavailable)) else w, Finished)
    case TimesRead(notBefore, expires) =>
      var takes := c.Answered? && w.row.recovery.Some? && w.row.recovery.value.state.Pending? && !w.row.recovery.value.enclaveTimes;
      Step(w, if takes then TimesWrite(w.row.recovery.value, notBefore, expires) else Finished)
    case TimesWrite(r, notBefore, expires) =>
      var holds := Names(w.row, r.id) && w.row.recovery.value.state.Pending? && !w.row.recovery.value.enclaveTimes;
      var times := WithEnclaveTimes(r, notBefore, expires);
      var r' := if holds
        then w.row.recovery.value.(availableAt := times.availableAt, expiresAt := times.expiresAt, enclaveTimes := true) else r;
      Step(if holds && !c.Lost? then SetRecovery(w, r') else w, Finished)
    case AttemptRead(id, expires) =>
      if c.Answered? && Names(w.row, id) && w.row.recovery.value.state.Registered? then
        var r := w.row.recovery.value;
        var moved := Min(r.requestedAt + MAX_SPAN, expires);
        Step(w, if moved > r.expiresAt then AttemptWrite(r, moved) else Finished)
      else Step(w, Finished)
    case AttemptWrite(r, moved) =>
      var holds := Names(w.row, r.id) && w.row.recovery.value.state.Registered? && w.row.recovery.value.expiresAt < moved;
      Step(if holds && !c.Lost? then SetRecovery(w, w.row.recovery.value.(expiresAt := moved)) else w, Finished)
  }

  predicate Waits(w: Row, id: nat) { w.startOver.Some? && w.startOver.value.id == id && !w.startOver.value.executing }

  function Undo(w: World, id: nat): World {
    w.(row := w.row.(startOver := None), h := w.h.(cancelled := w.h.cancelled + {id}))
  }

  function ActStartOver(w: World, q: Proc, c: Call): Step
    requires q.UndoRead? || q.UndoWrite? || q.SupportRead? || q.SupportWrite? || q.SupportDone?
          || q.JobStanding? || q.JobExecute? || q.JobSend? || q.JobMarkQueued?
  {
    match q
    case UndoRead(id) => Step(w, if c.Answered? && Waits(w.row, id) then UndoWrite(id) else Finished)
    case UndoWrite(id) => Step(if Waits(w.row, id) && !c.Lost? then Undo(w, id) else w, Finished)
    case SupportRead =>
      if !c.Answered? then Step(w, Finished)
      else if w.row.startOver.Some? && !w.row.startOver.value.executing then Step(w, SupportWrite(w.row.startOver.value.id))
      else Step(w, SupportDone(None))
    case SupportWrite(id) =>
      var holds := Waits(w.row, id);
      Step(if holds && !c.Lost? then Undo(w, id) else w, if holds && c.Answered? then SupportDone(Some(id)) else Finished)
    case SupportDone(pending) => Step(w, SupportDone(pending))
    case JobStanding(id, started) => Step(w, if c.Answered? && w.member then JobExecute(id, started) else Finished)
    case JobExecute(id, started) =>
      var holds := Waits(w.row, id);
      var w' := if holds && !c.Lost?
        then w.(row := w.row.(startOver := Some(w.row.startOver.value.(executing := true))), h := w.h.(executed := w.h.executed + {id}))
        else w;
      Step(w', if holds && c.Answered? then JobSend(id) else Finished)
    case JobSend(id) =>
      Step(if c.Lost? then w else w.(h := w.h.(deletes := w.h.deletes + [Sent(id, w.now)])), if c.Answered? then JobMarkQueued(id) else Finished)
    case JobMarkQueued(id) =>
      var holds := w.row.startOver.Some? && w.row.startOver.value.id == id;
      Step(if holds && !c.Lost? then w.(row := w.row.(startOver := Some(w.row.startOver.value.(queuedAt := Some(w.now))))) else w, Finished)
  }

  predicate Begins(q: Proc) { q.Read? || q.Complete? || q.RequestWrite? || q.StartOverWrite? }
  predicate Cancels(q: Proc) { q.CancelWrite? || q.TellEnclave? || q.NoticeReread? || q.NoticeMail? }
  predicate OnSlots(q: Proc) {
    q.RegisterRead? || q.RegisterWrite? || q.RefuseWrite? || q.TimesRead? || q.TimesWrite? || q.AttemptRead? || q.AttemptWrite?
  }

  function Act(w: World, p: nat, q: Proc, c: Call): Step {
    if q.Finished? then Step(w, Finished)
    else if Begins(q) then ActBegin(w, p, q, c)
    else if Cancels(q) then ActCancel(w, p, q, c)
    else if OnSlots(q) then ActSlots(w, q, c)
    else ActStartOver(w, q, c)
  }

  // ---- runs -----------------------------------------------------------------------

  datatype State = State(w: World, procs: seq<Proc>)

  /**
   * `HostWrites`: the enclave's host names the vault's app key. `Redeems`: a
   * setup code is redeemed, or its key tidied away. `Standing`: the account is
   * suspended, canceled or active again.
   */
  datatype Event =
    | Tick(t: int)
    | HostWrites(key: nat)
    | Redeems(redeemed: Option<Redeemed>)
    | Standing(member: bool)
    | Start(q: Proc)
    | Makes(p: nat, c: Call)
    | Stops(p: nat)

  /**
   * What may start: a request that has read its clock, a cancel from the
   * account site or a notice, a slot's answer, and the job, whose scan of the
   * table may be old: it knows a start-over that was requested, or one that
   * was once taken up.
   */
  predicate Starts(w: World, q: Proc) {
    match q
    case Read(todo) => if AsksFirst(todo) then todo.now <= w.now else !(todo.ToCancel? && todo.via.App?)
    case RegisterRead(_, _, _) => true
    case RegisterWrite(_, recovering, now) => recovering.None? && now <= w.now
    case RefuseWrite(_) => true
    case TimesRead(_, _) => true
    case AttemptRead(_, _) => true
    case UndoRead(_) => true
    case SupportRead => true
    case JobStanding(id, started) => started <= w.now && id in w.h.made && w.h.made[id].deletesAt <= started
    case JobSend(id) => id in w.h.executed
    case _ => false
  }

  /** A request reads the clock before the row; a cancel and a register read the row first. */
  predicate AsksFirst(todo: Purpose) { todo.ToRequest? || todo.ToStartOver? }

  /**
   * A handler's clock reading in its place. A process carries its reading from
   * its start: one that reads the row first reads it no later than that time,
   * and writes no earlier.
   */
  predicate InOrder(w: World, q: Proc) {
    match q
    case Read(todo) => AsksFirst(todo) || w.now <= todo.now
    case Complete(todo, _) => todo.now <= w.now
    case CancelWrite(_, _, now) => now <= w.now
    case RegisterRead(_, _, now) => w.now <= now
    case RegisterWrite(_, _, now) => now <= w.now
    case _ => true
  }

  predicate CanStep(s: State, e: Event) {
    match e
    case Tick(t) => s.w.now <= t
    case HostWrites(_) => true
    case Redeems(_) => true
    case Standing(_) => true
    case Start(q) => Starts(s.w, q)
    case Makes(p, _) => p < |s.procs| && InOrder(s.w, s.procs[p])
    case Stops(p) => p < |s.procs|
  }

  function Next(s: State, e: Event): State
    requires CanStep(s, e)
  {
    match e
    case Tick(t) => s.(w := s.w.(now := t))
    case HostWrites(key) => s.(w := s.w.(row := s.w.row.(appKey := Some(key))))
    case Redeems(redeemed) => s.(w := s.w.(row := s.w.row.(redeemed := redeemed)))
    case Standing(member) => s.(w := s.w.(member := member))
    case Start(q) => s.(procs := s.procs + [q])
    case Makes(p, c) =>
      var step := Act(s.w, p, s.procs[p], c);
      State(step.w, s.procs[p := step.next])
    case Stops(p) => s.(procs := s.procs[p := Finished])
  }

  ghost function StepOf(s: State, e: Event): Option<State> { if CanStep(s, e) then Some(Next(s, e)) else None }

  ghost function Exec(s: State, es: seq<Event>): Option<State> { Run(StepOf, s, es) }

  /** A new vault: no recovery, no start-over, any app key, any standing. */
  ghost predicate Init(s: State) {
    s.procs == [] && s.w.row.recovery.None? && s.w.row.startOver.None?
    && s.w.h == History({}, [], [], [], map[], {}, {}, [])
  }

  ghost predicate Reachable(s: State) {
    exists s0: State, es: seq<Event> :: Init(s0) && Exec(s0, es) == Some(s)
  }
}
