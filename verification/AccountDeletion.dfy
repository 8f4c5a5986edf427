/**
 * Deleting an account: every process that races on one member row and its
 * sign-in user, as a state machine.
 *
 * Each handler is a process with a program point; each DynamoDB or Cognito
 * call is one atomic step. A call is answered, or fails without its effect,
 * or fails with it. A process can stop anywhere. The clock only moves
 * forward.
 *
 * Processes: the email's cancel link and the deletion request
 * (lambda/member/account.ts), an admin's reinstate and suspend
 * (lambda/admin/people.ts), the daily job's pass over the row
 * (lambda/jobs/cleanup.ts) and the confirmation mailer
 * (lambda/jobs/members-stream.ts).
 */
module AccountDeletion {
  import opened Calls
  import opened Runs
  import opened Wrappers

  const DAY_MS := 86_400_000
  const RUN_AT_MS := 7 * 3_600_000
  const DELETION_DELAY_MS := 7 * DAY_MS
  const MAX_MAIL_FAILURES := 3

  /** The 07:00 UTC run at or after `deletesAt`: there is exactly one in the day that starts there. */
  function FirstDeletionRun(deletesAt: int): (run: int)
    ensures deletesAt <= run < deletesAt + DAY_MS
    ensures run % DAY_MS == RUN_AT_MS
  {
    var run := deletesAt / DAY_MS * DAY_MS + RUN_AT_MS;
    if run < deletesAt then run + DAY_MS else run
  }

  /** The last 07:00 UTC at or before `now`. */
  function ScheduledRun(now: int): (run: int)
    ensures now - DAY_MS < run <= now
    ensures run % DAY_MS == RUN_AT_MS
  {
    var run := now / DAY_MS * DAY_MS + RUN_AT_MS;
    if run > now then run - DAY_MS else run
  }

  // ---- the stores -------------------------------------------------------------

  datatype Status = Active | Suspended | Canceled

  /** `account_deletion` on the member row. A link's hash stands for the token that has it. */
  datatype Deletion = Deletion(
    id: nat, deletesAt: int, cancelHash: Option<nat>, claimed: bool, mailed: bool, failures: nat)

  datatype Row = Row(status: Status, deleteAfter: Option<int>, deletion: Option<Deletion>)

  /** The member's own sign-in user. */
  datatype SignIn = NoUser | Enabled | Disabled

  /**
   * History of one deletion: who claimed its confirmation, whose send was
   * tried, whose send SES accepted with the run it named, whose was also
   * answered, and whose claim stands (or stood last).
   */
  datatype Request = Request(
    requestedAt: int, deletesAt: int,
    claimants: set<nat>, tried: set<nat>, accepted: map<nat, int>, answered: set<nat>, holder: Option<nat>)

  datatype World = World(row: Option<Row>, user: SignIn, requests: seq<Request>)

  function Enable(u: SignIn): SignIn { if u.NoUser? then u else Enabled }
  function Disable(u: SignIn): SignIn { if u.NoUser? then u else Disabled }

  // ---- the processes ------------------------------------------------------------

  /** A program point: the call the process makes next, with what it has read. */
  datatype Proc =
    | Finished
    // the cancel link
    | LinkRead(token: nat)
    | LinkEnable(id: nat, hash: nat)
    | LinkWrite(id: nat, hash: nat)
    // reinstate
    | ReinstateRead
    | ReinstateEnable(was: Status, which: Option<nat>)
    | ReinstateWrite(was: Status, which: Option<nat>)
    // enableIfActive and disableUnlessActive
    | EnableRead
    | EnableAct
    | DisableRead
    | DisableAct
    // the daily job on this row
    | JobRead(started: int)
    | JobGetUser(started: int, m: Row)
    | JobDisable(started: int, m: Row)
    | JobEnableRead(started: int, m: Row)
    | JobEnableAct(started: int, m: Row)
    | JobDecide(started: int, m: Row)
    | JobDelete(started: int, id: nat)
    | JobGetOwnUser
    | JobDeleteUser
    // the confirmation mailer, on a stream record's image of the row
    | MailRead(image: Row)
    | MailClaim(d: Deletion)
    | MailSend(d: Deletion)
    | MailUnclaim(id: nat)
    | MailRecord(id: nat)
    // the deletion request, from its conditional write on
    | RequestWrite(at: int)
    | RequestDisable
    // suspend
    | SuspendWrite
    | SuspendDisable

  datatype Step = Step(w: World, next: Proc)

  /** The condition of the link's write and of the mailer's two later writes: this deletion, with this hash. */
  predicate HoldsHash(w: World, id: nat, hash: nat) {
    w.row.Some? && w.row.value.deletion.Some?
    && w.row.value.deletion.value.id == id && w.row.value.deletion.value.cancelHash == Some(hash)
  }

  predicate IsCanceled(w: World) { w.row.Some? && w.row.value.status.Canceled? }
  predicate IsActive(w: World) { w.row.Some? && w.row.value.status.Active? }

  predicate DeletionIs(m: Row, which: Option<nat>) {
    if m.deletion.None? then which.None? else which == Some(m.deletion.value.id)
  }

  const ACTIVE_ROW := Row(Active, None, None)

  function ActCancel(w: World, q: Proc, c: Call): Step
    requires q.LinkRead? || q.LinkEnable? || q.LinkWrite? || q.ReinstateRead? || q.ReinstateEnable? || q.ReinstateWrite?
  {
    match q
    case LinkRead(token) =>
      if c.Answered? && IsCanceled(w) && w.row.value.deletion.Some?
         && w.row.value.deletion.value.cancelHash == Some(token)
      then Step(w, LinkEnable(w.row.value.deletion.value.id, token))
      else Step(w, Finished)
    case LinkEnable(id, hash) =>
      var w' := if c.Lost? then w else w.(user := Enable(w.user));
      Step(w', if c.Answered? && !w.user.NoUser? then LinkWrite(id, hash) else Finished)
    case LinkWrite(id, hash) =>
      var holds := IsCanceled(w) && HoldsHash(w, id, hash);
      var w' := if holds && !c.Lost? then w.(row := Some(ACTIVE_ROW)) else w;
      Step(w', if holds && c.Answered? then EnableRead else DisableRead)
    case ReinstateRead =>
      if !c.Answered? || w.row.None? || w.row.value.status.Active? then Step(w, Finished)
      else
        var m := w.row.value;
        var which := if m.status.Canceled? && m.deletion.Some? then Some(m.deletion.value.id) else None;
        Step(w, ReinstateEnable(m.status, which))
    case ReinstateEnable(was, which) =>
      var w' := if c.Lost? then w else w.(user := Enable(w.user));
      Step(w', if c.Answered? && !w.user.NoUser? then ReinstateWrite(was, which) else Finished)
    case ReinstateWrite(was, which) =>
      var holds := w.row.Some? && w.row.value.status == was && (!was.Canceled? || DeletionIs(w.row.value, which));
      var row := if was.Canceled? then ACTIVE_ROW else Row(Active, None, if holds then w.row.value.deletion else None);
      var w' := if holds && !c.Lost? then w.(row := Some(row)) else w;
      Step(w', if !was.Canceled? then Finished else if holds && c.Answered? then EnableRead else DisableRead)
  }

  function ActSignIn(w: World, q: Proc, c: Call): Step
    requires q.EnableRead? || q.EnableAct? || q.DisableRead? || q.DisableAct?
  {
    match q
    case EnableRead => Step(w, if c.Answered? && IsActive(w) then EnableAct else Finished)
    case EnableAct => Step(if c.Lost? then w else w.(user := Enable(w.user)), Finished)
    case DisableRead => Step(w, if c.Answered? && !IsActive(w) then DisableAct else Finished)
    case DisableAct => Step(if c.Lost? then w else w.(user := Disable(w.user)), Finished)
  }

  predicate Due(m: Row, started: int) {
    m.deleteAfter.Some? && FirstDeletionRun(m.deleteAfter.value) <= ScheduledRun(started)
  }

  /** A vault that holds the account is the process stopping at JobDecide. */
  function ActJob(w: World, q: Proc, c: Call): Step
    requires q.JobRead? || q.JobGetUser? || q.JobDisable? || q.JobEnableRead? || q.JobEnableAct?
          || q.JobDecide? || q.JobDelete? || q.JobGetOwnUser? || q.JobDeleteUser?
  {
    match q
    case JobRead(t) => Step(w, if c.Answered? && IsCanceled(w) then JobGetUser(t, w.row.value) else Finished)
    case JobGetUser(t, m) => Step(w, if c.Answered? && !w.user.NoUser? then JobDisable(t, m) else JobDecide(t, m))
    case JobDisable(t, m) => Step(if c.Lost? then w else w.(user := Disable(w.user)), JobEnableRead(t, m))
    case JobEnableRead(t, m) => Step(w, if c.Answered? && IsActive(w) then JobEnableAct(t, m) else JobDecide(t, m))
    case JobEnableAct(t, m) => Step(if c.Lost? then w else w.(user := Enable(w.user)), JobDecide(t, m))
    case JobDecide(t, m) =>
      Step(w, if c.Answered? && Due(m, t) && m.deletion.Some? && m.deletion.value.mailed
              then JobDelete(t, m.deletion.value.id) else Finished)
    case JobDelete(t, id) =>
      var holds := IsCanceled(w) && w.row.value.deleteAfter.Some? && w.row.value.deleteAfter.value < t
        && w.row.value.deletion.Some? && w.row.value.deletion.value.id == id;
      Step(if holds && !c.Lost? then w.(row := None) else w, if holds && c.Answered? then JobGetOwnUser else Finished)
    case JobGetOwnUser => Step(w, if c.Answered? && !w.user.NoUser? then JobDeleteUser else Finished)
    case JobDeleteUser => Step(if c.Lost? then w else w.(user := NoUser), Finished)
  }

  function SetDeletion(w: World, d: Deletion): World
    requires w.row.Some?
  {
    w.(row := Some(w.row.value.(deletion := Some(d))))
  }

  function SetRequest(w: World, id: nat, r: Request): World {
    if id < |w.requests| then w.(requests := w.requests[id := r]) else w
  }

  /** A send that names `run`, by how its call ended: SES may have accepted one it did not answer. */
  function Sent(r: Request, p: nat, run: int, c: Call): Request {
    r.(tried := r.tried + {p},
       accepted := if c.Lost? then r.accepted else r.accepted[p := run],
       answered := if c.Answered? then r.answered + {p} else r.answered)
  }

  predicate ToMail(m: Row) {
    m.status.Canceled? && m.deletion.Some? && !m.deletion.value.claimed
    && m.deletion.value.failures < MAX_MAIL_FAILURES
  }

  /** `p` is the process and the token it minted. */
  function ActMail(w: World, p: nat, q: Proc, c: Call): Step
    requires q.MailRead? || q.MailClaim? || q.MailSend? || q.MailUnclaim? || q.MailRecord?
  {
    match q
    case MailRead(m) => Step(w, if c.Answered? && ToMail(m) then MailClaim(m.deletion.value) else Finished)
    case MailClaim(d) =>
      var holds := IsCanceled(w) && w.row.value.deletion.Some? && w.row.value.deletion.value.id == d.id
        && !w.row.value.deletion.value.claimed && w.row.value.deletion.value.failures < MAX_MAIL_FAILURES;
      if holds && !c.Lost? && d.id < |w.requests| then
        var r := w.requests[d.id];
        var w' := SetDeletion(w, w.row.value.deletion.value.(cancelHash := Some(p), claimed := true));
        Step(SetRequest(w', d.id, r.(claimants := r.claimants + {p}, holder := Some(p))),
             if c.Answered? then MailSend(d) else Finished)
      else Step(w, Finished)
    case MailSend(d) =>
      if d.id < |w.requests| then
        var r := w.requests[d.id];
        Step(SetRequest(w, d.id, Sent(r, p, FirstDeletionRun(d.deletesAt), c)),
             if c.Answered? then MailRecord(d.id) else MailUnclaim(d.id))
      else Step(w, Finished)
    case MailUnclaim(id) =>
      if HoldsHash(w, id, p) && !c.Lost? && id < |w.requests| then
        var d := w.row.value.deletion.value;
        var w' := SetDeletion(w, d.(cancelHash := None, claimed := false, failures := d.failures + 1));
        Step(SetRequest(w', id, w.requests[id].(holder := None)), Finished)
      else Step(w, Finished)
    case MailRecord(id) =>
      if HoldsHash(w, id, p) && !c.Lost?
      then Step(SetDeletion(w, w.row.value.deletion.value.(mailed := true)), Finished)
      else Step(w, Finished)
  }

  function ActOther(w: World, q: Proc, c: Call): Step
    requires q.Finished? || q.RequestWrite? || q.RequestDisable? || q.SuspendWrite? || q.SuspendDisable?
  {
    match q
    case Finished => Step(w, Finished)
    case RequestWrite(at) =>
      var id, deletesAt := |w.requests|, at + DELETION_DELAY_MS;
      var holds := IsActive(w);
      var row := Row(Canceled, Some(deletesAt), Some(Deletion(id, deletesAt, None, false, false, 0)));
      var w' := if holds && !c.Lost?
        then w.(row := Some(row), requests := w.requests + [Request(at, deletesAt, {}, {}, map[], {}, None)]) else w;
      Step(w', if holds && c.Answered? then RequestDisable else Finished)
    case RequestDisable => Step(if c.Lost? then w else w.(user := Disable(w.user)), Finished)
    case SuspendWrite =>
      if w.row.None? || w.row.value.status.Canceled? then Step(w, Finished)
      else
        Step(if c.Lost? then w else w.(row := Some(w.row.value.(status := Suspended))),
             if c.Answered? then SuspendDisable else Finished)
    case SuspendDisable => Step(if c.Lost? then w else w.(user := Disable(w.user)), Finished)
  }

  function Act(w: World, p: nat, q: Proc, c: Call): Step {
    match q
    case LinkRead(_) => ActCancel(w, q, c)
    case LinkEnable(_, _) => ActCancel(w, q, c)
    case LinkWrite(_, _) => ActCancel(w, q, c)
    case ReinstateRead => ActCancel(w, q, c)
    case ReinstateEnable(_, _) => ActCancel(w, q, c)
    case ReinstateWrite(_, _) => ActCancel(w, q, c)
    case EnableRead => ActSignIn(w, q, c)
    case EnableAct => ActSignIn(w, q, c)
    case DisableRead => ActSignIn(w, q, c)
    case DisableAct => ActSignIn(w, q, c)
    case MailRead(_) => ActMail(w, p, q, c)
    case MailClaim(_) => ActMail(w, p, q, c)
    case MailSend(_) => ActMail(w, p, q, c)
    case MailUnclaim(_) => ActMail(w, p, q, c)
    case MailRecord(_) => ActMail(w, p, q, c)
    case Finished => ActOther(w, q, c)
    case RequestWrite(_) => ActOther(w, q, c)
    case RequestDisable => ActOther(w, q, c)
    case SuspendWrite => ActOther(w, q, c)
    case SuspendDisable => ActOther(w, q, c)
    case _ => ActJob(w, q, c)
  }

  // ---- runs -----------------------------------------------------------------------

  datatype State = State(now: int, w: World, procs: seq<Proc>)

  datatype Event =
    | Tick(t: int)
    | Start(q: Proc)
    | Makes(p: nat, c: Call)
    | Stops(p: nat)

  /** A stream record's image is the row as it was at some time of the deletion it carries. */
  predicate PastImage(w: World, m: Row) {
    m.deletion.Some? ==>
      m.deletion.value.id < |w.requests| && m.deletion.value.deletesAt == w.requests[m.deletion.value.id].deletesAt
  }

  predicate Starts(s: State, q: Proc) {
    match q
    case LinkRead(_) => true
    case ReinstateRead => true
    case JobRead(started) => started == s.now
    case MailRead(image) => PastImage(s.w, image)
    case RequestWrite(at) => at == s.now
    case SuspendWrite => true
    case _ => false
  }

  predicate CanStep(s: State, e: Event) {
    match e
    case Tick(t) => s.now <= t
    case Start(q) => Starts(s, q)
    case Makes(p, _) => p < |s.procs|
    case Stops(p) => p < |s.procs|
  }

  function Next(s: State, e: Event): State
    requires CanStep(s, e)
  {
    match e
    case Tick(t) => s.(now := t)
    case Start(q) => s.(procs := s.procs + [q])
    case Makes(p, c) =>
      var step := Act(s.w, p, s.procs[p], c);
      s.(w := step.w, procs := s.procs[p := step.next])
    case Stops(p) => s.(procs := s.procs[p := Finished])
  }

  ghost function StepOf(s: State, e: Event): Option<State> { if CanStep(s, e) then Some(Next(s, e)) else None }

  /** The state after the events, if each can happen in turn. */
  ghost function Exec(s: State, es: seq<Event>): Option<State> { Run(StepOf, s, es) }
}
