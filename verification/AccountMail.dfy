/**
 * What the confirmation email guarantees: the job deletes a row only after
 * SES accepted and answered a confirmation of that very deletion, whose link
 * is still the row's link, and not before the 07:00 UTC run the emails named.
 */
module AccountMail {
  import opened Calls
  import opened Runs
  import opened Wrappers
  import opened AccountDeletion

  // ---- the invariant --------------------------------------------------------------

  /** One request's history. `n` is the number of processes so far. */
  ghost predicate RequestOk(r: Request, now: int, n: nat) {
    && r.deletesAt == r.requestedAt + DELETION_DELAY_MS
    && r.requestedAt <= now
    && r.accepted.Keys <= r.tried <= r.claimants
    && |r.claimants| <= MAX_MAIL_FAILURES
    && (forall j :: j in r.claimants ==> j < n)
    && (forall j :: j in r.accepted ==> r.accepted[j] == FirstDeletionRun(r.deletesAt))
    && r.answered <= r.accepted.Keys
    && (r.answered == {} || (r.holder.Some? && r.answered == {r.holder.value}))
  }

  /** The deletion on the row agrees with its request's history. */
  ghost predicate DeletionOk(m: Row, d: Deletion, r: Request) {
    && m.status.Canceled?
    && m.deleteAfter == Some(d.deletesAt)
    && d.deletesAt == r.deletesAt
    && d.cancelHash == r.holder
    && d.claimed == r.holder.Some?
    && (d.mailed ==> r.answered != {})
    && d.failures <= MAX_MAIL_FAILURES
    && (d.claimed ==> d.failures < MAX_MAIL_FAILURES)
    && |r.claimants| <= d.failures + (if d.claimed then 1 else 0)
  }

  ghost predicate RowOk(w: World) {
    w.row.Some? && w.row.value.deletion.Some? ==>
      var d := w.row.value.deletion.value;
      d.id < |w.requests| && DeletionOk(w.row.value, d, w.requests[d.id])
  }

  ghost predicate WorldOk(w: World, now: int, n: nat) {
    && RowOk(w)
    && forall k :: 0 <= k < |w.requests| ==> RequestOk(w.requests[k], now, n)
  }

  ghost predicate Fresh(w: World, p: nat) {
    forall k :: 0 <= k < |w.requests| ==> p !in w.requests[k].claimants
  }

  /** A row read as canceled earlier: what it said about its deletion stays true of the history. */
  ghost predicate SnapshotOk(w: World, m: Row) {
    m.deletion.Some? ==>
      var d := m.deletion.value;
      && d.id < |w.requests|
      && m.deleteAfter == Some(w.requests[d.id].deletesAt)
      && (d.mailed ==> w.requests[d.id].answered != {})
  }

  ghost predicate HoldsClaim(w: World, p: nat, id: nat) {
    id < |w.requests| && w.requests[id].holder == Some(p) && p in w.requests[id].claimants
  }

  ghost predicate ProcOk(w: World, now: int, p: nat, q: Proc) {
    match q
    case JobGetUser(t, m) => SnapshotOk(w, m) && t <= now
    case JobDisable(t, m) => SnapshotOk(w, m) && t <= now
    case JobEnableRead(t, m) => SnapshotOk(w, m) && t <= now
    case JobEnableAct(t, m) => SnapshotOk(w, m) && t <= now
    case JobDecide(t, m) => SnapshotOk(w, m) && t <= now
    case JobRead(t) => t <= now
    case JobDelete(t, id) =>
      && t <= now && id < |w.requests|
      && w.requests[id].answered != {} && FirstDeletionRun(w.requests[id].deletesAt) <= t
    case MailRead(m) => PastImage(w, m) && Fresh(w, p)
    case MailClaim(d) => d.id < |w.requests| && d.deletesAt == w.requests[d.id].deletesAt && Fresh(w, p)
    case MailSend(d) =>
      && HoldsClaim(w, p, d.id) && d.deletesAt == w.requests[d.id].deletesAt
      && p !in w.requests[d.id].tried
    case MailUnclaim(id) => HoldsClaim(w, p, id) && w.requests[id].answered == {}
    case MailRecord(id) => HoldsClaim(w, p, id) && w.requests[id].answered != {}
    case RequestWrite(at) => at <= now
    case _ => true
  }

  ghost predicate Inv(s: State) {
    && WorldOk(s.w, s.now, |s.procs|)
    && forall p :: 0 <= p < |s.procs| ==> ProcOk(s.w, s.now, p, s.procs[p])
  }

  // ---- what one process's move can do to a request's history ------------------------

  ghost predicate Grew(r: Request, r': Request, p: nat) {
    && r'.requestedAt == r.requestedAt && r'.deletesAt == r.deletesAt
    && r.claimants <= r'.claimants <= r.claimants + {p}
    && r.tried <= r'.tried <= r.tried + {p}
    && r.answered <= r'.answered
    && (r.holder.Some? && r.holder != Some(p) ==> r'.holder == r.holder && r'.answered == r.answered)
  }

  ghost predicate Moved(w: World, w': World, p: nat) {
    && |w.requests| <= |w'.requests|
    && (forall k :: 0 <= k < |w.requests| ==> Grew(w.requests[k], w'.requests[k], p))
    && (forall k :: |w.requests| <= k < |w'.requests| ==> w'.requests[k].claimants == {})
  }

  lemma OthersKeep(w: World, w': World, now: int, now': int, i: nat, p: nat, q: Proc)
    requires Moved(w, w', i) && i != p && now <= now' && ProcOk(w, now, p, q)
    ensures ProcOk(w', now', p, q)
  {
    match q
    case MailRead(m) => FreshStays(w, w', i, p);
    case MailClaim(d) => FreshStays(w, w', i, p);
    case MailSend(d) => assert Grew(w.requests[d.id], w'.requests[d.id], i);
    case MailUnclaim(id) => assert Grew(w.requests[id], w'.requests[id], i);
    case MailRecord(id) => assert Grew(w.requests[id], w'.requests[id], i);
    case _ =>
  }

  lemma FreshStays(w: World, w': World, i: nat, p: nat)
    requires Moved(w, w', i) && i != p && Fresh(w, p)
    ensures Fresh(w', p)
  {
    forall k | 0 <= k < |w'.requests| ensures p !in w'.requests[k].claimants {
      if k < |w.requests| { assert Grew(w.requests[k], w'.requests[k], i); }
    }
  }

  /** A move that leaves the histories as they are. */
  lemma SameRequests(w: World, w': World, now: int, now': int, p: nat, q: Proc)
    requires w'.requests == w.requests && now <= now' && ProcOk(w, now, p, q)
    ensures ProcOk(w', now', p, q)
  {
  }

  ghost predicate StepOk(w: World, now: int, n: nat, p: nat, step: Step) {
    WorldOk(step.w, now, n) && Moved(w, step.w, p) && ProcOk(step.w, now, p, step.next)
  }

  lemma StillMoved(w: World, w': World, p: nat)
    requires w'.requests == w.requests
    ensures Moved(w, w', p)
  {
  }

  lemma CancelStep(w: World, now: int, n: nat, p: nat, q: Proc, c: Call)
    requires WorldOk(w, now, n)
    requires q.LinkRead? || q.LinkEnable? || q.LinkWrite? || q.ReinstateRead? || q.ReinstateEnable? || q.ReinstateWrite?
    ensures StepOk(w, now, n, p, ActCancel(w, q, c))
  {
    hide RequestOk;
    StillMoved(w, ActCancel(w, q, c).w, p);
  }

  lemma SignInStep(w: World, now: int, n: nat, p: nat, q: Proc, c: Call)
    requires WorldOk(w, now, n)
    requires q.EnableRead? || q.EnableAct? || q.DisableRead? || q.DisableAct?
    ensures StepOk(w, now, n, p, ActSignIn(w, q, c))
  {
    hide RequestOk;
    StillMoved(w, ActSignIn(w, q, c).w, p);
  }

  lemma JobStep(w: World, now: int, n: nat, p: nat, q: Proc, c: Call)
    requires WorldOk(w, now, n) && ProcOk(w, now, p, q)
    requires q.JobRead? || q.JobGetUser? || q.JobDisable? || q.JobEnableRead? || q.JobEnableAct?
          || q.JobDecide? || q.JobDelete? || q.JobGetOwnUser? || q.JobDeleteUser?
    ensures StepOk(w, now, n, p, ActJob(w, q, c))
  {
    hide RequestOk;
    StillMoved(w, ActJob(w, q, c).w, p);
  }

  lemma ClaimStep(w: World, now: int, n: nat, p: nat, d: Deletion, c: Call)
    requires WorldOk(w, now, n) && ProcOk(w, now, p, MailClaim(d)) && p < n
    ensures StepOk(w, now, n, p, ActMail(w, p, MailClaim(d), c))
  {
    var w' := ActMail(w, p, MailClaim(d), c).w;
    if w'.requests != w.requests {
      var r, r' := w.requests[d.id], w'.requests[d.id];
      assert RequestOk(r, now, n) && r'.claimants == r.claimants + {p} && r.holder.None?;
      assert |r'.claimants| == |r.claimants| + 1;
      assert RequestOk(r', now, n);
      assert w'.requests == w.requests[d.id := r'];
    } else {
      StillMoved(w, w', p);
    }
  }

  lemma SendStep(w: World, now: int, n: nat, p: nat, d: Deletion, c: Call)
    requires WorldOk(w, now, n) && ProcOk(w, now, p, MailSend(d)) && p < n
    ensures StepOk(w, now, n, p, ActMail(w, p, MailSend(d), c))
  {
    var w' := ActMail(w, p, MailSend(d), c).w;
    var r, r' := w.requests[d.id], w'.requests[d.id];
    assert RequestOk(r, now, n);
    assert p !in r.accepted.Keys && r.answered == {};
    assert {} + {p} == {p};
    assert RequestOk(r', now, n);
    assert w'.requests == w.requests[d.id := r'];
  }

  lemma UnclaimStep(w: World, now: int, n: nat, p: nat, id: nat, c: Call)
    requires WorldOk(w, now, n) && ProcOk(w, now, p, MailUnclaim(id)) && p < n
    ensures StepOk(w, now, n, p, ActMail(w, p, MailUnclaim(id), c))
  {
    var w' := ActMail(w, p, MailUnclaim(id), c).w;
    var r, r' := w.requests[id], w'.requests[id];
    assert RequestOk(r, now, n);
    assert RequestOk(r', now, n);
    if w' != w { assert w'.requests == w.requests[id := r']; }
  }

  lemma RecordStep(w: World, now: int, n: nat, p: nat, id: nat, c: Call)
    requires WorldOk(w, now, n) && ProcOk(w, now, p, MailRecord(id))
    ensures StepOk(w, now, n, p, ActMail(w, p, MailRecord(id), c))
  {
    hide RequestOk;
    StillMoved(w, ActMail(w, p, MailRecord(id), c).w, p);
  }

  lemma MailStep(w: World, now: int, n: nat, p: nat, q: Proc, c: Call)
    requires WorldOk(w, now, n) && ProcOk(w, now, p, q) && p < n
    requires q.MailRead? || q.MailClaim? || q.MailSend? || q.MailUnclaim? || q.MailRecord?
    ensures StepOk(w, now, n, p, ActMail(w, p, q, c))
  {
    hide RequestOk, RowOk;
    match q
    case MailRead(m) => StillMoved(w, w, p);
    case MailClaim(d) => ClaimStep(w, now, n, p, d, c);
    case MailSend(d) => SendStep(w, now, n, p, d, c);
    case MailUnclaim(id) => UnclaimStep(w, now, n, p, id, c);
    case MailRecord(id) => RecordStep(w, now, n, p, id, c);
  }

  lemma OtherStep(w: World, now: int, n: nat, p: nat, q: Proc, c: Call)
    requires WorldOk(w, now, n) && ProcOk(w, now, p, q)
    requires q.Finished? || q.RequestWrite? || q.RequestDisable? || q.SuspendWrite? || q.SuspendDisable?
    ensures StepOk(w, now, n, p, ActOther(w, q, c))
  {
    var w' := ActOther(w, q, c).w;
    if w'.requests == w.requests { StillMoved(w, w', p); }
  }

  lemma ActStep(w: World, now: int, n: nat, p: nat, q: Proc, c: Call)
    requires WorldOk(w, now, n) && ProcOk(w, now, p, q) && p < n
    ensures StepOk(w, now, n, p, Act(w, p, q, c))
  {
    hide WorldOk, ProcOk, Moved, ActCancel, ActSignIn, ActJob, ActMail, ActOther, StepOk;
    if q.LinkRead? || q.LinkEnable? || q.LinkWrite? || q.ReinstateRead? || q.ReinstateEnable? || q.ReinstateWrite? {
      CancelStep(w, now, n, p, q, c);
    } else if q.EnableRead? || q.EnableAct? || q.DisableRead? || q.DisableAct? {
      SignInStep(w, now, n, p, q, c);
    } else if q.MailRead? || q.MailClaim? || q.MailSend? || q.MailUnclaim? || q.MailRecord? {
      MailStep(w, now, n, p, q, c);
    } else if q.Finished? || q.RequestWrite? || q.RequestDisable? || q.SuspendWrite? || q.SuspendDisable? {
      OtherStep(w, now, n, p, q, c);
    } else {
      JobStep(w, now, n, p, q, c);
    }
  }

  lemma WorldStays(w: World, now: int, now': int, n: nat, n': nat)
    requires WorldOk(w, now, n) && now <= now' && n <= n'
    ensures WorldOk(w, now', n')
  {
    hide RowOk;
    forall k | 0 <= k < |w.requests| ensures RequestOk(w.requests[k], now', n') {
      assert RequestOk(w.requests[k], now, n);
    }
  }

  lemma NewProc(s: State, q: Proc)
    requires Inv(s) && Starts(s, q)
    ensures ProcOk(s.w, s.now, |s.procs|, q)
  {
    forall k | 0 <= k < |s.w.requests| ensures |s.procs| !in s.w.requests[k].claimants {
      assert RequestOk(s.w.requests[k], s.now, |s.procs|);
    }
  }

  lemma FinishedOk(w: World, now: int, p: nat)
    ensures ProcOk(w, now, p, Finished)
  {
  }

  /** Every event keeps the invariant. */
  lemma InvKept(s: State, e: Event)
    requires Inv(s) && CanStep(s, e)
    ensures Inv(Next(s, e))
  {
    hide RowOk, RequestOk, Act, Starts, Moved, WorldOk, ProcOk;
    var s' := Next(s, e);
    match e
    case Tick(t) =>
      WorldStays(s.w, s.now, t, |s.procs|, |s.procs|);
      forall p | 0 <= p < |s.procs| ensures ProcOk(s.w, t, p, s.procs[p]) { SameRequests(s.w, s.w, s.now, t, p, s.procs[p]); }
    case Start(q) =>
      WorldStays(s.w, s.now, s.now, |s.procs|, |s'.procs|);
      NewProc(s, q);
      forall p | 0 <= p < |s'.procs| ensures ProcOk(s.w, s.now, p, s'.procs[p]) {
        assert p < |s.procs| ==> s'.procs[p] == s.procs[p];
      }
    case Makes(i, c) =>
      ActStep(s.w, s.now, |s.procs|, i, s.procs[i], c);
      forall p | 0 <= p < |s.procs| ensures ProcOk(s'.w, s.now, p, s'.procs[p]) {
        if p != i { OthersKeep(s.w, s'.w, s.now, s.now, i, p, s.procs[p]); }
      }
    case Stops(i) =>
      FinishedOk(s.w, s.now, i);
  }

  // ---- whole runs -----------------------------------------------------------------

  /** Nothing asked for yet: any row without a deletion record (a canceled one too), any sign-in user. */
  ghost predicate Init(s: State) {
    s.w.requests == [] && s.procs == [] && (s.w.row.Some? ==> s.w.row.value.deletion.None?)
  }

  ghost predicate Reachable(s: State) {
    exists s0: State, es: seq<Event> :: Init(s0) && Exec(s0, es) == Some(s)
  }

  lemma ExecKeepsInv(s: State, es: seq<Event>)
    requires Inv(s) && Exec(s, es).Some?
    ensures Inv(Exec(s, es).value)
  {
    hide Inv, Next, CanStep;
    forall s: State, e: Event | Inv(s) && StepOf(s, e).Some? ensures Inv(StepOf(s, e).value) { InvKept(s, e); }
    RunKeeps(StepOf, Inv, s, es);
  }

  lemma ReachableInv(s: State)
    requires Reachable(s)
    ensures Inv(s)
  {
    hide Exec;
    var s0: State, es: seq<Event> :| Init(s0) && Exec(s0, es) == Some(s);
    ExecKeepsInv(s0, es);
  }

  /**
   * Whatever event takes the row away, in whatever run: the row carried a
   * deletion; one confirmation of it was accepted and answered, the one whose
   * link is the row's link; every confirmation of it that SES accepted named
   * the same 07:00 UTC run, and that has come, 7 days or more after the
   * request. If none was accepted without an answer, there was only the one.
   */
  lemma DeletedOnlyAsTheEmailSaid(s: State, e: Event)
    requires Reachable(s) && CanStep(s, e)
    requires s.w.row.Some? && Next(s, e).w.row.None?
    ensures s.w.row.value.status.Canceled? && s.w.row.value.deletion.Some?
    ensures var d := s.w.row.value.deletion.value;
            && d.id < |s.w.requests| && d.cancelHash.Some?
            && var r, named := s.w.requests[d.id], FirstDeletionRun(d.deletesAt);
               && r.answered == {d.cancelHash.value} <= r.accepted.Keys
               && (forall j :: j in r.accepted ==> r.accepted[j] == named)
               && (r.accepted.Keys <= r.answered ==> r.accepted == map[d.cancelHash.value := named])
               && r.requestedAt + DELETION_DELAY_MS <= named <= s.now
  {
    ReachableInv(s);
    OnlyJobDeletes(s, e);
    assert ProcOk(s.w, s.now, e.p, s.procs[e.p]);
    assert RequestOk(s.w.requests[s.procs[e.p].id], s.now, |s.procs|);
  }

  lemma OnlyJobDeletes(s: State, e: Event)
    requires CanStep(s, e) && s.w.row.Some? && Next(s, e).w.row.None?
    ensures e.Makes? && s.procs[e.p].JobDelete?
    ensures IsCanceled(s.w) && s.w.row.value.deletion.Some?
    ensures s.w.row.value.deletion.value.id == s.procs[e.p].id
  {
    hide FirstDeletionRun, ScheduledRun, Starts;
  }

  /**
   * In every reachable state, per deletion: at most three sends were tried, at
   * most one was answered, and more than one was accepted only if one of them
   * was not answered.
   */
  lemma AtMostOneAnsweredThreeTried(s: State, k: nat)
    requires Reachable(s) && k < |s.w.requests|
    ensures var r := s.w.requests[k];
            && |r.answered| <= 1 && |r.accepted.Keys| <= |r.tried| <= 3
            && |r.accepted.Keys| <= 1 + |r.accepted.Keys - r.answered|
  {
    ReachableInv(s);
    var r := s.w.requests[k];
    assert RequestOk(r, s.now, |s.procs|);
    Subset(r.tried, r.claimants);
    Subset(r.accepted.Keys, r.tried);
    if r.answered != {} { assert r.answered == {r.holder.value}; }
    assert r.accepted.Keys == r.answered + (r.accepted.Keys - r.answered);
  }

  lemma Subset(a: set<nat>, b: set<nat>)
    requires a <= b
    ensures |a| <= |b|
  {
    assert b == a + (b - a);
    assert |b| == |a| + |b - a|;
  }
}
