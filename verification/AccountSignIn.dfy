/**
 * The row and the sign-in user agree once everything has finished: cancels of
 * one deletion (links and reinstatements) and the job's passes, in any number
 * and any order. Where they do not have to agree, a run shows it.
 */
module AccountSignIn {
  import opened Calls
  import opened Wrappers
  import opened AccountDeletion
  import opened AccountMail

  // ---- the runs in question --------------------------------------------------------

  /** Calls that may also fail, with or without their effect. */
  predicate MayFail(q: Proc, c: Call) {
    || c.Answered?
    || q.LinkRead? || q.ReinstateRead?
    || ((q.LinkEnable? || q.ReinstateEnable?) && c.Lost?)
    || q.JobRead? || q.JobDecide? || q.JobDelete? || q.JobGetOwnUser? || q.JobDeleteUser?
    || q.MailRead? || q.MailClaim? || q.MailRecord?
  }

  /** Points at which a process may not stop: it owes the other store a call. */
  predicate Owes(q: Proc) {
    Writer(q) || Enabler(q) || q.DisableRead? || q.DisableAct?
  }

  predicate Writer(q: Proc) { q.LinkWrite? || q.ReinstateWrite? }
  predicate Enabler(q: Proc) { q.EnableRead? || q.EnableAct? || q.JobEnableRead? || q.JobEnableAct? }
  predicate Disabler(q: Proc) { Writer(q) || q.DisableRead? || q.DisableAct? }
  predicate PastDisable(q: Proc) { q.JobEnableRead? || q.JobDecide? || q.JobDelete? }

  /** Cancels, job passes and mailers: no suspension, no new request, no failed send. */
  predicate Quiet(s: State, e: Event)
    requires CanStep(s, e)
  {
    match e
    case Tick(_) => true
    case Start(q) => q.LinkRead? || q.ReinstateRead? || q.JobRead? || q.MailRead?
    case Makes(p, c) => MayFail(s.procs[p], c)
    case Stops(p) => !Owes(s.procs[p])
  }

  predicate QuietRun(s: State, es: seq<Event>)
    decreases |es|
  {
    es == [] || (CanStep(s, es[0]) && Quiet(s, es[0]) && QuietRun(Next(s, es[0]), es[1..]))
  }

  predicate AllFinished(procs: seq<Proc>) {
    forall p :: 0 <= p < |procs| ==> procs[p].Finished?
  }

  // ---- the invariant ----------------------------------------------------------------

  /** Canceled with the one deletion, active without one, or gone; `had`: there was a sign-in user. */
  ghost predicate StoresOk(w: World, which: Option<nat>, had: bool) {
    match w.row
    case None => true
    case Some(m) =>
      && (w.user.NoUser? <==> !had)
      && (m.status.Active? || (m.status.Canceled? && DeletionIs(m, which)))
      && (m.deletion.Some? && m.deletion.value.cancelHash.Some? ==> m.deletion.value.claimed)
  }

  ghost predicate PointOk(w: World, which: Option<nat>, q: Proc) {
    match q
    case LinkEnable(id, hash) => IsCanceled(w) ==> HoldsHash(w, id, hash)
    case LinkWrite(id, hash) => IsCanceled(w) ==> HoldsHash(w, id, hash)
    case ReinstateEnable(was, which') => was.Canceled? && which' == which
    case ReinstateWrite(was, which') => was.Canceled? && which' == which
    case EnableRead => IsActive(w)
    case EnableAct => IsActive(w)
    case JobEnableAct(_, _) => IsActive(w)
    case DisableRead => !IsCanceled(w)
    case DisableAct => w.row.None?
    case JobGetOwnUser => w.row.None?
    case JobDeleteUser => w.row.None?
    case MailUnclaim(_) => false
    case RequestWrite(_) => false
    case RequestDisable => false
    case SuspendWrite => false
    case SuspendDisable => false
    case _ => true
  }

  ghost predicate SomeEnabler(ps: seq<Proc>) { exists p :: 0 <= p < |ps| && Enabler(ps[p]) }
  ghost predicate SomeDisabler(ps: seq<Proc>) { exists p :: 0 <= p < |ps| && Disabler(ps[p]) }
  ghost predicate SomeWriter(ps: seq<Proc>) { exists p :: 0 <= p < |ps| && Writer(ps[p]) }
  ghost predicate SomePastDisable(ps: seq<Proc>) { exists p :: 0 <= p < |ps| && PastDisable(ps[p]) }

  /** Whenever the two stores disagree, some process still owes the call that repairs it. */
  ghost predicate Owed(w: World, ps: seq<Proc>) {
    && (IsActive(w) && w.user.Disabled? ==> SomeEnabler(ps))
    && (w.row.None? && w.user.Enabled? ==> SomeDisabler(ps))
    && (IsCanceled(w) && w.user.Enabled? && SomePastDisable(ps) ==> SomeWriter(ps))
  }

  ghost predicate SignInInv(s: State, which: Option<nat>, had: bool) {
    && StoresOk(s.w, which, had)
    && (forall p :: 0 <= p < |s.procs| ==> PointOk(s.w, which, s.procs[p]))
    && Owed(s.w, s.procs)
  }

  // ---- one call ---------------------------------------------------------------------

  /** What one quiet call does to what the other processes rely on. */
  ghost predicate Settles(w: World, w': World) {
    && (IsActive(w) ==> IsActive(w'))
    && (w.row.None? ==> w'.row.None?)
    && (IsCanceled(w') ==> IsCanceled(w))
    && (forall id, hash :: HoldsHash(w, id, hash) && IsCanceled(w') ==> HoldsHash(w', id, hash))
  }

  /** A disagreement after the call is owed by the caller, or was there before and not the caller's to repair. */
  ghost predicate Accounts(w: World, q: Proc, w': World, q': Proc) {
    && (IsActive(w') && w'.user.Disabled? ==> Enabler(q') || (IsActive(w) && w.user.Disabled? && !Enabler(q)))
    && (w'.row.None? && w'.user.Enabled? ==>
          Disabler(q') || (w.row.None? && w.user.Enabled? && !Disabler(q))
          || (IsCanceled(w) && w.user.Enabled? && PastDisable(q)))
    && (IsCanceled(w') && w'.user.Enabled? ==>
          Writer(q') || (IsCanceled(w) && w.user.Enabled? && !Writer(q) && (PastDisable(q') ==> PastDisable(q))))
  }

  ghost predicate CallOk(w: World, q: Proc, which: Option<nat>, had: bool, step: Step) {
    && StoresOk(step.w, which, had)
    && PointOk(step.w, which, step.next)
    && Settles(w, step.w)
    && Accounts(w, q, step.w, step.next)
  }

  lemma CancelCall(w: World, q: Proc, c: Call, which: Option<nat>, had: bool)
    requires StoresOk(w, which, had) && PointOk(w, which, q) && MayFail(q, c)
    requires q.LinkRead? || q.LinkEnable? || q.LinkWrite? || q.ReinstateRead? || q.ReinstateEnable? || q.ReinstateWrite?
    ensures CallOk(w, q, which, had, ActCancel(w, q, c))
  {
  }

  lemma SignInCall(w: World, q: Proc, c: Call, which: Option<nat>, had: bool)
    requires StoresOk(w, which, had) && PointOk(w, which, q) && MayFail(q, c)
    requires q.EnableRead? || q.EnableAct? || q.DisableRead? || q.DisableAct?
    ensures CallOk(w, q, which, had, ActSignIn(w, q, c))
  {
  }

  lemma JobCall(w: World, q: Proc, c: Call, which: Option<nat>, had: bool)
    requires StoresOk(w, which, had) && PointOk(w, which, q) && MayFail(q, c)
    requires q.JobRead? || q.JobGetUser? || q.JobDisable? || q.JobEnableRead? || q.JobEnableAct?
          || q.JobDecide? || q.JobDelete? || q.JobGetOwnUser? || q.JobDeleteUser?
    ensures CallOk(w, q, which, had, ActJob(w, q, c))
  {
    hide Due;
  }

  lemma MailCall(w: World, p: nat, q: Proc, c: Call, which: Option<nat>, had: bool)
    requires StoresOk(w, which, had) && PointOk(w, which, q) && MayFail(q, c)
    requires q.MailRead? || q.MailClaim? || q.MailSend? || q.MailUnclaim? || q.MailRecord?
    ensures CallOk(w, q, which, had, ActMail(w, p, q, c))
  {
    hide FirstDeletionRun;
  }

  lemma QuietCall(w: World, p: nat, q: Proc, c: Call, which: Option<nat>, had: bool)
    requires StoresOk(w, which, had) && PointOk(w, which, q) && MayFail(q, c)
    ensures CallOk(w, q, which, had, Act(w, p, q, c))
  {
    hide CallOk, StoresOk, ActCancel, ActSignIn, ActJob, ActMail, MayFail;
    if q.LinkRead? || q.LinkEnable? || q.LinkWrite? || q.ReinstateRead? || q.ReinstateEnable? || q.ReinstateWrite? {
      CancelCall(w, q, c, which, had);
    } else if q.EnableRead? || q.EnableAct? || q.DisableRead? || q.DisableAct? {
      SignInCall(w, q, c, which, had);
    } else if q.MailRead? || q.MailClaim? || q.MailSend? || q.MailUnclaim? || q.MailRecord? {
      MailCall(w, p, q, c, which, had);
    } else if q.Finished? {
      FinishedCall(w, which, had);
    } else {
      JobCall(w, q, c, which, had);
    }
  }

  lemma FinishedCall(w: World, which: Option<nat>, had: bool)
    requires StoresOk(w, which, had)
    ensures CallOk(w, Finished, which, had, Step(w, Finished))
  {
  }

  // ---- every process together ---------------------------------------------------------

  lemma OthersPoint(w: World, w': World, which: Option<nat>, q: Proc)
    requires PointOk(w, which, q) && Settles(w, w')
    ensures PointOk(w', which, q)
  {
  }

  lemma StillOwed(w: World, w': World, ps: seq<Proc>, p: nat, q': Proc)
    requires Owed(w, ps) && p < |ps| && Accounts(w, ps[p], w', q')
    ensures Owed(w', ps[p := q'])
  {
    var ps' := ps[p := q'];
    assert ps'[p] == q';
    if IsActive(w') && w'.user.Disabled? && !Enabler(q') {
      var k :| 0 <= k < |ps| && Enabler(ps[k]);
      assert ps'[k] == ps[k];
    }
    if w'.row.None? && w'.user.Enabled? && !Disabler(q') {
      if IsCanceled(w) {
        assert PastDisable(ps[p]);
        var k :| 0 <= k < |ps| && Writer(ps[k]);
        assert k != p && ps'[k] == ps[k];
      } else {
        var k :| 0 <= k < |ps| && Disabler(ps[k]);
        assert ps'[k] == ps[k];
      }
    }
    if IsCanceled(w') && w'.user.Enabled? && SomePastDisable(ps') && !Writer(q') {
      var j :| 0 <= j < |ps'| && PastDisable(ps'[j]);
      assert PastDisable(ps[j]);
      var k :| 0 <= k < |ps| && Writer(ps[k]);
      assert ps'[k] == ps[k];
    }
  }

  /** A process that owes nothing and has yet to disable anything joins, or one that owes nothing leaves. */
  lemma JoinOwed(w: World, ps: seq<Proc>, q: Proc)
    requires Owed(w, ps) && !PastDisable(q)
    ensures Owed(w, ps + [q])
  {
    var ps' := ps + [q];
    if SomeEnabler(ps) { var k :| 0 <= k < |ps| && Enabler(ps[k]); assert Enabler(ps'[k]); }
    if SomeDisabler(ps) { var k :| 0 <= k < |ps| && Disabler(ps[k]); assert Disabler(ps'[k]); }
    if SomeWriter(ps) { var k :| 0 <= k < |ps| && Writer(ps[k]); assert Writer(ps'[k]); }
    if SomePastDisable(ps') { var k :| 0 <= k < |ps'| && PastDisable(ps'[k]); assert PastDisable(ps[k]); }
  }

  lemma SignInInvKept(s: State, e: Event, which: Option<nat>, had: bool)
    requires SignInInv(s, which, had) && CanStep(s, e) && Quiet(s, e)
    ensures SignInInv(Next(s, e), which, had)
  {
    hide Act, StoresOk, PointOk, Settles, Accounts, Owed, PastImage;
    match e
    case Tick(_) =>
    case Start(q) =>
      StartOk(s.w, which, q);
      JoinOwed(s.w, s.procs, q);
    case Makes(p, c) =>
      var q := s.procs[p];
      QuietCall(s.w, p, q, c, which, had);
      var step := Act(s.w, p, q, c);
      StillOwed(s.w, step.w, s.procs, p, step.next);
      forall k | 0 <= k < |s.procs| && k != p ensures PointOk(step.w, which, s.procs[k]) {
        OthersPoint(s.w, step.w, which, s.procs[k]);
      }
    case Stops(p) =>
      StopOk(s.w, which, s.procs[p]);
      StillOwed(s.w, s.w, s.procs, p, Finished);
  }

  lemma StartOk(w: World, which: Option<nat>, q: Proc)
    requires q.LinkRead? || q.ReinstateRead? || q.JobRead? || q.MailRead?
    ensures PointOk(w, which, q) && !PastDisable(q)
  {
  }

  lemma StopOk(w: World, which: Option<nat>, q: Proc)
    requires !Owes(q)
    ensures PointOk(w, which, Finished) && Accounts(w, q, w, Finished)
  {
  }

  lemma {:induction false} QuietRunKeeps(s: State, es: seq<Event>, which: Option<nat>, had: bool)
    requires SignInInv(s, which, had) && QuietRun(s, es)
    ensures Exec(s, es).Some? && SignInInv(Exec(s, es).value, which, had)
    decreases |es|
  {
    hide SignInInv, Next, Quiet, CanStep;
    if es != [] {
      SignInInvKept(s, es[0], which, had);
      QuietRunKeeps(Next(s, es[0]), es[1..], which, had);
    }
  }

  /**
   * From a canceled account with nothing in progress, through any quiet run
   * that has come to rest: an active row has its sign-in enabled, and a row
   * that is gone left no enabled sign-in behind.
   */
  lemma RowAndSignInAgree(s: State, es: seq<Event>)
    requires Reachable(s) && IsCanceled(s.w) && AllFinished(s.procs)
    requires QuietRun(s, es)
    ensures Exec(s, es).Some?
    ensures var s' := Exec(s, es).value;
            AllFinished(s'.procs) ==>
              && (IsActive(s'.w) && !s.w.user.NoUser? ==> s'.w.user.Enabled?)
              && (s'.w.row.None? ==> !s'.w.user.Enabled?)
  {
    ReachableInv(s);
    var m := s.w.row.value;
    var which := if m.deletion.Some? then Some(m.deletion.value.id) else None;
    var had := !s.w.user.NoUser?;
    StartsAgreeing(s, which, had);
    QuietRunKeeps(s, es, which, had);
    AtRest(Exec(s, es).value, which, had);
  }

  lemma StartsAgreeing(s: State, which: Option<nat>, had: bool)
    requires Inv(s) && IsCanceled(s.w) && AllFinished(s.procs)
    requires DeletionIs(s.w.row.value, which) && had == !s.w.user.NoUser?
    ensures SignInInv(s, which, had)
  {
    hide RequestOk, ProcOk;
  }

  lemma AtRest(s: State, which: Option<nat>, had: bool)
    requires SignInInv(s, which, had)
    ensures AllFinished(s.procs) && IsActive(s.w) && had ==> s.w.user.Enabled?
    ensures AllFinished(s.procs) && s.w.row.None? ==> !s.w.user.Enabled?
  {
  }

  // ---- any run: where the two part -------------------------------------------------

  ghost predicate Agree(w: World) { (IsActive(w) ==> !w.user.Disabled?) && (w.row.None? ==> !w.user.Enabled?) }

  /** The call takes effect on the one store and does not suit the other. */
  ghost predicate Parts(w: World, q: Proc, c: Call) {
    !c.Lost? &&
    match q
    case LinkWrite(id, hash) => IsCanceled(w) && HoldsHash(w, id, hash) && w.user.Disabled?
    case ReinstateWrite(was, which) =>
      w.row.Some? && w.row.value.status == was && (was.Canceled? ==> DeletionIs(w.row.value, which)) && w.user.Disabled?
    case DisableAct => IsActive(w) && w.user.Enabled?
    case JobDisable(_, _) => IsActive(w) && w.user.Enabled?
    case RequestDisable => IsActive(w) && w.user.Enabled?
    case SuspendDisable => IsActive(w) && w.user.Enabled?
    case JobDelete(t, id) =>
      && IsCanceled(w) && w.row.value.deleteAfter.Some? && w.row.value.deleteAfter.value < t
      && w.row.value.deletion.Some? && w.row.value.deletion.value.id == id && w.user.Enabled?
    case LinkEnable(_, _) => w.row.None? && w.user.Disabled?
    case ReinstateEnable(_, _) => w.row.None? && w.user.Disabled?
    case EnableAct => w.row.None? && w.user.Disabled?
    case JobEnableAct(_, _) => w.row.None? && w.user.Disabled?
    case _ => false
  }

  /** In any run, failed calls and all, row and sign-in user come apart by exactly these calls. */
  lemma PartExactly(s: State, e: Event)
    requires CanStep(s, e) && Agree(s.w)
    ensures !Agree(Next(s, e).w) <==> e.Makes? && Parts(s.w, s.procs[e.p], e.c)
  {
    hide Starts, Due, FirstDeletionRun;
    if e.Makes? { CallParts(s.w, e.p, s.procs[e.p], e.c); }
  }

  lemma CallParts(w: World, p: nat, q: Proc, c: Call)
    requires Agree(w)
    ensures !Agree(Act(w, p, q, c).w) <==> Parts(w, q, c)
  {
    hide Due, FirstDeletionRun;
    if q.MailRead? || q.MailClaim? || q.MailSend? || q.MailUnclaim? || q.MailRecord? {
      MailKeepsStores(w, p, q, c);
    }
  }

  /** The mailer changes neither the row's status nor whether it exists. */
  lemma MailKeepsStores(w: World, p: nat, q: Proc, c: Call)
    requires q.MailRead? || q.MailClaim? || q.MailSend? || q.MailUnclaim? || q.MailRecord?
    ensures var w' := ActMail(w, p, q, c).w;
            w'.user == w.user && (w'.row.Some? <==> w.row.Some?) && (w.row.Some? ==> w'.row.value.status == w.row.value.status)
  {
    hide FirstDeletionRun;
  }

  // ---- every process comes to rest --------------------------------------------------

  /** The calls a process can still make. */
  function CallsLeft(q: Proc): nat {
    match q
    case Finished => 0
    case LinkRead(_) => 5
    case LinkEnable(_, _) => 4
    case LinkWrite(_, _) => 3
    case ReinstateRead => 5
    case ReinstateEnable(_, _) => 4
    case ReinstateWrite(_, _) => 3
    case EnableRead => 2
    case EnableAct => 1
    case DisableRead => 2
    case DisableAct => 1
    case JobRead(_) => 9
    case JobGetUser(_, _) => 8
    case JobDisable(_, _) => 7
    case JobEnableRead(_, _) => 6
    case JobEnableAct(_, _) => 5
    case JobDecide(_, _) => 4
    case JobDelete(_, _) => 3
    case JobGetOwnUser => 2
    case JobDeleteUser => 1
    case MailRead(_) => 4
    case MailClaim(_) => 3
    case MailSend(_) => 2
    case MailUnclaim(_) => 1
    case MailRecord(_) => 1
    case RequestWrite(_) => 2
    case RequestDisable => 1
    case SuspendWrite => 2
    case SuspendDisable => 1
  }

  /** However its calls end, a process makes a bounded number of them: "once all have finished" always comes. */
  lemma EveryProcessComesToRest(w: World, p: nat, q: Proc, c: Call)
    ensures CallsLeft(q) <= 9
    ensures !q.Finished? ==> CallsLeft(Act(w, p, q, c).next) < CallsLeft(q)
  {
    hide Due, FirstDeletionRun, HoldsHash, DeletionIs;
  }
}
