/**
 * The two notices of lambda/member/vault.ts: of a counted attempt
 * (noticeAttempt) and of a cancel from the phone (noticeAppCancel). Claim,
 * work, record: any number of callers, each of which may fail or stop
 * anywhere, over one notice.
 */
module Notices {
  import opened Calls
  import opened Runs
  import opened Wrappers

  const RETRY_S := 300
  const MAX_TRIES := 24

  datatype Kind = Attempt | PhoneCancel

  /** The notice's attributes: on the open's slot, or a row of its own (`rcnotice#`). */
  datatype Notice = Notice(noticing: Option<int>, tries: nat, noticedAt: Option<int>, failed: bool)

  /** How far the recovery of a phone cancel is; `EndedOtherwise` also stands for replaced. */
  datatype Status = Live | CancelledByApp | EndedOtherwise

  /** A claim that took effect: its clock reading and its process. */
  datatype Claimed = Claimed(at: int, winner: nat)

  /** A record that took effect, and the claim that made it. */
  datatype Recorded = Recorded(k: nat, failed: bool)

  /**
   * `mails`: the claims (by number) whose email was tried. `accepted`: those
   * SES accepted, `answered`: and answered. `over`: those whose cancel write
   * found the recovery ended otherwise or past its expiry.
   */
  datatype History = History(
    claims: seq<Claimed>, mails: seq<nat>, accepted: set<nat>, answered: set<nat>, over: set<nat>, records: seq<Recorded>)

  datatype World = World(now: int, notice: Option<Notice>, status: Status, expired: bool, h: History)

  /** `k`: the number of the claim the process holds. */
  datatype Proc =
    | Finished
    | Claim(at: int, opens: bool)
    | CancelWrite(k: nat)
    | Reread(k: nat)
    | AuditSeen(k: nat)
    | AuditMail(k: nat)
    | Mail(k: nat)
    | Record(k: nat, failed: bool)

  datatype Step = Step(w: World, next: Proc)

  predicate MayClaim(n: Option<Notice>, at: int, opens: bool) {
    match n
    case None => opens
    case Some(x) => x.noticedAt.None? && (x.noticing.None? || x.noticing.value < at - RETRY_S)
  }

  function AfterClaim(n: Option<Notice>, at: int): Notice {
    match n
    case None => Notice(Some(at), 1, None, false)
    case Some(x) => x.(noticing := Some(at), tries := x.tries + 1)
  }

  /** An email tried, by how its call ended: SES may have accepted one it did not answer. */
  function Mailed(h: History, k: nat, c: Call): History {
    h.(mails := h.mails + [k],
       accepted := if c.Lost? then h.accepted else h.accepted + {k},
       answered := if c.Answered? then h.answered + {k} else h.answered)
  }

  function Act(kind: Kind, w: World, p: nat, q: Proc, c: Call): Step {
    match q
    case Finished => Step(w, Finished)
    case Claim(at, opens) =>
      if !MayClaim(w.notice, at, opens) then Step(w, Finished)
      else
        var n := AfterClaim(w.notice, at);
        Step(if c.Lost? then w else w.(notice := Some(n), h := w.h.(claims := w.h.claims + [Claimed(at, p)])),
          if !c.Answered? then Finished
          else if n.tries > MAX_TRIES then Record(n.tries, true)
          else if kind.Attempt? then AuditMail(n.tries) else CancelWrite(n.tries))
    case CancelWrite(k) =>
      var holds := w.status.Live? && !w.expired;
      var over := w.status.EndedOtherwise? || (w.status.Live? && w.expired);
      Step(if holds && !c.Lost? then w.(status := CancelledByApp) else if over && c.Answered? then w.(h := w.h.(over := w.h.over + {k})) else w,
        if !c.Answered? then Finished else if holds then AuditMail(k) else Reread(k))
    case Reread(k) =>
      Step(w, if !c.Answered? then Finished else if w.status.CancelledByApp? then AuditMail(k) else AuditSeen(k))
    case AuditSeen(k) => Step(w, if c.Answered? then Record(k, false) else Finished)
    case AuditMail(k) => Step(w, if c.Answered? then Mail(k) else Finished)
    case Mail(k) =>
      Step(w.(h := Mailed(w.h, k, c)), if c.Answered? then Record(k, false) else Finished)
    case Record(k, failed) =>
      if w.notice.None? then Step(w, Finished)
      else
        var n := w.notice.value.(noticing := None, noticedAt := Some(w.now), failed := w.notice.value.failed || failed);
        Step(if c.Lost? then w else w.(notice := Some(n), h := w.h.(records := w.h.records + [Recorded(k, failed)])), Finished)
  }

  // ---- runs -----------------------------------------------------------------------------

  datatype State = State(kind: Kind, w: World, procs: seq<Proc>)

  /** `Ends` and `Expiry`: what happens to the recovery meanwhile. */
  datatype Event =
    | Tick(t: int)
    | Ends
    | Expiry(passed: bool)
    | Start(at: int, opens: bool)
    | Makes(p: nat, c: Call)
    | Stops(p: nat)

  /** A notice row is opened only for a phone cancel, and only by a caller that read the recovery as live. */
  predicate CanStep(s: State, e: Event) {
    match e
    case Tick(t) => s.w.now <= t
    case Ends => s.w.status.Live?
    case Expiry(_) => true
    case Start(at, opens) => at <= s.w.now && (opens ==> s.kind.PhoneCancel?)
    case Makes(p, _) => p < |s.procs|
    case Stops(p) => p < |s.procs|
  }

  function Next(s: State, e: Event): State
    requires CanStep(s, e)
  {
    match e
    case Tick(t) => s.(w := s.w.(now := t))
    case Ends => s.(w := s.w.(status := EndedOtherwise))
    case Expiry(passed) => s.(w := s.w.(expired := passed))
    case Start(at, opens) => s.(procs := s.procs + [Claim(at, opens)])
    case Makes(p, c) =>
      var step := Act(s.kind, s.w, p, s.procs[p], c);
      s.(w := step.w, procs := s.procs[p := step.next])
    case Stops(p) => s.(procs := s.procs[p := Finished])
  }

  ghost function StepOf(s: State, e: Event): Option<State> { if CanStep(s, e) then Some(Next(s, e)) else None }

  ghost function Exec(s: State, es: seq<Event>): Option<State> { Run(StepOf, s, es) }

  /** A slot just marked by the host; or no notice row yet, for a live recovery. */
  ghost predicate Init(s: State) {
    && s.procs == [] && s.w.h == History([], [], {}, {}, {}, [])
    && s.w.status.Live?
    && s.w.notice == (if s.kind.Attempt? then Some(Notice(None, 0, None, false)) else None)
  }

  ghost predicate Reachable(s: State) {
    exists s0: State, es: seq<Event> :: Init(s0) && Exec(s0, es) == Some(s)
  }

  // ---- the invariant ----------------------------------------------------------------------

  ghost predicate ClaimsOk(claims: seq<Claimed>) {
    forall i, j :: 0 <= i < j < |claims| ==> claims[i].at + RETRY_S < claims[j].at
  }

  ghost predicate NoticeOk(w: World) {
    match w.notice
    case None => w.h.claims == [] && w.h.records == []
    case Some(n) =>
      && n.tries == |w.h.claims|
      && (n.noticing.Some? ==> n.tries > 0 && w.h.claims[n.tries - 1].at == n.noticing.value)
      && (n.noticing.None? && n.noticedAt.None? ==> n.tries == 0)
      && (n.noticedAt.Some? <==> w.h.records != [])
      && (n.failed <==> exists i :: 0 <= i < |w.h.records| && w.h.records[i].failed)
  }

  /** Who recorded a notice without the failed mark had told, or had found nothing left to tell. */
  ghost predicate RecordsOk(h: History) {
    forall i :: 0 <= i < |h.records| && !h.records[i].failed ==> h.records[i].k in h.answered || h.records[i].k in h.over
  }

  ghost predicate MailsOk(h: History) {
    && (forall i :: 0 <= i < |h.mails| ==> 1 <= h.mails[i] <= MAX_TRIES && h.mails[i] <= |h.claims|)
    && (forall i, j :: 0 <= i < j < |h.mails| ==> h.mails[i] != h.mails[j])
    && (forall k :: k in h.accepted ==> k in h.mails)
    && h.answered <= h.accepted
  }

  ghost predicate Holds(h: History, p: nat, k: nat) {
    1 <= k <= MAX_TRIES && k <= |h.claims| && h.claims[k - 1].winner == p && k !in h.mails
  }

  ghost predicate ProcOk(kind: Kind, w: World, p: nat, q: Proc) {
    match q
    case CancelWrite(k) => kind.PhoneCancel? && Holds(w.h, p, k)
    case Reread(k) => kind.PhoneCancel? && Holds(w.h, p, k) && (w.status.CancelledByApp? || k in w.h.over)
    case AuditSeen(k) => k in w.h.over
    case AuditMail(k) => Holds(w.h, p, k)
    case Mail(k) => Holds(w.h, p, k)
    case Record(k, failed) => failed || k in w.h.answered || k in w.h.over
    case _ => true
  }

  ghost predicate WorldOk(kind: Kind, w: World) {
    ClaimsOk(w.h.claims) && NoticeOk(w) && MailsOk(w.h) && RecordsOk(w.h) && (kind.Attempt? ==> w.h.over == {})
  }

  ghost predicate Inv(s: State) {
    && WorldOk(s.kind, s.w)
    && forall p :: 0 <= p < |s.procs| ==> ProcOk(s.kind, s.w, p, s.procs[p])
  }

  /** What process `p`'s move does: it appends its own claim, or the email of a claim it holds; a phone's cancel stays. */
  ghost predicate Moved(w: World, w': World, p: nat) {
    && |w.h.claims| <= |w'.h.claims| && w'.h.claims[..|w.h.claims|] == w.h.claims
    && (w'.h.mails == w.h.mails || (exists k :: Holds(w.h, p, k) && w'.h.mails == w.h.mails + [k]))
    && w.h.answered <= w'.h.answered && w.h.over <= w'.h.over
    && (w.status.CancelledByApp? ==> w'.status.CancelledByApp?)
  }

  lemma OthersKeep(kind: Kind, w: World, w': World, i: nat, p: nat, q: Proc)
    requires Moved(w, w', i) && i != p && ProcOk(kind, w, p, q)
    ensures ProcOk(kind, w', p, q)
  {
    assert forall k :: 0 <= k < |w.h.claims| ==> w'.h.claims[k] == w.h.claims[k];
  }

  ghost predicate StepOk(kind: Kind, w: World, p: nat, step: Step) {
    WorldOk(kind, step.w) && Moved(w, step.w, p) && ProcOk(kind, step.w, p, step.next)
  }

  lemma ClaimStep(kind: Kind, w: World, p: nat, at: int, opens: bool, c: Call)
    requires WorldOk(kind, w)
    ensures StepOk(kind, w, p, Act(kind, w, p, Claim(at, opens), c))
  {
    if !MayClaim(w.notice, at, opens) || c.Lost? {
      StandsStill(kind, w, p);
    } else {
      hide Holds, MayClaim;
      var step := Act(kind, w, p, Claim(at, opens), c);
      ClaimedWorld(kind, w, p, at, opens);
      if |w.h.claims| < MAX_TRIES { ClaimHolds(w, p, at); }
      ClaimMoves(w, step.w, p);
      TriesAre(w, at);
      assert ProcOk(kind, step.w, p, step.next);
    }
  }

  /** What a claim that takes effect leaves. */
  function AfterClaimed(w: World, p: nat, at: int): World {
    w.(notice := Some(AfterClaim(w.notice, at)), h := w.h.(claims := w.h.claims + [Claimed(at, p)]))
  }

  lemma StandsStill(kind: Kind, w: World, p: nat)
    requires WorldOk(kind, w)
    ensures StepOk(kind, w, p, Step(w, Finished))
  {
  }

  lemma TriesAre(w: World, at: int)
    requires NoticeOk(w)
    ensures AfterClaim(w.notice, at).tries == |w.h.claims| + 1
  {
  }

  lemma ClaimedWorld(kind: Kind, w: World, p: nat, at: int, opens: bool)
    requires WorldOk(kind, w) && MayClaim(w.notice, at, opens)
    ensures WorldOk(kind, AfterClaimed(w, p, at))
  {
    hide ClaimsOk, MailsOk;
    MoreClaims(w.h.claims, at, p);
    MailsStay(w.h, AfterClaimed(w, p, at).h);
  }

  lemma ClaimHolds(w: World, p: nat, at: int)
    requires MailsOk(w.h) && |w.h.claims| < MAX_TRIES
    ensures Holds(AfterClaimed(w, p, at).h, p, |w.h.claims| + 1)
  {
  }

  lemma ClaimMoves(w: World, w': World, p: nat)
    requires w'.h == w.h.(claims := w'.h.claims) && |w'.h.claims| == |w.h.claims| + 1
    requires w'.h.claims[..|w.h.claims|] == w.h.claims && w'.status == w.status
    ensures Moved(w, w', p)
  {
  }

  lemma MoreClaims(claims: seq<Claimed>, at: int, p: nat)
    requires ClaimsOk(claims) && (claims != [] ==> claims[|claims| - 1].at + RETRY_S < at)
    ensures ClaimsOk(claims + [Claimed(at, p)])
  {
  }

  lemma MailsStay(h: History, h': History)
    requires MailsOk(h) && h'.mails == h.mails && h'.accepted == h.accepted && h'.answered == h.answered && |h.claims| <= |h'.claims|
    ensures MailsOk(h') && |h.claims| + 1 !in h.mails
  {
  }

  lemma MailStep(kind: Kind, w: World, p: nat, k: nat, c: Call)
    requires WorldOk(kind, w) && ProcOk(kind, w, p, Mail(k))
    ensures StepOk(kind, w, p, Act(kind, w, p, Mail(k), c))
  {
    var w' := Act(kind, w, p, Mail(k), c).w;
    assert w'.h.mails == w.h.mails + [k];
    assert w'.h.mails[|w.h.mails|] == k;
  }

  lemma RecordStep(kind: Kind, w: World, p: nat, k: nat, failed: bool, c: Call)
    requires WorldOk(kind, w) && ProcOk(kind, w, p, Record(k, failed))
    ensures StepOk(kind, w, p, Act(kind, w, p, Record(k, failed), c))
  {
    hide ClaimsOk, MailsOk;
    var h, h' := w.h, Act(kind, w, p, Record(k, failed), c).w.h;
    if h' != h {
      assert h'.records[|h.records|] == Recorded(k, failed);
      assert forall i :: 0 <= i < |h.records| ==> h'.records[i] == h.records[i];
      MailsStay(h, h');
    }
  }

  lemma ActStep(kind: Kind, w: World, p: nat, q: Proc, c: Call)
    requires WorldOk(kind, w) && ProcOk(kind, w, p, q)
    ensures StepOk(kind, w, p, Act(kind, w, p, q, c))
  {
    hide ClaimsOk, MailsOk, MayClaim, AfterClaim;
    if q.Claim? {
      hide Act;
      ClaimStep(kind, w, p, q.at, q.opens, c);
    } else if q.Mail? {
      hide Act;
      MailStep(kind, w, p, q.k, c);
    } else if q.Record? {
      RecordStep(kind, w, p, q.k, q.failed, c);
    } else {
      SameHistory(kind, w, Act(kind, w, p, q, c).w, p, q, Act(kind, w, p, q, c).next);
    }
  }

  /** A step that neither claims nor mails. */
  lemma SameHistory(kind: Kind, w: World, w': World, p: nat, q: Proc, next: Proc)
    requires ClaimsOk(w.h.claims) && MailsOk(w.h) && NoticeOk(w') && RecordsOk(w'.h)
    requires w'.h == w.h.(over := w'.h.over, records := w'.h.records) && w.h.over <= w'.h.over && (kind.Attempt? ==> w'.h.over == {})
    requires w.status.CancelledByApp? ==> w'.status.CancelledByApp?
    requires ProcOk(kind, w', p, next)
    ensures StepOk(kind, w, p, Step(w', next))
  {
  }

  /** Every event keeps the invariant. */
  lemma InvKept(s: State, e: Event)
    requires Inv(s) && CanStep(s, e)
    ensures Inv(Next(s, e))
  {
    hide Act, WorldOk, ProcOk, Moved;
    var s' := Next(s, e);
    match e
    case Start(at, opens) => PlainOk(s.kind, s.w, s'.w, |s.procs|, Claim(at, opens));
    case Makes(i, c) =>
      ActStep(s.kind, s.w, i, s.procs[i], c);
      forall p | 0 <= p < |s.procs| && p != i ensures ProcOk(s.kind, s'.w, p, s'.procs[p]) {
        OthersKeep(s.kind, s.w, s'.w, i, p, s.procs[p]);
      }
    case Stops(i) => PlainOk(s.kind, s.w, s'.w, i, Finished);
    case _ =>
      PlainOk(s.kind, s.w, s'.w, |s.procs|, Finished);
      forall p | 0 <= p < |s.procs| ensures ProcOk(s.kind, s'.w, p, s.procs[p]) {
        OthersKeep(s.kind, s.w, s'.w, |s.procs|, p, s.procs[p]);
      }
  }

  lemma PlainOk(kind: Kind, w: World, w': World, p: nat, q: Proc)
    requires WorldOk(kind, w) && (q.Finished? || q.Claim?)
    requires w'.notice == w.notice && w'.h == w.h && (w.status.CancelledByApp? ==> w'.status.CancelledByApp?)
    ensures WorldOk(kind, w') && Moved(w, w', p) && ProcOk(kind, w', p, q)
  {
  }

  lemma ReachableInv(s: State)
    requires Reachable(s)
    ensures Inv(s)
  {
    hide Inv, Next, CanStep;
    var s0: State, es: seq<Event> :| Init(s0) && Exec(s0, es) == Some(s);
    InitInv(s0);
    forall s: State, e: Event | Inv(s) && StepOf(s, e).Some? ensures Inv(StepOf(s, e).value) { InvKept(s, e); }
    RunKeeps(StepOf, Inv, s0, es);
  }

  lemma InitInv(s: State)
    requires Init(s)
    ensures Inv(s)
  {
  }

  // ---- what it means --------------------------------------------------------------------------

  /** Any two claims of one notice are more than 300 s apart by the clocks that made them, and each counts one try. */
  lemma ClaimsFarApart(s: State, i: nat, j: nat)
    requires Reachable(s) && i < j < |s.w.h.claims|
    ensures s.w.h.claims[i].at + RETRY_S < s.w.h.claims[j].at
    ensures s.w.notice.Some? && s.w.notice.value.tries == |s.w.h.claims|
  {
    ReachableInv(s);
  }

  /** At most 24 emails are tried for one notice, and no other is accepted, whatever fails and however often it is taken up. */
  lemma AtMost24Emails(s: State)
    requires Reachable(s)
    ensures |s.w.h.mails| <= 24
    ensures forall k :: k in s.w.h.accepted ==> k in s.w.h.mails
  {
    ReachableInv(s);
    DistinctBounded(s.w.h.mails, MAX_TRIES);
  }

  /** A sequence of different numbers from 1 to `n` has at most `n` elements. */
  lemma {:induction false} DistinctBounded(xs: seq<nat>, n: nat)
    requires forall i :: 0 <= i < |xs| ==> 1 <= xs[i] <= n
    requires forall i, j :: 0 <= i < j < |xs| ==> xs[i] != xs[j]
    ensures |xs| <= n
    decreases n
  {
    if n in xs {
      var i :| 0 <= i < |xs| && xs[i] == n;
      DistinctBounded(xs[..i] + xs[i + 1..], n - 1);
    } else if |xs| > 0 {
      assert 1 <= xs[0] <= n;
      DistinctBounded(xs, n - 1);
    }
  }

  ghost predicate IsRecorded(s: State) { s.w.notice.Some? && s.w.notice.value.noticedAt.Some? }

  /** Once recorded, a notice stays recorded, and no claim is ever made of it again. */
  lemma NoClaimOnceRecorded(s: State, es: seq<Event>)
    requires IsRecorded(s) && Exec(s, es).Some?
    ensures IsRecorded(Exec(s, es).value) && Exec(s, es).value.w.h.claims == s.w.h.claims
  {
    hide Next, CanStep, IsRecorded;
    var still := (t: State) => IsRecorded(t) && t.w.h.claims == s.w.h.claims;
    forall t: State, e: Event | still(t) && StepOf(t, e).Some? ensures still(StepOf(t, e).value) { StaysRecorded(t, e); }
    RunKeeps(StepOf, still, s, es);
  }

  lemma StaysRecorded(s: State, e: Event)
    requires IsRecorded(s) && CanStep(s, e)
    ensures IsRecorded(Next(s, e)) && Next(s, e).w.h.claims == s.w.h.claims
  {
  }

  /** An attempt recorded without the failed mark: each claim that recorded it had sent its email, which SES accepted and answered. */
  lemma RecordedAttemptWasMailed(s: State)
    requires Reachable(s) && s.kind.Attempt?
    requires IsRecorded(s) && !s.w.notice.value.failed
    ensures s.w.h.records != []
    ensures forall i :: 0 <= i < |s.w.h.records| ==>
              s.w.h.records[i].k in s.w.h.answered && s.w.h.records[i].k in s.w.h.accepted && s.w.h.records[i].k in s.w.h.mails
  {
    ReachableInv(s);
  }

  /**
   * A phone cancel recorded without the failed mark: each claim that recorded
   * it had sent its email, which SES accepted and answered, or its own cancel
   * write had found the recovery ended otherwise or past its expiry.
   */
  lemma RecordedCancelWasToldOrOver(s: State)
    requires Reachable(s) && s.kind.PhoneCancel?
    requires IsRecorded(s) && !s.w.notice.value.failed
    ensures s.w.h.records != []
    ensures forall i :: 0 <= i < |s.w.h.records| ==>
              var k := s.w.h.records[i].k;
              (k in s.w.h.answered && k in s.w.h.accepted && k in s.w.h.mails) || k in s.w.h.over
  {
    ReachableInv(s);
  }
}
