/** The invariant of a vault row with its processes, and that every step keeps it. */
module VaultInvariant {
  import opened Calls
  import opened Wrappers
  import opened VaultRow

  // ---- how one recovery may change --------------------------------------------------

  /** The state reached from another by any number of changes. */
  predicate Reaches(a: RecoveryState, b: RecoveryState) {
    || a == b
    || (a.Pending? && (b.Registered? || b.Cancelled? || b.Unavailable? || b.Completed?))
    || (a.Registered? && (b.Cancelled? || b.Completed?))
  }

  /** The same recovery later: its state moved on, its times only later. */
  ghost predicate Grew(r: Recovery, r': Recovery) {
    && r'.id == r.id && r'.requestedAt == r.requestedAt && r'.scale == r.scale
    && Reaches(r.state, r'.state)
    && r.availableAt <= r'.availableAt && r.expiresAt <= r'.expiresAt
    && (r.enclaveTimes ==> r'.enclaveTimes && r'.availableAt == r.availableAt)
  }

  /** On the row itself an ended recovery does not change at all. */
  ghost predicate Later(r: Recovery, r': Recovery) {
    Grew(r, r') && (Ended(r.state) ==> r' == r)
  }

  lemma GrewTwice(a: Recovery, b: Recovery, c: Recovery)
    requires Grew(a, b) && Grew(b, c)
    ensures Grew(a, c)
  {
  }

  /** The clock invariant of a recovery. */
  ghost predicate TimesOk(r: Recovery) {
    && r.requestedAt + Scaled(DAY, r.scale) <= r.availableAt
    && r.expiresAt <= r.requestedAt + MAX_SPAN
    && (r.availableAt + Scaled(DAY, r.scale) <= r.expiresAt || r.expiresAt == r.requestedAt + MAX_SPAN)
    && (!r.enclaveTimes ==> r.availableAt == r.requestedAt + Scaled(DAY, r.scale))
    && (!r.enclaveTimes && r.state.Pending? ==> r.expiresAt == r.availableAt + Scaled(DAY, r.scale))
  }

  lemma ScaledDay(scale: Scale)
    ensures Scaled(DAY, scale) == DAY || Scaled(DAY, scale) == 3600
  {
  }

  // ---- the invariant ------------------------------------------------------------------

  /** `r` was once on the row. */
  ghost predicate Past(w: World, r: Recovery) {
    && r.id in w.h.written
    && TimesOk(r)
    && (Names(w.row, r.id) ==> Grew(r, w.row.recovery.value))
  }

  ghost predicate RecoveryOk(w: World) {
    w.row.recovery.Some? ==>
      var r := w.row.recovery.value;
      && r.id in w.h.written
      && TimesOk(r)
      && (r.state.Cancelled? ==> exists i :: 0 <= i < |w.h.wins| && w.h.wins[i].id == r.id && r.via == Some(w.h.wins[i].via))
      && (!r.state.Cancelled? ==> r.via == None)
  }

  /** Every cancel that took effect is of a recovery of this row, and of a different one each. */
  ghost predicate WinsOk(w: World) {
    && (forall i :: 0 <= i < |w.h.wins| ==> w.h.wins[i].id in w.h.written)
    && (forall i :: 0 <= i < |w.h.wins| && Names(w.row, w.h.wins[i].id) ==> w.row.recovery.value.state.Cancelled?)
    && (forall i, j :: 0 <= i < j < |w.h.wins| ==> w.h.wins[i].id != w.h.wins[j].id)
  }

  ghost predicate Won(wins: seq<Win>, id: nat, p: nat) {
    exists i :: 0 <= i < |wins| && wins[i].id == id && wins[i].winner == p && !wins[i].via.App?
  }

  ghost predicate WonByApp(wins: seq<Win>, id: nat) {
    exists i :: 0 <= i < |wins| && wins[i].id == id && wins[i].via.App?
  }

  ghost predicate WonOnSite(wins: seq<Win>, id: nat) {
    exists i :: 0 <= i < |wins| && wins[i].id == id && !wins[i].via.App?
  }

  /** What was said about a cancel: the enclave told at most once, by the winner's way; the phone-cancel email only for `app`. */
  ghost predicate SaidOk(wins: seq<Win>, told: seq<nat>, mailed: seq<nat>) {
    && (forall i :: 0 <= i < |told| ==> WonOnSite(wins, told[i]))
    && (forall i, j :: 0 <= i < j < |told| ==> told[i] != told[j])
    && (forall i :: 0 <= i < |mailed| ==> WonByApp(wins, mailed[i]))
  }

  ghost predicate Deleted(deletes: seq<Sent>, id: nat) { exists i :: 0 <= i < |deletes| && deletes[i].id == id }

  /** The start-over on the row is the one requested, beside the recovery its request had read as not active, or none. */
  ghost predicate StartOverOk(w: World) {
    w.row.startOver.Some? ==>
      var d := w.row.startOver.value;
      && d.id in w.h.made
      && d.deletesAt == w.h.made[d.id].deletesAt
      && d.id !in w.h.cancelled
      && (d.executing <==> d.id in w.h.executed)
      && (d.queuedAt.Some? ==> Deleted(w.h.deletes, d.id))
      && (w.h.made[d.id].read.None? ==> w.row.recovery.None?)
      && (w.row.recovery.Some? ==>
            && Grew(w.h.made[d.id].read.value, w.row.recovery.value)
            && !Active(w.h.made[d.id].read, w.h.made[d.id].requestedAt))
  }

  ghost predicate MadeOk(h: History, now: int) {
    && h.executed !! h.cancelled
    && h.executed + h.cancelled <= h.made.Keys
    && (forall id :: id in h.made ==> h.made[id].requestedAt <= now)
    && (forall id :: id in h.made ==> h.made[id].deletesAt == h.made[id].requestedAt + Scaled(DAY, h.made[id].scale))
    && (forall id :: id in h.executed ==> h.made[id].deletesAt <= now)
    && (forall i :: 0 <= i < |h.deletes| ==> h.deletes[i].id in h.executed && h.made[h.deletes[i].id].deletesAt <= h.deletes[i].at <= now)
  }

  ghost predicate WorldOk(w: World) {
    RecoveryOk(w) && WinsOk(w) && SaidOk(w.h.wins, w.h.told, w.h.mailed) && StartOverOk(w) && MadeOk(w.h, w.now)
  }

  ghost predicate SnapshotOk(w: World, v: Row) { v.recovery.Some? ==> Past(w, v.recovery.value) }

  ghost predicate ReadOk(w: World, read: Option<Recovery>) { read.Some? ==> Past(w, read.value) }

  ghost predicate PurposeOk(w: World, p: nat, todo: Purpose) {
    match todo
    case ToRequest(_, _) => p !in w.h.written
    case ToStartOver(now, _) => p !in w.h.made && now <= w.now
    case ToCancel(_, via, _) => !via.App?
    case ToNotice(_, _) => true
  }

  ghost predicate ProcOk(w: World, p: nat, q: Proc) {
    match q
    case Read(todo) => PurposeOk(w, p, todo)
    case Complete(todo, v) => PurposeOk(w, p, todo) && SnapshotOk(w, v) && IsCompleted(v)
    case RequestWrite(read, now, _) => p !in w.h.written && ReadOk(w, read)
    case StartOverWrite(read, now, _) => p !in w.h.made && now <= w.now && ReadOk(w, read) && !Active(read, now)
    case TellEnclave(id) => Won(w.h.wins, id, p) && id !in w.h.told
    case NoticeMail(id) => WonByApp(w.h.wins, id)
    case TimesWrite(r, _, _) => Past(w, r) && !r.enclaveTimes
    case AttemptWrite(r, moved) => Past(w, r) && moved <= r.requestedAt + MAX_SPAN
    case SupportDone(pending) => pending.Some? ==> pending.value in w.h.cancelled
    case JobStanding(id, started) => id in w.h.made && w.h.made[id].deletesAt <= started <= w.now
    case JobExecute(id, started) => id in w.h.made && w.h.made[id].deletesAt <= started <= w.now
    case JobSend(id) => id in w.h.executed
    case JobMarkQueued(id) => Deleted(w.h.deletes, id)
    case _ => true
  }

  /** Ids are minted by their process: only processes that have begun have minted any. */
  ghost predicate MintedOk(h: History, n: nat) {
    && (forall id :: id in h.written ==> id < n)
    && (forall id :: id in h.made ==> id < n)
  }

  ghost predicate Inv(s: State) {
    && WorldOk(s.w)
    && MintedOk(s.w.h, |s.procs|)
    && forall p :: 0 <= p < |s.procs| ==> ProcOk(s.w, p, s.procs[p])
  }

  // ---- what a move changes for the others ---------------------------------------------

  ghost predicate Extends<T>(a: seq<T>, b: seq<T>) { |a| <= |b| && b[..|a|] == a }

  /** After process `p` moved: history only grew, ids it added are its own, and a recovery that stayed, grew. */
  ghost predicate Moved(w: World, w': World, p: nat) {
    && w.now <= w'.now
    && w.h.written <= w'.h.written <= w.h.written + {p}
    && w.h.made.Keys <= w'.h.made.Keys <= w.h.made.Keys + {p}
    && (forall id :: id in w.h.made ==> w'.h.made[id] == w.h.made[id])
    && w.h.executed <= w'.h.executed && w.h.cancelled <= w'.h.cancelled
    && Extends(w.h.wins, w'.h.wins) && Extends(w.h.deletes, w'.h.deletes)
    && (w'.h.told == w.h.told || (exists id :: Won(w.h.wins, id, p) && w'.h.told == w.h.told + [id]))
    && (w'.row.recovery.Some? ==>
          var r' := w'.row.recovery.value;
          r'.id !in w.h.written || (Names(w.row, r'.id) && Later(w.row.recovery.value, r')))
  }

  lemma PastStays(w: World, w': World, p: nat, r: Recovery)
    requires Moved(w, w', p) && Past(w, r)
    ensures Past(w', r)
  {
    if Names(w'.row, r.id) { GrewTwice(r, w.row.recovery.value, w'.row.recovery.value); }
  }

  lemma WonStays(w: World, w': World, p: nat, id: nat, i: nat)
    requires Moved(w, w', i)
    ensures Won(w.h.wins, id, p) ==> Won(w'.h.wins, id, p)
    ensures WonByApp(w.h.wins, id) ==> WonByApp(w'.h.wins, id)
  {
    assert forall k :: 0 <= k < |w.h.wins| ==> w'.h.wins[k] == w.h.wins[k];
  }

  lemma DeletedStays(deletes: seq<Sent>, deletes': seq<Sent>, id: nat)
    requires Extends(deletes, deletes') && Deleted(deletes, id)
    ensures Deleted(deletes', id)
  {
    var i :| 0 <= i < |deletes| && deletes[i].id == id;
    assert deletes'[i] == deletes[i];
  }

  /** Two processes cannot both have won the same recovery. */
  lemma OneWinner(w: World, id: nat, p: nat, q: nat)
    requires WinsOk(w) && Won(w.h.wins, id, p) && Won(w.h.wins, id, q)
    ensures p == q
  {
  }

  lemma OthersKeep(w: World, w': World, i: nat, p: nat, q: Proc)
    requires WinsOk(w) && Moved(w, w', i) && i != p && ProcOk(w, p, q)
    ensures ProcOk(w', p, q)
  {
    hide Past, Won, WonByApp, WinsOk, Grew, Deleted;
    match q
    case Complete(todo, v) => if v.recovery.Some? { PastStays(w, w', i, v.recovery.value); }
    case RequestWrite(read, _, _) => if read.Some? { PastStays(w, w', i, read.value); }
    case StartOverWrite(read, _, _) => if read.Some? { PastStays(w, w', i, read.value); }
    case TellEnclave(id) =>
      WonStays(w, w', p, id, i);
      if w'.h.told != w.h.told {
        var id' :| Won(w.h.wins, id', i) && w'.h.told == w.h.told + [id'];
        if id' == id { OneWinner(w, id, i, p); }
      }
    case NoticeMail(id) => WonStays(w, w', p, id, i);
    case TimesWrite(r, _, _) => PastStays(w, w', i, r);
    case AttemptWrite(r, _) => PastStays(w, w', i, r);
    case JobMarkQueued(id) => DeletedStays(w.h.deletes, w'.h.deletes, id);
    case _ =>
  }

  // ---- one step -------------------------------------------------------------------------

  ghost predicate StepOk(w: World, p: nat, step: Step) {
    WorldOk(step.w) && Moved(w, step.w, p) && ProcOk(step.w, p, step.next)
  }

  /** A recovery that stays on the row and grows keeps everything but what is said of its cancel. */
  lemma Grown(w: World, r': Recovery, p: nat)
    requires WorldOk(w) && w.row.recovery.Some? && Later(w.row.recovery.value, r') && TimesOk(r')
    requires r'.state.Cancelled? ==> r' == w.row.recovery.value
    requires !r'.state.Cancelled? ==> r'.via == None
    ensures WorldOk(SetRecovery(w, r')) && Moved(w, SetRecovery(w, r'), p)
  {
    hide TimesOk, SaidOk, MadeOk;
    var d := w.row.startOver;
    if d.Some? {
      GrewTwice(w.h.made[d.value.id].read.value, w.row.recovery.value, r');
    }
  }

  lemma Unmoved(w: World, p: nat)
    ensures Moved(w, w, p)
  {
  }

  lemma DecideOk(w: World, p: nat, todo: Purpose, v: Row)
    requires PurposeOk(w, p, todo) && SnapshotOk(w, v)
    ensures ProcOk(w, p, Decide(todo, v))
  {
    hide Past;
  }

  lemma ReadStep(w: World, p: nat, todo: Purpose, c: Call)
    requires WorldOk(w) && PurposeOk(w, p, todo)
    ensures StepOk(w, p, ActBegin(w, p, Read(todo), c))
  {
    hide WinsOk, SaidOk, MadeOk, StartOverOk;
    Unmoved(w, p);
    DecideOk(w, p, todo, w.row);
  }

  lemma CompleteStep(w: World, p: nat, todo: Purpose, v: Row, c: Call)
    requires WorldOk(w) && ProcOk(w, p, Complete(todo, v))
    ensures StepOk(w, p, ActBegin(w, p, Complete(todo, v), c))
  {
    hide WorldOk, Moved, Active;
    var r := v.recovery.value;
    var holds := Names(w.row, r.id) && w.row.recovery.value.state.Registered? && w.row.recovery.value.recovering == r.recovering;
    var step := ActBegin(w, p, Complete(todo, v), c);
    if holds && !c.Lost? {
      CompleteMoves(w, p);
      assert PurposeOk(step.w, p, todo);
      if c.Answered? {
        CompletedSnapshot(w, r);
        DecideOk(step.w, p, todo, v.(recovery := Some(AsCompleted(r))));
      }
    } else {
      Unmoved(w, p);
      if c.Answered? { DecideOk(w, p, todo, v); }
    }
  }

  lemma CompleteMoves(w: World, p: nat)
    requires WorldOk(w) && w.row.recovery.Some? && w.row.recovery.value.state.Registered?
    ensures WorldOk(SetRecovery(w, AsCompleted(w.row.recovery.value)))
    ensures Moved(w, SetRecovery(w, AsCompleted(w.row.recovery.value)), p)
  {
    Grown(w, AsCompleted(w.row.recovery.value), p);
  }

  /** The completed snapshot need not have the row's newest times, but it grew into the completed row. */
  lemma CompletedSnapshot(w: World, r: Recovery)
    requires Past(w, r) && Names(w.row, r.id) && w.row.recovery.value.state.Registered?
    ensures Past(SetRecovery(w, AsCompleted(w.row.recovery.value)), AsCompleted(r))
  {
  }

  lemma NewTimes(id: nat, now: int, scale: Scale)
    ensures TimesOk(NewRecovery(id, now, scale))
  {
    ScaledDay(scale);
  }

  lemma RequestStep(w: World, p: nat, read: Option<Recovery>, now: int, scale: Scale, c: Call)
    requires WorldOk(w) && ProcOk(w, p, RequestWrite(read, now, scale))
    ensures StepOk(w, p, ActBegin(w, p, RequestWrite(read, now, scale), c))
  {
    hide TimesOk, SaidOk, Grew;
    NewTimes(p, now, scale);
    var holds := SameRecovery(w.row, read) && w.row.startOver.None?;
    if !holds || c.Lost? { Unmoved(w, p); }
  }

  lemma StartOverStep(w: World, p: nat, read: Option<Recovery>, now: int, scale: Scale, c: Call)
    requires WorldOk(w) && ProcOk(w, p, StartOverWrite(read, now, scale))
    ensures StepOk(w, p, ActBegin(w, p, StartOverWrite(read, now, scale), c))
  {
    hide TimesOk, SaidOk, Grew, Active;
    var w' := ActBegin(w, p, StartOverWrite(read, now, scale), c).w;
    if w' == w {
      Unmoved(w, p);
    } else {
      assert w'.row.recovery == w.row.recovery;
      assert Moved(w, w', p) by { SameRecoveryMoved(w, w', p); }
    }
  }

  /** A move that leaves the recovery alone. */
  lemma SameRecoveryMoved(w: World, w': World, p: nat)
    requires w'.row.recovery == w.row.recovery && w.now <= w'.now
    requires w'.h.written == w.h.written && w'.h.wins == w.h.wins && w'.h.told == w.h.told
    requires Extends(w.h.deletes, w'.h.deletes)
    requires w.h.made.Keys <= w'.h.made.Keys <= w.h.made.Keys + {p}
    requires forall id :: id in w.h.made ==> w'.h.made[id] == w.h.made[id]
    requires w.h.executed <= w'.h.executed && w.h.cancelled <= w'.h.cancelled
    ensures Moved(w, w', p)
  {
  }

  lemma BeginStep(w: World, p: nat, q: Proc, c: Call)
    requires WorldOk(w) && ProcOk(w, p, q) && Begins(q)
    ensures StepOk(w, p, ActBegin(w, p, q, c))
  {
    hide WorldOk, StepOk, ActBegin, ProcOk;
    match q
    case Read(todo) => PointIs(w, p, todo); ReadStep(w, p, todo, c);
    case Complete(todo, v) => CompleteStep(w, p, todo, v, c);
    case RequestWrite(read, now, scale) => RequestStep(w, p, read, now, scale, c);
    case StartOverWrite(read, now, scale) => StartOverStep(w, p, read, now, scale, c);
  }

  lemma PointIs(w: World, p: nat, todo: Purpose)
    requires ProcOk(w, p, Read(todo))
    ensures PurposeOk(w, p, todo)
  {
  }

  // ---- the cancels -----------------------------------------------------------------------

  lemma CancelWriteStep(w: World, p: nat, id: nat, via: Via, now: int, c: Call)
    requires WorldOk(w)
    ensures StepOk(w, p, ActCancel(w, p, CancelWrite(id, via, now), c))
  {
    hide TimesOk;
    var step := ActCancel(w, p, CancelWrite(id, via, now), c);
    var w' := step.w;
    if w' == w {
      Unmoved(w, p);
    } else {
      var r, r' := w.row.recovery.value, w'.row.recovery.value;
      var k := |w.h.wins|;
      assert w'.h.wins[k] == Win(id, via, p) && w'.h.wins[..k] == w.h.wins;
      assert forall i :: 0 <= i < k ==> w'.h.wins[i] == w.h.wins[i];
      assert TimesOk(r') by { SameTimes(r, r'); }
      NotToldBefore(w, id);
      SaidStays(w.h.wins, w'.h.wins, w.h.told, w.h.mailed);
      if w.row.startOver.Some? { GrewTwice(w.h.made[w.row.startOver.value.id].read.value, r, r'); }
    }
  }

  lemma SameTimes(r: Recovery, r': Recovery)
    requires TimesOk(r) && r' == r.(state := r'.state, via := r'.via) && !r'.state.Pending?
    ensures TimesOk(r')
  {
  }

  /** A recovery that can still be cancelled has not been, so nothing was said of it. */
  lemma NotToldBefore(w: World, id: nat)
    requires WinsOk(w) && SaidOk(w.h.wins, w.h.told, w.h.mailed) && Names(w.row, id) && !w.row.recovery.value.state.Cancelled?
    ensures id !in w.h.told
  {
    forall i | 0 <= i < |w.h.told| ensures w.h.told[i] != id { assert WonOnSite(w.h.wins, w.h.told[i]); }
  }

  lemma SaidStays(wins: seq<Win>, wins': seq<Win>, told: seq<nat>, mailed: seq<nat>)
    requires SaidOk(wins, told, mailed) && Extends(wins, wins')
    ensures SaidOk(wins', told, mailed)
  {
    assert forall i :: 0 <= i < |wins| ==> wins'[i] == wins[i];
    forall i | 0 <= i < |told| ensures WonOnSite(wins', told[i]) { assert WonOnSite(wins, told[i]); }
    forall i | 0 <= i < |mailed| ensures WonByApp(wins', mailed[i]) { assert WonByApp(wins, mailed[i]); }
  }

  /** Only the history of what was said changes. */
  lemma OnlySaid(w: World, w': World)
    requires WorldOk(w) && SaidOk(w'.h.wins, w'.h.told, w'.h.mailed)
    requires w' == w.(h := w.h.(told := w'.h.told, mailed := w'.h.mailed))
    ensures WorldOk(w')
  {
    hide TimesOk, Grew, SaidOk;
  }

  lemma TellStep(w: World, p: nat, id: nat, c: Call)
    requires WorldOk(w) && ProcOk(w, p, TellEnclave(id))
    ensures StepOk(w, p, ActCancel(w, p, TellEnclave(id), c))
  {
    hide WorldOk, Past;
    var w' := ActCancel(w, p, TellEnclave(id), c).w;
    if w' == w {
      Unmoved(w, p);
    } else {
      assert SaidOk(w.h.wins, w.h.told, w.h.mailed) by { SaidIn(w); }
      assert WonOnSite(w'.h.wins, id);
      forall i | 0 <= i < |w.h.told| ensures WonOnSite(w'.h.wins, w.h.told[i]) { assert WonOnSite(w.h.wins, w.h.told[i]); }
      forall i | 0 <= i < |w.h.mailed| ensures WonByApp(w'.h.wins, w.h.mailed[i]) { assert WonByApp(w.h.wins, w.h.mailed[i]); }
      OnlySaid(w, w');
    }
  }

  lemma SaidIn(w: World)
    requires WorldOk(w)
    ensures SaidOk(w.h.wins, w.h.told, w.h.mailed)
  {
  }

  lemma MailStep(w: World, p: nat, id: nat, c: Call)
    requires WorldOk(w) && ProcOk(w, p, NoticeMail(id))
    ensures StepOk(w, p, ActCancel(w, p, NoticeMail(id), c))
  {
    hide WorldOk, Past;
    var w' := ActCancel(w, p, NoticeMail(id), c).w;
    if w' == w {
      Unmoved(w, p);
    } else {
      assert SaidOk(w.h.wins, w.h.told, w.h.mailed) by { SaidIn(w); }
      assert WonByApp(w'.h.wins, id);
      forall i | 0 <= i < |w.h.told| ensures WonOnSite(w'.h.wins, w.h.told[i]) { assert WonOnSite(w.h.wins, w.h.told[i]); }
      forall i | 0 <= i < |w.h.mailed| ensures WonByApp(w'.h.wins, w.h.mailed[i]) { assert WonByApp(w.h.wins, w.h.mailed[i]); }
      OnlySaid(w, w');
    }
  }

  lemma NoticeRereadStep(w: World, p: nat, id: nat, c: Call)
    requires WorldOk(w)
    ensures StepOk(w, p, ActCancel(w, p, NoticeReread(id), c))
  {
    hide WinsOk, SaidOk, StartOverOk, MadeOk, TimesOk;
    Unmoved(w, p);
  }

  lemma CancelStep(w: World, p: nat, q: Proc, c: Call)
    requires WorldOk(w) && ProcOk(w, p, q) && Cancels(q)
    ensures StepOk(w, p, ActCancel(w, p, q, c))
  {
    hide WorldOk, StepOk, ActCancel, ProcOk;
    match q
    case CancelWrite(id, via, now) => CancelWriteStep(w, p, id, via, now, c);
    case TellEnclave(id) => TellStep(w, p, id, c);
    case NoticeReread(id) => NoticeRereadStep(w, p, id, c);
    case NoticeMail(id) => MailStep(w, p, id, c);
  }

  // ---- the slots' answers ---------------------------------------------------------------

  lemma SlotRead(w: World, p: nat, q: Proc, c: Call)
    requires WorldOk(w) && (q.RegisterRead? || q.TimesRead? || q.AttemptRead?)
    ensures StepOk(w, p, ActSlots(w, q, c))
  {
    hide WinsOk, SaidOk, StartOverOk, MadeOk;
    Unmoved(w, p);
  }

  lemma SlotWrite(w: World, p: nat, r': Recovery, next: Proc)
    requires WorldOk(w) && w.row.recovery.Some? && Later(w.row.recovery.value, r') && TimesOk(r')
    requires !r'.state.Cancelled? && r'.via == None && next.Finished?
    ensures StepOk(w, p, Step(SetRecovery(w, r'), next))
  {
    hide WorldOk, Moved, TimesOk;
    Grown(w, r', p);
  }

  /** The enclave's times keep the clock invariant and only move later; those computed from an older read are as good. */
  lemma TimesMoveLater(read: Recovery, r: Recovery, notBefore: int, expires: int)
    requires TimesOk(r) && Grew(read, r) && !r.enclaveTimes && r.state.Pending?
    ensures var times := WithEnclaveTimes(read, notBefore, expires);
            var r' := r.(availableAt := times.availableAt, expiresAt := times.expiresAt, enclaveTimes := true);
            TimesOk(r') && Later(r, r')
  {
    ScaledDay(r.scale);
  }

  lemma RowRecoveryOk(w: World)
    requires WorldOk(w) && w.row.recovery.Some?
    ensures TimesOk(w.row.recovery.value)
    ensures !w.row.recovery.value.state.Cancelled? ==> w.row.recovery.value.via == None
  {
  }

  lemma SlotStep(w: World, p: nat, q: Proc, c: Call)
    requires WorldOk(w) && ProcOk(w, p, q) && OnSlots(q)
    ensures StepOk(w, p, ActSlots(w, q, c))
  {
    if q.RegisterRead? || q.TimesRead? || q.AttemptRead? {
      SlotRead(w, p, q, c);
    } else {
      hide WorldOk, StepOk, Moved, TimesOk, Scaled, Min, Max;
      var step := ActSlots(w, q, c);
      if step.w == w {
        Unmoved(w, p);
        assert StepOk(w, p, step) by { StandsStill(w, p, step); }
      } else {
        RowRecoveryOk(w);
        var r := w.row.recovery.value;
        match q
        case RegisterWrite(id, recovering, _) => Registers(r, recovering); SlotWrite(w, p, r.(state := Registered, recovering := recovering), Finished);
        case RefuseWrite(id) => Refuses(r); SlotWrite(w, p, r.(state := Unavailable), Finished);
        case TimesWrite(read, notBefore, expires) =>
          TimesMoveLater(read, r, notBefore, expires);
          SlotWrite(w, p, step.w.row.recovery.value, Finished);
        case AttemptWrite(read, moved) => MovesExpiry(r, moved); SlotWrite(w, p, r.(expiresAt := moved), Finished);
      }
    }
  }

  lemma StandsStill(w: World, p: nat, step: Step)
    requires WorldOk(w) && step == Step(w, Finished)
    ensures StepOk(w, p, step)
  {
    hide WorldOk;
    Unmoved(w, p);
  }

  lemma Registers(r: Recovery, recovering: Option<nat>)
    requires TimesOk(r) && r.state.Pending?
    ensures TimesOk(r.(state := Registered, recovering := recovering)) && Later(r, r.(state := Registered, recovering := recovering))
  {
  }

  lemma Refuses(r: Recovery)
    requires TimesOk(r) && r.state.Pending?
    ensures TimesOk(r.(state := Unavailable)) && Later(r, r.(state := Unavailable))
  {
  }

  lemma MovesExpiry(r: Recovery, moved: int)
    requires TimesOk(r) && r.state.Registered? && r.expiresAt < moved <= r.requestedAt + MAX_SPAN
    ensures TimesOk(r.(expiresAt := moved)) && Later(r, r.(expiresAt := moved))
  {
  }

  // ---- the start-over ----------------------------------------------------------------------

  lemma UndoOk(w: World, id: nat, p: nat)
    requires WorldOk(w) && Waits(w.row, id)
    ensures WorldOk(Undo(w, id)) && Moved(w, Undo(w, id), p)
  {
    hide TimesOk, SaidOk, Grew;
    SameRecoveryMoved(w, Undo(w, id), p);
  }

  lemma UndoStep(w: World, p: nat, q: Proc, c: Call)
    requires WorldOk(w) && (q.UndoRead? || q.UndoWrite? || q.SupportRead? || q.SupportWrite? || q.SupportDone?)
    requires ProcOk(w, p, q)
    ensures StepOk(w, p, ActStartOver(w, q, c))
  {
    hide WorldOk, Moved;
    Unmoved(w, p);
    match q
    case UndoWrite(id) => if Waits(w.row, id) { UndoOk(w, id, p); }
    case SupportWrite(id) => if Waits(w.row, id) { UndoOk(w, id, p); }
    case _ =>
  }

  lemma JobWrites(w: World, p: nat, w': World, next: Proc)
    requires WorldOk(w)
    requires w'.row.recovery == w.row.recovery && w'.now == w.now
    requires w'.h == w.h.(executed := w'.h.executed, deletes := w'.h.deletes) && w.h.executed <= w'.h.executed
    requires Extends(w.h.deletes, w'.h.deletes)
    requires StartOverOk(w') && MadeOk(w'.h, w'.now) && ProcOk(w', p, next)
    ensures StepOk(w, p, Step(w', next))
  {
    hide TimesOk, SaidOk, Grew, MadeOk, StartOverOk, ProcOk, WinsOk, RecoveryOk;
    SameRecoveryMoved(w, w', p);
    SameRecoveryOk(w, w');
  }

  lemma JobExecuteStep(w: World, p: nat, id: nat, started: int, c: Call)
    requires WorldOk(w) && ProcOk(w, p, JobExecute(id, started))
    ensures StepOk(w, p, ActStartOver(w, JobExecute(id, started), c))
  {
    hide TimesOk, SaidOk, Grew, WinsOk, RecoveryOk, Active, StepOk;
    var step := ActStartOver(w, JobExecute(id, started), c);
    JobWrites(w, p, step.w, step.next);
  }

  lemma JobSendStep(w: World, p: nat, id: nat, c: Call)
    requires WorldOk(w) && ProcOk(w, p, JobSend(id))
    ensures StepOk(w, p, ActStartOver(w, JobSend(id), c))
  {
    hide TimesOk, SaidOk, Grew, WinsOk, RecoveryOk, Active, StepOk;
    var step := ActStartOver(w, JobSend(id), c);
    var n := |w.h.deletes|;
    if !c.Lost? {
      assert step.w.h.deletes[n].id == id && step.w.h.deletes[..n] == w.h.deletes;
      if w.row.startOver.Some? && w.row.startOver.value.queuedAt.Some? { DeletedStays(w.h.deletes, step.w.h.deletes, w.row.startOver.value.id); }
    }
    JobWrites(w, p, step.w, step.next);
  }

  lemma JobStep(w: World, p: nat, q: Proc, c: Call)
    requires WorldOk(w) && ProcOk(w, p, q)
    requires q.JobStanding? || q.JobExecute? || q.JobSend? || q.JobMarkQueued?
    ensures StepOk(w, p, ActStartOver(w, q, c))
  {
    hide TimesOk, SaidOk, Grew, WinsOk, RecoveryOk, Active, StepOk;
    if q.JobExecute? {
      JobExecuteStep(w, p, q.id, q.started, c);
    } else if q.JobSend? {
      JobSendStep(w, p, q.id, c);
    } else {
      var step := ActStartOver(w, q, c);
      JobWrites(w, p, step.w, step.next);
    }
  }

  lemma SameRecoveryOk(w: World, w': World)
    requires WinsOk(w) && RecoveryOk(w)
    requires w'.row.recovery == w.row.recovery && w'.h.wins == w.h.wins && w'.h.written == w.h.written
    ensures WinsOk(w') && RecoveryOk(w')
  {
  }

  // ---- every event ------------------------------------------------------------------------

  lemma ActStep(w: World, p: nat, q: Proc, c: Call)
    requires WorldOk(w) && ProcOk(w, p, q)
    ensures StepOk(w, p, Act(w, p, q, c))
  {
    hide WorldOk, StepOk, ProcOk, ActBegin, ActCancel, ActSlots, ActStartOver;
    if q.Finished? {
      StandsStill(w, p, Step(w, Finished));
    } else if Begins(q) {
      BeginStep(w, p, q, c);
    } else if Cancels(q) {
      CancelStep(w, p, q, c);
    } else if OnSlots(q) {
      SlotStep(w, p, q, c);
    } else if q.UndoRead? || q.UndoWrite? || q.SupportRead? || q.SupportWrite? || q.SupportDone? {
      UndoStep(w, p, q, c);
    } else {
      JobStep(w, p, q, c);
    }
  }

  /** Time, the host's key and the account's standing: what the invariant does not mind. */
  lemma Environment(w: World, w': World, p: nat)
    requires WorldOk(w) && w'.h == w.h && w.now <= w'.now
    requires w'.row.recovery == w.row.recovery && w'.row.startOver == w.row.startOver
    ensures WorldOk(w') && Moved(w, w', p)
  {
    hide TimesOk, SaidOk;
  }

  /** Process `n` is the next to be minted; it has not moved yet. */
  lemma ProcStays(w: World, w': World, n: nat, p: nat, q: Proc)
    requires WorldOk(w) && Moved(w, w', n) && p < n && ProcOk(w, p, q)
    ensures ProcOk(w', p, q)
  {
    hide Moved, ProcOk, RecoveryOk, SaidOk, StartOverOk, MadeOk;
    OthersKeep(w, w', n, p, q);
  }

  lemma StartedOk(w: World, n: nat, q: Proc)
    requires MintedOk(w.h, n) && Starts(w, q)
    ensures ProcOk(w, n, q)
  {
  }

  lemma FinishedOk(w: World, p: nat)
    ensures ProcOk(w, p, Finished)
  {
  }

  lemma MintedStays(w: World, w': World, n: nat, p: nat)
    requires MintedOk(w.h, n) && Moved(w, w', p) && p < n
    ensures MintedOk(w'.h, n)
  {
  }

  /** Every event keeps the invariant. */
  lemma InvKept(s: State, e: Event)
    requires Inv(s) && CanStep(s, e)
    ensures Inv(Next(s, e))
  {
    hide WorldOk, ProcOk, Moved, Act, Starts;
    var s' := Next(s, e);
    var n := |s.procs|;
    match e
    case Start(q) =>
      StartedOk(s.w, n, q);
      assert forall p :: 0 <= p < n ==> s'.procs[p] == s.procs[p];
    case Makes(i, c) =>
      ActStep(s.w, i, s.procs[i], c);
      MintedStays(s.w, s'.w, n, i);
      forall p | 0 <= p < n && p != i ensures ProcOk(s'.w, p, s'.procs[p]) {
        WinsIn(s.w);
        OthersKeep(s.w, s'.w, i, p, s.procs[p]);
      }
    case Stops(i) => FinishedOk(s.w, i);
    case _ =>
      Environment(s.w, s'.w, n);
      forall p | 0 <= p < n ensures ProcOk(s'.w, p, s.procs[p]) { ProcStays(s.w, s'.w, n, p, s.procs[p]); }
  }

  lemma WinsIn(w: World)
    requires WorldOk(w)
    ensures WinsOk(w)
  {
  }
}
