/**
 * The vault handlers as the code writes them, over one stored row whose
 * attributes they update in place. Each does exactly what its process of the
 * state machine does, whatever calls fail.
 */
module VaultStore {
  import opened Calls
  import opened Wrappers
  import opened VaultRow

  /** The calls a process can still make. */
  ghost function CallsLeft(q: Proc): nat {
    match q
    case Finished => 0
    case Read(_) => 6
    case Complete(_, _) => 5
    case RequestWrite(_, _, _) => 1
    case StartOverWrite(_, _, _) => 1
    case CancelWrite(_, _, _) => 3
    case TellEnclave(_) => 1
    case NoticeReread(_) => 2
    case NoticeMail(_) => 1
    case RegisterRead(_, _, _) => 2
    case RegisterWrite(_, _, _) => 1
    case RefuseWrite(_) => 1
    case TimesRead(_, _) => 2
    case TimesWrite(_, _, _) => 1
    case AttemptRead(_, _) => 2
    case AttemptWrite(_, _) => 1
    case UndoRead(_) => 2
    case UndoWrite(_) => 1
    case SupportRead => 2
    case SupportWrite(_) => 1
    case SupportDone(_) => 0
    case JobStanding(_, _) => 4
    case JobExecute(_, _) => 3
    case JobSend(_) => 2
    case JobMarkQueued(_) => 1
  }

  lemma EveryProcessComesToRest(w: World, p: nat, q: Proc, c: Call)
    ensures CallsLeft(q) > 0 ==> CallsLeft(Act(w, p, q, c).next) < CallsLeft(q)
  {
    hide Active, IsCompleted, Names, WithEnclaveTimes, NewRecovery;
  }

  /** A process on its own, from point `q` to its end, with the fates of its calls (answered once they run out). */
  ghost function RunAlone(w: World, p: nat, q: Proc, fates: seq<Call>): World
    decreases CallsLeft(q)
  {
    if CallsLeft(q) == 0 then w else
      var c := if fates == [] then Answered else fates[0];
      var step := Act(w, p, q, c);
      EveryProcessComesToRest(w, p, q, c);
      RunAlone(step.w, p, step.next, if fates == [] then [] else fates[1..])
  }

  class Vault {
    var recovery: Option<Recovery>
    var startOver: Option<StartOver>
    var appKey: Option<nat>
    var redeemed: Option<Redeemed>
    var member: bool
    var now: int
    var fates: seq<Call>
    ghost var h: History

    ghost function W(): World
      reads this
    {
      World(now, member, Item(), h)
    }

    function Item(): Row
      reads this
    {
      Row(recovery, startOver, appKey, redeemed)
    }

    ghost function Fate(): Call
      reads this
    {
      if fates == [] then Answered else fates[0]
    }

    ghost function Rest(): seq<Call>
      reads this
    {
      if fates == [] then [] else fates[1..]
    }

    method NextFate() returns (c: Call)
      modifies `fates
      ensures c == old(Fate()) && fates == old(Rest())
      ensures AllAnswered(old(fates)) ==> c.Answered? && AllAnswered(fates)
    {
      if fates == [] {
        c := Answered;
      } else {
        c := fates[0];
        fates := fates[1..];
      }
    }

    // ---- what the handlers look for on the row ---------------------------------------

    /** The vault has made the registered app's key its own: the recovery is over. */
    ghost predicate Adopted()
      reads this
    {
      recovery.Some? && recovery.value.state == Registered && recovery.value.recovering.Some? && recovery.value.recovering == appKey
    }

    /** A recovery that runs at a time: pending or registered, not expired, not adopted. */
    ghost predicate Runs(at: int)
      reads this
    {
      && recovery.Some? && (recovery.value.state == Pending || recovery.value.state == Registered)
      && at < recovery.value.expiresAt && !Adopted()
    }

    ghost predicate Has(id: nat, state: RecoveryState)
      reads this
    {
      recovery.Some? && recovery.value.id == id && recovery.value.state == state
    }

    ghost predicate PendingStartOver(id: nat)
      reads this
    {
      startOver.Some? && startOver.value.id == id && !startOver.value.executing
    }

    /** A day, or the staging hour. */
    static function DayAt(scale: Scale): int { if scale == 1 then 86_400 else 3_600 }

    // ---- the handlers ------------------------------------------------------------------

    /** The completion check and its write; `ok` unless the write failed without an answer. */
    method CompleteRecovery(todo: Purpose, ghost p: nat) returns (ok: bool, v: Row)
      modifies `recovery, `fates
      ensures RunAlone(old(W()), p, Read(todo), old(fates)) == if ok then RunAlone(W(), p, Decide(todo, v), fates) else W()
      ensures ok ==> v == Item()
      ensures !old(Adopted()) ==> fates == old(Rest()) && recovery == old(recovery)
      ensures old(Adopted()) && ok ==> v.recovery.Some? && v.recovery.value.state == Completed
      ensures AllAnswered(old(fates)) ==> ok && AllAnswered(fates)
      ensures AllAnswered(old(fates)) ==>
                recovery == if old(Adopted()) then Some(old(recovery).value.(state := Completed, recovering := None)) else old(recovery)
    {
      hide Decide, Active;
      ghost var end := RunAlone(W(), p, Read(todo), fates);
      v := Item();
      var c := NextFate();
      ok := c.Answered?;
      if !ok { return; }
      if !IsCompleted(v) { return; }
      assert RunAlone(W(), p, Complete(todo, v), fates) == end;
      c := NextFate();
      if !c.Lost? { recovery := Some(AsCompleted(recovery.value)); }
      ok := c.Answered?;
      if !ok {
        assert RunAlone(W(), p, Finished, fates) == end;
        return;
      }
      v := v.(recovery := Some(AsCompleted(v.recovery.value)));
      assert RunAlone(W(), p, Decide(todo, v), fates) == end;
    }

    /** The cancel write of every cancel. `None`: no answer. */
    method CancelOf(id: nat, via: Via, at: int, ghost p: nat) returns (won: Option<bool>)
      modifies `recovery, `fates, `h
      ensures fates == old(Rest())
      ensures AllAnswered(old(fates)) ==> old(Fate()).Answered? && AllAnswered(fates)
      ensures W() == ActCancel(old(W()), p, CancelWrite(id, via, at), old(Fate())).w
      ensures won == if old(Fate()).Answered? then Some(Names(old(Item()), id) && !Ended(old(recovery).value.state) && old(recovery).value.expiresAt > at) else None
    {
      var holds := recovery.Some? && recovery.value.id == id
        && (recovery.value.state.Pending? || recovery.value.state.Registered?) && recovery.value.expiresAt > at;
      var c := NextFate();
      if holds && !c.Lost? {
        recovery := Some(recovery.value.(state := Cancelled, via := Some(via)));
        h := h.(wins := h.wins + [Win(id, via, p)]);
      }
      won := if c.Answered? then Some(holds) else None;
    }

    /** The winner's `recovery_cancel` to the enclave. */
    method QueueCancel(id: nat, ghost p: nat)
      modifies `fates, `h
      ensures W() == RunAlone(old(W()), p, TellEnclave(id), old(fates))
      ensures h == old(h).(told := old(h.told) + if old(Fate()).Lost? then [] else [id])
    {
      hide WithEnclaveTimes, NewRecovery, Scaled, Active, ActSlots, ActStartOver, ActBegin;
      ghost var end := RunAlone(W(), p, TellEnclave(id), fates);
      var c := NextFate();
      if !c.Lost? { h := h.(told := h.told + [id]); }
      assert RunAlone(W(), p, Finished, fates) == end;
    }

    /** A cancel by session or email link: complete, mark, tell the enclave. */
    method CancelRecovery(id: nat, via: Via, at: int, ghost p: nat) returns (cancelled: bool)
      requires !via.App?
      modifies `recovery, `fates, `h
      ensures W() == RunAlone(old(W()), p, Read(ToCancel(id, via, at)), old(fates))
      ensures cancelled ==> recovery.Some? && recovery.value.id == id && recovery.value.state.Cancelled? && recovery.value.via == Some(via)
      ensures cancelled ==> h.told == old(h.told) + if |old(fates)| > 2 && old(fates)[2].Lost? then [] else [id]
      ensures AllAnswered(old(fates)) ==> (cancelled <==> old(Runs(at) && recovery.value.id == id))
      ensures AllAnswered(old(fates)) && cancelled ==> recovery == Some(old(recovery).value.(state := Cancelled, via := Some(via)))
      ensures AllAnswered(old(fates)) && !cancelled ==> h == old(h)
    {
      hide WithEnclaveTimes, NewRecovery, Scaled, ActSlots, ActStartOver;
      ghost var end := RunAlone(W(), p, Read(ToCancel(id, via, at)), fates);
      var ok, v := CompleteRecovery(ToCancel(id, via, at), p);
      cancelled := false;
      if !ok || !Names(v, id) || !Active(v.recovery, at) { return; }
      assert RunAlone(W(), p, CancelWrite(id, via, at), fates) == end;
      var won := CancelOf(id, via, at, p);
      if won != Some(true) {
        assert RunAlone(W(), p, Finished, fates) == end;
        return;
      }
      cancelled := true;
      assert RunAlone(W(), p, TellEnclave(id), fates) == end;
      QueueCancel(id, p);
    }

    /** The email of a phone's cancel. */
    method MailCancelled(id: nat, ghost p: nat) returns (mailed: bool)
      modifies `fates, `h
      ensures W() == RunAlone(old(W()), p, NoticeMail(id), old(fates))
      ensures h == old(h).(mailed := h.mailed) && (mailed ==> h.mailed == old(h.mailed) + [id])
      ensures AllAnswered(old(fates)) ==> mailed
    {
      hide WithEnclaveTimes, NewRecovery, Scaled, Active, ActSlots, ActStartOver, ActBegin;
      ghost var end := RunAlone(W(), p, NoticeMail(id), fates);
      var c := NextFate();
      if !c.Lost? { h := h.(mailed := h.mailed + [id]); }
      assert RunAlone(W(), p, Finished, fates) == end;
      mailed := c.Answered?;
    }

    /** After a cancel by `app` that did not win: the email if an earlier one had. */
    method RereadAndMail(id: nat, ghost p: nat) returns (mailed: bool)
      modifies `fates, `h
      ensures W() == RunAlone(old(W()), p, NoticeReread(id), old(fates))
      ensures h == old(h).(mailed := h.mailed) && (mailed ==> h.mailed == old(h.mailed) + [id])
      ensures mailed ==> Has(id, Cancelled) && recovery.value.via == Some(App)
      ensures AllAnswered(old(fates)) ==> (mailed <==> Has(id, Cancelled) && recovery.value.via == Some(App))
      ensures AllAnswered(old(fates)) && !mailed ==> h == old(h)
    {
      hide WithEnclaveTimes, NewRecovery, Scaled, Active, ActSlots, ActStartOver, ActBegin;
      ghost var end := RunAlone(W(), p, NoticeReread(id), fates);
      mailed := false;
      var c := NextFate();
      if !c.Answered? || !Names(Item(), id) || !recovery.value.state.Cancelled? || recovery.value.via != Some(App) {
        assert RunAlone(W(), p, Finished, fates) == end;
        return;
      }
      assert RunAlone(W(), p, NoticeMail(id), fates) == end;
      mailed := MailCancelled(id, p);
    }

    /** The work of a cancel notice from the phone: complete, cancel by `app`, and the email to its winner or a taker-up. */
    method NoticeWork(id: nat, at: int, ghost p: nat) returns (mailed: bool)
      modifies `recovery, `fates, `h
      ensures W() == RunAlone(old(W()), p, Read(ToNotice(id, at)), old(fates))
      ensures mailed ==> recovery.Some? && recovery.value.id == id && recovery.value.state.Cancelled? && recovery.value.via == Some(App)
      ensures mailed ==> h.mailed == old(h.mailed) + [id]
      ensures AllAnswered(old(fates)) ==>
                (mailed <==> old((Runs(at) && recovery.value.id == id) || (Has(id, Cancelled) && recovery.value.via == Some(App))))
      ensures AllAnswered(old(fates)) && !mailed ==> h == old(h)
    {
      hide WithEnclaveTimes, NewRecovery, Scaled, Active, ActSlots, ActStartOver, ActBegin;
      ghost var end := RunAlone(W(), p, Read(ToNotice(id, at)), fates);
      mailed := false;
      var ok, v := CompleteRecovery(ToNotice(id, at), p);
      if !ok { return; }
      if Names(v, id) {
        assert RunAlone(W(), p, CancelWrite(id, App, at), fates) == end;
        var won := CancelOf(id, App, at, p);
        if won.None? {
          assert RunAlone(W(), p, Finished, fates) == end;
          return;
        }
        if won.value {
          assert RunAlone(W(), p, NoticeMail(id), fates) == end;
          mailed := MailCancelled(id, p);
          return;
        }
      }
      assert RunAlone(W(), p, NoticeReread(id), fates) == end;
      mailed := RereadAndMail(id, p);
    }

    /** A recovery request of the process that minted the id `p`. */
    method RequestRecovery(at: int, scale: Scale, p: nat) returns (done: bool)
      modifies `recovery, `fates, `h
      ensures W() == RunAlone(old(W()), p, Read(ToRequest(at, scale)), old(fates))
      ensures done ==> recovery == Some(NewRecovery(p, at, scale)) && startOver.None?
      ensures done ==> recovery == Some(Recovery(p, Pending, at, at + DayAt(scale), at + 2 * DayAt(scale), scale, false, None, None))
      ensures AllAnswered(old(fates)) ==> (done <==> old(!Runs(at) && startOver.None?))
    {
      ghost var end := RunAlone(W(), p, Read(ToRequest(at, scale)), fates);
      done := false;
      var ok, v := CompleteRecovery(ToRequest(at, scale), p);
      if !ok || Active(v.recovery, at) || v.startOver.Some? { return; }
      assert RunAlone(W(), p, RequestWrite(v.recovery, at, scale), fates) == end;
      var holds := SameRecovery(Item(), v.recovery) && startOver.None?;
      var c := NextFate();
      if holds && !c.Lost? {
        recovery := Some(NewRecovery(p, at, scale));
        h := h.(written := h.written + {p});
      }
      done := holds && c.Answered?;
    }

    /** "Delete my vault and start over". */
    method RequestStartOver(at: int, scale: Scale, p: nat) returns (done: bool)
      modifies `recovery, `startOver, `fates, `h
      ensures W() == RunAlone(old(W()), p, Read(ToStartOver(at, scale)), old(fates))
      ensures done ==> startOver == Some(StartOver(p, false, at + Scaled(DAY, scale), None)) && !Active(recovery, at)
      ensures done ==> startOver.value.deletesAt == at + DayAt(scale)
      ensures AllAnswered(old(fates)) ==> (done <==> old(!Runs(at) && startOver.None?))
    {
      ghost var end := RunAlone(W(), p, Read(ToStartOver(at, scale)), fates);
      done := false;
      var ok, v := CompleteRecovery(ToStartOver(at, scale), p);
      if !ok || Active(v.recovery, at) || v.startOver.Some? { return; }
      assert RunAlone(W(), p, StartOverWrite(v.recovery, at, scale), fates) == end;
      var holds := SameRecovery(Item(), v.recovery) && startOver.None?;
      var c := NextFate();
      if holds && !c.Lost? {
        startOver := Some(StartOver(p, false, at + Scaled(DAY, scale), None));
        h := h.(made := h.made[p := Made(at, at + Scaled(DAY, scale), scale, v.recovery)]);
      }
      done := holds && c.Answered?;
    }

    /** The member's cancel of a pending start-over. */
    method CancelDeletion(id: nat, ghost p: nat) returns (cancelled: bool)
      modifies `startOver, `fates, `h
      ensures W() == RunAlone(old(W()), p, UndoRead(id), old(fates))
      ensures cancelled ==> startOver.None? && Waits(old(Item()), id)
      ensures AllAnswered(old(fates)) ==> (cancelled <==> old(PendingStartOver(id)))
      ensures AllAnswered(old(fates)) ==> startOver == if cancelled then None else old(startOver)
    {
      ghost var end := RunAlone(W(), p, UndoRead(id), fates);
      cancelled := false;
      var c := NextFate();
      if !c.Answered? || !Waits(Item(), id) { return; }
      assert RunAlone(W(), p, UndoWrite(id), fates) == end;
      c := NextFate();
      if !c.Lost? {
        startOver := None;
        h := h.(cancelled := h.cancelled + {id});
      }
      assert RunAlone(W(), p, Finished, fates) == end;
      cancelled := c.Answered?;
    }

    /** The `delete` of a start-over taken up (also the retry of one never queued), and the record of it. */
    method SendDelete(id: nat, ghost p: nat) returns (sent: bool)
      modifies `startOver, `fates, `h
      ensures W() == RunAlone(old(W()), p, JobSend(id), old(fates))
      ensures startOver.Some? == old(startOver).Some?
      ensures startOver.Some? ==> startOver.value.(queuedAt := None) == old(startOver).value.(queuedAt := None)
      ensures h.deletes == old(h.deletes) + if old(Fate()).Lost? then [] else [Sent(id, now)]
      ensures sent == old(Fate()).Answered? && (!sent ==> startOver == old(startOver))
      ensures sent ==> h.deletes == old(h.deletes) + [Sent(id, now)]
      ensures AllAnswered(old(fates)) ==> sent && (startOver.Some? && startOver.value.id == id ==> startOver.value.queuedAt == Some(now))
    {
      hide WithEnclaveTimes, NewRecovery, Scaled, ActBegin, ActCancel, ActSlots, Active;
      ghost var end := RunAlone(W(), p, JobSend(id), fates);
      var c := NextFate();
      if !c.Lost? { h := h.(deletes := h.deletes + [Sent(id, now)]); }
      sent := c.Answered?;
      if !sent {
        assert RunAlone(W(), p, Finished, fates) == end;
        return;
      }
      assert RunAlone(W(), p, JobMarkQueued(id), fates) == end;
      var holds := startOver.Some? && startOver.value.id == id;
      c := NextFate();
      if holds && !c.Lost? { startOver := Some(startOver.value.(queuedAt := Some(now))); }
      assert RunAlone(W(), p, Finished, fates) == end;
    }

    /** The job on one start-over it found due: the account's standing, the conditional move, the `delete`. */
    method ExecuteStartOver(id: nat, started: int, ghost p: nat) returns (sent: bool)
      modifies `startOver, `fates, `h
      ensures W() == RunAlone(old(W()), p, JobStanding(id, started), old(fates))
      ensures sent ==> member && Waits(old(Item()), id) && startOver.Some? && startOver.value.id == id && startOver.value.executing
      ensures !member ==> startOver == old(startOver) && h == old(h)
      ensures sent ==> h.deletes == old(h.deletes) + [Sent(id, now)]
      ensures AllAnswered(old(fates)) ==> (sent <==> old(member && PendingStartOver(id)))
      ensures AllAnswered(old(fates)) && sent ==> startOver == Some(old(startOver).value.(executing := true, queuedAt := Some(now)))
      ensures OnlyFails(old(fates), 2) && old(member && PendingStartOver(id)) ==>
                !sent && startOver == Some(old(startOver).value.(executing := true))
      ensures AllAnswered(old(fates)) && !sent ==> startOver == old(startOver) && h == old(h)
    {
      hide WithEnclaveTimes, NewRecovery, Scaled, ActBegin, ActCancel, ActSlots, Active;
      ghost var end := RunAlone(W(), p, JobStanding(id, started), fates);
      sent := false;
      var c := NextFate();
      if !c.Answered? || !member { return; }
      assert RunAlone(W(), p, JobExecute(id, started), fates) == end;
      var holds := Waits(Item(), id);
      c := NextFate();
      if holds && !c.Lost? {
        startOver := Some(startOver.value.(executing := true));
        h := h.(executed := h.executed + {id});
      }
      if !holds || !c.Answered? {
        assert RunAlone(W(), p, Finished, fates) == end;
        return;
      }
      assert RunAlone(W(), p, JobSend(id), fates) == end;
      sent := SendDelete(id, p);
    }

    /** Its write, of the start-over it read as pending. */
    method EndPending(id: nat, ghost p: nat) returns (done: Option<Option<nat>>)
      requires Waits(Item(), id)
      modifies `startOver, `fates, `h
      ensures W() == RunAlone(old(W()), p, SupportWrite(id), old(fates))
      ensures done == (if old(Fate()).Answered? then Some(Some(id)) else None)
      ensures done.Some? ==> startOver == None
      ensures AllAnswered(old(fates)) ==> old(Fate()).Answered?
    {
      hide WithEnclaveTimes, NewRecovery, Scaled, ActBegin, ActCancel, ActSlots, Active;
      ghost var end := RunAlone(W(), p, SupportWrite(id), fates);
      var c := NextFate();
      if !c.Lost? {
        startOver := None;
        h := h.(cancelled := h.cancelled + {id});
      }
      if !c.Answered? {
        assert RunAlone(W(), p, Finished, fates) == end;
        return None;
      }
      assert RunAlone(W(), p, SupportDone(Some(id)), fates) == end;
      done := Some(Some(id));
    }

    /** A reinstatement's cancel of a pending start-over; `pending`: the one it read and ended. `None`: it failed or lost. */
    method SupportCancel(ghost p: nat) returns (done: Option<Option<nat>>)
      modifies `startOver, `fates, `h
      ensures W() == RunAlone(old(W()), p, SupportRead, old(fates))
      ensures done.Some? && done.value.Some? ==> Waits(old(Item()), done.value.value) && startOver.None?
      ensures done == Some(None) ==> startOver == old(startOver) && (startOver.Some? ==> startOver.value.executing)
      ensures AllAnswered(old(fates)) ==>
                done == Some(if old(startOver.Some? && !startOver.value.executing) then Some(old(startOver).value.id) else None)
      ensures AllAnswered(old(fates)) ==> startOver == if done.value.Some? then None else old(startOver)
    {
      hide WithEnclaveTimes, NewRecovery, Scaled, ActBegin, ActCancel, ActSlots, Active;
      ghost var end := RunAlone(W(), p, SupportRead, fates);
      done := None;
      var c := NextFate();
      if !c.Answered? { return; }
      if startOver.None? || startOver.value.executing { return Some(None); }
      var id := startOver.value.id;
      assert RunAlone(W(), p, SupportWrite(id), fates) == end;
      done := EndPending(id, p);
    }

    /** The app key, or a redeemed key before its end. */
    ghost predicate InUse(key: nat, at: int)
      reads this
    {
      appKey == Some(key) || (redeemed.Some? && redeemed.value.key == key && redeemed.value.until > at)
    }

    /**
     * A register's answer: the code is spent, and its key (`None`: not a claim
     * key) becomes the recovering key unless it is in use as an app key.
     */
    method MarkRegistered(id: nat, key: Option<nat>, at: int, ghost p: nat)
      modifies `recovery, `fates
      ensures W() == RunAlone(old(W()), p, if key.Some? then RegisterRead(id, key.value, at) else RegisterWrite(id, None, at), old(fates))
      ensures recovery != old(recovery) ==>
                && old(recovery.Some? && recovery.value.state.Pending?) && Names(Item(), id)
                && recovery == Some(old(recovery).value.(state := Registered, recovering := recovery.value.recovering))
                && recovery.value.recovering == if key.Some? && !KeyInUse(Item(), key.value, at) then key else None
      ensures AllAnswered(old(fates)) ==>
                recovery == if !old(Has(id, Pending)) then old(recovery)
                  else Some(old(recovery).value.(state := Registered, recovering := if key.Some? && InUse(key.value, at) then None else key))
    {
      hide WithEnclaveTimes, NewRecovery, Scaled;
      ghost var end := RunAlone(W(), p, if key.Some? then RegisterRead(id, key.value, at) else RegisterWrite(id, None, at), fates);
      var c;
      var recovering := key;
      if key.Some? {
        c := NextFate();
        if !c.Answered? { return; }
        if KeyInUse(Item(), key.value, at) { recovering := None; }
      }
      assert RunAlone(W(), p, RegisterWrite(id, recovering, at), fates) == end;
      var holds := recovery.Some? && recovery.value.id == id && recovery.value.state.Pending?;
      c := NextFate();
      if holds && !c.Lost? { recovery := Some(recovery.value.(state := Registered, recovering := recovering)); }
      assert RunAlone(W(), p, Finished, fates) == end;
    }

    /** The enclave's refusal ends a pending recovery. */
    method RefreshUnavailable(id: nat, ghost p: nat)
      modifies `recovery, `fates
      ensures W() == RunAlone(old(W()), p, RefuseWrite(id), old(fates))
      ensures recovery != old(recovery) ==> old(recovery.Some? && recovery.value.state.Pending?) && Names(Item(), id) && recovery.value.state.Unavailable?
      ensures AllAnswered(old(fates)) ==>
                recovery == if old(Has(id, Pending)) then Some(old(recovery).value.(state := Unavailable)) else old(recovery)
    {
      hide WithEnclaveTimes, NewRecovery, Scaled;
      ghost var end := RunAlone(W(), p, RefuseWrite(id), fates);
      var holds := recovery.Some? && recovery.value.id == id && recovery.value.state.Pending?;
      var c := NextFate();
      if holds && !c.Lost? { recovery := Some(recovery.value.(state := Unavailable)); }
      assert RunAlone(W(), p, Finished, fates) == end;
    }

    /** A counted attempt began a wait: the recovery stays open until the enclave's later time, within the cap. */
    method MoveExpiry(id: nat, expires: int, ghost p: nat)
      modifies `recovery, `fates
      ensures W() == RunAlone(old(W()), p, AttemptRead(id, expires), old(fates))
      ensures recovery != old(recovery) ==>
                && old(recovery.Some? && recovery.value.state.Registered?) && Names(Item(), id)
                && recovery == Some(old(recovery).value.(expiresAt := recovery.value.expiresAt))
                && old(recovery).value.expiresAt < recovery.value.expiresAt <= recovery.value.requestedAt + MAX_SPAN
      ensures AllAnswered(old(fates)) && old(Has(id, Registered)) ==>
                recovery.Some? && recovery.value.expiresAt ==
                  Max(old(recovery).value.expiresAt, Min(old(recovery).value.requestedAt + 130 * 86_400, expires))
    {
      hide WithEnclaveTimes, NewRecovery, Scaled;
      ghost var end := RunAlone(W(), p, AttemptRead(id, expires), fates);
      var read := recovery;
      var c := NextFate();
      if !c.Answered? || read.None? || read.value.id != id || !read.value.state.Registered? { return; }
      var moved := Min(read.value.requestedAt + MAX_SPAN, expires);
      if moved <= read.value.expiresAt { return; }
      assert RunAlone(W(), p, AttemptWrite(read.value, moved), fates) == end;
      c := NextFate();
      if !c.Lost? { recovery := Some(recovery.value.(expiresAt := moved)); }
      assert RunAlone(W(), p, Finished, fates) == end;
    }

    /** The enclave's clear times from the recovery's own slot. */
    method ApplyEnclaveTimes(notBefore: int, expires: int, ghost p: nat)
      modifies `recovery, `fates
      ensures W() == RunAlone(old(W()), p, TimesRead(notBefore, expires), old(fates))
      ensures recovery != old(recovery) ==>
                && recovery.Some? && old(recovery.Some? && recovery.value.state.Pending? && !recovery.value.enclaveTimes)
                && var r, r' := old(recovery).value, recovery.value;
                   && r' == r.(availableAt := r'.availableAt, expiresAt := r'.expiresAt, enclaveTimes := true)
                   && r'.availableAt >= notBefore && r'.availableAt >= r.requestedAt + Scaled(DAY, r.scale)
                   && r'.expiresAt <= r.requestedAt + MAX_SPAN
                   && (r'.expiresAt >= expires || r'.expiresAt == r.requestedAt + MAX_SPAN)
      ensures AllAnswered(old(fates)) && old(recovery.Some? && recovery.value.state == Pending && !recovery.value.enclaveTimes) ==>
                && recovery.Some? && recovery.value.enclaveTimes
                && recovery.value.availableAt == Max(recovery.value.requestedAt + DayAt(recovery.value.scale), notBefore)
                && recovery.value.expiresAt ==
                     Min(recovery.value.requestedAt + 130 * 86_400, Max(expires, recovery.value.availableAt + DayAt(recovery.value.scale)))
    {
      ghost var end := RunAlone(W(), p, TimesRead(notBefore, expires), fates);
      var read := recovery;
      var c := NextFate();
      if !c.Answered? || read.None? || !read.value.state.Pending? || read.value.enclaveTimes { return; }
      var r := read.value;
      var availableAt := Max(r.requestedAt + Scaled(DAY, r.scale), notBefore);
      var expiresAt := Min(r.requestedAt + MAX_SPAN, Max(expires, availableAt + Scaled(DAY, r.scale)));
      assert RunAlone(W(), p, TimesWrite(r, notBefore, expires), fates) == end;
      c := NextFate();
      if !c.Lost? { recovery := Some(recovery.value.(availableAt := availableAt, expiresAt := expiresAt, enclaveTimes := true)); }
      assert RunAlone(W(), p, Finished, fates) == end;
    }
  }
}
