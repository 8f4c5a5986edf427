/**
 * noticeAttempt and noticeAppCancel as the code writes them, over the stored
 * notice they claim and record. Each does exactly what its process does.
 */
module NoticeStore {
  import opened Calls
  import opened Wrappers
  import opened Notices

  ghost function CallsLeft(q: Proc): nat {
    match q
    case Finished => 0
    case Claim(_, _) => 6
    case CancelWrite(_) => 5
    case Reread(_) => 4
    case AuditSeen(_) => 2
    case AuditMail(_) => 3
    case Mail(_) => 2
    case Record(_, _) => 1
  }

  /** A process on its own, from point `q` to its end, with the fates of its calls (answered once they run out). */
  ghost function RunAlone(kind: Kind, w: World, p: nat, q: Proc, fates: seq<Call>): World
    decreases CallsLeft(q)
  {
    if q.Finished? then w else
      var c := if fates == [] then Answered else fates[0];
      var step := Act(kind, w, p, q, c);
      RunAlone(kind, step.w, p, step.next, if fates == [] then [] else fates[1..])
  }

  class NoticeItem {
    var notice: Option<Notice>
    var status: Status
    var expired: bool
    var now: int
    var fates: seq<Call>
    ghost var h: History

    ghost function W(): World
      reads this
    {
      World(now, notice, status, expired, h)
    }

    ghost function Fate(): Call
      reads this
    {
      if fates == [] then Answered else fates[0]
    }

    ghost function Rest(): seq<Call>
      reads this
    {
      if fates == [] then [] else fates[1..]
    }

    method NextFate() returns (c: Call)
      modifies `fates
      ensures c == old(Fate()) && fates == old(Rest())
      ensures AllAnswered(old(fates)) ==> c.Answered? && AllAnswered(fates)
    {
      if fates == [] {
        c := Answered;
      } else {
        c := fates[0];
        fates := fates[1..];
      }
    }

    /** Recorded now, its email accepted and answered. */
    ghost predicate Told(k: nat)
      reads this
    {
      notice.Some? && notice.value.noticedAt == Some(now) && notice.value.noticing.None? && k in h.answered
    }

    /** Not there yet where it may be opened, or unrecorded and not claimed in the last 300 seconds. */
    ghost predicate Free(at: int, opens: bool)
      reads this
    {
      if notice.None? then opens
      else notice.value.noticedAt.None? && (notice.value.noticing.None? || notice.value.noticing.value + 300 < at)
    }

    /** The conditional claim. `tries`: the count it wrote, if it was answered as made. */
    method TryClaim(at: int, opens: bool, ghost p: nat) returns (tries: Option<nat>)
      modifies `notice, `fates, `h
      ensures fates == old(Rest())
      ensures W() == Act(Attempt, old(W()), p, Claim(at, opens), old(Fate())).w
      ensures AllAnswered(old(fates)) ==> old(Fate()).Answered? && AllAnswered(fates)
      ensures tries.Some? <==> MayClaim(old(notice), at, opens) && old(Fate()).Answered?
      ensures tries.Some? <==> old(Free(at, opens)) && old(Fate()).Answered?
      ensures tries.Some? ==> tries.value == 1 + if old(notice).Some? then old(notice).value.tries else 0
      ensures tries.Some? ==> notice.Some? && notice.value.tries == tries.value == AfterClaim(old(notice), at).tries
    {
      var c := NextFate();
      var holds := if notice.None? then opens
        else notice.value.noticedAt.None? && (notice.value.noticing.None? || notice.value.noticing.value < at - RETRY_S);
      if holds && !c.Lost? {
        var before := if notice.Some? then notice.value else Notice(None, 0, None, false);
        notice := Some(before.(noticing := Some(at), tries := before.tries + 1));
        h := h.(claims := h.claims + [Claimed(at, p)]);
      }
      tries := if holds && c.Answered? then Some(notice.value.tries) else None;
    }

    method Done(failed: bool, ghost k: nat)
      requires notice.Some?
      modifies `notice, `fates, `h
      ensures fates == old(Rest())
      ensures W() == Act(Attempt, old(W()), 0, Record(k, failed), old(Fate())).w
      ensures AllAnswered(old(fates)) ==> !old(Fate()).Lost? && AllAnswered(fates)
      ensures !old(Fate()).Lost? ==> notice.Some? && notice.value.noticedAt == Some(now) && notice.value.noticing.None? && (failed ==> notice.value.failed)
      ensures old(Fate()).Lost? ==> notice == old(notice)
    {
      var c := NextFate();
      if !c.Lost? {
        notice := Some(notice.value.(noticing := None, noticedAt := Some(now), failed := notice.value.failed || failed));
        h := h.(records := h.records + [Recorded(k, failed)]);
      }
    }

    /** Audit, then mail with a send that must be accepted, then the record. */
    method Tell(kind: Kind, k: nat, ghost p: nat)
      requires notice.Some?
      modifies `notice, `fates, `h
      ensures W() == RunAlone(kind, old(W()), p, AuditMail(k), old(fates))
      ensures AllAnswered(old(fates)) ==> Told(k) && h.mails == old(h.mails) + [k] && notice.value.failed == old(notice).value.failed
      ensures AllAnswered(old(fates)) ==> AllAnswered(fates)
    {
      ghost var end := RunAlone(kind, W(), p, AuditMail(k), fates);
      var c := NextFate();
      if !c.Answered? { return; }
      assert RunAlone(kind, W(), p, Mail(k), fates) == end;
      c := NextFate();
      h := Mailed(h, k, c);
      if !c.Answered? {
        assert RunAlone(kind, W(), p, Finished, fates) == end;
        return;
      }
      assert RunAlone(kind, W(), p, Record(k, false), fates) == end;
      Done(false, k);
      assert RunAlone(kind, W(), p, Finished, fates) == end;
    }

    /**
     * The notice of a counted attempt. A caller whose calls are all answered
     * tells and records what it could claim, or gives it up as failed after
     * the last try; nothing is mailed or recorded without a claim.
     */
    method NoticeAttempt(at: int, ghost p: nat)
      modifies `notice, `fates, `h
      ensures W() == RunAlone(Attempt, old(W()), p, Claim(at, false), old(fates))
      ensures !MayClaim(old(notice), at, false) ==> notice == old(notice) && h == old(h)
      ensures AllAnswered(old(fates)) && MayClaim(old(notice), at, false) ==>
                var k := AfterClaim(old(notice), at).tries;
                if k <= 24 then Told(k) && h.mails == old(h.mails) + [k]
                else notice.Some? && notice.value.noticedAt == Some(now) && notice.value.failed && h.mails == old(h.mails)
    {
      ghost var end := RunAlone(Attempt, W(), p, Claim(at, false), fates);
      var tries := TryClaim(at, false, p);
      if tries.None? {
        assert RunAlone(Attempt, W(), p, Finished, fates) == end;
        return;
      }
      if tries.value > MAX_TRIES {
        assert RunAlone(Attempt, W(), p, Record(tries.value, true), fates) == end;
        Done(true, tries.value);
        assert RunAlone(Attempt, W(), p, Finished, fates) == end;
        return;
      }
      assert RunAlone(Attempt, W(), p, AuditMail(tries.value), fates) == end;
      Tell(Attempt, tries.value, p);
    }

    /** Nothing left to tell: the audit, then the record. */
    method Seen(k: nat, ghost p: nat)
      requires notice.Some?
      modifies `notice, `fates, `h
      ensures W() == RunAlone(PhoneCancel, old(W()), p, AuditSeen(k), old(fates))
      ensures h.mails == old(h.mails) && h.over == old(h.over)
      ensures AllAnswered(old(fates)) ==> notice.Some? && notice.value.noticedAt == Some(now) && notice.value.noticing.None?
    {
      ghost var end := RunAlone(PhoneCancel, W(), p, AuditSeen(k), fates);
      var c := NextFate();
      if !c.Answered? {
        assert RunAlone(PhoneCancel, W(), p, Finished, fates) == end;
        return;
      }
      assert RunAlone(PhoneCancel, W(), p, Record(k, false), fates) == end;
      Done(false, k);
      assert RunAlone(PhoneCancel, W(), p, Finished, fates) == end;
    }

    /**
     * The notice of a phone's cancel. A caller whose calls are all answered
     * records what it could claim; it mails exactly if the phone's cancel is
     * the recovery's, which a live recovery's is by its own write.
     */
    method NoticeAppCancel(at: int, live: bool, ghost p: nat)
      modifies `notice, `status, `fates, `h
      ensures W() == RunAlone(PhoneCancel, old(W()), p, Claim(at, live), old(fates))
      ensures !MayClaim(old(notice), at, live) ==> notice == old(notice) && status == old(status) && h == old(h)
      ensures AllAnswered(old(fates)) && MayClaim(old(notice), at, live) ==>
                var k := AfterClaim(old(notice), at).tries;
                if k <= 24 then Settled(k, old(h.mails), old(status))
                else notice.Some? && notice.value.noticedAt == Some(now) && notice.value.failed && h.mails == old(h.mails)
    {
      ghost var end := RunAlone(PhoneCancel, W(), p, Claim(at, live), fates);
      var tries := TryClaim(at, live, p);
      if tries.None? {
        assert RunAlone(PhoneCancel, W(), p, Finished, fates) == end;
        return;
      }
      if tries.value > MAX_TRIES {
        assert RunAlone(PhoneCancel, W(), p, Record(tries.value, true), fates) == end;
        Done(true, tries.value);
        assert RunAlone(PhoneCancel, W(), p, Finished, fates) == end;
        return;
      }
      var k := tries.value;
      assert RunAlone(PhoneCancel, W(), p, CancelWrite(k), fates) == end;
      WriteAndTell(k, p);
    }

    /** Recorded now: told if the phone's cancel is the recovery's, only seen otherwise. */
    ghost predicate Settled(k: nat, mails: seq<nat>, was: Status)
      reads this
    {
      && notice.Some? && notice.value.noticedAt == Some(now) && notice.value.noticing.None?
      && status == (if was.Live? && !expired then CancelledByApp else was)
      && (if status.CancelledByApp? then Told(k) && h.mails == mails + [k] else h.mails == mails && k in h.over)
    }

    /** The cancel write; its winner, or a taker-up that finds the phone's cancel, tells; otherwise it is only seen. */
    method WriteAndTell(k: nat, ghost p: nat)
      requires notice.Some?
      modifies `notice, `status, `fates, `h
      ensures W() == RunAlone(PhoneCancel, old(W()), p, CancelWrite(k), old(fates))
      ensures AllAnswered(old(fates)) ==> Settled(k, old(h.mails), old(status))
    {
      ghost var end := RunAlone(PhoneCancel, W(), p, CancelWrite(k), fates);
      var c := NextFate();
      var won := status.Live? && !expired;
      if won {
        if !c.Lost? { status := CancelledByApp; }
      } else if !status.CancelledByApp? && c.Answered? {
        h := h.(over := h.over + {k});
      }
      if !c.Answered? {
        assert RunAlone(PhoneCancel, W(), p, Finished, fates) == end;
        return;
      }
      if !won {
        assert RunAlone(PhoneCancel, W(), p, Reread(k), fates) == end;
        c := NextFate();
        if !c.Answered? {
          assert RunAlone(PhoneCancel, W(), p, Finished, fates) == end;
          return;
        }
        won := status.CancelledByApp?;
      }
      if won {
        assert RunAlone(PhoneCancel, W(), p, AuditMail(k), fates) == end;
        Tell(PhoneCancel, k, p);
      } else {
        assert RunAlone(PhoneCancel, W(), p, AuditSeen(k), fates) == end;
        Seen(k, p);
      }
    }
  }
}
