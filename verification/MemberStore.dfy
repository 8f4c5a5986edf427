/**
 * The handlers as the code writes them: one after another over the stored row
 * and the sign-in user, with a fate for every call. Each is proved to do what
 * its process of the state machine does, whatever calls fail.
 */
module MemberStore {
  import opened Calls
  import opened Wrappers
  import opened AccountDeletion
  import opened AccountMail
  import opened AccountSignIn

  /** A process on its own, from point `q` to its end, with the fates of its calls (answered once they run out). */
  ghost function RunAlone(w: World, p: nat, q: Proc, fates: seq<Call>): World
    decreases CallsLeft(q)
  {
    if q.Finished? then w else
      var c := if fates == [] then Answered else fates[0];
      var step := Act(w, p, q, c);
      EveryProcessComesToRest(w, p, q, c);
      RunAlone(step.w, p, step.next, if fates == [] then [] else fates[1..])
  }

  datatype Reply = Done | Refused | Failed

  class Store {
    var row: Option<Row>
    var user: SignIn
    var fates: seq<Call>
    ghost var requests: seq<Request>

    ghost function W(): World
      reads this
    {
      World(row, user, requests)
    }

    ghost function Fate(): Call
      reads this
    {
      if fates == [] then Answered else fates[0]
    }

    ghost function Rest(): seq<Call>
      reads this
    {
      if fates == [] then [] else fates[1..]
    }

    method NextFate() returns (c: Call)
      modifies `fates
      ensures c == old(Fate()) && fates == old(Rest())
      ensures AllAnswered(old(fates)) ==> c.Answered? && AllAnswered(fates)
    {
      if fates == [] {
        c := Answered;
      } else {
        c := fates[0];
        fates := fates[1..];
      }
    }

    /** A consistent read of the row. */
    method Get() returns (ok: bool, m: Option<Row>)
      modifies `fates
      ensures fates == old(Rest()) && ok == old(Fate()).Answered? && m == row
      ensures AllAnswered(old(fates)) ==> ok && AllAnswered(fates)
    {
      var c := NextFate();
      return c.Answered?, row;
    }

    method EnableUser() returns (r: Reply)
      modifies `fates, `user
      ensures fates == old(Rest())
      ensures user == if old(Fate()).Lost? then old(user) else Enable(old(user))
      ensures r == if !old(Fate()).Answered? then Failed else if old(user).NoUser? then Refused else Done
      ensures AllAnswered(old(fates)) ==> old(Fate()).Answered? && AllAnswered(fates)
    {
      var c := NextFate();
      r := if !c.Answered? then Failed else if user.NoUser? then Refused else Done;
      if !c.Lost? { user := Enable(user); }
    }

    method DisableUser() returns (r: Reply)
      modifies `fates, `user
      ensures fates == old(Rest())
      ensures user == if old(Fate()).Lost? then old(user) else Disable(old(user))
      ensures r == if !old(Fate()).Answered? then Failed else if old(user).NoUser? then Refused else Done
      ensures AllAnswered(old(fates)) ==> old(Fate()).Answered? && AllAnswered(fates)
    {
      var c := NextFate();
      r := if !c.Answered? then Failed else if user.NoUser? then Refused else Done;
      if !c.Lost? { user := Disable(user); }
    }

    /** One conditional write: `holds` is its condition on the stored row, `row'` the row it writes. */
    method WriteIf(holds: bool, row': Option<Row>) returns (r: Reply)
      modifies `fates, `row
      ensures fates == old(Rest())
      ensures row == if holds && !old(Fate()).Lost? then row' else old(row)
      ensures r == if !old(Fate()).Answered? then Failed else if holds then Done else Refused
      ensures AllAnswered(old(fates)) ==> old(Fate()).Answered? && AllAnswered(fates)
    {
      var c := NextFate();
      r := if !c.Answered? then Failed else if holds then Done else Refused;
      if holds && !c.Lost? { row := row'; }
    }

    method EnableIfActive(ghost p: nat)
      modifies `fates, `user
      ensures W() == RunAlone(old(W()), p, EnableRead, old(fates))
      ensures user != old(user) ==> IsActive(W()) && user.Enabled?
      ensures AllAnswered(old(fates)) && row.Some? && row.value.status == Active && old(user) != NoUser ==> user == Enabled
    {
      ghost var end := RunAlone(W(), p, EnableRead, fates);
      var ok, m := Get();
      if !ok || m.None? || !m.value.status.Active? { return; }
      assert RunAlone(W(), p, EnableAct, fates) == end;
      var _ := EnableUser();
    }

    method DisableUnlessActive(ghost p: nat)
      modifies `fates, `user
      ensures W() == RunAlone(old(W()), p, DisableRead, old(fates))
      ensures user != old(user) ==> !IsActive(W()) && user.Disabled?
      ensures AllAnswered(old(fates)) && !(row.Some? && row.value.status == Active) && old(user) != NoUser ==> user == Disabled
    {
      ghost var end := RunAlone(W(), p, DisableRead, fates);
      var ok, m := Get();
      if !ok || (m.Some? && m.value.status.Active?) { return; }
      assert RunAlone(W(), p, DisableAct, fates) == end;
      var _ := DisableUser();
    }

    /** The email's cancel link. */
    method CancelLink(token: nat, ghost p: nat) returns (cancelled: bool)
      modifies `fates, `user, `row
      ensures W() == RunAlone(old(W()), p, LinkRead(token), old(fates))
      ensures cancelled ==> row == Some(ACTIVE_ROW)
      ensures cancelled ==> IsCanceled(old(W())) && old(row).value.deletion.Some?
      ensures cancelled ==> old(row).value.deletion.value.cancelHash == Some(token)
      ensures AllAnswered(old(fates)) ==>
                (cancelled <==> old(row.Some? && row.value.status == Canceled && row.value.deletion.Some?
                                    && row.value.deletion.value.cancelHash == Some(token) && user != NoUser))
      ensures AllAnswered(old(fates)) && cancelled ==> row == Some(Row(Active, None, None)) && user == Enabled
      ensures AllAnswered(old(fates)) && !cancelled ==> row == old(row) && user == old(user)
      ensures OnlyFails(old(fates), 2) && old(row.Some? && row.value.status == Canceled && row.value.deletion.Some?
                                              && row.value.deletion.value.cancelHash == Some(token) && user != NoUser) ==>
                !cancelled && row.Some? && user == if row.value.status == Active then Enabled else Disabled
    {
      ghost var end := RunAlone(W(), p, LinkRead(token), fates);
      cancelled := false;
      var ok, read := Get();
      if !ok || read.None? || !read.value.status.Canceled? || read.value.deletion.None? { return; }
      var d := read.value.deletion.value;
      if d.cancelHash != Some(token) { return; }
      assert RunAlone(W(), p, LinkEnable(d.id, token), fates) == end;
      var enabled := EnableUser();
      if enabled != Done {
        assert RunAlone(W(), p, Finished, fates) == end;
        return;
      }
      assert RunAlone(W(), p, LinkWrite(d.id, token), fates) == end;
      var holds := row.Some? && row.value.status.Canceled? && row.value.deletion.Some?
        && row.value.deletion.value.id == d.id && row.value.deletion.value.cancelHash == Some(token);
      var written := WriteIf(holds, Some(ACTIVE_ROW));
      if written != Done {
        assert RunAlone(W(), p, DisableRead, fates) == end;
        DisableUnlessActive(p);
        return;
      }
      assert RunAlone(W(), p, EnableRead, fates) == end;
      EnableIfActive(p);
      cancelled := true;
    }

    /** The reinstatement's write, then for a canceled account the sign-in once more, or not after all. */
    method ActivateIf(was: Status, which: Option<nat>, ghost p: nat) returns (done: bool)
      modifies `fates, `user, `row
      ensures W() == RunAlone(old(W()), p, ReinstateWrite(was, which), old(fates))
      ensures done ==> row.Some? && row.value.status.Active?
      ensures done ==> old(row.Some? && row.value.status == was)
      ensures AllAnswered(old(fates)) && old(row.Some? && row.value.status == was && (was != Canceled || DeletionIs(row.value, which))) ==>
                && done && row == Some(Row(Active, None, if was == Canceled then None else old(row).value.deletion))
                && (old(user) != NoUser ==> user == if was == Canceled then Enabled else old(user))
      ensures OnlyFails(old(fates), 0) && old(row.Some? && row.value.status == Canceled && was == Canceled && user == Enabled) ==>
                !done && row.Some? && user == if row.value.status == Active then Enabled else Disabled
    {
      hide ActJob, ActMail, ActOther, Due, FirstDeletionRun, ScheduledRun, HoldsHash;
      ghost var end := RunAlone(W(), p, ReinstateWrite(was, which), fates);
      var canceled := was.Canceled?;
      var holds := row.Some? && row.value.status == was && (!canceled || DeletionIs(row.value, which));
      var active := if canceled then ACTIVE_ROW else Row(Active, None, if holds then row.value.deletion else None);
      var written := WriteIf(holds, Some(active));
      done := written == Done;
      if !canceled {
        assert RunAlone(W(), p, Finished, fates) == end;
      } else if !done {
        assert RunAlone(W(), p, DisableRead, fates) == end;
        DisableUnlessActive(p);
      } else {
        assert RunAlone(W(), p, EnableRead, fates) == end;
        EnableIfActive(p);
      }
    }

    /** An admin's reinstatement, from its read of the row on. */
    method Reinstate(ghost p: nat) returns (done: bool)
      modifies `fates, `user, `row
      ensures W() == RunAlone(old(W()), p, ReinstateRead, old(fates))
      ensures done ==> row.Some? && row.value.status.Active?
      ensures done ==> old(row).Some? && !old(row).value.status.Active?
      ensures AllAnswered(old(fates)) ==>
                (done <==> old(row.Some? && (row.value.status == Suspended || row.value.status == Canceled) && user != NoUser))
      ensures AllAnswered(old(fates)) && done ==>
                && row == Some(Row(Active, None, if old(row).value.status == Canceled then None else old(row).value.deletion))
                && user == Enabled
      ensures AllAnswered(old(fates)) && !done ==> row == old(row) && user == old(user)
      ensures OnlyFails(old(fates), 2) && old(row.Some? && row.value.status == Canceled && user != NoUser) ==>
                !done && row.Some? && user == if row.value.status == Active then Enabled else Disabled
    {
      hide ActJob, ActMail, ActOther, ActSignIn, Due, FirstDeletionRun, ScheduledRun, HoldsHash;
      ghost var end := RunAlone(W(), p, ReinstateRead, fates);
      done := false;
      var ok, read := Get();
      if !ok || read.None? || read.value.status.Active? { return; }
      var was := read.value.status;
      var which := if was.Canceled? && read.value.deletion.Some? then Some(read.value.deletion.value.id) else None;
      assert RunAlone(W(), p, ReinstateEnable(was, which), fates) == end;
      var enabled := EnableUser();
      if enabled != Done {
        assert RunAlone(W(), p, Finished, fates) == end;
        return;
      }
      assert RunAlone(W(), p, ReinstateWrite(was, which), fates) == end;
      done := ActivateIf(was, which, p);
    }

    /** The deletion request with its newly minted id, once its checks have passed: canceled first, then sign-in disabled. */
    method RequestDeletion(at: int, id: nat, ghost p: nat) returns (done: bool)
      requires id == |requests|
      modifies `fates, `user, `row, `requests
      ensures W() == RunAlone(old(W()), p, RequestWrite(at), old(fates))
      ensures done ==> row == Some(Row(Canceled, Some(at + 7 * 86_400_000), Some(Deletion(id, at + 7 * 86_400_000, None, false, false, 0))))
      ensures AllAnswered(old(fates)) ==> (done <==> old(row.Some? && row.value.status == Active))
      ensures AllAnswered(old(fates)) && done ==> user == if old(user) == NoUser then NoUser else Disabled
      ensures AllAnswered(old(fates)) && !done ==> row == old(row) && user == old(user)
    {
      ghost var end := RunAlone(W(), p, RequestWrite(at), fates);
      ghost var asked := Request(at, at + DELETION_DELAY_MS, {}, {}, map[], {}, None);
      ghost var effect := !Fate().Lost?;
      var holds := row.Some? && row.value.status.Active?;
      var written := WriteIf(holds, Some(Row(Canceled, Some(at + DELETION_DELAY_MS), Some(Deletion(id, at + DELETION_DELAY_MS, None, false, false, 0)))));
      if holds && effect { requests := requests + [asked]; }
      done := written == Done;
      if !done {
        assert RunAlone(W(), p, Finished, fates) == end;
        return;
      }
      assert RunAlone(W(), p, RequestDisable, fates) == end;
      var _ := DisableUser();
      assert RunAlone(W(), p, Finished, fates) == end;
    }

    /** An admin's suspension, also of an account already suspended. */
    method Suspend(ghost p: nat) returns (done: bool)
      modifies `fates, `user, `row
      ensures W() == RunAlone(old(W()), p, SuspendWrite, old(fates))
      ensures AllAnswered(old(fates)) ==> (done <==> old(row.Some? && (row.value.status == Active || row.value.status == Suspended)))
      ensures AllAnswered(old(fates)) && done ==>
                row == Some(old(row).value.(status := Suspended)) && user == if old(user) == NoUser then NoUser else Disabled
      ensures AllAnswered(old(fates)) && !done ==> row == old(row) && user == old(user)
    {
      ghost var end := RunAlone(W(), p, SuspendWrite, fates);
      done := false;
      if row.None? || row.value.status.Canceled? {
        var _ := NextFate();
        assert RunAlone(W(), p, Finished, fates) == end;
        return;
      }
      var written := WriteIf(true, Some(row.value.(status := Suspended)));
      if written != Done {
        assert RunAlone(W(), p, Finished, fates) == end;
        return;
      }
      assert RunAlone(W(), p, SuspendDisable, fates) == end;
      var _ := DisableUser();
      assert RunAlone(W(), p, Finished, fates) == end;
      done := true;
    }

    /** The job's second look: sign-in enabled again if the row is active by now. */
    method EnableAgain(m: Row, ghost started: int, ghost p: nat)
      modifies `fates, `user
      ensures RunAlone(old(W()), p, JobEnableRead(started, m), old(fates)) == RunAlone(W(), p, JobDecide(started, m), fates)
      ensures AllAnswered(old(fates)) ==>
                && AllAnswered(fates)
                && user == if old(user) != NoUser && row.Some? && row.value.status == Active then Enabled else old(user)
    {
      hide ActCancel, ActSignIn, ActMail, ActOther, Due, FirstDeletionRun, ScheduledRun, HoldsHash;
      ghost var end := RunAlone(W(), p, JobEnableRead(started, m), fates);
      var ok, again := Get();
      if ok && again.Some? && again.value.status.Active? {
        assert RunAlone(W(), p, JobEnableAct(started, m), fates) == end;
        var _ := EnableUser();
      }
      assert RunAlone(W(), p, JobDecide(started, m), fates) == end;
    }

    /** The job on a row it read as `m`: sign-in disabled, and enabled again if the row is active by now. */
    method DisableOwnSignIn(m: Row, ghost started: int, ghost p: nat)
      modifies `fates, `user
      ensures row == old(row) && requests == old(requests)
      ensures RunAlone(old(W()), p, JobGetUser(started, m), old(fates)) == RunAlone(W(), p, JobDecide(started, m), fates)
      ensures AllAnswered(old(fates)) ==>
                && AllAnswered(fates)
                && user == if old(user) == NoUser then NoUser else if row.Some? && row.value.status == Active then Enabled else Disabled
    {
      hide ActCancel, ActSignIn, ActMail, ActOther, Due, FirstDeletionRun, ScheduledRun, HoldsHash;
      ghost var end := RunAlone(W(), p, JobGetUser(started, m), fates);
      var c := NextFate();
      if !c.Answered? || user.NoUser? { return; }
      assert RunAlone(W(), p, JobDisable(started, m), fates) == end;
      var _ := DisableUser();
      assert RunAlone(W(), p, JobEnableRead(started, m), fates) == end;
      EnableAgain(m, started, p);
    }

    /** The sign-in user goes after its row. */
    method DeleteOwnUser(ghost p: nat)
      modifies `fates, `user
      ensures W() == RunAlone(old(W()), p, JobGetOwnUser, old(fates))
      ensures AllAnswered(old(fates)) ==> user == NoUser
    {
      hide FirstDeletionRun, ScheduledRun, Due, ActCancel, ActSignIn, ActMail, ActOther;
      ghost var end := RunAlone(W(), p, JobGetOwnUser, fates);
      var c := NextFate();
      if !c.Answered? || user.NoUser? { return; }
      assert RunAlone(W(), p, JobDeleteUser, fates) == end;
      c := NextFate();
      if !c.Lost? { user := NoUser; }
      assert RunAlone(W(), p, Finished, fates) == end;
    }

    /** The guarded delete of the row, then the sign-in user's. */
    method DeleteAccount(started: int, id: nat, ghost p: nat) returns (deleted: bool)
      modifies `fates, `user, `row
      ensures W() == RunAlone(old(W()), p, JobDelete(started, id), old(fates))
      ensures deleted ==> row.None?
      ensures row == old(row) || row.None?
      ensures AllAnswered(old(fates)) ==>
                (deleted <==> old(row.Some? && row.value.status == Canceled && row.value.deleteAfter.Some? && row.value.deleteAfter.value < started
                                  && row.value.deletion.Some? && row.value.deletion.value.id == id))
      ensures AllAnswered(old(fates)) ==> if deleted then row == None && user == NoUser else row == old(row) && user == old(user)
    {
      hide FirstDeletionRun, ScheduledRun, Due, ActCancel, ActSignIn, ActMail, ActOther;
      ghost var end := RunAlone(W(), p, JobDelete(started, id), fates);
      var holds := row.Some? && row.value.status.Canceled? && row.value.deleteAfter.Some? && row.value.deleteAfter.value < started
        && row.value.deletion.Some? && row.value.deletion.value.id == id;
      var gone := WriteIf(holds, None);
      deleted := gone == Done;
      if !deleted {
        assert RunAlone(W(), p, Finished, fates) == end;
        return;
      }
      assert RunAlone(W(), p, JobGetOwnUser, fates) == end;
      DeleteOwnUser(p);
    }

    /** Canceled, with a confirmation mailed, and the run its email named is the run of this pass or an earlier one. */
    ghost predicate ToDelete(started: int)
      reads this
    {
      && row.Some? && row.value.status == Canceled && row.value.deletion.Some? && row.value.deletion.value.mailed
      && row.value.deleteAfter.Some? && row.value.deleteAfter.value < started
      && FirstDeletionRun(row.value.deleteAfter.value) <= ScheduledRun(started)
    }

    /** The pass's delete, of the row it read, once its email is sent and its run has come. */
    method DeleteIfDue(m: Row, started: int, ghost p: nat) returns (deleted: bool)
      modifies `fates, `user, `row
      ensures W() == RunAlone(old(W()), p, JobDecide(started, m), old(fates))
      ensures deleted ==> row.None? && m.deletion.Some? && m.deletion.value.mailed
      ensures row == old(row) || row.None?
      ensures AllAnswered(old(fates)) && old(row) == Some(m) && m.status == Canceled ==> (deleted <==> old(ToDelete(started)))
      ensures AllAnswered(old(fates)) ==> if deleted then row == None && user == NoUser else row == old(row) && user == old(user)
    {
      hide FirstDeletionRun, ScheduledRun, ActCancel, ActSignIn, ActMail, ActOther;
      ghost var end := RunAlone(W(), p, JobDecide(started, m), fates);
      deleted := false;
      var c := NextFate();
      if !c.Answered? || !Due(m, started) || m.deletion.None? || !m.deletion.value.mailed {
        assert RunAlone(W(), p, Finished, fates) == end;
        return;
      }
      assert RunAlone(W(), p, JobDelete(started, m.deletion.value.id), fates) == end;
      deleted := DeleteAccount(started, m.deletion.value.id, p);
    }

    /** The daily job's pass over the row; no vault holds the account. */
    method JobPass(started: int, ghost p: nat) returns (deleted: bool)
      modifies `fates, `user, `row
      ensures W() == RunAlone(old(W()), p, JobRead(started), old(fates))
      ensures deleted ==> row.None? && old(row).Some? && old(row).value.deletion.Some? && old(row).value.deletion.value.mailed
      ensures row == old(row) || row.None?
      ensures AllAnswered(old(fates)) ==> (deleted <==> old(ToDelete(started)))
      ensures AllAnswered(old(fates)) && deleted ==> row == None && user == NoUser
      ensures AllAnswered(old(fates)) && !deleted ==>
                row == old(row) && user == if old(user != NoUser && row.Some? && row.value.status == Canceled) then Disabled else old(user)
    {
      hide FirstDeletionRun, ScheduledRun, ActCancel, ActSignIn, ActMail, ActOther;
      ghost var end := RunAlone(W(), p, JobRead(started), fates);
      deleted := false;
      var ok, read := Get();
      if !ok || read.None? || !read.value.status.Canceled? { return; }
      assert RunAlone(W(), p, JobGetUser(started, read.value), fates) == end;
      DisableOwnSignIn(read.value, started, p);
      deleted := DeleteIfDue(read.value, started, p);
    }

    /** One more failure, and free to be claimed again. */
    static function TakenOff(d: Deletion): Deletion { d.(cancelHash := None, claimed := false, failures := d.failures + 1) }

    /** After a failed send: the claim and the hash go, the failure is counted. */
    method TakeOff(id: nat, p: nat)
      requires id < |requests| && HoldsHash(W(), id, p)
      modifies `fates, `row, `requests
      ensures W() == RunAlone(old(W()), p, MailUnclaim(id), old(fates))
      ensures |requests| == |old(requests)|
      ensures !old(Fate()).Lost? ==> row == Some(old(row).value.(deletion := Some(TakenOff(old(row).value.deletion.value))))
      ensures old(Fate()).Lost? ==> row == old(row) && requests == old(requests)
      ensures AllAnswered(old(fates)) ==> !old(Fate()).Lost?
    {
      hide FirstDeletionRun, ScheduledRun, Due, ActCancel, ActSignIn, ActJob, ActOther;
      ghost var end := RunAlone(W(), p, MailUnclaim(id), fates);
      var c := NextFate();
      if !c.Lost? {
        var off := row.value.deletion.value;
        row := Some(row.value.(deletion := Some(off.(cancelHash := None, claimed := false, failures := off.failures + 1))));
        requests := requests[id := requests[id].(holder := None)];
      }
      assert RunAlone(W(), p, Finished, fates) == end;
    }

    /** After one that was answered: `mailed_at`. */
    method RecordMailed(id: nat, p: nat)
      requires HoldsHash(W(), id, p)
      modifies `fates, `row
      ensures W() == RunAlone(old(W()), p, MailRecord(id), old(fates))
      ensures HoldsHash(W(), id, p)
      ensures row == if old(Fate()).Lost? then old(row) else Some(old(row).value.(deletion := Some(old(row).value.deletion.value.(mailed := true))))
      ensures AllAnswered(old(fates)) ==> !old(Fate()).Lost?
    {
      hide FirstDeletionRun, ScheduledRun, Due, ActCancel, ActSignIn, ActJob, ActOther;
      ghost var end := RunAlone(W(), p, MailRecord(id), fates);
      var c := NextFate();
      if !c.Lost? { row := Some(row.value.(deletion := Some(row.value.deletion.value.(mailed := true)))); }
      assert RunAlone(W(), p, Finished, fates) == end;
    }

    /** The claimed confirmation goes out; then the row is told, or the claim taken off. */
    method SendClaimed(d: Deletion, p: nat) returns (sent: bool)
      requires d.id < |requests| && HoldsHash(W(), d.id, p)
      modifies `fates, `row, `requests
      ensures W() == RunAlone(old(W()), p, MailSend(d), old(fates))
      ensures sent ==> HoldsHash(W(), d.id, p)
      ensures |requests| == |old(requests)|
      ensures AllAnswered(old(fates)) ==>
                && sent && row == Some(old(row).value.(deletion := Some(old(row).value.deletion.value.(mailed := true))))
                && p in requests[d.id].answered && p in requests[d.id].accepted && requests[d.id].accepted[p] == FirstDeletionRun(d.deletesAt)
      ensures old(Fate()).Lost? && AllAnswered(old(Rest())) ==>
                !sent && row == Some(old(row).value.(deletion := Some(TakenOff(old(row).value.deletion.value))))
    {
      hide FirstDeletionRun, ScheduledRun, Due, ActCancel, ActSignIn, ActJob, ActOther;
      ghost var end := RunAlone(W(), p, MailSend(d), fates);
      var c := NextFate();
      requests := requests[d.id := Sent(requests[d.id], p, FirstDeletionRun(d.deletesAt), c)];
      sent := c.Answered?;
      if sent {
        assert RunAlone(W(), p, MailRecord(d.id), fates) == end;
        RecordMailed(d.id, p);
      } else {
        assert RunAlone(W(), p, MailUnclaim(d.id), fates) == end;
        TakeOff(d.id, p);
      }
    }

    /** Canceled with a deletion whose confirmation nobody has claimed and fewer than three sends have failed. */
    static ghost predicate Unsent(m: Row) {
      m.status == Canceled && m.deletion.Some? && !m.deletion.value.claimed && m.deletion.value.failures < 3
    }

    /** The confirmation for a stream record's image of the row, with the token `p`: claim, send, then record or take off. */
    method SendConfirmation(image: Row, p: nat) returns (sent: bool)
      requires RowOk(W()) && PastImage(W(), image)
      modifies `fates, `row, `requests
      ensures W() == RunAlone(old(W()), p, MailRead(image), old(fates))
      ensures sent ==> image.deletion.Some? && HoldsHash(W(), image.deletion.value.id, p)
      ensures AllAnswered(old(fates)) ==> (sent <==> Unsent(image) && old(row).Some? && Unsent(old(row).value)
                                                      && old(row).value.deletion.value.id == image.deletion.value.id)
      ensures AllAnswered(old(fates)) && sent ==>
                && row == Some(old(row).value.(deletion := Some(old(row).value.deletion.value.(cancelHash := Some(p), claimed := true, mailed := true))))
                && image.deletion.value.id < |requests|
                && var r := requests[image.deletion.value.id];
                   p in r.answered && p in r.accepted && r.accepted[p] == FirstDeletionRun(image.deletion.value.deletesAt)
      ensures AllAnswered(old(fates)) && !sent ==> row == old(row)
    {
      hide FirstDeletionRun, ScheduledRun, Due, ActCancel, ActSignIn, ActJob, ActOther, RequestOk, DeletionOk;
      ghost var end := RunAlone(W(), p, MailRead(image), fates);
      sent := false;
      var c := NextFate();
      if !c.Answered? || !ToMail(image) { return; }
      var d := image.deletion.value;
      assert RunAlone(W(), p, MailClaim(d), fates) == end;
      var holds := row.Some? && row.value.status.Canceled? && row.value.deletion.Some? && row.value.deletion.value.id == d.id
        && !row.value.deletion.value.claimed && row.value.deletion.value.failures < MAX_MAIL_FAILURES;
      c := NextFate();
      if !holds || c.Lost? {
        assert RunAlone(W(), p, Finished, fates) == end;
        return;
      }
      var now := row.value.deletion.value;
      row := Some(row.value.(deletion := Some(now.(cancelHash := Some(p), claimed := true))));
      ghost var r := requests[d.id];
      requests := requests[d.id := r.(claimants := r.claimants + {p}, holder := Some(p))];
      if !c.Answered? {
        assert RunAlone(W(), p, Finished, fates) == end;
        return;
      }
      assert RunAlone(W(), p, MailSend(d), fates) == end;
      sent := SendClaimed(d, p);
    }
  }
}
