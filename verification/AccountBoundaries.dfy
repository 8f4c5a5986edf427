/**
 * Runs that show where the agreement of row and sign-in ends, and that the
 * deletion itself is reachable. Each run is built event by event.
 */
module AccountBoundaries {
  import opened Calls
  import opened Runs
  import opened Wrappers
  import opened AccountDeletion
  import opened AccountMail
  import opened AccountSignIn

  const MEMBER := Row(Active, None, None)
  const BEGIN := State(0, World(Some(MEMBER), Enabled, []), [])

  /** `es` leads from the beginning to `s`. */
  ghost predicate Leads(es: seq<Event>, s: State) { Exec(BEGIN, es) == Some(s) }

  lemma Then(es: seq<Event>, s: State, e: Event) returns (es': seq<Event>, s': State)
    requires Leads(es, s) && CanStep(s, e)
    ensures s' == Next(s, e) && Leads(es', s')
  {
    hide Next, CanStep;
    es' := Extend(StepOf, BEGIN, es, s, e);
    s' := Next(s, e);
  }

  lemma Begin()
    ensures Leads([], BEGIN) && Init(BEGIN)
  {
  }

  const FIRST := Deletion(0, DELETION_DELAY_MS, None, false, false, 0)
  const ASKED := Row(Canceled, Some(DELETION_DELAY_MS), Some(FIRST))
  const MAILED := Row(Canceled, Some(DELETION_DELAY_MS), Some(FIRST.(cancelHash := Some(1), claimed := true)))
  const NO_MAIL := Request(0, DELETION_DELAY_MS, {}, {}, map[], {}, None)
  const CLAIMED := Request(0, DELETION_DELAY_MS, {1}, {}, map[], {}, Some(1))

  /** The member asks; process 0 is the request, process 1 the mailer, now about to send. */
  lemma Requested() returns (es: seq<Event>, s: State)
    ensures Leads(es, s) && s == State(0, World(Some(ASKED), Disabled, [NO_MAIL]), [Finished])
  {
    hide FirstDeletionRun;
    Begin();
    es, s := Then([], BEGIN, Start(RequestWrite(0)));
    es, s := Then(es, s, Makes(0, Answered));
    assert s.procs == [RequestDisable] && s.w == World(Some(ASKED), Enabled, [NO_MAIL]);
    es, s := Then(es, s, Makes(0, Answered));
    assert s.procs == [Finished];
  }

  lemma RequestAndClaim() returns (es: seq<Event>, s: State)
    ensures Leads(es, s)
    ensures s == State(0, World(Some(MAILED), Disabled, [CLAIMED]), [Finished, MailSend(FIRST)])
  {
    hide FirstDeletionRun;
    es, s := Requested();
    es, s := Then(es, s, Start(MailRead(ASKED)));
    assert s.procs == [Finished, MailRead(ASKED)];
    es, s := Then(es, s, Makes(1, Answered));
    es, s := Then(es, s, Makes(1, Answered));
    assert {} + {1} == {1 as nat};
    assert s.w.requests == [CLAIMED];
  }

  /** The send is reported as failed although the email arrives, and its link is opened before the claim is taken off. */
  lemma LinkOfAFailedSend() returns (es: seq<Event>, s: State)
    ensures Leads(es, s)
    ensures exists r :: s == State(0, World(Some(ASKED.(deletion := Some(FIRST.(failures := 1)))), Disabled, [r]),
                                   [Finished, Finished, LinkEnable(0, 1)])
  {
    hide FirstDeletionRun;
    es, s := RequestAndClaim();
    es, s := Then(es, s, Makes(1, Unanswered));
    assert s.procs == [Finished, MailUnclaim(0)] && |s.w.requests| == 1;
    es, s := Then(es, s, Start(LinkRead(1)));
    assert s.procs == [Finished, MailUnclaim(0), LinkRead(1)];
    es, s := Then(es, s, Makes(2, Answered));
    assert s.procs == [Finished, MailUnclaim(0), LinkEnable(0, 1)];
    es, s := Then(es, s, Makes(1, Answered));
    assert s.procs == [Finished, Finished, LinkEnable(0, 1)];
    assert s.w.requests == [s.w.requests[0]];
  }

  /** That link's write loses although the account is still canceled, and it goes on to disable sign-in. */
  lemma LosingLink() returns (es: seq<Event>, s: State)
    ensures Leads(es, s)
    ensures exists r :: s == State(0, World(Some(ASKED.(deletion := Some(FIRST.(failures := 1)))), Enabled, [r]),
                                   [Finished, Finished, DisableAct])
  {
    es, s := LinkOfAFailedSend();
    es, s := Then(es, s, Makes(2, Answered));
    assert s.procs == [Finished, Finished, LinkWrite(0, 1)];
    es, s := Then(es, s, Makes(2, Answered));
    assert s.procs == [Finished, Finished, DisableRead];
    es, s := Then(es, s, Makes(2, Answered));
  }

  /**
   * The quiet runs must leave out failed sends: here every call but one send
   * is answered, a reinstatement wins and finishes, and the account ends
   * active with its sign-in disabled.
   */
  lemma FailedSendLetsALosingLinkLockTheMemberOut() returns (es: seq<Event>, s: State)
    ensures Leads(es, s) && AllFinished(s.procs)
    ensures IsActive(s.w) && s.w.user.Disabled?
  {
    es, s := LosingLink();
    var procs := s.procs;
    es, s := Then(es, s, Start(ReinstateRead));
    assert s.procs == procs + [ReinstateRead];
    es, s := Then(es, s, Makes(3, Answered));
    assert s.procs == procs + [ReinstateEnable(Canceled, Some(0))];
    es, s := Then(es, s, Makes(3, Answered));
    assert s.procs == procs + [ReinstateWrite(Canceled, Some(0))];
    es, s := Then(es, s, Makes(3, Answered));
    assert s.procs == procs + [EnableRead] && IsActive(s.w);
    es, s := Then(es, s, Makes(3, Answered));
    es, s := Then(es, s, Makes(3, Answered));
    assert s.procs == procs + [Finished] && s.w.user.Enabled?;
    es, s := Then(es, s, Makes(2, Answered));
    assert s.procs == [Finished, Finished, Finished, Finished];
  }

  /** The email is accepted and recorded. */
  lemma MailIsRecorded() returns (es: seq<Event>, s: State)
    ensures Leads(es, s)
    ensures exists r: Request, row: Row ::
      && s == State(0, World(Some(row), Disabled, [r]), [Finished, Finished])
      && row == MAILED.(deletion := Some(FIRST.(cancelHash := Some(1), claimed := true, mailed := true)))
  {
    hide FirstDeletionRun;
    es, s := RequestAndClaim();
    es, s := Then(es, s, Makes(1, Answered));
    assert s.procs == [Finished, MailRecord(0)] && |s.w.requests| == 1;
    es, s := Then(es, s, Makes(1, Answered));
    assert s.w.requests == [s.w.requests[0]];
  }

  /** The link of that email wins, up to its last step: it has read the row as active. */
  lemma WinningLink() returns (es: seq<Event>, s: State)
    ensures Leads(es, s)
    ensures exists r :: s == State(0, World(Some(ACTIVE_ROW), Enabled, [r]), [Finished, Finished, EnableAct])
  {
    es, s := MailIsRecorded();
    es, s := Then(es, s, Start(LinkRead(1)));
    assert s.procs == [Finished, Finished, LinkRead(1)];
    es, s := Then(es, s, Makes(2, Answered));
    es, s := Then(es, s, Makes(2, Answered));
    es, s := Then(es, s, Makes(2, Answered));
    assert s.procs == [Finished, Finished, EnableRead] && s.w.row == Some(ACTIVE_ROW);
    es, s := Then(es, s, Makes(2, Answered));
  }

  /**
   * The quiet runs must leave out suspensions: the last look at the row and
   * the call that enables sign-in are two steps, and an admin suspends the
   * account between them. Every call is answered; the account ends suspended
   * with its sign-in enabled.
   */
  lemma SuspensionBetweenReadAndEnable() returns (es: seq<Event>, s: State)
    ensures Leads(es, s) && AllFinished(s.procs)
    ensures s.w.row == Some(Row(Suspended, None, None)) && s.w.user.Enabled?
  {
    es, s := WinningLink();
    es, s := Then(es, s, Start(SuspendWrite));
    assert s.procs == [Finished, Finished, EnableAct, SuspendWrite];
    es, s := Then(es, s, Makes(3, Answered));
    assert s.procs == [Finished, Finished, EnableAct, SuspendDisable];
    es, s := Then(es, s, Makes(3, Answered));
    es, s := Then(es, s, Makes(2, Answered));
    assert s.procs == [Finished, Finished, Finished, Finished];
  }

  /** A pass of the job reads a canceled row, finds the sign-in user and disables it. */
  lemma PassThrough(es0: seq<Event>, s0: State, p: nat, run: int, m: Row) returns (es: seq<Event>, s: State)
    requires Leads(es0, s0) && p < |s0.procs| && s0.procs[p] == JobRead(run)
    requires s0.w.row == Some(m) && m.status.Canceled? && !s0.w.user.NoUser?
    ensures Leads(es, s) && s == s0.(w := s0.w.(user := Disabled), procs := s0.procs[p := JobEnableRead(run, m)])
  {
    es, s := Then(es0, s0, Makes(p, Answered));
    assert s.procs == s0.procs[p := JobGetUser(run, m)];
    es, s := Then(es, s, Makes(p, Answered));
    assert s.procs == s0.procs[p := JobDisable(run, m)];
    es, s := Then(es, s, Makes(p, Answered));
    assert s.procs == s0.procs[p := JobEnableRead(run, m)];
  }

  /** A link that has enabled sign-in and is about to write. */
  lemma LinkAboutToWrite() returns (es: seq<Event>, s: State)
    ensures Leads(es, s)
    ensures exists r: Request, row: Row ::
      && s == State(0, World(Some(row), Enabled, [r]), [Finished, Finished, LinkWrite(0, 1)])
      && row == MAILED.(deletion := Some(FIRST.(cancelHash := Some(1), claimed := true, mailed := true)))
  {
    hide FirstDeletionRun, ScheduledRun;
    es, s := MailIsRecorded();
    es, s := Then(es, s, Start(LinkRead(1)));
    assert s.procs == [Finished, Finished, LinkRead(1)];
    es, s := Then(es, s, Makes(2, Answered));
    assert s.procs == [Finished, Finished, LinkEnable(0, 1)];
    es, s := Then(es, s, Makes(2, Answered));
    assert s.procs == [Finished, Finished, LinkWrite(0, 1)];
  }

  /** Meanwhile a job's pass has disabled it again and found the row still canceled. */
  lemma PassBetweenEnableAndWrite() returns (es: seq<Event>, s: State)
    ensures Leads(es, s)
    ensures exists r: Request, row: Row ::
      && s == State(0, World(Some(row), Disabled, [r]), [Finished, Finished, LinkWrite(0, 1), Finished])
      && row == MAILED.(deletion := Some(FIRST.(cancelHash := Some(1), claimed := true, mailed := true)))
  {
    hide FirstDeletionRun, ScheduledRun;
    es, s := LinkAboutToWrite();
    var m := s.w.row.value;
    es, s := Then(es, s, Start(JobRead(0)));
    assert s.procs == [Finished, Finished, LinkWrite(0, 1), JobRead(0)];
    es, s := PassThrough(es, s, 3, 0, m);
    assert s.procs == [Finished, Finished, LinkWrite(0, 1), JobEnableRead(0, m)];
    es, s := Then(es, s, Makes(3, Answered));
    es, s := Then(es, s, Stops(3));
  }

  /**
   * The quiet runs must leave out a stop, and a failed call, of a process that
   * owes the other store a call: the link's write wins, and it stops, or its
   * last read fails, before it enables the sign-in that the job disabled. Only
   * that event differs from a quiet run; the account ends active and disabled.
   */
  lemma OwedCallNeverMade(stops: bool) returns (es: seq<Event>, s: State)
    ensures Leads(es, s) && AllFinished(s.procs)
    ensures es != [] && es[|es| - 1] == if stops then Stops(2) else Makes(2, Lost)
    ensures IsActive(s.w) && s.w.user.Disabled?
  {
    es, s := PassBetweenEnableAndWrite();
    es, s := Then(es, s, Makes(2, Answered));
    assert s.procs == [Finished, Finished, EnableRead, Finished] && IsActive(s.w);
    es, s := LastEvent(es, s, if stops then Stops(2) else Makes(2, Lost));
    assert s.procs == [Finished, Finished, Finished, Finished];
  }

  lemma LastEvent(es: seq<Event>, s: State, e: Event) returns (es': seq<Event>, s': State)
    requires Leads(es, s) && CanStep(s, e)
    ensures s' == Next(s, e) && Leads(es', s') && es' == es + [e]
  {
    hide Next, CanStep;
    RunAppend(StepOf, BEGIN, es, e);
    es', s' := es + [e], Next(s, e);
  }

  /** A reinstatement of a canceled account, alone from its read to its end. */
  lemma Reinstated(es0: seq<Event>, s0: State) returns (es: seq<Event>, s: State)
    requires Leads(es0, s0) && IsCanceled(s0.w) && !s0.w.user.NoUser?
    ensures Leads(es, s)
    ensures s == s0.(w := s0.w.(row := Some(ACTIVE_ROW), user := Enabled), procs := s0.procs + [Finished])
  {
    var p := |s0.procs|;
    var d := s0.w.row.value.deletion;
    es, s := Then(es0, s0, Start(ReinstateRead));
    es, s := Then(es, s, Makes(p, Answered));
    assert s.procs == s0.procs + [ReinstateEnable(Canceled, if d.Some? then Some(d.value.id) else None)];
    es, s := Then(es, s, Makes(p, Answered));
    es, s := Then(es, s, Makes(p, Answered));
    assert s.procs == s0.procs + [EnableRead];
    es, s := Then(es, s, Makes(p, Answered));
    es, s := Then(es, s, Makes(p, Answered));
    assert s.procs == s0.procs + [Finished];
  }

  /** After a reinstatement the member asks again: the row is canceled, the sign-in not yet disabled. */
  lemma AskedAgain() returns (es: seq<Event>, s: State)
    ensures Leads(es, s) && IsCanceled(s.w) && s.w.user.Enabled?
    ensures s.procs == [Finished, Finished, Finished, RequestDisable]
  {
    es, s := MailIsRecorded();
    es, s := Reinstated(es, s);
    assert s.procs == [Finished, Finished, Finished];
    es, s := Then(es, s, Start(RequestWrite(0)));
    assert s.procs == [Finished, Finished, Finished, RequestWrite(0)];
    es, s := Then(es, s, Makes(3, Answered));
  }

  /**
   * The quiet runs must leave out new deletion requests: one whose call that
   * disables sign-in comes after a reinstatement has ended the deletion it
   * asked for. From a canceled account at rest, every call is answered; the
   * account ends active with its sign-in disabled.
   */
  lemma NewRequestDisablesLate() returns (es: seq<Event>, s: State)
    ensures Leads(es, s) && AllFinished(s.procs)
    ensures IsActive(s.w) && s.w.user.Disabled?
  {
    es, s := AskedAgain();
    es, s := Reinstated(es, s);
    assert s.procs == [Finished, Finished, Finished, RequestDisable, Finished];
    es, s := Then(es, s, Makes(3, Answered));
    assert s.procs == [Finished, Finished, Finished, Finished, Finished];
  }

  /** A send that SES accepted and did not answer is taken for failed, and its claim taken off. */
  lemma AcceptedAndTakenOff() returns (es: seq<Event>, s: State)
    ensures Leads(es, s)
    ensures |s.w.requests| == 1
    ensures s == State(0, World(Some(ASKED.(deletion := Some(FIRST.(failures := 1)))), Disabled, s.w.requests), [Finished, Finished])
    ensures s.w.requests[0] == NO_MAIL.(claimants := {1}, tried := {1}, accepted := map[1 := FirstDeletionRun(DELETION_DELAY_MS)])
  {
    hide FirstDeletionRun;
    es, s := RequestAndClaim();
    es, s := Then(es, s, Makes(1, Unanswered));
    assert s.procs == [Finished, MailUnclaim(0)];
    es, s := Then(es, s, Makes(1, Answered));
    assert s.procs == [Finished, Finished];
    assert {} + {1} == {1 as nat};
  }

  /** "One confirmation a deletion" holds of answered sends only: after such a send the row's next record sends another, with another link. */
  lemma TwoConfirmationsOfOneDeletion() returns (es: seq<Event>, s: State)
    ensures Leads(es, s) && |s.w.requests| == 1
    ensures s.w.requests[0].accepted.Keys == {1, 2} && s.w.requests[0].answered == {2}
  {
    hide FirstDeletionRun;
    es, s := AcceptedAndTakenOff();
    var m := s.w.row.value;
    es, s := Then(es, s, Start(MailRead(m)));
    assert s.procs == [Finished, Finished, MailRead(m)];
    es, s := Then(es, s, Makes(2, Answered));
    assert s.procs == [Finished, Finished, MailClaim(m.deletion.value)];
    es, s := Then(es, s, Makes(2, Answered));
    assert s.procs == [Finished, Finished, MailSend(m.deletion.value)];
    es, s := Then(es, s, Makes(2, Answered));
  }

  /** The job's pass at that run, up to its conditional delete. */
  lemma PassIsDue() returns (es: seq<Event>, s: State)
    ensures Leads(es, s)
    ensures exists r: Request, row: Row ::
      && s == State(FirstDeletionRun(DELETION_DELAY_MS), World(Some(row), Disabled, [r]),
                    [Finished, Finished, JobDelete(FirstDeletionRun(DELETION_DELAY_MS), 0)])
      && row == MAILED.(deletion := Some(FIRST.(cancelHash := Some(1), claimed := true, mailed := true)))
  {
    es, s := MailIsRecorded();
    var m := s.w.row.value;
    var run := FirstDeletionRun(DELETION_DELAY_MS);
    assert run == DELETION_DELAY_MS + RUN_AT_MS && ScheduledRun(run) == run;
    assert Due(m, run);
    hide FirstDeletionRun, ScheduledRun, Due, HoldsHash;
    es, s := Then(es, s, Tick(run));
    es, s := Then(es, s, Start(JobRead(run)));
    assert s.procs == [Finished, Finished, JobRead(run)];
    es, s := PassThrough(es, s, 2, run, m);
    assert s.procs == [Finished, Finished, JobEnableRead(run, m)];
    es, s := Then(es, s, Makes(2, Answered));
    es, s := Then(es, s, Makes(2, Answered));
  }

  /** Nobody cancels: at the run the email named, the row and the sign-in user go. */
  lemma DeletionHappens() returns (es: seq<Event>, s: State)
    ensures Leads(es, s) && s.w.row.None? && s.w.user.NoUser?
    ensures s.now == FirstDeletionRun(DELETION_DELAY_MS)
  {
    es, s := PassIsDue();
    assert FirstDeletionRun(DELETION_DELAY_MS) == DELETION_DELAY_MS + RUN_AT_MS;
    es, s := Then(es, s, Makes(2, Answered));
    es, s := Then(es, s, Makes(2, Answered));
    es, s := Then(es, s, Makes(2, Answered));
  }
}
