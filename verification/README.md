# VettID member services: deletion, recovery, key policy, releases

A Dafny model of the protocols and decision engines in the repository's `lambda/` code, with proofs about
them. The protocols are state machines over any number of processes: each handler is a process with a
program point, each call to DynamoDB, Cognito, SES or SQS is one atomic step that is answered, fails without
effect, or fails although it took effect, and a process can stop anywhere. The handlers are also written as
methods that update a stored row in place, call by call; each of those is proved to do exactly what its
process does, whatever calls fail.

| modules | what they model |
|---|---|
| `Json`, `JsonTheorems`, `JsonGrammar`, `StrictParser` | the strict JSON parser, its printer, the grammar of RFC 8259 it reads, and the cursor that runs it |
| `KeyPolicy`, `KeyPolicyCheck`, `KeyPolicyExact`, `KeyPolicySoundness`, `KeyPolicyExample`, `ReleaseKeyPolicy` | the release-key policy check, what it accepts stated on the document, an IAM evaluation it is sound for, and the policy the deployment renders |
| `AccountDeletion`, `AccountMail`, `AccountSignIn`, `AccountBoundaries`, `MemberStore` | deleting an account: cancel link, reinstatement, the daily job, the mailer, the sign-in user |
| `VaultRow`, `VaultInvariant`, `VaultTheorems`, `VaultStore` | recovery and start-over on one vault row |
| `Notices`, `NoticeStore` | the claim, work, record notices of an attempt and of a phone's cancel |
| `EndedKeys`, `EndedKeysTheorems` | the recovering keys carried from recovery to recovery |
| `Scaler`, `ScalerTheorems`, `ScalerExact`, `ScalerFixedPoint`, `ScalerPass` | the release scaler's plan |
| `ManifestSync`, `ManifestStore` | the manifest's list and its concurrent sync into the releases table |
| `RateLimit`, `RateLimitRuns`, `RateLimitStore`, `PinCheck` | the attempt lockout and how far it bounds attempts, the window counter, the PIN check |
| `AppNonce`, `AppHeader`, `AppHeaderForms`, `Signing` | the app request's header, nonce and signed string; the recovery request's string |
| `Runs`, `Calls`, `Wrappers` | runs of a state machine; how a call ends; optional values |

Texts are sequences of UTF-16 code units where the code reads them (JSON, headers, identifiers), numbers where
only equality matters (ids, tokens, keys). A hash or digest stands for what it is of: equal digests mean equal
bytes. The clock is one number that only grows; a handler's own reading of it is kept apart from the time at
which its write takes effect, and lies where the handler reads it: on a vault row, a request reads the clock
before the row, a cancel between its read and its writes.

## What is false of the code

Each of these is a statement one would like to make. For each there is a lemma with a concrete run that breaks
it, and one that says exactly when it holds.

- "An active recovery and a pending start-over never meet." An attempt reported late moves an expired recovery's
  `expires_at` (`ActiveRecoveryBesidePendingStartOver`), late times of the enclave do (`LateTimesBesideStartOver`),
  and a start-over's write does not see such a move (`StartOverWrittenAfterTheMove`). They meet in a run if and
  only if one of these three writes takes effect (`MeetExactly`, `NeverMeetExactly`), and on a row that holds both
  the recovery is active exactly if the `expires_at` its request read as past was moved to a time still to come
  (`StartOverBesideRecovery`).
- "Once everything has finished, row and sign-in agree." It fails after a failed send whose link then loses
  (`FailedSendLetsALosingLinkLockTheMemberOut`), after a suspension between `enableIfActive`'s read and its call
  (`SuspensionBetweenReadAndEnable`), after a stop or a failed call of a process that owes the other store one
  (`OwedCallNeverMade`) and after a new request that disables late (`NewRequestDisablesLate`). Without those four
  it holds (`RowAndSignInAgree`); in any run the two come apart by exactly the calls of `PartExactly`.
- "One confirmation for a deletion." A send that SES accepts and does not answer is taken for failed
  (`TwoConfirmationsOfOneDeletion`); more than one is accepted only if one of them was not answered
  (`AtMostOneAnsweredThreeTried`).
- "One scaler pass over its own output settles the capacities" (`OnePassIsNotEnough`): if and only if no start
  waits or no room is left for it (`OnePassSettlesExactly`). Two passes settle every snapshot if and only if
  there is an idle time of a minute or more (`TwoPassesSettleExactly`).
- "A signed request is used once within 600 s." The code reads the clock twice, and a replay can slip between the
  readings (`TwoReadingsLetOneReplayThrough`). Single use holds if and only if a request reads the clock once and
  the record blocks 600 s or more (`SingleUseExactly`); which arrival passes, `PassesExactly` and
  `AReplayStraddlesTheWindow` say.
- "At most twice the limit of attempts in any span of a window." It holds if and only if a call stalls one second
  at most, or the limit is one and a call stalls no longer than the window (`TwiceExactlyWhenPrompt`).

## Model

| member | source | states |
|---|---|---|
| StrictParser.ParseStrict | lambda/shared/keypolicy.ts:78-161 | The cursor parser with its loops returns what the grammar functions of `Json` read, and nothing for any text they do not read. |
| StrictParser.Parser.ReadString | lambda/shared/keypolicy.ts:86-97 | A string literal is scanned to its closing quote and decoded, escapes included; the cursor ends after it. |
| StrictParser.Parser.ReadObject | lambda/shared/keypolicy.ts:102-125 | Members are read in order into a map that refuses a name it has; the cursor ends after the brace. |
| JsonTheorems.StrictRefusesExactlyDuplicates | lambda/shared/keypolicy.ts:77-161 | The strict parser accepts exactly the texts the lenient one reads to a value with no repeated decoded member name at any depth, and gives the same value. |
| JsonTheorems.ParsePrint | lambda/shared/keypolicy.ts:98-161 | Every value nested at most 64 deep, with distinct names and whole numbers, is read back from its print. |
| JsonTheorems.PrintParse | lambda/shared/keypolicy.ts:98-161 | Whatever text was accepted, its value's print is accepted as the same value. |
| JsonTheorems.AcceptedIffPrintable | lambda/shared/keypolicy.ts:98-161 | Some text is read to a value if and only if the value is printable: depth, names and numbers are the whole condition. |
| JsonGrammar.StrictReadsTheGrammar | lambda/shared/keypolicy.ts:77-161 | The strict parser reads a value from a text if and only if the text is the value's by the grammar of RFC 8259 (any white space, every escape, whole numbers only), no object repeats a name, and it nests at most 64 deep. |
| KeyPolicySoundness.CheckerSound | lambda/shared/keypolicy.ts:226-451 | If the whole check passes, the policy in the answer grants, under the IAM evaluation, only intended requests: Decrypt with the target's image, GenerateDataKey with that of a release numbered at most the target, both from the pinned caller account; retirement only for its exact principal; ScheduleKeyDeletion only with the pinned window; principals of the account only; no action outside the lists. |
| KeyPolicySoundness.StatementSound | lambda/shared/keypolicy.ts:376-410 | The same for one Allow statement that passed checks 6 to 8 and a request its action, principal and conditions let through. |
| KeyPolicySoundness.ImagePinned | lambda/shared/keypolicy.ts:422-443 | A passed attestation check and conditions that may hold pin the attested image to the admitted releases. |
| KeyPolicySoundness.CallerPinned | lambda/shared/keypolicy.ts:400-409 | A named caller that passed check 8 pins the request's caller account, whatever the operator's spelling. |
| KeyPolicySoundness.WindowPinned | lambda/shared/keypolicy.ts:392-395 | A NumericEquals window equal to the pinned days' text pins the requested pending window to that number. |
| KeyPolicySoundness.IamArnForms | lambda/shared/keypolicy.ts:187-200 | Exactly the root and the well-formed role identifiers of a 12-digit account have that account. |
| KeyPolicyExact.KeyExactly | lambda/shared/keypolicy.ts:227-268 | The whole check passes if and only if the key is that of the first release of the target's number in the account and region, the retirement pin fits, KMS says it is a plain enabled key without grants, in answers of 64 KiB at most, and its one policy passes. |
| KeyPolicyExact.PolicyExactly | lambda/shared/keypolicy.ts:278-321 | A document fails check 4 if and only if it is not a policy of the allowed shape with statements of it, and passes if and only if besides every Allow statement passes; its Deny statements are passed over. |
| KeyPolicyExact.AllowExactly | lambda/shared/keypolicy.ts:376-451 | Which check an Allow statement fails, stated on its own actions, principal and condition: 7 for a condition not listed, 6 for actions or attestation, 7 for the window, 8 for principals and callers, 0 otherwise. |
| KeyPolicyExact.ConditionExactly | lambda/shared/keypolicy.ts:323-374 | A condition is read if and only if every block has a listed operator over keys and values it may have, and what is gathered is what the blocks say. |
| KeyPolicyExact.AttestsExactly | lambda/shared/keypolicy.ts:422-443 | The attestation holds if and only if an image is named and every digest named is, up to case, that of a release the action is for: the target for Decrypt, any numbered up to it for GenerateDataKey. |
| ReleaseKeyPolicy.RenderedPolicyPasses | lib/vault/release-key-policy.ts:54-110 | The five-statement policy the deployment renders, printed, passes checks 4 to 8 if and only if it was rendered for the check's account, target image, releases up to the target, retirement role and window, with well-formed role names. |
| ReleaseKeyPolicy.RenderedKeyPasses | lambda/shared/keypolicy.ts:227-268 | A key with that policy passes the whole check under the same condition. |
| ReleaseKeyPolicy.SealPasses | lambda/shared/keypolicy.ts:422-443 | The GenerateDataKey statement passes exactly if, besides account and principal, every image it admits is of a release numbered up to the target; the target's own is. |
| ReleaseKeyPolicy.VerifyPasses | lambda/shared/keypolicy.ts:379-389 | The read-only statement passes exactly for two principals of the account. |
| ReleaseKeyPolicy.RetirePasses | lambda/shared/keypolicy.ts:391-400 | The ScheduleKeyDeletion statement passes exactly for the pinned retirement role and window. |
| ReleaseKeyPolicy.PassedKeyIsPlain | lambda/shared/keypolicy.ts:230-268 | A passed check has seen, in the answers themselves, each listed metadata member and an empty, untruncated list of grants, for the target's own key. |
| KeyPolicyExample.DecryptStatementPasses | lambda/shared/keypolicy.ts:376-410 | A release's own Decrypt statement passes checks 6 to 8 whatever else is pinned. |
| KeyPolicyExample.DecryptPolicyPasses | lambda/shared/keypolicy.ts:278-297 | A printed policy of that statement is read back and passes checks 4 to 8: soundness does not hold by refusing everything. |
| KeyPolicyCheck.ParseConditions | lambda/shared/keypolicy.ts:323-346 | The nested loops gather the condition entries in order, or fail on exactly the conditions the allow-list does not have. |
| KeyPolicyCheck.GatherActions | lambda/shared/keypolicy.ts:379-389 | The loop's sets are the gated and the retirement actions, the count tells whether a read-only one occurs, and it fails on any other action or a wildcard. |
| KeyPolicyCheck.CheckAttestation | lambda/shared/keypolicy.ts:427-443 | True exactly when an attestation condition exists and every measured value is of an admitted release. |
| KeyPolicyCheck.CheckPrincipal | lambda/shared/keypolicy.ts:445-451 | True exactly when the principal is one AWS member whose identifiers all have the account. |
| KeyPolicyCheck.CheckAllow | lambda/shared/keypolicy.ts:376-410 | The loops and branches give the number of the first failed check of a statement, in the source's order, 0 for none; which it is, `AllowExactly` says. |
| KeyPolicyCheck.CheckPolicy | lambda/shared/keypolicy.ts:278-297 | The number of the first failed check of a document: shape, then the first Allow statement that fails; what that is, `PolicyExactly` says. |
| KeyPolicyCheck.CheckReleaseKey | lambda/shared/keypolicy.ts:227-268 | The whole check with identity, metadata and grants before the policy; what passes, `KeyExactly` says. |
| AccountDeletion.FirstDeletionRun | lambda/shared/account-deletion.ts:123-128 | The only 07:00 UTC within the day that starts at `deletes_at`. |
| AccountDeletion.ScheduledRun | lambda/shared/account-deletion.ts:130-135 | The last 07:00 UTC at or before a time. |
| AccountMail.DeletedOnlyAsTheEmailSaid | lambda/jobs/cleanup.ts:1447-1534 | In any run, whatever takes the row away: one confirmation of the row's own deletion was accepted and answered, its link is the row's link; every confirmation of it that SES accepted, answered or not, named the same run, which has come, 7 days or more after the request; with none unanswered there was exactly the one. |
| AccountMail.AtMostOneAnsweredThreeTried | lambda/jobs/members-stream.ts:87-167 | Per deletion, under any retries and interleavings, at most three sends are tried and at most one is answered; more than one is accepted only if one of them was not answered. |
| AccountBoundaries.TwoConfirmationsOfOneDeletion | lambda/jobs/members-stream.ts:134-153 | A run in which SES accepts a send without an answer, and then a second one of the same deletion with another link. |
| AccountMail.InvKept | lambda/jobs/members-stream.ts:111-167 | Every event keeps the invariant that ties the row's claim, hash, counter and `mailed_at` to the deletion's history. |
| AccountSignIn.RowAndSignInAgree | lambda/shared/account-deletion.ts:75-107 | From a canceled account at rest, through any interleaving of links, reinstatements, job passes and mailers that comes to rest: an active row has sign-in enabled, and a row that is gone left no enabled sign-in. First reads, an enable without its effect before a write, the job's delete steps and the mailer's claim and record may fail, and a process may stop, except where it owes the other store a call: link and reinstatement writes, the enable and disable reads and calls, the job's look-up, disable and enable are answered. No send fails, and nobody suspends or asks for a new deletion. |
| AccountSignIn.PartExactly | lambda/shared/account-deletion.ts:75-107 | In any run, whatever fails: row and sign-in user come apart by exactly these calls: a cancel's or reinstatement's write while sign-in is disabled, a disable of an active account, a delete of the row while sign-in is enabled, an enable after the row is gone. |
| AccountSignIn.QuietCall | lambda/member/account.ts:480-516 | Each call either leaves the two stores agreeing or leaves its caller owing the call that repairs them. |
| AccountSignIn.EveryProcessComesToRest | lambda/jobs/cleanup.ts:1427-1541 | However its calls end, a process makes at most nine: "once all have finished" always comes. |
| AccountBoundaries.FailedSendLetsALosingLinkLockTheMemberOut | lambda/jobs/members-stream.ts:134-153 | A run whose only failed call is one send, at the end of which the account is active with sign-in disabled. |
| AccountBoundaries.SuspensionBetweenReadAndEnable | lambda/admin/people.ts:423-435 | A run with every call answered that ends with the account suspended and sign-in enabled. |
| AccountBoundaries.OwedCallNeverMade | lambda/member/account.ts:480-516 | Runs that end with the account active and sign-in disabled because a link whose write won stopped, or failed to read, before it enabled the sign-in a job's pass had disabled. |
| AccountBoundaries.NewRequestDisablesLate | lambda/member/account.ts:449-465 | A run from a canceled account at rest with every call answered, in which a new request's disable comes after a reinstatement: active with sign-in disabled. |
| AccountBoundaries.DeletionHappens | lambda/jobs/cleanup.ts:1516-1541 | A run without a cancel in which row and sign-in user go at the run the email named. |
| MemberStore.Store.EnableIfActive | lambda/shared/account-deletion.ts:91-107 | Does what its process does, whatever calls fail: it enables at most, and only beside an active row, which it does if its calls are answered. |
| MemberStore.Store.DisableUnlessActive | lambda/shared/account-deletion.ts:75-89 | Does what its process does, whatever calls fail: it disables at most, and only beside a row that is not active, which it does if its calls are answered. |
| MemberStore.Store.CancelLink | lambda/member/account.ts:480-516 | The route, its catch branch included, does what its process does. With its calls answered it cancels if and only if the row is canceled with this hash and a sign-in user exists, and then the row is active without a deletion and sign-in enabled; otherwise nothing changes. A reported cancel found such a row whatever failed. |
| MemberStore.Store.Reinstate | lambda/admin/people.ts:468-525 | With its calls answered it completes if and only if the account is suspended or canceled and a sign-in user exists: the row is then active, a canceled one's deletion gone and a suspended one's kept, and sign-in enabled. As its process whatever fails; a completed one left the row active. |
| MemberStore.Store.RequestDeletion | lambda/member/account.ts:449-465 | The request as its process; with its calls answered it is made if and only if the account is active: canceled, the deletion due 7 days later recorded and not mailed, sign-in disabled. |
| MemberStore.Store.Suspend | lambda/admin/people.ts:423-435 | The suspension as its process; with its calls answered it is done if and only if the account is active or suspended already: suspended, sign-in disabled. |
| MemberStore.Store.DisableOwnSignIn | lambda/jobs/cleanup.ts:1221-1244 | Disables, reads again and enables as its process; with its calls answered sign-in ends enabled beside an active row and disabled otherwise; the row is not touched. |
| MemberStore.Store.DeleteAccount | lambda/jobs/cleanup.ts:1516-1541 | The guarded delete and the sign-in user's as their process; with its calls answered it deletes exactly a canceled row of this deletion past its `delete_after`, and then row and user are gone; otherwise neither changes. |
| MemberStore.Store.JobPass | lambda/jobs/cleanup.ts:1427-1541 | The pass over one row as its process; with its calls answered it deletes if and only if the row is canceled, its deletion mailed and due at this run, and then row and sign-in user are gone; otherwise the row stays and sign-in ends as the row says. |
| MemberStore.Store.SendConfirmation | lambda/jobs/members-stream.ts:111-167 | Claim, send, then record or take off, as its process; with its calls answered it sends if and only if the image and the row still wait for this deletion's email, and then the row holds the hash and is marked mailed. |
| VaultTheorems.StartOverBesideRecovery | lambda/member/vault.ts:3349-3375 | Whenever a row holds both, the recovery is the one the start-over's request read, ended or past the `expires_at` read; it is active if and only if it has not ended and its `expires_at` was moved since the request to a time still to come. |
| VaultTheorems.MeetExactly | lambda/member/vault.ts:2128-2150 | A start-over and an active recovery come to meet by exactly three writes: an attempt's or the enclave's later time beside a start-over, and a start-over's write on the recovery it read as expired after such a move. |
| VaultTheorems.NeverMeetExactly | lambda/member/vault.ts:3349-3375 | In a run of a new vault the two never meet if and only if none of those writes takes effect. |
| VaultTheorems.NeitherIsCreatedBesideTheOther | lambda/member/vault.ts:2814-2836 | No event puts a new recovery on a row with a start-over, nor a start-over beside a recovery its request saw as active. |
| VaultTheorems.OneEventOneArrow | lambda/member/vault.ts:2612-2740 | One event leaves a recovery's state as it is or takes it along one of five arrows: pending to registered, cancelled or unavailable, registered to cancelled or completed. |
| VaultTheorems.ReachesByArrows | lambda/member/vault.ts:2612-2740 | What a run may do to the state is what those five arrows reach, no more. |
| VaultTheorems.RecoveryOnlyMovesOn | lambda/member/vault.ts:2612-2740 | Over any run, per recovery id, the state becomes only one the arrows reach, times move only later, an ended recovery not at all; a replaced one never returns. |
| VaultTheorems.OneCancelAndItsMessages | lambda/member/vault.ts:2265-2287 | At most one cancel of a recovery takes effect; `cancelled_via` names it; the enclave is told at most once, only for a session's or link's win; the phone-cancel email goes out only for a recovery whose one cancel was by the phone. |
| VaultTheorems.RecoveryClock | lambda/member/vault.ts:2027-2057 | Available 24 scaled hours or more after the request, expiring within 130 days of it, open 24 scaled hours or more unless it expires at that cap. |
| VaultTheorems.CancelledOrCarriedOut | lambda/jobs/cleanup.ts:548-617 | No start-over is both cancelled and taken up; `delete` is sent only for one taken up, 24 scaled hours or more after its request. |
| VaultTheorems.QueuedIsSent | lambda/jobs/cleanup.ts:567-617 | In every reachable state a start-over recorded as queued has had its `delete` sent. |
| VaultTheorems.ACancelSticks | lambda/member/vault.ts:3320-3347 | Once a cancel's write took effect, no `delete` was or ever will be sent for that start-over. |
| VaultTheorems.ReinstatementEndsTheStartOver | lambda/jobs/cleanup.ts:942-983 | A start-over that a completed reinstatement's cancel read as pending is never carried out. |
| VaultTheorems.ActiveRecoveryBesidePendingStartOver | lambda/member/vault.ts:2128-2150 | A run that ends with an active recovery beside a pending start-over, by an attempt reported late. |
| VaultTheorems.LateTimesBesideStartOver | lambda/member/vault.ts:2027-2057 | The same by the enclave's times, read late from their slot. |
| VaultTheorems.StartOverWrittenAfterTheMove | lambda/member/vault.ts:3358-3369 | The same by a start-over's own write, after the recovery it read as expired was moved. |
| VaultInvariant.InvKept | lambda/member/vault.ts:2265-2740 | Every event keeps the invariant of the row, its history and every process's reads. |
| VaultInvariant.TimesMoveLater | lambda/member/vault.ts:2027-2057 | The enclave's times, computed from however old a read, keep the clock invariant and never move a time earlier. |
| VaultStore.Vault.CompleteRecovery | lambda/member/vault.ts:2667-2703 | The completion check and its write as the process does them: with its calls answered a registered recovery is completed if and only if its recovering key is the app key; the row it returns is the stored one. |
| VaultStore.Vault.CancelOf | lambda/member/vault.ts:2272-2287 | The cancel write: whether it won, and the whole new state. |
| VaultStore.Vault.CancelRecovery | lambda/member/vault.ts:2862-2885 | A session's or link's cancel as its process. With its calls answered it cancels if and only if this recovery runs at its reading; a reported one left the recovery cancelled by that way and queued `recovery_cancel` once, unless that call was lost. |
| VaultStore.Vault.NoticeWork | lambda/member/vault.ts:2448-2471 | The work of a phone's cancel as its process; with its calls answered it mails if and only if this recovery runs or an earlier phone's cancel had won; an email means the recovery is cancelled by the phone. |
| VaultStore.Vault.RequestRecovery | lambda/member/vault.ts:2913-2947 | The recovery request as its process; with its calls answered it is made if and only if no recovery runs and no start-over is there, with the times of a new one; a made one is on the row. |
| VaultStore.Vault.RequestStartOver | lambda/member/vault.ts:3349-3375 | The start-over request as its process; with its calls answered it is made if and only if no recovery runs and none is there; a made one is pending, due a day later. |
| VaultStore.Vault.CancelDeletion | lambda/member/vault.ts:3325-3347 | The member's cancel as its process; with its calls answered it cancels exactly the pending one of this id; a reported one found it pending and left none. |
| VaultStore.Vault.SupportCancel | lambda/jobs/cleanup.ts:942-983 | The reinstatement's cancel as its process: it ended the one it read, or found nothing pending, or reports failure. |
| VaultStore.Vault.ExecuteStartOver | lambda/jobs/cleanup.ts:567-595 | The job on one due start-over as its process; with its calls answered, for a member's account, a pending one is taken up, its `delete` sent and recorded; a send happens only for an account read as active; for any other account nothing changes. |
| VaultStore.Vault.SendDelete | lambda/jobs/cleanup.ts:591-617 | The `delete` and the record of it as their process: one reported as sent was sent once at this time; with its calls answered it is sent and recorded; only `queued_at` changes on the row. |
| VaultStore.Vault.MarkRegistered | lambda/member/vault.ts:2620-2650 | A register's answer as its process; with its calls answered exactly a pending recovery is registered, and its recovering key is the slot's claim key unless that is in use: the app key, or a redeemed key before its end. |
| VaultStore.Vault.RefreshUnavailable | lambda/member/vault.ts:2718-2741 | The enclave's refusal ends a pending recovery, with its call answered always, and nothing else. |
| VaultStore.Vault.MoveExpiry | lambda/member/vault.ts:2128-2150 | With its calls answered an attempt moves a registered recovery's end to the enclave's later time, 130 days from the request at most, and never to an earlier one. |
| VaultStore.Vault.ApplyEnclaveTimes | lambda/member/vault.ts:2027-2057 | The enclave's times from the slot as the process applies them: once, to a pending recovery, never before the API's floor, never past its cap. |
| Notices.ClaimsFarApart | lambda/member/vault.ts:2098-2113 | Any two claims of one notice are more than 300 s apart by their clock readings, and each counts one try. |
| Notices.AtMost24Emails | lambda/member/vault.ts:2123-2127 | At most 24 emails are tried for one notice, over any run, and SES accepts no other. |
| Notices.NoClaimOnceRecorded | lambda/member/vault.ts:2338-2368 | Once recorded, a notice stays recorded and is never claimed again. |
| Notices.RecordedAttemptWasMailed | lambda/member/vault.ts:2095-2164 | An attempt recorded without the failed mark: every claim that recorded it had sent its email, accepted and answered. |
| Notices.RecordedCancelWasToldOrOver | lambda/member/vault.ts:2416-2474 | A phone's cancel recorded without the failed mark: every claim that recorded it had sent its email, accepted and answered, or its own cancel write had found the recovery ended otherwise or past its expiry. |
| NoticeStore.NoticeItem.TryClaim | lambda/member/vault.ts:2345-2368 | The conditional claim: made exactly for a notice not recorded, claimed last over 300 s ago or never, and under 24 tries; the count it returns, and the whole new state. |
| NoticeStore.NoticeItem.NoticeAttempt | lambda/member/vault.ts:2095-2164 | Claim, audit, mail, record or give up, as its process; with its calls answered it tells and records what it could claim, or gives it up after the 24th try; without a claim nothing changes. |
| NoticeStore.NoticeItem.NoticeAppCancel | lambda/member/vault.ts:2416-2474 | Claim, cancel write, read again, tell or only see, record or give up, as its process; with its calls answered a live recovery is cancelled and told, one ended otherwise only seen. |
| EndedKeys.CarriedEndedKeys | lambda/member/vault.ts:766-774 | The filter, the map by kid, the stable sort and the last five, for any order of ends. |
| EndedKeysTheorems.CarriedIsSelectedFromHistory | lambda/member/vault.ts:760-774 | Through any chain of recoveries with increasing ends, what is handed on equals selecting from the whole history the latest end per kid, unexpired, newest five. |
| EndedKeysTheorems.OwnEndIs | lambda/member/vault.ts:750-758 | A recovery's own end is one entry exactly for a cancelled or expired registered one, with its kid, key, reason and time; none otherwise. |
| EndedKeysTheorems.HandedOn | lambda/member/vault.ts:766-774 | At most five are handed on, of different kids, each known and within its 30 days. |
| EndedKeys.CarryIsSelect | lambda/member/vault.ts:766-774 | For ends in order, the map and sort come to the newest five of the latest ends. |
| EndedKeysTheorems.ToldIsNeverAdmitted | lambda/member/vault.ts:784-797 | A kid told "recovery ended" is admitted by `keysFor` in no role, and is judged by its latest known end, past its grace and within its 30 days. |
| EndedKeysTheorems.ToldExactly | lambda/member/vault.ts:784-798 | A kid is told "recovery ended" if and only if the row names it nowhere and its latest known end is an hour old and not yet 30 days. |
| EndedKeysTheorems.AdmittedExactly | lambda/member/vault.ts:706-725 | Which stored keys a row admits in each of the four roles. |
| ScalerTheorems.EveryPrefixWithinCap | lambda/vault/scaler-logic.ts:146-156 | With the plan's changes made in order, the total desired capacity at every prefix is at most the larger of its start and the total cap. |
| ScalerTheorems.EveryChangeIsJustified | lambda/vault/scaler-logic.ts:177-217 | Every start is of a routable release with a fresh newer request, nothing live, from 0 to 1 within both caps; every stop goes to the minimum, an idle one only where nothing live is busy. |
| ScalerTheorems.EachGroupChangesOnce | lambda/vault/scaler-logic.ts:129-156 | No two changes of a plan are of one group or one release. |
| ScalerExact.StartsExactly | lambda/vault/scaler-logic.ts:188-199 | The plan starts a release, from 0 to 1, if and only if it is available and active, deprecated, retired, a canary or removed with a rescue, was asked for in the last 5 minutes and not issued since, nothing of it is live, and both caps and the group's maximum have room. |
| ScalerExact.StopsExactly | lambda/vault/scaler-logic.ts:177-217 | It stops one, to its group's minimum, if and only if the group desires more and the release may not run, or no live instance is in use and every marker is older than the idle time. |
| ScalerExact.NothingInUseIsStopped | lambda/vault/scaler-logic.ts:185-217 | No change of a plan is of a release of such a status with a live instance in use. |
| ScalerExact.MarksExactly | lambda/vault/scaler-logic.ts:185-213 | Which releases are marked as busy. |
| ScalerExact.BlockedExactly | lambda/vault/scaler-logic.ts:168-199 | Which rows count as a blocked start. |
| ScalerFixedPoint.TwoPassesSettle | lambda/vault/scaler-logic.ts:117-236 | A plan over the state after two passes changes nothing. |
| ScalerPass.TwoPassesSettleExactly | lambda/vault/scaler-logic.ts:117-236 | That holds of every valid snapshot if and only if the idle time is a minute or more. |
| ScalerPass.NoIdleTimeTakesTurns | lambda/vault/scaler-logic.ts:203-217 | Without an idle time two releases under a total cap of 1 take turns, and the third pass still stops one. |
| ScalerFixedPoint.OnePassSettlesExactly | lambda/vault/scaler-logic.ts:189-217 | One pass settles if and only if no start waits, held back by the total cap or of a release just stopped with its request still new, or the pass left no room for it. |
| ScalerFixedPoint.OnePassSettles | lambda/vault/scaler-logic.ts:189-199 | With an idle time over the 5 minutes of a fresh request: one pass settles if the total cap held no start back. |
| ScalerPass.OnePassIsNotEnough | lambda/vault/scaler-logic.ts:189-217 | A snapshot whose second pass still starts a release. |
| ScalerPass.MapGroups | lambda/vault/scaler-logic.ts:126-145 | The map built over the groups gives every row the first group whose tags agree with it. |
| ScalerPass.OneRow | lambda/vault/scaler-logic.ts:158-218 | One row's change, block and busy mark, in the loop's order of branches; which they are, the lemmas of `ScalerExact` say. |
| ScalerPass.RunPlan | lambda/vault/scaler-logic.ts:117-218 | The loop with its running total and capacity map gives the plan: changes, markers and counts, those of `ScalerExact`. |
| ManifestSync.ParseReleases | lambda/shared/manifest.ts:119-147 | Accepts exactly the lists of valid entries with strictly increasing numbers and distinct PCR0s, and returns those releases. |
| ManifestSync.SerialNeverDecreases | lambda/vault/manifest-sync.ts:182-209 | Under concurrent passes a row's `manifest_serial` never goes down while the row exists. |
| ManifestSync.OperatorRowsStay | lambda/vault/manifest-sync.ts:210-223 | A row no manifest ever listed is never deleted. |
| ManifestSync.OnlyOlderRowsGo | lambda/vault/manifest-sync.ts:210-223 | A row goes only by a pass's delete, and only one synced with a lower serial than the pass's. |
| ManifestStore.UndisturbedPassConverges | lambda/vault/manifest-sync.ts:148-229 | From any table earlier passes left, one undisturbed accepted pass leaves exactly its releases as the synced rows, with its attributes, and other operator rows as they were. |
| ManifestStore.PassAlone | lambda/vault/manifest-sync.ts:174-223 | A process of the state machine that nothing disturbs makes the pass the handler's loops make. |
| ManifestStore.Releases.Sync | lambda/vault/manifest-sync.ts:174-223 | The handler's plan, conditional upserts and conditional deletes make that pass; it is accepted exactly when the manifest is not refused. |
| ManifestStore.Releases.IsRejected | lambda/vault/manifest-sync.ts:50-56 | The refusals, from the highest synced serial and the bytes it was synced with. |
| RateLimit.NumbersAreDistinct | lambda/shared/ratelimit.ts:67-112 | Under any concurrency the attempts of one window have distinct numbers from 1 to the limit. |
| RateLimit.WindowsAreApart | lambda/shared/ratelimit.ts:92-103 | Windows open a window length apart or more. |
| RateLimit.AttemptsInAnySpan | lambda/shared/ratelimit.ts:67-112 | In any span of a window length, at most two limits' worth of attempts, and one more for every window length begun by which a call's stall reaches past the end of its window. |
| RateLimitRuns.TwiceExactlyWhenPrompt | lambda/shared/ratelimit.ts:67-112 | At most twice the limit in every span of every run, if and only if a call stalls one second at most, or the limit is one and a call stalls no longer than the window. |
| RateLimit.TwiceTheLimit | lambda/shared/ratelimit.ts:67-112 | The bound, for prompt calls. |
| RateLimitRuns.StalledOpenings | lambda/shared/ratelimit.ts:92-103 | For a limit of one and any longer stall, a run with three attempts in one span: two stalled openings and the next window's. |
| RateLimitRuns.StalledAdds | lambda/shared/ratelimit.ts:73-91 | For any larger limit and a stall of two seconds or more, a run with more than twice the limit in one span: a stalled attempt before two full windows. |
| RateLimitRuns.PinComparisonsInAnySpan | lambda/shared/pin.ts:14-15 | With calls that stall a second at most, ten PIN attempts at most in any 15 minutes without a right one. |
| RateLimitStore.AllowedInAnySpan | lambda/shared/ratelimit.ts:11-26 | At most twice the limit of allowed hits read the clock in any span of a window length. |
| RateLimitStore.Lockout.Reserve | lambda/shared/ratelimit.ts:73-112 | Alone on its key: the next number of a live window below the limit, 1 of a new one, nothing exactly when locked. |
| RateLimitStore.ReservesAlone | lambda/shared/ratelimit.ts:67-112 | A process of the state machine alone, its calls answered in time, reserves what `Reserve` does, in each of its three cases. |
| RateLimitStore.Lockout.LockUntil | lambda/shared/ratelimit.ts:113-116 | Locked at every time before `until`. |
| RateLimitStore.Counter.DoHit | lambda/shared/ratelimit.ts:11-26 | Counts one more in the reading's window and keeps the counts of a window distinct. |
| PinCheck.CheckPin | lambda/shared/pin.ts:54-70 | A comparison only after a reservation; a right PIN clears the lockout; a wrong one counts for the day and locks for long past 15; the whole new state. |
| PinCheck.WrongPinsInADay | lambda/shared/pin.ts:39-70 | Over any checks one after another, right PINs in between or not, at most 15 wrong PINs are compared on a day and one more for every long lock begun in it: 16 with the real lock, 39 with the staging one. |
| AppNonce.PassesAtMostOnce | lambda/member/vault.ts:803-828 | With one clock reading a request, one signed request passes header and nonce checks at most once, over all time and interleavings. |
| AppNonce.SingleUseExactly | lambda/member/vault.ts:803-828 | Every run passes a signed request at most once, if and only if a request reads the clock once and the record blocks 600 s or more. |
| AppNonce.PassesExactly | lambda/member/vault.ts:813-828 | An arrival passes if and only if none has passed or its second reading is past the last pass's record. |
| AppNonce.AReplayStraddlesTheWindow | lambda/member/vault.ts:803-828 | A replay passes if and only if its second reading is past the record, and then its first is inside the time window and its second past its end. |
| AppNonce.TwoReadingsLetOneReplayThrough | lambda/member/vault.ts:804-812 | A run, for every signed time and every record life, in which such a replay passes. |
| AppNonce.AnyShorterRecordIsTooShort | lambda/shared/app-auth.ts:24-27 | For every record life below 600 s a run with one reading in which a replay passes: window and record meet exactly. |
| AppNonce.NonceStore.Admit | lambda/member/vault.ts:803-828 | The two checks make exactly the steps of one arrival. |
| AppHeader.ParseAppHeader | lambda/shared/app-auth.ts:56-79 | The loop over the parts, the map and the forms accept exactly what `ParseHeader` does. |
| AppHeader.HeaderRoundTrip | lambda/shared/app-auth.ts:56-79 | A header written for any well-formed members reads back as those members. |
| AppHeaderForms.HeaderIsAccepted | lambda/shared/app-auth.ts:56-79 | A header of six members in their forms, with any spaces and tabs around its parts, up to 512 units long, is accepted as those members. |
| AppHeaderForms.AcceptedIsHeader | lambda/shared/app-auth.ts:56-79 | Whatever is accepted has those forms: ids of 32 hexadecimal digits, a time, base64url of 16 bytes and of 6 to 96 bytes. |
| AppHeader.AcceptedFieldsAreLines | lambda/shared/app-auth.ts:69-78 | No accepted member has a newline. |
| Signing.RecoveryStringDetermines | lambda/shared/recovery-sign.ts:67-101 | Equal strings mean equal op, vault, user, request, time and key digest, and the same named recovery or none. |
| Signing.RecoveryStringIs | lambda/shared/recovery-sign.ts:67-101 | The string line by line, for exactly the requests of the two operations with members of the form. |
| Signing.BuildRecoveryString | lambda/shared/recovery-sign.ts:73-101 | The builder's loop and branches make the seven or eight lines, or refuse. |
| Signing.SigningInputDetermines | lambda/shared/app-auth.ts:83-92 | Equal inputs mean equal method, header fields and body digest, and the same path with its query; path and query each if neither path, or neither query, has a newline (a request's raw query is percent-encoded and has none). |
| Signing.SigningInputIs | lambda/shared/app-auth.ts:83-92 | The string line by line. |
| Signing.NewlineInPathIsAmbiguous | lambda/shared/app-auth.ts:83-92 | A boundary of the string function alone, with a newline in a path and in a query: two different pairs with one input, for every header and body. |

## Left out

- Storage that forgets: DynamoDB's removal of expired items. Nonce records, counters, slots and notice rows stay until a write changes them.
- Signing out everywhere, audits, snapshots, metrics, log lines and the wording of emails: they change nothing the properties speak of.
- A sign-in user under the address that carries another account's id: the job leaves it alone.
- MemberStore.Store.DeleteAccount: the address's marker that goes in one transaction with the row, and the removal of the member's other records, are not modelled.
- MemberStore.Store.JobPass: the vaults an account deletion waits for; a hold is a pass that stops before the delete. Removing never-sealed vault rows and the orphan scan are not modelled.
- MemberStore.Store.Reinstate: the vault's cancel before it is `VaultStore.Vault.SupportCancel`; the refusal while a recovery runs (409, unless allowed) only refuses.
- The administrator's Delete of a person, and the deletion code sent before a request.
- The removal of a vault's row once the vault reports itself deleted; every conditional write then fails and nothing here can change.
- VaultStore.Vault.RequestRecovery: the checks of service, limits, signature, credential backup and instance before the write only refuse, and the phone's cancels it notices first are processes of their own.
- The lists kept on a recovery (claim keys, register, open and unlock ids) and the release of the recovery code: conditional appends and one more claim, work, record.
- NoticeStore.NoticeItem.NoticeAttempt: the expiry it moves is `VaultStore.Vault.MoveExpiry`; the cancel link it mints is not modelled.
- NoticeStore.NoticeItem.NoticeAppCancel: the completion check before the cancel write is in `VaultStore.Vault.NoticeWork`; the mark on the slot is not modelled.
- Notices.RecordedCancelWasToldOrOver: the recovery is live, cancelled by the phone or ended otherwise, with an expiry that may pass or move; that its one cancel was the phone's is proved on the vault row, in `OneCancelAndItsMessages`.
- ManifestSync.ParseReleases: an entry's form beside its number and PCR0 is one flag.
- The order in which a manifest pass makes its deletes: any order is allowed.
- RateLimitStore.Lockout.Reserve: stated for a caller alone on its key; the concurrent statements are those of `RateLimit`, for runs in which nobody clears or forces the lock.
- PinCheck.CheckPin: whether the PIN is right is a parameter, and checks come one after another.
- ScalerPass.RunPlan: the gauges (live instances, unmet minimum, unfulfilled starts) and the notes.
- KeyPolicySoundness.CheckerSound: conditions of other operators and keys only narrow a statement, and count as holding.
- Cryptography: digests, signatures and key parsing.
- Infrastructure code, web sites, plain record keeping and input validation: easy members only.
