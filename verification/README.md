# Verified model of the RSP website

This project models the parts of the RSP website where a mistake would be hard to see in one function: the
identity protocol between the authentication service and the Go API, the life of seasons and enrollments, mock
interviews edited by two people, the legacy importer, and six smaller algorithms. Each imperative part of the
program is a class or method here, proved against a function that says what it does; the properties that
matter are then proved about those functions, over all inputs and all runs.

Run `dafny verify dfyconfig.toml` to check everything.

## Conventions

- A database transaction is one step. A row lock or advisory lock is the atomicity of that step; a failed
  transaction leaves the tables as they were. Check constraints, unique indexes and the MFA trigger of
  `db/migrations` appear as the conditions under which a statement fails or what it stores.
- A run is a sequence of labels folded with a step function. Steps whose guard fails change nothing, so a
  theorem over all label sequences is a theorem over all interleavings.
- Clocks, random ids, the outcome of network and file operations, HTML sanitising and the parsing of dates
  and numbers are parameters. Identifiers and e-mail addresses are strings; trimming and lower-casing are
  the ASCII ones.
- Checksums and hashes are injective: a checksum is the value that is checksummed, and a generated UUID is
  the pair of table and legacy id it is generated from.

## Modules

- `Identity`, `AuthLifecycle`, `IdentityReceiver`, `IdentityProtocol`, `IdentityHistory`, `IdentityTheorems`,
  `IdentityOrder`, `IdentityAcceptance`, `IdentitySessions`, `IdentityOutcomes`:
  the outbox sender, the receiver, and both together with tokens, crashes, retries and reordering; which tokens
  are accepted, what signing out means, and what each command and delivery comes to.
- `MockRounds`, `MockInterviews`, `MockStore`, `MockHistory`, `MockOwnership`: round reconciliation under an
  immediately checked unique position, stale readers that write disjoint fields, and who may write what.
- `SeasonTransitions`, `SeasonStore`, `SeasonTheorems`, `EnrollmentOutcomes`: closing and reopening as values, as row
  updates, and over every run with enrollment changes and MFA events; what each operation comes to.
- `LegacySource`, `LegacyAnalysis`, `LegacyCleanliness`, `LegacyTransform`, `LegacyClosure`, `LegacyCounterexamples`,
  `LegacyImported`, `LegacyManifests`: the importer's analysis, its transform, what the result holds, and its manifests.
- `StringOrder`, `Auth0Plan`, `Auth0Order`, `Auth0Groups`, `Auth0Import`, `Auth0Outcomes`: the Auth0 plan, its import
  groups, and both in terms of the inputs.
- `Bags`, `TargetState`, `ImportEngine`, `StateTransaction`, `TargetOutcomes`: applying and verifying an import.
- `Invitations`, `InvitationLife`: invitations under every interleaving, and the life of one.
- `Pagination`, `RateLimit`, `ZonedTime`, `Scheduler`: one algorithm each.

## What turned out false, and when it holds

- Account state and MFA flag do not converge under reordering: a late event with a lower version is dropped.
  `ReorderedDeliveryDiverges` gives the run; `InStepIff` says exactly when a mirrored value is right,
  in terms of the events that took effect.
- Not even in version order does the MFA flag always converge: erasing an account removes its undelivered
  events with the others.
  `OrderedDeliveryRefines` says what holds, `ErasedMfaIsMissed` and `ErasedRequestIsOvertaken` give the runs.
- Delivering each event once is not always the same as delivering it repeatedly: a change of address may be refused
  first and accepted later. `RepetitionTakesAddress` gives the schedule, `TakenInAreFirstOccurrencesIff` the condition.
- A clean analysis does not make the import referentially closed: keys are compared as texts but only text
  values are resolved. `NumericKeyDangles` gives the snapshot; `ImportIsClosedIff` is the exact condition.
- An imported enrollment can break the assignment shapes: `EnrollmentShapes` says it does exactly for an active
  student or mentor without a creation time, which the analysis does not look at; `UntimedEnrollmentBreaksShape`
  gives the snapshot.
- A mentorship can be imported without an end although a side was kicked: `MentorshipEnds` says exactly when,
  namely when the kick that takes precedence has no time; `UntimedKickLeavesMentorshipOpen` gives the snapshot.
- Reopening stores what the pure transition computes only with a current snapshot: the SQL falls back to an
  active assignment and the trigger recomputes it. `ReopenStoresTransition` is the exact condition, and
  `ReopenNeverBlocked` shows that every reachable state meets it.
- The version that a removal records need not be what is stored: `RemovalForgetsReview` gives the run and
  `RemovalRecordsStoredIff` the condition.
- With a negative number of attempts a sync run is recorded as a success without a try: `NoTrySucceeds`.
- The cap of one hour on the retry delay is never reached: `BackoffDoubles`.

## Model

| member | source | states |
|---|---|---|
| AuthLifecycle.CommandRaisesVersion | apps/auth/src/lifecycle/service.ts:182-185 | a committed command raises one account's version by exactly one and queues exactly one undelivered event with that version; other accounts, other users' sessions and their pending events are untouched; a cancellation keeps every session, any other command ends all of the user's own |
| AuthLifecycle.CommandFollowsPolicy | apps/auth/src/lifecycle/policy.ts:6-25 | the only ways into and out of each account state; a deleted account stays deleted and a pending deletion cannot be suspended |
| AuthLifecycle.SpentTokenStaysSpent | apps/auth/src/lifecycle/service.ts:472-532 | a used or revoked recovery token never cancels a deletion and is never restored |
| AuthLifecycle.BackoffBounded | apps/auth/src/lifecycle/service.ts:151-174 | the retry delay never shrinks and stays between five seconds and one hour |
| AuthLifecycle.BackoffDoubles | apps/auth/src/lifecycle/service.ts:151-174 | the delay doubles with each of the first nine failures and then stays at 2560 seconds, so its cap of an hour is never reached |
| AuthLifecycle.WhenClaimable | apps/auth/src/lifecycle/service.ts:108-174 | a queued entry can be claimed at once, a claimed one again after a minute, a failed one after its delay and a delivered one never |
| AuthLifecycle.AttemptOutcome | apps/auth/src/lifecycle/service.ts:134-174 | an entry is delivered exactly when it was accepted and that was recorded; otherwise it is queued again if the failure was recorded, and no other entry changes |
| AuthLifecycle.AccountLifecycleService.EnqueueOutbox | apps/auth/src/lifecycle/service.ts:60-79 | adds one undelivered row unless its id is taken |
| AuthLifecycle.AccountLifecycleService.RevokeSessionsOf | apps/auth/src/lifecycle/service.ts:233-263 | revoking sessions is the command of the state machine, all or nothing; exactly the user's sessions go, and their number is returned |
| AuthLifecycle.AccountLifecycleService.RecordMfa | apps/auth/src/lifecycle/service.ts:265-290 | recording the MFA state is the command of the state machine, all or nothing |
| AuthLifecycle.AccountLifecycleService.SetSuspension | apps/auth/src/lifecycle/service.ts:292-345 | suspending and restoring is the command of the state machine, all or nothing |
| AuthLifecycle.AccountLifecycleService.RequestDeletionOf | apps/auth/src/lifecycle/service.ts:347-419 | requesting deletion is the command of the state machine: state, token, mail and event together |
| AuthLifecycle.AccountLifecycleService.CancelDeletionOf | apps/auth/src/lifecycle/service.ts:421-470 | cancelling a deletion while signed in is the command of the state machine |
| AuthLifecycle.AccountLifecycleService.CancelDeletionWithToken | apps/auth/src/lifecycle/service.ts:472-532 | cancelling a deletion with a recovery token is the command of the state machine, including each reason to refuse: a malformed, unknown, spent or expired token |
| AuthLifecycle.AccountLifecycleService.PseudonymizeAccount | apps/auth/src/lifecycle/service.ts:534-596 | erasing an account is the command of the state machine: artifacts and pending rows go, one event is queued |
| AuthLifecycle.AccountLifecycleService.PseudonymizeDue | apps/auth/src/lifecycle/service.ts:598-667 | the sweep erases exactly the due accounts it selected and counts them |
| AuthLifecycle.AccountLifecycleService.Deliver | apps/auth/src/lifecycle/service.ts:134-174 | a delivery ends with the row marked delivered, released with a later retry time, or left to its lease when the failure cannot be recorded |
| AuthLifecycle.AccountLifecycleService.FlushOutbox | apps/auth/src/lifecycle/service.ts:198-231 | every claimed row is settled as its attempt went, and the count is that of the successes |
| IdentityReceiver.Receiver.ApplyIdentityEvent | backend/internal/dal/identity.go:25-88 | the transaction equals the receiving function: duplicate, stale, created, applied or refused without a trace |
| IdentityReceiver.Receiver.ApplyIdentityChange | backend/internal/dal/identity.go:128-204 | the state changes and the audit entries of one applied event; an MFA event leaves one entry for each assignment it changes |
| IdentityReceiver.ScheduleEqualsOnceEach | backend/internal/dal/identity.go:36-59 | any schedule with losses, repeats and retries ends where its accepted deliveries, each made once, end |
| IdentityReceiver.TakenInAreFirstOccurrencesIff | backend/internal/dal/identity.go:36-126 | a duplicated schedule in any order takes in exactly the first occurrences if and only if each event passes the guards (a link or a new account, a free and non-blank address) when it first arrives; it then ends where they end |
| IdentityReceiver.LinkedLifecycleIsAdmitted | backend/internal/dal/identity.go:60-87 | for linked accounts every lifecycle event but a change of address passes the guards whenever it arrives |
| IdentityReceiver.RepetitionTakesAddress | backend/internal/dal/identity.go:149-157 | a change of address that is refused first and taken in when repeated, so that first occurrences alone end elsewhere |
| IdentityReceiver.ReceiptsGrow | backend/internal/dal/identity.go:42-59 | a stored receipt is never lost or changed |
| IdentityReceiver.AuditsAreBlocks | backend/internal/dal/identity.go:206-297 | a schedule appends one block of entries for each delivery it applies, in order, and nothing else |
| IdentityReceiver.EventIsAuditedOnce | backend/internal/dal/identity.go:36-59 | however often an event is delivered its entries are in the log exactly once, as one block, and every entry has a receipt |
| IdentityReceiver.AcknowledgedVersionReached | backend/internal/dal/identity.go:60-87 | the stored version never falls, and an acknowledged event is never newer than it |
| IdentityReceiver.EmailTakenIgnoresSubject | backend/internal/dal/identity.go:90-126 | whether an e-mail is taken by someone else does not depend on the subject's own row |
| IdentityProtocol.StepKeepsInv | apps/auth/src/lifecycle/service.ts:187-231 | every step of the two services keeps versions, receipts, outbox rows and issued tokens consistent |
| IdentityProtocol.RunKeepsInv | apps/auth/src/lifecycle/service.ts:187-231 | the same over every run |
| IdentityHistory.RunKeepsHistory | backend/internal/dal/identity.go:60-87 | over every run each mirrored value is one that the sender held at a version no greater than the mirrored one |
| IdentityTheorems.TokenSafety | backend/internal/api/middleware.go:50-65 | once a command has returned normally no token issued before it committed is ever accepted again, under any interleaving of loss, retry, repetition and reordering |
| IdentityTheorems.InactiveAccountHasNoToken | apps/auth/src/security/access-policy.ts:57-93 | while the two versions agree no token at all is accepted for an account that is not active |
| IdentityTheorems.RunRemembers | backend/internal/dal/identity.go:60-79 | the API's security version never falls, and nothing issued, settled or held is forgotten |
| IdentityTheorems.DrainedVersionsEqual | apps/auth/src/lifecycle/service.ts:198-231 | the API's version never passes the sender's and equals it once the account's outbox has drained |
| IdentityTheorems.HeldRecordsHistory | apps/auth/src/lifecycle/service.ts:182-185 | the recorded history at a version is the state the account really had at that version |
| IdentityTheorems.MirroredStateWasHeld | backend/internal/dal/identity.go:143-190 | under any delivery order the API shows a state that the sender held at a version no greater than the API's |
| IdentityTheorems.MirroredDeletionIsReal | backend/internal/dal/identity.go:181-190 | the API says deleted only if the sender does |
| IdentityTheorems.DeletedIsForever | backend/internal/dal/identity.go:77-79 | deleted is absorbing on both sides: no late event revives an account |
| IdentityTheorems.MirrorsNewestEffective | backend/internal/dal/identity.go:77-87 | under any order the API shows what the newest event that took effect carries, or the first value while none has |
| IdentityTheorems.ConvergesOnceNewestTookEffect | backend/internal/dal/identity.go:77-87 | state and MFA flag agree with the sender as soon as the newest event carrying them took effect |
| IdentityOrder.InStepIff | backend/internal/dal/identity.go:77-87 | over every run and under any order a mirrored value is the one held at the mirrored version if and only if the newest event that took effect carries the same value as the newest command up to that version, or none took effect and the account started with that value; once drained that is the sender's current value |
| IdentityOrder.OrderedDeliveryRefines | backend/internal/dal/identity.go:128-197 | if each event arrives after all earlier commands of its account that still exist, every mirrored value is the sender's as of the mirrored version unless a command carrying it was erased without having taken effect; versions that agree mean states that agree; once drained, version and state are the sender's, and the MFA flag unless an MFA command was erased without having taken effect |
| IdentityOrder.ErasedMfaIsMissed | apps/auth/src/lifecycle/service.ts:108-113 | an ordered run with an MFA command erased undelivered: drained, with the sender's version and state but not its MFA flag |
| IdentityOrder.ErasedRequestIsOvertaken | apps/auth/src/lifecycle/service.ts:108-113 | an ordered run in which the state lags behind the mirrored version until the erasure arrives |
| IdentityTheorems.ReorderedDeliveryDiverges | backend/internal/dal/identity.go:77-79 | a concrete reordering after which both services agree on the version but not on the state |
| IdentityAcceptance.AcceptedIff | backend/internal/dal/auth_subjects.go:11-30 | over every run a token that was issued is accepted if and only if its version is the mirrored one, the mirrored state is active and the subject's link stands: imported active, created with a verified address or verified by an event that took effect, and never erased by one |
| IdentityAcceptance.NewTokenIsAccepted | backend/internal/api/middleware.go:45-65 | the token given to a session of an active, verified account is accepted once version and state have been mirrored, if the account was ever linked and not imported as deleted |
| IdentityAcceptance.IssuedIff | apps/auth/src/security/access-policy.ts:57-93 | a session is given a token exactly when its account is active with a verified address; it names session, version and whether MFA was passed in time |
| IdentityAcceptance.ActiveIsNotErased | backend/internal/dal/identity.go:181-190 | no event that erased an account has taken effect while the sender has it active |
| IdentitySessions.TokensNeedNewSession | apps/auth/src/lifecycle/service.ts:233-263 | after a command other than a cancellation a token of its user is issued only from a session that signed in after it committed |
| IdentitySessions.OnlyNewSessionsAuthenticate | apps/auth/src/lifecycle/service.ts:233-263 | once such a command has returned normally every token the API accepts for its user comes from a new sign-in |
| IdentityOutcomes.CommandCommitsIff | apps/auth/src/lifecycle/policy.ts:6-25 | each command commits exactly when the account's state and the time allow it |
| IdentityOutcomes.CommandOutcome | apps/auth/src/lifecycle/service.ts:233-596 | what each command leaves of the account and the outbox, and which event announces it; only a request for deletion sends a message, only an erasure removes rows, and only the account's own |
| IdentityOutcomes.TokenRecoversIff | apps/auth/src/lifecycle/service.ts:472-532 | over every run a recovery token works exactly until it is used, revoked or expired, whatever the account row says; from its expiry on, and not before, the account can be erased |
| IdentityOutcomes.RequestOpensToken | apps/auth/src/lifecycle/service.ts:347-419 | a request for deletion makes its token the account's only one, usable until the deadline |
| IdentityOutcomes.CancelledHasNoToken | apps/auth/src/lifecycle/service.ts:421-596 | after a cancellation no token can be used, after an erasure none is left |
| IdentityOutcomes.TakenInIsAcknowledged | backend/internal/dal/identity.go:42-59 | an event once taken in is acknowledged ever after without effect, and another one under its id is a conflict |
| IdentityOutcomes.NewEventVerdict | backend/internal/dal/identity.go:60-87 | a new event of a linked account is dropped exactly when older than the stored version, and otherwise applied unless its address is blank or another's, its state not one that is set this way, or its type unknown |
| IdentityOutcomes.UnknownUserVerdict | backend/internal/dal/identity.go:60-126 | an event of an unknown user is taken in exactly when it creates the account with an address that no other has |
| IdentityOutcomes.AppliedOutcome | backend/internal/dal/identity.go:128-204 | an applied event changes one account, keeps or replaces its address, and leaves entries by the actor it names or the account itself |
| IdentityOutcomes.AuditOutcome | backend/internal/dal/identity.go:128-297 | the entries of an applied event: their number, subjects and actions, for MFA events one for each assignment in order |
| IdentityOutcomes.DeliveriesKeepAddressesApart | backend/internal/dal/identity.go:90-157 | whatever is delivered, accounts with different addresses keep different ones |
| MockRounds.RoundTable.ReconcileMockRounds | backend/internal/dal/mock_interviews.go:479-549 | no statement is ever refused for a position; the outcome is the requested rounds at positions 1 to n with their kinds, details and kept reviews, and other interviews are untouched; refused only for a missing score or a foreign id |
| MockRounds.RoundTable.ShiftPositions | backend/internal/dal/mock_interviews.go:520-525 | the bulk shift succeeds row by row in any order when the offset clears every position in use |
| MockRounds.RoundTable.DeleteUnwanted | backend/internal/dal/mock_interviews.go:511-519 | exactly the rounds that are no longer wanted go, with their details |
| MockRounds.RoundTable.Compare | backend/internal/dal/mock_interviews.go:503-510 | which rounds are kept and whether any kept one must move |
| MockRounds.PartlyShiftedIsFree | backend/internal/dal/mock_interviews.go:520-525 | with any subset of the rows shifted no two rounds share a position |
| MockRounds.PositionIsFree | backend/internal/dal/mock_interviews.go:526-549 | the next position is free when its round is about to be written |
| MockRounds.ProgressDone | backend/internal/dal/mock_interviews.go:479-549 | after the last write the table is the requested one |
| MockInterviews.Update | backend/internal/mockinterviews/service.go:143-181 | the interviewer's edit: who may, what is checked, and that stored reviews are carried over |
| MockInterviews.ReviewRound | backend/internal/mockinterviews/service.go:183-203 | the interviewee's review changes that round's review and nothing else |
| MockInterviews.Validate | backend/internal/mockinterviews/service.go:272-294 | the loop accepts exactly the valid interviews, with distinct round ids |
| MockInterviews.Redact | backend/internal/mockinterviews/service.go:217-234 | the redacted copy |
| MockInterviews.RedactionHidesExactlyPrivateText | backend/internal/mockinterviews/service.go:217-234 | an interviewer cannot tell apart interviews that differ only in the interviewee's private text, and can tell apart any others |
| MockStore.SaveThenLoad | backend/internal/dal/mock_interviews.go:567-597 | storing a valid round and loading it gives back its stored parts with the stored review |
| MockStore.MockInterviewStore.LoadMockInterview | backend/internal/dal/mock_interviews.go:228-286 | loading returns the live interview with its rounds in position order |
| MockStore.MockInterviewStore.AppendVersion | backend/internal/dal/mock_interviews.go:599-612 | the next version is one more than the largest |
| MockStore.MockInterviewStore.UpdateMockInterview | backend/internal/dal/mock_interviews.go:363-371 | an update writes the interviewer's fields and rounds, keeps the stored reviews and notes of the interviewee, and appends what is then stored |
| MockStore.MockInterviewStore.ReviewMockInterviewRound | backend/internal/dal/mock_interviews.go:388-418 | a review writes one round's review into what is stored, not into the copy it was made from |
| MockStore.MockInterviewStore.SetMockIntervieweeNotes | backend/internal/dal/mock_interviews.go:420-433 | notes write only the interviewee's notes |
| MockStore.MockInterviewStore.DeleteMockInterview | backend/internal/dal/mock_interviews.go:373-386 | a deletion marks the interview and appends the copy that its author had |
| MockStore.ReconciledShowsMerged | backend/internal/dal/mock_interviews.go:479-549 | what reconciliation stores reads back as the requested rounds merged with the stored reviews |
| MockHistory.StorableIffNoneForeign | backend/internal/dal/mock_interviews.go:479-549 | the store refuses valid rounds exactly when one of them belongs to another interview |
| MockHistory.StaleWriteEqualsFresh | backend/internal/dal/mock_interviews.go:443-477 | a write that succeeds from a stale copy stores exactly what it would from a fresh one; it records the same snapshot too unless it is a removal from a copy that is not current |
| MockHistory.InterleavingIsSerial | backend/internal/dal/mock_interviews.go:363-425 | any interleaving of reads, writes and a removal stores the interview of the serial order of the writes that took effect; the versions are the same if and only if the newest is the stored interview |
| MockHistory.NoReviewIsLost | backend/internal/mockinterviews/service.go:143-212 | after any run the rounds are those of the last edit, each with the last review written since it was last added |
| MockHistory.VersionsFollow | backend/internal/dal/mock_interviews.go:599-612 | versions number 1 to n without gaps and until a removal the newest snapshot is the stored interview |
| MockHistory.RemovalRecordsStoredIff | backend/internal/dal/mock_interviews.go:373-386 | after any run a removal records what is stored if and only if the writes that took effect since its author read the interview left it as it was |
| MockHistory.RemovalForgetsReview | backend/internal/dal/mock_interviews.go:461-468 | the interviewer reads, the interviewee reviews, the interviewer removes: the last version shows the round as not reviewed |
| MockOwnership.OnlyOwnersWrite | backend/internal/mockinterviews/service.go:143-257 | in any run every edit and removal that takes effect is the interviewer's, every review and note the interviewee's |
| MockOwnership.WriteTakesEffectIff | backend/internal/mockinterviews/service.go:143-294 | from whatever copy it is made, a write takes effect exactly when the interview is not removed, its author owns what it changes, an edit is acceptable and takes no foreign round, and a reviewed round is in the copy and still stored |
| MockOwnership.LastWritesAreShown | backend/internal/dal/mock_interviews.go:363-433 | after any run the interview shows the last edit, the last notes and the removal that took effect, cleaned as written, and nothing else has changed |
| SeasonTransitions.Close | backend/internal/program/service.go:85-107 | the loop closes every active enrollment and no other, on a copy |
| SeasonTransitions.Reopen | backend/internal/program/service.go:110-124 | the loop restores exactly the enrollments of the given close, on a copy |
| SeasonTransitions.ReopenUndoesClose | backend/internal/program/service.go:85-124 | reopening undoes closing if and only if no enrollment carries traces of a close |
| SeasonStore.SeasonStore.CreateEnrollment | backend/internal/dal/enrollments.go:125-154 | enrolling: open season, free key, allowed shape, assignment derived from the MFA flag |
| SeasonStore.SeasonStore.EnrollAccepted | backend/internal/dal/invitations.go:145-152 | the enrollment made when an invitation is accepted |
| SeasonStore.SeasonStore.UpdateEnrollmentRoleAndLevel | backend/internal/dal/enrollments.go:164-187 | the role change of an active enrollment, or a refusal without a trace |
| SeasonStore.SeasonStore.PromoteEnrollment | backend/internal/dal/enrollments.go:196-238 | the promotion of an active enrollment, or a refusal without a trace |
| SeasonStore.SeasonStore.RemoveEnrollment | backend/internal/dal/enrollments.go:247-296 | a student is kicked and anyone else withdrawn, with the assignment revoked |
| SeasonStore.SeasonStore.CorrectEnrollment | backend/internal/dal/enrollment_corrections.go:22-77 | moving an enrollment between users and open seasons, with each reason to refuse |
| SeasonStore.SeasonStore.ApplyMfa | backend/internal/dal/identity.go:236-255 | both bulk updates together flip exactly the user's active coordinator assignments and close snapshots |
| SeasonStore.SeasonStore.LoadProgramSeason | backend/internal/dal/season_transitions.go:17-49 | the loaded season lists each live enrollment of the season once |
| SeasonStore.SeasonStore.LoadProgramReopenSeason | backend/internal/dal/season_transitions.go:51-74 | the loaded season carries close ids of the given event only |
| SeasonStore.SeasonStore.CloseSeason | backend/internal/dal/seasons.go:207-247 | the row updates that follow the pure transition close every live active row of the season together with its status and close event |
| SeasonStore.SeasonStore.ReopenSeason | backend/internal/dal/seasons.go:265-306 | the row updates that follow the pure transition restore every row of the open close event, or nothing changes at all |
| SeasonStore.RestoredWhenCompletedBy | backend/internal/dal/seasons.go:278-285 | the pure transition restores exactly the rows that the close completed |
| SeasonTheorems.StepKeepsInv | db/migrations/00001_foundation.sql:260-293 | every operation keeps seasons, close events, enrollments and MFA flags consistent |
| SeasonTheorems.RunKeepsInv | db/migrations/00001_foundation.sql:260-293 | the same over every run |
| SeasonTheorems.ReachableInv | db/migrations/00001_foundation.sql:260-293 | whatever follows from open seasons without enrollments satisfies the invariant |
| SeasonTheorems.ClosedHasNoActive | backend/internal/dal/seasons.go:199-306 | after any run a closed season has no active enrollment and an open one has none completed by a close |
| SeasonTheorems.RemovedForever | backend/internal/dal/enrollments.go:247-296 | no run, reopening included, revives a kicked or withdrawn enrollment |
| SeasonTheorems.CloseStoresTransition | backend/internal/dal/seasons.go:219-226 | the stored rows after closing are the pure transition's result |
| SeasonTheorems.ReopenStoresTransition | backend/internal/dal/seasons.go:278-285 | the stored rows after reopening are the pure transition's result if and only if every restored row has a snapshot that the MFA flag agrees with |
| SeasonTheorems.ReopenNeverBlocked | backend/internal/dal/seasons.go:265-285 | on every reachable state the snapshots are current, so a check constraint never refuses a reopening |
| SeasonTheorems.MfaCommutesWithClose | backend/internal/dal/identity.go:236-296 | on an enrollment of an open season an MFA event and a close commute |
| SeasonTheorems.ClosingIsInvisible | backend/internal/dal/seasons.go:219-285 | closing, any MFA events and reopening leave every enrollment as the same events leave it in a season that was never closed |
| EnrollmentOutcomes.EnrollmentOutcome | backend/internal/dal/enrollments.go:125-154 | over every run enrolling succeeds exactly for an open season, a free id, a user without an enrollment there and the active state; a student starts as a novice, and an assignment is active unless a coordinator's MFA is missing |
| EnrollmentOutcomes.RoleOutcome | backend/internal/dal/enrollments.go:164-238 | over every run a change of role or a promotion succeeds exactly for an active enrollment, and a change only with a fitting level; it sets role, level and assignment of that enrollment alone |
| EnrollmentOutcomes.RemovalOutcome | backend/internal/dal/enrollments.go:247-296 | over every run a removal succeeds exactly for an active enrollment with a reason, leaves a student kicked and a mentor or coordinator withdrawn and every other row unchanged, and state and role stay so whatever follows |
| EnrollmentOutcomes.RemovedTellsRole | backend/internal/dal/enrollments.go:247-296 | after any run only students are kicked and only mentors and coordinators withdrawn |
| EnrollmentOutcomes.CorrectionOutcome | backend/internal/dal/enrollment_corrections.go:22-77 | over every run exactly which corrections succeed, and that they change holder and season, and the assignment of an active coordinator, and nothing else |
| EnrollmentOutcomes.CloseOutcome | backend/internal/dal/seasons.go:199-247 | over every run a close succeeds exactly for an open season with an unused id and a reason, and completes exactly its live active enrollments |
| EnrollmentOutcomes.ReopenOutcome | backend/internal/dal/seasons.go:257-306 | over every run a reopening succeeds exactly for an open close event, and restores exactly what it completed, with the assignment that the MFA flag gives |
| EnrollmentOutcomes.MfaOutcome | backend/internal/dal/identity.go:206-297 | over every run an MFA event changes only the user's own coordinator assignments and close snapshots, and only when the flag changes |
| LegacySource.IndexRows | scripts/legacy-migration/migration/planner_helpers.go:59-65 | the loop builds the index of a table |
| LegacySource.IndexedIsSound | scripts/legacy-migration/migration/planner_helpers.go:59-65 | the index knows exactly the ids of the table and maps each to a row that has it |
| LegacySource.ActiveKickEvents | scripts/legacy-migration/migration/planner_helpers.go:161-174 | the loop builds the map of live kicks |
| LegacySource.KicksAreLive | scripts/legacy-migration/migration/planner_helpers.go:161-174 | a member is in the map of kicks exactly when a live kick event says so |
| LegacySource.KicksAreLatest | scripts/legacy-migration/migration/planner_helpers.go:161-174 | of several live kicks the one kept is not earlier than any other |
| LegacySource.FirstMembershipFound | scripts/legacy-migration/migration/planner_helpers.go:76-83 | the search finds an enrollment of the member exactly when there is one |
| LegacyAnalysis.AnalyzeSourceKeys | scripts/legacy-migration/migration/planner_analysis.go:19-42 | reports exactly the missing tables, malformed ids and duplicated ids |
| LegacyAnalysis.AnalyzeProgram | scripts/legacy-migration/migration/planner_analysis.go:90-165 | reports exactly the flawed seasons, weeks, enrollments and mentorships with their flaws |
| LegacyAnalysis.AnalyzeRemovalEvents | scripts/legacy-migration/migration/planner_analysis.go:366-386 | reports exactly the flawed kick events with their flaws |
| LegacyAnalysis.AnalyzeSnapshot | scripts/legacy-migration/migration/planner_analysis.go:7-17 | nothing is reported if and only if the snapshot is clean |
| LegacyTransform.SnapshotTransformer.TransformSeasons | scripts/legacy-migration/migration/planner_transform.go:89-117 | every season becomes its row, an ended one also its close event |
| LegacyTransform.SnapshotTransformer.TransformUsers | scripts/legacy-migration/migration/planner_transform.go:119-165 | every user becomes its account and satellites, a live administrator also a pending director |
| LegacyTransform.SnapshotTransformer.EnrollmentRow | scripts/legacy-migration/migration/planner_transform.go:175-216 | the branches give the state, assignment and close snapshot that the enrollment's fate demands |
| LegacyTransform.SnapshotTransformer.EnrollmentEndedAt | scripts/legacy-migration/migration/planner_transform.go:256-273 | when an enrollment stopped being a live membership |
| LegacyTransform.SnapshotTransformer.MentorshipRow | scripts/legacy-migration/migration/planner_transform.go:218-240 | a mentorship ends with the earlier departure of its two sides |
| LegacyTransform.SnapshotTransformer.TransformProgram | scripts/legacy-migration/migration/planner_transform.go:167-254 | every week, enrollment, mentorship and live kick becomes its row |
| LegacyTransform.SnapshotTransformer.ResolveRow | scripts/legacy-migration/migration/planner_transform.go:435-444 | whichever order the columns are taken in, exactly the non-empty text references become keys |
| LegacyTransform.SnapshotTransformer.Finish | scripts/legacy-migration/migration/planner_transform.go:431-476 | the result lists the non-empty tables in writing order with every reference resolved |
| LegacyTransform.TransformSnapshot | scripts/legacy-migration/migration/planner_transform.go:24-53 | the whole transform yields the specified import |
| LegacyClosure.ImportIsClosedIff | scripts/legacy-migration/migration/planner_schema.go:49-111 | when the analysis finds nothing, every foreign key of every row names a row of an earlier table if and only if the snapshot holds its foreign keys as texts |
| LegacyClosure.NumericKeyDangles | scripts/legacy-migration/migration/planner_transform.go:438-441 | a clean snapshot with a key held as a number, whose import is not closed |
| LegacyClosure.TablesAreInOrder | scripts/legacy-migration/migration/planner_schema.go:49-74 | the result lists every non-empty table once, in writing order |
| LegacyClosure.ReferencesPointBack | scripts/legacy-migration/migration/planner_schema.go:83-111 | every reference column points to a table written earlier |
| LegacyClosure.EnrollmentShapes | scripts/legacy-migration/migration/planner_transform.go:188-213 | an imported enrollment has one of the three allowed shapes if and only if its legacy row is not that of a student or mentor who was neither kicked nor deleted, in a season that has not ended, without a creation time; it has a close event and snapshot exactly when completed |
| LegacyClosure.MentorshipEnds | scripts/legacy-migration/migration/planner_transform.go:218-236 | a mentorship is imported without an end if and only if neither side left at a recorded time; otherwise it ends no later than either departure |
| LegacyCounterexamples.UntimedEnrollmentBreaksShape | scripts/legacy-migration/migration/planner_transform.go:188-213 | a clean snapshot with an active student without a creation time, imported with no allowed shape |
| LegacyCounterexamples.UntimedKickLeavesMentorshipOpen | scripts/legacy-migration/migration/planner_transform.go:218-240 | a clean snapshot with a kick without a time, whose mentorship is imported without an end |
| LegacyManifests.KeyTellsSource | scripts/legacy-migration/migration/planner_schema.go:113-116 | rows with the same generated key come from one legacy row |
| LegacyManifests.ImportIsUnambiguous | scripts/legacy-migration/migration/planner_manifest.go:7-58 | no two rows that the importer makes of one source table share id and values, whatever the snapshot |
| LegacyManifests.Plan | scripts/legacy-migration/migration/planner_transform.go:24-53 | the planned import is the transformed snapshot with the manifest of its own rows, and is consistent with it |
| LegacyManifests.PlanApplyVerify | scripts/legacy-migration/migration/engine.go:40-125 | what is planned from a snapshot is applied whenever the target admits it, and then verifies, with nothing assumed of the manifest |
| LegacyCleanliness.CleanIff | scripts/legacy-migration/migration/planner_analysis.go:7-165 | the analysis finds nothing if and only if every table is there with usable and distinct ids, dates are in order, every row names rows that exist, weeks lie in their seasons, roles fit levels, mentorships join a student and somebody else in one season, the deleted were kicked and the kicked were enrolled |
| LegacyImported.OneRowEach | scripts/legacy-migration/migration/planner_transform.go:89-254 | every legacy user, season, week, enrollment and mentorship has exactly one row, in order, in each table it goes to; directors, close events and removals have one for each live administrator, ended season and live kick |
| LegacyImported.UserRows | scripts/legacy-migration/migration/planner_transform.go:119-151 | a user is deleted in the import exactly when deleted before, owns its row in every satellite table, and when deleted has a pseudonym in place of personal data |
| LegacyImported.DirectorRows | scripts/legacy-migration/migration/planner_transform.go:155-162 | each live administrator is a pending director that refers to the own account |
| LegacyImported.OneDirectorPerAdministrator | scripts/legacy-migration/migration/planner_transform.go:155-162 | when the analysis finds nothing a user has exactly one director row, pending, if IsAdmin is true and the user is not deleted, and none otherwise |
| LegacyImported.SeasonRows | scripts/legacy-migration/migration/planner_transform.go:89-117 | a season is imported closed, at the time of the snapshot, exactly when its end lies before it |
| LegacyImported.CloseEventRows | scripts/legacy-migration/migration/planner_transform.go:98-104 | the close event of an ended season names that season and nobody |
| LegacyImported.WeekRows | scripts/legacy-migration/migration/planner_transform.go:168-174 | a week keeps number, dates and season |
| LegacyImported.EnrollmentRows | scripts/legacy-migration/migration/planner_transform.go:175-216 | kicked if a live kick says so, since the latest one; else withdrawn if deleted; else completed if the season has ended, by its close event; else active; role, level and assignment as numbered |
| LegacyImported.RemovalRows | scripts/legacy-migration/migration/planner_transform.go:241-252 | a live kick becomes the removal of an enrollment of that member in that season, with its reason, time and author |
| LegacyImported.MentorshipRows | scripts/legacy-migration/migration/planner_transform.go:218-240 | a mentorship is one of the mentor's season and ends at the first recorded departure of its two sides |
| LegacyImported.KickedIffRemoved | scripts/legacy-migration/migration/planner_transform.go:181-252 | in a closed import an enrollment is kicked if and only if a removal of the same member from the season is imported |
| LegacyImported.StateFollowsSeason | scripts/legacy-migration/migration/planner_transform.go:89-216 | in a closed import no enrollment is active in a closed season and none is completed in an open one |
| LegacyImported.DeletedUsersArePseudonymous | scripts/legacy-migration/migration/planner_transform.go:120-147 | nothing in the import depends on the personal data of a deleted user |
| StringOrder.SortOfPermutation | scripts/legacy-migration/migration/auth0.go:144-146 | sorting forgets the order of its input when equal keys mean equal elements |
| Identity.TrimCuts | scripts/legacy-migration/migration/auth0.go:91-91 | trimming cuts the white space off both ends and nothing else |
| Identity.LowerTells | scripts/legacy-migration/migration/auth0.go:91-91 | texts are equal in lower case exactly when they differ at most in the case of letters |
| Auth0Plan.CheckCandidates | scripts/legacy-migration/migration/auth0.go:84-95 | accepts exactly the candidates with distinct non-empty ids and groups them by e-mail |
| Auth0Plan.CheckUsers | scripts/legacy-migration/migration/auth0.go:96-121 | accepts exactly the users with distinct ids and distinct well-formed identities |
| Auth0Plan.CheckResolutions | scripts/legacy-migration/migration/auth0.go:122-139 | accepts exactly the resolutions that name known app users and unblocked Auth0 users, one each |
| Auth0Plan.MakeItem | scripts/legacy-migration/migration/auth0.go:141-178 | the item of one user |
| Auth0Plan.PlanAuth0Import | scripts/legacy-migration/migration/auth0.go:80-214 | the loops compute the plan that is specified without them, or refuse exactly the unacceptable inputs |
| Auth0Order.AcceptsPermutes | scripts/legacy-migration/migration/auth0.go:84-139 | whether inputs are accepted does not depend on their order |
| Auth0Order.PlanIgnoresOrder | scripts/legacy-migration/migration/auth0.go:80-214 | reordering users, their identities, candidates and resolutions yields an equal plan, or none alike |
| Auth0Order.VerifyAuth0PlanBinding | scripts/legacy-migration/migration/auth0_import.go:39-57 | binding succeeds if and only if the inputs reproduce the plan at its own time |
| Auth0Order.BindingAcceptsReordering | scripts/legacy-migration/migration/auth0_import.go:39-57 | a plan is bound to inputs exactly when it is bound to any reordering of them |
| Auth0Order.LinksAreExplicit | scripts/legacy-migration/migration/auth0.go:78-186 | each user has one item, resolved exactly as an explicit resolution says, never by e-mail |
| Auth0Groups.AddIdentities | scripts/legacy-migration/migration/auth0_import.go:99-111 | the identities fit exactly when every provider is known and all Google accounts agree |
| Auth0Groups.BuildAuth0ImportGroups | scripts/legacy-migration/migration/auth0_import.go:61-121 | groups are built if and only if every resolved item can be represented; there is one per app user, describing its members |
| Auth0Groups.GroupsPartition | scripts/legacy-migration/migration/auth0_import.go:73-121 | each resolved Auth0 user is in the group of its app user and in no other, and groups hold nobody else |
| Auth0Groups.OneAccountPerGroup | scripts/legacy-migration/migration/auth0_import.go:93-111 | a group has one e-mail and at most one Google account, its members' own |
| Auth0Import.PlannedGroups | scripts/legacy-migration/migration/auth0_import.go:61-121 | for the plan of any accepted inputs: each resolved user is in the group of its app user and in no other, with that group's one e-mail and at most one Google account |
| Auth0Import.PlanAndGroup | scripts/legacy-migration/migration/auth0_import.go:61-121 | planning and grouping succeed exactly for accepted inputs whose plan can be represented, and the groups then partition the resolved users |
| Auth0Outcomes.AcceptedIff | scripts/legacy-migration/migration/auth0.go:84-139 | inputs are accepted if and only if candidates and users have distinct non-empty ids, identities are not blank and belong to one user, and each resolution, one for a user, names a candidate and an unblocked user |
| Auth0Outcomes.ItemOutcome | scripts/legacy-migration/migration/auth0.go:141-177 | each user has one item: matched or in need of a reset when resolved, as its password can be kept or not; else unresolved because blocked, because app users have its verified address, or for want of any |
| Auth0Outcomes.ReconciliationOutcome | scripts/legacy-migration/migration/auth0.go:183-204 | the counts add up to the users, and as many are unresolved as need a resolution |
| Auth0Outcomes.UnresolvedOutcome | scripts/legacy-migration/migration/auth0.go:189-195 | a user is listed as unresolved exactly when no resolution names it |
| Auth0Outcomes.BuildableIff | scripts/legacy-migration/migration/auth0_import.go:61-121 | accounts can be built if and only if every resolved user has an address, no password that could be kept and only known providers, and users resolved to one app user have one address and at most one Google account |
| Auth0Outcomes.GroupOutcome | scripts/legacy-migration/migration/auth0_import.go:61-121 | an account has exactly the users resolved to its app user; it is verified or has a password when one of them does, and has the Google account that any of them has |
| TargetState.MatchesIffHolds | scripts/legacy-migration/migration/state_target.go:147-158 | when the sorted rows, in whatever order they were met, are the expected list then they are the expected rows; and the other way round when no two expected rows share id and values |
| TargetState.VerifyState | scripts/legacy-migration/migration/state_target.go:127-163 | success means that the run is known under this manifest and holds the expected rows of every source table; and it succeeds whenever it does, for every manifest whose rows tell apart |
| TargetState.BuildTableManifests | scripts/legacy-migration/migration/planner_manifest.go:7-58 | the loops compute, per source table, the sorted list of its prepared rows |
| ImportEngine.AppliedThenVerifies | scripts/legacy-migration/migration/engine.go:40-125 | after a committed apply the manifest verifies, in any walking order, and so does every manifest that did before |
| ImportEngine.RemovalIsNoticed | scripts/legacy-migration/migration/state_target.go:133-158 | removing an imported row makes verification fail |
| ImportEngine.ChangeIsNoticed | scripts/legacy-migration/migration/state_target.go:133-158 | replacing an imported row by any other record makes verification fail |
| ImportEngine.StepKeepsInv | scripts/legacy-migration/migration/state_target.go:71-186 | every step of any number of engines keeps the stored rows and committed runs |
| ImportEngine.EnginesAreSafe | scripts/legacy-migration/migration/state_target.go:71-186 | however many engines apply, verify, fail and die: no stored row is lost, no run commits twice, every committed run verifies |
| ImportEngine.OneEngineApplies | scripts/legacy-migration/migration/engine.go:40-87 | an engine that meets no other writes the applied state exactly when it can be applied and saved |
| ImportEngine.OneEngineVerifies | scripts/legacy-migration/migration/engine.go:90-125 | the same for an engine that has verified a run |
| StateTransaction.StateTx.AcquireAdvisoryLock | scripts/legacy-migration/migration/state_target.go:71-96 | locking reloads the state, once |
| StateTransaction.StateTx.Apply | scripts/legacy-migration/migration/state_target.go:104-125 | the loops apply the import or report the first conflict |
| StateTransaction.StateTx.Verification | scripts/legacy-migration/migration/state_target.go:127-163 | a successful verification marks the run verified and changes nothing else |
| StateTransaction.StateTx.Commit | scripts/legacy-migration/migration/state_target.go:165-178 | a commit saves the working state once and releases the lock; a failing release is returned after the save |
| StateTransaction.StateTx.Abort | scripts/legacy-migration/migration/state_target.go:180-199 | an abort releases the lock and leaves the file |
| StateTransaction.CompareSourcePlan | scripts/legacy-migration/migration/engine.go:127-146 | the loop compares schema, snapshot, resolutions and every table |
| StateTransaction.EngineApply | scripts/legacy-migration/migration/engine.go:40-87 | the file becomes the applied state exactly when the plan is approved and everything up to the rename succeeds; an error in releasing the lock after it is returned although the file has changed |
| StateTransaction.EngineApplyIsRun | scripts/legacy-migration/migration/engine.go:40-87 | what an engine writes is what its steps write in the protocol of many engines |
| StateTransaction.EngineVerify | scripts/legacy-migration/migration/engine.go:90-125 | verifying changes no record; success means that the stored rows are the expected ones, and a manifest whose rows tell apart succeeds whenever they are |
| StateTransaction.ApplyThenVerify | scripts/legacy-migration/migration/engine.go:40-125 | applying and then verifying the same manifest succeeds |
| TargetOutcomes.AppliesIff | scripts/legacy-migration/migration/state_target.go:104-125 | an import applies exactly when its run is new and no place of its rows is taken or named twice |
| TargetOutcomes.AppliedOutcome | scripts/legacy-migration/migration/state_target.go:104-125 | applying records the run as unverified and stores every row at its place with its source, keeps what was stored, and stores nothing else |
| TargetOutcomes.OnlyAppliedIsKnown | scripts/legacy-migration/migration/state_target.go:127-133 | under the applied run only the manifest with the applied checksum is known |
| TargetOutcomes.WrittenIff | scripts/legacy-migration/migration/engine.go:40-87 | a run is written exactly when its manifest is intact and unblocked, planning again agrees with it, the file operations succeed and the import applies |
| Pagination.PaginateOrdered | backend/internal/api/pagination.go:46-90 | the search and the index arithmetic give the page next to the boundary, or an error when it is not in the list |
| Pagination.FinishPage | backend/internal/dal/pagination.go:5-14 | drops the extra row and turns a backward page around in place |
| Pagination.PageInfoForKeyset | backend/internal/api/pagination.go:92-132 | which cursors a page has |
| Pagination.KeysetRefinesOrdered | backend/internal/dal/users.go:140-176 | the keyset query finished and described gives the in-memory page: same items, hasMore and cursors, for every direction, limit and boundary in the list |
| Pagination.WalkReadsEverything | backend/internal/api/pagination.go:46-90 | following next cursors from the start reads the whole list once, in order, and ends |
| Pagination.PreviousUndoesNext | backend/internal/api/pagination.go:46-90 | going back from the page after a page shows that page again with the same cursors |
| RateLimit.FixedWindowRateLimiter.Consume | apps/auth/src/security/rate-limit.ts:29-59 | one request: the answer and the counters, including automatic pruning |
| RateLimit.FixedWindowRateLimiter.Prune | apps/auth/src/security/rate-limit.ts:61-66 | the loop removes exactly the expired counters |
| RateLimit.PruningIsInvisible | apps/auth/src/security/rate-limit.ts:50-66 | pruning, automatic or not and whenever it happens, changes no later answer |
| RateLimit.AtMostTwiceMax | apps/auth/src/security/rate-limit.ts:29-59 | of the answers to any run, no half-open interval of one window's length lets more than twice the maximum through for a key with one policy |
| RateLimit.WindowLetsFirstMaxThrough | apps/auth/src/security/rate-limit.ts:29-59 | of the requests of one window for a key exactly the first max are let through, and each is told the limit, how many are left and when the window ends |
| RateLimit.RemainingIsWhatIsLeft | apps/auth/src/security/rate-limit.ts:44-58 | the remaining number of an answer is how many later requests of the key the same window lets through, or all that come |
| RateLimit.RetryAfterSuffices | apps/auth/src/security/rate-limit.ts:44-58 | a request that waits for the reported retry-after opens a fresh window, and the wait is minimal in whole seconds |
| ZonedTime.ZonedDateTimeToUtc | apps/web/src/utils.ts:118-147 | the loop of at most four corrections |
| ZonedTime.FindsExisting | apps/web/src/utils.ts:131-146 | with at most one change of offset nearby, the result has the requested local time if and only if some instant has |
| ZonedTime.GapEndsBeside | apps/web/src/utils.ts:131-146 | in a gap the result is one of the two neighbouring instants, chosen by the offset at the first guess |
| ZonedTime.AmbiguousTimeChosen | apps/web/src/utils.ts:131-146 | of two instants with the local time the offset at the first guess decides |
| ZonedTime.FormatUndoesConvert | apps/web/src/utils.ts:109-147 | formatting the result gives back a well-formed input exactly when its local time exists |
| Invitations.InvitationStore.CreateInvitation | backend/internal/dal/invitations.go:56-83 | creating an invitation, with each reason to refuse |
| Invitations.InvitationStore.ChangeInvitation | backend/internal/dal/invitations.go:85-117 | cancelling or resending a pending invitation of an open season |
| Invitations.InvitationStore.MarkInvitationSent | backend/internal/dal/invitations.go:118-121 | sets the sent time for the current delivery only |
| Invitations.InvitationStore.InvitationForUser | backend/internal/dal/invitations.go:123-126 | finds the invitation that a token opens for a user, or there is none |
| Invitations.InvitationStore.AcceptSeen | backend/internal/dal/invitations.go:132-159 | accepts under the lock exactly when everything still holds |
| Invitations.StepKeepsInv | backend/internal/dal/invitations.go:56-160 | every step keeps invitations, looks and acceptances consistent |
| Invitations.InvitationsAreSafe | backend/internal/dal/invitations.go:85-160 | over every interleaving: at most one acceptance, never both accepted and cancelled, and a sent time only for the current delivery |
| Invitations.OnlyCurrentTokenEnrolls | backend/internal/dal/invitations.go:127-160 | a step enrolls someone only through the current, unexpired token of an open season's pending invitation to that person |
| InvitationLife.CreateOutcome | backend/internal/dal/invitations.go:56-83 | exactly which invitations are created; the token opens the invitation to its addressee until it expires, while nobody resends, cancels or accepts it |
| InvitationLife.ResendOutcome | backend/internal/dal/invitations.go:85-117 | resending succeeds exactly for a pending invitation of an open season; the old token opens nothing ever after, the new one opens the invitation for one week |
| InvitationLife.CancelOutcome | backend/internal/dal/invitations.go:85-117 | exactly which invitations are cancelled; a cancelled one is never opened again |
| InvitationLife.SentOutcome | backend/internal/dal/invitations.go:118-121 | a report of sending counts exactly for the current delivery |
| InvitationLife.AcceptOutcome | backend/internal/dal/invitations.go:127-160 | an acceptance takes effect exactly when its reader has looked, the season is open, the token still opens the invitation and the user is not a member; it makes that user a member with the role seen |
| InvitationLife.OpenedIsAccepted | backend/internal/dal/invitations.go:123-160 | whoever can open an invitation while looking and while accepting becomes a member of its open season, and the token is spent |
| Scheduler.SundayIsUnique | backend/internal/worker/scheduler.go:157-165 | the result is the only Sunday 03:00 UTC within the last seven days |
| Scheduler.DueWhenUnserved | backend/internal/worker/scheduler.go:48-62 | a run is due if and only if no recorded run has served the current slot; in the slot's first minute it is scheduled, later catching up |
| Scheduler.TriesStopRight | backend/internal/worker/scheduler.go:119-133 | every try but the last failed; the last one succeeded, met an ended context or was the last allowed |
| Scheduler.LeetCodeScheduler.RunSync | backend/internal/worker/scheduler.go:100-148 | a locked run is recorded once, with success exactly when no try was made or the last one had no error and no failed item |
| Scheduler.NoTrySucceeds | backend/internal/worker/scheduler.go:100-148 | a concrete run with a negative number of attempts: no try, recorded as a success |
| Scheduler.LeetCodeScheduler.RunDue | backend/internal/worker/scheduler.go:74-90 | runs exactly when the slot is unserved, with the right trigger |
| Scheduler.EachSlotOnce | backend/internal/worker/scheduler.go:48-90 | with one worker, a clock that never goes back and recorded runs, each slot gets at most one scheduled or catch-up run |

## Left out

- IdentityProtocol.RunKeepsInv: access tokens never expire in the model, so more tokens are outstanding than in the program.
- SeasonTheorems.ClosingIsInvisible: only MFA events are taken between closing and reopening, because every other operation on the season is refused while it is closed.
- ZonedTime.FormatUndoesConvert: a date is a day number; the calendar that names days by year, month and day is not modelled, nor the digits of the input.
- IdentityReceiver.Receiver.ApplyIdentityEvent: profile, contact and preference columns other than the e-mail, and the update of role assignments by MFA events; which assignments these change is a parameter.
- IdentityReceiver.Receiver.ApplyIdentityChange: the same columns and assignment updates; the seasonal ones are in `SeasonStore`.
- AuthLifecycle.AccountLifecycleService.PseudonymizeAccount: the provider accounts, two-factor rows and verifications that are deleted with the account, and its display columns.
- SeasonStore.SeasonStore.UpdateEnrollmentRoleAndLevel: mentorship updates and audit entries.
- SeasonStore.SeasonStore.PromoteEnrollment: the mentorships that end and the audit entry.
- SeasonStore.SeasonStore.RemoveEnrollment: the removal event, the mentorships that end and the audit entry.
- SeasonStore.SeasonStore.CorrectEnrollment: the rewriting of mentorships and attempts.
- LegacyAnalysis.AnalyzeSourceKeys: the six tables of accounts and programs; practice data and mock interviews are not part of the model.
- LegacyTransform.SnapshotTransformer.TransformSeasons: columns that are only copied, and automatic fixes.
- LegacyTransform.SnapshotTransformer.TransformUsers: columns that are only copied, and automatic fixes.
- LegacyTransform.SnapshotTransformer.TransformProgram: columns that are only copied, provenance and automatic fixes.
- LegacyTransform.TransformSnapshot: the tables of practice data and mock interviews.
- TargetState.BuildTableManifests: the source side of a table's manifest (ids, counts, checksums) and the names of its targets.
- StateTransaction.CompareSourcePlan: the source counts and the checksums of source ids and rows.
- StateTransaction.StateTx.Apply: the stored provenance and the time of the apply.
- StateTransaction.StateTx.Verification: the counts, checksums and time that are returned and stored.
- StateTransaction.EngineVerify: the count of foreign key errors, which this target never raises.
- AuthLifecycle.AccountLifecycleService.FlushOutbox: rows are claimed in any order; the order by availability and the limit's choice among equals are not modelled.
- AuthLifecycle.AccountLifecycleService.PseudonymizeDue: accounts are taken in any order; the order by deadline, and the provider rows deleted with an account, are not modelled.
- LegacyTransform.SnapshotTransformer.Finish: provenance, automatic fixes, the sort of rows within a table and the columns that are only copied are not modelled.
- LegacyAnalysis.AnalyzeSnapshot: the checks on users' unique e-mails and slugs, on practice data and on mock interviews are not modelled; leaving them out only weakens what a clean snapshot is assumed to have.
- The importer's other tables: problems, attempts, mock interviews and their rounds, category joins with duplicates, histograms.
- The importer's resolutions file and the PostgreSQL target.
- Global role assignments, mentorship updates, student levels, audit entries and removal events of enrollment operations.
- Creating mock interviews and correcting their participants; soft-deleted rounds.
- Rate limit keys, the choice of a policy by path, and clearing all counters; each is settled by reading one function.
- HTTP handlers, cookies, e-mail sending, token signatures and key caches: plumbing and foreign code.
- At-most-once scheduling by several workers: the decision is taken before the lock, so it is claimed for one worker only.
- Encoding failures of cursors, and a boundary that has left the list: the in-memory pager reports an error there, the query still answers.
