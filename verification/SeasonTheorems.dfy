/** What holds over every run of the enrollment and season operations. */
module SeasonTheorems {
  import opened Wrappers
  import opened SeasonTransitions
  import opened SeasonStore
  import Identity

  datatype Step =
    | Create(id: EnrollmentId, user: UserId, season: SeasonId, role: Role, state: EnrollmentState, now: int)
    | Accept(id: EnrollmentId, user: UserId, season: SeasonId, role: Role, now: int)
    | UpdateRole(id: EnrollmentId, season: SeasonId, role: Role, level: StudentLevel, now: int)
    | Promote(id: EnrollmentId, role: Role, now: int)
    | Remove(id: EnrollmentId, reason: string)
    | Correct(id: EnrollmentId, source: SeasonId, season: SeasonId, user: UserId, eligible: bool, now: int)
    | CloseStep(season: SeasonId, close: CloseId, reason: string, now: int)
    | ReopenStep(season: SeasonId, close: CloseId, reason: string, now: int)
    | Mfa(user: UserId, configured: bool, now: int)

  function Attempt(db: Db, step: Step): Option<Db> {
    match step
    case Create(id, user, season, role, state, now) => Created(db, id, user, season, role, state, now)
    case Accept(id, user, season, role, now) => Accepted(db, id, user, season, role, now)
    case UpdateRole(id, season, role, level, now) => RoleUpdated(db, id, season, role, level, now)
    case Promote(id, role, now) => Promoted(db, id, role, now)
    case Remove(id, reason) => Removed(db, id, reason)
    case Correct(id, source, season, user, eligible, now) => Corrected(db, id, source, season, user, eligible, now)
    case CloseStep(season, c, reason, now) => SeasonClosed(db, season, c, reason, now)
    case ReopenStep(season, c, reason, now) => SeasonReopened(db, season, c, reason, now)
    case Mfa(user, configured, now) => Some(MfaSet(db, user, configured, now))
  }

  function Next(db: Db, step: Step): Db {
    var after := Attempt(db, step);
    if after.Some? then after.value else db
  }

  function Run(db: Db, steps: seq<Step>): Db
    decreases steps
  {
    if steps == [] then db else Run(Next(db, steps[0]), steps[1..])
  }

  // ----- the invariant -----

  /** The assignment that a user's MFA flag gives to a holder of the role. */
  function Due(role: Role, user: UserId, mfa: set<UserId>): Assignment {
    if role == Coordinator && user !in mfa then PendingMfa else Assigned
  }

  /** An enrollment agrees with its season's status and with its user's MFA flag. */
  predicate Settled(r: Row, seasons: map<SeasonId, Status>, mfa: set<UserId>) {
    && r.season in seasons
    && (r.state == Active ==> seasons[r.season] == Open && r.assignment == Due(r.role, r.user, mfa))
    && (r.completedBy.Some? ==>
          && seasons[r.season] == Closed
          && r.closeAssignment == Some(Due(r.role, r.user, mfa))
          && (r.closeAssignment == Some(Assigned) <==> r.closeActivatedAt.Some?))
  }

  predicate SoundRow(r: Row, seasons: map<SeasonId, Status>, mfa: set<UserId>) {
    Shaped(r) && (!r.deleted ==> Settled(r, seasons, mfa))
  }

  ghost predicate SoundRows(rows: Rows, seasons: map<SeasonId, Status>, mfa: set<UserId>) {
    forall id | id in rows :: SoundRow(rows[id], seasons, mfa)
  }

  /** A row completed by a close is completed by the one close of its season that was not reopened. */
  predicate RowOwned(r: Row, closes: map<CloseId, CloseEvent>) {
    !r.deleted && r.completedBy.Some? ==> IsOpenEvent(closes, r.season, r.completedBy.value)
  }

  ghost predicate OwnedByClose(rows: Rows, closes: map<CloseId, CloseEvent>) {
    forall id | id in rows :: RowOwned(rows[id], closes)
  }

  /** A closed season has exactly one close event that was not reopened, an open season none. */
  ghost predicate EventMatchesStatus(seasons: map<SeasonId, Status>, closes: map<CloseId, CloseEvent>, season: SeasonId)
  {
    && (forall c, d | IsOpenEvent(closes, season, c) && IsOpenEvent(closes, season, d) :: c == d)
    && (season in seasons ==> ((exists c :: IsOpenEvent(closes, season, c)) <==> seasons[season] == Closed))
  }

  ghost predicate EventsMatchStatus(seasons: map<SeasonId, Status>, closes: map<CloseId, CloseEvent>) {
    forall season :: EventMatchesStatus(seasons, closes, season)
  }

  ghost predicate OnePerSeason(rows: Rows) {
    forall i, j | i in rows && j in rows && rows[i].user == rows[j].user && rows[i].season == rows[j].season :: i == j
  }

  ghost predicate Inv(db: Db) {
    && SoundRows(db.rows, db.seasons, db.mfa) && OwnedByClose(db.rows, db.closes)
    && EventsMatchStatus(db.seasons, db.closes) && OnePerSeason(db.rows)
  }

  // ----- each step keeps it -----

  ghost predicate SameKeys(before: Rows, after: Rows) {
    after.Keys == before.Keys &&
    forall id | id in before :: after[id].user == before[id].user && after[id].season == before[id].season
  }

  lemma EnrolledKeepsInv(db: Db, id: EnrollmentId, user: UserId, season: SeasonId, role: Role, state: EnrollmentState,
                         assignment: Assignment, now: int)
    requires Inv(db) && Enrolled(db, id, user, season, role, state, assignment, now).Some?
    ensures Inv(Enrolled(db, id, user, season, role, state, assignment, now).value)
  {
  }

  lemma MfaKeepsInv(db: Db, user: UserId, configured: bool, now: int)
    requires Inv(db)
    ensures Inv(MfaSet(db, user, configured, now))
  {
    var after := MfaSet(db, user, configured, now);
    forall id | id in after.rows
      ensures SoundRow(after.rows[id], after.seasons, after.mfa) && RowOwned(after.rows[id], after.closes)
      ensures after.rows[id].user == db.rows[id].user && after.rows[id].season == db.rows[id].season
    {
    }
  }

  lemma ClosedEvents(seasons: map<SeasonId, Status>, closes: map<CloseId, CloseEvent>, season: SeasonId, c: CloseId,
                     now: int)
    requires EventsMatchStatus(seasons, closes) && c !in closes
    requires forall e :: !IsOpenEvent(closes, season, e)
    ensures EventsMatchStatus(seasons[season := Closed], closes[c := CloseEvent(season, now, false)])
  {
    var later, status := closes[c := CloseEvent(season, now, false)], seasons[season := Closed];
    assert forall s, e :: IsOpenEvent(later, s, e) <==> IsOpenEvent(closes, s, e) || (s == season && e == c);
    assert IsOpenEvent(later, season, c);
    assert forall s | EventMatchesStatus(seasons, closes, s) :: EventMatchesStatus(status, later, s);
  }

  lemma CloseKeepsInv(db: Db, season: SeasonId, c: CloseId, reason: string, now: int)
    requires Inv(db) && CanClose(db, season, c, reason)
    ensures Inv(SeasonClosed(db, season, c, reason, now).value)
  {
    var after := SeasonClosed(db, season, c, reason, now).value;
    forall id | id in after.rows
      ensures SoundRow(after.rows[id], after.seasons, after.mfa) && RowOwned(after.rows[id], after.closes)
      ensures after.rows[id].user == db.rows[id].user && after.rows[id].season == db.rows[id].season
    {
    }
    ClosedEvents(db.seasons, db.closes, season, c, now);
  }

  lemma ReopenedShape(r: Row, c: CloseId, seasons: map<SeasonId, Status>, mfa: set<UserId>, now: int)
    requires SoundRow(r, seasons, mfa)
    ensures Shaped(ReopenedRow(r, c, mfa, now))
  {
  }

  lemma ReopenedEvents(seasons: map<SeasonId, Status>, closes: map<CloseId, CloseEvent>, season: SeasonId, c: CloseId)
    requires EventsMatchStatus(seasons, closes) && IsOpenEvent(closes, season, c)
    ensures EventsMatchStatus(seasons[season := Open], closes[c := closes[c].(reopened := true)])
  {
    var later, status := closes[c := closes[c].(reopened := true)], seasons[season := Open];
    assert forall s, e :: IsOpenEvent(later, s, e) <==> IsOpenEvent(closes, s, e) && e != c;
    assert EventMatchesStatus(seasons, closes, season);
    assert forall s | EventMatchesStatus(seasons, closes, s) :: EventMatchesStatus(status, later, s);
  }

  lemma ReopenKeepsInv(db: Db, season: SeasonId, c: CloseId, reason: string, now: int)
    requires Inv(db) && CanReopen(db, season, c, reason, now)
    ensures Inv(SeasonReopened(db, season, c, reason, now).value)
  {
    var after := SeasonReopened(db, season, c, reason, now).value;
    assert EventMatchesStatus(db.seasons, db.closes, season);
    forall id | id in after.rows
      ensures SoundRow(after.rows[id], after.seasons, after.mfa) && RowOwned(after.rows[id], after.closes)
      ensures after.rows[id].user == db.rows[id].user && after.rows[id].season == db.rows[id].season
    {
    }
    ReopenedEvents(db.seasons, db.closes, season, c);
  }

  /** Every operation, whether it succeeds or fails, keeps the invariant. */
  lemma StepKeepsInv(db: Db, step: Step)
    requires Inv(db)
    ensures Inv(Next(db, step))
  {
    if Attempt(db, step).Some? {
      match step
      case Create(id, user, season, role, state, now) =>
        EnrolledKeepsInv(db, id, user, season, role, state, if role == Coordinator then PendingMfa else Assigned, now);
      case Accept(id, user, season, role, now) =>
        EnrolledKeepsInv(db, id, user, season, role, Active, Assigned, now);
      case CloseStep(season, c, reason, now) => CloseKeepsInv(db, season, c, reason, now);
      case ReopenStep(season, c, reason, now) => ReopenKeepsInv(db, season, c, reason, now);
      case Mfa(user, configured, now) => MfaKeepsInv(db, user, configured, now);
      case _ =>
    }
  }

  lemma {:induction false} RunKeepsInv(db: Db, steps: seq<Step>)
    requires Inv(db)
    ensures Inv(Run(db, steps))
    decreases steps
  {
    if steps != [] {
      StepKeepsInv(db, steps[0]);
      RunKeepsInv(Next(db, steps[0]), steps[1..]);
    }
  }

  /** Before any enrollment and any close, open seasons satisfy the invariant; so does whatever follows. */
  lemma ReachableInv(db: Db, steps: seq<Step>)
    requires db.rows == map[] && db.closes == map[]
    requires forall season | season in db.seasons :: db.seasons[season] == Open
    ensures Inv(Run(db, steps))
  {
    assert forall season, c :: !IsOpenEvent(db.closes, season, c);
    RunKeepsInv(db, steps);
  }

  /** After any run a closed season has no active enrollment and an open one has none completed by a close. */
  lemma ClosedHasNoActive(db: Db, steps: seq<Step>, id: EnrollmentId)
    requires Inv(db) && Found(Run(db, steps).rows, id)
    ensures var after := Run(db, steps); var r := after.rows[id];
            && r.season in after.seasons
            && (after.seasons[r.season] == Closed ==> r.state != Active)
            && (after.seasons[r.season] == Open ==> r.completedBy.None?)
  {
    RunKeepsInv(db, steps);
    assert SoundRow(Run(db, steps).rows[id], Run(db, steps).seasons, Run(db, steps).mfa);
  }

  // ----- removal is final -----

  predicate Gone(r: Row) {
    r.state == Kicked || r.state == Withdrawn
  }

  lemma StepKeepsGone(db: Db, step: Step, id: EnrollmentId)
    requires id in db.rows && Gone(db.rows[id])
    ensures id in Next(db, step).rows && Next(db, step).rows[id].state == db.rows[id].state
  {
  }

  /** No run, reopening included, revives a kicked or withdrawn enrollment. */
  lemma {:induction false} RemovedForever(db: Db, steps: seq<Step>, id: EnrollmentId)
    requires id in db.rows && Gone(db.rows[id])
    ensures id in Run(db, steps).rows && Run(db, steps).rows[id].state == db.rows[id].state
    decreases steps
  {
    if steps != [] {
      StepKeepsGone(db, steps[0], id);
      RemovedForever(Next(db, steps[0]), steps[1..], id);
    }
  }

  // ----- the stored rows against the pure transitions -----

  function View(r: Row, id: EnrollmentId): Enrollment {
    Enrollment(id, r.state, Some(r.assignment), r.closeAssignment, r.completedBy)
  }

  /** Closing stores exactly what the pure transition computes. */
  lemma CloseStoresTransition(db: Db, s: Season, season: SeasonId, ids: seq<EnrollmentId>, c: CloseId, reason: string,
                              now: int)
    requires LoadedAs(s, db, season, ids) && CanClose(db, season, c, reason) && c != ""
    ensures var after := SeasonClosed(db, season, c, reason, now).value;
            && ClosedSeason(s, c).status == after.seasons[season]
            && forall i | 0 <= i < |ids| ::
                 var e := ClosedSeason(s, c).enrollments[i];
                 ids[i] in after.rows &&
                 e == if s.enrollments[i].state == Active then View(after.rows[ids[i]], ids[i])
                      else Loaded(after.rows[ids[i]], ids[i])
  {
    assert forall i | 0 <= i < |ids| :: ids[i] in ids && Found(db.rows, ids[i]) && db.rows[ids[i]].season == season;
  }

  /** A snapshot that the MFA flag still agrees with. */
  predicate SnapshotCurrent(r: Row, mfa: set<UserId>) {
    r.closeAssignment.Some? && (r.role == Coordinator ==> r.closeAssignment == Some(Due(r.role, r.user, mfa)))
  }

  ghost predicate ReopenMatches(after: Rows, reopened: Season, ids: seq<EnrollmentId>)
    requires |reopened.enrollments| == |ids|
  {
    forall i | 0 <= i < |ids| ::
      ids[i] in after && reopened.enrollments[i].state == after[ids[i]].state &&
      reopened.enrollments[i].assignment == Some(after[ids[i]].assignment)
  }

  /** Reopening stores what the pure transition computes if and only if each restored row has a current snapshot. */
  lemma ReopenStoresTransition(db: Db, s: Season, season: SeasonId, ids: seq<EnrollmentId>, c: CloseId,
                               reason: string, now: int)
    requires forall id | id in db.rows :: Shaped(db.rows[id])
    requires LoadedForReopenAs(s, db, season, c, ids) && CanReopen(db, season, c, reason, now)
    ensures ReopenMatches(SeasonReopened(db, season, c, reason, now).value.rows, ReopenedSeason(s, c), ids)
            <==> forall i | 0 <= i < |ids| && CompletedBy(db.rows[ids[i]], c) ::
                 SnapshotCurrent(db.rows[ids[i]], db.mfa)
  {
    var after := SeasonReopened(db, season, c, reason, now).value.rows;
    var e := ReopenedSeason(s, c).enrollments;
    forall i | 0 <= i < |ids|
      ensures ids[i] in after
      ensures (e[i].state == after[ids[i]].state && e[i].assignment == Some(after[ids[i]].assignment))
              <==> (CompletedBy(db.rows[ids[i]], c) ==> SnapshotCurrent(db.rows[ids[i]], db.mfa))
    {
      assert ids[i] in ids && Found(db.rows, ids[i]) && db.rows[ids[i]].season == season;
    }
  }

  /** On a reachable state every snapshot is current, so no constraint ever refuses a reopening. */
  lemma ReopenNeverBlocked(db: Db, steps: seq<Step>, season: SeasonId, c: CloseId, reason: string, now: int)
    requires Inv(db)
    ensures var after := Run(db, steps);
            && (forall id | Found(after.rows, id) && CompletedBy(after.rows[id], c) ::
               SnapshotCurrent(after.rows[id], after.mfa))
            && (CanReopen(after, season, c, reason, now) <==>
                IsOpenEvent(after.closes, season, c) && season in after.seasons
                && after.closes[c].closedAt <= now && Identity.Trim(reason) != "")
  {
    RunKeepsInv(db, steps);
    var after := Run(db, steps);
    forall id | id in after.rows
      ensures Found(after.rows, id) && CompletedBy(after.rows[id], c) ==> SnapshotCurrent(after.rows[id], after.mfa)
      ensures Shaped(ReopenedRow(after.rows[id], c, after.mfa, now))
    {
      ReopenedShape(after.rows[id], c, after.seasons, after.mfa, now);
    }
    assert EventMatchesStatus(after.seasons, after.closes, season);
  }

  // ----- closing, MFA events and reopening -----

  datatype MfaEvent = MfaEvent(user: UserId, configured: bool, at: int)

  function MfaAll(db: Db, events: seq<MfaEvent>): Db
    decreases events
  {
    if events == [] then db else MfaAll(MfaSet(db, events[0].user, events[0].configured, events[0].at), events[1..])
  }

  /** On a row of an open season an MFA event and a close commute. */
  lemma MfaCommutesWithClose(r: Row, c: CloseId, user: UserId, configured: bool, at: int)
    requires Shaped(r) && (r.deleted || r.completedBy.None?)
    ensures MfaRow(ClosedRow(r, c), user, configured, at) == ClosedRow(MfaRow(r, user, configured, at), c)
    ensures MfaRow(r, user, configured, at).season == r.season
  {
  }

  lemma MfaCommutesIn(r: Row, seasons: map<SeasonId, Status>, mfa: set<UserId>, season: SeasonId, c: CloseId,
                      user: UserId, configured: bool, at: int)
    requires SoundRow(r, seasons, mfa) && season in seasons && seasons[season] == Open
    ensures MfaRow(ClosedIn(r, season, c), user, configured, at) == ClosedIn(MfaRow(r, user, configured, at), season, c)
  {
  }

  lemma MfaCommutesOnRows(rows: Rows, seasons: map<SeasonId, Status>, mfa: set<UserId>, season: SeasonId, c: CloseId,
                          user: UserId, configured: bool, at: int)
    requires SoundRows(rows, seasons, mfa) && season in seasons && seasons[season] == Open
    ensures MfaRows(ClosedRows(rows, season, c), user, configured, at)
            == ClosedRows(MfaRows(rows, user, configured, at), season, c)
  {
    forall id | id in rows
      ensures MfaRow(ClosedIn(rows[id], season, c), user, configured, at)
              == ClosedIn(MfaRow(rows[id], user, configured, at), season, c)
    {
      MfaCommutesIn(rows[id], seasons, mfa, season, c, user, configured, at);
    }
  }

  ghost predicate ClosedTwin(open: Db, closed: Db, season: SeasonId, c: CloseId) {
    && IsOpen(open, season) && closed.seasons == open.seasons[season := Closed]
    && closed.mfa == open.mfa && closed.rows == ClosedRows(open.rows, season, c)
    && IsOpenEvent(closed.closes, season, c)
  }

  lemma MfaKeepsTwin(open: Db, closed: Db, season: SeasonId, c: CloseId, e: MfaEvent)
    requires Inv(open) && ClosedTwin(open, closed, season, c)
    ensures ClosedTwin(MfaSet(open, e.user, e.configured, e.at), MfaSet(closed, e.user, e.configured, e.at), season, c)
  {
    MfaCommutesOnRows(open.rows, open.seasons, open.mfa, season, c, e.user, e.configured, e.at);
  }

  lemma {:induction false} MfaRunKeepsTwin(open: Db, closed: Db, season: SeasonId, c: CloseId, events: seq<MfaEvent>)
    requires Inv(open) && ClosedTwin(open, closed, season, c)
    ensures Inv(MfaAll(open, events)) && ClosedTwin(MfaAll(open, events), MfaAll(closed, events), season, c)
    ensures MfaAll(closed, events).closes == closed.closes && MfaAll(open, events).seasons == open.seasons
    decreases events
  {
    if events != [] {
      var e := events[0];
      MfaKeepsInv(open, e.user, e.configured, e.at);
      MfaKeepsTwin(open, closed, season, c, e);
      MfaRunKeepsTwin(MfaSet(open, e.user, e.configured, e.at), MfaSet(closed, e.user, e.configured, e.at),
                      season, c, events[1..]);
    }
  }

  predicate NotClosedBy(rows: Rows, c: CloseId) {
    forall id | id in rows :: rows[id].deleted || rows[id].completedBy != Some(c)
  }

  lemma RowsReturn(rows: Rows, seasons: map<SeasonId, Status>, mfa: set<UserId>, season: SeasonId, c: CloseId, now: int)
    requires SoundRows(rows, seasons, mfa) && NotClosedBy(rows, c)
    ensures ReopenedRows(ClosedRows(rows, season, c), season, c, mfa, now) == rows
    ensures RestorableRows(ClosedRows(rows, season, c), season, c, mfa, now)
  {
  }

  /**
   Closing a season, any MFA events, then reopening it: every enrollment ends exactly as the same MFA
   events leave it in a season that was never closed. With no event this is the close and reopen round trip.
   */
  lemma ClosingIsInvisible(db: Db, season: SeasonId, c: CloseId, why: string, closedAt: int,
                           events: seq<MfaEvent>, reason: string, now: int)
    requires Inv(db) && CanClose(db, season, c, why) && closedAt <= now && Identity.Trim(reason) != ""
    ensures var during := MfaAll(SeasonClosed(db, season, c, why, closedAt).value, events);
            && CanReopen(during, season, c, reason, now)
            && var after := SeasonReopened(during, season, c, reason, now).value;
               after.(closes := db.closes) == MfaAll(db, events).(closes := db.closes)
  {
    var closed := SeasonClosed(db, season, c, why, closedAt).value;
    MfaRunKeepsTwin(db, closed, season, c, events);
    var open, during := MfaAll(db, events), MfaAll(closed, events);
    assert NotClosedBy(db.rows, c) by {
      assert forall id | id in db.rows :: RowOwned(db.rows[id], db.closes);
    }
    MfaKeepsCloseIds(db, events, c);
    RowsReturn(open.rows, open.seasons, open.mfa, season, c, now);
    assert open.seasons[season := Closed][season := Open] == open.seasons;
  }

  lemma {:induction false} MfaKeepsCloseIds(db: Db, events: seq<MfaEvent>, c: CloseId)
    requires NotClosedBy(db.rows, c)
    ensures NotClosedBy(MfaAll(db, events).rows, c)
    decreases events
  {
    if events != [] {
      MfaKeepsCloseIds(MfaSet(db, events[0].user, events[0].configured, events[0].at), events[1..], c);
    }
  }
}
