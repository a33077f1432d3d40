/**
 When each enrollment operation succeeds and what it leaves, over every state that can be reached: the
 checks and triggers of the schema never decide otherwise than said here.
 */
module EnrollmentOutcomes {
  import opened Wrappers
  import opened SeasonTransitions
  import opened SeasonStore
  import opened SeasonTheorems
  import Identity

  /** Before any enrollment and any close, every season is open. */
  predicate Begins(db: Db) {
    && db.rows == map[] && db.closes == map[]
    && forall season | season in db.seasons :: db.seasons[season] == Open
  }

  /** Nothing but one enrollment differs. */
  predicate OnlyChanges(db: Db, after: Db, id: EnrollmentId) {
    id in after.rows && after == db.(rows := db.rows[id := after.rows[id]])
  }

  predicate HasEnrollment(rows: Rows, user: UserId, season: SeasonId) {
    exists id | id in rows :: rows[id].user == user && rows[id].season == season
  }

  /** An active holder of a role: activated now, unless a coordinator's MFA is missing. */
  predicate ActiveHolder(r: Row, role: Role, mfa: set<UserId>, now: int) {
    && r.role == role && r.state == Active && !r.deleted && r.completedBy.None?
    && if role == Coordinator && r.user !in mfa then r.assignment == PendingMfa && r.activatedAt.None?
       else r.assignment == Assigned && r.activatedAt == Some(now)
  }

  /** A student starts as a novice, anybody else without a level. */
  predicate StartsAt(r: Row) {
    if r.role == Student then r.level == Novice else r.level == NotApplicable
  }

  // ----- enrolling -----

  lemma EnrollmentOutcome(start: Db, steps: seq<Step>, step: Step)
    requires Begins(start) && (step.Create? || step.Accept?)
    ensures var db := Run(start, steps);
            var after := Next(db, step);
            && (after != db <==>
                && step.season in db.seasons && db.seasons[step.season] == Open && step.id !in db.rows
                && !HasEnrollment(db.rows, step.user, step.season) && (step.Create? ==> step.state == Active))
            && (after != db ==>
                  && OnlyChanges(db, after, step.id)
                  && after.rows[step.id].user == step.user && after.rows[step.id].season == step.season
                  && ActiveHolder(after.rows[step.id], step.role, db.mfa, step.now) && StartsAt(after.rows[step.id]))
  {
    var db := Run(start, steps);
    assert HasEnrollment(db.rows, step.user, step.season) <==> Taken(db.rows, step.user, step.season, None);
    assert Next(db, step) != db ==> step.id in Next(db, step).rows;
  }

  // ----- a change of role -----

  predicate IsActive(db: Db, id: EnrollmentId) {
    id in db.rows && !db.rows[id].deleted && db.rows[id].state == Active
  }

  lemma RoleOutcome(start: Db, steps: seq<Step>, step: Step)
    requires Begins(start) && (step.UpdateRole? || step.Promote?)
    ensures var db := Run(start, steps);
            && (Attempt(db, step).Some? <==>
                && IsActive(db, step.id)
                && (step.UpdateRole? ==>
                      db.rows[step.id].season == step.season
                      && (step.role == Student <==> step.level != NotApplicable)))
            && (Attempt(db, step).Some? ==>
                  var after := Next(db, step);
                  && OnlyChanges(db, after, step.id)
                  && after.rows[step.id].user == db.rows[step.id].user
                  && after.rows[step.id].season == db.rows[step.id].season
                  && ActiveHolder(after.rows[step.id], step.role, db.mfa, step.now)
                  && if step.UpdateRole? then after.rows[step.id].level == step.level
                     else StartsAt(after.rows[step.id]))
  {
    ReachableInv(start, steps);
    var db := Run(start, steps);
    assert step.id in db.rows ==> SoundRow(db.rows[step.id], db.seasons, db.mfa);
  }

  // ----- removing -----

  /** A removed row says whose it was: students are kicked, others withdrawn. */
  predicate TellsRole(r: Row) {
    (r.state == Kicked ==> r.role == Student) && (r.state == Withdrawn ==> r.role != Student)
  }

  lemma StepKeepsRoles(db: Db, step: Step)
    requires Inv(db) && forall id | id in db.rows :: TellsRole(db.rows[id])
    ensures forall id | id in Next(db, step).rows :: TellsRole(Next(db, step).rows[id])
  {
  }

  lemma {:induction false} RunKeepsRoles(db: Db, steps: seq<Step>)
    requires Inv(db) && forall id | id in db.rows :: TellsRole(db.rows[id])
    ensures forall id | id in Run(db, steps).rows :: TellsRole(Run(db, steps).rows[id])
    decreases steps
  {
    if steps != [] {
      StepKeepsRoles(db, steps[0]);
      StepKeepsInv(db, steps[0]);
      RunKeepsRoles(Next(db, steps[0]), steps[1..]);
    }
  }

  lemma {:induction false} RemovedKeepsRole(db: Db, steps: seq<Step>, id: EnrollmentId)
    requires id in db.rows && (db.rows[id].state == Kicked || db.rows[id].state == Withdrawn)
    ensures id in Run(db, steps).rows && Run(db, steps).rows[id].role == db.rows[id].role
    decreases steps
  {
    if steps != [] {
      StepKeepsGone(db, steps[0], id);
      assert Next(db, steps[0]).rows[id].role == db.rows[id].role;
      RemovedKeepsRole(Next(db, steps[0]), steps[1..], id);
    }
  }

  /**
   A removal succeeds for an active enrollment with a reason. It leaves a student kicked and a mentor or coordinator
   withdrawn, and no other enrollment changed; whatever follows, state and role stay as the removal left them.
   */
  lemma RemovalOutcome(start: Db, steps: seq<Step>, id: EnrollmentId, reason: string, more: seq<Step>)
    requires Begins(start)
    ensures var db := Run(start, steps);
            var after := Next(db, Remove(id, reason));
            && (after != db <==> IsActive(db, id) && Identity.Trim(reason) != "")
            && (after != db ==>
                  && OnlyChanges(db, after, id)
                  && after.rows[id].state == (if db.rows[id].role == Student then Kicked else Withdrawn)
                  && after.rows[id].assignment == Revoked && after.rows[id].activatedAt.None?
                  && after.rows[id].(state := db.rows[id].state, assignment := db.rows[id].assignment,
                                     activatedAt := db.rows[id].activatedAt) == db.rows[id]
                  && id in Run(after, more).rows
                  && Run(after, more).rows[id].state == after.rows[id].state
                  && Run(after, more).rows[id].role == db.rows[id].role)
  {
    var db := Run(start, steps);
    var after := Next(db, Remove(id, reason));
    if Attempt(db, Remove(id, reason)).Some? {
      assert after.rows[id].state != db.rows[id].state;
      RemovedForever(after, more, id);
      RemovedKeepsRole(after, more, id);
    }
  }

  /** After any run only students are kicked and only mentors and coordinators withdrawn. */
  lemma RemovedTellsRole(start: Db, steps: seq<Step>, id: EnrollmentId)
    requires Begins(start) && id in Run(start, steps).rows
    ensures Run(start, steps).rows[id].state == Kicked ==> Run(start, steps).rows[id].role == Student
    ensures Run(start, steps).rows[id].state == Withdrawn ==> Run(start, steps).rows[id].role != Student
  {
    ReachableInv(start, []);
    RunKeepsRoles(start, steps);
  }

  // ----- correcting -----

  /**
   A correction moves an enrollment exactly when both seasons are open, the row is live or removed, it is not already
   there, and the new holder is eligible and has no enrollment in that season. Only holder and season change, and with
   them the assignment of an active coordinator.
   */
  lemma CorrectionOutcome(start: Db, steps: seq<Step>, step: Step)
    requires Begins(start) && step.Correct?
    ensures var db := Run(start, steps);
            var after := Next(db, step);
            && (after != db <==>
                && step.source in db.seasons && db.seasons[step.source] == Open
                && step.season in db.seasons && db.seasons[step.season] == Open
                && step.id in db.rows && db.rows[step.id].season == step.source
                && (db.rows[step.id].user != step.user || step.source != step.season)
                && (!db.rows[step.id].deleted || db.rows[step.id].state in {Kicked, Withdrawn})
                && step.eligible && !HasEnrollment(db.rows, step.user, step.season))
            && (after != db ==>
                  && OnlyChanges(db, after, step.id)
                  && after.rows[step.id].user == step.user && after.rows[step.id].season == step.season
                  && after.rows[step.id].role == db.rows[step.id].role
                  && after.rows[step.id].level == db.rows[step.id].level
                  && after.rows[step.id].state == db.rows[step.id].state
                  && after.rows[step.id].assignment ==
                     (if db.rows[step.id].role == Coordinator && db.rows[step.id].state == Active
                      then if step.user in db.mfa then Assigned else PendingMfa
                      else db.rows[step.id].assignment))
  {
    ReachableInv(start, steps);
    var db := Run(start, steps);
    var after := Next(db, step);
    if step.id in db.rows {
      assert SoundRow(db.rows[step.id], db.seasons, db.mfa);
      assert Attempt(db, step).Some? && after != db ==> step.id in after.rows;
      assert HasEnrollment(db.rows, step.user, step.season) <==>
             Taken(db.rows, step.user, step.season, Some(step.id))
             || (db.rows[step.id].user == step.user && db.rows[step.id].season == step.season);
    }
  }

  // ----- closing, reopening and MFA -----

  /** What a successful close does to one enrollment. */
  predicate RowCompleted(r: Row, after: Row, season: SeasonId, c: CloseId) {
    if r.season == season && !r.deleted && r.state == Active
    then after == r.(state := Completed, completedBy := Some(c), closeAssignment := Some(r.assignment),
                     closeActivatedAt := r.activatedAt, assignment := Revoked, activatedAt := None)
    else after == r
  }

  /** A close succeeds for an open season with an unused id and a reason, and completes exactly its live active rows. */
  lemma CloseOutcome(start: Db, steps: seq<Step>, season: SeasonId, c: CloseId, reason: string, now: int)
    requires Begins(start)
    ensures var db := Run(start, steps);
            var after := Next(db, CloseStep(season, c, reason, now));
            && (after != db <==>
                && season in db.seasons && db.seasons[season] == Open && c !in db.closes && Identity.Trim(reason) != "")
            && (after != db ==>
                  && after.seasons == db.seasons[season := Closed] && after.mfa == db.mfa
                  && after.closes == db.closes[c := CloseEvent(season, now, false)]
                  && after.rows.Keys == db.rows.Keys
                  && forall id | id in db.rows :: RowCompleted(db.rows[id], after.rows[id], season, c))
  {
    ReachableInv(start, steps);
    var db := Run(start, steps);
    assert EventMatchesStatus(db.seasons, db.closes, season);
    assert CanClose(db, season, c, reason) ==> Next(db, CloseStep(season, c, reason, now)).seasons[season] == Closed;
  }

  /** What a successful reopening does to one enrollment. */
  predicate RowRestored(r: Row, after: Row, c: CloseId, mfa: set<UserId>) {
    if !r.deleted && r.completedBy == Some(c)
    then
      && after.state == Active && after.completedBy.None? && after.closeAssignment.None? && after.closeActivatedAt.None?
      && after.assignment == (if r.role == Coordinator && r.user !in mfa then PendingMfa else Assigned)
      && after.activatedAt == r.closeActivatedAt
      && (after.user, after.season, after.role, after.level) == (r.user, r.season, r.role, r.level)
    else after == r
  }

  /**
   A reopening succeeds for the season of an open close event, no earlier than the close and with a reason, and
   restores exactly the rows that the close completed.
   */
  lemma ReopenOutcome(start: Db, steps: seq<Step>, season: SeasonId, c: CloseId, reason: string, now: int)
    requires Begins(start)
    ensures var db := Run(start, steps);
            var after := Next(db, ReopenStep(season, c, reason, now));
            && (after != db <==>
                && c in db.closes && db.closes[c].season == season && !db.closes[c].reopened && season in db.seasons
                && db.closes[c].closedAt <= now && Identity.Trim(reason) != "")
            && (after != db ==>
                  && after.seasons == db.seasons[season := Open] && after.mfa == db.mfa
                  && after.closes == db.closes[c := db.closes[c].(reopened := true)]
                  && after.rows.Keys == db.rows.Keys
                  && forall id | id in db.rows :: RowRestored(db.rows[id], after.rows[id], c, db.mfa))
  {
    ReachableInv(start, steps);
    ReopenNeverBlocked(start, steps, season, c, reason, now);
    var db := Run(start, steps);
    if CanReopen(db, season, c, reason, now) {
      var after := SeasonReopened(db, season, c, reason, now).value;
      assert after.seasons[season] == Open && db.seasons[season] == Closed;
      forall id | id in db.rows
        ensures RowRestored(db.rows[id], after.rows[id], c, db.mfa)
      {
        RestoredRow(db, id, season, c, now);
      }
    }
  }

  lemma RestoredRow(db: Db, id: EnrollmentId, season: SeasonId, c: CloseId, now: int)
    requires Inv(db) && id in db.rows && IsOpenEvent(db.closes, season, c)
    ensures RowRestored(
      db.rows[id], if db.rows[id].season == season then ReopenedRow(db.rows[id], c, db.mfa, now) else db.rows[id],
      c, db.mfa)
  {
    assert SoundRow(db.rows[id], db.seasons, db.mfa) && RowOwned(db.rows[id], db.closes);
  }

  /**
   An MFA event changes only the user's own coordinator rows: an active one is assigned from then on, or pending again;
   of one that a close completed, the snapshot is.
   */
  lemma MfaOutcome(start: Db, steps: seq<Step>, user: UserId, configured: bool, now: int, id: EnrollmentId)
    requires Begins(start) && id in Run(start, steps).rows
    ensures var db := Run(start, steps);
            var after := Next(db, Mfa(user, configured, now));
            && id in after.rows && after.rows.Keys == db.rows.Keys
            && after.seasons == db.seasons && after.closes == db.closes
            && after.mfa == (if configured then db.mfa + {user} else db.mfa - {user})
            && var r := db.rows[id];
               var own := r.user == user && r.role == Coordinator && !r.deleted && configured != (user in db.mfa);
               var given := if configured then Assigned else PendingMfa;
               var at := if configured then Some(now) else None;
               after.rows[id] ==
               if own && r.state == Active then r.(assignment := given, activatedAt := at)
               else if own && r.completedBy.Some? then r.(closeAssignment := Some(given), closeActivatedAt := at)
               else r
  {
    ReachableInv(start, steps);
    var db := Run(start, steps);
    assert SoundRow(db.rows[id], db.seasons, db.mfa);
  }
}
