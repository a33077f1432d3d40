/**
 The stored seasons and enrollments. Each operation is one transaction: a function from the tables to
 the tables it leaves behind, or None when it fails and changes nothing. SeasonStore performs them
 statement by statement; its close and reopen loops follow the pure transitions of SeasonTransitions.
 */
module SeasonStore {
  import opened Wrappers
  import opened SeasonTransitions
  import Identity

  type UserId = string

  datatype Role = Student | Mentor | Coordinator
  datatype StudentLevel = NotApplicable | Novice | Higher(name: string)

  datatype Row = Row(
    user: UserId, season: SeasonId, role: Role, level: StudentLevel, state: EnrollmentState,
    assignment: Assignment, activatedAt: Option<int>,
    completedBy: Option<CloseId>, closeAssignment: Option<Assignment>, closeActivatedAt: Option<int>,
    deleted: bool)

  datatype CloseEvent = CloseEvent(season: SeasonId, closedAt: int, reopened: bool)

  type Rows = map<EnrollmentId, Row>

  /** Deleted seasons are absent from seasons; mfa holds the users whose mirrored MFA flag is set. */
  datatype Db = Db(seasons: map<SeasonId, Status>, closes: map<CloseId, CloseEvent>, rows: Rows, mfa: set<UserId>)

  // ----- what the schema enforces on every enrollment -----

  /** The check constraints on an enrollment. */
  predicate Shaped(r: Row) {
    && (r.role == Student <==> r.level != NotApplicable)
    && (r.completedBy.Some? ==> r.state == Completed)
    && (|| (r.role == Coordinator && r.state == Active && r.assignment == PendingMfa && r.activatedAt.None?)
        || (r.state == Active && r.assignment == Assigned && r.activatedAt.Some?)
        || (r.state != Active && r.assignment == Revoked && r.activatedAt.None?))
    && (|| (r.closeAssignment.None? && r.closeActivatedAt.None?)
        || (r.completedBy.Some? && r.closeAssignment.Some?))
  }

  /** The trigger that derives a coordinator's assignment from the user's MFA flag. */
  function Triggered(r: Row, mfa: set<UserId>, now: int): Row {
    if r.role != Coordinator || r.state != Active then r
    else if r.user in mfa then
      r.(assignment := Assigned, activatedAt := Some(if r.activatedAt.Some? then r.activatedAt.value else now))
    else r.(assignment := PendingMfa, activatedAt := None)
  }

  predicate IsOpen(db: Db, season: SeasonId) {
    season in db.seasons && db.seasons[season] == Open
  }

  predicate Found(rows: Rows, id: EnrollmentId) {
    id in rows && !rows[id].deleted
  }

  predicate IsOpenEvent(closes: map<CloseId, CloseEvent>, season: SeasonId, c: CloseId) {
    c in closes && closes[c].season == season && !closes[c].reopened
  }

  /** One enrollment per user and season. */
  predicate Taken(rows: Rows, user: UserId, season: SeasonId, except: Option<EnrollmentId>) {
    exists id | id in rows :: rows[id].user == user && rows[id].season == season && Some(id) != except
  }

  // ----- enrolling, changing and removing -----

  function StartingLevel(role: Role): StudentLevel {
    if role == Student then Novice else NotApplicable
  }

  function Enrolled(db: Db, id: EnrollmentId, user: UserId, season: SeasonId, role: Role, state: EnrollmentState,
                    assignment: Assignment, now: int): Option<Db> {
    var r := Triggered(Row(user, season, role, StartingLevel(role), state, assignment, Some(now),
                           None, None, None, false), db.mfa, now);
    if !IsOpen(db, season) || id in db.rows || Taken(db.rows, user, season, None) || !Shaped(r) then None
    else Some(db.(rows := db.rows[id := r]))
  }

  function Created(db: Db, id: EnrollmentId, user: UserId, season: SeasonId, role: Role, state: EnrollmentState,
                   now: int): Option<Db> {
    Enrolled(db, id, user, season, role, state, if role == Coordinator then PendingMfa else Assigned, now)
  }

  /** The insert made when an invitation is accepted. */
  function Accepted(db: Db, id: EnrollmentId, user: UserId, season: SeasonId, role: Role, now: int): Option<Db> {
    Enrolled(db, id, user, season, role, Active, Assigned, now)
  }

  function WithRole(r: Row, role: Role, level: StudentLevel, mfa: set<UserId>, now: int): Row {
    Triggered(r.(role := role, level := level,
                 assignment := if role == Coordinator then PendingMfa else Assigned,
                 activatedAt := if role == Coordinator then None else Some(now)), mfa, now)
  }

  function RoleUpdated(db: Db, id: EnrollmentId, season: SeasonId, role: Role, level: StudentLevel,
                       now: int): Option<Db> {
    if !Found(db.rows, id) || db.rows[id].season != season || db.rows[id].state != Active then None else
    var r := WithRole(db.rows[id], role, level, db.mfa, now);
    if Shaped(r) then Some(db.(rows := db.rows[id := r])) else None
  }

  function Promoted(db: Db, id: EnrollmentId, role: Role, now: int): Option<Db> {
    if !Found(db.rows, id) || db.rows[id].state != Active then None else
    Some(db.(rows := db.rows[id := WithRole(db.rows[id], role, StartingLevel(role), db.mfa, now)]))
  }

  function RemovedRow(r: Row): Row {
    r.(state := if r.role == Student then Kicked else Withdrawn, assignment := Revoked, activatedAt := None)
  }

  function Removed(db: Db, id: EnrollmentId, reason: string): Option<Db> {
    if !Found(db.rows, id) || db.rows[id].state != Active || Identity.Trim(reason) == "" then None
    else Some(db.(rows := db.rows[id := RemovedRow(db.rows[id])]))
  }

  predicate Correctable(db: Db, id: EnrollmentId, source: SeasonId, season: SeasonId) {
    IsOpen(db, source) && IsOpen(db, season) && id in db.rows && db.rows[id].season == source &&
    (!db.rows[id].deleted || db.rows[id].state in {Kicked, Withdrawn})
  }

  /** Moves an enrollment to another user or season; eligible says whether that user may hold it. */
  function Corrected(db: Db, id: EnrollmentId, source: SeasonId, season: SeasonId, user: UserId, eligible: bool,
                     now: int): Option<Db> {
    if !Correctable(db, id, source, season) then None
    else if db.rows[id].user == user && db.rows[id].season == season then Some(db)
    else if !eligible || Taken(db.rows, user, season, Some(id)) then None
    else
      var r := Triggered(db.rows[id].(user := user, season := season), db.mfa, now);
      var owned := r.completedBy.Some?
        ==> r.completedBy.value in db.closes && db.closes[r.completedBy.value].season == season;
      if owned && Shaped(r) then Some(db.(rows := db.rows[id := r])) else None
  }

  // ----- MFA -----

  predicate IsCoordinator(r: Row, user: UserId) {
    r.user == user && r.role == Coordinator && !r.deleted
  }

  /** The update of an active coordinator's assignment. */
  function MfaActive(r: Row, user: UserId, was: Assignment, will: Assignment, at: Option<int>): Row {
    if IsCoordinator(r, user) && r.state == Active && r.assignment == was then r.(assignment := will, activatedAt := at)
    else r
  }

  /** The update of the snapshot that a close took of a coordinator's assignment. */
  function MfaSnapshot(r: Row, user: UserId, was: Assignment, will: Assignment, at: Option<int>): Row {
    if IsCoordinator(r, user) && r.state == Completed && r.completedBy.Some? && r.closeAssignment == Some(was)
    then r.(closeAssignment := Some(will), closeActivatedAt := at)
    else r
  }

  function MfaRow(r: Row, user: UserId, configured: bool, now: int): Row {
    if configured
    then MfaSnapshot(MfaActive(r, user, PendingMfa, Assigned, Some(now)), user, PendingMfa, Assigned, Some(now))
    else MfaSnapshot(MfaActive(r, user, Assigned, PendingMfa, None), user, Assigned, PendingMfa, None)
  }

  function WithFlag(mfa: set<UserId>, user: UserId, configured: bool): set<UserId> {
    if configured then mfa + {user} else mfa - {user}
  }

  function MfaRows(rows: Rows, user: UserId, configured: bool, now: int): Rows {
    map id | id in rows :: MfaRow(rows[id], user, configured, now)
  }

  function MfaSet(db: Db, user: UserId, configured: bool, now: int): Db {
    db.(mfa := WithFlag(db.mfa, user, configured),
        rows := MfaRows(db.rows, user, configured, now))
  }

  // ----- closing and reopening -----

  function ClosedRow(r: Row, c: CloseId): Row {
    if r.state != Active || r.deleted then r
    else r.(state := Completed, completedBy := Some(c), closeAssignment := Some(r.assignment),
            closeActivatedAt := r.activatedAt, assignment := Revoked, activatedAt := None)
  }

  function ClosedIn(r: Row, season: SeasonId, c: CloseId): Row {
    if r.season == season then ClosedRow(r, c) else r
  }

  function ClosedRows(rows: Rows, season: SeasonId, c: CloseId): Rows {
    map id | id in rows :: ClosedIn(rows[id], season, c)
  }

  predicate CanClose(db: Db, season: SeasonId, c: CloseId, reason: string) {
    IsOpen(db, season) && c !in db.closes && Identity.Trim(reason) != "" &&
    forall e | e in db.closes :: !IsOpenEvent(db.closes, season, e)
  }

  function SeasonClosed(db: Db, season: SeasonId, c: CloseId, reason: string, now: int): Option<Db> {
    if !CanClose(db, season, c, reason) then None
    else Some(db.(seasons := db.seasons[season := Closed],
                  closes := db.closes[c := CloseEvent(season, now, false)],
                  rows := ClosedRows(db.rows, season, c)))
  }

  predicate CompletedBy(r: Row, c: CloseId) {
    r.completedBy == Some(c) && r.state == Completed && !r.deleted
  }

  function ReopenedRow(r: Row, c: CloseId, mfa: set<UserId>, now: int): Row {
    if !CompletedBy(r, c) then r
    else
      var a := if r.closeAssignment.Some? then r.closeAssignment.value else Assigned;
      var at := if r.closeActivatedAt.Some? then r.closeActivatedAt.value else now;
      Triggered(r.(state := Active, completedBy := None, assignment := a,
                   activatedAt := if a == Assigned then Some(at) else None,
                   closeAssignment := None, closeActivatedAt := None), mfa, now)
  }

  function ReopenedRows(rows: Rows, season: SeasonId, c: CloseId, mfa: set<UserId>, now: int): Rows {
    map id | id in rows :: if rows[id].season == season then ReopenedRow(rows[id], c, mfa, now) else rows[id]
  }

  /** Reopening fails when a restored enrollment would break a check constraint. */
  predicate CanReopen(db: Db, season: SeasonId, c: CloseId, reason: string, now: int) {
    && IsOpenEvent(db.closes, season, c) && db.closes[c].closedAt <= now && Identity.Trim(reason) != ""
    && season in db.seasons && db.seasons[season] == Closed
    && RestorableRows(db.rows, season, c, db.mfa, now)
  }

  predicate RestorableRows(rows: Rows, season: SeasonId, c: CloseId, mfa: set<UserId>, now: int) {
    forall id | id in rows && rows[id].season == season && CompletedBy(rows[id], c) ::
      Shaped(ReopenedRow(rows[id], c, mfa, now))
  }

  function SeasonReopened(db: Db, season: SeasonId, c: CloseId, reason: string, now: int): Option<Db> {
    if !CanReopen(db, season, c, reason, now) then None
    else Some(db.(seasons := db.seasons[season := Open],
                  closes := db.closes[c := db.closes[c].(reopened := true)],
                  rows := ReopenedRows(db.rows, season, c, db.mfa, now)))
  }

  // ----- loading a season as a value -----

  function Loaded(r: Row, id: EnrollmentId): Enrollment {
    Enrollment(id, r.state, Some(r.assignment), None, None)
  }

  function LoadedForReopen(r: Row, id: EnrollmentId, c: CloseId): Enrollment {
    if r.state != Completed then Loaded(r, id)
    else Loaded(r, id).(closeAssignment := r.closeAssignment,
                        completedBy := if r.completedBy == Some(c) then Some(c) else None)
  }

  ghost predicate Lists(ids: seq<EnrollmentId>, rows: Rows, season: SeasonId) {
    && Distinct(ids)
    && forall id :: id in ids <==> Found(rows, id) && rows[id].season == season
  }

  ghost predicate LoadedAs(s: Season, db: Db, season: SeasonId, ids: seq<EnrollmentId>) {
    && season in db.seasons && s.id == season && s.status == db.seasons[season]
    && Lists(ids, db.rows, season) && |s.enrollments| == |ids|
    && forall i | 0 <= i < |ids| :: ids[i] in db.rows && s.enrollments[i] == Loaded(db.rows[ids[i]], ids[i])
  }

  ghost predicate LoadedForReopenAs(s: Season, db: Db, season: SeasonId, c: CloseId, ids: seq<EnrollmentId>) {
    && season in db.seasons && s.id == season && s.status == db.seasons[season]
    && Lists(ids, db.rows, season) && |s.enrollments| == |ids|
    && forall i | 0 <= i < |ids| ::
         ids[i] in db.rows && s.enrollments[i] == LoadedForReopen(db.rows[ids[i]], ids[i], c)
  }

  /** The rows after the first i updates of a closing or reopening loop. */
  ghost predicate Updated(rows: Rows, before: Rows, after: Rows, ids: seq<EnrollmentId>, i: nat)
    requires i <= |ids| && before.Keys == after.Keys
  {
    && rows.Keys == before.Keys
    && (forall id | id in ids[..i] && id in before :: rows[id] == after[id])
    && (forall id | id in before && id !in ids[..i] :: rows[id] == before[id])
  }

  ghost predicate ShapedUpTo(before: Rows, after: Rows, ids: seq<EnrollmentId>, c: CloseId, i: nat)
    requires i <= |ids| && before.Keys == after.Keys && forall j | 0 <= j < |ids| :: ids[j] in before
  {
    forall j | 0 <= j < i && CompletedBy(before[ids[j]], c) :: Shaped(after[ids[j]])
  }

  /** The pure transition restores exactly the rows that the close completed. */
  lemma RestoredWhenCompletedBy(r: Row, id: EnrollmentId, c: CloseId)
    requires !r.deleted
    ensures var e := LoadedForReopen(r, id, c);
            (e.state == Completed && ReopenOne(e, c).state == Active) == CompletedBy(r, c)
  {
  }

  class SeasonStore {
    var seasons: map<SeasonId, Status>
    var closes: map<CloseId, CloseEvent>
    var rows: Rows
    var mfa: set<UserId>

    ghost function Tables(): Db
      reads this
    {
      Db(seasons, closes, rows, mfa)
    }

    method LockOpenSeason(season: SeasonId) returns (ok: bool)
      ensures ok == IsOpen(Tables(), season)
    {
      if season !in seasons {
        return false;
      }
      return seasons[season] == Open;
    }

    method Insert(id: EnrollmentId, row: Row, now: int) returns (ok: bool)
      modifies `rows
      ensures ok == (id !in old(rows) && !Taken(old(rows), row.user, row.season, None)
              && Shaped(Triggered(row, mfa, now)))
      ensures rows == if ok then old(rows)[id := Triggered(row, mfa, now)] else old(rows)
    {
      var stored := Triggered(row, mfa, now);
      ok := id !in rows && !Taken(rows, row.user, row.season, None) && Shaped(stored);
      if ok {
        rows := rows[id := stored];
      }
    }

    method CreateEnrollment(id: EnrollmentId, user: UserId, season: SeasonId, role: Role, state: EnrollmentState,
                            now: int) returns (ok: bool)
      modifies `rows
      ensures var after := Created(old(Tables()), id, user, season, role, state, now);
              ok == after.Some? && Tables() == if ok then after.value else old(Tables())
    {
      var open := LockOpenSeason(season);
      if !open {
        return false;
      }
      var level := NotApplicable;
      if role == Student {
        level := Novice;
      }
      var assignment := Assigned;
      if role == Coordinator {
        assignment := PendingMfa;
      }
      ok := Insert(id, Row(user, season, role, level, state, assignment, Some(now), None, None, None, false), now);
    }

    /** The enrollment that accepting an invitation creates; the invitation itself is in module Invitations. */
    method EnrollAccepted(id: EnrollmentId, user: UserId, season: SeasonId, role: Role, now: int) returns (ok: bool)
      modifies `rows
      ensures var after := Accepted(old(Tables()), id, user, season, role, now);
              ok == after.Some? && Tables() == if ok then after.value else old(Tables())
    {
      var open := LockOpenSeason(season);
      if !open {
        return false;
      }
      var level := NotApplicable;
      if role == Student {
        level := Novice;
      }
      ok := Insert(id, Row(user, season, role, level, Active, Assigned, Some(now), None, None, None, false), now);
    }

    method UpdateEnrollmentRoleAndLevel(id: EnrollmentId, season: SeasonId, role: Role, level: StudentLevel, now: int)
      returns (ok: bool)
      modifies `rows
      ensures var after := RoleUpdated(old(Tables()), id, season, role, level, now);
              ok == after.Some? && Tables() == if ok then after.value else old(Tables())
    {
      if !Found(rows, id) || rows[id].season != season || rows[id].state != Active {
        return false;
      }
      var r := rows[id].(role := role, level := level);
      if role == Coordinator {
        r := r.(assignment := PendingMfa, activatedAt := None);
      } else {
        r := r.(assignment := Assigned, activatedAt := Some(now));
      }
      r := Triggered(r, mfa, now);
      if !Shaped(r) {
        return false;
      }
      rows := rows[id := r];
      return true;
    }

    method PromoteEnrollment(id: EnrollmentId, role: Role, now: int) returns (ok: bool)
      modifies `rows
      ensures var after := Promoted(old(Tables()), id, role, now);
              ok == after.Some? && Tables() == if ok then after.value else old(Tables())
    {
      if !Found(rows, id) {
        return false;
      }
      if rows[id].state != Active {
        return false;
      }
      var level := NotApplicable;
      if role == Student {
        level := Novice;
      }
      var r := rows[id].(role := role, level := level);
      if role == Coordinator {
        r := r.(assignment := PendingMfa, activatedAt := None);
      } else {
        r := r.(assignment := Assigned, activatedAt := Some(now));
      }
      rows := rows[id := Triggered(r, mfa, now)];
      return true;
    }

    method RemoveEnrollment(id: EnrollmentId, reason: string) returns (ok: bool)
      modifies `rows
      ensures var after := Removed(old(Tables()), id, reason);
              ok == after.Some? && Tables() == if ok then after.value else old(Tables())
    {
      if !Found(rows, id) {
        return false;
      }
      if rows[id].state != Active {
        return false;
      }
      var state := Kicked;
      if rows[id].role != Student {
        state := Withdrawn;
      }
      if Identity.Trim(reason) == "" {
        return false;
      }
      rows := rows[id := rows[id].(state := state, assignment := Revoked, activatedAt := None)];
      return true;
    }

    method CorrectEnrollment(id: EnrollmentId, source: SeasonId, season: SeasonId, user: UserId, eligible: bool,
                             now: int)
      returns (ok: bool)
      modifies `rows
      ensures var after := Corrected(old(Tables()), id, source, season, user, eligible, now);
              ok == after.Some? && Tables() == if ok then after.value else old(Tables())
    {
      var toLock := [source];
      if season != source {
        toLock := toLock + [season];
      }
      assert toLock[0] == source && toLock[|toLock| - 1] == season;
      var i := 0;
      while i < |toLock|
        invariant 0 <= i <= |toLock| && Tables() == old(Tables())
        invariant forall j | 0 <= j < i :: IsOpen(Tables(), toLock[j])
      {
        var open := LockOpenSeason(toLock[i]);
        if !open {
          assert toLock[i] == source || toLock[i] == season;
          return false;
        }
        i := i + 1;
      }
      assert IsOpen(Tables(), toLock[0]) && IsOpen(Tables(), toLock[|toLock| - 1]);
      if id !in rows || rows[id].season != source || (rows[id].deleted && rows[id].state !in {Kicked, Withdrawn}) {
        return false;
      }
      if rows[id].user == user && rows[id].season == season {
        return true;
      }
      if !eligible || Taken(rows, user, season, Some(id)) {
        return false;
      }
      var r := Triggered(rows[id].(user := user, season := season), mfa, now);
      if r.completedBy.Some? {
        if r.completedBy.value !in closes || closes[r.completedBy.value].season != season {
          return false;
        }
      }
      if !Shaped(r) {
        return false;
      }
      rows := rows[id := r];
      return true;
    }

    /** Two bulk updates, first of the active coordinators, then of the snapshots taken at a close. */
    method ApplyMfa(user: UserId, configured: bool, now: int)
      modifies `rows, `mfa
      ensures Tables() == MfaSet(old(Tables()), user, configured, now)
    {
      mfa := if configured then mfa + {user} else mfa - {user};
      var was, will := if configured then PendingMfa else Assigned, if configured then Assigned else PendingMfa;
      var at := if configured then Some(now) else None;
      rows := map id | id in rows :: MfaActive(rows[id], user, was, will, at);
      rows := map id | id in rows :: MfaSnapshot(rows[id], user, was, will, at);
    }

    method LoadProgramSeason(season: SeasonId) returns (s: Option<Season>, ids: seq<EnrollmentId>)
      ensures s.Some? <==> season in seasons
      ensures s.Some? ==> LoadedAs(s.value, Tables(), season, ids)
    {
      if season !in seasons {
        return None, [];
      }
      var left := set id | id in rows && !rows[id].deleted && rows[id].season == season;
      ids := [];
      var enrollments := [];
      while left != {}
        invariant Distinct(ids) && |enrollments| == |ids|
        invariant forall id :: (id in left || id in ids) <==> Found(rows, id) && rows[id].season == season
        invariant forall id | id in ids :: id !in left
        invariant forall i | 0 <= i < |ids| :: ids[i] in rows && enrollments[i] == Loaded(rows[ids[i]], ids[i])
        decreases |left|
      {
        var id :| id in left;
        left := left - {id};
        ids := ids + [id];
        enrollments := enrollments + [Enrollment(id, rows[id].state, Some(rows[id].assignment), None, None)];
      }
      s := Some(Season(season, seasons[season], enrollments));
    }

    method LoadProgramReopenSeason(season: SeasonId, c: CloseId) returns (s: Option<Season>, ids: seq<EnrollmentId>)
      ensures s.Some? <==> season in seasons
      ensures s.Some? ==> LoadedForReopenAs(s.value, Tables(), season, c, ids)
    {
      s, ids := LoadProgramSeason(season);
      if s.None? {
        return;
      }
      var enrollments := s.value.enrollments;
      var i := 0;
      while i < |enrollments|
        invariant 0 <= i <= |enrollments| == |ids|
        invariant forall j | 0 <= j < i :: enrollments[j] == LoadedForReopen(rows[ids[j]], ids[j], c)
        invariant forall j | i <= j < |ids| :: enrollments[j] == Loaded(rows[ids[j]], ids[j])
      {
        if enrollments[i].state == Completed {
          var row := rows[ids[i]];
          enrollments := enrollments[i := enrollments[i].(
            completedBy := if row.completedBy == Some(c) then Some(c) else None,
            closeAssignment := row.closeAssignment)];
        }
        i := i + 1;
      }
      s := Some(s.value.(enrollments := enrollments));
    }

    /** The loop of CloseSeason. */
    method CompleteRows(season: SeasonId, c: CloseId, loaded: Season, closed: Season, ids: seq<EnrollmentId>)
      requires LoadedAs(loaded, Tables(), season, ids) && c != "" && closed == ClosedSeason(loaded, c)
      modifies `rows
      ensures rows == ClosedRows(old(rows), season, c)
    {
      ghost var before, after := rows, ClosedRows(rows, season, c);
      var i := 0;
      while i < |ids|
        invariant 0 <= i <= |ids|
        invariant Updated(rows, before, after, ids, i)
      {
        ghost var was := rows;
        var r := rows[ids[i]];
        assert r == before[ids[i]];
        if loaded.enrollments[i].state == Active && closed.enrollments[i].state == Completed {
          if r.state == Active && !r.deleted {
            rows := rows[ids[i] := r.(state := Completed, completedBy := Some(c), closeAssignment := Some(r.assignment),
                                      closeActivatedAt := r.activatedAt, assignment := Revoked, activatedAt := None)];
          }
        }
        i := i + 1;
      }
    }

    method CloseSeason(season: SeasonId, c: CloseId, reason: string, now: int) returns (ok: bool)
      requires c != ""
      modifies `seasons, `closes, `rows
      ensures var after := SeasonClosed(old(Tables()), season, c, reason, now);
              ok == after.Some? && Tables() == if ok then after.value else old(Tables())
    {
      var loaded, ids := LoadProgramSeason(season);
      if loaded.None? {
        return false;
      }
      var transition := Close(loaded.value, c);
      if transition.None? {
        return false;
      }
      var clash := exists e | e in closes :: closes[e].season == season && !closes[e].reopened;
      if c in closes || Identity.Trim(reason) == "" || clash {
        return false;
      }
      CompleteRows(season, c, loaded.value, transition.value, ids);
      closes := closes[c := CloseEvent(season, now, false)];
      seasons := seasons[season := Closed];
      return true;
    }

    method OpenCloseEvent(season: SeasonId) returns (c: Option<CloseId>)
      ensures c.Some? ==> IsOpenEvent(closes, season, c.value)
      ensures c.None? ==> forall e :: !IsOpenEvent(closes, season, e)
    {
      if e :| e in closes && closes[e].season == season && !closes[e].reopened {
        return Some(e);
      }
      return None;
    }

    /** The loop of ReopenSeason; it stops at the first update that a check constraint refuses. */
    method RestoreRows(season: SeasonId, c: CloseId, loaded: Season, reopened: Season, ids: seq<EnrollmentId>, now: int)
      returns (ok: bool)
      requires LoadedForReopenAs(loaded, Tables(), season, c, ids) && reopened == ReopenedSeason(loaded, c)
      modifies `rows
      ensures ok == RestorableRows(old(rows), season, c, mfa, now)
      ensures ok ==> rows == ReopenedRows(old(rows), season, c, mfa, now)
    {
      ghost var before, after := rows, ReopenedRows(rows, season, c, mfa, now);
      var i := 0;
      while i < |ids|
        invariant 0 <= i <= |ids|
        invariant Updated(rows, before, after, ids, i)
        invariant ShapedUpTo(before, after, ids, c, i)
      {
        ghost var was := rows;
        RestoredWhenCompletedBy(before[ids[i]], ids[i], c);
        if loaded.enrollments[i].state == Completed && reopened.enrollments[i].state == Active {
          var r := ReopenedRow(rows[ids[i]], c, mfa, now);
          assert r == after[ids[i]];
          if !Shaped(r) {
            return false;
          }
          rows := rows[ids[i] := r];
        } else {
          assert after[ids[i]] == before[ids[i]];
        }
        i := i + 1;
      }
      return true;
    }

    /** A failed statement rolls the transaction back, so the tables are restored from their saved values. */
    method ReopenSeason(season: SeasonId, reason: string, now: int) returns (ok: bool, c: Option<CloseId>)
      modifies `seasons, `closes, `rows
      ensures c.None? ==> !ok && Tables() == old(Tables()) && forall e :: !IsOpenEvent(old(closes), season, e)
      ensures c.Some? ==> IsOpenEvent(old(closes), season, c.value)
      ensures c.Some? ==> var after := SeasonReopened(old(Tables()), season, c.value, reason, now);
                          ok == after.Some? && Tables() == if ok then after.value else old(Tables())
    {
      c := OpenCloseEvent(season);
      if c.None? {
        return false, c;
      }
      var loaded, ids := LoadProgramReopenSeason(season, c.value);
      if loaded.None? {
        return false, c;
      }
      var reopened := Reopen(loaded.value, c.value);
      if now < closes[c.value].closedAt || Identity.Trim(reason) == "" {
        return false, c;
      }
      var saved := rows;
      ok := RestoreRows(season, c.value, loaded.value, reopened, ids, now);
      if !ok || seasons[season] != Closed {
        rows := saved;
        return false, c;
      }
      closes := closes[c.value := closes[c.value].(reopened := true)];
      seasons := seasons[season := Open];
    }
  }
}
