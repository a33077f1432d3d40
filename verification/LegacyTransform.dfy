/**
 Turning the legacy snapshot into rows of the new tables. Emit says what one legacy row becomes in one
 target table; SnapshotTransformer fills its tables with those rows in loops and resolves the references
 at the end.
 */
module LegacyTransform {
  import opened Wrappers
  import opened StringOrder
  import opened LegacySource

  datatype Target =
    | Users | UserProfiles | UserPreferences | UserContacts | UserSecurity | GlobalRoleAssignments
    | Seasons | SeasonCloseEvents | SeasonWeeks | Enrollments | Mentorships | EnrollmentRemovalEvents

  /** The order in which the tables are written. */
  const TARGET_ORDER: seq<Target> :=
    [Users, UserProfiles, UserPreferences, UserContacts, UserSecurity, GlobalRoleAssignments,
     Seasons, SeasonCloseEvents, SeasonWeeks, Enrollments, Mentorships, EnrollmentRemovalEvents]

  /** The columns that refer to another table. */
  datatype Column =
    | UserRef | GrantedByRef | SeasonRef | ClosedByRef | ReopenedByRef | CompletedByRef
    | MentorRef | StudentRef | EnrollmentRef | SubjectRef | ActorRef

  /** A reference: a copied value, or the generated key of a legacy id in a table. */
  datatype Cell = Raw(value: Value) | Key(table: Target, legacyId: string)

  type Refs = map<Column, Cell>

  /** The enumerations of the new schema; Unmapped is the empty text that an index out of range maps to. */
  datatype RoleName = Student | Mentor | Coordinator | Unmapped
  datatype Level = NotApplicable | Novice | Beginner | Intermediate | Advanced | UnmappedLevel
  datatype StateName = ActiveState | CompletedState | KickedState | WithdrawnState
  datatype Assignment = PendingMfa | Assigned | Revoked

  /** The other columns of a prepared row. */
  datatype Data =
    | UserData(deleted: bool, deletedAt: Value)
    | ProfileData(slug: Value, displayName: Value, avatar: Value)
    | PreferencesData(timezone: string)
    | ContactData(email: Value, discord: Value)
    | SecurityData(version: int, mfaConfigured: bool)
    | DirectorData(assignmentState: Assignment)
    | SeasonData(closed: bool, startAt: Value, endAt: Value, closedAt: Value)
    | CloseData(closedAt: Value)
    | WeekData(number: Value, startAt: Value, endAt: Value)
    | EnrollmentData(role: RoleName, level: Level, state: StateName, assignment: Assignment, activatedAt: Value,
                     closeAssignment: Option<Assignment>, closeActivatedAt: Value, stateChangedAt: Value,
                     deletedAt: Value)
    | MentorshipData(endedAt: Value, deletedAt: Value)
    | RemovalData(resultingState: StateName, reason: Value, occurredAt: Value)

  datatype PreparedRow = PreparedRow(id: Cell, sourceTable: Table, sourceId: string, refs: Refs, data: Data)
  datatype PreparedTable = PreparedTable(name: Target, rows: seq<PreparedRow>)

  /** The columns of a table that refer to another one. */
  function References(t: Target): map<Column, Target> {
    match t
    case Users => map[]
    case UserProfiles => map[UserRef := Users]
    case UserPreferences => map[UserRef := Users]
    case UserContacts => map[UserRef := Users]
    case UserSecurity => map[UserRef := Users]
    case GlobalRoleAssignments => map[UserRef := Users, GrantedByRef := Users]
    case Seasons => map[]
    case SeasonCloseEvents => map[SeasonRef := Seasons, ClosedByRef := Users, ReopenedByRef := Users]
    case SeasonWeeks => map[SeasonRef := Seasons]
    case Enrollments => map[UserRef := Users, SeasonRef := Seasons, CompletedByRef := SeasonCloseEvents]
    case Mentorships => map[SeasonRef := Seasons, MentorRef := Enrollments, StudentRef := Enrollments]
    case EnrollmentRemovalEvents =>
      map[EnrollmentRef := Enrollments, SeasonRef := Seasons, SubjectRef := Users, ActorRef := Users]
  }

  predicate KeyedByUser(t: Target) {
    t in {UserProfiles, UserPreferences, UserContacts, UserSecurity}
  }

  /** The tables of a user's satellites are keyed by the user's own key. */
  function TargetKey(t: Target, legacyId: string): Cell {
    Key(if KeyedByUser(t) then Users else t, legacyId)
  }

  function SourceOf(t: Target): Table {
    match t
    case Seasons => Season
    case SeasonCloseEvents => Season
    case SeasonWeeks => SeasonWeek
    case Enrollments => Enrollment
    case Mentorships => Mentorship
    case EnrollmentRemovalEvents => KickStudentEvent
    case _ => User
  }

  // ----- what one legacy row becomes -----

  datatype Emitted = Emitted(id: string, refs: Refs, data: Data)

  function CloseIdOf(season: string): string {
    "legacy-close:" + season
  }

  function EndedIn(s: Snapshot, seasons: seq<Source>): map<string, string> {
    if seasons == [] then map[]
    else
      var rest, last := EndedIn(s, seasons[..|seasons| - 1]), seasons[|seasons| - 1];
      if HasEnded(s, last) then rest[SourceId(Season, last) := CloseIdOf(SourceId(Season, last))] else rest
  }

  function Ended(s: Snapshot): map<string, string> {
    EndedIn(s, Rows(s, Season))
  }

  lemma EndedStep(s: Snapshot, seasons: seq<Source>, i: nat)
    requires i < |seasons|
    ensures var id := SourceId(Season, seasons[i]);
            EndedIn(s, seasons[..i + 1]) ==
            if HasEnded(s, seasons[i]) then EndedIn(s, seasons[..i])[id := CloseIdOf(id)] else EndedIn(s, seasons[..i])
  {
    assert seasons[..i + 1][..i] == seasons[..i];
  }

  /** What the transformer looks up: enrollments by id, kicks by member and season, and ended seasons. */
  datatype Lookups = Lookups(
    enrollments: map<string, Source>, kicks: map<(string, string), Source>, ended: map<string, string>)

  function LookupsOf(s: Snapshot): Lookups {
    Lookups(Index(s, Enrollment), Kicks(s), Ended(s))
  }

  function KickOf(l: Lookups, e: Source): Option<Source> {
    var key := (TextOf(Get(e, UserId)), TextOf(Get(e, SeasonId)));
    if key in l.kicks then Some(l.kicks[key]) else None
  }

  datatype Fate = Kicked(at: Value) | Withdrawn(at: Value) | Completed(closeId: string) | Active

  /** What became of an enrollment; a kick takes precedence over a deletion and both over the season's end. */
  function FateOf(l: Lookups, e: Source): Fate {
    var season := TextOf(Get(e, SeasonId));
    if KickOf(l, e).Some? then Kicked(Get(KickOf(l, e).value, KickedAtUtc))
    else if IsDeleted(Get(e, DeletedAtUtc)) then Withdrawn(Get(e, DeletedAtUtc))
    else if season in l.ended then Completed(l.ended[season])
    else Active
  }

  function MapEnum<T>(index: int, names: seq<T>, otherwise: T): T {
    if 0 <= index < |names| then names[index] else otherwise
  }

  function RoleOf(s: Snapshot, e: Source): RoleName {
    MapEnum(NumberOf(s.parsing, Get(e, Role)), [Student, Mentor, Coordinator], Unmapped)
  }

  function LevelOf(s: Snapshot, e: Source): Level {
    MapEnum(NumberOf(s.parsing, Get(e, StudentRolePromotion)),
            [NotApplicable, Novice, Beginner, Intermediate, Advanced], UnmappedLevel)
  }

  function StateOf(f: Fate): StateName {
    match f
    case Kicked(_) => KickedState
    case Withdrawn(_) => WithdrawnState
    case Completed(_) => CompletedState
    case Active => ActiveState
  }

  function StateChange(s: Snapshot, f: Fate): Value {
    match f
    case Kicked(at) => at
    case Withdrawn(at) => at
    case Completed(_) => Text(s.capturedText)
    case Active => Null
  }

  /** The assignment an enrollment had while it was active: a coordinator still had to set up MFA. */
  function LiveAssignment(s: Snapshot, e: Source): (Assignment, Value) {
    if RoleOf(s, e) == Coordinator then (PendingMfa, Null) else (Assigned, Get(e, CreatedAtUtc))
  }

  /** The close event that completed an enrollment. */
  function CompletionOf(l: Lookups, e: Source): Value {
    if FateOf(l, e).Completed? then Text(FateOf(l, e).closeId) else Null
  }

  function EnrollmentCells(user: Value, season: Value, completedBy: Value): Refs {
    map[UserRef := Raw(user), SeasonRef := Raw(season), CompletedByRef := Raw(completedBy)]
  }

  function EnrollmentRefs(l: Lookups, e: Source): Refs {
    EnrollmentCells(Get(e, UserId), Get(e, SeasonId), CompletionOf(l, e))
  }

  function EnrollmentFields(s: Snapshot, l: Lookups, e: Source): Data {
    var f := FateOf(l, e);
    var live := LiveAssignment(s, e);
    EnrollmentData(RoleOf(s, e), LevelOf(s, e), StateOf(f),
                   if f.Active? then live.0 else Revoked, if f.Active? then live.1 else Null,
                   if f.Completed? then Some(live.0) else None, if f.Completed? then live.1 else Null,
                   StateChange(s, f), Get(e, DeletedAtUtc))
  }

  /** When an enrollment stopped being a live membership, if it did. */
  function EnrollmentEnd(l: Lookups, e: Option<Source>): Value {
    if e.None? then Null
    else if KickOf(l, e.value).Some? then Get(KickOf(l, e.value).value, KickedAtUtc)
    else if IsDeleted(Get(e.value, DeletedAtUtc)) then Get(e.value, DeletedAtUtc)
    else Null
  }

  function Side(l: Lookups, m: Source, f: Field): Option<Source> {
    var id := TextOf(Get(m, f));
    if id in l.enrollments then Some(l.enrollments[id]) else None
  }

  /** The earlier of two ends. */
  function EarlierEnd(a: Value, b: Value): Value {
    if b != Null && (a == Null || Less(TextOf(b), TextOf(a))) then b else a
  }

  function MentorshipCells(season: Value, mentor: Value, student: Value): Refs {
    map[SeasonRef := Raw(season), MentorRef := Raw(mentor), StudentRef := Raw(student)]
  }

  function MentorshipRefs(l: Lookups, m: Source): Refs {
    var mentor := Side(l, m, MentorEnrollmentId);
    MentorshipCells(if mentor.Some? then Get(mentor.value, SeasonId) else Null,
                    Get(m, MentorEnrollmentId), Get(m, MenteeEnrollmentId))
  }

  function MentorshipFields(l: Lookups, m: Source): Data {
    MentorshipData(EarlierEnd(EnrollmentEnd(l, Side(l, m, MentorEnrollmentId)),
                              EnrollmentEnd(l, Side(l, m, MenteeEnrollmentId))), Get(m, DeletedAtUtc))
  }

  function SeasonFields(s: Snapshot, season: Source): Data {
    var ended := HasEnded(s, season);
    SeasonData(ended, Get(season, StartDateInclusiveUTC), Get(season, EndDateInclusiveUTC),
               if ended then Text(s.capturedText) else Null)
  }

  function CloseEventRefs(season: Source): Refs {
    map[SeasonRef := Raw(Text(SourceId(Season, season))), ClosedByRef := Raw(Null), ReopenedByRef := Raw(Null)]
  }

  function WeekRefs(week: Source): Refs {
    map[SeasonRef := Raw(Get(week, SeasonId))]
  }

  function WeekFields(week: Source): Data {
    WeekData(Get(week, WeekNumber), Get(week, StartDate), Get(week, EndDate))
  }

  function UserFields(user: Source): Data {
    UserData(IsDeleted(Get(user, DeletedAtUtc)), Get(user, DeletedAtUtc))
  }

  /** A personal column of a user, replaced when the user was deleted. */
  function Personal(user: Source, f: Field, pseudonym: Value): Value {
    if IsDeleted(Get(user, DeletedAtUtc)) then pseudonym else Get(user, f)
  }

  /** The columns of the tables keyed by a user. */
  function SatelliteFields(t: Target, user: Source): Data
    requires KeyedByUser(t)
  {
    match t
    case UserProfiles =>
      ProfileData(Personal(user, Slug, Text("deleted-" + SourceId(User, user))),
                  Personal(user, Name, Text("Deleted member")), Personal(user, ProfileImage, Null))
    case UserPreferences => PreferencesData(if IsDeleted(Get(user, DeletedAtUtc)) then "UTC" else "Australia/Adelaide")
    case UserContacts => ContactData(Personal(user, Email, Null), Personal(user, DiscordId, Null))
    case UserSecurity => SecurityData(1, false)
  }

  function OwnerRefs(user: Source): Refs {
    map[UserRef := Raw(Text(SourceId(User, user)))]
  }

  function DirectorIdOf(user: string): string {
    "legacy-director:" + user
  }

  function RemovedEnrollment(s: Snapshot, kick: Source): string {
    var e := FirstMembership(Rows(s, Enrollment), TextOf(Get(kick, StudentId)), TextOf(Get(kick, SeasonId)));
    if e.Some? then SourceId(Enrollment, e.value) else ""
  }

  function RemovalCells(enrollment: Value, season: Value, subject: Value, actor: Value): Refs {
    map[EnrollmentRef := Raw(enrollment), SeasonRef := Raw(season), SubjectRef := Raw(subject), ActorRef := Raw(actor)]
  }

  function RemovalRefs(s: Snapshot, kick: Source): Refs {
    RemovalCells(Text(RemovedEnrollment(s, kick)), Get(kick, SeasonId), Get(kick, StudentId), Get(kick, MentorId))
  }

  function Emit(s: Snapshot, l: Lookups, t: Target, row: Source): Option<Emitted> {
    var id := SourceId(SourceOf(t), row);
    match t
    case Users => Some(Emitted(id, map[], UserFields(row)))
    case GlobalRoleAssignments =>
      if IsTrue(s.parsing, Get(row, IsAdmin)) && !IsDeleted(Get(row, DeletedAtUtc))
      then Some(Emitted(DirectorIdOf(id), OwnerRefs(row)[GrantedByRef := Raw(Null)],
                        DirectorData(PendingMfa)))
      else None
    case Seasons => Some(Emitted(id, map[], SeasonFields(s, row)))
    case SeasonCloseEvents =>
      if HasEnded(s, row) then Some(Emitted(CloseIdOf(id), CloseEventRefs(row), CloseData(Text(s.capturedText))))
      else None
    case SeasonWeeks => Some(Emitted(id, WeekRefs(row), WeekFields(row)))
    case Enrollments => Some(Emitted(id, EnrollmentRefs(l, row), EnrollmentFields(s, l, row)))
    case Mentorships => Some(Emitted(id, MentorshipRefs(l, row), MentorshipFields(l, row)))
    case EnrollmentRemovalEvents =>
      if IsDeleted(Get(row, DeletedAtUtc)) then None
      else Some(Emitted(id, RemovalRefs(s, row), RemovalData(KickedState, Get(row, KickReason), Get(row, KickedAtUtc))))
    case _ => Some(Emitted(id, OwnerRefs(row), SatelliteFields(t, row)))
  }

  function Prepare(t: Target, row: Source, e: Emitted): PreparedRow {
    PreparedRow(TargetKey(t, e.id), SourceOf(t), SourceId(SourceOf(t), row), e.refs, e.data)
  }

  /** The rows that one legacy row adds to a table. */
  function Added(s: Snapshot, l: Lookups, t: Target, row: Source): seq<PreparedRow> {
    var e := Emit(s, l, t, row);
    if e.Some? then [Prepare(t, row, e.value)] else []
  }

  /** The rows a list of legacy rows adds to a table, in order. */
  function EmitAll(s: Snapshot, l: Lookups, t: Target, rows: seq<Source>): seq<PreparedRow> {
    if rows == [] then [] else EmitAll(s, l, t, rows[..|rows| - 1]) + Added(s, l, t, rows[|rows| - 1])
  }

  lemma EmitAllStep(s: Snapshot, l: Lookups, t: Target, rows: seq<Source>, i: nat)
    requires i < |rows|
    ensures EmitAll(s, l, t, rows[..i + 1]) == EmitAll(s, l, t, rows[..i]) + Added(s, l, t, rows[i])
  {
    assert rows[..i + 1][..i] == rows[..i];
  }

  function Unresolved(s: Snapshot, t: Target): seq<PreparedRow> {
    EmitAll(s, LookupsOf(s), t, Rows(s, SourceOf(t)))
  }

  // ----- resolving references -----

  /** A reference held as a non-empty text becomes the key of the row it names. */
  function ResolvedCell(refs: map<Column, Target>, c: Column, cell: Cell): Cell {
    if c in refs && cell.Raw? && cell.value.Text? && cell.value.s != "" then Key(refs[c], cell.value.s) else cell
  }

  function ResolvedRefs(refs: map<Column, Target>, cells: Refs): Refs {
    map c | c in cells :: ResolvedCell(refs, c, cells[c])
  }

  function Resolved(refs: map<Column, Target>, row: PreparedRow): PreparedRow {
    row.(refs := ResolvedRefs(refs, row.refs))
  }

  function ResolvedRows(refs: map<Column, Target>, rows: seq<PreparedRow>): seq<PreparedRow> {
    seq(|rows|, i requires 0 <= i < |rows| => Resolved(refs, rows[i]))
  }

  /** The rows of one table of the finished import. */
  function Final(s: Snapshot, t: Target): seq<PreparedRow> {
    ResolvedRows(References(t), Unresolved(s, t))
  }

  function In(tables: map<Target, seq<PreparedRow>>, t: Target): seq<PreparedRow> {
    if t in tables then tables[t] else []
  }

  function WithTable(listed: seq<PreparedTable>, tables: map<Target, seq<PreparedRow>>, t: Target): seq<PreparedTable> {
    if In(tables, t) == [] then listed else listed + [PreparedTable(t, In(tables, t))]
  }

  /** The first n tables in writing order, empty ones left out. */
  function TablesUpTo(tables: map<Target, seq<PreparedRow>>, n: nat): seq<PreparedTable>
    requires n <= |TARGET_ORDER|
  {
    if n == 0 then [] else WithTable(TablesUpTo(tables, n - 1), tables, TARGET_ORDER[n - 1])
  }

  function Import(s: Snapshot): seq<PreparedTable> {
    TablesUpTo(map t | t in TARGET_ORDER :: Final(s, t), |TARGET_ORDER|)
  }

  lemma {:induction false} SameTables(a: map<Target, seq<PreparedRow>>, b: map<Target, seq<PreparedRow>>, n: nat)
    requires n <= |TARGET_ORDER| && forall t | t in TARGET_ORDER :: In(a, t) == In(b, t)
    ensures TablesUpTo(a, n) == TablesUpTo(b, n)
  {
    if n > 0 {
      SameTables(a, b, n - 1);
      assert TARGET_ORDER[n - 1] in TARGET_ORDER;
    }
  }

  class SnapshotTransformer {
    const snapshot: Snapshot
    ghost const lookups: Lookups
    const enrollments: map<string, Source>
    const kicksByMemberSeason: map<(string, string), Source>
    var byTarget: map<Target, seq<PreparedRow>>
    var endedSeasons: map<string, string>

    constructor (s: Snapshot)
      ensures Valid() && snapshot == s && lookups == LookupsOf(s) && fresh(this)
      ensures Entered(Season, []) && Entered(User, []) && ProgramEmpty() && endedSeasons == map[]
    {
      snapshot := s;
      lookups := LookupsOf(s);
      byTarget, endedSeasons := map[], map[];
      var index := IndexRows(s, Enrollment);
      enrollments := index;
      var kicks := ActiveKickEvents(s);
      kicksByMemberSeason := kicks;
    }

    ghost predicate Valid() {
      enrollments == lookups.enrollments && kicksByMemberSeason == lookups.kicks
    }

    function RowsOf(t: Target): seq<PreparedRow>
      reads `byTarget
    {
      In(byTarget, t)
    }

    method AddRow(t: Target, source: Source, id: string, refs: Refs, data: Data)
      modifies `byTarget
      ensures RowsOf(t) == old(RowsOf(t)) + [Prepare(t, source, Emitted(id, refs, data))]
      ensures forall u | u != t :: RowsOf(u) == old(RowsOf(u))
    {
      var key := TargetKey(t, id);
      byTarget := byTarget[t := RowsOf(t) + [PreparedRow(key, SourceOf(t), SourceId(SourceOf(t), source), refs, data)]];
    }

    /** Every target of a legacy table holds what these legacy rows become. */
    ghost predicate Entered(table: Table, rows: seq<Source>)
      reads `byTarget
    {
      forall t | SourceOf(t) == table :: RowsOf(t) == EmitAll(snapshot, lookups, t, rows)
    }

    ghost predicate ProgramEmpty()
      reads `byTarget
    {
      RowsOf(SeasonWeeks) == [] && RowsOf(Enrollments) == []
      && RowsOf(Mentorships) == [] && RowsOf(EnrollmentRemovalEvents) == []
    }

    method TransformSeasons()
      requires Valid() && Entered(Season, []) && Entered(User, []) && ProgramEmpty() && endedSeasons == map[]
      modifies this
      ensures Entered(Season, Rows(snapshot, Season)) && Entered(User, []) && ProgramEmpty()
      ensures endedSeasons == Ended(snapshot)
    {
      var rows := Rows(snapshot, Season);
      var i := 0;
      while i < |rows|
        invariant 0 <= i <= |rows|
        invariant RowsOf(Seasons) == EmitAll(snapshot, lookups, Seasons, rows[..i])
        invariant RowsOf(SeasonCloseEvents) == EmitAll(snapshot, lookups, SeasonCloseEvents, rows[..i])
        invariant endedSeasons == EndedIn(snapshot, rows[..i])
        invariant forall t | t != Seasons && t != SeasonCloseEvents :: RowsOf(t) == old(RowsOf(t))
      {
        EmitAllStep(snapshot, lookups, Seasons, rows, i);
        EmitAllStep(snapshot, lookups, SeasonCloseEvents, rows, i);
        EndedStep(snapshot, rows, i);
        AddSeason(rows[i]);
        i := i + 1;
      }
      assert rows[..i] == rows;
    }

    method AddSeason(source: Source)
      modifies this
      ensures RowsOf(Seasons) == old(RowsOf(Seasons)) + Added(snapshot, lookups, Seasons, source)
      ensures RowsOf(SeasonCloseEvents)
              == old(RowsOf(SeasonCloseEvents)) + Added(snapshot, lookups, SeasonCloseEvents, source)
      ensures forall t | t != Seasons && t != SeasonCloseEvents :: RowsOf(t) == old(RowsOf(t))
      ensures endedSeasons == if HasEnded(snapshot, source)
                              then old(endedSeasons)[SourceId(Season, source) := CloseIdOf(SourceId(Season, source))]
                              else old(endedSeasons)
    {
      var id := SourceId(Season, source);
      var closed := Before(snapshot.parsing, Get(source, EndDateInclusiveUTC), snapshot.capturedAt);
      var closedAt := Null;
      if closed {
        closedAt := Text(snapshot.capturedText);
        var closeId := "legacy-close:" + id;
        endedSeasons := endedSeasons[id := closeId];
        AddRow(SeasonCloseEvents, source, closeId,
               map[SeasonRef := Raw(Text(id)), ClosedByRef := Raw(Null), ReopenedByRef := Raw(Null)],
               CloseData(closedAt));
      }
      AddRow(Seasons, source, id, map[],
             SeasonData(closed, Get(source, StartDateInclusiveUTC), Get(source, EndDateInclusiveUTC), closedAt));
    }

    method TransformUsers()
      requires Valid() && Entered(User, []) && Entered(Season, Rows(snapshot, Season)) && ProgramEmpty()
      modifies `byTarget
      ensures Entered(User, Rows(snapshot, User)) && Entered(Season, Rows(snapshot, Season)) && ProgramEmpty()
    {
      var rows := Rows(snapshot, User);
      var i := 0;
      while i < |rows|
        invariant 0 <= i <= |rows|
        invariant forall t | SourceOf(t) == User :: RowsOf(t) == EmitAll(snapshot, lookups, t, rows[..i])
        invariant forall t | SourceOf(t) != User :: RowsOf(t) == old(RowsOf(t))
      {
        forall t
          ensures EmitAll(snapshot, lookups, t, rows[..i + 1])
                  == EmitAll(snapshot, lookups, t, rows[..i]) + Added(snapshot, lookups, t, rows[i])
        {
          EmitAllStep(snapshot, lookups, t, rows, i);
        }
        AddUser(rows[i]);
        i := i + 1;
      }
      assert rows[..i] == rows;
    }

    lemma SatelliteAdded(source: Source, owner: Refs)
      requires owner == OwnerRefs(source)
      ensures forall t | KeyedByUser(t) ::
                Added(snapshot, lookups, t, source)
                == [Prepare(t, source, Emitted(SourceId(User, source), owner, SatelliteFields(t, source)))]
    {
    }

    /** The rows keyed by the user's own key; those of a deleted user carry a pseudonym. */
    method AddSatellites(source: Source, deleted: bool)
      requires deleted == IsDeleted(Get(source, DeletedAtUtc))
      modifies `byTarget
      ensures forall t | KeyedByUser(t) :: RowsOf(t) == old(RowsOf(t)) + Added(snapshot, lookups, t, source)
      ensures forall t | !KeyedByUser(t) :: RowsOf(t) == old(RowsOf(t))
    {
      var id := SourceId(User, source);
      var slug, displayName, email := Get(source, Slug), Get(source, Name), Get(source, Email);
      var discord, avatar := Get(source, DiscordId), Get(source, ProfileImage);
      var timezone := "Australia/Adelaide";
      if deleted {
        slug, displayName, email := Text("deleted-" + id), Text("Deleted member"), Null;
        discord, avatar := Null, Null;
        timezone := "UTC";
      }
      var owner: Refs := map[UserRef := Raw(Text(id))];
      SatelliteAdded(source, owner);
      AddRow(UserProfiles, source, id, owner, ProfileData(slug, displayName, avatar));
      AddRow(UserPreferences, source, id, owner, PreferencesData(timezone));
      AddRow(UserContacts, source, id, owner, ContactData(email, discord));
      AddRow(UserSecurity, source, id, owner, SecurityData(1, false));
    }

    method AddDirector(source: Source)
      modifies `byTarget
      ensures RowsOf(GlobalRoleAssignments)
              == old(RowsOf(GlobalRoleAssignments)) + Added(snapshot, lookups, GlobalRoleAssignments, source)
      ensures forall t | t != GlobalRoleAssignments :: RowsOf(t) == old(RowsOf(t))
    {
      var id := SourceId(User, source);
      if IsTrue(snapshot.parsing, Get(source, IsAdmin)) && !IsDeleted(Get(source, DeletedAtUtc)) {
        AddRow(GlobalRoleAssignments, source, "legacy-director:" + id,
               map[UserRef := Raw(Text(id)), GrantedByRef := Raw(Null)], DirectorData(PendingMfa));
      }
    }

    method AddUser(source: Source)
      modifies `byTarget
      ensures forall t | SourceOf(t) == User :: RowsOf(t) == old(RowsOf(t)) + Added(snapshot, lookups, t, source)
      ensures forall t | SourceOf(t) != User :: RowsOf(t) == old(RowsOf(t))
    {
      var id := SourceId(User, source);
      var deleted := false;
      if IsDeleted(Get(source, DeletedAtUtc)) {
        deleted := true;
      }
      AddRow(Users, source, id, map[], UserData(deleted, Get(source, DeletedAtUtc)));
      AddSatellites(source, deleted);
      AddDirector(source);
    }

    method EnrollmentRow(source: Source) returns (refs: Refs, data: Data)
      requires Valid() && endedSeasons == lookups.ended
      ensures refs == EnrollmentRefs(lookups, source) && data == EnrollmentFields(snapshot, lookups, source)
    {
      var seasonId := TextOf(Get(source, SeasonId));
      var key := (TextOf(Get(source, UserId)), seasonId);
      var state, completedBy, stateChanged := ActiveState, Null, Null;
      if key in kicksByMemberSeason {
        state, stateChanged := KickedState, Get(kicksByMemberSeason[key], KickedAtUtc);
      } else if IsDeleted(Get(source, DeletedAtUtc)) {
        state, stateChanged := WithdrawnState, Get(source, DeletedAtUtc);
      } else if seasonId in endedSeasons {
        state, completedBy, stateChanged := CompletedState, Text(endedSeasons[seasonId]), Text(snapshot.capturedText);
      }
      var role := MapEnum(NumberOf(snapshot.parsing, Get(source, Role)), [Student, Mentor, Coordinator], Unmapped);
      var level := MapEnum(NumberOf(snapshot.parsing, Get(source, StudentRolePromotion)),
                           [NotApplicable, Novice, Beginner, Intermediate, Advanced], UnmappedLevel);
      var assignment, activatedAt := Assigned, Get(source, CreatedAtUtc);
      if role == Coordinator {
        assignment, activatedAt := PendingMfa, Null;
      }
      var closeAssignment, closeActivatedAt := None, Null;
      if state != ActiveState {
        if completedBy != Null {
          closeAssignment, closeActivatedAt := Some(assignment), activatedAt;
        }
        assignment, activatedAt := Revoked, Null;
      }
      refs := map[UserRef := Raw(Get(source, UserId)), SeasonRef := Raw(Get(source, SeasonId)),
                  CompletedByRef := Raw(completedBy)];
      data := EnrollmentData(role, level, state, assignment, activatedAt, closeAssignment, closeActivatedAt,
                             stateChanged, Get(source, DeletedAtUtc));
    }

    method EnrollmentEndedAt(e: Option<Source>) returns (at: Value)
      requires Valid()
      ensures at == EnrollmentEnd(lookups, e)
    {
      if e.None? {
        return Null;
      }
      var key := (TextOf(Get(e.value, UserId)), TextOf(Get(e.value, SeasonId)));
      if key in kicksByMemberSeason {
        return Get(kicksByMemberSeason[key], KickedAtUtc);
      }
      if IsDeleted(Get(e.value, DeletedAtUtc)) {
        return Get(e.value, DeletedAtUtc);
      }
      return Null;
    }

    method MentorshipRow(source: Source) returns (refs: Refs, data: Data)
      requires Valid()
      ensures refs == MentorshipRefs(lookups, source) && data == MentorshipFields(lookups, source)
    {
      var mentor, student := None, None;
      if TextOf(Get(source, MentorEnrollmentId)) in enrollments {
        mentor := Some(enrollments[TextOf(Get(source, MentorEnrollmentId))]);
      }
      if TextOf(Get(source, MenteeEnrollmentId)) in enrollments {
        student := Some(enrollments[TextOf(Get(source, MenteeEnrollmentId))]);
      }
      var endedAt := EnrollmentEndedAt(mentor);
      var studentEnded := EnrollmentEndedAt(student);
      if studentEnded != Null {
        if endedAt == Null || Less(TextOf(studentEnded), TextOf(endedAt)) {
          endedAt := studentEnded;
        }
      }
      refs := map[SeasonRef := Raw(if mentor.Some? then Get(mentor.value, SeasonId) else Null),
                  MentorRef := Raw(Get(source, MentorEnrollmentId)),
                  StudentRef := Raw(Get(source, MenteeEnrollmentId))];
      data := MentorshipData(endedAt, Get(source, DeletedAtUtc));
    }

    method AddWeeks()
      requires Valid() && RowsOf(SeasonWeeks) == []
      modifies `byTarget
      ensures RowsOf(SeasonWeeks) == EmitAll(snapshot, lookups, SeasonWeeks, Rows(snapshot, SeasonWeek))
      ensures forall t | t != SeasonWeeks :: RowsOf(t) == old(RowsOf(t))
    {
      var rows := Rows(snapshot, SeasonWeek);
      var i := 0;
      while i < |rows|
        invariant 0 <= i <= |rows|
        invariant RowsOf(SeasonWeeks) == EmitAll(snapshot, lookups, SeasonWeeks, rows[..i])
        invariant forall t | t != SeasonWeeks :: RowsOf(t) == old(RowsOf(t))
      {
        EmitAllStep(snapshot, lookups, SeasonWeeks, rows, i);
        AddRow(SeasonWeeks, rows[i], SourceId(SeasonWeek, rows[i]), map[SeasonRef := Raw(Get(rows[i], SeasonId))],
               WeekData(Get(rows[i], WeekNumber), Get(rows[i], StartDate), Get(rows[i], EndDate)));
        i := i + 1;
      }
      assert rows[..i] == rows;
    }

    method AddEnrollments()
      requires Valid() && RowsOf(Enrollments) == [] && endedSeasons == lookups.ended
      modifies `byTarget
      ensures RowsOf(Enrollments) == EmitAll(snapshot, lookups, Enrollments, Rows(snapshot, Enrollment))
      ensures forall t | t != Enrollments :: RowsOf(t) == old(RowsOf(t))
    {
      var rows := Rows(snapshot, Enrollment);
      var i := 0;
      while i < |rows|
        invariant 0 <= i <= |rows|
        invariant RowsOf(Enrollments) == EmitAll(snapshot, lookups, Enrollments, rows[..i])
        invariant forall t | t != Enrollments :: RowsOf(t) == old(RowsOf(t))
      {
        EmitAllStep(snapshot, lookups, Enrollments, rows, i);
        var refs, data := EnrollmentRow(rows[i]);
        AddRow(Enrollments, rows[i], SourceId(Enrollment, rows[i]), refs, data);
        i := i + 1;
      }
      assert rows[..i] == rows;
    }

    method AddMentorships()
      requires Valid() && RowsOf(Mentorships) == []
      modifies `byTarget
      ensures RowsOf(Mentorships) == EmitAll(snapshot, lookups, Mentorships, Rows(snapshot, Mentorship))
      ensures forall t | t != Mentorships :: RowsOf(t) == old(RowsOf(t))
    {
      var rows := Rows(snapshot, Mentorship);
      var i := 0;
      while i < |rows|
        invariant 0 <= i <= |rows|
        invariant RowsOf(Mentorships) == EmitAll(snapshot, lookups, Mentorships, rows[..i])
        invariant forall t | t != Mentorships :: RowsOf(t) == old(RowsOf(t))
      {
        EmitAllStep(snapshot, lookups, Mentorships, rows, i);
        var refs, data := MentorshipRow(rows[i]);
        AddRow(Mentorships, rows[i], SourceId(Mentorship, rows[i]), refs, data);
        i := i + 1;
      }
      assert rows[..i] == rows;
    }

    method RemovalRow(source: Source) returns (refs: Refs)
      ensures refs == RemovalRefs(snapshot, source)
    {
      var e := FindEnrollment(snapshot, TextOf(Get(source, StudentId)), TextOf(Get(source, SeasonId)));
      var enrollmentId := "";
      if e.Some? {
        enrollmentId := SourceId(Enrollment, e.value);
      }
      refs := map[EnrollmentRef := Raw(Text(enrollmentId)), SeasonRef := Raw(Get(source, SeasonId)),
                  SubjectRef := Raw(Get(source, StudentId)), ActorRef := Raw(Get(source, MentorId))];
    }

    method AddRemovals()
      requires Valid() && RowsOf(EnrollmentRemovalEvents) == []
      modifies `byTarget
      ensures RowsOf(EnrollmentRemovalEvents)
              == EmitAll(snapshot, lookups, EnrollmentRemovalEvents, Rows(snapshot, KickStudentEvent))
      ensures forall t | t != EnrollmentRemovalEvents :: RowsOf(t) == old(RowsOf(t))
    {
      var rows := Rows(snapshot, KickStudentEvent);
      var i := 0;
      while i < |rows|
        invariant 0 <= i <= |rows|
        invariant RowsOf(EnrollmentRemovalEvents) == EmitAll(snapshot, lookups, EnrollmentRemovalEvents, rows[..i])
        invariant forall t | t != EnrollmentRemovalEvents :: RowsOf(t) == old(RowsOf(t))
      {
        EmitAllStep(snapshot, lookups, EnrollmentRemovalEvents, rows, i);
        if !IsDeleted(Get(rows[i], DeletedAtUtc)) {
          var refs := RemovalRow(rows[i]);
          AddRow(EnrollmentRemovalEvents, rows[i], SourceId(KickStudentEvent, rows[i]), refs,
                 RemovalData(KickedState, Get(rows[i], KickReason), Get(rows[i], KickedAtUtc)));
        }
        i := i + 1;
      }
      assert rows[..i] == rows;
    }

    ghost predicate ProgramEntered()
      reads `byTarget
    {
      && RowsOf(SeasonWeeks) == EmitAll(snapshot, lookups, SeasonWeeks, Rows(snapshot, SeasonWeek))
      && RowsOf(Enrollments) == EmitAll(snapshot, lookups, Enrollments, Rows(snapshot, Enrollment))
      && RowsOf(Mentorships) == EmitAll(snapshot, lookups, Mentorships, Rows(snapshot, Mentorship))
      && RowsOf(EnrollmentRemovalEvents)
         == EmitAll(snapshot, lookups, EnrollmentRemovalEvents, Rows(snapshot, KickStudentEvent))
    }

    method TransformProgram()
      requires Valid() && endedSeasons == lookups.ended
      requires ProgramEmpty()
      modifies `byTarget
      ensures ProgramEntered()
      ensures forall t | t != SeasonWeeks && t != Enrollments && t != Mentorships && t != EnrollmentRemovalEvents ::
                RowsOf(t) == old(RowsOf(t))
    {
      AddWeeks();
      AddEnrollments();
      AddMentorships();
      AddRemovals();
    }

    lemma AllEntered()
      requires lookups == LookupsOf(snapshot)
      requires Entered(User, Rows(snapshot, User)) && Entered(Season, Rows(snapshot, Season)) && ProgramEntered()
      ensures forall t :: RowsOf(t) == Unresolved(snapshot, t)
    {
      forall t
        ensures RowsOf(t) == Unresolved(snapshot, t)
      {
        if SourceOf(t) != User && SourceOf(t) != Season {
          assert t == SeasonWeeks || t == Enrollments || t == Mentorships || t == EnrollmentRemovalEvents;
        }
      }
    }

    /** Resolves the references of one row, column by column in any order. */
    static method ResolveRow(refs: map<Column, Target>, row: PreparedRow) returns (r: PreparedRow)
      ensures r == Resolved(refs, row)
    {
      var values := row.refs;
      var left := refs.Keys;
      while left != {}
        invariant left <= refs.Keys && values.Keys == row.refs.Keys
        invariant forall c | c in values ::
                  values[c] == if c in left then row.refs[c] else ResolvedCell(refs, c, row.refs[c])
        decreases |left|
      {
        var c :| c in left;
        left := left - {c};
        if c in values && values[c].Raw? && values[c].value.Text? && values[c].value.s != "" {
          values := values[c := Key(refs[c], values[c].value.s)];
        }
      }
      r := row.(refs := values);
    }

    static method ResolveRows(refs: map<Column, Target>, rows: seq<PreparedRow>) returns (r: seq<PreparedRow>)
      ensures r == ResolvedRows(refs, rows)
    {
      r := rows;
      var i := 0;
      while i < |r|
        invariant 0 <= i <= |r| == |rows|
        invariant forall j | 0 <= j < i :: r[j] == Resolved(refs, rows[j])
        invariant forall j | i <= j < |r| :: r[j] == rows[j]
      {
        var row := ResolveRow(refs, r[i]);
        r := r[i := row];
        i := i + 1;
      }
    }

    method ResolveTables()
      modifies `byTarget
      ensures forall t :: RowsOf(t) == ResolvedRows(References(t), old(RowsOf(t)))
    {
      var left := byTarget.Keys;
      ghost var before := byTarget;
      while left != {}
        invariant left <= byTarget.Keys == before.Keys
        invariant forall t | t in before ::
                    byTarget[t] == if t in left then before[t] else ResolvedRows(References(t), before[t])
        decreases |left|
      {
        var t :| t in left;
        left := left - {t};
        var rows := ResolveRows(References(t), byTarget[t]);
        byTarget := byTarget[t := rows];
      }
    }

    method CollectTables() returns (tables: seq<PreparedTable>)
      ensures tables == TablesUpTo(byTarget, |TARGET_ORDER|)
    {
      tables := [];
      var i := 0;
      while i < |TARGET_ORDER|
        invariant 0 <= i <= |TARGET_ORDER|
        invariant tables == TablesUpTo(byTarget, i)
      {
        var name := TARGET_ORDER[i];
        if RowsOf(name) != [] {
          tables := tables + [PreparedTable(name, RowsOf(name))];
        }
        i := i + 1;
      }
    }

    method Finish() returns (tables: seq<PreparedTable>)
      requires lookups == LookupsOf(snapshot)
      requires Entered(User, Rows(snapshot, User)) && Entered(Season, Rows(snapshot, Season)) && ProgramEntered()
      modifies `byTarget
      ensures tables == Import(snapshot)
    {
      AllEntered();
      ResolveTables();
      tables := CollectTables();
      SameTables(byTarget, map t | t in TARGET_ORDER :: Final(snapshot, t), |TARGET_ORDER|);
    }
  }

  method TransformSnapshot(s: Snapshot) returns (tables: seq<PreparedTable>)
    ensures tables == Import(s)
  {
    var t := new SnapshotTransformer(s);
    t.TransformSeasons();
    t.TransformUsers();
    t.TransformProgram();
    assert t.Entered(User, Rows(s, User));
    assert t.Entered(Season, Rows(s, Season));
    tables := t.Finish();
  }
}
