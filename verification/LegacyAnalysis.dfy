/** The checks on the legacy snapshot that must find nothing before it may be imported. */
module LegacyAnalysis {
  import opened Wrappers
  import opened LegacySource

  datatype Code =
    | MissingSourceTable | MissingSourceId | DuplicateSourceId
    | InvalidSeasonRange | InvalidWeekRange | InvalidWeekNumber | WeekOutsideSeason
    | OrphanReference(field: Field) | InvalidEnrollmentRole | DeletedEnrollmentWithoutKick
    | CrossSeasonMentorship | InvalidMentorshipRoles | KickWithoutEnrollment

  /** A finding that blocks the import. */
  datatype Anomaly = Anomaly(code: Code, table: Table, id: string)

  const LEGACY_TABLES: seq<Table> := [Enrollment, KickStudentEvent, Mentorship, Season, SeasonWeek, User]

  // ----- source keys -----

  predicate HasDoubleBar(id: string) {
    exists k | 0 <= k < |id| - 1 :: id[k] == '|' && id[k + 1] == '|'
  }

  predicate Malformed(id: string) {
    id == "" || HasDoubleBar(id) || id[0] == '|' || id[|id| - 1] == '|'
  }

  ghost predicate HasRowWithId(t: Table, rows: seq<Source>, id: string) {
    exists i | 0 <= i < |rows| :: SourceId(t, rows[i]) == id
  }

  ghost predicate IsDuplicated(t: Table, rows: seq<Source>, id: string) {
    exists i, j | 0 <= i < j < |rows| :: SourceId(t, rows[i]) == id && SourceId(t, rows[j]) == id
  }

  /** What the key checks report, stated without their loops. */
  ghost predicate KeyAnomaly(s: Snapshot, a: Anomaly) {
    match a.code
    case MissingSourceTable => a.table !in s.tables && a.id == ""
    case MissingSourceId => Malformed(a.id) && HasRowWithId(a.table, Rows(s, a.table), a.id)
    case DuplicateSourceId => IsDuplicated(a.table, Rows(s, a.table), a.id)
    case _ => false
  }

  method AnalyzeKeysOf(t: Table, rows: seq<Source>) returns (result: seq<Anomaly>)
    ensures forall a :: a in result <==>
              a.table == t && ((a.code == MissingSourceId && Malformed(a.id) && HasRowWithId(t, rows, a.id))
                            || (a.code == DuplicateSourceId && IsDuplicated(t, rows, a.id)))
  {
    result := [];
    var seen: set<string> := {};
    var i := 0;
    while i < |rows|
      invariant 0 <= i <= |rows|
      invariant forall id :: id in seen <==> HasRowWithId(t, rows[..i], id)
      invariant forall a | a in result :: a.table == t && (a.code == MissingSourceId || a.code == DuplicateSourceId)
      invariant forall id :: Anomaly(MissingSourceId, t, id) in result <==> Malformed(id) && id in seen
      invariant forall id :: Anomaly(DuplicateSourceId, t, id) in result <==>
                  exists j, k | 0 <= j < k < i :: SourceId(t, rows[j]) == id && SourceId(t, rows[k]) == id
    {
      var id := SourceId(t, rows[i]);
      var found := [];
      if Malformed(id) {
        found := found + [Anomaly(MissingSourceId, t, id)];
      }
      if id in seen {
        found := found + [Anomaly(DuplicateSourceId, t, id)];
      }
      result := result + found;
      seen := seen + {id};
      i := i + 1;
    }
    forall a
      ensures a in result <==>
              a.table == t && ((a.code == MissingSourceId && Malformed(a.id) && HasRowWithId(t, rows, a.id))
                            || (a.code == DuplicateSourceId && IsDuplicated(t, rows, a.id)))
    {
      assert a == Anomaly(a.code, a.table, a.id);
    }
  }

  lemma EveryTableListed(t: Table)
    ensures t in LEGACY_TABLES
  {
  }

  lemma KeyAnomaliesOf(s: Snapshot, t: Table, a: Anomaly)
    requires a.table == t
    ensures t !in s.tables ==> (KeyAnomaly(s, a) <==> a == Anomaly(MissingSourceTable, t, ""))
    ensures t in s.tables ==>
              (KeyAnomaly(s, a) <==>
               || (a.code == MissingSourceId && Malformed(a.id) && HasRowWithId(t, s.tables[t], a.id))
               || (a.code == DuplicateSourceId && IsDuplicated(t, s.tables[t], a.id)))
  {
  }

  method AnalyzeKeysIn(s: Snapshot, t: Table) returns (found: seq<Anomaly>)
    ensures forall a :: a in found <==> a.table == t && KeyAnomaly(s, a)
  {
    if t !in s.tables {
      found := [Anomaly(MissingSourceTable, t, "")];
    } else {
      found := AnalyzeKeysOf(t, s.tables[t]);
    }
    forall a: Anomaly | a.table == t
      ensures a in found <==> KeyAnomaly(s, a)
    {
      KeyAnomaliesOf(s, t, a);
    }
  }

  method AnalyzeSourceKeys(s: Snapshot) returns (result: seq<Anomaly>)
    ensures forall a :: a in result <==> KeyAnomaly(s, a)
  {
    result := [];
    var i := 0;
    while i < |LEGACY_TABLES|
      invariant 0 <= i <= |LEGACY_TABLES|
      invariant forall a :: a in result <==> a.table in LEGACY_TABLES[..i] && KeyAnomaly(s, a)
    {
      assert LEGACY_TABLES[..i + 1] == LEGACY_TABLES[..i] + [LEGACY_TABLES[i]];
      var found := AnalyzeKeysIn(s, LEGACY_TABLES[i]);
      result := result + found;
      i := i + 1;
    }
    assert LEGACY_TABLES[..i] == LEGACY_TABLES;
    forall a: Anomaly
      ensures a.table in LEGACY_TABLES
    {
      EveryTableListed(a.table);
    }
  }

  // ----- rows of the program tables -----

  predicate Known(s: Snapshot, t: Table, v: Value) {
    TextOf(v) in Index(s, t)
  }

  predicate OutsideSeason(p: Parsing, week: Source, season: Source) {
    var ws, we := Instant(p, Get(week, StartDate)), Instant(p, Get(week, EndDate));
    var ss, se := Instant(p, Get(season, StartDateInclusiveUTC)), Instant(p, Get(season, EndDateInclusiveUTC));
    ws.Some? && we.Some? && ss.Some? && se.Some? && (ws.value < ss.value || se.value < we.value)
  }

  predicate RoleFitsLevel(p: Parsing, e: Source) {
    var role, level := NumberOf(p, Get(e, Role)), NumberOf(p, Get(e, StudentRolePromotion));
    0 <= role <= 2 && 0 <= level <= 4 && (role == 0 <==> level != 0)
  }

  predicate WeekFlaw(s: Snapshot, row: Source, c: Code) {
    match c
    case OrphanReference(f) => f == SeasonId && !Known(s, Season, Get(row, SeasonId))
    case InvalidWeekRange => InvalidRange(s.parsing, Get(row, StartDate), Get(row, EndDate))
    case InvalidWeekNumber => NumberOf(s.parsing, Get(row, WeekNumber)) <= 0
    case WeekOutsideSeason =>
      Known(s, Season, Get(row, SeasonId))
        && OutsideSeason(s.parsing, row, Index(s, Season)[TextOf(Get(row, SeasonId))])
    case _ => false
  }

  predicate EnrollmentFlaw(s: Snapshot, row: Source, c: Code) {
    match c
    case OrphanReference(f) =>
      (f == UserId && !Known(s, User, Get(row, UserId))) || (f == SeasonId && !Known(s, Season, Get(row, SeasonId)))
    case InvalidEnrollmentRole => !RoleFitsLevel(s.parsing, row)
    case DeletedEnrollmentWithoutKick =>
      IsDeleted(Get(row, DeletedAtUtc)) && (TextOf(Get(row, UserId)), TextOf(Get(row, SeasonId))) !in Kicks(s)
    case _ => false
  }

  predicate MentorshipFlaw(s: Snapshot, row: Source, c: Code) {
    var index := Index(s, Enrollment);
    var mentor, student := TextOf(Get(row, MentorEnrollmentId)), TextOf(Get(row, MenteeEnrollmentId));
    match c
    case OrphanReference(f) =>
      (f == MentorEnrollmentId && mentor !in index) || (f == MenteeEnrollmentId && student !in index)
    case CrossSeasonMentorship =>
      mentor in index && student in index &&
      TextOf(Get(index[mentor], SeasonId)) != TextOf(Get(index[student], SeasonId))
    case InvalidMentorshipRoles =>
      mentor in index && student in index &&
      (NumberOf(s.parsing, Get(index[mentor], Role)) == 0 || NumberOf(s.parsing, Get(index[student], Role)) != 0)
    case _ => false
  }

  predicate KickFlaw(s: Snapshot, row: Source, c: Code) {
    match c
    case OrphanReference(f) =>
      (f in {MentorId, StudentId} && !Known(s, User, Get(row, f)))
        || (f == SeasonId && !Known(s, Season, Get(row, SeasonId)))
    case KickWithoutEnrollment =>
      FirstMembership(Rows(s, Enrollment), TextOf(Get(row, StudentId)), TextOf(Get(row, SeasonId))).None?
    case _ => false
  }

  predicate Flaw(s: Snapshot, t: Table, row: Source, c: Code) {
    match t
    case User => false
    case Season =>
      c == InvalidSeasonRange
      && InvalidRange(s.parsing, Get(row, StartDateInclusiveUTC), Get(row, EndDateInclusiveUTC))
    case SeasonWeek => WeekFlaw(s, row, c)
    case Enrollment => EnrollmentFlaw(s, row, c)
    case Mentorship => MentorshipFlaw(s, row, c)
    case KickStudentEvent => KickFlaw(s, row, c)
  }

  method WeekFlaws(s: Snapshot, seasons: map<string, Source>, row: Source) returns (codes: seq<Code>)
    requires seasons == Index(s, Season)
    ensures forall c :: c in codes <==> WeekFlaw(s, row, c)
  {
    codes := [];
    var seasonId := TextOf(Get(row, SeasonId));
    if seasonId !in seasons {
      codes := codes + [OrphanReference(SeasonId)];
    }
    if InvalidRange(s.parsing, Get(row, StartDate), Get(row, EndDate)) {
      codes := codes + [InvalidWeekRange];
    }
    if NumberOf(s.parsing, Get(row, WeekNumber)) <= 0 {
      codes := codes + [InvalidWeekNumber];
    }
    if seasonId in seasons {
      if OutsideSeason(s.parsing, row, seasons[seasonId]) {
        codes := codes + [WeekOutsideSeason];
      }
    }
  }

  method EnrollmentFlaws(s: Snapshot, users: map<string, Source>, seasons: map<string, Source>,
                         kicks: map<(string, string), Source>, row: Source) returns (codes: seq<Code>)
    requires users == Index(s, User) && seasons == Index(s, Season) && kicks == Kicks(s)
    ensures forall c :: c in codes <==> EnrollmentFlaw(s, row, c)
  {
    codes := [];
    if TextOf(Get(row, UserId)) !in users {
      codes := codes + [OrphanReference(UserId)];
    }
    if TextOf(Get(row, SeasonId)) !in seasons {
      codes := codes + [OrphanReference(SeasonId)];
    }
    var role, level := NumberOf(s.parsing, Get(row, Role)), NumberOf(s.parsing, Get(row, StudentRolePromotion));
    if role < 0 || role > 2 || level < 0 || level > 4 || (role == 0 && level == 0) || (role != 0 && level != 0) {
      codes := codes + [InvalidEnrollmentRole];
    }
    if IsDeleted(Get(row, DeletedAtUtc)) {
      if (TextOf(Get(row, UserId)), TextOf(Get(row, SeasonId))) !in kicks {
        codes := codes + [DeletedEnrollmentWithoutKick];
      }
    }
  }

  method MentorshipFlaws(s: Snapshot, enrollments: map<string, Source>, row: Source) returns (codes: seq<Code>)
    requires enrollments == Index(s, Enrollment)
    ensures forall c :: c in codes <==> MentorshipFlaw(s, row, c)
  {
    codes := [];
    var mentor, student := TextOf(Get(row, MentorEnrollmentId)), TextOf(Get(row, MenteeEnrollmentId));
    if mentor !in enrollments {
      codes := codes + [OrphanReference(MentorEnrollmentId)];
    }
    if student !in enrollments {
      codes := codes + [OrphanReference(MenteeEnrollmentId)];
    }
    if mentor in enrollments && student in enrollments {
      if TextOf(Get(enrollments[mentor], SeasonId)) != TextOf(Get(enrollments[student], SeasonId)) {
        codes := codes + [CrossSeasonMentorship];
      }
      if NumberOf(s.parsing, Get(enrollments[mentor], Role)) == 0
        || NumberOf(s.parsing, Get(enrollments[student], Role)) != 0 {
        codes := codes + [InvalidMentorshipRoles];
      }
    }
  }

  method KickFlaws(s: Snapshot, users: map<string, Source>, seasons: map<string, Source>, row: Source)
    returns (codes: seq<Code>)
    requires users == Index(s, User) && seasons == Index(s, Season)
    ensures forall c :: c in codes <==> KickFlaw(s, row, c)
  {
    codes := [];
    if TextOf(Get(row, MentorId)) !in users {
      codes := codes + [OrphanReference(MentorId)];
    }
    if TextOf(Get(row, StudentId)) !in users {
      codes := codes + [OrphanReference(StudentId)];
    }
    if TextOf(Get(row, SeasonId)) !in seasons {
      codes := codes + [OrphanReference(SeasonId)];
    }
    var enrollment := FindEnrollment(s, TextOf(Get(row, StudentId)), TextOf(Get(row, SeasonId)));
    if enrollment.None? {
      codes := codes + [KickWithoutEnrollment];
    }
  }

  ghost predicate FlawAmong(s: Snapshot, t: Table, rows: seq<Source>, a: Anomaly) {
    a.table == t && exists row :: row in rows && SourceId(t, row) == a.id && Flaw(s, t, row, a.code)
  }

  /** What the row checks report, stated without their loops. */
  ghost predicate RowAnomaly(s: Snapshot, a: Anomaly) {
    FlawAmong(s, a.table, Rows(s, a.table), a)
  }

  method Report(t: Table, row: Source, codes: seq<Code>) returns (found: seq<Anomaly>)
    ensures forall a :: a in found <==> a.table == t && a.id == SourceId(t, row) && a.code in codes
  {
    found := seq(|codes|, i requires 0 <= i < |codes| => Anomaly(codes[i], t, SourceId(t, row)));
    forall a: Anomaly | a.table == t && a.id == SourceId(t, row) && a.code in codes
      ensures a in found
    {
      var i :| 0 <= i < |codes| && codes[i] == a.code;
      assert found[i] == a;
    }
  }

  /** The loop over one table; which checks a row gets depends on its table. */
  method AnalyzeRows(s: Snapshot, t: Table, users: map<string, Source>, seasons: map<string, Source>,
                     enrollments: map<string, Source>, kicks: map<(string, string), Source>)
    returns (result: seq<Anomaly>)
    requires users == Index(s, User) && seasons == Index(s, Season)
    requires enrollments == Index(s, Enrollment) && kicks == Kicks(s)
    ensures forall a :: a in result <==> FlawAmong(s, t, Rows(s, t), a)
  {
    result := [];
    var rows := Rows(s, t);
    var i := 0;
    while i < |rows|
      invariant 0 <= i <= |rows|
      invariant forall a :: a in result <==> FlawAmong(s, t, rows[..i], a)
    {
      var row := rows[i];
      var codes := RowFlaws(s, t, users, seasons, enrollments, kicks, row);
      var found := Report(t, row, codes);
      result := result + found;
      assert rows[..i + 1] == rows[..i] + [row];
      i := i + 1;
    }
    assert rows[..i] == rows;
  }

  method RowFlaws(s: Snapshot, t: Table, users: map<string, Source>, seasons: map<string, Source>,
                  enrollments: map<string, Source>, kicks: map<(string, string), Source>, row: Source)
    returns (codes: seq<Code>)
    requires users == Index(s, User) && seasons == Index(s, Season)
    requires enrollments == Index(s, Enrollment) && kicks == Kicks(s)
    ensures forall c :: c in codes <==> Flaw(s, t, row, c)
  {
    match t
    case User => codes := [];
    case Season =>
      codes := [];
      if InvalidRange(s.parsing, Get(row, StartDateInclusiveUTC), Get(row, EndDateInclusiveUTC)) {
        codes := [InvalidSeasonRange];
      }
    case SeasonWeek => codes := WeekFlaws(s, seasons, row);
    case Enrollment => codes := EnrollmentFlaws(s, users, seasons, kicks, row);
    case Mentorship => codes := MentorshipFlaws(s, enrollments, row);
    case KickStudentEvent => codes := KickFlaws(s, users, seasons, row);
  }

  method AnalyzeProgram(s: Snapshot) returns (result: seq<Anomaly>)
    ensures forall a :: a in result <==> a.table != KickStudentEvent && RowAnomaly(s, a)
  {
    var users := IndexRows(s, User);
    var seasons := IndexRows(s, Season);
    var enrollments := IndexRows(s, Enrollment);
    var kicks := ActiveKickEvents(s);
    var a := AnalyzeRows(s, Season, users, seasons, enrollments, kicks);
    var b := AnalyzeRows(s, SeasonWeek, users, seasons, enrollments, kicks);
    var c := AnalyzeRows(s, Enrollment, users, seasons, enrollments, kicks);
    var d := AnalyzeRows(s, Mentorship, users, seasons, enrollments, kicks);
    result := a + b + c + d;
  }

  method AnalyzeRemovalEvents(s: Snapshot) returns (result: seq<Anomaly>)
    ensures forall a :: a in result <==> a.table == KickStudentEvent && RowAnomaly(s, a)
  {
    var users := IndexRows(s, User);
    var seasons := IndexRows(s, Season);
    var enrollments := IndexRows(s, Enrollment);
    var kicks := ActiveKickEvents(s);
    result := AnalyzeRows(s, KickStudentEvent, users, seasons, enrollments, kicks);
  }

  /** No check finds anything. */
  ghost predicate Clean(s: Snapshot) {
    forall a :: !KeyAnomaly(s, a) && !RowAnomaly(s, a)
  }

  method AnalyzeSnapshot(s: Snapshot) returns (result: seq<Anomaly>)
    ensures forall a :: a in result <==> KeyAnomaly(s, a) || RowAnomaly(s, a)
    ensures result == [] <==> Clean(s)
  {
    var keys := AnalyzeSourceKeys(s);
    var program := AnalyzeProgram(s);
    var removals := AnalyzeRemovalEvents(s);
    result := keys + program + removals;
    if result != [] {
      assert result[0] in result;
    }
  }

  // ----- what a clean snapshot has -----

  lemma CleanRow(s: Snapshot, t: Table, row: Source, c: Code)
    requires Clean(s) && row in Rows(s, t)
    ensures !Flaw(s, t, row, c)
  {
    assert !RowAnomaly(s, Anomaly(c, t, SourceId(t, row)));
  }

  lemma CleanIds(s: Snapshot, t: Table, row: Source)
    requires Clean(s) && row in Rows(s, t)
    ensures SourceId(t, row) != ""
  {
    assert !KeyAnomaly(s, Anomaly(MissingSourceId, t, SourceId(t, row)));
  }
}
