/** The legacy snapshot that the importer reads, and the lookups it makes over it. */
module LegacySource {
  import opened Wrappers
  import opened StringOrder

  /** The legacy tables that carry accounts and programs. */
  datatype Table = User | Season | SeasonWeek | Enrollment | Mentorship | KickStudentEvent

  datatype Field =
    | UserId | SeasonId | SeasonWeekId | EnrollmentId | MentorshipId | KickStudentEventId
    | MentorEnrollmentId | MenteeEnrollmentId | StudentId | MentorId
    | Slug | Name | Email | DiscordId | ProfileImage
    | Role | StudentRolePromotion | WeekNumber | IsAdmin
    | StartDateInclusiveUTC | EndDateInclusiveUTC | StartDate | EndDate
    | KickedAtUtc | KickReason | CreatedAtUtc | DeletedAtUtc

  /** A JSON value of a legacy column. */
  datatype Value = Null | Text(s: string) | Number(n: int) | Flag(b: bool)

  type Source = map<Field, Value>

  /** How the texts of the snapshot parse: as instants, integers and booleans. */
  datatype Parsing = Parsing(instants: map<string, int>, numbers: map<string, int>, truths: map<string, bool>)

  datatype Snapshot = Snapshot(tables: map<Table, seq<Source>>, capturedAt: int, capturedText: string, parsing: Parsing)

  function Get(row: Source, f: Field): Value {
    if f in row then row[f] else Null
  }

  function Rows(s: Snapshot, t: Table): seq<Source> {
    if t in s.tables then s.tables[t] else []
  }

  function Digits(n: nat): string {
    if n < 10 then [('0' as int + n) as char] else Digits(n / 10) + [('0' as int + n % 10) as char]
  }

  function TextOf(v: Value): string {
    match v
    case Null => ""
    case Text(s) => s
    case Number(n) => if n < 0 then "-" + Digits(-n) else Digits(n)
    case Flag(b) => if b then "true" else "false"
  }

  function NumberOf(p: Parsing, v: Value): int {
    match v
    case Number(n) => n
    case Text(s) => if s in p.numbers then p.numbers[s] else 0
    case _ => 0
  }

  predicate IsTrue(p: Parsing, v: Value) {
    match v
    case Flag(b) => b
    case _ => TextOf(v) != "" && TextOf(v) in p.truths && p.truths[TextOf(v)]
  }

  function Instant(p: Parsing, v: Value): Option<int> {
    if TextOf(v) != "" && TextOf(v) in p.instants then Some(p.instants[TextOf(v)]) else None
  }

  predicate Before(p: Parsing, v: Value, at: int) {
    Instant(p, v).Some? && Instant(p, v).value < at
  }

  predicate InvalidRange(p: Parsing, start: Value, end: Value) {
    Instant(p, start).Some? && Instant(p, end).Some? && Instant(p, end).value < Instant(p, start).value
  }

  /** A timestamp that marks its row as deleted. */
  predicate IsDeleted(v: Value) {
    v != Null && TextOf(v) != ""
  }

  function IdField(t: Table): Field {
    match t
    case User => UserId
    case Season => SeasonId
    case SeasonWeek => SeasonWeekId
    case Enrollment => EnrollmentId
    case Mentorship => MentorshipId
    case KickStudentEvent => KickStudentEventId
  }

  function SourceId(t: Table, row: Source): string {
    TextOf(Get(row, IdField(t)))
  }

  // ----- rows by their id -----

  function Indexed(t: Table, rows: seq<Source>): map<string, Source> {
    if rows == [] then map[] else Indexed(t, rows[..|rows| - 1])[SourceId(t, rows[|rows| - 1]) := rows[|rows| - 1]]
  }

  function Index(s: Snapshot, t: Table): map<string, Source> {
    Indexed(t, Rows(s, t))
  }

  method IndexRows(s: Snapshot, t: Table) returns (index: map<string, Source>)
    ensures index == Index(s, t)
  {
    index := map[];
    var rows := Rows(s, t);
    var i := 0;
    while i < |rows|
      invariant 0 <= i <= |rows|
      invariant index == Indexed(t, rows[..i])
    {
      assert rows[..i + 1][..i] == rows[..i];
      index := index[SourceId(t, rows[i]) := rows[i]];
      i := i + 1;
    }
    assert rows[..i] == rows;
  }

  ghost predicate HasId(t: Table, rows: seq<Source>, id: string) {
    exists row :: row in rows && SourceId(t, row) == id
  }

  /** The index knows exactly the ids of the table and maps each to a row that has it. */
  lemma {:induction false} IndexedIsSound(t: Table, rows: seq<Source>, id: string)
    ensures id in Indexed(t, rows) <==> HasId(t, rows, id)
    ensures id in Indexed(t, rows) ==> Indexed(t, rows)[id] in rows && SourceId(t, Indexed(t, rows)[id]) == id
  {
    if rows != [] {
      var rest, last := rows[..|rows| - 1], rows[|rows| - 1];
      IndexedIsSound(t, rest, id);
      assert rows == rest + [last];
      assert forall row :: row in rows <==> row in rest || row == last;
    }
  }

  // ----- kick events -----

  predicate IsKick(row: Source, user: string, season: string) {
    !IsDeleted(Get(row, DeletedAtUtc)) && TextOf(Get(row, StudentId)) == user && TextOf(Get(row, SeasonId)) == season
  }

  predicate Later(row: Source, than: Source) {
    Less(TextOf(Get(than, KickedAtUtc)), TextOf(Get(row, KickedAtUtc)))
  }

  function WithKick(kicks: map<(string, string), Source>, row: Source): map<(string, string), Source> {
    var key := (TextOf(Get(row, StudentId)), TextOf(Get(row, SeasonId)));
    if IsDeleted(Get(row, DeletedAtUtc)) then kicks
    else if key !in kicks || Later(row, kicks[key]) then kicks[key := row]
    else kicks
  }

  function KicksIn(rows: seq<Source>): map<(string, string), Source> {
    if rows == [] then map[] else WithKick(KicksIn(rows[..|rows| - 1]), rows[|rows| - 1])
  }

  function Kicks(s: Snapshot): map<(string, string), Source> {
    KicksIn(Rows(s, KickStudentEvent))
  }

  method ActiveKickEvents(s: Snapshot) returns (kicks: map<(string, string), Source>)
    ensures kicks == Kicks(s)
  {
    kicks := map[];
    var rows := Rows(s, KickStudentEvent);
    var i := 0;
    while i < |rows|
      invariant 0 <= i <= |rows|
      invariant kicks == KicksIn(rows[..i])
    {
      assert rows[..i + 1][..i] == rows[..i];
      var row := rows[i];
      if !IsDeleted(Get(row, DeletedAtUtc)) {
        var key := (TextOf(Get(row, StudentId)), TextOf(Get(row, SeasonId)));
        if key !in kicks || Less(TextOf(Get(kicks[key], KickedAtUtc)), TextOf(Get(row, KickedAtUtc))) {
          kicks := kicks[key := row];
        }
      }
      i := i + 1;
    }
    assert rows[..i] == rows;
  }

  ghost predicate HasKick(rows: seq<Source>, user: string, season: string) {
    exists row :: row in rows && IsKick(row, user, season)
  }

  lemma LastOrRest(rows: seq<Source>)
    requires rows != []
    ensures forall row :: row in rows <==> row in rows[..|rows| - 1] || row == rows[|rows| - 1]
  {
  }

  /** A member is kicked from a season exactly when a live kick event says so. */
  lemma {:induction false} KicksAreLive(rows: seq<Source>, user: string, season: string)
    ensures (user, season) in KicksIn(rows) <==> HasKick(rows, user, season)
    ensures (user, season) in KicksIn(rows) ==>
              KicksIn(rows)[(user, season)] in rows && IsKick(KicksIn(rows)[(user, season)], user, season)
  {
    if rows != [] {
      KicksAreLive(rows[..|rows| - 1], user, season);
      LastOrRest(rows);
      if IsKick(rows[|rows| - 1], user, season) {
        assert HasKick(rows, user, season);
      }
    }
  }

  lemma LaterIsStrict(row: Source, than: Source)
    ensures !(Later(row, than) && Later(than, row)) && !Later(row, row)
  {
    LessIsStrict(TextOf(Get(than, KickedAtUtc)), TextOf(Get(row, KickedAtUtc)));
    LessIsStrict(TextOf(Get(row, KickedAtUtc)), TextOf(Get(row, KickedAtUtc)));
  }

  lemma LaterIsTransitive(a: Source, b: Source, c: Source)
    requires Later(a, b) && Later(b, c)
    ensures Later(a, c)
  {
    LessIsTransitive(TextOf(Get(c, KickedAtUtc)), TextOf(Get(b, KickedAtUtc)), TextOf(Get(a, KickedAtUtc)));
  }

  /** Of several live kicks of a member the one kept is not earlier than any other. */
  lemma {:induction false} KicksAreLatest(rows: seq<Source>, user: string, season: string, row: Source)
    requires row in rows && IsKick(row, user, season)
    ensures (user, season) in KicksIn(rows) && !Later(row, KicksIn(rows)[(user, season)])
  {
    var rest, last, key := rows[..|rows| - 1], rows[|rows| - 1], (user, season);
    LastOrRest(rows);
    LaterIsStrict(last, last);
    if row in rest {
      KicksAreLatest(rest, user, season, row);
      var kept := KicksIn(rest)[key];
      if Later(last, kept) && Later(row, last) {
        LaterIsTransitive(row, last, kept);
      }
    }
  }

  // ----- the enrollment of a member in a season -----

  predicate IsMembership(row: Source, user: string, season: string) {
    TextOf(Get(row, UserId)) == user && TextOf(Get(row, SeasonId)) == season
  }

  function FirstMembership(rows: seq<Source>, user: string, season: string): Option<Source> {
    if rows == [] then None
    else if IsMembership(rows[0], user, season) then Some(rows[0])
    else FirstMembership(rows[1..], user, season)
  }

  lemma {:induction false} FirstMembershipFound(rows: seq<Source>, user: string, season: string)
    ensures var r := FirstMembership(rows, user, season);
            && (r.Some? <==> exists row :: row in rows && IsMembership(row, user, season))
            && (r.Some? ==> r.value in rows && IsMembership(r.value, user, season))
  {
    if rows != [] {
      FirstMembershipFound(rows[1..], user, season);
      assert rows == [rows[0]] + rows[1..];
    }
  }

  method FindEnrollment(s: Snapshot, user: string, season: string) returns (r: Option<Source>)
    ensures r == FirstMembership(Rows(s, Enrollment), user, season)
  {
    var rows := Rows(s, Enrollment);
    var i := 0;
    while i < |rows|
      invariant 0 <= i <= |rows|
      invariant FirstMembership(rows, user, season) == FirstMembership(rows[i..], user, season)
    {
      if IsMembership(rows[i], user, season) {
        return Some(rows[i]);
      }
      assert rows[i..][1..] == rows[i + 1..];
      i := i + 1;
    }
    return None;
  }

  /** A season is ended when its end lies before the snapshot. */
  predicate HasEnded(s: Snapshot, season: Source) {
    Before(s.parsing, Get(season, EndDateInclusiveUTC), s.capturedAt)
  }
}
