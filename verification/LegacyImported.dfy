/**
 What the importer makes of a snapshot, table by table: how many rows, of which legacy rows, with what in
 them. Stated on the tables of the result and on the legacy rows alone.
 */
module LegacyImported {
  import opened Wrappers
  import opened StringOrder
  import opened LegacySource
  import opened LegacyAnalysis
  import opened LegacyTransform
  import opened LegacyClosure

  // ----- the rows of one table of the result -----

  function RowsIn(tables: seq<PreparedTable>, t: Target): seq<PreparedRow> {
    if tables == [] then [] else if tables[0].name == t then tables[0].rows else RowsIn(tables[1..], t)
  }

  lemma {:induction false} RowsInListed(tables: seq<PreparedTable>, all: Tables, i: nat, t: Target)
    requires ListsSome(tables, all, |TARGET_ORDER|) && i <= |tables|
    requires forall j | 0 <= j < i :: tables[j].name != t
    ensures RowsIn(tables[i..], t) ==
            if exists j | 0 <= j < |tables| :: tables[j].name == t then In(all, t) else []
    decreases |tables| - i
  {
    if i < |tables| {
      assert tables[i..][1..] == tables[i + 1..];
      if tables[i].name != t {
        RowsInListed(tables, all, i + 1, t);
      }
    }
  }

  lemma ImportedRows(s: Snapshot, t: Target)
    ensures RowsIn(Import(s), t) == Final(s, t)
  {
    var all := AllTables(s);
    TablesAreInOrder(all, |TARGET_ORDER|);
    AllTablesAre(s, t);
    assert Import(s)[0..] == Import(s);
    RowsInListed(Import(s), all, 0, t);
    if In(all, t) != [] {
      assert Listed(Import(s), t);
    }
  }

  /** The legacy rows that pass a test, in their order. */
  function Selected(rows: seq<Source>, keep: Source -> bool): seq<Source> {
    if rows == [] then []
    else Selected(rows[..|rows| - 1], keep) + if keep(rows[|rows| - 1]) then [rows[|rows| - 1]] else []
  }

  lemma {:induction false} SelectedAre(rows: seq<Source>, keep: Source -> bool)
    ensures forall row :: row in Selected(rows, keep) <==> row in rows && keep(row)
    ensures (forall row | row in rows :: keep(row)) ==> Selected(rows, keep) == rows
  {
    if rows != [] {
      SelectedAre(rows[..|rows| - 1], keep);
      LastOrRest(rows);
      assert rows == rows[..|rows| - 1] + [rows[|rows| - 1]];
    }
  }

  lemma {:induction false} EmittedSelected(s: Snapshot, l: Lookups, t: Target, rows: seq<Source>, keep: Source -> bool)
    requires forall row :: keep(row) <==> Emit(s, l, t, row).Some?
    ensures |EmitAll(s, l, t, rows)| == |Selected(rows, keep)|
    ensures forall i | 0 <= i < |Selected(rows, keep)| ::
              keep(Selected(rows, keep)[i])
              && EmitAll(s, l, t, rows)[i]
                 == Prepare(t, Selected(rows, keep)[i], Emit(s, l, t, Selected(rows, keep)[i]).value)
  {
    if rows != [] {
      EmittedSelected(s, l, t, rows[..|rows| - 1], keep);
    }
  }

  /** A row is keyed by the id of its legacy row and traced to it. */
  predicate KeyedBy(t: Target, row: PreparedRow, source: Source, prefix: string) {
    && row.id == Key(if KeyedByUser(t) then Users else t, prefix + SourceId(SourceOf(t), source))
    && row.sourceTable == SourceOf(t) && row.sourceId == SourceId(SourceOf(t), source)
  }

  /** A table has one row for each of these legacy rows, in their order. */
  ghost predicate OneEach(t: Target, rows: seq<PreparedRow>, sources: seq<Source>, prefix: string) {
    |rows| == |sources| && forall i | 0 <= i < |rows| :: KeyedBy(t, rows[i], sources[i], prefix)
  }

  function PrefixOf(t: Target): string {
    match t
    case GlobalRoleAssignments => "legacy-director:"
    case SeasonCloseEvents => "legacy-close:"
    case _ => ""
  }

  /** The legacy rows that a table takes. */
  predicate Takes(s: Snapshot, t: Target, row: Source) {
    match t
    case GlobalRoleAssignments => Administrator(s, row) && !MarkedDeleted(row)
    case SeasonCloseEvents => EndedBeforeCapture(s, row)
    case EnrollmentRemovalEvents => !MarkedDeleted(row)
    case _ => true
  }

  /** The column IsAdmin says true, as a flag or as a text. */
  predicate Administrator(s: Snapshot, user: Source) {
    && IsAdmin in user
    && (user[IsAdmin] == Flag(true)
        || (!user[IsAdmin].Flag? && TextOf(user[IsAdmin]) != "" && TextOf(user[IsAdmin]) in s.parsing.truths
            && s.parsing.truths[TextOf(user[IsAdmin])]))
  }

  /** The row has a deletion time. */
  predicate MarkedDeleted(row: Source) {
    DeletedAtUtc in row && row[DeletedAtUtc] != Null && row[DeletedAtUtc] != Text("")
  }

  /** The season's end, if it can be read, lies before the time of the snapshot. */
  predicate EndedBeforeCapture(s: Snapshot, season: Source) {
    && EndDateInclusiveUTC in season
    && TextOf(season[EndDateInclusiveUTC]) != "" && TextOf(season[EndDateInclusiveUTC]) in s.parsing.instants
    && s.parsing.instants[TextOf(season[EndDateInclusiveUTC])] < s.capturedAt
  }

  lemma DigitsNotEmpty(n: nat)
    ensures Digits(n) != ""
  {
  }

  lemma DeletedIffMarked(row: Source)
    ensures IsDeleted(Get(row, DeletedAtUtc)) <==> MarkedDeleted(row)
  {
    var v := Get(row, DeletedAtUtc);
    if v.Number? && v.n >= 0 {
      DigitsNotEmpty(v.n);
    }
  }

  lemma EmitsIffTakes(s: Snapshot, l: Lookups, t: Target, row: Source)
    ensures Emit(s, l, t, row).Some? <==> Takes(s, t, row)
    ensures Emit(s, l, t, row).Some? ==> Emit(s, l, t, row).value.id == PrefixOf(t) + SourceId(SourceOf(t), row)
  {
    DeletedIffMarked(row);
  }

  /** The legacy rows that a table takes, in their order. */
  function Taken(s: Snapshot, t: Target): seq<Source> {
    Selected(Rows(s, SourceOf(t)), row => Takes(s, t, row))
  }

  lemma ImportedFrom(s: Snapshot, t: Target)
    ensures |RowsIn(Import(s), t)| == |Taken(s, t)|
    ensures forall i | 0 <= i < |Taken(s, t)| :: IsFrom(s, t, RowsIn(Import(s), t)[i], Taken(s, t)[i])
    ensures forall row :: row in Taken(s, t) <==> row in Rows(s, SourceOf(t)) && Takes(s, t, row)
  {
    var l := LookupsOf(s);
    forall row
      ensures Takes(s, t, row) <==> Emit(s, l, t, row).Some?
    {
      EmitsIffTakes(s, l, t, row);
    }
    ImportedRows(s, t);
    EmittedSelected(s, l, t, Rows(s, SourceOf(t)), row => Takes(s, t, row));
    SelectedAre(Rows(s, SourceOf(t)), row => Takes(s, t, row));
  }

  lemma KeyedFrom(s: Snapshot, t: Target, row: PreparedRow, source: Source)
    requires IsFrom(s, t, row, source)
    ensures KeyedBy(t, row, source, PrefixOf(t))
  {
    EmitsIffTakes(s, LookupsOf(s), t, source);
  }

  /**
   Every legacy user, season, week, enrollment and mentorship has exactly one row, in order, in each table it goes to;
   the tables of directors, close events and removals have one for each live administrator, each ended season and
   each live kick.
   */
  lemma OneRowEach(s: Snapshot, t: Target)
    ensures OneEach(t, RowsIn(Import(s), t), Taken(s, t), PrefixOf(t))
    ensures t !in {GlobalRoleAssignments, SeasonCloseEvents, EnrollmentRemovalEvents} ==>
              Taken(s, t) == Rows(s, SourceOf(t)) && PrefixOf(t) == ""
  {
    var rows := RowsIn(Import(s), t);
    ImportedFrom(s, t);
    SelectedAre(Rows(s, SourceOf(t)), row => Takes(s, t, row));
    forall i | 0 <= i < |rows|
      ensures KeyedBy(t, rows[i], Taken(s, t)[i], PrefixOf(t))
    {
      KeyedFrom(s, t, rows[i], Taken(s, t)[i]);
    }
  }

  /** A table that takes every row of its legacy table. */
  lemma PlainRow(s: Snapshot, t: Target, i: nat)
    requires t !in {GlobalRoleAssignments, SeasonCloseEvents, EnrollmentRemovalEvents} && i < |Rows(s, SourceOf(t))|
    ensures |RowsIn(Import(s), t)| == |Rows(s, SourceOf(t))|
    ensures IsFrom(s, t, RowsIn(Import(s), t)[i], Rows(s, SourceOf(t))[i])
    ensures KeyedBy(t, RowsIn(Import(s), t)[i], Rows(s, SourceOf(t))[i], "")
  {
    OneRowEach(s, t);
    RowFrom(s, t, i);
  }

  /** One reference, resolved. */
  lemma OneReference(refs: map<Column, Target>, c: Column, ref: Target, v: Value)
    requires refs == map[c := ref]
    ensures ResolvedRefs(refs, map[c := Raw(v)]) == map[c := CellTo(ref, v)]
  {
  }

  lemma RowFrom(s: Snapshot, t: Target, i: nat)
    requires i < |Taken(s, t)|
    ensures i < |RowsIn(Import(s), t)| && IsFrom(s, t, RowsIn(Import(s), t)[i], Taken(s, t)[i])
    ensures Taken(s, t)[i] in Rows(s, SourceOf(t)) && Takes(s, t, Taken(s, t)[i])
  {
    ImportedFrom(s, t);
    assert Taken(s, t)[i] in Taken(s, t);
  }

  // ----- users -----

  /** The columns of the tables keyed by a user: a deleted user has no personal data in them. */
  predicate SatelliteColumns(t: Target, user: Source, d: Data) {
    match t
    case UserProfiles =>
      d == if MarkedDeleted(user)
           then ProfileData(Text("deleted-" + SourceId(User, user)), Text("Deleted member"), Null)
           else ProfileData(Get(user, Slug), Get(user, Name), Get(user, ProfileImage))
    case UserPreferences => d == PreferencesData(if MarkedDeleted(user) then "UTC" else "Australia/Adelaide")
    case UserContacts =>
      d == if MarkedDeleted(user) then ContactData(Null, Null) else ContactData(Get(user, Email), Get(user, DiscordId))
    case UserSecurity => d == SecurityData(1, false)
    case _ => false
  }

  /** Each user is deleted in the import exactly when it was before, and owns its row in every satellite table. */
  lemma UserRows(s: Snapshot, t: Target, i: nat)
    requires i < |Rows(s, User)| && (t == Users || KeyedByUser(t))
    ensures var rows, user := RowsIn(Import(s), t), Rows(s, User)[i];
            && |rows| == |Rows(s, User)|
            && rows[i].id == Key(Users, SourceId(User, user)) && rows[i].sourceId == SourceId(User, user)
            && if t == Users then rows[i].data == UserData(MarkedDeleted(user), Get(user, DeletedAtUtc))
               else
                 && SatelliteColumns(t, user, rows[i].data)
                 && (SourceId(User, user) != "" ==> rows[i].refs == map[UserRef := rows[i].id])
  {
    PlainRow(s, t, i);
    UserColumns(s, t, RowsIn(Import(s), t)[i], Rows(s, User)[i]);
  }

  lemma UserColumns(s: Snapshot, t: Target, row: PreparedRow, user: Source)
    requires (t == Users || KeyedByUser(t)) && IsFrom(s, t, row, user)
    ensures t == Users ==> row.data == UserData(MarkedDeleted(user), Get(user, DeletedAtUtc))
    ensures t != Users ==> SatelliteColumns(t, user, row.data)
                           && row.refs == map[UserRef := CellTo(Users, Text(SourceId(User, user)))]
  {
    DeletedIffMarked(user);
    if t != Users {
      OneReference(References(t), UserRef, Users, Text(SourceId(User, user)));
    }
  }

  /** Each live administrator is a director who still has to set up MFA, and refers to the own account. */
  lemma DirectorRows(s: Snapshot, i: nat)
    requires i < |Taken(s, GlobalRoleAssignments)|
    ensures var rows, user := RowsIn(Import(s), GlobalRoleAssignments), Taken(s, GlobalRoleAssignments)[i];
            && |rows| == |Taken(s, GlobalRoleAssignments)|
            && user in Rows(s, User) && Administrator(s, user) && !MarkedDeleted(user)
            && rows[i].data == DirectorData(PendingMfa)
            && rows[i].refs == map[UserRef := CellTo(Users, Text(SourceId(User, user))), GrantedByRef := Raw(Null)]
  {
    OneRowEach(s, GlobalRoleAssignments);
    RowFrom(s, GlobalRoleAssignments, i);
    DirectorReferences(Taken(s, GlobalRoleAssignments)[i]);
  }

  lemma DirectorReferences(user: Source)
    ensures ResolvedRefs(References(GlobalRoleAssignments), OwnerRefs(user)[GrantedByRef := Raw(Null)])
            == map[UserRef := CellTo(Users, Text(SourceId(User, user))), GrantedByRef := Raw(Null)]
  {
  }

  ghost predicate DistinctIds(t: Table, rows: seq<Source>) {
    forall i, j | 0 <= i < j < |rows| :: SourceId(t, rows[i]) != SourceId(t, rows[j])
  }

  lemma {:induction false} SelectedDistinct(t: Table, rows: seq<Source>, keep: Source -> bool)
    requires DistinctIds(t, rows)
    ensures DistinctIds(t, Selected(rows, keep))
  {
    if rows != [] {
      var rest, last := rows[..|rows| - 1], rows[|rows| - 1];
      SelectedDistinct(t, rest, keep);
      SelectedAre(rest, keep);
      forall i | 0 <= i < |Selected(rest, keep)|
        ensures SourceId(t, Selected(rest, keep)[i]) != SourceId(t, last)
      {
        assert Selected(rest, keep)[i] in rest;
      }
    }
  }

  lemma CleanIsDistinct(s: Snapshot, t: Target)
    requires Clean(s)
    ensures DistinctIds(SourceOf(t), Rows(s, SourceOf(t))) && DistinctIds(SourceOf(t), Taken(s, t))
  {
    var table, rows := SourceOf(t), Rows(s, SourceOf(t));
    forall i, j | 0 <= i < j < |rows|
      ensures SourceId(table, rows[i]) != SourceId(table, rows[j])
    {
      assert !KeyAnomaly(s, Anomaly(DuplicateSourceId, table, SourceId(table, rows[i])));
    }
    SelectedDistinct(table, rows, row => Takes(s, t, row));
  }

  predicate RefersTo(rows: seq<PreparedRow>, i: nat, c: Column, cell: Cell) {
    i < |rows| && c in rows[i].refs && rows[i].refs[c] == cell
  }

  /**
   When the analysis finds nothing, a user has one director row, pending MFA, if IsAdmin is true and the user is not
   deleted, and none otherwise.
   */
  lemma OneDirectorPerAdministrator(s: Snapshot, user: Source)
    requires Clean(s) && user in Rows(s, User)
    ensures var rows, own := RowsIn(Import(s), GlobalRoleAssignments), Key(Users, SourceId(User, user));
            && (Administrator(s, user) && !MarkedDeleted(user) <==> exists i :: RefersTo(rows, i, UserRef, own))
            && (forall i, j | RefersTo(rows, i, UserRef, own) && RefersTo(rows, j, UserRef, own) :: i == j)
            && (forall i: nat | RefersTo(rows, i, UserRef, own) :: rows[i].data == DirectorData(PendingMfa))
  {
    var t := GlobalRoleAssignments;
    var rows, own, taken := RowsIn(Import(s), t), Key(Users, SourceId(User, user)), Taken(s, t);
    CleanIsDistinct(s, t);
    ImportedFrom(s, t);
    CleanIds(s, User, user);
    forall i | 0 <= i < |taken|
      ensures RefersTo(rows, i, UserRef, own) <==> SourceId(User, taken[i]) == SourceId(User, user)
      ensures rows[i].data == DirectorData(PendingMfa)
      ensures SourceId(User, taken[i]) == SourceId(User, user) ==> taken[i] == user
    {
      DirectorRefersTo(s, i, user);
      SameIdSameRow(User, Rows(s, User), taken[i], user);
    }
    if Administrator(s, user) && !MarkedDeleted(user) {
      var i := Position(taken, user);
      assert RefersTo(rows, i, UserRef, own);
    }
  }

  lemma DirectorRefersTo(s: Snapshot, i: nat, user: Source)
    requires Clean(s) && i < |Taken(s, GlobalRoleAssignments)| && user in Rows(s, User)
    ensures var rows := RowsIn(Import(s), GlobalRoleAssignments);
            && i < |rows| && rows[i].data == DirectorData(PendingMfa)
            && (RefersTo(rows, i, UserRef, Key(Users, SourceId(User, user))) <==>
                SourceId(User, Taken(s, GlobalRoleAssignments)[i]) == SourceId(User, user))
    ensures Taken(s, GlobalRoleAssignments)[i] in Rows(s, User)
  {
    DirectorRows(s, i);
    CleanIds(s, User, Taken(s, GlobalRoleAssignments)[i]);
  }

  lemma SameIdSameRow(t: Table, rows: seq<Source>, a: Source, b: Source)
    requires DistinctIds(t, rows) && a in rows && b in rows
    ensures SourceId(t, a) == SourceId(t, b) ==> a == b
  {
    var i := Position(rows, a);
    var j := Position(rows, b);
  }

  lemma Position(rows: seq<Source>, row: Source) returns (i: nat)
    requires row in rows
    ensures i < |rows| && rows[i] == row
  {
    i :| 0 <= i < |rows| && rows[i] == row;
  }

  // ----- seasons and weeks -----

  /** A season is imported closed, at the time of the snapshot, exactly when its end lies before that time. */
  lemma SeasonRows(s: Snapshot, i: nat)
    requires i < |Rows(s, Season)|
    ensures var rows, season := RowsIn(Import(s), Seasons), Rows(s, Season)[i];
            && |rows| == |Rows(s, Season)| && rows[i].refs == map[]
            && rows[i].data ==
               SeasonData(EndedBeforeCapture(s, season), Get(season, StartDateInclusiveUTC),
                          Get(season, EndDateInclusiveUTC),
                          if EndedBeforeCapture(s, season) then Text(s.capturedText) else Null)
  {
    PlainRow(s, Seasons, i);
  }

  /** The close event of an ended season names that season and nobody who closed or reopened it. */
  lemma CloseEventRows(s: Snapshot, i: nat)
    requires i < |Taken(s, SeasonCloseEvents)|
    ensures var rows, season := RowsIn(Import(s), SeasonCloseEvents), Taken(s, SeasonCloseEvents)[i];
            && |rows| == |Taken(s, SeasonCloseEvents)|
            && season in Rows(s, Season) && EndedBeforeCapture(s, season)
            && rows[i].data == CloseData(Text(s.capturedText))
            && rows[i].refs == map[SeasonRef := CellTo(Seasons, Text(SourceId(Season, season))),
                                   ClosedByRef := Raw(Null), ReopenedByRef := Raw(Null)]
  {
    OneRowEach(s, SeasonCloseEvents);
    RowFrom(s, SeasonCloseEvents, i);
    CloseEventReferences(Taken(s, SeasonCloseEvents)[i]);
  }

  lemma CloseEventReferences(season: Source)
    ensures ResolvedRefs(References(SeasonCloseEvents), CloseEventRefs(season))
            == map[SeasonRef := CellTo(Seasons, Text(SourceId(Season, season))),
                   ClosedByRef := Raw(Null), ReopenedByRef := Raw(Null)]
  {
  }

  /** A week keeps its number, its start and its end, and the season it names. */
  lemma WeekRows(s: Snapshot, i: nat)
    requires i < |Rows(s, SeasonWeek)|
    ensures var rows, week := RowsIn(Import(s), SeasonWeeks), Rows(s, SeasonWeek)[i];
            && |rows| == |Rows(s, SeasonWeek)|
            && rows[i].data == WeekData(Get(week, WeekNumber), Get(week, StartDate), Get(week, EndDate))
            && rows[i].refs == map[SeasonRef := CellTo(Seasons, Get(week, SeasonId))]
  {
    PlainRow(s, SeasonWeeks, i);
    OneReference(References(SeasonWeeks), SeasonRef, Seasons, Get(Rows(s, SeasonWeek)[i], SeasonId));
  }

  // ----- enrollments -----

  /** A live kick of the enrolled member from the season. */
  predicate KickOfMember(s: Snapshot, e: Source, kick: Source) {
    && kick in Rows(s, KickStudentEvent) && !MarkedDeleted(kick)
    && TextOf(Get(kick, StudentId)) == TextOf(Get(e, UserId)) && TextOf(Get(kick, SeasonId)) == TextOf(Get(e, SeasonId))
  }

  /** Of the live kicks of the member none is later. */
  ghost predicate LatestKick(s: Snapshot, e: Source, kick: Source) {
    && KickOfMember(s, e, kick)
    && forall other | KickOfMember(s, e, other) ::
         !Less(TextOf(Get(kick, KickedAtUtc)), TextOf(Get(other, KickedAtUtc)))
  }

  ghost predicate WasKicked(s: Snapshot, e: Source) {
    exists kick :: KickOfMember(s, e, kick)
  }

  predicate SeasonOf(s: Snapshot, e: Source, season: Source) {
    season in Rows(s, Season) && SourceId(Season, season) == TextOf(Get(e, SeasonId))
  }

  ghost predicate InEndedSeason(s: Snapshot, e: Source) {
    exists season :: SeasonOf(s, e, season) && EndedBeforeCapture(s, season)
  }

  lemma KickIsLatest(s: Snapshot, e: Source)
    ensures KickOf(LookupsOf(s), e).Some? <==> WasKicked(s, e)
    ensures KickOf(LookupsOf(s), e).Some? ==> LatestKick(s, e, KickOf(LookupsOf(s), e).value)
  {
    var rows, user, season := Rows(s, KickStudentEvent), TextOf(Get(e, UserId)), TextOf(Get(e, SeasonId));
    KicksAreLive(rows, user, season);
    forall kick
      ensures KickOfMember(s, e, kick) <==> kick in rows && IsKick(kick, user, season)
    {
      DeletedIffMarked(kick);
    }
    forall kick | KickOfMember(s, e, kick)
      ensures (user, season) in KicksIn(rows) && !Later(kick, KicksIn(rows)[(user, season)])
    {
      KicksAreLatest(rows, user, season, kick);
    }
  }

  lemma EndedIffInEnded(s: Snapshot, e: Source)
    ensures TextOf(Get(e, SeasonId)) in Ended(s) <==> InEndedSeason(s, e)
    ensures TextOf(Get(e, SeasonId)) in Ended(s) ==>
              Ended(s)[TextOf(Get(e, SeasonId))] == "legacy-close:" + TextOf(Get(e, SeasonId))
  {
    EndedIsSound(s, Rows(s, Season), TextOf(Get(e, SeasonId)));
    assert forall season :: HasEnded(s, season) <==> EndedBeforeCapture(s, season);
  }

  /** What became of an enrollment, and since when. */
  ghost predicate StateColumns(s: Snapshot, e: Source, d: Data) {
    && d.EnrollmentData?
    && if WasKicked(s, e) then
         d.state == KickedState && exists kick :: LatestKick(s, e, kick) && d.stateChangedAt == Get(kick, KickedAtUtc)
       else if MarkedDeleted(e) then d.state == WithdrawnState && d.stateChangedAt == Get(e, DeletedAtUtc)
       else if InEndedSeason(s, e) then d.state == CompletedState && d.stateChangedAt == Text(s.capturedText)
       else d.state == ActiveState && d.stateChangedAt == Null
  }

  /** Role and level as they were numbered. */
  predicate RoleColumns(s: Snapshot, e: Source, d: Data) {
    var role, level := NumberOf(s.parsing, Get(e, Role)), NumberOf(s.parsing, Get(e, StudentRolePromotion));
    && d.EnrollmentData?
    && (d.role == Student <==> role == 0) && (d.role == Mentor <==> role == 1) && (d.role == Coordinator <==> role == 2)
    && (d.level == NotApplicable <==> level == 0) && (d.level == Novice <==> level == 1)
    && (d.level == Beginner <==> level == 2) && (d.level == Intermediate <==> level == 3)
    && (d.level == Advanced <==> level == 4)
  }

  /** An assignment stands while the enrollment is active; a close keeps what it was. */
  predicate AssignmentColumns(s: Snapshot, e: Source, d: Data) {
    var held := if NumberOf(s.parsing, Get(e, Role)) == 2 then PendingMfa else Assigned;
    var since := if NumberOf(s.parsing, Get(e, Role)) == 2 then Null else Get(e, CreatedAtUtc);
    && d.EnrollmentData? && d.deletedAt == Get(e, DeletedAtUtc)
    && (if d.state == ActiveState then d.assignment == held && d.activatedAt == since
        else d.assignment == Revoked && d.activatedAt == Null)
    && (if d.state == CompletedState then d.closeAssignment == Some(held) && d.closeActivatedAt == since
        else d.closeAssignment == None && d.closeActivatedAt == Null)
  }

  /**
   A live kick decides, then a deletion, then the end of the season; only what none of them ended is imported active.
   An enrollment completed by its season names that season's close event.
   */
  lemma EnrollmentRows(s: Snapshot, i: nat)
    requires i < |Rows(s, Enrollment)|
    ensures var rows, e := RowsIn(Import(s), Enrollments), Rows(s, Enrollment)[i];
            && |rows| == |Rows(s, Enrollment)|
            && StateColumns(s, e, rows[i].data) && RoleColumns(s, e, rows[i].data)
            && AssignmentColumns(s, e, rows[i].data)
            && rows[i].refs ==
               map[UserRef := CellTo(Users, Get(e, UserId)), SeasonRef := CellTo(Seasons, Get(e, SeasonId)),
                   CompletedByRef := if rows[i].data.state == CompletedState
                                     then Key(SeasonCloseEvents, "legacy-close:" + TextOf(Get(e, SeasonId)))
                                     else Raw(Null)]
  {
    PlainRow(s, Enrollments, i);
    EnrollmentColumns(s, Rows(s, Enrollment)[i]);
    EnrollmentReferences(s, Rows(s, Enrollment)[i]);
  }

  lemma EnrollmentColumns(s: Snapshot, e: Source)
    ensures var d := EnrollmentFields(s, LookupsOf(s), e);
            StateColumns(s, e, d) && RoleColumns(s, e, d) && AssignmentColumns(s, e, d)
  {
    KickIsLatest(s, e);
    DeletedIffMarked(e);
    EndedIffInEnded(s, e);
  }

  lemma EnrollmentReferences(s: Snapshot, e: Source)
    ensures ResolvedRefs(References(Enrollments), EnrollmentRefs(LookupsOf(s), e)) ==
            map[UserRef := CellTo(Users, Get(e, UserId)), SeasonRef := CellTo(Seasons, Get(e, SeasonId)),
                CompletedByRef := if EnrollmentFields(s, LookupsOf(s), e).state == CompletedState
                                  then Key(SeasonCloseEvents, "legacy-close:" + TextOf(Get(e, SeasonId)))
                                  else Raw(Null)]
  {
    EndedIffInEnded(s, e);
  }

  // ----- removals and mentorships -----

  /** An enrollment of the kicked member in the season. */
  predicate EnrollmentOfKick(s: Snapshot, kick: Source, e: Source) {
    && e in Rows(s, Enrollment)
    && TextOf(Get(e, UserId)) == TextOf(Get(kick, StudentId)) && TextOf(Get(e, SeasonId)) == TextOf(Get(kick, SeasonId))
  }

  /** A live kick becomes the removal of that member's enrollment, with its reason, time and author. */
  lemma RemovalRows(s: Snapshot, i: nat) returns (e: Source)
    requires Clean(s) && i < |Taken(s, EnrollmentRemovalEvents)|
    ensures var rows, kick := RowsIn(Import(s), EnrollmentRemovalEvents), Taken(s, EnrollmentRemovalEvents)[i];
            && |rows| == |Taken(s, EnrollmentRemovalEvents)|
            && kick in Rows(s, KickStudentEvent) && !MarkedDeleted(kick) && EnrollmentOfKick(s, kick, e)
            && rows[i].data == RemovalData(KickedState, Get(kick, KickReason), Get(kick, KickedAtUtc))
            && rows[i].refs ==
               map[EnrollmentRef := Key(Enrollments, SourceId(Enrollment, e)),
                   SeasonRef := CellTo(Seasons, Get(kick, SeasonId)),
                   SubjectRef := CellTo(Users, Get(kick, StudentId)), ActorRef := CellTo(Users, Get(kick, MentorId))]
  {
    OneRowEach(s, EnrollmentRemovalEvents);
    RowFrom(s, EnrollmentRemovalEvents, i);
    e := RemovedFrom(s, Taken(s, EnrollmentRemovalEvents)[i]);
    RemovalReferences(s, Taken(s, EnrollmentRemovalEvents)[i], e);
  }

  lemma RemovedFrom(s: Snapshot, kick: Source) returns (e: Source)
    requires Clean(s) && kick in Rows(s, KickStudentEvent)
    ensures EnrollmentOfKick(s, kick, e) && RemovedEnrollment(s, kick) == SourceId(Enrollment, e) != ""
  {
    var user, season := TextOf(Get(kick, StudentId)), TextOf(Get(kick, SeasonId));
    CleanRow(s, KickStudentEvent, kick, KickWithoutEnrollment);
    FirstMembershipFound(Rows(s, Enrollment), user, season);
    e := FirstMembership(Rows(s, Enrollment), user, season).value;
    CleanIds(s, Enrollment, e);
  }

  lemma RemovalReferences(s: Snapshot, kick: Source, e: Source)
    requires RemovedEnrollment(s, kick) == SourceId(Enrollment, e) != ""
    ensures ResolvedRefs(References(EnrollmentRemovalEvents), RemovalRefs(s, kick)) ==
            map[EnrollmentRef := Key(Enrollments, SourceId(Enrollment, e)),
                SeasonRef := CellTo(Seasons, Get(kick, SeasonId)),
                SubjectRef := CellTo(Users, Get(kick, StudentId)), ActorRef := CellTo(Users, Get(kick, MentorId))]
  {
  }

  /** When a member left a season: at the latest kick, or else at the deletion of the enrollment. */
  ghost predicate LeftAt(s: Snapshot, e: Source, at: Value) {
    if WasKicked(s, e) then exists kick :: LatestKick(s, e, kick) && at == Get(kick, KickedAtUtc)
    else MarkedDeleted(e) && at == Get(e, DeletedAtUtc)
  }

  predicate HasEnrollmentId(s: Snapshot, e: Source, v: Value) {
    e in Rows(s, Enrollment) && SourceId(Enrollment, e) == TextOf(v)
  }

  /** A mentorship is one of the mentor's season and ends when the first of its two sides left. */
  lemma MentorshipRows(s: Snapshot, i: nat) returns (mentor: Source, student: Source)
    requires Clean(s) && i < |Rows(s, Mentorship)|
    ensures var rows, m := RowsIn(Import(s), Mentorships), Rows(s, Mentorship)[i];
            && |rows| == |Rows(s, Mentorship)|
            && HasEnrollmentId(s, mentor, Get(m, MentorEnrollmentId))
            && HasEnrollmentId(s, student, Get(m, MenteeEnrollmentId))
            && rows[i].data.MentorshipData? && rows[i].data.deletedAt == Get(m, DeletedAtUtc)
            && (rows[i].data.endedAt != Null ==>
                  LeftAt(s, mentor, rows[i].data.endedAt) || LeftAt(s, student, rows[i].data.endedAt))
            && (forall at | TextOf(at) != "" && (LeftAt(s, mentor, at) || LeftAt(s, student, at)) ::
                  rows[i].data.endedAt != Null && !Less(TextOf(at), TextOf(rows[i].data.endedAt)))
            && rows[i].refs ==
               map[SeasonRef := CellTo(Seasons, Get(mentor, SeasonId)),
                   MentorRef := CellTo(Enrollments, Get(m, MentorEnrollmentId)),
                   StudentRef := CellTo(Enrollments, Get(m, MenteeEnrollmentId))]
  {
    PlainRow(s, Mentorships, i);
    var m := Rows(s, Mentorship)[i];
    MentorshipKnown(s, m);
    var a, b := TextOf(Get(m, MentorEnrollmentId)), TextOf(Get(m, MenteeEnrollmentId));
    IndexedIsSound(Enrollment, Rows(s, Enrollment), a);
    IndexedIsSound(Enrollment, Rows(s, Enrollment), b);
    mentor, student := Index(s, Enrollment)[a], Index(s, Enrollment)[b];
    EndIsDeparture(s, mentor);
    EndIsDeparture(s, student);
    EarlierIsFirst(EnrollmentEnd(LookupsOf(s), Some(mentor)), EnrollmentEnd(LookupsOf(s), Some(student)));
    MentorshipReferences(LookupsOf(s), m, mentor);
  }

  lemma EndIsDeparture(s: Snapshot, e: Source)
    ensures var at := EnrollmentEnd(LookupsOf(s), Some(e));
            && (at != Null ==> LeftAt(s, e, at))
            && (forall v | LeftAt(s, e, v) :: TextOf(v) == TextOf(at))
  {
    KickIsLatest(s, e);
    DeletedIffMarked(e);
    forall a, b | LatestKick(s, e, a) && LatestKick(s, e, b)
      ensures TextOf(Get(a, KickedAtUtc)) == TextOf(Get(b, KickedAtUtc))
    {
      LessIsStrict(TextOf(Get(a, KickedAtUtc)), TextOf(Get(b, KickedAtUtc)));
    }
  }

  lemma EarlierIsFirst(a: Value, b: Value)
    ensures var first := EarlierEnd(a, b);
            && (first == a || first == b)
            && (TextOf(a) != "" ==> first != Null && !Less(TextOf(a), TextOf(first)))
            && (TextOf(b) != "" ==> first != Null && !Less(TextOf(b), TextOf(first)))
  {
    LessIsStrict(TextOf(a), TextOf(b));
    LessIsStrict(TextOf(a), TextOf(a));
    LessIsStrict(TextOf(b), TextOf(b));
  }

  lemma MentorshipReferences(l: Lookups, m: Source, mentor: Source)
    requires Side(l, m, MentorEnrollmentId) == Some(mentor)
    ensures ResolvedRefs(References(Mentorships), MentorshipRefs(l, m)) ==
            map[SeasonRef := CellTo(Seasons, Get(mentor, SeasonId)),
                MentorRef := CellTo(Enrollments, Get(m, MentorEnrollmentId)),
                StudentRef := CellTo(Enrollments, Get(m, MenteeEnrollmentId))]
  {
  }

  // ----- the imported tables agree with each other -----

  predicate SameMember(removal: PreparedRow, enrollment: PreparedRow) {
    && SubjectRef in removal.refs && UserRef in enrollment.refs && removal.refs[SubjectRef] == enrollment.refs[UserRef]
    && SeasonRef in removal.refs && SeasonRef in enrollment.refs
    && removal.refs[SeasonRef] == enrollment.refs[SeasonRef]
  }

  ghost predicate HasRemoval(removals: seq<PreparedRow>, enrollment: PreparedRow) {
    exists j | 0 <= j < |removals| :: SameMember(removals[j], enrollment)
  }

  /** The member and season of an enrollment or a kick that is imported are known and held as texts. */
  predicate TextKeys(user: Value, season: Value) {
    user.Text? && user.s != "" && season.Text? && season.s != ""
  }

  lemma EnrollmentKeys(s: Snapshot, e: Source)
    requires Clean(s) && TextualKeys(s) && e in Rows(s, Enrollment)
    ensures TextKeys(Get(e, UserId), Get(e, SeasonId))
  {
    CleanRow(s, Enrollment, e, OrphanReference(UserId));
    CleanRow(s, Enrollment, e, OrphanReference(SeasonId));
    IdsNotEmpty(s, User, TextOf(Get(e, UserId)));
    IdsNotEmpty(s, Season, TextOf(Get(e, SeasonId)));
    assert TextualTable(s, Enrollments) && TextualRow(s, Enrollments, e);
  }

  lemma KickKeys(s: Snapshot, kick: Source)
    requires Clean(s) && TextualKeys(s) && kick in Rows(s, KickStudentEvent) && !MarkedDeleted(kick)
    ensures TextKeys(Get(kick, StudentId), Get(kick, SeasonId))
  {
    CleanRow(s, KickStudentEvent, kick, OrphanReference(StudentId));
    CleanRow(s, KickStudentEvent, kick, OrphanReference(SeasonId));
    IdsNotEmpty(s, User, TextOf(Get(kick, StudentId)));
    IdsNotEmpty(s, Season, TextOf(Get(kick, SeasonId)));
    DeletedIffMarked(kick);
    assert TextualTable(s, EnrollmentRemovalEvents) && TextualRow(s, EnrollmentRemovalEvents, kick);
  }

  lemma RemovalMatches(s: Snapshot, row: PreparedRow, e: Source, j: nat)
    requires Clean(s) && TextualKeys(s) && j < |Taken(s, EnrollmentRemovalEvents)| && e in Rows(s, Enrollment)
    requires UserRef in row.refs && row.refs[UserRef] == CellTo(Users, Get(e, UserId))
    requires SeasonRef in row.refs && row.refs[SeasonRef] == CellTo(Seasons, Get(e, SeasonId))
    ensures j < |RowsIn(Import(s), EnrollmentRemovalEvents)|
    ensures SameMember(RowsIn(Import(s), EnrollmentRemovalEvents)[j], row)
            <==> KickOfMember(s, e, Taken(s, EnrollmentRemovalEvents)[j])
  {
    var _ := RemovalRows(s, j);
    EnrollmentKeys(s, e);
    KickKeys(s, Taken(s, EnrollmentRemovalEvents)[j]);
  }

  lemma RemovalIffKicked(s: Snapshot, row: PreparedRow, e: Source)
    requires Clean(s) && TextualKeys(s) && e in Rows(s, Enrollment)
    requires UserRef in row.refs && row.refs[UserRef] == CellTo(Users, Get(e, UserId))
    requires SeasonRef in row.refs && row.refs[SeasonRef] == CellTo(Seasons, Get(e, SeasonId))
    ensures HasRemoval(RowsIn(Import(s), EnrollmentRemovalEvents), row) <==> WasKicked(s, e)
  {
    var removals, kicks := RowsIn(Import(s), EnrollmentRemovalEvents), Taken(s, EnrollmentRemovalEvents);
    ImportedFrom(s, EnrollmentRemovalEvents);
    forall j | 0 <= j < |removals|
      ensures SameMember(removals[j], row) <==> KickOfMember(s, e, kicks[j])
    {
      RemovalMatches(s, row, e, j);
    }
    if kick :| KickOfMember(s, e, kick) {
      var j := Position(kicks, kick);
      assert SameMember(removals[j], row);
    }
  }

  lemma EnrollmentKick(s: Snapshot, i: nat)
    requires i < |Rows(s, Enrollment)|
    ensures var rows, e := RowsIn(Import(s), Enrollments), Rows(s, Enrollment)[i];
            && |rows| == |Rows(s, Enrollment)|
            && rows[i].data.EnrollmentData? && (rows[i].data.state == KickedState <==> WasKicked(s, e))
            && UserRef in rows[i].refs && rows[i].refs[UserRef] == CellTo(Users, Get(e, UserId))
            && SeasonRef in rows[i].refs && rows[i].refs[SeasonRef] == CellTo(Seasons, Get(e, SeasonId))
  {
    EnrollmentRows(s, i);
  }

  /** In a closed import an enrollment is kicked exactly when a removal of its member from its season is imported. */
  lemma KickedIffRemoved(s: Snapshot, i: nat)
    requires Clean(s) && TextualKeys(s) && i < |Rows(s, Enrollment)|
    ensures var enrollments, removals := RowsIn(Import(s), Enrollments), RowsIn(Import(s), EnrollmentRemovalEvents);
            && |enrollments| == |Rows(s, Enrollment)| && enrollments[i].data.EnrollmentData?
            && (enrollments[i].data.state == KickedState <==> HasRemoval(removals, enrollments[i]))
  {
    EnrollmentKick(s, i);
    RemovalIffKicked(s, RowsIn(Import(s), Enrollments)[i], Rows(s, Enrollment)[i]);
  }

  /** In a closed import no enrollment is active in a closed season, and none is completed in an open one. */
  lemma StateFollowsSeason(s: Snapshot, i: nat, j: nat)
    requires Clean(s) && TextualKeys(s) && i < |Rows(s, Enrollment)| && j < |Rows(s, Season)|
    ensures var enrollments, seasons := RowsIn(Import(s), Enrollments), RowsIn(Import(s), Seasons);
            && |enrollments| == |Rows(s, Enrollment)| && |seasons| == |Rows(s, Season)|
            && enrollments[i].data.EnrollmentData? && seasons[j].data.SeasonData? && SeasonRef in enrollments[i].refs
            && (enrollments[i].refs[SeasonRef] == seasons[j].id ==>
                  if seasons[j].data.closed then enrollments[i].data.state != ActiveState
                  else enrollments[i].data.state != CompletedState)
  {
    var e, season := Rows(s, Enrollment)[i], Rows(s, Season)[j];
    EnrollmentRows(s, i);
    EnrollmentKeys(s, e);
    SeasonRows(s, j);
    PlainRow(s, Seasons, j);
    CleanIsDistinct(s, Seasons);
    if SourceId(Season, season) == TextOf(Get(e, SeasonId)) {
      assert SeasonOf(s, e, season);
      forall other | SeasonOf(s, e, other)
        ensures other == season
      {
        SameIdSameRow(Season, Rows(s, Season), other, season);
      }
    }
  }

  // ----- personal data -----

  predicate IsPersonal(f: Field) {
    f in {Slug, Name, Email, DiscordId, ProfileImage}
  }

  /** The same user, but for personal data when deleted. */
  ghost predicate AlikeIfDeleted(a: Source, b: Source) {
    a == b || (MarkedDeleted(a) && forall f | !IsPersonal(f) :: Get(a, f) == Get(b, f))
  }

  lemma AlikeEmitAlike(s: Snapshot, s': Snapshot, l: Lookups, t: Target, a: Source, b: Source)
    requires SourceOf(t) == User && s'.parsing == s.parsing && AlikeIfDeleted(a, b)
    ensures Added(s, l, t, a) == Added(s', l, t, b)
  {
    DeletedIffMarked(a);
    assert a != b ==> Get(a, UserId) == Get(b, UserId) && Get(a, DeletedAtUtc) == Get(b, DeletedAtUtc);
  }

  lemma {:induction false} AlikeEmitAllAlike(
    s: Snapshot, s': Snapshot, l: Lookups, t: Target, a: seq<Source>, b: seq<Source>)
    requires SourceOf(t) == User && s'.parsing == s.parsing
    requires |a| == |b| && forall i | 0 <= i < |a| :: AlikeIfDeleted(a[i], b[i])
    ensures EmitAll(s, l, t, a) == EmitAll(s', l, t, b)
  {
    if a != [] {
      AlikeEmitAlike(s, s', l, t, a[|a| - 1], b[|b| - 1]);
      AlikeEmitAllAlike(s, s', l, t, a[..|a| - 1], b[..|b| - 1]);
    }
  }

  lemma {:induction false} OtherTablesEmitSame(s: Snapshot, s': Snapshot, l: Lookups, t: Target, rows: seq<Source>)
    requires SourceOf(t) != User && s'.parsing == s.parsing && s'.capturedAt == s.capturedAt
    requires s'.capturedText == s.capturedText && Rows(s', Enrollment) == Rows(s, Enrollment)
    ensures EmitAll(s, l, t, rows) == EmitAll(s', l, t, rows)
  {
    if rows != [] {
      OtherTablesEmitSame(s, s', l, t, rows[..|rows| - 1]);
    }
  }

  lemma {:induction false} SameEnded(s: Snapshot, s': Snapshot, seasons: seq<Source>)
    requires s'.parsing == s.parsing && s'.capturedAt == s.capturedAt
    ensures EndedIn(s, seasons) == EndedIn(s', seasons)
  {
    if seasons != [] {
      SameEnded(s, s', seasons[..|seasons| - 1]);
    }
  }

  /** Nothing in the import depends on the personal data of a deleted user. */
  lemma DeletedUsersArePseudonymous(s: Snapshot, users: seq<Source>)
    requires |users| == |Rows(s, User)| && forall i | 0 <= i < |users| :: AlikeIfDeleted(Rows(s, User)[i], users[i])
    ensures Import(s.(tables := s.tables[User := users])) == Import(s)
  {
    var s' := s.(tables := s.tables[User := users]);
    SameEnded(s, s', Rows(s, Season));
    assert LookupsOf(s') == LookupsOf(s);
    forall t
      ensures Final(s', t) == Final(s, t)
    {
      if SourceOf(t) == User {
        AlikeEmitAllAlike(s, s', LookupsOf(s), t, Rows(s, User), users);
      } else {
        OtherTablesEmitSame(s, s', LookupsOf(s), t, Rows(s, SourceOf(t)));
      }
    }
    SameTables(map t | t in TARGET_ORDER :: Final(s, t), map t | t in TARGET_ORDER :: Final(s', t), |TARGET_ORDER|);
  }
}
