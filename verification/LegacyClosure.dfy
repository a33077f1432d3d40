/** What a clean analysis guarantees about the transformed rows. */
module LegacyClosure {
  import opened Wrappers
  import opened StringOrder
  import opened LegacySource
  import opened LegacyAnalysis
  import opened LegacyTransform

  // ----- the rows of one table -----

  ghost predicate IsFrom(s: Snapshot, t: Target, row: PreparedRow, source: Source) {
    var e := Emit(s, LookupsOf(s), t, source);
    e.Some? && row == Resolved(References(t), Prepare(t, source, e.value))
  }

  lemma {:induction false} EmittedFrom(s: Snapshot, l: Lookups, t: Target, rows: seq<Source>, source: Source)
    requires source in rows && Emit(s, l, t, source).Some?
    ensures Prepare(t, source, Emit(s, l, t, source).value) in EmitAll(s, l, t, rows)
  {
    LastOrRest(rows);
    if source in rows[..|rows| - 1] {
      EmittedFrom(s, l, t, rows[..|rows| - 1], source);
    }
  }

  lemma {:induction false} EmittedOnly(s: Snapshot, l: Lookups, t: Target, rows: seq<Source>, row: PreparedRow)
    returns (source: Source)
    requires row in EmitAll(s, l, t, rows)
    ensures source in rows && Emit(s, l, t, source).Some? && row == Prepare(t, source, Emit(s, l, t, source).value)
  {
    LastOrRest(rows);
    if row in EmitAll(s, l, t, rows[..|rows| - 1]) {
      source := EmittedOnly(s, l, t, rows[..|rows| - 1], row);
    } else {
      source := rows[|rows| - 1];
    }
  }

  /** Every legacy row that a table takes is in the finished table. */
  lemma FinalHas(s: Snapshot, t: Target, source: Source)
    requires source in Rows(s, SourceOf(t)) && Emit(s, LookupsOf(s), t, source).Some?
    ensures exists row :: row in Final(s, t) && IsFrom(s, t, row, source)
  {
    var l := LookupsOf(s);
    var raw := Prepare(t, source, Emit(s, l, t, source).value);
    EmittedFrom(s, l, t, Rows(s, SourceOf(t)), source);
    var i :| 0 <= i < |Unresolved(s, t)| && Unresolved(s, t)[i] == raw;
    assert Final(s, t)[i] in Final(s, t) && IsFrom(s, t, Final(s, t)[i], source);
  }

  lemma FinalOnly(s: Snapshot, t: Target, row: PreparedRow) returns (source: Source)
    requires row in Final(s, t)
    ensures source in Rows(s, SourceOf(t)) && IsFrom(s, t, row, source)
  {
    var i :| 0 <= i < |Final(s, t)| && Final(s, t)[i] == row;
    source := EmittedOnly(s, LookupsOf(s), t, Rows(s, SourceOf(t)), Unresolved(s, t)[i]);
  }

  // ----- the tables in writing order -----

  function Rank(t: Target): nat {
    match t
    case Users => 0 case UserProfiles => 1 case UserPreferences => 2 case UserContacts => 3 case UserSecurity => 4
    case GlobalRoleAssignments => 5 case Seasons => 6 case SeasonCloseEvents => 7 case SeasonWeeks => 8
    case Enrollments => 9 case Mentorships => 10 case EnrollmentRemovalEvents => 11
  }

  type Tables = map<Target, seq<PreparedRow>>

  ghost predicate ListsSome(tables: seq<PreparedTable>, all: Tables, n: nat) {
    forall i | 0 <= i < |tables| :: Rank(tables[i].name) < n && tables[i].rows == In(all, tables[i].name)
  }

  ghost predicate Increasing(tables: seq<PreparedTable>) {
    forall i, j | 0 <= i < j < |tables| :: Rank(tables[i].name) < Rank(tables[j].name)
  }

  ghost predicate Listed(tables: seq<PreparedTable>, t: Target) {
    exists i | 0 <= i < |tables| :: tables[i].name == t
  }

  ghost predicate ListsAll(tables: seq<PreparedTable>, all: Tables, n: nat) {
    forall t | Rank(t) < n && In(all, t) != [] :: Listed(tables, t)
  }

  ghost predicate ListsInOrder(tables: seq<PreparedTable>, all: Tables, n: nat) {
    ListsSome(tables, all, n) && Increasing(tables) && ListsAll(tables, all, n)
  }

  lemma TableAppended(tables: seq<PreparedTable>, all: Tables, n: nat)
    requires n < |TARGET_ORDER| && ListsInOrder(tables, all, n)
    ensures ListsInOrder(WithTable(tables, all, TARGET_ORDER[n]), all, n + 1)
  {
    var t := TARGET_ORDER[n];
    var next := WithTable(tables, all, t);
    PositionIsRank(n);
    forall u | Rank(u) < n + 1 && In(all, u) != []
      ensures Listed(next, u)
    {
      if u == t {
        assert next[|next| - 1].name == u;
      } else {
        var i :| 0 <= i < |tables| && tables[i].name == u;
        assert next[i].name == u;
      }
    }
  }

  lemma {:induction false} TablesAreInOrder(all: Tables, n: nat)
    requires n <= |TARGET_ORDER|
    ensures ListsInOrder(TablesUpTo(all, n), all, n)
  {
    if n > 0 {
      TablesAreInOrder(all, n - 1);
      TableAppended(TablesUpTo(all, n - 1), all, n - 1);
    }
  }

  lemma PositionIsRank(i: nat)
    requires i < |TARGET_ORDER|
    ensures Rank(TARGET_ORDER[i]) == i
  {
  }

  // ----- references -----

  /** The references that the new schema allows to be null. */
  predicate Nullable(c: Column) {
    c in {GrantedByRef, ClosedByRef, ReopenedByRef, CompletedByRef}
  }

  ghost predicate Names(row: PreparedRow, rows: seq<PreparedRow>, cell: Cell) {
    row in rows && row.id == cell
  }

  ghost predicate NamedIn(rows: seq<PreparedRow>, cell: Cell) {
    exists row :: Names(row, rows, cell)
  }

  /** A reference of a row in table i names a row of a table written before it. */
  ghost predicate NamesEarlierRow(tables: seq<PreparedTable>, i: nat, ref: Target, cell: Cell)
    requires i <= |tables|
  {
    exists j | 0 <= j < i :: tables[j].name == ref && NamedIn(tables[j].rows, cell)
  }

  ghost predicate RowClosed(tables: seq<PreparedTable>, i: nat, row: PreparedRow)
    requires i < |tables|
  {
    forall c | c in References(tables[i].name) ::
      c in row.refs &&
      ((row.refs[c] == Raw(Null) && Nullable(c))
        || NamesEarlierRow(tables, i, References(tables[i].name)[c], row.refs[c]))
  }

  ghost predicate ReferentiallyClosed(tables: seq<PreparedTable>) {
    forall i, row | 0 <= i < |tables| && row in tables[i].rows :: RowClosed(tables, i, row)
  }

  /** The same for a row of a table, independently of where the tables stand. */
  ghost predicate RefsFine(all: Tables, to: map<Column, Target>, refs: Refs) {
    forall c | c in to :: c in refs && RefFine(all, to[c], c, refs[c])
  }

  ghost predicate RefFine(all: Tables, ref: Target, c: Column, cell: Cell) {
    (cell == Raw(Null) && Nullable(c)) || NamedIn(In(all, ref), cell)
  }

  lemma ReferencesPointBack(t: Target, c: Column)
    requires c in References(t)
    ensures Rank(References(t)[c]) < Rank(t)
  {
  }

  lemma EarlierIffAnywhere(tables: seq<PreparedTable>, all: Tables, i: nat, ref: Target, cell: Cell)
    requires i < |tables| && ListsInOrder(tables, all, |TARGET_ORDER|) && Rank(ref) < Rank(tables[i].name)
    ensures NamesEarlierRow(tables, i, ref, cell) <==> NamedIn(In(all, ref), cell)
  {
    if NamedIn(In(all, ref), cell) {
      var row :| Names(row, In(all, ref), cell);
      assert Listed(tables, ref);
      var j :| 0 <= j < |tables| && tables[j].name == ref;
      assert tables[j].rows == In(all, ref);
      assert j < i;
    }
  }

  /** The finished tables as a map; Import lists them in writing order. */
  function AllTables(s: Snapshot): Tables {
    map t | t in TARGET_ORDER :: Final(s, t)
  }

  lemma AllTablesAre(s: Snapshot, t: Target)
    ensures In(AllTables(s), t) == Final(s, t)
  {
  }

  lemma RowClosedIff(all: Tables, tables: seq<PreparedTable>, i: nat, row: PreparedRow)
    requires ListsInOrder(tables, all, |TARGET_ORDER|) && i < |tables|
    ensures RowClosed(tables, i, row) <==> RefsFine(all, References(tables[i].name), row.refs)
  {
    var t := tables[i].name;
    var to := References(t);
    forall c | c in to && c in row.refs
      ensures NamesEarlierRow(tables, i, to[c], row.refs[c]) <==> NamedIn(In(all, to[c]), row.refs[c])
    {
      ReferencesPointBack(t, c);
      EarlierIffAnywhere(tables, all, i, to[c], row.refs[c]);
    }
  }

  // ----- rows that exist when nothing is wrong -----

  /** A key names a finished row when a legacy row with that id goes into the table. */
  lemma KeyIsNamed(s: Snapshot, t: Target, source: Source)
    requires source in Rows(s, SourceOf(t)) && Emit(s, LookupsOf(s), t, source).Some?
    ensures NamedIn(Final(s, t), TargetKey(t, Emit(s, LookupsOf(s), t, source).value.id))
  {
    FinalHas(s, t, source);
    var row :| row in Final(s, t) && IsFrom(s, t, row, source);
    assert Names(row, Final(s, t), row.id);
  }

  /** The ids of users, seasons and enrollments are the ids of their finished rows. */
  predicate TakesAll(t: Target) {
    t == Users || t == Seasons || t == Enrollments
  }

  lemma KnownIsNamed(s: Snapshot, t: Target, id: string)
    requires TakesAll(t) && id in Index(s, SourceOf(t))
    ensures NamedIn(Final(s, t), Key(t, id))
  {
    IndexedIsSound(SourceOf(t), Rows(s, SourceOf(t)), id);
    KeyIsNamed(s, t, Index(s, SourceOf(t))[id]);
  }

  lemma {:induction false} EndedIsSound(s: Snapshot, seasons: seq<Source>, id: string)
    ensures id in EndedIn(s, seasons) <==>
              exists season :: season in seasons && SourceId(Season, season) == id && HasEnded(s, season)
    ensures id in EndedIn(s, seasons) ==> EndedIn(s, seasons)[id] == CloseIdOf(id)
  {
    if seasons != [] {
      EndedIsSound(s, seasons[..|seasons| - 1], id);
      LastOrRest(seasons);
    }
  }

  lemma CloseEventIsNamed(s: Snapshot, id: string)
    requires id in Ended(s)
    ensures Ended(s)[id] != "" && NamedIn(Final(s, SeasonCloseEvents), Key(SeasonCloseEvents, Ended(s)[id]))
  {
    EndedIsSound(s, Rows(s, Season), id);
    var season :| season in Rows(s, Season) && SourceId(Season, season) == id && HasEnded(s, season);
    KeyIsNamed(s, SeasonCloseEvents, season);
  }

  lemma IdsNotEmpty(s: Snapshot, t: Table, id: string)
    requires Clean(s) && id in Index(s, t)
    ensures id != ""
  {
    IndexedIsSound(t, Rows(s, t), id);
    CleanIds(s, t, Index(s, t)[id]);
  }

  lemma NeverRaw(s: Snapshot, t: Target, v: Value)
    ensures !NamedIn(Final(s, t), Raw(v))
  {
    forall row | row in Final(s, t)
      ensures row.id.Key?
    {
      var source := FinalOnly(s, t, row);
    }
  }

  /** The finished tables hold every row that a reference can need, and no row is named by a raw value. */
  ghost predicate Supplies(s: Snapshot, all: Tables) {
    && (forall t, id | TakesAll(t) && id in Index(s, SourceOf(t)) :: id != "" && NamedIn(In(all, t), Key(t, id)))
    && (forall id | id in Ended(s) ::
          Ended(s)[id] != "" && NamedIn(In(all, SeasonCloseEvents), Key(SeasonCloseEvents, Ended(s)[id])))
    && (forall t, v :: !NamedIn(In(all, t), Raw(v)))
  }

  lemma AllTablesSupply(s: Snapshot)
    requires Clean(s)
    ensures Supplies(s, AllTables(s))
  {
    forall t
      ensures In(AllTables(s), t) == Final(s, t)
    {
      AllTablesAre(s, t);
    }
    forall t, id | TakesAll(t) && id in Index(s, SourceOf(t))
      ensures id != "" && NamedIn(Final(s, t), Key(t, id))
    {
      IdsNotEmpty(s, SourceOf(t), id);
      KnownIsNamed(s, t, id);
    }
    forall id | id in Ended(s)
      ensures Ended(s)[id] != "" && NamedIn(Final(s, SeasonCloseEvents), Key(SeasonCloseEvents, Ended(s)[id]))
    {
      CloseEventIsNamed(s, id);
    }
    forall t, v
      ensures !NamedIn(Final(s, t), Raw(v))
    {
      NeverRaw(s, t, v);
    }
  }

  /** What resolving makes of a raw value that refers to a table. */
  function CellTo(ref: Target, v: Value): Cell {
    if v.Text? && v.s != "" then Key(ref, v.s) else Raw(v)
  }

  /** A value whose text is a known id is resolved to a named row exactly when it is a text. */
  lemma RawReference(s: Snapshot, all: Tables, ref: Target, c: Column, v: Value)
    requires Supplies(s, all) && TakesAll(ref) && !Nullable(c)
    requires TextOf(v) in Index(s, SourceOf(ref))
    ensures RefFine(all, ref, c, CellTo(ref, v)) <==> v.Text?
  {
  }

  // ----- when the references of one legacy row are fine -----

  /** The references that a legacy row carries as raw values are texts. */
  predicate TextualRow(s: Snapshot, t: Target, row: Source) {
    match t
    case SeasonWeeks => Get(row, SeasonId).Text?
    case Enrollments => Get(row, UserId).Text? && Get(row, SeasonId).Text?
    case Mentorships =>
      && Get(row, MentorEnrollmentId).Text? && Get(row, MenteeEnrollmentId).Text?
      && TextOf(Get(row, MentorEnrollmentId)) in Index(s, Enrollment)
      && Get(Index(s, Enrollment)[TextOf(Get(row, MentorEnrollmentId))], SeasonId).Text?
    case EnrollmentRemovalEvents => Get(row, SeasonId).Text? && Get(row, StudentId).Text? && Get(row, MentorId).Text?
    case _ => true
  }

  lemma OwnIdKnown(s: Snapshot, t: Table, row: Source)
    requires row in Rows(s, t)
    ensures SourceId(t, row) in Index(s, t)
  {
    IndexedIsSound(t, Rows(s, t), SourceId(t, row));
    assert HasId(t, Rows(s, t), SourceId(t, row));
  }

  lemma OneFine(all: Tables, to: map<Column, Target>, refs: Refs, a: Column)
    requires to.Keys == {a} && to.Keys <= refs.Keys
    ensures RefsFine(all, to, refs) <==> RefFine(all, to[a], a, refs[a])
  {
  }

  lemma ThreeFine(all: Tables, to: map<Column, Target>, refs: Refs, a: Column, b: Column, c: Column)
    requires to.Keys == {a, b, c} && to.Keys <= refs.Keys
    ensures RefsFine(all, to, refs) <==>
            RefFine(all, to[a], a, refs[a]) && RefFine(all, to[b], b, refs[b]) && RefFine(all, to[c], c, refs[c])
  {
  }

  lemma FourFine(all: Tables, to: map<Column, Target>, refs: Refs, a: Column, b: Column, c: Column, d: Column)
    requires to.Keys == {a, b, c, d} && to.Keys <= refs.Keys
    ensures RefsFine(all, to, refs) <==>
            RefFine(all, to[a], a, refs[a]) && RefFine(all, to[b], b, refs[b]) &&
            RefFine(all, to[c], c, refs[c]) && RefFine(all, to[d], d, refs[d])
  {
  }

  lemma UserRefsFine(s: Snapshot, all: Tables, l: Lookups, t: Target, row: Source)
    requires Supplies(s, all) && SourceOf(t) == User && row in Rows(s, User) && Emit(s, l, t, row).Some?
    ensures RefsFine(all, References(t), ResolvedRefs(References(t), Emit(s, l, t, row).value.refs))
  {
    OwnIdKnown(s, User, row);
    RawReference(s, all, Users, UserRef, Text(SourceId(User, row)));
    if t != Users && t != GlobalRoleAssignments {
      OneFine(all, References(t), ResolvedRefs(References(t), OwnerRefs(row)), UserRef);
    }
  }

  lemma CloseRefsFine(s: Snapshot, all: Tables, row: Source)
    requires Supplies(s, all) && row in Rows(s, Season)
    ensures RefsFine(all, References(SeasonCloseEvents),
            ResolvedRefs(References(SeasonCloseEvents), CloseEventRefs(row)))
  {
    OwnIdKnown(s, Season, row);
    RawReference(s, all, Seasons, SeasonRef, Text(SourceId(Season, row)));
    ThreeFine(all, References(SeasonCloseEvents), ResolvedRefs(References(SeasonCloseEvents), CloseEventRefs(row)),
              SeasonRef, ClosedByRef, ReopenedByRef);
  }

  lemma WeekRefsFine(s: Snapshot, all: Tables, row: Source)
    requires Supplies(s, all) && !WeekFlaw(s, row, OrphanReference(SeasonId))
    ensures RefsFine(all, References(SeasonWeeks), ResolvedRefs(References(SeasonWeeks), WeekRefs(row)))
            <==> TextualRow(s, SeasonWeeks, row)
  {
    RawReference(s, all, Seasons, SeasonRef, Get(row, SeasonId));
    OneFine(all, References(SeasonWeeks), ResolvedRefs(References(SeasonWeeks), WeekRefs(row)), SeasonRef);
  }

  lemma EnrollmentRefsSplit(all: Tables, u: Value, v: Value, w: Value)
    ensures RefsFine(all, References(Enrollments),
                     ResolvedRefs(References(Enrollments), EnrollmentCells(u, v, w)))
            <==> RefFine(all, Users, UserRef, CellTo(Users, u))
                 && RefFine(all, Seasons, SeasonRef, CellTo(Seasons, v)) &&
                 RefFine(all, SeasonCloseEvents, CompletedByRef, CellTo(SeasonCloseEvents, w))
  {
    ThreeFine(all, References(Enrollments),
              ResolvedRefs(References(Enrollments), EnrollmentCells(u, v, w)),
              UserRef, SeasonRef, CompletedByRef);
  }

  lemma MentorshipRefsSplit(all: Tables, u: Value, v: Value, w: Value)
    ensures RefsFine(all, References(Mentorships),
                     ResolvedRefs(References(Mentorships), MentorshipCells(u, v, w)))
            <==> RefFine(all, Seasons, SeasonRef, CellTo(Seasons, u)) &&
                 RefFine(all, Enrollments, MentorRef, CellTo(Enrollments, v)) &&
                 RefFine(all, Enrollments, StudentRef, CellTo(Enrollments, w))
  {
    ThreeFine(all, References(Mentorships),
              ResolvedRefs(References(Mentorships), MentorshipCells(u, v, w)),
              SeasonRef, MentorRef, StudentRef);
  }

  lemma RemovalRefsSplit(all: Tables, u: Value, v: Value, w: Value, x: Value)
    ensures RefsFine(all, References(EnrollmentRemovalEvents),
                     ResolvedRefs(References(EnrollmentRemovalEvents), RemovalCells(u, v, w, x)))
            <==> RefFine(all, Enrollments, EnrollmentRef, CellTo(Enrollments, u)) &&
                 RefFine(all, Seasons, SeasonRef, CellTo(Seasons, v)) &&
                 RefFine(all, Users, SubjectRef, CellTo(Users, w)) && RefFine(all, Users, ActorRef, CellTo(Users, x))
  {
    FourFine(all, References(EnrollmentRemovalEvents),
             ResolvedRefs(References(EnrollmentRemovalEvents), RemovalCells(u, v, w, x)),
             EnrollmentRef, SeasonRef, SubjectRef, ActorRef);
  }

  lemma CompletionNamed(s: Snapshot, all: Tables, l: Lookups, row: Source)
    requires l.ended == Ended(s) && Supplies(s, all)
    ensures RefFine(all, SeasonCloseEvents, CompletedByRef, CellTo(SeasonCloseEvents, CompletionOf(l, row)))
    ensures CompletionOf(l, row) != Null ==> CellTo(SeasonCloseEvents, CompletionOf(l, row)).Key?
  {
  }

  lemma EnrollmentRefsFine(s: Snapshot, all: Tables, l: Lookups, row: Source)
    requires Supplies(s, all) && l.ended == Ended(s)
    requires Known(s, User, Get(row, UserId)) && Known(s, Season, Get(row, SeasonId))
    ensures RefsFine(all, References(Enrollments), ResolvedRefs(References(Enrollments), EnrollmentRefs(l, row)))
            <==> TextualRow(s, Enrollments, row)
  {
    RawReference(s, all, Users, UserRef, Get(row, UserId));
    RawReference(s, all, Seasons, SeasonRef, Get(row, SeasonId));
    CompletionNamed(s, all, l, row);
    EnrollmentRefsSplit(all, Get(row, UserId), Get(row, SeasonId), CompletionOf(l, row));
  }

  lemma MentorshipRefsFine(s: Snapshot, all: Tables, l: Lookups, row: Source)
    requires Supplies(s, all) && l.enrollments == Index(s, Enrollment)
    requires Known(s, Enrollment, Get(row, MentorEnrollmentId)) && Known(s, Enrollment, Get(row, MenteeEnrollmentId))
    requires Known(s, Season, Get(l.enrollments[TextOf(Get(row, MentorEnrollmentId))], SeasonId))
    ensures RefsFine(all, References(Mentorships), ResolvedRefs(References(Mentorships), MentorshipRefs(l, row)))
            <==> TextualRow(s, Mentorships, row)
  {
    var mentor := l.enrollments[TextOf(Get(row, MentorEnrollmentId))];
    RawReference(s, all, Enrollments, MentorRef, Get(row, MentorEnrollmentId));
    RawReference(s, all, Enrollments, StudentRef, Get(row, MenteeEnrollmentId));
    RawReference(s, all, Seasons, SeasonRef, Get(mentor, SeasonId));
    MentorshipRefsSplit(all, Get(mentor, SeasonId), Get(row, MentorEnrollmentId), Get(row, MenteeEnrollmentId));
  }

  lemma MentorshipKnown(s: Snapshot, row: Source)
    requires Clean(s) && row in Rows(s, Mentorship)
    ensures Known(s, Enrollment, Get(row, MentorEnrollmentId)) && Known(s, Enrollment, Get(row, MenteeEnrollmentId))
    ensures Known(s, Season, Get(Index(s, Enrollment)[TextOf(Get(row, MentorEnrollmentId))], SeasonId))
  {
    CleanRow(s, Mentorship, row, OrphanReference(MentorEnrollmentId));
    CleanRow(s, Mentorship, row, OrphanReference(MenteeEnrollmentId));
    var id := TextOf(Get(row, MentorEnrollmentId));
    IndexedIsSound(Enrollment, Rows(s, Enrollment), id);
    CleanRow(s, Enrollment, Index(s, Enrollment)[id], OrphanReference(SeasonId));
  }

  lemma RemovalTexts(s: Snapshot, all: Tables, u: Value, v: Value, w: Value, x: Value)
    requires Supplies(s, all) && Known(s, Enrollment, u) && Known(s, Season, v) && Known(s, User, w)
             && Known(s, User, x)
    ensures RefsFine(all, References(EnrollmentRemovalEvents),
                     ResolvedRefs(References(EnrollmentRemovalEvents), RemovalCells(u, v, w, x)))
            <==> u.Text? && v.Text? && w.Text? && x.Text?
  {
    RawReference(s, all, Enrollments, EnrollmentRef, u);
    RawReference(s, all, Seasons, SeasonRef, v);
    RawReference(s, all, Users, SubjectRef, w);
    RawReference(s, all, Users, ActorRef, x);
    RemovalRefsSplit(all, u, v, w, x);
  }

  lemma RemovalRefsFine(s: Snapshot, all: Tables, row: Source)
    requires Supplies(s, all) && RemovedEnrollment(s, row) in Index(s, Enrollment)
    requires Known(s, Season, Get(row, SeasonId)) && Known(s, User, Get(row, StudentId))
             && Known(s, User, Get(row, MentorId))
    ensures RefsFine(all, References(EnrollmentRemovalEvents),
            ResolvedRefs(References(EnrollmentRemovalEvents), RemovalRefs(s, row)))
            <==> TextualRow(s, EnrollmentRemovalEvents, row)
  {
    RemovalTexts(s, all, Text(RemovedEnrollment(s, row)), Get(row, SeasonId), Get(row, StudentId), Get(row, MentorId));
  }

  lemma RemovalKnown(s: Snapshot, row: Source)
    requires Clean(s) && row in Rows(s, KickStudentEvent)
    ensures RemovedEnrollment(s, row) in Index(s, Enrollment)
    ensures Known(s, Season, Get(row, SeasonId)) && Known(s, User, Get(row, StudentId))
            && Known(s, User, Get(row, MentorId))
  {
    CleanRow(s, KickStudentEvent, row, OrphanReference(MentorId));
    CleanRow(s, KickStudentEvent, row, OrphanReference(StudentId));
    CleanRow(s, KickStudentEvent, row, OrphanReference(SeasonId));
    CleanRow(s, KickStudentEvent, row, KickWithoutEnrollment);
    MembershipKnown(s, TextOf(Get(row, StudentId)), TextOf(Get(row, SeasonId)));
  }

  lemma MembershipKnown(s: Snapshot, user: string, season: string)
    requires FirstMembership(Rows(s, Enrollment), user, season).Some?
    ensures SourceId(Enrollment, FirstMembership(Rows(s, Enrollment), user, season).value) in Index(s, Enrollment)
  {
    FirstMembershipFound(Rows(s, Enrollment), user, season);
    OwnIdKnown(s, Enrollment, FirstMembership(Rows(s, Enrollment), user, season).value);
  }

  lemma EmittedRefsFine(s: Snapshot, all: Tables, l: Lookups, t: Target, row: Source)
    requires Clean(s) && Supplies(s, all) && row in Rows(s, SourceOf(t)) && Emit(s, l, t, row).Some?
    requires l.ended == Ended(s) && l.enrollments == Index(s, Enrollment)
    ensures RefsFine(all, References(t), ResolvedRefs(References(t), Emit(s, l, t, row).value.refs))
            <==> TextualRow(s, t, row)
  {
    match t
    case Seasons =>
    case SeasonCloseEvents => CloseRefsFine(s, all, row);
    case SeasonWeeks =>
      CleanRow(s, SeasonWeek, row, OrphanReference(SeasonId));
      WeekRefsFine(s, all, row);
    case Enrollments =>
      CleanRow(s, Enrollment, row, OrphanReference(UserId));
      CleanRow(s, Enrollment, row, OrphanReference(SeasonId));
      EnrollmentRefsFine(s, all, l, row);
    case Mentorships =>
      MentorshipKnown(s, row);
      MentorshipRefsFine(s, all, l, row);
    case EnrollmentRemovalEvents =>
      RemovalKnown(s, row);
      RemovalRefsFine(s, all, row);
    case _ => UserRefsFine(s, all, l, t, row);
  }

  // ----- the import as a whole -----

  ghost predicate TextualTable(s: Snapshot, t: Target) {
    forall row | row in Rows(s, SourceOf(t)) && Emit(s, LookupsOf(s), t, row).Some? :: TextualRow(s, t, row)
  }

  /** Every foreign key of the legacy rows that are imported is held as a text. */
  ghost predicate TextualKeys(s: Snapshot) {
    forall t :: TextualTable(s, t)
  }

  ghost predicate TableFine(all: Tables, t: Target) {
    forall row | row in In(all, t) :: RefsFine(all, References(t), row.refs)
  }

  lemma TableFineIff(s: Snapshot, t: Target)
    requires Clean(s)
    ensures TableFine(AllTables(s), t) <==> TextualTable(s, t)
  {
    AllTablesSupply(s);
    AllTablesAre(s, t);
    if TableFine(AllTables(s), t) {
      forall row | row in Rows(s, SourceOf(t)) && Emit(s, LookupsOf(s), t, row).Some?
        ensures TextualRow(s, t, row)
      {
        FinalHas(s, t, row);
        var p :| p in Final(s, t) && IsFrom(s, t, p, row);
        EmittedRefsFine(s, AllTables(s), LookupsOf(s), t, row);
      }
    }
    if TextualTable(s, t) {
      forall p | p in Final(s, t)
        ensures RefsFine(AllTables(s), References(t), p.refs)
      {
        var row := FinalOnly(s, t, p);
        EmittedRefsFine(s, AllTables(s), LookupsOf(s), t, row);
      }
    }
  }

  lemma ClosedIffTablesFine(all: Tables, tables: seq<PreparedTable>)
    requires ListsInOrder(tables, all, |TARGET_ORDER|)
    ensures ReferentiallyClosed(tables) <==> forall t :: TableFine(all, t)
  {
    forall i, row | 0 <= i < |tables| && row in tables[i].rows
      ensures RowClosed(tables, i, row) <==> RefsFine(all, References(tables[i].name), row.refs)
      ensures row in In(all, tables[i].name)
    {
      RowClosedIff(all, tables, i, row);
    }
    if ReferentiallyClosed(tables) {
      forall t
        ensures TableFine(all, t)
      {
        if In(all, t) != [] {
          assert Listed(tables, t);
          var i :| 0 <= i < |tables| && tables[i].name == t;
          assert forall row | row in tables[i].rows :: RowClosed(tables, i, row);
        }
      }
    }
    if forall t :: TableFine(all, t) {
      forall i, row | 0 <= i < |tables| && row in tables[i].rows
        ensures RowClosed(tables, i, row)
      {
        assert TableFine(all, tables[i].name);
      }
    }
  }

  /**
   When the analysis finds nothing, every foreign key of every row to be written names a row of a table
   written earlier, if and only if the snapshot holds its foreign keys as texts.
   */
  lemma ImportIsClosedIff(s: Snapshot)
    requires Clean(s)
    ensures ReferentiallyClosed(Import(s)) <==> TextualKeys(s)
  {
    TablesAreInOrder(AllTables(s), |TARGET_ORDER|);
    ClosedIffTablesFine(AllTables(s), Import(s));
    forall t
      ensures TableFine(AllTables(s), t) <==> TextualTable(s, t)
    {
      TableFineIff(s, t);
    }
  }

  const NUMBERED_SEASON: Source := map[SeasonId := Text("1")]
  const NUMBERED_WEEK: Source := map[SeasonWeekId := Text("w"), SeasonId := Number(1), WeekNumber := Number(1)]

  /** A season and a week that names it by number. */
  const NUMBERED: Snapshot := Snapshot(
    map[User := [], Season := [NUMBERED_SEASON], SeasonWeek := [NUMBERED_WEEK], Enrollment := [], Mentorship := [],
        KickStudentEvent := []],
    0, "now", Parsing(map[], map[], map[]))

  lemma NumberedSeasonKnown()
    ensures Index(NUMBERED, Season) == map["1" := NUMBERED_SEASON]
    ensures Known(NUMBERED, Season, Number(1))
  {
    var rows := Rows(NUMBERED, Season);
    assert rows[..0] == [];
    assert Indexed(Season, rows[..0]) == map[];
    assert TextOf(Number(1)) == Digits(1) == "1";
  }

  lemma NumberedIsClean()
    ensures Clean(NUMBERED)
  {
    NumberedSeasonKnown();
    forall a
      ensures !KeyAnomaly(NUMBERED, a) && !RowAnomaly(NUMBERED, a)
    {
      assert |Rows(NUMBERED, a.table)| <= 1;
      assert a.table == Season ==> Rows(NUMBERED, a.table) == [NUMBERED_SEASON];
      assert a.table == SeasonWeek ==> Rows(NUMBERED, a.table) == [NUMBERED_WEEK];
      assert a.table != Season && a.table != SeasonWeek ==> Rows(NUMBERED, a.table) == [];
      assert forall row | row in Rows(NUMBERED, a.table) :: !Flaw(NUMBERED, a.table, row, a.code);
    }
  }

  /** A clean snapshot whose import is not closed: a key held as a number is accepted but never resolved. */
  lemma NumericKeyDangles()
    ensures Clean(NUMBERED) && !ReferentiallyClosed(Import(NUMBERED))
  {
    NumberedIsClean();
    ImportIsClosedIff(NUMBERED);
    assert NUMBERED_WEEK in Rows(NUMBERED, SeasonWeek);
    assert !TextualRow(NUMBERED, SeasonWeeks, NUMBERED_WEEK);
    assert !TextualTable(NUMBERED, SeasonWeeks);
  }

  // ----- enrollments and mentorships -----

  /** The three assignment shapes that the new schema allows. */
  predicate AllowedShape(d: Data)
    requires d.EnrollmentData?
  {
    || (d.role == Coordinator && d.state == ActiveState && d.assignment == PendingMfa && d.activatedAt == Null)
    || (d.state == ActiveState && d.assignment == Assigned && d.activatedAt != Null)
    || (d.state != ActiveState && d.assignment == Revoked && d.activatedAt == Null)
  }

  lemma EnrollmentCompletion(l: Lookups, e: Source)
    ensures var refs := ResolvedRefs(References(Enrollments), EnrollmentRefs(l, e));
            CompletedByRef in refs && refs[CompletedByRef] == CellTo(SeasonCloseEvents, CompletionOf(l, e))
  {
  }

  lemma MentorshipSides(l: Lookups, m: Source)
    ensures var refs := ResolvedRefs(References(Mentorships), MentorshipRefs(l, m));
            && refs.Keys == {SeasonRef, MentorRef, StudentRef}
            && refs[MentorRef] == CellTo(Enrollments, Get(m, MentorEnrollmentId))
            && refs[StudentRef] == CellTo(Enrollments, Get(m, MenteeEnrollmentId))
  {
  }

  lemma RoleFits(s: Snapshot, e: Source)
    requires RoleFitsLevel(s.parsing, e)
    ensures RoleOf(s, e) != Unmapped && LevelOf(s, e) != UnmappedLevel
    ensures RoleOf(s, e) == Student <==> LevelOf(s, e) != NotApplicable
  {
  }

  lemma ShapeOfFields(s: Snapshot, l: Lookups, e: Source)
    requires RoleFitsLevel(s.parsing, e)
    ensures var d := EnrollmentFields(s, l, e);
            && (AllowedShape(d) <==> !(d.state == ActiveState && d.role != Coordinator && Get(e, CreatedAtUtc) == Null))
            && (d.closeAssignment.Some? <==> d.state == CompletedState)
            && (d.state == CompletedState <==> CompletionOf(l, e) != Null)
  {
    RoleFits(s, e);
  }

  /** Neither kicked nor deleted, in a season that has not ended. */
  ghost predicate StillActive(s: Snapshot, e: Source) {
    && !HasKick(Rows(s, KickStudentEvent), TextOf(Get(e, UserId)), TextOf(Get(e, SeasonId)))
    && !IsDeleted(Get(e, DeletedAtUtc))
    && !exists season :: season in Rows(s, Season) && SourceId(Season, season) == TextOf(Get(e, SeasonId))
                         && HasEnded(s, season)
  }

  lemma ActiveIffStill(s: Snapshot, e: Source)
    ensures FateOf(LookupsOf(s), e).Active? <==> StillActive(s, e)
  {
    var user, season := TextOf(Get(e, UserId)), TextOf(Get(e, SeasonId));
    KicksAreLive(Rows(s, KickStudentEvent), user, season);
    EndedIsSound(s, Rows(s, Season), season);
  }

  /** A legacy enrollment that is still active, of a student or mentor, without a creation time. */
  ghost predicate Untimed(s: Snapshot, e: Source) {
    StillActive(s, e) && NumberOf(s.parsing, Get(e, Role)) != 2 && Get(e, CreatedAtUtc) == Null
  }

  lemma ShapeIffTimed(s: Snapshot, e: Source)
    requires RoleFitsLevel(s.parsing, e)
    ensures var d := EnrollmentFields(s, LookupsOf(s), e);
            && (d.state == ActiveState <==> StillActive(s, e))
            && (d.role == Coordinator <==> NumberOf(s.parsing, Get(e, Role)) == 2)
            && (AllowedShape(d) <==> !Untimed(s, e))
  {
    ActiveIffStill(s, e);
    ShapeOfFields(s, LookupsOf(s), e);
  }

  /**
   A finished enrollment has an allowed assignment shape if and only if its legacy row is not that of a student or
   mentor who is still active and has no creation time; it has a close event and a snapshot of its assignment exactly
   when it is completed.
   */
  lemma EnrollmentShapes(s: Snapshot, row: PreparedRow) returns (source: Source)
    requires Clean(s) && row in Final(s, Enrollments)
    ensures source in Rows(s, Enrollment) && row.id == Key(Enrollments, SourceId(Enrollment, source))
    ensures row.data == EnrollmentFields(s, LookupsOf(s), source)
    ensures row.data.state == ActiveState <==> StillActive(s, source)
    ensures row.data.role == Coordinator <==> NumberOf(s.parsing, Get(source, Role)) == 2
    ensures AllowedShape(row.data) <==> !Untimed(s, source)
    ensures row.data.role != Unmapped && (row.data.role == Student <==> row.data.level != NotApplicable)
    ensures row.data.closeAssignment.Some? <==> row.data.state == CompletedState
    ensures CompletedByRef in row.refs && row.refs[CompletedByRef].Key? <==> row.data.state == CompletedState
  {
    var l := LookupsOf(s);
    source := FinalOnly(s, Enrollments, row);
    CleanRow(s, Enrollment, source, InvalidEnrollmentRole);
    RoleFits(s, source);
    ShapeOfFields(s, l, source);
    ShapeIffTimed(s, source);
    AllTablesSupply(s);
    CompletionNamed(s, AllTables(s), l, source);
    EnrollmentCompletion(l, source);
  }

  /** A member left a season: kicked from it, or the enrollment deleted. */
  predicate Left(l: Lookups, e: Source) {
    KickOf(l, e).Some? || IsDeleted(Get(e, DeletedAtUtc))
  }

  /** The departure has a time unless a kick, which takes precedence, has none. */
  predicate Timed(l: Lookups, e: Source) {
    KickOf(l, e).Some? ==> Get(KickOf(l, e).value, KickedAtUtc) != Null
  }

  lemma MentorshipFrom(s: Snapshot, row: PreparedRow) returns (source: Source)
    requires row in Final(s, Mentorships)
    ensures source in Rows(s, Mentorship) && row.data == MentorshipFields(LookupsOf(s), source)
    ensures row.refs == ResolvedRefs(References(Mentorships), MentorshipRefs(LookupsOf(s), source))
  {
    source := FinalOnly(s, Mentorships, row);
  }

  /** A mentorship is imported without an end exactly when neither side left at a recorded time. */
  lemma MentorshipEnds(s: Snapshot, row: PreparedRow) returns (mentor: Source, student: Source)
    requires Clean(s) && row in Final(s, Mentorships)
    ensures mentor in Rows(s, Enrollment) && student in Rows(s, Enrollment)
    ensures row.refs.Keys == {SeasonRef, MentorRef, StudentRef}
    ensures row.refs[MentorRef].Key? ==> row.refs[MentorRef] == Key(Enrollments, SourceId(Enrollment, mentor))
    ensures row.refs[StudentRef].Key? ==> row.refs[StudentRef] == Key(Enrollments, SourceId(Enrollment, student))
    ensures row.data.MentorshipData?
    ensures var l := LookupsOf(s);
            row.data.endedAt == Null <==>
            (Left(l, mentor) ==> !Timed(l, mentor)) && (Left(l, student) ==> !Timed(l, student))
    ensures var l := LookupsOf(s);
            forall e | e in [mentor, student] && Left(l, e) && Timed(l, e) ::
              !Less(TextOf(EnrollmentEnd(l, Some(e))), TextOf(row.data.endedAt))
  {
    var source := MentorshipFrom(s, row);
    MentorshipKnown(s, source);
    var a, b := TextOf(Get(source, MentorEnrollmentId)), TextOf(Get(source, MenteeEnrollmentId));
    mentor, student := Index(s, Enrollment)[a], Index(s, Enrollment)[b];
    IndexedIsSound(Enrollment, Rows(s, Enrollment), a);
    IndexedIsSound(Enrollment, Rows(s, Enrollment), b);
    var l := LookupsOf(s);
    EndsEarliest(l, mentor, student);
    MentorshipSides(l, source);
  }

  lemma EndsEarliest(l: Lookups, mentor: Source, student: Source)
    ensures var x, y := EnrollmentEnd(l, Some(mentor)), EnrollmentEnd(l, Some(student));
            && (EarlierEnd(x, y) == Null <==>
                (Left(l, mentor) ==> !Timed(l, mentor)) && (Left(l, student) ==> !Timed(l, student)))
            && (Left(l, mentor) && Timed(l, mentor) ==> !Less(TextOf(x), TextOf(EarlierEnd(x, y))))
            && (Left(l, student) && Timed(l, student) ==> !Less(TextOf(y), TextOf(EarlierEnd(x, y))))
  {
    var x, y := TextOf(EnrollmentEnd(l, Some(mentor))), TextOf(EnrollmentEnd(l, Some(student)));
    LessIsStrict(x, y);
    LessIsStrict(x, x);
    LessIsStrict(y, y);
  }
}
