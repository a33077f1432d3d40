/** What it means that the analysis finds nothing, said of the legacy rows alone. */
module LegacyCleanliness {
  import opened Wrappers
  import opened LegacySource
  import opened LegacyAnalysis
  import opened LegacyTransform
  import opened LegacyClosure
  import opened LegacyImported

  // ----- what a clean snapshot has -----

  /** An id that can be part of a key: not empty, and with no bar at its ends or doubled within. */
  predicate UsableId(id: string) {
    && id != "" && id[0] != '|' && id[|id| - 1] != '|'
    && forall k | 0 <= k < |id| - 1 :: !(id[k] == '|' && id[k + 1] == '|')
  }

  ghost predicate IdsFine(s: Snapshot, t: Table) {
    t in s.tables && DistinctIds(t, s.tables[t]) && forall row | row in s.tables[t] :: UsableId(SourceId(t, row))
  }

  /** When both can be read, the first is not later than the second. */
  predicate NotLater(s: Snapshot, first: Value, second: Value) {
    var a, b := TextOf(first), TextOf(second);
    a != "" && b != "" && a in s.parsing.instants && b in s.parsing.instants ==>
      s.parsing.instants[a] <= s.parsing.instants[b]
  }

  predicate Readable(s: Snapshot, v: Value) {
    TextOf(v) != "" && TextOf(v) in s.parsing.instants
  }

  predicate SeasonFine(s: Snapshot, season: Source) {
    NotLater(s, Get(season, StartDateInclusiveUTC), Get(season, EndDateInclusiveUTC))
  }

  /** The week lies within the season, when all four dates can be read. */
  predicate Within(s: Snapshot, week: Source, season: Source) {
    && SeasonOf(s, week, season)
    && (Readable(s, Get(week, StartDate)) && Readable(s, Get(week, EndDate))
        && Readable(s, Get(season, StartDateInclusiveUTC)) && Readable(s, Get(season, EndDateInclusiveUTC)) ==>
          && NotLater(s, Get(season, StartDateInclusiveUTC), Get(week, StartDate))
          && NotLater(s, Get(week, EndDate), Get(season, EndDateInclusiveUTC)))
  }

  ghost predicate WeekFine(s: Snapshot, week: Source) {
    && NotLater(s, Get(week, StartDate), Get(week, EndDate)) && NumberOf(s.parsing, Get(week, WeekNumber)) >= 1
    && exists season :: Within(s, week, season)
  }

  ghost predicate Names(s: Snapshot, t: Table, v: Value) {
    exists row :: row in Rows(s, t) && SourceId(t, row) == TextOf(v)
  }

  /** Its user and season exist, only students have a level, and whoever was deleted was kicked. */
  ghost predicate EnrollmentFine(s: Snapshot, e: Source) {
    && Names(s, User, Get(e, UserId)) && Names(s, Season, Get(e, SeasonId))
    && NumberOf(s.parsing, Get(e, Role)) in {0, 1, 2}
    && NumberOf(s.parsing, Get(e, StudentRolePromotion))
       in (if NumberOf(s.parsing, Get(e, Role)) == 0 then {1, 2, 3, 4} else {0})
    && (MarkedDeleted(e) ==> WasKicked(s, e))
  }

  /** A student and somebody who is not one, enrolled in one season. */
  ghost predicate MentorshipFine(s: Snapshot, m: Source) {
    exists mentor, student ::
      && HasEnrollmentId(s, mentor, Get(m, MentorEnrollmentId))
      && HasEnrollmentId(s, student, Get(m, MenteeEnrollmentId))
      && TextOf(Get(mentor, SeasonId)) == TextOf(Get(student, SeasonId))
      && NumberOf(s.parsing, Get(mentor, Role)) != 0 && NumberOf(s.parsing, Get(student, Role)) == 0
  }

  ghost predicate KickFine(s: Snapshot, kick: Source) {
    && Names(s, User, Get(kick, StudentId)) && Names(s, User, Get(kick, MentorId))
    && Names(s, Season, Get(kick, SeasonId)) && exists e :: EnrollmentOfKick(s, kick, e)
  }

  ghost predicate RowFine(s: Snapshot, t: Table, row: Source) {
    match t
    case User => true
    case Season => SeasonFine(s, row)
    case SeasonWeek => WeekFine(s, row)
    case Enrollment => EnrollmentFine(s, row)
    case Mentorship => MentorshipFine(s, row)
    case KickStudentEvent => KickFine(s, row)
  }

  ghost predicate RowsFine(s: Snapshot, t: Table) {
    forall row | row in Rows(s, t) :: RowFine(s, t, row)
  }

  // ----- ids -----

  lemma UsableIff(id: string)
    ensures Malformed(id) <==> !UsableId(id)
  {
  }

  ghost predicate NoKeyAnomaly(s: Snapshot, t: Table) {
    forall a: Anomaly | a.table == t :: !KeyAnomaly(s, a)
  }

  lemma IdsFineIff(s: Snapshot, t: Table)
    ensures NoKeyAnomaly(s, t) <==> IdsFine(s, t)
  {
    if NoKeyAnomaly(s, t) {
      assert !KeyAnomaly(s, Anomaly(MissingSourceTable, t, ""));
      var rows := s.tables[t];
      forall i, j | 0 <= i < j < |rows|
        ensures SourceId(t, rows[i]) != SourceId(t, rows[j])
      {
        assert !KeyAnomaly(s, Anomaly(DuplicateSourceId, t, SourceId(t, rows[i])));
      }
      forall row | row in rows
        ensures UsableId(SourceId(t, row))
      {
        assert !KeyAnomaly(s, Anomaly(MissingSourceId, t, SourceId(t, row)));
        UsableIff(SourceId(t, row));
      }
    }
    if IdsFine(s, t) {
      forall a: Anomaly | a.table == t
        ensures !KeyAnomaly(s, a)
      {
        UsableIff(a.id);
      }
    }
  }

  // ----- rows -----

  ghost predicate Flawless(s: Snapshot, t: Table, row: Source) {
    forall c :: !Flaw(s, t, row, c)
  }

  lemma KnownIff(s: Snapshot, t: Table, v: Value)
    ensures Known(s, t, v) <==> Names(s, t, v)
    ensures Known(s, t, v) ==> Index(s, t)[TextOf(v)] in Rows(s, t) && SourceId(t, Index(s, t)[TextOf(v)]) == TextOf(v)
  {
    IndexedIsSound(t, Rows(s, t), TextOf(v));
  }

  /** With distinct ids the indexed row is the only one with its id. */
  lemma IndexedIsOnly(s: Snapshot, t: Table, v: Value, row: Source)
    requires DistinctIds(t, Rows(s, t)) && row in Rows(s, t) && SourceId(t, row) == TextOf(v)
    ensures Known(s, t, v) && Index(s, t)[TextOf(v)] == row
  {
    KnownIff(s, t, v);
    assert Names(s, t, v);
    SameIdSameRow(t, Rows(s, t), row, Index(s, t)[TextOf(v)]);
  }

  lemma SeasonFineIff(s: Snapshot, season: Source)
    ensures Flawless(s, Season, season) <==> SeasonFine(s, season)
  {
    assert Flawless(s, Season, season) ==> !Flaw(s, Season, season, InvalidSeasonRange);
  }

  lemma WithinIff(s: Snapshot, week: Source, season: Source)
    requires SeasonOf(s, week, season)
    ensures Within(s, week, season) <==> !OutsideSeason(s.parsing, week, season)
  {
  }

  lemma WeekFineIff(s: Snapshot, week: Source)
    requires DistinctIds(Season, Rows(s, Season))
    ensures Flawless(s, SeasonWeek, week) <==> WeekFine(s, week)
  {
    var v := Get(week, SeasonId);
    KnownIff(s, Season, v);
    if Flawless(s, SeasonWeek, week) {
      assert !Flaw(s, SeasonWeek, week, OrphanReference(SeasonId));
      assert !Flaw(s, SeasonWeek, week, WeekOutsideSeason);
      assert !Flaw(s, SeasonWeek, week, InvalidWeekRange) && !Flaw(s, SeasonWeek, week, InvalidWeekNumber);
      WithinIff(s, week, Index(s, Season)[TextOf(v)]);
    }
    if WeekFine(s, week) {
      var season :| Within(s, week, season);
      IndexedIsOnly(s, Season, v, season);
      WithinIff(s, week, season);
    }
  }

  lemma DeletedIffKicked(s: Snapshot, e: Source)
    ensures EnrollmentFlaw(s, e, DeletedEnrollmentWithoutKick) <==> MarkedDeleted(e) && !WasKicked(s, e)
  {
    KickIsLatest(s, e);
    DeletedIffMarked(e);
  }

  lemma EnrollmentFineIff(s: Snapshot, e: Source)
    ensures Flawless(s, Enrollment, e) <==> EnrollmentFine(s, e)
  {
    KnownIff(s, User, Get(e, UserId));
    KnownIff(s, Season, Get(e, SeasonId));
    DeletedIffKicked(s, e);
    if Flawless(s, Enrollment, e) {
      assert !Flaw(s, Enrollment, e, OrphanReference(UserId)) && !Flaw(s, Enrollment, e, OrphanReference(SeasonId));
      assert !Flaw(s, Enrollment, e, InvalidEnrollmentRole) && !Flaw(s, Enrollment, e, DeletedEnrollmentWithoutKick);
    }
  }

  lemma MentorshipFineIff(s: Snapshot, m: Source)
    requires DistinctIds(Enrollment, Rows(s, Enrollment))
    ensures Flawless(s, Mentorship, m) <==> MentorshipFine(s, m)
  {
    var a, b := Get(m, MentorEnrollmentId), Get(m, MenteeEnrollmentId);
    KnownIff(s, Enrollment, a);
    KnownIff(s, Enrollment, b);
    if Flawless(s, Mentorship, m) {
      assert !Flaw(s, Mentorship, m, OrphanReference(MentorEnrollmentId));
      assert !Flaw(s, Mentorship, m, OrphanReference(MenteeEnrollmentId));
      assert !Flaw(s, Mentorship, m, CrossSeasonMentorship) && !Flaw(s, Mentorship, m, InvalidMentorshipRoles);
      var mentor, student := Index(s, Enrollment)[TextOf(a)], Index(s, Enrollment)[TextOf(b)];
      assert HasEnrollmentId(s, mentor, a) && HasEnrollmentId(s, student, b);
    }
    if MentorshipFine(s, m) {
      var mentor, student :|
        && HasEnrollmentId(s, mentor, a) && HasEnrollmentId(s, student, b)
        && TextOf(Get(mentor, SeasonId)) == TextOf(Get(student, SeasonId))
        && NumberOf(s.parsing, Get(mentor, Role)) != 0 && NumberOf(s.parsing, Get(student, Role)) == 0;
      IndexedIsOnly(s, Enrollment, a, mentor);
      IndexedIsOnly(s, Enrollment, b, student);
    }
  }

  lemma EnrolledIff(s: Snapshot, kick: Source)
    ensures FirstMembership(Rows(s, Enrollment), TextOf(Get(kick, StudentId)), TextOf(Get(kick, SeasonId))).Some?
            <==> exists e :: EnrollmentOfKick(s, kick, e)
  {
    var user, season := TextOf(Get(kick, StudentId)), TextOf(Get(kick, SeasonId));
    FirstMembershipFound(Rows(s, Enrollment), user, season);
    assert forall e :: EnrollmentOfKick(s, kick, e) <==> e in Rows(s, Enrollment) && IsMembership(e, user, season);
  }

  lemma KickFineIff(s: Snapshot, kick: Source)
    ensures Flawless(s, KickStudentEvent, kick) <==> KickFine(s, kick)
  {
    KnownIff(s, User, Get(kick, StudentId));
    KnownIff(s, User, Get(kick, MentorId));
    KnownIff(s, Season, Get(kick, SeasonId));
    EnrolledIff(s, kick);
    KickFlawlessIff(s, kick);
  }

  lemma KickFlawlessIff(s: Snapshot, kick: Source)
    ensures Flawless(s, KickStudentEvent, kick) <==>
            && Known(s, User, Get(kick, StudentId)) && Known(s, User, Get(kick, MentorId))
            && Known(s, Season, Get(kick, SeasonId))
            && FirstMembership(Rows(s, Enrollment), TextOf(Get(kick, StudentId)), TextOf(Get(kick, SeasonId))).Some?
  {
    if Flawless(s, KickStudentEvent, kick) {
      assert !Flaw(s, KickStudentEvent, kick, OrphanReference(StudentId));
      assert !Flaw(s, KickStudentEvent, kick, OrphanReference(MentorId));
      assert !Flaw(s, KickStudentEvent, kick, OrphanReference(SeasonId));
      assert !Flaw(s, KickStudentEvent, kick, KickWithoutEnrollment);
    }
  }

  lemma RowFineIff(s: Snapshot, t: Table, row: Source)
    requires DistinctIds(Season, Rows(s, Season)) && DistinctIds(Enrollment, Rows(s, Enrollment))
    ensures Flawless(s, t, row) <==> RowFine(s, t, row)
  {
    match t
    case User =>
    case Season => SeasonFineIff(s, row);
    case SeasonWeek => WeekFineIff(s, row);
    case Enrollment => EnrollmentFineIff(s, row);
    case Mentorship => MentorshipFineIff(s, row);
    case KickStudentEvent => KickFineIff(s, row);
  }

  ghost predicate NoRowAnomaly(s: Snapshot, t: Table) {
    forall a: Anomaly | a.table == t :: !RowAnomaly(s, a)
  }

  lemma RowsFineIff(s: Snapshot, t: Table)
    requires DistinctIds(Season, Rows(s, Season)) && DistinctIds(Enrollment, Rows(s, Enrollment))
    ensures NoRowAnomaly(s, t) <==> RowsFine(s, t)
  {
    if NoRowAnomaly(s, t) {
      forall row | row in Rows(s, t)
        ensures RowFine(s, t, row)
      {
        forall c
          ensures !Flaw(s, t, row, c)
        {
          assert !RowAnomaly(s, Anomaly(c, t, SourceId(t, row)));
        }
        RowFineIff(s, t, row);
      }
    }
    if RowsFine(s, t) {
      forall row | row in Rows(s, t)
        ensures Flawless(s, t, row)
      {
        RowFineIff(s, t, row);
      }
    }
  }

  /**
   The analysis finds nothing exactly when every table is there with usable and distinct ids, seasons and weeks end no
   earlier than they start, every row names rows that exist, weeks lie in their seasons, roles fit levels, mentorships
   join a student and somebody else in one season, whoever was deleted was kicked and whoever was kicked was enrolled.
   */
  lemma CleanIff(s: Snapshot)
    ensures Clean(s) <==> forall t :: IdsFine(s, t) && RowsFine(s, t)
  {
    CleanByTable(s);
    forall t {
      IdsFineIff(s, t);
    }
    if forall t :: IdsFine(s, t) {
      assert IdsFine(s, Season) && IdsFine(s, Enrollment);
      forall t {
        RowsFineIff(s, t);
      }
    }
  }

  lemma CleanByTable(s: Snapshot)
    ensures Clean(s) <==> forall t :: NoKeyAnomaly(s, t) && NoRowAnomaly(s, t)
  {
    if forall t :: NoKeyAnomaly(s, t) && NoRowAnomaly(s, t) {
      forall a
        ensures !KeyAnomaly(s, a) && !RowAnomaly(s, a)
      {
        assert NoKeyAnomaly(s, a.table) && NoRowAnomaly(s, a.table);
      }
    }
  }
}
