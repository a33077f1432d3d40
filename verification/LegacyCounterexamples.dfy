/** Clean snapshots whose import is not what one would expect: what the analysis does not look at. */
module LegacyCounterexamples {
  import opened Wrappers
  import opened StringOrder
  import opened LegacySource
  import opened LegacyAnalysis
  import opened LegacyTransform
  import opened LegacyClosure

  ghost predicate GoodKeys(t: Table, rows: seq<Source>) {
    && (forall i | 0 <= i < |rows| :: !Malformed(SourceId(t, rows[i])))
    && (forall i, j | 0 <= i < j < |rows| :: SourceId(t, rows[i]) != SourceId(t, rows[j]))
  }

  ghost predicate Flawless(s: Snapshot, t: Table) {
    t in s.tables && GoodKeys(t, Rows(s, t)) && forall row, c | row in Rows(s, t) :: !Flaw(s, t, row, c)
  }

  lemma FlawlessIsClean(s: Snapshot)
    requires forall t :: Flawless(s, t)
    ensures Clean(s)
  {
    forall a
      ensures !KeyAnomaly(s, a) && !RowAnomaly(s, a)
    {
      assert Flawless(s, a.table);
    }
  }

  lemma FinalRowOf(s: Snapshot, t: Target, source: Source) returns (row: PreparedRow)
    requires source in Rows(s, SourceOf(t)) && Emit(s, LookupsOf(s), t, source).Some?
    ensures row in Final(s, t) && row.data == Emit(s, LookupsOf(s), t, source).value.data
  {
    FinalHas(s, t, source);
    row :| row in Final(s, t) && IsFrom(s, t, row, source);
  }

  // ----- an enrollment without a creation time -----

  const MEMBER: Source := map[UserId := Text("v")]
  const TERM: Source := map[SeasonId := Text("s")]
  const STUDYING: Source :=
    map[EnrollmentId := Text("e"), UserId := Text("v"), SeasonId := Text("s"), Role := Number(0),
        StudentRolePromotion := Number(1)]

  const UNTIMED: Snapshot := Snapshot(
    map[User := [MEMBER], Season := [TERM], SeasonWeek := [], Enrollment := [STUDYING], Mentorship := [],
        KickStudentEvent := []],
    0, "now", Parsing(map[], map[], map[]))

  lemma UntimedIsClean()
    ensures Clean(UNTIMED)
  {
    assert MEMBER in Rows(UNTIMED, User) && TERM in Rows(UNTIMED, Season);
    OwnIdKnown(UNTIMED, User, MEMBER);
    OwnIdKnown(UNTIMED, Season, TERM);
    forall t
      ensures Flawless(UNTIMED, t)
    {
      if t == Enrollment {
        assert Rows(UNTIMED, t) == [STUDYING];
        assert forall c :: !EnrollmentFlaw(UNTIMED, STUDYING, c);
      }
    }
    FlawlessIsClean(UNTIMED);
  }

  lemma TermIsRunning(s: Snapshot)
    requires Rows(s, Season) == [TERM]
    ensures Ended(s) == map[]
  {
    assert !HasEnded(s, TERM);
    assert Rows(s, Season)[..0] == [];
    EndedStep(s, Rows(s, Season), 0);
    assert Rows(s, Season)[..1] == Rows(s, Season);
  }

  /** An active student without a creation time is clean, and imported with no allowed assignment shape. */
  lemma UntimedEnrollmentBreaksShape() returns (row: PreparedRow)
    ensures Clean(UNTIMED) && row in Final(UNTIMED, Enrollments) && row.data.EnrollmentData?
    ensures row.data.role == Student && row.data.state == ActiveState && !AllowedShape(row.data)
  {
    UntimedIsClean();
    TermIsRunning(UNTIMED);
    assert STUDYING in Rows(UNTIMED, SourceOf(Enrollments));
    row := FinalRowOf(UNTIMED, Enrollments, STUDYING);
    assert Kicks(UNTIMED) == map[];
    UntimedFields(LookupsOf(UNTIMED));
  }

  lemma UntimedFields(l: Lookups)
    requires l.kicks == map[] && l.ended == map[]
    ensures var d := EnrollmentFields(UNTIMED, l, STUDYING);
            d.role == Student && d.state == ActiveState && !AllowedShape(d)
  {
  }

  // ----- a kick without a time -----

  const GUIDE: Source := map[UserId := Text("u")]
  const GUIDING: Source :=
    map[EnrollmentId := Text("m"), UserId := Text("u"), SeasonId := Text("s"), Role := Number(1),
        StudentRolePromotion := Number(0)]
  const PAIRING: Source :=
    map[MentorshipId := Text("p"), MentorEnrollmentId := Text("m"), MenteeEnrollmentId := Text("e")]
  const KICK: Source :=
    map[KickStudentEventId := Text("k"), MentorId := Text("u"), StudentId := Text("v"), SeasonId := Text("s")]

  const KICKED: Snapshot := Snapshot(
    map[User := [GUIDE, MEMBER], Season := [TERM], SeasonWeek := [], Enrollment := [GUIDING, STUDYING],
        Mentorship := [PAIRING], KickStudentEvent := [KICK]],
    0, "now", Parsing(map[], map[], map[]))

  lemma KickedIndex()
    ensures "u" in Index(KICKED, User) && "v" in Index(KICKED, User) && "s" in Index(KICKED, Season)
    ensures Index(KICKED, Enrollment) == map["m" := GUIDING, "e" := STUDYING]
    ensures FirstMembership(Rows(KICKED, Enrollment), "v", "s").Some?
  {
    assert GUIDE in Rows(KICKED, User) && MEMBER in Rows(KICKED, User) && TERM in Rows(KICKED, Season);
    OwnIdKnown(KICKED, User, GUIDE);
    OwnIdKnown(KICKED, User, MEMBER);
    OwnIdKnown(KICKED, Season, TERM);
    var rows := Rows(KICKED, Enrollment);
    assert rows[..1] == [GUIDING] && [GUIDING][..0] == [];
    assert Indexed(Enrollment, [GUIDING]) == map["m" := GUIDING];
    assert rows[1..] == [STUDYING];
  }

  lemma KickedEnrollmentsFlawless(row: Source, c: Code)
    requires row in Rows(KICKED, Enrollment)
    ensures !Flaw(KICKED, Enrollment, row, c)
  {
    KickedIndex();
    EnrollmentsFlawless(KICKED, row, c);
  }

  lemma EnrollmentsFlawless(s: Snapshot, row: Source, c: Code)
    requires row == GUIDING || row == STUDYING
    requires "u" in Index(s, User) && "v" in Index(s, User) && "s" in Index(s, Season)
    ensures !Flaw(s, Enrollment, row, c)
  {
  }

  lemma PairingFlawless(c: Code)
    ensures !Flaw(KICKED, Mentorship, PAIRING, c)
  {
    KickedIndex();
  }

  lemma KickFlawless(c: Code)
    ensures !Flaw(KICKED, KickStudentEvent, KICK, c)
  {
    KickedIndex();
  }

  lemma KickedKeys(t: Table)
    ensures t in KICKED.tables && GoodKeys(t, Rows(KICKED, t))
  {
    assert t == User ==> Rows(KICKED, t) == [GUIDE, MEMBER];
    assert t == Enrollment ==> Rows(KICKED, t) == [GUIDING, STUDYING];
    assert t != User && t != Enrollment ==> |Rows(KICKED, t)| <= 1;
  }

  lemma KickedIsClean()
    ensures Clean(KICKED)
  {
    forall t
      ensures Flawless(KICKED, t)
    {
      KickedKeys(t);
      forall row, c | row in Rows(KICKED, t)
        ensures !Flaw(KICKED, t, row, c)
      {
        match t
        case Enrollment => KickedEnrollmentsFlawless(row, c);
        case Mentorship => PairingFlawless(c);
        case KickStudentEvent => KickFlawless(c);
        case _ =>
      }
    }
    FlawlessIsClean(KICKED);
  }

  lemma StudentIsKicked()
    ensures Kicks(KICKED) == map[("v", "s") := KICK]
  {
    var rows := Rows(KICKED, KickStudentEvent);
    assert rows == [KICK] && rows[..0] == [];
    assert KicksIn(rows) == WithKick(KicksIn(rows[..0]), KICK);
    assert (TextOf(Get(KICK, StudentId)), TextOf(Get(KICK, SeasonId))) == ("v", "s");
  }

  lemma OpenEnd(l: Lookups)
    requires l.enrollments == map["m" := GUIDING, "e" := STUDYING] && l.kicks == map[("v", "s") := KICK]
    ensures MentorshipFields(l, PAIRING) == MentorshipData(Null, Null) && Left(l, STUDYING)
  {
  }

  /** The student of the pair was kicked, and the mentorship is imported without an end. */
  ghost predicate LeftOpen(s: Snapshot, row: PreparedRow) {
    Left(LookupsOf(s), STUDYING) && row in Final(s, Mentorships) && row.data == MentorshipData(Null, Null)
  }

  lemma OpenPair(s: Snapshot) returns (row: PreparedRow)
    requires PAIRING in Rows(s, Mentorship) && Kicks(s) == map[("v", "s") := KICK]
    requires Index(s, Enrollment) == map["m" := GUIDING, "e" := STUDYING]
    ensures LeftOpen(s, row)
  {
    OpenEnd(LookupsOf(s));
    row := FinalRowOf(s, Mentorships, PAIRING);
  }

  lemma PairIsListed()
    ensures PAIRING in Rows(KICKED, Mentorship)
  {
  }

  lemma KickedPairIsOpen() returns (row: PreparedRow)
    ensures LeftOpen(KICKED, row)
  {
    KickedIndex();
    StudentIsKicked();
    PairIsListed();
    row := OpenPair(KICKED);
  }

  /** A kick without a time is clean, and the mentorship of the kicked student is imported without an end. */
  lemma UntimedKickLeavesMentorshipOpen() returns (row: PreparedRow)
    ensures Clean(KICKED) && LeftOpen(KICKED, row)
  {
    KickedIsClean();
    row := KickedPairIsOpen();
  }
}
