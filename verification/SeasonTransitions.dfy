/** Closing and reopening a season as a change of values: the enrollments are copied, then updated one by one. */
module SeasonTransitions {
  import opened Wrappers

  type EnrollmentId = string
  type SeasonId = string
  type CloseId = string

  datatype EnrollmentState = Active | Completed | Kicked | Withdrawn

  datatype Assignment = PendingMfa | Assigned | Revoked

  datatype Status = Open | Closed

  /** None stands for an assignment state that was not loaded. */
  datatype Enrollment = Enrollment(
    id: EnrollmentId, state: EnrollmentState, assignment: Option<Assignment>,
    closeAssignment: Option<Assignment>, completedBy: Option<CloseId>)

  datatype Season = Season(id: SeasonId, status: Status, enrollments: seq<Enrollment>)

  function CloseOne(e: Enrollment, closeId: CloseId): Enrollment {
    if e.state != Active then e
    else e.(state := Completed, closeAssignment := e.assignment,
            assignment := if e.assignment.Some? then Some(Revoked) else None, completedBy := Some(closeId))
  }

  function ReopenOne(e: Enrollment, closeId: CloseId): Enrollment {
    if e.completedBy != Some(closeId) then e
    else e.(state := Active, assignment := if e.closeAssignment.Some? then e.closeAssignment else e.assignment,
            closeAssignment := None, completedBy := None)
  }

  /** The event id that a close uses when the caller names none. */
  function EventId(s: Season, eventId: CloseId): CloseId {
    if eventId == "" then "close-" + s.id else eventId
  }

  function ClosedSeason(s: Season, eventId: CloseId): Season {
    Season(s.id, Closed, seq(|s.enrollments|, i requires 0 <= i < |s.enrollments| =>
             CloseOne(s.enrollments[i], EventId(s, eventId))))
  }

  function ReopenedSeason(s: Season, closeId: CloseId): Season {
    Season(s.id, Open,
      seq(|s.enrollments|, i requires 0 <= i < |s.enrollments| => ReopenOne(s.enrollments[i], closeId)))
  }

  method Close(s: Season, eventId: CloseId) returns (r: Option<Season>)
    ensures r == if s.status == Open then Some(ClosedSeason(s, eventId)) else None
  {
    if s.status != Open {
      return None;
    }
    var closeId := eventId;
    if closeId == "" {
      closeId := "close-" + s.id;
    }
    var enrollments := s.enrollments;
    var i := 0;
    while i < |enrollments|
      invariant 0 <= i <= |enrollments| == |s.enrollments|
      invariant forall j | 0 <= j < i :: enrollments[j] == CloseOne(s.enrollments[j], closeId)
      invariant forall j | i <= j < |enrollments| :: enrollments[j] == s.enrollments[j]
    {
      if enrollments[i].state == Active {
        enrollments := enrollments[i := enrollments[i].(state := Completed)];
        enrollments := enrollments[i := enrollments[i].(closeAssignment := enrollments[i].assignment)];
        if enrollments[i].assignment.Some? {
          enrollments := enrollments[i := enrollments[i].(assignment := Some(Revoked))];
        }
        enrollments := enrollments[i := enrollments[i].(completedBy := Some(closeId))];
      }
      i := i + 1;
    }
    assert enrollments == ClosedSeason(s, eventId).enrollments;
    return Some(Season(s.id, Closed, enrollments));
  }

  method Reopen(s: Season, closeId: CloseId) returns (r: Season)
    ensures r == ReopenedSeason(s, closeId)
  {
    var enrollments := s.enrollments;
    var i := 0;
    while i < |enrollments|
      invariant 0 <= i <= |enrollments| == |s.enrollments|
      invariant forall j | 0 <= j < i :: enrollments[j] == ReopenOne(s.enrollments[j], closeId)
      invariant forall j | i <= j < |enrollments| :: enrollments[j] == s.enrollments[j]
    {
      if enrollments[i].completedBy == Some(closeId) {
        enrollments := enrollments[i := enrollments[i].(state := Active)];
        if enrollments[i].closeAssignment.Some? {
          enrollments := enrollments[i := enrollments[i].(assignment := enrollments[i].closeAssignment)];
        }
        enrollments := enrollments[i := enrollments[i].(closeAssignment := None)];
        enrollments := enrollments[i := enrollments[i].(completedBy := None)];
      }
      i := i + 1;
    }
    assert enrollments == ReopenedSeason(s, closeId).enrollments;
    return Season(s.id, Open, enrollments);
  }

  /** The enrollments that a close and reopen bring back as they were. */
  predicate Restorable(e: Enrollment, closeId: CloseId) {
    e.completedBy != Some(closeId) && (e.state == Active ==> e.closeAssignment.None? && e.completedBy.None?)
  }

  /** Reopening undoes closing exactly when no enrollment carries traces of a close. */
  lemma ReopenUndoesClose(s: Season, eventId: CloseId)
    requires s.status == Open
    ensures var c := if eventId == "" then "close-" + s.id else eventId;
            ReopenedSeason(ClosedSeason(s, eventId), c) == s
            <==> forall i | 0 <= i < |s.enrollments| :: Restorable(s.enrollments[i], c)
  {
    var c := EventId(s, eventId);
    var back := ReopenedSeason(ClosedSeason(s, eventId), c);
    assert |back.enrollments| == |s.enrollments|;
    forall i | 0 <= i < |s.enrollments|
      ensures back.enrollments[i] == s.enrollments[i] <==> Restorable(s.enrollments[i], c)
    {
    }
    if back == s {
      assert forall i | 0 <= i < |s.enrollments| :: back.enrollments[i] == s.enrollments[i];
    }
    if forall i | 0 <= i < |s.enrollments| :: Restorable(s.enrollments[i], c) {
      assert back.enrollments == s.enrollments;
    }
  }
}
