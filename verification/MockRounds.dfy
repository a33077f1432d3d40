/**
 Reconciling the stored rounds of a mock interview with the rounds an edit asks for. The table
 refuses, statement by statement and row by row, two rounds of one interview at one position, so
 a reconciliation that is never refused never had two rounds at one position.
 */
module MockRounds {
  import opened Wrappers

  type RoundId = string
  type InterviewId = string

  datatype Kind = Behavioural | LeetCode | Custom

  datatype Scores = Scores(
    behavioural: Option<int>, confirmQuestions: Option<int>, algorithmDesign: Option<int>,
    complexityAnalysis: Option<int>, coding: Option<int>, testing: Option<int>, custom: Option<int>)

  /** A round as the service and its callers see it. */
  datatype Round = Round(
    id: RoundId, kind: Kind, problem: string, content: string, link: string, description: string,
    scores: Scores, reviewed: bool, comment: string)

  /** The interviewee's part of a round. */
  datatype Review = Review(reviewed: bool, comment: string, reviewedAt: Option<int>)

  const PENDING := Review(false, "", None)

  datatype RoundRow = RoundRow(interview: InterviewId, position: int, kind: Kind, review: Review)

  /** The row of the subtype table that belongs to the round's kind. */
  datatype Detail =
    | BehaviouralDetail(score: int, content: string)
    | LeetCodeDetail(problem: string, confirm: int, algorithm: int, complexity: int, coding: int, testing: int,
                     content: string)
    | CustomDetail(content: string, link: string, score: int, description: string)

  /** The subtype row that saves a round, or none when a score is missing. */
  function DetailOf(r: Round): Option<Detail> {
    var s := r.scores;
    match r.kind
    case Behavioural =>
      if s.behavioural.None? then None else Some(BehaviouralDetail(s.behavioural.value, r.content))
    case LeetCode =>
      if s.confirmQuestions.None? || s.algorithmDesign.None? || s.complexityAnalysis.None? || s.coding.None?
         || s.testing.None?
      then None
      else Some(LeetCodeDetail(r.problem, s.confirmQuestions.value, s.algorithmDesign.value,
                               s.complexityAnalysis.value, s.coding.value, s.testing.value, r.content))
    case Custom =>
      if s.custom.None? then None else Some(CustomDetail(r.content, r.link, s.custom.value, r.description))
  }

  type Rows = map<RoundId, RoundRow>
  type Details = map<(Kind, RoundId), Detail>

  // ----- what the schema guarantees -----

  ghost predicate PositionsUnique(rows: Rows) {
    forall a, b | a in rows && b in rows && rows[a].interview == rows[b].interview
      && rows[a].position == rows[b].position :: a == b
  }

  /** Every round has exactly the subtype row of its kind. */
  ghost predicate OneDetailEach(rows: Rows, details: Details) {
    && (forall id | id in rows :: (rows[id].kind, id) in details)
    && (forall key | key in details :: key.1 in rows && rows[key.1].kind == key.0)
  }

  ghost predicate ValidTable(rows: Rows, details: Details) {
    && PositionsUnique(rows) && OneDetailEach(rows, details)
    && (forall id | id in rows :: rows[id].position >= 1)
  }

  predicate Taken(rows: Rows, id: RoundId, interview: InterviewId, position: int) {
    exists other | other in rows && other != id ::
      rows[other].interview == interview && rows[other].position == position
  }

  // ----- the outcome -----

  ghost predicate DistinctIds(rounds: seq<Round>) {
    forall i, j | 0 <= i < j < |rounds| :: rounds[i].id != rounds[j].id
  }

  /** The requested rounds can be stored: their scores are present and their ids are not another interview's. */
  ghost predicate Storable(rows: Rows, interview: InterviewId, wanted: seq<Round>) {
    forall r | r in wanted ::
      DetailOf(r).Some? && (r.id in rows ==> rows[r.id].interview == interview)
  }

  function ReviewKept(rows: Rows, id: RoundId): Review {
    if id in rows then rows[id].review else PENDING
  }

  /** The stored rounds of the interview are exactly the requested ones, at positions 1 to n. */
  ghost predicate Reconciled(
    before: Rows, beforeDetails: Details, rows: Rows, details: Details, interview: InterviewId, wanted: seq<Round>)
  {
    && (forall i | 0 <= i < |wanted| ::
          && wanted[i].id in rows
          && rows[wanted[i].id] == RoundRow(interview, i + 1, wanted[i].kind, ReviewKept(before, wanted[i].id))
          && (wanted[i].kind, wanted[i].id) in details
          && DetailOf(wanted[i]) == Some(details[(wanted[i].kind, wanted[i].id)]))
    && (forall id | id in rows && rows[id].interview == interview :: exists r | r in wanted :: r.id == id)
    && OtherInterviewsKept(before, beforeDetails, rows, details, interview)
  }

  ghost predicate OtherInterviewsKept(
    before: Rows, beforeDetails: Details, rows: Rows, details: Details, interview: InterviewId)
  {
    && (forall id | id in before && before[id].interview != interview :: id in rows && rows[id] == before[id])
    && (forall id | id in rows && rows[id].interview != interview :: id in before && before[id] == rows[id])
    && (forall key | key in beforeDetails && key.1 in before && before[key.1].interview != interview ::
          key in details && details[key] == beforeDetails[key])
  }

  // ----- the tables -----

  class RoundTable {
    var rows: Rows
    var details: Details

    constructor (rows: Rows, details: Details)
      ensures this.rows == rows && this.details == details
    {
      this.rows, this.details := rows, details;
    }

    /** Reads the rounds of an interview, in no particular order. */
    method SelectRounds(interview: InterviewId) returns (ids: seq<RoundId>)
      ensures Distinct(ids)
      ensures forall id :: id in ids <==> id in rows && rows[id].interview == interview
    {
      ids := [];
      var left := set id | id in rows && rows[id].interview == interview;
      while left != {}
        invariant Distinct(ids)
        invariant forall id | id in ids :: id !in left
        invariant forall id :: id in ids || id in left <==> id in rows && rows[id].interview == interview
        decreases left
      {
        var id :| id in left;
        ids := ids + [id];
        left := left - {id};
      }
    }

    /** The subtype rows go with their round. */
    method DeleteRound(id: RoundId)
      modifies this
      ensures rows == old(rows) - {id}
      ensures details == map key | key in old(details) && key.1 != id :: old(details)[key]
    {
      details := map key | key in details && key.1 != id :: details[key];
      rows := rows - {id};
    }

    /** Moves every round of the interview, checking each row as it is written, in any order. */
    method ShiftPositions(interview: InterviewId, shift: int) returns (ok: bool)
      requires PositionsUnique(rows)
      modifies this`rows
      ensures PositionsUnique(rows)
      ensures ClearAway(old(rows), interview, shift) ==> ok
      ensures ok ==> rows == Shifted(old(rows), interview, shift)
    {
      var left := set id | id in rows && rows[id].interview == interview;
      while left != {}
        invariant PositionsUnique(rows)
        invariant PartlyShifted(old(rows), rows, left, interview, shift)
        decreases left
      {
        var id :| id in left;
        var moved := rows[id].(position := rows[id].position + shift);
        if Taken(rows, id, interview, moved.position) {
          PartlyShiftedIsFree(old(rows), rows, left, interview, shift, id);
          return false;
        }
        PositionWritten(rows, id, moved);
        rows := rows[id := moved];
        left := left - {id};
      }
      return true;
    }

    method InsertRound(id: RoundId, row: RoundRow) returns (ok: bool)
      requires PositionsUnique(rows)
      modifies this`rows
      ensures ok == (id !in old(rows) && row.position > 0 && !Taken(old(rows), id, row.interview, row.position))
      ensures rows == if ok then old(rows)[id := row] else old(rows)
      ensures PositionsUnique(rows)
    {
      ok := id !in rows && row.position > 0 && !Taken(rows, id, row.interview, row.position);
      if ok {
        rows := rows[id := row];
      }
    }

    method UpdateRound(id: RoundId, position: int, kind: Kind) returns (ok: bool)
      requires PositionsUnique(rows)
      modifies this`rows
      ensures ok == (id in old(rows) ==> position > 0 && !Taken(old(rows), id, old(rows)[id].interview, position))
      ensures rows == if ok && id in old(rows)
                      then old(rows)[id := old(rows)[id].(position := position, kind := kind)] else old(rows)
      ensures PositionsUnique(rows)
    {
      if id !in rows {
        return true;
      }
      ok := position > 0 && !Taken(rows, id, rows[id].interview, position);
      if ok {
        rows := rows[id := rows[id].(position := position, kind := kind)];
      }
    }

    method DeleteDetail(kind: Kind, id: RoundId)
      modifies this`details
      ensures details == old(details) - {(kind, id)}
    {
      details := details - {(kind, id)};
    }

    /** Inserts or replaces a subtype row; its parent must exist and be of its kind. */
    method SaveDetail(round: Round) returns (ok: bool)
      modifies this`details
      ensures ok == (DetailOf(round).Some? && round.id in rows && rows[round.id].kind == round.kind)
      ensures details == if ok then old(details)[(round.kind, round.id) := DetailOf(round).value] else old(details)
    {
      var detail := DetailOf(round);
      ok := detail.Some? && round.id in rows && rows[round.id].kind == round.kind;
      if ok {
        details := details[(round.kind, round.id) := detail.value];
      }
    }

    /** Removes the rounds that are no longer wanted. */
    method DeleteUnwanted(interview: InterviewId, existing: seq<RoundId>, kept: set<RoundId>)
      requires Distinct(existing) && forall id :: id in existing <==> id in rows && rows[id].interview == interview
      requires ValidTable(rows, details)
      modifies this
      ensures ValidTable(rows, details)
      ensures rows == map id | id in old(rows) && (id in kept || old(rows)[id].interview != interview) :: old(rows)[id]
      ensures DetailsPruned(old(details), rows, details)
    {
      var i := 0;
      while i < |existing|
        invariant 0 <= i <= |existing|
        invariant ValidTable(rows, details)
        invariant rows == Pruned(old(rows), existing[..i], kept)
        invariant DetailsPruned(old(details), rows, details)
      {
        PrunedStep(old(rows), existing, i, kept);
        if existing[i] !in kept {
          DeleteRound(existing[i]);
        }
        i := i + 1;
      }
      assert existing[..|existing|] == existing;
    }

    /** Notes the kind of each stored round and the highest position in use. */
    method IndexExisting(interview: InterviewId, existing: seq<RoundId>, count: nat)
      returns (byId: map<RoundId, Kind>, maxPosition: int)
      requires forall id :: id in existing <==> id in rows && rows[id].interview == interview
      ensures IndexOf(rows, interview, byId)
      ensures maxPosition >= count && forall id | id in byId :: rows[id].position <= maxPosition
    {
      byId, maxPosition := map[], count;
      var e := 0;
      while e < |existing|
        invariant 0 <= e <= |existing|
        invariant maxPosition >= count
        invariant forall id :: id in byId <==> id in existing[..e]
        invariant forall id | id in byId :: byId[id] == rows[id].kind && rows[id].position <= maxPosition
      {
        byId := byId[existing[e] := rows[existing[e]].kind];
        if rows[existing[e]].position > maxPosition {
          maxPosition := rows[existing[e]].position;
        }
        assert existing[..e + 1] == existing[..e] + [existing[e]];
        e := e + 1;
      }
      assert existing[..|existing|] == existing;
    }

    /** Notes which rounds stay and whether any of them has to move. */
    method Compare(interview: InterviewId, wanted: seq<Round>, byId: map<RoundId, Kind>)
      returns (kept: set<RoundId>, reordered: bool)
      requires IndexOf(rows, interview, byId)
      ensures kept == set j | 0 <= j < |wanted| :: wanted[j].id
      ensures reordered <==> exists j :: 0 <= j < |wanted| && Moved(rows, interview, wanted, j)
    {
      kept, reordered := {}, false;
      var w := 0;
      while w < |wanted|
        invariant 0 <= w <= |wanted|
        invariant kept == set j | 0 <= j < w :: wanted[j].id
        invariant reordered <==> exists j :: 0 <= j < w && Moved(rows, interview, wanted, j)
      {
        kept := kept + {wanted[w].id};
        if wanted[w].id in byId && rows[wanted[w].id].position != w + 1 {
          assert Moved(rows, interview, wanted, w);
          reordered := true;
        }
        w := w + 1;
      }
    }

    /**
     The whole reconciliation. It is refused only for a missing score or an id of another
     interview: no statement is ever refused for a position.
     */
    method ReconcileMockRounds(interview: InterviewId, wanted: seq<Round>) returns (ok: bool)
      requires ValidTable(rows, details) && DistinctIds(wanted)
      modifies this
      ensures ok == Storable(old(rows), interview, wanted)
      ensures ok ==> ValidTable(rows, details)
      ensures ok ==> Reconciled(old(rows), old(details), rows, details, interview, wanted)
    {
      var existing := SelectRounds(interview);
      var byId, maxPosition := IndexExisting(interview, existing, |wanted|);
      var kept, reordered := Compare(interview, wanted, byId);
      ghost var before, beforeDetails := rows, details;
      DeleteUnwanted(interview, existing, kept);
      ghost var mid := rows;
      if reordered {
        var shifted := ShiftPositions(interview, maxPosition);
        assert shifted;
      }
      StartsProgress(before, beforeDetails, mid, details, rows, interview, wanted, kept, maxPosition, reordered);
      var i := 0;
      while i < |wanted|
        invariant 0 <= i <= |wanted|
        invariant Progress(before, beforeDetails, rows, details, interview, wanted, i, reordered)
      {
        ok := WriteRound(before, beforeDetails, byId, interview, wanted, i, reordered);
        if !ok {
          assert wanted[i] in wanted;
          return false;
        }
        i := i + 1;
      }
      ProgressDone(before, beforeDetails, rows, details, interview, wanted, reordered);
      return true;
    }

    /** The body of the last loop: stores one requested round at its position. */
    method WriteRound(
      ghost before: Rows, ghost beforeDetails: Details, byId: map<RoundId, Kind>, interview: InterviewId,
      wanted: seq<Round>, i: nat, reordered: bool)
      returns (ok: bool)
      requires IndexOf(before, interview, byId)
      requires DistinctIds(wanted) && i < |wanted|
      requires Progress(before, beforeDetails, rows, details, interview, wanted, i, reordered)
      modifies this
      ensures ok == (DetailOf(wanted[i]).Some?
                     && (wanted[i].id in before ==> before[wanted[i].id].interview == interview))
      ensures ok ==> Progress(before, beforeDetails, rows, details, interview, wanted, i + 1, reordered)
    {
      ghost var rows0, details0 := rows, details;
      assert Waiting(before, rows, interview, wanted, i, reordered);
      PositionIsFree(before, beforeDetails, rows, details, interview, wanted, i, reordered);
      ok := PlaceRound(before, byId, interview, wanted[i], i + 1, reordered);
      if !ok {
        return false;
      }
      ghost var details1 := details;
      ok := SaveDetail(wanted[i]);
      if ok {
        SavedDetailReplaces(details0, details1, wanted[i], DetailOf(wanted[i]).value);
        ProgressStep(before, beforeDetails, rows0, details0, rows, details, interview, wanted, i, reordered);
      }
    }

    /** Inserts the round, or moves it and drops the subtype row of its old kind. */
    method PlaceRound(
      ghost before: Rows, byId: map<RoundId, Kind>, interview: InterviewId, round: Round, position: int,
      reordered: bool)
      returns (ok: bool)
      requires IndexOf(before, interview, byId) && position > 0
      requires PositionsUnique(rows) && OneDetailEach(rows, details) && !Taken(rows, round.id, interview, position)
      requires if round.id !in before then round.id !in rows
               else
                 && round.id in rows
                 && rows[round.id].interview == before[round.id].interview
                 && rows[round.id].kind == before[round.id].kind && rows[round.id].review == before[round.id].review
                 && (before[round.id].interview == interview && !reordered ==> rows[round.id].position == position)
      modifies this
      ensures ok == (round.id in before ==> before[round.id].interview == interview)
      ensures PositionsUnique(rows)
      ensures ok ==>
                rows == old(rows)[round.id := RoundRow(interview, position, round.kind, ReviewKept(before, round.id))]
      ensures ok ==>
                (map key | key in details && key.1 != round.id :: details[key])
                == map key | key in old(details) && key.1 != round.id :: old(details)[key]
      ensures ok ==> forall key | key in details && key.1 == round.id :: key.0 == round.kind
    {
      if round.id !in byId {
        ok := InsertRound(round.id, RoundRow(interview, position, round.kind, PENDING));
      } else {
        var oldKind := byId[round.id];
        if oldKind != round.kind {
          DeleteDetail(oldKind, round.id);
        }
        if reordered || oldKind != round.kind {
          var updated := UpdateRound(round.id, position, round.kind);
          assert updated;
        }
        ok := true;
      }
    }
  }

  /** The stored rounds of the interview with their kinds. */
  ghost predicate IndexOf(rows: Rows, interview: InterviewId, byId: map<RoundId, Kind>) {
    && (forall id :: id in byId <==> id in rows && rows[id].interview == interview)
    && (forall id | id in byId :: byId[id] == rows[id].kind)
  }

  /** The rows without those of the given rounds that are not kept. */
  function Pruned(rows: Rows, ids: seq<RoundId>, kept: set<RoundId>): Rows {
    map id | id in rows && (id in kept || id !in ids) :: rows[id]
  }

  ghost predicate DetailsPruned(before: Details, rows: Rows, details: Details) {
    forall key | key in before && key.1 in rows :: key in details && details[key] == before[key]
  }

  lemma PrunedStep(rows: Rows, ids: seq<RoundId>, i: nat, kept: set<RoundId>)
    requires i < |ids|
    ensures Pruned(rows, ids[..i + 1], kept) ==
            if ids[i] in kept then Pruned(rows, ids[..i], kept) else Pruned(rows, ids[..i], kept) - {ids[i]}
  {
  }

  /** No round lands on the old position of another. */
  ghost predicate ClearAway(rows: Rows, interview: InterviewId, shift: int) {
    forall a, b | a in rows && b in rows && rows[a].interview == interview && rows[b].interview == interview ::
      rows[a].position + shift != rows[b].position
  }

  ghost predicate PartlyShifted(before: Rows, rows: Rows, left: set<RoundId>, interview: InterviewId, shift: int) {
    && rows.Keys == before.Keys && left <= before.Keys
    && (forall id | id in left :: before[id].interview == interview)
    && (forall id | id in before :: rows[id] ==
          if id !in left && before[id].interview == interview
          then before[id].(position := before[id].position + shift) else before[id])
  }

  lemma PartlyShiftedIsFree(
    before: Rows, rows: Rows, left: set<RoundId>, interview: InterviewId, shift: int, id: RoundId)
    requires PositionsUnique(before) && PartlyShifted(before, rows, left, interview, shift) && id in left
    ensures ClearAway(before, interview, shift) ==> !Taken(rows, id, interview, rows[id].position + shift)
  {
    if ClearAway(before, interview, shift) {
      forall other | other in rows && other != id && rows[other].interview == interview
        ensures rows[other].position != rows[id].position + shift
      {
        assert before[other].interview == interview && before[id].interview == interview;
        assert before[other].position != before[id].position;
      }
    }
  }

  lemma PositionWritten(rows: Rows, id: RoundId, row: RoundRow)
    requires PositionsUnique(rows) && !Taken(rows, id, row.interview, row.position)
    ensures PositionsUnique(rows[id := row])
  {
  }

  function Shifted(rows: Rows, interview: InterviewId, shift: int): Rows {
    map id | id in rows ::
      if rows[id].interview == interview then rows[id].(position := rows[id].position + shift) else rows[id]
  }

  ghost predicate Moved(rows: Rows, interview: InterviewId, wanted: seq<Round>, j: int)
    requires 0 <= j < |wanted|
  {
    wanted[j].id in rows && rows[wanted[j].id].interview == interview && rows[wanted[j].id].position != j + 1
  }

  /** A requested round that has been written. */
  ghost predicate Written(
    before: Rows, rows: Rows, details: Details, interview: InterviewId, wanted: seq<Round>, j: int)
    requires 0 <= j < |wanted|
  {
    var r := wanted[j];
    && r.id in rows
    && rows[r.id] == RoundRow(interview, j + 1, r.kind, ReviewKept(before, r.id))
    && (r.kind, r.id) in details
    && DetailOf(r) == Some(details[(r.kind, r.id)])
    && (r.id in before ==> before[r.id].interview == interview)
  }

  /** A requested round that is still to be written: out of the way, or already in its place. */
  ghost predicate Waiting(before: Rows, rows: Rows, interview: InterviewId, wanted: seq<Round>, j: int, reordered: bool)
    requires 0 <= j < |wanted|
  {
    var id := wanted[j].id;
    if id !in before then id !in rows
    else
      && id in rows
      && rows[id].interview == before[id].interview
      && rows[id].kind == before[id].kind && rows[id].review == before[id].review
      && (before[id].interview == interview ==>
            if reordered then rows[id].position > |wanted| else rows[id].position == j + 1)
  }

  ghost predicate Progress(
    before: Rows, beforeDetails: Details, rows: Rows, details: Details, interview: InterviewId, wanted: seq<Round>,
    i: int, reordered: bool)
  {
    && 0 <= i <= |wanted|
    && ValidTable(rows, details)
    && (forall j | 0 <= j < i :: Written(before, rows, details, interview, wanted, j))
    && (forall j | i <= j < |wanted| :: Waiting(before, rows, interview, wanted, j, reordered))
    && (forall id | id in rows && rows[id].interview == interview :: exists r | r in wanted :: r.id == id)
    && OtherInterviewsKept(before, beforeDetails, rows, details, interview)
  }

  lemma AllWaiting(
    before: Rows, rows: Rows, interview: InterviewId, wanted: seq<Round>, kept: set<RoundId>, maxPosition: int,
    reordered: bool)
    requires maxPosition >= |wanted| && forall id | id in before :: before[id].position >= 1
    requires kept == set j | 0 <= j < |wanted| :: wanted[j].id
    requires var mid := map id | id in before && (id in kept || before[id].interview != interview) :: before[id];
             rows == if reordered then Shifted(mid, interview, maxPosition) else mid
    requires !reordered ==> forall j | 0 <= j < |wanted| :: !Moved(before, interview, wanted, j)
    ensures forall j | 0 <= j < |wanted| :: Waiting(before, rows, interview, wanted, j, reordered)
  {
    forall j | 0 <= j < |wanted|
      ensures Waiting(before, rows, interview, wanted, j, reordered)
    {
      assert wanted[j].id in kept;
      assert !reordered ==> !Moved(before, interview, wanted, j);
    }
  }

  /** Rows left after the deletions, all of them where they should be or all of them shifted away. */
  lemma StartsProgress(
    before: Rows, beforeDetails: Details, mid: Rows, details: Details, rows: Rows, interview: InterviewId,
    wanted: seq<Round>, kept: set<RoundId>, maxPosition: int, reordered: bool)
    requires ValidTable(mid, details) && PositionsUnique(rows) && maxPosition >= |wanted|
    requires forall id | id in before :: before[id].position >= 1
    requires kept == set j | 0 <= j < |wanted| :: wanted[j].id
    requires mid == map id | id in before && (id in kept || before[id].interview != interview) :: before[id]
    requires DetailsPruned(beforeDetails, mid, details)
    requires rows == if reordered then Shifted(mid, interview, maxPosition) else mid
    requires !reordered ==> forall j | 0 <= j < |wanted| :: !Moved(before, interview, wanted, j)
    ensures Progress(before, beforeDetails, rows, details, interview, wanted, 0, reordered)
  {
    AllWaiting(before, rows, interview, wanted, kept, maxPosition, reordered);
    forall id | id in rows && rows[id].interview == interview
      ensures exists r | r in wanted :: r.id == id
    {
      var j :| 0 <= j < |wanted| && wanted[j].id == id;
      assert wanted[j] in wanted;
    }
  }

  /** The position a round is about to get is free: nothing waiting or written sits there. */
  lemma PositionIsFree(
    before: Rows, beforeDetails: Details, rows: Rows, details: Details, interview: InterviewId, wanted: seq<Round>,
    i: int, reordered: bool)
    requires DistinctIds(wanted) && i < |wanted|
    requires Progress(before, beforeDetails, rows, details, interview, wanted, i, reordered)
    ensures !Taken(rows, wanted[i].id, interview, i + 1)
  {
    forall other | other in rows && other != wanted[i].id && rows[other].interview == interview
      ensures rows[other].position != i + 1
    {
      var r :| r in wanted && r.id == other;
      var j :| 0 <= j < |wanted| && wanted[j] == r;
      if j < i {
        assert Written(before, rows, details, interview, wanted, j);
      } else {
        assert Waiting(before, rows, interview, wanted, j, reordered);
      }
    }
  }

  /** Writing one requested round with its subtype row. */
  ghost predicate Writes(
    before: Rows, rows: Rows, details: Details, rows': Rows, details': Details, interview: InterviewId, r: Round,
    position: int)
  {
    && DetailOf(r).Some?
    && rows' == rows[r.id := RoundRow(interview, position, r.kind, ReviewKept(before, r.id))]
    && details' == (map key | key in details && key.1 != r.id :: details[key])[(r.kind, r.id) := DetailOf(r).value]
  }

  lemma SavedDetailReplaces(before: Details, details: Details, r: Round, detail: Detail)
    requires (map key | key in details && key.1 != r.id :: details[key])
             == map key | key in before && key.1 != r.id :: before[key]
    requires forall key | key in details && key.1 == r.id :: key.0 == r.kind
    ensures details[(r.kind, r.id) := detail]
            == (map key | key in before && key.1 != r.id :: before[key])[(r.kind, r.id) := detail]
  {
    var others := map key | key in details && key.1 != r.id :: details[key];
    assert details[(r.kind, r.id) := detail] == others[(r.kind, r.id) := detail];
  }

  lemma WriteKeepsDetails(
    before: Rows, rows: Rows, details: Details, rows': Rows, details': Details, interview: InterviewId, r: Round,
    position: int)
    requires OneDetailEach(rows, details) && Writes(before, rows, details, rows', details', interview, r, position)
    ensures OneDetailEach(rows', details')
  {
  }

  lemma WriteKeepsOthers(
    before: Rows, beforeDetails: Details, rows: Rows, details: Details, rows': Rows, details': Details,
    interview: InterviewId, r: Round, position: int)
    requires OtherInterviewsKept(before, beforeDetails, rows, details, interview)
    requires r.id in before ==> before[r.id].interview == interview
    requires r.id in rows ==> rows[r.id].interview == interview
    requires Writes(before, rows, details, rows', details', interview, r, position)
    ensures OtherInterviewsKept(before, beforeDetails, rows', details', interview)
  {
  }

  lemma WriteKeepsRounds(
    before: Rows, rows: Rows, details: Details, rows': Rows, details': Details, interview: InterviewId,
    wanted: seq<Round>, i: int, reordered: bool)
    requires DistinctIds(wanted) && 0 <= i < |wanted|
    requires forall j | 0 <= j < i :: Written(before, rows, details, interview, wanted, j)
    requires forall j | i <= j < |wanted| :: Waiting(before, rows, interview, wanted, j, reordered)
    requires wanted[i].id in before ==> before[wanted[i].id].interview == interview
    requires Writes(before, rows, details, rows', details', interview, wanted[i], i + 1)
    ensures forall j | 0 <= j < i + 1 :: Written(before, rows', details', interview, wanted, j)
    ensures forall j | i + 1 <= j < |wanted| :: Waiting(before, rows', interview, wanted, j, reordered)
  {
    forall j | 0 <= j < i + 1
      ensures Written(before, rows', details', interview, wanted, j)
    {
      if j < i {
        assert Written(before, rows, details, interview, wanted, j) && wanted[j].id != wanted[i].id;
      }
    }
    forall j | i + 1 <= j < |wanted|
      ensures Waiting(before, rows', interview, wanted, j, reordered)
    {
      assert Waiting(before, rows, interview, wanted, j, reordered) && wanted[j].id != wanted[i].id;
    }
  }

  /** It moves the round from waiting to written. */
  lemma ProgressStep(
    before: Rows, beforeDetails: Details, rows: Rows, details: Details, rows': Rows, details': Details,
    interview: InterviewId, wanted: seq<Round>, i: int, reordered: bool)
    requires DistinctIds(wanted) && i < |wanted|
    requires Progress(before, beforeDetails, rows, details, interview, wanted, i, reordered)
    requires wanted[i].id in before ==> before[wanted[i].id].interview == interview
    requires Writes(before, rows, details, rows', details', interview, wanted[i], i + 1)
    requires PositionsUnique(rows')
    ensures Progress(before, beforeDetails, rows', details', interview, wanted, i + 1, reordered)
  {
    var id := wanted[i].id;
    assert Waiting(before, rows, interview, wanted, i, reordered);
    WriteKeepsDetails(before, rows, details, rows', details', interview, wanted[i], i + 1);
    WriteKeepsOthers(before, beforeDetails, rows, details, rows', details', interview, wanted[i], i + 1);
    WriteKeepsRounds(before, rows, details, rows', details', interview, wanted, i, reordered);
    forall other | other in rows' && rows'[other].interview == interview
      ensures exists r | r in wanted :: r.id == other
    {
      assert other == id ==> wanted[i] in wanted;
    }
  }

  lemma ProgressDone(
    before: Rows, beforeDetails: Details, rows: Rows, details: Details, interview: InterviewId, wanted: seq<Round>,
    reordered: bool)
    requires Progress(before, beforeDetails, rows, details, interview, wanted, |wanted|, reordered)
    ensures Storable(before, interview, wanted)
    ensures Reconciled(before, beforeDetails, rows, details, interview, wanted)
  {
    forall i | 0 <= i < |wanted|
      ensures && wanted[i].id in rows
              && rows[wanted[i].id] == RoundRow(interview, i + 1, wanted[i].kind, ReviewKept(before, wanted[i].id))
              && (wanted[i].kind, wanted[i].id) in details
              && DetailOf(wanted[i]) == Some(details[(wanted[i].kind, wanted[i].id)])
    {
      assert Written(before, rows, details, interview, wanted, i);
    }
    forall r | r in wanted
      ensures DetailOf(r).Some? && (r.id in before ==> before[r.id].interview == interview)
    {
      var j :| 0 <= j < |wanted| && wanted[j] == r;
      assert Written(before, rows, details, interview, wanted, j);
    }
  }
}
