/**
 Storing mock interviews. A write locks the interview, changes only the fields its author owns and
 appends a version of what is then stored. WriteResult functions say what a write leaves behind in
 terms of the interview that a reader would load; MockInterviewStore does it on the tables.
 */
module MockStore {
  import opened Wrappers
  import opened MockRounds
  import opened MockInterviews

  /** The parts of a round that are stored; the rest is dropped when its kind does not use it. */
  function Persisted(r: Round): Round {
    var none := Scores(None, None, None, None, None, None, None);
    match r.kind
    case Behavioural =>
      r.(problem := "", link := "", description := "", scores := none.(behavioural := r.scores.behavioural))
    case LeetCode =>
      r.(link := "", description := "", scores := r.scores.(behavioural := None, custom := None))
    case Custom =>
      r.(problem := "", scores := none.(custom := r.scores.custom))
  }

  /** A round as it is read back from its row and subtype row. */
  function LoadedRound(id: RoundId, row: RoundRow, detail: Detail): Round {
    var none := Scores(None, None, None, None, None, None, None);
    var r := Round(id, row.kind, "", "", "", "", none, row.review.reviewed, row.review.comment);
    match detail
    case BehaviouralDetail(score, content) => r.(content := content, scores := none.(behavioural := Some(score)))
    case LeetCodeDetail(problem, a, b, c, d, e, content) =>
      r.(problem := problem, content := content,
         scores := Scores(None, Some(a), Some(b), Some(c), Some(d), Some(e), None))
    case CustomDetail(content, link, score, description) =>
      r.(content := content, link := link, description := description, scores := none.(custom := Some(score)))
  }

  /** Saving a valid round and reading it back yields its stored parts with the stored review. */
  lemma SaveThenLoad(s: Service, r: Round, interview: InterviewId, position: int, review: Review)
    requires ValidRound(s, r)
    ensures DetailOf(r).Some?
    ensures LoadedRound(r.id, RoundRow(interview, position, r.kind, review), DetailOf(r).value) ==
            Persisted(r).(reviewed := review.reviewed, comment := review.comment)
  {
  }

  // ----- what a write leaves behind -----

  /** The rounds after an edit: the requested ones, each with the review that is stored for it. */
  function Merged(stored: seq<Round>, wanted: seq<Round>): seq<Round> {
    seq(|wanted|, i requires 0 <= i < |wanted| => WithReviewOf(stored, Persisted(wanted[i])))
  }

  function UpdateResult(live: Interview, candidate: Interview): Interview {
    live.(duration := candidate.duration, notes := candidate.notes, rounds := Merged(live.rounds, candidate.rounds))
  }

  function ReviewResult(live: Interview, candidate: Interview, roundId: RoundId): Option<Interview> {
    var from, to := FirstIndex(candidate.rounds, roundId), FirstIndex(live.rounds, roundId);
    if from == |candidate.rounds| || to == |live.rounds| then None
    else Some(live.(rounds := live.rounds[to := live.rounds[to].(
           reviewed := candidate.rounds[from].reviewed, comment := candidate.rounds[from].comment)]))
  }

  function NotesResult(live: Interview, candidate: Interview): Interview {
    live.(intervieweeNotes := candidate.intervieweeNotes)
  }

  // ----- the tables -----

  /** An interview row; the version rows are numbered snapshots in the order they were written. */
  datatype Header = Header(
    interviewer: string, interviewee: string, occurredAt: int, duration: int, notes: string,
    intervieweeNotes: string, deletedAt: Option<int>)

  datatype Version = Version(number: int, snapshot: Interview)

  function MaxNumber(versions: seq<Version>): int {
    if versions == [] then 0
    else
      var rest := MaxNumber(versions[..|versions| - 1]);
      if versions[|versions| - 1].number > rest then versions[|versions| - 1].number else rest
  }

  function WithVersion(versions: seq<Version>, m: Interview): seq<Version> {
    versions + [Version(MaxNumber(versions) + 1, m)]
  }

  ghost predicate Numbered(versions: seq<Version>) {
    forall i | 0 <= i < |versions| :: versions[i].number == i + 1
  }

  lemma {:induction false} NumberedMax(versions: seq<Version>)
    requires Numbered(versions)
    ensures MaxNumber(versions) == |versions|
    decreases versions
  {
    if versions != [] {
      NumberedMax(versions[..|versions| - 1]);
    }
  }

  /** Appending keeps the versions numbered from 1 without a gap. */
  lemma WithVersionNumbered(versions: seq<Version>, m: Interview)
    requires Numbered(versions)
    ensures Numbered(WithVersion(versions, m))
  {
    NumberedMax(versions);
  }

  /** The rounds of an interview as stored: in order of position, each with its subtype row. */
  ghost predicate ShowsRounds(rows: Rows, details: Details, interview: InterviewId, rounds: seq<Round>) {
    EachShown(rows, details, interview, rounds) && InPositionOrder(rows, rounds) && AllShown(rows, interview, rounds)
  }

  ghost predicate EachShown(rows: Rows, details: Details, interview: InterviewId, rounds: seq<Round>) {
    forall i | 0 <= i < |rounds| ::
      && rounds[i].id in rows && rows[rounds[i].id].interview == interview
      && (rows[rounds[i].id].kind, rounds[i].id) in details
      && rounds[i] == LoadedRound(rounds[i].id, rows[rounds[i].id], details[(rows[rounds[i].id].kind, rounds[i].id)])
  }

  ghost predicate InPositionOrder(rows: Rows, rounds: seq<Round>) {
    && (forall i | 0 <= i < |rounds| :: rounds[i].id in rows)
    && (forall i, j | 0 <= i < j < |rounds| :: rows[rounds[i].id].position < rows[rounds[j].id].position)
  }

  ghost predicate HasRound(rounds: seq<Round>, id: RoundId) {
    exists i :: 0 <= i < |rounds| && rounds[i].id == id
  }

  ghost predicate AllShown(rows: Rows, interview: InterviewId, rounds: seq<Round>) {
    forall id | id in rows && rows[id].interview == interview :: HasRound(rounds, id)
  }

  predicate ShowsHeader(h: Header, m: Interview) {
    && m.interviewer == h.interviewer && m.interviewee == h.interviewee && m.occurredAt == h.occurredAt
    && m.duration == h.duration && m.notes == h.notes && m.intervieweeNotes == h.intervieweeNotes
    && m.deletedAt == h.deletedAt
  }

  lemma {:induction false} LastWithIdFound(rounds: seq<Round>, i: nat)
    requires i < |rounds| && forall a, b | 0 <= a < b < |rounds| :: rounds[a].id != rounds[b].id
    ensures LastWithId(rounds, rounds[i].id) == Some(rounds[i])
    decreases rounds
  {
    if i < |rounds| - 1 {
      LastWithIdFound(rounds[..|rounds| - 1], i);
    }
  }

  lemma {:induction false} LastWithIdMissing(rounds: seq<Round>, id: RoundId)
    requires forall i | 0 <= i < |rounds| :: rounds[i].id != id
    ensures LastWithId(rounds, id) == None
    decreases rounds
  {
    if rounds != [] {
      LastWithIdMissing(rounds[..|rounds| - 1], id);
    }
  }

  /** The stored review of a round, read through the interview that shows it. */
  lemma ReviewReadThrough(rows: Rows, details: Details, interview: InterviewId, stored: seq<Round>, r: Round)
    requires ShowsRounds(rows, details, interview, stored)
    requires r.id in rows ==> rows[r.id].interview == interview
    ensures var review := ReviewKept(rows, r.id);
            WithReviewOf(stored, r) == r.(reviewed := review.reviewed, comment := review.comment)
  {
    if r.id in rows {
      assert HasRound(stored, r.id);
      var i :| 0 <= i < |stored| && stored[i].id == r.id;
      LastWithIdFound(stored, i);
    } else {
      LastWithIdMissing(stored, r.id);
    }
  }

  /** After a reconciliation the interview shows the merged rounds. */
  lemma ReconciledShowsMerged(
    s: Service, before: Rows, beforeDetails: Details, rows: Rows, details: Details, interview: InterviewId,
    stored: seq<Round>, wanted: seq<Round>)
    requires ShowsRounds(before, beforeDetails, interview, stored)
    requires Storable(before, interview, wanted) && ValidRounds(s, wanted)
    requires Reconciled(before, beforeDetails, rows, details, interview, wanted)
    ensures ShowsRounds(rows, details, interview, Merged(stored, wanted))
  {
    var merged := Merged(stored, wanted);
    forall i | 0 <= i < |merged|
      ensures && merged[i].id == wanted[i].id
              && merged[i] == LoadedRound(wanted[i].id, rows[wanted[i].id], details[(wanted[i].kind, wanted[i].id)])
    {
      assert wanted[i] in wanted;
      var review := ReviewKept(before, wanted[i].id);
      SaveThenLoad(s, wanted[i], interview, i + 1, review);
      ReviewReadThrough(before, beforeDetails, interview, stored, Persisted(wanted[i]));
    }
    forall id | id in rows && rows[id].interview == interview
      ensures HasRound(merged, id)
    {
      var r :| r in wanted && r.id == id;
      var i :| 0 <= i < |wanted| && wanted[i] == r;
      assert merged[i].id == id;
    }
  }

  ghost predicate Increasing(rows: Rows, ids: seq<RoundId>) {
    && (forall id | id in ids :: id in rows)
    && (forall i, j | 0 <= i < j < |ids| :: rows[ids[i]].position < rows[ids[j]].position)
  }

  lemma {:induction false} IncreasingUnique(rows: Rows, a: seq<RoundId>, b: seq<RoundId>)
    requires Increasing(rows, a) && Increasing(rows, b) && forall id :: id in a <==> id in b
    ensures a == b
    decreases a
  {
    assert b != [] ==> b[0] in b;
    if a != [] {
      assert a[0] in b && b[0] in a;
      forall id
        ensures id in a[1..] <==> id in b[1..]
      {
        assert a == [a[0]] + a[1..] && b == [b[0]] + b[1..];
      }
      IncreasingUnique(rows, a[1..], b[1..]);
    }
  }

  function IdsOf(rounds: seq<Round>): seq<RoundId> {
    seq(|rounds|, i requires 0 <= i < |rounds| => rounds[i].id)
  }

  /** Two readers of the same tables read the same rounds. */
  lemma ShownRoundsUnique(rows: Rows, details: Details, interview: InterviewId, a: seq<Round>, b: seq<Round>)
    requires ShowsRounds(rows, details, interview, a) && ShowsRounds(rows, details, interview, b)
    ensures a == b
  {
    forall id
      ensures id in IdsOf(a) <==> id in IdsOf(b)
    {
      if id in rows && rows[id].interview == interview {
        assert HasRound(a, id) && HasRound(b, id);
        var i :| 0 <= i < |a| && a[i].id == id;
        var j :| 0 <= j < |b| && b[j].id == id;
        assert IdsOf(a)[i] == id && IdsOf(b)[j] == id;
      }
    }
    IncreasingUnique(rows, IdsOf(a), IdsOf(b));
    forall i | 0 <= i < |a|
      ensures a[i] == b[i]
    {
      assert IdsOf(a)[i] == IdsOf(b)[i];
    }
  }

  /** The rounds read so far: all but those left, which come later. */
  ghost predicate ShowsAllBut(
    rows: Rows, details: Details, interview: InterviewId, rounds: seq<Round>, left: set<RoundId>)
  {
    && EachShown(rows, details, interview, rounds) && InPositionOrder(rows, rounds)
    && (forall id | id in rows && rows[id].interview == interview :: id in left || HasRound(rounds, id))
    && (forall id | id in left :: id in rows && rows[id].interview == interview)
    && (forall i, id | 0 <= i < |rounds| && id in left :: rows[rounds[i].id].position < rows[id].position)
  }

  lemma ReadStep(
    rows: Rows, details: Details, interview: InterviewId, rounds: seq<Round>, left: set<RoundId>, first: RoundId)
    requires ShowsAllBut(rows, details, interview, rounds, left) && OneDetailEach(rows, details)
    requires first in left && forall id | id in left && id != first :: rows[first].position < rows[id].position
    ensures (rows[first].kind, first) in details
    ensures ShowsAllBut(rows, details, interview,
              rounds + [LoadedRound(first, rows[first], details[(rows[first].kind, first)])], left - {first})
  {
    var more := rounds + [LoadedRound(first, rows[first], details[(rows[first].kind, first)])];
    forall id | id in rows && rows[id].interview == interview
      ensures id in left - {first} || HasRound(more, id)
    {
      if id == first {
        assert more[|rounds|].id == id;
      } else if id !in left {
        var i :| 0 <= i < |rounds| && rounds[i].id == id;
        assert more[i].id == id;
      }
    }
  }

  /** The reviewed round is stored for this interview exactly when the interview shows it. */
  lemma ReviewTarget(rows: Rows, details: Details, interview: InterviewId, rounds: seq<Round>, roundId: RoundId)
    requires ShowsRounds(rows, details, interview, rounds)
    ensures FirstIndex(rounds, roundId) < |rounds| <==> roundId in rows && rows[roundId].interview == interview
  {
  }

  function WithReview(rounds: seq<Round>, to: nat, review: Review): seq<Round>
    requires to < |rounds|
  {
    rounds[to := rounds[to].(reviewed := review.reviewed, comment := review.comment)]
  }

  lemma ReviewShows(
    rows: Rows, details: Details, interview: InterviewId, rounds: seq<Round>, to: nat, review: Review)
    requires ShowsRounds(rows, details, interview, rounds) && to < |rounds|
    ensures ShowsRounds(rows[rounds[to].id := rows[rounds[to].id].(review := review)], details, interview,
                        WithReview(rounds, to, review))
  {
    var id := rounds[to].id;
    var rows' := rows[id := rows[id].(review := review)];
    var after := WithReview(rounds, to, review);
    assert forall i | 0 <= i < |rounds| :: after[i].id == rounds[i].id;
    ReviewShowsEach(rows, details, interview, rounds, to, review);
    assert InPositionOrder(rows', after);
    forall other | other in rows' && rows'[other].interview == interview
      ensures HasRound(after, other)
    {
      assert HasRound(rounds, other);
      var i :| 0 <= i < |rounds| && rounds[i].id == other;
      assert after[i].id == other;
    }
  }

  lemma ReviewKeepsTable(rows: Rows, details: Details, id: RoundId, review: Review)
    requires ValidTable(rows, details) && id in rows
    ensures var rows' := rows[id := rows[id].(review := review)];
            ValidTable(rows', details) && OtherInterviewsKept(rows, details, rows', details, rows[id].interview)
  {
  }

  /** Copying the review of the candidate's round into the stored round. */
  lemma ReviewResultIs(live: Interview, v: Interview, roundId: RoundId, review: Review)
    requires FirstIndex(v.rounds, roundId) < |v.rounds| && FirstIndex(live.rounds, roundId) < |live.rounds|
    requires var r := v.rounds[FirstIndex(v.rounds, roundId)];
             review.reviewed == r.reviewed && review.comment == r.comment
    ensures ReviewResult(live, v, roundId) ==
            Some(live.(rounds := WithReview(live.rounds, FirstIndex(live.rounds, roundId), review)))
  {
  }

  lemma ReviewShowsEach(
    rows: Rows, details: Details, interview: InterviewId, rounds: seq<Round>, to: nat, review: Review)
    requires EachShown(rows, details, interview, rounds) && InPositionOrder(rows, rounds) && to < |rounds|
    ensures EachShown(rows[rounds[to].id := rows[rounds[to].id].(review := review)], details, interview,
                      WithReview(rounds, to, review))
  {
  }

  // ----- the store -----

  /** Why a write is refused before it changes anything. */
  function Refusal(headers: map<InterviewId, Header>, v: Interview): Option<WriteResult> {
    if v.id !in headers || headers[v.id].deletedAt.Some? then Some(NotFound)
    else if headers[v.id].occurredAt != v.occurredAt then Some(Conflict)
    else None
  }

  function VersionsOf(versions: map<InterviewId, seq<Version>>, id: InterviewId): seq<Version> {
    if id in versions then versions[id] else []
  }

  datatype WriteResult = Written(stored: Interview) | NotFound | Conflict | Unstorable

  class MockInterviewStore {
    const table: RoundTable
    var headers: map<InterviewId, Header>
    var versions: map<InterviewId, seq<Version>>

    ghost predicate Valid()
      reads this, table
    {
      && ValidTable(table.rows, table.details)
      && (forall id | id in versions :: Numbered(versions[id]))
    }

    /** What a reader of the tables sees. */
    ghost predicate Shows(m: Interview)
      reads this, table
    {
      m.id in headers && ShowsHeader(headers[m.id], m) && ShowsRounds(table.rows, table.details, m.id, m.rounds)
    }

    /** Everything that belongs to other interviews. */
    ghost predicate OthersKept(
      id: InterviewId, rows: Rows, details: Details, oldHeaders: map<InterviewId, Header>,
      oldVersions: map<InterviewId, seq<Version>>)
      reads this, table
    {
      && OtherInterviewsKept(rows, details, table.rows, table.details, id)
      && (forall other | other != id ::
            && (other in oldHeaders <==> other in headers)
            && (other in oldHeaders ==> headers[other] == oldHeaders[other])
            && (other in oldVersions <==> other in versions)
            && (other in oldVersions ==> versions[other] == oldVersions[other]))
    }

    constructor (table: RoundTable, headers: map<InterviewId, Header>, versions: map<InterviewId, seq<Version>>)
      ensures this.table == table && this.headers == headers && this.versions == versions
    {
      this.table, this.headers, this.versions := table, headers, versions;
    }

    method LoadMockInterview(id: InterviewId) returns (r: Option<Interview>)
      requires Valid()
      ensures r.None? <==> id !in headers || headers[id].deletedAt.Some?
      ensures r.Some? ==> r.value.id == id && Shows(r.value)
    {
      if id !in headers || headers[id].deletedAt.Some? {
        return None;
      }
      var rounds: seq<Round> := [];
      var left := set rid | rid in table.rows && table.rows[rid].interview == id;
      while left != {}
        invariant ShowsAllBut(table.rows, table.details, id, rounds, left)
        decreases left
      {
        var rid := FirstByPosition(id, left);
        ReadStep(table.rows, table.details, id, rounds, left, rid);
        var row := table.rows[rid];
        rounds := rounds + [LoadedRound(rid, row, table.details[(row.kind, rid)])];
        left := left - {rid};
      }
      assert ShowsRounds(table.rows, table.details, id, rounds);
      var h := headers[id];
      return Some(Interview(id, h.interviewer, h.interviewee, h.occurredAt, h.duration, h.notes, h.intervieweeNotes,
                            rounds, h.deletedAt));
    }

    /** Locks the interview for a write and checks that it can still be written. */
    method Lock(v: Interview) returns (refusal: Option<WriteResult>)
      ensures refusal == Refusal(headers, v)
    {
      if v.id !in headers || headers[v.id].deletedAt.Some? {
        return Some(NotFound);
      }
      if headers[v.id].occurredAt != v.occurredAt {
        return Some(Conflict);
      }
      return None;
    }

    /** Appends the version that records what is now stored. */
    method AppendVersion(m: Interview)
      modifies this`versions
      ensures versions == old(versions)[m.id := WithVersion(VersionsOf(old(versions), m.id), m)]
    {
      var earlier := if m.id in versions then versions[m.id] else [];
      versions := versions[m.id := earlier + [Version(MaxNumber(earlier) + 1, m)]];
    }

    /** Reads back what is stored and records it as the newest version. */
    method RecordStored(id: InterviewId, ghost expected: Interview) returns (m: Interview)
      requires Valid() && expected.id == id && Shows(expected) && expected.deletedAt.None?
      modifies this`versions
      ensures Valid() && m == expected && Shows(m)
      ensures versions == old(versions)[id := WithVersion(VersionsOf(old(versions), id), m)]
    {
      var loaded := LoadMockInterview(id);
      m := loaded.value;
      ShownRoundsUnique(table.rows, table.details, id, m.rounds, expected.rounds);
      WithVersionNumbered(VersionsOf(versions, id), m);
      AppendVersion(m);
    }

    /** Saves the fields the interviewer owns and reconciles the rounds. */
    method UpdateMockInterview(ghost s: Service, v: Interview, ghost live: Interview) returns (r: WriteResult)
      requires Valid() && ValidRounds(s, v.rounds)
      requires v.id in headers ==> live.id == v.id && Shows(live)
      modifies this, table
      ensures Valid()
      ensures !r.Written? ==> headers == old(headers) && versions == old(versions)
                              && table.rows == old(table.rows) && table.details == old(table.details)
      ensures r == if Refusal(old(headers), v).Some? then Refusal(old(headers), v).value
                   else if !Storable(old(table.rows), v.id, v.rounds) then Unstorable
                   else Written(UpdateResult(live, v))
      ensures r.Written? ==>
                && Shows(UpdateResult(live, v))
                && versions ==
                   old(versions)[v.id := WithVersion(VersionsOf(old(versions), v.id), UpdateResult(live, v))]
                && OthersKept(v.id, old(table.rows), old(table.details), old(headers), old(versions))
    {
      var refusal := Lock(v);
      if refusal.Some? {
        return refusal.value;
      }
      var rows, details := table.rows, table.details;
      var ok := table.ReconcileMockRounds(v.id, v.rounds);
      if !ok {
        table.rows, table.details := rows, details;
        return Unstorable;
      }
      headers := headers[v.id := headers[v.id].(duration := v.duration, notes := v.notes)];
      ReconciledShowsMerged(s, rows, details, table.rows, table.details, v.id, live.rounds, v.rounds);
      var m := RecordStored(v.id, UpdateResult(live, v));
      return Written(m);
    }

    /** Saves the interviewee's review of one round. */
    method ReviewMockInterviewRound(v: Interview, roundId: RoundId, at: int, ghost live: Interview)
      returns (r: WriteResult)
      requires Valid()
      requires v.id in headers ==> live.id == v.id && Shows(live)
      modifies this, table
      ensures Valid()
      ensures !r.Written? ==> headers == old(headers) && versions == old(versions)
                              && table.rows == old(table.rows) && table.details == old(table.details)
      ensures Refusal(old(headers), v).Some? ==> r == Refusal(old(headers), v).value
      ensures Refusal(old(headers), v).None? ==>
                (r.Written? <==> ReviewResult(live, v, roundId).Some?)
                && (r.Written? ==> r.stored == ReviewResult(live, v, roundId).value)
      ensures r.Written? ==>
                && Shows(r.stored)
                && versions == old(versions)[v.id := WithVersion(VersionsOf(old(versions), v.id), r.stored)]
                && OthersKept(v.id, old(table.rows), old(table.details), old(headers), old(versions))
    {
      var refusal := Lock(v);
      if refusal.Some? {
        return refusal.value;
      }
      var from := FirstIndex(v.rounds, roundId);
      if from == |v.rounds| {
        return Unstorable;
      }
      ReviewTarget(table.rows, table.details, v.id, live.rounds, roundId);
      if roundId !in table.rows || table.rows[roundId].interview != v.id {
        return NotFound;
      }
      var review := Review(v.rounds[from].reviewed, v.rounds[from].comment,
                           if v.rounds[from].reviewed then Some(at) else None);
      ReviewResultIs(live, v, roundId, review);
      StoreReview(v.id, roundId, review, live);
      var m := RecordStored(v.id, ReviewResult(live, v, roundId).value);
      return Written(m);
    }

    method StoreReview(id: InterviewId, roundId: RoundId, review: Review, ghost live: Interview)
      requires Valid() && live.id == id && Shows(live)
      requires roundId in table.rows && table.rows[roundId].interview == id
      modifies table`rows
      ensures Valid()
      ensures FirstIndex(live.rounds, roundId) < |live.rounds|
      ensures Shows(live.(rounds := WithReview(live.rounds, FirstIndex(live.rounds, roundId), review)))
      ensures OtherInterviewsKept(old(table.rows), old(table.details), table.rows, table.details, id)
    {
      ReviewTarget(table.rows, table.details, id, live.rounds, roundId);
      ReviewKeepsTable(table.rows, table.details, roundId, review);
      ReviewShows(table.rows, table.details, id, live.rounds, FirstIndex(live.rounds, roundId), review);
      table.rows := table.rows[roundId := table.rows[roundId].(review := review)];
    }

    /** Saves the interviewee's overall notes. */
    method SetMockIntervieweeNotes(v: Interview, ghost live: Interview) returns (r: WriteResult)
      requires Valid()
      requires v.id in headers ==> live.id == v.id && Shows(live)
      modifies this
      ensures Valid()
      ensures !r.Written? ==> headers == old(headers) && versions == old(versions)
      ensures r == if Refusal(old(headers), v).Some? then Refusal(old(headers), v).value
                   else Written(NotesResult(live, v))
      ensures r.Written? ==>
                && Shows(NotesResult(live, v))
                && versions == old(versions)[v.id := WithVersion(VersionsOf(old(versions), v.id), NotesResult(live, v))]
                && OthersKept(v.id, old(table.rows), old(table.details), old(headers), old(versions))
    {
      var refusal := Lock(v);
      if refusal.Some? {
        return refusal.value;
      }
      headers := headers[v.id := headers[v.id].(intervieweeNotes := v.intervieweeNotes)];
      var m := RecordStored(v.id, NotesResult(live, v));
      return Written(m);
    }

    /** Marks the interview deleted; its last version is the interview as its author had read it. */
    method DeleteMockInterview(v: Interview, ghost live: Interview) returns (r: WriteResult)
      requires Valid() && v.deletedAt.Some?
      requires v.id in headers ==> live.id == v.id && Shows(live)
      modifies this
      ensures Valid()
      ensures !r.Written? ==> headers == old(headers) && versions == old(versions)
      ensures r == if Refusal(old(headers), v).Some? then Refusal(old(headers), v).value else Written(v)
      ensures r.Written? ==>
                && Shows(live.(deletedAt := v.deletedAt))
                && versions == old(versions)[v.id := WithVersion(VersionsOf(old(versions), v.id), v)]
                && OthersKept(v.id, old(table.rows), old(table.details), old(headers), old(versions))
    {
      var refusal := Lock(v);
      if refusal.Some? {
        return refusal.value;
      }
      headers := headers[v.id := headers[v.id].(deletedAt := v.deletedAt)];
      WithVersionNumbered(VersionsOf(versions, v.id), v);
      AppendVersion(v);
      return Written(v);
    }

    method FirstByPosition(id: InterviewId, left: set<RoundId>) returns (first: RoundId)
      requires Valid() && left != {}
      requires forall rid | rid in left :: rid in table.rows && table.rows[rid].interview == id
      ensures first in left
      ensures forall rid | rid in left && rid != first :: table.rows[first].position < table.rows[rid].position
    {
      first :| first in left;
      var rest := left - {first};
      while rest != {}
        invariant first in left && first !in rest && rest <= left
        invariant forall rid | rid in left && rid !in rest && rid != first ::
                    table.rows[first].position < table.rows[rid].position
        decreases rest
      {
        var rid :| rid in rest;
        rest := rest - {rid};
        if table.rows[rid].position < table.rows[first].position {
          first := rid;
        }
      }
    }
  }
}
