/**
 The rules of mock interviews. The interviewer owns duration, notes and rounds; the interviewee
 owns the review of each round and the overall notes. Each function says what a rule yields, and
 the methods compute it on copied rounds, element by element.
 */
module MockInterviews {
  import opened Wrappers
  import opened MockRounds

  datatype Interview = Interview(
    id: InterviewId, interviewer: string, interviewee: string, occurredAt: int, duration: int, notes: string,
    intervieweeNotes: string, rounds: seq<Round>, deletedAt: Option<int>)

  /** Sanitizing HTML and recognising web links are left to the caller. */
  datatype Service = Service(sanitize: string -> string, webLink: string -> bool, trim: string -> string)

  datatype UpdateInput = UpdateInput(occurredAt: int, duration: int, notes: string, rounds: seq<Round>)

  datatype ReviewInput = ReviewInput(roundId: RoundId, comment: string, reviewed: bool)

  datatype Failure = Forbidden | Invalid

  datatype Checked<+T> = Accepted(value: T) | Rejected(why: Failure)

  // ----- what the rules yield -----

  function CleanRound(s: Service, r: Round): Round {
    r.(content := s.sanitize(r.content),
       description := if r.kind == Custom then s.trim(r.description) else "",
       comment := s.sanitize(r.comment))
  }

  function LastWithId(rounds: seq<Round>, id: RoundId): Option<Round> {
    if rounds == [] then None
    else if rounds[|rounds| - 1].id == id then Some(rounds[|rounds| - 1])
    else LastWithId(rounds[..|rounds| - 1], id)
  }

  /** The round with the review that it has in the rounds read before. */
  function WithReviewOf(stored: seq<Round>, r: Round): Round {
    match LastWithId(stored, r.id)
    case Some(old_) => r.(reviewed := old_.reviewed, comment := old_.comment)
    case None => r.(reviewed := false, comment := "")
  }

  predicate AllNone(s: Scores, keepBehavioural: bool, keepLeetCode: bool, keepCustom: bool) {
    && (keepBehavioural || s.behavioural.None?)
    && (keepLeetCode || (s.confirmQuestions.None? && s.algorithmDesign.None? && s.complexityAnalysis.None?
                         && s.coding.None? && s.testing.None?))
    && (keepCustom || s.custom.None?)
  }

  predicate ScoreInRange(score: Option<int>) {
    score.Some? ==> 0 <= score.value <= 10
  }

  predicate ValidRound(s: Service, r: Round) {
    && (match r.kind
        case Behavioural => r.scores.behavioural.Some? && AllNone(r.scores, true, false, false)
        case LeetCode =>
          && r.problem != "" && r.scores.confirmQuestions.Some? && r.scores.algorithmDesign.Some?
          && r.scores.complexityAnalysis.Some? && r.scores.coding.Some? && r.scores.testing.Some?
          && AllNone(r.scores, false, true, false)
        case Custom =>
          r.scores.custom.Some? && AllNone(r.scores, false, false, true) && (r.link != "" ==> s.webLink(r.link)))
    && ScoreInRange(r.scores.behavioural) && ScoreInRange(r.scores.confirmQuestions)
    && ScoreInRange(r.scores.algorithmDesign) && ScoreInRange(r.scores.complexityAnalysis)
    && ScoreInRange(r.scores.coding) && ScoreInRange(r.scores.testing) && ScoreInRange(r.scores.custom)
  }

  predicate ValidRounds(s: Service, rounds: seq<Round>) {
    && (forall i | 0 <= i < |rounds| :: rounds[i].id != "" && ValidRound(s, rounds[i]))
    && (forall i, j | 0 <= i < j < |rounds| :: rounds[i].id != rounds[j].id)
  }

  predicate ValidInterview(s: Service, m: Interview) {
    && m.interviewer != "" && m.interviewee != "" && m.interviewer != m.interviewee
    && m.duration > 0 && m.rounds != [] && ValidRounds(s, m.rounds)
  }

  function EditedRounds(s: Service, stored: seq<Round>, wanted: seq<Round>): seq<Round> {
    seq(|wanted|, i requires 0 <= i < |wanted| => WithReviewOf(stored, CleanRound(s, wanted[i])))
  }

  function Edited(s: Service, m: Interview, input: UpdateInput): Interview {
    m.(duration := input.duration, notes := s.sanitize(input.notes),
       rounds := EditedRounds(s, m.rounds, input.rounds))
  }

  function Updated(s: Service, m: Interview, actor: string, input: UpdateInput): Checked<Interview> {
    if actor != m.interviewer then Rejected(Forbidden)
    else if input.occurredAt != m.occurredAt then Rejected(Invalid)
    else if !ValidInterview(s, Edited(s, m, input)) then Rejected(Invalid)
    else Accepted(Edited(s, m, input))
  }

  function FirstIndex(rounds: seq<Round>, id: RoundId): (i: nat)
    ensures i <= |rounds|
    ensures i < |rounds| ==> rounds[i].id == id
    ensures forall j | 0 <= j < i :: rounds[j].id != id
  {
    if rounds == [] then 0 else if rounds[0].id == id then 0 else 1 + FirstIndex(rounds[1..], id)
  }

  function Reviewed(s: Service, m: Interview, actor: string, input: ReviewInput): Checked<Interview> {
    var i := FirstIndex(m.rounds, input.roundId);
    if actor != m.interviewee then Rejected(Forbidden)
    else if i == |m.rounds| then Rejected(Invalid)
    else
      var reviewed := m.rounds[i].(comment := s.sanitize(input.comment), reviewed := input.reviewed);
      Accepted(m.(rounds := m.rounds[i := reviewed]))
  }

  function WithIntervieweeNotes(s: Service, m: Interview, actor: string, notes: string): Checked<Interview> {
    if actor != m.interviewee then Rejected(Forbidden)
    else Accepted(m.(intervieweeNotes := s.sanitize(notes)))
  }

  function Deleted(m: Interview, actor: string, now: int): Checked<Interview> {
    if actor != m.interviewer then Rejected(Forbidden) else Accepted(m.(deletedAt := Some(now)))
  }

  function WithoutComments(rounds: seq<Round>): seq<Round> {
    seq(|rounds|, i requires 0 <= i < |rounds| => rounds[i].(comment := ""))
  }

  function RedactedFor(m: Interview, viewer: string): Interview {
    if viewer != m.interviewer || viewer == m.interviewee then m
    else m.(intervieweeNotes := "", rounds := WithoutComments(m.rounds))
  }

  // ----- the rules, step by step -----

  method CleanRounds(s: Service, rounds: seq<Round>) returns (out: seq<Round>)
    ensures |out| == |rounds| && forall i | 0 <= i < |rounds| :: out[i] == CleanRound(s, rounds[i])
  {
    out := rounds;
    var i := 0;
    while i < |out|
      invariant 0 <= i <= |out| == |rounds|
      invariant forall j | 0 <= j < i :: out[j] == CleanRound(s, rounds[j])
      invariant forall j | i <= j < |out| :: out[j] == rounds[j]
    {
      out := out[i := out[i].(content := s.sanitize(out[i].content))];
      out := out[i := out[i].(description := s.trim(out[i].description))];
      if out[i].kind != Custom {
        out := out[i := out[i].(description := "")];
      }
      out := out[i := out[i].(comment := s.sanitize(out[i].comment))];
      i := i + 1;
    }
  }

  lemma {:induction false} LastWithIdStep(rounds: seq<Round>, n: nat, id: RoundId)
    requires n < |rounds|
    ensures LastWithId(rounds[..n + 1], id) ==
            if rounds[n].id == id then Some(rounds[n]) else LastWithId(rounds[..n], id)
  {
    assert rounds[..n + 1][..|rounds[..n + 1]| - 1] == rounds[..n];
  }

  method Validate(s: Service, m: Interview) returns (ok: bool)
    ensures ok == ValidInterview(s, m)
  {
    if m.interviewer == "" || m.interviewee == "" || m.interviewer == m.interviewee || m.duration <= 0
       || |m.rounds| == 0 {
      return false;
    }
    var seen: set<RoundId> := {};
    var i := 0;
    while i < |m.rounds|
      invariant 0 <= i <= |m.rounds|
      invariant seen == set j | 0 <= j < i :: m.rounds[j].id
      invariant forall j | 0 <= j < i :: m.rounds[j].id != "" && ValidRound(s, m.rounds[j])
      invariant forall j, k | 0 <= j < k < i :: m.rounds[j].id != m.rounds[k].id
    {
      var r := m.rounds[i];
      if r.id == "" || r.id in seen {
        return false;
      }
      seen := seen + {r.id};
      if !ValidRound(s, r) {
        return false;
      }
      i := i + 1;
    }
    return true;
  }

  method Update(s: Service, m: Interview, actor: string, input: UpdateInput) returns (r: Checked<Interview>)
    ensures r == Updated(s, m, actor, input)
  {
    if actor != m.interviewer {
      return Rejected(Forbidden);
    }
    if input.occurredAt != m.occurredAt {
      return Rejected(Invalid);
    }
    var rounds := CleanRounds(s, input.rounds);
    ghost var cleaned := rounds;
    var existing: map<RoundId, Round> := map[];
    var k := 0;
    while k < |m.rounds|
      invariant 0 <= k <= |m.rounds|
      invariant forall id :: LastWithId(m.rounds[..k], id) == if id in existing then Some(existing[id]) else None
    {
      forall id {
        LastWithIdStep(m.rounds, k, id);
      }
      existing := existing[m.rounds[k].id := m.rounds[k]];
      k := k + 1;
    }
    assert m.rounds[..|m.rounds|] == m.rounds;
    var i := 0;
    while i < |rounds|
      invariant 0 <= i <= |rounds| == |cleaned|
      invariant forall j | 0 <= j < i :: rounds[j] == WithReviewOf(m.rounds, cleaned[j])
      invariant forall j | i <= j < |rounds| :: rounds[j] == cleaned[j]
    {
      if rounds[i].id in existing {
        var old_ := existing[rounds[i].id];
        rounds := rounds[i := rounds[i].(reviewed := old_.reviewed, comment := old_.comment)];
      } else {
        rounds := rounds[i := rounds[i].(reviewed := false, comment := "")];
      }
      i := i + 1;
    }
    assert rounds == EditedRounds(s, m.rounds, input.rounds);
    var candidate := m.(duration := input.duration, notes := s.sanitize(input.notes), rounds := rounds);
    var ok := Validate(s, candidate);
    return if ok then Accepted(candidate) else Rejected(Invalid);
  }

  method ReviewRound(s: Service, m: Interview, actor: string, input: ReviewInput) returns (r: Checked<Interview>)
    ensures r == Reviewed(s, m, actor, input)
  {
    if actor != m.interviewee {
      return Rejected(Forbidden);
    }
    var rounds := m.rounds;
    var i := 0;
    while i < |rounds|
      invariant 0 <= i <= |rounds| && rounds == m.rounds
      invariant forall j | 0 <= j < i :: rounds[j].id != input.roundId
    {
      if rounds[i].id == input.roundId {
        rounds := rounds[i := rounds[i].(comment := s.sanitize(input.comment))];
        rounds := rounds[i := rounds[i].(reviewed := input.reviewed)];
        assert FirstIndex(m.rounds, input.roundId) == i;
        assert rounds == m.rounds[i := m.rounds[i].(comment := s.sanitize(input.comment), reviewed := input.reviewed)];
        return Accepted(m.(rounds := rounds));
      }
      i := i + 1;
    }
    return Rejected(Invalid);
  }

  method Redact(m: Interview, viewer: string) returns (r: Interview)
    ensures r == RedactedFor(m, viewer)
  {
    if viewer != m.interviewer || viewer == m.interviewee {
      return m;
    }
    var rounds := m.rounds;
    var i := 0;
    while i < |rounds|
      invariant 0 <= i <= |rounds| == |m.rounds|
      invariant forall j | 0 <= j < i :: rounds[j] == m.rounds[j].(comment := "")
      invariant forall j | i <= j < |rounds| :: rounds[j] == m.rounds[j]
    {
      rounds := rounds[i := rounds[i].(comment := "")];
      i := i + 1;
    }
    assert rounds == WithoutComments(m.rounds);
    return m.(intervieweeNotes := "", rounds := rounds);
  }

  // ----- what redaction hides -----

  /** Equal in everything but the interviewee's notes and comments. */
  ghost predicate AlikeToInterviewer(a: Interview, b: Interview) {
    && a.(intervieweeNotes := "", rounds := []) == b.(intervieweeNotes := "", rounds := [])
    && |a.rounds| == |b.rounds|
    && forall i | 0 <= i < |a.rounds| :: a.rounds[i].(comment := "") == b.rounds[i].(comment := "")
  }

  /**
   The interviewer cannot tell apart interviews that differ in the interviewee's private text, and
   can tell apart any others; everybody else sees the interview as it is.
   */
  lemma RedactionHidesExactlyPrivateText(a: Interview, b: Interview, viewer: string)
    requires a.interviewer == b.interviewer && a.interviewee == b.interviewee
    ensures if viewer == a.interviewer && viewer != a.interviewee
            then RedactedFor(a, viewer) == RedactedFor(b, viewer) <==> AlikeToInterviewer(a, b)
            else RedactedFor(a, viewer) == a
  {
    if viewer == a.interviewer && viewer != a.interviewee {
      var x, y := RedactedFor(a, viewer), RedactedFor(b, viewer);
      if x == y {
        assert |a.rounds| == |b.rounds|;
        assert a.(intervieweeNotes := "", rounds := []) == x.(rounds := []);
        forall i | 0 <= i < |a.rounds|
          ensures a.rounds[i].(comment := "") == b.rounds[i].(comment := "")
        {
          assert x.rounds[i] == a.rounds[i].(comment := "") && y.rounds[i] == b.rounds[i].(comment := "");
        }
      }
      if AlikeToInterviewer(a, b) {
        assert WithoutComments(a.rounds) == WithoutComments(b.rounds);
        assert x == a.(intervieweeNotes := "", rounds := []).(rounds := WithoutComments(a.rounds));
      }
    }
  }
}
