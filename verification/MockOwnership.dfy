/**
 Who may change what in a mock interview, and what the changes that took effect have left: exactly the
 interviewer's last edit, the interviewee's last notes and the removal.
 */
module MockOwnership {
  import opened Wrappers
  import opened MockRounds
  import opened MockInterviews
  import opened MockStore
  import opened H = MockHistory

  // ----- who may write -----

  /** Edits and removals are the interviewer's, reviews and notes the interviewee's. */
  predicate ByItsOwner(w: Write, m: Interview) {
    match w
    case Edit(actor, _, _) => actor == m.interviewer
    case ReviewOne(actor, _) => actor == m.interviewee
    case TakeNotes(actor, _) => actor == m.interviewee
    case Remove(actor, _) => actor == m.interviewer
  }

  predicate SamePeople(a: Interview, b: Interview) {
    a.id == b.id && a.interviewer == b.interviewer && a.interviewee == b.interviewee && a.occurredAt == b.occurredAt
  }

  lemma ActKeepsPeople(s: Service, world: World, a: Action)
    ensures SamePeople(Act(s, world, a).stored.live, world.stored.live)
    ensures Sane(world) && H.Writes(s, world, a) ==> ByItsOwner(a.write, world.stored.live)
  {
  }

  /** In any run, every write that takes effect is by the owner of what it changes. */
  lemma {:induction false} OnlyOwnersWrite(s: Service, world: World, actions: seq<Action>)
    requires Sane(world)
    ensures forall w | w in H.Committed(s, world, actions) :: ByItsOwner(w, world.stored.live)
    ensures SamePeople(ActAll(s, world, actions).stored.live, world.stored.live)
    decreases actions
  {
    if actions != [] {
      CommittedStep(s, world, actions);
      ActKeepsSane(s, world, actions[0]);
      ActKeepsPeople(s, world, actions[0]);
      OnlyOwnersWrite(s, Act(s, world, actions[0]), actions[1..]);
    }
  }

  // ----- when a write takes effect -----

  /** The round as its author sent it is acceptable: its kind's scores and no others, all within range. */
  predicate Acceptable(s: Service, r: Round) {
    && r.id != ""
    && match r.kind
       case Behavioural =>
         r.scores.behavioural.Some? && 0 <= r.scores.behavioural.value <= 10
         && r.scores == Scores(r.scores.behavioural, None, None, None, None, None, None)
       case LeetCode =>
         r.problem != "" && r.scores.behavioural.None? && r.scores.custom.None?
         && Within(r.scores.confirmQuestions) && Within(r.scores.algorithmDesign)
         && Within(r.scores.complexityAnalysis) && Within(r.scores.coding) && Within(r.scores.testing)
       case Custom =>
         Within(r.scores.custom) && (r.link != "" ==> s.webLink(r.link))
         && r.scores == Scores(None, None, None, None, None, None, r.scores.custom)
  }

  predicate Within(score: Option<int>) {
    score.Some? && 0 <= score.value <= 10
  }

  predicate AcceptableEdit(s: Service, m: Interview, edit: UpdateInput) {
    && edit.occurredAt == m.occurredAt && edit.duration > 0 && edit.rounds != []
    && m.interviewer != "" && m.interviewee != "" && m.interviewer != m.interviewee
    && (forall i | 0 <= i < |edit.rounds| :: Acceptable(s, edit.rounds[i]))
    && (forall i, j | 0 <= i < j < |edit.rounds| :: edit.rounds[i].id != edit.rounds[j].id)
  }

  lemma AcceptableIffValid(s: Service, stored: seq<Round>, r: Round)
    ensures var edited := WithReviewOf(stored, CleanRound(s, r));
            edited.id == r.id && (Acceptable(s, r) <==> r.id != "" && ValidRound(s, edited))
  {
  }

  lemma EditAcceptedIff(s: Service, m: Interview, actor: string, edit: UpdateInput)
    ensures Updated(s, m, actor, edit).Accepted? <==> actor == m.interviewer && AcceptableEdit(s, m, edit)
  {
    var rounds := Edited(s, m, edit).rounds;
    assert |rounds| == |edit.rounds|;
    forall i | 0 <= i < |rounds|
      ensures rounds[i].id == edit.rounds[i].id
      ensures Acceptable(s, edit.rounds[i]) <==> rounds[i].id != "" && ValidRound(s, rounds[i])
    {
      AcceptableIffValid(s, m.rounds, edit.rounds[i]);
    }
  }

  /**
   From whatever copy it is made, a write takes effect exactly when the interview is not removed, its author owns what
   it changes, an edit is acceptable and takes no other interview's round, and a reviewed round is both in the copy and
   still stored.
   */
  lemma WriteTakesEffectIff(s: Service, world: World, slot: nat, w: Write)
    requires Sane(world) && slot in world.copies
    ensures H.Writes(s, world, Commit(slot, w)) <==>
            var live := world.stored.live;
            && live.deletedAt.None? && ByItsOwner(w, live)
            && match w
               case Edit(_, edit, foreign) => AcceptableEdit(s, live, edit) && NoneForeign(edit.rounds, foreign)
               case ReviewOne(_, review) =>
                 HasRound(world.copies[slot].rounds, review.roundId) && HasRound(live.rounds, review.roundId)
               case _ => true
  {
    var copy, live := world.copies[slot], world.stored.live;
    match w
    case Edit(actor, edit, foreign) =>
      EditAcceptedIff(s, copy, actor, edit);
      if Updated(s, copy, actor, edit).Accepted? {
        EditIdsAreAsRequested(s, copy, actor, edit, foreign);
      }
    case ReviewOne(actor, review) =>
      FoundIffHas(copy.rounds, review.roundId);
      FoundIffHas(live.rounds, review.roundId);
      if Reviewed(s, copy, actor, review).Accepted? {
        ReviewedKeepsIndex(s, copy, actor, review);
      }
    case _ =>
  }

  lemma FoundIffHas(rounds: seq<Round>, id: RoundId)
    ensures FirstIndex(rounds, id) < |rounds| <==> HasRound(rounds, id)
  {
    var i := FirstIndex(rounds, id);
    if HasRound(rounds, id) {
      var j :| 0 <= j < |rounds| && rounds[j].id == id;
    }
  }

  // ----- what the writes have left -----

  function LastEdit(log: seq<Write>): Option<UpdateInput> {
    if log == [] then None
    else if log[|log| - 1].Edit? then Some(log[|log| - 1].edit)
    else LastEdit(log[..|log| - 1])
  }

  function LastNotes(log: seq<Write>): Option<string> {
    if log == [] then None
    else if log[|log| - 1].TakeNotes? then Some(log[|log| - 1].notes)
    else LastNotes(log[..|log| - 1])
  }

  function LastRemoval(log: seq<Write>): Option<int> {
    if log == [] then None
    else if log[|log| - 1].Remove? then Some(log[|log| - 1].at)
    else LastRemoval(log[..|log| - 1])
  }

  /** A stored round shows what was written: only a custom one has link and description, only LeetCode a problem. */
  predicate ShowsWritten(s: Service, wanted: Round, r: Round) {
    && r.id == wanted.id && r.kind == wanted.kind && r.content == s.sanitize(wanted.content)
    && r.scores == wanted.scores
    && r.problem == (if wanted.kind == LeetCode then wanted.problem else "")
    && r.link == (if wanted.kind == Custom then wanted.link else "")
    && r.description == (if wanted.kind == Custom then s.trim(wanted.description) else "")
  }

  ghost predicate ShowsEdit(s: Service, edit: UpdateInput, m: Interview) {
    && m.duration == edit.duration && m.notes == s.sanitize(edit.notes)
    && |m.rounds| == |edit.rounds|
    && forall i | 0 <= i < |edit.rounds| :: ShowsWritten(s, edit.rounds[i], m.rounds[i])
  }

  /** Equal but for what a review changes. */
  ghost predicate SameButReviews(a: seq<Round>, b: seq<Round>) {
    |a| == |b| && forall i | 0 <= i < |a| :: a[i].(reviewed := b[i].reviewed, comment := b[i].comment) == b[i]
  }

  /** What the first interview and the writes since amount to. */
  ghost predicate Reflects(s: Service, first: Interview, log: seq<Write>, m: Interview) {
    && SamePeople(m, first)
    && (match LastEdit(log)
        case Some(edit) => ShowsEdit(s, edit, m)
        case None => m.duration == first.duration && m.notes == first.notes && SameButReviews(m.rounds, first.rounds))
    && (match LastNotes(log)
        case Some(notes) => m.intervieweeNotes == s.sanitize(notes)
        case None => m.intervieweeNotes == first.intervieweeNotes)
    && (match LastRemoval(log)
        case Some(at) => m.deletedAt == Some(at)
        case None => m.deletedAt == first.deletedAt)
  }

  lemma EditShows(s: Service, live: Interview, actor: string, edit: UpdateInput)
    requires Updated(s, live, actor, edit).Accepted?
    ensures ShowsEdit(s, edit, UpdateResult(live, Updated(s, live, actor, edit).value))
  {
    EditAcceptedIff(s, live, actor, edit);
  }

  lemma ReviewKeepsTheRest(s: Service, live: Interview, actor: string, input: ReviewInput)
    requires Reviewed(s, live, actor, input).Accepted?
    requires ReviewResult(live, Reviewed(s, live, actor, input).value, input.roundId).Some?
    ensures var m := ReviewResult(live, Reviewed(s, live, actor, input).value, input.roundId).value;
            m.(rounds := live.rounds) == live && SameButReviews(m.rounds, live.rounds)
  {
  }

  lemma WriteReflected(s: Service, first: Interview, log: seq<Write>, stored: Stored, w: Write)
    requires Reflects(s, first, log, stored.live) && H.Outcome(s, stored.live, stored, w).Some?
    ensures Reflects(s, first, log + [w], H.Outcome(s, stored.live, stored, w).value.live)
  {
    assert (log + [w])[..|log + [w]| - 1] == log;
    match w
    case Edit(actor, edit, _) => EditShows(s, stored.live, actor, edit);
    case ReviewOne(actor, input) => ReviewKeepsTheRest(s, stored.live, actor, input);
    case _ =>
  }

  lemma ActReflected(s: Service, first: Interview, log: seq<Write>, world: World, a: Action)
    requires Sane(world) && Reflects(s, first, log, world.stored.live)
    ensures Reflects(
      s, first, if H.Writes(s, world, a) then log + [a.write] else log, Act(s, world, a).stored.live)
  {
    if H.Writes(s, world, a) {
      StaleWriteEqualsFresh(s, world.copies[a.slot], world.stored, a.write);
      WriteReflected(s, first, log, world.stored, a.write);
    }
  }

  lemma CommittedJoins(s: Service, log: seq<Write>, world: World, actions: seq<Action>)
    requires actions != []
    ensures log + H.Committed(s, world, actions)
            == (if H.Writes(s, world, actions[0]) then log + [actions[0].write] else log)
               + H.Committed(s, Act(s, world, actions[0]), actions[1..])
  {
    CommittedStep(s, world, actions);
  }

  lemma {:induction false} RunReflected(
    s: Service, first: Interview, log: seq<Write>, world: World, actions: seq<Action>)
    requires Sane(world) && Reflects(s, first, log, world.stored.live)
    ensures Reflects(s, first, log + H.Committed(s, world, actions), ActAll(s, world, actions).stored.live)
    decreases actions
  {
    if actions == [] {
      assert log + [] == log;
    } else {
      var a := actions[0];
      var longer := if H.Writes(s, world, a) then log + [a.write] else log;
      CommittedJoins(s, log, world, actions);
      ActKeepsSane(s, world, a);
      ActReflected(s, first, log, world, a);
      RunReflected(s, first, longer, Act(s, world, a), actions[1..]);
    }
  }

  /**
   After any run of two people reading and writing, the interview shows the last edit that took effect, the last notes
   and the removal, and nothing of it has changed that no write changes.
   */
  lemma LastWritesAreShown(s: Service, world: World, actions: seq<Action>)
    requires Sane(world)
    ensures Reflects(s, world.stored.live, H.Committed(s, world, actions), ActAll(s, world, actions).stored.live)
  {
    RunReflected(s, world.stored.live, [], world, actions);
    assert [] + H.Committed(s, world, actions) == H.Committed(s, world, actions);
  }
}
