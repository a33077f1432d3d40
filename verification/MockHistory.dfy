/**
 Two people at one interview. The interviewer edits and removes, the interviewee reviews, each from a copy read
 some time before. Every run of reads and writes leaves the interview that some serial order of the same writes
 would leave, each made on a fresh copy; no review is lost. Only the version that a removal records can differ.
 */
module MockHistory {
  import opened Wrappers
  import opened MockRounds
  import opened MockInterviews
  import opened MockStore

  /** One stored interview with its versions. */
  datatype Stored = Stored(live: Interview, versions: seq<Version>)

  /** foreign are the round ids that other interviews hold when the edit is stored. */
  datatype Write =
    | Edit(actor: string, edit: UpdateInput, foreign: set<RoundId>)
    | ReviewOne(actor: string, review: ReviewInput)
    | TakeNotes(actor: string, notes: string)
    | Remove(actor: string, at: int)

  /** A step of a run: someone reads into a slot, or writes from the copy in a slot. */
  datatype Action = Read(slot: nat) | Commit(slot: nat, write: Write)

  datatype World = World(stored: Stored, copies: map<nat, Interview>)

  /** What a write stores, and the snapshot it records as a version. */
  datatype Effect = Effect(live: Interview, snapshot: Interview)

  predicate NoneForeign(rounds: seq<Round>, foreign: set<RoundId>) {
    forall r | r in rounds :: r.id !in foreign
  }

  /** Valid rounds are refused by the store exactly when one of them belongs to another interview. */
  lemma StorableIffNoneForeign(s: Service, rows: Rows, interview: InterviewId, wanted: seq<Round>)
    requires ValidRounds(s, wanted)
    ensures Storable(rows, interview, wanted)
            <==> NoneForeign(wanted, set id | id in rows && rows[id].interview != interview)
  {
    forall r | r in wanted
      ensures DetailOf(r).Some?
    {
      SaveThenLoad(s, r, interview, 1, PENDING);
    }
  }

  /** What a write made on a copy does, or none when the service or the store refuses it. */
  function Outcome(s: Service, copy: Interview, stored: Stored, w: Write): Option<Effect> {
    if stored.live.deletedAt.Some? || copy.occurredAt != stored.live.occurredAt then None
    else
      match w
      case Edit(actor, input, foreign) =>
        var candidate := Updated(s, copy, actor, input);
        if candidate.Rejected? || !NoneForeign(candidate.value.rounds, foreign) then None
        else Some(AsStored(UpdateResult(stored.live, candidate.value)))
      case ReviewOne(actor, input) =>
        var candidate := Reviewed(s, copy, actor, input);
        if candidate.Rejected? then None
        else
          var m := ReviewResult(stored.live, candidate.value, input.roundId);
          if m.None? then None else Some(AsStored(m.value))
      case TakeNotes(actor, notes) =>
        var candidate := WithIntervieweeNotes(s, copy, actor, notes);
        if candidate.Rejected? then None else Some(AsStored(NotesResult(stored.live, candidate.value)))
      case Remove(actor, at) =>
        var candidate := Deleted(copy, actor, at);
        if candidate.Rejected? then None
        else Some(Effect(stored.live.(deletedAt := candidate.value.deletedAt), candidate.value))
  }

  /** A write that reads back what it stored records just that. */
  function AsStored(m: Interview): Effect {
    Effect(m, m)
  }

  function Written(stored: Stored, e: Effect): Stored {
    Stored(e.live, WithVersion(stored.versions, e.snapshot))
  }

  function Act(s: Service, world: World, a: Action): World {
    match a
    case Read(slot) =>
      if world.stored.live.deletedAt.Some? then world
      else world.(copies := world.copies[slot := world.stored.live])
    case Commit(slot, w) =>
      if slot !in world.copies then world
      else
        var m := Outcome(s, world.copies[slot], world.stored, w);
        if m.None? then world else world.(stored := Written(world.stored, m.value))
  }

  function ActAll(s: Service, world: World, actions: seq<Action>): World
    decreases actions
  {
    if actions == [] then world else ActAll(s, Act(s, world, actions[0]), actions[1..])
  }

  /** The writes of a run that took effect, in the order they did. */
  function Committed(s: Service, world: World, actions: seq<Action>): seq<Write>
    decreases actions
  {
    if actions == [] then []
    else
      var rest := Committed(s, Act(s, world, actions[0]), actions[1..]);
      if actions[0].Commit? && actions[0].slot in world.copies
         && Outcome(s, world.copies[actions[0].slot], world.stored, actions[0].write).Some?
      then [actions[0].write] + rest else rest
  }

  /** A serial order: every write is made on the stored interview itself. */
  function Serial(s: Service, stored: Stored, writes: seq<Write>): Stored
    decreases writes
  {
    if writes == [] then stored
    else
      var m := Outcome(s, stored.live, stored, writes[0]);
      Serial(s, if m.Some? then Written(stored, m.value) else stored, writes[1..])
  }

  /** Copies may be stale in everything but who takes part and when. */
  predicate SameOccasion(a: Interview, b: Interview) {
    && a.id == b.id && a.interviewer == b.interviewer && a.interviewee == b.interviewee
    && a.occurredAt == b.occurredAt
  }

  /** Only an interview that is not deleted can be read. */
  ghost predicate Sane(world: World) {
    forall slot | slot in world.copies ::
      SameOccasion(world.copies[slot], world.stored.live) && world.copies[slot].deletedAt.None?
  }

  /** The service's checks look at nothing that a stale copy can get wrong. */
  lemma StaleEditIsAsValid(s: Service, copy: Interview, live: Interview, actor: string, input: UpdateInput)
    requires SameOccasion(copy, live)
    ensures Updated(s, copy, actor, input).Accepted? <==> Updated(s, live, actor, input).Accepted?
    ensures Updated(s, copy, actor, input).Accepted? ==>
              UpdateResult(live, Updated(s, copy, actor, input).value)
              == UpdateResult(live, Updated(s, live, actor, input).value)
  {
    var a, b := Edited(s, copy, input), Edited(s, live, input);
    assert |a.rounds| == |b.rounds| == |input.rounds|;
    forall i | 0 <= i < |input.rounds|
      ensures a.rounds[i].id == b.rounds[i].id
      ensures ValidRound(s, a.rounds[i]) <==> ValidRound(s, b.rounds[i])
      ensures WithReviewOf(live.rounds, Persisted(a.rounds[i])) == WithReviewOf(live.rounds, Persisted(b.rounds[i]))
    {
    }
    assert ValidRounds(s, a.rounds) <==> ValidRounds(s, b.rounds);
    assert Merged(live.rounds, a.rounds) == Merged(live.rounds, b.rounds);
  }

  lemma StaleReviewIsAsGood(s: Service, copy: Interview, live: Interview, actor: string, input: ReviewInput)
    requires SameOccasion(copy, live)
    requires Reviewed(s, copy, actor, input).Accepted?
    requires ReviewResult(live, Reviewed(s, copy, actor, input).value, input.roundId).Some?
    ensures Reviewed(s, live, actor, input).Accepted?
    ensures ReviewResult(live, Reviewed(s, live, actor, input).value, input.roundId)
            == ReviewResult(live, Reviewed(s, copy, actor, input).value, input.roundId)
  {
    ReviewedKeepsIndex(s, copy, actor, input);
    ReviewedKeepsIndex(s, live, actor, input);
  }

  lemma ReviewedKeepsIndex(s: Service, m: Interview, actor: string, input: ReviewInput)
    requires Reviewed(s, m, actor, input).Accepted?
    ensures var i := FirstIndex(m.rounds, input.roundId);
            var rounds := Reviewed(s, m, actor, input).value.rounds;
            && i < |m.rounds| == |rounds| && FirstIndex(rounds, input.roundId) == i
            && rounds[i].reviewed == input.reviewed && rounds[i].comment == s.sanitize(input.comment)
  {
    var i := FirstIndex(m.rounds, input.roundId);
    var rounds := Reviewed(s, m, actor, input).value.rounds;
    assert forall j | 0 <= j < |rounds| :: rounds[j].id == m.rounds[j].id;
  }

  lemma EditIdsAreAsRequested(s: Service, m: Interview, actor: string, input: UpdateInput, foreign: set<RoundId>)
    requires Updated(s, m, actor, input).Accepted?
    ensures NoneForeign(Updated(s, m, actor, input).value.rounds, foreign) <==> NoneForeign(input.rounds, foreign)
  {
    var rounds := Updated(s, m, actor, input).value.rounds;
    assert |rounds| == |input.rounds| && forall i | 0 <= i < |rounds| :: rounds[i].id == input.rounds[i].id;
    if NoneForeign(rounds, foreign) {
      forall r | r in input.rounds
        ensures r.id !in foreign
      {
        var i :| 0 <= i < |input.rounds| && input.rounds[i] == r;
        assert rounds[i] in rounds;
      }
    }
  }

  /**
   A write that succeeds from a stale copy stores exactly what it would from a fresh one. It also records the
   same snapshot, except that a removal records the copy it was made from.
   */
  lemma StaleWriteEqualsFresh(s: Service, copy: Interview, stored: Stored, w: Write)
    requires SameOccasion(copy, stored.live) && copy.deletedAt.None? && Outcome(s, copy, stored, w).Some?
    ensures Outcome(s, stored.live, stored, w).Some?
    ensures Outcome(s, stored.live, stored, w).value.live == Outcome(s, copy, stored, w).value.live
    ensures Outcome(s, stored.live, stored, w) == Outcome(s, copy, stored, w) <==> !w.Remove? || copy == stored.live
  {
    match w {
      case Edit(actor, input, foreign) =>
        StaleEditIsAsValid(s, copy, stored.live, actor, input);
        EditIdsAreAsRequested(s, copy, actor, input, foreign);
        EditIdsAreAsRequested(s, stored.live, actor, input, foreign);
      case ReviewOne(actor, input) => StaleReviewIsAsGood(s, copy, stored.live, actor, input);
      case TakeNotes(_, _) =>
      case Remove(actor, at) => RemovedCopies(copy, stored.live, at);
    }
  }

  lemma RemovedCopies(copy: Interview, live: Interview, at: int)
    requires copy.deletedAt.None? && live.deletedAt.None?
    ensures copy.(deletedAt := Some(at)) == live.(deletedAt := Some(at)) <==> copy == live
  {
    assert copy == copy.(deletedAt := Some(at)).(deletedAt := None);
    assert live == live.(deletedAt := Some(at)).(deletedAt := None);
  }

  lemma ActKeepsSane(s: Service, world: World, a: Action)
    requires Sane(world)
    ensures Sane(Act(s, world, a))
  {
  }

  lemma {:induction false} RunKeepsSane(s: Service, world: World, actions: seq<Action>)
    requires Sane(world)
    ensures Sane(ActAll(s, world, actions))
    decreases actions
  {
    if actions != [] {
      ActKeepsSane(s, world, actions[0]);
      RunKeepsSane(s, Act(s, world, actions[0]), actions[1..]);
    }
  }

  /** Nothing is written to a deleted interview. */
  lemma {:induction false} DeletedIsFinal(s: Service, world: World, actions: seq<Action>)
    requires world.stored.live.deletedAt.Some?
    ensures ActAll(s, world, actions).stored == world.stored && Committed(s, world, actions) == []
    decreases actions
  {
    if actions != [] {
      assert Act(s, world, actions[0]).stored == world.stored;
      DeletedIsFinal(s, Act(s, world, actions[0]), actions[1..]);
    }
  }

  ghost predicate NewestIsLive(stored: Stored) {
    stored.versions != [] ==> stored.versions[|stored.versions| - 1].snapshot == stored.live
  }

  /** Whether this action writes. */
  predicate Writes(s: Service, world: World, a: Action) {
    a.Commit? && a.slot in world.copies && Outcome(s, world.copies[a.slot], world.stored, a.write).Some?
  }

  /**
   Any interleaving of reads and writes stores the interview that the serial order of the writes that took effect
   stores. The versions are the same too if and only if the newest one is the stored interview, as it was before.
   */
  lemma {:induction false} InterleavingIsSerial(s: Service, world: World, actions: seq<Action>)
    requires Sane(world)
    ensures var end, serial := ActAll(s, world, actions).stored, Serial(s, world.stored, Committed(s, world, actions));
            end.live == serial.live && (NewestIsLive(world.stored) ==> (end == serial <==> NewestIsLive(end)))
    decreases actions
  {
    if actions != [] {
      var a := actions[0];
      var next := Act(s, world, a);
      var rest := Committed(s, next, actions[1..]);
      ActKeepsSane(s, world, a);
      if Writes(s, world, a) {
        StaleWriteEqualsFresh(s, world.copies[a.slot], world.stored, a.write);
        assert ([a.write] + rest)[1..] == rest;
        if a.write.Remove? {
          DeletedIsFinal(s, next, actions[1..]);
        } else {
          InterleavingIsSerial(s, next, actions[1..]);
        }
      } else {
        InterleavingIsSerial(s, next, actions[1..]);
      }
    }
  }

  // ----- versions -----

  lemma CommittedStep(s: Service, world: World, actions: seq<Action>)
    requires actions != []
    ensures var rest := Committed(s, Act(s, world, actions[0]), actions[1..]);
            Committed(s, world, actions) == if Writes(s, world, actions[0]) then [actions[0].write] + rest else rest
  {
  }

  /** Versions are numbered 1 to n without a gap, and until a removal the newest is the stored interview. */
  lemma {:induction false} VersionsFollow(s: Service, world: World, actions: seq<Action>)
    requires Numbered(world.stored.versions) && NewestIsLive(world.stored)
    ensures var end := ActAll(s, world, actions).stored;
            && Numbered(end.versions)
            && ((forall w | w in Committed(s, world, actions) :: !w.Remove?) ==> NewestIsLive(end))
            && |end.versions| == |world.stored.versions| + |Committed(s, world, actions)|
    decreases actions
  {
    if actions != [] {
      var a := actions[0];
      CommittedStep(s, world, actions);
      if Writes(s, world, a) {
        WithVersionNumbered(world.stored.versions,
          Outcome(s, world.copies[a.slot], world.stored, a.write).value.snapshot);
        if a.write.Remove? {
          assert a.write in Committed(s, world, actions);
          DeletedIsFinal(s, Act(s, world, a), actions[1..]);
        } else {
          VersionsFollow(s, Act(s, world, a), actions[1..]);
        }
      } else {
        VersionsFollow(s, Act(s, world, a), actions[1..]);
      }
    }
  }

  // ----- what a removal records -----

  /** Nobody reads into the slot. */
  predicate Unread(slot: nat, actions: seq<Action>) {
    forall a | a in actions :: a != Read(slot)
  }

  lemma {:induction false} CopyStays(s: Service, world: World, slot: nat, actions: seq<Action>)
    requires slot in world.copies && Unread(slot, actions)
    ensures var end := ActAll(s, world, actions); slot in end.copies && end.copies[slot] == world.copies[slot]
    decreases actions
  {
    if actions != [] {
      assert actions[0] in actions && forall a | a in actions[1..] :: a in actions;
      CopyStays(s, Act(s, world, actions[0]), slot, actions[1..]);
    }
  }

  /** After some run an interview is read, other things happen, and it is removed from the copy read. */
  function BeforeRemoval(s: Service, start: World, before: seq<Action>, slot: nat, between: seq<Action>): World {
    ActAll(s, Act(s, ActAll(s, start, before), Read(slot)), between)
  }

  /**
   After any run, a removal that takes effect records what is then stored if and only if the writes that took
   effect since its author read the interview, made one after the other on the stored interview, left it as it was.
   */
  lemma RemovalRecordsStoredIff(
    s: Service, start: World, before: seq<Action>, slot: nat, between: seq<Action>, actor: string, at: int)
    requires Sane(start) && Unread(slot, between)
    requires var world := ActAll(s, start, before);
             var last := BeforeRemoval(s, start, before, slot, between);
             && world.stored.live.deletedAt.None?
             && Writes(s, last, Commit(slot, Remove(actor, at)))
    ensures var read := Act(s, ActAll(s, start, before), Read(slot));
            var removed := Act(s, BeforeRemoval(s, start, before, slot, between),
              Commit(slot, Remove(actor, at))).stored;
            && removed.live.deletedAt == Some(at) && removed.versions != []
            && (NewestIsLive(removed)
                <==> Serial(s, read.stored, Committed(s, read, between)).live == read.stored.live)
  {
    var world := ActAll(s, start, before);
    var read := Act(s, world, Read(slot));
    var last := ActAll(s, read, between);
    RunKeepsSane(s, start, before);
    ActKeepsSane(s, world, Read(slot));
    CopyStays(s, read, slot, between);
    InterleavingIsSerial(s, read, between);
    RemovedCopies(read.copies[slot], last.stored.live, at);
  }

  function UnreviewedRound(): Round {
    Round("r", Behavioural, "", "", "", "", Scores(Some(5), None, None, None, None, None, None), false, "")
  }

  function FirstStored(): Stored {
    var m := Interview("m", "a", "b", 0, 30, "", "", [UnreviewedRound()], None);
    Stored(m, [Version(1, m)])
  }

  /** The interviewer reads, the interviewee reads and reviews the round, the interviewer removes the interview. */
  function ReviewThenRemove(): seq<Action> {
    [Read(0), Read(1), Commit(1, ReviewOne("b", ReviewInput("r", "", true))), Commit(0, Remove("a", 9))]
  }

  /** The removal records the round as not reviewed although its review is stored. */
  lemma RemovalForgetsReview(s: Service)
    ensures var end := ActAll(s, World(FirstStored(), map[]), ReviewThenRemove()).stored;
            && |end.versions| == 3 && |end.versions[2].snapshot.rounds| == |end.live.rounds| == 1
            && end.live.deletedAt == Some(9) && end.live.rounds[0].reviewed
            && !end.versions[2].snapshot.rounds[0].reviewed && !NewestIsLive(end)
  {
    var l, w0 := ReviewThenRemove(), World(FirstStored(), map[]);
    var w1 := Act(s, w0, l[0]);
    var w2 := Act(s, w1, l[1]);
    var w3 := Act(s, w2, l[2]);
    assert FirstIndex(w0.stored.live.rounds, "r") == 0;
    assert w3.stored.live.rounds[0].reviewed && w3.copies[0] == FirstStored().live;
    assert l[1..][1..] == l[2..] && l[2..][1..] == l[3..] && l[3..][1..] == [];
    assert ActAll(s, w0, l) == ActAll(s, w2, l[2..]) == Act(s, w3, l[3]);
  }

  // ----- no review is lost -----

  /** Whether the log of writes leaves a round in the interview. */
  function Present(first: seq<Round>, log: seq<Write>, id: RoundId): bool {
    if log == [] then exists r | r in first :: r.id == id
    else
      var last := log[|log| - 1];
      if last.Edit? then exists r | r in last.edit.rounds :: r.id == id
      else Present(first, log[..|log| - 1], id)
  }

  /** The last review written for a round since it was last added; none yet when it is not there. */
  function LastReview(s: Service, first: seq<Round>, log: seq<Write>, id: RoundId): (bool, string) {
    if log == [] then
      var r := LastWithId(first, id);
      if r.Some? then (r.value.reviewed, r.value.comment) else (false, "")
    else
      var before := log[..|log| - 1];
      match log[|log| - 1]
      case Edit(_, _, _) => if Present(first, before, id) then LastReview(s, first, before, id) else (false, "")
      case ReviewOne(_, input) =>
        if input.roundId == id then (input.reviewed, s.sanitize(input.comment)) else LastReview(s, first, before, id)
      case _ => LastReview(s, first, before, id)
  }

  ghost predicate DistinctRounds(rounds: seq<Round>) {
    forall i, j | 0 <= i < j < |rounds| :: rounds[i].id != rounds[j].id
  }

  /** The stored rounds agree with the log. */
  ghost predicate LogShown(s: Service, first: seq<Round>, log: seq<Write>, rounds: seq<Round>) {
    && DistinctRounds(rounds)
    && (forall id :: HasRound(rounds, id) <==> Present(first, log, id))
    && (forall i | 0 <= i < |rounds| ::
          (rounds[i].reviewed, rounds[i].comment) == LastReview(s, first, log, rounds[i].id))
  }

  /** The rounds that an edit of the stored interview leaves. */
  function EditedAndMerged(s: Service, live: Interview, edit: UpdateInput): seq<Round> {
    Merged(live.rounds, EditedRounds(s, live.rounds, edit.rounds))
  }

  lemma MergedIds(s: Service, live: Interview, edit: UpdateInput)
    ensures var after := EditedAndMerged(s, live, edit);
            |after| == |edit.rounds| && forall i | 0 <= i < |after| :: after[i].id == edit.rounds[i].id
  {
  }

  lemma EditKeepsReviews(s: Service, live: Interview, edit: UpdateInput, i: nat)
    requires DistinctRounds(live.rounds) && i < |edit.rounds|
    ensures var after := EditedAndMerged(s, live, edit);
            && |after| == |edit.rounds| && after[i].id == edit.rounds[i].id
            && (HasRound(live.rounds, after[i].id) ==>
                  exists j :: 0 <= j < |live.rounds| && live.rounds[j].id == after[i].id
                    && after[i].reviewed == live.rounds[j].reviewed && after[i].comment == live.rounds[j].comment)
            && (!HasRound(live.rounds, after[i].id) ==> !after[i].reviewed && after[i].comment == "")
  {
    var id := edit.rounds[i].id;
    if HasRound(live.rounds, id) {
      var j :| 0 <= j < |live.rounds| && live.rounds[j].id == id;
      LastWithIdFound(live.rounds, j);
    } else {
      LastWithIdMissing(live.rounds, id);
    }
  }

  lemma EditHasRounds(s: Service, live: Interview, edit: UpdateInput, id: RoundId)
    ensures HasRound(EditedAndMerged(s, live, edit), id) <==> exists r | r in edit.rounds :: r.id == id
  {
    var after := EditedAndMerged(s, live, edit);
    MergedIds(s, live, edit);
    if HasRound(after, id) {
      var i :| 0 <= i < |after| && after[i].id == id;
      assert edit.rounds[i] in edit.rounds;
    }
    if r :| r in edit.rounds && r.id == id {
      var i :| 0 <= i < |edit.rounds| && edit.rounds[i] == r;
      assert after[i].id == id;
    }
  }

  lemma EditShown(s: Service, first: seq<Round>, log: seq<Write>, live: Interview, w: Write)
    requires LogShown(s, first, log, live.rounds) && w.Edit? && DistinctRounds(w.edit.rounds)
    ensures LogShown(s, first, log + [w], EditedAndMerged(s, live, w.edit))
  {
    var after := EditedAndMerged(s, live, w.edit);
    MergedIds(s, live, w.edit);
    assert (log + [w])[..|log + [w]| - 1] == log;
    forall i | 0 <= i < |after|
      ensures (after[i].reviewed, after[i].comment) == LastReview(s, first, log + [w], after[i].id)
    {
      EditKeepsReviews(s, live, w.edit, i);
      assert HasRound(live.rounds, after[i].id) <==> Present(first, log, after[i].id);
    }
    forall id
      ensures HasRound(after, id) <==> Present(first, log + [w], id)
    {
      EditHasRounds(s, live, w.edit, id);
    }
  }

  lemma ReviewShown(s: Service, first: seq<Round>, log: seq<Write>, stored: Stored, w: Write)
    requires LogShown(s, first, log, stored.live.rounds)
    requires w.ReviewOne? && Outcome(s, stored.live, stored, w).Some?
    ensures LogShown(s, first, log + [w], Outcome(s, stored.live, stored, w).value.live.rounds)
  {
    var before := stored.live.rounds;
    var after := Outcome(s, stored.live, stored, w).value.live.rounds;
    ReviewedKeepsIndex(s, stored.live, w.actor, w.review);
    assert (log + [w])[..|log + [w]| - 1] == log;
    assert |after| == |before| && forall j | 0 <= j < |after| :: after[j].id == before[j].id;
    forall id
      ensures HasRound(after, id) <==> HasRound(before, id)
    {
      if HasRound(before, id) {
        var j :| 0 <= j < |before| && before[j].id == id;
        assert after[j].id == id;
      }
    }
  }

  lemma WriteShown(s: Service, first: seq<Round>, log: seq<Write>, stored: Stored, w: Write)
    requires LogShown(s, first, log, stored.live.rounds)
    requires Outcome(s, stored.live, stored, w).Some?
    ensures LogShown(s, first, log + [w], Outcome(s, stored.live, stored, w).value.live.rounds)
  {
    match w {
      case Edit(actor, input, _) =>
        assert forall i | 0 <= i < |input.rounds| :: Edited(s, stored.live, input).rounds[i].id == input.rounds[i].id;
        EditShown(s, first, log, stored.live, w);
      case ReviewOne(_, _) => ReviewShown(s, first, log, stored, w);
      case _ => assert (log + [w])[..|log + [w]| - 1] == log;
    }
  }

  lemma {:induction false} RunShown(
    s: Service, first: seq<Round>, log: seq<Write>, world: World, actions: seq<Action>)
    requires Sane(world) && LogShown(s, first, log, world.stored.live.rounds)
    ensures LogShown(s, first, log + Committed(s, world, actions), ActAll(s, world, actions).stored.live.rounds)
    decreases actions
  {
    if actions == [] {
      assert log + [] == log;
    } else {
      var a := actions[0];
      var next := Act(s, world, a);
      var rest := Committed(s, next, actions[1..]);
      if a.Commit? && a.slot in world.copies
         && Outcome(s, world.copies[a.slot], world.stored, a.write).Some? {
        StaleWriteEqualsFresh(s, world.copies[a.slot], world.stored, a.write);
        WriteShown(s, first, log, world.stored, a.write);
        RunShown(s, first, log + [a.write], next, actions[1..]);
        assert log + [a.write] + rest == log + ([a.write] + rest);
      } else {
        RunShown(s, first, log, next, actions[1..]);
      }
    }
  }

  /**
   After any run, the stored rounds are exactly those of the last edit, and each carries the last
   review written for it since it was last added: no stale edit ever overwrites a review.
   */
  lemma {:induction false} NoReviewIsLost(s: Service, world: World, actions: seq<Action>)
    requires Sane(world) && DistinctRounds(world.stored.live.rounds)
    ensures var end, log := ActAll(s, world, actions).stored.live.rounds, Committed(s, world, actions);
            && (forall id :: HasRound(end, id) <==> Present(world.stored.live.rounds, log, id))
            && (forall i | 0 <= i < |end| ::
                  (end[i].reviewed, end[i].comment) == LastReview(s, world.stored.live.rounds, log, end[i].id))
  {
    var first := world.stored.live.rounds;
    forall i | 0 <= i < |first| {
      LastWithIdFound(first, i);
    }
    forall id
      ensures HasRound(first, id) <==> Present(first, [], id)
    {
      if HasRound(first, id) {
        var i :| 0 <= i < |first| && first[i].id == id;
        assert first[i] in first;
      }
    }
    RunShown(s, first, [], world, actions);
    assert [] + Committed(s, world, actions) == Committed(s, world, actions);
  }
}
