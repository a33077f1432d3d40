/** The weekly catalogue sync. Times are in seconds since 1970-01-01 00:00 UTC, which was a Thursday. */
module Scheduler {
  import opened Wrappers

  const DAY := 86400
  const HOUR := 3600
  const MINUTE := 60

  /** Days of the week from Sunday, 0, to Saturday, 6. */
  function Weekday(day: int): int {
    (day + 4) % 7
  }

  /** A Sunday 03:00. */
  predicate IsSlot(t: int) {
    t % DAY == 3 * HOUR && Weekday(t / DAY) == 0
  }

  function MostRecentSunday(now: int): int {
    var days := (Weekday(now / DAY) - 0 + 7) % 7;
    var candidate := now / DAY * DAY + 3 * HOUR - days * DAY;
    if candidate > now then candidate - 7 * DAY else candidate
  }

  lemma SundayIsSlot(now: int)
    ensures var slot := MostRecentSunday(now); IsSlot(slot) && 0 <= now - slot < 7 * DAY
  {
  }

  /** It is the only slot within the last seven days. */
  lemma SundayIsUnique(now: int, slot: int)
    ensures slot == MostRecentSunday(now) <==> IsSlot(slot) && 0 <= now - slot < 7 * DAY
  {
    SundayIsSlot(now);
  }

  lemma SlotsGrow(a: int, b: int)
    requires a <= b
    ensures MostRecentSunday(a) <= MostRecentSunday(b)
  {
  }

  // ----- deciding -----

  datatype Trigger = Scheduled | CatchUp | Manual

  datatype Run = Run(trigger: Trigger, startedAt: int, finishedAt: int, succeeded: bool)

  /** The trigger of the run that is due, if one is. */
  function DecideDue(now: int, lastSuccess: Option<int>, lastAttempt: Option<int>): Option<Trigger> {
    var due := MostRecentSunday(now);
    if lastSuccess.Some? && lastSuccess.value >= due then None
    else if lastAttempt.Some? && lastAttempt.value >= due then None
    else Some(if now - due < MINUTE then Scheduled else CatchUp)
  }

  function Later(a: Option<int>, t: int): Option<int> {
    if a.Some? && a.value >= t then a else Some(t)
  }

  function LastSuccess(runs: seq<Run>): Option<int> {
    if runs == [] then None
    else
      var rest, last := LastSuccess(runs[..|runs| - 1]), runs[|runs| - 1];
      if last.succeeded then Later(rest, last.finishedAt) else rest
  }

  function LastAttempt(runs: seq<Run>): Option<int> {
    if runs == [] then None
    else
      var rest, last := LastAttempt(runs[..|runs| - 1]), runs[|runs| - 1];
      if last.trigger != Manual then Later(rest, last.startedAt) else rest
  }

  lemma {:induction false} LastSuccessIsLatest(runs: seq<Run>, due: int)
    ensures var last := LastSuccess(runs);
            last.Some? && last.value >= due <==> exists r :: r in runs && r.succeeded && r.finishedAt >= due
  {
    if runs != [] {
      LastSuccessIsLatest(runs[..|runs| - 1], due);
      assert runs == runs[..|runs| - 1] + [runs[|runs| - 1]];
    }
  }

  lemma {:induction false} LastAttemptIsLatest(runs: seq<Run>, due: int)
    ensures var last := LastAttempt(runs);
            last.Some? && last.value >= due <==> exists r :: r in runs && r.trigger != Manual && r.startedAt >= due
  {
    if runs != [] {
      LastAttemptIsLatest(runs[..|runs| - 1], due);
      assert runs == runs[..|runs| - 1] + [runs[|runs| - 1]];
    }
  }

  predicate Serves(r: Run, slot: int) {
    (r.succeeded && r.finishedAt >= slot) || (r.trigger != Manual && r.startedAt >= slot)
  }

  /**
   A run is due exactly when nothing recorded has served the current slot; within the slot's first minute it counts as
   scheduled, later as catching up.
   */
  lemma DueWhenUnserved(runs: seq<Run>, now: int)
    ensures DecideDue(now, LastSuccess(runs), LastAttempt(runs)).Some?
            <==> forall r | r in runs :: !Serves(r, MostRecentSunday(now))
    ensures DecideDue(now, LastSuccess(runs), LastAttempt(runs)).Some? ==>
              forall slot | IsSlot(slot) && 0 <= now - slot < 7 * DAY ::
                DecideDue(now, LastSuccess(runs), LastAttempt(runs)).value
                == if now - slot < 60 then Scheduled else CatchUp
  {
    LastSuccessIsLatest(runs, MostRecentSunday(now));
    LastAttemptIsLatest(runs, MostRecentSunday(now));
    forall slot | IsSlot(slot) && 0 <= now - slot < 7 * DAY {
      SundayIsUnique(now, slot);
    }
  }

  // ----- running -----

  /** The outcome of one try, and whether the caller's context had ended after it. */
  datatype Try = Try(error: bool, failedItems: nat, contextEnded: bool)

  predicate Good(t: Try) {
    !t.error && t.failedItems == 0
  }

  /** The number of tries that are made. */
  function TriesMade(tries: seq<Try>, max: int): (n: nat)
    requires |tries| >= max
    ensures n <= |tries|
    decreases tries
  {
    if max <= 0 then 0
    else if Good(tries[0]) || tries[0].contextEnded then 1
    else 1 + TriesMade(tries[1..], max - 1)
  }

  /**
   Every try but the last failed without the context ending, and the last one ended the run or was the last allowed.
   */
  lemma {:induction false} TriesStopRight(tries: seq<Try>, max: int)
    requires |tries| >= max
    ensures var n := TriesMade(tries, max);
            && n <= |tries| && (n > 0 <==> max > 0) && (max > 0 ==> n <= max)
            && (forall i | 0 <= i < n - 1 ::
                  (tries[i].error || tries[i].failedItems > 0) && !tries[i].contextEnded)
            && (0 < n < max ==> Good(tries[n - 1]) || tries[n - 1].contextEnded)
            && (n > 0 ==> (Good(tries[n - 1]) <==> !tries[n - 1].error && tries[n - 1].failedItems == 0))
    decreases tries
  {
    if max > 0 && !Good(tries[0]) && !tries[0].contextEnded {
      TriesStopRight(tries[1..], max - 1);
      var n := TriesMade(tries[1..], max - 1);
      assert forall i | 1 <= i < n + 1 :: tries[i] == tries[1..][i - 1];
    }
  }

  datatype Locking = Granted | Busy | Failed

  class LeetCodeScheduler {
    var runs: seq<Run>
    var locked: bool
    const maxAttempts: int

    constructor (max: int)
      ensures runs == [] && !locked && maxAttempts == max
    {
      runs, locked, maxAttempts := [], false, max;
    }

    /** Zero stands for the default. */
    function Attempts(): (n: int)
      ensures n == 3 || n == maxAttempts
      ensures n != 0
    {
      if maxAttempts == 0 then 3 else maxAttempts
    }

    /** tries are what the syncer would answer; recorded says whether storing the run succeeds. */
    method RunSync(trigger: Trigger, lock: Locking, start: int, tries: seq<Try>, finish: int, recorded: bool)
      returns (made: nat, ok: bool)
      requires |tries| >= Attempts() && !locked
      modifies this
      ensures !locked
      ensures made == if lock == Granted then TriesMade(tries, Attempts()) else 0
      ensures lock != Granted || !recorded ==> runs == old(runs) && !ok
      ensures lock == Granted && recorded ==>
                runs == old(runs) + [Run(trigger, start, finish, ok)] && (ok <==> made == 0 || Good(tries[made - 1]))
    {
      if lock == Failed {
        return 0, false;
      }
      if lock == Busy {
        return 0, false;
      }
      locked := true;
      var max := maxAttempts;
      if max == 0 {
        max := 3;
      }
      TriesStopRight(tries, max);
      var failed := false;
      var attempt := 0;
      while attempt < max
        invariant 0 <= attempt <= |tries| && (max > 0 ==> attempt <= max) && (max <= 0 ==> attempt == 0)
        invariant TriesMade(tries, max) == attempt + TriesMade(tries[attempt..], max - attempt)
        invariant failed <==> attempt > 0 && !Good(tries[attempt - 1])
        invariant attempt > 0 ==> failed
        invariant locked && runs == old(runs)
      {
        var report := tries[attempt];
        assert tries[attempt..][1..] == tries[attempt + 1..];
        attempt := attempt + 1;
        failed := report.error;
        if !failed && report.failedItems == 0 {
          break;
        }
        if !failed {
          failed := true;
        }
        if report.contextEnded {
          break;
        }
      }
      made, ok := attempt, false;
      if recorded {
        runs := runs + [Run(trigger, start, finish, !failed)];
        ok := !failed;
      }
      locked := false;
    }

    method RunDue(now: int, lock: Locking, start: int, tries: seq<Try>, finish: int, recorded: bool)
      returns (ran: bool, made: nat, ok: bool)
      requires |tries| >= Attempts() && !locked
      modifies this
      ensures !locked
      ensures ran <==> forall r | r in old(runs) :: !Serves(r, MostRecentSunday(now))
      ensures !ran ==> runs == old(runs)
      ensures ran && lock == Granted && recorded ==>
                runs == old(runs)
                  + [Run(if now - MostRecentSunday(now) < MINUTE then Scheduled else CatchUp, start, finish, ok)]
      ensures ran && (lock != Granted || !recorded) ==> runs == old(runs)
    {
      DueWhenUnserved(runs, now);
      var decision := DecideDue(now, LastSuccess(runs), LastAttempt(runs));
      if decision.None? {
        return false, 0, false;
      }
      made, ok := RunSync(decision.value, lock, start, tries, finish, recorded);
      ran := true;
    }
  }

  /** With a negative number of attempts a run without any try is recorded as a success. */
  method NoTrySucceeds() returns (made: nat, runs: seq<Run>)
    ensures made == 0 && runs == [Run(Scheduled, 0, 1, true)]
  {
    var s := new LeetCodeScheduler(-1);
    var ok;
    made, ok := s.RunSync(Scheduled, Granted, 0, [], 1, true);
    runs := s.runs;
  }

  // ----- one run per slot -----

  /** One worker's poll: it reads the clock, and if a run is due starts and finishes it later. */
  datatype Event =
    | Poll(now: int, start: int, finish: int, succeeded: bool)
    | Queued(start: int, finish: int, succeeded: bool)

  predicate ClockRuns(events: seq<Event>, from: int)
    decreases events
  {
    events == [] ||
    var e := events[0];
    from <= (if e.Poll? then e.now else e.start) <= e.start <= e.finish && ClockRuns(events[1..], e.finish)
  }

  function Recorded(runs: seq<Run>, e: Event): seq<Run> {
    match e
    case Queued(start, finish, succeeded) => runs + [Run(Manual, start, finish, succeeded)]
    case Poll(now, start, finish, succeeded) =>
      var decision := DecideDue(now, LastSuccess(runs), LastAttempt(runs));
      if decision.None? then runs else runs + [Run(decision.value, start, finish, succeeded)]
  }

  function History(runs: seq<Run>, events: seq<Event>): seq<Run>
    decreases events
  {
    if events == [] then runs else History(Recorded(runs, events[0]), events[1..])
  }

  /** Of two scheduled or catch-up runs the later one belongs to a later slot. */
  ghost predicate OnePerSlot(runs: seq<Run>) {
    forall i, j | 0 <= i < j < |runs| && runs[i].trigger != Manual && runs[j].trigger != Manual ::
      MostRecentSunday(runs[i].startedAt) < MostRecentSunday(runs[j].startedAt)
  }

  ghost predicate Past(runs: seq<Run>, now: int) {
    forall r | r in runs :: r.startedAt <= now
  }

  lemma PollKeepsOnePerSlot(runs: seq<Run>, now: int, start: int)
    requires OnePerSlot(runs) && Past(runs, now) && now <= start
    requires DecideDue(now, LastSuccess(runs), LastAttempt(runs)).Some?
    ensures forall r | r in runs && r.trigger != Manual :: MostRecentSunday(r.startedAt) < MostRecentSunday(start)
  {
    DueWhenUnserved(runs, now);
    SlotsGrow(now, start);
    forall r | r in runs && r.trigger != Manual
      ensures MostRecentSunday(r.startedAt) < MostRecentSunday(start)
    {
      SundayIsSlot(r.startedAt);
    }
  }

  lemma EventKeepsOnePerSlot(runs: seq<Run>, e: Event, from: int)
    requires OnePerSlot(runs) && Past(runs, from) && ClockRuns([e], from)
    ensures OnePerSlot(Recorded(runs, e)) && Past(Recorded(runs, e), e.finish)
  {
    if e.Poll? && DecideDue(e.now, LastSuccess(runs), LastAttempt(runs)).Some? {
      PollKeepsOnePerSlot(runs, e.now, e.start);
    }
    var after := Recorded(runs, e);
    forall i, j | 0 <= i < j < |after| && after[i].trigger != Manual && after[j].trigger != Manual
      ensures MostRecentSunday(after[i].startedAt) < MostRecentSunday(after[j].startedAt)
    {
      assert after[i] == runs[i] && runs[i] in runs;
    }
  }

  /** With one worker, a clock that never goes back and every run recorded, each slot gets at most one run. */
  lemma {:induction false} EachSlotOnce(runs: seq<Run>, events: seq<Event>, from: int)
    requires OnePerSlot(runs) && Past(runs, from) && ClockRuns(events, from)
    ensures OnePerSlot(History(runs, events))
    decreases events
  {
    if events != [] {
      EventKeepsOnePerSlot(runs, events[0], from);
      EachSlotOnce(Recorded(runs, events[0]), events[1..], events[0].finish);
    }
  }
}
