/**
 Converting a local date and time to an instant by repeated correction. Instants are in seconds; a zone is
 given by its offset from UTC at every instant.
 */
module ZonedTime {
  import opened Wrappers

  type Zone = int -> int

  /** A date, as a day number, with a time of day; the fields of an input need not be in range. */
  datatype Fields = Fields(day: int, hour: int, minute: int, second: int)

  const DAY := 86400

  /** The instant at which a clock set to UTC shows the fields; fields out of range carry over. */
  function Utc(f: Fields): int {
    f.day * DAY + f.hour * 3600 + f.minute * 60 + f.second
  }

  predicate InRange(f: Fields) {
    0 <= f.hour < 24 && 0 <= f.minute < 60 && 0 <= f.second < 60
  }

  /** What a clock shows: always fields in range. */
  function Shown(local: int): (f: Fields)
    ensures InRange(f) && Utc(f) == local
  {
    var s := local % DAY;
    Fields(local / DAY, s / 3600, s % 3600 / 60, s % 60)
  }

  lemma ShownIsUnique(f: Fields)
    requires InRange(f)
    ensures Shown(Utc(f)) == f
  {
    var g := Shown(Utc(f));
    var a, b := f.hour * 3600 + f.minute * 60 + f.second, g.hour * 3600 + g.minute * 60 + g.second;
    assert 0 <= a < DAY && 0 <= b < DAY && (f.day - g.day) * DAY == b - a;
    assert f.day == g.day;
    assert f.hour == g.hour;
  }

  function Local(z: Zone, t: int): int {
    t + z(t)
  }

  /** A date and time input shows no seconds. */
  function FormatDateTimeInput(z: Zone, t: int): (int, int, int) {
    var f := Shown(Local(z, t));
    (f.day, f.hour, f.minute)
  }

  const PASSES := 4

  /** The guess after at most n passes; a pass without correction ends it. */
  function Corrected(z: Zone, desired: int, guess: int, n: nat): int
    decreases n
  {
    if n == 0 then guess
    else
      var correction := desired - Local(z, guess);
      if correction == 0 then guess else Corrected(z, desired, guess + correction, n - 1)
  }

  method ZonedDateTimeToUtc(value: Fields, z: Zone) returns (guess: int)
    ensures guess == Corrected(z, Utc(value), Utc(value), PASSES)
  {
    var desired := Utc(value);
    guess := desired;
    var index := 0;
    while index < PASSES
      invariant 0 <= index <= PASSES
      invariant Corrected(z, desired, guess, PASSES - index) == Corrected(z, desired, desired, PASSES)
    {
      var represented := Utc(Shown(Local(z, guess)));
      var correction := desired - represented;
      guess := guess + correction;
      if correction == 0 {
        break;
      }
      index := index + 1;
    }
  }

  /** No offset exceeds the bound. */
  ghost predicate Bounded(z: Zone, bound: int) {
    forall t :: -bound <= z(t) <= bound
  }

  /** Within the bound of the requested time the offset changes at most once, from one value to another. */
  ghost predicate OneChange(z: Zone, desired: int, bound: int, change: int, before: int, after: int) {
    forall t | desired - bound <= t <= desired + bound :: z(t) == if t < change then before else after
  }

  /** Some instant has the requested local time. */
  ghost predicate Exists(z: Zone, desired: int) {
    exists t :: Local(z, t) == desired
  }

  lemma ExistsIff(z: Zone, desired: int, bound: int, change: int, before: int, after: int)
    requires Bounded(z, bound) && OneChange(z, desired, bound, change, before, after)
    ensures Exists(z, desired) <==>
            || (-bound <= before <= bound && desired - before < change)
            || (-bound <= after <= bound && desired - after >= change)
  {
    if Exists(z, desired) {
      var t :| Local(z, t) == desired;
      assert z(t) == if t < change then before else after;
    }
    if -bound <= before <= bound && desired - before < change {
      assert Local(z, desired - before) == desired;
    }
    if -bound <= after <= bound && desired - after >= change {
      assert Local(z, desired - after) == desired;
    }
  }

  /** The candidate instants: the requested time read with either offset. */
  function Candidate(desired: int, change: int, before: int, after: int, guess: int): int {
    desired - if guess < change then before else after
  }

  /** The conversion finds an instant with the requested local time whenever there is one. */
  lemma FindsExisting(z: Zone, desired: int, bound: int, change: int, before: int, after: int)
    requires Bounded(z, bound) && OneChange(z, desired, bound, change, before, after)
    ensures Local(z, Corrected(z, desired, desired, PASSES)) == desired <==> Exists(z, desired)
  {
    ExistsIff(z, desired, bound, change, before, after);
    var first := Candidate(desired, change, before, after, desired);
    var second := Candidate(desired, change, before, after, first);
    assert z(desired) == if desired < change then before else after;
    assert z(first) == if first < change then before else after;
    assert z(second) == if second < change then before else after;
    if Exists(z, desired) {
      var t :| Local(z, t) == desired;
      assert z(t) == if t < change then before else after;
    }
  }

  /**
   In a gap the conversion ends on the requested time read with the offset that does not hold at the first
   guess: one gap's length before the requested local time when that guess precedes the change, after it otherwise.
   */
  lemma GapEndsBeside(z: Zone, desired: int, bound: int, change: int, before: int, after: int)
    requires Bounded(z, bound) && OneChange(z, desired, bound, change, before, after)
    requires !Exists(z, desired)
    ensures var result := Corrected(z, desired, desired, PASSES);
            && desired - after < change <= desired - before
            && result == (if desired < change then desired - after else desired - before)
            && Local(z, result) == (if desired < change then desired - (after - before) else desired + (after - before))
  {
    ExistsIff(z, desired, bound, change, before, after);
    var first := Candidate(desired, change, before, after, desired);
    var second := Candidate(desired, change, before, after, first);
    assert z(desired) == if desired < change then before else after;
    assert z(first) == if first < change then before else after;
    assert z(second) == if second < change then before else after;
    assert Local(z, first) != desired && Local(z, second) != desired;
  }

  /** When clocks go back, an ambiguous time is the one that the offset at the first guess gives. */
  lemma AmbiguousTimeChosen(z: Zone, desired: int, bound: int, change: int, before: int, after: int)
    requires Bounded(z, bound) && OneChange(z, desired, bound, change, before, after)
    requires desired - before < change <= desired - after
    ensures Corrected(z, desired, desired, PASSES) == if desired < change then desired - before else desired - after
  {
  }

  /** Formatting the result of an input in range, with whole minutes, gives the input back exactly when it exists. */
  lemma FormatUndoesConvert(value: Fields, z: Zone, bound: int, change: int, before: int, after: int)
    requires InRange(value) && value.second == 0
    requires Bounded(z, bound) && OneChange(z, Utc(value), bound, change, before, after)
    ensures var result := Corrected(z, Utc(value), Utc(value), PASSES);
            && (Exists(z, Utc(value)) ==> Shown(Local(z, result)) == value
                                          && FormatDateTimeInput(z, result) == (value.day, value.hour, value.minute))
            && (!Exists(z, Utc(value)) ==> Shown(Local(z, result)) != value)
  {
    FindsExisting(z, Utc(value), bound, change, before, after);
    ShownIsUnique(value);
  }
}
