/** The fixed-window rate limiter of the authentication service. Times are in milliseconds. */
module RateLimit {
  import opened Wrappers

  datatype Policy = Policy(max: nat, windowSeconds: int)
  datatype Counter = Counter(count: nat, resetAt: int)
  datatype Result = Result(allowed: bool, limit: nat, remaining: nat, retryAfterSeconds: int, resetAt: int)

  type Counters = map<string, Counter>

  const PRUNE_ABOVE := 10_000

  function Ceil(ms: int): int {
    if ms % 1000 == 0 then ms / 1000 else ms / 1000 + 1
  }

  /** The counter of a key while its window lasts. */
  function Current(c: Counters, key: string, now: int): Option<Counter> {
    if key in c && now < c[key].resetAt then Some(c[key]) else None
  }

  /** The counter after one more request: in its window, or the first of a new one. */
  function Counted(current: Option<Counter>, p: Policy, now: int): Counter {
    if current.Some? then Counter(current.value.count + 1, current.value.resetAt)
    else Counter(1, now + p.windowSeconds * 1000)
  }

  function ResultOf(c: Counter, p: Policy, now: int): Result {
    Result(c.count <= p.max, p.max, if p.max >= c.count then p.max - c.count else 0,
           if Ceil(c.resetAt - now) > 1 then Ceil(c.resetAt - now) else 1, c.resetAt)
  }

  function Pruned(c: Counters, now: int): Counters {
    map key | key in c && now < c[key].resetAt :: c[key]
  }

  /** later is the clock when pruning reads it, after now. */
  function After(c: Counters, key: string, p: Policy, now: int, later: int): Counters {
    var next := c[key := Counted(Current(c, key, now), p, now)];
    if |next| > PRUNE_ABOVE then Pruned(next, later) else next
  }

  class FixedWindowRateLimiter {
    var counters: Counters

    constructor ()
      ensures counters == map[]
    {
      counters := map[];
    }

    method Consume(key: string, p: Policy, now: int, later: int) returns (r: Result)
      modifies this
      ensures r == ResultOf(Counted(Current(old(counters), key, now), p, now), p, now)
      ensures counters == After(old(counters), key, p, now, later)
    {
      var counter := Counter(0, now + p.windowSeconds * 1000);
      if key in counters {
        if counters[key].resetAt > now {
          counter := counters[key];
        }
      }
      counter := counter.(count := counter.count + 1);
      counters := counters[key := counter];
      if |counters| > PRUNE_ABOVE {
        Prune(later);
      }
      var retry := Ceil(counter.resetAt - now);
      if retry < 1 {
        retry := 1;
      }
      var remaining := 0;
      if counter.count <= p.max {
        remaining := p.max - counter.count;
      }
      r := Result(counter.count <= p.max, p.max, remaining, retry, counter.resetAt);
    }

    method Prune(now: int)
      modifies this
      ensures counters == Pruned(old(counters), now)
    {
      var left := counters.Keys;
      while left != {}
        invariant left <= old(counters).Keys
        invariant counters ==
                  map key | key in old(counters) && (key in left || now < old(counters)[key].resetAt) ::
                    old(counters)[key]
        decreases |left|
      {
        var key :| key in left;
        left := left - {key};
        if counters[key].resetAt <= now {
          counters := counters - {key};
        }
      }
    }
  }

  // ----- pruning is invisible -----

  datatype Event =
    | Request(key: string, policy: Policy, now: int, later: int)
    | PruneNow(now: int)

  function TimeOf(e: Event): int {
    e.now
  }

  function LastTime(e: Event): int {
    match e
    case Request(_, _, _, later) => later
    case PruneNow(now) => now
  }

  /** A clock that never goes back, also within a request. */
  predicate ClockRuns(events: seq<Event>, from: int)
    decreases events
  {
    events == [] || (from <= TimeOf(events[0]) <= LastTime(events[0]) && ClockRuns(events[1..], LastTime(events[0])))
  }

  function Next(c: Counters, e: Event): Counters {
    match e
    case Request(key, p, now, later) => After(c, key, p, now, later)
    case PruneNow(now) => Pruned(c, now)
  }

  function Answers(c: Counters, e: Event): seq<Result> {
    match e
    case Request(key, p, now, _) => [ResultOf(Counted(Current(c, key, now), p, now), p, now)]
    case PruneNow(_) => []
  }

  function Results(c: Counters, events: seq<Event>): seq<Result>
    decreases events
  {
    if events == [] then [] else Answers(c, events[0]) + Results(Next(c, events[0]), events[1..])
  }

  /** The limiter that never prunes. */
  function NextUnpruned(c: Counters, e: Event): Counters {
    match e
    case Request(key, p, now, _) => c[key := Counted(Current(c, key, now), p, now)]
    case PruneNow(_) => c
  }

  function ResultsUnpruned(c: Counters, events: seq<Event>): seq<Result>
    decreases events
  {
    if events == [] then [] else Answers(c, events[0]) + ResultsUnpruned(NextUnpruned(c, events[0]), events[1..])
  }

  /** No difference that a request at time t or later could see. */
  ghost predicate SameFrom(c: Counters, d: Counters, t: int) {
    forall key, now | t <= now :: Current(c, key, now) == Current(d, key, now)
  }

  lemma RequestKeepsSame(c: Counters, d: Counters, key: string, p: Policy, now: int, later: int)
    requires SameFrom(c, d, now) && now <= later
    ensures SameFrom(After(c, key, p, now, later), NextUnpruned(d, Request(key, p, now, later)), later)
  {
    var counted := Counted(Current(c, key, now), p, now);
    assert counted == Counted(Current(d, key, now), p, now);
    var next, unpruned := c[key := counted], d[key := counted];
    forall k, t | now <= t
      ensures Current(next, k, t) == Current(unpruned, k, t)
    {
      assert Current(c, k, t) == Current(d, k, t);
    }
  }

  lemma NextKeepsSame(c: Counters, d: Counters, e: Event)
    requires SameFrom(c, d, TimeOf(e)) && TimeOf(e) <= LastTime(e)
    ensures SameFrom(Next(c, e), NextUnpruned(d, e), LastTime(e)) && Answers(c, e) == Answers(d, e)
  {
    match e
    case Request(key, p, now, later) => RequestKeepsSame(c, d, key, p, now, later);
    case _ =>
  }

  /** Pruning, whenever it happens, changes no later result. */
  lemma {:induction false} PruningIsInvisible(c: Counters, d: Counters, events: seq<Event>, from: int)
    requires ClockRuns(events, from) && SameFrom(c, d, from)
    ensures Results(c, events) == ResultsUnpruned(d, events)
    decreases events
  {
    if events != [] {
      NextKeepsSame(c, d, events[0]);
      PruningIsInvisible(Next(c, events[0]), NextUnpruned(d, events[0]), events[1..], LastTime(events[0]));
    }
  }

  // ----- how many requests an interval can see -----

  predicate ForKey(e: Event, key: string) {
    e.Request? && e.key == key
  }

  predicate OnePolicy(events: seq<Event>, key: string, p: Policy) {
    forall i | 0 <= i < |events| && ForKey(events[i], key) :: events[i].policy == p
  }

  /** The requests of a run, in order: the results answer them one by one. */
  function Requests(events: seq<Event>): (r: seq<Event>)
    ensures forall i | 0 <= i < |r| :: r[i].Request?
    decreases events
  {
    if events == [] then [] else (if events[0].Request? then [events[0]] else []) + Requests(events[1..])
  }

  /** How many of the answers let a request for the key within the interval [a, b) through. */
  function LetThrough(requests: seq<Event>, results: seq<Result>, key: string, a: int, b: int): nat
    requires |requests| == |results|
    decreases requests
  {
    if requests == [] then 0
    else
      (if ForKey(requests[0], key) && a <= requests[0].now < b && results[0].allowed then 1 else 0)
      + LetThrough(requests[1..], results[1..], key, a, b)
  }

  lemma {:induction false} OneResultEach(c: Counters, events: seq<Event>)
    ensures |Results(c, events)| == |Requests(events)|
    decreases events
  {
    if events != [] {
      OneResultEach(Next(c, events[0]), events[1..]);
    }
  }

  /** Whether an event is a request for the key within the interval [a, b) that is let through. */
  predicate AllowedWithin(c: Counters, e: Event, key: string, a: int, b: int) {
    ForKey(e, key) && a <= e.now < b && Answers(c, e)[0].allowed
  }

  function AllowedCount(c: Counters, events: seq<Event>, key: string, a: int, b: int): nat
    decreases events
  {
    if events == [] then 0
    else
      (if AllowedWithin(c, events[0], key, a, b) then 1 else 0)
      + AllowedCount(Next(c, events[0]), events[1..], key, a, b)
  }

  lemma {:induction false} AllowedAreLetThrough(c: Counters, events: seq<Event>, key: string, a: int, b: int)
    ensures |Results(c, events)| == |Requests(events)|
    ensures LetThrough(Requests(events), Results(c, events), key, a, b) == AllowedCount(c, events, key, a, b)
    decreases events
  {
    OneResultEach(c, events);
    if events != [] {
      var next, rest := Next(c, events[0]), events[1..];
      AllowedAreLetThrough(next, rest, key, a, b);
      if events[0].Request? {
        assert Requests(events)[1..] == Requests(rest) && Results(c, events)[1..] == Results(next, rest);
      } else {
        assert Requests(events) == Requests(rest) && Results(c, events) == Results(next, rest);
      }
    }
  }

  /** What is left of a window that a counter stands for. */
  function Left(c: Option<Counter>, p: Policy): nat {
    if c.Some? then if p.max >= c.value.count then p.max - c.value.count else 0 else p.max
  }

  /** The most that an interval of one window can still see, given the counter at the present time. */
  function Bound(c: Option<Counter>, p: Policy, a: int): nat {
    if c.None? || c.value.resetAt < a then 2 * p.max
    else if c.value.resetAt >= a + p.windowSeconds * 1000 then Left(c, p)
    else Left(c, p) + p.max
  }

  lemma {:induction false} NothingAfter(c: Counters, events: seq<Event>, key: string, a: int, b: int, from: int)
    requires ClockRuns(events, from) && b <= from
    ensures AllowedCount(c, events, key, a, b) == 0
    decreases events
  {
    if events != [] {
      NothingAfter(Next(c, events[0]), events[1..], key, a, b, LastTime(events[0]));
    }
  }

  lemma OtherEventsKeepCurrent(c: Counters, e: Event, key: string, now: int)
    requires !ForKey(e, key) && LastTime(e) <= now && TimeOf(e) <= LastTime(e)
    ensures Current(Next(c, e), key, now) == Current(c, key, now)
  {
  }

  lemma OwnEventCounts(c: Counters, e: Event, key: string)
    requires ForKey(e, key) && e.now <= e.later
    ensures var counted := Counted(Current(c, key, e.now), e.policy, e.now);
            Current(Next(c, e), key, e.later) == (if e.later < counted.resetAt then Some(counted) else None)
  {
  }

  /** With nothing counted, a window that opens within the interval is the only one it can see. */
  lemma {:induction false} WithinBound(c: Counters, events: seq<Event>, key: string, p: Policy, a: int, from: int)
    requires ClockRuns(events, from) && OnePolicy(events, key, p)
    ensures AllowedCount(c, events, key, a, a + p.windowSeconds * 1000) <= Bound(Current(c, key, from), p, a)
    ensures Current(c, key, from).None? && a <= from
            ==> AllowedCount(c, events, key, a, a + p.windowSeconds * 1000) <= p.max
    decreases events
  {
    if events != [] {
      var e, rest := events[0], events[1..];
      var b, later := a + p.windowSeconds * 1000, LastTime(e);
      assert forall i | 0 <= i < |rest| :: rest[i] == events[i + 1];
      WithinBound(Next(c, e), rest, key, p, a, later);
      if b <= later {
        NothingAfter(Next(c, e), rest, key, a, b, later);
      }
      if ForKey(e, key) {
        assert e.policy == p;
        OwnEventCounts(c, e, key);
        OwnEventBound(Current(c, key, from), Current(c, key, e.now), e, p, a, from,
                      AllowedCount(Next(c, e), rest, key, a, b), if AllowedWithin(c, e, key, a, b) then 1 else 0);
      } else {
        OtherEventsKeepCurrent(c, e, key, later);
      }
    }
  }

  /** The arithmetic of one request: what it and the rest can see stays within the bound. */
  lemma OwnEventBound(before: Option<Counter>, current: Option<Counter>, e: Event, p: Policy, a: int, from: int,
                      rest: nat, own: nat)
    requires e.Request? && e.policy == p && from <= e.now <= e.later
    requires before.Some? ==> from < before.value.resetAt
    requires current == if before.Some? && e.now < before.value.resetAt then before else None
    requires var b, counted := a + p.windowSeconds * 1000, Counted(current, p, e.now);
             && own == (if a <= e.now < b && counted.count <= p.max then 1 else 0)
             && (b <= e.later ==> rest == 0)
             && (e.later < counted.resetAt ==> rest <= Bound(Some(counted), p, a))
             && (e.later >= counted.resetAt ==> rest <= 2 * p.max && (a <= e.later ==> rest <= p.max))
    ensures own + rest <= Bound(before, p, a)
    ensures before.None? && a <= from ==> own + rest <= p.max
  {
  }

  /** No interval of one window's length ever sees more than twice the maximum let through for a key with one policy. */
  lemma AtMostTwiceMax(events: seq<Event>, key: string, p: Policy, a: int, from: int)
    requires ClockRuns(events, from) && OnePolicy(events, key, p)
    ensures |Results(map[], events)| == |Requests(events)|
    ensures LetThrough(Requests(events), Results(map[], events), key, a, a + p.windowSeconds * 1000) <= 2 * p.max
  {
    WithinBound(map[], events, key, p, a, from);
    AllowedAreLetThrough(map[], events, key, a, a + p.windowSeconds * 1000);
  }

  // ----- what one window lets through -----

  /** How many of these requests are for the key. */
  function CountFor(requests: seq<Event>, key: string): nat {
    if requests == [] then 0
    else CountFor(requests[..|requests| - 1], key) + if ForKey(requests[|requests| - 1], key) then 1 else 0
  }

  /** Every request for the key comes before the time at which its window ends. */
  predicate AllBefore(events: seq<Event>, key: string, end: int) {
    forall i | 0 <= i < |events| && ForKey(events[i], key) :: events[i].now < end
  }

  /** A window with n requests counted so far; what happens at its end or later is not looked at. */
  ghost predicate InWindow(c: Counters, key: string, n: nat, end: int, from: int) {
    from < end ==> Current(c, key, from) == Some(Counter(n, end))
  }

  lemma {:induction false} CountForFirst(requests: seq<Event>, key: string, n: nat)
    requires requests != [] && n < |requests|
    ensures CountFor(requests[..n + 1], key)
            == (if ForKey(requests[0], key) then 1 else 0) + CountFor(requests[1..][..n], key)
    decreases n
  {
    var longer := requests[..n + 1];
    assert longer[..|longer| - 1] == requests[..n];
    if n > 0 {
      CountForFirst(requests, key, n - 1);
      var rest := requests[1..][..n];
      assert rest[..|rest| - 1] == requests[1..][..n - 1];
    }
  }

  /** What the k-th request of a run is told when it is for a key whose window has n requests already. */
  ghost predicate Told(requests: seq<Event>, results: seq<Result>, k: nat, key: string, n: nat, end: int)
    requires k < |requests| == |results| && requests[k].Request?
  {
    var i := n + CountFor(requests[..k + 1], key);
    var max := requests[k].policy.max;
    && results[k].limit == max && results[k].resetAt == end
    && (results[k].allowed <==> i <= max)
    && results[k].remaining == if i <= max then max - i else 0
  }

  lemma WindowStep(c: Counters, e: Event, key: string, n: nat, end: int, from: int)
    requires InWindow(c, key, n, end, from) && from <= TimeOf(e) <= LastTime(e)
    requires ForKey(e, key) ==> e.now < end
    ensures InWindow(Next(c, e), key, if ForKey(e, key) then n + 1 else n, end, LastTime(e))
    ensures ForKey(e, key) ==> Answers(c, e) == [ResultOf(Counter(n + 1, end), e.policy, e.now)]
  {
    if ForKey(e, key) {
      OwnEventCounts(c, e, key);
    } else if LastTime(e) < end {
      OtherEventsKeepCurrent(c, e, key, LastTime(e));
    }
  }

  /** No request of a run comes before its first event. */
  lemma {:induction false} RequestsFollow(events: seq<Event>, from: int, k: nat)
    requires ClockRuns(events, from) && k < |Requests(events)|
    ensures from <= TimeOf(events[0]) <= Requests(events)[k].now
    decreases events
  {
    var e, rest := events[0], events[1..];
    if !e.Request? {
      RequestsFollow(rest, LastTime(e), k);
    } else if k > 0 {
      assert Requests(events)[1..] == Requests(rest);
      RequestsFollow(rest, LastTime(e), k - 1);
    }
  }

  lemma {:induction false} WindowTells(
    c: Counters, events: seq<Event>, key: string, n: nat, end: int, from: int, k: nat)
    requires ClockRuns(events, from) && InWindow(c, key, n, end, from)
    requires k < |Requests(events)| && ForKey(Requests(events)[k], key) && Requests(events)[k].now < end
    ensures |Results(c, events)| == |Requests(events)|
    ensures Told(Requests(events), Results(c, events), k, key, n, end)
    decreases events
  {
    OneResultEach(c, events);
    var e, rest, next := events[0], events[1..], Next(c, events[0]);
    RequestsFollow(events, from, k);
    WindowStep(c, e, key, n, end, from);
    var n' := if ForKey(e, key) then n + 1 else n;
    if !e.Request? {
      assert Requests(events) == Requests(rest) && Results(c, events) == Results(next, rest);
      WindowTells(next, rest, key, n', end, LastTime(e), k);
    } else {
      assert Requests(events)[1..] == Requests(rest) && Results(c, events)[1..] == Results(next, rest);
      CountForFirst(Requests(events), key, k);
      if k > 0 {
        WindowTells(next, rest, key, n', end, LastTime(e), k - 1);
      }
    }
  }

  /**
   From the request that opens a window on, and while the window lasts, the i-th request for its key is let through
   exactly when i is at most the maximum, and it is told the maximum, how many are left and when the window ends.
   */
  lemma WindowLetsFirstMaxThrough(c: Counters, e: Event, rest: seq<Event>, k: nat)
    requires e.Request? && ClockRuns([e] + rest, e.now) && Current(c, e.key, e.now).None?
    requires k < |Requests([e] + rest)| && ForKey(Requests([e] + rest)[k], e.key)
    requires k > 0 ==> Requests([e] + rest)[k].now < e.now + e.policy.windowSeconds * 1000
    ensures |Results(c, [e] + rest)| == |Requests([e] + rest)|
    ensures Told(Requests([e] + rest), Results(c, [e] + rest), k, e.key, 0, e.now + e.policy.windowSeconds * 1000)
  {
    var events, end := [e] + rest, e.now + e.policy.windowSeconds * 1000;
    assert events[0] == e && events[1..] == rest;
    OneResultEach(c, events);
    var next := Next(c, e);
    OwnEventCounts(c, e, e.key);
    assert Requests(events) == [e] + Requests(rest) && Results(c, events) == Answers(c, e) + Results(next, rest);
    assert Requests(events)[1..] == Requests(rest) && Results(c, events)[1..] == Results(next, rest);
    CountForFirst(Requests(events), e.key, k);
    if k > 0 {
      WindowTells(next, rest, e.key, 1, end, e.later, k - 1);
    }
  }

  lemma {:induction false} WindowCounts(
    c: Counters, events: seq<Event>, key: string, p: Policy, n: nat, end: int, from: int, a: int)
    requires ClockRuns(events, from) && OnePolicy(events, key, p)
    requires InWindow(c, key, n, end, from) && AllBefore(events, key, end) && a <= from
    ensures |Results(c, events)| == |Requests(events)|
    ensures var left := if n <= p.max then p.max - n else 0;
            LetThrough(Requests(events), Results(c, events), key, a, end)
            == if CountIn(events, key) <= left then CountIn(events, key) else left
    decreases events
  {
    OneResultEach(c, events);
    if events != [] {
      var e, rest, next := events[0], events[1..], Next(c, events[0]);
      assert forall i | 0 <= i < |rest| :: rest[i] == events[i + 1];
      WindowStep(c, e, key, n, end, from);
      WindowCounts(next, rest, key, p, if ForKey(e, key) then n + 1 else n, end, LastTime(e), a);
      if e.Request? {
        assert Requests(events)[1..] == Requests(rest) && Results(c, events)[1..] == Results(next, rest);
      } else {
        assert Requests(events) == Requests(rest) && Results(c, events) == Results(next, rest);
      }
    }
  }

  function CountIn(events: seq<Event>, key: string): nat {
    if events == [] then 0 else (if ForKey(events[0], key) then 1 else 0) + CountIn(events[1..], key)
  }

  /**
   The remaining number that a request is told is how many later requests of its key the same window lets through:
   all that come, if there are no more of them.
   */
  lemma RemainingIsWhatIsLeft(c: Counters, e: Event, rest: seq<Event>)
    requires e.Request? && ClockRuns([e] + rest, e.now) && OnePolicy(rest, e.key, e.policy)
    requires AllBefore(rest, e.key, Answers(c, e)[0].resetAt)
    ensures var answer, next := Answers(c, e)[0], Next(c, e);
            && |Results(next, rest)| == |Requests(rest)|
            && LetThrough(Requests(rest), Results(next, rest), e.key, e.now, answer.resetAt)
               == if CountIn(rest, e.key) <= answer.remaining then CountIn(rest, e.key) else answer.remaining
  {
    assert ([e] + rest)[1..] == rest;
    var counted := Counted(Current(c, e.key, e.now), e.policy, e.now);
    OwnEventCounts(c, e, e.key);
    WindowCounts(Next(c, e), rest, e.key, e.policy, counted.count, counted.resetAt, e.later, e.now);
  }

  // ----- retry-after -----

  lemma {:induction false} OtherRunsKeepCurrent(c: Counters, events: seq<Event>, key: string, from: int, now: int)
    requires ClockRuns(events, from) && (forall i | 0 <= i < |events| :: !ForKey(events[i], key))
    requires from <= now && forall i | 0 <= i < |events| :: LastTime(events[i]) <= now
    ensures Current(Final(c, events), key, now) == Current(c, key, now)
    decreases events
  {
    if events != [] {
      OtherEventsKeepCurrent(c, events[0], key, now);
      assert forall i | 0 <= i < |events| - 1 :: events[1..][i] == events[i + 1];
      OtherRunsKeepCurrent(Next(c, events[0]), events[1..], key, LastTime(events[0]), now);
    }
  }

  function Final(c: Counters, events: seq<Event>): Counters
    decreases events
  {
    if events == [] then c else Final(Next(c, events[0]), events[1..])
  }

  /**
   A request that waits for the reported retry-after opens a fresh window, whatever other keys do meanwhile;
   and the wait is the shortest number of whole seconds, at least one, that ensures this.
   */
  lemma RetryAfterSuffices(c: Counters, e: Event, others: seq<Event>, p: Policy, now: int)
    requires e.Request? && ClockRuns([e] + others, e.now) && forall i | 0 <= i < |others| :: !ForKey(others[i], e.key)
    requires var r := ResultOf(Counted(Current(c, e.key, e.now), e.policy, e.now), e.policy, e.now);
             e.now + 1000 * r.retryAfterSeconds <= now
    requires e.later <= now && forall i | 0 <= i < |others| :: LastTime(others[i]) <= now
    ensures var later := Final(c, [e] + others);
            && Current(later, e.key, now).None?
            && Counted(Current(later, e.key, now), p, now) == Counter(1, now + p.windowSeconds * 1000)
    ensures var r := ResultOf(Counted(Current(c, e.key, e.now), e.policy, e.now), e.policy, e.now);
            r.retryAfterSeconds > 1 ==> e.now + 1000 * (r.retryAfterSeconds - 1) < r.resetAt
  {
    var counted := Counted(Current(c, e.key, e.now), e.policy, e.now);
    assert ([e] + others)[1..] == others;
    OwnEventCounts(c, e, e.key);
    OtherRunsKeepCurrent(Next(c, e), others, e.key, e.later, now);
    OwnEventExpires(c, e, now);
  }

  lemma OwnEventExpires(c: Counters, e: Event, now: int)
    requires e.Request? && e.now <= e.later <= now
    requires Counted(Current(c, e.key, e.now), e.policy, e.now).resetAt <= now
    ensures Current(Next(c, e), e.key, now).None?
  {
  }
}
