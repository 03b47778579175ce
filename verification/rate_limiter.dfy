/** The in-memory sliding-window rate limiter of common/rate-limit.go, and the unbounded log of
    grants that it stands for. Times are whole seconds; the mutex makes each method one step. */
module RateLimiter {

  type Store = map<string, seq<int>>

  datatype Limit = Limit(maxRequests: nat, duration: int)

  /** A missing key is granted without a look at the limit, so a limit of 0 acts like 1. */
  function Effective(max: nat): nat {
    if max == 0 then 1 else max
  }

  /** The queue of a key after a request, and whether it was granted. */
  function Enqueue(store: Store, key: string, limit: Limit, now: int): (seq<int>, bool)
    requires key in store ==> store[key] != []
  {
    if key !in store then ([now], true)
    else if |store[key]| < limit.maxRequests then (store[key] + [now], true)
    else if now - store[key][0] >= limit.duration then (store[key][1..] + [now], true)
    else (store[key], false)
  }

  predicate Stale(queue: seq<int>, expiration: nat, now: int) {
    queue == [] || now - queue[|queue| - 1] > expiration
  }

  function Swept(store: Store, expiration: nat, now: int): Store {
    map key | key in store && !Stale(store[key], expiration, now) :: store[key]
  }

  class InMemoryRateLimiter {
    var store: Store
    const expiration: nat

    constructor (expiration: nat)
      ensures Valid() && store == map[] && this.expiration == expiration
    {
      store := map[];
      this.expiration := expiration;
    }

    ghost predicate Valid()
      reads this
    {
      forall key :: key in store ==> store[key] != []
    }

    method Request(key: string, limit: Limit, now: int) returns (granted: bool)
      requires Valid()
      modifies this
      ensures Valid()
      ensures store == old(store)[key := Enqueue(old(store), key, limit, now).0]
      ensures granted == Enqueue(old(store), key, limit, now).1
    {
      if key in store {
        var queue := store[key];
        if |queue| < limit.maxRequests {
          store := store[key := queue + [now]];
          return true;
        } else {
          if now - queue[0] >= limit.duration {
            queue := queue[1..];
            queue := queue + [now];
            store := store[key := queue];
            return true;
          } else {
            return false;
          }
        }
      } else {
        store := store[key := []];
        store := store[key := store[key] + [now]];
        assert store[key] == [now];
      }
      return true;
    }

    /** One turn of the background loop. */
    method ClearExpiredItems(now: int)
      requires Valid()
      modifies this
      ensures Valid()
      ensures store == Swept(old(store), expiration, now)
    {
      ghost var was := store;
      var todo := store.Keys;
      while todo != {}
        invariant todo <= store.Keys <= was.Keys
        invariant forall key :: key in store ==> store[key] == was[key]
        invariant forall key :: key in was && key !in todo ==> (key in store <==> !Stale(was[key], expiration, now))
        decreases todo
      {
        var key :| key in todo;
        todo := todo - {key};
        var queue := store[key];
        var size := |queue|;
        if size == 0 || now - queue[size - 1] > expiration {
          store := store - {key};
        }
      }
    }
  }

  // ----- The specification: an unbounded log -----

  type Log = map<string, seq<int>>

  function Granted(log: Log, key: string): seq<int> {
    if key in log then log[key] else []
  }

  /** How many times of a list lie in the window (lo, hi]. */
  function Count(times: seq<int>, lo: int, hi: int): nat {
    if times == [] then 0
    else Count(times[..|times| - 1], lo, hi) + if lo < times[|times| - 1] <= hi then 1 else 0
  }

  predicate Allows(log: Log, key: string, limit: Limit, now: int) {
    Count(Granted(log, key), now - limit.duration, now) < Effective(limit.maxRequests)
  }

  function Record(log: Log, key: string, limit: Limit, now: int): Log {
    if Allows(log, key, limit, now) then log[key := Granted(log, key) + [now]] else log
  }

  // ----- Runs -----

  datatype Event = Request(key: string, now: int) | Sweep(now: int)

  type Limits = string -> Limit

  function LimiterRun(events: seq<Event>, limits: Limits, expiration: nat): (r: (Store, seq<bool>))
    ensures forall key :: key in r.0 ==> r.0[key] != []
  {
    if events == [] then (map[], [])
    else
      var (store, decisions) := LimiterRun(events[..|events| - 1], limits, expiration);
      match events[|events| - 1]
      case Request(key, now) =>
        var (queue, granted) := Enqueue(store, key, limits(key), now);
        (store[key := queue], decisions + [granted])
      case Sweep(now) => (Swept(store, expiration, now), decisions)
  }

  function LogRun(events: seq<Event>, limits: Limits): (Log, seq<bool>) {
    if events == [] then (map[], [])
    else
      var (log, decisions) := LogRun(events[..|events| - 1], limits);
      match events[|events| - 1]
      case Request(key, now) => (Record(log, key, limits(key), now), decisions + [Allows(log, key, limits(key), now)])
      case Sweep(_) => (log, decisions)
  }

  /** The clock does not run backwards. */
  predicate Timed(events: seq<Event>) {
    forall i, j :: 0 <= i < j < |events| ==> events[i].now <= events[j].now
  }

  /** The background loop is started only for a positive expiration. */
  predicate Possible(events: seq<Event>, expiration: nat) {
    Timed(events) && (expiration == 0 ==> forall i :: 0 <= i < |events| ==> events[i].Request?)
  }

  /** What a queue lacks is at least this old: the expiration, or without a sweep any age. */
  function Slack(limit: Limit, expiration: nat): nat {
    if expiration > 0 then expiration else if limit.duration > 0 then limit.duration else 0
  }

  function Clock(events: seq<Event>): int {
    if events == [] then 0 else events[|events| - 1].now
  }

  // ----- Counting in sorted lists -----

  predicate Sorted(times: seq<int>) {
    forall i, j :: 0 <= i < j < |times| ==> times[i] <= times[j]
  }

  predicate UpTo(times: seq<int>, hi: int) {
    forall i :: 0 <= i < |times| ==> times[i] <= hi
  }

  lemma {:induction false} CountAtMost(times: seq<int>, k: nat, lo: int, hi: int)
    requires k <= |times| && forall i :: 0 <= i < k ==> times[i] <= lo
    ensures Count(times, lo, hi) <= |times| - k
  {
    if times != [] {
      var front := times[..|times| - 1];
      CountAtMost(front, if k == |times| then k - 1 else k, lo, hi);
    }
  }

  lemma {:induction false} CountAtLeast(times: seq<int>, k: nat, lo: int, hi: int)
    requires k <= |times| && forall i :: k <= i < |times| ==> lo < times[i] <= hi
    ensures Count(times, lo, hi) >= |times| - k
  {
    if k < |times| {
      CountAtLeast(times[..|times| - 1], k, lo, hi);
    }
  }

  /** Fewer than m of a sorted list lie in a window that ends at or after all of them exactly
      when the m-th from the end does not. */
  lemma CountBelow(times: seq<int>, m: nat, lo: int, hi: int)
    requires m > 0 && Sorted(times) && UpTo(times, hi)
    ensures Count(times, lo, hi) < m <==> |times| < m || times[|times| - m] <= lo
  {
    if |times| < m {
      CountAtMost(times, 0, lo, hi);
    } else if times[|times| - m] <= lo {
      CountAtMost(times, |times| - m + 1, lo, hi);
    } else {
      CountAtLeast(times, |times| - m, lo, hi);
    }
  }

  // ----- Refinement -----

  /** A queue is the end of its key's log. What the queue lacks, or the whole log of a key that
      is not stored, has expired, unless the queue is full. */
  ghost predicate Represents(store: Store, key: string, times: seq<int>, m: nat, expiration: nat, clock: int) {
    && Sorted(times) && UpTo(times, clock)
    && if key !in store then forall i :: 0 <= i < |times| ==> clock - times[i] > expiration
       else
         var queue := store[key];
         && 0 < |queue| <= m && |queue| <= |times| && queue == times[|times| - |queue|..]
         && (|queue| == m || forall i :: 0 <= i < |times| - |queue| ==> clock - times[i] > expiration)
  }

  ghost predicate Simulates(store: Store, log: Log, limits: Limits, expiration: nat, clock: int) {
    forall key :: Represents(store, key, Granted(log, key), Effective(limits(key).maxRequests),
                             Slack(limits(key), expiration), clock)
  }

  lemma RequestAgrees(store: Store, key: string, times: seq<int>, limit: Limit, expiration: nat, clock: int, now: int)
    requires Represents(store, key, times, Effective(limit.maxRequests), expiration, clock)
    requires clock <= now && limit.duration <= expiration + 1
    ensures Enqueue(store, key, limit, now).1 <==>
            Count(times, now - limit.duration, now) < Effective(limit.maxRequests)
    ensures var (queue, granted) := Enqueue(store, key, limit, now);
            Represents(store[key := queue], key, if granted then times + [now] else times,
                       Effective(limit.maxRequests), expiration, now)
  {
    var m := Effective(limit.maxRequests);
    CountBelow(times, m, now - limit.duration, now);
    if key !in store {
      assert (times + [now])[|times|..] == [now];
    } else {
      var queue := store[key];
      if |times| >= m && |queue| < m {
        assert now - times[|times| - m] > expiration;
      }
      if |queue| == m {
        assert queue[0] == times[|times| - m];
      }
      var (queue', granted) := Enqueue(store, key, limit, now);
      if granted {
        assert queue' == (times + [now])[|times| + 1 - |queue'|..];
      }
    }
  }

  lemma SweepAgrees(store: Store, key: string, times: seq<int>, m: nat, expiration: nat, clock: int, now: int)
    requires Represents(store, key, times, m, expiration, clock) && clock <= now
    ensures Represents(Swept(store, expiration, now), key, times, m, expiration, now)
  {
    if key in store && Stale(store[key], expiration, now) {
      assert store[key][|store[key]| - 1] == times[|times| - 1];
    }
  }

  /** No duration exceeds the expiration by more than one second, or nothing is ever swept. */
  ghost predicate Fits(limits: Limits, expiration: nat) {
    expiration == 0 || forall key :: limits(key).duration <= expiration + 1
  }

  lemma {:induction false} RunsAgree(events: seq<Event>, limits: Limits, expiration: nat)
    requires Possible(events, expiration) && Fits(limits, expiration)
    ensures LimiterRun(events, limits, expiration).1 == LogRun(events, limits).1
    ensures Simulates(LimiterRun(events, limits, expiration).0, LogRun(events, limits).0, limits, expiration, Clock(events))
  {
    if events != [] {
      var front, last := events[..|events| - 1], events[|events| - 1];
      RunsAgree(front, limits, expiration);
      var store, log := LimiterRun(front, limits, expiration).0, LogRun(front, limits).0;
      match last {
        case Request(key, now) =>
          StepAgrees(store, log, key, limits, expiration, Clock(front), now, front == []);
        case Sweep(now) =>
          assert expiration > 0;
          forall key
            ensures Represents(Swept(store, expiration, now), key, Granted(log, key),
                               Effective(limits(key).maxRequests), expiration, now)
          {
            if front != [] {
              SweepAgrees(store, key, Granted(log, key), Effective(limits(key).maxRequests), expiration, Clock(front), now);
            }
          }
      }
    }
  }

  /** The requested key after a request, from a clock at which its queue is known. */
  lemma KeyAgrees(store: Store, log: Log, key: string, limit: Limit, slack: nat, clock: int, now: int)
    requires Represents(store, key, Granted(log, key), Effective(limit.maxRequests), slack, clock)
    requires clock <= now && limit.duration <= slack + 1
    ensures Enqueue(store, key, limit, now).1 == Allows(log, key, limit, now)
    ensures Represents(store[key := Enqueue(store, key, limit, now).0], key, Granted(Record(log, key, limit, now), key),
                       Effective(limit.maxRequests), slack, now)
  {
    RequestAgrees(store, key, Granted(log, key), limit, slack, clock, now);
  }

  lemma StepAgrees(store: Store, log: Log, key: string, limits: Limits, expiration: nat, clock: int, now: int, first: bool)
    requires Simulates(store, log, limits, expiration, clock)
    requires if first then store == map[] && log == map[] else clock <= now
    requires Fits(limits, expiration)
    ensures Enqueue(store, key, limits(key), now).1 == Allows(log, key, limits(key), now)
    ensures Simulates(store[key := Enqueue(store, key, limits(key), now).0], Record(log, key, limits(key), now),
                      limits, expiration, now)
  {
    var clock' := if first then now else clock;
    KnownAt(store, log, limits, expiration, clock, now, first, key);
    KeyAgrees(store, log, key, limits(key), Slack(limits(key), expiration), clock', now);
    var queue, log' := Enqueue(store, key, limits(key), now).0, Record(log, key, limits(key), now);
    forall other
      ensures Represents(store[key := queue], other, Granted(log', other), Effective(limits(other).maxRequests),
                         Slack(limits(other), expiration), now)
    {
      if other != key {
        KnownAt(store, log, limits, expiration, clock, now, first, other);
        assert Granted(log', other) == Granted(log, other);
        OtherKey(store, key, queue, other, Granted(log, other), Effective(limits(other).maxRequests),
                 Slack(limits(other), expiration), clock', now);
      }
    }
  }

  /** Before the first event nothing is stored, at whatever time. */
  lemma KnownAt(store: Store, log: Log, limits: Limits, expiration: nat, clock: int, now: int, first: bool, key: string)
    requires Simulates(store, log, limits, expiration, clock)
    requires first ==> store == map[] && log == map[]
    ensures Represents(store, key, Granted(log, key), Effective(limits(key).maxRequests), Slack(limits(key), expiration),
                       if first then now else clock)
  {
  }

  lemma OtherKey(store: Store, key: string, queue: seq<int>, other: string, times: seq<int>, m: nat, expiration: nat, clock: int, now: int)
    requires key != other && clock <= now && Represents(store, other, times, m, expiration, clock)
    ensures Represents(store[key := queue], other, times, m, expiration, now)
  {
  }

  // ----- The exact condition -----

  function Requests(key: string, n: nat, now: int): seq<Event> {
    if n == 0 then [] else Requests(key, n - 1, now) + [Request(key, now)]
  }

  /** Fill the limit at time 0, sweep just after the expiration, and ask again. */
  function EarlySweep(key: string, m: nat, expiration: nat): seq<Event> {
    Requests(key, m, 0) + [Sweep(expiration + 1)] + [Request(key, expiration + 1)]
  }

  predicate Zeros(times: seq<int>, n: nat) {
    |times| == n && forall i :: 0 <= i < n ==> times[i] == 0
  }

  lemma {:induction false} FillEvents(key: string, n: nat)
    ensures |Requests(key, n, 0)| == n && forall i :: 0 <= i < n ==> Requests(key, n, 0)[i] == Request(key, 0)
  {
    if n > 0 {
      FillEvents(key, n - 1);
    }
  }

  lemma {:induction false} FillStore(key: string, n: nat, limits: Limits, expiration: nat)
    requires n <= Effective(limits(key).maxRequests)
    ensures var store := LimiterRun(Requests(key, n, 0), limits, expiration).0;
            if n == 0 then key !in store else key in store && Zeros(store[key], n)
  {
    if n > 0 {
      FillStore(key, n - 1, limits, expiration);
      var front := Requests(key, n - 1, 0);
      EnqueueZero(LimiterRun(front, limits, expiration).0, key, n - 1, limits(key));
      LimiterNext(front, key, 0, limits, expiration);
      assert Requests(key, n, 0) == front + [Request(key, 0)];
    }
  }

  lemma EnqueueZero(store: Store, key: string, n: nat, limit: Limit)
    requires n < Effective(limit.maxRequests)
    requires if n == 0 then key !in store else key in store && Zeros(store[key], n)
    ensures Zeros(Enqueue(store, key, limit, 0).0, n + 1)
  {
  }

  lemma LimiterNext(events: seq<Event>, key: string, now: int, limits: Limits, expiration: nat)
    ensures var store := LimiterRun(events, limits, expiration).0;
            LimiterRun(events + [Request(key, now)], limits, expiration).0 ==
            store[key := Enqueue(store, key, limits(key), now).0]
  {
    var all := events + [Request(key, now)];
    assert all[..|all| - 1] == events;
  }

  lemma {:induction false} FillLog(key: string, n: nat, limits: Limits)
    requires n <= Effective(limits(key).maxRequests)
    ensures Zeros(Granted(LogRun(Requests(key, n, 0), limits).0, key), n)
  {
    if n > 0 {
      FillLog(key, n - 1, limits);
      var front := Requests(key, n - 1, 0);
      RecordZero(LogRun(front, limits).0, key, n - 1, limits(key));
      LogNext(front, key, 0, limits);
      assert Requests(key, n, 0) == front + [Request(key, 0)];
    }
  }

  lemma RecordZero(log: Log, key: string, n: nat, limit: Limit)
    requires n < Effective(limit.maxRequests) && Zeros(Granted(log, key), n)
    ensures Zeros(Granted(Record(log, key, limit, 0), key), n + 1)
  {
    CountAtMost(Granted(log, key), 0, 0 - limit.duration, 0);
  }

  lemma LogNext(events: seq<Event>, key: string, now: int, limits: Limits)
    ensures LogRun(events + [Request(key, now)], limits).0 == Record(LogRun(events, limits).0, key, limits(key), now)
  {
    var all := events + [Request(key, now)];
    assert all[..|all| - 1] == events;
  }

  /** After the sweep the store has forgotten the key and the log has not. */
  lemma EarlySwept(key: string, limits: Limits, expiration: nat)
    ensures var fill := Requests(key, Effective(limits(key).maxRequests), 0);
            var swept := fill + [Sweep(expiration + 1)];
            && key !in LimiterRun(swept, limits, expiration).0
            && Zeros(Granted(LogRun(swept, limits).0, key), Effective(limits(key).maxRequests))
  {
    var m := Effective(limits(key).maxRequests);
    var fill := Requests(key, m, 0);
    var swept := fill + [Sweep(expiration + 1)];
    FillStore(key, m, limits, expiration);
    FillLog(key, m, limits);
    assert swept[..|swept| - 1] == fill;
  }

  lemma EarlySweepPossible(key: string, m: nat, expiration: nat)
    requires expiration > 0
    ensures Possible(EarlySweep(key, m, expiration), expiration)
  {
    FillEvents(key, m);
  }

  lemma EarlySweepDiffers(key: string, limits: Limits, expiration: nat)
    requires expiration > 0 && limits(key).duration > expiration + 1
    ensures var events := EarlySweep(key, Effective(limits(key).maxRequests), expiration);
            Possible(events, expiration) && LimiterRun(events, limits, expiration).1 != LogRun(events, limits).1
  {
    var m := Effective(limits(key).maxRequests);
    var swept := Requests(key, m, 0) + [Sweep(expiration + 1)];
    EarlySweepPossible(key, m, expiration);
    EarlySwept(key, limits, expiration);
    CountAtLeast(Granted(LogRun(swept, limits).0, key), 0, expiration + 1 - limits(key).duration, expiration + 1);
    LastDecision(swept, key, expiration + 1, limits, expiration);
  }

  lemma LastDecision(events: seq<Event>, key: string, now: int, limits: Limits, expiration: nat)
    requires Enqueue(LimiterRun(events, limits, expiration).0, key, limits(key), now).1 !=
             Allows(LogRun(events, limits).0, key, limits(key), now)
    ensures var all := events + [Request(key, now)];
            LimiterRun(all, limits, expiration).1 != LogRun(all, limits).1
  {
    var all := events + [Request(key, now)];
    assert all[..|all| - 1] == events;
    var l, r := LimiterRun(all, limits, expiration).1, LogRun(all, limits).1;
    assert l != [] && r != [] && l[|l| - 1] != r[|r| - 1];
  }

  /** The limiter decides every request of every possible run as the unbounded log would, exactly
      when no duration exceeds the expiration by more than one second, or there is no expiration
      and so no sweep. */
  lemma ExactlyTheLog(limits: Limits, expiration: nat)
    ensures (forall events :: Possible(events, expiration) ==> LimiterRun(events, limits, expiration).1 == LogRun(events, limits).1)
            <==> Fits(limits, expiration)
  {
    if Fits(limits, expiration) {
      forall events | Possible(events, expiration)
        ensures LimiterRun(events, limits, expiration).1 == LogRun(events, limits).1
      {
        RunsAgree(events, limits, expiration);
      }
    } else {
      var key :| limits(key).duration > expiration + 1;
      EarlySweepDiffers(key, limits, expiration);
    }
  }

  // ----- What the limit means -----

  /** Grants that are m apart in the log are at least the duration apart in time. */
  ghost predicate Spaced(times: seq<int>, m: nat, duration: int) {
    Sorted(times) && forall i :: m <= i < |times| ==> times[i] - times[i - m] >= duration
  }

  lemma RecordIsSpaced(times: seq<int>, limit: Limit, now: int)
    requires Spaced(times, Effective(limit.maxRequests), limit.duration) && UpTo(times, now)
    requires Count(times, now - limit.duration, now) < Effective(limit.maxRequests)
    ensures Spaced(times + [now], Effective(limit.maxRequests), limit.duration) && UpTo(times + [now], now)
  {
    CountBelow(times, Effective(limit.maxRequests), now - limit.duration, now);
  }

  lemma {:induction false} LogIsSpaced(events: seq<Event>, limits: Limits, key: string)
    requires Timed(events)
    ensures Spaced(Granted(LogRun(events, limits).0, key), Effective(limits(key).maxRequests), limits(key).duration)
    ensures events == [] ==> Granted(LogRun(events, limits).0, key) == []
    ensures UpTo(Granted(LogRun(events, limits).0, key), Clock(events))
  {
    if events != [] {
      var front, last := events[..|events| - 1], events[|events| - 1];
      LogIsSpaced(front, limits, key);
      var log := LogRun(front, limits).0;
      assert UpTo(Granted(log, key), last.now);
      if last.Request? && last.key == key && Allows(log, key, limits(key), last.now) {
        RecordIsSpaced(Granted(log, key), limits(key), last.now);
      }
    }
  }

  /** In every timed run the limiter grants a key at most its limit in any window of its
      duration, and keeps no longer a queue. */
  lemma WindowBound(events: seq<Event>, limits: Limits, expiration: nat, key: string, hi: int)
    requires Possible(events, expiration) && Fits(limits, expiration)
    ensures Count(Granted(LogRun(events, limits).0, key), hi - limits(key).duration, hi) <= Effective(limits(key).maxRequests)
    ensures var store := LimiterRun(events, limits, expiration).0;
            key in store ==> |store[key]| <= Effective(limits(key).maxRequests)
  {
    RunsAgree(events, limits, expiration);
    LogIsSpaced(events, limits, key);
    var store, log := LimiterRun(events, limits, expiration).0, LogRun(events, limits).0;
    assert Represents(store, key, Granted(log, key), Effective(limits(key).maxRequests), Slack(limits(key), expiration), Clock(events));
    SpacedWindow(Granted(log, key), Effective(limits(key).maxRequests), limits(key).duration, hi);
  }

  lemma {:induction false} SpacedWindow(times: seq<int>, m: nat, duration: int, hi: int)
    requires Spaced(times, m, duration)
    ensures Count(times, hi - duration, hi) <= m
  {
    if times != [] {
      var front, last := times[..|times| - 1], times[|times| - 1];
      SpacedWindow(front, m, duration, hi);
      if hi - duration < last <= hi && |times| > m {
        assert times[|times| - 1] - times[|times| - 1 - m] >= duration;
        CountAtMost(front, |times| - m, hi - duration, hi);
      } else if |times| <= m {
        CountAtMost(times, 0, hi - duration, hi);
      }
    }
  }
}
