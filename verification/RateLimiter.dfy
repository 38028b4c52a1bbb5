/** The sliding-window rate limiter: one atomic script per request prunes a sorted set, counts
    what is left and either records the request or reports how long to wait. Times are milliseconds. */
module RateLimiter {
  import opened Common

  /** A list of times, oldest innermost: the scores of a sorted set, or a log. */
  datatype Times = Empty | Then(before: Times, last: int)

  function Size(ts: Times): nat {
    if ts.Empty? then 0 else Size(ts.before) + 1
  }

  function Oldest(ts: Times): int
    requires ts != Empty
  {
    if ts.before.Empty? then ts.last else Oldest(ts.before)
  }

  /** The members with a score above bound: ZREMRANGEBYSCORE -inf bound keeps these. */
  function Prune(ts: Times, bound: int): Times {
    if ts.Empty? then Empty
    else if ts.last > bound then Then(Prune(ts.before, bound), ts.last)
    else Prune(ts.before, bound)
  }

  /** ZADD of a fresh member: in score order, after its equals. */
  function Insert(ts: Times, now: int): Times {
    if ts.Empty? || ts.last <= now then Then(ts, now) else Then(Insert(ts.before, now), ts.last)
  }

  /** A key holds the scores of its sorted set and the time its expiry falls due. */
  datatype Key = Absent | Live(scores: Times, expireAt: int)

  datatype Decision = Decision(allowed: bool, retryAfter: int)

  /** A call of the script; lapsed says that the key's expiry was due and it was already removed. */
  datatype Request = Request(now: int, limit: int, lapsed: bool)

  predicate MayLapse(k: Key, now: int) {
    k.Live? && now >= k.expireAt
  }

  /** What the script finds after pruning. */
  function Window(k: Key, window: int, r: Request): Times {
    if k.Absent? || r.lapsed then Empty else Prune(k.scores, r.now - window)
  }

  function Answer(k: Key, window: int, r: Request): Decision {
    var scores := Window(k, window, r);
    if Size(scores) < r.limit then Decision(true, 0)
    else Decision(false, if scores == Empty then window else Oldest(scores) + window - r.now)
  }

  /** The key afterwards. An emptied sorted set no longer exists, a rejection leaves the expiry as
      it was, and an expiry that is not in the future deletes the key at once. */
  function NextKey(k: Key, window: int, r: Request): Key {
    var scores := Window(k, window, r);
    if Size(scores) < r.limit
    then (if window <= 0 then Absent else Live(Insert(scores, r.now), r.now + window))
    else if scores == Empty then Absent else Live(scores, if k.Live? then k.expireAt else 0)
  }

  // ---------------------------------------------------------------------------
  // Runs against one key
  // ---------------------------------------------------------------------------

  function KeyAfter(window: int, reqs: seq<Request>): Key {
    if reqs == [] then Absent else NextKey(KeyAfter(window, Front(reqs)), window, Last(reqs))
  }

  /** The decision on the last request of a run. */
  function Verdict(window: int, reqs: seq<Request>): Decision
    requires reqs != []
  {
    Answer(KeyAfter(window, Front(reqs)), window, Last(reqs))
  }

  function Logged(log: Times, allowed: bool, now: int): Times {
    if allowed then Then(log, now) else log
  }

  /** The admission log: the time of every request ever admitted, never pruned. */
  function Log(window: int, reqs: seq<Request>): Times {
    if reqs == [] then Empty else Logged(Log(window, Front(reqs)), Verdict(window, reqs).allowed, Last(reqs).now)
  }

  /** Clocks do not go back. */
  ghost predicate Ordered(reqs: seq<Request>) {
    reqs == [] || (Ordered(Front(reqs)) && (Front(reqs) != [] ==> Last(Front(reqs)).now <= Last(reqs).now))
  }

  /** A key is only ever missing once its expiry is due. */
  ghost predicate WellTimed(window: int, reqs: seq<Request>) {
    Ordered(reqs) && LapsesDue(window, reqs)
  }

  ghost predicate LapsesDue(window: int, reqs: seq<Request>) {
    reqs == [] ||
    (LapsesDue(window, Front(reqs)) && (Last(reqs).lapsed ==> MayLapse(KeyAfter(window, Front(reqs)), Last(reqs).now)))
  }

  // ---------------------------------------------------------------------------
  // The reference limiter: remembers every admission, prunes and expires nothing
  // ---------------------------------------------------------------------------

  /** How many times fall in the half-open interval (lo, hi]. */
  function CountIn(ts: Times, lo: int, hi: int): nat {
    if ts.Empty? then 0 else CountIn(ts.before, lo, hi) + if lo < ts.last <= hi then 1 else 0
  }

  /** Fewer than limit admissions in (now - window, now]. */
  predicate Admits(log: Times, window: int, r: Request) {
    CountIn(log, r.now - window, r.now) < r.limit
  }

  function FullLog(window: int, reqs: seq<Request>): Times {
    if reqs == [] then Empty
    else
      var log := FullLog(window, Front(reqs));
      Logged(log, Admits(log, window, Last(reqs)), Last(reqs).now)
  }

  ghost predicate UpTo(ts: Times, hi: int) {
    ts.Empty? || (UpTo(ts.before, hi) && ts.last <= hi)
  }

  ghost predicate Ascending(ts: Times) {
    ts.Empty? || (Ascending(ts.before) && UpTo(ts.before, ts.last))
  }

  lemma {:induction false} UpToLater(ts: Times, a: int, b: int)
    requires UpTo(ts, a) && a <= b
    ensures UpTo(ts, b)
  {
    if ts.Then? {
      UpToLater(ts.before, a, b);
    }
  }

  lemma {:induction false} PruneTwice(ts: Times, a: int, b: int)
    requires a <= b
    ensures Prune(Prune(ts, a), b) == Prune(ts, b)
  {
    if ts.Then? {
      PruneTwice(ts.before, a, b);
    }
  }

  lemma {:induction false} PruneOld(ts: Times, bound: int)
    requires UpTo(ts, bound)
    ensures Prune(ts, bound) == Empty
  {
    if ts.Then? {
      PruneOld(ts.before, bound);
    }
  }

  lemma {:induction false} PruneCounts(ts: Times, bound: int, hi: int)
    requires UpTo(ts, hi)
    ensures UpTo(Prune(ts, bound), hi)
    ensures Size(Prune(ts, bound)) == CountIn(ts, bound, hi)
  {
    if ts.Then? {
      PruneCounts(ts.before, bound, hi);
    }
  }

  /** The expiry falls due only when every admission has left the window. */
  ghost predicate ExpiresLate(k: Key, log: Times, window: int) {
    k.Live? ==> UpTo(log, k.expireAt - window)
  }

  /** The pruned sorted set against the full log, at the time t of the last request. */
  ghost predicate Refines(k: Key, log: Times, window: int, t: int) {
    && UpTo(log, t) && ExpiresLate(k, log, window)
    && Prune(log, t - window) == if k.Absent? then Empty else Prune(k.scores, t - window)
  }

  /** What the script sees when a request arrives is the full log cut to the window. */
  ghost predicate Arrived(k: Key, log: Times, window: int, r: Request) {
    && UpTo(log, r.now) && ExpiresLate(k, log, window)
    && Window(k, window, r) == Prune(log, r.now - window)
  }

  lemma {:induction false} WindowIsLog(k: Key, log: Times, window: int, t: int, r: Request)
    requires Refines(k, log, window, t) && t <= r.now
    requires r.lapsed ==> MayLapse(k, r.now)
    ensures Arrived(k, log, window, r)
  {
    UpToLater(log, t, r.now);
    if r.lapsed {
      UpToLater(log, k.expireAt - window, r.now - window);
      PruneOld(log, r.now - window);
    } else {
      PruneTwice(log, t - window, r.now - window);
      if k.Live? {
        PruneTwice(k.scores, t - window, r.now - window);
      }
    }
  }

  lemma {:induction false} RefinesStep(k: Key, log: Times, window: int, r: Request)
    requires Arrived(k, log, window, r)
    ensures Refines(NextKey(k, window, r), Logged(log, Answer(k, window, r).allowed, r.now), window, r.now)
  {
    var bound := r.now - window;
    PruneTwice(log, bound, bound);
    PruneCounts(log, bound, r.now);
    if Size(Prune(log, bound)) < r.limit && window <= 0 {
      UpToLater(log, r.now, bound);
      PruneOld(log, bound);
    }
  }

  lemma {:induction false} RefinesAlways(window: int, reqs: seq<Request>, now: int)
    requires WellTimed(window, reqs) && (reqs != [] ==> now == Last(reqs).now)
    ensures Refines(KeyAfter(window, reqs), Log(window, reqs), window, now)
    decreases |reqs|, 0
  {
    if reqs != [] {
      AtArrival(window, reqs);
      RefinesStep(KeyAfter(window, Front(reqs)), Log(window, Front(reqs)), window, Last(reqs));
    }
  }

  lemma {:induction false} AtArrival(window: int, reqs: seq<Request>)
    requires WellTimed(window, reqs) && reqs != []
    ensures Arrived(KeyAfter(window, Front(reqs)), Log(window, Front(reqs)), window, Last(reqs))
    decreases |reqs| - 1, 1
  {
    var r := Last(reqs);
    var t := if Front(reqs) == [] then r.now else Last(Front(reqs)).now;
    RefinesAlways(window, Front(reqs), t);
    WindowIsLog(KeyAfter(window, Front(reqs)), Log(window, Front(reqs)), window, t, r);
  }

  lemma {:induction false} AnswerIsHistory(k: Key, log: Times, window: int, r: Request)
    requires Arrived(k, log, window, r)
    ensures Answer(k, window, r).allowed <==> Admits(log, window, r)
  {
    PruneCounts(log, r.now - window, r.now);
  }

  /** Refinement: pruning and expiry are unobservable. Whatever limit each request was asked with,
      the script's decisions, and so the log of admissions, are those of the reference limiter. */
  lemma {:induction false} DecisionIsHistory(window: int, reqs: seq<Request>)
    requires WellTimed(window, reqs)
    ensures Log(window, reqs) == FullLog(window, reqs)
    ensures reqs != [] ==> (Verdict(window, reqs).allowed <==> Admits(FullLog(window, Front(reqs)), window, Last(reqs)))
  {
    if reqs != [] {
      DecisionIsHistory(window, Front(reqs));
      AtArrival(window, reqs);
      AnswerIsHistory(KeyAfter(window, Front(reqs)), Log(window, Front(reqs)), window, Last(reqs));
    }
  }

  /** Expiry alone: answering from an expired key and from no key give the same decision. */
  lemma {:induction false} ExpiryUnobservable(window: int, reqs: seq<Request>, now: int, limit: int)
    requires WellTimed(window, reqs) && reqs != [] && Last(reqs).now <= now
    requires MayLapse(KeyAfter(window, reqs), now)
    ensures Answer(KeyAfter(window, reqs), window, Request(now, limit, true))
         == Answer(KeyAfter(window, reqs), window, Request(now, limit, false))
  {
    RefinesAlways(window, reqs, Last(reqs).now);
    WindowIsLog(KeyAfter(window, reqs), Log(window, reqs), window, Last(reqs).now, Request(now, limit, true));
    WindowIsLog(KeyAfter(window, reqs), Log(window, reqs), window, Last(reqs).now, Request(now, limit, false));
  }

  /** The key is exactly the window of the log: its members are the admissions still inside, none older is
      kept, and it expires one window after the last admission. */
  lemma {:induction false} KeyIsWindow(window: int, reqs: seq<Request>)
    requires WellTimed(window, reqs) && reqs != []
    ensures var inside := Prune(Log(window, reqs), Last(reqs).now - window);
            KeyAfter(window, reqs) == if inside == Empty then Absent else Live(inside, Log(window, reqs).last + window)
    decreases |reqs|, 1
  {
    var k, log, r := KeyAfter(window, Front(reqs)), Log(window, Front(reqs)), Last(reqs);
    AtArrival(window, reqs);
    if Answer(k, window, r).allowed {
      PruneCounts(log, r.now - window, r.now);
      if window <= 0 {
        UpToLater(log, r.now, r.now - window);
        PruneOld(log, r.now - window);
      }
    } else if Prune(log, r.now - window) != Empty {
      KeyIsLive(window, reqs);
    }
  }

  /** What the script still finds in a key expires one window after the last admission. */
  lemma {:induction false} KeyIsLive(window: int, reqs: seq<Request>)
    requires WellTimed(window, reqs) && reqs != [] && !Verdict(window, reqs).allowed
    requires Prune(Log(window, Front(reqs)), Last(reqs).now - window) != Empty
    ensures var k := KeyAfter(window, Front(reqs));
            k.Live? && Log(window, Front(reqs)) != Empty && k.expireAt == Log(window, Front(reqs)).last + window
    decreases |reqs|, 0
  {
    AtArrival(window, reqs);
    KeyIsWindow(window, Front(reqs));
  }

  lemma {:induction false} InsertBound(ts: Times, now: int, hi: int)
    requires UpTo(ts, hi) && now <= hi
    ensures UpTo(Insert(ts, now), hi)
  {
    if ts.Then? && ts.last > now {
      InsertBound(ts.before, now, hi);
    }
  }

  /** ZADD puts the new score where it belongs, wherever that is, and keeps the others. */
  lemma {:induction false} InsertKeepsOrder(ts: Times, now: int, lo: int, hi: int)
    requires Ascending(ts)
    ensures Ascending(Insert(ts, now))
    ensures CountIn(Insert(ts, now), lo, hi) == CountIn(ts, lo, hi) + if lo < now <= hi then 1 else 0
  {
    if ts.Then? && ts.last > now {
      InsertKeepsOrder(ts.before, now, lo, hi);
      InsertBound(ts.before, now, ts.last);
    } else if ts.Then? {
      UpToLater(ts.before, ts.last, now);
    }
  }

  lemma {:induction false} PruneKeepsOrder(ts: Times, bound: int)
    requires Ascending(ts)
    ensures Ascending(Prune(ts, bound))
  {
    if ts.Then? {
      PruneKeepsOrder(ts.before, bound);
      PruneCounts(ts.before, bound, ts.last);
    }
  }

  /** Even when clocks disagree, the key is sorted, so the oldest member is where the script looks for it. */
  lemma {:induction false} KeyIsSorted(window: int, reqs: seq<Request>)
    ensures var k := KeyAfter(window, reqs); k.Live? ==> k.scores != Empty && Ascending(k.scores)
  {
    if reqs != [] {
      var k, r := KeyAfter(window, Front(reqs)), Last(reqs);
      KeyIsSorted(window, Front(reqs));
      if k.Live? {
        PruneKeepsOrder(k.scores, r.now - window);
      }
      InsertKeepsOrder(Window(k, window, r), r.now, 0, 0);
    }
  }

  /** An admission reports no wait; with a limit below one nothing is ever admitted and the wait
      reported is always the window. */
  lemma {:induction false} OtherWaits(window: int, reqs: seq<Request>, limit: int)
    requires WellTimed(window, reqs) && reqs != []
    ensures Verdict(window, reqs).allowed ==> Verdict(window, reqs).retryAfter == 0
    ensures limit < 1 && FixedLimit(reqs, limit) ==> Verdict(window, reqs) == Decision(false, window)
  {
    if limit < 1 && FixedLimit(reqs, limit) {
      NothingLogged(window, Front(reqs), limit);
      AtArrival(window, reqs);
    }
  }

  lemma {:induction false} NothingLogged(window: int, reqs: seq<Request>, limit: int)
    requires limit < 1 && FixedLimit(reqs, limit)
    ensures Log(window, reqs) == Empty
  {
    if reqs != [] {
      NothingLogged(window, Front(reqs), limit);
    }
  }

  // ---------------------------------------------------------------------------
  // At most limit per window
  // ---------------------------------------------------------------------------

  ghost predicate FixedLimit(reqs: seq<Request>, limit: int) {
    reqs == [] || (FixedLimit(Front(reqs), limit) && Last(reqs).limit == limit)
  }

  lemma {:induction false} CountMonotone(ts: Times, lo: int, lo': int, hi: int, hi': int)
    requires lo' <= lo && UpTo(ts, hi')
    ensures CountIn(ts, lo, hi) <= CountIn(ts, lo', hi')
  {
    if ts.Then? {
      CountMonotone(ts.before, lo, lo', hi, hi');
    }
  }

  lemma {:induction false} LogIsPast(window: int, reqs: seq<Request>, now: int)
    requires Ordered(reqs) && (reqs != [] ==> Last(reqs).now <= now)
    ensures UpTo(FullLog(window, reqs), now) && Ascending(FullLog(window, reqs))
  {
    if reqs != [] {
      var t := Last(reqs).now;
      LogIsPast(window, Front(reqs), t);
      UpToLater(FullLog(window, Front(reqs)), t, now);
    }
  }

  lemma {:induction false} WindowBound(window: int, reqs: seq<Request>, limit: nat, t: int)
    requires Ordered(reqs) && FixedLimit(reqs, limit)
    ensures CountIn(FullLog(window, reqs), t - window, t) <= limit
  {
    if reqs != [] {
      var log, now := FullLog(window, Front(reqs)), Last(reqs).now;
      WindowBound(window, Front(reqs), limit, t);
      if t - window < now <= t {
        LogIsPast(window, Front(reqs), now);
        CountMonotone(log, t - window, now - window, t, now);
      }
    }
  }

  /** The promise of the limiter: over a whole run, every interval of one window's length,
      wherever it lies, holds at most limit admissions. */
  lemma {:induction false} AtMostLimitPerWindow(window: int, reqs: seq<Request>, limit: nat, t: int)
    requires WellTimed(window, reqs) && FixedLimit(reqs, limit)
    ensures CountIn(Log(window, reqs), t - window, t) <= limit
  {
    DecisionIsHistory(window, reqs);
    WindowBound(window, reqs, limit, t);
  }

  // ---------------------------------------------------------------------------
  // RetryAfter is exact
  // ---------------------------------------------------------------------------

  ghost predicate AllBefore(reqs: seq<Request>, time: int) {
    reqs == [] || (AllBefore(Front(reqs), time) && Last(reqs).now < time)
  }

  /** Raising the bound up to the oldest survivor drops nothing, past it something. */
  lemma {:induction false} OldestGoesFirst(ts: Times, a: int, b: int)
    requires Ascending(ts) && a <= b && Prune(ts, a) != Empty
    ensures a < Oldest(Prune(ts, a)) <= ts.last
    ensures Oldest(Prune(ts, a)) > b ==> Prune(ts, b) == Prune(ts, a)
    ensures Oldest(Prune(ts, a)) <= b ==> Size(Prune(ts, b)) < Size(Prune(ts, a))
  {
    PruneTwice(ts.before, a, b);
    if Prune(ts.before, a) != Empty {
      OldestGoesFirst(ts.before, a, b);
      OldestUpTo(Prune(ts.before, a), ts.before, a, ts.last);
    }
  }

  lemma {:induction false} OldestUpTo(kept: Times, ts: Times, bound: int, hi: int)
    requires UpTo(ts, hi) && kept == Prune(ts, bound) && kept != Empty
    ensures Oldest(kept) <= hi
  {
    if ts.last <= bound {
      OldestUpTo(kept, ts.before, bound, hi);
    } else if kept.before != Empty {
      OldestUpTo(kept.before, ts.before, bound, hi);
    }
  }

  /** The admissions still inside the window at the time of the last request. */
  function Inside(window: int, reqs: seq<Request>): Times
    requires reqs != []
  {
    Prune(FullLog(window, reqs), Last(reqs).now - window)
  }

  /** A rejection tells the caller to come back at retryAt. */
  ghost predicate ToldToRetry(window: int, reqs: seq<Request>, limit: int, retryAt: int) {
    && reqs != [] && WellTimed(window, reqs) && FixedLimit(reqs, limit)
    && !Verdict(window, reqs).allowed
    && retryAt == Last(reqs).now + Verdict(window, reqs).retryAfter
  }

  lemma {:induction false} FullWhenRejected(window: int, reqs: seq<Request>, limit: int)
    requires limit >= 1 && reqs != [] && Ordered(reqs) && FixedLimit(reqs, limit)
    requires !Admits(FullLog(window, Front(reqs)), window, Last(reqs))
    ensures Size(Inside(window, reqs)) == limit && Oldest(Inside(window, reqs)) + window > Last(reqs).now
  {
    var log, now := FullLog(window, reqs), Last(reqs).now;
    LogIsPast(window, reqs, now);
    PruneCounts(log, now - window, now);
    WindowBound(window, reqs, limit, now);
    OldestGoesFirst(log, now - window, now - window);
  }

  /** On rejection the window is exactly full, and retryAt is when its oldest admission leaves it. */
  lemma {:induction false} ToldMeansFull(window: int, reqs: seq<Request>, limit: int, retryAt: int)
    requires limit >= 1 && ToldToRetry(window, reqs, limit, retryAt)
    ensures reqs != [] && Size(Inside(window, reqs)) == limit
    ensures retryAt == Oldest(Inside(window, reqs)) + window && retryAt > Last(reqs).now
  {
    DecisionIsHistory(window, reqs);
    DecisionIsHistory(window, Front(reqs));
    FullWhenRejected(window, reqs, limit);
    AtArrival(window, reqs);
  }

  /** A full window reopens exactly when its oldest admission leaves it. */
  lemma {:induction false} ReopensExactly(log: Times, window: int, now: int, r: Request)
    requires Ascending(log) && UpTo(log, now) && now <= r.now
    requires r.limit >= 1 && Size(Prune(log, now - window)) == r.limit
    ensures Admits(log, window, r) <==> r.now >= Oldest(Prune(log, now - window)) + window
  {
    UpToLater(log, now, r.now);
    PruneCounts(log, r.now - window, r.now);
    OldestGoesFirst(log, now - window, r.now - window);
  }

  /** The reference limiter after a rejection: nothing is admitted before the window reopens. */
  lemma {:induction false} ClosedUntilOldestLeaves(window: int, reqs: seq<Request>, more: seq<Request>,
                                                   limit: int, retryAt: int)
    requires limit >= 1 && reqs != [] && Ordered(reqs + more) && FixedLimit(more, limit)
    requires Ordered(reqs) && Size(Inside(window, reqs)) == limit && retryAt == Oldest(Inside(window, reqs)) + window
    requires AllBefore(more, retryAt)
    ensures FullLog(window, reqs + more) == FullLog(window, reqs)
    ensures Last(reqs).now <= Last(reqs + more).now
  {
    if more == [] {
      assert reqs + more == reqs;
    } else {
      var run := reqs + more;
      assert Front(run) == reqs + Front(more) && Last(run) == Last(more);
      ClosedUntilOldestLeaves(window, reqs, Front(more), limit, retryAt);
      LogIsPast(window, reqs, Last(reqs).now);
      ReopensExactly(FullLog(window, reqs), window, Last(reqs).now, Last(run));
    }
  }

  /** RetryAfter is exact, not before: however many requests arrive earlier, none is admitted. */
  lemma {:induction false} NoneBeforeRetryAt(window: int, reqs: seq<Request>, more: seq<Request>, limit: int,
                                             retryAt: int)
    requires limit >= 1 && ToldToRetry(window, reqs, limit, retryAt)
    requires WellTimed(window, reqs + more) && FixedLimit(more, limit) && AllBefore(more, retryAt)
    ensures Log(window, reqs + more) == Log(window, reqs)
  {
    ToldMeansFull(window, reqs, limit, retryAt);
    DecisionIsHistory(window, reqs);
    DecisionIsHistory(window, reqs + more);
    ClosedUntilOldestLeaves(window, reqs, more, limit, retryAt);
  }

  lemma {:induction false} ReferenceReopens(window: int, reqs: seq<Request>, more: seq<Request>, next: Request,
                                            limit: int, retryAt: int)
    requires limit >= 1 && reqs != [] && Ordered(reqs) && Ordered(reqs + more) && Last(reqs + more).now <= next.now
    requires FixedLimit(more, limit) && next.limit == limit && Size(Inside(window, reqs)) == limit
    requires retryAt == Oldest(Inside(window, reqs)) + window && AllBefore(more, retryAt)
    ensures Admits(FullLog(window, reqs + more), window, next) <==> next.now >= retryAt
  {
    ClosedUntilOldestLeaves(window, reqs, more, limit, retryAt);
    LogIsPast(window, reqs, Last(reqs).now);
    ReopensExactly(FullLog(window, reqs), window, Last(reqs).now, next);
  }

  lemma {:induction false} NextDecision(window: int, run: seq<Request>, next: Request)
    requires WellTimed(window, run + [next])
    ensures Ordered(run) && (run != [] ==> Last(run).now <= next.now)
    ensures Verdict(window, run + [next]).allowed <==> Admits(FullLog(window, run), window, next)
  {
    FrontLast(run, next);
    DecisionIsHistory(window, run + [next]);
  }

  /** RetryAfter is exact, and then: the next request is admitted if and only if it is not earlier. */
  lemma {:induction false} AdmittedFromRetryAt(window: int, reqs: seq<Request>, more: seq<Request>, next: Request,
                                               limit: int, retryAt: int)
    requires limit >= 1 && ToldToRetry(window, reqs, limit, retryAt)
    requires WellTimed(window, reqs + more + [next]) && FixedLimit(more, limit) && next.limit == limit
    requires AllBefore(more, retryAt)
    ensures Verdict(window, reqs + more + [next]).allowed <==> next.now >= retryAt
  {
    NextDecision(window, reqs + more, next);
    ToldMeansFull(window, reqs, limit, retryAt);
    ReferenceReopens(window, reqs, more, next, limit, retryAt);
  }

  // ---------------------------------------------------------------------------
  // The limiter, in place
  // ---------------------------------------------------------------------------

  class Limiter {
    var store: map<string, Key>

    constructor ()
      ensures store == map[]
    {
      store := map[];
    }

    ghost function At(key: string): Key
      reads this
    {
      if key in store then store[key] else Absent
    }

    /** One Allow: the script runs against its own key and leaves every other key alone. */
    method Allow(key: string, window: int, r: Request) returns (d: Decision)
      requires r.lapsed ==> MayLapse(At(key), r.now)
      modifies this
      ensures At(key) == NextKey(old(At(key)), window, r) && d == Answer(old(At(key)), window, r)
      ensures forall other :: other != key ==> At(other) == old(At(other))
    {
      var current := if key in store then store[key] else Absent;
      var scores := if current.Live? && !r.lapsed then Prune(current.scores, r.now - window) else Empty;
      if Size(scores) >= r.limit {
        if scores == Empty {
          store := store - {key};
          return Decision(false, window);
        }
        store := store[key := Live(scores, if current.Live? then current.expireAt else 0)];
        return Decision(false, Oldest(scores) + window - r.now);
      }
      if window <= 0 {
        store := store - {key};
      } else {
        store := store[key := Live(Insert(scores, r.now), r.now + window)];
      }
      d := Decision(true, 0);
    }
  }
}
