/**
  The fixed-window rate limiter: one map of buckets shared by all clients and scopes, with eviction of
  old buckets and a cap on their number.

  `RateLimiter::check` reads the clock before it takes the lock, so the clock readings of a run, listed in
  the order the lock is taken, need not be monotone. A run here is that list, and `LagAtMost` bounds how far
  a reading may lie behind an earlier one; a lag of zero is the monotone case.
 */
module RateLimiter {
  import opened Prelude

  type U32 = n: nat | n <= 0xFFFF_FFFF

  datatype Bucket = Bucket(started: Time, count: U32)

  const EVICT_AFTER: int := Seconds(3_600)
  const MAX_BUCKETS: nat := 4_096

  /** `Instant::duration_since`, which is zero when `started` is the later instant. */
  function Elapsed(now: Time, started: Time): (d: nat) {
    if now <= started then 0 else now - started
  }

  function Retained(buckets: map<string, Bucket>, now: Time): map<string, Bucket> {
    map key | key in buckets && Elapsed(now, buckets[key].started) < EVICT_AFTER :: buckets[key]
  }

  /** The cap refuses a key that has no bucket when the retained buckets already fill the map. */
  predicate CapRefuses(buckets: map<string, Bucket>, key: string, now: Time) {
    key !in Retained(buckets, now) && |Retained(buckets, now)| >= MAX_BUCKETS
  }

  /** One call's effect on the key's own bucket, and its answer. */
  function Count(bucket: Option<Bucket>, limit: U32, window: nat, now: Time): (Bucket, bool) {
    var b := match bucket case None => Bucket(now, 0) case Some(b) => b;
    var b := if Elapsed(now, b.started) >= window then Bucket(now, 0) else b;
    if b.count >= limit then (b, false) else (Bucket(b.started, SaturatingSucc(b.count)), true)
  }

  function SaturatingSucc(n: U32): U32 {
    if n < 0xFFFF_FFFF then n + 1 else n
  }

  function Lookup(buckets: map<string, Bucket>, key: string): Option<Bucket> {
    if key in buckets then Some(buckets[key]) else None
  }

  /** What `check` leaves in the map and what it answers. */
  function Checked(buckets: map<string, Bucket>, key: string, limit: U32, window: nat, now: Time)
    : (map<string, Bucket>, bool)
  {
    var retained := Retained(buckets, now);
    if CapRefuses(buckets, key, now) then (retained, false) else
    var (bucket, allowed) := Count(Lookup(retained, key), limit, window, now);
    (retained[key := bucket], allowed)
  }

  class Limiter {
    var buckets: map<string, Bucket>

    ghost predicate Valid()
      reads this
    {
      |buckets| <= MAX_BUCKETS
    }

    constructor ()
      ensures Valid() && buckets == map[]
    {
      buckets := map[];
    }

    method Check(key: string, limit: U32, window: nat, now: Time) returns (allowed: bool)
      requires Valid()
      modifies this
      ensures Valid()
      ensures (buckets, allowed) == Checked(old(buckets), key, limit, window, now)
    {
      SizeBounded(buckets, key, limit, window, now);
      ghost var retained := Retained(buckets, now);
      buckets := map k | k in buckets && Elapsed(now, buckets[k].started) < EVICT_AFTER :: buckets[k];
      if key !in buckets && |buckets| >= MAX_BUCKETS {
        return false;
      }
      var bucket := if key in buckets then buckets[key] else Bucket(now, 0);
      buckets := buckets[key := bucket];
      if Elapsed(now, bucket.started) >= window {
        UpdatedTwice(retained, key, bucket, Bucket(now, 0));
        bucket := Bucket(now, 0);
        buckets := buckets[key := bucket];
      }
      if bucket.count >= limit {
        return false;
      }
      UpdatedTwice(retained, key, bucket, Bucket(bucket.started, SaturatingSucc(bucket.count)));
      bucket := Bucket(bucket.started, SaturatingSucc(bucket.count));
      buckets := buckets[key := bucket];
      return true;
    }
  }

  lemma SizeBounded(buckets: map<string, Bucket>, key: string, limit: U32, window: nat, now: Time)
    requires |buckets| <= MAX_BUCKETS
    ensures |Checked(buckets, key, limit, window, now).0| <= MAX_BUCKETS
  {
    SubsetSize(Retained(buckets, now).Keys, buckets.Keys);
  }

  // ---------------------------------------------------------------- runs

  datatype Attempt = Attempt(key: string, limit: U32, window: nat, now: Time)

  /** The shared map after the first `n` attempts of a run. */
  function After(run: seq<Attempt>, n: nat): map<string, Bucket>
    requires n <= |run|
  {
    if n == 0 then map[] else
    var a := run[n-1];
    Checked(After(run, n-1), a.key, a.limit, a.window, a.now).0
  }

  /** The limiter's answer to attempt `n`. */
  predicate Allowed(run: seq<Attempt>, n: nat)
    requires n < |run|
  {
    var a := run[n];
    Checked(After(run, n), a.key, a.limit, a.window, a.now).1
  }

  predicate Capped(run: seq<Attempt>, n: nat)
    requires n < |run|
  {
    CapRefuses(After(run, n), run[n].key, run[n].now)
  }

  ghost predicate UsesPolicy(run: seq<Attempt>, key: string, limit: U32, window: nat) {
    forall i | 0 <= i < |run| && run[i].key == key :: run[i].limit == limit && run[i].window == window
  }

  ghost predicate LagAtMost(run: seq<Attempt>, lag: nat) {
    forall i, j | 0 <= i < j < |run| :: run[i].now <= run[j].now + lag
  }

  /** The map never exceeds its cap, in any run. */
  lemma {:induction false} MapBounded(run: seq<Attempt>, n: nat)
    requires n <= |run|
    ensures |After(run, n)| <= MAX_BUCKETS
  {
    if n > 0 {
      MapBounded(run, n-1);
      var a := run[n-1];
      SizeBounded(After(run, n-1), a.key, a.limit, a.window, a.now);
    }
  }

  // ---------------------------------------------------------------- the independent counter

  /** The clock readings a counter has been given so far. */
  datatype Readings = Unused | Then(earlier: Readings, now: Time)

  /** The readings of the key's own attempts that the cap did not refuse, among the first `n`. */
  function Own(run: seq<Attempt>, key: string, n: nat): Readings
    requires n <= |run|
  {
    if n == 0 then Unused
    else if run[n-1].key == key && !Capped(run, n-1) then Then(Own(run, key, n-1), run[n-1].now)
    else Own(run, key, n-1)
  }

  /** A counter with one bucket, no eviction and no cap. */
  function Counter(readings: Readings, limit: U32, window: nat): Option<Bucket> {
    match readings
    case Unused => None
    case Then(earlier, now) => Some(Count(Counter(earlier, limit, window), limit, window, now).0)
  }

  predicate CounterAllows(readings: Readings, limit: U32, window: nat, now: Time) {
    Count(Counter(readings, limit, window), limit, window, now).1
  }

  /** The shared limiter answers the key as the independent counter does, but for refusals by the cap. */
  ghost predicate Refines(run: seq<Attempt>, key: string, limit: U32, window: nat) {
    forall n | 0 <= n < |run| && run[n].key == key ::
      Allowed(run, n) <==> !Capped(run, n) && CounterAllows(Own(run, key, n), limit, window, run[n].now)
  }

  /** The map holds the counter's bucket, or the bucket was evicted and the counter's window is over. */
  ghost predicate Tracks(run: seq<Attempt>, key: string, limit: U32, window: nat, n: nat)
    requires n <= |run|
  {
    match Counter(Own(run, key, n), limit, window)
    case None => key !in After(run, n)
    case Some(b) =>
      if key in After(run, n) then After(run, n)[key] == b
      else exists i :: 0 <= i < n && run[i].now >= b.started + EVICT_AFTER
  }

  lemma {:induction false} TracksAlways(run: seq<Attempt>, key: string, limit: U32, window: nat, lag: nat, n: nat)
    requires n <= |run| && UsesPolicy(run, key, limit, window) && LagAtMost(run, lag)
    requires window + lag <= EVICT_AFTER
    ensures Tracks(run, key, limit, window, n)
  {
    if n > 0 {
      TracksAlways(run, key, limit, window, lag, n-1);
      var own := Own(run, key, n-1);
      if run[n-1].key == key && !Capped(run, n-1) {
        SameCount(run, key, limit, window, lag, n-1);
      } else {
        var c := Counter(own, limit, window);
        if c.Some? && key in After(run, n-1) && key !in After(run, n) {
          assert run[n-1].now >= c.value.started + EVICT_AFTER;
        }
      }
    }
  }

  /** An attempt that the cap lets through counts in the shared map as it does in the independent counter. */
  lemma SameCount(run: seq<Attempt>, key: string, limit: U32, window: nat, lag: nat, n: nat)
    requires n < |run| && UsesPolicy(run, key, limit, window) && LagAtMost(run, lag)
    requires window + lag <= EVICT_AFTER
    requires run[n].key == key && Tracks(run, key, limit, window, n)
    ensures var now := run[n].now;
            Count(Lookup(Retained(After(run, n), now), key), limit, window, now) ==
            Count(Counter(Own(run, key, n), limit, window), limit, window, now)
    ensures Allowed(run, n) <==> !Capped(run, n) && CounterAllows(Own(run, key, n), limit, window, run[n].now)
  {
    var c := Counter(Own(run, key, n), limit, window);
    if c.Some? && key !in After(run, n) {
      var i :| 0 <= i < n && run[i].now >= c.value.started + EVICT_AFTER;
      assert run[i].now <= run[n].now + lag;
    }
  }

  lemma RefinesCounter(run: seq<Attempt>, key: string, limit: U32, window: nat, lag: nat)
    requires UsesPolicy(run, key, limit, window) && LagAtMost(run, lag)
    requires window + lag <= EVICT_AFTER
    ensures Refines(run, key, limit, window)
  {
    forall n | 0 <= n < |run| && run[n].key == key
      ensures Allowed(run, n) <==> !Capped(run, n) && CounterAllows(Own(run, key, n), limit, window, run[n].now)
    {
      TracksAlways(run, key, limit, window, lag, n);
      SameCount(run, key, limit, window, lag, n);
    }
  }

  /** With a zero limit, or a zero window, the state of the bucket does not matter to the answer. */
  lemma DegenerateRefines(run: seq<Attempt>, key: string, limit: U32, window: nat)
    requires UsesPolicy(run, key, limit, window) && (limit == 0 || window == 0)
    ensures Refines(run, key, limit, window)
  {
  }

  // A run on which the refinement fails: the limit is used up at time 0, another key's call evicts the
  // bucket an hour later, and a call that read the clock earlier takes the lock last.

  function Stale(key: string, other: string, limit: U32, window: nat, lag: nat): (run: seq<Attempt>)
    ensures |run| == limit + 2
    ensures forall i | 0 <= i < limit :: run[i] == Attempt(key, limit, window, 0)
    ensures run[limit] == Attempt(other, 1, 0, EVICT_AFTER)
    ensures run[limit + 1] == Attempt(key, limit, window, EVICT_AFTER - Min(lag, EVICT_AFTER))
  {
    seq(limit, _ => Attempt(key, limit, window, 0)) +
    [Attempt(other, 1, 0, EVICT_AFTER), Attempt(key, limit, window, EVICT_AFTER - Min(lag, EVICT_AFTER))]
  }

  lemma {:induction false} Fills(run: seq<Attempt>, key: string, limit: U32, window: nat, n: nat)
    requires n <= limit && n <= |run| && window > 0
    requires forall i | 0 <= i < n :: run[i] == Attempt(key, limit, window, 0)
    ensures After(run, n) == (if n == 0 then map[] else map[key := Bucket(0, n)])
    ensures Counter(Own(run, key, n), limit, window) == (if n == 0 then None else Some(Bucket(0, n)))
  {
    if n > 0 {
      Fills(run, key, limit, window, n-1);
      FillsOnce(key, limit, window, n);
    }
  }

  lemma FillsOnce(key: string, limit: U32, window: nat, n: nat)
    requires 0 < n <= limit && window > 0
    ensures var before := if n == 1 then map[] else map[key := Bucket(0, n-1)];
            Checked(before, key, limit, window, 0) == (map[key := Bucket(0, n)], true) &&
            !CapRefuses(before, key, 0)
  {
    var before := if n == 1 then map[] else map[key := Bucket(0, n-1)];
    assert Retained(before, 0) == before;
    assert before[key := Bucket(0, n)] == map[key := Bucket(0, n)];
  }

  lemma Evicts(run: seq<Attempt>, key: string, other: string, limit: U32, window: nat)
    requires limit > 0 && window > 0 && key != other && |run| > limit
    requires forall i | 0 <= i < limit :: run[i] == Attempt(key, limit, window, 0)
    requires run[limit] == Attempt(other, 1, 0, EVICT_AFTER)
    ensures After(run, limit + 1) == map[other := Bucket(EVICT_AFTER, 1)]
    ensures Counter(Own(run, key, limit + 1), limit, window) == Some(Bucket(0, limit))
  {
    Fills(run, key, limit, window, limit);
    assert Retained(After(run, limit), EVICT_AFTER) == map[];
  }

  /** The late attempt meets a map without its bucket, and is allowed; the counter refuses it. */
  lemma LateAllowed(key: string, other: string, limit: U32, window: nat, now: Time)
    requires limit > 0 && key != other && 0 <= now < window && now <= EVICT_AFTER
    ensures var buckets := map[other := Bucket(EVICT_AFTER, 1)];
            !CapRefuses(buckets, key, now) && Checked(buckets, key, limit, window, now).1 &&
            !Count(Some(Bucket(0, limit)), limit, window, now).1
  {
    var retained := Retained(map[other := Bucket(EVICT_AFTER, 1)], now);
    SubsetSize(retained.Keys, {other});
  }

  lemma StaleBreaks(key: string, other: string, limit: U32, window: nat, lag: nat)
    requires limit > 0 && window > 0 && key != other && window + lag > EVICT_AFTER
    ensures var run := Stale(key, other, limit, window, lag);
            UsesPolicy(run, key, limit, window) && LagAtMost(run, lag) && !Refines(run, key, limit, window)
  {
    var run := Stale(key, other, limit, window, lag);
    Evicts(run, key, other, limit, window);
    LateAllowed(key, other, limit, window, run[limit + 1].now);
    hide After, Own, Counter, Checked, CapRefuses, Count;
    assert Allowed(run, limit + 1) && !Capped(run, limit + 1);
    assert !CounterAllows(Own(run, key, limit + 1), limit, window, run[limit + 1].now);
  }

  /**
    Exactly when a key's answers are those of its own counter in every run: when its window and the lag of the
    clock readings together do not outlast a bucket's retention. With monotone readings that is any window of
    at most an hour.
   */
  lemma RefinementExact(key: string, limit: U32, window: nat, lag: nat)
    ensures (forall run: seq<Attempt> | UsesPolicy(run, key, limit, window) && LagAtMost(run, lag) ::
               Refines(run, key, limit, window))
       <==> (limit == 0 || window == 0 || window + lag <= EVICT_AFTER)
  {
    if limit == 0 || window == 0 || window + lag <= EVICT_AFTER {
      forall run: seq<Attempt> | UsesPolicy(run, key, limit, window) && LagAtMost(run, lag)
        ensures Refines(run, key, limit, window)
      {
        if window + lag <= EVICT_AFTER {
          RefinesCounter(run, key, limit, window, lag);
        } else {
          DegenerateRefines(run, key, limit, window);
        }
      }
    } else {
      StaleBreaks(key, key + "x", limit, window, lag);
    }
  }

  // ---------------------------------------------------------------- when the cap refuses

  /** The keys of the first `n` attempts. */
  function KeysSeen(run: seq<Attempt>, n: nat): set<string>
    requires n <= |run|
  {
    if n == 0 then {} else KeysSeen(run, n-1) + {run[n-1].key}
  }

  lemma CheckedKeys(buckets: map<string, Bucket>, a: Attempt)
    ensures Checked(buckets, a.key, a.limit, a.window, a.now).0.Keys <= buckets.Keys + {a.key}
  {
    hide Count;
  }

  lemma {:induction false} MapKeysSeen(run: seq<Attempt>, n: nat)
    requires n <= |run|
    ensures After(run, n).Keys <= KeysSeen(run, n)
  {
    if n > 0 {
      MapKeysSeen(run, n-1);
      CheckedKeys(After(run, n-1), run[n-1]);
      hide Checked;
    }
  }

  /** The cap refuses an attempt only if at least 4096 other keys have been used before it. */
  lemma CapNeedsKeys(run: seq<Attempt>, n: nat)
    requires n < |run| && Capped(run, n)
    ensures |KeysSeen(run, n) - {run[n].key}| >= 4_096
  {
    MapKeysSeen(run, n);
    SubsetSize(Retained(After(run, n), run[n].now).Keys, KeysSeen(run, n) - {run[n].key});
  }

  datatype Policy = Policy(limit: U32, window: nat)

  /** Every key has a policy of its own, with a window of at most an hour. */
  ghost predicate UsesPolicies(run: seq<Attempt>, policies: string -> Policy) {
    (forall key :: policies(key).window <= 3_600_000_000_000) &&
    forall i | 0 <= i < |run| :: Policy(run[i].limit, run[i].window) == policies(run[i].key)
  }

  /** The key's own counter has a bucket that started less than an hour before `now`. */
  predicate Recent(run: seq<Attempt>, policies: string -> Policy, n: nat, now: Time, key: string)
    requires n <= |run|
  {
    var c := Counter(Own(run, key, n), policies(key).limit, policies(key).window);
    c.Some? && now - c.value.started < 3_600_000_000_000
  }

  /** In a monotone run, the buckets that survive the eviction are those of the recent counters. */
  lemma RetainedExactly(run: seq<Attempt>, policies: string -> Policy, n: nat, key: string)
    requires n < |run| && UsesPolicies(run, policies) && LagAtMost(run, 0)
    ensures key in Retained(After(run, n), run[n].now) <==> Recent(run, policies, n, run[n].now, key)
  {
    var p, now := policies(key), run[n].now;
    TracksAlways(run, key, p.limit, p.window, 0, n);
    var c := Counter(Own(run, key, n), p.limit, p.window);
    if c.Some? && key !in After(run, n) {
      var i :| 0 <= i < n && run[i].now >= c.value.started + EVICT_AFTER;
      assert run[i].now <= now;
    }
  }

  /** The other keys with recent counters when attempt `n` is made. */
  function RecentOthers(run: seq<Attempt>, policies: string -> Policy, n: nat): set<string>
    requires n < |run|
  {
    set key | key in KeysSeen(run, n) && key != run[n].key && Recent(run, policies, n, run[n].now, key)
  }

  /**
    Exactly when the cap refuses, with monotone readings: when the key's own counter has no bucket started within the
    last hour, and at least 4096 other keys' counters have one.
   */
  lemma CapExact(run: seq<Attempt>, policies: string -> Policy, n: nat)
    requires n < |run| && UsesPolicies(run, policies) && LagAtMost(run, 0)
    ensures Capped(run, n) <==>
            !Recent(run, policies, n, run[n].now, run[n].key) && |RecentOthers(run, policies, n)| >= 4_096
  {
    var key, retained := run[n].key, Retained(After(run, n), run[n].now).Keys;
    MapKeysSeen(run, n);
    forall other: string
      ensures other in retained <==> Recent(run, policies, n, run[n].now, other)
    {
      RetainedExactly(run, policies, n, other);
    }
    hide Recent, After, UsesPolicies, LagAtMost;
    assert RecentOthers(run, policies, n) == retained - {key};
  }

  // ---------------------------------------------------------------- the bound on an interval

  /** How many of the first `n` attempts of the key were allowed with a clock reading in [lo, hi). */
  function AllowedIn(run: seq<Attempt>, key: string, lo: Time, hi: Time, n: nat): nat
    requires n <= |run|
  {
    if n == 0 then 0 else
    AllowedIn(run, key, lo, hi, n-1) +
    (if run[n-1].key == key && Allowed(run, n-1) && lo <= run[n-1].now < hi then 1 else 0)
  }

  /**
    `windows` of the counter's windows have held allowed attempts of the interval, the first of them started at
    `first` and the last at `last`, and window starts are at least `window` apart. A first window that started before
    the interval spent at least one attempt, its own first, outside it.
   */
  ghost predicate Spread(bucket: Option<Bucket>, total: nat, windows: nat, first: Time, last: Time,
                         limit: U32, window: nat, lo: Time, hi: Time, lag: nat) {
    total > 0 ==>
      bucket.Some? && windows > 0 && lo - window < first && last < hi + lag && last >= first + (windows - 1) * window &&
      var spent := total + (if first < lo then 1 else 0);
      if bucket.value.started == last then spent <= (windows - 1) * limit + bucket.value.count
      else bucket.value.started >= last + window && spent <= windows * limit
  }

  lemma {:induction false} CountSpreads(bucket: Option<Bucket>, total: nat, windows: nat, first: Time, last: Time,
                                        limit: U32, window: nat, lo: Time, hi: Time, lag: nat, now: Time)
    returns (windows': nat, first': Time, last': Time)
    requires window > 0 && limit > 0 && Spread(bucket, total, windows, first, last, limit, window, lo, hi, lag)
    requires bucket.Some? ==> 0 < bucket.value.count <= limit && bucket.value.started <= now + lag
    ensures var (b, allowed) := Count(bucket, limit, window, now);
            0 < b.count <= limit && b.started <= now + lag &&
            Spread(Some(b), total + (if allowed && lo <= now < hi then 1 else 0), windows', first', last',
                   limit, window, lo, hi, lag)
  {
    var (b, allowed) := Count(bucket, limit, window, now);
    windows', first', last' := windows, first, last;
    if allowed && lo <= now < hi && total == 0 {
      windows', first', last' := 1, b.started, b.started;
    } else if allowed && lo <= now < hi && b.started != last {
      windows', last' := windows + 1, b.started;
      assert windows * window == (windows - 1) * window + window;
    } else if total > 0 {
      assert windows * limit == (windows - 1) * limit + limit;
    }
  }

  /** The counter's bucket is between one and `limit`, and started at a reading seen so far. */
  ghost predicate Running(run: seq<Attempt>, bucket: Option<Bucket>, limit: U32, n: nat)
    requires n <= |run|
  {
    bucket.Some? ==> 0 < bucket.value.count <= limit && exists i :: 0 <= i < n && bucket.value.started <= run[i].now
  }

  lemma {:induction false} OneSpreads(run: seq<Attempt>, key: string, limit: U32, window: nat, lag: nat, lo: Time,
                                      hi: Time, n: nat, windows: nat, first: Time, last: Time)
    returns (windows': nat, first': Time, last': Time)
    requires n < |run| && UsesPolicy(run, key, limit, window) && LagAtMost(run, lag)
    requires 0 < window && 0 < limit && window + lag <= EVICT_AFTER && run[n].key == key
    requires var c := Counter(Own(run, key, n), limit, window);
             Running(run, c, limit, n) &&
             Spread(c, AllowedIn(run, key, lo, hi, n), windows, first, last, limit, window, lo, hi, lag)
    ensures var c := Counter(Own(run, key, n + 1), limit, window);
            Running(run, c, limit, n + 1) &&
            Spread(c, AllowedIn(run, key, lo, hi, n + 1), windows', first', last', limit, window, lo, hi, lag)
  {
    windows', first', last' := windows, first, last;
    TracksAlways(run, key, limit, window, lag, n);
    SameCount(run, key, limit, window, lag, n);
    hide Checked, CapRefuses, Retained;
    if !Capped(run, n) {
      var c, now := Counter(Own(run, key, n), limit, window), run[n].now;
      if c.Some? {
        var i :| 0 <= i < n && c.value.started <= run[i].now;
        assert run[i].now <= now + lag;
      }
      windows', first', last' :=
        CountSpreads(c, AllowedIn(run, key, lo, hi, n), windows, first, last, limit, window, lo, hi, lag, now);
      CountGoesUp(c, limit, window, now);
      hide Spread, Count;
    }
  }

  lemma {:induction false} WindowsSpread(run: seq<Attempt>, key: string, limit: U32, window: nat, lag: nat, lo: Time,
                                         hi: Time, n: nat)
    returns (windows: nat, first: Time, last: Time)
    requires n <= |run| && UsesPolicy(run, key, limit, window) && LagAtMost(run, lag)
    requires 0 < window && 0 < limit && window + lag <= EVICT_AFTER
    ensures var c := Counter(Own(run, key, n), limit, window);
            Running(run, c, limit, n) &&
            Spread(c, AllowedIn(run, key, lo, hi, n), windows, first, last, limit, window, lo, hi, lag)
  {
    windows, first, last := 0, 0, 0;
    if n > 0 {
      windows, first, last := WindowsSpread(run, key, limit, window, lag, lo, hi, n-1);
      if run[n-1].key == key {
        windows, first, last := OneSpreads(run, key, limit, window, lag, lo, hi, n-1, windows, first, last);
      } else {
        var c := Counter(Own(run, key, n-1), limit, window);
        if c.Some? {
          var i :| 0 <= i < n-1 && c.value.started <= run[i].now;
        }
        hide Spread;
      }
    }
  }

  lemma {:induction false} NoneAllowed(run: seq<Attempt>, key: string, window: nat, lo: Time, hi: Time, n: nat)
    requires n <= |run| && UsesPolicy(run, key, 0, window)
    ensures AllowedIn(run, key, lo, hi, n) == 0
  {
    if n > 0 {
      NoneAllowed(run, key, window, lo, hi, n-1);
    }
  }

  /**
    A key with a fixed policy is allowed fewer than `(n + m + 1) * limit` times with clock readings in a half-open
    interval of `n` windows, when readings lag by at most `m` windows; with monotone readings, fewer than
    `(n + 1) * limit` times. Other keys, evictions and refusals by the cap may be mixed in at will.
   */
  lemma IntervalBound(run: seq<Attempt>, key: string, limit: U32, window: nat, lag: nat, from: Time, n: nat, m: nat)
    requires UsesPolicy(run, key, limit, window) && LagAtMost(run, lag)
    requires 0 < window && window + lag <= EVICT_AFTER && lag <= m * window
    ensures var total := AllowedIn(run, key, from, from + n * window, |run|);
            if limit == 0 then total == 0 else total < (n + m + 1) * limit
  {
    var hi := from + n * window;
    if limit == 0 {
      NoneAllowed(run, key, window, from, hi, |run|);
    } else {
      var windows, first, last := WindowsSpread(run, key, limit, window, lag, from, hi, |run|);
      var total := AllowedIn(run, key, from, hi, |run|);
      if total > 0 {
        assert windows * limit == (windows - 1) * limit + limit;
        assert total + (if first < from then 1 else 0) <= windows * limit;
        SpreadBound(windows, first, last, window, from, n, m, lag);
        MoreFactors(windows + (if first < from then 0 else 1), n + m + 1, limit);
        assert (windows + 1) * limit == windows * limit + limit;
      } else {
        MoreFactors(1, n + m + 1, limit);
      }
    }
  }

  /** Window starts a window apart: there are at most n + m + 1, and one fewer if the first is in the interval. */
  lemma SpreadBound(windows: nat, first: Time, last: Time, window: nat, from: Time, n: nat, m: nat, lag: nat)
    requires 0 < window && 0 < windows && lag <= m * window
    requires from - window < first && last < from + n * window + lag && last >= first + (windows - 1) * window
    ensures windows <= n + m + (if first < from then 1 else 0)
  {
    assert (n + m) * window == n * window + m * window;
    assert (n + m + 1) * window == (n + m) * window + window;
    FewerFactors(windows - 1, n + m + (if first < from then 1 else 0), window);
  }

  // ---------------------------------------------------------------- the bound is reached

  /** Attempts of the key alone, all at one moment. */
  function Burst(key: string, limit: U32, window: nat, now: Time, n: nat): (burst: seq<Attempt>)
    ensures |burst| == n && forall i | 0 <= i < n :: burst[i] == Attempt(key, limit, window, now)
  {
    seq(n, _ => Attempt(key, limit, window, now))
  }

  /** One attempt at 0, the rest of its window's limit at its end, and `limit` attempts in each of `n` windows more. */
  function Crowded(key: string, limit: U32, window: nat, n: nat): seq<Attempt>
    requires limit > 0
  {
    if n == 0 then [Attempt(key, limit, window, 0)] + Burst(key, limit, window, window - 1, limit - 1)
    else Crowded(key, limit, window, n-1) + Burst(key, limit, window, n * window, limit)
  }

  /** What the first attempts of a run do does not depend on those that follow. */
  lemma {:induction false} PrefixCounts(run: seq<Attempt>, more: seq<Attempt>, key: string, lo: Time, hi: Time, n: nat)
    requires n <= |run|
    ensures After(run + more, n) == After(run, n)
    ensures AllowedIn(run + more, key, lo, hi, n) == AllowedIn(run, key, lo, hi, n)
  {
    if n > 0 {
      PrefixCounts(run, more, key, lo, hi, n-1);
      assert (run + more)[n-1] == run[n-1];
    }
  }

  /** The map holds the key's bucket alone. */
  predicate Alone(buckets: map<string, Bucket>, key: string, started: Time, count: nat) {
    count <= 0xFFFF_FFFF && buckets == map[key := Bucket(started, count)]
  }

  lemma AloneCounts(buckets: map<string, Bucket>, key: string, started: Time, count: nat, limit: U32, window: nat,
                    now: Time)
    requires Alone(buckets, key, started, count) && started <= now <= started + window && 0 < window <= EVICT_AFTER
    requires limit > 0 && (now < started + window ==> count < limit)
    ensures var (after, allowed) := Checked(buckets, key, limit, window, now);
            allowed &&
            if now < started + window then Alone(after, key, started, count + 1) else Alone(after, key, now, 1)
  {
    var retained := Retained(buckets, now);
    if Elapsed(now, started) < EVICT_AFTER {
      assert retained == buckets;
    } else {
      assert retained == map[];
    }
    assert retained[key := Bucket(now, 1)] == map[key := Bucket(now, 1)];
  }

  /** What one more attempt adds to a run. */
  lemma Appended(run: seq<Attempt>, a: Attempt, key: string, lo: Time, hi: Time)
    ensures var longer, (after, allowed) := run + [a], Checked(After(run, |run|), a.key, a.limit, a.window, a.now);
            After(longer, |longer|) == after &&
            AllowedIn(longer, key, lo, hi, |longer|) ==
              AllowedIn(run, key, lo, hi, |run|) + (if a.key == key && allowed && lo <= a.now < hi then 1 else 0)
  {
    PrefixCounts(run, [a], key, lo, hi, |run|);
    hide Checked;
  }

  /** One more attempt, within the running window or at its end. */
  lemma OneMore(run: seq<Attempt>, key: string, limit: U32, window: nat, now: Time, started: Time, count: nat,
                lo: Time, hi: Time)
    requires Alone(After(run, |run|), key, started, count) && started <= now <= started + window
    requires 0 < window <= EVICT_AFTER && limit > 0 && (now < started + window ==> count < limit)
    ensures var longer := run + [Attempt(key, limit, window, now)];
            AllowedIn(longer, key, lo, hi, |longer|) ==
              AllowedIn(run, key, lo, hi, |run|) + (if lo <= now < hi then 1 else 0) &&
            if now < started + window then Alone(After(longer, |longer|), key, started, count + 1)
            else Alone(After(longer, |longer|), key, now, 1)
  {
    Appended(run, Attempt(key, limit, window, now), key, lo, hi);
    AloneCounts(After(run, |run|), key, started, count, limit, window, now);
    hide Checked, Alone, After, AllowedIn;
  }

  /** A burst within the running window is allowed as far as the limit reaches. */
  lemma {:induction false} FillsWindow(run: seq<Attempt>, key: string, limit: U32, window: nat, now: Time, n: nat,
                                       started: Time, count: nat, lo: Time, hi: Time)
    requires Alone(After(run, |run|), key, started, count) && started <= now < started + window && lo <= now < hi
    requires 0 < window <= EVICT_AFTER && limit > 0 && count + n <= limit
    ensures var longer := run + Burst(key, limit, window, now, n);
            AllowedIn(longer, key, lo, hi, |longer|) == AllowedIn(run, key, lo, hi, |run|) + n &&
            Alone(After(longer, |longer|), key, started, count + n)
  {
    hide After, AllowedIn, Alone;
    if n == 0 {
      assert run + Burst(key, limit, window, now, n) == run;
    } else {
      var shorter := run + Burst(key, limit, window, now, n-1);
      FillsWindow(run, key, limit, window, now, n-1, started, count, lo, hi);
      OneMore(shorter, key, limit, window, now, started, count + n - 1, lo, hi);
      assert run + Burst(key, limit, window, now, n) == shorter + [Attempt(key, limit, window, now)];
    }
  }

  /** A burst at the end of the window starts the next one, and is allowed in full. */
  lemma NextWindow(run: seq<Attempt>, key: string, limit: U32, window: nat, now: Time, count: nat, lo: Time, hi: Time)
    requires Alone(After(run, |run|), key, now - window, count) && lo <= now < hi
    requires 0 < window <= EVICT_AFTER && limit > 0
    ensures var longer := run + Burst(key, limit, window, now, limit);
            AllowedIn(longer, key, lo, hi, |longer|) == AllowedIn(run, key, lo, hi, |run|) + limit &&
            Alone(After(longer, |longer|), key, now, limit)
  {
    hide After, AllowedIn, Alone;
    var one := run + [Attempt(key, limit, window, now)];
    OneMore(run, key, limit, window, now, now - window, count, lo, hi);
    FillsWindow(one, key, limit, window, now, limit - 1, now, 1, lo, hi);
    assert run + Burst(key, limit, window, now, limit) == one + Burst(key, limit, window, now, limit - 1);
  }

  lemma FirstOne(key: string, limit: U32, window: nat, lo: Time, hi: Time)
    requires 0 < window && 0 < lo && 0 < limit
    ensures var first := [Attempt(key, limit, window, 0)];
            AllowedIn(first, key, lo, hi, 1) == 0 && Alone(After(first, 1), key, 0, 1)
  {
    var first := [Attempt(key, limit, window, 0)];
    assert After(first, 0) == map[] && Retained(map[], 0) == map[];
  }

  lemma {:induction false} CrowdedAllowed(key: string, limit: U32, window: nat, n: nat, hi: Time)
    requires limit > 0 && 2 <= window <= EVICT_AFTER && n * window < hi && window <= hi
    ensures var run := Crowded(key, limit, window, n);
            AllowedIn(run, key, window - 1, hi, |run|) == (n + 1) * limit - 1 &&
            Alone(After(run, |run|), key, n * window, limit)
  {
    hide After, AllowedIn, Alone, LagAtMost, UsesPolicy;
    var lo := window - 1;
    assert (n + 1) * limit == n * limit + limit;
    if n == 0 {
      FirstOne(key, limit, window, lo, hi);
      FillsWindow([Attempt(key, limit, window, 0)], key, limit, window, lo, limit - 1, 0, 1, lo, hi);
    } else {
      assert n * window == (n-1) * window + window;
      CrowdedAllowed(key, limit, window, n-1, hi);
      MoreFactors(1, n, window);
      NextWindow(Crowded(key, limit, window, n-1), key, limit, window, n * window, limit, lo, hi);
    }
  }

  lemma {:induction false} CrowdedLegal(key: string, limit: U32, window: nat, n: nat)
    requires limit > 0 && window > 0
    ensures var run := Crowded(key, limit, window, n);
            UsesPolicy(run, key, limit, window) && LagAtMost(run, 0) &&
            forall i | 0 <= i < |run| :: run[i].now < (n + 1) * window
  {
    assert (n + 1) * window == n * window + window;
    if n > 0 {
      CrowdedLegal(key, limit, window, n-1);
    }
  }

  predicate AllowedAtMost(run: seq<Attempt>, key: string, from: Time, length: nat, bound: int) {
    AllowedIn(run, key, from, from + length, |run|) <= bound
  }

  /**
    The bound is the best possible: with monotone readings and windows of at least two ticks of the clock,
    `(n + 1) * limit - 1` is the least bound over all runs on the allowed calls in `n` windows' time.
   */
  lemma IntervalBoundExact(key: string, limit: U32, window: nat, n: nat, bound: int)
    requires 0 < limit && 2 <= window <= EVICT_AFTER && 0 < n
    ensures (forall run: seq<Attempt>, from: Time | UsesPolicy(run, key, limit, window) && LagAtMost(run, 0) ::
               AllowedAtMost(run, key, from, n * window, bound))
       <==> bound >= (n + 1) * limit - 1
  {
    hide UsesPolicy, LagAtMost, AllowedAtMost;
    if bound >= (n + 1) * limit - 1 {
      forall run: seq<Attempt>, from: Time | UsesPolicy(run, key, limit, window) && LagAtMost(run, 0)
        ensures AllowedAtMost(run, key, from, n * window, bound)
      {
        WithinBound(run, key, limit, window, from, n, bound);
      }
    } else {
      PastBound(key, limit, window, n, bound);
      CrowdedLegal(key, limit, window, n);
    }
  }

  lemma WithinBound(run: seq<Attempt>, key: string, limit: U32, window: nat, from: Time, n: nat, bound: int)
    requires UsesPolicy(run, key, limit, window) && LagAtMost(run, 0)
    requires 0 < limit && 0 < window <= EVICT_AFTER && bound >= (n + 1) * limit - 1
    ensures AllowedAtMost(run, key, from, n * window, bound)
  {
    IntervalBound(run, key, limit, window, 0, from, n, 0);
  }

  lemma PastBound(key: string, limit: U32, window: nat, n: nat, bound: int)
    requires 0 < limit && 2 <= window <= EVICT_AFTER && 0 < n && bound < (n + 1) * limit - 1
    ensures !AllowedAtMost(Crowded(key, limit, window, n), key, window - 1, n * window, bound)
  {
    hide AllowedIn, Crowded, Alone, After;
    var length := n * window;
    assert length >= window by {
      MoreFactors(1, n, window);
    }
    var run := Crowded(key, limit, window, n);
    assert AllowedIn(run, key, window - 1, window - 1 + length, |run|) == (n + 1) * limit - 1 by {
      CrowdedAllowed(key, limit, window, n, window - 1 + length);
    }
  }

  lemma CountGoesUp(bucket: Option<Bucket>, limit: U32, window: nat, now: Time)
    ensures var (b, allowed) := Count(bucket, limit, window, now);
            var one := if allowed then 1 else 0;
            (b.started == now && b.count == one) ||
            (bucket.Some? && b.started == bucket.value.started && b.count == bucket.value.count + one)
  {
  }

  /** The bucket counts no more than the allowed attempts since its start, and started at a reading seen so far. */
  ghost predicate Accounted(run: seq<Attempt>, bucket: Option<Bucket>, key: string, lag: nat, hi: Time, n: nat)
    requires n <= |run|
  {
    bucket.Some? ==>
      bucket.value.count <= AllowedIn(run, key, bucket.value.started - lag, hi, n) &&
      exists i :: 0 <= i < n && bucket.value.started <= run[i].now
  }

  lemma OneCounted(run: seq<Attempt>, key: string, limit: U32, window: nat, lag: nat, hi: Time, n: nat)
    requires n < |run| && UsesPolicy(run, key, limit, window) && LagAtMost(run, lag) && window + lag <= EVICT_AFTER
    requires run[n].key == key && run[n].now < hi && !Capped(run, n)
    requires Accounted(run, Counter(Own(run, key, n), limit, window), key, lag, hi, n)
    ensures Accounted(run, Counter(Own(run, key, n + 1), limit, window), key, lag, hi, n + 1)
  {
    TracksAlways(run, key, limit, window, lag, n);
    SameCount(run, key, limit, window, lag, n);
    hide Allowed, Capped, Count, Tracks, Accounted;
    CountAccounted(run, Counter(Own(run, key, n), limit, window), key, limit, window, lag, hi, n);
  }

  lemma CountAccounted(run: seq<Attempt>, bucket: Option<Bucket>, key: string, limit: U32, window: nat, lag: nat,
                       hi: Time, n: nat)
    requires n < |run| && LagAtMost(run, lag) && run[n].key == key && run[n].now < hi
    requires Accounted(run, bucket, key, lag, hi, n) && Allowed(run, n) == Count(bucket, limit, window, run[n].now).1
    ensures Accounted(run, Some(Count(bucket, limit, window, run[n].now).0), key, lag, hi, n + 1)
  {
    CountGoesUp(bucket, limit, window, run[n].now);
    hide Allowed, Count;
    if bucket.Some? {
      var i :| 0 <= i < n && bucket.value.started <= run[i].now;
      assert run[i].now <= run[n].now + lag;
    }
  }

  lemma {:induction false} WindowCounted(run: seq<Attempt>, key: string, limit: U32, window: nat, lag: nat, hi: Time,
                                         n: nat)
    requires n <= |run| && UsesPolicy(run, key, limit, window) && LagAtMost(run, lag) && window + lag <= EVICT_AFTER
    requires forall i | 0 <= i < n :: run[i].now < hi
    ensures Accounted(run, Counter(Own(run, key, n), limit, window), key, lag, hi, n)
  {
    if n > 0 {
      WindowCounted(run, key, limit, window, lag, hi, n-1);
      if run[n-1].key == key && !Capped(run, n-1) {
        OneCounted(run, key, limit, window, lag, hi, n-1);
      } else {
        StillCounted(run, Counter(Own(run, key, n-1), limit, window), key, lag, hi, n-1);
      }
      hide Accounted, Capped, UsesPolicy, LagAtMost;
    }
  }

  lemma StillCounted(run: seq<Attempt>, bucket: Option<Bucket>, key: string, lag: nat, hi: Time, n: nat)
    requires n < |run| && Accounted(run, bucket, key, lag, hi, n)
    ensures Accounted(run, bucket, key, lag, hi, n + 1)
  {
    hide Allowed;
    if bucket.Some? {
      var i :| 0 <= i < n && bucket.value.started <= run[i].now;
    }
  }

  lemma {:induction false} WiderInterval(run: seq<Attempt>, key: string, lo: Time, lo': Time, hi: Time, n: nat)
    requires n <= |run| && lo' <= lo
    ensures AllowedIn(run, key, lo, hi, n) <= AllowedIn(run, key, lo', hi, n)
  {
    if n > 0 {
      WiderInterval(run, key, lo, lo', hi, n-1);
    }
  }

  /**
    No refusal without cause: if an attempt is refused, and not by the cap, then `limit` earlier attempts of the
    key were allowed with readings less than a window, and the lag, before its own.
   */
  lemma RefusalJustified(run: seq<Attempt>, key: string, limit: U32, window: nat, lag: nat, n: nat)
    requires n < |run| && UsesPolicy(run, key, limit, window) && LagAtMost(run, lag) && window + lag <= EVICT_AFTER
    requires run[n].key == key && !Allowed(run, n) && !Capped(run, n)
    ensures var now := run[n].now; AllowedIn(run, key, now - window - lag + 1, now + lag + 1, n) >= limit
  {
    var now := run[n].now;
    WindowCounted(run, key, limit, window, lag, now + lag + 1, n);
    TracksAlways(run, key, limit, window, lag, n);
    SameCount(run, key, limit, window, lag, n);
    var c := Counter(Own(run, key, n), limit, window);
    if c.Some? && Elapsed(now, c.value.started) < window {
      WiderInterval(run, key, c.value.started - lag, now - window - lag + 1, now + lag + 1, n);
    }
  }

  lemma FewerFactors(a: int, b: int, c: nat)
    requires a * c < b * c
    ensures a < b
  {
    if a >= b {
      MoreFactors(b, a, c);
    }
  }

  lemma MoreFactors(a: int, b: int, c: nat)
    requires a <= b
    ensures a * c <= b * c
  {
    assert (b - a) * c >= 0;
    assert b * c == a * c + (b - a) * c;
  }

  // ---------------------------------------------------------------- keys

  /** The key of `enforce` and of the global limit. */
  function Key(client: string, scope: string): string {
    client + ":" + scope
  }

  const SCOPES: set<string> := {"graphql", "register", "challenge", "authenticate"}

  /**
    Keys tell clients and scopes apart although a client key may hold colons (an IPv6 address does), because
    no scope does.
   */
  lemma KeyInjective(client: string, scope: string, client': string, scope': string)
    requires scope in SCOPES && scope' in SCOPES
    requires Key(client, scope) == Key(client', scope')
    ensures client == client' && scope == scope'
  {
    assert ':' !in scope && ':' !in scope';
    var key := Key(client, scope);
    var i, j := |client|, |client'|;
    assert key[i] == ':' && key[j] == ':';
    assert i == j;
    assert client == key[..i] && client' == key[..j];
    assert scope == key[i+1..] && scope' == key[j+1..];
  }
}
