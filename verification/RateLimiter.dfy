/**
 * The token-bucket limiter of the Hub (`rate_limiter.rs`).  Time is exact, in nanoseconds, as
 * `Instant` measures it; the refill is the truncated quotient the floating-point expression
 * approximates.
 */
module RateLimiter {
  import opened Prelude

  const WINDOW := 60_000_000_000
  const MAX_AGE := 3_600_000_000_000
  const CLEANUP_THRESHOLD := 1000

  datatype Bucket = Bucket(tokens: nat, last: nat)

  type Buckets = map<string, Bucket>

  datatype Request = Request(key: string, limit: nat, now: nat)

  /** `duration_since` is zero when the clock seems to run backwards. */
  function Elapsed(now: nat, last: nat): nat { if now < last then 0 else now - last }

  function Refill(elapsed: nat, limit: nat): nat { elapsed * limit / WINDOW }

  function Min(a: nat, b: nat): nat { if a < b then a else b }

  function Refilled(b: Bucket, limit: nat, now: nat): nat {
    Min(b.tokens + Refill(Elapsed(now, b.last), limit), limit)
  }

  /** What a check does to the one bucket it looks at. */
  function Take(b: Option<Bucket>, limit: nat, now: nat): (bool, Bucket) {
    var tokens := Refilled(b.Or(Bucket(limit, now)), limit, now);
    if tokens > 0 then (true, Bucket(tokens - 1, now)) else (false, Bucket(0, now))
  }

  function Evict(m: Buckets, now: nat): Buckets {
    if |m| > CLEANUP_THRESHOLD then map k | k in m && Elapsed(now, m[k].last) < MAX_AGE :: m[k] else m
  }

  /** `check`: the decision and the buckets afterwards; `evicting` tells the two limiters apart. */
  function Check(m: Buckets, r: Request, evicting: bool): (bool, Buckets) {
    if r.limit == 0 then (true, m)
    else
      var kept := if evicting then Evict(m, r.now) else m;
      var (ok, b) := Take(Get(kept, r.key), r.limit, r.now);
      (ok, kept[r.key := b])
  }

  /** A limit of zero stands for none: the request is admitted, and no bucket changes. */
  lemma ZeroLimitAdmits(m: Buckets, key: string, now: nat, evicting: bool)
    ensures Check(m, Request(key, 0, now), evicting) == (true, m)
  {
  }

  function After(m: Buckets, rs: seq<Request>, evicting: bool): Buckets {
    if rs == [] then m else Check(After(m, rs[..|rs| - 1], evicting), rs[|rs| - 1], evicting).1
  }

  /** The decisions for a run of requests, starting with no buckets. */
  function Decisions(rs: seq<Request>, evicting: bool): seq<bool> {
    if rs == [] then []
    else
      var front := rs[..|rs| - 1];
      Decisions(front, evicting) + [Check(After(map[], front, evicting), rs[|rs| - 1], evicting).0]
  }

  ghost predicate InOrder(rs: seq<Request>) {
    forall i, j :: 0 <= i < j < |rs| ==> rs[i].now <= rs[j].now
  }

  /**
   * What eviction drops: nothing while there are at most a thousand buckets; beyond that, exactly the
   * buckets that have been idle for an hour.
   */
  lemma EvictedExactly(m: Buckets, now: nat, k: string)
    ensures Get(Evict(m, now), k) ==
      if |m| > 1000 && k in m && now >= m[k].last + 3_600_000_000_000 then None else Get(m, k)
  {
  }

  /** A check leaves every other bucket that it does not evict as it was. */
  lemma CheckTouchesOneBucket(m: Buckets, r: Request, k: string)
    requires r.limit > 0
    ensures k != r.key ==> Get(Check(m, r, true).1, k) == Get(Evict(m, r.now), k)
    ensures r.key in Check(m, r, true).1 && Check(m, r, true).1[r.key].last == r.now
  {
    hide Evict;
  }

  // ----- eviction is invisible

  /** The evicting limiter holds the same buckets as the other, except some that have been idle for an hour. */
  ghost predicate Tracks(a: Buckets, b: Buckets, now: nat) {
    && (forall k :: k in a ==> k in b && a[k] == b[k])
    && (forall k :: k in b ==> b[k].last <= now)
    && (forall k :: k in b && k !in a ==> Elapsed(now, b[k].last) >= MAX_AGE)
  }

  /** A bucket idle for an hour refills completely, whatever the limit: it is as good as new. */
  lemma IdleBucketIsFull(b: Bucket, limit: nat, now: nat)
    requires b.last <= now && Elapsed(now, b.last) >= MAX_AGE
    ensures Take(Some(b), limit, now) == Take(None, limit, now)
  {
    var e := now - b.last;
    assert e * limit >= WINDOW * limit;
    assert WINDOW * limit / WINDOW == limit;
    QuotientMonotone(WINDOW * limit, e * limit);
  }

  lemma QuotientMonotone(a: nat, b: nat)
    requires a <= b
    ensures a / WINDOW <= b / WINDOW
  {
  }

  lemma CheckTracks(a: Buckets, b: Buckets, r: Request, since: nat)
    requires Tracks(a, b, since) && since <= r.now
    ensures Check(a, r, true).0 == Check(b, r, false).0
    ensures Tracks(Check(a, r, true).1, Check(b, r, false).1, r.now)
  {
    if r.limit > 0 && r.key in b {
      var kept := Evict(a, r.now);
      if r.key !in kept {
        IdleBucketIsFull(b[r.key], r.limit, r.now);
      }
    }
  }

  lemma {:induction false} RunTracks(rs: seq<Request>)
    requires InOrder(rs)
    ensures Tracks(After(map[], rs, true), After(map[], rs, false), if rs == [] then 0 else rs[|rs| - 1].now)
    ensures Decisions(rs, true) == Decisions(rs, false)
  {
    hide Check;
    if rs != [] {
      var front := rs[..|rs| - 1];
      RunTracks(front);
      CheckTracks(After(map[], front, true), After(map[], front, false), rs[|rs| - 1],
        if front == [] then 0 else front[|front| - 1].now);
    }
  }

  /**
   * Eviction is invisible: for every run of checks in time order, over any keys and with any
   * limit on each call, the limiter that drops idle buckets decides as one that never drops any.
   */
  lemma EvictionIsInvisible(rs: seq<Request>)
    requires InOrder(rs)
    ensures Decisions(rs, true) == Decisions(rs, false)
  {
    RunTracks(rs);
  }

  // ----- keys do not affect one another

  function Only(rs: seq<Request>, key: string): seq<Request> {
    if rs == [] then []
    else Only(rs[..|rs| - 1], key) + if rs[|rs| - 1].key == key then [rs[|rs| - 1]] else []
  }

  /** The decisions made about one key in a run. */
  function DecisionsFor(rs: seq<Request>, key: string, evicting: bool): seq<bool> {
    if rs == [] then []
    else
      var front, last := rs[..|rs| - 1], rs[|rs| - 1];
      DecisionsFor(front, key, evicting) +
      if last.key == key then [Check(After(map[], front, evicting), last, evicting).0] else []
  }

  /** Without eviction a check reads and writes the bucket of its own key only. */
  lemma CheckIsLocal(m: Buckets, m': Buckets, r: Request)
    requires Get(m, r.key) == Get(m', r.key)
    ensures Check(m, r, false).0 == Check(m', r, false).0
    ensures Get(Check(m, r, false).1, r.key) == Get(Check(m', r, false).1, r.key)
    ensures forall k :: k != r.key ==> Get(Check(m, r, false).1, k) == Get(m, k)
  {
  }

  lemma {:induction false} BucketDependsOnKeyOnly(rs: seq<Request>, key: string)
    ensures Get(After(map[], rs, false), key) == Get(After(map[], Only(rs, key), false), key)
    ensures DecisionsFor(rs, key, false) == Decisions(Only(rs, key), false)
  {
    hide Check;
    if rs != [] {
      var front, last := rs[..|rs| - 1], rs[|rs| - 1];
      BucketDependsOnKeyOnly(front, key);
      CheckIsLocal(After(map[], front, false), After(map[], front, false), last);
      if last.key == key {
        assert Only(rs, key)[..|Only(rs, key)| - 1] == Only(front, key);
        CheckIsLocal(After(map[], front, false), After(map[], Only(front, key), false), last);
      } else {
        assert Only(rs, key) == Only(front, key);
      }
    }
  }

  lemma {:induction false} DecisionsForAgree(rs: seq<Request>, key: string)
    requires InOrder(rs)
    ensures DecisionsFor(rs, key, true) == DecisionsFor(rs, key, false)
  {
    hide Check;
    if rs != [] {
      var front := rs[..|rs| - 1];
      DecisionsForAgree(front, key);
      RunTracks(front);
      CheckTracks(After(map[], front, true), After(map[], front, false), rs[|rs| - 1],
        if front == [] then 0 else front[|front| - 1].now);
    }
  }

  /** With eviction running, the decisions about a key are those of a run containing that key's requests alone. */
  lemma KeysAreIsolated(rs: seq<Request>, key: string)
    requires InOrder(rs)
    ensures DecisionsFor(rs, key, true) == Decisions(Only(rs, key), false)
  {
    DecisionsForAgree(rs, key);
    BucketDependsOnKeyOnly(rs, key);
  }

  // ----- the rate bound

  /** How many of the requests for a key between two instants the (evicting) limiter admits. */
  function Admitted(rs: seq<Request>, key: string, from: nat, to: nat): nat {
    if rs == [] then 0
    else
      var front, last := rs[..|rs| - 1], rs[|rs| - 1];
      Admitted(front, key, from, to) +
      if last.key == key && from <= last.now <= to && Check(After(map[], front, true), last, true).0 then 1 else 0
  }

  ghost predicate ConstantLimit(rs: seq<Request>, key: string, limit: nat) {
    forall i :: 0 <= i < |rs| && rs[i].key == key ==> rs[i].limit == limit
  }

  /** Admissions so far plus the tokens left are paid for by the first full bucket and the time since. */
  ghost predicate Budget(b: Option<Bucket>, admitted: nat, limit: nat, from: nat, to: nat) {
    && admitted * WINDOW <= limit * WINDOW + (to - from) * limit
    && (b.Some? ==> b.value.tokens <= limit)
    && (b.None? || b.value.last < from ==> admitted == 0)
    && (b.Some? && from <= b.value.last <= to ==>
          (admitted + b.value.tokens) * WINDOW <= limit * WINDOW + (b.value.last - from) * limit)
  }

  lemma RefillIsEarned(elapsed: nat, limit: nat)
    ensures Refill(elapsed, limit) * WINDOW <= elapsed * limit
  {
  }

  /** Time earns tokens at the limit's rate: the shares of two adjoining stretches add up. */
  lemma SharesAdd(from: nat, mid: nat, to: nat, limit: nat)
    requires from <= mid <= to
    ensures (mid - from) * limit + (to - mid) * limit == (to - from) * limit
    ensures 0 <= (mid - from) * limit <= (to - from) * limit
  {
  }

  lemma BudgetStep(b: Option<Bucket>, admitted: nat, limit: nat, from: nat, to: nat, now: nat)
    requires limit > 0 && from <= to && Budget(b, admitted, limit, from, to)
    requires b.Some? ==> b.value.last <= now
    ensures var (ok, b') := Take(b, limit, now);
      Budget(Some(b'), admitted + (if from <= now <= to && ok then 1 else 0), limit, from, to)
  {
    var (ok, b') := Take(b, limit, now);
    if from <= now <= to {
      var admitted' := admitted + if ok then 1 else 0;
      SharesAdd(from, now, to, limit);
      if b.Some? && from <= b.value.last {
        var gap := now - b.value.last;
        RefillIsEarned(gap, limit);
        SharesAdd(from, b.value.last, now, limit);
        hide Refill;
        assert admitted' + b'.tokens <= admitted + b.value.tokens + Refill(gap, limit);
      } else {
        assert admitted' + b'.tokens <= limit;
      }
    }
  }

  lemma {:induction false} BudgetHolds(rs: seq<Request>, key: string, limit: nat, from: nat, to: nat)
    requires InOrder(rs) && ConstantLimit(rs, key, limit) && limit > 0 && from <= to
    ensures Budget(Get(After(map[], rs, false), key), Admitted(rs, key, from, to), limit, from, to)
    ensures key in After(map[], rs, false) && rs != [] ==> After(map[], rs, false)[key].last <= rs[|rs| - 1].now
  {
    hide Budget, Take, Evict;
    if rs == [] {
      EmptyBudget(limit, from, to);
    } else {
      var front, last := rs[..|rs| - 1], rs[|rs| - 1];
      BudgetHolds(front, key, limit, from, to);
      RunTracks(front);
      var a, b := After(map[], front, true), After(map[], front, false);
      CheckTracks(a, b, last, if front == [] then 0 else front[|front| - 1].now);
      if last.key == key {
        BudgetStep(Get(b, key), Admitted(front, key, from, to), limit, from, to, last.now);
        TakeStamps(Get(b, key), limit, last.now);
      }
    }
  }

  lemma EmptyBudget(limit: nat, from: nat, to: nat)
    requires from <= to
    ensures Budget(None, 0, limit, from, to)
  {
    assert 0 <= (to - from) * limit;
  }

  lemma TakeStamps(b: Option<Bucket>, limit: nat, now: nat)
    ensures Take(b, limit, now).1.last == now
  {
  }

  /**
   * The rate bound: with a constant limit, the requests admitted for a key in any interval number
   * at most `limit` plus the interval's share of `limit` per minute, despite truncated refills,
   * other keys and eviction.
   */
  lemma RateIsBounded(rs: seq<Request>, key: string, limit: nat, from: nat, to: nat)
    requires InOrder(rs) && ConstantLimit(rs, key, limit) && limit > 0 && from <= to
    ensures Admitted(rs, key, from, to) * 60_000_000_000 <= limit * 60_000_000_000 + (to - from) * limit
  {
    BudgetHolds(rs, key, limit, from, to);
  }

  /** The order of times matters: checks made out of order earn the same minute twice, and exceed the bound. */
  lemma OutOfOrderExample()
    ensures var late, early := Request("k", 1, WINDOW), Request("k", 1, 0); var rs := [late, early, late];
      !InOrder(rs) && Admitted(rs, "k", WINDOW, WINDOW) == 2
  {
    var late, early := Request("k", 1, WINDOW), Request("k", 1, 0);
    var rs := [late, early, late];
    assert rs[0].now > rs[1].now;
    assert Take(None, 1, WINDOW) == (true, Bucket(0, WINDOW));
    assert Take(Some(Bucket(0, WINDOW)), 1, 0) == (false, Bucket(0, 0));
    assert Take(Some(Bucket(0, 0)), 1, WINDOW) == (true, Bucket(0, WINDOW));
    assert [] + [late] == [late] && [late] + [early] == [late, early] && [late, early] + [late] == rs;
    assert Admitted([], "k", WINDOW, WINDOW) == 0;
    hide Take, Admitted, After;
    NothingYet();
    OneMoreAdmitted([], late, None);
    OneMoreAdmitted([late], early, Some(Bucket(0, WINDOW)));
    OneMoreAdmitted([late, early], late, Some(Bucket(0, 0)));
  }

  lemma NothingYet()
    ensures After(map[], [], true) == map[]
  {
  }

  lemma OneMoreAdmitted(rs: seq<Request>, r: Request, b: Option<Bucket>)
    requires r.limit > 0 && After(map[], rs, true) == if b.Some? then map[r.key := b.value] else map[]
    ensures var (ok, b') := Take(b, r.limit, r.now);
      && After(map[], rs + [r], true) == map[r.key := b']
      && (forall from: nat, to: nat :: Admitted(rs + [r], r.key, from, to) ==
            Admitted(rs, r.key, from, to) + if from <= r.now <= to && ok then 1 else 0)
  {
    hide Take;
    var m := After(map[], rs, true);
    assert Evict(m, r.now) == m && Get(m, r.key) == b;
    assert (rs + [r])[..|rs|] == rs;
    assert forall v: Bucket :: m[r.key := v] == map[r.key := v];
  }

  // ----- who is never refused

  ghost predicate Spaced(rs: seq<Request>) {
    forall i :: 0 < i < |rs| ==> rs[i - 1].now <= rs[i].now && (rs[i].now - rs[i - 1].now) * rs[i].limit >= WINDOW
  }

  lemma {:induction false} SpacedAlone(rs: seq<Request>, key: string, limit: nat)
    requires Spaced(rs) && limit > 0
    requires forall i :: 0 <= i < |rs| ==> rs[i].key == key && rs[i].limit == limit
    ensures forall i :: 0 <= i < |Decisions(rs, false)| ==> Decisions(rs, false)[i]
    ensures rs != [] ==> key in After(map[], rs, false) && After(map[], rs, false)[key].last == rs[|rs| - 1].now
  {
    if rs != [] {
      var front, last := rs[..|rs| - 1], rs[|rs| - 1];
      SpacedAlone(front, key, limit);
      if front != [] {
        QuotientMonotone(WINDOW, (last.now - front[|front| - 1].now) * limit);
      }
    }
  }

  /** A client whose requests are at least a minute divided by the limit apart is never refused, whatever others do. */
  lemma SpacedClientsAreNeverRefused(rs: seq<Request>, key: string, limit: nat)
    requires InOrder(rs) && ConstantLimit(rs, key, limit) && limit > 0
    requires Spaced(Only(rs, key))
    ensures forall i :: 0 <= i < |DecisionsFor(rs, key, true)| ==> DecisionsFor(rs, key, true)[i]
  {
    KeysAreIsolated(rs, key);
    OnlyKeeps(rs, key, limit);
    SpacedAlone(Only(rs, key), key, limit);
  }

  lemma {:induction false} OnlyKeeps(rs: seq<Request>, key: string, limit: nat)
    requires ConstantLimit(rs, key, limit)
    ensures forall i :: 0 <= i < |Only(rs, key)| ==> Only(rs, key)[i].key == key && Only(rs, key)[i].limit == limit
  {
    if rs != [] {
      OnlyKeeps(rs[..|rs| - 1], key, limit);
    }
  }

  /** The time of call `i` of a client that calls at a fixed interval. */
  function Tick(start: nat, interval: nat, i: nat): nat { start + i * interval }

  lemma TickStep(start: nat, interval: nat, i: nat)
    ensures Tick(start, interval, i + 1) == Tick(start, interval, i) + interval
  {
  }

  function Beat(key: string, limit: nat, start: nat, interval: nat, n: nat): seq<Request> {
    if n == 0 then []
    else Beat(key, limit, start, interval, n - 1) + [Request(key, limit, Tick(start, interval, n - 1))]
  }

  /** The bucket of a client that drains it, after `n` calls. */
  function Drained(limit: nat, start: nat, interval: nat, n: nat): Option<Bucket> {
    if n == 0 then None else Some(Bucket(if n < limit then limit - n else 0, Tick(start, interval, n - 1)))
  }

  lemma DrainStep(limit: nat, start: nat, interval: nat, n: nat)
    requires limit > 0 && interval * limit < WINDOW
    ensures Drained(limit, start, interval, n + 1).Some?
    ensures Take(Drained(limit, start, interval, n), limit, Tick(start, interval, n)) ==
      (n < limit, Drained(limit, start, interval, n + 1).value)
  {
    hide Tick;
    if n > 0 {
      TickStep(start, interval, n - 1);
      NoRefill(interval, limit);
    }
  }

  /** A fixed interval too short to earn one token earns none at all: the bucket only drains. */
  lemma {:induction false} FastBeatDrains(key: string, limit: nat, start: nat, interval: nat, n: nat)
    requires limit > 0 && interval * limit < WINDOW
    ensures var rs := Beat(key, limit, start, interval, n);
      && |rs| == n && |Decisions(rs, false)| == n
      && (forall i :: 0 <= i < n ==> Decisions(rs, false)[i] == (i < limit))
      && Get(After(map[], rs, false), key) == Drained(limit, start, interval, n)
  {
    hide Take, Drained, Check, Tick;
    if n > 0 {
      FastBeatDrains(key, limit, start, interval, n - 1);
      var rs, front := Beat(key, limit, start, interval, n), Beat(key, limit, start, interval, n - 1);
      var last := rs[n - 1];
      assert rs[..n - 1] == front && last.now == Tick(start, interval, n - 1);
      DrainStep(limit, start, interval, n - 1);
      CheckIsTake(After(map[], front, false), last);
      var d := Decisions(front, false);
      assert Decisions(rs, false) == d + [n - 1 < limit];
      forall i | 0 <= i < n
        ensures Decisions(rs, false)[i] == (i < limit)
      {
      }
    } else {
      NotStarted(limit, start, interval);
    }
  }

  lemma CheckIsTake(m: Buckets, r: Request)
    requires r.limit > 0
    ensures Check(m, r, false).0 == Take(Get(m, r.key), r.limit, r.now).0
    ensures Get(Check(m, r, false).1, r.key) == Some(Take(Get(m, r.key), r.limit, r.now).1)
  {
  }

  lemma NotStarted(limit: nat, start: nat, interval: nat)
    ensures Drained(limit, start, interval, 0) == None
  {
  }

  lemma NoRefill(interval: nat, limit: nat)
    requires interval * limit < WINDOW
    ensures Refill(interval, limit) == 0
  {
  }

  lemma {:induction false} BeatAt(key: string, limit: nat, start: nat, interval: nat, n: nat)
    ensures var rs := Beat(key, limit, start, interval, n);
      |rs| == n && forall i :: 0 <= i < n ==> rs[i] == Request(key, limit, Tick(start, interval, i))
  {
    hide Tick;
    if n > 0 {
      BeatAt(key, limit, start, interval, n - 1);
    }
  }

  lemma {:induction false} TickMonotone(start: nat, interval: nat, i: nat, j: nat)
    requires i <= j
    ensures Tick(start, interval, i) <= Tick(start, interval, j)
    decreases j
  {
    hide Tick;
    if i < j {
      TickMonotone(start, interval, i, j - 1);
      TickStep(start, interval, j - 1);
    }
  }

  lemma BeatInOrder(key: string, limit: nat, start: nat, interval: nat, n: nat)
    ensures InOrder(Beat(key, limit, start, interval, n))
  {
    hide Tick;
    BeatAt(key, limit, start, interval, n);
    forall i, j | 0 <= i < j < n
      ensures Tick(start, interval, i) <= Tick(start, interval, j)
    {
      TickMonotone(start, interval, i, j);
    }
  }

  lemma SlowBeatIsSpaced(key: string, limit: nat, start: nat, interval: nat, n: nat)
    requires interval * limit >= WINDOW
    ensures Spaced(Beat(key, limit, start, interval, n))
  {
    BeatAt(key, limit, start, interval, n);
    var rs := Beat(key, limit, start, interval, n);
    hide Tick, Beat;
    forall i | 0 < i < n
      ensures rs[i - 1].now <= rs[i].now && (rs[i].now - rs[i - 1].now) * rs[i].limit >= WINDOW
    {
      TickStep(start, interval, i - 1);
    }
  }

  /** A client at a fixed interval is never refused exactly when the interval earns a token or it stops in time. */
  lemma PeriodicClients(key: string, limit: nat, start: nat, interval: nat, n: nat)
    requires limit > 0
    ensures var decisions := Decisions(Beat(key, limit, start, interval, n), true);
      (forall i :: 0 <= i < |decisions| ==> decisions[i]) <==> (interval * limit >= 60_000_000_000 || n <= limit)
  {
    hide Check, After, Decisions;
    var rs := Beat(key, limit, start, interval, n);
    BeatAt(key, limit, start, interval, n);
    BeatInOrder(key, limit, start, interval, n);
    EvictionIsInvisible(rs);
    hide Beat, InOrder;
    if interval * limit >= WINDOW {
      SlowBeatIsSpaced(key, limit, start, interval, n);
      SpacedAlone(rs, key, limit);
    } else {
      FastBeatDrains(key, limit, start, interval, n);
      assert n > limit ==> !Decisions(rs, false)[limit];
    }
  }

  // ----- the limiter itself

  class Limiter {
    var buckets: Buckets

    constructor ()
      ensures buckets == map[]
    {
      buckets := map[];
    }

    method Allow(key: string, limit: nat, now: nat) returns (ok: bool)
      modifies this
      ensures (ok, buckets) == Check(old(buckets), Request(key, limit, now), true)
    {
      if limit == 0 {
        return true;
      }
      if |buckets| > CLEANUP_THRESHOLD {
        buckets := map k | k in buckets && Elapsed(now, buckets[k].last) < MAX_AGE :: buckets[k];
      }
      ghost var kept := buckets;
      if key !in buckets {
        buckets := buckets[key := Bucket(limit, now)];
      }
      var bucket := buckets[key];
      var replenish := Refill(Elapsed(now, bucket.last), limit);
      bucket := Bucket(Min(bucket.tokens + replenish, limit), now);
      ok := bucket.tokens > 0;
      if ok {
        bucket := bucket.(tokens := bucket.tokens - 1);
      }
      buckets := buckets[key := bucket];
      assert buckets == kept[key := bucket];
    }

    method Clear()
      modifies this
      ensures buckets == map[]
    {
      buckets := map[];
    }
  }
}
