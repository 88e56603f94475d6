/** Token buckets keyed by a string. Reals stand for `f64`, and each call is atomic. */
module RateLimit {

  datatype Quota = Quota(capacity: nat, refillPerSec: real)

  datatype Bucket = Bucket(tokens: real, lastRefill: real)

  type Buckets = map<string, Bucket>

  function Capacity(q: Quota): real {
    q.capacity as real
  }

  function RMin(a: real, b: real): real {
    if a <= b then a else b
  }

  function Elapsed(b: Bucket, now: real): real {
    if now - b.lastRefill >= 0.0 then now - b.lastRefill else 0.0
  }

  /** Tokens added in that time. */
  function Gain(q: Quota, elapsed: real): real {
    elapsed * q.refillPerSec
  }

  function Uncapped(b: Bucket, q: Quota, now: real): real {
    b.tokens + Gain(q, Elapsed(b, now))
  }

  /** Tokens a check of `key` would find at time `now`. */
  function Level(m: Buckets, key: string, q: Quota, now: real): real {
    if key in m then RMin(Uncapped(m[key], q, now), Capacity(q)) else Capacity(q)
  }

  function ConsumeOk(m: Buckets, key: string, cost: real, q: Quota, now: real): bool {
    Level(m, key, q, now) >= cost
  }

  function ConsumeMap(m: Buckets, key: string, cost: real, q: Quota, now: real): Buckets {
    m[key := Bucket(Level(m, key, q, now) - (if ConsumeOk(m, key, cost, q, now) then cost else 0.0), now)]
  }

  function PruneMap(m: Buckets, q: Quota, now: real): Buckets {
    map k | k in m && Uncapped(m[k], q, now) < Capacity(q) :: m[k]
  }

  // ---- Arithmetic ----

  lemma GainIs(q: Quota, elapsed: real)
    ensures Gain(q, elapsed) == elapsed * q.refillPerSec
  {
  }

  lemma GainZero(q: Quota)
    ensures Gain(q, 0.0) == 0.0
  {
  }

  lemma GainNonNegative(q: Quota, elapsed: real)
    requires q.refillPerSec >= 0.0 && elapsed >= 0.0
    ensures Gain(q, elapsed) >= 0.0
  {
  }

  lemma GainAdds(q: Quota, a: real, b: real)
    ensures Gain(q, a + b) == Gain(q, a) + Gain(q, b)
  {
  }

  lemma GainMonotone(q: Quota, a: real, b: real)
    requires q.refillPerSec >= 0.0 && a <= b
    ensures Gain(q, a) <= Gain(q, b)
  {
    hide Gain;
    GainNonNegative(q, b - a);
    GainAdds(q, a, b - a);
  }

  lemma NewBucketIsFull(q: Quota, now: real)
    ensures Uncapped(Bucket(Capacity(q), now), q, now) == Capacity(q)
  {
    hide Gain;
    GainZero(q);
  }

  class InMemoryRateLimiter {
    const quota: Quota
    var buckets: Buckets

    constructor (quota: Quota)
      ensures this.quota == quota && buckets == map[]
    {
      this.quota := quota;
      buckets := map[];
    }

    /** What a bucket holds by now, were it not for the cap. */
    method Refilled(bucket: Bucket, now: real) returns (tokens: real)
      ensures tokens == Uncapped(bucket, quota, now)
    {
      var elapsed := if now - bucket.lastRefill > 0.0 then now - bucket.lastRefill else 0.0;
      assert elapsed == Elapsed(bucket, now);
      tokens := bucket.tokens + elapsed * quota.refillPerSec;
    }

    method TryConsume(key: string, cost: real, now: real) returns (allowed: bool)
      modifies this`buckets
      ensures allowed == ConsumeOk(old(buckets), key, cost, quota, now)
      ensures buckets == ConsumeMap(old(buckets), key, cost, quota, now)
    {
      hide Uncapped;
      if key !in buckets {
        buckets := buckets[key := Bucket(quota.capacity as real, now)];
        NewBucketIsFull(quota, now);
      }
      var tokens := Refilled(buckets[key], now);
      if tokens > quota.capacity as real {
        tokens := quota.capacity as real;
      }
      buckets := buckets[key := Bucket(tokens, now)];
      if tokens >= cost {
        buckets := buckets[key := Bucket(tokens - cost, now)];
        return true;
      }
      return false;
    }

    method Check(key: string, now: real) returns (allowed: bool)
      modifies this`buckets
      ensures allowed == ConsumeOk(old(buckets), key, 1.0, quota, now)
      ensures buckets == ConsumeMap(old(buckets), key, 1.0, quota, now)
    {
      allowed := TryConsume(key, 1.0, now);
    }

    /** Drops exactly the buckets that are full at `now`. */
    method Prune(now: real)
      modifies this`buckets
      ensures buckets == PruneMap(old(buckets), quota, now)
    {
      hide Uncapped;
      var todo := buckets.Keys;
      while todo != {}
        invariant todo <= old(buckets).Keys
        invariant forall k :: k in buckets <==>
                    k in old(buckets) && (k in todo || Uncapped(old(buckets)[k], quota, now) < Capacity(quota))
        invariant forall k :: k in buckets ==> buckets[k] == old(buckets)[k]
        decreases todo
      {
        var k :| k in todo;
        todo := todo - {k};
        var tokens := Refilled(buckets[k], now);
        if tokens >= quota.capacity as real {
          buckets := buckets - {k};
        }
      }
    }
  }

  // ---- Runs ----

  datatype Event = Check(key: string, at: real) | Prune(at: real)

  ghost predicate Chronological(es: seq<Event>) {
    forall i, j :: 0 <= i < j < |es| ==> es[i].at <= es[j].at
  }

  /** All of `es` happened by `now`. */
  ghost predicate By(es: seq<Event>, now: real) {
    Chronological(es) && forall i :: 0 <= i < |es| ==> es[i].at <= now
  }

  function Step(m: Buckets, e: Event, q: Quota): Buckets {
    match e
    case Check(key, at) => ConsumeMap(m, key, 1.0, q, at)
    case Prune(at) => PruneMap(m, q, at)
  }

  function Init(es: seq<Event>): seq<Event>
    requires es != []
  {
    es[..|es| - 1]
  }

  function Last(es: seq<Event>): Event
    requires es != []
  {
    es[|es| - 1]
  }

  function Exec(es: seq<Event>, q: Quota): Buckets {
    if es == [] then map[] else Step(Exec(Init(es), q), Last(es), q)
  }

  /** Tokens a check of `key` at time `now` would find after the run `es`. */
  function LevelAfter(es: seq<Event>, key: string, q: Quota, now: real): real {
    Level(Exec(es, q), key, q, now)
  }

  /** After the run `es`, event `e` is a check of `key` that is let through. */
  predicate Admits(es: seq<Event>, e: Event, key: string, q: Quota) {
    e.Check? && e.key == key && LevelAfter(es, key, q, e.at) >= 1.0
  }

  /** Checks of `key` let through in the run at times in [from, to]. */
  function AllowedIn(es: seq<Event>, key: string, q: Quota, from: real, to: real): nat {
    if es == [] then 0
    else
      AllowedIn(Init(es), key, q, from, to)
      + (if Admits(Init(es), Last(es), key, q) && from <= Last(es).at <= to then 1 else 0)
  }

  // ---- Pruning and other keys leave a level alone ----

  lemma PruneKeepsLevel(m: Buckets, q: Quota, at: real, key: string, now: real)
    requires q.refillPerSec >= 0.0 && at <= now
    ensures Level(PruneMap(m, q, at), key, q, now) == Level(m, key, q, now)
  {
    hide Gain;
    if key in m {
      GainMonotone(q, Elapsed(m[key], at), Elapsed(m[key], now));
    }
  }

  lemma OtherStepKeepsLevel(m: Buckets, e: Event, q: Quota, key: string, now: real)
    requires q.refillPerSec >= 0.0 && e.at <= now
    requires !(e.Check? && e.key == key)
    ensures Level(Step(m, e, q), key, q, now) == Level(m, key, q, now)
  {
    hide Uncapped;
    if e.Prune? {
      PruneKeepsLevel(m, q, e.at, key, now);
    }
  }

  /** The checks of one key in a run, everything else dropped. */
  function Own(es: seq<Event>, key: string): (r: seq<Event>)
    ensures forall i :: 0 <= i < |r| ==> r[i] in es
  {
    if es == [] then []
    else Own(Init(es), key) + (if Last(es).Check? && Last(es).key == key then [Last(es)] else [])
  }

  lemma {:induction false} OwnBy(es: seq<Event>, key: string, now: real)
    requires By(es, now)
    ensures By(Own(es, key), now)
    decreases |es|
  {
    if es != [] {
      OwnBy(Init(es), key, Last(es).at);
    }
  }

  /**
    A key's level after a run is the level after its own checks alone: pruning at any moments
    and any traffic on other keys are invisible to it.
   */
  lemma {:induction false} LevelDependsOnOwnChecks(es: seq<Event>, key: string, q: Quota, now: real)
    requires q.refillPerSec >= 0.0 && By(es, now)
    ensures LevelAfter(es, key, q, now) == LevelAfter(Own(es, key), key, q, now)
    decreases |es|
  {
    if es != [] {
      var init, e := Init(es), Last(es);
      if e.Check? && e.key == key {
        LevelDependsOnOwnChecks(init, key, q, e.at);
        assert Init(Own(es, key)) == Own(init, key);
      } else {
        LevelDependsOnOwnChecks(init, key, q, now);
        OtherStepKeepsLevel(Exec(init, q), e, q, key, now);
        assert Own(es, key) == Own(init, key);
      }
    }
  }

  /** The same run with every prune left out. */
  function Unpruned(es: seq<Event>): seq<Event> {
    if es == [] then []
    else Unpruned(Init(es)) + (if Last(es).Check? then [Last(es)] else [])
  }

  /** The answers to the checks of a run, in order. */
  function Answers(es: seq<Event>, q: Quota): seq<bool> {
    if es == [] then []
    else Answers(Init(es), q)
         + (if Last(es).Check? then [Admits(Init(es), Last(es), Last(es).key, q)] else [])
  }

  lemma {:induction false} UnprunedBy(es: seq<Event>, now: real)
    requires By(es, now)
    ensures By(Unpruned(es), now)
    decreases |es|
  {
    if es != [] {
      UnprunedBy(Init(es), Last(es).at);
    }
  }

  lemma {:induction false} OwnOfUnpruned(es: seq<Event>, key: string)
    ensures Own(Unpruned(es), key) == Own(es, key)
    decreases |es|
  {
    if es != [] {
      OwnOfUnpruned(Init(es), key);
      if Last(es).Check? {
        assert Init(Unpruned(es)) == Unpruned(Init(es));
      } else {
        assert Unpruned(es) == Unpruned(Init(es));
      }
    }
  }

  /** A limiter pruned at arbitrary moments answers every check like one that is never pruned. */
  lemma {:induction false} PruneIsInvisible(es: seq<Event>, q: Quota)
    requires q.refillPerSec >= 0.0 && Chronological(es)
    ensures Answers(es, q) == Answers(Unpruned(es), q)
    decreases |es|
  {
    hide LevelAfter;
    if es != [] {
      var init, e := Init(es), Last(es);
      PruneIsInvisible(init, q);
      if e.Check? {
        UnprunedBy(init, e.at);
        OwnOfUnpruned(init, e.key);
        LevelDependsOnOwnChecks(init, e.key, q, e.at);
        LevelDependsOnOwnChecks(Unpruned(init), e.key, q, e.at);
        assert Init(Unpruned(es)) == Unpruned(init);
      } else {
        assert Unpruned(es) == Unpruned(init);
      }
    }
  }

  // ---- The rate ----

  lemma {:induction false} NothingLater(es: seq<Event>, key: string, q: Quota, from: real, to: real)
    requires forall i :: 0 <= i < |es| ==> es[i].at < from
    ensures AllowedIn(es, key, q, from, to) == 0
    decreases |es|
  {
    if es != [] {
      NothingLater(Init(es), key, q, from, to);
    }
  }

  lemma {:induction false} UpperEndIrrelevant(es: seq<Event>, key: string, q: Quota, from: real, to: real, to': real)
    requires By(es, to) && By(es, to')
    ensures AllowedIn(es, key, q, from, to) == AllowedIn(es, key, q, from, to')
    decreases |es|
  {
    if es != [] {
      UpperEndIrrelevant(Init(es), key, q, from, to, to');
    }
  }

  function Spent(es: seq<Event>, key: string, q: Quota, at: real): nat {
    if LevelAfter(es, key, q, at) >= 1.0 then 1 else 0
  }

  lemma LevelAtMostCapacity(es: seq<Event>, key: string, q: Quota, now: real)
    ensures LevelAfter(es, key, q, now) <= Capacity(q)
    ensures es == [] ==> LevelAfter(es, key, q, now) == Capacity(q)
  {
  }

  lemma LevelAfterOther(es: seq<Event>, key: string, q: Quota, now: real)
    requires q.refillPerSec >= 0.0 && es != [] && By(es, now) && !(Last(es).Check? && Last(es).key == key)
    ensures LevelAfter(es, key, q, now) == LevelAfter(Init(es), key, q, now)
  {
    OtherStepKeepsLevel(Exec(Init(es), q), Last(es), q, key, now);
  }

  lemma LevelOfBucket(m: Buckets, key: string, q: Quota, tokens: real, at: real, now: real)
    requires key in m && m[key] == Bucket(tokens, at) && at <= now
    ensures Level(m, key, q, now) == RMin(tokens + Gain(q, now - at), Capacity(q))
  {
    hide Gain;
    assert Elapsed(m[key], now) == now - at;
  }

  /** A check spends at most one token of the level it finds; refill counts from there. */
  lemma LevelAfterCheck(es: seq<Event>, key: string, q: Quota, now: real)
    requires es != [] && By(es, now) && Last(es).Check? && Last(es).key == key
    ensures var at := Last(es).at;
            LevelAfter(es, key, q, now)
            == RMin(LevelAfter(Init(es), key, q, at) - Spent(Init(es), key, q, at) as real + Gain(q, now - at),
                    Capacity(q))
  {
    hide Level, Gain;
    var at := Last(es).at;
    LevelOfBucket(Exec(es, q), key, q, LevelAfter(Init(es), key, q, at) - Spent(Init(es), key, q, at) as real, at, now);
  }

  lemma RMinMonotone(a: real, b: real, cap: real)
    requires b >= 0.0
    ensures RMin(a + b, cap) >= RMin(a, cap)
  {
  }

  lemma LevelAfterCheckAtLeast(es: seq<Event>, key: string, q: Quota, now: real)
    requires q.refillPerSec >= 0.0 && es != [] && By(es, now) && Last(es).Check? && Last(es).key == key
    ensures var at := Last(es).at;
            LevelAfter(es, key, q, now)
            >= RMin(LevelAfter(Init(es), key, q, at) - Spent(Init(es), key, q, at) as real, Capacity(q))
  {
    hide LevelAfter, Spent, Gain;
    var at := Last(es).at;
    LevelAfterCheck(es, key, q, now);
    GainNonNegative(q, now - at);
    RMinMonotone(LevelAfter(Init(es), key, q, at) - Spent(Init(es), key, q, at) as real, Gain(q, now - at), Capacity(q));
  }

  lemma CountAfterCheck(es: seq<Event>, key: string, q: Quota, from: real, now: real)
    requires es != [] && Last(es).Check? && Last(es).key == key && By(es, now) && from <= Last(es).at
    ensures AllowedIn(es, key, q, from, now)
            == AllowedIn(Init(es), key, q, from, Last(es).at) + Spent(Init(es), key, q, Last(es).at)
  {
    hide LevelAfter;
    UpperEndIrrelevant(Init(es), key, q, from, Last(es).at, now);
  }

  /** What was let through since `from`, plus what is left. */
  function Used(es: seq<Event>, key: string, q: Quota, from: real, now: real): real {
    AllowedIn(es, key, q, from, now) as real + LevelAfter(es, key, q, now)
  }

  /** What was available at `from` at most, plus what was refilled since. */
  function Supply(q: Quota, from: real, now: real): real {
    Capacity(q) + Gain(q, now - from)
  }

  lemma SupplyGrows(q: Quota, from: real, at: real, now: real)
    requires q.refillPerSec >= 0.0 && from <= now
    ensures Supply(q, from, now) >= Capacity(q) && Supply(q, now, now) == Capacity(q)
    ensures Supply(q, from, now) - Supply(q, from, at) == Gain(q, now - at)
  {
    hide Gain;
    GainNonNegative(q, now - from);
    GainZero(q);
    GainAdds(q, at - from, now - at);
  }

  /** A check only moves a token from what is left to what was let through, unless the bucket overflows. */
  lemma UsedAfterCheck(es: seq<Event>, key: string, q: Quota, from: real, now: real)
    requires q.refillPerSec >= 0.0 && es != [] && By(es, now) && Last(es).Check? && Last(es).key == key
    requires from <= Last(es).at
    ensures var at := Last(es).at;
            var gain := Supply(q, from, now) - Supply(q, from, at);
            && Used(es, key, q, from, now) <= Used(Init(es), key, q, from, at) + gain
            && (LevelAfter(es, key, q, now) < Capacity(q) || at == now ==>
                  Used(es, key, q, from, now) == Used(Init(es), key, q, from, at) + gain)
  {
    hide LevelAfter, Supply, Gain;
    var at := Last(es).at;
    SupplyGrows(q, from, at, now);
    GainZero(q);
    LevelAfterCheck(es, key, q, now);
    LevelAtMostCapacity(Init(es), key, q, at);
    CountAfterCheck(es, key, q, from, now);
  }

  lemma {:induction false} UsedAtMostSupply(es: seq<Event>, key: string, q: Quota, from: real, now: real)
    requires q.refillPerSec >= 0.0 && By(es, now) && from <= now
    ensures Used(es, key, q, from, now) <= Supply(q, from, now)
    decreases |es|
  {
    hide LevelAfter, Supply;
    if es == [] || Last(es).at < from {
      SupplyGrows(q, from, now, now);
      NothingLater(es, key, q, from, now);
      LevelAtMostCapacity(es, key, q, now);
    } else if Last(es).Check? && Last(es).key == key {
      UsedAtMostSupply(Init(es), key, q, from, Last(es).at);
      UsedAfterCheck(es, key, q, from, now);
    } else {
      UsedAtMostSupply(Init(es), key, q, from, now);
      LevelAfterOther(es, key, q, now);
    }
  }

  /** All of the supply is accounted for since the last moment at which the bucket was full. */
  lemma {:induction false} UsedIsSupplySince(es: seq<Event>, key: string, q: Quota, now: real) returns (from: real)
    requires q.refillPerSec >= 0.0 && By(es, now)
    ensures from <= now && Used(es, key, q, from, now) == Supply(q, from, now)
    decreases |es|
  {
    hide LevelAfter, Supply;
    if es != [] && !(Last(es).Check? && Last(es).key == key) {
      from := UsedIsSupplySince(Init(es), key, q, now);
      LevelAfterOther(es, key, q, now);
    } else if es != [] && (Last(es).at == now || LevelAfter(es, key, q, now) < Capacity(q)) {
      from := UsedIsSupplySince(Init(es), key, q, Last(es).at);
      UsedAfterCheck(es, key, q, from, now);
    } else {
      from := now;
      SupplyGrows(q, now, now, now);
      LevelAtMostCapacity(es, key, q, now);
      NothingLater(es, key, q, now, now);
    }
  }

  lemma {:induction false} AllowedWithinSupply(es: seq<Event>, key: string, q: Quota, from: real, to: real)
    requires q.refillPerSec >= 0.0 && Chronological(es) && from <= to
    ensures AllowedIn(es, key, q, from, to) as real <= Supply(q, from, to)
    decreases |es|
  {
    hide LevelAfter, Supply;
    if es != [] && Last(es).at > to {
      AllowedWithinSupply(Init(es), key, q, from, to);
    } else {
      UsedAtMostSupply(es, key, q, from, to);
      LevelNonNegative(es, key, q, to);
    }
  }

  lemma SupplyIs(q: Quota, from: real, to: real)
    ensures Supply(q, from, to) == q.capacity as real + (to - from) * q.refillPerSec
  {
    hide Gain;
    GainIs(q, to - from);
  }

  /** For every run, key and window, the checks let through stay within burst plus refill. */
  lemma AllowedWithinQuota(es: seq<Event>, key: string, q: Quota, from: real, to: real)
    requires q.refillPerSec >= 0.0 && Chronological(es) && from <= to
    ensures AllowedIn(es, key, q, from, to) as real <= q.capacity as real + (to - from) * q.refillPerSec
  {
    hide Supply, AllowedIn, Chronological;
    SupplyIs(q, from, to);
    AllowedWithinSupply(es, key, q, from, to);
  }

  lemma {:induction false} LevelNonNegative(es: seq<Event>, key: string, q: Quota, now: real)
    requires q.refillPerSec >= 0.0 && By(es, now)
    ensures LevelAfter(es, key, q, now) >= 0.0
    decreases |es|
  {
    hide LevelAfter;
    if es == [] {
      LevelAtMostCapacity(es, key, q, now);
    } else if Last(es).Check? && Last(es).key == key {
      LevelNonNegative(Init(es), key, q, Last(es).at);
      LevelAfterCheckAtLeast(es, key, q, now);
    } else {
      LevelNonNegative(Init(es), key, q, now);
      LevelAfterOther(es, key, q, now);
    }
  }

  lemma AdmittedFits(es: seq<Event>, key: string, q: Quota, from: real, now: real)
    requires q.refillPerSec >= 0.0 && By(es, now) && from <= now && Admits(es, Check(key, now), key, q)
    ensures AllowedIn(es, key, q, from, now) as real + 1.0 <= Supply(q, from, now)
  {
    hide LevelAfter, Supply;
    UsedAtMostSupply(es, key, q, from, now);
  }

  lemma RefusedOverflows(es: seq<Event>, key: string, q: Quota, now: real) returns (from: real)
    requires q.refillPerSec >= 0.0 && By(es, now) && !Admits(es, Check(key, now), key, q)
    ensures from <= now && AllowedIn(es, key, q, from, now) as real + 1.0 > Supply(q, from, now)
  {
    hide LevelAfter, Supply;
    from := UsedIsSupplySince(es, key, q, now);
  }

  /**
    The limiter refuses no more than the quota asks for: after any run a check is let through
    exactly if, in every window that ends now, one more admission stays within burst plus refill.
   */
  lemma AdmitsExactlyWithinQuota(es: seq<Event>, key: string, q: Quota, now: real)
    requires q.refillPerSec >= 0.0 && By(es, now)
    ensures Admits(es, Check(key, now), key, q) <==>
            forall from :: from <= now ==>
              AllowedIn(es, key, q, from, now) as real + 1.0 <= q.capacity as real + (now - from) * q.refillPerSec
  {
    hide Supply, AllowedIn, Admits, By;
    if Admits(es, Check(key, now), key, q) {
      forall from | from <= now
        ensures AllowedIn(es, key, q, from, now) as real + 1.0 <= q.capacity as real + (now - from) * q.refillPerSec
      {
        AdmittedFits(es, key, q, from, now);
        SupplyIs(q, from, now);
      }
    } else {
      var from := RefusedOverflows(es, key, q, now);
      SupplyIs(q, from, now);
      assert AllowedIn(es, key, q, from, now) as real + 1.0 > q.capacity as real + (now - from) * q.refillPerSec;
    }
  }

  // ---- One call, by its numbers ----

  /** A bucket holds what it held plus refill at the rate, at most the capacity; a new one is full. */
  lemma LevelByNumbers(m: Buckets, key: string, q: Quota, now: real)
    ensures key !in m ==> Level(m, key, q, now) == q.capacity as real
    ensures key in m && m[key].lastRefill <= now ==>
              var refilled := m[key].tokens + (now - m[key].lastRefill) * q.refillPerSec;
              Level(m, key, q, now) == if refilled <= q.capacity as real then refilled else q.capacity as real
  {
    if key in m && m[key].lastRefill <= now {
      hide Gain;
      GainIs(q, now - m[key].lastRefill);
      LevelOfBucket(m, key, q, m[key].tokens, m[key].lastRefill, now);
    }
  }

  /** A call takes its cost off what it finds if that covers it, else nothing, and touches no other key. */
  lemma ConsumeTakesCost(m: Buckets, key: string, cost: real, q: Quota, now: real)
    ensures ConsumeOk(m, key, cost, q, now) <==> cost <= Level(m, key, q, now)
    ensures var m' := ConsumeMap(m, key, cost, q, now);
            && key in m' && m'[key].lastRefill == now
            && m'[key].tokens == (if cost <= Level(m, key, q, now) then Level(m, key, q, now) - cost else Level(m, key, q, now))
            && m' - {key} == m - {key}
  {
    hide Level;
  }

  lemma UncappedByNumbers(b: Bucket, q: Quota, now: real)
    requires b.lastRefill <= now
    ensures Uncapped(b, q, now) == b.tokens + (now - b.lastRefill) * q.refillPerSec
  {
    hide Gain;
    GainIs(q, now - b.lastRefill);
    assert Elapsed(b, now) == now - b.lastRefill;
  }

  /** Pruning keeps exactly the buckets that refill has not filled up by now. */
  lemma PruneByNumbers(m: Buckets, q: Quota, now: real, key: string)
    requires key in m && m[key].lastRefill <= now
    ensures key in PruneMap(m, q, now) <==> m[key].tokens + (now - m[key].lastRefill) * q.refillPerSec < q.capacity as real
    ensures key in PruneMap(m, q, now) ==> PruneMap(m, q, now)[key] == m[key]
  {
    hide Uncapped;
    UncappedByNumbers(m[key], q, now);
  }
}
