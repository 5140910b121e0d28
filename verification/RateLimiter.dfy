/**
 ResponseRateLimiter of src/simple-dnsd/core/engine.cpp, with the clock as an argument.
 */
module RateLimiter {
  import opened Text

  /** The clock second of an address's last request, and how many it was allowed in it. */
  datatype Bucket = Bucket(second: nat, used: nat)

  type Buckets = map<Str, Bucket>

  datatype Decision = Decision(allowed: bool, buckets: Buckets)

  /** One call of allow at clock time nowMs. */
  function Decided(rate: nat, buckets: Buckets, ip: Str, nowMs: nat): Decision {
    if rate == 0 then Decision(true, buckets)
    else
      var second := nowMs / 1000;
      var b := if ip in buckets then buckets[ip] else Bucket(0, 0);
      var c := if b.second != second then Bucket(second, 0) else b;
      if c.used >= rate then Decision(false, buckets[ip := c])
      else Decision(true, buckets[ip := c.(used := c.used + 1)])
  }

  class Limiter {
    const rate: nat
    var buckets: Buckets

    constructor (rate: nat)
      ensures this.rate == rate && buckets == map[]
    {
      this.rate := rate;
      buckets := map[];
    }

    method Allow(ip: Str, nowMs: nat) returns (allowed: bool)
      modifies this
      ensures Decision(allowed, buckets) == Decided(rate, old(buckets), ip, nowMs)
    {
      if rate == 0 {
        return true;
      }
      var second := nowMs / 1000;
      if ip !in buckets {
        buckets := buckets[ip := Bucket(0, 0)];
      }
      if buckets[ip].second != second {
        buckets := buckets[ip := Bucket(second, 0)];
      }
      if buckets[ip].used >= rate {
        return false;
      }
      buckets := buckets[ip := Bucket(second, buckets[ip].used + 1)];
      return true;
    }
  }

  // ---- Runs -----------------------------------------------------------------

  datatype Request = Request(ip: Str, nowMs: nat)

  /** The buckets after a run of requests, starting from none. */
  function After(rate: nat, reqs: seq<Request>): Buckets {
    if reqs == [] then map[]
    else
      var last := reqs[|reqs| - 1];
      Decided(rate, After(rate, reqs[..|reqs| - 1]), last.ip, last.nowMs).buckets
  }

  /** The answer to request i of a run. */
  function AllowedAt(rate: nat, reqs: seq<Request>, i: nat): bool
    requires i < |reqs|
  {
    Decided(rate, After(rate, reqs[..i]), reqs[i].ip, reqs[i].nowMs).allowed
  }

  predicate ClockRuns(reqs: seq<Request>) {
    forall i, j :: 0 <= i <= j < |reqs| ==> reqs[i].nowMs <= reqs[j].nowMs
  }

  /** How many requests of an address fall into a clock second. */
  function InSecond(reqs: seq<Request>, ip: Str, second: nat): nat {
    if reqs == [] then 0
    else
      var last := reqs[|reqs| - 1];
      InSecond(reqs[..|reqs| - 1], ip, second) + if last.ip == ip && last.nowMs / 1000 == second then 1 else 0
  }

  function Min(a: nat, b: nat): nat {
    if a < b then a else b
  }

  /** What a bucket knows at clock second `second`, which no request of the run exceeds. */
  predicate BucketAgrees(rate: nat, reqs: seq<Request>, ip: Str, second: nat) {
    var buckets := After(rate, reqs);
    var b := if ip in buckets then buckets[ip] else Bucket(0, 0);
    (if b.second == second then b.used else 0) == Min(InSecond(reqs, ip, second), rate)
  }

  lemma {:induction false} BucketCounts(rate: nat, reqs: seq<Request>, ip: Str, second: nat)
    requires rate > 0 && ClockRuns(reqs)
    requires forall i :: 0 <= i < |reqs| ==> reqs[i].nowMs / 1000 <= second
    ensures BucketAgrees(rate, reqs, ip, second)
    decreases |reqs|
  {
    if reqs != [] {
      var last := reqs[|reqs| - 1];
      var before := reqs[..|reqs| - 1];
      BucketCounts(rate, before, ip, second);
      if last.ip == ip {
        forall i | 0 <= i < |before| ensures before[i].nowMs / 1000 <= last.nowMs / 1000 {
          assert before[i].nowMs <= last.nowMs;
        }
        BucketCounts(rate, before, ip, last.nowMs / 1000);
        if last.nowMs / 1000 < second {
          NoneYet(before, ip, last.nowMs / 1000, second);
        }
      }
    }
  }

  lemma {:induction false} NoneYet(reqs: seq<Request>, ip: Str, upTo: nat, second: nat)
    requires upTo < second && forall i :: 0 <= i < |reqs| ==> reqs[i].nowMs / 1000 <= upTo
    ensures InSecond(reqs, ip, second) == 0
    decreases |reqs|
  {
    if reqs != [] {
      NoneYet(reqs[..|reqs| - 1], ip, upTo, second);
    }
  }

  /**
   Over every run with a clock that does not go back, a request is allowed exactly when
   fewer than `rate` requests of its own address came before it in its clock second.
   */
  lemma AllowedIffWithinRate(rate: nat, reqs: seq<Request>, i: nat)
    requires rate > 0 && ClockRuns(reqs) && i < |reqs|
    ensures AllowedAt(rate, reqs, i) <==> InSecond(reqs[..i], reqs[i].ip, reqs[i].nowMs / 1000) < rate
  {
    var before := reqs[..i];
    var second := reqs[i].nowMs / 1000;
    forall k | 0 <= k < |before| ensures before[k].nowMs / 1000 <= second {
      assert before[k].nowMs <= reqs[i].nowMs;
    }
    BucketCounts(rate, before, reqs[i].ip, second);
  }

  /** How many requests of an address are allowed at clock times from lo up to hi. */
  function AllowedBetween(rate: nat, reqs: seq<Request>, ip: Str, lo: nat, hi: nat): nat {
    if reqs == [] then 0
    else
      var n := |reqs| - 1;
      AllowedBetween(rate, reqs[..n], ip, lo, hi)
      + if reqs[n].ip == ip && lo <= reqs[n].nowMs < hi && AllowedAt(rate, reqs, n) then 1 else 0
  }

  lemma {:induction false} SecondBound(rate: nat, reqs: seq<Request>, ip: Str, second: nat)
    requires rate > 0 && ClockRuns(reqs)
    ensures AllowedBetween(rate, reqs, ip, 1000 * second, 1000 * second + 1000)
            <= Min(InSecond(reqs, ip, second), rate)
    decreases |reqs|
  {
    if reqs != [] {
      var n := |reqs| - 1;
      SecondBound(rate, reqs[..n], ip, second);
      AllowedIffWithinRate(rate, reqs, n);
    }
  }

  lemma {:induction false} WindowSplits(rate: nat, reqs: seq<Request>, ip: Str, start: nat)
    ensures var s := start / 1000;
      AllowedBetween(rate, reqs, ip, start, start + 1000)
      <= AllowedBetween(rate, reqs, ip, 1000 * s, 1000 * s + 1000)
         + AllowedBetween(rate, reqs, ip, 1000 * (s + 1), 1000 * (s + 1) + 1000)
    decreases |reqs|
  {
    hide AllowedAt;
    if reqs != [] {
      WindowSplits(rate, reqs[..|reqs| - 1], ip, start);
    }
  }

  /** Any window of 1000 milliseconds lets through at most 2 * rate requests of an address. */
  lemma WindowBound(rate: nat, reqs: seq<Request>, ip: Str, start: nat)
    requires rate > 0 && ClockRuns(reqs)
    ensures AllowedBetween(rate, reqs, ip, start, start + 1000) <= 2 * rate
  {
    WindowSplits(rate, reqs, ip, start);
    SecondBound(rate, reqs, ip, start / 1000);
    SecondBound(rate, reqs, ip, start / 1000 + 1);
  }
}
