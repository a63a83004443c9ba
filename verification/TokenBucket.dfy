/**
  The token bucket of topics/io/rate_limiter_token_bucket.cpp (lines 16-46) over real arithmetic, with the clock as a
  parameter.
*/
module TokenBuckets {
  /** The parameters and the state of a bucket. */
  datatype Bucket = Bucket(rate: real, capacity: real, tokens: real, last: real)

  ghost predicate Ok(b: Bucket) {
    b.rate >= 0.0 && 0.0 <= b.tokens <= b.capacity
  }

  function Min(a: real, b: real): real { if b < a then b else a }

  /** A full bucket. */
  function Full(rate: real, capacity: real, start: real): Bucket {
    Bucket(rate, capacity, capacity, start)
  }

  /** What a rate earns in a time. */
  function Earned(rate: real, time: real): real { rate * time }

  lemma EarnedAdds(rate: real, x: real, y: real)
    requires rate >= 0.0 && y >= 0.0
    ensures Earned(rate, x + y) == Earned(rate, x) + Earned(rate, y) && Earned(rate, y) >= 0.0
  {
  }

  function Refilled(b: Bucket, now: real): Bucket {
    b.(tokens := Min(b.capacity, b.tokens + Earned(b.rate, now - b.last)), last := now)
  }

  /** One request by a policy that takes a token only if it wants to. */
  function Requested(b: Bucket, now: real, want: bool): (Bucket, bool) {
    var r := Refilled(b, now);
    if want && r.tokens >= 1.0 then (r.(tokens := r.tokens - 1.0), true) else (r, false)
  }

  /** The source's clock does not go back. */
  ghost predicate Monotone(start: real, times: seq<real>) {
    && (forall i :: 0 <= i < |times| ==> start <= times[i])
    && (forall i, j :: 0 <= i < j < |times| ==> times[i] <= times[j])
  }

  /** The bucket after requests at the given times, of which the policy wants those marked. */
  function Run(b: Bucket, times: seq<real>, wants: seq<bool>): Bucket
    requires |times| == |wants|
    decreases |times|
  {
    if times == [] then b
    else
      var n := |times| - 1;
      Requested(Run(b, times[..n], wants[..n]), times[n], wants[n]).0
  }

  /** How many of those requests with a time in [s, t] are accepted. */
  function Accepted(b: Bucket, times: seq<real>, wants: seq<bool>, s: real, t: real): nat
    requires |times| == |wants|
    decreases |times|
  {
    if times == [] then 0
    else
      var n := |times| - 1;
      Accepted(b, times[..n], wants[..n], s, t)
      + if s <= times[n] <= t && Requested(Run(b, times[..n], wants[..n]), times[n], wants[n]).1 then 1 else 0
  }

  function AcceptedAll(b: Bucket, times: seq<real>, wants: seq<bool>): nat
    requires |times| == |wants|
    decreases |times|
  {
    if times == [] then 0
    else
      var n := |times| - 1;
      AcceptedAll(b, times[..n], wants[..n])
      + if Requested(Run(b, times[..n], wants[..n]), times[n], wants[n]).1 then 1 else 0
  }

  /** try_consume always wants a token. */
  function Always(n: nat): seq<bool> { seq(n, i => true) }

  lemma RequestKeepsOk(b: Bucket, now: real, want: bool)
    requires Ok(b) && b.last <= now
    ensures Ok(Requested(b, now, want).0) && Requested(b, now, want).0.last == now
  {
    EarnedAdds(b.rate, 0.0, now - b.last);
  }

  lemma {:induction false} RunKeepsOk(b: Bucket, times: seq<real>, wants: seq<bool>)
    requires |times| == |wants| && Ok(b) && Monotone(b.last, times)
    ensures var r := Run(b, times, wants);
      && Ok(r) && r.rate == b.rate && r.capacity == b.capacity
      && r.last == if times == [] then b.last else times[|times| - 1]
    decreases |times|
  {
    if times == [] {
    } else {
      var n := |times| - 1;
      RunKeepsOk(b, times[..n], wants[..n]);
      RequestKeepsOk(Run(b, times[..n], wants[..n]), times[n], wants[n]);
    }
  }

  /** A request sees the tokens saved up, capped, and takes one if it wants one and finds one. */
  lemma RequestMeans(b: Bucket, now: real, want: bool)
    ensures var sum := b.tokens + b.rate * (now - b.last);
      var full := if sum > b.capacity then b.capacity else sum;
      var (r, taken) := Requested(b, now, want);
      && (taken <==> want && full >= 1.0)
      && r == Bucket(b.rate, b.capacity, if taken then full - 1.0 else full, now)
  {
    assert Refilled(b, now).tokens == Min(b.capacity, b.tokens + b.rate * (now - b.last));
  }

  /** Refilling in between makes no difference: refill() may be called at any time. */
  lemma RefillTwice(b: Bucket, now: real, later: real)
    requires Ok(b) && b.last <= now <= later
    ensures Refilled(Refilled(b, now), later) == Refilled(b, later)
  {
    EarnedAdds(b.rate, 0.0, now - b.last);
    EarnedAdds(b.rate, now - b.last, later - now);
    assert (now - b.last) + (later - now) == later - b.last;
  }

  // ----- The rate limit -----

  /** What the interval from s on has granted up to now, and what the bucket still holds, fit in the budget. */
  ghost predicate Budget(b: Bucket, accepted: nat, s: real) {
    if b.last < s then accepted == 0
    else b.tokens + accepted as real <= b.capacity + Earned(b.rate, b.last - s)
  }

  lemma RequestKeepsBudget(b: Bucket, accepted: nat, s: real, now: real, want: bool)
    requires Ok(b) && Budget(b, accepted, s) && b.last <= now
    ensures var (b', taken) := Requested(b, now, want);
      Budget(b', if s <= now && taken then accepted + 1 else accepted, s)
  {
    if s <= now {
      if b.last < s {
        EarnedAdds(b.rate, 0.0, now - s);
      } else {
        EarnedAdds(b.rate, b.last - s, now - b.last);
        assert (b.last - s) + (now - b.last) == now - s;
      }
    }
  }

  /** A budget up to now is a budget up to any later time. */
  lemma BudgetWidens(b: Bucket, accepted: nat, s: real, t: real)
    requires Ok(b) && Budget(b, accepted, s) && b.last <= t && s <= t
    ensures accepted as real <= Limit(b.rate, b.capacity, s, t)
  {
    if b.last < s {
      EarnedAdds(b.rate, 0.0, t - s);
    } else {
      EarnedAdds(b.rate, b.last - s, t - b.last);
      assert (b.last - s) + (t - b.last) == t - s;
    }
  }

  lemma FullBudget(b: Bucket, s: real)
    requires Ok(b) && b.tokens == b.capacity
    ensures Budget(b, 0, s)
  {
    if s <= b.last { EarnedAdds(b.rate, 0.0, b.last - s); }
  }

  function Limit(rate: real, capacity: real, s: real, t: real): real {
    capacity + Earned(rate, t - s)
  }

  lemma LimitMeans(rate: real, capacity: real, s: real, t: real)
    requires rate >= 0.0 && capacity >= 0.0 && s <= t
    ensures Limit(rate, capacity, s, t) == capacity + rate * (t - s) >= 0.0
  {
    EarnedAdds(rate, 0.0, t - s);
  }

  lemma {:induction false} RunKeepsBudget(b: Bucket, times: seq<real>, wants: seq<bool>, s: real, t: real)
    requires |times| == |wants| && Ok(b) && b.tokens == b.capacity && Monotone(b.last, times) && s <= t
    ensures Run(b, times, wants).last <= t ==> Budget(Run(b, times, wants), Accepted(b, times, wants, s, t), s)
    ensures b.last <= t ==> Accepted(b, times, wants, s, t) as real <= Limit(b.rate, b.capacity, s, t)
    ensures t < b.last ==> Accepted(b, times, wants, s, t) == 0
    decreases |times|
  {
    if times == [] {
      FullBudget(b, s);
      if b.last <= t { BudgetWidens(b, 0, s, t); }
    } else {
      var n := |times| - 1;
      var before := Run(b, times[..n], wants[..n]);
      RunKeepsBudget(b, times[..n], wants[..n], s, t);
      RunKeepsOk(b, times[..n], wants[..n]);
      RunKeepsOk(b, times, wants);
      if times[n] <= t {
        RequestKeepsBudget(before, Accepted(b, times[..n], wants[..n], s, t), s, times[n], wants[n]);
        BudgetWidens(Run(b, times, wants), Accepted(b, times, wants, s, t), s, t);
      }
    }
  }

  /** In every interval [s, t] of every run at most capacity + rate * (t - s) requests are accepted. */
  lemma RateLimit(rate: real, capacity: real, start: real, times: seq<real>, s: real, t: real)
    requires rate >= 0.0 && capacity >= 0.0 && Monotone(start, times) && s <= t
    ensures Accepted(Full(rate, capacity, start), times, Always(|times|), s, t) as real <= capacity + rate * (t - s)
  {
    RunKeepsBudget(Full(rate, capacity, start), times, Always(|times|), s, t);
    LimitMeans(rate, capacity, s, t);
  }

  // ----- try_consume is optimal -----

  /** The other policy may have saved tokens, but no more than the requests it is behind by. */
  ghost predicate Ahead(g: Bucket, p: Bucket, acceptedG: nat, acceptedP: nat) {
    && g.last == p.last && g.rate == p.rate && g.capacity == p.capacity
    && acceptedG >= acceptedP
    && p.tokens - g.tokens <= (acceptedG - acceptedP) as real
  }

  lemma RequestKeepsAhead(g: Bucket, p: Bucket, acceptedG: nat, acceptedP: nat, now: real, want: bool)
    requires Ok(g) && Ok(p) && Ahead(g, p, acceptedG, acceptedP) && g.last <= now
    ensures var (g', takenG) := Requested(g, now, true);
      var (p', takenP) := Requested(p, now, want);
      Ahead(g', p', if takenG then acceptedG + 1 else acceptedG, if takenP then acceptedP + 1 else acceptedP)
  {
    var earned := Earned(g.rate, now - g.last);
    EarnedAdds(g.rate, 0.0, now - g.last);
    assert Refilled(g, now).tokens == Min(g.capacity, g.tokens + earned);
    assert Refilled(p, now).tokens == Min(g.capacity, p.tokens + earned);
    RefillNarrows(g.tokens, p.tokens, g.capacity, earned);
  }

  /** Refilling both buckets does not widen a gap. */
  lemma RefillNarrows(g: real, p: real, capacity: real, earned: real)
    requires g <= capacity && p <= capacity && earned >= 0.0
    ensures Min(capacity, p + earned) - Min(capacity, g + earned) <= if p > g then p - g else 0.0
  {
  }

  lemma {:induction false} RunKeepsAhead(b: Bucket, times: seq<real>, wants: seq<bool>)
    requires |times| == |wants| && Ok(b) && Monotone(b.last, times)
    ensures Ahead(Run(b, times, Always(|times|)), Run(b, times, wants),
                  AcceptedAll(b, times, Always(|times|)), AcceptedAll(b, times, wants))
    decreases |times|
  {
    if times == [] {
    } else {
      var n := |times| - 1;
      RunKeepsAhead(b, times[..n], wants[..n]);
      RunKeepsOk(b, times[..n], wants[..n]);
      RunKeepsOk(b, times[..n], Always(n));
      assert Always(|times|)[..n] == Always(n);
      RequestKeepsAhead(Run(b, times[..n], Always(n)), Run(b, times[..n], wants[..n]),
                        AcceptedAll(b, times[..n], Always(n)), AcceptedAll(b, times[..n], wants[..n]),
                        times[n], wants[n]);
    }
  }

  /** On every prefix of every run try_consume has accepted at least as many requests as any other policy would. */
  lemma Greedy(b: Bucket, times: seq<real>, wants: seq<bool>, k: nat)
    requires |times| == |wants| && Ok(b) && Monotone(b.last, times) && k <= |times|
    ensures AcceptedAll(b, times[..k], Always(k)) >= AcceptedAll(b, times[..k], wants[..k])
  {
    RunKeepsAhead(b, times[..k], wants[..k]);
  }

  class TokenBucket {
    const rate: real
    const capacity: real
    var tokens: real
    var lastRefill: real

    ghost function State(): Bucket
      reads this
    {
      Bucket(rate, capacity, tokens, lastRefill)
    }

    constructor (ratePerSec: real, burstSize: real, now: real)
      requires ratePerSec >= 0.0 && burstSize >= 0.0
      ensures State() == Full(ratePerSec, burstSize, now) && Ok(State())
      ensures rate == ratePerSec && capacity == tokens == burstSize && lastRefill == now
    {
      rate, capacity, tokens, lastRefill := ratePerSec, burstSize, burstSize, now;
    }

    method Refill(now: real)
      requires Ok(State()) && lastRefill <= now
      modifies this
      ensures Ok(State()) && State() == Refilled(old(State()), now) && lastRefill == now
      ensures var sum := old(tokens) + rate * (now - old(lastRefill));
        tokens == if sum > capacity then capacity else sum
    {
      RequestKeepsOk(State(), now, false);
      var elapsed := now - lastRefill;
      tokens := Min(capacity, tokens + Earned(rate, elapsed));
      lastRefill := now;
    }

    method TryConsume(now: real) returns (ok: bool)
      requires Ok(State()) && lastRefill <= now
      modifies this
      ensures Ok(State()) && (State(), ok) == Requested(old(State()), now, true) && lastRefill == now
      ensures var sum := old(tokens) + rate * (now - old(lastRefill));
        var full := if sum > capacity then capacity else sum;
        (ok <==> full >= 1.0) && tokens == if ok then full - 1.0 else full
    {
      Refill(now);
      if tokens >= 1.0 {
        tokens := tokens - 1.0;
        return true;
      }
      return false;
    }
  }
}
