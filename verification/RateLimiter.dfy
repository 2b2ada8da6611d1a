/** The shared rate-limit store of the gateway, with the policies that update it in place. */
module RateLimiter {
  import opened Common
  import opened TimeLog
  import opened SlidingWindow

  /** A 429 answer: the rule that refused, what it has left, and when to try again. */
  datatype Refusal = Refusal(rule: Rule, remaining: nat, retryAfter: int)

  function Remaining(calls: int, used: nat): (r: nat)
    ensures used + r >= calls && (r > 0 ==> used + r == calls)
  {
    if calls > used then calls - used else 0
  }

  /** One unit for each rule. */
  function Ones(rules: seq<Rule>): (r: seq<Charge>)
    ensures |r| == |rules| && forall i :: 0 <= i < |r| ==> r[i] == Charge(rules[i], 1)
  {
    seq(|rules|, i requires 0 <= i < |rules| => Charge(rules[i], 1))
  }

  lemma {:induction false} CheckFrom(store: Store, cs: seq<Charge>, now: real, i: nat)
    requires i < |cs|
    ensures var r := cs[i].rule;
            var b := Prune(Bucket(store, r.key), Cutoff(r, now), Time);
            Check(store, cs[i..], now)
              == if |b| + cs[i].units > r.calls then (store[r.key := b], Some(cs[i]))
                 else Check(store[r.key := b], cs[i + 1..], now)
  {
    assert cs[i..][0] == cs[i] && cs[i..][1..] == cs[i + 1..];
  }

  class Limiter {
    var store: Store

    constructor ()
      ensures store == map[]
    {
      store := map[];
    }

    /** `_rate_limit_bucket` and `_prune_rate_limit_bucket` */
    method PrunedBucket(r: Rule, now: real) returns (b: seq<real>)
      modifies this
      ensures b == Prune(Bucket(old(store), r.key), Cutoff(r, now), Time)
      ensures store == old(store)[r.key := b]
    {
      b := Bucket(store, r.key);
      while b != [] && b[0] <= Cutoff(r, now)
        invariant Prune(b, Cutoff(r, now), Time) == Prune(Bucket(old(store), r.key), Cutoff(r, now), Time)
        invariant store == old(store)
        decreases |b|
      {
        b := b[1..];
      }
      store := store[r.key := b];
    }

    /** `RateLimit.apply`: the root rule first, then the nested rules that match. */
    method ApplyRateLimit(rules: seq<Rule>, now: real) returns (refusal: Option<Refusal>)
      modifies this
      ensures var (after, refused) := Apply(old(store), Ones(rules), now);
              && store == after
              && (refusal.Some? <==> refused.Some?)
              && (refusal.Some? ==>
                    var r := refused.value.rule;
                    refusal.value == Refusal(r, Remaining(r.calls, |Bucket(store, r.key)|),
                                             RetryAfter(Bucket(store, r.key), now, r.period)))
    {
      hide Check, ChargeAll;
      ghost var cs := Ones(rules);
      ghost var checked := Check(old(store), cs, now);
      assert cs[0..] == cs;
      for i := 0 to |rules|
        invariant Check(store, cs[i..], now) == checked
      {
        CheckFrom(store, cs, now, i);
        var r := rules[i];
        var b := PrunedBucket(r, now);
        if |b| >= r.calls {
          return Some(Refusal(r, Remaining(r.calls, |b|), RetryAfter(b, now, r.period)));
        }
      }
      CheckEnd(store, cs, now);
      ghost var charged := ChargeAll(store, cs, now);
      for i := 0 to |rules|
        invariant ChargeAll(store, cs[i..], now) == charged
      {
        ChargeFrom(store, cs, now, i);
        var key := rules[i].key;
        assert Copies(now, 1) == [now];
        store := store[key := Bucket(store, key) + [now]];
      }
      ChargeEnd(store, cs, now);
      return None;
    }

    /** `RateLimitByKey.apply` when the increment does not depend on the response. */
    method ApplyByKey(r: Rule, shouldIncrement: bool, increment: nat, now: real) returns (refusal: Option<Refusal>)
      modifies this
      ensures var (after, refused) := Apply(old(store), [Charge(r, increment)], now);
              if !shouldIncrement then
                refusal == None && store == old(store)[r.key := Prune(Bucket(old(store), r.key), Cutoff(r, now), Time)]
              else
                && store == after
                && (refusal.Some? <==> refused.Some?)
                && (refusal.Some? ==>
                      refusal.value == Refusal(r, Remaining(r.calls, |Bucket(store, r.key)|),
                                               RetryAfter(Bucket(store, r.key), now, r.period)))
    {
      ghost var cs := [Charge(r, increment)];
      assert cs[0..] == cs && cs[1..] == cs[|cs|..];
      CheckFrom(store, cs, now, 0);
      var b := PrunedBucket(r, now);
      CheckEnd(store, cs, now);
      ChargeFrom(store, cs, now, 0);
      ChargeEnd(store[r.key := b + Copies(now, increment)], cs, now);
      var wouldExceed := shouldIncrement && |b| + increment > r.calls;
      if shouldIncrement && increment > 0 && !wouldExceed {
        b := b + Copies(now, increment);
        store := store[r.key := b];
      } else if shouldIncrement {
        assert b + Copies(now, 0) == b;
        assert store[r.key := b] == store;
      }
      if wouldExceed {
        return Some(Refusal(r, Remaining(r.calls, |b|), RetryAfter(b, now, r.period)));
      }
      return None;
    }
  }

  lemma {:induction false} CheckEnd(store: Store, cs: seq<Charge>, now: real)
    ensures Check(store, cs[|cs|..], now) == (store, None)
  {
  }

  lemma {:induction false} ChargeEnd(store: Store, cs: seq<Charge>, now: real)
    ensures ChargeAll(store, cs[|cs|..], now) == store
  {
  }

  lemma {:induction false} ChargeFrom(store: Store, cs: seq<Charge>, now: real, i: nat)
    requires i < |cs|
    ensures var key := cs[i].rule.key;
            ChargeAll(store, cs[i..], now)
              == ChargeAll(store[key := Bucket(store, key) + Copies(now, cs[i].units)], cs[i + 1..], now)
  {
    assert cs[i..][0] == cs[i] && cs[i..][1..] == cs[i + 1..];
  }
}
