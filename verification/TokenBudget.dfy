/**
 The per-minute token budget. What a call uses is known only after its response, so a call
 is checked against the tokens already charged and charged its own once it is finalized.
 */
module TokenBudget {
  import opened TimeLog

  const WINDOW := 60.0

  datatype Tick = Tick(at: real, tokens: nat)

  function At(t: Tick): real {
    t.at
  }

  function Sum(b: seq<Tick>): nat {
    if b == [] then 0 else b[0].tokens + Sum(b[1..])
  }

  /** With a prompt estimate a call must fit; without one the budget must not be used up. */
  predicate Blocked(used: nat, perMinute: int, estimate: bool, estimated: nat) {
    perMinute > 0 && if estimate then used + estimated > perMinute else used >= perMinute
  }

  /** A call is checked, or a call admitted earlier is finalized with the tokens it used. */
  datatype Event =
    | Check(now: real, estimate: bool, estimated: nat)
    | Finish(now: real, consumed: nat)

  /** `LlmTokenLimit._rate_block` and `LlmTokenLimitDeferred._rate_remaining` on the bucket. */
  function Step(b: seq<Tick>, perMinute: int, e: Event): seq<Tick> {
    if perMinute <= 0 then b
    else
      var pruned := Prune(b, e.now - WINDOW, At);
      if e.Finish? && e.consumed > 0 then pruned + [Tick(e.now, e.consumed)] else pruned
  }

  function Admitted(b: seq<Tick>, perMinute: int, e: Event): bool
    requires e.Check?
  {
    !Blocked(Sum(Prune(b, e.now - WINDOW, At)), perMinute, e.estimate, e.estimated)
  }

  function Run(es: seq<Event>, perMinute: int): seq<Tick> {
    if es == [] then [] else Step(Run(es[..|es| - 1], perMinute), perMinute, es[|es| - 1])
  }

  // ----- The complete log -----

  /** Tokens charged in `(lo, hi]`. */
  function SumIn(log: seq<Tick>, lo: real, hi: real): nat {
    if log == [] then 0
    else
      var n := |log| - 1;
      SumIn(log[..n], lo, hi) + if lo < log[n].at <= hi then log[n].tokens else 0
  }

  /** Tokens of the last call charged in `(lo, hi]`. */
  function LastIn(log: seq<Tick>, lo: real, hi: real): nat {
    if log == [] then 0
    else
      var n := |log| - 1;
      if lo < log[n].at <= hi then log[n].tokens else LastIn(log[..n], lo, hi)
  }

  function Charged(es: seq<Event>): seq<Tick> {
    if es == [] then []
    else
      var n := |es| - 1;
      Charged(es[..n]) + if es[n].Finish? && es[n].consumed > 0 then [Tick(es[n].now, es[n].consumed)] else []
  }

  ghost predicate ClockRuns(es: seq<Event>, now: real) {
    && (forall i, j :: 0 <= i < j < |es| ==> es[i].now <= es[j].now)
    && (forall i :: 0 <= i < |es| ==> es[i].now <= now)
  }

  ghost predicate Sorted(log: seq<Tick>, now: real) {
    && (forall i, j :: 0 <= i < j < |log| ==> log[i].at <= log[j].at)
    && (forall i :: 0 <= i < |log| ==> log[i].at <= now)
  }

  lemma {:induction false} ChargedSorted(es: seq<Event>, now: real)
    requires ClockRuns(es, now)
    ensures Sorted(Charged(es), now)
  {
    if es != [] {
      var n := |es| - 1;
      ChargedSorted(es[..n], es[n].now);
    }
  }

  ghost predicate AgreeFrom(b: seq<Tick>, log: seq<Tick>, from: real) {
    forall c :: c >= from ==> Prune(b, c, At) == Prune(log, c, At)
  }

  /** Pruning has removed only charges that no later window reaches. */
  lemma {:induction false} RunAgrees(es: seq<Event>, perMinute: int, now: real)
    requires perMinute > 0 && ClockRuns(es, now)
    ensures AgreeFrom(Run(es, perMinute), Charged(es), now - 60.0)
  {
    if es != [] {
      var n := |es| - 1;
      var e, b, log := es[n], Run(es[..n], perMinute), Charged(es[..n]);
      RunAgrees(es[..n], perMinute, e.now);
      var from := e.now - 60.0;
      var added := if e.Finish? && e.consumed > 0 then [Tick(e.now, e.consumed)] else [];
      forall c | c >= from ensures Prune(Run(es, perMinute), c, At) == Prune(log + added, c, At) {
        PruneTwice(b, from, c, At);
        PruneAppend(Prune(b, from, At), added, c, At);
        PruneAppend(log, added, c, At);
        assert Run(es, perMinute) == Prune(b, from, At) + added;
      }
    }
  }

  lemma {:induction false} SumAppend(a: seq<Tick>, b: seq<Tick>)
    ensures Sum(a + b) == Sum(a) + Sum(b)
  {
    if a == [] {
      assert a + b == b;
    } else {
      assert (a + b)[1..] == a[1..] + b;
      SumAppend(a[1..], b);
    }
  }

  lemma {:induction false} PruneSums(log: seq<Tick>, lo: real, hi: real)
    requires Sorted(log, hi)
    ensures Sum(Prune(log, lo, At)) == SumIn(log, lo, hi)
  {
    if log != [] {
      var n := |log| - 1;
      var last := log[n];
      PruneSums(log[..n], lo, hi);
      assert log == log[..n] + [last];
      PruneAppend(log[..n], [last], lo, At);
      assert [last][1..] == [];
      SumAppend(Prune(log[..n], lo, At), [last]);
      if last.at <= lo {
        PruneAll(log[..n], lo, At);
      }
    }
  }

  /** After every run the pruned bucket admits a call exactly when the complete log would. */
  lemma {:induction false} DecidesAsLog(es: seq<Event>, perMinute: int, e: Event)
    requires perMinute > 0 && ClockRuns(es, e.now) && e.Check?
    ensures Admitted(Run(es, perMinute), perMinute, e)
       <==> var used := SumIn(Charged(es), e.now - 60.0, e.now);
            if e.estimate then used + e.estimated <= perMinute else used < perMinute
  {
    hide Prune, Sum, SumIn, Run, Charged, Sorted;
    RunAgrees(es, perMinute, e.now);
    ChargedSorted(es, e.now);
    PruneSums(Charged(es), e.now - 60.0, e.now);
  }

  /** Without a positive limit every call is admitted and nothing is recorded. */
  lemma {:induction false} NoLimit(b: seq<Tick>, perMinute: int, e: Event)
    requires perMinute <= 0
    ensures Step(b, perMinute, e) == b && (e.Check? ==> Admitted(b, perMinute, e))
  {
  }

  // ----- Overshoot -----

  /** Each call is finalized right after its check admitted it. */
  ghost predicate Serial(es: seq<Event>, perMinute: int) {
    forall i :: 0 <= i < |es| && es[i].Finish? ==>
      i > 0 && es[i - 1].Check? && Admitted(Run(es[..i - 1], perMinute), perMinute, es[i - 1])
  }

  lemma {:induction false} WindowShrinks(log: seq<Tick>, lo: real, hi: real, lo': real, hi': real)
    requires lo <= lo' && forall i :: 0 <= i < |log| ==> log[i].at <= hi
    ensures SumIn(log, lo', hi') <= SumIn(log, lo, hi)
  {
    if log != [] {
      WindowShrinks(log[..|log| - 1], lo, hi, lo', hi');
    }
  }

  /** When a call is charged, the tokens charged before it in its window are within the budget. */
  ghost predicate Budgeted(log: seq<Tick>, perMinute: int) {
    log == [] ||
    var n := |log| - 1;
    Budgeted(log[..n], perMinute) && SumIn(log[..n], log[n].at - 60.0, log[n].at) <= perMinute
  }

  lemma {:induction false} SerialPrefix(es: seq<Event>, perMinute: int)
    requires Serial(es, perMinute) && es != []
    ensures Serial(es[..|es| - 1], perMinute)
  {
    hide Run, Admitted;
    var n := |es| - 1;
    forall i | 0 <= i < n && es[..n][i].Finish?
      ensures i > 0 && es[..n][i - 1].Check? && Admitted(Run(es[..n][..i - 1], perMinute), perMinute, es[..n][i - 1]) {
      assert es[i].Finish? && es[..n][..i - 1] == es[..i - 1];
    }
  }

  /** A check charges nothing. */
  lemma {:induction false} ChargedCheck(es: seq<Event>)
    requires es != [] && es[|es| - 1].Check?
    ensures Charged(es) == Charged(es[..|es| - 1])
  {
  }

  /** The finalization of an admitted call finds room in the window that ends with it. */
  lemma {:induction false} FinishWithin(es: seq<Event>, perMinute: int, e: Event)
    requires perMinute > 0 && ClockRuns(es, e.now) && es != [] && es[|es| - 1].Check?
    requires Admitted(Run(es[..|es| - 1], perMinute), perMinute, es[|es| - 1])
    ensures SumIn(Charged(es), e.now - 60.0, e.now) <= perMinute
  {
    hide SumIn, Run, Charged, Admitted;
    var n := |es| - 1;
    var c := es[n];
    ChargedCheck(es);
    ChargedSorted(es[..n], c.now);
    DecidesAsLog(es[..n], perMinute, c);
    WindowShrinks(Charged(es), c.now - 60.0, c.now, e.now - 60.0, e.now);
  }

  lemma {:induction false} BudgetedNext(log: seq<Tick>, t: Tick, perMinute: int)
    requires Budgeted(log, perMinute) && SumIn(log, t.at - 60.0, t.at) <= perMinute
    ensures Budgeted(log + [t], perMinute)
  {
    hide SumIn;
    assert (log + [t])[..|log|] == log;
  }

  lemma {:induction false} RunBudgeted(es: seq<Event>, perMinute: int, now: real)
    requires perMinute > 0 && ClockRuns(es, now) && Serial(es, perMinute)
    ensures Budgeted(Charged(es), perMinute)
  {
    if es != [] {
      hide SumIn, Run, Admitted, Budgeted;
      var n := |es| - 1;
      var e, log := es[n], Charged(es[..n]);
      SerialPrefix(es, perMinute);
      RunBudgeted(es[..n], perMinute, now);
      if e.Finish? && e.consumed > 0 {
        assert es[..n][..n - 1] == es[..n - 1] && es[..n][n - 1] == es[n - 1];
        FinishWithin(es[..n], perMinute, e);
        BudgetedNext(log, Tick(e.now, e.consumed), perMinute);
      } else {
        assert log + [] == log;
      }
    }
  }

  /** The minute that ends at `t` exceeds the budget by at most the last call charged in it. */
  predicate Bounded(log: seq<Tick>, perMinute: int, t: real) {
    SumIn(log, t - 60.0, t) <= perMinute + LastIn(log, t - 60.0, t)
  }

  lemma {:induction false} BudgetedWindow(log: seq<Tick>, perMinute: int, now: real, t: real)
    requires perMinute > 0 && Sorted(log, now) && Budgeted(log, perMinute)
    ensures Bounded(log, perMinute, t)
  {
    if log != [] {
      var n := |log| - 1;
      if t - 60.0 < log[n].at <= t {
        WindowShrinks(log[..n], log[n].at - 60.0, log[n].at, t - 60.0, t);
      } else {
        BudgetedWindow(log[..n], perMinute, now, t);
      }
    }
  }

  /** A charge that finds its minute over the budget breaks the bound for the minute that ends with it. */
  lemma {:induction false} OverBudget(log: seq<Tick>, perMinute: int) returns (t: real)
    requires !Budgeted(log, perMinute)
    ensures !Bounded(log, perMinute, t)
  {
    var n := |log| - 1;
    if Budgeted(log[..n], perMinute) {
      t := log[n].at;
    } else {
      t := OverBudget(log[..n], perMinute);
    }
  }

  /**
   Over every run, overlapping calls included, each minute exceeds the budget by at most the
   last call charged in it if and only if no call, when it is charged, finds more than the
   budget charged already in the minute that ends then.
   */
  lemma {:induction false} OvershootExact(es: seq<Event>, perMinute: int, now: real)
    requires perMinute > 0 && ClockRuns(es, now)
    ensures (forall t :: Bounded(Charged(es), perMinute, t)) <==> Budgeted(Charged(es), perMinute)
  {
    hide Bounded, Budgeted, Charged;
    ChargedSorted(es, now);
    if Budgeted(Charged(es), perMinute) {
      forall t ensures Bounded(Charged(es), perMinute, t) {
        BudgetedWindow(Charged(es), perMinute, now, t);
      }
    } else {
      var t := OverBudget(Charged(es), perMinute);
    }
  }

  /**
   When every call is finalized before the next is checked, the tokens charged in any minute
   exceed the budget by at most those of the last call charged in it, with or without
   estimates of the prompt.
   */
  lemma {:induction false} OvershootByLastCall(es: seq<Event>, perMinute: int, now: real, t: real)
    requires perMinute > 0 && ClockRuns(es, now) && Serial(es, perMinute)
    ensures SumIn(Charged(es), t - 60.0, t) <= perMinute + LastIn(Charged(es), t - 60.0, t)
  {
    hide Run, Charged, SumIn, LastIn;
    RunBudgeted(es, perMinute, now);
    OvershootExact(es, perMinute, now);
    assert Bounded(Charged(es), perMinute, t);
  }

  lemma {:induction false} ChargedFinish(es: seq<Event>, now: real, consumed: nat)
    requires consumed > 0
    ensures Charged(es + [Finish(now, consumed)]) == Charged(es) + [Tick(now, consumed)]
  {
    assert (es + [Finish(now, consumed)])[..|es|] == es;
  }

  lemma {:induction false} LastCounts(log: seq<Tick>, t: Tick, lo: real, hi: real)
    requires lo < t.at <= hi
    ensures SumIn(log + [t], lo, hi) == SumIn(log, lo, hi) + t.tokens && LastIn(log + [t], lo, hi) == t.tokens
  {
    assert (log + [t])[..|log|] == log;
  }

  /** Calls that overlap escape the bound: two checked before either is finalized both get in. */
  lemma {:induction false} OverlapOvershoots()
    ensures var c := Check(0.0, false, 0);
            var es := [c, c] + [Finish(1.0, 100)] + [Finish(2.0, 100)];
            && Admitted(Run([], 10), 10, c) && Admitted(Run([c], 10), 10, c)
            && SumIn(Charged(es), 2.0 - 60.0, 2.0) > 10 + LastIn(Charged(es), 2.0 - 60.0, 2.0)
  {
    var c := Check(0.0, false, 0);
    assert [c][..0] == [] && [c, c][..1] == [c];
    assert Run([c], 10) == [];
    ChargedCheck([c]);
    ChargedCheck([c, c]);
    hide Charged, SumIn, LastIn;
    ChargedFinish([c, c], 1.0, 100);
    ChargedFinish([c, c] + [Finish(1.0, 100)], 2.0, 100);
    var log := Charged([c, c]);
    LastCounts(log, Tick(1.0, 100), 2.0 - 60.0, 2.0);
    LastCounts(log + [Tick(1.0, 100)], Tick(2.0, 100), 2.0 - 60.0, 2.0);
  }

  // ----- The bucket as it is updated in place -----

  class Meter {
    var bucket: seq<Tick>

    constructor ()
      ensures bucket == []
    {
      bucket := [];
    }

    method PruneBucket(now: real)
      modifies this
      ensures bucket == Prune(old(bucket), now - WINDOW, At)
    {
      while bucket != [] && bucket[0].at <= now - WINDOW
        invariant Prune(bucket, now - WINDOW, At) == Prune(old(bucket), now - WINDOW, At)
        decreases |bucket|
      {
        bucket := bucket[1..];
      }
    }

    /** The rate part of `LlmTokenLimit.apply`. */
    method CheckCall(perMinute: int, estimate: bool, estimated: nat, now: real) returns (admitted: bool)
      modifies this
      ensures bucket == Step(old(bucket), perMinute, Check(now, estimate, estimated))
      ensures admitted == Admitted(old(bucket), perMinute, Check(now, estimate, estimated))
    {
      if perMinute <= 0 {
        return true;
      }
      PruneBucket(now);
      var used := 0;
      for i := 0 to |bucket|
        invariant used + Sum(bucket[i..]) == Sum(bucket)
        invariant bucket == Prune(old(bucket), now - WINDOW, At)
      {
        assert bucket[i..][1..] == bucket[i + 1..];
        used := used + bucket[i].tokens;
      }
      return if estimate then used + estimated <= perMinute else used < perMinute;
    }

    /** The rate part of `LlmTokenLimitDeferred.finalize`. */
    method FinishCall(perMinute: int, consumed: nat, now: real)
      modifies this
      ensures bucket == Step(old(bucket), perMinute, Finish(now, consumed))
    {
      if perMinute > 0 {
        PruneBucket(now);
        if consumed > 0 {
          bucket := bucket + [Tick(now, consumed)];
        }
      }
    }
  }
}
