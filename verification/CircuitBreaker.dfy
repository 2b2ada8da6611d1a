/**
 The circuit breaker over whole runs: the pruned failure lists decide as the complete
 failure log would.
 */
module CircuitBreaker {
  import opened Common
  import opened BackendPool

  // ----- Runs -----

  datatype Op =
    | Outcome(id: string, now: real, failed: bool, duration: Option<real>)
    | Selection(request: Request, now: real)

  function Step(h: Health, breakers: string -> Breaker, op: Op): Health {
    match op
    case Outcome(id, now, failed, duration) =>
      h[id := Record(EntryOf(h, id), breakers(id), now, failed, duration)]
    case Selection(r, now) => Advance(h, r.poolId, Choose(h, r, now))
  }

  function Run(ops: seq<Op>, breakers: string -> Breaker): Health {
    if ops == [] then map[] else Step(Run(ops[..|ops| - 1], breakers), breakers, ops[|ops| - 1])
  }

  ghost predicate ClockRuns(ops: seq<Op>) {
    forall i, j :: 0 <= i < j < |ops| ==> ops[i].now <= ops[j].now
  }

  /** All failures since the last success or trip, and when each trip so far was to end. */
  datatype Ledger = Ledger(failures: seq<real>, trips: seq<real>) {
    function OpenUntil(): real {
      if trips == [] then 0.0 else trips[|trips| - 1]
    }
  }

  /** How many of the times are after `cutoff`. */
  function CountAfter(times: seq<real>, cutoff: real): nat {
    if times == [] then 0
    else
      var n := |times| - 1;
      CountAfter(times[..n], cutoff) + if cutoff < times[n] then 1 else 0
  }

  /** The complete log holds enough failures in the interval that ends with the one at `now`. */
  predicate Trips(l: Ledger, b: Breaker, now: real) {
    CountAfter(l.failures, now - b.interval) + 1 >= b.failureCount
  }

  lemma {:induction false} RecentCounts(times: seq<real>, cutoff: real)
    ensures |Recent(times, cutoff)| == CountAfter(times, cutoff)
  {
    if times != [] {
      var n := |times| - 1;
      RecentCounts(times[..n], cutoff);
      assert times == times[..n] + [times[n]];
      RecentAppend(times[..n], [times[n]], cutoff);
      assert Recent([times[n]][1..], cutoff) == [];
    }
  }

  function Note(l: Ledger, b: Breaker, now: real, failed: bool, duration: Option<real>): Ledger {
    if !failed then l.(failures := [])
    else if Trips(l, b, now) then
      Ledger([], l.trips + [now + if duration.Some? then duration.value else b.tripDuration])
    else l.(failures := l.failures + [now])
  }

  /** What the results of `id` in a run amount to, with nothing pruned. */
  function LedgerOf(ops: seq<Op>, breakers: string -> Breaker, id: string): Ledger {
    if ops == [] then Ledger([], [])
    else
      var before := LedgerOf(ops[..|ops| - 1], breakers, id);
      match ops[|ops| - 1]
      case Outcome(id', now, failed, duration) =>
        if id' == id then Note(before, breakers(id), now, failed, duration) else before
      case Selection(_, _) => before
  }

  /** Pruning is invisible to every cutoff from `from` on. */
  ghost predicate AgreeFrom(kept: seq<real>, all: seq<real>, from: real) {
    forall cutoff :: cutoff >= from ==> Recent(kept, cutoff) == Recent(all, cutoff)
  }

  lemma {:induction false} RecentTwice(s: seq<real>, cutoff: real, cutoff': real)
    requires cutoff <= cutoff'
    ensures Recent(Recent(s, cutoff), cutoff') == Recent(s, cutoff')
  {
    if s != [] {
      RecentTwice(s[1..], cutoff, cutoff');
      var r := Recent(s, cutoff);
      if s[0] > cutoff {
        assert r[1..] == Recent(s[1..], cutoff);
      } else {
        assert r == Recent(s[1..], cutoff);
      }
    }
  }

  /** One result: the pruned entry trips exactly when the complete log does, and stays in step. */
  lemma {:induction false} RecordKeepsStep(e: Entry, l: Ledger, b: Breaker, last: real, now: real, failed: bool, duration: Option<real>)
    requires last <= now && e.openUntil == l.OpenUntil() && AgreeFrom(e.failures, l.failures, last - b.interval)
    ensures var e', l' := Record(e, b, now, failed, duration), Note(l, b, now, failed, duration);
            e'.openUntil == l'.OpenUntil() && AgreeFrom(e'.failures, l'.failures, now - b.interval)
  {
    var from := now - b.interval;
    var kept := Recent(e.failures, from) + [now];
    assert Recent(e.failures, from) == Recent(l.failures, from);
    RecentCounts(l.failures, from);
    forall cutoff | cutoff >= from ensures Recent(kept, cutoff) == Recent(l.failures + [now], cutoff) {
      RecentAppend(Recent(e.failures, from), [now], cutoff);
      RecentAppend(l.failures, [now], cutoff);
      RecentTwice(e.failures, from, cutoff);
    }
  }

  /**
   Over every run with a clock that does not go back, the stored state of a backend is that
   of the complete log: a failure trips the circuit exactly when the log since the last
   success or trip holds enough failures, and `open_until` is that of the latest trip.
   */
  lemma {:induction false} BreakerExact(ops: seq<Op>, breakers: string -> Breaker, id: string, last: real)
    requires ClockRuns(ops) && (ops != [] ==> ops[|ops| - 1].now <= last)
    ensures var e, l := EntryOf(Run(ops, breakers), id), LedgerOf(ops, breakers, id);
            && e.openUntil == l.OpenUntil()
            && AgreeFrom(e.failures, l.failures, last - breakers(id).interval)
            && (forall now, duration :: now >= last ==>
                  (Record(e, breakers(id), now, true, duration).failures == [] <==> Trips(l, breakers(id), now)))
  {
    hide Choose;
    var log := LedgerOf(ops, breakers, id).failures;
    forall cutoff ensures |Recent(log, cutoff)| == CountAfter(log, cutoff) {
      RecentCounts(log, cutoff);
    }
    if ops != [] {
      var before, op := ops[..|ops| - 1], ops[|ops| - 1];
      BreakerExact(before, breakers, id, op.now);
      var h := Run(before, breakers);
      match op {
        case Outcome(id', now, failed, duration) =>
          RecordKeepsStep(EntryOf(h, id), LedgerOf(before, breakers, id), breakers(id), now, now, failed, duration);
        case Selection(r, now) => AdvanceTurns(h, r.poolId, Choose(h, r, now));
      }
    }
  }

  /**
   After every run a selection, affinity included, returns a member whose latest trip has
   ended, and nobody exactly when no configured member has one that has: no selection returns
   a member before its latest trip ends.
   */
  lemma {:induction false} NoSelectionBeforeTripEnds(ops: seq<Op>, breakers: string -> Breaker, r: Request, now: real)
    requires ClockRuns(ops) && (ops != [] ==> ops[|ops| - 1].now <= now)
    ensures var c := Choose(Run(ops, breakers), r, now);
            && (!c.Nobody? ==> LedgerOf(ops, breakers, c.id).OpenUntil() <= now)
            && (c.Nobody? <==> forall m :: m in r.pool && m.backendId in r.backends ==>
                                 now < LedgerOf(ops, breakers, m.backendId).OpenUntil())
  {
    hide LedgerOf, Run, Choose;
    var h := Run(ops, breakers);
    var c := Choose(h, r, now);
    SelectionSound(h, r, now);
    forall id ensures Shut(h, id, now) <==> LedgerOf(ops, breakers, id).OpenUntil() <= now {
      BreakerExact(ops, breakers, id, now);
    }
    assert forall m :: m in r.Members() <==> m in r.pool && m.backendId in r.backends;
  }
}
