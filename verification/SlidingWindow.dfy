/**
 Sliding-window rate limits. A bucket of admission times is kept per rule key and pruned
 from the front whenever it is used; a call is admitted when every rule that applies to it
 has room, and is then charged to all of them.

 A subscription rate limit charges one unit to its root rule and to each matching nested
 rule; a keyed rate limit charges its increment to one rule. Both are a list of charges.
 */
module SlidingWindow {
  import opened Common
  import opened TimeLog

  datatype Rule = Rule(key: string, calls: int, period: int)

  datatype Charge = Charge(rule: Rule, units: nat)

  type Store = map<string, seq<real>>

  function Bucket(store: Store, key: string): seq<real> {
    if key in store then store[key] else []
  }

  /** The bucket entries of a rate limit are the times themselves. */
  function Time(t: real): real {
    t
  }

  function Cutoff(r: Rule, now: real): real {
    now - r.period as real
  }

  function Copies(now: real, n: nat): (r: seq<real>)
    ensures |r| == n && forall i :: 0 <= i < n ==> r[i] == now
  {
    seq(n, _ => now)
  }

  /** Prunes and checks rule after rule; the result is the first charge without room. */
  function Check(store: Store, cs: seq<Charge>, now: real): (Store, Option<Charge>)
    decreases |cs|
  {
    if cs == [] then (store, None)
    else
      var r := cs[0].rule;
      var b := Prune(Bucket(store, r.key), Cutoff(r, now), Time);
      if |b| + cs[0].units > r.calls then (store[r.key := b], Some(cs[0]))
      else Check(store[r.key := b], cs[1..], now)
  }

  function ChargeAll(store: Store, cs: seq<Charge>, now: real): Store
    decreases |cs|
  {
    if cs == [] then store
    else
      var key := cs[0].rule.key;
      ChargeAll(store[key := Bucket(store, key) + Copies(now, cs[0].units)], cs[1..], now)
  }

  /** The new store, and the charge that refused the call if one did. */
  function Apply(store: Store, cs: seq<Charge>, now: real): (Store, Option<Charge>) {
    var (pruned, refused) := Check(store, cs, now);
    (if refused.None? then ChargeAll(pruned, cs, now) else pruned, refused)
  }

  // ----- The specification: complete logs, nothing pruned -----

  /** How many of the times lie in `(lo, hi]`. */
  function CountIn(log: seq<real>, lo: real, hi: real): nat {
    if log == [] then 0
    else
      var n := |log| - 1;
      CountIn(log[..n], lo, hi) + if lo < log[n] <= hi then 1 else 0
  }

  /** Every rule has room in the window that ends now. */
  predicate Admits(logs: Store, cs: seq<Charge>, now: real) {
    forall i :: 0 <= i < |cs| ==>
      CountIn(Bucket(logs, cs[i].rule.key), Cutoff(cs[i].rule, now), now) + cs[i].units <= cs[i].rule.calls
  }

  function Admit(logs: Store, cs: seq<Charge>, now: real): Store {
    if Admits(logs, cs, now) then ChargeAll(logs, cs, now) else logs
  }

  datatype Request = Request(charges: seq<Charge>, now: real)

  function RunStore(reqs: seq<Request>): Store {
    if reqs == [] then map[]
    else
      var n := |reqs| - 1;
      Apply(RunStore(reqs[..n]), reqs[n].charges, reqs[n].now).0
  }

  function RunLogs(reqs: seq<Request>): Store {
    if reqs == [] then map[]
    else
      var n := |reqs| - 1;
      Admit(RunLogs(reqs[..n]), reqs[n].charges, reqs[n].now)
  }

  // ----- Pruning -----

  lemma {:induction false} PruneDrops(b: seq<real>, c: real)
    ensures var r := Prune(b, c, Time);
            && |r| <= |b| && r == b[|b| - |r|..]
            && (r != [] ==> r[0] > c)
            && forall i :: 0 <= i < |b| - |r| ==> b[i] <= c
  {
    if b != [] && b[0] <= c {
      PruneDrops(b[1..], c);
      var r := Prune(b, c, Time);
      assert b[1..][|b[1..]| - |r|..] == b[|b| - |r|..];
      forall i | 0 <= i < |b| - |r| ensures b[i] <= c {
        assert i > 0 ==> b[i] == b[1..][i - 1];
      }
    } else {
      assert b[0..] == b;
    }
  }

  ghost predicate Sorted(log: seq<real>) {
    forall i, j :: 0 <= i < j < |log| ==> log[i] <= log[j]
  }

  ghost predicate UpTo(log: seq<real>, hi: real) {
    forall i :: 0 <= i < |log| ==> log[i] <= hi
  }

  /** In a sorted log, what pruning leaves is what the window counts. */
  lemma {:induction false} PruneCounts(log: seq<real>, lo: real, hi: real)
    requires Sorted(log) && UpTo(log, hi)
    ensures |Prune(log, lo, Time)| == CountIn(log, lo, hi)
  {
    if log != [] {
      var n := |log| - 1;
      PruneCounts(log[..n], lo, hi);
      assert log == log[..n] + [log[n]];
      PruneAppend(log[..n], [log[n]], lo, Time);
      PruneDrops(log[..n], lo);
      assert [log[n]][1..] == [];
      if log[n] <= lo {
        PruneAll(log[..n], lo, Time);
      }
    }
  }

  // ----- The pruned store decides as the logs do -----

  /** One rule per key: its calls and period never change. */
  type Config = string -> Rule

  predicate Consistent(cs: seq<Charge>, cfg: Config) {
    forall i :: 0 <= i < |cs| ==> cs[i].rule == cfg(cs[i].rule.key)
  }

  ghost predicate AgreeAt(b: seq<real>, log: seq<real>, from: real) {
    forall c :: c >= from ==> Prune(b, c, Time) == Prune(log, c, Time)
  }

  /** Pruning has removed only times that no later window reaches. */
  ghost predicate Agree(store: Store, logs: Store, cfg: Config, now: real) {
    forall k :: AgreeAt(Bucket(store, k), Bucket(logs, k), Cutoff(cfg(k), now))
  }

  ghost predicate Ordered(logs: Store, now: real) {
    forall k :: Sorted(Bucket(logs, k)) && UpTo(Bucket(logs, k), now)
  }

  lemma {:induction false} PruneKeepsAgree(store: Store, logs: Store, cfg: Config, now: real, key: string)
    requires Agree(store, logs, cfg, now) && cfg(key).key == key
    ensures var b := Prune(Bucket(store, key), Cutoff(cfg(key), now), Time);
            && Agree(store[key := b], logs, cfg, now)
            && b == Prune(Bucket(logs, key), Cutoff(cfg(key), now), Time)
  {
    var cut := Cutoff(cfg(key), now);
    var b := Prune(Bucket(store, key), cut, Time);
    assert AgreeAt(Bucket(store, key), Bucket(logs, key), cut);
    forall k ensures AgreeAt(Bucket(store[key := b], k), Bucket(logs, k), Cutoff(cfg(k), now)) {
      assert AgreeAt(Bucket(store, k), Bucket(logs, k), Cutoff(cfg(k), now));
      if k == key {
        forall c | c >= cut ensures Prune(b, c, Time) == Prune(Bucket(logs, k), c, Time) {
          PruneTwice(Bucket(store, key), cut, c, Time);
        }
      }
    }
  }

  lemma {:induction false} CheckDecides(store: Store, logs: Store, cs: seq<Charge>, cfg: Config, now: real)
    requires Agree(store, logs, cfg, now) && Ordered(logs, now) && Consistent(cs, cfg)
    ensures var (pruned, refused) := Check(store, cs, now);
            && Agree(pruned, logs, cfg, now)
            && (refused.None? <==> Admits(logs, cs, now))
            && (refused.Some? ==> refused.value in cs)
    decreases |cs|
  {
    hide Agree, Prune;
    if cs != [] {
      var c := cs[0];
      var r := c.rule;
      PruneKeepsAgree(store, logs, cfg, now, r.key);
      PruneCounts(Bucket(logs, r.key), Cutoff(r, now), now);
      var b := Prune(Bucket(store, r.key), Cutoff(r, now), Time);
      if |b| + c.units <= r.calls {
        CheckDecides(store[r.key := b], logs, cs[1..], cfg, now);
        assert Admits(logs, cs, now) <==> Admits(logs, cs[1..], now) by {
          assert forall i :: 0 <= i < |cs[1..]| ==> cs[1..][i] == cs[i + 1];
          assert forall i :: 0 < i < |cs| ==> cs[i] == cs[1..][i - 1];
        }
      }
    }
  }

  /** The rule has room for the charge, by the complete log. */
  predicate HasRoom(logs: Store, c: Charge, now: real) {
    CountIn(Bucket(logs, c.rule.key), now - c.rule.period as real, now) + c.units <= c.rule.calls
  }

  /** Every rule has room, or `refused` is the first charge without. */
  ghost predicate FirstWithout(logs: Store, cs: seq<Charge>, now: real, refused: Option<Charge>) {
    match refused
    case None => forall i :: 0 <= i < |cs| ==> HasRoom(logs, cs[i], now)
    case Some(c) => exists i :: 0 <= i < |cs| && cs[i] == c && !HasRoom(logs, c, now)
                                && forall j :: 0 <= j < i ==> HasRoom(logs, cs[j], now)
  }

  lemma {:induction false} FirstWithoutNext(logs: Store, cs: seq<Charge>, now: real, refused: Option<Charge>)
    requires cs != [] && HasRoom(logs, cs[0], now) && FirstWithout(logs, cs[1..], now, refused)
    ensures FirstWithout(logs, cs, now, refused)
  {
    hide HasRoom;
    var rest := cs[1..];
    assert forall i :: 0 < i < |cs| ==> cs[i] == rest[i - 1];
    if refused.Some? {
      var i :| 0 <= i < |rest| && rest[i] == refused.value && forall j :: 0 <= j < i ==> HasRoom(logs, rest[j], now);
      assert cs[i + 1] == refused.value;
    }
  }

  /** The rule that a refusal names is the first without room. */
  lemma {:induction false} RefusesFirst(store: Store, logs: Store, cs: seq<Charge>, cfg: Config, now: real)
    requires Agree(store, logs, cfg, now) && Ordered(logs, now) && Consistent(cs, cfg)
    ensures FirstWithout(logs, cs, now, Check(store, cs, now).1)
    decreases |cs|
  {
    if cs != [] {
      hide Agree, FirstWithout;
      var r := cs[0].rule;
      PruneKeepsAgree(store, logs, cfg, now, r.key);
      assert Sorted(Bucket(logs, r.key)) && UpTo(Bucket(logs, r.key), now);
      PruneCounts(Bucket(logs, r.key), Cutoff(r, now), now);
      var b := Prune(Bucket(store, r.key), Cutoff(r, now), Time);
      assert HasRoom(logs, cs[0], now) <==> |b| + cs[0].units <= r.calls;
      if HasRoom(logs, cs[0], now) {
        RefusesFirst(store[r.key := b], logs, cs[1..], cfg, now);
        FirstWithoutNext(logs, cs, now, Check(store[r.key := b], cs[1..], now).1);
      } else {
        FirstAtOnce(logs, cs, now);
      }
    }
  }

  lemma {:induction false} FirstAtOnce(logs: Store, cs: seq<Charge>, now: real)
    requires cs != [] && !HasRoom(logs, cs[0], now)
    ensures FirstWithout(logs, cs, now, Some(cs[0]))
  {
  }

  lemma {:induction false} ChargeKeepsAgree(store: Store, logs: Store, cs: seq<Charge>, cfg: Config, now: real)
    requires Agree(store, logs, cfg, now)
    ensures Agree(ChargeAll(store, cs, now), ChargeAll(logs, cs, now), cfg, now)
    decreases |cs|
  {
    if cs != [] {
      var key, u := cs[0].rule.key, Copies(now, cs[0].units);
      var s', l' := store[key := Bucket(store, key) + u], logs[key := Bucket(logs, key) + u];
      forall k ensures AgreeAt(Bucket(s', k), Bucket(l', k), Cutoff(cfg(k), now)) {
        assert AgreeAt(Bucket(store, k), Bucket(logs, k), Cutoff(cfg(k), now));
        if k == key {
          forall c | c >= Cutoff(cfg(k), now) ensures Prune(Bucket(s', k), c, Time) == Prune(Bucket(l', k), c, Time) {
            PruneAppend(Bucket(store, k), u, c, Time);
            PruneAppend(Bucket(logs, k), u, c, Time);
          }
        }
      }
      ChargeKeepsAgree(s', l', cs[1..], cfg, now);
    }
  }

  lemma {:induction false} ChargeKeepsOrder(logs: Store, cs: seq<Charge>, now: real)
    requires Ordered(logs, now)
    ensures Ordered(ChargeAll(logs, cs, now), now)
    decreases |cs|
  {
    if cs != [] {
      var key := cs[0].rule.key;
      var l' := logs[key := Bucket(logs, key) + Copies(now, cs[0].units)];
      forall k ensures Sorted(Bucket(l', k)) && UpTo(Bucket(l', k), now) {
        assert Sorted(Bucket(logs, k)) && UpTo(Bucket(logs, k), now);
      }
      ChargeKeepsOrder(l', cs[1..], now);
    }
  }

  ghost predicate ClockRuns(reqs: seq<Request>, cfg: Config, now: real) {
    && (forall i, j :: 0 <= i < j < |reqs| ==> reqs[i].now <= reqs[j].now)
    && (forall i :: 0 <= i < |reqs| ==> reqs[i].now <= now && Consistent(reqs[i].charges, cfg))
  }

  lemma {:induction false} LaterAgree(store: Store, logs: Store, cfg: Config, now: real, later: real)
    requires Agree(store, logs, cfg, now) && Ordered(logs, now) && now <= later
    ensures Agree(store, logs, cfg, later) && Ordered(logs, later)
  {
    forall k ensures AgreeAt(Bucket(store, k), Bucket(logs, k), Cutoff(cfg(k), later)) {
      assert AgreeAt(Bucket(store, k), Bucket(logs, k), Cutoff(cfg(k), now));
    }
  }

  lemma {:induction false} RunAgrees(reqs: seq<Request>, cfg: Config, now: real)
    requires ClockRuns(reqs, cfg, now)
    ensures Agree(RunStore(reqs), RunLogs(reqs), cfg, now) && Ordered(RunLogs(reqs), now)
  {
    hide Agree, Ordered, Check, ChargeAll, Admits;
    if reqs == [] {
      EmptyAgrees(cfg, now);
    } else {
      var n := |reqs| - 1;
      var r, before := reqs[n], reqs[..n];
      RunAgrees(before, cfg, r.now);
      var store, logs := RunStore(before), RunLogs(before);
      CheckDecides(store, logs, r.charges, cfg, r.now);
      ChargeKeepsAgree(Check(store, r.charges, r.now).0, logs, r.charges, cfg, r.now);
      ChargeKeepsOrder(logs, r.charges, r.now);
      LaterAgree(RunStore(reqs), RunLogs(reqs), cfg, r.now, now);
    }
  }

  lemma {:induction false} EmptyAgrees(cfg: Config, now: real)
    ensures Agree(map[], map[], cfg, now) && Ordered(map[], now)
  {
  }

  /**
   After every run with a clock that does not go back, a call is admitted by the pruned store
   exactly when the complete log of admitted calls leaves room for it under every rule.
   */
  lemma {:induction false} DecidesAsLog(reqs: seq<Request>, cfg: Config, next: Request)
    requires ClockRuns(reqs, cfg, next.now) && Consistent(next.charges, cfg)
    ensures Apply(RunStore(reqs), next.charges, next.now).1.None? <==> Admits(RunLogs(reqs), next.charges, next.now)
  {
    RunAgrees(reqs, cfg, next.now);
    CheckDecides(RunStore(reqs), RunLogs(reqs), next.charges, cfg, next.now);
  }

  // ----- Every window is within its limit -----

  /** Any `calls + 1` admitted units in a row span at least a period. */
  ghost predicate Spaced(log: seq<real>, r: Rule) {
    && (r.calls < 1 ==> log == [])
    && forall i, j :: 0 <= i < j < |log| && j - i >= r.calls ==> log[i] <= log[j] - r.period as real
  }

  lemma {:induction false} ChargeSpaced(log: seq<real>, r: Rule, now: real, units: nat)
    requires Sorted(log) && UpTo(log, now) && Spaced(log, r)
    requires |Prune(log, Cutoff(r, now), Time)| + units <= r.calls
    ensures Spaced(log + Copies(now, units), r)
  {
    var n, kept := |log|, |Prune(log, Cutoff(r, now), Time)|;
    PruneDrops(log, Cutoff(r, now));
    var l' := log + Copies(now, units);
    forall i, j | 0 <= i < j < |l'| && j - i >= r.calls ensures l'[i] <= l'[j] - r.period as real {
      if j >= n {
        assert i < n - kept;
      }
    }
  }

  /** A spaced log never has more than `calls` units in one window. */
  lemma {:induction false} SpacedWindow(log: seq<real>, r: Rule, t: real)
    requires Sorted(log) && Spaced(log, r)
    ensures CountIn(log, Cutoff(r, t), t) <= if r.calls < 0 then 0 else r.calls
  {
    if log != [] {
      var n := |log| - 1;
      if log[n] > t {
        SpacedWindow(log[..n], r, t);
      } else {
        assert UpTo(log, t);
        PruneCounts(log, Cutoff(r, t), t);
        PruneDrops(log, Cutoff(r, t));
      }
    }
  }

  /** The units a request charges to a key. */
  function UnitsFor(cs: seq<Charge>, key: string): nat {
    if cs == [] then 0 else (if cs[0].rule.key == key then cs[0].units else 0) + UnitsFor(cs[1..], key)
  }

  lemma {:induction false} ChargeAllAt(store: Store, cs: seq<Charge>, now: real, key: string)
    ensures Bucket(ChargeAll(store, cs, now), key) == Bucket(store, key) + Copies(now, UnitsFor(cs, key))
    decreases |cs|
  {
    if cs == [] {
      assert Bucket(store, key) + Copies(now, 0) == Bucket(store, key);
    } else {
      var k, u := cs[0].rule.key, cs[0].units;
      ChargeAllAt(store[k := Bucket(store, k) + Copies(now, u)], cs[1..], now, key);
      if k == key {
        var rest := UnitsFor(cs[1..], key);
        assert Copies(now, u) + Copies(now, rest) == Copies(now, u + rest);
        assert Bucket(store, key) + Copies(now, u) + Copies(now, rest) == Bucket(store, key) + (Copies(now, u) + Copies(now, rest));
      }
    }
  }

  ghost predicate DistinctKeys(cs: seq<Charge>) {
    forall i, j :: 0 <= i < j < |cs| ==> cs[i].rule.key != cs[j].rule.key
  }

  lemma {:induction false} UnitsOnce(cs: seq<Charge>, key: string)
    requires DistinctKeys(cs)
    ensures UnitsFor(cs, key) == 0 || exists i :: 0 <= i < |cs| && cs[i].rule.key == key && UnitsFor(cs, key) == cs[i].units
  {
    if cs != [] {
      assert DistinctKeys(cs[1..]);
      UnitsOnce(cs[1..], key);
      if cs[0].rule.key == key {
        NoUnits(cs[1..], key);
        assert UnitsFor(cs, key) == cs[0].units;
      } else if UnitsFor(cs[1..], key) != 0 {
        var i :| 0 <= i < |cs[1..]| && cs[1..][i].rule.key == key && UnitsFor(cs[1..], key) == cs[1..][i].units;
        assert cs[i + 1].rule.key == key;
      }
    }
  }

  lemma {:induction false} NoUnits(cs: seq<Charge>, key: string)
    requires forall i :: 0 <= i < |cs| ==> cs[i].rule.key != key
    ensures UnitsFor(cs, key) == 0
  {
    if cs != [] {
      NoUnits(cs[1..], key);
    }
  }

  /** Whether a call is within the limit of `key`, counted with everything it charges to it. */
  predicate FitsAt(logs: Store, cs: seq<Charge>, cfg: Config, now: real, key: string) {
    var r, units := cfg(key), UnitsFor(cs, key);
    Admits(logs, cs, now) && units > 0 ==> CountIn(Bucket(logs, key), Cutoff(r, now), now) + units <= r.calls
  }

  /** Every admitted call of the run left room for all that it charges to the key. */
  ghost predicate Fits(reqs: seq<Request>, cfg: Config, key: string) {
    reqs == [] ||
    var n := |reqs| - 1;
    Fits(reqs[..n], cfg, key) && FitsAt(RunLogs(reqs[..n]), reqs[n].charges, cfg, reqs[n].now, key)
  }

  lemma {:induction false} RunSpaced(reqs: seq<Request>, cfg: Config, now: real, key: string)
    requires ClockRuns(reqs, cfg, now) && Fits(reqs, cfg, key)
    ensures Spaced(Bucket(RunLogs(reqs), key), cfg(key))
  {
    hide Agree, ChargeAll, Spaced;
    if reqs == [] {
      EmptySpaced(cfg(key));
    } else {
      var n := |reqs| - 1;
      var r, before := reqs[n], reqs[..n];
      RunSpaced(before, cfg, r.now, key);
      RunAgrees(before, cfg, r.now);
      var logs := RunLogs(before);
      var log := Bucket(logs, key);
      if Admits(logs, r.charges, r.now) {
        ChargeAllAt(logs, r.charges, r.now, key);
        var u := UnitsFor(r.charges, key);
        if u == 0 {
          assert log + Copies(r.now, 0) == log;
        } else {
          assert Sorted(log) && UpTo(log, r.now);
          PruneCounts(log, Cutoff(cfg(key), r.now), r.now);
          ChargeSpaced(log, cfg(key), r.now, u);
        }
      }
    }
  }

  lemma {:induction false} EmptySpaced(r: Rule)
    ensures Spaced([], r)
  {
  }

  /** The window `(t - period, t]` holds at most `calls` units. */
  predicate Bounded(log: seq<real>, r: Rule, t: real) {
    CountIn(log, Cutoff(r, t), t) <= if r.calls < 0 then 0 else r.calls
  }

  lemma {:induction false} CountOne(log: seq<real>, x: real, lo: real, hi: real)
    ensures CountIn(log + [x], lo, hi) == CountIn(log, lo, hi) + if lo < x <= hi then 1 else 0
  {
    assert (log + [x])[..|log|] == log;
  }

  lemma {:induction false} CountCopies(log: seq<real>, now: real, n: nat, lo: real, hi: real)
    ensures CountIn(log + Copies(now, n), lo, hi) == CountIn(log, lo, hi) + if lo < now <= hi then n else 0
    decreases n
  {
    hide CountIn;
    if n == 0 {
      assert log + Copies(now, 0) == log;
    } else {
      CountCopies(log, now, n - 1, lo, hi);
      CountOne(log + Copies(now, n - 1), now, lo, hi);
      assert log + Copies(now, n) == log + Copies(now, n - 1) + [now];
    }
  }

  /** One more request adds its units to each window that holds its time, if it is admitted. */
  lemma {:induction false} CountAdmit(logs: Store, cs: seq<Charge>, now: real, key: string, lo: real, hi: real)
    ensures CountIn(Bucket(Admit(logs, cs, now), key), lo, hi)
         == CountIn(Bucket(logs, key), lo, hi) + if Admits(logs, cs, now) && lo < now <= hi then UnitsFor(cs, key) else 0
  {
    if Admits(logs, cs, now) {
      ChargeAllAt(logs, cs, now, key);
      CountCopies(Bucket(logs, key), now, UnitsFor(cs, key), lo, hi);
    }
  }

  /** The first call that does not fit breaks the bound for the window that ends with it. */
  lemma {:induction false} Overfull(reqs: seq<Request>, cfg: Config, key: string) returns (t: real)
    requires !Fits(reqs, cfg, key) && cfg(key).period > 0
    ensures !Bounded(Bucket(RunLogs(reqs), key), cfg(key), t)
  {
    hide CountIn, Admits, UnitsFor;
    var n := |reqs| - 1;
    var r := reqs[n];
    if Fits(reqs[..n], cfg, key) {
      t := r.now;
    } else {
      t := Overfull(reqs[..n], cfg, key);
    }
    CountAdmit(RunLogs(reqs[..n]), r.charges, r.now, key, Cutoff(cfg(key), t), t);
  }

  lemma {:induction false} NoWindow(log: seq<real>, lo: real, hi: real)
    requires lo >= hi
    ensures CountIn(log, lo, hi) == 0
  {
    if log != [] {
      NoWindow(log[..|log| - 1], lo, hi);
    }
  }

  /**
   Over every run, every window of a rule is within its limit if and only if every admitted
   call left room for all that it charges to the rule's key. The code looks at one charge at
   a time instead. A rule without a period has only empty windows.
   */
  lemma {:induction false} WindowBoundExact(reqs: seq<Request>, cfg: Config, now: real, key: string)
    requires ClockRuns(reqs, cfg, now)
    ensures (forall t :: Bounded(Bucket(RunLogs(reqs), key), cfg(key), t))
       <==> cfg(key).period <= 0 || Fits(reqs, cfg, key)
  {
    hide Agree, CountIn, RunLogs, Fits, Spaced;
    var log := Bucket(RunLogs(reqs), key);
    if cfg(key).period <= 0 {
      forall t ensures Bounded(log, cfg(key), t) {
        NoWindow(log, Cutoff(cfg(key), t), t);
      }
    } else if Fits(reqs, cfg, key) {
      RunSpaced(reqs, cfg, now, key);
      RunAgrees(reqs, cfg, now);
      assert Sorted(log);
      forall t ensures Bounded(log, cfg(key), t) {
        SpacedWindow(log, cfg(key), t);
      }
    } else {
      var t := Overfull(reqs, cfg, key);
    }
  }

  /** With distinct keys a call charges each key once, and the check of that charge suffices. */
  lemma {:induction false} DistinctFits(reqs: seq<Request>, cfg: Config, now: real, key: string)
    requires ClockRuns(reqs, cfg, now) && forall i :: 0 <= i < |reqs| ==> DistinctKeys(reqs[i].charges)
    ensures Fits(reqs, cfg, key)
  {
    if reqs != [] {
      hide CountIn, RunLogs, UnitsFor;
      var n := |reqs| - 1;
      DistinctFits(reqs[..n], cfg, now, key);
      UnitsOnce(reqs[n].charges, key);
    }
  }

  /**
   Over every run whose requests charge distinct keys, every window `(t - period, t]` holds
   at most `calls` admitted units of each rule.
   */
  lemma {:induction false} WindowBound(reqs: seq<Request>, cfg: Config, now: real, key: string, t: real)
    requires ClockRuns(reqs, cfg, now) && forall i :: 0 <= i < |reqs| ==> DistinctKeys(reqs[i].charges)
    ensures CountIn(Bucket(RunLogs(reqs), key), Cutoff(cfg(key), t), t) <= if cfg(key).calls < 0 then 0 else cfg(key).calls
  {
    hide Fits, RunLogs, CountIn;
    DistinctFits(reqs, cfg, now, key);
    WindowBoundExact(reqs, cfg, now, key);
    assert Bounded(Bucket(RunLogs(reqs), key), cfg(key), t);
  }

  // ----- What a call changes -----

  lemma {:induction false} CheckOnlyPrunes(store: Store, cs: seq<Charge>, cfg: Config, now: real, key: string)
    requires Consistent(cs, cfg)
    ensures var cut := Cutoff(cfg(key), now);
            Prune(Bucket(Check(store, cs, now).0, key), cut, Time) == Prune(Bucket(store, key), cut, Time)
    decreases |cs|
  {
    if cs != [] {
      var r := cs[0].rule;
      var b := Prune(Bucket(store, r.key), Cutoff(r, now), Time);
      PruneTwice(Bucket(store, r.key), Cutoff(r, now), Cutoff(r, now), Time);
      CheckOnlyPrunes(store[r.key := b], cs[1..], cfg, now, key);
    }
  }

  /** A refused call charges no rule; an admitted one charges every rule its units. */
  lemma {:induction false} ChargesAllOrNone(store: Store, cs: seq<Charge>, cfg: Config, now: real, key: string)
    requires Consistent(cs, cfg)
    ensures var (after, refused) := Apply(store, cs, now);
            var cut := Cutoff(cfg(key), now);
            Prune(Bucket(after, key), cut, Time)
              == Prune(Bucket(store, key) + Copies(now, if refused.None? then UnitsFor(cs, key) else 0), cut, Time)
  {
    var cut, u := Cutoff(cfg(key), now), UnitsFor(cs, key);
    var pruned := Check(store, cs, now).0;
    CheckOnlyPrunes(store, cs, cfg, now, key);
    ChargeAllAt(pruned, cs, now, key);
    PruneAppend(Bucket(pruned, key), Copies(now, u), cut, Time);
    PruneAppend(Bucket(store, key), Copies(now, u), cut, Time);
    assert Bucket(store, key) + Copies(now, 0) == Bucket(store, key);
  }

  /** Without distinct keys the bound fails: a rule charged twice by one call admits one too many. */
  lemma {:induction false} SharedKeyOvershoots()
    ensures var rule := Rule("k", 1, 60);
            var reqs := [Request([Charge(rule, 1), Charge(rule, 1)], 100.0)];
            CountIn(Bucket(RunLogs(reqs), "k"), Cutoff(rule, 100.0), 100.0) == 2
  {
    var rule := Rule("k", 1, 60);
    var cs := [Charge(rule, 1), Charge(rule, 1)];
    var reqs := [Request(cs, 100.0)];
    assert reqs[..0] == [];
    assert Admits(map[], cs, 100.0);
    ChargeAllAt(map[], cs, 100.0, "k");
    var one := [Charge(rule, 1)];
    assert cs[1..] == one && one[1..] == [];
    assert UnitsFor(one, "k") == 1 + UnitsFor([], "k");
    assert UnitsFor(cs, "k") == 1 + UnitsFor(one, "k");
    var log := Copies(100.0, 2);
    assert [] + log == log;
    assert log[..1] == [100.0] && [100.0][..0] == [];
  }

  // ----- Retry-After -----

  function Ceil(x: real): (r: int)
    ensures r as real >= x && (r - 1) as real < x
  {
    -((-x).Floor)
  }

  /** `_rate_limit_retry_after` */
  function RetryAfter(b: seq<real>, now: real, period: int): int {
    if b == [] then period
    else
      var wait := Ceil(b[0] + period as real - now);
      if wait < 1 then 1 else wait
  }

  /** `w` seconds from now, with nothing admitted in between, the rule has room for `k` units. */
  predicate RoomAfter(b: seq<real>, now: real, r: Rule, k: nat, w: nat) {
    |Prune(b, Cutoff(r, now + w as real), Time)| + k <= r.calls
  }

  /** A pruned bucket that refuses `k` units. */
  ghost predicate Refusing(b: seq<real>, now: real, r: Rule, k: nat) {
    Sorted(b) && Prune(b, Cutoff(r, now), Time) == b && |b| + k > r.calls
  }

  lemma {:induction false} RoomOnlyAfterFirst(b: seq<real>, now: real, r: Rule, k: nat, w: nat)
    requires Refusing(b, now, r, k) && b != []
    ensures w < RetryAfter(b, now, r.period) ==> !RoomAfter(b, now, r, k, w)
    ensures w >= RetryAfter(b, now, r.period) ==> b[0] <= Cutoff(r, now + w as real)
  {
  }

  lemma {:induction false} PruneBelow(b: seq<real>, c: real, n: nat)
    requires Sorted(b) && n < |b|
    ensures |Prune(b, c, Time)| <= |b| - n - 1 <==> b[n] <= c
  {
    PruneDrops(b, c);
    var m := |Prune(b, c, Time)|;
    if m > |b| - n - 1 {
      assert b[|b| - m] > c;
    }
  }

  /**
   The advertised wait is the least one after which the rule has room if and only if the
   entries that must leave the window can and do so within it: `k` units need `n` entries
   gone, the last of which is the `n`-th oldest. More units than `calls` never fit.
   */
  lemma {:induction false} RetryAfterExactIff(b: seq<real>, now: real, r: Rule, k: nat)
    requires Refusing(b, now, r, k)
    ensures var d, n := RetryAfter(b, now, r.period), |b| + k - r.calls;
            && (r.period >= 1 ==> d >= 1)
            && (k > r.calls ==> forall w: nat :: !RoomAfter(b, now, r, k, w))
            && ((forall w: nat :: RoomAfter(b, now, r, k, w) <==> w >= d)
                <==> n <= |b| && b[n - 1] <= Cutoff(r, now + d as real))
  {
    var d, n := RetryAfter(b, now, r.period), |b| + k - r.calls;
    if n > |b| {
      var w := if d < 0 then 0 else d;
      assert !RoomAfter(b, now, r, k, w);
    } else {
      PruneBelow(b, Cutoff(r, now + d as real), n - 1);
      if b[n - 1] <= Cutoff(r, now + d as real) {
        forall w: nat ensures RoomAfter(b, now, r, k, w) <==> w >= d {
          RoomOnlyAfterFirst(b, now, r, k, w);
          PruneBelow(b, Cutoff(r, now + w as real), n - 1);
        }
      } else {
        assert !RoomAfter(b, now, r, k, d);
      }
    }
  }

  /** The times come in runs of `k` equal ones, as constant increments leave them. */
  ghost predicate Grouped(b: seq<real>, k: nat)
    requires k > 0
  {
    b == [] || (|b| >= k && b[..k] == Copies(b[0], k) && Grouped(b[k..], k))
  }

  lemma {:induction false} PruneGrouped(b: seq<real>, k: nat, c: real)
    requires k > 0 && Grouped(b, k)
    ensures Grouped(Prune(b, c, Time), k)
    decreases |b|
  {
    if b != [] && b[0] <= c {
      PruneRun(b, k, c);
      PruneGrouped(b[k..], k, c);
    }
  }

  lemma {:induction false} PruneRun(b: seq<real>, n: nat, c: real)
    requires n <= |b| && forall i :: 0 <= i < n ==> b[i] <= c
    ensures Prune(b, c, Time) == Prune(b[n..], c, Time)
  {
    if n > 0 {
      PruneRun(b[1..], n - 1, c);
      assert b[1..][n - 1..] == b[n..];
    } else {
      assert b[0..] == b;
    }
  }

  lemma {:induction false} AppendGrouped(b: seq<real>, k: nat, now: real)
    requires k > 0 && Grouped(b, k)
    ensures Grouped(b + Copies(now, k), k)
    decreases |b|
  {
    var u := Copies(now, k);
    if b == [] {
      assert b + u == u && u[..k] == u && u[k..] == [];
    } else {
      assert (b + u)[k..] == b[k..] + u;
      assert (b + u)[..k] == b[..k];
      AppendGrouped(b[k..], k, now);
    }
  }

  /** Every charge to the key is of `k` units. */
  ghost predicate ConstantUnits(reqs: seq<Request>, key: string, k: nat) {
    forall i :: 0 <= i < |reqs| ==> UnitsFor(reqs[i].charges, key) in {0, k}
  }

  lemma {:induction false} CheckGrouped(store: Store, cs: seq<Charge>, now: real, key: string, k: nat)
    requires k > 0 && Grouped(Bucket(store, key), k)
    ensures Grouped(Bucket(Check(store, cs, now).0, key), k)
    decreases |cs|
  {
    if cs != [] {
      var r := cs[0].rule;
      PruneGrouped(Bucket(store, key), k, Cutoff(r, now));
      CheckGrouped(store[r.key := Prune(Bucket(store, r.key), Cutoff(r, now), Time)], cs[1..], now, key, k);
    }
  }

  lemma {:induction false} RunGrouped(reqs: seq<Request>, key: string, k: nat)
    requires k > 0 && ConstantUnits(reqs, key, k)
    ensures Grouped(Bucket(RunStore(reqs), key), k)
  {
    if reqs != [] {
      hide Grouped, Check, ChargeAll, UnitsFor;
      var n := |reqs| - 1;
      var r, store := reqs[n], RunStore(reqs[..n]);
      RunGrouped(reqs[..n], key, k);
      CheckGrouped(store, r.charges, r.now, key, k);
      var b := Bucket(Check(store, r.charges, r.now).0, key);
      ChargeAllAt(Check(store, r.charges, r.now).0, r.charges, r.now, key);
      AppendGrouped(b, k, r.now);
      assert b + Copies(r.now, 0) == b;
    }
  }

  /**
   Over every run in which each charge to the rule is of the same `k >= 1` units: when the
   rule refuses, the advertised wait is the least whole number of seconds after which it has
   room, if nothing else is admitted meanwhile, exactly when `k` units fit at all.
   */
  lemma {:induction false} RetryAfterExact(reqs: seq<Request>, cfg: Config, now: real, key: string, k: nat)
    requires ClockRuns(reqs, cfg, now) && forall i :: 0 <= i < |reqs| ==> DistinctKeys(reqs[i].charges)
    requires k >= 1 && ConstantUnits(reqs, key, k)
    ensures var r := cfg(key);
            var b := Prune(Bucket(RunStore(reqs), key), Cutoff(r, now), Time);
            |b| + k > r.calls ==>
              ((forall w: nat :: RoomAfter(b, now, r, k, w) <==> w >= RetryAfter(b, now, r.period)) <==> k <= r.calls)
  {
    hide Grouped, RoomAfter;
    var r := cfg(key);
    var cut := Cutoff(r, now);
    var b := Prune(Bucket(RunStore(reqs), key), cut, Time);
    if |b| + k > r.calls {
      WithinBucket(reqs, cfg, now, key);
      RetryAfterExactIff(b, now, r, k);
      if k <= r.calls {
        RunGrouped(reqs, key, k);
        PruneGrouped(Bucket(RunStore(reqs), key), k, cut);
        FirstRun(b, k, |b| + k - r.calls - 1);
        RoomOnlyAfterFirst(b, now, r, k, RetryAfter(b, now, r.period));
      }
    }
  }

  /** The bucket of the rule that refuses is left pruned. */
  lemma {:induction false} RefusedBucket(store: Store, cs: seq<Charge>, cfg: Config, now: real)
    requires Consistent(cs, cfg) && Check(store, cs, now).1.Some?
    ensures var (after, refused) := Check(store, cs, now);
            var r := refused.value.rule;
            && refused.value in cs
            && Bucket(after, r.key) == Prune(Bucket(store, r.key), Cutoff(r, now), Time)
            && |Bucket(after, r.key)| + refused.value.units > r.calls
    decreases |cs|
  {
    var r := cs[0].rule;
    var b := Prune(Bucket(store, r.key), Cutoff(r, now), Time);
    if |b| + cs[0].units <= r.calls {
      RefusedBucket(store[r.key := b], cs[1..], cfg, now);
      PruneTwice(Bucket(store, r.key), Cutoff(r, now), Cutoff(r, now), Time);
    }
  }

  /**
   The wait that a refusal advertises, computed from the bucket it leaves behind: after every
   run in which each charge to the refusing rule is of as many units as the refused one, it is
   the least whole number of seconds after which the rule has room, exactly when those fit at all.
   */
  lemma {:induction false} AdvertisedExact(reqs: seq<Request>, cfg: Config, next: Request)
    requires ClockRuns(reqs, cfg, next.now) && forall i :: 0 <= i < |reqs| ==> DistinctKeys(reqs[i].charges)
    requires Consistent(next.charges, cfg)
    ensures var (after, refused) := Apply(RunStore(reqs), next.charges, next.now);
            refused.Some? ==>
              var r, k := refused.value.rule, refused.value.units;
              var b := Bucket(after, r.key);
              k >= 1 && ConstantUnits(reqs, r.key, k) ==>
                ((forall w: nat :: RoomAfter(b, next.now, r, k, w) <==> w >= RetryAfter(b, next.now, r.period)) <==> k <= r.calls)
  {
    hide Check, RoomAfter, RetryAfter, RunStore;
    var (after, refused) := Apply(RunStore(reqs), next.charges, next.now);
    if refused.Some? {
      RefusedBucket(RunStore(reqs), next.charges, cfg, next.now);
      var r, k := refused.value.rule, refused.value.units;
      if k >= 1 && ConstantUnits(reqs, r.key, k) {
        RetryAfterExact(reqs, cfg, next.now, r.key, k);
      }
    }
  }

  lemma {:induction false} FirstRun(b: seq<real>, k: nat, i: nat)
    requires k > 0 && Grouped(b, k) && b != [] && i < k
    ensures i < |b| && b[i] == b[0]
  {
    assert b[i] == b[..k][i];
  }

  /** A pruned bucket is sorted, stays as it is when pruned again, and is within the limit. */
  lemma {:induction false} WithinBucket(reqs: seq<Request>, cfg: Config, now: real, key: string)
    requires ClockRuns(reqs, cfg, now) && forall i :: 0 <= i < |reqs| ==> DistinctKeys(reqs[i].charges)
    ensures var r := cfg(key);
            var b := Prune(Bucket(RunStore(reqs), key), Cutoff(r, now), Time);
            Sorted(b) && Prune(b, Cutoff(r, now), Time) == b && |b| <= if r.calls < 0 then 0 else r.calls
  {
    var r, log := cfg(key), Bucket(RunLogs(reqs), key);
    var cut := Cutoff(r, now);
    RunAgrees(reqs, cfg, now);
    assert AgreeAt(Bucket(RunStore(reqs), key), log, cut);
    PruneTwice(Bucket(RunStore(reqs), key), cut, cut, Time);
    assert Sorted(log) && UpTo(log, now);
    PruneDrops(log, cut);
    PruneCounts(log, cut, now);
    WindowBound(reqs, cfg, now, key, now);
  }

  /**
   With increments that vary, the wait can be too short: after one unit at 0 and two at 10,
   two more at 20 are told to wait 40 seconds, when only the first unit has left.
   */
  lemma {:induction false} RetryAfterTooShort()
    ensures var r := Rule("k", 3, 60);
            var reqs := [Request([Charge(r, 1)], 0.0), Request([Charge(r, 2)], 10.0)];
            var b := Prune(Bucket(RunStore(reqs), "k"), Cutoff(r, 20.0), Time);
            && Apply(RunStore(reqs), [Charge(r, 2)], 20.0).1 == Some(Charge(r, 2))
            && RetryAfter(b, 20.0, 60) == 40 && !RoomAfter(b, 20.0, r, 2, 40)
  {
    var r := Rule("k", 3, 60);
    var one, two := Request([Charge(r, 1)], 0.0), Request([Charge(r, 2)], 10.0);
    assert [one, two][..1] == [one] && [one][..0] == [];
    SingleCharge(map[], Charge(r, 1), 0.0);
    var b1 := [] + Copies(0.0, 1);
    assert b1 == [0.0] && RunStore([one]) == map["k" := b1];
    SingleCharge(RunStore([one]), Charge(r, 2), 10.0);
    var b := b1 + Copies(10.0, 2);
    assert b == [0.0, 10.0, 10.0] && Bucket(RunStore([one, two]), "k") == b;
    assert Prune(b, Cutoff(r, 20.0), Time) == b;
    SingleCharge(RunStore([one, two]), Charge(r, 2), 20.0);
    assert b[1..] == [10.0, 10.0];
    assert Prune(b, Cutoff(r, 60.0), Time) == Prune(b[1..], Cutoff(r, 60.0), Time) == b[1..];
    assert RetryAfter(b, 20.0, 60) == 40;
    assert 20.0 + 40 as real == 60.0;
  }

  /** An increment above `calls` is refused by an empty bucket with a wait of one period, and forever. */
  lemma {:induction false} IncrementNeverFits()
    ensures var r := Rule("k", 1, 60);
            && Apply(map[], [Charge(r, 2)], 0.0).1 == Some(Charge(r, 2))
            && RetryAfter([], 0.0, 60) == 60
            && forall w: nat :: !RoomAfter([], 0.0, r, 2, w)
  {
    SingleCharge(map[], Charge(Rule("k", 1, 60), 2), 0.0);
    RetryAfterExactIff([], 0.0, Rule("k", 1, 60), 2);
  }

  lemma {:induction false} SingleCharge(store: Store, c: Charge, now: real)
    ensures var b := Prune(Bucket(store, c.rule.key), Cutoff(c.rule, now), Time);
            Apply(store, [c], now)
              == if |b| + c.units > c.rule.calls then (store[c.rule.key := b], Some(c))
                 else (store[c.rule.key := b + Copies(now, c.units)], None)
  {
    assert [c][1..] == [];
    var b := Prune(Bucket(store, c.rule.key), Cutoff(c.rule, now), Time);
    var pruned := store[c.rule.key := b];
    assert Check(pruned, [c][1..], now) == (pruned, None);
    var charged := pruned[c.rule.key := b + Copies(now, c.units)];
    assert ChargeAll(charged, [c][1..], now) == charged;
    assert charged == store[c.rule.key := b + Copies(now, c.units)];
  }
}
