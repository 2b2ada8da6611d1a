/** Quotas over whole runs: the stored counts are those of the complete log of admitted calls. */
module QuotaLedger {
  import opened Common
  import opened QuotaWindow

  /** When a key was first used, every call admitted under it, and every bandwidth report. */
  datatype Log = Log(seen: Option<real>, calls: seq<real>, usage: seq<(real, nat)>)

  type Logs = map<string, Log>

  const NOTHING := Log(None, [], [])

  function LogOf(logs: Logs, key: string): Log {
    if key in logs then logs[key] else NOTHING
  }

  function Anchor(l: Log, r: Rule, now: real): real {
    if r.first.Some? then r.first.value else if l.seen.Some? then l.seen.value else now
  }

  /** How many of the calls fall in window `i`. */
  function CallsIn(calls: seq<real>, anchor: real, period: int, i: int): nat
    requires period >= 0
  {
    if calls == [] then 0
    else
      var n := |calls| - 1;
      CallsIn(calls[..n], anchor, period, i) + if Index(anchor, period, calls[n]) == i then 1 else 0
  }

  function UsageIn(usage: seq<(real, nat)>, anchor: real, period: int, i: int): nat
    requires period >= 0
  {
    if usage == [] then 0
    else
      var n := |usage| - 1;
      UsageIn(usage[..n], anchor, period, i) + if Index(anchor, period, usage[n].0) == i then usage[n].1 else 0
  }

  // ----- The specification: decisions from the complete logs -----

  predicate UsedUp(l: Log, r: Rule, now: real)
    requires r.period >= 0
  {
    var anchor := Anchor(l, r, now);
    var i := Index(anchor, r.period, now);
    || (r.calls.Some? && CallsIn(l.calls, anchor, r.period, i) >= r.calls.value)
    || (r.bandwidth.Some? && UsageIn(l.usage, anchor, r.period, i) >= r.bandwidth.value)
  }

  function See(l: Log, now: real): Log {
    if l.seen.Some? then l else l.(seen := Some(now))
  }

  function CheckLogs(logs: Logs, rules: seq<Rule>, now: real): (Logs, Verdict)
    decreases |rules|
  {
    if rules == [] then (logs, Pass)
    else
      var r := rules[0];
      if r.period < 0 then (logs, BadPeriod)
      else
        var l := See(LogOf(logs, r.key), now);
        if UsedUp(l, r, now) then (logs[r.key := l], Over(r)) else CheckLogs(logs[r.key := l], rules[1..], now)
  }

  function AdmitLogs(logs: Logs, rules: seq<Rule>, now: real): Logs
    decreases |rules|
  {
    if rules == [] then logs
    else
      var k := rules[0].key;
      AdmitLogs(if rules[0].calls.Some? && k in logs then logs[k := logs[k].(calls := logs[k].calls + [now])] else logs,
                rules[1..], now)
  }

  datatype Op = Call(rules: seq<Rule>, now: real) | Done(rule: Rule, now: real, kilobytes: nat)

  function StepStore(store: Store, op: Op): Store {
    match op
    case Call(rules, now) => Apply(store, rules, now).0
    case Done(r, now, kilobytes) => Finalize(store, r, now, kilobytes)
  }

  function StepLogs(logs: Logs, op: Op): Logs {
    match op
    case Call(rules, now) =>
      var (seen, verdict) := CheckLogs(logs, rules, now);
      if verdict.Pass? then AdmitLogs(seen, rules, now) else seen
    case Done(r, now, kilobytes) =>
      if r.period < 0 then logs
      else
        var l := See(LogOf(logs, r.key), now);
        logs[r.key := l.(usage := l.usage + [(now, kilobytes)])]
  }

  function RunStore(ops: seq<Op>): Store {
    if ops == [] then map[] else StepStore(RunStore(ops[..|ops| - 1]), ops[|ops| - 1])
  }

  function RunLogs(ops: seq<Op>): Logs {
    if ops == [] then map[] else StepLogs(RunLogs(ops[..|ops| - 1]), ops[|ops| - 1])
  }

  // ----- An entry and the log of its key -----

  ghost predicate NotAfter(l: Log, anchor: real, period: int, cur: int)
    requires period >= 0
  {
    && (forall i :: 0 <= i < |l.calls| ==> Index(anchor, period, l.calls[i]) <= cur)
    && (forall i :: 0 <= i < |l.usage| ==> Index(anchor, period, l.usage[i].0) <= cur)
  }

  /** The entry holds the counts of window `cur`, the last one used. */
  ghost predicate Holds(e: Entry, l: Log, r: Rule, cur: int)
    requires r.period >= 0
  {
    && l.seen.Some? && e.anchor == Anchor(l, r, 0.0)
    && (r.period > 0 ==> e.start == Some(Start(e.anchor, r.period, cur)))
    && e.count == CallsIn(l.calls, e.anchor, r.period, cur)
    && e.bandwidth == UsageIn(l.usage, e.anchor, r.period, cur)
    && NotAfter(l, e.anchor, r.period, cur)
  }

  ghost predicate AtMost(calls: seq<real>, anchor: real, period: int, most: int)
    requires period >= 0
  {
    forall i :: CallsIn(calls, anchor, period, i) <= most
  }

  function Most(calls: int): nat {
    if calls < 0 then 0 else calls
  }

  /** No window of the log holds more calls than the rule allows. */
  ghost predicate Within(l: Log, r: Rule) {
    r.period >= 0 && r.calls.Some? ==> AtMost(l.calls, Anchor(l, r, 0.0), r.period, Most(r.calls.value))
  }

  ghost predicate Sound(e: Option<Entry>, l: Log, r: Rule, now: real) {
    if e.None? then l == NOTHING
    else r.period >= 0 && exists cur :: 0 <= cur <= Index(e.value.anchor, r.period, now) && Holds(e.value, l, r, cur)
  }

  lemma {:induction false} NoneAfter(l: Log, anchor: real, period: int, cur: int, i: int)
    requires period >= 0 && NotAfter(l, anchor, period, cur) && cur < i
    ensures CallsIn(l.calls, anchor, period, i) == 0 && UsageIn(l.usage, anchor, period, i) == 0
    decreases |l.calls| + |l.usage|
  {
    hide Index;
    if l.calls != [] {
      NoneAfter(l.(calls := l.calls[..|l.calls| - 1]), anchor, period, cur, i);
    } else if l.usage != [] {
      NoneAfter(l.(usage := l.usage[..|l.usage| - 1]), anchor, period, cur, i);
    }
  }

  /** Bringing an entry to the current window gives it the counts of that window. */
  lemma {:induction false} TouchHolds(e: Option<Entry>, l: Log, r: Rule, now: real)
    requires r.period >= 0 && Sound(e, l, r, now)
    ensures var e' := Touch(e, r, now);
            Holds(e', See(l, now), r, Index(e'.anchor, r.period, now))
  {
    hide Index, Start, CallsIn, UsageIn;
    var anchor := AnchorOf(e, r, now);
    assert 0 <= Index(anchor, r.period, now) by { IndexMonotone(anchor, r.period, now, now); }
    var i := Index(anchor, r.period, now);
    if e.None? {
      EmptyWindow(anchor, r.period, i);
    } else {
      var cur :| 0 <= cur <= Index(e.value.anchor, r.period, now) && Holds(e.value, l, r, cur);
      if r.period > 0 {
        if Start(anchor, r.period, i) == Start(anchor, r.period, cur) {
          SameStart(anchor, r.period, i, cur);
        } else {
          NoneAfter(l, anchor, r.period, cur, i);
          assert NotAfter(l, anchor, r.period, i);
        }
      } else {
        assert i == 0 by { EndlessIndex(anchor, now); }
      }
    }
  }

  lemma {:induction false} SameStart(anchor: real, period: int, i: int, j: int)
    requires period > 0 && Start(anchor, period, i) == Start(anchor, period, j)
    ensures i == j
  {
    hide Start;
    StartMonotone(anchor, period, i, j);
    StartMonotone(anchor, period, j, i);
  }

  lemma {:induction false} EndlessIndex(anchor: real, now: real)
    ensures Index(anchor, 0, now) == 0
  {
  }

  lemma {:induction false} EmptyWindow(anchor: real, period: int, i: int)
    requires period >= 0
    ensures CallsIn([], anchor, period, i) == 0 && UsageIn([], anchor, period, i) == 0
  {
  }

  // ----- Whole stores -----

  /** One rule per key: its limits and period never change. Rules of one call may share a key. */
  type Config = string -> Rule

  predicate Consistent(rules: seq<Rule>, cfg: Config) {
    OneRulePerKey(rules, cfg)
  }

  ghost predicate Keeps(store: Store, logs: Logs, cfg: Config, now: real, k: string) {
    Sound(Get(store, k), LogOf(logs, k), cfg(k), now)
  }

  ghost predicate AllSound(store: Store, logs: Logs, cfg: Config, now: real) {
    forall k :: Keeps(store, logs, cfg, now, k)
  }

  /** The entry of the rule is in the current window. */
  ghost predicate Ready(store: Store, logs: Logs, r: Rule, now: real) {
    && r.period >= 0 && r.key in store && r.key in logs
    && Holds(store[r.key], logs[r.key], r, Index(store[r.key].anchor, r.period, now))
  }

  ghost predicate SameAt(store: Store, logs: Logs, store': Store, logs': Logs, k: string) {
    Get(store, k) == Get(store', k) && Get(logs, k) == Get(logs', k)
  }

  lemma {:induction false} UpdateSound(store: Store, logs: Logs, cfg: Config, now: real, k: string, e: Entry, l: Log)
    requires AllSound(store, logs, cfg, now) && cfg(k).period >= 0
    requires Holds(e, l, cfg(k), Index(e.anchor, cfg(k).period, now))
    ensures AllSound(store[k := e], logs[k := l], cfg, now)
  {
    hide Index, Holds;
    assert 0 <= Index(e.anchor, cfg(k).period, now) by { IndexMonotone(e.anchor, cfg(k).period, now, now); }
    var s', l' := store[k := e], logs[k := l];
    forall j ensures Keeps(s', l', cfg, now, j) {
      assert Keeps(store, logs, cfg, now, j);
    }
  }

  /** An entry that is in the current window stays as it is. */
  lemma {:induction false} ReadyStays(store: Store, logs: Logs, r: Rule, now: real)
    requires Ready(store, logs, r, now)
    ensures Touch(Get(store, r.key), r, now) == store[r.key] && See(LogOf(logs, r.key), now) == logs[r.key]
  {
    hide Index, Start, CallsIn, UsageIn;
  }

  lemma {:induction false} CheckSound(store: Store, logs: Logs, rules: seq<Rule>, cfg: Config, now: real)
    requires AllSound(store, logs, cfg, now) && Consistent(rules, cfg)
    ensures var (s', v), (l', v') := Check(store, rules, now), CheckLogs(logs, rules, now);
            && v == v' && AllSound(s', l', cfg, now)
            && (v.Pass? ==> forall i :: 0 <= i < |rules| ==> Ready(s', l', rules[i], now))
            && (forall r: Rule :: r == cfg(r.key) && Ready(store, logs, r, now) ==> SameAt(store, logs, s', l', r.key))
    decreases |rules|
  {
    if rules != [] && rules[0].period >= 0 {
      hide Index, Holds, AllSound, Start, Touch, UsedUp;
      var r := rules[0];
      var e, l := Touch(Get(store, r.key), r, now), See(LogOf(logs, r.key), now);
      assert Keeps(store, logs, cfg, now, r.key) by { SoundAt(store, logs, cfg, now, r.key); }
      TouchHolds(Get(store, r.key), LogOf(logs, r.key), r, now);
      UsedUpExceeded(e, l, r, now);
      UpdateSound(store, logs, cfg, now, r.key, e, l);
      var s1, l1 := store[r.key := e], logs[r.key := l];
      assert Ready(s1, l1, r, now);
      forall q: Rule | q == cfg(q.key) && Ready(store, logs, q, now)
        ensures Ready(s1, l1, q, now) && SameAt(store, logs, s1, l1, q.key) {
        ReadyStays(store, logs, q, now);
      }
      if !Exceeded(e, r) {
        CheckSound(s1, l1, rules[1..], cfg, now);
        var s', l' := Check(s1, rules[1..], now).0, CheckLogs(l1, rules[1..], now).0;
        if Check(store, rules, now).1.Pass? {
          forall i | 0 <= i < |rules| ensures Ready(s', l', rules[i], now) {
            if i > 0 {
              assert rules[i] == rules[1..][i - 1];
            } else {
              assert SameAt(s1, l1, s', l', r.key);
              assert s'[r.key] == e && l'[r.key] == l;
            }
          }
        }
        forall q: Rule | q == cfg(q.key) && Ready(store, logs, q, now) ensures SameAt(store, logs, s', l', q.key) {
          assert SameAt(s1, l1, s', l', q.key);
        }
      }
    }
  }

  lemma {:induction false} SoundAt(store: Store, logs: Logs, cfg: Config, now: real, k: string)
    requires AllSound(store, logs, cfg, now)
    ensures Keeps(store, logs, cfg, now, k) && Sound(Get(store, k), LogOf(logs, k), cfg(k), now)
  {
  }

  lemma {:induction false} UsedUpExceeded(e: Entry, l: Log, r: Rule, now: real)
    requires r.period >= 0 && Holds(e, l, r, Index(e.anchor, r.period, now))
    ensures Exceeded(e, r) <==> UsedUp(l, r, now)
  {
  }

  // ----- Charging -----

  lemma {:induction false} ChargeOne(e: Entry, l: Log, r: Rule, now: real)
    requires r.period >= 0 && Holds(e, l, r, Index(e.anchor, r.period, now))
    ensures Holds(e.(count := e.count + 1), l.(calls := l.calls + [now]), r, Index(e.anchor, r.period, now))
  {
    hide Index, UsageIn;
    var calls := l.calls + [now];
    assert calls[..|l.calls|] == l.calls;
  }

  lemma {:induction false} ReportOne(e: Entry, l: Log, r: Rule, now: real, kilobytes: nat)
    requires r.period >= 0 && Holds(e, l, r, Index(e.anchor, r.period, now))
    ensures Holds(e.(bandwidth := e.bandwidth + kilobytes), l.(usage := l.usage + [(now, kilobytes)]), r,
                  Index(e.anchor, r.period, now))
  {
    hide Index, CallsIn;
    var usage := l.usage + [(now, kilobytes)];
    assert usage[..|l.usage|] == l.usage;
  }

  lemma {:induction false} ReadyIs(store: Store, logs: Logs, r: Rule, now: real)
    requires Ready(store, logs, r, now)
    ensures r.period >= 0 && r.key in store && r.key in logs
    ensures Holds(store[r.key], logs[r.key], r, Index(store[r.key].anchor, r.period, now))
  {
  }

  /** Charging one rule leaves the entries of all rules in their current windows. */
  lemma {:induction false} ReadyAfter(store: Store, logs: Logs, r: Rule, q: Rule, now: real)
    requires Ready(store, logs, r, now) && Ready(store, logs, q, now) && (q.key == r.key ==> q == r)
    ensures Ready(store[r.key := store[r.key].(count := store[r.key].count + 1)],
                  logs[r.key := logs[r.key].(calls := logs[r.key].calls + [now])], q, now)
  {
    hide Index, Holds;
    ChargeOne(store[r.key], logs[r.key], r, now);
  }

  /** One rule's share of the charging. */
  lemma {:induction false} ChargeFirst(store: Store, logs: Logs, rules: seq<Rule>, cfg: Config, now: real) returns (s': Store, l': Logs)
    requires AllSound(store, logs, cfg, now) && rules != [] && rules[0] == cfg(rules[0].key) && Ready(store, logs, rules[0], now)
    ensures AllSound(s', l', cfg, now)
    ensures Charge(store, rules) == Charge(s', rules[1..]) && AdmitLogs(logs, rules, now) == AdmitLogs(l', rules[1..], now)
    ensures forall q: Rule :: q == cfg(q.key) && Ready(store, logs, q, now) ==> Ready(s', l', q, now)
  {
    hide Index, Holds, AllSound, Ready;
    var r := rules[0];
    ReadyIs(store, logs, r, now);
    s', l' := store, logs;
    if r.calls.Some? {
      var k := r.key;
      var e, l := store[k], logs[k];
      ChargeOne(e, l, r, now);
      s', l' := store[k := e.(count := e.count + 1)], logs[k := l.(calls := l.calls + [now])];
      UpdateSound(store, logs, cfg, now, k, s'[k], l'[k]);
      forall q: Rule | q == cfg(q.key) && Ready(store, logs, q, now) ensures Ready(s', l', q, now) {
        ReadyAfter(store, logs, r, q, now);
      }
    }
  }

  lemma {:induction false} ChargeSound(store: Store, logs: Logs, rules: seq<Rule>, cfg: Config, now: real)
    requires AllSound(store, logs, cfg, now) && Consistent(rules, cfg)
    requires forall i :: 0 <= i < |rules| ==> Ready(store, logs, rules[i], now)
    ensures AllSound(Charge(store, rules), AdmitLogs(logs, rules, now), cfg, now)
    decreases |rules|
  {
    hide AllSound, Ready;
    if rules != [] {
      var s', l' := ChargeFirst(store, logs, rules, cfg, now);
      assert forall i :: 0 <= i < |rules[1..]| ==> rules[1..][i] == rules[i + 1];
      ChargeSound(s', l', rules[1..], cfg, now);
    }
  }

  // ----- Runs -----

  ghost predicate ClockRuns(ops: seq<Op>, cfg: Config, now: real) {
    && (forall i, j :: 0 <= i < j < |ops| ==> ops[i].now <= ops[j].now)
    && (forall i :: 0 <= i < |ops| ==> ops[i].now <= now && Consistent(if ops[i].Call? then ops[i].rules else [ops[i].rule], cfg))
  }

  lemma {:induction false} LaterSound(store: Store, logs: Logs, cfg: Config, now: real, later: real)
    requires AllSound(store, logs, cfg, now) && now <= later
    ensures AllSound(store, logs, cfg, later)
  {
    hide Index, Holds;
    forall k ensures Keeps(store, logs, cfg, later, k) {
      assert Keeps(store, logs, cfg, now, k);
      var e := Get(store, k);
      if e.Some? {
        IndexMonotone(e.value.anchor, cfg(k).period, now, later);
      }
    }
  }

  lemma {:induction false} StepSound(store: Store, logs: Logs, op: Op, cfg: Config)
    requires AllSound(store, logs, cfg, op.now)
    requires Consistent(if op.Call? then op.rules else [op.rule], cfg)
    ensures AllSound(StepStore(store, op), StepLogs(logs, op), cfg, op.now)
  {
    hide AllSound, Check, CheckLogs, Charge, AdmitLogs, Holds, Index, Start;
    match op
    case Call(rules, now) =>
      CheckSound(store, logs, rules, cfg, now);
      if Check(store, rules, now).1.Pass? {
        ChargeSound(Check(store, rules, now).0, CheckLogs(logs, rules, now).0, rules, cfg, now);
      }
    case Done(r, now, kilobytes) =>
      assert r == cfg(r.key) by { assert [r][0] == r; }
      if r.period >= 0 {
        SoundAt(store, logs, cfg, now, r.key);
        TouchHolds(Get(store, r.key), LogOf(logs, r.key), r, now);
        var e, l := Touch(Get(store, r.key), r, now), See(LogOf(logs, r.key), now);
        ReportOne(e, l, r, now, kilobytes);
        UpdateSound(store, logs, cfg, now, r.key, e.(bandwidth := e.bandwidth + kilobytes),
                    l.(usage := l.usage + [(now, kilobytes)]));
      }
  }

  lemma {:induction false} RunSound(ops: seq<Op>, cfg: Config, now: real)
    requires ClockRuns(ops, cfg, now)
    ensures AllSound(RunStore(ops), RunLogs(ops), cfg, now)
  {
    hide AllSound, StepStore, StepLogs;
    if ops == [] {
      EmptySound(cfg, now);
    } else {
      var n := |ops| - 1;
      RunSound(ops[..n], cfg, ops[n].now);
      StepSound(RunStore(ops[..n]), RunLogs(ops[..n]), ops[n], cfg);
      LaterSound(RunStore(ops), RunLogs(ops), cfg, ops[n].now, now);
    }
  }

  lemma {:induction false} EmptySound(cfg: Config, now: real)
    ensures AllSound(map[], map[], cfg, now)
  {
  }

  /** A call is decided by the stored counts as it would be by the complete logs. */
  lemma {:induction false} DecidesAsLog(ops: seq<Op>, cfg: Config, rules: seq<Rule>, now: real)
    requires ClockRuns(ops, cfg, now) && Consistent(rules, cfg)
    ensures Apply(RunStore(ops), rules, now).1 == CheckLogs(RunLogs(ops), rules, now).1
  {
    hide AllSound, Check, CheckLogs;
    RunSound(ops, cfg, now);
    CheckSound(RunStore(ops), RunLogs(ops), rules, cfg, now);
  }

  // ----- Every window is within its limit -----

  /** `n` calls at one time. */
  function Calls(now: real, n: nat): (r: seq<real>)
    ensures |r| == n && forall i :: 0 <= i < n ==> r[i] == now
  {
    seq(n, _ => now)
  }

  /** Checking the rules changes no calls of a key, and uses the keys it passes. */
  lemma {:induction false} CheckLogsAt(logs: Logs, rules: seq<Rule>, cfg: Config, now: real, key: string)
    requires Consistent(rules, cfg)
    ensures var (after, v) := CheckLogs(logs, rules, now);
            var l, l' := LogOf(logs, key), LogOf(after, key);
            && (l' == l || l' == See(l, now)) && (key in logs ==> key in after)
            && (v.Pass? && CallsFor(rules, key) > 0 ==> key in after && l'.seen.Some? && cfg(key).period >= 0 && cfg(key).calls.Some?)
    decreases |rules|
  {
    hide UsedUp;
    if rules != [] && rules[0].period >= 0 {
      var r := rules[0];
      var l := See(LogOf(logs, r.key), now);
      if !UsedUp(l, r, now) {
        CheckLogsAt(logs[r.key := l], rules[1..], cfg, now, key);
      }
    }
  }

  lemma {:induction false} AdmitLogsAt(logs: Logs, rules: seq<Rule>, now: real, key: string)
    ensures key !in logs ==> LogOf(AdmitLogs(logs, rules, now), key) == NOTHING
    ensures key in logs ==>
              LogOf(AdmitLogs(logs, rules, now), key) == logs[key].(calls := logs[key].calls + Calls(now, CallsFor(rules, key)))
    decreases |rules|
  {
    if rules == [] {
      assert key in logs ==> logs[key].calls + Calls(now, 0) == logs[key].calls;
    } else {
      var k := rules[0].key;
      var charged := rules[0].calls.Some? && k in logs;
      var l' := if charged then logs[k := logs[k].(calls := logs[k].calls + [now])] else logs;
      AdmitLogsAt(l', rules[1..], now, key);
      if charged && k == key {
        var n := CallsFor(rules[1..], key);
        assert logs[key].calls + [now] + Calls(now, n) == logs[key].calls + Calls(now, 1 + n);
      }
    }
  }

  /** How many calls the operation admits under the key. */
  function Admitted(logs: Logs, op: Op, key: string): nat {
    if op.Call? && CheckLogs(logs, op.rules, op.now).1.Pass? then CallsFor(op.rules, key) else 0
  }

  /** One operation adds the calls it admits to the log of a key, which then is in use. */
  lemma {:induction false} StepLogAt(logs: Logs, op: Op, cfg: Config, key: string)
    requires Consistent(if op.Call? then op.rules else [op.rule], cfg)
    ensures var l, l', n := LogOf(logs, key), LogOf(StepLogs(logs, op), key), Admitted(logs, op, key);
            && l'.calls == l.calls + Calls(op.now, n) && (l'.seen == l.seen || l'.seen == See(l, op.now).seen)
            && (n > 0 ==> l'.seen.Some? && cfg(key).period >= 0 && cfg(key).calls.Some?)
  {
    var l, n := LogOf(logs, key), Admitted(logs, op, key);
    assert l.calls + Calls(op.now, 0) == l.calls;
    if op.Call? {
      hide CheckLogs, AdmitLogs;
      CheckLogsAt(logs, op.rules, cfg, op.now, key);
      AdmitLogsAt(CheckLogs(logs, op.rules, op.now).0, op.rules, op.now, key);
    }
  }

  lemma {:induction false} CallsInMore(calls: seq<real>, now: real, n: nat, anchor: real, period: int, i: int)
    requires period >= 0
    ensures CallsIn(calls + Calls(now, n), anchor, period, i)
         == CallsIn(calls, anchor, period, i) + if Index(anchor, period, now) == i then n else 0
    decreases n
  {
    hide Index;
    if n == 0 {
      assert calls + Calls(now, 0) == calls;
    } else {
      CallsInMore(calls, now, n - 1, anchor, period, i);
      var before, all := calls + Calls(now, n - 1), calls + Calls(now, n);
      assert all[..|all| - 1] == before && all[|all| - 1] == now;
    }
  }

  /** An admitted call leaves room for all that it counts under the key. */
  predicate FitsAt(logs: Logs, op: Op, cfg: Config, key: string) {
    var r, l, n := cfg(key), See(LogOf(logs, key), op.now), Admitted(logs, op, key);
    n > 0 && r.period >= 0 && r.calls.Some? ==>
      CallsIn(l.calls, Anchor(l, r, 0.0), r.period, Index(Anchor(l, r, 0.0), r.period, op.now)) + n <= r.calls.value
  }

  /** Every admitted call of the run did. */
  ghost predicate Fits(ops: seq<Op>, cfg: Config, key: string) {
    ops == [] ||
    var n := |ops| - 1;
    Fits(ops[..n], cfg, key) && FitsAt(RunLogs(ops[..n]), ops[n], cfg, key)
  }

  lemma {:induction false} AtMostMore(calls: seq<real>, now: real, n: nat, anchor: real, period: int, most: int)
    requires period >= 0 && n > 0
    ensures AtMost(calls + Calls(now, n), anchor, period, most)
       <==> AtMost(calls, anchor, period, most) && CallsIn(calls, anchor, period, Index(anchor, period, now)) + n <= most
  {
    hide Index, CallsIn;
    var all := calls + Calls(now, n);
    forall i ensures CallsIn(all, anchor, period, i)
      == CallsIn(calls, anchor, period, i) + if Index(anchor, period, now) == i then n else 0 {
      CallsInMore(calls, now, n, anchor, period, i);
    }
  }

  /** No call is in no window too often, wherever the windows start. */
  lemma {:induction false} AtMostNothing(anchor: real, period: int, most: nat)
    requires period >= 0
    ensures AtMost([], anchor, period, most)
  {
  }

  lemma {:induction false} StepWithin(logs: Logs, op: Op, cfg: Config, key: string)
    requires Consistent(if op.Call? then op.rules else [op.rule], cfg)
    requires var l := LogOf(logs, key); l.seen.None? ==> l.calls == []
    ensures Within(LogOf(StepLogs(logs, op), key), cfg(key)) <==> Within(LogOf(logs, key), cfg(key)) && FitsAt(logs, op, cfg, key)
  {
    hide Index, StepLogs, Admitted, AtMost, CallsIn;
    var r, l, l', n := cfg(key), LogOf(logs, key), LogOf(StepLogs(logs, op), key), Admitted(logs, op, key);
    StepLogAt(logs, op, cfg, key);
    assert l.calls + Calls(op.now, 0) == l.calls;
    if r.period >= 0 && r.calls.Some? {
      var anchor, most := Anchor(l', r, 0.0), Most(r.calls.value);
      if l.seen.None? {
        AtMostNothing(anchor, r.period, most);
        AtMostNothing(Anchor(l, r, 0.0), r.period, most);
      }
      if n > 0 {
        assert anchor == Anchor(See(l, op.now), r, 0.0);
        AtMostMore(l.calls, op.now, n, anchor, r.period, most);
      }
    }
  }

  /**
   Over every run, no window of a key holds more than `calls` if and only if every admitted
   call left room for all the rules that count under the key. The code looks at one rule at
   a time instead.
   */
  lemma {:induction false} QuotaBoundExact(ops: seq<Op>, cfg: Config, now: real, key: string)
    requires ClockRuns(ops, cfg, now)
    ensures Within(LogOf(RunLogs(ops), key), cfg(key)) <==> Fits(ops, cfg, key)
  {
    if ops != [] {
      hide AllSound, StepLogs, Within, FitsAt;
      var n := |ops| - 1;
      QuotaBoundExact(ops[..n], cfg, now, key);
      RunSound(ops[..n], cfg, now);
      UnseenEmpty(RunStore(ops[..n]), RunLogs(ops[..n]), cfg, now, key);
      StepWithin(RunLogs(ops[..n]), ops[n], cfg, key);
    }
  }

  lemma {:induction false} UnseenEmpty(store: Store, logs: Logs, cfg: Config, now: real, key: string)
    requires AllSound(store, logs, cfg, now)
    ensures LogOf(logs, key).seen.None? ==> LogOf(logs, key).calls == []
  {
    SoundAt(store, logs, cfg, now, key);
  }

  ghost predicate DistinctKeys(rules: seq<Rule>) {
    forall i, j :: 0 <= i < j < |rules| ==> rules[i].key != rules[j].key
  }

  ghost predicate DistinctCalls(ops: seq<Op>) {
    forall i :: 0 <= i < |ops| && ops[i].Call? ==> DistinctKeys(ops[i].rules)
  }

  /** A rule that passes the check has a call left. */
  lemma {:induction false} PassLeavesOne(logs: Logs, rules: seq<Rule>, cfg: Config, now: real, key: string)
    requires Consistent(rules, cfg) && CheckLogs(logs, rules, now).1.Pass? && CallsFor(rules, key) > 0
    ensures cfg(key).period >= 0 && !UsedUp(See(LogOf(logs, key), now), cfg(key), now)
    decreases |rules|
  {
    hide UsedUp;
    var r := rules[0];
    if r.key != key || r.calls.None? {
      PassLeavesOne(logs[r.key := See(LogOf(logs, r.key), now)], rules[1..], cfg, now, key);
    }
  }

  lemma {:induction false} CountsOnce(rules: seq<Rule>, key: string)
    requires DistinctKeys(rules)
    ensures CallsFor(rules, key) <= 1
    ensures CallsFor(rules, key) > 0 ==> exists i :: 0 <= i < |rules| && rules[i].key == key
  {
    if rules != [] {
      var rest := rules[1..];
      assert DistinctKeys(rest);
      CountsOnce(rest, key);
      if CallsFor(rest, key) > 0 {
        var i :| 0 <= i < |rest| && rest[i].key == key;
        assert rules[i + 1].key == key;
      }
    }
  }

  lemma {:induction false} DistinctFitsAt(logs: Logs, op: Op, cfg: Config, key: string)
    requires op.Call? ==> Consistent(op.rules, cfg) && DistinctKeys(op.rules)
    ensures FitsAt(logs, op, cfg, key)
  {
    hide CheckLogs, CallsIn, Index, CallsFor, DistinctKeys;
    if Admitted(logs, op, key) > 0 {
      CountsOnce(op.rules, key);
      PassLeavesOne(logs, op.rules, cfg, op.now, key);
    }
  }

  /** With distinct keys a call counts at most once under each, and the check of that rule suffices. */
  lemma {:induction false} DistinctFits(ops: seq<Op>, cfg: Config, now: real, key: string)
    requires ClockRuns(ops, cfg, now) && DistinctCalls(ops)
    ensures Fits(ops, cfg, key)
  {
    if ops != [] {
      hide FitsAt, RunLogs, DistinctKeys, Consistent;
      var n := |ops| - 1;
      DistinctFits(ops[..n], cfg, now, key);
      DistinctFitsAt(RunLogs(ops[..n]), ops[n], cfg, key);
    }
  }

  /** Two rules with one key and one call left between them: a run in which both count. */
  lemma {:induction false} SharedQuotaOvershoots()
    ensures var r := Rule("k", Some(1), None, 60, None);
            LogOf(RunLogs([Call([r, r], 0.0)]), "k") == Log(Some(0.0), [0.0, 0.0], []) && CallsIn([0.0, 0.0], 0.0, 60, 0) == 2
  {
    var r := Rule("k", Some(1), None, 60, None);
    var l := Log(Some(0.0), [], []);
    assert [Call([r, r], 0.0)][..0] == [];
    assert [r, r][1..] == [r] && [r][1..] == [];
    var logs: Logs := map["k" := l];
    assert !UsedUp(l, r, 0.0) && See(l, 0.0) == l && logs["k" := l] == logs;
    assert CheckLogs(logs, [r][1..], 0.0) == (logs, Pass);
    assert CheckLogs(logs, [r], 0.0) == (logs, Pass);
    assert CheckLogs(map[], [r, r], 0.0) == (logs, Pass);
    AdmitLogsAt(logs, [r, r], 0.0, "k");
    assert CallsFor([r], "k") == 1 && CallsFor([r, r], "k") == 2;
    assert [] + Calls(0.0, 2) == [0.0, 0.0];
    assert [0.0, 0.0][..1] == [0.0] && [0.0][..0] == [];
  }

  /** Calls admitted in the closed interval from `lo` to `hi`. */
  function CallsBetween(calls: seq<real>, lo: real, hi: real): nat {
    if calls == [] then 0
    else
      var n := |calls| - 1;
      CallsBetween(calls[..n], lo, hi) + if lo <= calls[n] <= hi then 1 else 0
  }

  lemma {:induction false} TwoWindows(calls: seq<real>, anchor: real, period: int, t: real)
    requires period > 0
    ensures var i := Index(anchor, period, t);
            CallsBetween(calls, t, t + period as real) <= CallsIn(calls, anchor, period, i) + CallsIn(calls, anchor, period, i + 1)
  {
    hide Index;
    if calls != [] {
      var n := |calls| - 1;
      TwoWindows(calls[..n], anchor, period, t);
      if t <= calls[n] <= t + period as real {
        IntervalMeetsTwo(anchor, period, t, calls[n]);
      }
    }
  }

  /** A quota without a period has one window. */
  lemma {:induction false} OneWindow(calls: seq<real>, anchor: real)
    ensures CallsIn(calls, anchor, 0, 0) == |calls|
  {
    if calls != [] {
      OneWindow(calls[..|calls| - 1], anchor);
    }
  }

  /**
   Over every run whose calls have rules with distinct keys: the entry of a key holds the
   number of calls admitted in the window it was last used in, no window holds more than
   `calls`, and no interval as long as a period more than twice that. With a period of zero
   there are no more than `calls` in all.
   */
  lemma {:induction false} QuotaBounds(ops: seq<Op>, cfg: Config, now: real, key: string, t: real)
    requires ClockRuns(ops, cfg, now) && DistinctCalls(ops)
    ensures var r, l := cfg(key), LogOf(RunLogs(ops), key);
            && Sound(Get(RunStore(ops), key), l, r, now)
            && (r.period >= 0 && r.calls.Some? ==>
                  var most := Most(r.calls.value);
                  && AtMost(l.calls, Anchor(l, r, 0.0), r.period, most)
                  && (r.period > 0 ==> CallsBetween(l.calls, t, t + r.period as real) <= 2 * most)
                  && (r.period == 0 ==> |l.calls| <= most))
  {
    hide *;
    RunSound(ops, cfg, now);
    SoundAt(RunStore(ops), RunLogs(ops), cfg, now, key);
    DistinctFits(ops, cfg, now, key);
    QuotaBoundExact(ops, cfg, now, key);
    if cfg(key).period >= 0 && cfg(key).calls.Some? {
      WithinBounds(LogOf(RunLogs(ops), key), cfg(key), t);
    }
  }

  lemma {:induction false} WithinBounds(l: Log, r: Rule, t: real)
    requires Within(l, r) && r.period >= 0 && r.calls.Some?
    ensures var most := Most(r.calls.value);
            && AtMost(l.calls, Anchor(l, r, 0.0), r.period, most)
            && (r.period > 0 ==> CallsBetween(l.calls, t, t + r.period as real) <= 2 * most)
            && (r.period == 0 ==> |l.calls| <= most)
  {
    hide Index, CallsIn, CallsBetween;
    var anchor := Anchor(l, r, 0.0);
    if r.period > 0 {
      TwoWindows(l.calls, anchor, r.period, t);
      var i := Index(anchor, r.period, t);
      assert CallsIn(l.calls, anchor, r.period, i) <= Most(r.calls.value);
    } else {
      OneWindow(l.calls, anchor);
    }
  }
}
