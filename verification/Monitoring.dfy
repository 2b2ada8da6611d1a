/**
 Request metrics in one-second buckets, pruned after a day, and alert rules evaluated over
 trailing windows of them.
 */
module Monitoring {
  import opened Common

  /** The longest window a rule may have, in seconds. */
  const DAY := 86400

  /** How many alerts are kept. */
  const KEPT := 1000

  datatype Counts = Counts(requests: nat, failed: nat)

  datatype Metric = Requests | FailedRequests

  datatype AlertRule = AlertRule(id: string, metric: Metric, threshold: nat, window: nat, enabled: bool)

  datatype AlertState = Fired | Resolved

  datatype Alert = Alert(id: string, state: AlertState, value: nat)

  datatype Store = Store(seconds: seq<int>, buckets: map<int, Counts>, fired: set<string>, alerts: seq<Alert>)

  /** Python's `int` of a time: the whole second it lies in, counted towards zero. */
  function Second(t: real): (s: int)
    ensures t >= 0.0 ==> s as real <= t < (s + 1) as real
    ensures t < 0.0 ==> (s - 1) as real < t <= s as real
  {
    if t >= 0.0 then t.Floor else -((-t).Floor)
  }

  function Value(c: Counts, m: Metric): nat {
    if m.Requests? then c.requests else c.failed
  }

  // ----- Buckets -----

  /** `_prune_buckets` */
  function Prune(s: Store, now: real): Store
    decreases |s.seconds|
  {
    if s.seconds != [] && s.seconds[0] < Second(now) - DAY
    then Prune(s.(seconds := s.seconds[1..], buckets := s.buckets - {s.seconds[0]}), now) else s
  }

  function Count(buckets: map<int, Counts>, second: int): Counts {
    if second in buckets then buckets[second] else Counts(0, 0)
  }

  /** `_count_window`, over the buckets from second `cutoff` on. */
  function SumFrom(seconds: seq<int>, buckets: map<int, Counts>, m: Metric, cutoff: int): nat {
    if seconds == [] then 0
    else (if seconds[0] >= cutoff then Value(Count(buckets, seconds[0]), m) else 0) + SumFrom(seconds[1..], buckets, m, cutoff)
  }

  function CountWindow(s: Store, m: Metric, now: real, window: nat): nat {
    SumFrom(s.seconds, s.buckets, m, Second(now) - window)
  }

  /** The requests that count: not the management plane and not the documentation pages. */
  predicate Counted(path: string) {
    !StartsWith(path, "/apim/") && path !in {"/", "/docs", "/redoc", "/openapi.json"}
  }

  lemma {:induction false} CountedExamples()
    ensures !Counted("/") && !Counted("/docs") && !Counted("/redoc") && !Counted("/openapi.json") && !Counted("/apim/health")
    ensures Counted("/orders") && Counted("/apim") && Counted("/docs/a") && Counted("")
  {
    assert "/apim/health"[..6] == "/apim/";
    assert "/orders"[..6][1] == 'o' && "/docs/a"[..6][1] == 'd';
    assert "/docs/a"[5] == '/' && |"/docs/a"| == 7 && |"/orders"| == 7 && |"/apim"| == 5;
    assert "/apim"[1] == 'a' && "/docs"[1] == 'd' && "/apim" != "/docs" && |"/redoc"| == 6;
  }

  /** The bucket part of `record`. */
  function Bump(s: Store, at: real, status: int): Store {
    var second := Second(at);
    var c := Count(s.buckets, second);
    s.(seconds := if second in s.buckets then s.seconds else s.seconds + [second],
       buckets := s.buckets[second := Counts(c.requests + 1, c.failed + if status >= 400 then 1 else 0)])
  }

  // ----- Alerts -----

  /** A deque that keeps the last `KEPT` items. */
  function Last(alerts: seq<Alert>): seq<Alert> {
    if |alerts| <= KEPT then alerts else alerts[|alerts| - KEPT..]
  }

  function StateFor(firing: bool): AlertState {
    if firing then Fired else Resolved
  }

  predicate Firing(value: nat, r: AlertRule) {
    r.enabled && value > r.threshold
  }

  function Ids(rules: seq<AlertRule>): (r: set<string>)
    ensures forall x :: x in r <==> exists i :: 0 <= i < |rules| && rules[i].id == x
  {
    set i | 0 <= i < |rules| :: rules[i].id
  }

  /** The alerts one pass over the rules appends, and the rules that fire after it. */
  function Pass(fired: set<string>, s: Store, rules: seq<AlertRule>, now: real): (seq<Alert>, set<string>)
    decreases |rules|
  {
    if rules == [] then ([], fired)
    else
      var r := rules[0];
      var value := CountWindow(s, r.metric, now, r.window);
      var firing := Firing(value, r);
      var new' := if firing != (r.id in fired) then [Alert(r.id, StateFor(firing), value)] else [];
      var (rest, after) := Pass(if firing then fired + {r.id} else fired - {r.id}, s, rules[1..], now);
      (new' + rest, after)
  }

  function Appended(s: Store, rules: seq<AlertRule>, now: real): seq<Alert> {
    var p := Prune(s, now);
    Pass(p.fired * Ids(rules), p, rules, now).0
  }

  /** `evaluate` */
  function Evaluate(s: Store, rules: seq<AlertRule>, now: real): Store {
    var p := Prune(s, now);
    var (more, fired) := Pass(p.fired * Ids(rules), p, rules, now);
    p.(fired := fired, alerts := Last(p.alerts + more))
  }

  // ----- Runs -----

  /** A request is recorded and the rules evaluated right after, or they are only evaluated. */
  datatype Op =
    | Record(path: string, at: real, status: int, rules: seq<AlertRule>, now: real)
    | Check(rules: seq<AlertRule>, now: real)

  const EMPTY := Store([], map[], {}, [])

  function Before(s: Store, op: Op): Store {
    if op.Record? && Counted(op.path) then Bump(s, op.at, op.status) else s
  }

  /** A request that does not count is not followed by an evaluation. */
  predicate Evaluates(op: Op) {
    op.Check? || Counted(op.path)
  }

  function Step(s: Store, op: Op): Store {
    if Evaluates(op) then Evaluate(Before(s, op), op.rules, op.now) else s
  }

  function Run(ops: seq<Op>): Store {
    if ops == [] then EMPTY else Step(Run(ops[..|ops| - 1]), ops[|ops| - 1])
  }

  datatype Event = Event(at: real, status: int)

  /** Every request that counted. */
  function Log(ops: seq<Op>): seq<Event> {
    if ops == [] then []
    else
      var n := |ops| - 1;
      Log(ops[..n]) + Logged(ops[n])
  }

  function Logged(op: Op): seq<Event> {
    if op.Record? && Counted(op.path) then [Event(op.at, op.status)] else []
  }

  /** An event at `at` is in the window of so many seconds that ends with the second of `now`. */
  predicate InWindow(at: real, now: real, window: nat) {
    if at >= 0.0 && now >= 0.0 then at >= (now.Floor - window) as real else Second(at) >= Second(now) - window
  }

  /** The requests of the log in a window, by their times. */
  function LogWindow(log: seq<Event>, m: Metric, now: real, window: nat): nat {
    if log == [] then 0
    else
      var n := |log| - 1;
      LogWindow(log[..n], m, now, window) + if InWindow(log[n].at, now, window) && (m.Requests? || log[n].status >= 400) then 1 else 0
  }

  lemma {:induction false} WindowIsFrom(log: seq<Event>, m: Metric, now: real, window: nat)
    ensures LogWindow(log, m, now, window) == LogFrom(log, m, Second(now) - window)
  {
    if log != [] {
      WindowIsFrom(log[..|log| - 1], m, now, window);
    }
  }

  /** The requests of the log from second `cutoff` on. */
  function LogFrom(log: seq<Event>, m: Metric, cutoff: int): nat {
    if log == [] then 0
    else
      var n := |log| - 1;
      LogFrom(log[..n], m, cutoff) + if Second(log[n].at) >= cutoff && (m.Requests? || log[n].status >= 400) then 1 else 0
  }

  ghost predicate ClockRuns(ops: seq<Op>, now: real) {
    && (forall i :: 0 <= i < |ops| && ops[i].Record? ==> ops[i].at <= ops[i].now)
    && (forall i, j :: 0 <= i < j < |ops| ==> ops[i].now <= Start(ops[j]))
    && (forall i :: 0 <= i < |ops| ==> ops[i].now <= now)
  }

  function Start(op: Op): real {
    if op.Record? then op.at else op.now
  }

  // ----- The pruned buckets count as the complete log does -----

  lemma {:induction false} SecondMonotone(t: real, t': real)
    requires t <= t'
    ensures Second(t) <= Second(t')
  {
  }

  ghost predicate Increasing(seconds: seq<int>) {
    forall i, j :: 0 <= i < j < |seconds| ==> seconds[i] < seconds[j]
  }

  /** The bucket list is in order, and no window that can still be asked for is missing anything. */
  ghost predicate Faithful(s: Store, log: seq<Event>, now: real) {
    && Increasing(s.seconds)
    && (forall x :: x in s.seconds <==> x in s.buckets)
    && (forall x :: x in s.seconds ==> x <= Second(now))
    && forall m, cutoff :: cutoff >= Second(now) - DAY ==> SumFrom(s.seconds, s.buckets, m, cutoff) == LogFrom(log, m, cutoff)
  }

  lemma {:induction false} SumSame(seconds: seq<int>, b: map<int, Counts>, b': map<int, Counts>, m: Metric, cutoff: int)
    requires forall x :: x in seconds && x >= cutoff ==> Count(b, x) == Count(b', x)
    ensures SumFrom(seconds, b, m, cutoff) == SumFrom(seconds, b', m, cutoff)
  {
    if seconds != [] {
      SumSame(seconds[1..], b, b', m, cutoff);
    }
  }

  lemma {:induction false} SumAppend(a: seq<int>, c: seq<int>, b: map<int, Counts>, m: Metric, cutoff: int)
    ensures SumFrom(a + c, b, m, cutoff) == SumFrom(a, b, m, cutoff) + SumFrom(c, b, m, cutoff)
  {
    if a == [] {
      assert a + c == c;
    } else {
      assert (a + c)[1..] == a[1..] + c;
      SumAppend(a[1..], c, b, m, cutoff);
    }
  }

  lemma {:induction false} PruneKeeps(s: Store, log: seq<Event>, now: real)
    requires Faithful(s, log, now)
    ensures Faithful(Prune(s, now), log, now)
    ensures Prune(s, now).fired == s.fired && Prune(s, now).alerts == s.alerts
    decreases |s.seconds|
  {
    if s.seconds != [] && s.seconds[0] < Second(now) - DAY {
      var first, rest := s.seconds[0], s.seconds[1..];
      var p := s.(seconds := rest, buckets := s.buckets - {first});
      assert forall x :: x in rest ==> x in s.seconds && x != first by {
        assert forall i :: 0 <= i < |rest| ==> rest[i] == s.seconds[i + 1];
      }
      forall m, cutoff | cutoff >= Second(now) - DAY
        ensures SumFrom(rest, p.buckets, m, cutoff) == LogFrom(log, m, cutoff) {
        SumSame(rest, s.buckets, p.buckets, m, cutoff);
        assert SumFrom(s.seconds, s.buckets, m, cutoff) == LogFrom(log, m, cutoff);
      }
      PruneKeeps(p, log, now);
    }
  }

  /** What pruning keeps is at most a day old. */
  lemma {:induction false} PruneForgets(s: Store, now: real)
    requires Increasing(s.seconds)
    ensures forall x :: x in Prune(s, now).seconds ==> Second(now) - 86400 <= x
    decreases |s.seconds|
  {
    if s.seconds != [] && s.seconds[0] < Second(now) - DAY {
      PruneForgets(s.(seconds := s.seconds[1..], buckets := s.buckets - {s.seconds[0]}), now);
    } else {
      assert forall i :: 0 <= i < |s.seconds| ==> s.seconds[0] <= s.seconds[i];
    }
  }

  lemma {:induction false} LaterFaithful(s: Store, log: seq<Event>, now: real, later: real)
    requires Faithful(s, log, now) && now <= later
    ensures Faithful(s, log, later)
  {
    SecondMonotone(now, later);
  }

  lemma {:induction false} GreatestIsLast(seconds: seq<int>, x: int)
    requires Increasing(seconds) && x in seconds && forall y :: y in seconds ==> y <= x
    ensures var n := |seconds| - 1; seconds == seconds[..n] + [x] && x !in seconds[..n]
  {
    var n := |seconds| - 1;
    var i :| 0 <= i < |seconds| && seconds[i] == x;
    assert seconds[n] in seconds;
    assert i == n;
  }

  /** Adding to the newest bucket adds to every window that reaches it. */
  lemma {:induction false} BumpSum(s: Store, at: real, status: int, m: Metric, cutoff: int)
    requires Increasing(s.seconds) && (forall x :: x in s.seconds <==> x in s.buckets)
    requires forall x :: x in s.seconds ==> x <= Second(at)
    ensures var b, hit := Bump(s, at, status), Second(at) >= cutoff && (m.Requests? || status >= 400);
            SumFrom(b.seconds, b.buckets, m, cutoff) == SumFrom(s.seconds, s.buckets, m, cutoff) + if hit then 1 else 0
  {
    var b, second := Bump(s, at, status), Second(at);
    var old' := if second in s.buckets then s.seconds[..|s.seconds| - 1] else s.seconds;
    if second in s.buckets {
      GreatestIsLast(s.seconds, second);
    }
    SumSame(old', s.buckets, b.buckets, m, cutoff);
    SumAppend(old', [second], b.buckets, m, cutoff);
    SumAppend(old', [second], s.buckets, m, cutoff);
    assert [second][1..] == [];
  }

  lemma {:induction false} BumpKeeps(s: Store, log: seq<Event>, at: real, status: int)
    requires Faithful(s, log, at)
    ensures Faithful(Bump(s, at, status), log + [Event(at, status)], at)
  {
    var b, log' := Bump(s, at, status), log + [Event(at, status)];
    assert log'[..|log|] == log;
    assert Increasing(b.seconds) by {
      assert forall i :: 0 <= i < |s.seconds| ==> s.seconds[i] in s.seconds;
    }
    forall m, cutoff | cutoff >= Second(at) - DAY
      ensures SumFrom(b.seconds, b.buckets, m, cutoff) == LogFrom(log', m, cutoff) {
      BumpSum(s, at, status, m, cutoff);
    }
  }

  lemma {:induction false} EvaluateKeeps(s: Store, log: seq<Event>, rules: seq<AlertRule>, now: real)
    requires Faithful(s, log, now)
    ensures Faithful(Evaluate(s, rules, now), log, now)
  {
    hide SumFrom, Pass, Prune, Second;
    PruneKeeps(s, log, now);
  }

  /** The buckets that an operation evaluates its rules on. */
  lemma {:induction false} BeforeKeeps(s: Store, log: seq<Event>, op: Op)
    requires Faithful(s, log, Start(op)) && Start(op) <= op.now
    ensures Faithful(Before(s, op), log + Logged(op), op.now)
  {
    hide Faithful, Bump, Second;
    if op.Record? && Counted(op.path) {
      BumpKeeps(s, log, op.at, op.status);
      LaterFaithful(Bump(s, op.at, op.status), log + Logged(op), op.at, op.now);
    } else {
      assert log + [] == log;
      LaterFaithful(s, log, Start(op), op.now);
    }
  }

  lemma {:induction false} StepKeeps(s: Store, log: seq<Event>, op: Op)
    requires Faithful(s, log, Start(op)) && Start(op) <= op.now
    ensures Faithful(Step(s, op), log + Logged(op), op.now)
  {
    hide Faithful, Evaluate, Bump;
    BeforeKeeps(s, log, op);
    if Evaluates(op) {
      EvaluateKeeps(Before(s, op), log + Logged(op), op.rules, op.now);
    }
  }

  lemma {:induction false} RunFaithful(ops: seq<Op>, now: real)
    requires ClockRuns(ops, now)
    ensures Faithful(Run(ops), Log(ops), now)
  {
    if ops != [] {
      hide Faithful, Step, Logged, Second;
      var n := |ops| - 1;
      RunFaithful(ops[..n], Start(ops[n]));
      StepKeeps(Run(ops[..n]), Log(ops[..n]), ops[n]);
      LaterFaithful(Run(ops), Log(ops), ops[n].now, now);
    }
  }

  /** After every run, a window of up to a day counts exactly the requests of the complete log. */
  lemma {:induction false} WindowExact(ops: seq<Op>, now: real, m: Metric, window: nat)
    requires ClockRuns(ops, now) && window <= 86400
    ensures CountWindow(Prune(Run(ops), now), m, now, window) == LogWindow(Log(ops), m, now, window)
  {
    WindowIsFrom(Log(ops), m, now, window);
    RunFaithful(ops, now);
    PruneKeeps(Run(ops), Log(ops), now);
  }

  // ----- Which rules fire -----

  ghost predicate DistinctIds(rules: seq<AlertRule>) {
    forall i, j :: 0 <= i < j < |rules| ==> rules[i].id != rules[j].id
  }

  /** The alert states of one rule, oldest first. */
  function StatesOf(alerts: seq<Alert>, id: string): seq<AlertState> {
    if alerts == [] then []
    else (if alerts[0].id == id then [alerts[0].state] else []) + StatesOf(alerts[1..], id)
  }

  lemma {:induction false} StatesAppend(a: seq<Alert>, b: seq<Alert>, id: string)
    ensures StatesOf(a + b, id) == StatesOf(a, id) + StatesOf(b, id)
  {
    if a == [] {
      assert a + b == b;
    } else {
      assert (a + b)[1..] == a[1..] + b;
      StatesAppend(a[1..], b, id);
      var first := if a[0].id == id then [a[0].state] else [];
      Regroup(first, StatesOf(a[1..], id), StatesOf(b, id));
    }
  }

  /** A pass leaves a rule it does not mention alone. */
  lemma {:induction false} PassSkips(fired: set<string>, s: Store, rules: seq<AlertRule>, now: real, id: string)
    requires forall i :: 0 <= i < |rules| ==> rules[i].id != id
    ensures var (more, after) := Pass(fired, s, rules, now);
            (id in after <==> id in fired) && StatesOf(more, id) == []
    decreases |rules|
  {
    if rules != [] {
      var r := rules[0];
      var firing := Firing(CountWindow(s, r.metric, now, r.window), r);
      var fired' := if firing then fired + {r.id} else fired - {r.id};
      PassSkips(fired', s, rules[1..], now, id);
      var first := if firing != (r.id in fired) then [Alert(r.id, StateFor(firing), CountWindow(s, r.metric, now, r.window))] else [];
      StatesAppend(first, Pass(fired', s, rules[1..], now).0, id);
    }
  }

  /** After a pass a rule fires exactly if its count is above its threshold, and a change is reported once. */
  lemma {:induction false} PassDecides(fired: set<string>, s: Store, rules: seq<AlertRule>, now: real, k: nat)
    requires DistinctIds(rules) && k < |rules|
    ensures var (more, after) := Pass(fired, s, rules, now);
            var r := rules[k];
            var firing := Firing(CountWindow(s, r.metric, now, r.window), r);
            && (r.id in after <==> firing)
            && StatesOf(more, r.id) == if firing != (r.id in fired) then [StateFor(firing)] else []
    decreases |rules|
  {
    hide CountWindow;
    var r, rest := rules[0], rules[1..];
    var value := CountWindow(s, r.metric, now, r.window);
    var firing := Firing(value, r);
    var fired' := if firing then fired + {r.id} else fired - {r.id};
    var first := if firing != (r.id in fired) then [Alert(r.id, StateFor(firing), value)] else [];
    StatesAppend(first, Pass(fired', s, rest, now).0, rules[k].id);
    assert first != [] ==> first[1..] == [];
    if k == 0 {
      PassSkips(fired', s, rest, now, r.id);
    } else {
      assert rest[k - 1] == rules[k] && r.id != rules[k].id;
      PassDecides(fired', s, rest, now, k - 1);
    }
  }

  /** Every alert of a pass is about a rule, with its count, and says if that is above the threshold of the enabled rule. */
  lemma {:induction false} PassTells(fired: set<string>, s: Store, rules: seq<AlertRule>, now: real)
    ensures forall a :: a in Pass(fired, s, rules, now).0 ==>
              exists r :: r in rules && a.id == r.id && a.value == CountWindow(s, r.metric, now, r.window)
                && (a.state == Fired <==> r.enabled && a.value > r.threshold)
    decreases |rules|
  {
    hide CountWindow;
    if rules != [] {
      var r := rules[0];
      var firing := Firing(CountWindow(s, r.metric, now, r.window), r);
      PassTells(if firing then fired + {r.id} else fired - {r.id}, s, rules[1..], now);
    }
  }

  ghost predicate Supported(rules: seq<AlertRule>) {
    DistinctIds(rules) && forall i :: 0 <= i < |rules| ==> rules[i].window <= 86400
  }

  /** The rule is above its threshold by the complete log. */
  predicate Above(log: seq<Event>, r: AlertRule, now: real) {
    r.enabled && LogWindow(log, r.metric, now, r.window) > r.threshold
  }

  /** One evaluation, on buckets that stand for the complete log. */
  lemma {:induction false} EvaluateDecides(s: Store, log: seq<Event>, rules: seq<AlertRule>, now: real, id: string)
    requires Faithful(s, log, now) && Supported(rules)
    ensures id in Evaluate(s, rules, now).fired
       <==> exists k :: 0 <= k < |rules| && rules[k].id == id && Above(log, rules[k], now)
  {
    hide Pass, Prune, LogFrom, LogWindow, SumFrom, Second, StatesOf, Ids;
    var p := Prune(s, now);
    var fired := p.fired * Ids(rules);
    PruneKeeps(s, log, now);
    if k :| 0 <= k < |rules| && rules[k].id == id {
      PassDecides(fired, p, rules, now, k);
      WindowIsFrom(log, rules[k].metric, now, rules[k].window);
      assert CountWindow(p, rules[k].metric, now, rules[k].window) == LogFrom(log, rules[k].metric, Second(now) - rules[k].window);
      assert id in Evaluate(s, rules, now).fired <==> Above(log, rules[k], now);
      assert forall j :: 0 <= j < |rules| && rules[j].id == id ==> j == k;
    } else {
      PassSkips(fired, p, rules, now, id);
    }
  }

  /**
   After every run whose last operation evaluates the rules, be it a recorded request or an
   evaluation on its own, the rules recorded as fired are exactly the enabled ones whose count
   over the complete request log, that request included, is above the threshold.
   */
  lemma {:induction false} FiredExactly(ops: seq<Op>, id: string)
    requires ops != []
    requires var last := ops[|ops| - 1]; ClockRuns(ops, last.now) && Evaluates(last) && Supported(last.rules)
    ensures var last := ops[|ops| - 1];
            id in Run(ops).fired
            <==> exists k :: 0 <= k < |last.rules| && last.rules[k].id == id && Above(Log(ops), last.rules[k], last.now)
  {
    hide Faithful, Evaluate, Above, Bump, Logged;
    var n := |ops| - 1;
    var op, s := ops[n], Run(ops[..n]);
    RunFaithful(ops[..n], Start(op));
    BeforeKeeps(s, Log(ops[..n]), op);
    EvaluateDecides(Before(s, op), Log(ops), op.rules, op.now, id);
  }

  // ----- Alerts alternate -----

  /** All alerts a run appends. */
  function AllAlerts(ops: seq<Op>): seq<Alert> {
    if ops == [] then []
    else
      var n := |ops| - 1;
      AllAlerts(ops[..n]) +
      if Evaluates(ops[n]) then Appended(Before(Run(ops[..n]), ops[n]), ops[n].rules, ops[n].now) else []
  }

  ghost predicate Configured(ops: seq<Op>, id: string) {
    forall i :: 0 <= i < |ops| && Evaluates(ops[i]) ==>
      DistinctIds(ops[i].rules) && Mentions(ops[i].rules, id)
  }

  /** Fired, Resolved, Fired, ... */
  ghost predicate Alternates(states: seq<AlertState>) {
    && (states != [] ==> states[0] == Fired)
    && forall i :: 0 < i < |states| ==> states[i] != states[i - 1]
  }

  /** The state the alerts leave the rule in. */
  function Current(states: seq<AlertState>): AlertState {
    if states == [] then Resolved else states[|states| - 1]
  }

  /** One evaluation reports at most one change of a configured rule, and only a real one. */
  lemma {:induction false} EvaluateReports(s: Store, rules: seq<AlertRule>, now: real, id: string)
    requires DistinctIds(rules) && exists k :: 0 <= k < |rules| && rules[k].id == id
    ensures var firing := id in Evaluate(s, rules, now).fired;
            StatesOf(Appended(s, rules, now), id) == if firing != (id in s.fired) then [StateFor(firing)] else []
  {
    hide Pass, Prune, CountWindow;
    var p := Prune(s, now);
    PruneFired(s, now);
    var k :| 0 <= k < |rules| && rules[k].id == id;
    PassDecides(p.fired * Ids(rules), p, rules, now, k);
  }

  // ----- Rules that leave the configuration -----

  predicate Mentions(rules: seq<AlertRule>, id: string) {
    exists k :: 0 <= k < |rules| && rules[k].id == id
  }

  ghost predicate DistinctRules(ops: seq<Op>) {
    forall i :: 0 <= i < |ops| && Evaluates(ops[i]) ==> DistinctIds(ops[i].rules)
  }

  /** An evaluation dropped the rule while it was fired, and it has not fired since. */
  ghost predicate Lost(ops: seq<Op>, id: string) {
    ops != [] &&
    var n := |ops| - 1;
    if !Evaluates(ops[n]) then Lost(ops[..n], id)
    else if !Mentions(ops[n].rules, id) then Lost(ops[..n], id) || id in Run(ops[..n]).fired
    else Lost(ops[..n], id) && id !in Run(ops).fired
  }

  /** Some evaluation fires the rule after it was lost. */
  ghost predicate Refires(ops: seq<Op>, id: string) {
    ops != [] &&
    var n := |ops| - 1;
    Refires(ops[..n], id) || (Lost(ops[..n], id) && id in Run(ops).fired)
  }

  /** A rule that is not configured is not fired after an evaluation, which reports nothing about it. */
  lemma {:induction false} EvaluateForgets(s: Store, rules: seq<AlertRule>, now: real, id: string)
    requires !Mentions(rules, id)
    ensures id !in Evaluate(s, rules, now).fired && StatesOf(Appended(s, rules, now), id) == []
  {
    hide Pass, Prune, CountWindow, StatesOf;
    var p := Prune(s, now);
    PassSkips(p.fired * Ids(rules), p, rules, now, id);
  }

  /** What one operation reports about a rule, and whether it is fired then. */
  lemma {:induction false} OpReports(ops: seq<Op>, id: string)
    requires ops != [] && (Evaluates(ops[|ops| - 1]) ==> DistinctIds(ops[|ops| - 1].rules))
    ensures var n := |ops| - 1;
            var before, firing := id in Run(ops[..n]).fired, id in Run(ops).fired;
            var changed := Evaluates(ops[n]) && Mentions(ops[n].rules, id) && firing != before;
            && StatesOf(AllAlerts(ops), id)
               == StatesOf(AllAlerts(ops[..n]), id) + (if changed then [StateFor(firing)] else [])
            && (Evaluates(ops[n]) && !Mentions(ops[n].rules, id) ==> !firing)
            && (!Evaluates(ops[n]) ==> firing == before)
  {
    hide Evaluate, Appended, StatesOf, StateFor;
    var n := |ops| - 1;
    var op, b := ops[n], Before(Run(ops[..n]), ops[n]);
    var all := AllAlerts(ops[..n]);
    if !Evaluates(op) {
      assert all + [] == all && StatesOf(all, id) + [] == StatesOf(all, id);
    } else {
      StatesAppend(all, Appended(b, op.rules, op.now), id);
      if Mentions(op.rules, id) {
        EvaluateReports(b, op.rules, op.now, id);
      } else {
        EvaluateForgets(b, op.rules, op.now, id);
      }
    }
  }

  /** While nothing refires, the last alert says if the rule is fired now or was when it was lost. */
  ghost predicate Tracks(ops: seq<Op>, id: string) {
    var states, fired := StatesOf(AllAlerts(ops), id), id in Run(ops).fired;
    && (Lost(ops, id) ==> !fired)
    && (Alternates(states) <==> !Refires(ops, id))
    && (!Refires(ops, id) ==> (Current(states) == Fired <==> fired || Lost(ops, id)))
  }

  lemma {:induction false} RunTracks(ops: seq<Op>, id: string)
    requires DistinctRules(ops)
    ensures Tracks(ops, id)
  {
    hide Run, AllAlerts, StatesOf, Alternates, Current;
    if ops == [] {
      TracksStart(id);
    } else {
      var n := |ops| - 1;
      RunTracks(ops[..n], id);
      OpReports(ops, id);
      var before := StatesOf(AllAlerts(ops[..n]), id);
      var states := StatesOf(AllAlerts(ops), id);
      if states == before + [] {
        assert states == before;
      } else {
        var next := StateFor(id in Run(ops).fired);
        assert states == before + [next];
        AlternateExactly(before, next);
      }
    }
  }

  lemma {:induction false} TracksStart(id: string)
    ensures Tracks([], id)
  {
  }

  lemma {:induction false} AlternateExactly(states: seq<AlertState>, next: AlertState)
    ensures Alternates(states + [next]) <==> Alternates(states) && next != Current(states)
    ensures Current(states + [next]) == next
  {
    var all := states + [next];
    assert forall i :: 0 <= i < |states| ==> all[i] == states[i];
    assert all[|states|] == next;
  }

  /**
   Over every run with distinct rule ids, whatever rules come and go: the alerts of a rule
   alternate, Fired first, if and only if no evaluation fires it after one dropped it while
   it was fired. An evaluation that drops a rule reports no Resolved.
   */
  lemma {:induction false} AlternateExact(ops: seq<Op>, id: string)
    requires DistinctRules(ops)
    ensures Alternates(StatesOf(AllAlerts(ops), id)) <==> !Refires(ops, id)
  {
    RunTracks(ops, id);
  }

  /** What an evaluation reports about a rule that is above its threshold. */
  lemma {:induction false} FireReports(ops: seq<Op>, rules: seq<AlertRule>, k: nat, now: real)
    requires ClockRuns(ops, now) && Supported(rules) && k < |rules| && Above(Log(ops), rules[k], now)
    ensures var all, id := ops + [Check(rules, now)], rules[k].id;
            && id in Run(all).fired && Log(all) == Log(ops)
            && StatesOf(AllAlerts(all), id) == StatesOf(AllAlerts(ops), id) + if id in Run(ops).fired then [] else [Fired]
  {
    hide Run, AllAlerts, StatesOf, Above;
    var all := ops + [Check(rules, now)];
    assert all[..|ops|] == ops;
    assert Log(all) == Log(ops) + [] == Log(ops);
    LaterClock(ops, rules, now, now);
    FiredExactly(all, rules[k].id);
    OpReports(all, rules[k].id);
  }

  /** An evaluation without a rule drops it and reports nothing about it. */
  lemma {:induction false} DropReports(ops: seq<Op>, rules: seq<AlertRule>, now: real, id: string)
    requires DistinctIds(rules) && !Mentions(rules, id)
    ensures var all := ops + [Check(rules, now)];
            id !in Run(all).fired && Log(all) == Log(ops) && StatesOf(AllAlerts(all), id) == StatesOf(AllAlerts(ops), id)
  {
    hide Run, AllAlerts, StatesOf, Mentions;
    var all := ops + [Check(rules, now)];
    assert all[..|ops|] == ops;
    OpReports(all, id);
  }

  lemma {:induction false} LaterClock(ops: seq<Op>, rules: seq<AlertRule>, now: real, later: real)
    requires ClockRuns(ops, now) && now <= later
    ensures ClockRuns(ops + [Check(rules, now)], later)
  {
  }

  /** A rule that is not fired, fires, is taken out and is put back: Fired is reported twice in a row. */
  lemma {:induction false} RemovalForgets(ops: seq<Op>, rules: seq<AlertRule>, k: nat, others: seq<AlertRule>, now: real, between: real, later: real)
    requires ClockRuns(ops, now) && now <= between <= later && Supported(rules) && k < |rules|
    requires rules[k].id !in Run(ops).fired && Above(Log(ops), rules[k], now) && Above(Log(ops), rules[k], later)
    requires DistinctIds(others) && !Mentions(others, rules[k].id)
    ensures var all := ops + [Check(rules, now)] + [Check(others, between)] + [Check(rules, later)];
            StatesOf(AllAlerts(all), rules[k].id) == StatesOf(AllAlerts(ops), rules[k].id) + [Fired, Fired]
  {
    hide *;
    var fired := ops + [Check(rules, now)];
    FireReports(ops, rules, k, now);
    LaterClock(ops, rules, now, between);
    DropReports(fired, others, between, rules[k].id);
    LaterClock(fired, others, between, later);
    FireReports(fired + [Check(others, between)], rules, k, later);
  }

  /** Such a run: one request, and a rule that fires at the first. */
  lemma {:induction false} FiredTwice()
    ensures var r := AlertRule("busy", Requests, 0, 60, true);
            var ops := [Record("/api", 0.0, 200, [], 0.0)] + [Check([r], 0.0)] + [Check([], 1.0)] + [Check([r], 2.0)];
            StatesOf(AllAlerts(ops), "busy") == [Fired, Fired]
  {
    hide Run, AllAlerts, StatesOf, Log, Above;
    RequestLogged();
    var start := [Record("/api", 0.0, 200, [], 0.0)];
    RemovalForgets(start, [AlertRule("busy", Requests, 0, 60, true)], 0, [], 0.0, 1.0, 2.0);
  }

  lemma {:induction false} RequestLogged()
    ensures var r, start := AlertRule("busy", Requests, 0, 60, true), [Record("/api", 0.0, 200, [], 0.0)];
            && Above(Log(start), r, 0.0) && Above(Log(start), r, 2.0)
            && "busy" !in Run(start).fired && StatesOf(AllAlerts(start), "busy") == []
  {
    var start := [Record("/api", 0.0, 200, [], 0.0)];
    assert start[..0] == [];
    assert Log(start) == [Event(0.0, 200)] && [Event(0.0, 200)][..0] == [];
    assert LogFrom(Log(start), Requests, -60) == 1 && LogFrom(Log(start), Requests, -58) == 1;
    OpReports(start, "busy");
    assert AllAlerts([]) == [] && StatesOf([], "busy") == [];
  }

  lemma {:induction false} NeverLost(ops: seq<Op>, id: string)
    requires Configured(ops, id)
    ensures !Lost(ops, id) && !Refires(ops, id)
  {
    if ops != [] {
      hide Run;
      var n := |ops| - 1;
      assert forall i :: 0 <= i < n ==> ops[..n][i] == ops[i];
      NeverLost(ops[..n], id);
    }
  }

  /** While a rule stays configured its alerts alternate, starting with Fired; the last one says if it is fired now. */
  lemma {:induction false} AlertsAlternate(ops: seq<Op>, id: string)
    requires Configured(ops, id)
    ensures var states := StatesOf(AllAlerts(ops), id);
            Alternates(states) && (id in Run(ops).fired <==> Current(states) == Fired)
  {
    NeverLost(ops, id);
    RunTracks(ops, id);
  }

  lemma {:induction false} PruneFired(s: Store, now: real)
    ensures Prune(s, now).fired == s.fired && Prune(s, now).alerts == s.alerts
    decreases |s.seconds|
  {
    if s.seconds != [] && s.seconds[0] < Second(now) - DAY {
      PruneFired(s.(seconds := s.seconds[1..], buckets := s.buckets - {s.seconds[0]}), now);
    }
  }

  /** The stored alerts are the last thousand appended. */
  lemma {:induction false} KeepsLastAlerts(ops: seq<Op>)
    ensures var all := AllAlerts(ops);
            Run(ops).alerts == if |all| <= 1000 then all else all[|all| - 1000..]
  {
    RunKeepsLast(ops);
  }

  lemma {:induction false} RunKeepsLast(ops: seq<Op>)
    ensures Run(ops).alerts == Last(AllAlerts(ops))
  {
    if ops != [] {
      hide Pass, Prune;
      var n := |ops| - 1;
      RunKeepsLast(ops[..n]);
      var all := AllAlerts(ops[..n]);
      if Evaluates(ops[n]) {
        var b := Before(Run(ops[..n]), ops[n]);
        PruneFired(b, ops[n].now);
        LastTwice(all, Appended(b, ops[n].rules, ops[n].now));
      } else {
        assert all + [] == all;
      }
    }
  }

  lemma {:induction false} LastTwice(a: seq<Alert>, b: seq<Alert>)
    ensures Last(Last(a) + b) == Last(a + b)
  {
  }
}
