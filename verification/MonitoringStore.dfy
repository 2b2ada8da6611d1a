/** The monitoring state of the gateway process, updated in place. */
module MonitoringStore {
  import opened Common
  import opened Monitoring

  class Monitor {
    var seconds: seq<int>
    var buckets: map<int, Counts>
    var fired: set<string>
    var alerts: seq<Alert>

    function View(): Store
      reads this
    {
      Store(seconds, buckets, fired, alerts)
    }

    ghost predicate Valid()
      reads this
    {
      |alerts| <= KEPT
    }

    constructor ()
      ensures Valid() && View() == EMPTY
    {
      seconds, buckets, fired, alerts := [], map[], {}, [];
    }

    /** `_prune_buckets` */
    method PruneBuckets(now: real)
      modifies this
      ensures View() == Prune(old(View()), now)
    {
      var cutoff := Second(now) - DAY;
      while seconds != [] && seconds[0] < cutoff
        invariant Prune(View(), now) == Prune(old(View()), now)
        decreases |seconds|
      {
        buckets := buckets - {seconds[0]};
        seconds := seconds[1..];
      }
    }

    /** `_count_window` */
    method WindowCount(m: Metric, now: real, window: nat) returns (n: nat)
      ensures n == CountWindow(View(), m, now, window)
    {
      var cutoff := Second(now) - window;
      n := 0;
      for i := 0 to |seconds|
        invariant n + SumFrom(seconds[i..], buckets, m, cutoff) == SumFrom(seconds, buckets, m, cutoff)
      {
        assert seconds[i..][1..] == seconds[i + 1..];
        if seconds[i] >= cutoff {
          n := n + Value(Count(buckets, seconds[i]), m);
        }
      }
    }

    /** One turn of the loop over the rules; the alerts are a deque that drops its oldest item when full. */
    method EvaluateRule(r: AlertRule, now: real)
      requires Valid()
      modifies this
      ensures Valid() && seconds == old(seconds) && buckets == old(buckets)
      ensures var value := CountWindow(old(View()), r.metric, now, r.window);
              var firing := Firing(value, r);
              && fired == (if firing then old(fired) + {r.id} else old(fired) - {r.id})
              && alerts == if firing != (r.id in old(fired)) then Last(old(alerts) + [Alert(r.id, StateFor(firing), value)]) else old(alerts)
    {
      hide CountWindow, Last;
      var value := WindowCount(r.metric, now, r.window);
      var firing := r.enabled && value > r.threshold;
      if firing != (r.id in fired) {
        var alert := Alert(r.id, if firing then Fired else Resolved, value);
        LastShort(alerts + [alert]);
        alerts := Last(alerts + [alert]);
      }
      fired := if firing then fired + {r.id} else fired - {r.id};
    }

    /** `evaluate` */
    method EvaluateRules(rules: seq<AlertRule>, now: real)
      requires Valid()
      modifies this
      ensures Valid() && View() == Evaluate(old(View()), rules, now)
    {
      hide Pass, SumFrom, Prune, Ids, Firing, StateFor;
      PruneFired(View(), now);
      PruneBuckets(now);
      ghost var p, appended: seq<Alert> := View(), [];
      fired := fired * Ids(rules);
      ghost var whole := Pass(fired, p, rules, now);
      assert rules[0..] == rules && p.alerts + [] == p.alerts;
      assert Last(p.alerts + []) == alerts;
      JoinedNothing(whole);
      hide Last, Joined, CountWindow;
      for i := 0 to |rules|
        invariant Valid() && seconds == p.seconds && buckets == p.buckets
        invariant alerts == Last(p.alerts + appended)
        invariant Joined(appended, Pass(fired, p, rules[i..], now)) == whole
      {
        var r := rules[i];
        PassFrom(fired, p, rules, now, i, appended);
        CountSees(View(), p, r.metric, now, r.window);
        ghost var value := CountWindow(p, r.metric, now, r.window);
        ghost var alert := Alert(r.id, StateFor(Firing(value, r)), value);
        AppendAlert(p.alerts, appended, alert);
        assert appended + [] == appended;
        if Firing(value, r) != (r.id in fired) {
          appended := appended + [alert];
        }
        EvaluateRule(r, now);
      }
      PassEnd(fired, p, rules, now, appended);
    }

    /** `record`, as far as metrics and alerts go. */
    method RecordRequest(path: string, at: real, status: int, rules: seq<AlertRule>, now: real)
      requires Valid()
      modifies this
      ensures Valid() && View() == Step(old(View()), Record(path, at, status, rules, now))
    {
      if StartsWith(path, "/apim/") {
        return;
      }
      if path in {"/", "/docs", "/redoc", "/openapi.json"} {
        return;
      }
      var second := Second(at);
      if second !in buckets {
        buckets := buckets[second := Counts(0, 0)];
        seconds := seconds + [second];
      }
      var c := buckets[second];
      buckets := buckets[second := Counts(c.requests + 1, c.failed + if status >= 400 then 1 else 0)];
      assert View() == Bump(old(View()), at, status);
      EvaluateRules(rules, now);
    }
  }

  ghost function Joined(appended: seq<Alert>, pass: (seq<Alert>, set<string>)): (seq<Alert>, set<string>) {
    (appended + pass.0, pass.1)
  }

  /** One turn of the loop over the rules. */
  lemma {:induction false} PassFrom(fired: set<string>, s: Store, rules: seq<AlertRule>, now: real, i: nat, appended: seq<Alert>)
    requires i < |rules|
    ensures var r := rules[i];
            var value := CountWindow(s, r.metric, now, r.window);
            var firing := Firing(value, r);
            var fired' := if firing then fired + {r.id} else fired - {r.id};
            var more := if firing != (r.id in fired) then [Alert(r.id, StateFor(firing), value)] else [];
            Joined(appended, Pass(fired, s, rules[i..], now)) == Joined(appended + more, Pass(fired', s, rules[i + 1..], now))
  {
    hide CountWindow;
    assert rules[i..][0] == rules[i] && rules[i..][1..] == rules[i + 1..];
    var r := rules[i];
    var value := CountWindow(s, r.metric, now, r.window);
    var firing := Firing(value, r);
    var fired' := if firing then fired + {r.id} else fired - {r.id};
    var more := if firing != (r.id in fired) then [Alert(r.id, StateFor(firing), value)] else [];
    Regroup(appended, more, Pass(fired', s, rules[i + 1..], now).0);
  }

  lemma {:induction false} AppendAlert(before: seq<Alert>, appended: seq<Alert>, alert: Alert)
    ensures Last(Last(before + appended) + [alert]) == Last(before + (appended + [alert]))
  {
    LastTwice(before + appended, [alert]);
    Regroup(before, appended, [alert]);
  }

  lemma {:induction false} LastShort(all: seq<Alert>)
    ensures |Last(all)| <= KEPT
  {
  }

  lemma {:induction false} JoinedNothing(pass: (seq<Alert>, set<string>))
    ensures Joined([], pass) == pass
  {
    assert [] + pass.0 == pass.0;
  }

  /** A count looks at the buckets alone. */
  lemma {:induction false} CountSees(s: Store, s': Store, m: Metric, now: real, window: nat)
    requires s.seconds == s'.seconds && s.buckets == s'.buckets
    ensures CountWindow(s, m, now, window) == CountWindow(s', m, now, window)
  {
  }

  lemma {:induction false} PassEnd(fired: set<string>, s: Store, rules: seq<AlertRule>, now: real, appended: seq<Alert>)
    ensures Joined(appended, Pass(fired, s, rules[|rules|..], now)) == (appended, fired)
  {
    assert appended + [] == appended;
  }
}
