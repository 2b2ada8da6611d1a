/**
 Fixed-window quotas on calls and bandwidth. The windows of a key follow one another from
 its anchor, which is configured or else the time of its first use; an entry holds the
 counts of the window it was last used in. A period of zero is one window without end.
 */
module QuotaWindow {
  import opened Common

  datatype Rule = Rule(key: string, calls: Option<int>, bandwidth: Option<int>, period: int, first: Option<real>)

  datatype Entry = Entry(start: Option<real>, anchor: real, count: nat, bandwidth: nat)

  type Store = map<string, Entry>

  function Get<T>(m: map<string, T>, key: string): Option<T> {
    if key in m then Some(m[key]) else None
  }

  /** The number of the window that holds `t`; times before the anchor count to the first. */
  function Index(anchor: real, period: int, t: real): int
    requires period >= 0
  {
    if period == 0 || t < anchor then 0 else ((t - anchor) / period as real).Floor
  }

  function Start(anchor: real, period: int, i: int): real {
    anchor + i as real * period as real
  }

  function AnchorOf(e: Option<Entry>, r: Rule, now: real): real {
    if r.first.Some? then r.first.value else if e.Some? then e.value.anchor else now
  }

  /** `_quota_window_state`: the entry for the window that holds `now`. */
  function Touch(e: Option<Entry>, r: Rule, now: real): Entry
    requires r.period >= 0
  {
    var anchor := AnchorOf(e, r, now);
    if r.period == 0 then (if e.Some? then e.value else Entry(None, anchor, 0, 0))
    else
      var start := Start(anchor, r.period, Index(anchor, r.period, now));
      if e.Some? && e.value.start == Some(start) then e.value else Entry(Some(start), anchor, 0, 0)
  }

  predicate Exceeded(e: Entry, r: Rule) {
    || (r.calls.Some? && e.count >= r.calls.value)
    || (r.bandwidth.Some? && e.bandwidth >= r.bandwidth.value)
  }

  datatype Verdict = Pass | Over(rule: Rule) | BadPeriod

  /** Brings rule after rule to its current window; stops at the first that is used up. */
  function Check(store: Store, rules: seq<Rule>, now: real): (Store, Verdict)
    decreases |rules|
  {
    if rules == [] then (store, Pass)
    else
      var r := rules[0];
      if r.period < 0 then (store, BadPeriod)
      else
        var e := Touch(Get(store, r.key), r, now);
        if Exceeded(e, r) then (store[r.key := e], Over(r)) else Check(store[r.key := e], rules[1..], now)
  }

  /** One call more for each rule that counts calls. */
  function Charge(store: Store, rules: seq<Rule>): Store
    decreases |rules|
  {
    if rules == [] then store
    else
      var k := rules[0].key;
      Charge(if rules[0].calls.Some? && k in store then store[k := store[k].(count := store[k].count + 1)] else store,
             rules[1..])
  }

  /** `Quota.apply` */
  function Apply(store: Store, rules: seq<Rule>, now: real): (Store, Verdict) {
    var (touched, verdict) := Check(store, rules, now);
    (if verdict.Pass? then Charge(touched, rules) else touched, verdict)
  }

  /** `QuotaDeferred.finalize`: the bandwidth of a call, once its response is known. */
  function Finalize(store: Store, r: Rule, now: real, kilobytes: nat): Store {
    if r.period < 0 then store
    else
      var e := Touch(Get(store, r.key), r, now);
      store[r.key := e.(bandwidth := e.bandwidth + kilobytes)]
  }

  // ----- Windows tile time -----

  lemma {:induction false} IndexBounds(anchor: real, period: int, t: real)
    requires period > 0
    ensures var i := Index(anchor, period, t);
            && i >= 0 && t < Start(anchor, period, i + 1)
            && (if t >= anchor then Start(anchor, period, i) <= t else i == 0)
  {
    var p := period as real;
    if t < anchor {
      assert Start(anchor, period, 1) == anchor + p;
    } else {
      var x := (t - anchor) / p;
      var i := x.Floor;
      assert x * p == t - anchor;
      assert x >= 0.0;
      Scale(i as real, x, p);
      Scale(x, (i + 1) as real, p);
    }
  }

  lemma {:induction false} Scale(a: real, b: real, p: real)
    requires p > 0.0
    ensures a <= b ==> a * p <= b * p
    ensures a < b ==> a * p < b * p
  {
    if a < b {
      assert (b - a) * p > 0.0;
    }
  }

  /** Every time from the anchor on lies in exactly one window. */
  lemma {:induction false} WindowsTile(anchor: real, period: int, t: real, i: int)
    requires period > 0 && t >= anchor && i >= 0
    ensures Index(anchor, period, t) == i <==> Start(anchor, period, i) <= t < Start(anchor, period, i + 1)
  {
    hide Index, Start;
    IndexBounds(anchor, period, t);
    var j := Index(anchor, period, t);
    StartMonotone(anchor, period, i + 1, j);
    StartMonotone(anchor, period, j + 1, i);
  }

  lemma {:induction false} StartMonotone(anchor: real, period: int, i: int, j: int)
    requires period > 0
    ensures i <= j ==> Start(anchor, period, i) <= Start(anchor, period, j)
    ensures i < j ==> Start(anchor, period, i) < Start(anchor, period, j)
    ensures Start(anchor, period, i + 1) == Start(anchor, period, i) + period as real
  {
    Scale(i as real, j as real, period as real);
    assert (i + 1) as real * period as real == i as real * period as real + period as real;
  }

  lemma {:induction false} IndexMonotone(anchor: real, period: int, t: real, t': real)
    requires period >= 0 && t <= t'
    ensures 0 <= Index(anchor, period, t) <= Index(anchor, period, t')
  {
    if period > 0 {
      hide Index, Start;
      IndexBounds(anchor, period, t);
      IndexBounds(anchor, period, t');
      StartMonotone(anchor, period, Index(anchor, period, t') + 1, Index(anchor, period, t));
    }
  }

  /** An interval as long as a period meets at most two windows. */
  lemma {:induction false} IntervalMeetsTwo(anchor: real, period: int, t: real, x: real)
    requires period > 0 && t <= x <= t + period as real
    ensures Index(anchor, period, t) <= Index(anchor, period, x) <= Index(anchor, period, t) + 1
  {
    IndexMonotone(anchor, period, t, x);
    hide Index, Start;
    IndexBounds(anchor, period, t);
    IndexBounds(anchor, period, x);
    var i, j := Index(anchor, period, t), Index(anchor, period, x);
    StartMonotone(anchor, period, i + 1, j);
    StartMonotone(anchor, period, i + 2, j);
  }

  // ----- All rules are charged or none -----

  lemma {:induction false} TouchTwice(e: Option<Entry>, r: Rule, now: real)
    requires r.period >= 0
    ensures Touch(Some(Touch(e, r, now)), r, now) == Touch(e, r, now)
  {
    hide Index, Start;
  }

  predicate OneRulePerKey(rules: seq<Rule>, cfg: string -> Rule) {
    forall i :: 0 <= i < |rules| ==> rules[i] == cfg(rules[i].key)
  }

  /** How many rules of the call count calls under the key. */
  function CallsFor(rules: seq<Rule>, key: string): nat {
    if rules == [] then 0
    else (if rules[0].key == key && rules[0].calls.Some? then 1 else 0) + CallsFor(rules[1..], key)
  }

  lemma {:induction false} CheckOnlyTouches(store: Store, rules: seq<Rule>, cfg: string -> Rule, now: real, key: string)
    requires OneRulePerKey(rules, cfg) && cfg(key).period >= 0
    ensures var (after, verdict) := Check(store, rules, now);
            && Touch(Get(after, key), cfg(key), now) == Touch(Get(store, key), cfg(key), now)
            && (key in store ==> key in after)
            && (verdict.Pass? && CallsFor(rules, key) > 0 ==> key in after && after[key] == Touch(Get(store, key), cfg(key), now))
            && (key in store && store[key] == Touch(Get(store, key), cfg(key), now) ==> after[key] == store[key])
    decreases |rules|
  {
    hide Index, Start, Touch;
    if rules != [] && rules[0].period >= 0 {
      var r := rules[0];
      var e := Touch(Get(store, r.key), r, now);
      TouchTwice(Get(store, r.key), r, now);
      if !Exceeded(e, r) {
        CheckOnlyTouches(store[r.key := e], rules[1..], cfg, now, key);
      }
    }
  }

  lemma {:induction false} ChargeAt(store: Store, rules: seq<Rule>, key: string)
    ensures key in Charge(store, rules) <==> key in store
    ensures key in store ==> Charge(store, rules)[key] == store[key].(count := store[key].count + CallsFor(rules, key))
    decreases |rules|
  {
    if rules != [] {
      var k := rules[0].key;
      var s := if rules[0].calls.Some? && k in store then store[k := store[k].(count := store[k].count + 1)] else store;
      ChargeAt(s, rules[1..], key);
    }
  }

  /** A refused call counts under no key; an admitted one under every key that counts calls. */
  lemma {:induction false} ChargesAllOrNone(store: Store, rules: seq<Rule>, cfg: string -> Rule, now: real, key: string)
    requires OneRulePerKey(rules, cfg) && cfg(key).period >= 0
    ensures var (after, verdict) := Apply(store, rules, now);
            Touch(Get(after, key), cfg(key), now).count
              == Touch(Get(store, key), cfg(key), now).count + if verdict.Pass? then CallsFor(rules, key) else 0
  {
    var (checked, verdict) := Check(store, rules, now);
    CheckOnlyTouches(store, rules, cfg, now, key);
    ChargeAt(checked, rules, key);
    if verdict.Pass? && CallsFor(rules, key) > 0 {
      var e := Touch(Get(store, key), cfg(key), now);
      TouchTwice(Get(store, key), cfg(key), now);
      TouchCurrent(e, e.(count := e.count + CallsFor(rules, key)), cfg(key), now);
    }
  }

  /** Touching looks at the window of an entry, not at its counts. */
  lemma {:induction false} TouchCurrent(e: Entry, e': Entry, r: Rule, now: real)
    requires r.period >= 0 && Touch(Some(e), r, now) == e
    requires e'.start == e.start && e'.anchor == e.anchor
    ensures Touch(Some(e'), r, now) == e'
  {
    hide Index, Start;
  }
}
