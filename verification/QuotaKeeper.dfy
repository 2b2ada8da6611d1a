/** The shared quota store of the gateway, with the policy that updates it in place. */
module QuotaKeeper {
  import opened Common
  import opened QuotaWindow

  lemma {:induction false} CheckFrom(store: Store, rules: seq<Rule>, now: real, i: nat)
    requires i < |rules|
    ensures Check(store, rules[i..], now) ==
            var r := rules[i];
            if r.period < 0 then (store, BadPeriod)
            else
              var e := Touch(Get(store, r.key), r, now);
              if Exceeded(e, r) then (store[r.key := e], Over(r)) else Check(store[r.key := e], rules[i + 1..], now)
  {
    assert rules[i..][0] == rules[i] && rules[i..][1..] == rules[i + 1..];
  }

  lemma {:induction false} ChargeFrom(store: Store, rules: seq<Rule>, i: nat)
    requires i < |rules|
    ensures Charge(store, rules[i..]) ==
            var k := rules[i].key;
            Charge(if rules[i].calls.Some? && k in store then store[k := store[k].(count := store[k].count + 1)] else store,
                   rules[i + 1..])
  {
    assert rules[i..][0] == rules[i] && rules[i..][1..] == rules[i + 1..];
  }

  lemma {:induction false} Ends(store: Store, rules: seq<Rule>, now: real)
    ensures Check(store, rules[|rules|..], now) == (store, Pass)
    ensures Charge(store, rules[|rules|..]) == store
  {
  }

  class Keeper {
    var store: Store

    constructor ()
      ensures store == map[]
    {
      store := map[];
    }

    /** `_quota_window_state` */
    method WindowState(r: Rule, now: real) returns (e: Entry)
      requires r.period >= 0
      modifies this
      ensures e == Touch(Get(old(store), r.key), r, now) && store == old(store)[r.key := e]
    {
      var previous := Get(store, r.key);
      var anchor := AnchorOf(previous, r, now);
      if r.period == 0 {
        e := if previous.Some? then previous.value else Entry(None, anchor, 0, 0);
      } else {
        var start := if now < anchor then anchor
                     else Start(anchor, r.period, ((now - anchor) / r.period as real).Floor);
        assert Start(anchor, r.period, 0) == anchor;
        if previous.Some? && previous.value.start == Some(start) {
          e := previous.value;
        } else {
          e := Entry(Some(start), anchor, 0, 0);
        }
      }
      store := store[r.key := e];
    }

    /** `Quota.apply`: the root rule first, then the nested rules that match. */
    method ApplyQuota(rules: seq<Rule>, now: real) returns (v: Verdict)
      modifies this
      ensures (store, v) == Apply(old(store), rules, now)
    {
      hide Check, Charge, Touch;
      ghost var checked := Check(store, rules, now);
      assert rules[0..] == rules;
      for i := 0 to |rules|
        invariant Check(store, rules[i..], now) == checked
      {
        CheckFrom(store, rules, now, i);
        if rules[i].period < 0 {
          return BadPeriod;
        }
        var e := WindowState(rules[i], now);
        if Exceeded(e, rules[i]) {
          return Over(rules[i]);
        }
      }
      Ends(store, rules, now);
      ghost var charged := Charge(store, rules);
      for i := 0 to |rules|
        invariant Charge(store, rules[i..]) == charged
      {
        ChargeFrom(store, rules, i);
        var k := rules[i].key;
        if rules[i].calls.Some? && k in store {
          store := store[k := store[k].(count := store[k].count + 1)];
        }
      }
      Ends(store, rules, now);
      return Pass;
    }

    /** `QuotaDeferred.finalize` */
    method FinalizeQuota(r: Rule, now: real, kilobytes: nat)
      modifies this
      ensures store == Finalize(old(store), r, now, kilobytes)
    {
      if r.period >= 0 {
        var e := WindowState(r, now);
        store := store[r.key := e.(bandwidth := e.bandwidth + kilobytes)];
      }
    }
  }
}
