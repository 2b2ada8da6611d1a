/** The health dictionary of the gateway process, updated in place. */
module HealthStore {
  import opened Common
  import opened RoundRobin
  import opened BackendPool

  /** The loop that keeps the failures after `cutoff`. */
  method RecentFailures(all: seq<real>, cutoff: real) returns (recent: seq<real>)
    ensures recent == Recent(all, cutoff)
  {
    recent := [];
    for i := 0 to |all|
      invariant recent == Recent(all[..i], cutoff)
    {
      RecentNext(all, i, cutoff);
      if all[i] > cutoff {
        recent := recent + [all[i]];
      }
    }
    assert all[..|all|] == all;
  }

  lemma {:induction false} RecentNext(all: seq<real>, i: nat, cutoff: real)
    requires i < |all|
    ensures Recent(all[..i + 1], cutoff) == Recent(all[..i], cutoff) + if all[i] > cutoff then [all[i]] else []
  {
    RecentAppend(all[..i], [all[i]], cutoff);
    assert all[..i + 1] == all[..i] + [all[i]];
    assert Recent([all[i]][1..], cutoff) == [];
  }

  class Store {
    var health: Health

    constructor ()
      ensures health == map[]
    {
      health := map[];
    }

    /** `backend_health_entry`: reading an entry creates it. */
    method EntryFor(id: string) returns (e: Entry)
      modifies this
      ensures e == EntryOf(old(health), id) && health == old(health)[id := e]
    {
      if id !in health {
        health := health[id := FRESH];
      }
      e := health[id];
      assert health == old(health)[id := e];
    }

    /** `record_backend_result` */
    method RecordResult(b: Breaker, id: string, now: real, failed: bool, duration: Option<real>)
      modifies this
      ensures health == old(health)[id := Record(EntryOf(old(health), id), b, now, failed, duration)]
    {
      var entry := EntryFor(id);
      if !failed {
        health := health[id := entry.(failures := [])];
        return;
      }
      var failures := RecentFailures(entry.failures, now - b.interval);
      failures := failures + [now];
      if |failures| >= AtLeastOne(b.failureCount) {
        var until := now + if duration.Some? then duration.value else b.tripDuration;
        health := health[id := entry.(openUntil := until, failures := [])];
      } else {
        health := health[id := entry.(failures := failures)];
      }
    }

    /** `select_pool_member` */
    method Select(r: Request, now: real) returns (id: Option<string>)
      modifies this
      ensures id == Chosen(Choose(old(health), r, now))
      ensures Same(health, Advance(old(health), r.poolId, Choose(old(health), r, now)))
    {
      hide Rotate, Priorities, Walk, Slot, NextCursor, Schedule, Group, Configured;
      var members := Configured(r.pool, r.backends);
      if members == [] {
        EmptyPool(health, r, now);
        return None;
      }
      if r.session != [] && r.affinity && exists m :: m in members && m.backendId == r.session {
        var entry := EntryFor(r.session);
        if entry.openUntil <= now {
          return Some(r.session);
        }
      }
      RotateSame(old(health), health, PoolKey(r.poolId), members, Priorities(members), now);
      id := SelectInTurn(r, members, now);
    }

    /** The loop over the priority groups. */
    method SelectInTurn(r: Request, members: seq<Member>, now: real) returns (id: Option<string>)
      modifies this
      ensures var c := Rotate(old(health), PoolKey(r.poolId), members, Priorities(members), now);
              id == Chosen(c) && Same(health, Advance(old(health), r.poolId, c))
    {
      hide Walk, Slot, NextCursor, Schedule, Group, Priorities;
      var key := PoolKey(r.poolId);
      var rotation := EntryFor(key);
      var priorities := Priorities(members);
      ghost var h0 := old(health);
      ghost var choice := Rotate(h0, key, members, priorities, now);
      for i := 0 to |priorities|
        invariant Same(health, h0)
        invariant choice == Rotate(h0, key, members, priorities[i..], now)
      {
        var p := priorities[i];
        assert priorities[i..][0] == p && priorities[i..][1..] == priorities[i + 1..];
        var schedule := Schedule(Group(members, p));
        ghost var c := ChooseIn(h0, key, members, p, now);
        if schedule != [] {
          var start := Cursor(health, key, p);
          assert Up(health, schedule, now) == Up(h0, schedule, now);
          var offset := WalkSchedule(schedule, start, now);
          if offset.Some? {
            ghost var before := health;
            var e := EntryOf(health, key);
            var n := NextCursor(|schedule|, start, offset.value);
            assert choice == c && c.Turn? && c.priority == p && c.cursor == n;
            assert e == EntryOf(h0, key);
            health := health[key := e.(cursors := e.cursors[p := n])];
            AdvanceSame(h0, before, r.poolId, c);
            return Some(schedule[Slot(|schedule|, start, offset.value)].backendId);
          }
        }
      }
      return None;
    }

    /** The inner loop: the first slot from `start` on with a shut circuit. */
    method WalkSchedule(schedule: seq<Member>, start: nat, now: real) returns (found: Option<nat>)
      requires schedule != []
      modifies this
      ensures Same(health, old(health))
      ensures found == Walk(Up(old(health), schedule, now), start, 0)
      ensures found.Some? ==> found.value < |schedule|
    {
      hide Slot;
      ghost var up := Up(old(health), schedule, now);
      for offset := 0 to |schedule|
        invariant Same(health, old(health))
        invariant Walk(up, start, 0) == Walk(up, start, offset)
      {
        var slot := Slot(|schedule|, start, offset);
        var entry := EntryFor(schedule[slot].backendId);
        assert entry == EntryOf(old(health), schedule[slot].backendId);
        if entry.openUntil <= now {
          return Some(offset);
        }
      }
      return None;
    }
  }

  lemma {:induction false} AdvanceSame(h: Health, h': Health, poolId: string, c: Choice)
    requires Same(h, h')
    ensures Same(Advance(h', poolId, c), Advance(h, poolId, c))
  {
    var key, a, a' := PoolKey(poolId), Advance(h, poolId, c), Advance(h', poolId, c);
    assert EntryOf(h, key) == EntryOf(h', key);
    forall id ensures EntryOf(a', id) == EntryOf(a, id) {
      assert EntryOf(h, id) == EntryOf(h', id);
    }
  }

  lemma {:induction false} EmptyPool(h: Health, r: Request, now: real)
    requires r.Members() == []
    ensures Choose(h, r, now) == Nobody
  {
  }
}
