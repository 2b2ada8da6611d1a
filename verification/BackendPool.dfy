/**
 Backend pools: priority groups, weighted round-robin with a persistent cursor, circuit
 breakers and session affinity.

 One dictionary holds the health of every backend and, under a `pool:` key, the rotation
 cursors of every pool. Reading an entry creates it, so states are compared through
 `EntryOf`, which gives a missing entry its default.
 */
module BackendPool {
  import opened Common
  import opened RoundRobin

  datatype Member = Member(backendId: string, weight: int, priority: int)

  datatype Breaker = Breaker(failureCount: int, interval: real, tripDuration: real)

  datatype Entry = Entry(failures: seq<real>, openUntil: real, cursors: map<int, nat>)

  type Health = map<string, Entry>

  const FRESH := Entry([], 0.0, map[])

  function EntryOf(h: Health, id: string): Entry {
    if id in h then h[id] else FRESH
  }

  /** The circuit of `id` lets calls through at `now`. */
  predicate Shut(h: Health, id: string, now: real) {
    EntryOf(h, id).openUntil <= now
  }

  /** The same health for every reader. */
  ghost predicate Same(h: Health, h': Health) {
    forall id :: EntryOf(h, id) == EntryOf(h', id)
  }

  function PoolKey(poolId: string): string {
    "pool:" + poolId
  }

  // ----- Recording results -----

  /** The failure times after `cutoff`. */
  function Recent(failures: seq<real>, cutoff: real): seq<real> {
    if failures == [] then []
    else (if failures[0] > cutoff then [failures[0]] else []) + Recent(failures[1..], cutoff)
  }

  lemma {:induction false} RecentAppend(s: seq<real>, t: seq<real>, cutoff: real)
    ensures Recent(s + t, cutoff) == Recent(s, cutoff) + Recent(t, cutoff)
  {
    if s == [] {
      assert s + t == t;
    } else {
      assert (s + t)[1..] == s[1..] + t;
      RecentAppend(s[1..], t, cutoff);
      Regroup(if s[0] > cutoff then [s[0]] else [], Recent(s[1..], cutoff), Recent(t, cutoff));
    }
  }

  function AtLeastOne(n: int): int {
    if n < 1 then 1 else n
  }

  function Record(e: Entry, b: Breaker, now: real, failed: bool, duration: Option<real>): Entry {
    if !failed then e.(failures := [])
    else
      var failures := Recent(e.failures, now - b.interval) + [now];
      if |failures| >= AtLeastOne(b.failureCount) then
        e.(openUntil := now + (if duration.Some? then duration.value else b.tripDuration), failures := [])
      else e.(failures := failures)
  }

  // ----- Selecting a member -----

  function Configured(pool: seq<Member>, backends: set<string>): (r: seq<Member>)
    ensures forall m :: m in r <==> m in pool && m.backendId in backends
  {
    if pool == [] then []
    else (if pool[0].backendId in backends then [pool[0]] else []) + Configured(pool[1..], backends)
  }

  function Group(members: seq<Member>, priority: int): (r: seq<Member>)
    ensures forall m :: m in r <==> m in members && m.priority == priority
  {
    if members == [] then []
    else (if members[0].priority == priority then [members[0]] else []) + Group(members[1..], priority)
  }

  function Repeat<T>(x: T, n: nat): (r: seq<T>)
    ensures |r| == n && forall i :: 0 <= i < n ==> r[i] == x
  {
    seq(n, _ => x)
  }

  /** Each member of a group, once per unit of weight and at least once. */
  function Schedule(group: seq<Member>): (r: seq<Member>)
    ensures forall m :: m in r <==> m in group
  {
    if group == [] then []
    else
      assert Repeat(group[0], AtLeastOne(group[0].weight))[0] == group[0];
      Repeat(group[0], AtLeastOne(group[0].weight)) + Schedule(group[1..])
  }

  /** Sorted insertion without duplicates. */
  function Insert(x: int, s: seq<int>): (r: seq<int>)
    ensures forall y :: y in r <==> y == x || y in s
  {
    if s == [] || x < s[0] then [x] + s
    else if x == s[0] then s
    else [s[0]] + Insert(x, s[1..])
  }

  /** The priorities in use, smallest first. */
  function Priorities(members: seq<Member>): (r: seq<int>)
    ensures forall p :: p in r <==> exists m :: m in members && m.priority == p
  {
    if members == [] then [] else Insert(members[0].priority, Priorities(members[1..]))
  }

  predicate Increasing(s: seq<int>) {
    forall i, j :: 0 <= i < j < |s| ==> s[i] < s[j]
  }

  lemma {:induction false} InsertKeepsOrder(x: int, s: seq<int>)
    requires Increasing(s)
    ensures Increasing(Insert(x, s))
  {
    if s != [] && x > s[0] {
      InsertKeepsOrder(x, s[1..]);
      var r := Insert(x, s[1..]);
      assert forall y :: y in r ==> s[0] < y by {
        assert forall i :: 0 <= i < |s[1..]| ==> s[0] < s[1..][i];
      }
      assert forall j :: 0 <= j < |r| ==> r[j] in r;
      assert Insert(x, s) == [s[0]] + r;
    }
  }

  lemma {:induction false} PrioritiesIncrease(members: seq<Member>)
    ensures Increasing(Priorities(members))
  {
    if members != [] {
      PrioritiesIncrease(members[1..]);
      InsertKeepsOrder(members[0].priority, Priorities(members[1..]));
    }
  }

  /** Which slots of a schedule have a shut circuit. */
  function Up(h: Health, schedule: seq<Member>, now: real): (r: seq<bool>)
    ensures |r| == |schedule| && forall i :: 0 <= i < |r| ==> r[i] == Shut(h, schedule[i].backendId, now)
  {
    seq(|schedule|, i requires 0 <= i < |schedule| => Shut(h, schedule[i].backendId, now))
  }

  datatype Choice = Nobody | Affine(id: string) | Turn(id: string, priority: int, cursor: nat)

  function Cursor(h: Health, key: string, priority: int): nat {
    var cursors := EntryOf(h, key).cursors;
    if priority in cursors then cursors[priority] else 0
  }

  /** The walk through one priority group. */
  function ChooseIn(h: Health, key: string, members: seq<Member>, priority: int, now: real): Choice {
    var schedule := Schedule(Group(members, priority));
    if schedule == [] then Nobody
    else
      var start := Cursor(h, key, priority);
      match Walk(Up(h, schedule, now), start, 0)
      case None => Nobody
      case Some(o) =>
        Turn(schedule[Slot(|schedule|, start, o)].backendId, priority, NextCursor(|schedule|, start, o))
  }

  function Rotate(h: Health, key: string, members: seq<Member>, priorities: seq<int>, now: real): Choice {
    if priorities == [] then Nobody
    else
      var c := ChooseIn(h, key, members, priorities[0], now);
      if c.Nobody? then Rotate(h, key, members, priorities[1..], now) else c
  }

  datatype Request = Request(backends: set<string>, poolId: string, pool: seq<Member>, affinity: bool, session: string) {
    function Members(): seq<Member> {
      Configured(pool, backends)
    }
  }

  predicate Sticks(h: Health, r: Request, now: real) {
    && r.session != [] && r.affinity
    && (exists m :: m in r.Members() && m.backendId == r.session)
    && Shut(h, r.session, now)
  }

  function Choose(h: Health, r: Request, now: real): Choice {
    if Sticks(h, r, now) then Affine(r.session)
    else Rotate(h, PoolKey(r.poolId), r.Members(), Priorities(r.Members()), now)
  }

  /** Only a turn of the rotation changes the health, and only the cursor of its group. */
  function Advance(h: Health, poolId: string, c: Choice): Health {
    if c.Turn? then
      var e := EntryOf(h, PoolKey(poolId));
      h[PoolKey(poolId) := e.(cursors := e.cursors[c.priority := c.cursor])]
    else h
  }

  function Chosen(c: Choice): Option<string> {
    if c.Nobody? then None else Some(c.id)
  }

  // ----- What a selection returns -----

  lemma {:induction false} ChooseInSpec(h: Health, key: string, members: seq<Member>, priority: int, now: real)
    ensures var c := ChooseIn(h, key, members, priority, now);
            && !c.Affine?
            && (c.Nobody? <==> forall m :: m in members && m.priority == priority ==> !Shut(h, m.backendId, now))
            && (c.Turn? ==>
                && c.priority == priority && Shut(h, c.id, now)
                && exists m :: m in members && m.priority == priority && m.backendId == c.id)
  {
    hide Walk, Slot, NextCursor;
    var schedule := Schedule(Group(members, priority));
    if schedule != [] {
      var up := Up(h, schedule, now);
      WalkIsNext(up, Cursor(h, key, priority));
      var c := ChooseIn(h, key, members, priority, now);
      if c.Turn? {
        var i := Slot(|schedule|, Cursor(h, key, priority), Walk(up, Cursor(h, key, priority), 0).value);
        WalkStops(up, Cursor(h, key, priority), 0);
        assert schedule[i] in schedule;
        assert i in Slots(up, 0);
      } else {
        forall m | m in members && m.priority == priority ensures !Shut(h, m.backendId, now) {
          assert m in schedule;
          var i :| 0 <= i < |schedule| && schedule[i] == m;
          assert i !in Slots(up, 0);
        }
      }
    } else {
      assert forall m :: m in members && m.priority == priority ==> m in schedule;
    }
  }

  lemma {:induction false} RotateSpec(h: Health, key: string, members: seq<Member>, priorities: seq<int>, now: real)
    requires Increasing(priorities)
    ensures var c := Rotate(h, key, members, priorities, now);
            && !c.Affine?
            && (c.Nobody? <==>
                forall m :: m in members && m.priority in priorities ==> !Shut(h, m.backendId, now))
            && (c.Turn? ==>
                && c.priority in priorities
                && c == ChooseIn(h, key, members, c.priority, now)
                && forall m :: m in members && m.priority in priorities && m.priority < c.priority ==>
                     !Shut(h, m.backendId, now))
  {
    hide ChooseIn;
    if priorities != [] {
      ChooseInSpec(h, key, members, priorities[0], now);
      assert Increasing(priorities[1..]);
      RotateSpec(h, key, members, priorities[1..], now);
    }
  }

  /**
   A selection, affinity included, returns a configured member of the pool whose circuit is
   shut, from the group of smallest priority that has one; it returns nobody exactly when no
   configured member has a shut circuit.
   */
  lemma {:induction false} SelectionSound(h: Health, r: Request, now: real)
    ensures var c := Choose(h, r, now);
            && (c.Nobody? <==> forall m :: m in r.Members() ==> !Shut(h, m.backendId, now))
            && (!c.Nobody? ==> Shut(h, c.id, now) && exists m :: m in r.Members() && m.backendId == c.id)
            && (c.Turn? ==> forall m :: m in r.Members() && Shut(h, m.backendId, now) ==> c.priority <= m.priority)
  {
    hide Rotate, ChooseIn, Priorities, Configured, Increasing;
    var members := r.Members();
    PrioritiesIncrease(members);
    RotateSpec(h, PoolKey(r.poolId), members, Priorities(members), now);
    var c := Rotate(h, PoolKey(r.poolId), members, Priorities(members), now);
    if c.Turn? {
      ChooseInSpec(h, PoolKey(r.poolId), members, c.priority, now);
    }
  }

  /** Selections see the health only through its entries. */
  lemma {:induction false} RotateSame(h: Health, h': Health, key: string, members: seq<Member>, priorities: seq<int>, now: real)
    requires Same(h, h')
    ensures Rotate(h, key, members, priorities, now) == Rotate(h', key, members, priorities, now)
  {
    if priorities != [] {
      var schedule := Schedule(Group(members, priorities[0]));
      assert Up(h, schedule, now) == Up(h', schedule, now);
      RotateSame(h, h', key, members, priorities[1..], now);
    }
  }

  // ----- Fairness while the open circuits stay the same -----

  /** A selection at some time, for the session of its caller or without one. */
  datatype Ask = Ask(now: real, session: string)

  /**
   What the selections that do not stick to their session return, one after the other; those
   that do are made in between and have no turn in the rotation.
   */
  function Selections(h: Health, r: Request, asks: seq<Ask>): seq<Option<string>>
    decreases |asks|
  {
    if asks == [] then []
    else
      var c := Choose(h, r.(session := asks[0].session), asks[0].now);
      (if c.Affine? then [] else [Chosen(c)]) + Selections(Advance(h, r.poolId, c), r, asks[1..])
  }

  /** At all the given times exactly the members named in `shut` have a shut circuit. */
  ghost predicate Steady(h: Health, r: Request, asks: seq<Ask>, shut: set<string>) {
    forall i, m :: 0 <= i < |asks| && m in r.Members() ==> (Shut(h, m.backendId, asks[i].now) <==> m.backendId in shut)
  }

  /** The session names a member of the pool that it can stick to. */
  ghost predicate Held(r: Request, session: string, shut: set<string>) {
    session != [] && r.affinity && session in shut && exists m :: m in r.Members() && m.backendId == session
  }

  /** How many of the selections go by the rotation. */
  ghost function Rotating(r: Request, asks: seq<Ask>, shut: set<string>): nat {
    if asks == [] then 0
    else (if Held(r, asks[0].session, shut) then 0 else 1) + Rotating(r, asks[1..], shut)
  }

  /** `p` is the smallest priority of a member named in `shut`. */
  ghost predicate FirstUsable(members: seq<Member>, shut: set<string>, p: int) {
    && (exists m :: m in members && m.backendId in shut && m.priority == p)
    && forall m :: m in members && m.backendId in shut ==> p <= m.priority
  }

  function UpOf(schedule: seq<Member>, shut: set<string>): (r: seq<bool>)
    ensures |r| == |schedule| && forall i :: 0 <= i < |r| ==> r[i] == (schedule[i].backendId in shut)
  {
    seq(|schedule|, i requires 0 <= i < |schedule| => schedule[i].backendId in shut)
  }

  function Names(schedule: seq<Member>, slots: seq<nat>): (r: seq<Option<string>>)
    requires forall s :: s in slots ==> s < |schedule|
    ensures |r| == |slots| && forall i :: 0 <= i < |r| ==> slots[i] in slots && r[i] == Some(schedule[slots[i]].backendId)
  {
    seq(|slots|, i requires 0 <= i < |slots| => assert slots[i] in slots; Some(schedule[slots[i]].backendId))
  }

  /** One selection sticks to its session, or is one turn of the rotation of the first usable group. */
  lemma {:induction false} OneSelection(h: Health, r: Request, ask: Ask, shut: set<string>, p: int)
    requires Steady(h, r, [ask], shut) && FirstUsable(r.Members(), shut, p)
    ensures var schedule, start := Schedule(Group(r.Members(), p)), Cursor(h, PoolKey(r.poolId), p);
            var c := Choose(h, r.(session := ask.session), ask.now);
            && schedule != []
            && var w := Walk(UpOf(schedule, shut), start, 0);
               w.Some? && c == if Held(r, ask.session, shut) then Affine(ask.session)
                               else Turn(schedule[Slot(|schedule|, start, w.value)].backendId, p,
                                         NextCursor(|schedule|, start, w.value))
  {
    hide Walk, Slot, NextCursor, Rotate, Schedule, Group, Priorities, Configured;
    var members, key, now := r.Members(), PoolKey(r.poolId), ask.now;
    var schedule := Schedule(Group(members, p));
    assert r.(session := ask.session).Members() == members;
    assert forall m :: m in members ==> (Shut(h, m.backendId, [ask][0].now) <==> m.backendId in shut);
    var m :| m in members && m.backendId in shut && m.priority == p;
    assert m in schedule;
    PrioritiesIncrease(members);
    RotateSpec(h, key, members, Priorities(members), now);
    var c := Rotate(h, key, members, Priorities(members), now);
    ChooseInSpec(h, key, members, c.priority, now);
    assert c.priority == p;
    assert forall i :: 0 <= i < |schedule| ==> schedule[i] in schedule;
    assert Up(h, schedule, now) == UpOf(schedule, shut);
  }

  lemma {:induction false} AdvanceTurns(h: Health, poolId: string, c: Choice)
    ensures var h' := Advance(h, poolId, c);
            && (forall id :: EntryOf(h', id).openUntil == EntryOf(h, id).openUntil)
            && (forall id :: EntryOf(h', id).failures == EntryOf(h, id).failures)
            && (c.Turn? ==> Cursor(h', PoolKey(poolId), c.priority) == c.cursor)
            && (!c.Turn? ==> h' == h)
  {
  }

  lemma {:induction false} NamesHead(schedule: seq<Member>, s: nat, slots: seq<nat>)
    requires s < |schedule| && forall t :: t in slots ==> t < |schedule|
    ensures Names(schedule, [s] + slots) == [Some(schedule[s].backendId)] + Names(schedule, slots)
  {
  }

  lemma {:induction false} SelectionsArePicks(h: Health, r: Request, asks: seq<Ask>, shut: set<string>, p: int)
    requires Steady(h, r, asks, shut) && FirstUsable(r.Members(), shut, p)
    ensures var schedule := Schedule(Group(r.Members(), p));
            && schedule != []
            && Selections(h, r, asks)
               == Names(schedule, Picks(UpOf(schedule, shut), Cursor(h, PoolKey(r.poolId), p), Rotating(r, asks, shut)))
    decreases |asks|
  {
    hide Walk, Slot, NextCursor, Choose, Advance, Schedule, Group, Configured, Cursor, FirstUsable, Held;
    var key := PoolKey(r.poolId);
    var schedule := Schedule(Group(r.Members(), p));
    UsableSlots(r.Members(), shut, p);
    if asks != [] {
      OneSelection(h, r, asks[0], shut, p);
      var up := UpOf(schedule, shut);
      var c := Choose(h, r.(session := asks[0].session), asks[0].now);
      AdvanceTurns(h, r.poolId, c);
      SelectionsArePicks(Advance(h, r.poolId, c), r, asks[1..], shut, p);
      if c.Turn? {
        var o := Walk(up, Cursor(h, key, p), 0).value;
        NamesHead(schedule, Slot(|up|, Cursor(h, key, p), o), Picks(up, c.cursor, Rotating(r, asks[1..], shut)));
      }
    }
  }

  /** Before anything was recorded, the first slot of the first group is next. */
  lemma {:induction false} FreshPool(r: Request, now: real, p: int)
    requires now >= 0.0 && r.session == [] && FirstUsable(r.Members(), set m | m in r.Members() :: m.backendId, p)
    ensures var schedule := Schedule(Group(r.Members(), p));
            schedule != [] && Choose(map[], r, now).Turn? && Choose(map[], r, now).id == schedule[0].backendId
  {
    hide Configured, Schedule, Group, Rotate, Priorities, Walk;
    var shut := set m | m in r.Members() :: m.backendId;
    var schedule := Schedule(Group(r.Members(), p));
    OneSelection(map[], r, Ask(now, []), shut, p);
    assert r.(session := []) == r;
    var up := UpOf(schedule, shut);
    assert schedule[0] in schedule && up[0];
    assert Walk(up, 0, 0) == Some(0) by { FirstUp(up); }
    assert Slot(|schedule|, 0, 0) == 0;
  }

  lemma {:induction false} FirstUp(up: seq<bool>)
    requires up != [] && up[0]
    ensures Walk(up, 0, 0) == Some(0)
  {
    assert Slot(|up|, 0, 0) == 0;
  }

  /** The total weight of the pool's entries for a configured backend at a priority; an entry below one counts as one. */
  function WeightOf(pool: seq<Member>, backends: set<string>, p: int, id: string): nat {
    if pool == [] then 0
    else
      var m := pool[0];
      (if m.backendId == id && id in backends && m.priority == p then (if m.weight >= 1 then m.weight else 1) else 0)
      + WeightOf(pool[1..], backends, p, id)
  }

  /** The total weight of the entries at a priority whose backend is configured and named in `shut`. */
  function Turns(pool: seq<Member>, backends: set<string>, p: int, shut: set<string>): nat {
    if pool == [] then 0
    else
      var m := pool[0];
      (if m.backendId in backends && m.backendId in shut && m.priority == p then (if m.weight >= 1 then m.weight else 1) else 0)
      + Turns(pool[1..], backends, p, shut)
  }

  /** The names of the available slots, in schedule order. */
  function ShutNames(schedule: seq<Member>, shut: set<string>): seq<Option<string>> {
    if schedule == [] then []
    else (if schedule[0].backendId in shut then [Some(schedule[0].backendId)] else []) + ShutNames(schedule[1..], shut)
  }

  lemma {:induction false} NamesOfSlots(schedule: seq<Member>, shut: set<string>, c: nat)
    requires c <= |schedule|
    ensures Names(schedule, Slots(UpOf(schedule, shut), c)) == ShutNames(schedule[c..], shut)
    decreases |schedule| - c
  {
    if c < |schedule| {
      NamesOfSlots(schedule, shut, c + 1);
      assert schedule[c..][1..] == schedule[c + 1..];
      var up := UpOf(schedule, shut);
      assert Slots(up, c) == (if up[c] then [c] else []) + Slots(up, c + 1);
    }
  }

  lemma {:induction false} ShutNamesRepeat(m: Member, n: nat, rest: seq<Member>, shut: set<string>)
    ensures ShutNames(Repeat(m, n) + rest, shut)
         == (if m.backendId in shut then Repeat(Some(m.backendId), n) else []) + ShutNames(rest, shut)
  {
    if n == 0 {
      assert Repeat(m, 0) + rest == rest;
    } else {
      ShutNamesRepeat(m, n - 1, rest, shut);
      RepeatHead(m, n, rest);
      if m.backendId in shut {
        RepeatHead(Some(m.backendId), n, ShutNames(rest, shut));
      }
    }
  }

  lemma {:induction false} RepeatHead<T>(x: T, n: nat, rest: seq<T>)
    requires n > 0
    ensures Repeat(x, n) + rest == [x] + (Repeat(x, n - 1) + rest)
    ensures (Repeat(x, n) + rest)[1..] == Repeat(x, n - 1) + rest
  {
  }

  lemma {:induction false} CountRepeat<T>(x: T, n: nat, y: T)
    ensures multiset(Repeat(x, n))[y] == if x == y then n else 0
  {
    if n > 0 {
      CountRepeat(x, n - 1, y);
      assert Repeat(x, n) == [x] + Repeat(x, n - 1);
    } else {
      assert Repeat(x, n) == [];
    }
  }

  /** The names of the available slots of a priority group. */
  function ShutEntries(pool: seq<Member>, backends: set<string>, p: int, shut: set<string>): seq<Option<string>> {
    ShutNames(Schedule(Group(Configured(pool, backends), p)), shut)
  }

  lemma {:induction false} NamesByWeight(pool: seq<Member>, backends: set<string>, p: int, shut: set<string>, id: string)
    ensures var names := ShutEntries(pool, backends, p, shut);
            && |names| == Turns(pool, backends, p, shut)
            && multiset(names)[Some(id)] == if id in shut then WeightOf(pool, backends, p, id) else 0
  {
    if pool == [] {
      assert ShutEntries(pool, backends, p, shut) == [];
    } else {
      hide ShutEntries;
      NamesByWeight(pool[1..], backends, p, shut, id);
      EntryNames(pool, backends, p, shut, id);
    }
  }

  lemma {:induction false} EntryNames(pool: seq<Member>, backends: set<string>, p: int, shut: set<string>, id: string)
    requires pool != []
    ensures var names, more := ShutEntries(pool[1..], backends, p, shut), ShutEntries(pool, backends, p, shut);
            var m := pool[0];
            var w := if m.weight >= 1 then m.weight else 1;
            var counts := m.backendId in backends && m.priority == p && m.backendId in shut;
            && |more| == |names| + (if counts then w else 0)
            && multiset(more)[Some(id)] == multiset(names)[Some(id)] + if counts && m.backendId == id then w else 0
  {
    hide ShutNames, Schedule, Group, Configured;
    var m := pool[0];
    FirstEntry(pool, backends, p);
    CountFirst(m, if m.weight >= 1 then m.weight else 1, Schedule(Group(Configured(pool[1..], backends), p)), shut, id);
  }

  /** What the slots of one entry add to the names. */
  lemma {:induction false} CountFirst(m: Member, w: nat, rest: seq<Member>, shut: set<string>, id: string)
    ensures var names, more := ShutNames(rest, shut), ShutNames(Repeat(m, w) + rest, shut);
            && |more| == |names| + (if m.backendId in shut then w else 0)
            && multiset(more)[Some(id)] == multiset(names)[Some(id)] + if m.backendId in shut && m.backendId == id then w else 0
  {
    hide ShutNames;
    ShutNamesRepeat(m, w, rest, shut);
    CountRepeat(Some(m.backendId), w, Some(id));
  }

  /** The first entry of a pool comes first in the schedule of its group, once per unit of weight and at least once. */
  lemma {:induction false} FirstEntry(pool: seq<Member>, backends: set<string>, p: int)
    requires pool != []
    ensures var m, rest := pool[0], Schedule(Group(Configured(pool[1..], backends), p));
            Schedule(Group(Configured(pool, backends), p))
              == if m.backendId in backends && m.priority == p then Repeat(m, if m.weight >= 1 then m.weight else 1) + rest else rest
  {
    var m, members := pool[0], Configured(pool[1..], backends);
    var group := Group(members, p);
    assert ([m] + members)[1..] == members && ([m] + group)[1..] == group;
    assert [] + members == members && [] + group == group;
  }

  /**
   The schedule of a group lists the pool's configured entries of that priority in the order
   of the pool: one entry more at the end of the pool is as many slots more at the end.
   */
  lemma {:induction false} ScheduleFollowsPool(pool: seq<Member>, m: Member, backends: set<string>, p: int)
    ensures Schedule(Group(Configured(pool + [m], backends), p))
         == Schedule(Group(Configured(pool, backends), p))
            + if m.backendId in backends && m.priority == p then Repeat(m, if m.weight >= 1 then m.weight else 1) else []
  {
    hide Schedule, Group, Configured;
    var all := pool + [m];
    FirstEntry(all, backends, p);
    if pool == [] {
      assert all == [m] && all[1..] == [] && all[0] == m;
      NothingScheduled(backends, p);
      assert Repeat(m, if m.weight >= 1 then m.weight else 1) + [] == [] + Repeat(m, if m.weight >= 1 then m.weight else 1);
    } else {
      assert all[0] == pool[0] && all[1..] == pool[1..] + [m];
      ScheduleFollowsPool(pool[1..], m, backends, p);
      FirstEntry(pool, backends, p);
      var first := Repeat(pool[0], if pool[0].weight >= 1 then pool[0].weight else 1);
      Regroup(first, Schedule(Group(Configured(pool[1..], backends), p)),
              if m.backendId in backends && m.priority == p then Repeat(m, if m.weight >= 1 then m.weight else 1) else []);
    }
  }

  lemma {:induction false} NothingScheduled(backends: set<string>, p: int)
    ensures Schedule(Group(Configured([], backends), p)) == []
  {
  }

  /**
   While the open circuits stay the same, as many selections by rotation as the shut entries of
   the first usable group weigh return each backend exactly as often as its entries there
   weigh, from whatever cursor the rotation starts and whatever selections stick to their
   session in between.
   */
  lemma {:induction false} Fairness(h: Health, r: Request, asks: seq<Ask>, shut: set<string>, p: int)
    requires Steady(h, r, asks, shut) && FirstUsable(r.Members(), shut, p)
    requires Rotating(r, asks, shut) == Turns(r.pool, r.backends, p, shut)
    ensures forall id :: multiset(Selections(h, r, asks))[Some(id)]
                      == if id in shut then WeightOf(r.pool, r.backends, p, id) else 0
  {
    hide *;
    var schedule := Schedule(Group(r.Members(), p));
    var up := UpOf(schedule, shut);
    SelectionsArePicks(h, r, asks, shut, p);
    NamesOfSlots(schedule, shut, 0);
    assert schedule[0..] == schedule;
    MembersAre(r, p, shut);
    NamesByWeight(r.pool, r.backends, p, shut, "");
    assert Slots(up, 0) != [] by { UsableSlots(r.Members(), shut, p); }
    NamesTurn(schedule, up, Cursor(h, PoolKey(r.poolId), p));
    forall id ensures multiset(Selections(h, r, asks))[Some(id)] == if id in shut then WeightOf(r.pool, r.backends, p, id) else 0 {
      NamesByWeight(r.pool, r.backends, p, shut, id);
    }
  }

  lemma {:induction false} MembersAre(r: Request, p: int, shut: set<string>)
    ensures ShutNames(Schedule(Group(r.Members(), p)), shut) == ShutEntries(r.pool, r.backends, p, shut)
  {
  }

  lemma {:induction false} UsableSlots(members: seq<Member>, shut: set<string>, p: int)
    requires FirstUsable(members, shut, p)
    ensures Schedule(Group(members, p)) != []
    ensures Slots(UpOf(Schedule(Group(members, p)), shut), 0) != []
  {
    var schedule := Schedule(Group(members, p));
    var m :| m in members && m.backendId in shut && m.priority == p;
    assert m in schedule;
    var i :| 0 <= i < |schedule| && schedule[i] == m;
    assert i in Slots(UpOf(schedule, shut), 0);
  }

  /** A full turn returns the names of the available slots, in some rotation. */
  lemma {:induction false} NamesTurn(schedule: seq<Member>, up: seq<bool>, cursor: nat)
    requires |up| == |schedule| > 0 && Slots(up, 0) != []
    ensures multiset(Names(schedule, Picks(up, cursor, |Slots(up, 0)|))) == multiset(Names(schedule, Slots(up, 0)))
  {
    hide Picks, Slots, Below;
    FullTurn(up, cursor);
    var c := Slot(|up|, cursor, 0);
    SlotsSplit(up, c);
    var a, b := Slots(up, c), Below(up, c);
    assert Names(schedule, a + b) == Names(schedule, a) + Names(schedule, b);
    assert Names(schedule, b + a) == Names(schedule, b) + Names(schedule, a);
  }
}
