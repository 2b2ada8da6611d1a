/**
 Weighted round-robin over a schedule of slots some of which are unavailable: the walk from
 a cursor to the next available slot, and the order in which repeated walks visit slots.
 */
module RoundRobin {
  import opened Common

  /** The slot `offset` places after `start`, around a schedule of `n` slots. */
  function Slot(n: nat, start: nat, offset: nat): (r: nat)
    requires n > 0
    ensures r < n
  {
    (start + offset) % n
  }

  /** Least offset from `offset` on whose slot is up. */
  function Walk(up: seq<bool>, start: nat, offset: nat): (r: Option<nat>)
    requires |up| > 0
    decreases |up| - offset
  {
    if offset >= |up| then None
    else if up[Slot(|up|, start, offset)] then Some(offset)
    else Walk(up, start, offset + 1)
  }

  /** Available slots from `c` on, in schedule order. */
  function Slots(up: seq<bool>, c: nat): (r: seq<nat>)
    requires c <= |up|
    ensures forall s :: s in r <==> c <= s < |up| && up[s]
    decreases |up| - c
  {
    if c == |up| then [] else (if up[c] then [c] else []) + Slots(up, c + 1)
  }

  /** Available slots before `c`. */
  function Below(up: seq<bool>, c: nat): (r: seq<nat>)
    requires c <= |up|
    ensures forall s :: s in r ==> s < c
  {
    if c == 0 then [] else Below(up, c - 1) + if up[c - 1] then [c - 1] else []
  }

  lemma {:induction false} SlotsSplit(up: seq<bool>, c: nat)
    requires c <= |up|
    ensures Below(up, c) + Slots(up, c) == Slots(up, 0)
  {
    if c > 0 {
      SlotsSplit(up, c - 1);
      var mine := if up[c - 1] then [c - 1] else [];
      assert Slots(up, c - 1) == mine + Slots(up, c);
      Regroup(Below(up, c - 1), mine, Slots(up, c));
    }
  }

  lemma {:induction false} SlotsHead(up: seq<bool>, c: nat)
    requires c <= |up| && Slots(up, c) != []
    ensures var s := Slots(up, c)[0];
            && c <= s < |up| && up[s] && (forall i :: c <= i < s ==> !up[i])
            && Slots(up, s + 1) == Slots(up, c)[1..]
    decreases |up| - c
  {
    if up[c] {
      assert Slots(up, c) == [c] + Slots(up, c + 1);
    } else {
      assert Slots(up, c) == Slots(up, c + 1);
      SlotsHead(up, c + 1);
    }
  }

  // ----- Arithmetic around the schedule -----

  lemma {:induction false} ModUnique(x: nat, n: nat, q: nat, r: nat)
    requires n > 0 && x == q * n + r && r < n
    ensures x % n == r
  {
    var d := x / n - q;
    assert x == (x / n) * n + x % n;
    assert d * n == (x / n) * n - q * n == r - x % n;
    Multiples(d, n);
  }

  lemma {:induction false} Multiples(d: int, n: int)
    requires n >= 0
    ensures d >= 1 ==> d * n >= n
    ensures d <= -1 ==> d * n <= -n
  {
    if d >= 1 {
      assert d * n == (d - 1) * n + n;
    } else if d <= -1 {
      assert d * n == (d + 1) * n - n;
    }
  }

  /** A place of the schedule, without the remainder. */
  lemma {:induction false} SlotIs(n: nat, start: nat, o: nat)
    requires n > 0 && o <= n
    ensures var c := start % n;
            && 0 <= c < n
            && Slot(n, start, o) == if c + o < n then c + o else c + o - n
  {
    var q, c := start / n, start % n;
    assert start == q * n + c;
    if c + o < n {
      ModUnique(start + o, n, q, c + o);
    } else {
      assert (q + 1) * n == q * n + n;
      ModUnique(start + o, n, q + 1, c + o - n);
    }
  }

  // ----- One selection -----

  lemma {:induction false} WalkFinds(up: seq<bool>, start: nat, offset: nat, target: nat)
    requires |up| > 0 && offset <= target < |up| && up[Slot(|up|, start, target)]
    requires forall o :: offset <= o < target ==> !up[Slot(|up|, start, o)]
    ensures Walk(up, start, offset) == Some(target)
    decreases target - offset
  {
    hide Slot;
    if offset < target {
      WalkFinds(up, start, offset + 1, target);
    }
  }

  lemma {:induction false} WalkStops(up: seq<bool>, start: nat, offset: nat)
    requires |up| > 0
    ensures var r := Walk(up, start, offset);
            r.Some? ==> offset <= r.value < |up| && up[Slot(|up|, start, r.value)]
    decreases |up| - offset
  {
    hide Slot;
    if offset < |up| {
      WalkStops(up, start, offset + 1);
    }
  }

  /** The slot `s`, up and with no other that is up before it around from the cursor, is where the walk stops. */
  lemma {:induction false} WalkTo(up: seq<bool>, cursor: nat, s: nat)
    requires s < |up| && up[s]
    requires var c := Slot(|up|, cursor, 0);
             if c <= s then forall i :: c <= i < s ==> !up[i]
             else forall i :: 0 <= i < s || c <= i < |up| ==> !up[i]
    ensures var w := Walk(up, cursor, 0); w.Some? && Slot(|up|, cursor, w.value) == s
  {
    hide Slot, Walk;
    var n := |up|;
    SlotIs(n, cursor, 0);
    var c := Slot(n, cursor, 0);
    var target := if c <= s then s - c else s + n - c;
    forall o | 0 <= o < target ensures !up[Slot(n, cursor, o)] {
      SlotIs(n, cursor, o);
    }
    SlotIs(n, cursor, target);
    WalkFinds(up, cursor, 0, target);
  }

  /** The walk takes the next available slot at or after the cursor, else the first one. */
  lemma {:induction false} WalkIsNext(up: seq<bool>, cursor: nat)
    requires |up| > 0
    ensures Walk(up, cursor, 0) == None <==> Slots(up, 0) == []
    ensures Slots(up, 0) != [] ==> (
              var c := Slot(|up|, cursor, 0);
              Slot(|up|, cursor, Walk(up, cursor, 0).value)
                == if Slots(up, c) != [] then Slots(up, c)[0] else Slots(up, 0)[0])
  {
    hide Slot, Walk, Slots;
    var n, c := |up|, Slot(|up|, cursor, 0);
    WalkStops(up, cursor, 0);
    assert Walk(up, cursor, 0).Some? ==> Slot(n, cursor, Walk(up, cursor, 0).value) in Slots(up, 0);
    if Slots(up, c) != [] {
      SlotsHead(up, c);
      WalkTo(up, cursor, Slots(up, c)[0]);
      assert Slots(up, c)[0] in Slots(up, 0);
    } else if Slots(up, 0) != [] {
      SlotsHead(up, 0);
      var s := Slots(up, 0)[0];
      forall i | c <= i < n ensures !up[i] {
        assert i !in Slots(up, c);
      }
      WalkTo(up, cursor, s);
    }
  }

  // ----- Many selections -----

  /** The cursor a selection leaves when its walk took `offset` steps. */
  function NextCursor(n: nat, cursor: nat, offset: nat): nat
    requires n > 0
  {
    (cursor + offset + 1) % n
  }

  /** The slots taken by `k` selections in a row. */
  function Picks(up: seq<bool>, cursor: nat, k: nat): (r: seq<nat>)
    requires |up| > 0
    ensures forall s :: s in r ==> s < |up|
    decreases k
  {
    if k == 0 then []
    else
      match Walk(up, cursor, 0)
      case None => []
      case Some(o) => [Slot(|up|, cursor, o)] + Picks(up, NextCursor(|up|, cursor, o), k - 1)
  }

  lemma {:induction false} NextCursorIs(n: nat, cursor: nat, o: nat)
    requires n > 0 && o < n
    ensures var s, next := Slot(n, cursor, o), NextCursor(n, cursor, o);
            next == (if s + 1 < n then s + 1 else 0) && Slot(n, next, 0) == next
  {
    SlotIs(n, cursor, o);
    SlotIs(n, cursor, o + 1);
    assert cursor + (o + 1) == cursor + o + 1;
    var next := NextCursor(n, cursor, o);
    SlotIs(n, next, 0);
    ModUnique(next, n, 0, next);
  }

  lemma {:induction false} PicksInOrder(up: seq<bool>, cursor: nat, k: nat)
    requires |up| > 0 && Slots(up, 0) != [] && k <= |Slots(up, Slot(|up|, cursor, 0))| + |Slots(up, 0)|
    ensures Picks(up, cursor, k) == (Slots(up, Slot(|up|, cursor, 0)) + Slots(up, 0))[..k]
    decreases k
  {
    hide Slot, Walk, NextCursor, Slots;
    if k > 0 {
      var n, c, all := |up|, Slot(|up|, cursor, 0), Slots(up, 0);
      WalkIsNext(up, cursor);
      WalkStops(up, cursor, 0);
      var o := Walk(up, cursor, 0).value;
      NextCursorIs(n, cursor, o);
      var s, next := Slot(n, cursor, o), NextCursor(n, cursor, o);
      var mine := Slots(up, c);
      SlotsEnd(up);
      SlotsHead(up, if mine != [] then c else 0);
      var left := Slots(up, s + 1);
      PicksInOrder(up, next, k - 1);
      assert Picks(up, next, k - 1) == (left + all)[..k - 1];
      if mine != [] {
        HeadTail(mine);
        assert (mine + all)[..k] == [s] + (left + all)[..k - 1];
      } else {
        HeadTail(all);
        assert (mine + all)[..k] == [s] + (left + all)[..k - 1];
      }
    }
  }

  lemma {:induction false} SlotsEnd(up: seq<bool>)
    ensures Slots(up, |up|) == []
  {
  }

  /**
   As many selections as there are available slots visit them in cyclic order from the
   cursor, hence each exactly once.
   */
  lemma {:induction false} FullTurn(up: seq<bool>, cursor: nat)
    requires |up| > 0 && Slots(up, 0) != []
    ensures var c := Slot(|up|, cursor, 0);
            Picks(up, cursor, |Slots(up, 0)|) == Slots(up, c) + Below(up, c)
    ensures multiset(Picks(up, cursor, |Slots(up, 0)|)) == multiset(Slots(up, 0))
  {
    hide Slots, Below, Picks;
    var c := Slot(|up|, cursor, 0);
    var s, b := Slots(up, c), Below(up, c);
    SlotsSplit(up, c);
    PicksInOrder(up, cursor, |Slots(up, 0)|);
    assert (s + (b + s))[..|b + s|] == s + b;
    assert multiset(s + b) == multiset(b + s);
  }
}
