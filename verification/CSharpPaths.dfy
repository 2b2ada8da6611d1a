/**
 What a program does, without the interpreter: the condition outcomes of a run select a path
 of leaf statements and tests through the program, and the run is a walk along that path.
 */
module CSharpPaths {
  import opened Common
  import opened CSharpParser
  import opened CSharpReturns

  datatype Item = Leaf(text: string) | Test(condition: string, outcome: bool)

  // ----- The path that outcomes select, and the outcomes left over -----

  function Outcome(choices: seq<bool>): bool {
    choices != [] && choices[0]
  }

  /** A true condition selects the first branch; a false one the second, or nothing. */
  function Path(t: Stmt, choices: seq<bool>): (seq<Item>, seq<bool>)
    decreases t
  {
    match t
    case Simple(text) => ([Leaf(text)], choices)
    case Block(body) => PathAll(body, choices)
    case If(c, a) =>
      var (branch, left) := if Outcome(choices) then PathAll(a, Drop(choices, 1)) else ([], Drop(choices, 1));
      ([Test(c, Outcome(choices))] + branch, left)
    case IfElse(c, a, b) =>
      var (branch, left) := if Outcome(choices) then PathAll(a, Drop(choices, 1)) else PathAll(b, Drop(choices, 1));
      ([Test(c, Outcome(choices))] + branch, left)
  }

  function PathAll(ts: seq<Stmt>, choices: seq<bool>): (seq<Item>, seq<bool>)
    decreases ts
  {
    if ts == [] then ([], choices)
    else
      var (first, left) := Path(ts[0], choices);
      var (rest, left') := PathAll(ts[1..], left);
      (first + rest, left')
  }

  // ----- The walk along a path -----

  predicate Returns(i: Item) {
    i.Leaf? && |i.text| >= 6 && i.text[..6] == "return"
  }

  /** A walk ends like a run, or leaves the path at a test that comes out the other way. */
  datatype Walk = Ends(ending: Ending) | OffPath

  /** Each test and each leaf up to the first return is evaluated once, in order. */
  function Follow(items: seq<Item>, o: Oracle, locals: Locals, n: nat): Walk {
    if items == [] then Ends(Fell(locals, n))
    else if Returns(items[0]) then
      var e := Strip(items[0].text[6..]);
      if e == [] then Ends(Returned(Null))
      else match o.eval(n, e, locals) case Got(v, _) => Ends(Returned(v)) case Failure => Ends(Raised)
    else
      match items[0]
      case Leaf(text) => (
        match o.effect(n, text, locals)
        case Some(l) => Follow(items[1..], o, l, n + 1)
        case None => Ends(Raised))
      case Test(c, outcome) =>
        match o.eval(n, c, locals)
        case Got(Bool(b), l) => if b == outcome then Follow(items[1..], o, l, n + 1) else OffPath
        case _ => Ends(Raised)
  }

  lemma {:induction false} FollowAppend(p: seq<Item>, q: seq<Item>, o: Oracle, locals: Locals, n: nat)
    ensures Follow(p + q, o, locals, n) ==
            match Follow(p, o, locals, n)
            case Ends(Fell(l, m)) => Follow(q, o, l, m)
            case other => other
  {
    if p == [] {
      assert p + q == q;
    } else {
      assert (p + q)[0] == p[0] && (p + q)[1..] == p[1..] + q;
      match p[0]
      case Leaf(text) =>
        if !Returns(p[0]) && o.effect(n, text, locals).Some? {
          FollowAppend(p[1..], q, o, o.effect(n, text, locals).value, n + 1);
        }
      case Test(c, outcome) =>
        if o.eval(n, c, locals).Got? {
          FollowAppend(p[1..], q, o, o.eval(n, c, locals).locals, n + 1);
        }
    }
  }

  lemma {:induction false} FollowTest(c: string, outcome: bool, branch: seq<Item>, o: Oracle, locals: Locals, n: nat)
    ensures Follow([Test(c, outcome)] + branch, o, locals, n) ==
            match o.eval(n, c, locals)
            case Got(Bool(b), l) => if b == outcome then Follow(branch, o, l, n + 1) else OffPath
            case _ => Ends(Raised)
  {
    var items := [Test(c, outcome)] + branch;
    assert items[0] == Test(c, outcome) && items[1..] == branch;
  }

  // ----- Every run follows its path -----

  lemma {:induction false} OneFollows(t: Stmt, o: Oracle, locals: Locals, n: nat, choices: seq<bool>)
    ensures Follow(Path(t, choices).0, o, locals, n) in {OffPath, Ends(ExecuteOne(t, o, locals, n))}
    decreases t
  {
    hide Follow;
    var left := Drop(choices, 1);
    match t
    case Simple(text) => LeafFollows(text, o, locals, n);
    case Block(body) => AllFollow(body, o, locals, n, choices);
    case If(c, a) =>
      FollowTest(c, Outcome(choices), if Outcome(choices) then PathAll(a, left).0 else [], o, locals, n);
      var reply := o.eval(n, c, locals);
      if reply.Got? {
        AllFollow(a, o, reply.locals, n + 1, left);
        FollowNothing(o, reply.locals, n + 1);
      }
    case IfElse(c, a, b) =>
      FollowTest(c, Outcome(choices), if Outcome(choices) then PathAll(a, left).0 else PathAll(b, left).0, o, locals, n);
      var reply := o.eval(n, c, locals);
      if reply.Got? {
        AllFollow(a, o, reply.locals, n + 1, left);
        AllFollow(b, o, reply.locals, n + 1, left);
      }
  }

  lemma {:induction false} LeafFollows(text: string, o: Oracle, locals: Locals, n: nat)
    ensures Follow([Leaf(text)], o, locals, n) == Ends(ExecuteSimple(text, o, locals, n))
  {
    assert [Leaf(text)][1..] == [];
  }

  lemma {:induction false} FollowNothing(o: Oracle, locals: Locals, n: nat)
    ensures Follow([], o, locals, n) == Ends(Fell(locals, n))
  {
  }

  lemma {:induction false} AllFollow(ts: seq<Stmt>, o: Oracle, locals: Locals, n: nat, choices: seq<bool>)
    ensures Follow(PathAll(ts, choices).0, o, locals, n) in {OffPath, Ends(ExecuteAll(ts, o, locals, n))}
    decreases ts
  {
    hide Follow;
    if ts == [] {
      FollowNothing(o, locals, n);
    } else {
      var (first, left) := Path(ts[0], choices);
      OneFollows(ts[0], o, locals, n, choices);
      FollowAppend(first, PathAll(ts[1..], left).0, o, locals, n);
      match ExecuteOne(ts[0], o, locals, n)
      case Fell(l, m) => AllFollow(ts[1..], o, l, m, left);
      case _ =>
    }
  }

  // ----- Every run has a path -----

  /** With these outcomes, and any after them, the walk is the run; a run that falls uses them all. */
  ghost predicate Leads(t: Stmt, o: Oracle, locals: Locals, n: nat, choices: seq<bool>) {
    forall more :: LeadsWith(t, o, locals, n, choices, more)
  }

  ghost predicate LeadsWith(t: Stmt, o: Oracle, locals: Locals, n: nat, choices: seq<bool>, more: seq<bool>) {
    var (path, left) := Path(t, choices + more);
    var ending := ExecuteOne(t, o, locals, n);
    Follow(path, o, locals, n) == Ends(ending) && (ending.Fell? ==> left == more)
  }

  ghost predicate AllLead(ts: seq<Stmt>, o: Oracle, locals: Locals, n: nat, choices: seq<bool>) {
    forall more :: AllLeadWith(ts, o, locals, n, choices, more)
  }

  ghost predicate AllLeadWith(ts: seq<Stmt>, o: Oracle, locals: Locals, n: nat, choices: seq<bool>, more: seq<bool>) {
    var (path, left) := PathAll(ts, choices + more);
    var ending := ExecuteAll(ts, o, locals, n);
    Follow(path, o, locals, n) == Ends(ending) && (ending.Fell? ==> left == more)
  }

  lemma {:induction false} NothingLeads(o: Oracle, locals: Locals, n: nat)
    ensures AllLead([], o, locals, n, [])
  {
    forall more ensures AllLeadWith([], o, locals, n, [], more) {
      assert [] + more == more;
    }
  }

  lemma {:induction false} FindOnePath(t: Stmt, o: Oracle, locals: Locals, n: nat) returns (choices: seq<bool>)
    ensures Leads(t, o, locals, n, choices)
    decreases t
  {
    hide Follow;
    choices := [];
    match t
    case Simple(text) =>
      LeafFollows(text, o, locals, n);
      forall more ensures LeadsWith(t, o, locals, n, choices, more) {
        assert choices + more == more;
      }
    case Block(body) =>
      choices := FindPath(body, o, locals, n);
      forall more ensures LeadsWith(t, o, locals, n, choices, more) {
        assert AllLeadWith(body, o, locals, n, choices, more);
      }
    case If(c, a) => choices := FindBranchPath(t, c, a, [], o, locals, n);
    case IfElse(c, a, b) => choices := FindBranchPath(t, c, a, b, o, locals, n);
  }

  lemma {:induction false} FindBranchPath(
      t: Stmt, c: string, a: seq<Stmt>, b: seq<Stmt>, o: Oracle, locals: Locals, n: nat) returns (choices: seq<bool>)
    requires t == IfElse(c, a, b) || (t == If(c, a) && b == [])
    ensures Leads(t, o, locals, n, choices)
    decreases t, 0
  {
    hide Follow;
    var reply := o.eval(n, c, locals);
    choices := [];
    if reply.Got? && reply.value.Bool? {
      var branch := if reply.value.b then a else b;
      var rest := [];
      if branch == [] {
        NothingLeads(o, reply.locals, n + 1);
      } else {
        rest := FindPath(branch, o, reply.locals, n + 1);
      }
      choices := [reply.value.b] + rest;
      forall more ensures LeadsWith(t, o, locals, n, choices, more) {
        assert AllLeadWith(branch, o, reply.locals, n + 1, rest, more);
        assert Drop(choices + more, 1) == rest + more;
        FollowTest(c, reply.value.b, PathAll(branch, rest + more).0, o, locals, n);
      }
    } else {
      forall more ensures LeadsWith(t, o, locals, n, choices, more) {
        var path := Path(t, choices + more).0;
        FollowTest(c, path[0].outcome, path[1..], o, locals, n);
        HeadTail(path);
      }
    }
  }

  lemma {:induction false} FindPath(ts: seq<Stmt>, o: Oracle, locals: Locals, n: nat) returns (choices: seq<bool>)
    ensures AllLead(ts, o, locals, n, choices)
    decreases ts
  {
    hide Follow;
    choices := [];
    if ts == [] {
      NothingLeads(o, locals, n);
    } else {
      var first := FindOnePath(ts[0], o, locals, n);
      var ending := ExecuteOne(ts[0], o, locals, n);
      var rest := [];
      if ending.Fell? {
        rest := FindPath(ts[1..], o, ending.locals, ending.asked);
      }
      choices := first + rest;
      forall more ensures AllLeadWith(ts, o, locals, n, choices, more) {
        assert choices + more == first + (rest + more);
        assert LeadsWith(ts[0], o, locals, n, first, rest + more);
        var (path, left) := Path(ts[0], choices + more);
        FollowAppend(path, PathAll(ts[1..], left).0, o, locals, n);
        if ending.Fell? {
          assert AllLeadWith(ts[1..], o, ending.locals, ending.asked, rest, more);
        }
      }
    }
  }

  /**
   A run is exactly the walk along its path: some outcomes select a path that the run does
   not leave, and along every such path the run evaluates the tests and leaves of the path,
   in order and up to the first return, and ends as the walk does.
   */
  lemma {:induction false} RunIsPath(ts: seq<Stmt>, o: Oracle, locals: Locals)
    ensures forall choices :: Follow(PathAll(ts, choices).0, o, locals, 0) in {OffPath, Ends(ExecuteAll(ts, o, locals, 0))}
    ensures exists choices :: Follow(PathAll(ts, choices).0, o, locals, 0) == Ends(ExecuteAll(ts, o, locals, 0))
  {
    hide Follow;
    forall choices ensures Follow(PathAll(ts, choices).0, o, locals, 0) in {OffPath, Ends(ExecuteAll(ts, o, locals, 0))} {
      AllFollow(ts, o, locals, 0, choices);
    }
    var choices := FindPath(ts, o, locals, 0);
    assert AllLeadWith(ts, o, locals, 0, choices, []);
    assert choices + [] == choices;
  }

  /** The value of a walk is that of the first return on its path; a walk without one falls through. */
  lemma {:induction false} FirstReturn(items: seq<Item>, o: Oracle, locals: Locals, n: nat)
    ensures var w := Follow(items, o, locals, n);
            && (w.Ends? && w.ending.Fell? ==> forall i :: 0 <= i < |items| ==> !Returns(items[i]))
            && (w.Ends? && w.ending.Returned? ==>
                  exists k, l, m :: 0 <= k < |items| && Returns(items[k]) && (forall i :: 0 <= i < k ==> !Returns(items[i]))
                    && Follow(items[k..], o, l, m) == w)
  {
    var w := Follow(items, o, locals, n);
    if items != [] && !Returns(items[0]) {
      var rest := items[1..];
      var (l, ok) := match items[0]
        case Leaf(text) => (match o.effect(n, text, locals) case Some(l) => (l, true) case None => (locals, false))
        case Test(c, b) => (match o.eval(n, c, locals) case Got(Bool(b'), l) => (l, b' == b) case _ => (locals, false));
      if ok {
        FirstReturn(rest, o, l, n + 1);
        assert w == Follow(rest, o, l, n + 1);
        assert forall i :: 0 < i < |items| ==> items[i] == rest[i - 1];
        if w.Ends? && w.ending.Returned? {
          var k, l', m :| 0 <= k < |rest| && Returns(rest[k]) && (forall i :: 0 <= i < k ==> !Returns(rest[i]))
            && Follow(rest[k..], o, l', m) == w;
          assert items[k + 1..] == rest[k..];
          assert Returns(items[k + 1]);
        }
      }
    } else if items != [] {
      assert items[0..] == items;
    }
  }
}
