/**
 Execution of parsed statements, and the static check that every path returns.

 Expressions are opaque: an oracle answers the `n`-th evaluation of a run. It may depend
 on the locals and change them, and it may raise, as the embedded evaluator can.
 */
module CSharpReturns {
  import opened Common
  import opened CSharpParser

  datatype Value = Null | Bool(b: bool) | Other(id: int)

  type Locals = map<string, Value>

  datatype Reply = Got(value: Value, locals: Locals) | Failure

  datatype Oracle = Oracle(
    eval: (nat, string, Locals) -> Reply,
    /** A declaration or assignment; None when it is neither or its expression raises. */
    effect: (nat, string, Locals) -> Option<Locals>)

  /** How a statement list ends; `Fell` carries the locals and the evaluations made so far. */
  datatype Ending = Fell(locals: Locals, asked: nat) | Returned(value: Value) | Raised

  predicate IsReturn(text: string) {
    StartsWith(text, "return")
  }

  function ExecuteSimple(text: string, o: Oracle, locals: Locals, n: nat): Ending {
    if IsReturn(text) then
      var e := Strip(text[6..]);
      if e == [] then Returned(Null)
      else match o.eval(n, e, locals) case Got(v, _) => Returned(v) case Failure => Raised
    else match o.effect(n, text, locals) case Some(l) => Fell(l, n + 1) case None => Raised
  }

  function ExecuteOne(t: Stmt, o: Oracle, locals: Locals, n: nat): Ending
    decreases t
  {
    match t
    case Simple(text) => ExecuteSimple(text, o, locals, n)
    case Block(body) => ExecuteAll(body, o, locals, n)
    case If(c, a) => (
      match o.eval(n, c, locals)
      case Got(Bool(b), l) => if b then ExecuteAll(a, o, l, n + 1) else Fell(l, n + 1)
      case _ => Raised)
    case IfElse(c, a, b) => (
      match o.eval(n, c, locals)
      case Got(Bool(true), l) => ExecuteAll(a, o, l, n + 1)
      case Got(Bool(false), l) => ExecuteAll(b, o, l, n + 1)
      case _ => Raised)
  }

  function ExecuteAll(ts: seq<Stmt>, o: Oracle, locals: Locals, n: nat): Ending
    decreases ts
  {
    if ts == [] then Fell(locals, n)
    else
      match ExecuteOne(ts[0], o, locals, n)
      case Fell(l, m) => ExecuteAll(ts[1..], o, l, m)
      case ending => ending
  }

  /** `_guarantees_return` */
  predicate GuaranteesReturn(t: Stmt)
    decreases t
  {
    match t
    case Simple(text) => IsReturn(text)
    case Block(body) => SomeGuarantees(body)
    case If(_, _) => false
    case IfElse(_, a, b) => SomeGuarantees(a) && SomeGuarantees(b)
  }

  predicate SomeGuarantees(ts: seq<Stmt>)
    decreases ts
  {
    ts != [] && (GuaranteesReturn(ts[0]) || SomeGuarantees(ts[1..]))
  }

  // ----- Accepted programs never fall through -----

  lemma {:induction false} GuaranteeHolds(t: Stmt, o: Oracle, locals: Locals, n: nat)
    ensures GuaranteesReturn(t) ==> !ExecuteOne(t, o, locals, n).Fell?
    decreases t
  {
    match t
    case Simple(_) =>
    case If(_, _) =>
    case Block(body) => GuaranteesHold(body, o, locals, n);
    case IfElse(c, a, b) =>
      if o.eval(n, c, locals).Got? {
        GuaranteesHold(a, o, o.eval(n, c, locals).locals, n + 1);
        GuaranteesHold(b, o, o.eval(n, c, locals).locals, n + 1);
      }
  }

  lemma {:induction false} GuaranteesHold(ts: seq<Stmt>, o: Oracle, locals: Locals, n: nat)
    ensures SomeGuarantees(ts) ==> !ExecuteAll(ts, o, locals, n).Fell?
    decreases ts
  {
    if ts != [] {
      GuaranteeHolds(ts[0], o, locals, n);
      match ExecuteOne(ts[0], o, locals, n)
      case Fell(l, m) => GuaranteesHold(ts[1..], o, l, m);
      case _ =>
    }
  }

  // ----- Rejected programs fall through for some condition outcomes -----

  /** Every evaluation succeeds; the `n`-th one is the Boolean `choices[n]`. */
  function Chooser(choices: seq<bool>): Oracle {
    Oracle((n: nat, _, l) => Got(Bool(n < |choices| && choices[n]), l), (_, _, l) => Some(l))
  }

  ghost predicate FallsOn(ts: seq<Stmt>, locals: Locals, n: nat, choices: seq<bool>) {
    forall more :: choices <= more ==> ExecuteAll(ts, Chooser(more), locals, n) == Fell(locals, |choices|)
  }

  ghost predicate OneFallsOn(t: Stmt, locals: Locals, n: nat, choices: seq<bool>) {
    forall more :: choices <= more ==> ExecuteOne(t, Chooser(more), locals, n) == Fell(locals, |choices|)
  }

  lemma {:induction false} FindOneFall(t: Stmt, locals: Locals, before: seq<bool>) returns (choices: seq<bool>)
    requires !GuaranteesReturn(t)
    ensures before <= choices && OneFallsOn(t, locals, |before|, choices)
    decreases t
  {
    match t
    case Simple(_) => choices := before + [false];
    case If(_, _) => choices := before + [false];
    case Block(body) => choices := FindFall(body, locals, before);
    case IfElse(_, a, b) =>
      if SomeGuarantees(a) {
        choices := FindFall(b, locals, before + [false]);
      } else {
        choices := FindFall(a, locals, before + [true]);
      }
  }

  lemma {:induction false} FindFall(ts: seq<Stmt>, locals: Locals, before: seq<bool>) returns (choices: seq<bool>)
    requires !SomeGuarantees(ts)
    ensures before <= choices && FallsOn(ts, locals, |before|, choices)
    decreases ts
  {
    if ts == [] {
      choices := before;
    } else {
      var first := FindOneFall(ts[0], locals, before);
      choices := FindFall(ts[1..], locals, first);
    }
  }

  /**
   The check accepts exactly the programs that cannot fall off their end: an accepted one
   returns or raises under every oracle, and a rejected one falls through under some choice
   of condition outcomes with every evaluation succeeding.
   */
  lemma {:induction false} ReturnCheckExact(ts: seq<Stmt>, locals: Locals)
    ensures SomeGuarantees(ts) <==> forall o :: !ExecuteAll(ts, o, locals, 0).Fell?
    ensures !SomeGuarantees(ts) ==> exists choices :: ExecuteAll(ts, Chooser(choices), locals, 0).Fell?
  {
    if SomeGuarantees(ts) {
      forall o ensures !ExecuteAll(ts, o, locals, 0).Fell? {
        GuaranteesHold(ts, o, locals, 0);
      }
    } else {
      var choices := FindFall(ts, locals, []);
      var o := Chooser(choices);
      assert choices <= choices;
      assert ExecuteAll(ts, o, locals, 0).Fell?;
    }
  }

  // ----- The interpreter and the whole evaluation -----

  /** `_execute_statements` */
  method Execute(ts: seq<Stmt>, o: Oracle, initial: Locals, asked: nat) returns (r: Ending)
    ensures r == ExecuteAll(ts, o, initial, asked)
    decreases ts
  {
    var locals, n := initial, asked;
    for i := 0 to |ts|
      invariant ExecuteAll(ts, o, initial, asked) == ExecuteAll(ts[i..], o, locals, n)
    {
      assert ts[i..][0] == ts[i] && ts[i..][1..] == ts[i + 1..];
      match ts[i] {
        case Simple(text) => r := ExecuteSimple(text, o, locals, n);
        case Block(body) => r := Execute(body, o, locals, n);
        case If(c, a) =>
          var reply := o.eval(n, c, locals);
          if reply.Failure? || !reply.value.Bool? {
            return Raised;
          }
          if reply.value.b {
            r := Execute(a, o, reply.locals, n + 1);
          } else {
            r := Fell(reply.locals, n + 1);
          }
        case IfElse(c, a, b) =>
          var reply := o.eval(n, c, locals);
          if reply.Failure? || !reply.value.Bool? {
            return Raised;
          }
          if reply.value.b {
            r := Execute(a, o, reply.locals, n + 1);
          } else {
            r := Execute(b, o, reply.locals, n + 1);
          }
      }
      if !r.Fell? {
        return;
      }
      locals, n := r.locals, r.asked;
    }
    return Fell(locals, n);
  }

  datatype Evaluation = BadSyntax | NotAllPaths | FellThrough | Error | Result(value: Value)

  /** A top-level sequence that parses leaves no text. */
  lemma {:induction false} TopLevelUsesAll(s: string)
    requires ParseSequence(s, false).Parsed?
    ensures ParseSequence(s, false).rest == []
    decreases |s|
  {
    hide ParseStatement;
    var t := SkipSpace(s);
    if t != [] {
      TopLevelUsesAll(ParseStatement(t).rest);
    }
  }

  /**
   `_evaluate_multistatement` on a body that is not a bare expression. The last-resort error
   after execution is never produced: it would be `FellThrough`.
   */
  method EvaluateMultistatement(body: string, o: Oracle) returns (r: Evaluation)
    requires !StrayBrace(body)
    ensures var p := ParseSequence(body, false);
            if !p.Parsed? || p.past then r == BadSyntax
            else if !SomeGuarantees(p.tree) then r == NotAllPaths
            else match ExecuteAll(p.tree, o, map[], 0)
              case Returned(v) => r == Result(v)
              case Raised => r == Error
              case Fell(_, _) => false
  {
    hide ParseSequence;
    assert Drop(body, 0) == body;
    var parsed := SequenceAt(body, 0, false);
    if parsed.Failed? {
      return BadSyntax;
    }
    TopLevelUsesAll(body);
    var end := SkipSpaceAt(body, parsed.position);
    if end != |body| {
      return BadSyntax;
    }
    var ts := parsed.tree;
    if !SomeGuarantees(ts) {
      return NotAllPaths;
    }
    GuaranteesHold(ts, o, map[], 0);
    var ending := Execute(ts, o, map[], 0);
    match ending
    case Returned(v) => return Result(v);
    case Raised => return Error;
    case Fell(_, _) => return FellThrough;
  }
}
