/**
 A grammar of well-bracketed C# text, independent of the scanners: ordinary characters,
 string literals with escapes, and bracketed groups. Each scanner crosses any such text
 and comes out in the state it went in with, provided the characters it looks for do not
 occur where it would see them.
 */
module CSharpText {
  import opened CSharpScanner

  /** A character of a literal: an ordinary one, or a backslash and the character after it. */
  datatype LiteralChar = Raw(c: char) | Escaped(c: char)

  datatype Piece =
    | Plain(c: char)
    | Literal(mark: char, body: seq<LiteralChar>)
    | Group(open: char, inner: seq<Piece>)

  function Close(open: char): char {
    match open
    case '(' => ')'
    case '[' => ']'
    case _ => '}'
  }

  function LiteralText(body: seq<LiteralChar>): string {
    if body == [] then []
    else (match body[0] case Raw(c) => [c] case Escaped(c) => ['\\', c]) + LiteralText(body[1..])
  }

  function PieceText(p: Piece): string
    decreases p
  {
    match p
    case Plain(c) => [c]
    case Literal(mark, body) => [mark] + LiteralText(body) + [mark]
    case Group(open, inner) => [open] + Text(inner) + [Close(open)]
  }

  function Text(ps: seq<Piece>): string
    decreases ps
  {
    if ps == [] then [] else PieceText(ps[0]) + Text(ps[1..])
  }

  /** Brackets pair up and literals are closed. */
  predicate Closed(ps: seq<Piece>)
    decreases ps
  {
    ps == [] || (
      Closed(ps[1..]) &&
      match ps[0]
      case Plain(c) => c !in {'"', '\'', '(', ')', '[', ']', '{', '}'}
      case Literal(mark, body) =>
        mark in {'"', '\''} && forall i :: 0 <= i < |body| && body[i].Raw? ==> body[i].c != mark && body[i].c != '\\'
      case Group(open, inner) => open in {'(', '[', '{'} && Closed(inner)
    )
  }

  /** `c` does not occur outside literals and groups. */
  predicate TopFree(ps: seq<Piece>, c: char) {
    forall i :: 0 <= i < |ps| ==> ps[i] != Plain(c)
  }

  /**
   The conditional operators left open after `ps`, at any bracket depth, when `n` were
   open before it; -1 when some colon has no question mark before it.
   */
  function OpenMarks(ps: seq<Piece>, n: int): (r: int)
    ensures r >= -1
    decreases ps
  {
    if n < 0 then -1
    else if ps == [] then n
    else match ps[0]
      case Plain(c) => OpenMarks(ps[1..], if c == '?' then n + 1 else if c == ':' then n - 1 else n)
      case Literal(_, _) => OpenMarks(ps[1..], n)
      case Group(_, inner) => OpenMarks(ps[1..], OpenMarks(inner, n))
  }

  lemma {:induction false} OpenMarksShift(ps: seq<Piece>, n: int, k: nat)
    requires OpenMarks(ps, n) >= 0
    ensures OpenMarks(ps, n + k) == OpenMarks(ps, n) + k
    decreases ps
  {
    if ps != [] {
      match ps[0]
      case Plain(c) =>
        OpenMarksShift(ps[1..], if c == '?' then n + 1 else if c == ':' then n - 1 else n, k);
      case Literal(_, _) =>
        OpenMarksShift(ps[1..], n, k);
      case Group(_, inner) =>
        OpenMarksShift(inner, n, k);
        OpenMarksShift(ps[1..], OpenMarks(inner, n), k);
    }
  }

  // ----- Crossing -----

  lemma {:induction false} CrossesChar<S>(c: char, st: S, step: (char, S) -> Step<S>, end: S)
    requires !IsQuote(c) && step(c, st) == Go(end)
    ensures Crosses([c], Code, st, step, end)
  {
    assert Crosses([c][1..], Code, end, step, end);
  }

  lemma {:induction false} CrossesLiteralBody<S>(
      mark: char, body: seq<LiteralChar>, st: S, step: (char, S) -> Step<S>)
    requires IsQuote(mark)
    requires forall i :: 0 <= i < |body| && body[i].Raw? ==> body[i].c != mark && body[i].c != '\\'
    ensures Crosses(LiteralText(body) + [mark], Inside(mark), st, step, st)
    decreases |body|
  {
    var s := LiteralText(body) + [mark];
    if body == [] {
      assert s == [mark] && s[1..] == [];
    } else {
      CrossesLiteralBody(mark, body[1..], st, step);
      var n := if body[0].Raw? then 1 else 2;
      assert s[n..] == LiteralText(body[1..]) + [mark];
    }
  }

  lemma {:induction false} CrossesLiteral<S>(p: Piece, st: S, step: (char, S) -> Step<S>)
    requires p.Literal? && Closed([p])
    ensures Crosses(PieceText(p), Code, st, step, st)
  {
    CrossesLiteralBody(p.mark, p.body, st, step);
    assert PieceText(p)[1..] == LiteralText(p.body) + [p.mark];
  }

  /** A group is crossed when its brackets and its contents are. */
  lemma {:induction false} CrossesGroup<S>(p: Piece, st: S, step: (char, S) -> Step<S>, inside: S, inside': S, end: S)
    requires p.Group? && Closed([p])
    requires step(p.open, st) == Go(inside)
    requires Crosses(Text(p.inner), Code, inside, step, inside')
    requires step(Close(p.open), inside') == Go(end)
    ensures Crosses(PieceText(p), Code, st, step, end)
  {
    CrossesChar(p.open, st, step, inside);
    CrossesAppend([p.open], Text(p.inner), Code, st, step, inside, inside');
    CrossesChar(Close(p.open), inside', step, end);
    CrossesAppend([p.open] + Text(p.inner), [Close(p.open)], Code, st, step, inside', end);
  }

  predicate NonNegative(lv: Levels) {
    lv.paren >= 0 && lv.bracket >= 0 && lv.brace >= 0
  }

  lemma {:induction false} QuestionCrosses(ps: seq<Piece>, lv: Levels)
    requires Closed(ps) && NonNegative(lv)
    requires lv.Flat() ==> TopFree(ps, '?')
    ensures Crosses(Text(ps), Code, lv, QuestionStep, lv)
    decreases ps
  {
    if ps != [] {
      var p := ps[0];
      assert Closed([p]);
      match p {
        case Plain(c) => CrossesChar(c, lv, QuestionStep, lv);
        case Literal(_, _) => CrossesLiteral(p, lv, QuestionStep);
        case Group(open, inner) =>
          var deeper := UpdateLevels(open, lv);
          QuestionCrosses(inner, deeper);
          CrossesGroup(p, lv, QuestionStep, deeper, deeper, lv);
      }
      QuestionCrosses(ps[1..], lv);
      CrossesAppend(PieceText(p), Text(ps[1..]), Code, lv, QuestionStep, lv, lv);
    }
  }

  lemma {:induction false} ColonCrosses(ps: seq<Piece>, n: int)
    requires Closed(ps) && OpenMarks(ps, n) >= 0
    ensures Crosses(Text(ps), Code, n, ColonStep, OpenMarks(ps, n))
    decreases ps
  {
    if ps != [] {
      var p := ps[0];
      assert Closed([p]);
      var m := match p
        case Plain(c) => if c == '?' then n + 1 else if c == ':' then n - 1 else n
        case Literal(_, _) => n
        case Group(_, inner) => OpenMarks(inner, n);
      match p {
        case Plain(c) => CrossesChar(c, n, ColonStep, m);
        case Literal(_, _) => CrossesLiteral(p, n, ColonStep);
        case Group(open, inner) =>
          ColonCrosses(inner, n);
          CrossesGroup(p, n, ColonStep, n, m, m);
      }
      ColonCrosses(ps[1..], m);
      CrossesAppend(PieceText(p), Text(ps[1..]), Code, n, ColonStep, m, OpenMarks(ps, n));
    }
  }

  lemma {:induction false} ParenCrosses(ps: seq<Piece>, depth: int)
    requires Closed(ps) && depth >= 1
    ensures Crosses(Text(ps), Code, depth, ParenStep, depth)
    decreases ps
  {
    if ps != [] {
      var p := ps[0];
      assert Closed([p]);
      match p {
        case Plain(c) => CrossesChar(c, depth, ParenStep, depth);
        case Literal(_, _) => CrossesLiteral(p, depth, ParenStep);
        case Group(open, inner) =>
          var deeper := if open == '(' then depth + 1 else depth;
          ParenCrosses(inner, deeper);
          CrossesGroup(p, depth, ParenStep, deeper, deeper, depth);
      }
      ParenCrosses(ps[1..], depth);
      CrossesAppend(PieceText(p), Text(ps[1..]), Code, depth, ParenStep, depth, depth);
    }
  }

  lemma {:induction false} StatementCrosses(ps: seq<Piece>, lv: Levels)
    requires Closed(ps) && NonNegative(lv)
    requires lv.Flat() ==> TopFree(ps, ';')
    ensures Crosses(Text(ps), Code, lv, StatementStep, lv)
    decreases ps
  {
    if ps != [] {
      var p := ps[0];
      assert Closed([p]);
      match p {
        case Plain(c) => CrossesChar(c, lv, StatementStep, lv);
        case Literal(_, _) => CrossesLiteral(p, lv, StatementStep);
        case Group(open, inner) =>
          var deeper := UpdateLevels(open, lv);
          StatementCrosses(inner, deeper);
          CrossesGroup(p, lv, StatementStep, deeper, deeper, lv);
      }
      StatementCrosses(ps[1..], lv);
      CrossesAppend(PieceText(p), Text(ps[1..]), Code, lv, StatementStep, lv, lv);
    }
  }
}
