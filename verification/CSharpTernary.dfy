/**
 The rewriting of the C# conditional operator `c ? t : e` into Python's `(t if c else e)`.
 */
module CSharpTernary {
  import opened Common
  import opened CSharpScanner
  import opened CSharpText

  /** A conditional expression; conditions are leaves, as the operator associates to the right. */
  datatype Tree =
    | Leaf(text: string)
    | Conditional(condition: string, whenTrue: Tree, whenFalse: Tree)

  function CSharp(t: Tree): string {
    match t
    case Leaf(text) => text
    case Conditional(c, a, b) => c + "?" + CSharp(a) + ":" + CSharp(b)
  }

  function Python(t: Tree): string {
    match t
    case Leaf(text) => text
    case Conditional(c, a, b) => "(" + Python(a) + " if " + c + " else " + Python(b) + ")"
  }

  /** `_find_ternary_parts` on values: the top-level question mark and its colon. */
  datatype Parts = Whole | Missing | Three(condition: string, whenTrue: string, whenFalse: string)

  function PartsOf(s: string): (r: Parts) {
    match Scan(s, Code, FLAT, QuestionStep)
    case Ended(_) => Whole
    case At(q) =>
      match Scan(s[q + 1..], Code, 0, ColonStep)
      case Ended(_) => Missing
      case At(c) => Three(s[..q], s[q + 1..q + 1 + c], s[q + c + 2..])
  }

  /** `_find_ternary_parts`, through the two position loops. */
  method FindTernaryParts(s: string) returns (r: Parts)
    ensures r == PartsOf(s)
  {
    assert Drop(s, 0) == s;
    var question := FindTopLevelQuestion(s);
    if question == None {
      return Whole;
    }
    var q := question.value;
    assert Drop(s, q + 1) == s[q + 1..];
    var colon := FindTernaryColon(s, q);
    if colon == None {
      return Missing;
    }
    return Three(s[..q], s[q + 1..colon.value], s[colon.value + 1..]);
  }

  /** The three parts are the text, cut at one question mark and one colon; the first has no cut. */
  lemma {:induction false} PartsRejoin(s: string)
    requires PartsOf(s).Three?
    ensures var p := PartsOf(s); s == p.condition + "?" + p.whenTrue + ":" + p.whenFalse
    ensures PartsOf(PartsOf(s).condition).Whole?
  {
    hide Scan;
    var q := Scan(s, Code, FLAT, QuestionStep).index;
    var c := Scan(s[q + 1..], Code, 0, ColonStep).index;
    var _ := StopsAt(s, Code, FLAT, QuestionStep);
    var _ := StopsAt(s[q + 1..], Code, 0, ColonStep);
    StopsFirst(s, Code, FLAT, QuestionStep);
    assert s[q] == '?' && s[q + 1 + c] == ':';
    assert s == s[..q] + [s[q]] + s[q + 1..q + 1 + c] + [s[q + 1 + c]] + s[q + c + 2..];
  }

  /** `_translate_ternary`; the error is the missing colon. Terminates on every text. */
  function TranslateTernary(s: string): Result<string, ()>
    decreases |s|
  {
    match PartsOf(s)
    case Whole => Ok(s)
    case Missing => Err(())
    case Three(c, a, b) =>
      PartsRejoin(s);
      match (TranslateTernary(a), TranslateTernary(c), TranslateTernary(b))
      case (Ok(a'), Ok(c'), Ok(b')) => Ok("(" + a' + " if " + c' + " else " + b' + ")")
      case _ => Err(())
  }

  // ----- Every accepted text is read as one conditional tree -----

  /** No leaf or condition has a question mark outside literals and brackets. */
  predicate Reduced(t: Tree) {
    match t
    case Leaf(text) => PartsOf(text).Whole?
    case Conditional(c, a, b) => PartsOf(c).Whole? && Reduced(a) && Reduced(b)
  }

  /**
   For every text the rewriter accepts, some tree with fully split leaves has that C# text,
   and the output is the Python text of the same tree: nothing is lost, added or reordered.
   */
  lemma {:induction false} TranslateReads(s: string) returns (t: Tree)
    requires TranslateTernary(s).Ok?
    ensures Reduced(t) && CSharp(t) == s && Python(t) == TranslateTernary(s).value
    decreases |s|
  {
    match PartsOf(s) {
      case Whole => t := Leaf(s);
      case Three(c, a, b) =>
        PartsRejoin(s);
        var ta := TranslateReads(a);
        var tb := TranslateReads(b);
        t := Conditional(c, ta, tb);
    }
  }

  // ----- Every well-bracketed tree is rewritten exactly -----

  /** Well-bracketed, no question mark outside brackets, and question marks and colons pair up. */
  ghost predicate Atom(s: string) {
    exists ps :: Text(ps) == s && Closed(ps) && TopFree(ps, '?') && OpenMarks(ps, 0) == 0
  }

  ghost predicate Atomic(t: Tree) {
    match t
    case Leaf(text) => Atom(text)
    case Conditional(c, a, b) => Atom(c) && Atomic(a) && Atomic(b)
  }

  lemma {:induction false} AtomCrosses(s: string, n: nat)
    requires Atom(s)
    ensures Crosses(s, Code, FLAT, QuestionStep, FLAT)
    ensures Crosses(s, Code, n, ColonStep, n)
  {
    var ps :| Text(ps) == s && Closed(ps) && TopFree(ps, '?') && OpenMarks(ps, 0) == 0;
    QuestionCrosses(ps, FLAT);
    OpenMarksShift(ps, 0, n);
    ColonCrosses(ps, n);
  }

  /** The search for a colon skips a whole nested tree. */
  lemma {:induction false} TreeCrosses(t: Tree, n: nat)
    requires Atomic(t)
    ensures Crosses(CSharp(t), Code, n, ColonStep, n)
  {
    match t
    case Leaf(text) => AtomCrosses(text, n);
    case Conditional(c, a, b) =>
      AtomCrosses(c, n);
      CrossesChar('?', n, ColonStep, n + 1);
      CrossesAppend(c, "?", Code, n, ColonStep, n, n + 1);
      TreeCrosses(a, n + 1);
      CrossesAppend(c + "?", CSharp(a), Code, n, ColonStep, n + 1, n + 1);
      CrossesChar(':', n + 1, ColonStep, n);
      CrossesAppend(c + "?" + CSharp(a), ":", Code, n, ColonStep, n + 1, n);
      TreeCrosses(b, n);
      CrossesAppend(c + "?" + CSharp(a) + ":", CSharp(b), Code, n, ColonStep, n, n);
  }

  lemma {:induction false} WholeAtom(s: string)
    requires Atom(s)
    ensures PartsOf(s) == Whole
  {
    AtomCrosses(s, 0);
    ScanAfter(s, [], Code, FLAT, QuestionStep, FLAT);
    assert s + [] == s;
  }

  lemma {:induction false} PartsOfText(c: string, a: string, b: string)
    requires Crosses(c, Code, FLAT, QuestionStep, FLAT)
    requires Crosses(a, Code, 0, ColonStep, 0)
    ensures PartsOf(c + "?" + a + ":" + b) == Three(c, a, b)
  {
    hide Scan, Crosses;
    var s, tail := c + "?" + a + ":" + b, ":" + b;
    Slices(c, a, b);
    StopsAfter(c, "?" + (a + tail), Code, FLAT, QuestionStep, FLAT);
    StopsAfter(a, tail, Code, 0, ColonStep, 0);
  }

  lemma {:induction false} Slices(c: string, a: string, b: string)
    ensures var s, tail := c + "?" + a + ":" + b, ":" + b;
            && s == c + ("?" + (a + tail)) && s[..|c|] == c && s[|c| + 1..] == a + tail
            && s[|c| + 1..|c| + 1 + |a|] == a && s[|c| + |a| + 2..] == b
  {
  }

  /** The rewriter maps the C# text of a tree to the Python text of the same tree. */
  lemma {:induction false} TranslateTree(t: Tree)
    requires Atomic(t)
    ensures TranslateTernary(CSharp(t)) == Ok(Python(t))
  {
    match t
    case Leaf(text) => WholeAtom(text);
    case Conditional(c, a, b) =>
      AtomCrosses(c, 0);
      TreeCrosses(a, 0);
      PartsOfText(c, CSharp(a), CSharp(b));
      WholeAtom(c);
      TranslateTree(a);
      TranslateTree(b);
  }
}
