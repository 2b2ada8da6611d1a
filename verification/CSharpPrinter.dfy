/**
 A printer for statement trees, and the proof that parsing undoes it whatever whitespace
 the printer puts between tokens.
 */
module CSharpPrinter {
  import opened Common
  import opened CSharpScanner
  import opened CSharpText
  import opened CSharpParser

  // ----- The printer: each function puts its text in front of `rest` -----

  /**
   How a program is written. `space` is the whitespace in front of each token, given the text
   from that token on. `bare` says which one-statement branches go without braces, given the
   branch and the text behind it, and `open` which simple statements go without a semicolon
   where none is needed. No two places of a program have the same text there, so every choice
   per place is such a function.
   */
  datatype Layout = Layout(space: string -> string, bare: (seq<Stmt>, string) -> bool, open: (string, string) -> bool)

  ghost predicate Blanks(ws: Layout) {
    forall s :: Blank(ws.space(s))
  }

  function Pad(ws: Layout, s: string): string {
    ws.space(s) + s
  }

  /** Behind the last statement of a program or block. */
  predicate AtEnd(rest: string) {
    SkipSpace(rest) == [] || SkipSpace(rest)[0] == '}'
  }

  predicate Unclosed(text: string, ws: Layout, rest: string) {
    AtEnd(rest) && ws.open(text, rest)
  }

  /** The text of `t` ends with an `if` that an `else` behind it would belong to. */
  predicate EndsInIf(t: Stmt, ws: Layout, rest: string)
    decreases t
  {
    match t
    case If(_, _) => true
    case IfElse(_, _, whenFalse) => Bare(whenFalse, ws, rest, false) && EndsInIf(whenFalse[0], ws, rest)
    case _ => false
  }

  /** A branch of one statement other than a block is written without braces; in front of an `else` only if that stays its own. */
  predicate Bare(body: seq<Stmt>, ws: Layout, rest: string, beforeElse: bool)
    decreases body
  {
    |body| == 1 && !body[0].Block? && ws.bare(body, rest) && (beforeElse ==> !EndsInIf(body[0], ws, rest))
  }

  /** A statement, without whitespace before it. */
  function PrintStmt(t: Stmt, ws: Layout, rest: string): string
    decreases t, 0
  {
    match t
    case Simple(text) => if Unclosed(text, ws, rest) then text + rest else text + Pad(ws, ";" + rest)
    case Block(body) => PrintBlock(body, ws, rest)
    case If(condition, whenTrue) => PrintIf(condition, ws, Pad(ws, PrintBranch(whenTrue, ws, rest, false)))
    case IfElse(condition, whenTrue, whenFalse) =>
      var otherwise := Pad(ws, "else" + Pad(ws, PrintBranch(whenFalse, ws, rest, false)));
      PrintIf(condition, ws, Pad(ws, PrintBranch(whenTrue, ws, otherwise, true)))
  }

  function PrintIf(condition: string, ws: Layout, rest: string): (r: string)
    ensures r != [] && r[0] == 'i'
  {
    "if" + Pad(ws, "(" + (condition + (")" + rest)))
  }

  function PrintBranch(body: seq<Stmt>, ws: Layout, rest: string, beforeElse: bool): string
    decreases body, 2
  {
    if Bare(body, ws, rest, beforeElse) then PrintStmt(body[0], ws, rest) else PrintBlock(body, ws, rest)
  }

  function PrintBlock(body: seq<Stmt>, ws: Layout, rest: string): (r: string)
    ensures r != [] && r[0] == '{'
    decreases body, 1
  {
    "{" + PrintAll(body, ws, Pad(ws, "}" + rest))
  }

  function PrintAll(ts: seq<Stmt>, ws: Layout, rest: string): string
    decreases ts, 0
  {
    if ts == [] then rest else Pad(ws, PrintStmt(ts[0], ws, PrintAll(ts[1..], ws, rest)))
  }

  /** A whole program. */
  function Print(ts: seq<Stmt>, ws: Layout): string {
    PrintAll(ts, ws, Pad(ws, []))
  }

  // ----- What can be printed -----

  /** Well-bracketed, trimmed, not an `if`, an `else` or a block, and one statement long. */
  ghost predicate LeafText(s: string) {
    && s != [] && !IsSpace(s[0]) && !IsSpace(s[|s| - 1])
    && !StartsIf(s) && !StartsWith(s, "else") && s[0] != '{'
    && exists ps :: Text(ps) == s && Closed(ps) && TopFree(ps, ';')
  }

  ghost predicate ConditionText(s: string) {
    exists ps :: Text(ps) == s && Closed(ps)
  }

  ghost predicate Printable(t: Stmt)
    decreases t
  {
    match t
    case Simple(text) => LeafText(text)
    case Block(body) => AllPrintable(body)
    case If(condition, whenTrue) => ConditionText(condition) && AllPrintable(whenTrue)
    case IfElse(condition, whenTrue, whenFalse) =>
      ConditionText(condition) && AllPrintable(whenTrue) && AllPrintable(whenFalse)
  }

  ghost predicate AllPrintable(ts: seq<Stmt>)
    decreases ts
  {
    ts == [] || (Printable(ts[0]) && AllPrintable(ts[1..]))
  }

  // ----- Whitespace -----

  lemma {:induction false} SkipBlank(ws: string, t: string)
    requires Blank(ws)
    ensures SkipSpace(ws + t) == SkipSpace(t)
  {
    if ws == [] {
      assert ws + t == t;
    } else {
      assert (ws + t)[1..] == ws[1..] + t;
      SkipBlank(ws[1..], t);
    }
  }

  lemma {:induction false} StripAfter(s: string, ws: string)
    requires Blank(ws) && (s == [] || !IsSpace(s[|s| - 1]))
    ensures StripEnd(s + ws) == s
    decreases |ws|
  {
    if ws == [] {
      assert s + ws == s;
    } else {
      var ws' := ws[..|ws| - 1];
      assert (s + ws)[..|s + ws| - 1] == s + ws';
      StripAfter(s, ws');
    }
  }

  lemma {:induction false} CrossesBlank(ws: string, lv: Levels)
    requires Blank(ws)
    ensures Crosses(ws, Code, lv, StatementStep, lv)
    decreases |ws|
  {
    if ws != [] {
      CrossesBlank(ws[1..], lv);
    }
  }

  // ----- Leaves -----

  lemma {:induction false} LeafEnds(s: string, ws: string, rest: string)
    requires LeafText(s) && Blank(ws)
    ensures Scan((s + ws) + (";" + rest), Code, FLAT, StatementStep) == At(|s + ws|)
  {
    hide LeafText, Scan, Crosses;
    LeafCrosses(s, ws);
    StopsAfter(s + ws, ";" + rest, Code, FLAT, StatementStep, FLAT);
  }

  lemma {:induction false} LeafHere(s: string, ws: string, rest: string)
    requires LeafText(s) && Blank(ws)
    ensures ParseHere(s + (ws + (";" + rest))) == Parsed(Simple(s), rest, false)
  {
    hide SimpleStatement, StartsIf, LeafText;
    LeafSimple(s, ws, rest);
    LeafStart(s, ws, rest);
  }

  lemma {:induction false} LeafSimple(s: string, ws: string, rest: string)
    requires LeafText(s) && Blank(ws)
    ensures SimpleStatement(s + (ws + (";" + rest))) == Parsed(Simple(s), rest, false)
  {
    hide Scan, Strip, LeafText, Blank, SimpleStatement;
    assert s + (ws + (";" + rest)) == (s + ws) + (";" + rest);
    LeafEnds(s, ws, rest);
    LeafStrip(s, ws);
    SimpleStops(s + ws, ";" + rest);
    assert (";" + rest)[1..] == rest;
  }

  lemma {:induction false} LeafStrip(s: string, ws: string)
    requires LeafText(s) && Blank(ws)
    ensures Strip(s + ws) == s
  {
    StripAfter(s, ws);
  }

  /** A leaf followed by a semicolon is still not taken for `if`, `else` or a closing brace. */
  lemma {:induction false} LeafStart(s: string, ws: string, rest: string)
    requires LeafText(s) && Blank(ws)
    ensures var t := s + (ws + (";" + rest)); !StartsIf(t) && !StartsWith(t, "else") && t[0] == s[0] && s[0] != '}' && s[0] != '{'
  {
    var t := s + (ws + (";" + rest));
    assert t[|s|] == (ws + (";" + rest))[0];
    StartsInside(s, ws + (";" + rest), "if");
    StartsInside(s, ws + (";" + rest), "else");
    assert IsSpace(t[|s|]) || t[|s|] == ';';
    var ps :| Text(ps) == s && Closed(ps) && TopFree(ps, ';');
    assert s[0] == PieceText(ps[0])[0];
  }

  /** A leaf at the end of a program or block needs no semicolon. */
  lemma {:induction false} LeafOpen(s: string, rest: string)
    requires LeafText(s) && AtEnd(rest)
    ensures ParseHere(s + rest) == Parsed(Simple(s), SkipSpace(rest), false)
  {
    hide SimpleStatement, StartsIf, LeafText, Blank, SkipSpace;
    var ws := SkipSplits(rest);
    LeafOpenStart(s, rest);
    LeafOpenSimple(s, ws, SkipSpace(rest));
    assert s + rest == (s + ws) + SkipSpace(rest);
  }

  lemma {:induction false} LeafOpenSimple(s: string, ws: string, tail: string)
    requires LeafText(s) && Blank(ws) && (tail == [] || tail[0] == '}')
    ensures SimpleStatement((s + ws) + tail) == Parsed(Simple(s), tail, false)
  {
    hide SimpleStatement, LeafText, Blank, Scan, Strip, Crosses;
    LeafStrip(s, ws);
    LeafCrosses(s, ws);
    if tail == [] {
      ScanAfter(s + ws, tail, Code, FLAT, StatementStep, FLAT);
      NothingToScan();
      assert (s + ws) + tail == s + ws;
      SimpleRunsOut(s + ws);
    } else {
      StopsAfter(s + ws, tail, Code, FLAT, StatementStep, FLAT);
      SimpleStops(s + ws, tail);
    }
  }

  lemma {:induction false} NothingToScan()
    ensures Scan([], Code, FLAT, StatementStep) == Ended(0)
  {
  }

  lemma {:induction false} LeafCrosses(s: string, ws: string)
    requires LeafText(s) && Blank(ws)
    ensures Crosses(s + ws, Code, FLAT, StatementStep, FLAT)
  {
    var ps :| Text(ps) == s && Closed(ps) && TopFree(ps, ';');
    StatementCrosses(ps, FLAT);
    CrossesBlank(ws, FLAT);
    CrossesAppend(s, ws, Code, FLAT, StatementStep, FLAT, FLAT);
  }

  lemma {:induction false} LeafOpenStart(s: string, rest: string)
    requires LeafText(s) && AtEnd(rest)
    ensures var t := s + rest; !StartsIf(t) && !StartsWith(t, "else") && t[0] == s[0] && s[0] != '}' && s[0] != '{'
  {
    var t := s + rest;
    StartsInside(s, rest, "if");
    StartsInside(s, rest, "else");
    assert rest != [] ==> IsSpace(rest[0]) || rest[0] == '}';
    assert rest != [] ==> t[|s|] == rest[0];
    assert rest == [] ==> t == s;
    LeafNotBrace(s);
  }

  lemma {:induction false} LeafNotBrace(s: string)
    requires LeafText(s)
    ensures s[0] != '}'
  {
    var ps :| Text(ps) == s && Closed(ps) && TopFree(ps, ';');
    assert s[0] == PieceText(ps[0])[0];
  }

  // ----- One token at a time -----

  lemma {:induction false} ConditionEnds(condition: string, s: string)
    requires ConditionText(condition)
    ensures Scan(condition + (")" + s), Code, 1, ParenStep) == At(|condition|)
  {
    var ps :| Text(ps) == condition && Closed(ps);
    ParenCrosses(ps, 1);
    StopsAfter(condition, ")" + s, Code, 1, ParenStep, 1);
  }

  lemma {:induction false} IfStarts(ws: string, c: string)
    requires Blank(ws) && c != [] && c[0] == '('
    ensures var t := "if" + (ws + c); StartsIf(t) && SkipSpace(t[2..]) == c
  {
    var t := "if" + (ws + c);
    assert t[..2] == "if" && t[2..] == ws + c;
    assert t[2] == (ws + c)[0];
    SkipBlank(ws, c);
  }

  lemma {:induction false} IfHere(ws: Layout, condition: string, s: string)
    requires Blanks(ws) && ConditionText(condition)
    ensures ParseHere(PrintIf(condition, ws, s)) == ParseBranches(condition, s)
  {
    hide Scan, ParseBranches, Blank, ConditionText, StartsIf;
    var inner := condition + (")" + s);
    var c := "(" + inner;
    IfStarts(ws.space(c), c);
    ConditionEnds(condition, s);
    assert c[1..] == inner;
    assert inner[..|condition|] == condition && inner[|condition| + 1..] == s;
  }

  // ----- Trees -----

  /** The next statement of a program, or its end, can follow any statement. */
  predicate Follows(rest: string) {
    !StartsWith(SkipSpace(rest), "else")
  }

  /** A statement that ends in an `if` without `else`, or without its semicolon, takes the whitespace behind it. */
  function Behind(t: Stmt, ws: Layout, rest: string): string
    decreases t
  {
    match t
    case Simple(text) => if Unclosed(text, ws, rest) then SkipSpace(rest) else rest
    case Block(_) => rest
    case If(_, _) => SkipSpace(rest)
    case IfElse(_, _, whenFalse) => if Bare(whenFalse, ws, rest, false) then Behind(whenFalse[0], ws, rest) else rest
  }

  lemma {:induction false} BehindIs(t: Stmt, ws: Layout, rest: string)
    ensures Behind(t, ws, rest) in {rest, SkipSpace(rest)}
    decreases t
  {
    if t.IfElse? && Bare(t.whenFalse, ws, rest, false) {
      BehindIs(t.whenFalse[0], ws, rest);
    }
  }

  /** What is left behind a branch. */
  function BehindBranch(body: seq<Stmt>, ws: Layout, rest: string, beforeElse: bool): string {
    if Bare(body, ws, rest, beforeElse) then Behind(body[0], ws, rest) else rest
  }

  lemma {:induction false} StmtRound(t: Stmt, ws: Layout, rest: string)
    requires Printable(t) && Blanks(ws) && (EndsInIf(t, ws, rest) ==> Follows(rest))
    ensures ParseHere(PrintStmt(t, ws, rest)) == Parsed(t, Behind(t, ws, rest), false)
    decreases t, 0
  {
    hide ParseHere, PrintIf, PrintBlock, PrintBranch, Blank, LeafText, AtEnd, Reads, SkipSpace, ConditionText;
    match t
    case Simple(text) =>
      if Unclosed(text, ws, rest) {
        LeafOpen(text, rest);
      } else {
        LeafHere(text, ws.space(";" + rest), rest);
      }
    case Block(body) => BlockRound(body, ws, rest);
    case If(condition, whenTrue) =>
      BranchRound(whenTrue, ws, rest, false);
      BehindBranchIs(whenTrue, ws, rest, false);
      IfText(condition, ws, Pad(ws, PrintBranch(whenTrue, ws, rest, false)), whenTrue, BehindBranch(whenTrue, ws, rest, false));
    case IfElse(condition, whenTrue, whenFalse) =>
      var alternate := PrintBranch(whenFalse, ws, rest, false);
      var otherwise := Pad(ws, "else" + Pad(ws, alternate));
      BranchRound(whenFalse, ws, rest, false);
      BranchRound(whenTrue, ws, otherwise, true);
      BehindBranchIs(whenTrue, ws, otherwise, true);
      SkipElse(ws.space("else" + Pad(ws, alternate)), Pad(ws, alternate));
      IfElseText(condition, ws, Pad(ws, PrintBranch(whenTrue, ws, otherwise, true)), whenTrue,
                 BehindBranch(whenTrue, ws, otherwise, true), Pad(ws, alternate), whenFalse,
                 BehindBranch(whenFalse, ws, rest, false));
  }

  /** The text parses to a branch that stands for `body`, and `behind` is left. */
  ghost predicate Reads(text: string, body: seq<Stmt>, behind: string) {
    var r := ParseStatement(text);
    r.Parsed? && Stands(r.tree, body) && r.rest == behind && !r.past
  }

  lemma {:induction false} IfText(condition: string, ws: Layout, text: string, body: seq<Stmt>, behind: string)
    requires Blanks(ws) && ConditionText(condition) && Reads(text, body, behind) && Follows(behind)
    ensures ParseHere(PrintIf(condition, ws, text)) == Parsed(If(condition, body), SkipSpace(behind), false)
  {
    hide ParseHere, PrintIf, ParseStatement;
    IfHere(ws, condition, text);
  }

  lemma {:induction false} IfElseText(
      condition: string, ws: Layout, text: string, whenTrue: seq<Stmt>, between: string,
      text': string, whenFalse: seq<Stmt>, behind: string)
    requires Blanks(ws) && ConditionText(condition) && Reads(text, whenTrue, between)
    requires SkipSpace(between) == "else" + text' && Reads(text', whenFalse, behind)
    ensures ParseHere(PrintIf(condition, ws, text)) == Parsed(IfElse(condition, whenTrue, whenFalse), behind, false)
  {
    hide ParseHere, PrintIf, ParseStatement;
    IfHere(ws, condition, text);
    var t := "else" + text';
    assert t[..4] == "else" && t[4..] == text';
  }

  lemma {:induction false} BehindBranchIs(body: seq<Stmt>, ws: Layout, rest: string, beforeElse: bool)
    ensures SkipSpace(BehindBranch(body, ws, rest, beforeElse)) == SkipSpace(rest)
  {
    SkipIdempotent(rest);
    if Bare(body, ws, rest, beforeElse) {
      BehindIs(body[0], ws, rest);
    }
  }

  lemma {:induction false} SkipElse(ws: string, s: string)
    requires Blank(ws)
    ensures SkipSpace(ws + ("else" + s)) == "else" + s
  {
    SkipBlank(ws, "else" + s);
  }

  /** A branch parses to a statement that stands for its body: itself in braces, or its only statement. */
  ghost predicate Stands(branch: Stmt, body: seq<Stmt>) {
    branch == Block(body) || (!branch.Block? && body == [branch])
  }

  lemma {:induction false} BranchRound(body: seq<Stmt>, ws: Layout, rest: string, beforeElse: bool)
    requires AllPrintable(body) && Blanks(ws) && (!beforeElse ==> (Bare(body, ws, rest, false) && EndsInIf(body[0], ws, rest) ==> Follows(rest)))
    ensures Reads(Pad(ws, PrintBranch(body, ws, rest, beforeElse)), body, BehindBranch(body, ws, rest, beforeElse))
    decreases body, 3
  {
    hide ParseHere, PrintBlock, PrintStmt;
    var text := PrintBranch(body, ws, rest, beforeElse);
    SkipBlank(ws.space(text), text);
    if Bare(body, ws, rest, beforeElse) {
      StmtRound(body[0], ws, rest);
      assert body == [body[0]];
      StartOf(body[0], ws, rest);
    } else {
      BlockRound(body, ws, rest);
    }
  }

  lemma {:induction false} BlockRound(body: seq<Stmt>, ws: Layout, rest: string)
    requires AllPrintable(body) && Blanks(ws)
    ensures ParseHere(PrintBlock(body, ws, rest)) == Parsed(Block(body), rest, false)
    decreases body, 2
  {
    hide ParseSequence, PrintAll;
    var s := PrintBlock(body, ws, rest);
    var inner := PrintAll(body, ws, Pad(ws, "}" + rest));
    SequenceRound(body, ws, "}" + rest, true);
    assert s[0] == '{' && s[1..] == inner;
    StartsHead(s, "if");
    assert ("}" + rest)[1..] == rest;
  }

  lemma {:induction false} SequenceStep(ws: string, t: string, first: Stmt, left: string, nested: bool)
    requires Blank(ws) && t != [] && SkipSpace(t) == t && t[0] != '}'
    requires ParseHere(t) == Parsed(first, left, false)
    ensures ParseSequence(ws + t, nested) == Prepend(first, false, ParseSequence(left, nested))
  {
    hide ParseHere;
    SkipBlank(ws, t);
    StatementProgress(t);
  }

  /** The first statement of a printed sequence. */
  lemma {:induction false} FirstRound(ts: seq<Stmt>, ws: Layout, tail: string, nested: bool)
    requires ts != [] && AllPrintable(ts) && Blanks(ws) && (tail == [] || tail[0] == '}')
    ensures ParseSequence(PrintAll(ts, ws, Pad(ws, tail)), nested)
         == Prepend(ts[0], false, ParseSequence(PrintAll(ts[1..], ws, Pad(ws, tail)), nested))
    decreases ts, 0
  {
    hide ParseHere, ParseSequence, PrintStmt, Printable, Blank, Follows;
    var rest := PrintAll(ts[1..], ws, Pad(ws, tail));
    var t := PrintStmt(ts[0], ws, rest);
    StartOf(ts[0], ws, rest);
    FollowsAll(ts[1..], ws, tail);
    StmtRound(ts[0], ws, rest);
    SequenceStep(ws.space(t), t, ts[0], Behind(ts[0], ws, rest), nested);
    BehindIs(ts[0], ws, rest);
    SkipTwice(rest, nested);
  }

  lemma {:induction false} SequenceEnd(ws: string, tail: string, nested: bool)
    requires Blank(ws)
    requires if nested then tail != [] && tail[0] == '}' else tail == []
    ensures ParseSequence(ws + tail, nested) == Parsed([], if nested then tail[1..] else [], false)
  {
    SkipBlank(ws, tail);
  }

  lemma {:induction false} SequenceRound(ts: seq<Stmt>, ws: Layout, tail: string, nested: bool)
    requires AllPrintable(ts) && Blanks(ws)
    requires if nested then tail != [] && tail[0] == '}' else tail == []
    ensures ParseSequence(PrintAll(ts, ws, Pad(ws, tail)), nested)
         == Parsed(ts, if nested then tail[1..] else [], false)
    decreases ts, 1
  {
    hide ParseSequence, Blank;
    if ts == [] {
      SequenceEnd(ws.space(tail), tail, nested);
    } else {
      FirstRound(ts, ws, tail, nested);
      SequenceRound(ts[1..], ws, tail, nested);
      HeadTail(ts);
    }
  }

  lemma {:induction false} SkipTwice(s: string, nested: bool)
    ensures ParseSequence(SkipSpace(s), nested) == ParseSequence(s, nested)
  {
    assert SkipSpace(SkipSpace(s)) == SkipSpace(s);
  }

  /** A printed statement starts with neither whitespace, a closing brace nor `else`. */
  lemma {:induction false} StartOf(t: Stmt, ws: Layout, rest: string)
    requires Printable(t) && Blanks(ws)
    ensures var s := PrintStmt(t, ws, rest);
            s != [] && SkipSpace(s) == s && s[0] != '}' && !StartsWith(s, "else")
  {
    hide PrintBlock, PrintIf, Printable, Blank;
    var s := PrintStmt(t, ws, rest);
    StartsHead(s, "else");
    match t
    case Simple(text) =>
      assert LeafText(text) by { PrintableLeaf(text); }
      if Unclosed(text, ws, rest) {
        LeafOpenStart(text, rest);
      } else {
        LeafStart(text, ws.space(";" + rest), rest);
      }
    case _ =>
  }

  lemma {:induction false} PrintableLeaf(text: string)
    ensures Printable(Simple(text)) ==> LeafText(text)
  {
  }

  lemma {:induction false} FollowsAll(ts: seq<Stmt>, ws: Layout, tail: string)
    requires AllPrintable(ts) && Blanks(ws) && (tail == [] || tail[0] == '}')
    ensures Follows(PrintAll(ts, ws, Pad(ws, tail)))
  {
    if ts == [] {
      SkipBlank(ws.space(tail), tail);
      StartsHead(tail, "else");
    } else {
      var t := PrintStmt(ts[0], ws, PrintAll(ts[1..], ws, Pad(ws, tail)));
      StartOf(ts[0], ws, PrintAll(ts[1..], ws, Pad(ws, tail)));
      SkipBlank(ws.space(t), t);
    }
  }

  /** Parsing the text of any printable program gives the program back and uses all of the text. */
  lemma {:induction false} ParseUndoesPrint(ts: seq<Stmt>, ws: Layout)
    requires AllPrintable(ts) && Blanks(ws)
    ensures ParseSequence(Print(ts, ws), false) == Parsed(ts, [], false)
  {
    SequenceRound(ts, ws, [], false);
  }

  /**
   The word `else` needs no space behind it: behind an `if`, a leaf that only starts with
   those letters, like an assignment to `elsewhere`, is taken for an `else` branch.
   */
  lemma {:induction false} ElseTakesPrefix(condition: string, body: seq<Stmt>, past: bool, leaf: string, rest: string)
    requires LeafText(leaf)
    ensures ParseElse(condition, Block(body), "else" + (leaf + (";" + rest)), past)
         == Parsed(IfElse(condition, body, [Simple(leaf)]), rest, false)
  {
    hide ParseHere, LeafText;
    var s := leaf + (";" + rest);
    var t := "else" + s;
    assert t[..4] == "else" && t[4..] == s;
    assert s == leaf + ([] + (";" + rest));
    LeafHere(leaf, [], rest);
    LeafSpace(leaf);
    assert SkipSpace(s) == s;
  }

  lemma {:induction false} LeafSpace(leaf: string)
    requires LeafText(leaf)
    ensures leaf != [] && !IsSpace(leaf[0])
  {
  }

  // ----- A stray brace -----

  /** Every printable program with a closing brace too many hangs the parser. */
  lemma {:induction false} StrayBraceHangs(ts: seq<Stmt>, ws: Layout, rest: string)
    requires AllPrintable(ts) && Blanks(ws)
    ensures ParseSequence(PrintAll(ts, ws, Pad(ws, "}" + rest)), false).Stuck?
  {
    hide ParseSequence, Blank;
    if ts == [] {
      HangsHere(ws.space("}" + rest), rest);
    } else {
      FirstRound(ts, ws, "}" + rest, false);
      StrayBraceHangs(ts[1..], ws, rest);
    }
  }

  lemma {:induction false} HangsHere(ws: string, rest: string)
    requires Blank(ws)
    ensures ParseSequence(ws + ("}" + rest), false).Stuck?
  {
    hide ParseStatement;
    SkipBlank(ws, "}" + rest);
    StatementProgress("}" + rest);
  }

  /** Such a text. */
  lemma {:induction false} ReturnBraceHangs()
    ensures ParseSequence("return 1;}", false).Stuck?
  {
    hide ParseSequence, LeafText;
    PlainLeaf("return 1");
    var none := Layout(_ => [], (_, _) => false, (_, _) => false);
    var ts := [Simple("return 1")];
    assert ts[1..] == [] && AllPrintable(ts);
    StrayBraceHangs(ts, none, []);
    assert PrintAll(ts, none, Pad(none, "}" + [])) == "return 1;}";
  }

  lemma {:induction false} PlainLeaf(s: string)
    requires s != [] && !IsSpace(s[0]) && !IsSpace(s[|s| - 1]) && s[0] !in {'i', 'e'}
    requires forall i :: 0 <= i < |s| ==> s[i] !in {'"', '\'', '(', ')', '[', ']', '{', '}', ';'}
    ensures LeafText(s)
  {
    hide Text, Closed;
    var ps := seq(|s|, i requires 0 <= i < |s| => Plain(s[i]));
    PlainText(ps, s);
    assert TopFree(ps, ';');
    StartsHead(s, "if");
    StartsHead(s, "else");
  }

  lemma {:induction false} PlainText(ps: seq<Piece>, s: string)
    requires |ps| == |s|
    requires forall i :: 0 <= i < |ps| ==> ps[i] == Plain(s[i]) && s[i] !in {'"', '\'', '(', ')', '[', ']', '{', '}'}
    ensures Text(ps) == s && Closed(ps)
  {
    if ps != [] {
      PlainText(ps[1..], s[1..]);
      HeadTail(s);
    }
  }
}
