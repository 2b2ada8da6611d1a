/**
 The parser for multi-statement expressions: statements, `if`/`else` and blocks.

 `ParseStatement` and `ParseSequence` are defined on the text that is left; a result says
 how many characters of it were used. `StatementAt` and `SequenceAt` are the source's
 position-based procedures, proved to compute them.
 */
module CSharpParser {
  import opened Common
  import opened CSharpScanner

  datatype Stmt =
    | Simple(text: string)
    | Block(body: seq<Stmt>)
    | If(condition: string, whenTrue: seq<Stmt>)
    | IfElse(condition: string, whenTrue: seq<Stmt>, whenFalse: seq<Stmt>)

  /**
   A tree and the text left behind it. `past` says that an unfinished escape took the
   source's position one beyond the end of the text. `Stuck` is the endless loop of the
   source at a closing brace that opens nothing: the statement parser consumes no
   character there and the sequence loop calls it again.
   */
  datatype Parse<+T> = Parsed(tree: T, rest: string, past: bool) | SyntaxError | Stuck

  // ----- Characters -----

  /** Python's `str.isspace` for one character. */
  predicate IsSpace(c: char) {
    var n := c as int;
    || 0x09 <= n <= 0x0D || 0x1C <= n <= 0x20 || n == 0x85 || n == 0xA0 || n == 0x1680
    || 0x2000 <= n <= 0x200A || n == 0x2028 || n == 0x2029 || n == 0x202F || n == 0x205F || n == 0x3000
  }

  /** `str.isalnum` for one ASCII character. */
  predicate IsAlnum(c: char) {
    '0' <= c <= '9' || 'A' <= c <= 'Z' || 'a' <= c <= 'z'
  }

  predicate Blank(s: string) {
    forall i :: 0 <= i < |s| ==> IsSpace(s[i])
  }

  /** `s` without its leading whitespace. */
  function SkipSpace(s: string): (t: string)
    ensures |t| <= |s|
    ensures t == [] || !IsSpace(t[0])
  {
    if s != [] && IsSpace(s[0]) then SkipSpace(s[1..]) else s
  }

  /** `str.strip` */
  function Strip(s: string): string {
    StripEnd(SkipSpace(s))
  }

  function StripEnd(s: string): string {
    if s != [] && IsSpace(s[|s| - 1]) then StripEnd(s[..|s| - 1]) else s
  }

  /** Stripping takes whitespace off both ends, and all of it. */
  lemma {:induction false} StripExact(s: string) returns (a: string, b: string)
    ensures Blank(a) && Blank(b) && s == a + Strip(s) + b
    ensures var t := Strip(s); t == [] || (!IsSpace(t[0]) && !IsSpace(t[|t| - 1]))
  {
    a := SkipSplits(s);
    var t := SkipSpace(s);
    b := StripSplits(t);
    assert Strip(s) != [] ==> Strip(s)[0] == t[0];
  }

  lemma {:induction false} SkipSplits(s: string) returns (ws: string)
    ensures Blank(ws) && s == ws + SkipSpace(s)
  {
    ws := [];
    if s != [] && IsSpace(s[0]) {
      var rest := SkipSplits(s[1..]);
      ws := [s[0]] + rest;
      HeadTail(s);
    }
  }

  lemma {:induction false} StripSplits(s: string) returns (ws: string)
    ensures Blank(ws) && s == StripEnd(s) + ws
    ensures var t := StripEnd(s); t == [] || !IsSpace(t[|t| - 1])
  {
    hide IsSpace;
    if s == [] || !IsSpace(s[|s| - 1]) {
      ws := [];
    } else {
      var n := |s| - 1;
      var rest := StripSplits(s[..n]);
      ws := rest + [s[n]];
      assert StripEnd(s) == StripEnd(s[..n]);
      assert s == s[..n] + [s[n]] == StripEnd(s[..n]) + rest + [s[n]] == StripEnd(s[..n]) + ws;
    }
  }

  /** Spaces, tabs and line ends separate tokens; a no-break space does too, letters and brackets do not. */
  lemma {:induction false} SpaceExamples()
    ensures forall c :: c in " \t\n\r\U{1C}\U{85}\U{A0}\U{1680}\U{2000}\U{200A}\U{2028}\U{2029}\U{202F}\U{205F}\U{3000}" ==> IsSpace(c)
    ensures forall c :: c in "a0_(){}[];?:\"'\\!\U{08}\U{0E}\U{1B}\U{200B}" ==> !IsSpace(c)
  {
  }

  // ----- The parser on the remaining text -----

  predicate StartsIf(t: string) {
    StartsWith(t, "if") && (|t| == 2 || !IsAlnum(t[2]))
  }

  /** Letters and digits make another word of `if`; an underscore does not. */
  lemma {:induction false} KeywordExamples()
    ensures StartsIf("if") && forall c :: c in " \t\n(_~@[`{/:" ==> StartsIf("if" + [c])
    ensures forall c :: c in "09AZaz" ==> !StartsIf("if" + [c])
  {
    forall c: char ensures ("if" + [c])[..2] == "if" && ("if" + [c])[2] == c {
    }
  }

  function AsBlock(s: Stmt): seq<Stmt> {
    if s.Block? then s.body else [s]
  }

  function SimpleStatement(t: string): (r: Parse<Stmt>)
    ensures r.Parsed? && |r.rest| <= |t|
  {
    match Scan(t, Code, FLAT, StatementStep)
    case At(end) =>
      Parsed(Simple(Strip(t[..end])), if t[end] == ';' then t[end + 1..] else t[end..], false)
    case Ended(n) => Parsed(Simple(Strip(t)), [], n > |t|)
  }

  function ParseStatement(s: string): (r: Parse<Stmt>)
    ensures r.Parsed? ==> |r.rest| <= |s|
    decreases |s|, 5
  {
    ParseHere(SkipSpace(s))
  }

  /** A statement that starts at the first character. */
  function ParseHere(t: string): (r: Parse<Stmt>)
    ensures r.Parsed? ==> |r.rest| <= |t|
    decreases |t|, 4
  {
    if StartsIf(t) then ParseIf(t)
    else if t != [] && t[0] == '{' then
      match ParseSequence(t[1..], true)
      case Parsed(body, rest, past) => Parsed(Block(body), rest, past)
      case SyntaxError => SyntaxError
      case Stuck => Stuck
    else SimpleStatement(t)
  }

  function ParseIf(t: string): (r: Parse<Stmt>)
    requires StartsIf(t)
    ensures r.Parsed? ==> |r.rest| < |t|
    decreases |t|, 0
  {
    var c := SkipSpace(t[2..]);
    if c == [] || c[0] != '(' then SyntaxError
    else
      match Scan(c[1..], Code, 1, ParenStep)
      case Ended(_) => SyntaxError
      case At(i) => ParseBranches(c[1..][..i], c[1..][i + 1..])
  }

  /** The branches of an `if` whose condition is closed. */
  function ParseBranches(condition: string, s: string): (r: Parse<Stmt>)
    ensures r.Parsed? ==> |r.rest| <= |s|
    decreases |s|, 6
  {
    match ParseStatement(s)
    case Parsed(branch, rest, past) => ParseElse(condition, branch, SkipSpace(rest), past)
    case failure => failure
  }

  /** The part of an `if` after its first branch and the whitespace behind that. */
  function ParseElse(condition: string, branch: Stmt, t: string, past: bool): (r: Parse<Stmt>)
    ensures r.Parsed? ==> |r.rest| <= |t|
    decreases |t|, 2
  {
    if StartsWith(t, "else") then
      match ParseStatement(t[4..])
      case Parsed(alternate, rest, past') =>
        Parsed(IfElse(condition, AsBlock(branch), AsBlock(alternate)), rest, past')
      case failure => failure
    else Parsed(If(condition, AsBlock(branch)), t, past)
  }

  /** Statements up to the end of the text, or up to the closing brace when `nested`. */
  function ParseSequence(s: string, nested: bool): (r: Parse<seq<Stmt>>)
    ensures r.Parsed? ==> |r.rest| <= |s|
    decreases |s|, 8
  {
    SequenceHere(SkipSpace(s), nested)
  }

  function SequenceHere(t: string, nested: bool): (r: Parse<seq<Stmt>>)
    ensures r.Parsed? ==> |r.rest| <= |t|
    decreases |t|, 7
  {
    if t == [] then (if nested then SyntaxError else Parsed([], [], false))
    else if nested && t[0] == '}' then Parsed([], t[1..], false)
    else
      match ParseStatement(t)
      case Parsed(first, rest, past) =>
        if |rest| == |t| then Stuck else Prepend(first, past, ParseSequence(rest, nested))
      case SyntaxError => SyntaxError
      case Stuck => Stuck
  }

  function Prepend(first: Stmt, past: bool, others: Parse<seq<Stmt>>): Parse<seq<Stmt>> {
    match others
    case Parsed(ts, rest, past') => Parsed([first] + ts, rest, past || past')
    case failure => failure
  }

  lemma {:induction false} SimpleStops(front: string, rest: string)
    requires rest != [] && Scan(front + rest, Code, FLAT, StatementStep) == At(|front|)
    ensures SimpleStatement(front + rest) == Parsed(Simple(Strip(front)), if rest[0] == ';' then rest[1..] else rest, false)
  {
    hide Scan, Strip;
    var t := front + rest;
    assert t[..|front|] == front && t[|front|..] == rest && t[|front| + 1..] == rest[1..];
  }

  lemma {:induction false} SimpleRunsOut(t: string)
    requires Scan(t, Code, FLAT, StatementStep).Ended?
    ensures SimpleStatement(t)
         == Parsed(Simple(Strip(t)), [], Scan(t, Code, FLAT, StatementStep).length > |t|)
  {
    hide Scan, Strip;
  }

  // ----- Progress -----

  lemma {:induction false} SimpleProgress(t: string)
    requires t != []
    ensures |SimpleStatement(t).rest| < |t| <==> t[0] != '}'
    ensures t[0] == '}' ==> SimpleStatement(t) == Parsed(Simple([]), t, false)
  {
    if t[0] == '}' {
      assert t[0..] == t;
    } else {
      match Scan(t, Code, FLAT, StatementStep)
      case Ended(_) =>
      case At(end) => assert end == 0 ==> t[0] == ';';
    }
  }

  /**
   The statement parser never loops, and consumes more than leading whitespace exactly when
   the next character is not a closing brace. At a closing brace it returns an empty
   statement and consumes nothing.
   */
  lemma {:induction false} StatementProgress(s: string)
    ensures var r, t := ParseStatement(s), SkipSpace(s);
            && !r.Stuck?
            && (r.Parsed? && t != [] ==> (|r.rest| < |t| <==> t[0] != '}'))
            && (t != [] && t[0] == '}' ==> r == Parsed(Simple([]), t, false))
    decreases |s|, 5
  {
    hide Scan, SimpleStatement, ParseIf, ParseSequence;
    var t := SkipSpace(s);
    if StartsIf(t) {
      IfNotStuck(t);
      assert t[..2][0] == 'i';
    } else if t != [] && t[0] == '{' {
      NestedNotStuck(t[1..]);
    } else if t != [] {
      SimpleProgress(t);
    }
  }

  lemma {:induction false} IfNotStuck(t: string)
    requires StartsIf(t)
    ensures !ParseIf(t).Stuck?
    decreases |t|, 4
  {
    hide Scan, ParseBranches;
    var c := SkipSpace(t[2..]);
    if c != [] && c[0] == '(' && Scan(c[1..], Code, 1, ParenStep).At? {
      var i := Scan(c[1..], Code, 1, ParenStep).index;
      BranchesNotStuck(c[1..][..i], c[1..][i + 1..]);
    }
  }

  lemma {:induction false} BranchesNotStuck(condition: string, s: string)
    ensures !ParseBranches(condition, s).Stuck?
    decreases |s|, 6
  {
    hide ParseStatement;
    StatementProgress(s);
    var r := ParseStatement(s);
    if r.Parsed? && StartsWith(SkipSpace(r.rest), "else") {
      StatementProgress(SkipSpace(r.rest)[4..]);
    }
  }

  /** Inside braces the sequence loop always makes progress. */
  lemma {:induction false} NestedNotStuck(s: string)
    ensures !ParseSequence(s, true).Stuck?
    decreases |s|, 7
  {
    hide ParseStatement;
    var t := SkipSpace(s);
    if t != [] && t[0] != '}' {
      StatementProgress(t);
      assert SkipSpace(t) == t;
      var r := ParseStatement(t);
      if r.Parsed? {
        NestedNotStuck(r.rest);
      }
    }
  }

  /** Some statement of the top-level sequence is expected where a closing brace stands. */
  ghost predicate StrayBrace(s: string)
    decreases |s|
  {
    var t := SkipSpace(s);
    t != [] && (t[0] == '}' ||
      (ParseStatement(t).Parsed? && |ParseStatement(t).rest| < |t| && StrayBrace(ParseStatement(t).rest)))
  }

  /** The top-level loop hangs exactly at a stray closing brace. */
  lemma {:induction false} StuckExactly(s: string)
    ensures ParseSequence(s, false).Stuck? <==> StrayBrace(s)
    decreases |s|
  {
    hide ParseStatement;
    var t := SkipSpace(s);
    if t != [] {
      StatementProgress(t);
      assert SkipSpace(t) == t;
      var r := ParseStatement(t);
      if r.Parsed? && |r.rest| < |t| {
        StuckExactly(r.rest);
      }
    }
  }

  // ----- The procedures over positions -----

  datatype Outcome<+T> = Done(tree: T, position: nat) | Failed

  /** `r` is the outcome `spec`, with the position behind it in place of the text left. */
  ghost predicate Agrees<T>(text: string, r: Outcome<T>, spec: Parse<T>) {
    match spec
    case Parsed(tree, rest, past) =>
      && r.Done? && r.tree == tree && Drop(text, r.position) == rest
      && r.position == |text| - |rest| + if past then 1 else 0
    case SyntaxError => r == Failed
    case Stuck => false
  }

  lemma {:induction false} Slicing(text: string, p: nat, n: nat)
    requires p + n <= |text|
    ensures Drop(text, p)[..n] == text[p..p + n]
    ensures Drop(text, p)[n..] == Drop(text, p + n)
    ensures p + n < |text| ==> Drop(text, p)[n] == text[p + n]
  {
  }

  /** `_skip_space` */
  method SkipSpaceAt(text: string, start: nat) returns (position: nat)
    requires start <= |text| + 1
    ensures Drop(text, position) == SkipSpace(Drop(text, start))
    ensures start <= position && position <= if start > |text| then start else |text|
  {
    position := start;
    while position < |text| && IsSpace(text[position])
      invariant start <= position && position <= if start > |text| then start else |text|
      invariant SkipSpace(Drop(text, position)) == SkipSpace(Drop(text, start))
    {
      assert Drop(text, position)[1..] == Drop(text, position + 1);
      position := position + 1;
    }
  }

  /** `_parse_statement` */
  method StatementAt(text: string, start: nat) returns (r: Outcome<Stmt>)
    requires start <= |text|
    ensures Agrees(text, r, ParseStatement(Drop(text, start)))
    decreases |text| - start, 3
  {
    hide SimpleStatement, ParseIf, ParseSequence, Drop;
    var position := SkipSpaceAt(text, start);
    if StartsIf(Drop(text, position)) {
      r := IfAt(text, position);
      return;
    }
    Slicing(text, position, 0);
    if position < |text| && text[position] == '{' {
      Slicing(text, position, 1);
      NestedNotStuck(Drop(text, position + 1));
      var body := SequenceAt(text, position + 1, true);
      return if body.Failed? then Failed else Done(Block(body.tree), body.position);
    }
    r := SimpleAt(text, position);
  }

  /** What the end of a simple statement makes of the text from its start on. */
  lemma {:induction false} SimpleEnds(text: string, position: nat, end: nat)
    requires position <= |text| && end == Reach(ScanFrom(text, position, Code, FLAT, StatementStep))
    ensures position <= end <= |text| + 1
    ensures var upto := if end <= |text| then end else |text|;
            var next := if end < |text| && text[end] == ';' then end + 1 else end;
            SimpleStatement(Drop(text, position)) == Parsed(Simple(Strip(text[position..upto])), Drop(text, next), end > |text|)
  {
    hide Scan, Strip, SimpleStatement;
    var t := Drop(text, position);
    if Scan(t, Code, FLAT, StatementStep).At? {
      assert t == text[position..end] + text[end..];
      SimpleStops(text[position..end], text[end..]);
    } else {
      assert t == text[position..|text|];
      SimpleRunsOut(t);
    }
  }

  method SimpleAt(text: string, position: nat) returns (r: Outcome<Stmt>)
    requires position <= |text|
    ensures Agrees(text, r, SimpleStatement(Drop(text, position)))
  {
    hide Scan, Strip, ScanFrom, SimpleStatement;
    var end := SimpleStatementEnd(text, position);
    SimpleEnds(text, position, end);
    var upto := if end <= |text| then end else |text|;
    r := Done(Simple(Strip(text[position..upto])), if end < |text| && text[end] == ';' then end + 1 else end);
  }

  method IfAt(text: string, position: nat) returns (r: Outcome<Stmt>)
    requires position <= |text| && StartsIf(Drop(text, position))
    ensures Agrees(text, r, ParseIf(Drop(text, position)))
    decreases |text| - position, 2
  {
    hide Scan, ParseBranches, Drop, SkipSpace;
    Slicing(text, position, 2);
    var start := SkipSpaceAt(text, position + 2);
    Slicing(text, start, 0);
    if start >= |text| || text[start] != '(' {
      return Failed;
    }
    Slicing(text, start, 1);
    var end := BalancedEnd(text, start);
    if end == None {
      return Failed;
    }
    Slicing(text, start + 1, end.value - start - 1);
    Slicing(text, start + 1, end.value - start);
    r := BranchesAt(text, text[start + 1..end.value], end.value + 1);
  }

  method BranchesAt(text: string, condition: string, start: nat) returns (r: Outcome<Stmt>)
    requires start <= |text|
    ensures Agrees(text, r, ParseBranches(condition, Drop(text, start)))
    decreases |text| - start, 4
  {
    hide ParseStatement, Drop, SkipSpace;
    var branch := StatementAt(text, start);
    if branch.Failed? {
      return Failed;
    }
    var position := SkipSpaceAt(text, branch.position);
    if StartsWith(Drop(text, position), "else") {
      Slicing(text, position, 4);
      var alternate := StatementAt(text, position + 4);
      return if alternate.Failed? then Failed
        else Done(IfElse(condition, AsBlock(branch.tree), AsBlock(alternate.tree)), alternate.position);
    }
    return Done(If(condition, AsBlock(branch.tree)), position);
  }

  /** The statements `done` in front of an outcome. */
  ghost function After(done: seq<Stmt>, past: bool, r: Parse<seq<Stmt>>): Parse<seq<Stmt>> {
    match r
    case Parsed(ts, rest, past') => Parsed(done + ts, rest, past || past')
    case failure => failure
  }

  lemma {:induction false} AfterPrepend(done: seq<Stmt>, first: Stmt, past: bool, r: Parse<seq<Stmt>>)
    ensures After(done, false, Prepend(first, past, r)) == After(done + [first], past, r)
  {
    match r
    case Parsed(ts, _, _) => assert done + ([first] + ts) == done + [first] + ts;
    case _ =>
  }

  /** The loop of `_parse_sequence` is at `before`, and at `position` once whitespace is skipped. */
  ghost predicate Looping(text: string, done: seq<Stmt>, before: nat, position: nat, nested: bool, whole: Parse<seq<Stmt>>) {
    && before <= position <= |text| + 1
    && (before > |text| || position <= |text|)
    && SkipSpace(Drop(text, before)) == Drop(text, position)
    && !whole.Stuck?
    && whole == After(done, before > |text|, ParseSequence(Drop(text, before), nested))
  }

  lemma {:induction false} SequenceEnds(text: string, done: seq<Stmt>, before: nat, position: nat, nested: bool, whole: Parse<seq<Stmt>>)
    requires Looping(text, done, before, position, nested, whole) && position >= |text|
    ensures Agrees(text, if nested then Failed else Done(done, position), whole)
  {
    assert SkipSpace(Drop(text, before)) == [];
    assert ParseSequence(Drop(text, before), nested) == if nested then SyntaxError else Parsed([], [], false);
    assert done + [] == done;
  }

  lemma {:induction false} SequenceCloses(text: string, done: seq<Stmt>, before: nat, position: nat, whole: Parse<seq<Stmt>>)
    requires Looping(text, done, before, position, true, whole) && position < |text| && text[position] == '}'
    ensures Agrees(text, Done(done, position + 1), whole)
  {
    Slicing(text, position, 1);
    assert ParseSequence(Drop(text, before), true) == Parsed([], Drop(text, position + 1), false);
    assert done + [] == done;
  }

  lemma {:induction false} SequenceSteps(text: string, done: seq<Stmt>, before: nat, position: nat, nested: bool,
                      whole: Parse<seq<Stmt>>, r: Outcome<Stmt>)
    requires Looping(text, done, before, position, nested, whole) && position < |text|
    requires !(nested && text[position] == '}')
    requires Agrees(text, r, ParseStatement(Drop(text, position)))
    ensures if r.Failed? then whole == SyntaxError
            else
              && position < r.position <= |text| + 1
              && whole == After(done + [r.tree], r.position > |text|, ParseSequence(Drop(text, r.position), nested))
  {
    hide ParseStatement, After, SkipSpace;
    var t := Drop(text, position);
    assert t[0] == text[position];
    assert SkipSpace(t) == t by { SkipIdempotent(Drop(text, before)); }
    StatementProgress(t);
    var p := ParseStatement(t);
    assert ParseSequence(Drop(text, before), nested) == SequenceHere(t, nested);
    AfterFailure(done, SequenceHere(t, nested));
    if p.Parsed? {
      AfterPrepend(done, p.tree, p.past, ParseSequence(p.rest, nested));
    }
  }

  lemma {:induction false} AfterFailure(done: seq<Stmt>, r: Parse<seq<Stmt>>)
    ensures !r.Parsed? ==> After(done, false, r) == r
    ensures r.Stuck? <==> After(done, false, r).Stuck?
    ensures After([], false, r) == r
  {
    assert r.Parsed? ==> [] + r.tree == r.tree;
  }

  lemma {:induction false} SkipIdempotent(s: string)
    ensures SkipSpace(SkipSpace(s)) == SkipSpace(s)
  {
  }

  /** `_parse_sequence`; at top level the text must not run into a stray closing brace. */
  method SequenceAt(text: string, start: nat, nested: bool) returns (r: Outcome<seq<Stmt>>)
    requires start <= |text|
    requires nested || !StrayBrace(Drop(text, start))
    ensures Agrees(text, r, ParseSequence(Drop(text, start), nested))
    decreases |text| - start, 5
  {
    hide *;
    ghost var whole := ParseSequence(Drop(text, start), nested);
    if nested {
      NestedNotStuck(Drop(text, start));
    } else {
      StuckExactly(Drop(text, start));
    }
    var statements, position := [], start;
    AfterFailure([], whole);
    while true
      invariant start <= position <= |text| + 1
      invariant whole == After(statements, position > |text|, ParseSequence(Drop(text, position), nested))
      decreases |text| + 1 - position
    {
      ghost var before := position;
      position := SkipSpaceAt(text, position);
      LoopingHere(text, statements, before, position, nested, whole);
      if position >= |text| {
        SequenceEnds(text, statements, before, position, nested, whole);
        return if nested then Failed else Done(statements, position);
      }
      if nested && text[position] == '}' {
        SequenceCloses(text, statements, before, position, whole);
        return Done(statements, position + 1);
      }
      var statement := StatementAt(text, position);
      SequenceSteps(text, statements, before, position, nested, whole, statement);
      if statement.Failed? {
        AgreesFailed(text, whole);
        return Failed;
      }
      statements, position := statements + [statement.tree], statement.position;
    }
  }

  lemma {:induction false} LoopingHere(text: string, done: seq<Stmt>, before: nat, position: nat, nested: bool, whole: Parse<seq<Stmt>>)
    requires before <= position <= |text| + 1 && (before > |text| || position <= |text|)
    requires SkipSpace(Drop(text, before)) == Drop(text, position) && !whole.Stuck?
    requires whole == After(done, before > |text|, ParseSequence(Drop(text, before), nested))
    ensures Looping(text, done, before, position, nested, whole)
  {
  }

  lemma {:induction false} AgreesFailed<T>(text: string, spec: Parse<T>)
    requires spec == SyntaxError
    ensures Agrees(text, Failed, spec)
  {
  }
}
