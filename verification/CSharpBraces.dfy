/**
 Which texts hang the statement parser, by their brackets alone: no well-bracketed text
 does, and none with a closing brace behind a well-bracketed part is ever parsed.
 */
module CSharpBraces {
  import opened Common
  import opened CSharpScanner
  import opened CSharpText
  import opened CSharpParser
  import opened CSharpPrinter
  import opened CSharpTernary

  /** `s` is a well-bracketed text in front of `tail`. */
  ghost predicate Leads(s: string, tail: string) {
    exists ps :: Closed(ps) && s == Text(ps) + tail
  }

  /** The end of the text, or a closing brace that the well-bracketed part does not open. */
  predicate Ends(tail: string) {
    tail == [] || tail[0] == '}'
  }

  // ----- The first piece -----

  lemma {:induction false} LeadsText(ps: seq<Piece>, tail: string)
    requires Closed(ps)
    ensures Leads(Text(ps) + tail, tail)
  {
  }

  lemma {:induction false} LeadsTail(tail: string)
    ensures Leads(tail, tail)
  {
    assert Closed([]) && Text([]) + tail == tail;
  }

  /** What the first character says about the first piece. */
  lemma {:induction false} FirstPiece(t: string, tail: string) returns (ps: seq<Piece>)
    requires Leads(t, tail) && Ends(tail)
    ensures Closed(ps) && t == Text(ps) + tail
    ensures ps == [] ==> t == tail
    ensures ps != [] ==>
              && Closed(ps[1..]) && t == PieceText(ps[0]) + (Text(ps[1..]) + tail)
              && t != [] && t[0] != '}'
              && (ps[0].Plain? <==> !IsQuote(t[0]) && !IsBracket(t[0]))
              && (ps[0].Plain? ==> PieceText(ps[0]) == [t[0]])
              && (ps[0].Group? ==> Closed(ps[0].inner) && t[0] == ps[0].open)
              && (ps[0].Group? <==> IsBracket(t[0]))
  {
    ps :| Closed(ps) && t == Text(ps) + tail;
    if ps != [] {
      assert Text(ps) == PieceText(ps[0]) + Text(ps[1..]);
      assert t == PieceText(ps[0]) + (Text(ps[1..]) + tail);
      assert t[0] == PieceText(ps[0])[0];
    }
  }

  lemma {:induction false} DropPlain(t: string, tail: string)
    requires Leads(t, tail) && Ends(tail) && t != [] && !IsQuote(t[0]) && !IsBracket(t[0])
    ensures Leads(t[1..], tail)
  {
    hide Closed, Text, PieceText;
    var ps := FirstPiece(t, tail);
    assert t[1..] == Text(ps[1..]) + tail;
  }

  lemma {:induction false} DropWord(t: string, n: nat, tail: string)
    requires Leads(t, tail) && Ends(tail) && n <= |t|
    requires forall i :: 0 <= i < n ==> !IsQuote(t[i]) && !IsBracket(t[i])
    ensures Leads(t[n..], tail)
  {
    if n == 0 {
      assert t[0..] == t;
    } else {
      DropPlain(t, tail);
      DropWord(t[1..], n - 1, tail);
      assert t[1..][n - 1..] == t[n..];
    }
  }

  lemma {:induction false} SkipLeads(s: string, tail: string)
    requires Leads(s, tail) && Ends(tail)
    ensures Leads(SkipSpace(s), tail)
  {
    if s != [] && IsSpace(s[0]) {
      DropPlain(s, tail);
      SkipLeads(s[1..], tail);
    }
  }

  /** A closing brace in front is the end. */
  lemma {:induction false} BraceIsTail(t: string, tail: string)
    requires Leads(t, tail) && Ends(tail) && (t == [] || t[0] == '}')
    ensures t == tail
  {
    hide Closed, Text;
    var _ := FirstPiece(t, tail);
  }

  /** An opening bracket in front is closed. */
  lemma {:induction false} OpenGroup(t: string, tail: string) returns (inner: seq<Piece>, rest: string)
    requires Leads(t, tail) && Ends(tail) && t != [] && t[0] in {'(', '{'}
    ensures Closed(inner) && Leads(rest, tail) && t[1..] == Text(inner) + ([Close(t[0])] + rest)
  {
    hide Closed, Text;
    var ps := FirstPiece(t, tail);
    inner, rest := ps[0].inner, Text(ps[1..]) + tail;
    LeadsText(ps[1..], tail);
    assert t == [t[0]] + Text(inner) + [Close(t[0])] + rest;
  }

  // ----- Simple statements -----

  lemma {:induction false} TextStep(p: Piece, ps: seq<Piece>)
    ensures Text([p] + ps) == PieceText(p) + Text(ps)
    ensures Closed([p] + ps) <==> Closed([p]) && Closed(ps)
  {
    assert ([p] + ps)[1..] == ps && [p][1..] == [];
  }

  /** The text up to the first top-level semicolon, and the text behind it. */
  lemma {:induction false} Split(ps: seq<Piece>) returns (a: seq<Piece>, b: seq<Piece>)
    requires Closed(ps)
    ensures Closed(a) && Closed(b) && TopFree(a, ';')
    ensures Text(ps) == Text(a) + (";" + Text(b)) || (a == ps && b == [])
  {
    a, b := [], [];
    if ps != [] {
      hide Text, Closed, PieceText;
      var p, rest := ps[0], ps[1..];
      HeadTail(ps);
      TextStep(p, rest);
      if p == Plain(';') {
        b := rest;
        SemicolonFirst(b);
        ClosedNothing();
      } else {
        var a' : seq<Piece>;
        a', b := Split(rest);
        a := [p] + a';
        TextStep(p, a');
        Regroup(PieceText(p), Text(a'), ";" + Text(b));
      }
    } else {
      ClosedNothing();
    }
  }

  lemma {:induction false} ClosedNothing()
    ensures Closed([]) && Text([]) == []
  {
  }

  lemma {:induction false} SemicolonFirst(b: seq<Piece>)
    ensures PieceText(Plain(';')) + Text(b) == Text([]) + (";" + Text(b))
  {
  }

  lemma {:induction false} SimpleLeads(t: string, tail: string)
    requires Leads(t, tail) && Ends(tail)
    ensures var r := SimpleStatement(t); !r.past && Leads(r.rest, tail)
  {
    hide Closed, Text, Scan, Crosses, SimpleStatement;
    var ps :| Closed(ps) && t == Text(ps) + tail;
    var a, b := Split(ps);
    if Text(ps) == Text(a) + (";" + Text(b)) {
      var rest := Text(b) + tail;
      assert t == Text(a) + (";" + rest);
      StopsSimple(a, ";" + rest);
      LeadsText(b, tail);
      assert (";" + rest)[1..] == rest;
    } else {
      LeadsTail(tail);
      if tail == [] {
        assert t == Text(a);
        RunsOut(a);
      } else {
        StopsSimple(a, tail);
      }
    }
  }

  lemma {:induction false} StopsSimple(a: seq<Piece>, rest: string)
    requires Closed(a) && TopFree(a, ';') && rest != [] && rest[0] in {';', '}'}
    ensures SimpleStatement(Text(a) + rest) == Parsed(Simple(Strip(Text(a))), if rest[0] == ';' then rest[1..] else rest, false)
  {
    hide Scan, Crosses, SimpleStatement, Strip, Closed, Text;
    StatementCrosses(a, FLAT);
    StopsAfter(Text(a), rest, Code, FLAT, StatementStep, FLAT);
    SimpleStops(Text(a), rest);
  }

  lemma {:induction false} RunsOut(a: seq<Piece>)
    requires Closed(a) && TopFree(a, ';')
    ensures SimpleStatement(Text(a)) == Parsed(Simple(Strip(Text(a))), [], false)
  {
    hide Crosses, SimpleStatement, Strip, Closed, Text;
    StatementCrosses(a, FLAT);
    ScanAfter(Text(a), [], Code, FLAT, StatementStep, FLAT);
    assert Text(a) + [] == Text(a);
    SimpleRunsOut(Text(a));
  }

  // ----- Statements -----

  /** What a statement leaves of a well-bracketed text is well-bracketed. */
  lemma {:induction false} StatementLeads(s: string, tail: string)
    requires Leads(s, tail) && Ends(tail)
    ensures var r := ParseStatement(s); r.Parsed? ==> !r.past && Leads(r.rest, tail)
    decreases |s|, 5
  {
    hide SimpleStatement, ParseIf, ParseSequence, Leads;
    var t := SkipSpace(s);
    SkipLeads(s, tail);
    if StartsIf(t) {
      IfLeads(t, tail);
    } else if t != [] && t[0] == '{' {
      var inner, rest := OpenGroup(t, tail);
      LeadsText(inner, "}" + rest);
      NestedLeads(t[1..], rest);
    } else {
      SimpleLeads(t, tail);
    }
  }

  lemma {:induction false} IfLeads(t: string, tail: string)
    requires StartsIf(t) && Leads(t, tail) && Ends(tail)
    ensures var r := ParseIf(t); r.Parsed? ==> !r.past && Leads(r.rest, tail)
    decreases |t|, 4
  {
    hide Scan, Crosses, ParseBranches, Leads, Text, Closed;
    assert t[0] == t[..2][0] && t[1] == t[..2][1];
    DropWord(t, 2, tail);
    SkipLeads(t[2..], tail);
    var c := SkipSpace(t[2..]);
    if c != [] && c[0] == '(' {
      var inner, rest := OpenGroup(c, tail);
      ParenCrosses(inner, 1);
      StopsAfter(Text(inner), ")" + rest, Code, 1, ParenStep, 1);
      var i := |Text(inner)|;
      assert c[1..][i + 1..] == rest;
      BranchesLeads(c[1..][..i], rest, tail);
    }
  }

  lemma {:induction false} BranchesLeads(condition: string, s: string, tail: string)
    requires Leads(s, tail) && Ends(tail)
    ensures var r := ParseBranches(condition, s); r.Parsed? ==> !r.past && Leads(r.rest, tail)
    decreases |s|, 6
  {
    hide ParseStatement, Leads;
    StatementLeads(s, tail);
    var r := ParseStatement(s);
    if r.Parsed? {
      var t := SkipSpace(r.rest);
      SkipLeads(r.rest, tail);
      if StartsWith(t, "else") {
        assert forall i :: 0 <= i < 4 ==> t[i] == t[..4][i];
        DropWord(t, 4, tail);
        StatementLeads(t[4..], tail);
      }
    }
  }

  /** A nested sequence ends at the brace that closes it. */
  lemma {:induction false} NestedLeads(s: string, rest: string)
    requires Leads(s, "}" + rest)
    ensures var r := ParseSequence(s, true); r.Parsed? ==> !r.past && r.rest == rest
    decreases |s|, 7
  {
    hide ParseStatement, Leads;
    var t := SkipSpace(s);
    SkipLeads(s, "}" + rest);
    if t != [] && t[0] == '}' {
      BraceIsTail(t, "}" + rest);
    } else if t != [] {
      StatementLeads(t, "}" + rest);
      StatementProgress(t);
      SkipIdempotent(s);
      var r := ParseStatement(t);
      if r.Parsed? {
        NestedLeads(r.rest, rest);
      }
    }
  }

  // ----- Programs -----

  lemma {:induction false} ProgramLeads(s: string, tail: string)
    requires Leads(s, tail) && Ends(tail)
    ensures tail == [] ==> !ParseSequence(s, false).Stuck?
    ensures tail != [] ==> !ParseSequence(s, false).Parsed?
    decreases |s|
  {
    hide ParseStatement, Leads;
    var t := SkipSpace(s);
    SkipLeads(s, tail);
    if t == [] || t[0] == '}' {
      BraceIsTail(t, tail);
    }
    if t != [] {
      SkipIdempotent(s);
      StatementProgress(t);
      StatementLeads(t, tail);
      var r := ParseStatement(t);
      if r.Parsed? && t[0] != '}' {
        ProgramLeads(r.rest, tail);
      }
    }
  }

  /** No well-bracketed text hangs the parser. */
  lemma {:induction false} WellBracketedEnds(ps: seq<Piece>)
    requires Closed(ps)
    ensures !ParseSequence(Text(ps), false).Stuck? && !StrayBrace(Text(ps))
  {
    hide ParseSequence, Text, Closed;
    assert Text(ps) + [] == Text(ps);
    LeadsText(ps, []);
    ProgramLeads(Text(ps), []);
    StuckExactly(Text(ps));
  }

  /** A closing brace behind a well-bracketed text is never passed: the parser hangs there unless it has failed before. */
  lemma {:induction false} StrayBraceNeverPassed(ps: seq<Piece>, rest: string)
    requires Closed(ps)
    ensures var r := ParseSequence(Text(ps) + ("}" + rest), false); r.Stuck? || r.SyntaxError?
  {
    hide ParseSequence, Text, Closed;
    LeadsText(ps, "}" + rest);
    ProgramLeads(Text(ps) + ("}" + rest), "}" + rest);
  }

  // ----- Syntax errors -----

  lemma {:induction false} NestedNeverEnds(s: string)
    requires Leads(s, [])
    ensures !ParseSequence(s, true).Parsed?
    decreases |s|
  {
    hide ParseStatement, Leads;
    var t := SkipSpace(s);
    SkipLeads(s, []);
    if t != [] {
      assert t[0] != '}' by { if t[0] == '}' { BraceIsTail(t, []); } }
      StatementLeads(t, []);
      StatementProgress(t);
      SkipIdempotent(s);
      var r := ParseStatement(t);
      if r.Parsed? {
        NestedNeverEnds(r.rest);
      }
    }
  }

  /** A block that is not closed is a syntax error. */
  lemma {:induction false} UnclosedBlockFails(ps: seq<Piece>)
    requires Closed(ps)
    ensures ParseHere("{" + Text(ps)) == SyntaxError
  {
    hide ParseSequence, Text, Closed;
    var t := "{" + Text(ps);
    assert Text(ps) + [] == Text(ps) && t[1..] == Text(ps);
    LeadsText(ps, []);
    NestedNeverEnds(Text(ps));
    NestedNotStuck(Text(ps));
    StartsHead(t, "if");
  }

  /** An `if` without a condition in parentheses is one. */
  lemma {:induction false} ConditionMissingFails(ws: string, c: string)
    requires Blank(ws) && (c == [] || (!IsSpace(c[0]) && c[0] != '(')) && StartsIf("if" + (ws + c))
    ensures ParseHere("if" + (ws + c)) == SyntaxError
  {
    var t := "if" + (ws + c);
    assert t[2..] == ws + c;
    SkipBlank(ws, c);
  }

  /** So is one whose condition is not closed. */
  lemma {:induction false} UnclosedConditionFails(ws: string, ps: seq<Piece>)
    requires Blank(ws) && Closed(ps)
    ensures ParseHere("if" + (ws + ("(" + Text(ps)))) == SyntaxError
  {
    hide Text, Closed, Scan, Crosses, StartsIf;
    var c := "(" + Text(ps);
    IfStarts(ws, c);
    ParenCrosses(ps, 1);
    ScanAfter(Text(ps), [], Code, 1, ParenStep, 1);
    assert Text(ps) + [] == Text(ps) && c[1..] == Text(ps);
    NoParenLeft();
  }

  lemma {:induction false} NoParenLeft()
    ensures Scan([], Code, 1, ParenStep) == Ended(0)
  {
  }

  // ----- A closing bracket too many -----

  /** Off level, text without brackets is crossed by both level-counting scanners, whatever else is in it. */
  lemma {:induction false} OffLevelCrosses(ps: seq<Piece>, lv: Levels)
    requires Closed(ps) && !lv.Flat() && forall i :: 0 <= i < |ps| ==> !ps[i].Group?
    ensures Crosses(Text(ps), Code, lv, StatementStep, lv) && Crosses(Text(ps), Code, lv, QuestionStep, lv)
    decreases |ps|
  {
    if ps != [] {
      var p := ps[0];
      assert Closed([p]);
      match p {
        case Plain(c) =>
          CrossesChar(c, lv, StatementStep, lv);
          CrossesChar(c, lv, QuestionStep, lv);
        case Literal(_, _) =>
          CrossesLiteral(p, lv, StatementStep);
          CrossesLiteral(p, lv, QuestionStep);
      }
      OffLevelCrosses(ps[1..], lv);
      CrossesAppend(PieceText(p), Text(ps[1..]), Code, lv, StatementStep, lv, lv);
      CrossesAppend(PieceText(p), Text(ps[1..]), Code, lv, QuestionStep, lv, lv);
    }
  }

  /** Behind a closing bracket that opens nothing no semicolon ends the statement and no question mark is an operator. */
  lemma {:induction false} StrayCloserHides(closer: char, ps: seq<Piece>)
    requires closer in {')', ']'} && Closed(ps) && forall i :: 0 <= i < |ps| ==> !ps[i].Group?
    ensures var s := [closer] + Text(ps);
            SimpleStatement(s) == Parsed(Simple(Strip(s)), [], false) && PartsOf(s) == Whole
  {
    hide Text, Closed, Crosses, Strip, SimpleStatement;
    var lv := if closer == ')' then Levels(-1, 0, 0) else Levels(0, -1, 0);
    var s := [closer] + Text(ps);
    OffLevelCrosses(ps, lv);
    CrossesChar(closer, FLAT, StatementStep, lv);
    CrossesChar(closer, FLAT, QuestionStep, lv);
    CrossesAppend([closer], Text(ps), Code, FLAT, StatementStep, lv, lv);
    CrossesAppend([closer], Text(ps), Code, FLAT, QuestionStep, lv, lv);
    ScanAfter(s, [], Code, FLAT, StatementStep, lv);
    ScanAfter(s, [], Code, FLAT, QuestionStep, lv);
    assert s + [] == s;
    SimpleRunsOut(s);
  }
}
