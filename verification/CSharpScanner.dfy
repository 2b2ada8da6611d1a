/**
 The quote-aware scanners of the C# expression front end.

 All four scanners of the source walk a text in the same way: characters inside a string
 literal are consumed two at a time after a backslash and one at a time otherwise, and
 only characters outside literals can change the scanner's own state or stop it.
 `Scan` is that walk over a suffix of the text, with the state change as a parameter.
 The methods below are the loops over positions, each proved to compute its `Scan`.
 */
module CSharpScanner {
  import opened Common

  /** Outside any literal, or inside a literal opened by `mark`. */
  datatype Quote = Code | Inside(mark: char)

  /** Nesting depths per bracket kind; a stray closing bracket makes one negative. */
  datatype Levels = Levels(paren: int, bracket: int, brace: int) {
    predicate Flat() {
      paren == 0 && bracket == 0 && brace == 0
    }
  }

  const FLAT := Levels(0, 0, 0)

  /** What one character outside literals does to a scanner. */
  datatype Step<+S> = Stop | Go(state: S)

  /** Where a scanner stopped, or how many characters it consumed without stopping. */
  datatype Found = At(index: nat) | Ended(length: nat) {
    function Shift(n: nat): Found {
      match this
      case At(i) => At(n + i)
      case Ended(l) => Ended(n + l)
    }
  }

  function Hit(f: Found): Option<nat> {
    if f.At? then Some(f.index) else None
  }

  function Reach(f: Found): nat {
    if f.At? then f.index else f.length
  }

  predicate IsQuote(c: char) {
    c == '"' || c == '\''
  }

  predicate IsBracket(c: char) {
    c in {'(', ')', '[', ']', '{', '}'}
  }

  /** Characters consumed inside a literal, and the quote state after them. */
  function AdvanceQuoted(c: char, mark: char): (nat, Quote) {
    if c == '\\' then (2, Inside(mark))
    else if c == mark then (1, Code)
    else (1, Inside(mark))
  }

  function UpdateLevels(c: char, lv: Levels): Levels {
    match c
    case '(' => lv.(paren := lv.paren + 1)
    case ')' => lv.(paren := lv.paren - 1)
    case '[' => lv.(bracket := lv.bracket + 1)
    case ']' => lv.(bracket := lv.bracket - 1)
    case '{' => lv.(brace := lv.brace + 1)
    case '}' => lv.(brace := lv.brace - 1)
    case _ => lv
  }

  // ----- The four state changes -----

  function QuestionStep(c: char, lv: Levels): Step<Levels> {
    if IsBracket(c) then Go(UpdateLevels(c, lv))
    else if c == '?' && lv.Flat() then Stop
    else Go(lv)
  }

  function ColonStep(c: char, nested: int): Step<int> {
    if c == '?' then Go(nested + 1)
    else if c == ':' then (if nested == 0 then Stop else Go(nested - 1))
    else Go(nested)
  }

  /** Looks for the `)` that closes `depth` open parentheses. */
  function ParenStep(c: char, depth: int): Step<int> {
    if c == '(' then Go(depth + 1)
    else if c == ')' then (if depth == 1 then Stop else Go(depth - 1))
    else Go(depth)
  }

  function StatementStep(c: char, lv: Levels): Step<Levels> {
    if c == '}' && lv.Flat() then Stop
    else if IsBracket(c) then Go(UpdateLevels(c, lv))
    else if c == ';' && lv.Flat() then Stop
    else Go(lv)
  }

  // ----- The walk -----

  function Scan<S>(s: string, q: Quote, st: S, step: (char, S) -> Step<S>): (r: Found)
    ensures r.At? ==> r.index < |s|
    ensures r.Ended? ==> |s| <= r.length <= |s| + 1
    decreases |s|
  {
    if s == [] then Ended(0)
    else if q.Inside? then
      var (n, q') := AdvanceQuoted(s[0], q.mark);
      Scan(Drop(s, n), q', st, step).Shift(n)
    else if IsQuote(s[0]) then Scan(s[1..], Inside(s[0]), st, step).Shift(1)
    else
      match step(s[0], st)
      case Stop => At(0)
      case Go(st') => Scan(s[1..], Code, st', step).Shift(1)
  }

  /** The walk crosses all of `s`, from outside literals to outside literals, without stopping. */
  ghost predicate Crosses<S>(s: string, q: Quote, st: S, step: (char, S) -> Step<S>, end: S)
    decreases |s|
  {
    if s == [] then q == Code && st == end
    else if q.Inside? then
      var (n, q') := AdvanceQuoted(s[0], q.mark);
      n <= |s| && Crosses(s[n..], q', st, step, end)
    else if IsQuote(s[0]) then Crosses(s[1..], Inside(s[0]), st, step, end)
    else
      match step(s[0], st)
      case Stop => false
      case Go(st') => Crosses(s[1..], Code, st', step, end)
  }

  /** What follows a crossed text is scanned from the state the crossing ends in. */
  lemma {:induction false} ScanAfter<S>(
      s: string, rest: string, q: Quote, st: S, step: (char, S) -> Step<S>, end: S)
    requires Crosses(s, q, st, step, end)
    ensures Scan(s + rest, q, st, step) == Scan(rest, Code, end, step).Shift(|s|)
    decreases |s|
  {
    if s == [] {
      assert s + rest == rest;
    } else {
      assert (s + rest)[1..] == s[1..] + rest;
      if q.Inside? {
        var (n, q') := AdvanceQuoted(s[0], q.mark);
        assert (s + rest)[n..] == s[n..] + rest;
        ScanAfter(s[n..], rest, q', st, step, end);
      } else if IsQuote(s[0]) {
        ScanAfter(s[1..], rest, Inside(s[0]), st, step, end);
      } else {
        ScanAfter(s[1..], rest, Code, step(s[0], st).state, step, end);
      }
    }
  }

  /** A crossed text followed by a stopping character stops the scanner right behind it. */
  lemma {:induction false} StopsAfter<S>(s: string, rest: string, q: Quote, st: S, step: (char, S) -> Step<S>, end: S)
    requires Crosses(s, q, st, step, end)
    requires rest != [] && !IsQuote(rest[0]) && step(rest[0], end) == Stop
    ensures Scan(s + rest, q, st, step) == At(|s|)
  {
    ScanAfter(s, rest, q, st, step, end);
  }

  lemma {:induction false} CrossesAppend<S>(
      s: string, t: string, q: Quote, st: S, step: (char, S) -> Step<S>, mid: S, end: S)
    requires Crosses(s, q, st, step, mid)
    requires Crosses(t, Code, mid, step, end)
    ensures Crosses(s + t, q, st, step, end)
    decreases |s|
  {
    if s == [] {
      assert s + t == t;
    } else {
      assert (s + t)[1..] == s[1..] + t;
      if q.Inside? {
        var (n, q') := AdvanceQuoted(s[0], q.mark);
        assert (s + t)[n..] == s[n..] + t;
        CrossesAppend(s[n..], t, q', st, step, mid, end);
      } else if IsQuote(s[0]) {
        CrossesAppend(s[1..], t, Inside(s[0]), st, step, mid, end);
      } else {
        CrossesAppend(s[1..], t, Code, step(s[0], st).state, step, mid, end);
      }
    }
  }

  /** A scanner stops only where its step says so. */
  lemma {:induction false} StopsAt<S>(s: string, q: Quote, st: S, step: (char, S) -> Step<S>) returns (at: S)
    requires Scan(s, q, st, step).At?
    ensures step(s[Scan(s, q, st, step).index], at) == Stop
    decreases |s|
  {
    if q.Inside? {
      var (n, q') := AdvanceQuoted(s[0], q.mark);
      at := StopsAt(Drop(s, n), q', st, step);
    } else if IsQuote(s[0]) {
      at := StopsAt(s[1..], Inside(s[0]), st, step);
    } else if step(s[0], st).Stop? {
      at := st;
    } else {
      at := StopsAt(s[1..], Code, step(s[0], st).state, step);
    }
  }

  /** Nothing before the stopping point stops the scanner. */
  lemma {:induction false} StopsFirst<S>(s: string, q: Quote, st: S, step: (char, S) -> Step<S>)
    requires Scan(s, q, st, step).At?
    ensures Scan(s[..Scan(s, q, st, step).index], q, st, step).Ended?
    decreases |s|
  {
    var i := Scan(s, q, st, step).index;
    if q.Inside? {
      var (n, q') := AdvanceQuoted(s[0], q.mark);
      StopsFirst(Drop(s, n), q', st, step);
      assert Drop(s[..i], n) == Drop(s, n)[..i - n];
    } else if IsQuote(s[0]) {
      StopsFirst(s[1..], Inside(s[0]), st, step);
      assert s[..i][1..] == s[1..][..i - 1];
    } else if step(s[0], st).Go? {
      StopsFirst(s[1..], Code, step(s[0], st).state, step);
      assert s[..i][1..] == s[1..][..i - 1];
    }
  }

  /** The walk from a position of the whole text, with positions of the whole text. */
  ghost function ScanFrom<S>(
      text: string, position: nat, q: Quote, st: S, step: (char, S) -> Step<S>): (r: Found)
    ensures position >= |text| ==> r == Ended(position)
  {
    Scan(Drop(text, position), q, st, step).Shift(position)
  }

  /** One iteration of a scanning loop. */
  lemma {:induction false} ScanFromStep<S>(text: string, position: nat, q: Quote, st: S, step: (char, S) -> Step<S>)
    requires position < |text|
    ensures ScanFrom(text, position, q, st, step) ==
            var c := text[position];
            if q.Inside? then
              var (n, q') := AdvanceQuoted(c, q.mark);
              ScanFrom(text, position + n, q', st, step)
            else if IsQuote(c) then ScanFrom(text, position + 1, Inside(c), st, step)
            else
              match step(c, st)
              case Stop => At(position)
              case Go(st') => ScanFrom(text, position + 1, Code, st', step)
  {
    assert Drop(Drop(text, position), 1) == Drop(text, position + 1);
    assert Drop(Drop(text, position), 2) == Drop(text, position + 2);
  }

  // ----- The loops over positions -----

  /** `_find_top_level_question`; the source returns -1 where this returns None. */
  method FindTopLevelQuestion(text: string) returns (r: Option<nat>)
    ensures r == Hit(ScanFrom(text, 0, Code, FLAT, QuestionStep))
  {
    var levels, quote, position := FLAT, Code, 0;
    hide ScanFrom;
    ghost var whole := ScanFrom(text, 0, Code, FLAT, QuestionStep);
    while position < |text|
      invariant position <= |text| + 1
      invariant whole == ScanFrom(text, position, quote, levels, QuestionStep)
      decreases |text| + 1 - position
    {
      var c := text[position];
      ScanFromStep(text, position, quote, levels, QuestionStep);
      if quote.Inside? {
        var (n, q) := AdvanceQuoted(c, quote.mark);
        position, quote := position + n, q;
      } else {
        if IsQuote(c) {
          quote := Inside(c);
        } else if IsBracket(c) {
          levels := UpdateLevels(c, levels);
        } else if c == '?' && levels.Flat() {
          return Some(position);
        }
        position := position + 1;
      }
    }
    return None;
  }

  /** `_find_ternary_colon`: the colon matching the question mark at `question`. */
  method FindTernaryColon(text: string, question: nat) returns (r: Option<nat>)
    requires question < |text|
    ensures r == Hit(ScanFrom(text, question + 1, Code, 0, ColonStep))
  {
    var nested, quote, position := 0, Code, question + 1;
    hide ScanFrom;
    ghost var whole := ScanFrom(text, question + 1, Code, 0, ColonStep);
    while position < |text|
      invariant question < position <= |text| + 1
      invariant whole == ScanFrom(text, position, quote, nested, ColonStep)
      decreases |text| + 1 - position
    {
      var c := text[position];
      ScanFromStep(text, position, quote, nested, ColonStep);
      if quote.Inside? {
        var (n, q) := AdvanceQuoted(c, quote.mark);
        position, quote := position + n, q;
      } else {
        if IsQuote(c) {
          quote := Inside(c);
        } else if c == '?' {
          nested := nested + 1;
        } else if c == ':' {
          if nested == 0 {
            return Some(position);
          }
          nested := nested - 1;
        }
        position := position + 1;
      }
    }
    return None;
  }

  /** `_balanced_end` for parentheses; None is the source's "unclosed" error. */
  method BalancedEnd(text: string, start: nat) returns (r: Option<nat>)
    requires start < |text|
    ensures r == Hit(ScanFrom(text, start + 1, Code, 1, ParenStep))
  {
    var depth, quote, position := 1, Code, start + 1;
    hide ScanFrom;
    ghost var whole := ScanFrom(text, start + 1, Code, 1, ParenStep);
    while position < |text|
      invariant start < position <= |text| + 1
      invariant whole == ScanFrom(text, position, quote, depth, ParenStep)
      decreases |text| + 1 - position
    {
      var c := text[position];
      ScanFromStep(text, position, quote, depth, ParenStep);
      if quote.Inside? {
        var (n, q) := AdvanceQuoted(c, quote.mark);
        position, quote := position + n, q;
      } else {
        if IsQuote(c) {
          quote := Inside(c);
        } else if c == '(' {
          depth := depth + 1;
        } else if c == ')' {
          depth := depth - 1;
          if depth == 0 {
            return Some(position);
          }
        }
        position := position + 1;
      }
    }
    return None;
  }

  /** `_simple_statement_end`; an open escape at the end leaves the position one past the text. */
  method SimpleStatementEnd(text: string, start: nat) returns (end: nat)
    requires start <= |text| + 1
    ensures end == Reach(ScanFrom(text, start, Code, FLAT, StatementStep))
  {
    var levels, quote := FLAT, Code;
    end := start;
    hide ScanFrom;
    ghost var whole := ScanFrom(text, start, Code, FLAT, StatementStep);
    while end < |text|
      invariant start <= end <= |text| + 1
      invariant whole == ScanFrom(text, end, quote, levels, StatementStep)
      decreases |text| + 1 - end
    {
      var c := text[end];
      ScanFromStep(text, end, quote, levels, StatementStep);
      if quote.Inside? {
        var (n, q) := AdvanceQuoted(c, quote.mark);
        end, quote := end + n, q;
      } else {
        if IsQuote(c) {
          quote := Inside(c);
        } else if c == '}' && levels.Flat() {
          return;
        } else if IsBracket(c) {
          levels := UpdateLevels(c, levels);
        } else if c == ';' && levels.Flat() {
          return;
        }
        end := end + 1;
      }
    }
  }
}
