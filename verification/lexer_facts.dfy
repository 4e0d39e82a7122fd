/** Whole-scan properties of the lexer, and the as-written end-of-literal
    computation that the model corrects. */
module LexerFacts {
  import opened Wrappers
  import opened Text
  import opened Registry
  import opened Lexer

  /** No `)` directly followed by `,`: the only shape in which the lexer
      backs off from a delimiter. */
  predicate NoCloseBeforeComma(expr: string) {
    forall i :: 0 <= i < |expr| - 1 ==> !(expr[i] == ')' && expr[i + 1] == ',')
  }

  /** Without a `),` in the input a free-text literal ends exactly at its
      delimiter (or at the end of the input), never before the character
      that triggered it. */
  lemma LiteralEndNoBackOff(expr: string, idx: nat)
    requires idx < |expr| && !IsStructural(expr[idx]) && NoCloseBeforeComma(expr)
    ensures idx < LiteralEnd(expr, idx)
    ensures LiteralEnd(expr, idx) < |expr| ==> IsStructural(expr[LiteralEnd(expr, idx)])
  {
    match FindFrom(expr, ',', idx)
    case Some(p) =>
      var q := p - 1;
      assert expr[q + 1] == ',';
      assert expr[q] != ')';
    case None =>
  }

  /** One step keeps the tokens and the pending literal spelling out the
      input read so far, when the input has no spaces and no `),`. */
  lemma StepKeepsText(expr: string, s: LexState)
    requires s.idx < |expr| && |s.curr| <= MaxTokenLength
    requires ' ' !in expr && NoCloseBeforeComma(expr)
    requires Concat(s.tokens) + s.curr == expr[..s.idx]
    ensures Concat(Step(expr, s).tokens) + Step(expr, s).curr == expr[..Step(expr, s).idx]
    ensures Step(expr, s).idx == |expr| && IsStructural(expr[|expr| - 1]) ==> Step(expr, s).curr == []
  {
    var c := expr[s.idx];
    assert c != ' ';
    if IsStructural(c) {
      StructuralKeepsText(expr, s);
    } else if |s.curr| == MaxTokenLength {
      LiteralKeepsText(expr, s);
    } else {
      GrowKeepsText(expr, s);
    }
  }

  /** A character added to a short pending literal, which may then be
      emitted as an operator token. */
  lemma GrowKeepsText(expr: string, s: LexState)
    requires s.idx < |expr| && |s.curr| < MaxTokenLength && Accumulates(expr, s)
    requires Concat(s.tokens) + s.curr == expr[..s.idx]
    ensures Concat(Step(expr, s).tokens) + Step(expr, s).curr == expr[..Step(expr, s).idx]
  {
    var c := expr[s.idx];
    var curr := s.curr + [c];
    assert expr[..s.idx + 1] == expr[..s.idx] + [c];
    if |s.curr| + 1 == MaxTokenLength && IsBinaryToken(curr) {
      assert Step(expr, s) == LexState(s.idx + 1, [], s.tokens + [curr]);
      ConcatAppend(s.tokens, curr);
      assert Concat(s.tokens + [curr]) + [] == Concat(s.tokens) + s.curr + [c];
    } else {
      assert Step(expr, s) == LexState(s.idx + 1, curr, s.tokens);
      assert Concat(s.tokens) + curr == Concat(s.tokens) + s.curr + [c];
    }
  }

  lemma StructuralKeepsText(expr: string, s: LexState)
    requires s.idx < |expr| && |s.curr| <= MaxTokenLength && IsStructural(expr[s.idx])
    requires Concat(s.tokens) + s.curr == expr[..s.idx]
    ensures Concat(Step(expr, s).tokens) + Step(expr, s).curr == expr[..Step(expr, s).idx]
    ensures Step(expr, s).curr == []
  {
    var c := expr[s.idx];
    assert expr[..s.idx + 1] == expr[..s.idx] + [c];
    if |s.curr| > 0 {
      assert Step(expr, s) == LexState(s.idx + 1, [], s.tokens + [s.curr] + [[c]]);
      ConcatAppend(s.tokens, s.curr);
      ConcatAppend(s.tokens + [s.curr], [c]);
    } else {
      assert Step(expr, s) == LexState(s.idx + 1, [], s.tokens + [[c]]);
      ConcatAppend(s.tokens, [c]);
    }
  }

  lemma LiteralKeepsText(expr: string, s: LexState)
    requires s.idx < |expr| && |s.curr| == MaxTokenLength && NoCloseBeforeComma(expr)
    requires expr[s.idx] != ' ' && !IsStructural(expr[s.idx])
    requires Concat(s.tokens) + s.curr == expr[..s.idx]
    ensures Concat(Step(expr, s).tokens) + Step(expr, s).curr == expr[..Step(expr, s).idx]
    ensures Step(expr, s).curr == []
  {
    var c := expr[s.idx];
    LiteralEndNoBackOff(expr, s.idx);
    var d := LiteralEnd(expr, s.idx);
    var tok := s.curr + [c] + expr[s.idx + 1..d];
    assert Slice(expr, s.idx + 1, d) == expr[s.idx + 1..d];
    assert Accumulates(expr, s);
    var t := Step(expr, s);
    assert t.idx == d && t.curr == [] && t.tokens == s.tokens + [tok];
    ConcatAppend(s.tokens, tok);
    var pre := Concat(s.tokens);
    assert pre + tok == (pre + s.curr) + [c] + expr[s.idx + 1..d];
    assert expr[..d] == expr[..s.idx] + [c] + expr[s.idx + 1..d];
    assert Concat(s.tokens + [tok]) + [] == pre + tok;
  }

  lemma {:induction false} RunKeepsText(expr: string, s: LexState)
    requires s.idx <= |expr| && |s.curr| <= MaxTokenLength
    requires ' ' !in expr && NoCloseBeforeComma(expr)
    requires Concat(s.tokens) + s.curr == expr[..s.idx]
    requires s.idx == |expr| && |expr| > 0 && IsStructural(expr[|expr| - 1]) ==> s.curr == []
    decreases |expr| - s.idx, |s.curr|
    ensures Concat(Run(expr, s).tokens) + Run(expr, s).curr == expr
    ensures |expr| > 0 && IsStructural(expr[|expr| - 1]) ==> Run(expr, s).curr == []
  {
    if s.idx < |expr| {
      StepKeepsText(expr, s);
      RunKeepsText(expr, Step(expr, s));
    }
  }

  /** Nothing is lost, duplicated or reordered: for an input without spaces
      and without `),`, the tokens before the end marker, joined, spell the
      input, up to a trailing literal the scan leaves pending; an input that
      ends with a structural symbol is spelled out in full. */
  lemma LexSpellsInput(expr: string)
    requires ' ' !in expr && NoCloseBeforeComma(expr)
    ensures var body := Lex(expr)[..|Lex(expr)| - 1];
            Concat(body) + Run(expr, Start).curr == expr
    ensures |expr| > 0 && IsStructural(expr[|expr| - 1]) ==> Concat(Lex(expr)[..|Lex(expr)| - 1]) == expr
  {
    RunKeepsText(expr, Start);
  }

  // ----- A simple binary expression lexes into its parts -----

  /** A character that is neither whitespace nor a structural symbol. */
  predicate PlainChar(c: char) {
    !IsWhitespace(c) && !IsStructural(c)
  }

  /** A non-empty run of plain characters. */
  predicate Word(w: string) {
    |w| > 0 && forall i :: 0 <= i < |w| ==> PlainChar(w[i])
  }

  /** A word longer than four characters does not begin with an operator
      token (which the lexer would split off). */
  predicate NoTokenPrefix(w: string) {
    |w| > MaxTokenLength ==> !IsBinaryToken(w[..MaxTokenLength])
  }

  /** Two scan states that finish in the same final state. */
  predicate SameRun(expr: string, a: LexState, b: LexState)
    requires a.idx <= |expr| && |a.curr| <= MaxTokenLength && b.idx <= |expr| && |b.curr| <= MaxTokenLength
  {
    Run(expr, a) == Run(expr, b)
  }

  /** Runs that finish alike chain; stated once so that a chain of steps
      closes on exactly the state it names. */
  lemma SameRunTrans(expr: string, a: LexState, b: LexState, c: LexState)
    requires a.idx <= |expr| && |a.curr| <= MaxTokenLength && b.idx <= |expr| && |b.curr| <= MaxTokenLength
    requires c.idx <= |expr| && |c.curr| <= MaxTokenLength
    requires SameRun(expr, a, b) && SameRun(expr, b, c)
    ensures SameRun(expr, a, c)
  {
  }

  lemma {:induction false} Accumulate(expr: string, idx: nat, w: string, k: nat, toks: seq<string>)
    requires Word(w) && idx + |w| <= |expr| && expr[idx..idx + |w|] == w
    requires k <= |w| && k < MaxTokenLength
    ensures SameRun(expr, LexState(idx, [], toks), LexState(idx + k, w[..k], toks))
  {
    if k == 0 {
      assert w[..0] == [];
    } else {
      Accumulate(expr, idx, w, k - 1, toks);
      var s := LexState(idx + k - 1, w[..k - 1], toks);
      var t := LexState(idx + k, w[..k], toks);
      assert expr[idx + k - 1] == w[k - 1];
      assert w[..k - 1] + [w[k - 1]] == w[..k];
      assert !IsWhitespace(w[k - 1]);
      assert Step(expr, s) == t;
      assert Run(expr, s) == Run(expr, t);
    }
  }

  /** The loop runs one step at a time. */
  lemma RunUnfold(expr: string, s: LexState)
    requires s.idx < |expr| && |s.curr| <= MaxTokenLength
    ensures SameRun(expr, s, Step(expr, s))
  {
  }

  /** A structural symbol after a pending word flushes it. */
  lemma FlushWord(expr: string, e: nat, w: string, toks: seq<string>)
    requires e < |expr| && IsStructural(expr[e]) && |w| <= MaxTokenLength
    ensures SameRun(expr, LexState(e, w, toks), LexState(e + 1, [], toks + (if |w| > 0 then [w] else []) + [[expr[e]]]))
  {
    var s := LexState(e, w, toks);
    assert Step(expr, s) == LexState(e + 1, [], toks + (if |w| > 0 then [w] else []) + [[expr[e]]]);
    RunUnfold(expr, s);
  }

  /** The first three characters of a word only accumulate; the fourth
      either completes an operator token or accumulates too. */
  lemma {:induction false} AccumulateFour(expr: string, idx: nat, w: string, toks: seq<string>)
    requires Word(w) && |w| >= MaxTokenLength && idx + |w| <= |expr| && expr[idx..idx + |w|] == w
    ensures IsBinaryToken(w[..4]) ==> SameRun(expr, LexState(idx, [], toks), LexState(idx + 4, [], toks + [w[..4]]))
    ensures !IsBinaryToken(w[..4]) ==> SameRun(expr, LexState(idx, [], toks), LexState(idx + 4, w[..4], toks))
  {
    Accumulate(expr, idx, w, 3, toks);
    var s3 := LexState(idx + 3, w[..3], toks);
    assert expr[idx + 3] == w[3];
    assert !IsWhitespace(w[3]);
    assert w[..3] + [w[3]] == w[..4];
    RunUnfold(expr, s3);
    if IsBinaryToken(w[..4]) {
      assert Step(expr, s3) == LexState(idx + 4, [], toks + [w[..4]]);
    } else {
      assert Step(expr, s3) == LexState(idx + 4, w[..4], toks);
    }
  }

  lemma LexShortWord(expr: string, idx: nat, w: string, toks: seq<string>)
    requires Word(w) && |w| <= MaxTokenLength
    requires idx + |w| < |expr| && expr[idx..idx + |w|] == w && IsStructural(expr[idx + |w|])
    ensures SameRun(expr, LexState(idx, [], toks), LexState(idx + |w| + 1, [], toks + [w, [expr[idx + |w|]]]))
  {
    var e := idx + |w|;
    var sym := [expr[e]];
    var s0 := LexState(idx, [], toks);
    var s2 := LexState(e + 1, [], toks + [w, sym]);
    if |w| < MaxTokenLength {
      Accumulate(expr, idx, w, |w|, toks);
      assert w[..|w|] == w;
      FlushWord(expr, e, w, toks);
      assert toks + [w] + [sym] == toks + [w, sym];
      assert Run(expr, s0) == Run(expr, LexState(e, w, toks)) == Run(expr, s2);
    } else {
      AccumulateFour(expr, idx, w, toks);
      assert w[..4] == w;
      if IsBinaryToken(w) {
        FlushWord(expr, e, [], toks + [w]);
        assert toks + [w] + [] + [sym] == toks + [w, sym];
        assert Run(expr, s0) == Run(expr, LexState(e, [], toks + [w])) == Run(expr, s2);
      } else {
        FlushWord(expr, e, w, toks);
        assert toks + [w] + [sym] == toks + [w, sym];
        assert Run(expr, s0) == Run(expr, LexState(e, w, toks)) == Run(expr, s2);
      }
    }
  }

  /** The free-text literal started by a long word ends right after it. */
  lemma LiteralEndAfterWord(expr: string, idx: nat, w: string)
    requires Word(w) && |w| > MaxTokenLength
    requires idx + |w| < |expr| && expr[idx..idx + |w|] == w && IsStructural(expr[idx + |w|])
    requires expr[idx + |w|] == ',' || (expr[idx + |w|] == ')' && FindFrom(expr, ',', idx + |w|).None?)
    ensures !IsStructural(expr[idx + 4]) && LiteralEnd(expr, idx + 4) == idx + |w|
  {
    var e := idx + |w|;
    assert forall i :: idx + 4 <= i < e ==> expr[i] == w[i - idx];
    assert expr[idx + 4] == w[4];
    if expr[e] == ',' {
      assert FindFrom(expr, ',', idx + 4) == Some(e);
    } else {
      assert FindFrom(expr, ',', idx + 4).None?;
      assert FindFrom(expr, ')', idx + 4) == Some(e);
    }
    assert expr[e - 1] == w[|w| - 1];
  }

  lemma LongWordStep(expr: string, idx: nat, w: string, toks: seq<string>)
    requires Word(w) && |w| > MaxTokenLength
    requires idx + |w| < |expr| && expr[idx..idx + |w|] == w && IsStructural(expr[idx + |w|])
    requires expr[idx + |w|] == ',' || (expr[idx + |w|] == ')' && FindFrom(expr, ',', idx + |w|).None?)
    ensures Step(expr, LexState(idx + 4, w[..4], toks)) == LexState(idx + |w|, [], toks + [w])
  {
    var e := idx + |w|;
    var s4 := LexState(idx + 4, w[..4], toks);
    LiteralEndAfterWord(expr, idx, w);
    assert expr[idx + 4] == w[4];
    assert !IsWhitespace(w[4]);
    assert Accumulates(expr, s4);
    assert expr[idx + 5..e] == w[5..];
    assert w[..4] + [w[4]] + Slice(expr, idx + 5, e) == w;
  }

  /** A long word's scan reaches its delimiter with the word emitted. */
  lemma LongWordReachesDelimiter(expr: string, idx: nat, w: string, toks: seq<string>)
    requires Word(w) && NoTokenPrefix(w) && |w| > MaxTokenLength
    requires idx + |w| < |expr| && expr[idx..idx + |w|] == w && IsStructural(expr[idx + |w|])
    requires expr[idx + |w|] == ',' || (expr[idx + |w|] == ')' && FindFrom(expr, ',', idx + |w|).None?)
    ensures SameRun(expr, LexState(idx, [], toks), LexState(idx + |w|, [], toks + [w]))
  {
    var s0 := LexState(idx, [], toks);
    var s4 := LexState(idx + 4, w[..4], toks);
    var s5 := LexState(idx + |w|, [], toks + [w]);
    AccumulateFour(expr, idx, w, toks);
    assert Run(expr, s0) == Run(expr, s4);
    LongWordStep(expr, idx, w, toks);
    RunUnfold(expr, s4);
    assert Run(expr, s4) == Run(expr, s5);
  }

  /** A structural symbol after an emitted word is emitted on its own. */
  lemma SymbolAfterWord(expr: string, e: nat, w: string, toks: seq<string>)
    requires e < |expr| && IsStructural(expr[e])
    ensures SameRun(expr, LexState(e, [], toks + [w]), LexState(e + 1, [], toks + [w, [expr[e]]]))
  {
    FlushWord(expr, e, [], toks + [w]);
    assert toks + [w] + [] + [[expr[e]]] == toks + [w, [expr[e]]];
  }

  lemma LexLongWord(expr: string, idx: nat, w: string, toks: seq<string>)
    requires Word(w) && NoTokenPrefix(w) && |w| > MaxTokenLength
    requires idx + |w| < |expr| && expr[idx..idx + |w|] == w && IsStructural(expr[idx + |w|])
    requires expr[idx + |w|] == ',' || (expr[idx + |w|] == ')' && FindFrom(expr, ',', idx + |w|).None?)
    ensures SameRun(expr, LexState(idx, [], toks), LexState(idx + |w| + 1, [], toks + [w, [expr[idx + |w|]]]))
  {
    SymbolAfterWord(expr, idx + |w|, w, toks);
    LongWordReachesDelimiter(expr, idx, w, toks);
    SameRunTrans(expr, LexState(idx, [], toks), LexState(idx + |w|, [], toks + [w]),
                 LexState(idx + |w| + 1, [], toks + [w, [expr[idx + |w|]]]));
  }

  /** A word followed by a structural symbol becomes one token, then the
      symbol becomes another. A long word must be followed by `,`, or by
      `)` with no `,` anywhere after it. */
  lemma LexWord(expr: string, idx: nat, w: string, toks: seq<string>, end: nat)
    requires Word(w) && NoTokenPrefix(w) && end == idx + |w|
    requires end < |expr| && expr[idx..end] == w && IsStructural(expr[end])
    requires |w| > MaxTokenLength ==>
               expr[end] == ',' || (expr[end] == ')' && FindFrom(expr, ',', end).None?)
    ensures SameRun(expr, LexState(idx, [], toks), LexState(end + 1, [], toks + [w, [expr[end]]]))
  {
    if |w| <= MaxTokenLength {
      LexShortWord(expr, idx, w, toks);
    } else {
      LexLongWord(expr, idx, w, toks);
    }
  }

  /** The text `op(col,val)` of a binary comparison. */
  function BinaryText(op: string, col: string, val: string): string {
    op + "(" + col + "," + val + ")"
  }

  /** For an operator token and two plain words, the lexer yields exactly
      the operator, `(`, the column, `,`, the value, `)` and the end marker. */
  lemma LexBinary(op: string, col: string, val: string)
    requires IsBinaryToken(op)
    requires Word(col) && NoTokenPrefix(col) && Word(val) && NoTokenPrefix(val)
    ensures Lex(BinaryText(op, col, val)) == [op, "(", col, ",", val, ")", EndMarker]
  {
    var e := BinaryText(op, col, val);
    BinaryTextLayout(op, col, val);
    assert Word(op) by {
      assert op == "eq" || op == "gt" || op == "ge" || op == "lt" || op == "le" || op == "like";
    }
    LexLayout(e, op, col, val);
  }

  lemma BinaryTextLayout(op: string, col: string, val: string)
    ensures var e := BinaryText(op, col, val);
            var a := |op|; var b := a + 1 + |col|; var c := b + 1 + |val|;
            && |e| == c + 1
            && e[..a] == op && e[a] == '('
            && e[a + 1..b] == col && e[b] == ','
            && e[b + 1..c] == val && e[c] == ')'
  {
  }

  /** The token list of a binary comparison, built one word and one
      symbol at a time. */
  lemma LayoutShapes(op: string, col: string, val: string, x: char, y: char, z: char)
    requires x == '(' && y == ',' && z == ')'
    ensures [] + [op, [x]] + [col, [y]] + [val, [z]] == [op, "(", col, ",", val, ")"]
  {
  }

  /** Nothing follows the closing `)` of a binary comparison. */
  lemma NothingAfterClose(e: string, c: nat)
    requires |e| == c + 1 && e[c] == ')'
    ensures FindFrom(e, ',', c).None?
  {
    assert FindFrom(e, ',', c + 1).None?;
  }

  lemma LexLayout(e: string, op: string, col: string, val: string)
    requires Word(op) && NoTokenPrefix(op) && |op| <= MaxTokenLength
    requires Word(col) && NoTokenPrefix(col) && Word(val) && NoTokenPrefix(val)
    requires var a := |op|; var b := a + 1 + |col|; var c := b + 1 + |val|;
            && |e| == c + 1
            && e[..a] == op && e[a] == '('
            && e[a + 1..b] == col && e[b] == ','
            && e[b + 1..c] == val && e[c] == ')'
    ensures Run(e, Start).tokens == [op, "(", col, ",", val, ")"]
  {
    var a := |op|;
    var b := a + 1 + |col|;
    var c := b + 1 + |val|;
    var t1 := [] + [op, [e[a]]];
    var t2 := t1 + [col, [e[b]]];
    var t3 := t2 + [val, [e[c]]];
    LayoutShapes(op, col, val, e[a], e[b], e[c]);
    NothingAfterClose(e, c);
    LexWord(e, 0, op, [], a);
    LexWord(e, a + 1, col, t1, b);
    LexWord(e, b + 1, val, t2, c);
    assert Run(e, LexState(c + 1, [], t3)) == LexState(c + 1, [], t3);
  }

  // ----- The end of a free-text literal, as written -----

  /** Python's `s.find(c, start)`: the index, or -1 when absent. */
  function PyFind(s: string, c: char, start: nat): (r: int)
    ensures r == -1 || (start <= r < |s| && s[r] == c)
  {
    match FindFrom(s, c, start)
    case Some(p) => p
    case None => -1
  }

  /** Python's `s[i]`, where a negative index counts from the end. */
  function PyIndex(s: string, i: int): char
    requires -|s| <= i < |s|
  {
    if i >= 0 then s[i] else s[|s| + i]
  }

  /** The source's computation of `next_delim`, as written: when neither a
      `,` nor a `)` follows, `find` yields -1 and the scan index becomes
      negative. */
  function LiteralEndAsWritten(expr: string, idx: nat): (d: int)
    requires MaxTokenLength <= idx < |expr| && !IsStructural(expr[idx])
    ensures d >= idx || d < 0
  {
    var nd := PyFind(expr, ',', idx);
    var nd := if nd == -1 then PyFind(expr, ')', idx) else nd;
    if PyIndex(expr, nd - 1) == ')' then nd - 2 else nd
  }

  /** Whenever a delimiter follows, the as-written and corrected ends agree. */
  lemma LiteralEndAgreesWithDelimiter(expr: string, idx: nat)
    requires MaxTokenLength <= idx < |expr| && !IsStructural(expr[idx])
    requires FindFrom(expr, ',', idx).Some? || FindFrom(expr, ')', idx).Some?
    ensures LiteralEndAsWritten(expr, idx) == LiteralEnd(expr, idx)
  {
  }

  /** Whenever no delimiter follows, the as-written index is negative:
      the loop `while idx < len(filter_expr)` carries on from a position
      before the literal instead of finishing, while the corrected end is
      the end of the input. */
  lemma LiteralEndAsWrittenGoesBack(expr: string, idx: nat)
    requires MaxTokenLength <= idx < |expr| && !IsStructural(expr[idx])
    requires FindFrom(expr, ',', idx).None? && FindFrom(expr, ')', idx).None?
    ensures LiteralEndAsWritten(expr, idx) < 0
    ensures LiteralEnd(expr, idx) == |expr|
  {
  }

  /** `abcdefg`: the fifth character starts a free-text literal with no
      delimiter after it, and the as-written scan jumps back to index -1. */
  lemma NoDelimiterCounterexample()
    ensures LiteralEndAsWritten("abcdefg", 4) == -1
    ensures LiteralEnd("abcdefg", 4) == 7
  {
    assert FindFrom("abcdefg", ',', 4).None?;
    assert FindFrom("abcdefg", ')', 4).None?;
  }
}
