/** The lexer (`QueryParser._parse_lexic`): one left-to-right scan of the
    expression that turns it into a list of token strings closed by the end
    marker `$`. */
module Lexer {
  import opened Wrappers
  import opened Text
  import opened Registry

  const EndMarker: string := "$"

  /** The scan's variables: the index of the next character, the pending
      literal (`curr_token`) and the tokens emitted so far. */
  datatype LexState = LexState(idx: nat, curr: string, tokens: seq<string>)

  /** The character at `s.idx` is added to the pending literal: it is
      neither a dropped space nor a structural symbol. */
  predicate Accumulates(expr: string, s: LexState)
    requires s.idx < |expr|
  {
    !(expr[s.idx] == ' ' && '"' !in s.curr) && !IsStructural(expr[s.idx])
  }

  /** Where a free-text literal that reached five characters at `idx`
      ends: at the next `,` at or after `idx`, else at the next `)`, else
      (the corrected case, see `LiteralEndAsWritten`) at the end of the
      input; two positions earlier when that delimiter is directly
      preceded by `)`. */
  function LiteralEnd(expr: string, idx: nat): (d: nat)
    requires idx < |expr| && !IsStructural(expr[idx])
    ensures idx <= d <= |expr|
    ensures FindFrom(expr, ',', idx).Some? ==>
              var p := FindFrom(expr, ',', idx).value;
              d == if expr[p - 1] == ')' then p - 2 else p
    ensures FindFrom(expr, ',', idx).None? && FindFrom(expr, ')', idx).Some? ==>
              var p := FindFrom(expr, ')', idx).value;
              d == if expr[p - 1] == ')' then p - 2 else p
    ensures FindFrom(expr, ',', idx).None? && FindFrom(expr, ')', idx).None? ==> d == |expr|
  {
    var nd: nat :=
      match FindFrom(expr, ',', idx)
      case Some(p) => p
      case None =>
        match FindFrom(expr, ')', idx)
        case Some(p) => p
        case None => |expr|;
    if expr[nd - 1] == ')' then nd - 2 else nd
  }

  /** One iteration of the scanning loop. */
  function Step(expr: string, s: LexState): (t: LexState)
    requires s.idx < |expr| && |s.curr| <= MaxTokenLength
    ensures t.idx <= |expr| && |t.curr| <= MaxTokenLength
    ensures t.idx > s.idx || (t.idx == s.idx && |t.curr| < |s.curr|)
    ensures |s.tokens| <= |t.tokens| && t.tokens[..|s.tokens|] == s.tokens
    // a space is dropped unless the pending literal holds a double quote
    ensures expr[s.idx] == ' ' && '"' !in s.curr ==> t == LexState(s.idx + 1, s.curr, s.tokens)
    // a structural symbol flushes a non-empty pending literal, then is emitted itself
    ensures IsStructural(expr[s.idx]) ==>
              t == LexState(s.idx + 1, [], s.tokens + (if |s.curr| > 0 then [s.curr] else []) + [[expr[s.idx]]])
    // a pending literal of exactly four characters naming an operator is emitted
    ensures Accumulates(expr, s) && |s.curr| + 1 == MaxTokenLength && IsBinaryToken(s.curr + [expr[s.idx]]) ==>
              t == LexState(s.idx + 1, [], s.tokens + [s.curr + [expr[s.idx]]])
    // a four-character pending literal that names no operator stays pending
    ensures Accumulates(expr, s) && |s.curr| + 1 == MaxTokenLength && !IsBinaryToken(s.curr + [expr[s.idx]]) ==>
              t == LexState(s.idx + 1, s.curr + [expr[s.idx]], s.tokens)
    // shorter pending literals just grow
    ensures Accumulates(expr, s) && |s.curr| + 1 < MaxTokenLength ==>
              t == LexState(s.idx + 1, s.curr + [expr[s.idx]], s.tokens)
    // a fifth character turns the pending literal into one free-text token
    ensures Accumulates(expr, s) && |s.curr| == MaxTokenLength ==>
              t.idx == LiteralEnd(expr, s.idx) && t.curr == []
              && t.tokens == s.tokens + [s.curr + [expr[s.idx]] + Slice(expr, s.idx + 1, t.idx)]
  {
    var c := expr[s.idx];
    if c == ' ' && '"' !in s.curr then
      LexState(s.idx + 1, s.curr, s.tokens)
    else if IsSymbol([c]) then
      var flushed := if |s.curr| > 0 then s.tokens + [s.curr] else s.tokens;
      LexState(s.idx + 1, [], flushed + [[c]])
    else
      var curr := s.curr + [c];
      if |curr| == MaxTokenLength && IsSymbol(curr) then
        LexState(s.idx + 1, [], s.tokens + [curr])
      else if |curr| > MaxTokenLength then
        var d := LiteralEnd(expr, s.idx);
        LexState(d, [], s.tokens + [curr + Slice(expr, s.idx + 1, d)])
      else
        LexState(s.idx + 1, curr, s.tokens)
  }

  /** A token taken from `expr`: non-empty, made of characters of `expr`. */
  predicate Lexeme(expr: string, t: string) {
    |t| > 0 && forall k :: 0 <= k < |t| ==> t[k] in expr
  }

  predicate CharsOf(expr: string, s: string) {
    forall k :: 0 <= k < |s| ==> s[k] in expr
  }

  /** Every character a step adds to the pending literal or to a new
      token is a character of the input. */
  lemma StepTakesFromInput(expr: string, s: LexState)
    requires s.idx < |expr| && |s.curr| <= MaxTokenLength && CharsOf(expr, s.curr)
    ensures CharsOf(expr, Step(expr, s).curr)
    ensures forall i :: |s.tokens| <= i < |Step(expr, s).tokens| ==> Lexeme(expr, Step(expr, s).tokens[i])
  {
    var t := Step(expr, s);
    var c := expr[s.idx];
    var curr := s.curr + [c];
    assert c in expr;
    assert CharsOf(expr, curr) by {
      forall k | 0 <= k < |curr| ensures curr[k] in expr {
        if k < |s.curr| {
          assert curr[k] == s.curr[k];
        }
      }
    }
    if c == ' ' && '"' !in s.curr {
      assert t == LexState(s.idx + 1, s.curr, s.tokens);
      TokensAdded(expr, s.tokens, []);
    } else if IsStructural(c) {
      if |s.curr| > 0 {
        assert t == LexState(s.idx + 1, [], s.tokens + [s.curr] + [[c]]);
        assert s.tokens + [s.curr] + [[c]] == s.tokens + [s.curr, [c]];
        TokensAdded(expr, s.tokens, [s.curr, [c]]);
      } else {
        assert t == LexState(s.idx + 1, [], s.tokens + [] + [[c]]);
        assert s.tokens + [] + [[c]] == s.tokens + [[c]];
        TokensAdded(expr, s.tokens, [[c]]);
      }
    } else if |s.curr| == MaxTokenLength {
      var tok := curr + Slice(expr, s.idx + 1, t.idx);
      assert t.tokens == s.tokens + [tok];
      forall k | 0 <= k < |tok|
        ensures tok[k] in expr
      {
        if k < |curr| {
          assert tok[k] == curr[k];
        } else {
          assert tok[k] == expr[s.idx + 1 + (k - |curr|)];
        }
      }
      TokensAdded(expr, s.tokens, [tok]);
    } else if |s.curr| + 1 == MaxTokenLength && IsBinaryToken(curr) {
      assert t == LexState(s.idx + 1, [], s.tokens + [curr]);
      TokensAdded(expr, s.tokens, [curr]);
    } else {
      assert t == LexState(s.idx + 1, curr, s.tokens);
      TokensAdded(expr, s.tokens, []);
    }
  }

  /** Tokens appended after `before`, each taken from the input. */
  lemma TokensAdded(expr: string, before: seq<string>, added: seq<string>)
    requires forall k :: 0 <= k < |added| ==> Lexeme(expr, added[k])
    ensures forall i :: |before| <= i < |before + added| ==> Lexeme(expr, (before + added)[i])
    ensures before + [] == before
  {
    forall i | |before| <= i < |before + added| ensures Lexeme(expr, (before + added)[i]) {
      assert (before + added)[i] == added[i - |before|];
    }
  }

  /** The scanning loop from state `s` to the end of the input. */
  function Run(expr: string, s: LexState): (t: LexState)
    requires s.idx <= |expr| && |s.curr| <= MaxTokenLength
    decreases |expr| - s.idx, |s.curr|
    ensures t.idx == |expr| && |t.curr| <= MaxTokenLength
  {
    if s.idx >= |expr| then s else Run(expr, Step(expr, s))
  }

  /** The loop only appends tokens, and every token it appends is taken
      from the input. */
  lemma {:induction false} RunTakesFromInput(expr: string, s: LexState)
    requires s.idx <= |expr| && |s.curr| <= MaxTokenLength && CharsOf(expr, s.curr)
    decreases |expr| - s.idx, |s.curr|
    ensures |s.tokens| <= |Run(expr, s).tokens| && Run(expr, s).tokens[..|s.tokens|] == s.tokens
    ensures forall i :: |s.tokens| <= i < |Run(expr, s).tokens| ==> Lexeme(expr, Run(expr, s).tokens[i])
  {
    if s.idx < |expr| {
      var n := Step(expr, s);
      StepTakesFromInput(expr, s);
      RunTakesFromInput(expr, n);
      var t := Run(expr, n);
      assert t.tokens[..|s.tokens|] == t.tokens[..|n.tokens|][..|s.tokens|];
    }
  }

  const Start: LexState := LexState(0, [], [])

  /** `_parse_lexic`: the tokens of the scan, then the end marker. A literal
      still pending when the input runs out is not emitted. */
  function Lex(expr: string): (r: seq<string>)
    ensures |r| >= 1 && r[|r| - 1] == EndMarker
    ensures r[..|r| - 1] == Run(expr, Start).tokens
  {
    Run(expr, Start).tokens + [EndMarker]
  }

  /** Every token before the end marker is a non-empty string of input
      characters. */
  lemma LexTakesFromInput(expr: string)
    ensures forall i :: 0 <= i < |Lex(expr)| - 1 ==> Lexeme(expr, Lex(expr)[i])
  {
    RunTakesFromInput(expr, Start);
  }

  /** The list ends with exactly one end marker when the input itself
      holds no `$`. */
  lemma EndMarkerOnlyAtEnd(expr: string)
    requires '$' !in expr
    ensures Lex(expr)[|Lex(expr)| - 1] == EndMarker
    ensures forall i :: 0 <= i < |Lex(expr)| - 1 ==> Lex(expr)[i] != EndMarker
  {
    var r := Lex(expr);
    LexTakesFromInput(expr);
    forall i | 0 <= i < |r| - 1
      ensures r[i] != EndMarker
    {
      assert Lexeme(expr, r[i]);
      assert r[i][0] in expr;
    }
  }
}
