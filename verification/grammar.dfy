/** The table-driven LL driver (`QueryParser._parse_syntax`) and its
    grammar tables (`_TABLE`, `_RULES`) after the six binary operators have
    been registered. */
module Grammar {
  import opened Wrappers
  import opened Errors
  import opened Registry

  /** A grammar symbol: the free-text class, or a literal token string. */
  datatype Symbol = Text | Tok(s: string)

  /** A stack entry: a terminal to match, or a rule to expand. */
  datatype Entry = Term(sym: Symbol) | Rule(sym: Symbol)

  /** The semantic action a table row carries; `NoAction` is the row whose
      action slot holds `None` (the result of calling `nop()` while building
      the table). */
  datatype Action = AddArgument | Nop | ExecOperator | NewOperator(token: string) | NoAction

  /** A table row `(lhs, key, action)`. */
  datatype Row = Row(lhs: Symbol, key: Symbol, action: Action)

  /** The characters of the free-text class `[a-zA-Z. "0-9]`. */
  predicate IsTextChar(c: char) {
    ('a' <= c <= 'z') || ('A' <= c <= 'Z') || c == '.' || c == ' ' || c == '"' || ('0' <= c <= '9')
  }

  /** `re.match(REGEX_TEXT, token)`: the token starts with a text character. */
  predicate MatchesText(t: string) {
    |t| > 0 && IsTextChar(t[0])
  }

  predicate AllText(u: string) {
    forall k :: 0 <= k < |u| ==> IsTextChar(u[k])
  }

  /** `[a-zA-Z\. "0-9]{1,}` matched at the start of a token: some non-empty
      prefix of the token lies in the class. */
  predicate HasTextPrefix(t: string) {
    exists n :: 0 < n <= |t| && AllText(t[..n])
  }

  /** `re.match` anchors the pattern at the start only, so the first
      character alone decides whether the token matches. */
  lemma MatchesTextIsPrefixMatch(t: string)
    ensures MatchesText(t) <==> HasTextPrefix(t)
  {
    if MatchesText(t) {
      assert AllText(t[..1]);
    }
    if HasTextPrefix(t) {
      var n :| 0 < n <= |t| && AllText(t[..n]);
      assert t[..n][0] == t[0];
    }
  }

  /** `_TABLE[s].get(t)`: an error when `s` has no row set, nothing when
      the row set has no row for `t`. */
  function TableRow(s: Symbol, t: Symbol): (r: Result<Option<Row>, ParseError>)
    ensures r.Err? <==> s.Tok? && s.s != "," && s.s != ")" && !IsBinaryToken(s.s)
    ensures r.Err? ==> r.error == UnknownGrammarSymbol(s.s)
    ensures r.Ok? && r.value.Some? ==> r.value.value.lhs == s && r.value.value.key == t
  {
    match s
    case Text =>
      Ok(if t == Text then Some(Row(Text, Text, AddArgument)) else None)
    case Tok(x) =>
      if x == "," then
        Ok(if t == Tok(",") then Some(Row(Tok(","), Tok(","), Nop))
           else if t == Text then Some(Row(Tok(","), Text, NoAction))
           else None)
      else if x == ")" then
        Ok(if t == Tok(")") then Some(Row(Tok(")"), Tok(")"), ExecOperator)) else None)
      else if IsBinaryToken(x) then
        Ok(if t == Tok("(") then Some(Row(Tok(x), Tok("("), NewOperator(x))) else None)
      else
        Err(UnknownGrammarSymbol(x))
  }

  /** `_RULES[lhs][key]`: the right-hand side a row expands to, in
      left-to-right order; nothing when the rules table has no entry. */
  function Rhs(lhs: Symbol, key: Symbol): (r: Option<seq<Entry>>)
    ensures r.Some? ==> |r.value| > 0
  {
    match lhs
    case Text =>
      if key == Tok(",") then Some([Rule(Text), Term(Tok(")"))])
      else if key == Text then Some([Term(Text)])
      else None
    case Tok(x) =>
      if x == "," && key == Tok(",") then Some([Term(Tok(","))])
      else if x == ")" && key == Tok(")") then Some([Term(Tok(")"))])
      else if IsBinaryToken(x) && key == Tok("(") then
        Some(OperatorRhs)
      else None
  }

  /** The two tables agree on every row but one: the `,` rule on a
      free-text token has a table row and no rules entry, so expanding it
      fails with a `KeyError`. */
  lemma RowsHaveRules(s: Symbol, t: Symbol, row: Row)
    requires TableRow(s, t) == Ok(Some(row))
    ensures Rhs(row.lhs, row.key).None? <==> row == Row(Tok(","), Text, NoAction)
  {
  }

  // ----- Termination measure -----

  function EntryWeight(e: Entry): nat {
    match e
    case Term(_) => 1
    case Rule(Tok(x)) => if IsBinaryToken(x) then 14 else 3
    case Rule(Text) => 3
  }

  function Weight(st: seq<Entry>): nat {
    if |st| == 0 then 0 else Weight(st[..|st| - 1]) + EntryWeight(st[|st| - 1])
  }

  lemma {:induction false} WeightConcat(a: seq<Entry>, b: seq<Entry>)
    ensures Weight(a + b) == Weight(a) + Weight(b)
    decreases |b|
  {
    if |b| > 0 {
      assert (a + b)[..|a + b| - 1] == a + b[..|b| - 1];
      WeightConcat(a, b[..|b| - 1]);
    } else {
      assert a + b == a;
    }
  }

  function Reverse<T>(s: seq<T>): (r: seq<T>)
    ensures |r| == |s|
    ensures forall i :: 0 <= i < |s| ==> r[i] == s[|s| - 1 - i]
  {
    if |s| == 0 then [] else [s[|s| - 1]] + Reverse(s[..|s| - 1])
  }

  lemma {:induction false} WeightReverse(s: seq<Entry>)
    ensures Weight(Reverse(s)) == Weight(s)
  {
    if |s| > 0 {
      WeightReverse(s[..|s| - 1]);
      WeightConcat([s[|s| - 1]], Reverse(s[..|s| - 1]));
      assert [s[|s| - 1]][..0] == [];
    }
  }

  /** The right-hand side of every binary operator's row. */
  const OperatorRhs: seq<Entry> := [Term(Tok("(")), Rule(Text), Rule(Tok(",")), Rule(Text), Rule(Tok(")"))]

  lemma OperatorRhsWeight()
    ensures Weight(OperatorRhs) == 13
  {
    var r1 := [Term(Tok("("))];
    var r2 := r1 + [Rule(Text)];
    var r3 := r2 + [Rule(Tok(","))];
    var r4 := r3 + [Rule(Text)];
    assert OperatorRhs == r4 + [Rule(Tok(")"))];
    assert r1[..0] == [] && r2[..1] == r1 && r3[..2] == r2 && r4[..3] == r3 && OperatorRhs[..4] == r4;
    assert Weight(r1) == 1 && Weight(r2) == 4 && Weight(r3) == 7 && Weight(r4) == 10;
  }

  /** Every row the table holds expands to entries lighter than the rule
      it replaces, so the driver terminates. */
  lemma ExpansionShrinks(s: Symbol, t: Symbol, row: Row, rhs: seq<Entry>)
    requires TableRow(s, t) == Ok(Some(row)) && Rhs(row.lhs, row.key) == Some(rhs)
    ensures Weight(rhs) < EntryWeight(Rule(s))
  {
    if s.Tok? && IsBinaryToken(s.s) {
      assert rhs == OperatorRhs;
      OperatorRhsWeight();
    } else {
      assert |rhs| == 1 && rhs[..0] == [];
    }
  }

  // ----- The driver -----

  /** The driver's variables: the input position, the entry stack (top at
      the end), the token list (whose matched literals are overwritten by
      `Text`), the literals discovered so far (oldest first) and the
      left-most derivation. */
  datatype Driver = Driver(pos: nat, stack: seq<Entry>, input: seq<Symbol>,
                           discovered: seq<string>, derivation: seq<Row>)

  /** What `_parse_syntax` leaves behind: the derivation and the literals
      its argument actions will consume. */
  datatype Outcome = Outcome(derivation: seq<Row>, discovered: seq<string>)

  datatype StepResult = Next(next: Driver) | Halt(outcome: Outcome) | Fail(error: ParseError)

  /** The errors the driver loop can raise: an `IndexError` past the last
      token, a `KeyError` for a symbol with no row set, and a `KeyError`
      for a row with no rules entry. */
  predicate DriverError(e: ParseError) {
    e == IndexOutOfRange || e == MissingGrammarRule || e.UnknownGrammarSymbol?
  }

  /** The symbol a rule looks up in its row set: `Text` once the free-text
      class has matched the current token, the token itself otherwise. */
  function LookupKey(s: Symbol, token: Symbol): Symbol {
    if s == Text && token.Tok? && MatchesText(token.s) then Text else token
  }

  /** One iteration of the driver loop, on a non-empty stack. */
  function Step(d: Driver): (r: StepResult)
    requires |d.stack| > 0
    ensures r.Next? ==> Weight(r.next.stack) < Weight(d.stack)
    ensures r.Fail? ==> DriverError(r.error)
    ensures d.pos >= |d.input| ==> r == Fail(IndexOutOfRange)
    // a terminal equal to the current token consumes it
    ensures d.pos < |d.input| && d.stack[|d.stack| - 1] == Term(d.input[d.pos]) ==>
              r == Next(d.(pos := d.pos + 1, stack := d.stack[..|d.stack| - 1]))
    // a mismatching terminal stops the driver with the derivation collected so far
    ensures d.pos < |d.input| && d.stack[|d.stack| - 1].Term? && d.stack[|d.stack| - 1] != Term(d.input[d.pos]) ==>
              r == Halt(Outcome(d.derivation, d.discovered))
    // a rule never consumes input
    ensures r.Next? && d.stack[|d.stack| - 1].Rule? ==> r.next.pos == d.pos
    // a rule with no row is discarded
    ensures r.Next? && d.stack[|d.stack| - 1].Rule? && r.next.derivation == d.derivation ==>
              r.next.stack == d.stack[..|d.stack| - 1]
    // a rule follows its table row for the current token: a row found is
    // recorded and its right-hand side pushed so that it pops left to right
    ensures d.pos < |d.input| && d.stack[|d.stack| - 1].Rule? ==>
              var sym := d.stack[|d.stack| - 1].sym;
              var found := TableRow(sym, LookupKey(sym, d.input[d.pos]));
              && (found.Err? ==> r == Fail(found.error))
              && (found == Ok(None) ==> r.Next? && r.next.stack == d.stack[..|d.stack| - 1]
                                        && r.next.derivation == d.derivation)
              && (found.Ok? && found.value.Some? && Rhs(found.value.value.lhs, found.value.value.key).None? ==>
                    r == Fail(MissingGrammarRule))
              && (found.Ok? && found.value.Some? && Rhs(found.value.value.lhs, found.value.value.key).Some? ==>
                    && r.Next?
                    && r.next.derivation == d.derivation + [found.value.value]
                    && r.next.stack == d.stack[..|d.stack| - 1] + Reverse(Rhs(found.value.value.lhs, found.value.value.key).value))
    // the free-text class records the literal it matches
    ensures r.Next? && d.stack[|d.stack| - 1] == Rule(Text) && d.pos < |d.input|
            && d.input[d.pos].Tok? && MatchesText(d.input[d.pos].s) ==>
              r.next.discovered == d.discovered + [d.input[d.pos].s]
              && r.next.input == d.input[d.pos := Text]
    ensures r.Next? && !(d.stack[|d.stack| - 1] == Rule(Text) && d.pos < |d.input|
            && d.input[d.pos].Tok? && MatchesText(d.input[d.pos].s)) ==>
              r.next.discovered == d.discovered && r.next.input == d.input
  {
    var top := d.stack[|d.stack| - 1];
    var rest := d.stack[..|d.stack| - 1];
    assert d.stack == rest + [top];
    WeightConcat(rest, [top]);
    assert [top][..0] == [];
    if d.pos >= |d.input| then Fail(IndexOutOfRange)
    else
      var token := d.input[d.pos];
      match top
      case Term(s) =>
        if token == s then Next(d.(pos := d.pos + 1, stack := rest))
        else Halt(Outcome(d.derivation, d.discovered))
      case Rule(s) =>
        var matched := s == Text && token.Tok? && MatchesText(token.s);
        var discovered := if matched then d.discovered + [token.s] else d.discovered;
        var input := if matched then d.input[d.pos := Text] else d.input;
        var key := LookupKey(s, token);
        match TableRow(s, key)
        case Err(e) => Fail(e)
        case Ok(None) => Next(Driver(d.pos, rest, input, discovered, d.derivation))
        case Ok(Some(row)) =>
          match Rhs(row.lhs, row.key)
          case None => Fail(MissingGrammarRule)
          case Some(rhs) =>
            ExpansionShrinks(s, key, row, rhs);
            WeightReverse(rhs);
            WeightConcat(rest, Reverse(rhs));
            Next(Driver(d.pos, rest + Reverse(rhs), input, discovered, d.derivation + [row]))
  }

  /** The driver loop: runs until the stack empties, a terminal mismatches
      or a lookup fails. */
  function Drive(d: Driver): (r: Result<Outcome, ParseError>)
    decreases Weight(d.stack)
    ensures r.Err? ==> DriverError(r.error)
  {
    if |d.stack| == 0 then Ok(Outcome(d.derivation, d.discovered))
    else
      match Step(d)
      case Next(n) => Drive(n)
      case Halt(o) => Ok(o)
      case Fail(e) => Err(e)
  }

  /** The derivation and the discovered literals only grow: whatever the
      driver returns extends what it started with. */
  lemma {:induction false} DriveExtends(d: Driver)
    requires Drive(d).Ok?
    decreases Weight(d.stack)
    ensures var o := Drive(d).value;
            && |d.derivation| <= |o.derivation| && o.derivation[..|d.derivation|] == d.derivation
            && |d.discovered| <= |o.discovered| && o.discovered[..|d.discovered|] == d.discovered
  {
    if |d.stack| > 0 && Step(d).Next? {
      var n := Step(d).next;
      DriveExtends(n);
      var o := Drive(n).value;
      assert |d.derivation| <= |n.derivation| && n.derivation[..|d.derivation|] == d.derivation;
      assert o.derivation[..|d.derivation|] == o.derivation[..|n.derivation|][..|d.derivation|];
      assert o.discovered[..|d.discovered|] == o.discovered[..|n.discovered|][..|d.discovered|];
    }
  }

  /** `_parse_syntax` as `parse_filter` starts it: a fresh stack holding the
      end marker and the rule for the first token, over the remaining
      tokens. */
  function ParseSyntax(first: string, rest: seq<string>): (r: Result<Outcome, ParseError>)
    ensures r.Err? ==> DriverError(r.error)
  {
    Drive(Driver(0, [Term(Tok("$")), Rule(Tok(first))], seq(|rest|, i requires 0 <= i < |rest| => Tok(rest[i])), [], []))
  }
}
