/** Whole-parse properties of a binary comparison `op(col,val)`: the LL
    pass, the actions of its derivation, and what `parse_filter` returns. */
module ParserFacts {
  import opened Wrappers
  import opened Text
  import opened Json
  import opened Errors
  import opened Registry
  import opened Lexer
  import opened LexerFacts
  import opened Grammar
  import opened ModelFilter
  import opened Operations
  import opened Segments
  import opened QueryParser

  /** The left-most derivation of `op(col,val)`: open the operator, take
      the column, the comma, the value, then close. */
  function BinaryRows(op: string): seq<Row> {
    [ Row(Tok(op), Tok("("), NewOperator(op)), Row(Text, Text, AddArgument), Row(Tok(","), Tok(","), Nop),
      Row(Text, Text, AddArgument), Row(Tok(")"), Tok(")"), ExecOperator) ]
  }

  const End: Entry := Term(Tok(EndMarker))

  // ----- One driver move at a time -----

  /** Two driver states that end in the same result. */
  predicate SameDrive(a: Driver, b: Driver) {
    Drive(a) == Drive(b)
  }

  lemma SameDriveTrans(a: Driver, b: Driver, c: Driver)
    requires SameDrive(a, b) && SameDrive(b, c)
    ensures SameDrive(a, c)
  {
  }

  /** A terminal equal to the current token is consumed. */
  lemma DriveMatch(d: Driver)
    requires |d.stack| > 0 && d.pos < |d.input| && d.stack[|d.stack| - 1] == Term(d.input[d.pos])
    ensures SameDrive(d, d.(pos := d.pos + 1, stack := d.stack[..|d.stack| - 1]))
  {
    assert Grammar.Step(d) == Next(d.(pos := d.pos + 1, stack := d.stack[..|d.stack| - 1]));
  }

  /** The free-text rule takes a literal and expands to the text terminal. */
  lemma DriveText(d: Driver, t: string)
    requires |d.stack| > 0 && d.stack[|d.stack| - 1] == Rule(Text)
    requires d.pos < |d.input| && d.input[d.pos] == Tok(t) && MatchesText(t)
    ensures SameDrive(d, Driver(d.pos, d.stack[..|d.stack| - 1] + [Term(Text)], d.input[d.pos := Text],
                                d.discovered + [t], d.derivation + [Row(Text, Text, AddArgument)]))
  {
    assert Reverse([Term(Text)]) == [Term(Text)];
    assert Grammar.Step(d) == Next(Driver(d.pos, d.stack[..|d.stack| - 1] + [Term(Text)], d.input[d.pos := Text],
                                          d.discovered + [t], d.derivation + [Row(Text, Text, AddArgument)]));
  }

  /** The rules for `,` and `)` expand to their own terminal. */
  lemma DriveSymbol(d: Driver, x: string, a: Action)
    requires (x == "," && a == Nop) || (x == ")" && a == ExecOperator)
    requires |d.stack| > 0 && d.stack[|d.stack| - 1] == Rule(Tok(x))
    requires d.pos < |d.input| && d.input[d.pos] == Tok(x)
    ensures SameDrive(d, Driver(d.pos, d.stack[..|d.stack| - 1] + [Term(Tok(x))], d.input,
                                d.discovered, d.derivation + [Row(Tok(x), Tok(x), a)]))
  {
    assert Reverse([Term(Tok(x))]) == [Term(Tok(x))];
    assert Grammar.Step(d) == Next(Driver(d.pos, d.stack[..|d.stack| - 1] + [Term(Tok(x))], d.input,
                                          d.discovered, d.derivation + [Row(Tok(x), Tok(x), a)]));
  }

  /** A binary operator's rule opens on `(` and pushes its right-hand
      side, the `(` terminal on top. */
  lemma DriveOperator(d: Driver, op: string)
    requires IsBinaryToken(op)
    requires |d.stack| > 0 && d.stack[|d.stack| - 1] == Rule(Tok(op))
    requires d.pos < |d.input| && d.input[d.pos] == Tok("(")
    ensures SameDrive(d, Driver(d.pos, d.stack[..|d.stack| - 1] + [Rule(Tok(")")), Rule(Text), Rule(Tok(",")), Rule(Text), Term(Tok("("))],
                                d.input, d.discovered, d.derivation + [Row(Tok(op), Tok("("), NewOperator(op))]))
  {
    PushedOperatorRhs();
    assert Grammar.Step(d) == Next(Driver(d.pos, d.stack[..|d.stack| - 1] + [Rule(Tok(")")), Rule(Text), Rule(Tok(",")), Rule(Text), Term(Tok("("))],
                                          d.input, d.discovered, d.derivation + [Row(Tok(op), Tok("("), NewOperator(op))]));
  }

  /** The operator's right-hand side as the stack holds it. */
  lemma PushedOperatorRhs()
    ensures Reverse(OperatorRhs) == [Rule(Tok(")")), Rule(Text), Rule(Tok(",")), Rule(Text), Term(Tok("("))]
  {
  }

  /** Popping what was just pushed; kept apart from the driver facts so
      that sequence reasoning does not meet them. */
  lemma PopPushed(below: seq<Entry>, x: Entry)
    ensures (below + [x])[..|below + [x]| - 1] == below
  {
  }

  /** The free-text rule on a literal, then its terminal: the literal is
      discovered and overwritten, and the input moves on. */
  lemma TakeText(pos: nat, below: seq<Entry>, input: seq<Symbol>, found: seq<string>, rows: seq<Row>, t: string)
    requires pos < |input| && input[pos] == Tok(t) && MatchesText(t)
    ensures SameDrive(Driver(pos, below + [Rule(Text)], input, found, rows),
                      Driver(pos + 1, below, input[pos := Text], found + [t], rows + [Row(Text, Text, AddArgument)]))
  {
    var d0 := Driver(pos, below + [Rule(Text)], input, found, rows);
    var d1 := Driver(pos, below + [Term(Text)], input[pos := Text], found + [t], rows + [Row(Text, Text, AddArgument)]);
    var d2 := Driver(pos + 1, below, input[pos := Text], found + [t], rows + [Row(Text, Text, AddArgument)]);
    PopPushed(below, Rule(Text));
    PopPushed(below, Term(Text));
    DriveText(d0, t);
    assert Driver(d0.pos, d0.stack[..|d0.stack| - 1] + [Term(Text)], d0.input[d0.pos := Text],
                  d0.discovered + [t], d0.derivation + [Row(Text, Text, AddArgument)]) == d1;
    DriveMatch(d1);
    assert d1.(pos := d1.pos + 1, stack := d1.stack[..|d1.stack| - 1]) == d2;
    SameDriveTrans(d0, d1, d2);
  }

  /** The rule of `,` or `)` on its own token, then its terminal. */
  lemma TakeSymbol(pos: nat, below: seq<Entry>, input: seq<Symbol>, found: seq<string>, rows: seq<Row>, x: string, a: Action)
    requires (x == "," && a == Nop) || (x == ")" && a == ExecOperator)
    requires pos < |input| && input[pos] == Tok(x)
    ensures SameDrive(Driver(pos, below + [Rule(Tok(x))], input, found, rows),
                      Driver(pos + 1, below, input, found, rows + [Row(Tok(x), Tok(x), a)]))
  {
    var d0 := Driver(pos, below + [Rule(Tok(x))], input, found, rows);
    var d1 := Driver(pos, below + [Term(Tok(x))], input, found, rows + [Row(Tok(x), Tok(x), a)]);
    var d2 := Driver(pos + 1, below, input, found, rows + [Row(Tok(x), Tok(x), a)]);
    PopPushed(below, Rule(Tok(x)));
    PopPushed(below, Term(Tok(x)));
    DriveSymbol(d0, x, a);
    assert Driver(d0.pos, d0.stack[..|d0.stack| - 1] + [Term(Tok(x))], d0.input,
                  d0.discovered, d0.derivation + [Row(Tok(x), Tok(x), a)]) == d1;
    DriveMatch(d1);
    assert d1.(pos := d1.pos + 1, stack := d1.stack[..|d1.stack| - 1]) == d2;
    SameDriveTrans(d0, d1, d2);
  }

  /** The stack after a binary operator's rule has pushed its right-hand
      side. */
  lemma PushedOperator(below: seq<Entry>)
    ensures var waiting := below + [Rule(Tok(")")), Rule(Text), Rule(Tok(",")), Rule(Text)];
            var pushed := waiting + [Term(Tok("("))];
            && below + [Rule(Tok(")")), Rule(Text), Rule(Tok(",")), Rule(Text), Term(Tok("("))] == pushed
            && |pushed| > 0 && pushed[|pushed| - 1] == Term(Tok("("))
            && pushed[..|pushed| - 1] == waiting
  {
  }

  /** A binary operator's rule on `(`, then the `(` terminal: the column,
      comma, value and close rules wait on the stack. */
  lemma TakeOperator(op: string, pos: nat, below: seq<Entry>, input: seq<Symbol>, found: seq<string>, rows: seq<Row>)
    requires IsBinaryToken(op)
    requires pos < |input| && input[pos] == Tok("(")
    ensures SameDrive(Driver(pos, below + [Rule(Tok(op))], input, found, rows),
                      Driver(pos + 1, below + [Rule(Tok(")")), Rule(Text), Rule(Tok(",")), Rule(Text)], input, found,
                             rows + [Row(Tok(op), Tok("("), NewOperator(op))]))
  {
    var waiting := below + [Rule(Tok(")")), Rule(Text), Rule(Tok(",")), Rule(Text)];
    var grown := rows + [Row(Tok(op), Tok("("), NewOperator(op))];
    var d0 := Driver(pos, below + [Rule(Tok(op))], input, found, rows);
    var d1 := Driver(pos, waiting + [Term(Tok("("))], input, found, grown);
    var d2 := Driver(pos + 1, waiting, input, found, grown);
    PopPushed(below, Rule(Tok(op)));
    PushedOperator(below);
    DriveOperator(d0, op);
    assert Driver(d0.pos, d0.stack[..|d0.stack| - 1] + [Rule(Tok(")")), Rule(Text), Rule(Tok(",")), Rule(Text), Term(Tok("("))],
                  d0.input, d0.discovered, d0.derivation + [Row(Tok(op), Tok("("), NewOperator(op))]) == d1;
    DriveMatch(d1);
    assert d1.(pos := d1.pos + 1, stack := d1.stack[..|d1.stack| - 1]) == d2;
    SameDriveTrans(d0, d1, d2);
  }

  /** The stacks and row lists met while opening a binary operator. */
  lemma OpenShapes(op: string, col: string)
    ensures [End, Rule(Tok(op))] == [End] + [Rule(Tok(op))]
    ensures [] + [col] == [col]
    ensures [End] + [Rule(Tok(")")), Rule(Text), Rule(Tok(",")), Rule(Text)]
            == [End, Rule(Tok(")")), Rule(Text), Rule(Tok(","))] + [Rule(Text)]
    ensures [] + [Row(Tok(op), Tok("("), NewOperator(op))] + [Row(Text, Text, AddArgument)] == BinaryRows(op)[..2]
  {
  }

  /** The driver's first four moves: open the operator and take the
      column. */
  lemma BinaryDriverOpen(op: string, col: string, input: seq<Symbol>)
    requires IsBinaryToken(op) && MatchesText(col)
    requires |input| == 6 && input[0] == Tok("(") && input[1] == Tok(col)
    ensures SameDrive(Driver(0, [End, Rule(Tok(op))], input, [], []),
                      Driver(2, [End, Rule(Tok(")")), Rule(Text), Rule(Tok(","))], input[1 := Text], [col], BinaryRows(op)[..2]))
  {
    OpenShapes(op, col);
    TakeOperator(op, 0, [End], input, [], []);
    TakeText(1, [End, Rule(Tok(")")), Rule(Text), Rule(Tok(","))], input, [], [] + [Row(Tok(op), Tok("("), NewOperator(op))], col);
  }

  /** The stacks and row lists met while taking the comma and the value. */
  lemma ValueShapes(col: string, val: string, rows: seq<Row>)
    ensures [col] + [val] == [col, val]
    ensures [End, Rule(Tok(")")), Rule(Text), Rule(Tok(","))] == [End, Rule(Tok(")")), Rule(Text)] + [Rule(Tok(","))]
    ensures [End, Rule(Tok(")")), Rule(Text)] == [End, Rule(Tok(")"))] + [Rule(Text)]
    ensures rows + [Row(Tok(","), Tok(","), Nop)] + [Row(Text, Text, AddArgument)]
            == rows + [Row(Tok(","), Tok(","), Nop), Row(Text, Text, AddArgument)]
  {
  }

  /** The next four moves: the comma and the value. */
  lemma BinaryDriverValue(col: string, val: string, input: seq<Symbol>, rows: seq<Row>)
    requires MatchesText(val)
    requires |input| == 6 && input[2] == Tok(",") && input[3] == Tok(val)
    ensures SameDrive(Driver(2, [End, Rule(Tok(")")), Rule(Text), Rule(Tok(","))], input, [col], rows),
                      Driver(4, [End, Rule(Tok(")"))], input[3 := Text], [col, val],
                             rows + [Row(Tok(","), Tok(","), Nop), Row(Text, Text, AddArgument)]))
  {
    ValueShapes(col, val, rows);
    TakeSymbol(2, [End, Rule(Tok(")")), Rule(Text)], input, [col], rows, ",", Nop);
    TakeText(3, [End, Rule(Tok(")"))], input, [col], rows + [Row(Tok(","), Tok(","), Nop)], val);
  }

  /** The stacks and row lists met while closing. */
  lemma EndShapes(op: string)
    ensures [End, Rule(Tok(")"))] == [End] + [Rule(Tok(")"))]
    ensures BinaryRows(op)[..4] + [Row(Tok(")"), Tok(")"), ExecOperator)] == BinaryRows(op)
    ensures [End][..0] == []
  {
  }

  /** The last three moves: the close and the end marker. */
  lemma BinaryDriverEnd(op: string, col: string, val: string, input: seq<Symbol>)
    requires |input| == 6 && input[4] == Tok(")") && input[5] == Tok(EndMarker)
    ensures Drive(Driver(4, [End, Rule(Tok(")"))], input, [col, val], BinaryRows(op)[..4]))
            == Ok(Outcome(BinaryRows(op), [col, val]))
  {
    EndShapes(op);
    TakeSymbol(4, [End], input, [col, val], BinaryRows(op)[..4], ")", ExecOperator);
    DriveMatch(Driver(5, [End], input, [col, val], BinaryRows(op)));
  }

  /** The token symbols the LL pass reads. */
  function Symbols(rest: seq<string>): seq<Symbol> {
    seq(|rest|, i requires 0 <= i < |rest| => Tok(rest[i]))
  }

  /** The token symbols of `op(col,val)` after the operator, as the LL
      pass starts on them. */
  lemma BinaryStart(op: string, col: string, val: string)
    ensures var ts := Symbols(["(", col, ",", val, ")", EndMarker]);
            && ParseSyntax(op, ["(", col, ",", val, ")", EndMarker]) == Drive(Driver(0, [End, Rule(Tok(op))], ts, [], []))
            && |ts| == 6 && ts[0] == Tok("(") && ts[1] == Tok(col) && ts[2] == Tok(",")
            && ts[3] == Tok(val) && ts[4] == Tok(")") && ts[5] == Tok(EndMarker)
  {
  }

  /** The row lists the passes over `op(col,val)` build. */
  lemma BinaryShapes(op: string)
    ensures BinaryRows(op)[..2] + [Row(Tok(","), Tok(","), Nop), Row(Text, Text, AddArgument)] == BinaryRows(op)[..4]
    ensures BinaryRows(op)[..2] + [Row(Tok(","), Tok(","), Nop)] == BinaryRows(op)[..3]
  {
  }

  /** The whole pass over the symbols of `op(col,val)`. */
  lemma BinaryDrive(op: string, col: string, val: string, input: seq<Symbol>)
    requires IsBinaryToken(op) && MatchesText(col) && MatchesText(val)
    requires |input| == 6 && input[0] == Tok("(") && input[1] == Tok(col) && input[2] == Tok(",")
    requires input[3] == Tok(val) && input[4] == Tok(")") && input[5] == Tok(EndMarker)
    ensures Drive(Driver(0, [End, Rule(Tok(op))], input, [], [])) == Ok(Outcome(BinaryRows(op), [col, val]))
  {
    BinaryShapes(op);
    BinaryDriverOpen(op, col, input);
    BinaryDriverValue(col, val, input[1 := Text], BinaryRows(op)[..2]);
    BinaryDriverEnd(op, col, val, input[1 := Text][3 := Text]);
  }

  /** The LL pass over the tokens of `op(col,val)` derives the five rows
      and discovers the column, then the value. */
  lemma BinaryDerivation(op: string, col: string, val: string)
    requires IsBinaryToken(op) && MatchesText(col) && MatchesText(val)
    ensures ParseSyntax(op, ["(", col, ",", val, ")", EndMarker]) == Ok(Outcome(BinaryRows(op), [col, val]))
  {
    BinaryStart(op, col, val);
    BinaryDrive(op, col, val, Symbols(["(", col, ",", val, ")", EndMarker]));
  }

  /** Two action runs, from no value yet, that end in the same result. */
  predicate SameActions(a: seq<Row>, s: ActionState, b: seq<Row>, t: ActionState, model: Model) {
    RunActions(a, s, model, None) == RunActions(b, t, model, None)
  }

  /** One action that returns nothing, followed by the rest. */
  lemma ActionThen(row: Row, rows: seq<Row>, st: ActionState, next: ActionState, model: Model)
    requires RunAction(row.action, st, model) == Ok((next, None))
    ensures SameActions([row] + rows, st, rows, next, model)
  {
    assert ([row] + rows)[1..] == rows;
  }

  /** `_add_argument` on a single operator hands it the oldest literal. */
  lemma FeedArgument(op: string, args: seq<string>, x: string, rest: seq<string>, model: Model)
    ensures RunAction(AddArgument, ActionState([BinaryOperation(op, args)], [x] + rest), model)
            == Ok((ActionState([BinaryOperation(op, args + [Strip(Strip(x))])], rest), None))
  {
    var st := ActionState([BinaryOperation(op, args)], [x] + rest);
    assert st.discovered[0] == x && st.discovered[1..] == rest;
    assert st.operators[0 := Operations.AddArgument(st.operators[0], Strip(x))] == [BinaryOperation(op, args + [Strip(Strip(x))])];
  }

  /** Row lists split after their first row, and the operator lists met
      while feeding one operator; kept apart from the action facts so that
      sequence reasoning does not meet them. */
  lemma FeedShapes(r0: Row, r1: Row, tail: seq<Row>, o: BinaryOperation, x: string, y: string)
    ensures [r0, r1] + tail == [r0] + ([r1] + tail)
    ensures [] + [o] == [o]
    ensures [] + [x] == [x] && [x] + [y] == [x, y] && [x] + [] == [x] && [y] + [] == [y]
  {
  }

  /** `_new_operator` then `_add_argument`: the operator holds the column. */
  lemma FeedOpen(op: string, col: string, val: string, tail: seq<Row>, model: Model)
    ensures SameActions([Row(Tok(op), Tok("("), NewOperator(op)), Row(Text, Text, AddArgument)] + tail,
                        ActionState([], [col, val]),
                        tail, ActionState([BinaryOperation(op, [Strip(Strip(col))])], [val]), model)
  {
    var r0 := Row(Tok(op), Tok("("), NewOperator(op));
    var r1 := Row(Text, Text, AddArgument);
    var s1 := ActionState([BinaryOperation(op, [])], [col, val]);
    FeedShapes(r0, r1, tail, BinaryOperation(op, []), Strip(Strip(col)), val);
    FeedShapes(r0, r1, tail, BinaryOperation(op, []), col, val);
    ActionThen(r0, [r1] + tail, ActionState([], [col, val]), s1, model);
    FeedArgument(op, [], col, [val], model);
    ActionThen(r1, tail, s1, ActionState([BinaryOperation(op, [Strip(Strip(col))])], [val]), model);
  }

  /** `_nop` on the comma, then `_add_argument`: the operator holds the
      column and the value. */
  lemma FeedValue(op: string, c: string, val: string, tail: seq<Row>, model: Model)
    ensures SameActions([Row(Tok(","), Tok(","), Nop), Row(Text, Text, AddArgument)] + tail,
                        ActionState([BinaryOperation(op, [c])], [val]),
                        tail, ActionState([BinaryOperation(op, [c, Strip(Strip(val))])], []), model)
  {
    var r2 := Row(Tok(","), Tok(","), Nop);
    var r3 := Row(Text, Text, AddArgument);
    var s2 := ActionState([BinaryOperation(op, [c])], [val]);
    FeedShapes(r2, r3, tail, BinaryOperation(op, [c]), c, Strip(Strip(val)));
    FeedShapes(r2, r3, tail, BinaryOperation(op, [c]), val, val);
    ActionThen(r2, [r3] + tail, s2, s2, model);
    FeedArgument(op, [c], val, [], model);
    ActionThen(r3, tail, s2, ActionState([BinaryOperation(op, [c, Strip(Strip(val))])], []), model);
  }

  /** The first four actions open the operator and feed it the column
      and the value. */
  lemma FeedBinary(op: string, col: string, val: string, model: Model)
    ensures SameActions(BinaryRows(op), ActionState([], [col, val]),
                        [Row(Tok(")"), Tok(")"), ExecOperator)],
                        ActionState([BinaryOperation(op, [Strip(Strip(col)), Strip(Strip(val))])], []), model)
  {
    var close := [Row(Tok(")"), Tok(")"), ExecOperator)];
    var value := [Row(Tok(","), Tok(","), Nop), Row(Text, Text, AddArgument)];
    var open := [Row(Tok(op), Tok("("), NewOperator(op)), Row(Text, Text, AddArgument)];
    assert BinaryRows(op) == open + (value + close);
    FeedOpen(op, col, val, value + close, model);
    FeedValue(op, Strip(Strip(col)), val, close, model);
  }

  /** The closing action pops the operator and returns its filter. */
  lemma CloseBinary(o: BinaryOperation, model: Model)
    ensures RunActions([Row(Tok(")"), Tok(")"), ExecOperator)], ActionState([o], []), model, None)
            == match BinaryGetFilter(o, model)
               case Err(e) => Err(e)
               case Ok(f) => Ok(Some(Leaf(f)))
  {
    var rows := [Row(Tok(")"), Tok(")"), ExecOperator)];
    assert rows[1..] == [];
    assert [o][..0] == [];
  }

  /** The actions of that derivation build the operator, hand it the
      column and the value, and return its filter. */
  lemma BinaryActions(op: string, col: string, val: string, model: Model)
    ensures RunActions(BinaryRows(op), ActionState([], [col, val]), model, None)
            == match BinaryGetFilter(BinaryOperation(op, [Strip(Strip(col)), Strip(Strip(val))]), model)
               case Err(e) => Err(e)
               case Ok(f) => Ok(Some(Leaf(f)))
  {
    FeedBinary(op, col, val, model);
    assert SameActions(BinaryRows(op), ActionState([], [col, val]),
                       [Row(Tok(")"), Tok(")"), ExecOperator)],
                       ActionState([BinaryOperation(op, [Strip(Strip(col)), Strip(Strip(val))])], []), model);
    CloseBinary(BinaryOperation(op, [Strip(Strip(col)), Strip(Strip(val))]), model);
  }

  /** The words of a binary comparison are their own strip. */
  lemma StripWord(w: string)
    requires Word(w)
    ensures Strip(w) == w
  {
    StripNoEnds(w);
  }

  /** An expression led by a binary or structural token goes through the
      LL pass and the actions of its derivation. */
  lemma RouteToSyntax(expr: string, head: string, rest: seq<string>, model: Model)
    requires |expr| > 0 && !IsWhitespace(expr[0])
    requires Lex(expr) == [head] + rest
    requires !IsCompoundToken(head) && !IsSortToken(head)
    ensures ParseFilter(expr, model)
            == if ParseSyntax(head, rest).Err? then Err(ParseSyntax(head, rest).error)
               else RunActions(ParseSyntax(head, rest).value.derivation,
                               ActionState([], ParseSyntax(head, rest).value.discovered), model, None)
  {
    assert Strip(expr) != [];
    assert Lex(expr)[0] == head && Lex(expr)[1..] == rest;
  }

  /** The filter of a binary operator holding two stripped, non-empty
      arguments. */
  lemma BinaryFilterOf(op: string, c: string, v: string, model: Model)
    requires op in SupportedOperations
    requires c != [] && v != [] && Strip(c) == c && Strip(v) == v
    ensures BinaryGetFilter(BinaryOperation(op, [c, v]), model)
            == if c !in model then Err(ModelLacksAttribute(c))
               else match Decode(v)
                    case None => Err(InvalidJson(v))
                    case Some(j) => Ok(ModelFilter(model[c], j, OperationOf(op).value))
  {
  }

  /** `parse_filter` on `op(col,val)` runs the actions of the five-row
      derivation on the two discovered words. */
  lemma BinaryParsesToActions(op: string, col: string, val: string, model: Model)
    requires IsBinaryToken(op)
    requires Word(col) && NoTokenPrefix(col) && MatchesText(col)
    requires Word(val) && NoTokenPrefix(val) && MatchesText(val)
    ensures ParseFilter(BinaryText(op, col, val), model)
            == RunActions(BinaryRows(op), ActionState([], [col, val]), model, None)
  {
    var expr := BinaryText(op, col, val);
    var rest := ["(", col, ",", val, ")", EndMarker];
    LexBinary(op, col, val);
    assert Lex(expr) == [op] + rest;
    assert !IsCompoundToken(op) && !IsSortToken(op);
    assert expr[0] == op[0] && !IsWhitespace(op[0]);
    RouteToSyntax(expr, op, rest, model);
    BinaryDerivation(op, col, val);
  }

  /** `parse_filter` on `op(col,val)`, for two plain words that start in
      the text class: the filter on the column named by `col` with the
      JSON value of `val`; the error names the missing column or the text
      that is not JSON. */
  lemma ParseBinary(op: string, col: string, val: string, model: Model)
    requires IsBinaryToken(op)
    requires Word(col) && NoTokenPrefix(col) && MatchesText(col)
    requires Word(val) && NoTokenPrefix(val) && MatchesText(val)
    ensures ParseFilter(BinaryText(op, col, val), model)
            == if col !in model then Err(ModelLacksAttribute(col))
               else match Decode(val)
                    case None => Err(InvalidJson(val))
                    case Some(j) => Ok(Some(Leaf(ModelFilter(model[col], j, OperationOf(op).value))))
  {
    BinaryParsesToActions(op, col, val, model);
    BinaryActions(op, col, val, model);
    StripWord(col);
    StripWord(val);
    assert op in SupportedOperations;
    BinaryFilterOf(op, col, val, model);
  }

  // ----- A value outside the free-text class -----

  /** A rule with no row for the current token is dropped. */
  lemma DriveDiscard(d: Driver)
    requires |d.stack| > 0 && d.pos < |d.input| && d.stack[|d.stack| - 1].Rule?
    requires var sym := d.stack[|d.stack| - 1].sym;
             TableRow(sym, LookupKey(sym, d.input[d.pos])) == Ok(None)
    ensures SameDrive(d, d.(stack := d.stack[..|d.stack| - 1]))
  {
    assert Grammar.Step(d) == Next(d.(stack := d.stack[..|d.stack| - 1]));
  }

  /** After the comma, a value that does not start in the text class is
      skipped by both remaining rules; the end marker's terminal then
      stops the driver with three rows and only the column discovered. */
  lemma OutsideTextDriver(col: string, val: string, input: seq<Symbol>, rows: seq<Row>)
    requires !MatchesText(val) && val != ")"
    requires |input| == 6 && input[2] == Tok(",") && input[3] == Tok(val) && input[4] == Tok(")")
    ensures Drive(Driver(2, [End, Rule(Tok(")")), Rule(Text), Rule(Tok(","))], input, [col], rows))
            == Ok(Outcome(rows + [Row(Tok(","), Tok(","), Nop)], [col]))
  {
    var comma := Row(Tok(","), Tok(","), Nop);
    var grown := rows + [comma];
    OutsideStacks();
    var d4 := Driver(2, [End, Rule(Tok(")")), Rule(Text), Rule(Tok(","))], input, [col], rows);
    var d6 := Driver(3, [End, Rule(Tok(")")), Rule(Text)], input, [col], grown);
    var d7 := Driver(3, [End, Rule(Tok(")"))], input, [col], grown);
    var d8 := Driver(3, [End], input, [col], grown);
    TakeSymbol(2, [End, Rule(Tok(")")), Rule(Text)], input, [col], rows, ",", Nop);
    Skip(3, [End, Rule(Tok(")"))], Rule(Text), input, [col], grown, val);
    Skip(3, [End], Rule(Tok(")")), input, [col], grown, val);
    SameDriveTrans(d4, d6, d7);
    SameDriveTrans(d4, d7, d8);
    if val == EndMarker {
      DriveMatch(d8);
      var d9 := Driver(4, [], input, [col], grown);
      assert d8.(pos := d8.pos + 1, stack := d8.stack[..|d8.stack| - 1]) == d9;
      SameDriveTrans(d4, d8, d9);
    } else {
      assert Grammar.Step(d8) == Halt(Outcome(grown, [col]));
    }
  }

  /** The stacks met while the value is skipped. */
  lemma OutsideStacks()
    ensures [End, Rule(Tok(")")), Rule(Text)] + [Rule(Tok(","))] == [End, Rule(Tok(")")), Rule(Text), Rule(Tok(","))]
    ensures [End, Rule(Tok(")"))] + [Rule(Text)] == [End, Rule(Tok(")")), Rule(Text)]
    ensures [End] + [Rule(Tok(")"))] == [End, Rule(Tok(")"))]
    ensures [End][..0] == []
  {
  }

  /** A rule with no row for the current token leaves the stack below it. */
  lemma Skip(pos: nat, below: seq<Entry>, x: Entry, input: seq<Symbol>, found: seq<string>, rows: seq<Row>, t: string)
    requires pos < |input| && input[pos] == Tok(t)
    requires (x == Rule(Text) && !MatchesText(t)) || (x == Rule(Tok(")")) && t != ")")
    ensures SameDrive(Driver(pos, below + [x], input, found, rows), Driver(pos, below, input, found, rows))
  {
    var d0 := Driver(pos, below + [x], input, found, rows);
    PopPushed(below, x);
    assert TableRow(x.sym, LookupKey(x.sym, Tok(t))) == Ok(None);
    DriveDiscard(d0);
    assert d0.(stack := d0.stack[..|d0.stack| - 1]) == Driver(pos, below, input, found, rows);
  }

  /** The actions of the three rows open the operator and feed it the
      column; the comma's action returns nothing, and so does the run. */
  lemma OutsideTextActions(op: string, col: string, model: Model)
    ensures RunActions(BinaryRows(op)[..3], ActionState([], [col]), model, None) == Ok(None)
  {
    var r0 := Row(Tok(op), Tok("("), NewOperator(op));
    var r1 := Row(Text, Text, AddArgument);
    var r2 := Row(Tok(","), Tok(","), Nop);
    var s1 := ActionState([BinaryOperation(op, [])], [col]);
    var s2 := ActionState([BinaryOperation(op, [Strip(Strip(col))])], []);
    OutsideShapes(op);
    FeedShapes(r0, r1, [r2], BinaryOperation(op, []), Strip(Strip(col)), col);
    FeedShapes(r0, r1, [r2], BinaryOperation(op, []), col, col);
    ActionThen(r0, [r1] + [r2], ActionState([], [col]), s1, model);
    FeedArgument(op, [], col, [], model);
    ActionThen(r1, [r2], s1, s2, model);
    ActionThen(r2, [], s2, s2, model);
  }

  /** The first three rows of a binary derivation. */
  lemma OutsideShapes(op: string)
    ensures BinaryRows(op)[..3] == [Row(Tok(op), Tok("("), NewOperator(op)), Row(Text, Text, AddArgument)] + [Row(Tok(","), Tok(","), Nop)]
    ensures [Row(Tok(","), Tok(","), Nop)] == [Row(Tok(","), Tok(","), Nop)] + []
  {
  }

  /** The pass over the symbols of `op(col,val)` when the value does not
      start in the text class. */
  lemma OutsideTextDrive(op: string, col: string, val: string, input: seq<Symbol>)
    requires IsBinaryToken(op) && MatchesText(col) && !MatchesText(val) && val != ")"
    requires |input| == 6 && input[0] == Tok("(") && input[1] == Tok(col) && input[2] == Tok(",")
    requires input[3] == Tok(val) && input[4] == Tok(")") && input[5] == Tok(EndMarker)
    ensures Drive(Driver(0, [End, Rule(Tok(op))], input, [], [])) == Ok(Outcome(BinaryRows(op)[..3], [col]))
  {
    BinaryShapes(op);
    BinaryDriverOpen(op, col, input);
    OutsideTextDriver(col, val, input[1 := Text], BinaryRows(op)[..2]);
  }

  /** The LL pass over `op(col,val)` when the value does not start in
      the text class: three rows, and only the column discovered. */
  lemma OutsideTextDerivation(op: string, col: string, val: string)
    requires IsBinaryToken(op) && MatchesText(col) && !MatchesText(val) && val != ")"
    ensures ParseSyntax(op, ["(", col, ",", val, ")", EndMarker]) == Ok(Outcome(BinaryRows(op)[..3], [col]))
  {
    BinaryStart(op, col, val);
    OutsideTextDrive(op, col, val, Symbols(["(", col, ",", val, ")", EndMarker]));
  }

  /** `parse_filter` on `op(col,val)` whose value does not start in the
      text class (a negative number, say): the pass ends early and the
      result is no filter and no error. */
  lemma ParseBinaryOutsideText(op: string, col: string, val: string, model: Model)
    requires IsBinaryToken(op)
    requires Word(col) && NoTokenPrefix(col) && MatchesText(col)
    requires Word(val) && NoTokenPrefix(val) && !MatchesText(val)
    ensures ParseFilter(BinaryText(op, col, val), model) == Ok(None)
  {
    var expr := BinaryText(op, col, val);
    var rest := ["(", col, ",", val, ")", EndMarker];
    LexBinary(op, col, val);
    assert Lex(expr) == [op] + rest;
    assert !IsCompoundToken(op) && !IsSortToken(op);
    assert expr[0] == op[0] && !IsWhitespace(op[0]);
    RouteToSyntax(expr, op, rest, model);
    assert val != ")" by { assert PlainChar(val[0]); }
    OutsideTextDerivation(op, col, val);
    OutsideTextActions(op, col, model);
  }
}
