/** `QueryParser.parse_filter` and `parse_sort`: lexing, the LL pass, the
    semantic actions that run over the derivation, and the routing of
    compound (`and`, `or`) and sort (`asc`, `desc`) expressions. */
module QueryParser {
  import opened Wrappers
  import opened Text
  import opened Errors
  import opened Registry
  import opened Lexer
  import opened Grammar
  import opened ModelFilter
  import opened Operations
  import opened Segments

  /** `ModelFilterAnd` and `ModelFilterOr`. */
  datatype CompoundKind = Conjunction | Disjunction

  /** What a parse produces: a filter, a compound of filters, or a sort. */
  datatype FilterNode =
    | Leaf(filter: ModelFilter)
    | Compound(kind: CompoundKind, children: seq<FilterNode>)
    | Sorted(sort: ModelSort)

  /** The parser's state while its actions run: the operator stack (top at
      the end) and the literals still to be consumed (oldest first). */
  datatype ActionState = ActionState(operators: seq<BinaryOperation>, discovered: seq<string>)

  /** One action of the derivation and the value it returns. */
  function RunAction(a: Action, st: ActionState, model: Model): (r: Result<(ActionState, Option<FilterNode>), ParseError>)
    ensures r.Ok? && r.value.1.Some? ==> a == ExecOperator
    ensures a == NoAction ==> r == Err(ActionNotCallable)
    ensures a == Nop ==> r == Ok((st, None))
    // `_new_operator` pushes a fresh operator of the row's class
    ensures a.NewOperator? ==>
              r == Ok((st.(operators := st.operators + [BinaryOperation(a.token, [])]), None))
    // `_add_argument` hands the oldest literal to the operator on top
    ensures a == AddArgument && (|st.operators| == 0 || |st.discovered| == 0) ==> r == Err(IndexOutOfRange)
    ensures a == AddArgument && |st.operators| > 0 && |st.discovered| > 0 ==>
              var top := |st.operators| - 1;
              && r.Ok? && r.value.1.None?
              && r.value.0.discovered == st.discovered[1..]
              && |r.value.0.operators| == |st.operators|
              && r.value.0.operators[..top] == st.operators[..top]
              && r.value.0.operators[top] == Operations.AddArgument(st.operators[top], Strip(st.discovered[0]))
    // `_exec_operator` pops the operator and returns its filter
    ensures a == ExecOperator && |st.operators| == 0 ==> r == Err(IndexOutOfRange)
    ensures a == ExecOperator && |st.operators| > 0 ==>
              var top := st.operators[|st.operators| - 1];
              && (BinaryGetFilter(top, model).Err? ==> r == Err(BinaryGetFilter(top, model).error))
              && (BinaryGetFilter(top, model).Ok? ==>
                    r == Ok((st.(operators := st.operators[..|st.operators| - 1]),
                             Some(Leaf(BinaryGetFilter(top, model).value)))))
  {
    match a
    case Nop => Ok((st, None))
    case NoAction => Err(ActionNotCallable)
    case NewOperator(t) => Ok((st.(operators := st.operators + [BinaryOperation(t, [])]), None))
    case AddArgument =>
      if |st.operators| == 0 || |st.discovered| == 0 then Err(IndexOutOfRange)
      else
        var top := |st.operators| - 1;
        var operators := st.operators[top := Operations.AddArgument(st.operators[top], Strip(st.discovered[0]))];
        assert operators[..top] == st.operators[..top];
        Ok((ActionState(operators, st.discovered[1..]), None))
    case ExecOperator =>
      if |st.operators| == 0 then Err(IndexOutOfRange)
      else
        var top := st.operators[|st.operators| - 1];
        var f :- BinaryGetFilter(top, model);
        Ok((st.(operators := st.operators[..|st.operators| - 1]), Some(Leaf(f))))
  }

  /** The loop `for ll in ll_derivation: model_filter = ll[2]()`: every
      action runs in order and the value of the last one is kept. */
  function RunActions(rows: seq<Row>, st: ActionState, model: Model, last: Option<FilterNode>): (r: Result<Option<FilterNode>, ParseError>)
    decreases |rows|
    ensures |rows| == 0 ==> r == Ok(last)
    ensures r.Ok? && r.value.Some? && r.value != last ==> r.value.value.Leaf?
  {
    if |rows| == 0 then Ok(last)
    else
      var step :- RunAction(rows[0].action, st, model);
      RunActions(rows[1..], step.0, model, step.1)
  }

  /** The value kept is the last action's: a derivation that does not end
      in building an operator's filter yields nothing. */
  lemma {:induction false} LastActionDecides(rows: seq<Row>, st: ActionState, model: Model, last: Option<FilterNode>)
    requires |rows| > 0 && rows[|rows| - 1].action != ExecOperator
    requires RunActions(rows, st, model, last).Ok?
    ensures RunActions(rows, st, model, last).value.None?
    decreases |rows|
  {
    var step := RunAction(rows[0].action, st, model).value;
    if |rows| > 1 {
      assert rows[1..][|rows[1..]| - 1] == rows[|rows| - 1];
      LastActionDecides(rows[1..], step.0, model, step.1);
    }
  }

  /** The last position of `c` in `s` (`str.rfind`). */
  function FindLast(s: string, c: char): (r: Option<nat>)
    ensures r.Some? ==> r.value < |s| && s[r.value] == c && forall k :: r.value < k < |s| ==> s[k] != c
    ensures r.None? ==> forall k :: 0 <= k < |s| ==> s[k] != c
  {
    if |s| == 0 then None
    else if s[|s| - 1] == c then Some(|s| - 1)
    else FindLast(s[..|s| - 1], c)
  }

  /** The raw argument of a compound or sort call: the text between the
      first `(` and the last `)`. */
  function ArgumentText(expr: string): (r: Option<string>)
    ensures r.Some? ==> |r.value| + 2 <= |expr|
    ensures r.Some? <==> FindFrom(expr, '(', 0).Some? && FindLast(expr, ')').Some?
                         && FindFrom(expr, '(', 0).value < FindLast(expr, ')').value
    ensures r.Some? ==> r.value == expr[FindFrom(expr, '(', 0).value + 1..FindLast(expr, ')').value]
  {
    match FindFrom(expr, '(', 0)
    case None => None
    case Some(p) =>
      match FindLast(expr, ')')
      case None => None
      case Some(q) => if p < q then Some(expr[p + 1..q]) else None
  }

  function KindOf(token: string): CompoundKind {
    if token == "or" then Disjunction else Conjunction
  }

  /** `parse_filter`: nothing for blank input; otherwise the first lexed
      token picks the route. A compound or sort token takes its raw
      argument; anything else starts the LL pass over the remaining tokens,
      whose derivation's actions then run. */
  function ParseFilter(expr: string, model: Model): (r: Result<Option<FilterNode>, ParseError>)
    decreases |expr|, 1
    ensures Strip(expr) == [] ==> r == Ok(None)
    ensures r.Ok? && r.value.Some? && r.value.value.Compound? ==> |r.value.value.children| >= 2
  {
    if Strip(expr) == [] then Ok(None)
    else
      var tokens := Lex(expr);
      var head := tokens[0];
      if IsCompoundToken(head) || IsSortToken(head) then
        match ArgumentText(expr)
        case None => Err(MissingArgumentList(expr))
        case Some(arg) =>
          if IsSortToken(head) then
            var s :- SortGetFilter(SortDirectionOf(head), arg, model);
            Ok(Some(Sorted(s)))
          else
            var node :- CompoundGetFilter(KindOf(head), head, arg, model);
            Ok(Some(node))
      else
        var outcome :- ParseSyntax(head, tokens[1..]);
        RunActions(outcome.derivation, ActionState([], outcome.discovered), model, None)
  }

  /** Compound `validate` then `build_filter`: at least two collected
      sub-expressions, each parsed recursively to a node, kept in
      collection order. */
  function CompoundGetFilter(kind: CompoundKind, token: string, arg: string, model: Model): (r: Result<FilterNode, ParseError>)
    decreases |arg| + 2, 0
    ensures |Segment(arg)| < 2 ==> r == Err(CompoundNeedsTwoOperands(token))
    ensures r.Ok? ==> r.value.Compound? && r.value.kind == kind && |r.value.children| == |Segment(arg)| >= 2
  {
    var spans := Segment(arg);
    if |spans| < 2 then Err(CompoundNeedsTwoOperands(token))
    else
      var children :- ParseOperands(spans, model, |arg|);
      Ok(Compound(kind, children))
  }

  /** The children of a compound from the parses of its operands, in
      order: the first operand that fails, or that yields nothing, ends it. */
  function CollectNodes(spans: seq<string>, results: seq<Result<Option<FilterNode>, ParseError>>): (r: Result<seq<FilterNode>, ParseError>)
    requires |results| == |spans|
    ensures r.Ok? <==> forall i :: 0 <= i < |results| ==> results[i].Ok? && results[i].value.Some?
    ensures r.Ok? ==> |r.value| == |results| && forall i :: 0 <= i < |results| ==> results[i] == Ok(Some(r.value[i]))
    ensures r.Err? ==> exists i :: && 0 <= i < |results|
                                   && (results[i] == Err(r.error)
                                       || (results[i] == Ok(None) && r.error == CompoundOperandEmpty(spans[i])))
                                   && forall j :: 0 <= j < i ==> results[j].Ok? && results[j].value.Some?
  {
    if |results| == 0 then Ok([])
    else
      match results[0]
      case Err(e) => Err(e)
      case Ok(None) => Err(CompoundOperandEmpty(spans[0]))
      case Ok(Some(node)) =>
        var rest := CollectNodes(spans[1..], results[1..]);
        assert forall i :: 1 <= i < |results| ==> results[i] == results[1..][i - 1] && spans[i] == spans[1..][i - 1];
        match rest
        case Err(e) =>
          var i :| && 0 <= i < |results[1..]|
                   && (results[1..][i] == Err(e)
                       || (results[1..][i] == Ok(None) && e == CompoundOperandEmpty(spans[1..][i])))
                   && forall j :: 0 <= j < i ==> results[1..][j].Ok? && results[1..][j].value.Some?;
          assert results[i + 1] == results[1..][i];
          Err(e)
        case Ok(nodes) => Ok([node] + nodes)
  }

  /** Parses each sub-expression in turn, stopping at the first error; a
      sub-expression that yields nothing is an error. */
  function ParseOperands(spans: seq<string>, model: Model, bound: nat): (r: Result<seq<FilterNode>, ParseError>)
    requires forall k :: 0 <= k < |spans| ==> |spans[k]| <= bound
    decreases bound + 1
    ensures r.Ok? ==> |r.value| == |spans|
  {
    CollectNodes(spans, seq(|spans|, i requires 0 <= i < |spans| => ParseFilter(spans[i], model)))
  }

  /** Gathers results in order, stopping at the first error. */
  function Collect<T>(results: seq<Result<T, ParseError>>): (r: Result<seq<T>, ParseError>)
    ensures r.Ok? <==> forall i :: 0 <= i < |results| ==> results[i].Ok?
    ensures r.Ok? ==> |r.value| == |results| && forall i :: 0 <= i < |results| ==> results[i] == Ok(r.value[i])
    ensures r.Err? ==> exists i :: && 0 <= i < |results| && results[i] == Err(r.error)
                                   && forall j :: 0 <= j < i ==> results[j].Ok?
  {
    if |results| == 0 then Ok([])
    else
      match results[0]
      case Err(e) => Err(e)
      case Ok(v) =>
        var rest := Collect(results[1..]);
        assert forall i :: 1 <= i < |results| ==> results[i] == results[1..][i - 1];
        match rest
        case Err(e) =>
          var i :| && 0 <= i < |results[1..]| && results[1..][i] == Err(e)
                   && forall j :: 0 <= j < i ==> results[1..][j].Ok?;
          assert results[i + 1] == Err(e);
          Err(e)
        case Ok(vs) => Ok([v] + vs)
  }

  /** `parse_filter` applied to every expression. */
  function ParseEach(exprs: seq<string>, model: Model): (r: seq<Result<Option<FilterNode>, ParseError>>)
    ensures |r| == |exprs| && forall i :: 0 <= i < |exprs| ==> r[i] == ParseFilter(exprs[i], model)
  {
    seq(|exprs|, i requires 0 <= i < |exprs| => ParseFilter(exprs[i], model))
  }

  /** `parse_sort`: `parse_filter` over each expression, in order; the
      first error aborts it. */
  function ParseSort(exprs: seq<string>, model: Model): (r: Result<seq<Option<FilterNode>>, ParseError>)
    ensures var each := ParseEach(exprs, model);
            && (r.Ok? <==> forall i :: 0 <= i < |exprs| ==> each[i].Ok?)
            && (r.Ok? ==> |r.value| == |exprs| && forall i :: 0 <= i < |exprs| ==> each[i] == Ok(r.value[i]))
            && (r.Err? ==> exists i :: && 0 <= i < |exprs| && each[i] == Err(r.error)
                                       && forall j :: 0 <= j < i ==> each[j].Ok?)
  {
    Collect(ParseEach(exprs, model))
  }
}
