/** The filter node (`ModelFilter`) that binary operators build, the sort
    node they share a result type with, and the symbolic query-builder
    expressions a filter turns into. */
module ModelFilter {
  import opened Wrappers
  import opened Json
  import opened Errors

  /** An opaque handle to a model attribute (a column). */
  datatype Column = Column(handle: nat)

  /** The model-schema capability: `getattr(model, name)` succeeds exactly
      for the names in the map's domain. */
  type Model = map<string, Column>

  /** The closed set of filter operations. */
  datatype Operation = Gt | Ge | Eq | Le | Lt | Like | In

  /** The textual token of each operation. */
  function Token(op: Operation): string {
    match op
    case Gt => "gt"
    case Ge => "ge"
    case Eq => "eq"
    case Le => "le"
    case Lt => "lt"
    case Like => "like"
    case In => "in"
  }

  /** `get_supported_operations`, in the order the source lists them. */
  const SupportedOperations: seq<string> := ["gt", "ge", "eq", "lt", "le", "like", "in"]

  /** The operation a token denotes, if it denotes one. */
  function OperationOf(t: string): (r: Option<Operation>)
    ensures r.Some? <==> t in SupportedOperations
    ensures r.Some? ==> Token(r.value) == t
  {
    if t == "gt" then Some(Gt)
    else if t == "ge" then Some(Ge)
    else if t == "eq" then Some(Eq)
    else if t == "lt" then Some(Lt)
    else if t == "le" then Some(Le)
    else if t == "like" then Some(Like)
    else if t == "in" then Some(In)
    else None
  }

  /** The supported tokens are exactly the tokens of the seven operations,
      each listed once, and every token names its operation back. */
  lemma SupportedOperationsAreTheOperations()
    ensures forall op: Operation :: Token(op) in SupportedOperations
    ensures forall op: Operation :: OperationOf(Token(op)) == Some(op)
    ensures forall t :: t in SupportedOperations ==> exists op: Operation :: Token(op) == t
    ensures |SupportedOperations| == 7
    ensures forall i, j :: 0 <= i < j < |SupportedOperations| ==> SupportedOperations[i] != SupportedOperations[j]
  {
    forall op: Operation ensures Token(op) in SupportedOperations && OperationOf(Token(op)) == Some(op) {
      match op
      case Gt => assert SupportedOperations[0] == Token(op);
      case Ge => assert SupportedOperations[1] == Token(op);
      case Eq => assert SupportedOperations[2] == Token(op);
      case Lt => assert SupportedOperations[3] == Token(op);
      case Le => assert SupportedOperations[4] == Token(op);
      case Like => assert SupportedOperations[5] == Token(op);
      case In => assert SupportedOperations[6] == Token(op);
    }
    forall t | t in SupportedOperations ensures exists op: Operation :: Token(op) == t {
      assert Token(OperationOf(t).value) == t;
    }
  }

  datatype ModelFilter = ModelFilter(column: Column, refValue: Json, operation: Operation) {
    /** The `operation` property, as the token the filter was built with. */
    function OperationToken(): string {
      Token(operation)
    }
  }

  /** `ModelFilter(column, ref_value, operation)`: rejects an unsupported
      operation; otherwise stores all three arguments unchanged. */
  function NewModelFilter(column: Column, refValue: Json, operation: string): (r: Result<ModelFilter, ParseError>)
    ensures r.Err? <==> operation !in SupportedOperations
    ensures r.Err? ==> r.error == OperationNotSupported(operation)
    ensures r.Ok? ==> r.value.column == column && r.value.refValue == refValue
                      && r.value.OperationToken() == operation
  {
    match OperationOf(operation)
    case None => Err(OperationNotSupported(operation))
    case Some(op) => Ok(ModelFilter(column, refValue, op))
  }

  /** Symbolic query-builder expressions: `column > value`, ...,
      `column.like(value)`, `column.in_(values)`. */
  datatype Expr =
    | Greater(column: Column, value: Json)
    | GreaterEq(column: Column, value: Json)
    | Equal(column: Column, value: Json)
    | LessEq(column: Column, value: Json)
    | Less(column: Column, value: Json)
    | Matches(column: Column, value: Json)
    | Member(column: Column, values: seq<Json>)

  /** `get_expression`: the comparison matching the filter's operation on
      its column and reference value; `in` demands a list. */
  function GetExpression(f: ModelFilter): (r: Result<Expr, ParseError>)
    ensures r.Err? <==> f.operation == In && !f.refValue.JList?
    ensures r.Err? ==> r.error == RefValueNotList(f.refValue)
    ensures r.Ok? ==> r.value.column == f.column
  {
    match f.operation
    case Gt => Ok(Greater(f.column, f.refValue))
    case Ge => Ok(GreaterEq(f.column, f.refValue))
    case Eq => Ok(Equal(f.column, f.refValue))
    case Le => Ok(LessEq(f.column, f.refValue))
    case Lt => Ok(Less(f.column, f.refValue))
    case Like => Ok(Matches(f.column, f.refValue))
    case In =>
      if f.refValue.JList? then Ok(Member(f.column, f.refValue.items))
      else Err(RefValueNotList(f.refValue))
  }

  /** Reads back the filter an expression came from. */
  function FilterOf(e: Expr): ModelFilter {
    match e
    case Greater(c, v) => ModelFilter(c, v, Gt)
    case GreaterEq(c, v) => ModelFilter(c, v, Ge)
    case Equal(c, v) => ModelFilter(c, v, Eq)
    case LessEq(c, v) => ModelFilter(c, v, Le)
    case Less(c, v) => ModelFilter(c, v, Lt)
    case Matches(c, v) => ModelFilter(c, v, Like)
    case Member(c, vs) => ModelFilter(c, JList(vs), In)
  }

  /** The dispatch loses nothing: the expression determines the column,
      the reference value and the operation of the filter it came from,
      so each operation maps to its own comparison. */
  lemma ExpressionDeterminesFilter(f: ModelFilter)
    requires GetExpression(f).Ok?
    ensures FilterOf(GetExpression(f).value) == f
  {
  }

  /** Every filter whose `in` value (if any) is a list has an expression. */
  lemma ExpressionExists(f: ModelFilter)
    requires f.operation == In ==> f.refValue.JList?
    ensures GetExpression(f).Ok?
  {
  }

  /** The query a filter is appended to: its criteria, in `filter` order. */
  datatype Query = Query(criteria: seq<Expr>)

  /** `build(query)`: nothing for a missing query; otherwise the query with
      this filter's expression appended after the existing criteria. */
  function Build(f: ModelFilter, query: Option<Query>): (r: Result<Option<Query>, ParseError>)
    ensures query.None? ==> r == Ok(None)
    ensures query.Some? ==> (r.Err? <==> (f.operation == In && !f.refValue.JList?))
    ensures query.Some? && r.Ok? ==>
              r.value.Some?
              && |r.value.value.criteria| == |query.value.criteria| + 1
              && r.value.value.criteria[..|query.value.criteria|] == query.value.criteria
              && FilterOf(r.value.value.criteria[|query.value.criteria|]) == f
  {
    match query
    case None => Ok(None)
    case Some(q) =>
      var e :- GetExpression(f);
      Ok(Some(Query(q.criteria + [e])))
  }

  datatype SortDirection = Asc | Desc

  /** `ModelSort(column, sort_dir)`. */
  datatype ModelSort = ModelSort(column: Column, direction: SortDirection)
}
