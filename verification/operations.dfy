/** The operator objects (`query_parser_operations.py`): argument
    accumulation, validation against the model, and building of filter and
    sort nodes. */
module Operations {
  import opened Wrappers
  import opened Text
  import opened Json
  import opened Errors
  import opened ModelFilter

  /** A binary operator (`eq`, `gt`, `ge`, `lt`, `le`, `like`) with the
      arguments accumulated so far. */
  datatype BinaryOperation = BinaryOperation(token: string, arguments: seq<string>)

  /** `add_argument`: appends the stripped argument; earlier arguments and
      the operator stay as they were. */
  function AddArgument(o: BinaryOperation, argument: string): (r: BinaryOperation)
    ensures r.token == o.token
    ensures |r.arguments| == |o.arguments| + 1
    ensures r.arguments[..|o.arguments|] == o.arguments
    ensures r.arguments[|o.arguments|] == Strip(argument)
  {
    o.(arguments := o.arguments + [Strip(argument)])
  }

  /** What a successful binary validation leaves behind: the resolved
      column and the stripped raw value. */
  datatype Validated = Validated(column: Column, value: string)

  /** Binary `validate`: two arguments, neither empty after stripping, and
      a first argument naming an attribute of the model. */
  function BinaryValidate(o: BinaryOperation, model: Model): (r: Result<Validated, ParseError>)
    ensures |o.arguments| < 2 ==> r == Err(BinaryNeedsTwoArguments(o.token))
    ensures |o.arguments| >= 2 && Strip(o.arguments[0]) == [] ==> r == Err(BinaryFirstArgumentEmpty(o.token))
    ensures |o.arguments| >= 2 && Strip(o.arguments[0]) != [] && Strip(o.arguments[1]) == [] ==>
              r == Err(BinarySecondArgumentEmpty(o.token))
    ensures |o.arguments| >= 2 && Strip(o.arguments[0]) != [] && Strip(o.arguments[1]) != []
            && Strip(o.arguments[0]) !in model ==>
              r == Err(ModelLacksAttribute(Strip(o.arguments[0])))
    ensures r.Ok? <==> |o.arguments| >= 2 && Strip(o.arguments[0]) != [] && Strip(o.arguments[1]) != []
                       && Strip(o.arguments[0]) in model
    ensures r.Ok? ==> r.value == Validated(model[Strip(o.arguments[0])], Strip(o.arguments[1]))
  {
    if |o.arguments| < 2 then Err(BinaryNeedsTwoArguments(o.token))
    else
      var columnName := Strip(o.arguments[0]);
      if columnName == [] then Err(BinaryFirstArgumentEmpty(o.token))
      else
        var value := Strip(o.arguments[1]);
        if value == [] then Err(BinarySecondArgumentEmpty(o.token))
        else if columnName !in model then Err(ModelLacksAttribute(columnName))
        else Ok(Validated(model[columnName], value))
  }

  /** Binary `build_filter`: decodes the value and builds the filter for
      the operator's token. */
  function BinaryBuild(o: BinaryOperation, v: Validated): (r: Result<ModelFilter, ParseError>)
    ensures Decode(v.value).None? ==> r == Err(InvalidJson(v.value))
    ensures Decode(v.value).Some? ==> (r.Ok? <==> o.token in SupportedOperations)
    ensures Decode(v.value).Some? && o.token !in SupportedOperations ==> r == Err(OperationNotSupported(o.token))
    ensures r.Ok? ==> && Decode(v.value) == Some(r.value.refValue)
                      && r.value.column == v.column
                      && r.value.OperationToken() == o.token
  {
    match Decode(v.value)
    case None => Err(InvalidJson(v.value))
    case Some(j) => NewModelFilter(v.column, j, o.token)
  }

  /** `get_filter`: validation first; a failed validation produces no
      filter and its error is the result. */
  function BinaryGetFilter(o: BinaryOperation, model: Model): (r: Result<ModelFilter, ParseError>)
    ensures BinaryValidate(o, model).Err? ==> r == Err(BinaryValidate(o, model).error)
    ensures BinaryValidate(o, model).Ok? && Decode(Strip(o.arguments[1])).None? ==>
              r == Err(InvalidJson(Strip(o.arguments[1])))
    ensures BinaryValidate(o, model).Ok? && Decode(Strip(o.arguments[1])).Some? ==>
              (r.Ok? <==> o.token in SupportedOperations)
    ensures r.Ok? ==> && BinaryValidate(o, model).Ok?
                      && r.value.column == model[Strip(o.arguments[0])]
                      && Decode(Strip(o.arguments[1])) == Some(r.value.refValue)
                      && r.value.OperationToken() == o.token
  {
    var v :- BinaryValidate(o, model);
    BinaryBuild(o, v)
  }

  /** The direction each sort operator fixes. */
  function SortDirectionOf(token: string): (d: SortDirection)
    ensures token == "asc" ==> d == Asc
    ensures token == "desc" ==> d == Desc
  {
    if token == "desc" then Desc else Asc
  }

  /** Sort `validate` then `build_filter`: the stripped argument must name
      an attribute of the model; the sort node carries its column and the
      operator's direction. */
  function SortGetFilter(direction: SortDirection, argument: string, model: Model): (r: Result<ModelSort, ParseError>)
    ensures r.Ok? <==> Strip(argument) in model
    ensures r.Err? ==> r.error == SortAttributeMissing(Strip(argument))
    ensures r.Ok? ==> r.value.column == model[Strip(argument)] && r.value.direction == direction
  {
    var name := Strip(argument);
    if name !in model then Err(SortAttributeMissing(name))
    else Ok(ModelSort(model[name], direction))
  }
}
