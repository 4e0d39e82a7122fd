/** The exceptions the parser, its operations and the filter node raise,
    as values. */
module Errors {
  import opened Json

  datatype ParseError =
      /** `FantasticoNotSupportedError`: the filter operation is not one of the supported ones. */
    | OperationNotSupported(operation: string)
      /** `FantasticoNotSupportedError`: an `in` filter whose reference value is not a list. */
    | RefValueNotList(value: Json)
      /** `QueryParserOperationInvalidError` raised by binary validation. */
    | BinaryNeedsTwoArguments(operation: string)
    | BinaryFirstArgumentEmpty(operation: string)
    | BinarySecondArgumentEmpty(operation: string)
    | ModelLacksAttribute(column: string)
      /** `QueryParserOperationInvalidError` raised by sort validation. */
    | SortAttributeMissing(attribute: string)
      /** `QueryParserOperationInvalidError` raised by compound validation. */
    | CompoundNeedsTwoOperands(operation: string)
      /** A compound operand that parsed to no filter at all. */
    | CompoundOperandEmpty(operand: string)
      /** `ValueError` from `json.loads` on a binary operator's value. */
    | InvalidJson(text: string)
      /** `KeyError`: the grammar table has no row set for this symbol. */
    | UnknownGrammarSymbol(symbol: string)
      /** `KeyError`: a table row names a rule set the rules table lacks. */
    | MissingGrammarRule
      /** `TypeError`: a table row whose action is `None` is called. */
    | ActionNotCallable
      /** `IndexError`: a pop from an empty list or a read past the token list. */
    | IndexOutOfRange
      /** A compound or sort expression without an argument list in parentheses. */
    | MissingArgumentList(expression: string)
}
