/** The operator registry. The parser registers its operators once, at
    construction; the model fixes that registration as constant tables. */
module Registry {

  /** Tokens of the binary operators, in registration order. */
  const BinaryTokens: seq<string> := ["eq", "gt", "ge", "lt", "le", "like"]

  /** The longest operator token the lexer recognises while scanning. */
  const MaxTokenLength: nat := 4

  predicate IsBinaryToken(t: string) {
    t in BinaryTokens
  }

  /** Tokens of the compound operators. */
  predicate IsCompoundToken(t: string) {
    t == "and" || t == "or"
  }

  /** Tokens of the sort operators. */
  predicate IsSortToken(t: string) {
    t == "asc" || t == "desc"
  }

  /** The structural symbols. */
  predicate IsStructural(c: char) {
    c == '(' || c == ')' || c == ','
  }

  /** Keys of the lexer's symbol dictionary: the structural symbols and
      the registered operator tokens, each mapping to itself. */
  predicate IsSymbol(s: string) {
    (|s| == 1 && IsStructural(s[0])) || IsBinaryToken(s)
  }

  /** Registered tokens are non-empty, pairwise distinct and no longer
      than the lexer's limit, and none is a structural symbol. */
  lemma RegistryWellFormed()
    ensures forall i, j :: 0 <= i < j < |BinaryTokens| ==> BinaryTokens[i] != BinaryTokens[j]
    ensures forall t :: IsBinaryToken(t) ==> 2 <= |t| <= MaxTokenLength
    ensures forall t :: IsSymbol(t) && |t| == 1 ==> IsStructural(t[0])
  {
  }
}
