/** Whole-parse properties of the call forms `and(...)`, `or(...)`,
    `asc(...)` and `desc(...)`, whose argument text is handed over raw. */
module CallFacts {
  import opened Wrappers
  import opened Text
  import opened Errors
  import opened Registry
  import opened Lexer
  import opened LexerFacts
  import opened ModelFilter
  import opened Operations
  import opened Segments
  import opened QueryParser

  /** The text `kw(arg)` of a call. */
  function CallText(kw: string, arg: string): string {
    kw + "(" + arg + ")"
  }

  /** A compound or sort keyword is a run of plain characters, at most
      four long. */
  lemma KeywordIsWord(kw: string)
    requires IsCompoundToken(kw) || IsSortToken(kw)
    ensures Word(kw) && |kw| <= MaxTokenLength && '(' !in kw
  {
    assert kw == "and" || kw == "or" || kw == "asc" || kw == "desc";
  }

  /** The lexer's first token of `kw(...)` is the keyword itself. */
  lemma LexHead(kw: string, arg: string)
    requires IsCompoundToken(kw) || IsSortToken(kw)
    ensures Lex(CallText(kw, arg))[0] == kw
  {
    var expr := CallText(kw, arg);
    KeywordIsWord(kw);
    assert expr[..|kw|] == kw && expr[|kw|] == '(';
    var s := LexState(|kw| + 1, [], [kw, "("]);
    LexShortWord(expr, 0, kw, []);
    assert [] + [kw, [expr[|kw|]]] == s.tokens;
    assert Run(expr, Start) == Run(expr, s);
    RunTakesFromInput(expr, s);
    assert Run(expr, Start).tokens[0] == kw;
  }

  /** The raw argument of `kw(arg)` is `arg`, whatever it holds: the
      first `(` is the keyword's and the last `)` closes the call. */
  lemma ArgumentOfCall(kw: string, arg: string)
    requires '(' !in kw
    ensures ArgumentText(CallText(kw, arg)) == Some(arg)
  {
    var expr := CallText(kw, arg);
    assert expr[|kw|] == '(';
    assert forall i :: 0 <= i < |kw| ==> expr[i] == kw[i];
    assert FindFrom(expr, '(', 0) == Some(|kw|);
    assert FindLast(expr, ')') == Some(|expr| - 1);
    assert expr[|kw| + 1..|expr| - 1] == arg;
  }

  /** `parse_filter` on `kw(arg)` for a compound or sort keyword takes
      the route of that keyword with the raw argument. */
  lemma RouteToCall(kw: string, arg: string, model: Model)
    requires IsCompoundToken(kw) || IsSortToken(kw)
    ensures var expr := CallText(kw, arg);
            && Strip(expr) != []
            && Lex(expr)[0] == kw
            && ArgumentText(expr) == Some(arg)
  {
    var expr := CallText(kw, arg);
    KeywordIsWord(kw);
    assert !IsWhitespace(expr[0]) by { assert expr[0] == kw[0]; }
    LexHead(kw, arg);
    ArgumentOfCall(kw, arg);
  }

  /** `parse_filter` on `asc(arg)` or `desc(arg)`: the sort on the column
      named by the stripped argument, in the keyword's direction; the
      error names the missing column. */
  lemma ParseSortCall(kw: string, arg: string, model: Model)
    requires IsSortToken(kw)
    ensures ParseFilter(CallText(kw, arg), model)
            == if Strip(arg) in model
               then Ok(Some(Sorted(ModelSort(model[Strip(arg)], if kw == "asc" then Asc else Desc))))
               else Err(SortAttributeMissing(Strip(arg)))
  {
    RouteToCall(kw, arg, model);
  }

  /** `parse_filter` on `and(arg)` or `or(arg)` is the compound built from
      the segments of the raw argument. */
  lemma ParseCompoundCall(kw: string, arg: string, model: Model)
    requires IsCompoundToken(kw)
    ensures ParseFilter(CallText(kw, arg), model)
            == match CompoundGetFilter(if kw == "or" then Disjunction else Conjunction, kw, arg, model)
               case Err(e) => Err(e)
               case Ok(node) => Ok(Some(node))
  {
    RouteToCall(kw, arg, model);
  }

  /** The operands of a compound are parsed exactly as `parse_filter`
      parses each of them alone. */
  lemma OperandsAreEach(spans: seq<string>, model: Model, bound: nat)
    requires forall k :: 0 <= k < |spans| ==> |spans[k]| <= bound
    ensures ParseOperands(spans, model, bound) == CollectNodes(spans, ParseEach(spans, model))
  {
    assert seq(|spans|, i requires 0 <= i < |spans| => ParseFilter(spans[i], model)) == ParseEach(spans, model);
  }

  /** A compound with at least two collected sub-expressions parses each
      of them as `parse_filter` does on its own and keeps the children in
      collection order: the compound of the operands' nodes, or the error
      of the first operand that fails or yields nothing. */
  lemma CompoundChildren(kind: CompoundKind, token: string, arg: string, model: Model)
    ensures |Segment(arg)| >= 2 ==>
              CompoundGetFilter(kind, token, arg, model)
                == match CollectNodes(Segment(arg), ParseEach(Segment(arg), model))
                   case Err(e) => Err(e)
                   case Ok(cs) => Ok(Compound(kind, cs))
  {
    if |Segment(arg)| >= 2 {
      OperandsAreEach(Segment(arg), model, |arg|);
    }
  }

  /** `parse_filter` on `and(e1,...,en)` or `or(e1,...,en)` for simple
      calls `ei` and no nested compound: one call is an error; otherwise
      the compound of the keyword's kind whose children are the parses of
      `e1` … `en` in order, the first failing or empty operand deciding
      the error. */
  lemma CompoundOfCalls(kw: string, es: seq<string>, model: Model)
    requires IsCompoundToken(kw)
    requires |es| > 0 && forall k :: 0 <= k < |es| ==> SimpleCall(es[k])
    requires forall k :: !OccursAt(Joined(es), "or(", k) && !OccursAt(Joined(es), "and(", k)
    ensures var r := ParseFilter(CallText(kw, Joined(es)), model);
            && (|es| == 1 ==> r == Err(CompoundNeedsTwoOperands(kw)))
            && (|es| >= 2 ==> r == match CollectNodes(es, ParseEach(es, model))
                                   case Err(e) => Err(e)
                                   case Ok(children) =>
                                     Ok(Some(Compound(if kw == "or" then Disjunction else Conjunction, children))))
  {
    var arg := Joined(es);
    ParseCompoundCall(kw, arg, model);
    SegmentOfCalls(es);
    if |es| >= 2 {
      assert forall k :: 0 <= k < |es| ==> |es[k]| <= |arg| by {
        forall k | 0 <= k < |es| ensures |es[k]| <= |arg| {
          assert es[k] == Segment(arg)[k];
        }
      }
      OperandsAreEach(es, model, |arg|);
    }
  }
}
