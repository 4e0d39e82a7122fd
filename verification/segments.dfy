/** Compound `validate`'s three regular-expression passes, written as
    explicit scans: `or\(.*?\)\)` spans, then `and\(.*?\)\)` spans in what
    the or-spans leave, then `[a-z]{1,}\(.*?\)` spans in what remains. */
module Segments {
  import opened Wrappers
  import opened Text

  predicate IsLower(c: char) {
    'a' <= c <= 'z'
  }

  /** The lazy `.*?` followed by `closer`, starting at `from`: the end of
      the first occurrence of `closer`, provided no newline (which `.` does
      not match) comes before it. */
  function LazyTo(s: string, from: nat, closer: string): (r: Option<nat>)
    requires |closer| > 0
    decreases |s| - from
    ensures r.Some? ==> from + |closer| <= r.value <= |s| && OccursAt(s, closer, r.value - |closer|)
  {
    if from + |closer| > |s| then None
    else if s[from..from + |closer|] == closer then Some(from + |closer|)
    else if s[from] == '\n' then None
    else LazyTo(s, from + 1, closer)
  }

  /** A span the lazy scan finds has no earlier closer and no newline. */
  lemma {:induction false} LazyFound(s: string, from: nat, closer: string)
    requires |closer| > 0 && LazyTo(s, from, closer).Some?
    ensures forall k :: from <= k < LazyTo(s, from, closer).value - |closer| ==>
              s[k] != '\n' && !OccursAt(s, closer, k)
    decreases |s| - from
  {
    if s[from..from + |closer|] != closer {
      LazyFound(s, from + 1, closer);
      forall k | from <= k < LazyTo(s, from, closer).value - |closer|
        ensures s[k] != '\n' && !OccursAt(s, closer, k)
      {
        if k == from {
          assert s[from..from + |closer|] != closer;
        }
      }
    }
  }

  /** When the lazy scan finds nothing, a newline stands before every
      closer. */
  lemma {:induction false} LazyMissed(s: string, from: nat, closer: string, k: nat)
    requires |closer| > 0 && LazyTo(s, from, closer).None?
    requires from <= k && OccursAt(s, closer, k)
    ensures exists j :: from <= j < k && s[j] == '\n'
    decreases k - from
  {
    assert from != k;
    if s[from] != '\n' {
      LazyMissed(s, from + 1, closer, k);
    }
  }

  /** The end of the greedy `[a-z]*` run starting at `i`. */
  function LetterRunEnd(s: string, i: nat): (j: nat)
    requires i <= |s|
    decreases |s| - i
    ensures i <= j <= |s|
    ensures forall k :: i <= k < j ==> IsLower(s[k])
    ensures j < |s| ==> !IsLower(s[j])
  {
    if i < |s| && IsLower(s[i]) then LetterRunEnd(s, i + 1) else i
  }

  /** The two shapes of span: a keyword call closed by `))`, or any
      lower-case call closed by `)`. */
  datatype Pattern = Keyword(word: string) | Call

  /** Where a match of `w\(.*?\)\)` starting at `i` ends, if one does. */
  function KeywordMatch(s: string, i: nat, w: string): (r: Option<nat>)
    requires i <= |s|
    ensures r.Some? ==> && OccursAt(s, w + "(", i)
                        && i + |w| + 1 + 2 <= r.value <= |s|
                        && OccursAt(s, "))", r.value - 2)
  {
    if OccursAt(s, w + "(", i) then LazyTo(s, i + |w| + 1, "))") else None
  }

  /** Where a match of `[a-z]{1,}\(.*?\)` starting at `i` ends, if one
      does. The letter run has nothing to give back: a shorter run is
      followed by a letter, never by `(`. */
  function CallMatch(s: string, i: nat): (r: Option<nat>)
    requires i <= |s|
    ensures r.Some? ==> i < r.value <= |s| && IsLower(s[i]) && s[r.value - 1] == ')'
  {
    var j := LetterRunEnd(s, i);
    if i < j < |s| && s[j] == '(' then LazyTo(s, j + 1, ")") else None
  }

  function MatchAt(s: string, i: nat, p: Pattern): (r: Option<nat>)
    requires i <= |s|
    ensures r.Some? ==> i < r.value <= |s|
  {
    match p
    case Keyword(w) => KeywordMatch(s, i, w)
    case Call => CallMatch(s, i)
  }

  /** The shape every match of the pattern has. */
  predicate SpanShape(p: Pattern, span: string) {
    match p
    case Keyword(w) =>
      |span| >= |w| + 3 && span[..|w| + 1] == w + "(" && span[|span| - 2..] == "))"
    case Call => |span| > 0 && IsLower(span[0]) && span[|span| - 1] == ')'
  }

  lemma MatchShape(s: string, i: nat, p: Pattern)
    requires i <= |s| && MatchAt(s, i, p).Some?
    ensures SpanShape(p, s[i..MatchAt(s, i, p).value])
  {
    var e := MatchAt(s, i, p).value;
    var span := s[i..e];
    if p.Keyword? {
      assert span[..|p.word| + 1] == s[i..i + |p.word| + 1];
      assert span[|span| - 2..] == s[e - 2..e];
    } else {
      assert span[0] == s[i] && span[|span| - 1] == s[e - 1];
    }
  }

  /** `re.findall` from position `i`: non-overlapping matches, leftmost
      first; the scan resumes where a match ends. */
  function FindAll(s: string, p: Pattern, i: nat): (r: seq<string>)
    requires i <= |s|
    decreases |s| - i
    ensures |r| <= |s| - i
  {
    if i == |s| then []
    else
      match MatchAt(s, i, p)
      case Some(e) => [s[i..e]] + FindAll(s, p, e)
      case None => FindAll(s, p, i + 1)
  }

  /** Spans of the pattern's shape and bounded length stay so when one more
      is put in front. */
  lemma SpansCons(p: Pattern, span: string, rest: seq<string>, n: int)
    requires 0 < |span| <= n && SpanShape(p, span)
    requires forall k :: 0 <= k < |rest| ==> 0 < |rest[k]| <= n && SpanShape(p, rest[k])
    ensures forall k :: 0 <= k < |[span] + rest| ==>
      0 < |([span] + rest)[k]| <= n && SpanShape(p, ([span] + rest)[k])
  {
    var r := [span] + rest;
    forall k | 0 <= k < |r| ensures 0 < |r[k]| <= n && SpanShape(p, r[k]) {
      if k > 0 {
        assert r[k] == rest[k - 1];
      }
    }
  }

  /** Every span `re.findall` yields is a non-empty match of the pattern's
      shape, no longer than the text searched. */
  lemma {:induction false} FindAllShapes(s: string, p: Pattern, i: nat)
    requires i <= |s|
    ensures forall k :: 0 <= k < |FindAll(s, p, i)| ==>
      0 < |FindAll(s, p, i)[k]| <= |s| - i && SpanShape(p, FindAll(s, p, i)[k])
    decreases |s| - i
  {
    if i < |s| {
      match MatchAt(s, i, p)
      case Some(e) =>
        MatchShape(s, i, p);
        FindAllShapes(s, p, e);
        SpansCons(p, s[i..e], FindAll(s, p, e), |s| - i);
      case None =>
        FindAllShapes(s, p, i + 1);
    }
  }

  /** The loop of `replace(span, "", 1)` calls, one per span, in order. */
  function RemoveAll(s: string, spans: seq<string>): (r: string)
    requires forall k :: 0 <= k < |spans| ==> |spans[k]| > 0
    ensures |r| <= |s|
    ensures |spans| == 0 ==> r == s
  {
    if |spans| == 0 then s else RemoveAll(RemoveFirst(s, spans[0]), spans[1..])
  }

  function OrSpans(arg: string): (r: seq<string>)
    ensures forall k :: 0 <= k < |r| ==> 0 < |r[k]| <= |arg|
  {
    FindAllShapes(arg, Keyword("or"), 0);
    FindAll(arg, Keyword("or"), 0)
  }

  function AfterOr(arg: string): (r: string)
    ensures |r| <= |arg|
  {
    RemoveAll(arg, OrSpans(arg))
  }

  function AndSpans(arg: string): (r: seq<string>)
    ensures forall k :: 0 <= k < |r| ==> 0 < |r[k]| <= |arg|
  {
    FindAllShapes(AfterOr(arg), Keyword("and"), 0);
    FindAll(AfterOr(arg), Keyword("and"), 0)
  }

  function AfterAnd(arg: string): (r: string)
    ensures |r| <= |arg|
  {
    RemoveAll(AfterOr(arg), AndSpans(arg))
  }

  function CallSpans(arg: string): (r: seq<string>)
    ensures forall k :: 0 <= k < |r| ==> 0 < |r[k]| <= |arg|
  {
    FindAllShapes(AfterAnd(arg), Call, 0);
    FindAll(AfterAnd(arg), Call, 0)
  }

  /** The sub-expressions compound `validate` collects, in collection
      order: or-spans, then and-spans, then calls. Every one is a non-empty
      piece no longer than the argument, so parsing it recursively
      terminates. */
  function Segment(arg: string): (r: seq<string>)
    ensures forall k :: 0 <= k < |r| ==> 0 < |r[k]| <= |arg|
  {
    OrSpans(arg) + AndSpans(arg) + CallSpans(arg)
  }

  /** With no `w(` anywhere from `i` on, the keyword pass finds nothing. */
  lemma {:induction false} KeywordAbsent(s: string, w: string, i: nat)
    requires i <= |s|
    requires forall k :: i <= k ==> !OccursAt(s, w + "(", k)
    ensures FindAll(s, Keyword(w), i) == []
    decreases |s| - i
  {
    if i < |s| {
      KeywordAbsent(s, w, i + 1);
    }
  }

  /** The lazy scan stops at the first closer when no newline precedes it. */
  lemma {:induction false} LazyToFirst(s: string, from: nat, closer: string, m: nat)
    requires |closer| > 0 && from <= m
    requires OccursAt(s, closer, m)
    requires forall k :: from <= k < m ==> s[k] != '\n' && !OccursAt(s, closer, k)
    ensures LazyTo(s, from, closer) == Some(m + |closer|)
    decreases m - from
  {
    if from < m {
      LazyToFirst(s, from + 1, closer, m);
    }
  }

  /** A call `name(...)` with a lower-case name and no `)` or newline
      inside its parentheses. */
  predicate SimpleCall(e: string) {
    var j := LetterRunEnd(e, 0);
    && 0 < j < |e| - 1
    && e[j] == '('
    && e[|e| - 1] == ')'
    && forall k :: j < k < |e| - 1 ==> e[k] != ')' && e[k] != '\n'
  }

  /** The letter run of `s` at `i` ends where the run of the embedded
      piece ends, when that end lies inside the piece. */
  lemma {:induction false} LetterRunEndShift(s: string, i: nat, e: string, k: nat)
    requires i + |e| <= |s| && s[i..i + |e|] == e
    requires k <= LetterRunEnd(e, 0) < |e|
    ensures LetterRunEnd(s, i + k) == i + LetterRunEnd(e, 0)
    decreases LetterRunEnd(e, 0) - k
  {
    assert s[i + k] == e[k];
    if k < LetterRunEnd(e, 0) {
      LetterRunEndShift(s, i, e, k + 1);
    }
  }

  /** The lazy scan for `)` stops at the first `)` when no newline
      precedes it. */
  lemma ParenScan(s: string, from: nat, m: nat)
    requires from <= m < |s| && s[m] == ')'
    requires forall k :: from <= k < m ==> s[k] != '\n' && s[k] != ')'
    ensures LazyTo(s, from, ")") == Some(m + 1)
  {
    forall k | from <= k < m
      ensures s[k] != '\n' && !OccursAt(s, ")", k)
    {
      assert s[k..k + 1][0] == s[k];
    }
    assert s[m..m + 1] == [s[m]];
    LazyToFirst(s, from, ")", m);
  }

  /** The call pattern at `i`, once its letter run, its `(` and its first
      `)` are known. */
  lemma CallMatchAt(s: string, i: nat, j: nat, m: nat)
    requires i <= |s| && LetterRunEnd(s, i) == j && i < j < m < |s|
    requires s[j] == '(' && s[m] == ')'
    requires forall k :: j + 1 <= k < m ==> s[k] != '\n' && s[k] != ')'
    ensures CallMatch(s, i) == Some(m + 1)
  {
    ParenScan(s, j + 1, m);
  }

  /** A simple call embedded at `i` is matched exactly. */
  lemma MatchSimpleCall(s: string, i: nat, e: string)
    requires i + |e| <= |s| && s[i..i + |e|] == e
    requires SimpleCall(e)
    ensures CallMatch(s, i) == Some(i + |e|)
  {
    var j := LetterRunEnd(e, 0);
    LetterRunEndShift(s, i, e, 0);
    var m := i + |e| - 1;
    assert s[i + j] == e[j] && s[m] == e[|e| - 1];
    forall k | i + j + 1 <= k < m
      ensures s[k] != '\n' && s[k] != ')'
    {
      assert s[k] == e[k - i];
    }
    CallMatchAt(s, i, i + j, m);
  }

  /** Python's `",".join(es)`. */
  function Joined(es: seq<string>): string
    decreases |es|
  {
    if |es| == 0 then [] else if |es| == 1 then es[0] else es[0] + "," + Joined(es[1..])
  }

  /** Where the first piece of a joined list sits in the text `s` that
      holds the list from `i` on. */
  lemma JoinedPieces(s: string, i: nat, es: seq<string>)
    requires |es| > 0 && i + |Joined(es)| == |s| && s[i..] == Joined(es)
    ensures i + |es[0]| <= |s| && s[i..i + |es[0]|] == es[0]
    ensures |es| == 1 ==> i + |es[0]| == |s|
    ensures |es| > 1 ==> && i + |es[0]| < |s| && s[i + |es[0]|] == ','
                         && i + |es[0]| + 1 + |Joined(es[1..])| == |s|
                         && s[i + |es[0]| + 1..] == Joined(es[1..])
  {
    var e := es[0];
    var j := Joined(es);
    if |es| > 1 {
      assert j == e + "," + Joined(es[1..]);
      assert j[..|e|] == e && j[|e|] == ',' && j[|e| + 1..] == Joined(es[1..]);
    }
    assert s[i..i + |e|] == j[..|e|];
  }

  /** A non-empty list is its head before its tail. */
  lemma HeadAndTail(es: seq<string>)
    requires |es| > 0
    ensures es == [es[0]] + es[1..]
  {
  }

  /** A list found as the head of another list before its tail is that list. */
  lemma HeadThen(found: seq<string>, rest: seq<string>, e: string, es: seq<string>)
    requires |es| > 0 && e == es[0] && rest == es[1..]
    requires found == [e] + rest
    ensures found == es
  {
    assert es == [e] + es[1..];
  }

  /** Putting one element before two equal lists gives equal lists. */
  lemma ConsChain(a: seq<string>, b: seq<string>, c: seq<string>, e: string)
    requires a == [e] + b && b == c
    ensures a == [e] + c
  {
  }

  /** Every piece of the list is a simple call, stated piece after piece. */
  predicate AllSimple(es: seq<string>)
    decreases |es|
  {
    |es| == 0 || (SimpleCall(es[0]) && AllSimple(es[1..]))
  }

  /** The head of an all-simple list is a simple call, and its tail is all simple. */
  lemma SimpleHead(es: seq<string>, e: string)
    requires |es| > 0 && e == es[0] && AllSimple(es)
    ensures SimpleCall(e) && AllSimple(es[1..])
  {
  }

  /** A list whose every element is a simple call is all simple. */
  lemma {:induction false} AllSimpleOf(es: seq<string>)
    requires forall k :: 0 <= k < |es| ==> SimpleCall(es[k])
    ensures AllSimple(es)
    decreases |es|
  {
    if |es| > 0 {
      var tail := es[1..];
      forall k | 0 <= k < |tail| ensures SimpleCall(tail[k]) {
        assert tail[k] == es[k + 1];
      }
      AllSimpleOf(tail);
    }
  }

  /** The call pass takes a simple call where it stands. */
  lemma CallPassTakes(s: string, i: nat, e: string)
    requires i + |e| <= |s| && s[i..i + |e|] == e && SimpleCall(e)
    ensures FindAll(s, Call, i) == [e] + FindAll(s, Call, i + |e|)
  {
    MatchSimpleCall(s, i, e);
    assert FindAll(s, Call, i) == [s[i..i + |e|]] + FindAll(s, Call, i + |e|);
  }

  /** The call pass steps over a comma. */
  lemma CallPassSkipsComma(s: string, n: nat, m: nat)
    requires n < |s| && s[n] == ',' && m == n + 1
    ensures FindAll(s, Call, n) == FindAll(s, Call, m)
  {
    assert LetterRunEnd(s, n) == n;
    assert MatchAt(s, n, Call) == None;
  }

  /** A single simple call is all the call pass finds in it. */
  lemma JoinedLast(s: string, i: nat, es: seq<string>)
    requires |es| == 1 && AllSimple(es)
    requires i + |Joined(es)| == |s| && s[i..] == Joined(es)
    ensures FindAll(s, Call, i) == es
  {
    JoinedPieces(s, i, es);
    CallPassTakes(s, i, es[0]);
    assert FindAll(s, Call, i + |es[0]|) == [];
    HeadAndTail(es);
  }

  /** Over two or more comma-separated calls, the rest of the list stands
      after the first call and its comma. */
  lemma JoinedRest(s: string, i: nat, e: string, es: seq<string>)
    requires |es| > 1 && e == es[0]
    requires i + |Joined(es)| == |s| && s[i..] == Joined(es)
    ensures i + |e| + 1 + |Joined(es[1..])| == |s|
    ensures s[i + |e| + 1..] == Joined(es[1..])
  {
    JoinedPieces(s, i, es);
  }

  /** Over two or more comma-separated calls, the call pass takes the first
      and goes on after its comma: when it yields the rest of the list
      there, it yields the whole list. */
  lemma JoinedStep(s: string, i: nat, j: nat, e: string, es: seq<string>)
    requires |es| > 1 && e == es[0] && SimpleCall(e)
    requires i + |Joined(es)| == |s| && s[i..] == Joined(es)
    requires j == i + |e| + 1 <= |s| && FindAll(s, Call, j) == es[1..]
    ensures FindAll(s, Call, i) == es
  {
    JoinedPieces(s, i, es);
    CallThenComma(s, i, j, e);
    HeadThen(FindAll(s, Call, i), FindAll(s, Call, j), e, es);
  }

  /** A simple call followed by a comma: the call pass takes the call and
      goes on after the comma. */
  lemma CallThenComma(s: string, i: nat, j: nat, e: string)
    requires i + |e| < |s| && s[i..i + |e|] == e && SimpleCall(e) && s[i + |e|] == ','
    requires j == i + |e| + 1
    ensures FindAll(s, Call, i) == [e] + FindAll(s, Call, j)
  {
    var n := i + |e|;
    CallPassTakes(s, i, e);
    CallPassSkipsComma(s, n, j);
    ConsChain(FindAll(s, Call, i), FindAll(s, Call, n), FindAll(s, Call, j), e);
  }

  /** The call pass over comma-separated simple calls yields them one by
      one, in textual order. */
  lemma {:induction false} CallsOfJoined(s: string, i: nat, es: seq<string>)
    requires |es| > 0 && AllSimple(es)
    requires i + |Joined(es)| == |s| && s[i..] == Joined(es)
    ensures FindAll(s, Call, i) == es
    decreases |es|
  {
    if |es| == 1 {
      JoinedLast(s, i, es);
    } else {
      var e := es[0];
      SimpleHead(es, e);
      JoinedRest(s, i, e, es);
      var j := i + |e| + 1;
      CallsOfJoined(s, j, es[1..]);
      JoinedStep(s, i, j, e, es);
    }
  }

  /** With no `or(` in the argument, the or-pass finds and removes nothing. */
  lemma NoOrSpans(arg: string)
    requires forall k :: !OccursAt(arg, "or(", k)
    ensures OrSpans(arg) == [] && AfterOr(arg) == arg
  {
    assert "or" + "(" == "or(";
    KeywordAbsent(arg, "or", 0);
  }

  /** With neither `or(` nor `and(` in the argument, the first two passes
      find and remove nothing. */
  lemma NoKeywordSpans(arg: string)
    requires forall k :: !OccursAt(arg, "or(", k) && !OccursAt(arg, "and(", k)
    ensures OrSpans(arg) == [] && AndSpans(arg) == [] && AfterAnd(arg) == arg
  {
    NoOrSpans(arg);
    assert "and" + "(" == "and(";
    KeywordAbsent(arg, "and", 0);
  }

  /** An argument made of comma-separated simple calls, with no `or(` or
      `and(` in it, segments into exactly those calls, in textual order. */
  lemma SegmentOfCalls(es: seq<string>)
    requires |es| > 0 && forall k :: 0 <= k < |es| ==> SimpleCall(es[k])
    requires forall k :: !OccursAt(Joined(es), "or(", k) && !OccursAt(Joined(es), "and(", k)
    ensures Segment(Joined(es)) == es
  {
    var arg := Joined(es);
    NoKeywordSpans(arg);
    AllSimpleOf(es);
    CallsOfJoined(arg, 0, es);
    assert CallSpans(arg) == es;
    assert Segment(arg) == [] + [] + es;
  }

  /** Positions where the pattern does not match are stepped over. */
  lemma {:induction false} FindAllSkip(s: string, p: Pattern, i: nat, j: nat)
    requires i <= j <= |s|
    requires forall k :: i <= k < j ==> MatchAt(s, k, p).None?
    ensures FindAll(s, p, i) == FindAll(s, p, j)
    decreases j - i
  {
    if i < j {
      FindAllSkip(s, p, i + 1, j);
    }
  }

  /** An argument whose collection order differs from its textual order:
      the or-span written second is collected first. */
  const Mixed := "b(),or(c())"
  const MixedOr := "or(c())"
  const MixedCall := "b()"

  /** The characters of the example. */
  lemma MixedChars()
    ensures |Mixed| == 11
    ensures Mixed[0] == 'b' && Mixed[1] == '(' && Mixed[2] == ')' && Mixed[3] == ','
    ensures Mixed[4] == 'o' && Mixed[5] == 'r' && Mixed[6] == '(' && Mixed[7] == 'c'
    ensures Mixed[8] == '(' && Mixed[9] == ')' && Mixed[10] == ')'
  {
  }

  /** The or-span and the call sit at 4 and at 0. */
  lemma MixedPieces()
    ensures Mixed[4..11] == MixedOr && Mixed[..4] == MixedCall + "," && Mixed[11..] == []
    ensures OccursAt(Mixed, "or(", 4) && OccursAt(Mixed, "))", 9)
  {
    MixedChars();
    assert Mixed[4..7] == "or(";
    assert Mixed[9..11] == "))";
  }

  /** Nothing before position 4 starts with `o`. */
  lemma MixedNothingBefore(t: string)
    requires |t| > 0 && t[0] == 'o'
    ensures forall k :: 0 <= k < 4 ==> !OccursAt(Mixed, t, k)
  {
    MixedChars();
    forall k | 0 <= k < 4 ensures !OccursAt(Mixed, t, k) {
      if k + |t| <= |Mixed| {
        assert Mixed[k..k + |t|][0] == Mixed[k];
      }
    }
  }

  /** Inside the or-span's parentheses no `))` starts before 9. */
  lemma MixedOrBody()
    ensures forall k :: 7 <= k < 9 ==> Mixed[k] != '\n' && !OccursAt(Mixed, "))", k)
  {
    MixedChars();
    forall k | 7 <= k < 9 ensures Mixed[k] != '\n' && !OccursAt(Mixed, "))", k) {
      assert Mixed[k..k + 2][0] == Mixed[k] && Mixed[k..k + 2][1] == Mixed[k + 1];
    }
  }

  lemma MixedOrMatch()
    ensures MatchAt(Mixed, 4, Keyword("or")) == Some(11)
  {
    MixedPieces();
    MixedOrBody();
    LazyToFirst(Mixed, 7, "))", 9);
    assert "or" + "(" == "or(";
  }

  lemma MixedOrPass()
    ensures OrSpans(Mixed) == [MixedOr]
  {
    MixedNothingBefore("or(");
    assert "or" + "(" == "or(";
    assert forall k :: 0 <= k < 4 ==> MatchAt(Mixed, k, Keyword("or")).None?;
    FindAllSkip(Mixed, Keyword("or"), 0, 4);
    MixedOrMatch();
    MixedPieces();
    assert FindAll(Mixed, Keyword("or"), 11) == [];
  }

  /** Removing the or-span leaves the call and its comma. */
  lemma MixedRemoveOr()
    ensures RemoveFirst(Mixed, MixedOr) == MixedCall + ","
  {
    MixedPieces();
    MixedNothingBefore(MixedOr);
    FirstOccurrenceAt(Mixed, MixedOr, 0, 4);
    assert MixedCall + "," + [] == MixedCall + ",";
  }

  lemma MixedAfterOr()
    ensures AfterOr(Mixed) == MixedCall + ","
  {
    MixedOrPass();
    MixedRemoveOr();
    assert [MixedOr][1..] == [];
  }

  lemma NoAndIn(rest: string)
    requires rest == MixedCall + ","
    ensures FindAll(rest, Keyword("and"), 0) == [] && RemoveAll(rest, []) == rest
  {
    assert "and" + "(" == "and(";
    forall k: nat ensures !OccursAt(rest, "and(", k) {
      if k + 4 <= |rest| {
        assert rest[k..k + 4][0] == rest[k];
      }
    }
    KeywordAbsent(rest, "and", 0);
  }

  lemma MixedAndPass()
    ensures AndSpans(Mixed) == [] && AfterAnd(Mixed) == MixedCall + ","
  {
    MixedAfterOr();
    NoAndIn(AfterOr(Mixed));
  }

  /** The call pass over one simple call and a trailing comma yields the
      call. */
  lemma CallPassSingle(r: string, e: string)
    requires SimpleCall(e) && |r| == |e| + 1 && r[..|e|] == e && r[|e|] == ','
    ensures FindAll(r, Call, 0) == [e]
  {
    assert r[0..|e|] == e;
    MatchSimpleCall(r, 0, e);
    assert LetterRunEnd(r, |e|) == |e|;
    assert FindAll(r, Call, |e|) == FindAll(r, Call, |e| + 1) == [];
  }

  /** The call left after the keyword passes is a simple call followed by
      a comma. */
  lemma MixedCallShape()
    ensures SimpleCall(MixedCall)
    ensures var rest := MixedCall + ","; |rest| == |MixedCall| + 1 && rest[..|MixedCall|] == MixedCall && rest[|MixedCall|] == ','
  {
    assert LetterRunEnd(MixedCall, 0) == 1;
  }

  lemma MixedCallPass()
    ensures CallSpans(Mixed) == [MixedCall]
  {
    MixedAndPass();
    MixedCallShape();
    CallPassSingle(MixedCall + ",", MixedCall);
  }

  /** The collected sub-expressions come or-spans first, whatever their
      place in the text. */
  lemma CollectionOrder()
    ensures Segment(Mixed) == [MixedOr, MixedCall]
  {
    MixedOrPass();
    MixedAndPass();
    MixedCallPass();
  }
}
