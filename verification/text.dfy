/** String helpers with Python's meaning: `str.strip`, `str.find`,
    `str.replace(old, "", 1)` and `"".join`. */
module Text {
  import opened Wrappers

  /** The characters for which Python's `str.isspace` holds, and hence
      the characters `str.strip()` removes. */
  predicate IsWhitespace(c: char) {
    || c == ' ' || c == '\t' || c == '\n' || c == '\r'
    || c == '\U{B}' || c == '\U{C}'
    || ('\U{1C}' <= c <= '\U{1F}')
    || c == '\U{85}' || c == '\U{A0}' || c == '\U{1680}'
    || ('\U{2000}' <= c <= '\U{200A}')
    || c == '\U{2028}' || c == '\U{2029}' || c == '\U{202F}' || c == '\U{205F}' || c == '\U{3000}'
  }

  function StripLeft(s: string): (r: string)
    ensures |r| <= |s| && r == s[|s| - |r|..]
    ensures |r| > 0 ==> !IsWhitespace(r[0])
    ensures forall i :: 0 <= i < |s| - |r| ==> IsWhitespace(s[i])
  {
    if |s| > 0 && IsWhitespace(s[0]) then
      var t := StripLeft(s[1..]);
      assert s[1..][|s| - 1 - |t|..] == s[|s| - |t|..];
      assert forall i :: 1 <= i < |s| - |t| ==> s[i] == s[1..][i - 1];
      t
    else s
  }

  function StripRight(s: string): (r: string)
    ensures |r| <= |s| && r == s[..|r|]
    ensures |r| > 0 ==> !IsWhitespace(r[|r| - 1])
    ensures forall i :: |r| <= i < |s| ==> IsWhitespace(s[i])
  {
    if |s| > 0 && IsWhitespace(s[|s| - 1]) then
      var t := StripRight(s[..|s| - 1]);
      assert s[..|s| - 1][..|t|] == s[..|t|];
      assert forall i :: |t| <= i < |s| - 1 ==> s[i] == s[..|s| - 1][i];
      t
    else s
  }

  /** Python's `s.strip()`: a contiguous slice of `s` with no whitespace at
      either end, every removed character being whitespace. */
  function Strip(s: string): (r: string)
    ensures |r| <= |s|
    ensures |r| > 0 ==> !IsWhitespace(r[0]) && !IsWhitespace(r[|r| - 1])
    ensures |r| == 0 <==> forall i :: 0 <= i < |s| ==> IsWhitespace(s[i])
  {
    var l := StripLeft(s);
    var r := StripRight(l);
    assert l == s[|s| - |l|..];
    r
  }

  /** What `str.strip` cuts off is whitespace, on both sides, and what it
      keeps is the slice of `s` in between. */
  lemma StripIsSlice(s: string)
    ensures exists a, b :: && 0 <= a <= b <= |s| && Strip(s) == s[a..b]
                           && (forall i :: 0 <= i < a ==> IsWhitespace(s[i]))
                           && (forall i :: b <= i < |s| ==> IsWhitespace(s[i]))
  {
    var l := StripLeft(s);
    var r := StripRight(l);
    var a := |s| - |l|;
    var b := a + |r|;
    assert Strip(s) == r;
    assert l == s[a..];
    assert r == l[..|r|];
    SliceOfSuffix(s, a, |r|);
    forall i | b <= i < |s| ensures IsWhitespace(s[i]) {
      assert s[i] == l[i - a];
    }
    assert 0 <= a <= b <= |s| && Strip(s) == s[a..b];
  }

  lemma SliceOfSuffix(s: string, a: nat, n: nat)
    requires a + n <= |s|
    ensures s[a..][..n] == s[a..a + n]
  {
  }

  /** A string whose ends are not whitespace is its own strip. */
  lemma StripNoEnds(s: string)
    requires |s| > 0 && !IsWhitespace(s[0]) && !IsWhitespace(s[|s| - 1])
    ensures Strip(s) == s
  {
  }

  /** Python's `s.find(c, start)` for a one-character needle: the first
      index at or after `start` holding `c`. */
  function FindFrom(s: string, c: char, start: nat): (r: Option<nat>)
    decreases |s| - start
    ensures r.Some? ==> start <= r.value < |s| && s[r.value] == c
    ensures r.Some? ==> forall i :: start <= i < r.value ==> s[i] != c
    ensures r.None? ==> forall i :: start <= i < |s| ==> s[i] != c
  {
    if start >= |s| then None
    else if s[start] == c then Some(start)
    else FindFrom(s, c, start + 1)
  }

  /** True when `t` occurs in `s` at position `i`. */
  predicate OccursAt(s: string, t: string, i: nat) {
    i + |t| <= |s| && s[i..i + |t|] == t
  }

  /** The first position at or after `start` where `t` occurs in `s`. */
  function FirstOccurrence(s: string, t: string, start: nat): (r: Option<nat>)
    decreases |s| - start
    ensures r.Some? ==> start <= r.value && OccursAt(s, t, r.value)
    ensures r.Some? ==> forall i :: start <= i < r.value ==> !OccursAt(s, t, i)
    ensures r.None? ==> forall i :: start <= i ==> !OccursAt(s, t, i)
  {
    if start + |t| > |s| then None
    else if s[start..start + |t|] == t then Some(start)
    else FirstOccurrence(s, t, start + 1)
  }

  /** The search stops at the first occurrence. */
  lemma {:induction false} FirstOccurrenceAt(s: string, t: string, start: nat, m: nat)
    requires start <= m && OccursAt(s, t, m)
    requires forall k :: start <= k < m ==> !OccursAt(s, t, k)
    ensures FirstOccurrence(s, t, start) == Some(m)
    decreases m - start
  {
    if start < m {
      assert !OccursAt(s, t, start);
      FirstOccurrenceAt(s, t, start + 1, m);
    } else {
      assert s[start..start + |t|] == t;
    }
  }

  /** Python's `s.replace(t, "", 1)` for a non-empty `t`: removes the
      leftmost occurrence of `t`, or leaves `s` alone when there is none. */
  function RemoveFirst(s: string, t: string): (r: string)
    requires |t| > 0
    ensures |r| <= |s|
    ensures FirstOccurrence(s, t, 0).None? ==> r == s
    ensures FirstOccurrence(s, t, 0).Some? ==>
              var k := FirstOccurrence(s, t, 0).value;
              |r| == |s| - |t| && r == s[..k] + s[k + |t|..]
  {
    match FirstOccurrence(s, t, 0)
    case None => s
    case Some(k) => s[..k] + s[k + |t|..]
  }

  /** Python's `"".join(parts)`. */
  function Concat(parts: seq<string>): (r: string)
    ensures |parts| == 0 ==> r == []
  {
    if |parts| == 0 then [] else Concat(parts[..|parts| - 1]) + parts[|parts| - 1]
  }

  lemma ConcatAppend(parts: seq<string>, t: string)
    ensures Concat(parts + [t]) == Concat(parts) + t
  {
    assert (parts + [t])[..|parts|] == parts;
  }

  /** Python's slice `s[a:b]` for `0 <= a` and `b <= |s|`: empty when `b <= a`. */
  function Slice(s: string, a: nat, b: nat): (r: string)
    requires b <= |s|
    ensures a < b ==> r == s[a..b]
    ensures b <= a ==> r == []
  {
    if a < b then s[a..b] else []
  }
}
