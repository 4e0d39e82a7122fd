/** The reference values a filter compares against, and the small part of
    Python's `json.loads` the binary operators rely on to decode them. */
module Json {
  import opened Wrappers

  datatype Json =
    | JNull
    | JBool(b: bool)
    | JNum(n: int)
    | JStr(s: string)
    | JList(items: seq<Json>)

  predicate IsDigit(c: char) {
    '0' <= c <= '9'
  }

  function DigitValue(c: char): (d: nat)
    requires IsDigit(c)
    ensures d < 10
  {
    (c - '0') as nat
  }

  function DigitChar(d: nat): (c: char)
    requires d < 10
    ensures IsDigit(c) && DigitValue(c) == d
  {
    ('0' as int + d) as char
  }

  predicate AllDigits(s: string) {
    forall i :: 0 <= i < |s| ==> IsDigit(s[i])
  }

  /** The value of a decimal numeral, most significant digit first. */
  function NumeralValue(s: string): nat
    requires AllDigits(s)
  {
    if |s| == 0 then 0 else NumeralValue(s[..|s| - 1]) * 10 + DigitValue(s[|s| - 1])
  }

  /** A JSON integer numeral has no superfluous leading zero. */
  predicate CanonicalNumeral(s: string) {
    |s| > 0 && AllDigits(s) && (s[0] == '0' ==> |s| == 1)
  }

  /** The decimal numeral of `n`. */
  function Numeral(n: nat): (s: string)
    ensures CanonicalNumeral(s)
  {
    if n < 10 then [DigitChar(n)] else Numeral(n / 10) + [DigitChar(n % 10)]
  }

  lemma {:induction false} NumeralValueOfNumeral(n: nat)
    ensures NumeralValue(Numeral(n)) == n
  {
    if n >= 10 {
      var s := Numeral(n);
      assert s[..|s| - 1] == Numeral(n / 10);
      NumeralValueOfNumeral(n / 10);
    }
  }

  /** Characters a JSON string may hold without an escape sequence. */
  predicate PlainStringChar(c: char) {
    c != '"' && c != '\\' && c >= ' '
  }

  predicate PlainString(s: string) {
    forall i :: 0 <= i < |s| ==> PlainStringChar(s[i])
  }

  /** `json.loads` on the scalars a filter value can carry: `null`, `true`,
      `false`, integers and strings without escape sequences; anything
      else is rejected. */
  function Decode(t: string): (r: Option<Json>)
    ensures r.Some? ==> !r.value.JList?
    ensures r == Some(JNull) <==> t == "null"
    ensures r.Some? && r.value.JBool? ==> t == (if r.value.b then "true" else "false")
    ensures r.Some? && r.value.JStr? ==> t == "\"" + r.value.s + "\""
  {
    if t == "null" then Some(JNull)
    else if t == "true" then Some(JBool(true))
    else if t == "false" then Some(JBool(false))
    else if |t| >= 2 && t[0] == '"' && t[|t| - 1] == '"' && PlainString(t[1..|t| - 1]) then
      Some(JStr(t[1..|t| - 1]))
    else if CanonicalNumeral(t) then Some(JNum(NumeralValue(t)))
    else if |t| >= 2 && t[0] == '-' && CanonicalNumeral(t[1..]) then Some(JNum(-(NumeralValue(t[1..]) as int)))
    else None
  }

  /** The values `Encode` can write and `Decode` can read back. */
  predicate Scalar(v: Json) {
    match v
    case JStr(s) => PlainString(s)
    case JList(_) => false
    case _ => true
  }

  /** The JSON text of a scalar value (`json.dumps`). */
  function Encode(v: Json): (t: string)
    requires Scalar(v)
    ensures |t| > 0
  {
    match v
    case JNull => "null"
    case JBool(b) => if b then "true" else "false"
    case JNum(n) => if n < 0 then "-" + Numeral(-n) else Numeral(n)
    case JStr(s) => "\"" + s + "\""
  }

  /** A canonical numeral is read as its value. */
  lemma DecodeNumeral(s: string)
    requires CanonicalNumeral(s)
    ensures Decode(s) == Some(JNum(NumeralValue(s)))
  {
    assert IsDigit(s[0]);
    assert s != "null" && s != "true" && s != "false" by { assert s[0] != "null"[0] && s[0] != "true"[0] && s[0] != "false"[0]; }
    assert s[0] != '"';
  }

  /** A minus sign before a canonical numeral negates its value. */
  lemma DecodeNegated(s: string)
    requires CanonicalNumeral(s)
    ensures Decode("-" + s) == Some(JNum(-(NumeralValue(s) as int)))
  {
    var t := "-" + s;
    assert t[0] == '-' && t[1..] == s;
    assert t != "null" && t != "true" && t != "false" by { assert t[0] != "null"[0] && t[0] != "true"[0] && t[0] != "false"[0]; }
    assert !CanonicalNumeral(t) by { assert !IsDigit(t[0]); }
  }

  /** A number's numeral, signed or not, is read back as the number. */
  lemma DecodeNumber(n: int)
    ensures Decode(Encode(JNum(n))) == Some(JNum(n))
  {
    var m: nat := if n < 0 then -n else n;
    NumeralValueOfNumeral(m);
    if n < 0 {
      DecodeNegated(Numeral(m));
    } else {
      DecodeNumeral(Numeral(m));
    }
  }

  /** A quoted plain string is read back as the string it quotes. */
  lemma DecodeString(s: string)
    requires PlainString(s)
    ensures Decode(Encode(JStr(s))) == Some(JStr(s))
  {
    var t := "\"" + s + "\"";
    assert t[0] == '"' && t[|t| - 1] == '"';
    assert t != "null" && t != "true" && t != "false" by { assert t[0] != "null"[0] && t[0] != "true"[0] && t[0] != "false"[0]; }
    assert t[1..|t| - 1] == s;
  }

  /** Decoding the text of a scalar gives the scalar back. */
  lemma DecodeEncode(v: Json)
    requires Scalar(v)
    ensures Decode(Encode(v)) == Some(v)
  {
    match v
    case JNum(n) => DecodeNumber(n);
    case JStr(s) => DecodeString(s);
    case _ =>
  }
}
