/**
 * `int.TryParse(s, out n)` with the default NumberStyles.Integer: optional
 * white space, an optional sign, at least one decimal digit, optional white
 * space, and a value that fits a 32-bit signed integer.
 */
module IntParse {
  import opened Wrappers

  const MinInt32: int := -0x8000_0000
  const MaxInt32: int := 0x7FFF_FFFF

  predicate IsDigit(c: char) {
    '0' <= c <= '9'
  }

  /** The characters NumberStyles.AllowLeadingWhite/AllowTrailingWhite skip. */
  predicate IsWhite(c: char) {
    c == ' ' || '\t' <= c <= '\r'
  }

  predicate AllDigits(s: string) {
    forall i :: 0 <= i < |s| ==> IsDigit(s[i])
  }

  function TrimLeadingWhite(s: string): string
    decreases |s|
  {
    if |s| > 0 && IsWhite(s[0]) then TrimLeadingWhite(s[1..]) else s
  }

  function TrimTrailingWhite(s: string): string
    decreases |s|
  {
    if |s| > 0 && IsWhite(s[|s| - 1]) then TrimTrailingWhite(s[..|s| - 1]) else s
  }

  /** The number a non-empty run of decimal digits denotes. */
  function DigitsValue(s: string): nat
    requires AllDigits(s)
    decreases |s|
  {
    if s == [] then 0
    else DigitsValue(s[..|s| - 1]) * 10 + (s[|s| - 1] as int - '0' as int)
  }

  /** The text after an optional leading sign, and whether the sign was '-'. */
  function SplitSign(t: string): (bool, string) {
    if |t| > 0 && t[0] == '-' then (true, t[1..])
    else if |t| > 0 && t[0] == '+' then (false, t[1..])
    else (false, t)
  }

  function TryParseInt(s: string): (r: Option<int>)
    ensures r.Some? ==> MinInt32 <= r.value <= MaxInt32
  {
    var t := TrimTrailingWhite(TrimLeadingWhite(s));
    var (negative, digits) := SplitSign(t);
    if |digits| == 0 || !AllDigits(digits) then None
    else
      var magnitude: int := DigitsValue(digits);
      var n := if negative then -magnitude else magnitude;
      if MinInt32 <= n <= MaxInt32 then Some(n) else None
  }

  /**
   * A text that parses holds a digit, and nothing but digits, signs and
   * white space.
   */
  lemma ParsedCharacters(s: string)
    requires TryParseInt(s).Some?
    ensures exists i :: 0 <= i < |s| && IsDigit(s[i])
    ensures forall i :: 0 <= i < |s| ==> IsDigit(s[i]) || IsWhite(s[i]) || s[i] == '-' || s[i] == '+'
  {
    var t := TrimTrailingWhite(TrimLeadingWhite(s));
    TrimmedInside(s);
    var (negative, digits) := SplitSign(t);
    assert digits[0] in s;
    assert forall c :: c in t ==> IsDigit(c) || c == '-' || c == '+' by {
      assert forall c :: c in t ==> c == t[0] || c in digits;
    }
    assert forall i :: 0 <= i < |s| ==> s[i] in s;
  }

  /**
   * Trimming keeps characters of the text and drops only white space: every
   * character of the trimmed text occurs in the original, and every other
   * character of the original is white space.
   */
  lemma {:induction false} TrimmedInside(s: string)
    ensures forall c :: c in TrimTrailingWhite(TrimLeadingWhite(s)) ==> c in s
    ensures forall c :: c in s ==> IsWhite(c) || c in TrimTrailingWhite(TrimLeadingWhite(s))
  {
    LeadingInside(s);
    TrailingInside(TrimLeadingWhite(s));
  }

  lemma {:induction false} LeadingInside(s: string)
    ensures forall c :: c in TrimLeadingWhite(s) ==> c in s
    ensures forall c :: c in s ==> IsWhite(c) || c in TrimLeadingWhite(s)
    decreases |s|
  {
    if |s| > 0 && IsWhite(s[0]) {
      LeadingInside(s[1..]);
      assert forall c :: c in s ==> c == s[0] || c in s[1..];
    }
  }

  lemma {:induction false} TrailingInside(s: string)
    ensures forall c :: c in TrimTrailingWhite(s) ==> c in s
    ensures forall c :: c in s ==> IsWhite(c) || c in TrimTrailingWhite(s)
    decreases |s|
  {
    if |s| > 0 && IsWhite(s[|s| - 1]) {
      TrailingInside(s[..|s| - 1]);
      assert forall c :: c in s ==> c == s[|s| - 1] || c in s[..|s| - 1];
    }
  }

  /** The decimal digits of a natural number, most significant first. */
  function NatToString(n: nat): (r: string)
    ensures |r| > 0 && AllDigits(r)
    ensures DigitsValue(r) == n
    decreases n
  {
    var d := [('0' as int + n % 10) as char];
    if n < 10 then d
    else
      var r := NatToString(n / 10) + d;
      assert r[..|r| - 1] == NatToString(n / 10);
      r
  }

  /** The decimal rendering of an integer, with a leading '-' when negative. */
  function IntToString(i: int): string {
    if i < 0 then "-" + NatToString(-i) else NatToString(i)
  }

  /** Parsing reads back every 32-bit integer from its decimal rendering. */
  lemma ParseRendered(i: int)
    requires MinInt32 <= i <= MaxInt32
    ensures TryParseInt(IntToString(i)) == Some(i)
  {
    var s := IntToString(i);
    var digits := NatToString(if i < 0 then -i else i);
    assert !IsWhite(s[0]) && !IsWhite(s[|s| - 1]);
    assert TrimLeadingWhite(s) == s;
    assert TrimTrailingWhite(s) == s;
    if i < 0 {
      assert s[1..] == digits;
    } else {
      assert s[0] != '-' && s[0] != '+';
    }
  }

  /** Segments with a character outside digits, signs and white space never parse. */
  lemma NameIsNotNumber(s: string, k: nat)
    requires k < |s| && !IsDigit(s[k]) && !IsWhite(s[k]) && s[k] != '-' && s[k] != '+'
    ensures TryParseInt(s).None?
  {
    if TryParseInt(s).Some? {
      ParsedCharacters(s);
    }
  }

  /** A sign alone, or nothing at all, is not a number: "-" and "" do not parse. */
  lemma SignAloneIsNotNumber()
    ensures TryParseInt("-").None? && TryParseInt("+").None? && TryParseInt("").None?
  {
    assert TrimLeadingWhite("-") == "-";
    assert TrimTrailingWhite("-") == "-";
    assert TrimLeadingWhite("+") == "+";
    assert TrimTrailingWhite("+") == "+";
  }
}
