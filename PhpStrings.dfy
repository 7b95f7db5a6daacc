/**
 * The PHP string primitives the time value relies on: integer-to-string
 * conversion (`$n . ' '`), `strtolower`, `explode` with a one-character
 * delimiter, and the PHP 8 loose comparison of an int with a string that
 * `in_array` applies.
 */
module PhpStrings {
  import opened Wrappers

  predicate IsDigit(c: char) { '0' <= c <= '9' }

  predicate AllDigits(s: string) { forall i :: 0 <= i < |s| ==> IsDigit(s[i]) }

  function DigitChar(d: nat): (c: char)
    requires d < 10
    ensures IsDigit(c) && c as int - '0' as int == d
  {
    ('0' as int + d) as char
  }

  /** Value of a string of decimal digits, most significant first. */
  function DigitsValue(s: string): nat
    requires AllDigits(s)
  {
    if s == [] then 0 else 10 * DigitsValue(s[..|s| - 1]) + (s[|s| - 1] as int - '0' as int)
  }

  /** Decimal numeral of a non-negative integer: digits only, no leading zero. */
  function NatToDecimal(n: nat): (s: string)
    ensures 1 <= |s| && AllDigits(s)
    ensures s[0] == '0' ==> n == 0
    ensures n < 10 <==> |s| == 1
  {
    if n < 10 then [DigitChar(n)] else NatToDecimal(n / 10) + [DigitChar(n % 10)]
  }

  lemma {:induction false} NatToDecimalRoundTrip(n: nat)
    ensures DigitsValue(NatToDecimal(n)) == n
  {
    if n >= 10 {
      NatToDecimalRoundTrip(n / 10);
      var s := NatToDecimal(n);
      assert s[..|s| - 1] == NatToDecimal(n / 10);
    }
  }

  /** PHP's conversion of an int to string: a minus sign for negatives, then the numeral. */
  function IntToDecimal(n: int): (s: string)
    ensures 1 <= |s|
    ensures s[0] == '-' <==> n < 0
    ensures n >= 0 ==> AllDigits(s)
  {
    if n < 0 then "-" + NatToDecimal(-n) else NatToDecimal(n)
  }

  /** The whitespace PHP 8 allows around a numeric string: space, \t, \n, \r, \v, \f. */
  predicate IsNumericWhitespace(c: char)
  {
    c == ' ' || c == '\t' || c == '\n' || c == '\r' || c as int == 11 || c as int == 12
  }

  function TrimLeading(s: string): (r: string)
    ensures |r| <= |s| && r == s[|s| - |r|..]
    ensures r != [] ==> !IsNumericWhitespace(r[0])
  {
    if s != [] && IsNumericWhitespace(s[0]) then TrimLeading(s[1..]) else s
  }

  function TrimTrailing(s: string): (r: string)
    ensures |r| <= |s| && r == s[..|r|]
    ensures r != [] ==> !IsNumericWhitespace(r[|r| - 1])
  {
    if s != [] && IsNumericWhitespace(s[|s| - 1]) then TrimTrailing(s[..|s| - 1]) else s
  }

  /** An optional sign followed by at least one digit, and nothing else. */
  function SignedDigitsValue(s: string): Option<int>
  {
    if |s| >= 2 && (s[0] == '-' || s[0] == '+') && AllDigits(s[1..]) then
      var magnitude: int := DigitsValue(s[1..]);
      Some(if s[0] == '-' then -magnitude else magnitude)
    else if s != [] && AllDigits(s) then
      Some(DigitsValue(s))
    else
      None
  }

  /**
   * The value of `s` when PHP 8 reads it as an integer numeric string
   * (surrounding whitespace allowed), None when it is not one.
   */
  function IntegerNumericValue(s: string): Option<int>
  {
    SignedDigitsValue(TrimTrailing(TrimLeading(s)))
  }

  /**
   * PHP 8 `$n == $s` for an int and a string: numerically when the string
   * is numeric, otherwise by comparing `(string)$n` with the string.
   */
  predicate LooseEqualsText(n: int, s: string)
  {
    match IntegerNumericValue(s)
    case Some(v) => v == n
    case None => IntToDecimal(n) == s
  }

  lemma IntToDecimalIsNumeric(n: int)
    ensures IntegerNumericValue(IntToDecimal(n)) == Some(n)
  {
    var s := IntToDecimal(n);
    var digits := NatToDecimal(if n < 0 then -n else n);
    assert s == if n < 0 then "-" + digits else digits;
    assert !IsNumericWhitespace(s[0]);
    assert !IsNumericWhitespace(s[|s| - 1]) by {
      assert s[|s| - 1] == digits[|digits| - 1];
    }
    assert TrimLeading(s) == s;
    assert TrimTrailing(s) == s;
    NatToDecimalRoundTrip(if n < 0 then -n else n);
    if n < 0 {
      assert s[1..] == digits;
    }
  }

  /** An int loosely equals a string exactly when the string is an integer numeral of it. */
  lemma LooseEqualsTextIff(n: int, s: string)
    ensures LooseEqualsText(n, s) <==> IntegerNumericValue(s) == Some(n)
  {
    if IntegerNumericValue(s).None? && IntToDecimal(n) == s {
      IntToDecimalIsNumeric(n);
    }
  }

  /** `strtolower`: ASCII upper-case letters only (PHP 8.2 and later). */
  function LowerChar(c: char): char
  {
    if 'A' <= c <= 'Z' then (c as int + 32) as char else c
  }

  function Lower(s: string): (r: string)
    ensures |r| == |s|
    ensures forall i :: 0 <= i < |s| ==> r[i] == LowerChar(s[i])
  {
    if s == [] then [] else [LowerChar(s[0])] + Lower(s[1..])
  }

  predicate NoUpper(s: string) { forall i :: 0 <= i < |s| ==> !('A' <= s[i] <= 'Z') }

  lemma LowerOfNoUpper(s: string)
    requires NoUpper(s)
    ensures Lower(s) == s
  {
  }

  lemma LowerIdempotent(s: string)
    ensures Lower(Lower(s)) == Lower(s)
  {
  }

  /** `explode($sep, $s)` for a one-character delimiter: "" gives [""]. */
  function Explode(sep: char, s: string): (pieces: seq<string>)
    ensures |pieces| >= 1
    ensures forall k :: 0 <= k < |pieces| ==> sep !in pieces[k]
  {
    if s == [] then [""]
    else
      var rest := Explode(sep, s[1..]);
      if s[0] == sep then [""] + rest else [[s[0]] + rest[0]] + rest[1..]
  }

  /** `implode($sep, $pieces)`. */
  function Implode(sep: char, pieces: seq<string>): string
  {
    if pieces == [] then ""
    else if |pieces| == 1 then pieces[0]
    else pieces[0] + [sep] + Implode(sep, pieces[1..])
  }

  /** Exploding loses nothing: joining the pieces back gives the input. */
  lemma {:induction false} ImplodeExplode(sep: char, s: string)
    ensures Implode(sep, Explode(sep, s)) == s
  {
    if s != [] {
      var rest := Explode(sep, s[1..]);
      ImplodeExplode(sep, s[1..]);
      if s[0] == sep {
        assert Explode(sep, s) == [""] + rest;
      } else {
        var p := Explode(sep, s);
        assert p == [[s[0]] + rest[0]] + rest[1..];
        if |rest| == 1 {
          assert Implode(sep, p) == [s[0]] + rest[0];
        } else {
          assert p[1..] == rest[1..];
          assert Implode(sep, p) == [s[0]] + rest[0] + [sep] + Implode(sep, rest[1..]);
        }
      }
    }
  }

  function LowerAll(pieces: seq<string>): (r: seq<string>)
    ensures |r| == |pieces|
    ensures forall k :: 0 <= k < |pieces| ==> r[k] == Lower(pieces[k])
  {
    if pieces == [] then [] else [Lower(pieces[0])] + LowerAll(pieces[1..])
  }

  /** A delimiter that is not a letter splits the same before and after lower-casing. */
  lemma {:induction false} ExplodeLower(sep: char, s: string)
    requires !('A' <= sep <= 'Z') && !('a' <= sep <= 'z')
    ensures Explode(sep, Lower(s)) == LowerAll(Explode(sep, s))
  {
    if s != [] {
      ExplodeLower(sep, s[1..]);
      var ls := Lower(s);
      assert ls[0] == LowerChar(s[0]) && ls[1..] == Lower(s[1..]);
      assert ls[0] == sep <==> s[0] == sep;
      var rest := Explode(sep, s[1..]);
      if s[0] != sep {
        assert Lower([s[0]] + rest[0]) == [LowerChar(s[0])] + Lower(rest[0]);
      }
    }
  }
}
