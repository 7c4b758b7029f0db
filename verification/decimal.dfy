/** Decimal rendering of integers, as Python's `str(int)` produces it, and the
    parser that undoes it. The ledger needs the rendering because a proof is
    glued onto the head block's canonical string before hashing. */
module Decimal {

  datatype Option<+T> = None | Some(value: T)

  predicate IsDigit(c: char) {
    '0' <= c <= '9'
  }

  predicate IsDigits(s: string) {
    forall i :: 0 <= i < |s| ==> IsDigit(s[i])
  }

  /** A non-empty digit string without superfluous leading zeros: the only
      shape `str` gives a non-negative integer. */
  predicate IsCanonical(s: string) {
    && |s| > 0
    && IsDigits(s)
    && (s[0] == '0' ==> |s| == 1)
  }

  function DigitChar(d: nat): (c: char)
    requires d < 10
    ensures IsDigit(c)
    ensures DigitValue(c) == d
  {
    ('0' as int + d) as char
  }

  function DigitValue(c: char): (d: nat)
    requires IsDigit(c)
    ensures d < 10
  {
    c as int - '0' as int
  }

  /** Most significant digit first, no leading zeros. */
  function NatToDecimal(n: nat): (s: string)
    ensures IsCanonical(s)
    ensures s == "0" <==> n == 0
    decreases n
  {
    if n < 10 then [DigitChar(n)]
    else NatToDecimal(n / 10) + [DigitChar(n % 10)]
  }

  /** Reads a digit string, most significant digit first. */
  function ParseNat(s: string): (n: nat)
    requires IsDigits(s)
    decreases |s|
  {
    if |s| == 0 then 0
    else ParseNat(s[..|s| - 1]) * 10 + DigitValue(s[|s| - 1])
  }

  /** Python's `str(i)` for an int: a minus sign before the magnitude when negative. */
  function IntToDecimal(i: int): (s: string)
    ensures |s| > 0
    ensures s[0] == '-' <==> i < 0
  {
    if i < 0 then "-" + NatToDecimal(-i) else NatToDecimal(i)
  }

  /** Accepts exactly the strings `IntToDecimal` produces. */
  function ParseInt(s: string): Option<int> {
    if |s| > 0 && s[0] == '-' && IsCanonical(s[1..]) && s[1..] != "0" then Some(-(ParseNat(s[1..]) as int))
    else if IsCanonical(s) then Some(ParseNat(s))
    else None
  }

  lemma {:induction false} ParseNatToDecimal(n: nat)
    ensures ParseNat(NatToDecimal(n)) == n
    decreases n
  {
    var s := NatToDecimal(n);
    if n >= 10 {
      ParseNatToDecimal(n / 10);
      assert s[..|s| - 1] == NatToDecimal(n / 10);
    }
  }

  lemma ParseIntToDecimal(i: int)
    ensures ParseInt(IntToDecimal(i)) == Some(i)
  {
    var s := IntToDecimal(i);
    if i < 0 {
      assert s[1..] == NatToDecimal(-i);
      ParseNatToDecimal(-i);
    } else {
      ParseNatToDecimal(i);
    }
  }

  /** Distinct integers render to distinct strings. */
  lemma IntToDecimalInjective(a: int, b: int)
    ensures IntToDecimal(a) == IntToDecimal(b) ==> a == b
  {
    ParseIntToDecimal(a);
    ParseIntToDecimal(b);
  }

  /** A canonical digit string that does not start with `'0'` denotes a
      positive number. */
  lemma {:induction false} ParseNatPositive(s: string)
    requires IsCanonical(s) && s[0] != '0'
    ensures ParseNat(s) > 0
    decreases |s|
  {
    if |s| > 1 {
      ParseNatPositive(s[..|s| - 1]);
    }
  }

  /** Rendering the number a canonical digit string denotes gives the string
      back: `str` and the parser are inverse on canonical text. */
  lemma {:induction false} NatToDecimalOfParse(s: string)
    requires IsCanonical(s)
    ensures NatToDecimal(ParseNat(s)) == s
    decreases |s|
  {
    var last := |s| - 1;
    var d := DigitValue(s[last]);
    if |s| == 1 {
      assert DigitChar(d) == s[0];
    } else {
      var p := s[..last];
      assert p[0] == s[0];
      ParseNatPositive(p);
      NatToDecimalOfParse(p);
      var n := ParseNat(s);
      assert n == ParseNat(p) * 10 + d;
      assert n / 10 == ParseNat(p) && n % 10 == d;
      assert DigitChar(d) == s[last];
      assert s == p + [s[last]];
    }
  }

  /** Every string `ParseInt` accepts is the `str` of the integer it yields,
      so `ParseInt` accepts exactly the strings `IntToDecimal` produces. */
  lemma ParseIntAcceptsOnlyDecimals(s: string)
    ensures ParseInt(s).Some? ==> IntToDecimal(ParseInt(s).value) == s
  {
    if |s| > 0 && s[0] == '-' && IsCanonical(s[1..]) && s[1..] != "0" {
      var t := s[1..];
      ParseNatPositive(t);
      NatToDecimalOfParse(t);
      assert s == "-" + t;
    } else if IsCanonical(s) {
      NatToDecimalOfParse(s);
    }
  }
}
