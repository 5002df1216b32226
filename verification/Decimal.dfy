/**
 Decimal printing and parsing of 64-bit integers, as Go's strconv.FormatInt(i, 10) and
 strconv.ParseInt(s, 10, 64) do it.
 */
module Decimal {
  import opened Wrappers

  const INT64_MIN: int := -0x8000_0000_0000_0000
  const INT64_MAX: int := 0x7FFF_FFFF_FFFF_FFFF

  predicate IsInt64(i: int) { INT64_MIN <= i <= INT64_MAX }

  predicate IsDigit(c: char) { '0' <= c <= '9' }

  function Digit(d: nat): (c: char)
    requires d < 10
    ensures IsDigit(c) && c as int - '0' as int == d
  {
    ('0' as int + d) as char
  }

  predicate AllDigits(s: string) {
    forall i :: 0 <= i < |s| ==> IsDigit(s[i])
  }

  function FormatNat(n: nat): string {
    if n < 10 then [Digit(n)] else FormatNat(n / 10) + [Digit(n % 10)]
  }

  function FormatInt(i: int): string {
    if i < 0 then "-" + FormatNat(-i) else FormatNat(i)
  }

  /** The number a string of digits denotes. */
  function Value(s: string): nat
    requires AllDigits(s)
  {
    if s == [] then 0 else Value(s[..|s| - 1]) * 10 + (s[|s| - 1] as int - '0' as int)
  }

  /** None stands for a syntax or range error. */
  function ParseInt(s: string): Option<int> {
    var negative := |s| > 0 && s[0] == '-';
    var digits := if |s| > 0 && (s[0] == '-' || s[0] == '+') then s[1..] else s;
    if digits == [] || !AllDigits(digits) then None
    else
      var n: int := Value(digits);
      var v := if negative then -n else n;
      if IsInt64(v) then Some(v) else None
  }

  lemma {:induction false} FormatNatValue(n: nat)
    ensures FormatNat(n) != [] && AllDigits(FormatNat(n)) && Value(FormatNat(n)) == n
  {
    if n < 10 {
      assert [Digit(n)][..0] == [];
    } else {
      FormatNatValue(n / 10);
      var pre := FormatNat(n / 10);
      assert (pre + [Digit(n % 10)])[..|pre|] == pre;
    }
  }

  /** Printing then parsing is the identity on int64 and a range error beyond it. */
  lemma PrintParse(i: int)
    ensures ParseInt(FormatInt(i)) == if IsInt64(i) then Some(i) else None
  {
    if i < 0 {
      FormatNatValue(-i);
      assert FormatInt(i)[1..] == FormatNat(-i);
    } else {
      FormatNatValue(i);
      assert IsDigit(FormatNat(i)[0]);
    }
  }

  /** What is parsed: digits with an optional sign, within int64, and nothing else. */
  lemma ParseExactly(sign: string, digits: string)
    requires sign == "" || sign == "+" || sign == "-"
    ensures var s := sign + digits;
      && (digits != [] && AllDigits(digits) ==>
            var n: int := Value(digits);
            var v := if sign == "-" then -n else n;
            ParseInt(s) == if IsInt64(v) then Some(v) else None)
      && ((digits == [] || (!AllDigits(digits) && digits[0] != '+' && digits[0] != '-')) ==> ParseInt(s) == None)
  {
    var s := sign + digits;
    if sign != "" {
      assert s[1..] == digits;
    } else {
      assert s == digits;
      if digits != [] && AllDigits(digits) {
        assert IsDigit(digits[0]);
      }
    }
  }

  /** A number prints digit by digit, in base ten, most significant first. */
  lemma DigitByDigit(n: nat, d: nat)
    requires n > 0 && d < 10
    ensures FormatInt(10 * n + d) == FormatInt(n) + ["0123456789"[d]]
    ensures FormatInt(-(10 * n + d)) == "-" + FormatInt(10 * n + d)
    ensures FormatInt(d) == ["0123456789"[d]]
  {
    assert (10 * n + d) / 10 == n && (10 * n + d) % 10 == d;
    assert "0123456789"[d] == Digit(d);
  }

  /** Different integers print differently. */
  lemma FormatInjective(i: int, j: int)
    requires FormatInt(i) == FormatInt(j)
    ensures i == j
  {
    FormatNatValue(if i < 0 then -i else i);
    FormatNatValue(if j < 0 then -j else j);
    assert FormatInt(i)[0] == '-' <==> i < 0;
    assert FormatInt(j)[0] == '-' <==> j < 0;
    if i < 0 {
      assert FormatNat(-i) == FormatInt(i)[1..] == FormatInt(j)[1..] == FormatNat(-j);
    }
  }

  /** A printed integer contains digits and at most a leading minus sign. */
  lemma FormatCharset(i: int, c: char)
    requires c in FormatInt(i)
    ensures IsDigit(c) || c == '-'
  {
    FormatNatValue(if i < 0 then -i else i);
  }

  /** So a printed integer can be told from what a colon separates it from. */
  lemma NoColon(i: int)
    ensures ':' !in FormatInt(i)
  {
    if ':' in FormatInt(i) {
      FormatCharset(i, ':');
    }
  }
}
