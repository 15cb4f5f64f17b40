/** Decimal numerals, as %d and strconv.Itoa print them. */
module Decimal {

  function DigitChar(d: nat): char
    requires d < 10
  {
    "0123456789"[d]
  }

  predicate IsDigit(c: char) { '0' <= c <= '9' }

  function Digits(n: nat): (s: string)
    ensures s != []
    ensures forall i :: 0 <= i < |s| ==> IsDigit(s[i])
  {
    if n < 10 then [DigitChar(n)] else Digits(n / 10) + [DigitChar(n % 10)]
  }

  function Itoa(n: int): string {
    if n < 0 then "-" + Digits(-n) else Digits(n)
  }

  /** Reading a numeral back. */
  function Value(s: string): nat
    requires forall i :: 0 <= i < |s| ==> IsDigit(s[i])
  {
    if s == [] then 0 else
    assert IsDigit(s[|s| - 1]);
    10 * Value(s[..|s| - 1]) + (s[|s| - 1] as int - '0' as int)
  }

  lemma {:induction false} ValueOfDigits(n: nat)
    ensures Value(Digits(n)) == n
  {
    if n < 10 {
      assert Digits(n)[..0] == [];
    } else {
      ValueOfDigits(n / 10);
      assert Digits(n)[..|Digits(n)| - 1] == Digits(n / 10);
    }
  }

  /** A numeral of the number: digits without a leading zero, after a sign when it is
      negative. */
  ghost predicate IsNumeral(s: string, n: int) {
    if n < 0 then s != "" && s[0] == '-' && IsPlainNumeral(s[1..], -n) else IsPlainNumeral(s, n)
  }

  ghost predicate IsPlainNumeral(s: string, n: nat) {
    && s != "" && (forall i :: 0 <= i < |s| ==> IsDigit(s[i]))
    && Value(s) == n && (|s| > 1 ==> s[0] != '0')
  }

  lemma {:induction false} DigitsStartWell(n: nat)
    ensures if n == 0 then |Digits(n)| == 1 else Digits(n)[0] != '0'
  {
    if n >= 10 { DigitsStartWell(n / 10); }
  }

  lemma LastDigit(m: nat, c: char)
    requires m > 0 && IsDigit(c)
    ensures Digits(10 * m + (c as int - '0' as int)) == Digits(m) + [c]
  {
    var d := c as int - '0' as int;
    assert (10 * m + d) / 10 == m && (10 * m + d) % 10 == d;
    assert DigitChar(d) == c;
  }

  lemma {:induction false} NumeralsAreDigits(s: string, n: nat)
    ensures IsPlainNumeral(s, n) <==> s == Digits(n)
  {
    ValueOfDigits(n);
    DigitsStartWell(n);
    hide Digits;
    if IsPlainNumeral(s, n) {
      var m, last := CutNumeral(s, n);
      if |s| == 1 {
        OneDigit(last);
        assert s[..0] == "" && s == [last];
      } else {
        NumeralsAreDigits(s[..|s| - 1], m);
        LastDigit(m, last);
      }
    }
  }

  /** A numeral is its last digit behind a shorter numeral. */
  lemma CutNumeral(s: string, n: nat) returns (m: nat, last: char)
    requires IsPlainNumeral(s, n)
    ensures s == s[..|s| - 1] + [last] && IsDigit(last)
    ensures n == 10 * m + (last as int - '0' as int)
    ensures if |s| == 1 then m == 0 else m > 0 && IsPlainNumeral(s[..|s| - 1], m)
  {
    var front := s[..|s| - 1];
    last := s[|s| - 1];
    assert IsDigit(last);
    m := Value(front);
    if |s| > 1 { FirstDigitCounts(front); }
  }

  lemma OneDigit(c: char)
    requires IsDigit(c)
    ensures Digits(c as int - '0' as int) == [c]
  {
  }

  lemma {:induction false} FirstDigitCounts(s: string)
    requires s != "" && s[0] != '0' && forall i :: 0 <= i < |s| ==> IsDigit(s[i])
    ensures Value(s) > 0
  {
    if |s| > 1 {
      FirstDigitCounts(s[..|s| - 1]);
      assert s[..|s| - 1][0] == s[0];
    } else {
      assert s[..0] == "";
    }
  }

  /** Itoa writes the one numeral a number has. */
  lemma NumeralsAreItoa(s: string, n: int)
    ensures IsNumeral(s, n) <==> s == Itoa(n)
  {
    if n < 0 {
      if s != "" {
        NumeralsAreDigits(s[1..], -n);
        assert s == [s[0]] + s[1..];
      }
    } else {
      NumeralsAreDigits(s, n);
    }
  }

  /** Two numbers never print alike. */
  lemma DigitsAreInjective(m: nat, n: nat)
    requires Digits(m) == Digits(n)
    ensures m == n
  {
    ValueOfDigits(m);
    ValueOfDigits(n);
  }
}
