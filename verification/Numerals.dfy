/** Positional numerals with upper-case digits, as the decimal ids and hexadecimal keys are printed. */
module Numerals {
  function Digit(d: nat): char
    requires d < 16
  {
    if d < 10 then '0' + d as char else 'A' + (d - 10) as char
  }

  function Numeral(n: nat, base: nat): string
    requires 2 <= base <= 16
  {
    if n < base then [Digit(n)] else Numeral(n / base, base) + [Digit(n % base)]
  }

  function DigitValue(c: char): nat {
    if '0' <= c <= '9' then (c - '0') as nat
    else if 'A' <= c <= 'F' then 10 + (c - 'A') as nat
    else 0
  }

  function Value(s: string, base: nat): nat {
    if s == [] then 0 else Value(s[..|s| - 1], base) * base + DigitValue(s[|s| - 1])
  }

  predicate IsDigit(c: char) {
    '0' <= c <= '9' || 'A' <= c <= 'F'
  }

  lemma DigitRoundTrip(d: nat)
    requires d < 16
    ensures IsDigit(Digit(d)) && DigitValue(Digit(d)) == d
  {
  }

  lemma ValueOfAppended(s: string, c: char, base: nat)
    ensures Value(s + [c], base) == Value(s, base) * base + DigitValue(c)
  {
    assert (s + [c])[..|s + [c]| - 1] == s;
  }

  lemma NumeralStep(n: nat, base: nat)
    requires 2 <= base <= 16 && n >= base
    ensures n / base < n && n % base < base
    ensures Numeral(n, base) == Numeral(n / base, base) + [Digit(n % base)]
  {
  }

  lemma QuotientAndRemainder(n: nat, base: nat)
    requires base > 0
    ensures n == n / base * base + n % base
  {
  }

  lemma OneDigit(n: nat, base: nat)
    requires n < base <= 16
    ensures n < 16 && Value([Digit(n)], base) == n && IsDigit(Digit(n))
  {
    DigitRoundTrip(n);
    ValueOfAppended([], Digit(n), base);
    assert [] + [Digit(n)] == [Digit(n)];
    assert Value([], base) == 0;
  }

  lemma {:induction false} ValueOfNumeral(n: nat, base: nat)
    requires 2 <= base <= 16
    ensures Value(Numeral(n, base), base) == n
    ensures Numeral(n, base) != [] && forall c <- Numeral(n, base) :: IsDigit(c)
  {
    if n >= base {
      NumeralStep(n, base);
      QuotientAndRemainder(n, base);
      var q, d := n / base, n % base;
      DigitRoundTrip(d);
      ValueOfNumeral(q, base);
      ValueOfAppended(Numeral(q, base), Digit(d), base);
    } else {
      OneDigit(n, base);
    }
  }

  function Power(base: nat, k: nat): nat {
    if k == 0 then 1 else base * Power(base, k - 1)
  }

  lemma {:induction false} NumeralLength(n: nat, base: nat, k: nat)
    requires 2 <= base <= 16 && k > 0
    ensures |Numeral(n, base)| <= k <==> n < Power(base, k)
  {
    var p := Power(base, k - 1);
    PowerPositive(base, k - 1);
    QuotientBelow(n, base, p);
    if n < base {
      SmallQuotient(n, base);
    } else {
      NumeralStep(n, base);
      var q := n / base;
      if k == 1 {
        ValueOfNumeral(q, base);
        LargeQuotient(n, base);
      } else {
        NumeralLength(q, base, k - 1);
      }
    }
  }

  lemma SmallQuotient(n: nat, base: nat)
    requires n < base
    ensures n / base == 0
  {
  }

  lemma LargeQuotient(n: nat, base: nat)
    requires 0 < base <= n
    ensures n / base >= 1
  {
  }

  lemma QuotientBelow(n: nat, base: nat, p: nat)
    requires base > 0
    ensures n / base < p <==> n < base * p
  {
    if n / base < p {
      assert base * (n / base + 1) <= base * p;
    } else {
      assert base * p <= base * (n / base);
    }
  }

  lemma {:induction false} PowerPositive(base: nat, k: nat)
    requires base > 0
    ensures Power(base, k) >= 1
  {
    if k > 0 {
      PowerPositive(base, k - 1);
    }
  }

  lemma {:induction false} LeadingZeros(zeros: nat, s: string, base: nat)
    ensures Value(seq(zeros, _ => '0') + s, base) == Value(s, base)
  {
    var padded := seq(zeros, _ => '0') + s;
    if s != [] {
      assert padded[..|padded| - 1] == seq(zeros, _ => '0') + s[..|s| - 1];
      LeadingZeros(zeros, s[..|s| - 1], base);
    } else if zeros > 0 {
      assert padded[..|padded| - 1] == seq(zeros - 1, _ => '0') + s;
      LeadingZeros(zeros - 1, s, base);
    }
  }

  /** Signed decimal notation. */
  function Decimal(n: int): string {
    if n < 0 then "-" + Numeral(-n, 10) else Numeral(n, 10)
  }

  lemma DecimalIsInjective(m: int, n: int)
    ensures Decimal(m) == Decimal(n) <==> m == n
    ensures Decimal(n) != [] && forall c <- Decimal(n) :: c == '-' || IsDigit(c)
  {
    ValueOfNumeral(if m < 0 then -m else m, 10);
    ValueOfNumeral(if n < 0 then -n else n, 10);
    assert !IsDigit('-') && Decimal(m) != [] && Decimal(n) != [];
    assert IsDigit(Decimal(m)[0]) <==> m >= 0;
    assert IsDigit(Decimal(n)[0]) <==> n >= 0;
    if Decimal(m) == Decimal(n) {
      if m < 0 && n < 0 {
        assert Decimal(m)[1..] == Numeral(-m, 10) && Decimal(n)[1..] == Numeral(-n, 10);
      }
    }
  }
}
