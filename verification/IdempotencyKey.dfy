/**
 * The payment idempotency key: a 32-bit rolling hash of the declaration, amount, currency and trader,
 * printed in hexadecimal.
 *
 * A string is a sequence of UTF-16 code units. The rendering of the amount with two decimals is an input.
 */
module IdempotencyKey {
  import opened Numerals

  /** The conversion of the bitwise operators: the signed 32-bit number of the same residue. */
  function ToInt32(x: int): (r: int)
    ensures -0x8000_0000 <= r < 0x8000_0000 && SameResidue(r, x)
  {
    var m := x % 0x1_0000_0000;
    if m >= 0x8000_0000 then m - 0x1_0000_0000 else m
  }

  predicate SameResidue(x: int, y: int) {
    (x - y) % 0x1_0000_0000 == 0
  }

  /** `c * 31^k`. */
  function Term(c: int, k: nat): int {
    if k == 0 then c else 31 * Term(c, k - 1)
  }

  /** The base-31 polynomial of the characters: the first one has the highest power. */
  function Polynomial(s: string): int {
    if s == [] then 0 else Term(s[0] as int, |s| - 1) + Polynomial(s[1..])
  }

  function Abs(x: int): nat {
    if x < 0 then -x else x
  }

  function Padded(s: string): string {
    if |s| < 8 then seq(8 - |s|, _ => '0') + s else s
  }

  function Raw(declarationId: int, amountText: string, currency: string, traderId: int): string {
    Decimal(declarationId) + ":" + amountText + ":" + currency + ":" + Decimal(traderId)
  }

  function Printed(magnitude: nat): string {
    "PAY-" + Padded(Numeral(magnitude, 16))
  }

  function KeyOf(raw: string): string {
    Printed(Abs(ToInt32(Polynomial(raw))))
  }

  /** The loop computes the polynomial modulo 2^32, however often the shift, the subtraction and the
      addition wrap around on the way. */
  method RollingHash(raw: string) returns (hash: int)
    ensures hash == ToInt32(Polynomial(raw))
  {
    hash := 0;
    var i := 0;
    assert raw[..0] == [];
    ZeroWord();
    while i < |raw|
      invariant 0 <= i <= |raw|
      invariant hash == ToInt32(Polynomial(raw[..i]))
    {
      var c := raw[i] as int;
      ghost var before := hash;
      hash := ToInt32(hash * 32) - hash + c;
      assert raw[..i + 1] == raw[..i] + [raw[i]];
      PolynomialOfAppended(raw[..i], raw[i]);
      WrapAround(Polynomial(raw[..i]), before, hash, c);
      SameWordExactlyWhenCongruent(hash, Polynomial(raw[..i + 1]));
      hash := ToInt32(hash);
      i := i + 1;
    }
    assert raw[..|raw|] == raw;
  }

  method GeneratePaymentIdempotencyKey(declarationId: int, amountText: string, currency: string, traderId: int)
    returns (key: string)
    ensures key == KeyOf(Decimal(declarationId) + ":" + amountText + ":" + currency + ":" + Decimal(traderId))
    ensures |key| == 12 && key[..4] == "PAY-" && forall c <- key[4..] :: IsDigit(c)
  {
    var raw := Raw(declarationId, amountText, currency, traderId);
    var hash := RollingHash(raw);
    key := Printed(Abs(hash));
    KeyShape(Abs(hash));
  }

  // ----- Arithmetic modulo 2^32 -----

  lemma ZeroWord()
    ensures ToInt32(0) == 0 && Polynomial([]) == 0
  {
  }

  /** Two numbers convert to the same word exactly when they are congruent. */
  lemma SameWordExactlyWhenCongruent(x: int, y: int)
    ensures ToInt32(x) == ToInt32(y) <==> SameResidue(x, y)
  {
  }

  lemma Multiple(difference: int, k: int)
    requires difference == 0x1_0000_0000 * k
    ensures difference % 0x1_0000_0000 == 0
  {
  }

  lemma WrapAround(p: int, hash: int, next: int, c: int)
    requires SameResidue(hash, p) && SameResidue(next + hash - c, hash * 32)
    ensures SameResidue(next, 31 * p + c)
  {
    var j := (hash - p) / 0x1_0000_0000;
    var k := (next + hash - c - hash * 32) / 0x1_0000_0000;
    assert hash - p == 0x1_0000_0000 * j;
    assert next + hash - c - hash * 32 == 0x1_0000_0000 * k;
    Multiple(next - (31 * p + c), k + 31 * j);
  }

  // ----- The polynomial -----

  lemma {:induction false} PolynomialOfAppended(s: string, c: char)
    ensures Polynomial(s + [c]) == 31 * Polynomial(s) + c as int
  {
    if s == [] {
      assert [c][1..] == [];
    } else {
      PolynomialOfAppended(s[1..], c);
      assert (s + [c])[1..] == s[1..] + [c];
    }
  }

  /** In front of blocks of equal length a common prefix adds the same amount to both. */
  lemma {:induction false} CommonPrefix(before: string, x: string, y: string)
    requires |x| == |y|
    ensures Polynomial(before + x) - Polynomial(before + y) == Polynomial(x) - Polynomial(y)
  {
    if before == [] {
      assert before + x == x && before + y == y;
    } else {
      CommonPrefix(before[1..], x, y);
      assert (before + x)[1..] == before[1..] + x && (before + y)[1..] == before[1..] + y;
    }
  }

  lemma CommonPrefixKeepsResidue(before: string, x: string, y: string)
    requires |x| == |y| && SameResidue(Polynomial(x), Polynomial(y))
    ensures SameResidue(Polynomial(before + x), Polynomial(before + y))
  {
    CommonPrefix(before, x, y);
  }

  lemma {:induction false} CommonSuffix(x: string, y: string, after: string)
    requires SameResidue(Polynomial(x), Polynomial(y))
    ensures SameResidue(Polynomial(x + after), Polynomial(y + after))
    decreases |after|
  {
    if after == [] {
      assert x + after == x && y + after == y;
    } else {
      var c := after[0];
      PolynomialOfAppended(x, c);
      PolynomialOfAppended(y, c);
      Multiple(31 * (Polynomial(x) - Polynomial(y)), 31 * ((Polynomial(x) - Polynomial(y)) / 0x1_0000_0000));
      CommonSuffix(x + [c], y + [c], after[1..]);
      assert x + [c] + after[1..] == x + after && y + [c] + after[1..] == y + after;
    }
  }

  // ----- The printed key -----

  lemma EightDigitsSuffice(n: nat)
    requires n <= 0x8000_0000
    ensures |Numeral(n, 16)| <= 8
  {
    NumeralLength(n, 16, 8);
    assert Power(16, 4) == 0x1_0000;
    assert Power(16, 8) == 0x1_0000_0000;
  }

  lemma KeyShape(n: nat)
    requires n <= 0x8000_0000
    ensures var key := Printed(n);
            && |key| == 12 && key[..4] == "PAY-"
            && (forall c <- key[4..] :: IsDigit(c))
            && Value(key[4..], 16) == n
  {
    var digits := Numeral(n, 16);
    ValueOfNumeral(n, 16);
    EightDigitsSuffice(n);
    LeadingZeros(8 - |digits|, digits, 16);
    if |digits| == 8 {
      assert seq(0, _ => '0') + digits == digits;
    }
    assert Printed(n)[4..] == Padded(digits);
  }

  /** Exactly eight hexadecimal digits follow the prefix, and they are the magnitude of the hash: also for
      the smallest word, whose magnitude does not fit the signed range. */
  lemma KeyIsTheMagnitude(raw: string)
    ensures var key := KeyOf(raw);
            && |key| == 12 && key[..4] == "PAY-"
            && (forall c <- key[4..] :: IsDigit(c))
            && Value(key[4..], 16) == Abs(ToInt32(Polynomial(raw)))
  {
    KeyShape(Abs(ToInt32(Polynomial(raw))));
  }

  lemma PrintedTellsMagnitudesApart(m: nat, n: nat)
    requires m <= 0x8000_0000 && n <= 0x8000_0000
    ensures Printed(m) == Printed(n) <==> m == n
  {
    KeyShape(m);
    KeyShape(n);
  }

  /** Two payments share a key exactly when their polynomials are congruent up to sign. */
  lemma KeysAgreeExactlyWhen(a: string, b: string)
    ensures KeyOf(a) == KeyOf(b)
            <==> SameResidue(Polynomial(a), Polynomial(b)) || SameResidue(Polynomial(a), -Polynomial(b))
  {
    KeyOfPolynomial(a);
    KeyOfPolynomial(b);
    PrintedWordsAgreeExactlyWhen(Polynomial(a), Polynomial(b));
  }

  lemma KeyOfPolynomial(raw: string)
    ensures KeyOf(raw) == Printed(Abs(ToInt32(Polynomial(raw))))
  {
  }

  lemma PrintedWordsAgreeExactlyWhen(p: int, q: int)
    ensures Printed(Abs(ToInt32(p))) == Printed(Abs(ToInt32(q))) <==> SameResidue(p, q) || SameResidue(p, -q)
  {
    MagnitudesAgreeExactlyWhen(p, q);
    PrintedTellsMagnitudesApart(Abs(ToInt32(p)), Abs(ToInt32(q)));
  }

  lemma MagnitudesAgreeExactlyWhen(p: int, q: int)
    ensures Abs(ToInt32(p)) == Abs(ToInt32(q)) <==> SameResidue(p, q) || SameResidue(p, -q)
  {
    SameWordExactlyWhenCongruent(p, q);
    SameWordExactlyWhenCongruent(p, -q);
    NegatedWord(q);
  }

  lemma NegatedWord(q: int)
    ensures ToInt32(-q) == if ToInt32(q) == -0x8000_0000 then ToInt32(q) else -ToInt32(q)
  {
  }

  /** Replacing a block by another of the same length and residue never changes the key. */
  lemma CongruentBlocksShareAKey(before: string, x: string, y: string, after: string)
    requires |x| == |y| && SameResidue(Polynomial(x), Polynomial(y))
    ensures KeyOf(before + x + after) == KeyOf(before + y + after)
  {
    CommonPrefixKeepsResidue(before, x, y);
    CommonSuffix(before + x, before + y, after);
    KeysAgreeExactlyWhen(before + x + after, before + y + after);
  }

  lemma NineCharacters(s: string)
    requires |s| == 9
    ensures Polynomial(s) ==
            (((((((s[0] as int * 31 + s[1] as int) * 31 + s[2] as int) * 31 + s[3] as int) * 31
                 + s[4] as int) * 31 + s[5] as int) * 31 + s[6] as int) * 31 + s[7] as int) * 31
            + s[8] as int
  {
    assert s[..0] == [] && s[..9] == s;
    forall i | 0 <= i < 9
      ensures Polynomial(s[..i + 1]) == 31 * Polynomial(s[..i]) + s[i] as int
    {
      assert s[..i + 1] == s[..i] + [s[i]];
      PolynomialOfAppended(s[..i], s[i]);
    }
    assert Polynomial(s[..1]) == s[0] as int;
    assert Polynomial(s[..3]) == (s[0] as int * 31 + s[1] as int) * 31 + s[2] as int;
  }

  lemma FirstAmount()
    ensures Polynomial("500090.00") == 46_567_858_954_044
  {
    NineCharacters("500090.00");
  }

  lemma SecondAmount()
    ensures Polynomial("193703.41") == 43_406_763_024_188
  {
    NineCharacters("193703.41");
  }

  lemma AmountsAreCongruent()
    ensures SameResidue(Polynomial("500090.00"), Polynomial("193703.41"))
  {
    FirstAmount();
    SecondAmount();
  }

  lemma AmountBetween(declarationId: int, amountText: string, currency: string, traderId: int)
    ensures Raw(declarationId, amountText, currency, traderId)
            == (Decimal(declarationId) + ":") + amountText + (":" + currency + ":" + Decimal(traderId))
  {
  }

  lemma CongruentAmountsShareAKey(declarationId: int, x: string, y: string, currency: string, traderId: int)
    requires |x| == |y| && SameResidue(Polynomial(x), Polynomial(y))
    ensures KeyOf(Raw(declarationId, x, currency, traderId)) == KeyOf(Raw(declarationId, y, currency, traderId))
  {
    var before, after := Decimal(declarationId) + ":", ":" + currency + ":" + Decimal(traderId);
    CongruentBlocksShareAKey(before, x, y, after);
    AmountBetween(declarationId, x, currency, traderId);
    AmountBetween(declarationId, y, currency, traderId);
  }

  /** The key does not tell all payments apart: for every declaration, currency and trader these two amounts
      have the same key. */
  lemma TwoAmountsShareAKey(declarationId: int, currency: string, traderId: int)
    ensures KeyOf(Raw(declarationId, "500090.00", currency, traderId))
            == KeyOf(Raw(declarationId, "193703.41", currency, traderId))
  {
    AmountsAreCongruent();
    CongruentAmountsShareAKey(declarationId, "500090.00", "193703.41", currency, traderId);
  }
}
