/**
 * Customs duty in integer minor units and basis points, every component rounded half up on its own.
 *
 * Parsing of the decimal inputs into minor units and basis points is not part of this model; the ranges
 * are those that the parsers enforce.
 */
module Duty {
  type BasisPoints = b: nat | b <= 10_000

  datatype Rates = Rates(tariff: BasisPoints, vat: BasisPoints, levy: BasisPoints, excise: BasisPoints)

  datatype Breakdown = Breakdown(cif: nat, customsDuty: nat, vat: nat, levy: nat, excise: nat, total: nat)

  /** The integer nearest to `amount * bps / 10000`, halves rounded up. */
  function ApplyBps(amount: nat, bps: BasisPoints): nat {
    (2 * (amount * bps) + 10_000) / 20_000
  }

  function CalculateDuty(invoice: nat, freight: nat, insurance: nat, rates: Rates): Breakdown {
    var cif := invoice + freight + insurance;
    var duty := ApplyBps(cif, rates.tariff);
    var levy := ApplyBps(cif, rates.levy);
    var excise := ApplyBps(cif, rates.excise);
    var vat := ApplyBps(cif + duty + levy + excise, rates.vat);
    Breakdown(cif, duty, vat, levy, excise, duty + vat + levy + excise)
  }

  // ----- The unrounded amounts -----

  function Fraction(bps: BasisPoints): real {
    bps as real / 10_000.0
  }

  function Charges(rates: Rates): real {
    Fraction(rates.tariff) + Fraction(rates.levy) + Fraction(rates.excise)
  }

  /** Duty, levy and excise on the value, then VAT on the value with all three, without any rounding. */
  function ExactTotal(cif: real, rates: Rates): real {
    cif * Charges(rates) + (cif + cif * Charges(rates)) * Fraction(rates.vat)
  }

  predicate Within(x: real, y: real, bound: real) {
    y - bound <= x <= y + bound
  }

  function ErrorBound(rates: Rates): real {
    2.0 + 1.5 * Fraction(rates.vat)
  }

  /** Halves go up: the error lies in the half-open interval from -1/2 to 1/2. */
  lemma RoundingError(amount: nat, bps: BasisPoints)
    ensures amount as real * Fraction(bps) - 0.5 < ApplyBps(amount, bps) as real <= amount as real * Fraction(bps) + 0.5
  {
  }

  /** The rounded total differs from the exact one by at most two minor units and a half more per part of
      the VAT base, and so by at most three and a half. */
  lemma TotalIsNearlyExact(invoice: nat, freight: nat, insurance: nat, rates: Rates)
    ensures var d, cif := CalculateDuty(invoice, freight, insurance, rates), invoice + freight + insurance;
            && d.cif == cif
            && Within(d.total as real, ExactTotal(cif as real, rates), ErrorBound(rates))
            && Within(d.total as real, ExactTotal(cif as real, rates), 3.5)
  {
    var d := CalculateDuty(invoice, freight, insurance, rates);
    ComponentErrors(invoice, freight, insurance, rates);
    PartsAreNearlyExact(d.cif as real, d.customsDuty as real, d.levy as real, d.excise as real, d.vat as real, rates);
    assert ErrorBound(rates) <= 3.5;
  }

  /** Duty, levy and excise are charged on the value, and VAT on the value with all three, each with its own rate
      and rounded on its own; the total is their sum. */
  lemma ComponentErrors(invoice: nat, freight: nat, insurance: nat, rates: Rates)
    ensures var d := CalculateDuty(invoice, freight, insurance, rates);
            && d.cif == invoice + freight + insurance
            && Within(d.customsDuty as real, d.cif as real * Fraction(rates.tariff), 0.5)
            && Within(d.levy as real, d.cif as real * Fraction(rates.levy), 0.5)
            && Within(d.excise as real, d.cif as real * Fraction(rates.excise), 0.5)
            && Within(d.vat as real,
                      (d.cif as real + d.customsDuty as real + d.levy as real + d.excise as real)
                        * Fraction(rates.vat), 0.5)
            && d.total as real == d.customsDuty as real + d.vat as real + d.levy as real + d.excise as real
  {
    var d := CalculateDuty(invoice, freight, insurance, rates);
    RoundingError(d.cif, rates.tariff);
    RoundingError(d.cif, rates.levy);
    RoundingError(d.cif, rates.excise);
    RoundingError(d.cif + d.customsDuty + d.levy + d.excise, rates.vat);
  }

  /** The same bound from the rounding errors of the four parts alone. */
  lemma PartsAreNearlyExact(cif: real, duty: real, levy: real, excise: real, vat: real, rates: Rates)
    requires Within(duty, cif * Fraction(rates.tariff), 0.5)
    requires Within(levy, cif * Fraction(rates.levy), 0.5)
    requires Within(excise, cif * Fraction(rates.excise), 0.5)
    requires Within(vat, (cif + duty + levy + excise) * Fraction(rates.vat), 0.5)
    ensures Within(duty + vat + levy + excise, ExactTotal(cif, rates), ErrorBound(rates))
  {
    ChargesAreNearlyExact(cif, duty, levy, excise, rates);
    var exactBase := cif + cif * Charges(rates);
    VatIsNearlyExact(cif + duty + levy + excise, exactBase, vat, Fraction(rates.vat));
    TwoParts(duty + levy + excise, vat, cif * Charges(rates), exactBase * Fraction(rates.vat),
             1.5 * Fraction(rates.vat));
  }

  lemma TwoParts(charged: real, vat: real, exactCharges: real, exactVat: real, bound: real)
    requires Within(charged, exactCharges, 1.5) && Within(vat, exactVat, 0.5 + bound)
    ensures Within(charged + vat, exactCharges + exactVat, 2.0 + bound)
  {
  }

  lemma ChargesAreNearlyExact(cif: real, duty: real, levy: real, excise: real, rates: Rates)
    requires Within(duty, cif * Fraction(rates.tariff), 0.5)
    requires Within(levy, cif * Fraction(rates.levy), 0.5)
    requires Within(excise, cif * Fraction(rates.excise), 0.5)
    ensures Within(duty + levy + excise, cif * Charges(rates), 1.5)
  {
    DistributeOver(cif, Fraction(rates.tariff), Fraction(rates.levy), Fraction(rates.excise));
  }

  lemma VatIsNearlyExact(base: real, exactBase: real, vat: real, f: real)
    requires Within(base, exactBase, 1.5) && Within(vat, base * f, 0.5) && 0.0 <= f
    ensures Within(vat, exactBase * f, 0.5 + 1.5 * f)
  {
    var e := base - exactBase;
    ErrorScales(e, f);
    SplitProduct(base, exactBase, e, f);
    SumWithin(vat, base * f, exactBase * f, e * f, 1.5 * f);
  }

  lemma SumWithin(v: real, p: real, q: real, e: real, bound: real)
    requires Within(v, p, 0.5) && p == q + e && -bound <= e <= bound
    ensures Within(v, q, 0.5 + bound)
  {
  }

  lemma ErrorScales(e: real, f: real)
    requires -1.5 <= e <= 1.5 && 0.0 <= f
    ensures -(1.5 * f) <= e * f <= 1.5 * f
  {
  }

  lemma SplitProduct(x: real, y: real, e: real, f: real)
    requires x == y + e
    ensures x * f == y * f + e * f
  {
  }

  lemma DistributeOver(x: real, a: real, b: real, c: real)
    ensures x * (a + b + c) == x * a + x * b + x * c
  {
  }

  /** The bound is attained: on a value of one minor unit all four roundings go up by as much as they can. */
  lemma BoundIsAttained()
    ensures var rates := Rates(5_000, 8_750, 5_000, 5_000);
            var d := CalculateDuty(1, 0, 0, rates);
            d.total as real == ExactTotal(d.cif as real, rates) + ErrorBound(rates)
  {
  }

  predicate NoMoreThan(a: Breakdown, b: Breakdown) {
    a.cif <= b.cif && a.customsDuty <= b.customsDuty && a.vat <= b.vat && a.levy <= b.levy
    && a.excise <= b.excise && a.total <= b.total
  }

  lemma ApplyBpsIsMonotone(a: nat, b: nat, p: BasisPoints, q: BasisPoints)
    requires a <= b && p <= q
    ensures ApplyBps(a, p) <= ApplyBps(b, q)
  {
    ProductIsMonotone(a, b, p, q);
  }

  lemma ProductIsMonotone(a: nat, b: nat, p: nat, q: nat)
    requires a <= b && p <= q
    ensures a * p <= b * q
  {
  }

  predicate NoHigher(r1: Rates, r2: Rates) {
    r1.tariff <= r2.tariff && r1.vat <= r2.vat && r1.levy <= r2.levy && r1.excise <= r2.excise
  }

  /** The duty, the levy and the excise on one value. */
  function ChargesOn(cif: nat, rates: Rates): nat {
    ApplyBps(cif, rates.tariff) + ApplyBps(cif, rates.levy) + ApplyBps(cif, rates.excise)
  }

  lemma ChargesAreMonotone(x: nat, y: nat, r1: Rates, r2: Rates)
    requires x <= y && NoHigher(r1, r2)
    ensures ApplyBps(x, r1.tariff) <= ApplyBps(y, r2.tariff)
    ensures ApplyBps(x, r1.levy) <= ApplyBps(y, r2.levy)
    ensures ApplyBps(x, r1.excise) <= ApplyBps(y, r2.excise)
  {
    ApplyBpsIsMonotone(x, y, r1.tariff, r2.tariff);
    ApplyBpsIsMonotone(x, y, r1.levy, r2.levy);
    ApplyBpsIsMonotone(x, y, r1.excise, r2.excise);
  }

  lemma VatIsMonotone(x: nat, y: nat, r1: Rates, r2: Rates)
    requires x <= y && NoHigher(r1, r2)
    ensures ApplyBps(x + ChargesOn(x, r1), r1.vat) <= ApplyBps(y + ChargesOn(y, r2), r2.vat)
  {
    ChargesAreMonotone(x, y, r1, r2);
    ApplyBpsIsMonotone(x + ChargesOn(x, r1), y + ChargesOn(y, r2), r1.vat, r2.vat);
  }

  /** A higher value or a higher rate of any kind never lowers any component, VAT and total included. */
  lemma DutyIsMonotone(i1: nat, f1: nat, n1: nat, r1: Rates, i2: nat, f2: nat, n2: nat, r2: Rates)
    requires i1 + f1 + n1 <= i2 + f2 + n2 && NoHigher(r1, r2)
    ensures NoMoreThan(CalculateDuty(i1, f1, n1, r1), CalculateDuty(i2, f2, n2, r2))
  {
    ChargesAreMonotone(i1 + f1 + n1, i2 + f2 + n2, r1, r2);
    VatIsMonotone(i1 + f1 + n1, i2 + f2 + n2, r1, r2);
  }

  lemma ExactTotalIsAdditive(x: real, y: real, rates: Rates)
    ensures ExactTotal(x + y, rates) == ExactTotal(x, rates) + ExactTotal(y, rates)
  {
    var charges := Charges(rates);
    var f := Fraction(rates.vat);
    assert (x + y) * charges == x * charges + y * charges;
    assert (x + y + (x + y) * charges) * f == (x + x * charges) * f + (y + y * charges) * f;
  }

  /** Declaring a consignment in two parts changes the total by rounding only: by less than eleven minor
      units, whatever the values. */
  lemma SplittingChangesOnlyRounding(a: nat, b: nat, rates: Rates)
    ensures var whole := CalculateDuty(a + b, 0, 0, rates).total;
            var parts := CalculateDuty(a, 0, 0, rates).total + CalculateDuty(b, 0, 0, rates).total;
            Within(whole as real, parts as real, 3.0 * ErrorBound(rates))
  {
    TotalIsNearlyExact(a, 0, 0, rates);
    TotalIsNearlyExact(b, 0, 0, rates);
    TotalIsNearlyExact(a + b, 0, 0, rates);
    ExactTotalIsAdditive(a as real, b as real, rates);
    assert (a + b) as real == a as real + b as real;
  }
}
