/**
 * The GST pricing engine shared by invoices, quotations and the two browser
 * previews. Given the amount to price (the line sum plus the extra amount), a
 * GST mode and a rate, it yields the subtotal before tax, the tax and the
 * total. The copies differ only in how they round (with or without the
 * epsilon nudge) and in how they form the line sum; those live with each copy.
 */
module Pricing {
  import opened Wrappers
  import opened Money

  datatype GstMode = Exclusive | Inclusive | NoGst

  /** The default rate when neither the request nor the environment gives one. */
  const DefaultGstRate: real := 0.18

  /**
   * `gstMode === 'NOGST' ? 0 : Number(gstRateOverride ?? defaultGst)`: a missing
   * override (null or undefined) falls back to the default, a given one is used
   * as it is, even 0.
   */
  function GstRateFor(mode: GstMode, override: Option<real>): (rate: real)
    ensures mode == NoGst ==> rate == 0.0
    ensures mode != NoGst ==> rate == override.GetOr(DefaultGstRate)
  {
    if mode == NoGst then 0.0 else override.GetOr(DefaultGstRate)
  }

  /** Which round-to-cent function a copy uses. */
  datatype Rounding = WithEpsilon | Plain

  function Rnd(k: Rounding, x: real): (r: real)
    ensures IsCents(r)
  {
    match k
    case WithEpsilon => Round2(x)
    case Plain => RoundPlain(x)
  }

  lemma RndOfCents(k: Rounding, x: real)
    requires IsCents(x)
    ensures Rnd(k, x) == x
  {
    if k == WithEpsilon { Round2OfCents(x); } else { RoundPlainOfCents(x); }
  }

  lemma RndMonotone(k: Rounding, x: real, y: real)
    requires x <= y
    ensures Rnd(k, x) <= Rnd(k, y)
  {
    if k == WithEpsilon { Round2Monotone(x, y); } else { RoundPlainMonotone(x, y); }
  }

  lemma RndSign(k: Rounding, x: real)
    ensures x >= 0.0 ==> Rnd(k, x) >= 0.0
  {
    if k == WithEpsilon { Round2Sign(x); } else { RoundPlainSign(x); }
  }

  /** How far rounding moves a value: at most half a cent, plus the epsilon nudge. */
  lemma RndClose(k: Rounding, x: real)
    ensures x - 0.005 < Rnd(k, x) <= x + Epsilon + 0.005
  {
  }

  datatype Totals = Totals(subtotalExclGst: real, gstAmount: real, totalInclGst: real)

  /** EXCLUSIVE: the amount is before tax; tax is added on top. */
  function ExclusiveTotals(k: Rounding, amount: real, rate: real): Totals {
    var subtotal := Rnd(k, amount);
    var gst := Rnd(k, subtotal * rate);
    Totals(subtotal, gst, Rnd(k, subtotal + gst))
  }

  /** INCLUSIVE: the amount already holds the tax; the base is backed out of it. */
  function InclusiveTotals(k: Rounding, amount: real, rate: real): Totals {
    var gross := Rnd(k, amount);
    var base := if rate > 0.0 then Rnd(k, gross / (1.0 + rate)) else gross;
    Totals(base, Rnd(k, gross - base), gross)
  }

  /** NOGST: no tax; the total is the rounded amount. */
  function NoGstTotals(k: Rounding, amount: real): Totals {
    var subtotal := Rnd(k, amount);
    Totals(subtotal, 0.0, subtotal)
  }

  /** The three-way branch on the mode (invoiceController.js and its copies). */
  function ModeTotals(k: Rounding, mode: GstMode, amount: real, rate: real): Totals {
    match mode
    case Exclusive => ExclusiveTotals(k, amount, rate)
    case Inclusive => InclusiveTotals(k, amount, rate)
    case NoGst => NoGstTotals(k, amount)
  }

  /** Totals that add up: all in whole cents, and subtotal plus tax is the total. */
  predicate Reconciled(t: Totals) {
    IsCents(t.subtotalExclGst) && IsCents(t.gstAmount) && IsCents(t.totalInclGst)
    && t.subtotalExclGst + t.gstAmount == t.totalInclGst
  }

  /** In every mode, with either rounding, subtotal + GST = total to the cent. */
  lemma ModeTotalsReconcile(k: Rounding, mode: GstMode, amount: real, rate: real)
    ensures Reconciled(ModeTotals(k, mode, amount, rate))
  {
    var t := ModeTotals(k, mode, amount, rate);
    match mode
    case Exclusive =>
      CentsClosed(t.subtotalExclGst, t.gstAmount);
      RndOfCents(k, t.subtotalExclGst + t.gstAmount);
    case Inclusive =>
      CentsClosed(t.totalInclGst, t.subtotalExclGst);
      RndOfCents(k, t.totalInclGst - t.subtotalExclGst);
    case NoGst =>
      assert IsCents(0.0) by { CentsOfInt(0); }
  }

  /** With a non-negative amount and rate nothing is negative, and neither part exceeds the total. */
  lemma ModeTotalsNonNegative(k: Rounding, mode: GstMode, amount: real, rate: real)
    requires amount >= 0.0 && rate >= 0.0
    ensures var t := ModeTotals(k, mode, amount, rate);
      0.0 <= t.subtotalExclGst <= t.totalInclGst && 0.0 <= t.gstAmount <= t.totalInclGst
  {
    ModeTotalsReconcile(k, mode, amount, rate);
    RndSign(k, amount);
    match mode
    case Exclusive =>
      RndSign(k, Rnd(k, amount) * rate);
    case Inclusive =>
      InclusiveBaseBelowGross(k, amount, rate);
    case NoGst =>
  }

  lemma InclusiveBaseBelowGross(k: Rounding, amount: real, rate: real)
    requires amount >= 0.0 && rate >= 0.0
    ensures 0.0 <= InclusiveTotals(k, amount, rate).subtotalExclGst <= Rnd(k, amount)
  {
    var gross := Rnd(k, amount);
    RndSign(k, amount);
    if rate > 0.0 {
      var q := gross / (1.0 + rate);
      assert q * (1.0 + rate) == gross;
      assert q <= gross;
      RndSign(k, q);
      RndMonotone(k, q, gross);
      RndOfCents(k, gross);
    }
  }

  /** At rate 0 the taxed modes charge no tax and agree with NOGST. */
  lemma ZeroRateIsNoGst(k: Rounding, mode: GstMode, amount: real)
    ensures ModeTotals(k, mode, amount, 0.0) == NoGstTotals(k, amount)
  {
    var s := Rnd(k, amount);
    match mode
    case Exclusive =>
      RndOfCents(k, 0.0) by { CentsOfInt(0); }
      RndOfCents(k, s);
    case Inclusive =>
      RndOfCents(k, 0.0) by { CentsOfInt(0); }
    case NoGst =>
  }

  /** EXCLUSIVE tax is the subtotal times the rate, to within half a cent and the epsilon. */
  lemma ExclusiveTaxClose(k: Rounding, amount: real, rate: real)
    ensures var t := ExclusiveTotals(k, amount, rate);
      t.subtotalExclGst * rate - 0.005 < t.gstAmount <= t.subtotalExclGst * rate + Epsilon + 0.005
  {
    RndClose(k, Rnd(k, amount) * rate);
  }

  /** INCLUSIVE: the total is the rounded amount, and the base is the total backed out at the rate. */
  lemma InclusiveBaseClose(k: Rounding, amount: real, rate: real)
    requires rate > 0.0
    ensures var t := InclusiveTotals(k, amount, rate);
      t.totalInclGst == Rnd(k, amount)
      && t.totalInclGst / (1.0 + rate) - 0.005 < t.subtotalExclGst <= t.totalInclGst / (1.0 + rate) + Epsilon + 0.005
  {
    RndClose(k, Rnd(k, amount) / (1.0 + rate));
  }
}
