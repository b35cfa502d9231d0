/**
 * The value helpers of the invoice and ledger PDFs (utils/pdf.js): amount
 * rendering to two decimals, the GST percentage label, the amount column's
 * heading, the amount shown for a line, which total rows are drawn, and the
 * ledger's reference column. The drawing itself is not modelled.
 */
module Pdf {
  import opened Wrappers
  import opened Text
  import opened Money
  import opened Pricing
  import opened Books

  function Abs(x: real): real {
    if x < 0.0 then -x else x
  }

  /** `c` cents written with two decimals, behind a minus sign when `neg`. */
  function FixedText(c: nat, neg: bool): string {
    (if neg then "-" else "") + UnsignedText(c)
  }

  /**
   * `x.toFixed(2)`: a minus sign for a negative value, the whole part, a dot
   * and two digits, from the whole number of cents nearest to |x| (the larger
   * one at a tie).
   */
  function Fixed2(x: real): string {
    FixedText(MathRound(Abs(x) * 100.0), x < 0.0)
  }

  /** `currency`: a non-finite value prints as "0.00". */
  function Currency(n: JsNumber): string {
    match n
    case Finite(x) => Fixed2(x)
    case NotFinite => Fixed2(0.0)
  }

  /** The number of cents written as digits, a dot and two digits, if the string has that shape. */
  function ReadUnsigned(body: string): Option<nat> {
    if |body| >= 4 && body[|body| - 3] == '.' && AllDigits(body[..|body| - 3]) && AllDigits(body[|body| - 2..]) then
      Some(DigitsValue(body[..|body| - 3]) * 100 + DigitsValue(body[|body| - 2..]))
    else None
  }

  /** The signed number of cents written in a `toFixed(2)` string, if it has that shape. */
  function ReadFixed(s: string): Option<int> {
    if |s| > 0 && s[0] == '-' then
      match ReadUnsigned(s[1..])
      case Some(v) => Some(-(v as int))
      case None => None
    else
      match ReadUnsigned(s)
      case Some(v) => Some(v as int)
      case None => None
  }

  /** Reading back the text of `c` cents gives `c`, signed. */
  lemma FixedTextReadsBack(c: nat, neg: bool)
    ensures ReadFixed(FixedText(c, neg)) == Some(if neg then -(c as int) else c as int)
  {
    UnsignedReadsBack(c);
    ReadSigned(UnsignedText(c), c, neg);
  }

  /** A sign in front of unsigned text that reads back as `v` gives `v`, signed. */
  lemma ReadSigned(body: string, v: nat, neg: bool)
    requires |body| > 0 && body[0] != '-' && ReadUnsigned(body) == Some(v)
    ensures ReadFixed((if neg then "-" else "") + body) == Some(if neg then -(v as int) else v as int)
  {
    if neg {
      assert ("-" + body)[1..] == body;
    } else {
      assert "" + body == body;
    }
  }

  /** The unsigned text of `c` cents. */
  function UnsignedText(c: nat): string {
    NatToString(c / 100) + "." + PadStart(NatToString(c % 100), 2, '0')
  }

  /** The unsigned text starts with a digit and reads back as `c`. */
  lemma UnsignedReadsBack(c: nat)
    ensures ReadUnsigned(UnsignedText(c)) == Some(c)
    ensures |UnsignedText(c)| > 0 && UnsignedText(c)[0] != '-'
  {
    var w, p := NatToString(c / 100), PadStart(NatToString(c % 100), 2, '0');
    TwoDigits(c % 100);
    DigitsValueOfNatToString(c / 100);
    ReadBody(w, p);
    assert UnsignedText(c)[0] == w[0] && IsDigit(w[0]);
  }

  /** Digits, a dot and two digits read back as the number of cents they write. */
  lemma ReadBody(w: string, p: string)
    requires |w| >= 1 && AllDigits(w) && |p| == 2 && AllDigits(p)
    ensures ReadUnsigned(w + "." + p) == Some(DigitsValue(w) * 100 + DigitsValue(p))
  {
    BodyParts(w, p);
  }

  lemma BodyParts(w: string, p: string)
    requires |p| == 2
    ensures var b := w + "." + p;
      |b| == |w| + 3 && b[..|b| - 3] == w && b[|b| - 2..] == p && b[|b| - 3] == '.'
  {
    var b := w + "." + p;
    assert b[..|b| - 3] == w;
    assert b[|b| - 2..] == p;
  }

  /**
   * Reading back what `toFixed(2)` wrote gives the nearest number of cents,
   * with the value's sign; for an amount already in whole cents, exactly the
   * amount.
   */
  lemma Fixed2ReadsBack(x: real)
    ensures var c := MathRound(Abs(x) * 100.0);
      ReadFixed(Fixed2(x)) == Some(if x < 0.0 then -c else c)
  {
    Fixed2ReadsBackAt(x, MathRound(Abs(x) * 100.0));
  }

  lemma Fixed2ReadsBackAt(x: real, c: int)
    requires c == MathRound(Abs(x) * 100.0)
    ensures ReadFixed(Fixed2(x)) == Some(if x < 0.0 then -c else c)
  {
    assert Abs(x) * 100.0 >= 0.0;
    assert c >= 0;
    assert Fixed2(x) == FixedText(c, x < 0.0);
    FixedTextReadsBack(c, x < 0.0);
  }

  /** For an amount already in whole cents, reading back gives exactly the amount in cents. */
  lemma Fixed2ReadsCents(x: real)
    requires IsCents(x)
    ensures ReadFixed(Fixed2(x)) == Some((x * 100.0).Floor)
  {
    Fixed2ReadsBack(x);
    SignedCents(x);
  }

  /** For a whole number of cents, the signed nearest cents of |x| are exactly x * 100. */
  lemma SignedCents(x: real)
    requires IsCents(x)
    ensures var c := MathRound(Abs(x) * 100.0);
      (if x < 0.0 then -c else c) == (x * 100.0).Floor
  {
    CentsAbs(x);
    CentsRound(Abs(x));
    if x < 0.0 {
      assert Abs(x) * 100.0 == -(x * 100.0);
    }
  }

  /** Rounding a whole number of cents to cents changes nothing. */
  lemma CentsRound(y: real)
    requires IsCents(y)
    ensures MathRound(y * 100.0) as real == y * 100.0
  {
    var k := (y * 100.0).Floor;
    assert (y * 100.0 + 0.5).Floor == k;
  }

  /** A negative cent amount is minus a whole number of cents. */
  lemma CentsAbs(x: real)
    requires IsCents(x)
    ensures IsCents(Abs(x))
  {
    if x < 0.0 {
      var k := (x * 100.0).Floor;
      assert -x * 100.0 == (-k) as real;
      CentsOfInt(-k);
      assert (-k) as real / 100.0 == -x;
    }
  }

  /** A non-finite amount prints as zero cents. */
  lemma CurrencyOfNotFinite()
    ensures ReadFixed(Currency(NotFinite)) == Some(0)
  {
    assert Currency(NotFinite) == Fixed2(0.0);
    assert MathRound(Abs(0.0) * 100.0) == 0;
    Fixed2ReadsBackAt(0.0, 0);
  }

  // ---------------------------------------------------------------- pct

  /**
   * `String(v)` for a value with at most two decimals, given as its whole
   * number of cents `c`: no fraction for a whole number, otherwise the
   * fraction's digits without trailing zeros.
   */
  function CentsToString(c: int): string {
    var a: nat := if c < 0 then -c else c;
    var whole := NatToString(a / 100);
    var frac := a % 100;
    (if c < 0 then "-" else "") + whole + FracText(frac)
  }

  /** The fraction of a number string: nothing for none, else a dot and one or two digits. */
  function FracText(frac: nat): string
    requires frac < 100
  {
    if frac == 0 then "" else if frac % 10 == 0 then "." + [DigitChar(frac / 10)] else "." + PadStart(NatToString(frac), 2, '0')
  }

  /** A fraction never ends in '0'. */
  lemma FracTextEnd(frac: nat)
    requires 0 < frac < 100
    ensures var f := FracText(frac); |f| >= 2 && f[|f| - 1] != '0'
  {
    if frac % 10 != 0 {
      var p := PadStart(NatToString(frac), 2, '0');
      TwoDigits(frac);
      LastDigit(p, frac);
      assert FracText(frac)[|FracText(frac)| - 1] == p[1];
    }
  }

  /** The length of the run of '0' characters ending the string. */
  function TrailingZeros(s: string): (z: nat)
    ensures z <= |s|
    ensures forall i :: |s| - z <= i < |s| ==> s[i] == '0'
    ensures z < |s| ==> s[|s| - z - 1] != '0'
  {
    if s != [] && s[|s| - 1] == '0' then TrailingZeros(s[..|s| - 1]) + 1 else 0
  }

  /** `.replace(/\.0+$/, "")`: a dot followed only by zeros up to the end is removed. */
  function StripZeroFraction(s: string): string {
    var z := TrailingZeros(s);
    if z >= 1 && z < |s| && s[|s| - z - 1] == '.' then s[..|s| - z - 1] else s
  }

  /** `pct`: the rate times 100, rounded to two decimals, as a number string. */
  function Pct(n: Option<real>): string {
    var v := ToNum(n) * 100.0;
    StripZeroFraction(CentsToString(MathRound(v * 100.0)))
  }

  /** A string whose last character is not '0' is left alone. */
  lemma StripNoZero(s: string)
    requires s != [] && s[|s| - 1] != '0'
    ensures StripZeroFraction(s) == s
  {
  }

  /** A string without a dot is left alone. */
  lemma StripNoDot(s: string)
    requires forall i :: 0 <= i < |s| ==> s[i] != '.'
    ensures StripZeroFraction(s) == s
  {
  }

  /** The sign and the whole part hold no dot. */
  lemma HeadNoDot(neg: bool, w: nat)
    ensures var h := (if neg then "-" else "") + NatToString(w);
      forall i :: 0 <= i < |h| ==> h[i] != '.'
  {
    var n := NatToString(w);
    assert forall i :: 0 <= i < |n| ==> IsDigit(n[i]);
  }

  /** The last of two digits that read as `f` reads as `f % 10`. */
  lemma LastDigit(p: string, f: nat)
    requires |p| == 2 && AllDigits(p) && DigitsValue(p) == f
    ensures DigitValue(p[1]) == f % 10
  {
    assert p[..1][..0] == [];
  }

  /**
   * Number-to-string never ends in ".0", ".00", so the stripping in `pct`
   * never changes anything.
   */
  lemma StripIsNoOp(c: int)
    ensures StripZeroFraction(CentsToString(c)) == CentsToString(c)
  {
    var a: nat := if c < 0 then -c else c;
    var frac := a % 100;
    var s := CentsToString(c);
    var head := (if c < 0 then "-" else "") + NatToString(a / 100);
    assert s == head + FracText(frac);
    if frac == 0 {
      assert s == head;
      HeadNoDot(c < 0, a / 100);
      StripNoDot(s);
    } else {
      FracTextEnd(frac);
      assert s[|s| - 1] == FracText(frac)[|FracText(frac)| - 1];
      StripNoZero(s);
    }
  }

  /** The default 18% rate is labelled "18", and a missing rate "0". */
  lemma PctExamples()
    ensures Pct(Some(0.18)) == "18"
    ensures Pct(None) == "0"
  {
    assert MathRound(0.18 * 100.0 * 100.0) == 1800;
    assert MathRound(0.0 * 100.0 * 100.0) == 0;
    assert CentsToString(1800) == "18" by {
      assert NatToString(18) == "18" by {
        assert NatToString(1) == "1";
      }
    }
    assert CentsToString(0) == "0";
    StripIsNoOp(1800);
    StripIsNoOp(0);
  }

  // ---------------------------------------------------------------- labels and lines

  /** `labelForAmount`. */
  function LabelForAmount(mode: GstMode): string {
    match mode
    case Inclusive => "Amount (Incl. GST)"
    case NoGst => "Amount"
    case Exclusive => "Amount (Excl. GST)"
  }

  /** Each mode gets its own column heading. */
  lemma LabelsDistinct(a: GstMode, b: GstMode)
    ensures LabelForAmount(a) == LabelForAmount(b) <==> a == b
  {
    assert LabelForAmount(Exclusive)[8] == 'E';
    assert LabelForAmount(Inclusive)[8] == 'I';
  }

  /**
   * A stored line as the PDF reads it: `None` is null or undefined; a number
   * field holds what `Number(...)` makes of the stored value.
   */
  datatype PdfLine = PdfLine(
    description: Option<string>,
    qty: Option<real>,
    unitPriceExclGst: Option<real>,
    unitPriceInclGst: Option<real>,
    amountExclGst: Option<JsNumber>,
    amountInclGst: Option<JsNumber>)

  /** `Number(x) || 0`. */
  function NumberOrZero(n: JsNumber): real {
    match n
    case Finite(x) => x
    case NotFinite => 0.0
  }

  /** `Number(li.qty || 1)`: a missing or zero quantity counts as one. */
  function LegacyQty(qty: Option<real>): real {
    if qty.None? || qty.value == 0.0 then 1.0 else qty.value
  }

  /** One side of a line: the stored amount when present, else the legacy quantity times unit price, rounded. */
  function SideAmount(qty: Option<real>, unitPrice: Option<real>, stored: Option<JsNumber>): real {
    if stored.Some? then NumberOrZero(stored.value) else Round2(LegacyQty(qty) * ToNum(unitPrice))
  }

  /** `computeLineAmount`: Inclusive reads the Incl side, Exclusive and NoGst the Excl side. */
  function ComputeLineAmount(li: PdfLine, mode: GstMode): real {
    if mode == Inclusive then SideAmount(li.qty, li.unitPriceInclGst, li.amountInclGst)
    else SideAmount(li.qty, li.unitPriceExclGst, li.amountExclGst)
  }

  /**
   * The amount shown depends only on the mode's own side: Inclusive reads the
   * Incl fields and nothing else, Exclusive and NoGst read the Excl fields and
   * nothing else.
   */
  lemma LineAmountSides(li: PdfLine, other: PdfLine, mode: GstMode)
    requires li.qty == other.qty
    requires mode == Inclusive ==> li.unitPriceInclGst == other.unitPriceInclGst && li.amountInclGst == other.amountInclGst
    requires mode != Inclusive ==> li.unitPriceExclGst == other.unitPriceExclGst && li.amountExclGst == other.amountExclGst
    ensures ComputeLineAmount(li, mode) == ComputeLineAmount(other, mode)
    ensures ComputeLineAmount(li, Exclusive) == ComputeLineAmount(li, NoGst)
  {
  }

  /**
   * A stored amount wins over the unit price, even when it is 0 or not a
   * number (shown as 0); without one, the amount is the quantity (a missing
   * or zero quantity counting as 1) times the unit price, in whole cents.
   */
  lemma SideAmountSpec(qty: Option<real>, unitPrice: Option<real>, stored: Option<JsNumber>)
    ensures stored == Some(NotFinite) ==> SideAmount(qty, unitPrice, stored) == 0.0
    ensures stored.Some? && stored.value.Finite? ==> SideAmount(qty, unitPrice, stored) == stored.value.value
    ensures stored.None? ==> IsCents(SideAmount(qty, unitPrice, stored))
    ensures stored.None? && (qty.None? || qty == Some(0.0)) ==> SideAmount(qty, unitPrice, stored) == Round2(ToNum(unitPrice))
  {
  }

  /** `showGst`: the tax row is drawn unless the mode is NOGST or the rate is not positive. */
  function ShowGst(mode: GstMode, gstRate: Option<real>): bool {
    mode != NoGst && ToNum(gstRate) > 0.0
  }

  /** The extra-amount row is drawn when `Number(extraAmount || 0) !== 0`. */
  function ShowExtra(extraAmount: Option<real>): bool {
    ToNum(extraAmount) != 0.0
  }

  /**
   * For a mode other than NOGST and a zero rate, a hidden tax row hides
   * nothing: the tax is zero and the total is the subtotal. A negative rate,
   * which the invoice controller takes unchecked, is the exception shown by
   * `NegativeRateHidesTax`.
   */
  lemma HiddenGstIsZero(k: Rounding, mode: GstMode, amount: real, gstRate: Option<real>)
    requires !ShowGst(mode, gstRate)
    requires mode == NoGst || ToNum(gstRate) == 0.0
    ensures ModeTotals(k, mode, amount, ToNum(gstRate)).gstAmount == 0.0
    ensures ModeTotals(k, mode, amount, ToNum(gstRate)).totalInclGst == ModeTotals(k, mode, amount, ToNum(gstRate)).subtotalExclGst
  {
    if mode != NoGst {
      ZeroRateIsNoGst(k, mode, amount);
    }
  }

  /**
   * A negative rate hides a tax that is not zero: on an EXCLUSIVE invoice of
   * at least 1 at a rate of at most -1%, the tax row is not drawn, yet the tax
   * is negative and the total falls below the subtotal.
   */
  lemma NegativeRateHidesTax(k: Rounding, amount: real, rate: real)
    requires amount >= 1.0 && rate <= -0.01
    ensures !ShowGst(Exclusive, Some(rate))
    ensures ModeTotals(k, Exclusive, amount, rate).gstAmount < 0.0
    ensures ModeTotals(k, Exclusive, amount, rate).totalInclGst < ModeTotals(k, Exclusive, amount, rate).subtotalExclGst
  {
    var sub := Rnd(k, amount);
    CentsOfInt(100);
    RndOfCents(k, 1.0);
    RndMonotone(k, 1.0, amount);
    NegativeProduct(sub, rate);
    RndClose(k, sub * rate);
    ModeTotalsReconcile(k, Exclusive, amount, rate);
  }

  /** At least 1 times at most -0.01 is at most -0.01. */
  lemma NegativeProduct(a: real, r: real)
    requires a >= 1.0 && r <= -0.01
    ensures a * r <= -0.01
  {
    assert a * r - r == (a - 1.0) * r;
    assert (a - 1.0) * r <= 0.0;
  }

  // ---------------------------------------------------------------- the ledger reference

  function RefTypeName(r: RefType): string {
    match r
    case InvoiceRef => "INVOICE"
    case PaymentRef => "PAYMENT"
    case OpeningRef => "OPENING"
    case AdjustmentRef => "ADJUSTMENT"
  }

  /** The type part of the reference text: the type's name, or nothing. */
  function TypeText(t: Option<RefType>): string {
    if t.Some? then RefTypeName(t.value) else ""
  }

  /** The id part of the reference text: " #" and the id in decimal, or nothing. */
  function IdText(id: Option<nat>): string {
    if id.Some? then " #" + NatToString(id.value) else ""
  }

  /** `${e.refType || ""}${e.refId ? ` #${e.refId}` : ""}`, with the reference id written in decimal. */
  function RefText(refType: Option<RefType>, refId: Option<nat>): string {
    TypeText(refType) + IdText(refId)
  }

  /** The reference text names the type in front and shows " #id" exactly when there is an id; the text gives both back. */
  lemma RefTextReadsBack(t1: Option<RefType>, id1: Option<nat>, t2: Option<RefType>, id2: Option<nat>)
    ensures RefText(t1, id1) == RefText(t2, id2) <==> t1 == t2 && id1 == id2
  {
    if RefText(t1, id1) == RefText(t2, id2) {
      TypeTextUnspaced(t1);
      TypeTextUnspaced(t2);
      IdTextShape(id1);
      IdTextShape(id2);
      SplitAtSpace(TypeText(t1), IdText(id1), TypeText(t2), IdText(id2));
      TypeTextInjective(t1, t2);
      IdTextInjective(id1, id2);
    }
  }

  /** A string without a space. */
  predicate Unspaced(n: string) {
    forall i :: 0 <= i < |n| ==> n[i] != ' '
  }

  /** No type name contains a space. */
  lemma TypeTextUnspaced(t: Option<RefType>)
    ensures Unspaced(TypeText(t))
  {
  }

  /** The id part is empty or starts with a space. */
  lemma IdTextShape(id: Option<nat>)
    ensures IdText(id) == [] || IdText(id)[0] == ' '
  {
  }

  /** A name without spaces followed by a part that is empty or starts with a space: the whole gives both back. */
  lemma SplitAtSpace(n1: string, s1: string, n2: string, s2: string)
    requires Unspaced(n1) && Unspaced(n2)
    requires s1 == [] || s1[0] == ' '
    requires s2 == [] || s2[0] == ' '
    requires n1 + s1 == n2 + s2
    ensures n1 == n2 && s1 == s2
  {
    var a := n1 + s1;
    assert n1 == a[..|n1|] && n2 == (n2 + s2)[..|n2|];
    assert s1 == a[|n1|..] && s2 == (n2 + s2)[|n2|..];
  }

  lemma TypeTextInjective(t1: Option<RefType>, t2: Option<RefType>)
    requires TypeText(t1) == TypeText(t2)
    ensures t1 == t2
  {
  }

  lemma IdTextInjective(id1: Option<nat>, id2: Option<nat>)
    requires IdText(id1) == IdText(id2)
    ensures id1 == id2
  {
    if id1.Some? && id2.Some? {
      assert IdText(id1)[2..] == NatToString(id1.value);
      assert IdText(id2)[2..] == NatToString(id2.value);
      NatToStringInjective(id1.value, id2.value);
    }
  }
}
