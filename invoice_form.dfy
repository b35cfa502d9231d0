/**
 * The invoice form of the client (components/Invoices.js): the period length
 * and the prorated bill of each line for a one-time period, the live totals
 * preview, the checks made before sending, the line edits, the rewrite of the
 * lines when the GST mode changes, and the request body that is sent to
 * `createInvoice`.
 */
module InvoiceForm {
  import opened Wrappers
  import opened Money
  import opened Pricing
  import opened Calendar
  import opened Dates
  import opened Text
  import opened Books
  import opened InvoiceController
  import opened Lists

  /**
   * An amount field of a line: `Absent` when the line has no such key (the
   * `??` operator skips it), `Blank` when the input was cleared to "", or a
   * number.
   */
  datatype Field = Absent | Blank | Num(value: real)

  /** `toNum`: an absent or blank field is 0. */
  function FieldNum(x: Field): real {
    if x.Num? then x.value else 0.0
  }

  /** `a ?? b`: `a` unless it is absent. */
  function Coalesce(a: Field, b: Field): Field {
    if a.Absent? then b else a
  }

  datatype FormLine = FormLine(description: string, amountExclGst: Field, amountInclGst: Field)

  /**
   * The form state. Dates are the instants the date inputs parse to (`None`
   * when empty or invalid); the rate and the extra amount are `None` when
   * their input is empty.
   */
  datatype Form = Form(
    clientId: Option<nat>,
    issueDate: Option<int>,
    periodStart: Option<int>,
    periodEnd: Option<int>,
    billingType: BillingType,
    gstMode: GstMode,
    gstRate: Option<real>,
    extraAmount: Option<real>,
    remarks: string,
    lineItems: seq<FormLine>)

  /** The amount a line carries in the given mode: the inclusive field in INCLUSIVE mode, the exclusive one otherwise. */
  function ActiveAmount(mode: GstMode, li: FormLine): real {
    if mode == Inclusive then FieldNum(li.amountInclGst) else FieldNum(li.amountExclGst)
  }

  // ---- period days ----

  /** `Math.ceil(a / b)` for a positive divisor. */
  function CeilDiv(a: int, b: int): (q: int)
    requires b > 0
    ensures (q - 1) * b < a <= q * b
  {
    -((-a) / b)
  }

  /**
   * `periodDays`: 0 unless the billing is one-time and both dates are valid
   * with the end not before the start; otherwise the difference in days,
   * rounded up, plus one for the end day.
   */
  function PeriodDays(f: Form): nat {
    if f.periodStart.None? || f.periodEnd.None? || f.billingType != OneTime then 0
    else
      var start, end := f.periodStart.value, f.periodEnd.value;
      if end < start then 0
      else
        var diffDays := CeilDiv(end - start, DayMs) + 1;
        if diffDays > 0 then diffDays else 0
  }

  /** The period counts days exactly when the billing is one-time and both dates are given in order. */
  lemma PeriodDaysPositive(f: Form)
    ensures PeriodDays(f) > 0 <==>
      f.billingType == OneTime && f.periodStart.Some? && f.periodEnd.Some? && f.periodStart.value <= f.periodEnd.value
  {
  }

  /**
   * For dates parsed to midnight, the form's count is the server's
   * `daysBetween`: both end days are counted.
   */
  lemma PeriodDaysOfDates(f: Form)
    requires f.billingType == OneTime && f.periodStart.Some? && f.periodEnd.Some?
    requires f.periodStart.value <= f.periodEnd.value
    requires f.periodStart.value % DayMs == 0 && f.periodEnd.value % DayMs == 0
    ensures PeriodDays(f) == DaysBetween(f.periodStart.value, f.periodEnd.value)
    ensures PeriodDays(f) == DayOf(f.periodEnd.value) - DayOf(f.periodStart.value) + 1
  {
    var s, e := f.periodStart.value, f.periodEnd.value;
    DaysBetweenDays(s, e);
    var k := DayOf(e) - DayOf(s);
    assert e - s == k * DayMs;
    assert CeilDiv(e - s, DayMs) == k by {
      DivUnique(-(k * DayMs), DayMs, -k, 0);
    }
  }

  // ---- period bills ----

  /** The length of the month the instant falls in: `new Date(year, month + 1, 0).getDate()`. */
  function MonthDays(t: int): (n: nat)
    ensures 28 <= n <= 31
  {
    DaysInMonth(CivilOf(t).year, CivilOf(t).month)
  }

  /** One line's bill: the amount divided over the days of the start's month, times the period's days, with `round2`. */
  function PeriodBill(amount: real, monthDays: nat, days: nat): (r: real)
    requires monthDays > 0
    ensures IsCents(r)
  {
    Round2(Prorate(amount, monthDays, days))
  }

  /** `(amount / daysInMonth) * periodDays`, before rounding. */
  function Prorate(amount: real, monthDays: nat, days: nat): real
    requires monthDays > 0
  {
    amount / monthDays as real * days as real
  }

  /** The per-line bills of a one-time period, in line order; none outside one. */
  function PeriodBills(f: Form): (bills: seq<real>)
    ensures PeriodDays(f) == 0 ==> bills == []
    ensures PeriodDays(f) > 0 ==> |bills| == |f.lineItems| && forall i :: 0 <= i < |bills| ==>
      bills[i] == PeriodBill(ActiveAmount(f.gstMode, f.lineItems[i]), MonthDays(f.periodStart.value), PeriodDays(f))
  {
    if f.billingType != OneTime || PeriodDays(f) <= 0 then []
    else
      seq(|f.lineItems|, i requires 0 <= i < |f.lineItems| =>
        PeriodBill(ActiveAmount(f.gstMode, f.lineItems[i]), MonthDays(f.periodStart.value), PeriodDays(f)))
  }

  /** A period as long as its start month bills the monthly amount itself, to the cent. */
  lemma FullMonthBill(amount: real, monthDays: nat)
    requires monthDays > 0
    ensures PeriodBill(amount, monthDays, monthDays) == Round2(amount)
  {
    var n := monthDays as real;
    assert Prorate(amount, monthDays, monthDays) == amount by {
      assert amount / n * n == amount;
    }
  }

  /** For a non-negative amount, a longer period never bills less. */
  lemma PeriodBillMonotone(amount: real, monthDays: nat, d1: nat, d2: nat)
    requires amount >= 0.0 && monthDays > 0 && d1 <= d2
    ensures PeriodBill(amount, monthDays, d1) <= PeriodBill(amount, monthDays, d2)
  {
    ProrateMonotone(amount, monthDays, d1, d2);
    Round2Monotone(Prorate(amount, monthDays, d1), Prorate(amount, monthDays, d2));
  }

  lemma ProrateMonotone(amount: real, monthDays: nat, d1: nat, d2: nat)
    requires amount >= 0.0 && monthDays > 0 && d1 <= d2
    ensures Prorate(amount, monthDays, d1) <= Prorate(amount, monthDays, d2)
  {
    var rate := amount / monthDays as real;
    assert rate >= 0.0;
    ScaleMonotone(rate, d1 as real, d2 as real);
  }

  lemma ScaleMonotone(k: real, x: real, y: real)
    requires k >= 0.0 && x <= y
    ensures k * x <= k * y
  {
    assert k * y - k * x == k * (y - x);
  }

  // ---- totals ----

  /** `reduce((s, x) => s + x, 0)` over the bills. */
  function Sum(xs: seq<real>): real
    decreases |xs|
  {
    if xs == [] then 0.0 else Sum(xs[..|xs| - 1]) + xs[|xs| - 1]
  }

  /** The lines' sum of one amount field: the inclusive one when `incl`, else the exclusive one. */
  function FieldSum(lines: seq<FormLine>, incl: bool): real
    decreases |lines|
  {
    if lines == [] then 0.0
    else
      var li := lines[|lines| - 1];
      FieldSum(lines[..|lines| - 1], incl) + FieldNum(if incl then li.amountInclGst else li.amountExclGst)
  }

  /** The rate: 0 for NOGST, else the typed rate, 0.18 when the input is empty. */
  function FormRate(f: Form): real {
    if f.gstMode == NoGst then 0.0 else f.gstRate.GetOr(0.18)
  }

  /** Whether the prorated bills replace the typed amounts. */
  predicate Prorated(f: Form) {
    f.billingType == OneTime && PeriodDays(f) > 0
  }

  /** `totals`: the prorated branch on the bills' sum, else the typed branch on the lines' sums. */
  function FormTotals(f: Form): Totals {
    var rate := FormRate(f);
    var extra := ToNum(f.extraAmount);
    if Prorated(f) then ProratedBranch(f.gstMode, Sum(PeriodBills(f)), extra, rate)
    else
      var sumExclusive := if f.gstMode == Inclusive then 0.0 else FieldSum(f.lineItems, false);
      var sumInclusive := if f.gstMode != Inclusive then 0.0 else FieldSum(f.lineItems, true);
      TypedBranch(f.gstMode, sumExclusive, sumInclusive, extra, rate)
  }

  /**
   * The prorated branch. INCLUSIVE is the inclusive formula; EXCLUSIVE and
   * NOGST share the exclusive code, NOGST with no GST, so its total is
   * `round2(subtotal + 0)`.
   */
  function ProratedBranch(mode: GstMode, sum: real, extra: real, rate: real): Totals {
    if mode == Inclusive then InclusiveTotals(WithEpsilon, sum + extra, rate)
    else if mode == NoGst then
      var subtotal := Round2(sum + extra);
      Totals(subtotal, 0.0, Round2(subtotal + 0.0))
    else ExclusiveTotals(WithEpsilon, sum + extra, rate)
  }

  /** The branch on the typed amounts: each mode's formula on that mode's sum. */
  function TypedBranch(mode: GstMode, sumExclusive: real, sumInclusive: real, extra: real, rate: real): Totals {
    match mode
    case Exclusive => ExclusiveTotals(WithEpsilon, sumExclusive + extra, rate)
    case Inclusive => InclusiveTotals(WithEpsilon, sumInclusive + extra, rate)
    case NoGst => NoGstTotals(WithEpsilon, sumExclusive + extra)
  }

  /** The amount the preview prices: the bills or the active mode's line amounts, plus the extra amount. */
  function PreviewAmount(f: Form): real {
    (if Prorated(f) then Sum(PeriodBills(f)) else FieldSum(f.lineItems, f.gstMode == Inclusive)) + ToNum(f.extraAmount)
  }

  /** The preview is the server's three-mode formula applied to what the form prices, at the form's rate. */
  lemma FormTotalsAreModeTotals(f: Form)
    ensures FormTotals(f) == ModeTotals(WithEpsilon, f.gstMode, PreviewAmount(f), FormRate(f))
  {
    var extra, rate := ToNum(f.extraAmount), FormRate(f);
    if Prorated(f) {
      var sum := Sum(PeriodBills(f));
      assert PreviewAmount(f) == sum + extra;
      ProratedBranchIsModeTotals(f.gstMode, sum, extra, rate);
    } else {
      var ex, inc := FieldSum(f.lineItems, false), FieldSum(f.lineItems, true);
      assert PreviewAmount(f) == (if f.gstMode == Inclusive then inc else ex) + extra;
      TypedBranchIsModeTotals(f.gstMode, ex, inc, extra, rate);
    }
  }

  /** The typed branch is the three-mode formula on the sum of the mode's own field. */
  lemma TypedBranchIsModeTotals(mode: GstMode, ex: real, inc: real, extra: real, rate: real)
    ensures TypedBranch(mode, if mode == Inclusive then 0.0 else ex, if mode != Inclusive then 0.0 else inc, extra, rate)
         == ModeTotals(WithEpsilon, mode, (if mode == Inclusive then inc else ex) + extra, rate)
  {
  }

  /** The prorated branch is the three-mode formula: NOGST's `round2(subtotal + 0)` is the subtotal. */
  lemma ProratedBranchIsModeTotals(mode: GstMode, sum: real, extra: real, rate: real)
    ensures ProratedBranch(mode, sum, extra, rate) == ModeTotals(WithEpsilon, mode, sum + extra, rate)
  {
    if mode == NoGst {
      var subtotal := Round2(sum + extra);
      assert subtotal + 0.0 == subtotal;
      Round2OfCents(subtotal);
    }
  }

  /** So the preview reconciles: subtotal plus GST is the total. */
  lemma FormTotalsReconcile(f: Form)
    ensures Reconciled(FormTotals(f))
  {
    FormTotalsAreModeTotals(f);
    ModeTotalsReconcile(WithEpsilon, f.gstMode, PreviewAmount(f), FormRate(f));
  }

  // ---- validation ----

  datatype FormError = ClientRequired | LinesRequired | DescriptionRequired(line: nat) | AmountInvalid(line: nat)

  /** A line passes: a non-blank description and a non-negative amount in the active mode. */
  predicate LineOk(mode: GstMode, li: FormLine) {
    Trim(li.description) != "" && ActiveAmount(mode, li) >= 0.0
  }

  /**
   * `validate`: a client (the form's or the selected one), at least one line,
   * then line by line a non-blank description and a non-negative amount; the
   * first failure is reported with its 1-based line number.
   */
  method Validate(f: Form, selected: Option<nat>) returns (r: Option<FormError>)
    ensures r.None? <==> ((f.clientId.Some? || selected.Some?) && |f.lineItems| > 0
      && forall i :: 0 <= i < |f.lineItems| ==> LineOk(f.gstMode, f.lineItems[i]))
    ensures r == Some(ClientRequired) <==> f.clientId.None? && selected.None?
    ensures r == Some(LinesRequired) <==> (f.clientId.Some? || selected.Some?) && |f.lineItems| == 0
    ensures r.Some? && r.value.DescriptionRequired? ==>
      var n := r.value.line;
      && 1 <= n <= |f.lineItems| && Trim(f.lineItems[n - 1].description) == ""
      && forall i :: 0 <= i < n - 1 ==> LineOk(f.gstMode, f.lineItems[i])
    ensures r.Some? && r.value.AmountInvalid? ==>
      var n := r.value.line;
      && 1 <= n <= |f.lineItems| && Trim(f.lineItems[n - 1].description) != ""
      && ActiveAmount(f.gstMode, f.lineItems[n - 1]) < 0.0
      && forall i :: 0 <= i < n - 1 ==> LineOk(f.gstMode, f.lineItems[i])
  {
    if f.clientId.None? && selected.None? {
      return Some(ClientRequired);
    }
    if |f.lineItems| == 0 {
      return Some(LinesRequired);
    }
    var i := 0;
    while i < |f.lineItems|
      invariant 0 <= i <= |f.lineItems|
      invariant forall k :: 0 <= k < i ==> LineOk(f.gstMode, f.lineItems[k])
    {
      var li := f.lineItems[i];
      assert li == f.lineItems[(i + 1) - 1];
      if Trim(li.description) == "" {
        return Some(DescriptionRequired(i + 1));
      }
      var val := ActiveAmount(f.gstMode, li);
      if !(val >= 0.0) {
        return Some(AmountInvalid(i + 1));
      }
      i := i + 1;
    }
    return None;
  }

  // ---- line edits ----

  /** The line `addLine` appends: an empty description and a zero amount in the field of the current mode. */
  function NewLine(mode: GstMode): FormLine {
    if mode == Inclusive then FormLine("", Absent, Num(0.0)) else FormLine("", Num(0.0), Absent)
  }

  function AddLine(f: Form): (r: Form)
    ensures r.lineItems == f.lineItems + [NewLine(f.gstMode)]
    ensures r == f.(lineItems := r.lineItems)
  {
    f.(lineItems := f.lineItems + [NewLine(f.gstMode)])
  }

  /** The one-key patches the inputs send to `updateLine`. */
  datatype LinePatch = SetDescription(d: string) | SetExcl(x: Field) | SetIncl(x: Field)

  /** `{ ...li, ...patch }`. */
  function Patched(li: FormLine, p: LinePatch): FormLine {
    match p
    case SetDescription(d) => li.(description := d)
    case SetExcl(x) => li.(amountExclGst := x)
    case SetIncl(x) => li.(amountInclGst := x)
  }

  function UpdateLine(f: Form, i: int, p: LinePatch): (r: Form)
    ensures |r.lineItems| == |f.lineItems| && r == f.(lineItems := r.lineItems)
    ensures forall k :: 0 <= k < |f.lineItems| && k != i ==> r.lineItems[k] == f.lineItems[k]
    ensures 0 <= i < |f.lineItems| ==> r.lineItems[i] == Patched(f.lineItems[i], p)
  {
    f.(lineItems := UpdateAt(f.lineItems, i, li => Patched(li, p)))
  }

  function RemoveLine(f: Form, i: int): (r: Form)
    ensures 0 <= i < |f.lineItems| ==> r.lineItems == f.lineItems[..i] + f.lineItems[i + 1..]
    ensures !(0 <= i < |f.lineItems|) ==> r == f
    ensures r == f.(lineItems := r.lineItems)
  {
    RemoveAtSpec(f.lineItems, i);
    f.(lineItems := RemoveAt(f.lineItems, i))
  }

  lemma {:induction false} FieldSumAppend(a: seq<FormLine>, b: seq<FormLine>, incl: bool)
    ensures FieldSum(a + b, incl) == FieldSum(a, incl) + FieldSum(b, incl)
    decreases |b|
  {
    if b == [] {
      assert a + b == a;
    } else {
      var b' := b[..|b| - 1];
      assert (a + b)[..|a + b| - 1] == a + b';
      FieldSumAppend(a, b', incl);
    }
  }

  lemma {:induction false} SumAppend(a: seq<real>, b: seq<real>)
    ensures Sum(a + b) == Sum(a) + Sum(b)
    decreases |b|
  {
    if b == [] {
      assert a + b == a;
    } else {
      var b' := b[..|b| - 1];
      assert (a + b)[..|a + b| - 1] == a + b';
      SumAppend(a, b');
    }
  }

  /** The new line is worth nothing, so adding it leaves the preview as it was. */
  lemma AddLineKeepsTotals(f: Form)
    ensures FormTotals(AddLine(f)) == FormTotals(f)
  {
    AddLinePreview(f);
    FormTotalsAreModeTotals(f);
    FormTotalsAreModeTotals(AddLine(f));
  }

  lemma AddLinePreview(f: Form)
    ensures PreviewAmount(AddLine(f)) == PreviewAmount(f) && FormRate(AddLine(f)) == FormRate(f)
  {
    var g := AddLine(f);
    assert PeriodDays(g) == PeriodDays(f);
    if Prorated(f) {
      AddLineBills(f);
    } else {
      FieldSumAppend(f.lineItems, [NewLine(f.gstMode)], f.gstMode == Inclusive);
      assert FieldSum([NewLine(f.gstMode)], f.gstMode == Inclusive) == 0.0 by {
        assert [NewLine(f.gstMode)][..0] == [];
      }
    }
  }

  /** Nothing prorated is nothing. */
  lemma ProrateZero(monthDays: nat, days: nat)
    requires monthDays > 0
    ensures Prorate(0.0, monthDays, days) == 0.0
  {
    var m, d := monthDays as real, days as real;
    assert 0.0 / m == 0.0;
    assert 0.0 * d == 0.0;
  }

  lemma AddLineBills(f: Form)
    requires Prorated(f)
    ensures Sum(PeriodBills(AddLine(f))) == Sum(PeriodBills(f))
  {
    var g := AddLine(f);
    assert PeriodDays(g) == PeriodDays(f);
    var bills := PeriodBills(f);
    var last := PeriodBill(0.0, MonthDays(f.periodStart.value), PeriodDays(f));
    assert last == 0.0 by {
      ProrateZero(MonthDays(f.periodStart.value), PeriodDays(f));
      CentsOfInt(0);
      Round2OfCents(0.0);
    }
    assert PeriodBills(g) == bills + [last];
    SumAppend(bills, [last]);
    assert Sum([last]) == 0.0 by {
      assert [last][..0] == [];
    }
  }

  /** Outside a prorated period, removing a line takes exactly its active amount off what the preview prices. */
  lemma RemoveLineAmount(f: Form, i: nat)
    requires i < |f.lineItems| && !Prorated(f)
    ensures PreviewAmount(RemoveLine(f, i)) == PreviewAmount(f) - ActiveAmount(f.gstMode, f.lineItems[i])
  {
    var lines := f.lineItems;
    var incl := f.gstMode == Inclusive;
    var g := RemoveLine(f, i);
    assert !Prorated(g) by {
      assert PeriodDays(g) == PeriodDays(f);
    }
    assert lines == lines[..i] + [lines[i]] + lines[i + 1..];
    FieldSumAppend(lines[..i] + [lines[i]], lines[i + 1..], incl);
    FieldSumAppend(lines[..i], [lines[i]], incl);
    FieldSumAppend(lines[..i], lines[i + 1..], incl);
    assert [lines[i]][..0] == [];
    assert FieldSum([lines[i]], incl) == ActiveAmount(f.gstMode, lines[i]);
  }

  // ---- switching the GST mode ----

  /**
   * The mode-switch rewrite of a line: the new mode's field takes its own
   * value, else the other field's, else 0, and the other field is dropped.
   */
  function Switched(m: GstMode, li: FormLine): FormLine {
    if m == Inclusive then FormLine(li.description, Absent, Coalesce(Coalesce(li.amountInclGst, li.amountExclGst), Num(0.0)))
    else FormLine(li.description, Coalesce(Coalesce(li.amountExclGst, li.amountInclGst), Num(0.0)), Absent)
  }

  function SwitchMode(f: Form, m: GstMode): (r: Form)
    ensures r == f.(gstMode := m, lineItems := r.lineItems)
    ensures |r.lineItems| == |f.lineItems| && forall i :: 0 <= i < |f.lineItems| ==> r.lineItems[i] == Switched(m, f.lineItems[i])
  {
    f.(gstMode := m, lineItems := seq(|f.lineItems|, i requires 0 <= i < |f.lineItems| => Switched(m, f.lineItems[i])))
  }

  /** A line holds only the field of mode `m`. */
  predicate Shaped(m: GstMode, li: FormLine) {
    if m == Inclusive then li.amountExclGst.Absent? && !li.amountInclGst.Absent?
    else li.amountInclGst.Absent? && !li.amountExclGst.Absent?
  }

  /**
   * After a switch every line holds only the new mode's field and keeps its
   * description; the amount carried is the line's own amount for that mode
   * when it had one, else the other mode's.
   */
  lemma SwitchSpec(f: Form, m: GstMode, i: nat)
    requires i < |f.lineItems|
    ensures var li, r := f.lineItems[i], SwitchMode(f, m).lineItems[i];
      && Shaped(m, r) && r.description == li.description
      && ActiveAmount(m, r) == (if m == Inclusive then
           (if li.amountInclGst.Absent? then FieldNum(li.amountExclGst) else FieldNum(li.amountInclGst))
         else
           (if li.amountExclGst.Absent? then FieldNum(li.amountInclGst) else FieldNum(li.amountExclGst)))
  {
  }

  /** Switching a well-shaped line to the other side and back restores it. */
  lemma SwitchRoundTrip(li: FormLine, m: GstMode, n: GstMode)
    requires Shaped(m, li)
    ensures Switched(m, Switched(n, li)) == li
  {
  }

  // ---- the request body ----

  /** `periodBills[idx] || 0`, read safely. */
  function BillAt(bills: seq<real>, idx: int): real {
    if 0 <= idx < |bills| then bills[idx] else 0.0
  }

  /** One line as sent: the prorated bill or the typed amount in the active field, nothing in the other. */
  function PayloadLine(f: Form, li: FormLine, idx: int): LineItem {
    var bill := BillAt(PeriodBills(f), idx);
    LineItem(li.description, None, None, None,
      if f.gstMode != Inclusive && Prorated(f) then Some(bill)
      else if f.gstMode != Inclusive then Some(FieldNum(li.amountExclGst))
      else None,
      if f.gstMode == Inclusive && Prorated(f) then Some(bill)
      else if f.gstMode == Inclusive then Some(FieldNum(li.amountInclGst))
      else None)
  }

  /**
   * The body of the create request. The rate is sent only outside NOGST and
   * when typed; an empty remark is left out.
   */
  function Payload(f: Form, selected: Option<nat>): InvoiceRequest
    requires f.clientId.Some? || selected.Some?
  {
    InvoiceRequest(
      if f.clientId.Some? then f.clientId.value else selected.value,
      f.issueDate, f.periodStart, f.periodEnd,
      seq(|f.lineItems|, i requires 0 <= i < |f.lineItems| => PayloadLine(f, f.lineItems[i], i)),
      Some(ToNum(f.extraAmount)),
      if f.remarks == "" then None else Some(f.remarks),
      f.gstMode,
      if f.gstMode != NoGst && f.gstRate.Some? then f.gstRate else None)
  }

  /** The server prices at the rate the form previews: the typed one, or the same 0.18 default. */
  lemma PayloadRate(f: Form, selected: Option<nat>)
    requires f.clientId.Some? || selected.Some?
    ensures InvoiceRate(Payload(f, selected)) == FormRate(f)
  {
  }

  /** The active amount a sent line carries (what the invoice PDF shows for it). */
  function StoredAmount(mode: GstMode, li: LineItem): real {
    ToNum(if mode == Inclusive then li.amountInclGst else li.amountExclGst)
  }

  function StoredSum(mode: GstMode, items: seq<LineItem>): real
    decreases |items|
  {
    if items == [] then 0.0 else StoredSum(mode, items[..|items| - 1]) + StoredAmount(mode, items[|items| - 1])
  }

  /** The sent lines carry, in the active field, exactly the amounts the preview priced. */
  lemma PayloadCarriesPreview(f: Form, selected: Option<nat>)
    requires f.clientId.Some? || selected.Some?
    ensures StoredSum(f.gstMode, Payload(f, selected).lineItems) + ToNum(f.extraAmount) == PreviewAmount(f)
  {
    var items := Payload(f, selected).lineItems;
    if Prorated(f) {
      PrefixStoredBills(f, items, |items|);
      assert items[..|items|] == items;
      assert PeriodBills(f)[..|items|] == PeriodBills(f);
    } else {
      PrefixStoredFields(f, items, |items|);
      assert items[..|items|] == items;
      assert f.lineItems[..|items|] == f.lineItems;
    }
  }

  lemma {:induction false} PrefixStoredBills(f: Form, items: seq<LineItem>, n: nat)
    requires Prorated(f) && |items| == |f.lineItems| && n <= |items|
    requires forall i :: 0 <= i < |items| ==> items[i] == PayloadLine(f, f.lineItems[i], i)
    ensures StoredSum(f.gstMode, items[..n]) == Sum(PeriodBills(f)[..n])
    decreases n
  {
    if n > 0 {
      PrefixStoredBills(f, items, n - 1);
      assert items[..n][..n - 1] == items[..n - 1];
      assert PeriodBills(f)[..n][..n - 1] == PeriodBills(f)[..n - 1];
    }
  }

  lemma {:induction false} PrefixStoredFields(f: Form, items: seq<LineItem>, n: nat)
    requires !Prorated(f) && |items| == |f.lineItems| && n <= |items|
    requires forall i :: 0 <= i < |items| ==> items[i] == PayloadLine(f, f.lineItems[i], i)
    ensures StoredSum(f.gstMode, items[..n]) == FieldSum(f.lineItems[..n], f.gstMode == Inclusive)
    decreases n
  {
    if n > 0 {
      PrefixStoredFields(f, items, n - 1);
      assert items[..n][..n - 1] == items[..n - 1];
      assert f.lineItems[..n][..n - 1] == f.lineItems[..n - 1];
    }
  }

  /**
   * What the server makes of the body: `createInvoice` sums only unit prices,
   * which the form never sends, so the stored totals price the extra amount
   * alone whatever the lines hold; the preview agrees with the stored invoice
   * only when the lines add up to nothing.
   */
  lemma PayloadPricesOnlyExtra(f: Form, selected: Option<nat>)
    requires f.clientId.Some? || selected.Some?
    ensures InvoiceTotals(Payload(f, selected)) == ModeTotals(WithEpsilon, f.gstMode, ToNum(f.extraAmount), FormRate(f))
  {
    var req := Payload(f, selected);
    LinesWithoutPricesSumToZero(req.lineItems);
    PayloadRate(f, selected);
  }
}
