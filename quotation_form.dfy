/**
 * The quotation page of the browser client (client/src/pages/QuotationsPage.jsx):
 * its list of line items, the live totals preview it shows while the user
 * types, the guard on "create" and the body it posts to the quotation
 * service. The preview is a third copy of the GST formula: it sums the raw
 * unit prices (no per-line rounding, no discount) and rounds without the
 * epsilon nudge, so it can show a cent less than the stored quotation.
 */
module QuotationForm {
  import opened Wrappers
  import opened Money
  import opened Pricing
  import opened InvoiceController
  import opened Quotations
  import opened Lists

  /** The page's state that the preview and the request read. */
  datatype QuoteForm = QuoteForm(
    clientId: Option<nat>,
    recipient: Recipient,
    issueDate: Option<int>,
    validUntil: Option<int>,
    gstMode: GstMode,
    gstRate: real,
    items: seq<QuoteLine>,
    extraAmount: Option<real>,
    terms: string,
    notes: string)

  /* ------------------------------ line items ------------------------------ */

  /** The row "add item" appends: no description, quantity 1, both prices 0. */
  const DefaultItem: QuoteLine := QuoteLine("", Some(1.0), Some(0.0), Some(0.0), None, None, None)

  /** `addItem`. */
  function AddItem(items: seq<QuoteLine>): (r: seq<QuoteLine>)
    ensures |r| == |items| + 1 && r[..|items|] == items && r[|items|] == DefaultItem
  {
    items + [DefaultItem]
  }

  /** `changeItem(idx, next)`: the row at `idx` becomes `next`; an index off the list changes nothing. */
  function ChangeItem(items: seq<QuoteLine>, idx: int, next: QuoteLine): (r: seq<QuoteLine>)
    ensures |r| == |items|
    ensures forall i :: 0 <= i < |items| && i != idx ==> r[i] == items[i]
    ensures 0 <= idx < |items| ==> r[idx] == next
  {
    UpdateAt(items, idx, _ => next)
  }

  /** `removeItem(idx)`: the rows other than the one at `idx`, in order. */
  function RemoveItem(items: seq<QuoteLine>, idx: int): (r: seq<QuoteLine>)
    ensures 0 <= idx < |items| ==> r == items[..idx] + items[idx + 1..]
    ensures !(0 <= idx < |items|) ==> r == items
  {
    RemoveAtSpec(items, idx);
    RemoveAt(items, idx)
  }

  /* -------------------------------- preview ------------------------------- */

  /** One row's share of the preview sum: the active unit price times the quantity (an empty or zero quantity counts 1). */
  function Contribution(line: QuoteLine, mode: GstMode): real {
    UnitPrice(line, mode) * Qty(line.qty)
  }

  /** The `reduce` of `computedTotals`: the rows' contributions added up, unrounded. */
  function PreviewSum(items: seq<QuoteLine>, mode: GstMode): real
    decreases |items|
  {
    if items == [] then 0.0 else PreviewSum(items[..|items| - 1], mode) + Contribution(items[|items| - 1], mode)
  }

  /** `computedTotals`: the shared formula on the sum plus the extra amount, with the preview's plain rounding and the page's rate. */
  function ComputedTotals(f: QuoteForm): (t: Totals)
    ensures Reconciled(t)
  {
    ModeTotalsReconcile(Plain, f.gstMode, PreviewAmount(f), f.gstRate);
    ModeTotals(Plain, f.gstMode, PreviewAmount(f), f.gstRate)
  }

  /** The preview sum splits over a concatenation of rows. */
  lemma {:induction false} PreviewSumAppend(a: seq<QuoteLine>, b: seq<QuoteLine>, mode: GstMode)
    ensures PreviewSum(a + b, mode) == PreviewSum(a, mode) + PreviewSum(b, mode)
    decreases |b|
  {
    if b == [] {
      assert a + b == a;
    } else {
      var init := b[..|b| - 1];
      assert (a + b)[..|a + b| - 1] == a + init;
      PreviewSumAppend(a, init, mode);
    }
  }

  lemma PreviewSumOne(line: QuoteLine, mode: GstMode)
    ensures PreviewSum([line], mode) == Contribution(line, mode)
  {
    assert [line][..0] == [];
  }

  /** The preview sum is the sum the invoice service would form from the same rows. */
  lemma {:induction false} PreviewIsInvoiceSum(items: seq<QuoteLine>, mode: GstMode)
    ensures PreviewSum(items, mode) == InvoiceLineSum(AsInvoiceLines(items), mode)
    decreases |items|
  {
    if items != [] {
      var init := items[..|items| - 1];
      var last := items[|items| - 1];
      PreviewIsInvoiceSum(init, mode);
      assert AsInvoiceLines(items) == AsInvoiceLines(init) + [AsInvoiceLine(last)];
      SumsAppend(AsInvoiceLines(init), [AsInvoiceLine(last)]);
      assert [AsInvoiceLine(last)][..0] == [];
    }
  }

  /** Adding a row leaves the preview as it was: the new row prices 0. */
  lemma AddItemKeepsPreview(items: seq<QuoteLine>, mode: GstMode)
    ensures PreviewSum(AddItem(items), mode) == PreviewSum(items, mode)
  {
    assert AddItem(items)[..|items|] == items;
  }

  /** Changing a row moves the preview sum by the difference of the two rows' contributions. */
  lemma ChangeItemPreview(items: seq<QuoteLine>, idx: int, next: QuoteLine, mode: GstMode)
    requires 0 <= idx < |items|
    ensures PreviewSum(ChangeItem(items, idx, next), mode)
      == PreviewSum(items, mode) - Contribution(items[idx], mode) + Contribution(next, mode)
  {
    var pre, post := items[..idx], items[idx + 1..];
    assert items == pre + [items[idx]] + post;
    assert ChangeItem(items, idx, next) == pre + [next] + post;
    PreviewSumAppend(pre + [items[idx]], post, mode);
    PreviewSumAppend(pre, [items[idx]], mode);
    PreviewSumAppend(pre + [next], post, mode);
    PreviewSumAppend(pre, [next], mode);
    PreviewSumOne(items[idx], mode);
    PreviewSumOne(next, mode);
  }

  /** Removing a row takes exactly its contribution off the preview sum. */
  lemma RemoveItemPreview(items: seq<QuoteLine>, idx: int, mode: GstMode)
    requires 0 <= idx < |items|
    ensures PreviewSum(RemoveItem(items, idx), mode) == PreviewSum(items, mode) - Contribution(items[idx], mode)
  {
    var pre, post := items[..idx], items[idx + 1..];
    assert items == pre + [items[idx]] + post;
    PreviewSumAppend(pre + [items[idx]], post, mode);
    PreviewSumAppend(pre, [items[idx]], mode);
    PreviewSumAppend(pre, post, mode);
    PreviewSumOne(items[idx], mode);
  }

  /* ------------------------------- creating ------------------------------- */

  /** The guard of `createQuotation`: at least one row, and the first row has a description. */
  predicate CanCreate(f: QuoteForm) {
    |f.items| > 0 && f.items[0].description != ""
  }

  /** The posted body: the rows as they are, the page's rate, the extra amount as a number (empty is 0). */
  function Body(f: QuoteForm): (req: QuotationRequest)
    ensures req.lineItems == Some(f.items) && req.gstMode == f.gstMode
    ensures req.extraAmount.Some? && req.extraAmount.value == ToNum(f.extraAmount)
    ensures req.markSentTo == []
  {
    QuotationRequest(f.clientId, f.recipient, f.issueDate, f.validUntil, f.gstMode, Some(f.gstRate),
      Some(f.items), Some(ToNum(f.extraAmount)), Some(f.terms), Some(f.notes), [])
  }

  /** A body the guard lets through is never refused for missing lines. */
  lemma GuardedBodyHasLines(f: QuoteForm)
    requires CanCreate(f)
    ensures Body(f).lineItems.Some? && Body(f).lineItems != Some([])
    ensures RequestLines(Body(f)) == f.items
  {
  }

  /** The service prices the body at the page's rate, except in NOGST mode where it uses 0. */
  lemma BodyRate(f: QuoteForm)
    ensures f.gstMode != NoGst ==> QuoteRate(Body(f)) == f.gstRate
    ensures f.gstMode == NoGst ==> QuoteRate(Body(f)) == 0.0
  {
  }

  /** The amount the preview prices: its sum plus the extra amount. */
  function PreviewAmount(f: QuoteForm): real {
    PreviewSum(f.items, f.gstMode) + ToNum(f.extraAmount)
  }

  /** The amount the service prices for the posted body. */
  function StoredAmount(f: QuoteForm): real {
    QuoteLineSum(f.items, f.gstMode) + ToNum(f.extraAmount)
  }

  /**
   * When every row is undiscounted and already whole cents and so is the extra
   * amount, the service prices the very amount the preview shows, unrounded.
   */
  lemma AmountsAgree(f: QuoteForm)
    requires forall i :: 0 <= i < |f.items| ==> PlainLine(f.items[i], f.gstMode)
    requires IsCents(ToNum(f.extraAmount))
    ensures StoredAmount(f) == PreviewAmount(f) && IsCents(PreviewAmount(f))
  {
    WithoutDiscountsSumsAgree(f.items, f.gstMode);
    PreviewIsInvoiceSum(f.items, f.gstMode);
    QuoteLineSumCents(f.items, f.gstMode);
    CentsClosed(QuoteLineSum(f.items, f.gstMode), ToNum(f.extraAmount));
  }

  /**
   * Under the same conditions the preview and the stored quotation show the
   * same amount before tax (EXCLUSIVE and NOGST) or the same gross (INCLUSIVE);
   * in NOGST mode all three figures agree.
   */
  lemma PreviewMatchesStored(f: QuoteForm)
    requires forall i :: 0 <= i < |f.items| ==> PlainLine(f.items[i], f.gstMode)
    requires IsCents(ToNum(f.extraAmount))
    ensures f.gstMode != Inclusive ==> ComputedTotals(f).subtotalExclGst == QuoteTotals(Body(f)).subtotalExclGst
    ensures f.gstMode == Inclusive ==> ComputedTotals(f).totalInclGst == QuoteTotals(Body(f)).totalInclGst
    ensures f.gstMode == NoGst ==> ComputedTotals(f) == QuoteTotals(Body(f))
  {
    AmountsAgree(f);
    var x := PreviewAmount(f);
    assert QuoteAmount(Body(f)) == x;
    Round2OfCents(x);
    RoundPlainOfCents(x);
  }

  /** A NOGST page holding one row of quantity 1 at unit price `p`, with nothing else on it. */
  function OneRowForm(p: real): QuoteForm {
    QuoteForm(None, Recipient(None, None, None, None, None), None, None, NoGst, 0.18,
      [QuoteLine("setup", Some(1.0), Some(p), None, None, None, None)], None, "", "")
  }

  /** Such a page previews the plain rounding of `p`. */
  lemma OneRowPreview(p: real)
    ensures ComputedTotals(OneRowForm(p)).totalInclGst == RoundPlain(p)
  {
    var f := OneRowForm(p);
    PreviewSumOne(f.items[0], NoGst);
    assert PreviewAmount(f) == p;
  }

  /** The service stores for it the line rounded, then the total rounded again. */
  lemma OneRowStored(p: real)
    ensures QuoteTotals(Body(OneRowForm(p))).totalInclGst == Round2(Round2(p))
  {
    var f := OneRowForm(p);
    var line := f.items[0];
    assert [line][..0] == [];
    assert LineNet(line, NoGst) == Round2(p);
    assert RequestLines(Body(f)) == [line];
    assert QuoteLineSum([line], NoGst) == Round2(p);
    assert QuoteAmount(Body(f)) == Round2(p);
  }

  /** The page whose single NOGST row priced just under half a cent. */
  function HalfCentForm(): QuoteForm {
    OneRowForm(0.005 - Epsilon)
  }

  /** The two roundings part: that page previews a total of 0 while the service stores 0.01. */
  lemma PreviewCanShowLess()
    ensures CanCreate(HalfCentForm())
    ensures ComputedTotals(HalfCentForm()).totalInclGst == 0.0
    ensures QuoteTotals(Body(HalfCentForm())).totalInclGst == 0.01
  {
    OneRowPreview(0.005 - Epsilon);
    OneRowStored(0.005 - Epsilon);
    EpsilonMatters();
    CentsOfInt(1);
    Round2OfCents(0.01);
  }
}
