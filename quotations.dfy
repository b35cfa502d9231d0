/**
 * Quotations (models/Quotation.js, controllers/quotationController.js): a
 * priced offer with its own number sequence, a status that moves from DRAFT to
 * SENT when it is sent to recipients, and a conversion into an invoice.
 */
module Quotations {
  import opened Wrappers
  import opened Money
  import opened Pricing
  import opened QuoteNumber
  import opened Books
  import opened Ledger
  import opened InvoiceNumber
  import opened InvoiceController

  datatype QuoteStatus = Draft | Sent | Accepted | Rejected | Expired

  datatype Recipient = Recipient(
    name: Option<string>,
    email: Option<string>,
    phone: Option<string>,
    company: Option<string>,
    address: Option<string>)

  /** A line as sent by the caller; `frequency` becomes the stored `BillingType`. */
  datatype QuoteLine = QuoteLine(
    description: string,
    qty: Option<real>,
    unitPriceExclGst: Option<real>,
    unitPriceInclGst: Option<real>,
    frequency: Option<BillingType>,
    discount: Option<real>,
    originalAmount: Option<real>)

  /** A stored line: the quantity defaults to 1 and the discount is a number. */
  datatype QuoteItem = QuoteItem(
    description: string,
    qty: real,
    unitPriceExclGst: Option<real>,
    unitPriceInclGst: Option<real>,
    billingType: BillingType,
    discount: real,
    originalAmount: Option<real>)

  datatype Quotation = Quotation(
    clientId: Option<nat>,
    quoteNo: string,
    issueDate: int,
    validUntil: Option<int>,
    recipient: Recipient,
    lineItems: seq<QuoteItem>,
    extraAmount: real,
    gstMode: GstMode,
    gstRate: real,
    totals: Totals,
    terms: Option<string>,
    notes: Option<string>,
    status: QuoteStatus,
    sentTo: seq<string>,
    sentAt: Option<int>,
    pdfPath: Option<string>)

  /** The request body; `lineItems` is `None` when it is not an array. */
  datatype QuotationRequest = QuotationRequest(
    clientId: Option<nat>,
    recipient: Recipient,
    issueDate: Option<int>,
    validUntil: Option<int>,
    gstMode: GstMode,
    gstRate: Option<real>,
    lineItems: Option<seq<QuoteLine>>,
    extraAmount: Option<real>,
    terms: Option<string>,
    notes: Option<string>,
    markSentTo: seq<string>)

  datatype QuotationError = LineItemsRequired | ValidationFailed | QuotationNotFound | ClientRequiredToConvert | ConvertedInvoiceFailed(cause: InvoiceError)

  /** The unit price the active mode reads: `unitPriceInclGst` in INCLUSIVE mode, `unitPriceExclGst` otherwise. */
  function UnitPrice(line: QuoteLine, mode: GstMode): real {
    ToNum(if mode == Inclusive then line.unitPriceInclGst else line.unitPriceExclGst)
  }

  /** The discounted unit price `per - discount`, the discount defaulting to 0. */
  function NetPrice(line: QuoteLine, mode: GstMode): real {
    UnitPrice(line, mode) - ToNum(line.discount)
  }

  /** `round2(net * qty)`: a discounted unit price times a quantity, to the cent. */
  function LineAmount(net: real, qty: real): (r: real)
    ensures IsCents(r)
  {
    Round2(net * qty)
  }

  /** One line's contribution: its discounted unit price times its quantity, rounded. */
  function LineNet(line: QuoteLine, mode: GstMode): (r: real)
    ensures IsCents(r)
  {
    LineAmount(NetPrice(line, mode), Qty(line.qty))
  }

  /** The active mode's line sum: the lines' rounded net amounts added up. */
  function QuoteLineSum(lines: seq<QuoteLine>, mode: GstMode): real
    decreases |lines|
  {
    if lines == [] then 0.0 else QuoteLineSum(lines[..|lines| - 1], mode) + LineNet(lines[|lines| - 1], mode)
  }

  /** Every line is whole cents, so their sum is. */
  lemma {:induction false} QuoteLineSumCents(lines: seq<QuoteLine>, mode: GstMode)
    ensures IsCents(QuoteLineSum(lines, mode))
    decreases |lines|
  {
    if lines == [] {
      CentsOfInt(0);
    } else {
      QuoteLineSumCents(lines[..|lines| - 1], mode);
      CentsClosed(QuoteLineSum(lines[..|lines| - 1], mode), LineNet(lines[|lines| - 1], mode));
    }
  }

  /**
   * The loop of `createQuotation` over the lines: each line adds its rounded
   * net amount to `sumInclusive` in INCLUSIVE mode and to `sumExclusive`
   * otherwise, so the other sum stays 0.
   */
  method AccumulateLines(lines: seq<QuoteLine>, mode: GstMode) returns (sumExclusive: real, sumInclusive: real)
    ensures sumInclusive == if mode == Inclusive then QuoteLineSum(lines, mode) else 0.0
    ensures sumExclusive == if mode == Inclusive then 0.0 else QuoteLineSum(lines, mode)
  {
    sumExclusive, sumInclusive := 0.0, 0.0;
    var i := 0;
    while i < |lines|
      invariant 0 <= i <= |lines|
      invariant sumInclusive == if mode == Inclusive then QuoteLineSum(lines[..i], mode) else 0.0
      invariant sumExclusive == if mode == Inclusive then 0.0 else QuoteLineSum(lines[..i], mode)
    {
      assert lines[..i + 1][..i] == lines[..i];
      assert QuoteLineSum(lines[..i + 1], mode) == QuoteLineSum(lines[..i], mode) + LineNet(lines[i], mode);
      var it := lines[i];
      var qty := Qty(it.qty);
      var discount := ToNum(it.discount);
      if mode == Inclusive {
        var per := ToNum(it.unitPriceInclGst);
        var net := per - discount;
        sumInclusive := sumInclusive + LineAmount(net, qty);
      } else {
        var per := ToNum(it.unitPriceExclGst);
        var net := per - discount;
        sumExclusive := sumExclusive + LineAmount(net, qty);
      }
      i := i + 1;
    }
    assert lines[..i] == lines;
  }

  /** The lines of the request, or none when it sent no array. */
  function RequestLines(req: QuotationRequest): seq<QuoteLine> {
    req.lineItems.GetOr([])
  }

  function QuoteRate(req: QuotationRequest): real {
    GstRateFor(req.gstMode, req.gstRate)
  }

  /** The quotation's totals: the invoice formula applied to the discounted line sum plus the extra amount. */
  function QuoteTotals(req: QuotationRequest): (t: Totals)
    ensures Reconciled(t)
  {
    ModeTotalsReconcile(WithEpsilon, req.gstMode, QuoteAmount(req), QuoteRate(req));
    ModeTotals(WithEpsilon, req.gstMode, QuoteAmount(req), QuoteRate(req))
  }

  /** The amount a quotation prices: its discounted line sum plus the extra amount. */
  function QuoteAmount(req: QuotationRequest): real {
    QuoteLineSum(RequestLines(req), req.gstMode) + ToNum(req.extraAmount)
  }

  /** The line the invoice form of a quotation line would be: same description, quantity and unit prices. */
  function AsInvoiceLine(line: QuoteLine): LineItem {
    LineItem(line.description, line.qty, line.unitPriceExclGst, line.unitPriceInclGst, None, None)
  }

  function AsInvoiceLines(lines: seq<QuoteLine>): (r: seq<LineItem>)
    ensures |r| == |lines| && forall i :: 0 <= i < |lines| ==> r[i] == AsInvoiceLine(lines[i])
  {
    seq(|lines|, i requires 0 <= i < |lines| => AsInvoiceLine(lines[i]))
  }

  /** A line without discount whose amount is already whole cents. */
  predicate PlainLine(line: QuoteLine, mode: GstMode) {
    ToNum(line.discount) == 0.0 && IsCents(UnitPrice(line, mode) * Qty(line.qty))
  }

  /** The invoice's line sum in the given mode. */
  function InvoiceLineSum(items: seq<LineItem>, mode: GstMode): real {
    if mode == Inclusive then SumIncl(items) else SumExcl(items)
  }

  /** A plain line contributes to the quotation what its invoice form contributes to the invoice. */
  lemma PlainLineNet(line: QuoteLine, mode: GstMode)
    requires PlainLine(line, mode)
    ensures LineNet(line, mode) == InvoiceLineSum([AsInvoiceLine(line)], mode)
  {
    LineAmountOfCents(UnitPrice(line, mode), Qty(line.qty));
    assert NetPrice(line, mode) == UnitPrice(line, mode);
    assert [AsInvoiceLine(line)][..0] == [];
    if mode == Inclusive {
      assert InvoiceLineSum([AsInvoiceLine(line)], mode) == SumIncl([AsInvoiceLine(line)]);
      assert SumIncl([AsInvoiceLine(line)]) == Qty(line.qty) * ToNum(line.unitPriceInclGst);
      SwapProduct(UnitPrice(line, mode), Qty(line.qty), ToNum(line.unitPriceInclGst));
    } else {
      assert InvoiceLineSum([AsInvoiceLine(line)], mode) == SumExcl([AsInvoiceLine(line)]);
      assert SumExcl([AsInvoiceLine(line)]) == Qty(line.qty) * ToNum(line.unitPriceExclGst);
      SwapProduct(UnitPrice(line, mode), Qty(line.qty), ToNum(line.unitPriceExclGst));
    }
  }

  lemma LineAmountOfCents(a: real, q: real)
    requires IsCents(a * q)
    ensures LineAmount(a, q) == a * q
  {
    Round2OfCents(a * q);
  }

  lemma SwapProduct(a: real, b: real, c: real)
    requires a == c
    ensures a * b == b * c
  {
  }

  /**
   * Where the quotation copy of the formula departs from the invoice copy: it
   * rounds each line and takes off a discount. Without discounts and with
   * lines that are already whole cents, the two line sums agree.
   */
  lemma {:induction false} WithoutDiscountsSumsAgree(lines: seq<QuoteLine>, mode: GstMode)
    requires forall i :: 0 <= i < |lines| ==> PlainLine(lines[i], mode)
    ensures QuoteLineSum(lines, mode) == InvoiceLineSum(AsInvoiceLines(lines), mode)
    decreases |lines|
  {
    if lines != [] {
      var init := lines[..|lines| - 1];
      var last := lines[|lines| - 1];
      assert forall i :: 0 <= i < |init| ==> init[i] == lines[i];
      WithoutDiscountsSumsAgree(init, mode);
      PlainLineNet(last, mode);
      assert AsInvoiceLines(lines) == AsInvoiceLines(init) + [AsInvoiceLine(last)];
      SumsAppend(AsInvoiceLines(init), [AsInvoiceLine(last)]);
    }
  }

  /** A discount on a line of positive quantity never makes it dearer. */
  lemma DiscountNeverRaises(line: QuoteLine, mode: GstMode)
    requires ToNum(line.discount) >= 0.0 && Qty(line.qty) > 0.0
    ensures LineNet(line, mode) <= LineAmount(UnitPrice(line, mode), Qty(line.qty))
  {
    LineAmountMonotone(NetPrice(line, mode), UnitPrice(line, mode), Qty(line.qty));
  }

  lemma LineAmountMonotone(a: real, b: real, q: real)
    requires a <= b && q > 0.0
    ensures LineAmount(a, q) <= LineAmount(b, q)
  {
    ProductBelow(a, b, q);
    Round2Monotone(a * q, b * q);
  }

  lemma ProductBelow(a: real, b: real, q: real)
    requires a <= b && q > 0.0
    ensures a * q <= b * q
  {
    assert b * q - a * q == (b - a) * q;
  }

  function StoredItem(line: QuoteLine): QuoteItem {
    QuoteItem(line.description, line.qty.GetOr(1.0), line.unitPriceExclGst, line.unitPriceInclGst,
      line.frequency.GetOr(OneTime), ToNum(line.discount), line.originalAmount)
  }

  function StoredItems(lines: seq<QuoteLine>): (r: seq<QuoteItem>)
    ensures |r| == |lines| && forall i :: 0 <= i < |lines| ==> r[i] == StoredItem(lines[i])
  {
    seq(|lines|, i requires 0 <= i < |lines| => StoredItem(lines[i]))
  }

  /**
   * The quotation `createQuotation` stores: SENT exactly when it is marked as
   * sent to someone (and then dated now), DRAFT otherwise.
   */
  function NewQuotation(req: QuotationRequest, client: Option<nat>, no: string, now: int): (q: Quotation)
    ensures q.quoteNo == no && q.clientId == client && q.totals == QuoteTotals(req) && Reconciled(q.totals)
    ensures q.status == Sent <==> req.markSentTo != []
    ensures q.status == Draft <==> req.markSentTo == []
    ensures q.sentTo == req.markSentTo && (q.sentAt.Some? <==> req.markSentTo != [])
    ensures |q.lineItems| == |RequestLines(req)|
  {
    Quotation(client, no, req.issueDate.GetOr(now), req.validUntil, req.recipient,
      StoredItems(RequestLines(req)), ToNum(req.extraAmount), req.gstMode, QuoteRate(req),
      QuoteTotals(req), req.terms, req.notes,
      if |req.markSentTo| > 0 then Sent else Draft,
      req.markSentTo,
      if |req.markSentTo| > 0 then Some(now) else None,
      None)
  }

  /**
   * `updateQuotationStatus` on one quotation: a given status is set first;
   * then, when there are addresses to add, they are appended, the quotation is
   * dated sent now, and a DRAFT becomes SENT. Nothing else changes.
   */
  function StatusUpdated(q: Quotation, status: Option<QuoteStatus>, addSentTo: seq<string>, now: int): (r: Quotation)
    ensures r.sentTo == q.sentTo + addSentTo
    ensures addSentTo == [] ==> r.status == status.GetOr(q.status) && r.sentAt == q.sentAt
    ensures addSentTo != [] ==> r.status != Draft && r.sentAt == Some(now)
    ensures addSentTo != [] && status.GetOr(q.status) != Draft ==> r.status == status.GetOr(q.status)
    ensures r == q.(status := r.status, sentTo := r.sentTo, sentAt := r.sentAt)
  {
    var s := status.GetOr(q.status);
    if addSentTo != [] then
      q.(status := if s == Draft then Sent else s, sentTo := q.sentTo + addSentTo, sentAt := Some(now))
    else
      q.(status := s)
  }

  /** `quoteNo` is `QTN-` and the 1-based position: what `nextQuoteNo` yields when it is the only writer. */
  predicate QuotesNumbered(quotes: seq<Quotation>) {
    forall i :: 0 <= i < |quotes| ==> quotes[i].quoteNo == QuoteNo(i + 1)
  }

  /** No two quotations share a number (the unique index on `quoteNo`). */
  predicate DistinctQuoteNos(quotes: seq<Quotation>) {
    forall i, j :: 0 <= i < j < |quotes| ==> quotes[i].quoteNo != quotes[j].quoteNo
  }

  /** The number of the most recently created quotation, if any. */
  function LastQuoteNo(quotes: seq<Quotation>): Option<string> {
    if quotes == [] then None else Some(quotes[|quotes| - 1].quoteNo)
  }

  /**
   * On numbered quotations the next number is the next position's, it is not
   * in use, and the quotations stay numbered once it is added.
   */
  lemma NextQuoteNoFresh(quotes: seq<Quotation>, q: Quotation)
    requires QuotesNumbered(quotes)
    requires q.quoteNo == NextQuoteNo(LastQuoteNo(quotes))
    ensures q.quoteNo == QuoteNo(|quotes| + 1)
    ensures forall i :: 0 <= i < |quotes| ==> quotes[i].quoteNo != q.quoteNo
    ensures QuotesNumbered(quotes + [q])
  {
    NextIsQuoteNo(quotes);
    forall i | 0 <= i < |quotes| ensures quotes[i].quoteNo != q.quoteNo {
      if quotes[i].quoteNo == q.quoteNo {
        QuoteNoInjective(i + 1, |quotes| + 1);
      }
    }
    AppendNumbered(quotes, q);
  }

  lemma NextIsQuoteNo(quotes: seq<Quotation>)
    requires QuotesNumbered(quotes)
    ensures NextQuoteNo(LastQuoteNo(quotes)) == QuoteNo(|quotes| + 1)
  {
    if quotes != [] {
      NextAfterQuoteNo(|quotes|);
    }
  }

  lemma AppendNumbered(quotes: seq<Quotation>, q: Quotation)
    requires QuotesNumbered(quotes) && q.quoteNo == QuoteNo(|quotes| + 1)
    ensures QuotesNumbered(quotes + [q])
  {
    var s := quotes + [q];
    forall i | 0 <= i < |s| ensures s[i].quoteNo == QuoteNo(i + 1) {
      if i < |quotes| { assert s[i] == quotes[i]; } else { assert s[i] == q; }
    }
  }

  predicate QuotesOk(quotes: seq<Quotation>) {
    forall i :: 0 <= i < |quotes| ==> Reconciled(quotes[i].totals)
  }

  /** Every stored line has a description: the item schema makes it required. */
  predicate ItemsDescribed(items: seq<QuoteItem>) {
    forall i :: 0 <= i < |items| ==> items[i].description != ""
  }

  /** Every requested line has a description. */
  predicate LinesDescribed(lines: seq<QuoteLine>) {
    forall i :: 0 <= i < |lines| ==> lines[i].description != ""
  }

  class QuotationBook {
    var quotes: seq<Quotation>

    ghost predicate Valid()
      reads this
    {
      QuotesOk(quotes) && DistinctQuoteNos(quotes)
    }

    constructor ()
      ensures Valid() && quotes == []
    {
      quotes := [];
    }

    /**
     * `Quotation.create`: the item schema refuses an undescribed line, and
     * then nothing is stored; the unique index refuses a number in use.
     */
    method Add(q: Quotation) returns (r: Option<nat>)
      requires Valid() && Reconciled(q.totals)
      requires forall i :: 0 <= i < |quotes| ==> quotes[i].quoteNo != q.quoteNo
      modifies this
      ensures Valid()
      ensures !ItemsDescribed(q.lineItems) ==> r.None? && unchanged(this)
      ensures ItemsDescribed(q.lineItems) ==> r == Some(|old(quotes)|) && quotes == old(quotes) + [q]
    {
      if !ItemsDescribed(q.lineItems) {
        return None;
      }
      r := Some(|quotes|);
      quotes := quotes + [q];
    }

    /** `qtn.save()` after fields other than the number and totals changed. */
    method Save(id: nat, q: Quotation)
      requires Valid() && id < |quotes| && q.quoteNo == quotes[id].quoteNo && q.totals == quotes[id].totals
      modifies this
      ensures Valid()
      ensures quotes == old(quotes)[id := q]
    {
      quotes := quotes[id := q];
      assert forall i :: 0 <= i < |quotes| ==>
        (quotes[i].quoteNo, quotes[i].totals) == (old(quotes)[i].quoteNo, old(quotes)[i].totals);
    }
  }

  /** The quotation's PDF is `<quoteNo>.pdf` in the uploads directory. */
  function PdfFile(no: string): string {
    no + ".pdf"
  }

  /**
   * `createQuotation`. Lines that are missing, not an array or empty are
   * refused; so, by the item schema, is a line without a description, and
   * then nothing is stored. A client id that is absent or unknown leaves the
   * quotation without a client. `clientCount` is the number of clients on the
   * books.
   */
  method CreateQuotation(book: QuotationBook, clientCount: nat, req: QuotationRequest, now: int) returns (r: Result<nat, QuotationError>)
    requires book.Valid() && QuotesNumbered(book.quotes)
    modifies book
    ensures book.Valid() && QuotesNumbered(book.quotes)
    ensures req.lineItems.None? || req.lineItems == Some([]) ==> r == Failure(LineItemsRequired) && unchanged(book)
    ensures req.lineItems.Some? && req.lineItems != Some([]) && !LinesDescribed(req.lineItems.value) ==>
      r == Failure(ValidationFailed) && unchanged(book)
    ensures req.lineItems.Some? && req.lineItems != Some([]) && LinesDescribed(req.lineItems.value) ==>
      var client := if req.clientId.Some? && req.clientId.value < clientCount then req.clientId else None;
      var q := NewQuotation(req, client, NextQuoteNo(LastQuoteNo(old(book.quotes))), now);
      && r == Success(|old(book.quotes)|)
      && book.quotes == old(book.quotes) + [q.(pdfPath := Some(PdfFile(q.quoteNo)))]
  {
    if req.lineItems.None? || |req.lineItems.value| == 0 {
      return Failure(LineItemsRequired);
    }
    var client := if req.clientId.Some? && req.clientId.value < clientCount then req.clientId else None;
    var totals := ComputeTotals(req);
    var no := NextQuoteNo(LastQuoteNo(book.quotes));
    var q := NewQuotation(req, client, no, now);
    assert ItemsDescribed(q.lineItems) <==> LinesDescribed(req.lineItems.value) by {
      assert q.lineItems == StoredItems(req.lineItems.value);
    }
    r := StoreQuotation(book, q);
  }

  /** The totals `createQuotation` computes: the line loop, then the invoice formula on its sum plus the extra amount. */
  method ComputeTotals(req: QuotationRequest) returns (totals: Totals)
    ensures totals == QuoteTotals(req)
  {
    var gstRate := GstRateFor(req.gstMode, req.gstRate);
    var sumExclusive, sumInclusive := AccumulateLines(RequestLines(req), req.gstMode);
    var amount := (if req.gstMode == Inclusive then sumInclusive else sumExclusive) + ToNum(req.extraAmount);
    assert amount == QuoteAmount(req);
    totals := ModeTotals(WithEpsilon, req.gstMode, amount, gstRate);
  }

  /**
   * `Quotation.create` with the next number, then the PDF path saved on it.
   * A quotation with an undescribed line is refused and nothing is stored.
   */
  method StoreQuotation(book: QuotationBook, q: Quotation) returns (r: Result<nat, QuotationError>)
    requires book.Valid() && QuotesNumbered(book.quotes) && Reconciled(q.totals)
    requires q.quoteNo == NextQuoteNo(LastQuoteNo(book.quotes))
    modifies book
    ensures book.Valid() && QuotesNumbered(book.quotes)
    ensures q.quoteNo == QuoteNo(|old(book.quotes)| + 1)
    ensures !ItemsDescribed(q.lineItems) ==> r == Failure(ValidationFailed) && unchanged(book)
    ensures ItemsDescribed(q.lineItems) ==>
      r == Success(|old(book.quotes)|) && book.quotes == old(book.quotes) + [q.(pdfPath := Some(PdfFile(q.quoteNo)))]
  {
    NextQuoteNoFresh(book.quotes, q);
    ghost var before := book.quotes;
    var added := book.Add(q);
    if added.None? {
      return Failure(ValidationFailed);
    }
    var id := added.value;
    var stored := q.(pdfPath := Some(PdfFile(q.quoteNo)));
    ReplaceLastNumbered(before, q, stored);
    book.Save(id, stored);
    r := Success(id);
  }

  /** Replacing the last quotation by one with the same number keeps the quotations numbered. */
  lemma ReplaceLastNumbered(quotes: seq<Quotation>, q: Quotation, q': Quotation)
    requires QuotesNumbered(quotes + [q]) && q'.quoteNo == q.quoteNo
    ensures (quotes + [q])[|quotes| := q'] == quotes + [q']
    ensures QuotesNumbered(quotes + [q'])
  {
    assert (quotes + [q])[|quotes| := q'] == quotes + [q'];
    var s := quotes + [q'];
    forall i | 0 <= i < |s| ensures s[i].quoteNo == QuoteNo(i + 1) {
      assert s[i].quoteNo == (quotes + [q])[i].quoteNo;
    }
  }

  /** `updateQuotationStatus`: an unknown id is NOT_FOUND; otherwise the one quotation is updated and returned. */
  method UpdateQuotationStatus(book: QuotationBook, id: nat, status: Option<QuoteStatus>, addSentTo: seq<string>, now: int)
      returns (r: Result<Quotation, QuotationError>)
    requires book.Valid()
    modifies book
    ensures book.Valid()
    ensures id >= |old(book.quotes)| ==> r == Failure(QuotationNotFound) && unchanged(book)
    ensures id < |old(book.quotes)| ==>
      && r == Success(StatusUpdated(old(book.quotes)[id], status, addSentTo, now))
      && book.quotes == old(book.quotes)[id := StatusUpdated(old(book.quotes)[id], status, addSentTo, now)]
  {
    if id >= |book.quotes| {
      return Failure(QuotationNotFound);
    }
    var q := StatusUpdated(book.quotes[id], status, addSentTo, now);
    book.Save(id, q);
    r := Success(q);
  }

  /**
   * The invoice line a quotation line becomes: its quantity (`0` and missing
   * taken as 1) and `round2(unitPrice * qty)` in the active mode's `amount`
   * field. No unit price is carried over.
   */
  function ConvertedItem(it: QuoteItem, mode: GstMode): (line: LineItem)
    ensures line.unitPriceExclGst.None? && line.unitPriceInclGst.None?
    ensures mode == Inclusive ==> line.amountExclGst.None? && line.amountInclGst.Some?
    ensures mode != Inclusive ==> line.amountInclGst.None? && line.amountExclGst.Some?
  {
    var qty := Qty(Some(it.qty));
    if mode == Inclusive then
      LineItem(it.description, Some(qty), None, None, None, Some(Round2(ToNum(it.unitPriceInclGst) * qty)))
    else
      LineItem(it.description, Some(qty), None, None, Some(Round2(ToNum(it.unitPriceExclGst) * qty)), None)
  }

  function ConvertedItems(items: seq<QuoteItem>, mode: GstMode): (r: seq<LineItem>)
    ensures |r| == |items| && forall i :: 0 <= i < |items| ==> r[i] == ConvertedItem(items[i], mode)
  {
    seq(|items|, i requires 0 <= i < |items| => ConvertedItem(items[i], mode))
  }

  /** "Converted from quotation " + number. */
  function ConvertRemark(no: string): string {
    "Converted from quotation " + no
  }

  /** The body `convertQuotationToInvoice` hands to `createInvoice`. */
  function ConversionRequest(q: Quotation, now: int): InvoiceRequest
    requires q.clientId.Some?
  {
    InvoiceRequest(q.clientId.value, Some(now), None, None, ConvertedItems(q.lineItems, q.gstMode),
      Some(q.extraAmount), Some(ConvertRemark(q.quoteNo)), q.gstMode, Some(q.gstRate))
  }

  /**
   * The converted invoice is priced on the extra amount alone, at the
   * quotation's own mode and rate: `createInvoice` sums only unit prices, and
   * the converted lines carry none.
   */
  lemma ConvertedPricesOnlyExtra(q: Quotation, now: int)
    requires q.clientId.Some?
    ensures InvoiceTotals(ConversionRequest(q, now)) == ModeTotals(WithEpsilon, q.gstMode, q.extraAmount, GstRateFor(q.gstMode, Some(q.gstRate)))
  {
    LinesWithoutPricesSumToZero(ConvertedItems(q.lineItems, q.gstMode));
  }

  /**
   * The same in numbers: one line of 100 at 18% EXCLUSIVE quotes a total of
   * 118, and converts into an invoice of total 0.
   */
  lemma ConvertedInvoiceOfOneLine()
    ensures var q := Quotation(Some(0), QuoteNo(1), 0, None, Recipient(None, None, None, None, None),
        [QuoteItem("Hosting", 1.0, Some(100.0), None, OneTime, 0.0, None)], 0.0, Exclusive, 0.18,
        Totals(100.0, 18.0, 118.0), None, None, Draft, [], None, None);
      q.totals.totalInclGst == 118.0 && InvoiceTotals(ConversionRequest(q, 0)).totalInclGst == 0.0
  {
    var q := Quotation(Some(0), QuoteNo(1), 0, None, Recipient(None, None, None, None, None),
        [QuoteItem("Hosting", 1.0, Some(100.0), None, OneTime, 0.0, None)], 0.0, Exclusive, 0.18,
        Totals(100.0, 18.0, 118.0), None, None, Draft, [], None, None);
    ConvertedPricesOnlyExtra(q, 0);
    CentsOfInt(0);
    Round2OfCents(0.0);
    RndOfCents(WithEpsilon, 0.0);
  }

  /**
   * `convertQuotationToInvoice`: NOT_FOUND for an unknown id,
   * CLIENT_REQUIRED_TO_CONVERT without a client; otherwise the quotation is
   * marked ACCEPTED and saved, and then `createInvoice` runs on the mapped
   * lines (its failure leaves the quotation ACCEPTED).
   */
  method ConvertQuotation(book: QuotationBook, books: ClientBooks, counters: CounterTable,
                          id: nat, now: int, year: nat, month: nat) returns (r: Result<nat, QuotationError>)
    requires book.Valid() && books.Valid() && counters.Valid() && Numbered(books, counters)
    modifies book, books, counters
    ensures book.Valid() && books.Valid() && counters.Valid() && Numbered(books, counters)
    ensures id >= |old(book.quotes)| ==> r == Failure(QuotationNotFound) && unchanged(book) && unchanged(books) && unchanged(counters)
    ensures id < |old(book.quotes)| && old(book.quotes)[id].clientId.None? ==>
      r == Failure(ClientRequiredToConvert) && unchanged(book) && unchanged(books) && unchanged(counters)
    ensures id < |old(book.quotes)| && old(book.quotes)[id].clientId.Some? ==>
      book.quotes == old(book.quotes)[id := old(book.quotes)[id].(status := Accepted)]
    ensures id < |old(book.quotes)| && old(book.quotes)[id].clientId.Some? && old(book.quotes)[id].clientId.value >= |old(books.clients)| ==>
      r == Failure(ConvertedInvoiceFailed(ClientNotFound)) && unchanged(books) && unchanged(counters)
    ensures id < |old(book.quotes)| && old(book.quotes)[id].clientId.Some? && old(book.quotes)[id].clientId.value < |old(books.clients)| ==>
      var req := ConversionRequest(old(book.quotes)[id], now);
      var key := MonthKey(year, month);
      var no := Format(key, SeqOf(old(counters.seqs), key) + 1);
      var prev := CurrentBalance(old(books.ledger), req.clientId);
      var invoiceId := |old(books.invoices)|;
      && r == Success(invoiceId)
      && counters.seqs == old(counters.seqs)[key := SeqOf(old(counters.seqs), key) + 1]
      && books.clients == old(books.clients) && books.payments == old(books.payments)
      && books.invoices == old(books.invoices) + [CreatedInvoice(req, no, now, prev)]
      && books.ledger == old(books.ledger) + InvoicePostings(req.clientId, now, invoiceId, no, InvoiceTotals(req).totalInclGst, prev)
  {
    if id >= |book.quotes| {
      return Failure(QuotationNotFound);
    }
    var q := book.quotes[id];
    if q.clientId.None? {
      return Failure(ClientRequiredToConvert);
    }
    book.Save(id, q.(status := Accepted));
    assert unchanged(books) && unchanged(counters);
    r := CreateConvertedInvoice(books, counters, q, now, year, month);
  }

  /** The `createInvoice` call of the conversion, its failure wrapped as the conversion's. */
  method CreateConvertedInvoice(books: ClientBooks, counters: CounterTable, q: Quotation, now: int, year: nat, month: nat)
      returns (r: Result<nat, QuotationError>)
    requires q.clientId.Some?
    requires books.Valid() && counters.Valid() && Numbered(books, counters)
    modifies books, counters
    ensures books.Valid() && counters.Valid() && Numbered(books, counters)
    ensures q.clientId.value >= |old(books.clients)| ==>
      r == Failure(ConvertedInvoiceFailed(ClientNotFound)) && unchanged(books) && unchanged(counters)
    ensures q.clientId.value < |old(books.clients)| ==>
      var req := ConversionRequest(q, now);
      var key := MonthKey(year, month);
      var no := Format(key, SeqOf(old(counters.seqs), key) + 1);
      var prev := CurrentBalance(old(books.ledger), req.clientId);
      var invoiceId := |old(books.invoices)|;
      && r == Success(invoiceId)
      && counters.seqs == old(counters.seqs)[key := SeqOf(old(counters.seqs), key) + 1]
      && books.clients == old(books.clients) && books.payments == old(books.payments)
      && books.invoices == old(books.invoices) + [CreatedInvoice(req, no, now, prev)]
      && books.ledger == old(books.ledger) + InvoicePostings(req.clientId, now, invoiceId, no, InvoiceTotals(req).totalInclGst, prev)
  {
    var created := CreateInvoice(books, counters, ConversionRequest(q, now), now, year, month);
    match created {
      case Success(invoiceId) =>
        r := Success(invoiceId);
      case Failure(e) =>
        r := Failure(ConvertedInvoiceFailed(e));
    }
  }
}
