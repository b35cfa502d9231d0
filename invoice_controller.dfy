/**
 * `createInvoice` (controllers/invoiceController.js): price the lines in the
 * requested GST mode, store the invoice as DUE, post a DEBIT for its total to
 * the client ledger, and if the client had an advance (a negative balance)
 * offset it against the new invoice with a CREDIT ADJUSTMENT.
 */
module InvoiceController {
  import opened Wrappers
  import opened Money
  import opened Pricing
  import opened Ledger
  import opened InvoiceNumber
  import opened Books

  /** The request body; absent optional fields are `None`. */
  datatype InvoiceRequest = InvoiceRequest(
    clientId: nat,
    issueDate: Option<int>,
    periodStart: Option<int>,
    periodEnd: Option<int>,
    lineItems: seq<LineItem>,
    extraAmount: Option<real>,
    remarks: Option<string>,
    gstMode: GstMode,
    gstRate: Option<real>)

  datatype InvoiceError = ClientNotFound

  /** `toNum(it.qty || 1)`: a missing or zero quantity counts as one. */
  function Qty(q: Option<real>): (n: real)
    ensures n != 0.0
    ensures q.Some? && q.value != 0.0 ==> n == q.value
  {
    if q.None? || q.value == 0.0 then 1.0 else q.value
  }

  /** `sumExclusive` outside INCLUSIVE mode: Σ qty × unitPriceExclGst. */
  function SumExcl(items: seq<LineItem>): real
    decreases |items|
  {
    if items == [] then 0.0
    else SumExcl(items[..|items| - 1]) + Qty(items[|items| - 1].qty) * ToNum(items[|items| - 1].unitPriceExclGst)
  }

  /** `sumInclusive` in INCLUSIVE mode: Σ qty × unitPriceInclGst. */
  function SumIncl(items: seq<LineItem>): real
    decreases |items|
  {
    if items == [] then 0.0
    else SumIncl(items[..|items| - 1]) + Qty(items[|items| - 1].qty) * ToNum(items[|items| - 1].unitPriceInclGst)
  }

  /**
   * The amount the active mode prices: the line sum of the active mode's price
   * field plus the extra amount (the inactive mode's sum is always 0).
   */
  function PricedAmount(req: InvoiceRequest): real {
    (if req.gstMode == Inclusive then SumIncl(req.lineItems) else SumExcl(req.lineItems)) + ToNum(req.extraAmount)
  }

  function InvoiceRate(req: InvoiceRequest): real {
    GstRateFor(req.gstMode, req.gstRate)
  }

  function InvoiceTotals(req: InvoiceRequest): Totals {
    ModeTotals(WithEpsilon, req.gstMode, PricedAmount(req), InvoiceRate(req))
  }

  /** The invoice as first stored: nothing paid, everything pending, DUE. */
  function NewInvoice(req: InvoiceRequest, no: string, now: int): (inv: Invoice)
    ensures inv.clientId == req.clientId && inv.invoiceNo == no
    ensures inv.totals == InvoiceTotals(req) && inv.gstRate == InvoiceRate(req)
    ensures inv.paidAmount == 0.0 && inv.pendingAmount == inv.totals.totalInclGst && inv.status == Due
    ensures InvoiceOk(inv)
  {
    ModeTotalsReconcile(WithEpsilon, req.gstMode, PricedAmount(req), InvoiceRate(req));
    Invoice(req.clientId, no, req.issueDate.GetOr(now), req.periodStart, req.periodEnd,
      req.lineItems, ToNum(req.extraAmount), req.remarks, req.gstMode, InvoiceRate(req),
      InvoiceTotals(req), 0.0, InvoiceTotals(req).totalInclGst, Due)
  }

  /**
   * The advance offset against an invoice of total `total` when the client's
   * balance was `prev`: `min(round2(-prev), total)` if that is positive, else 0.
   */
  function AdvanceApplied(prev: real, total: real): (apply: real)
    ensures apply >= 0.0
    ensures apply > 0.0 ==> prev < 0.0 && apply <= total && apply <= Round2(-prev)
    ensures apply > 0.0 ==> apply == total || apply == Round2(-prev)
    ensures prev >= 0.0 || total <= 0.0 ==> apply == 0.0
    ensures IsCents(total) ==> IsCents(apply)
  {
    var available := if prev < 0.0 then Round2(-prev) else 0.0;
    if available > 0.0 && Min(available, total) > 0.0 then Min(available, total) else 0.0
  }

  /** The advance of a client with a whole-cent negative balance is applied in full, or up to the total. */
  lemma AdvanceAppliedOfCents(prev: real, total: real)
    requires IsCents(prev) && prev < 0.0 && total > 0.0
    ensures AdvanceApplied(prev, total) == Min(-prev, total)
  {
    CentsClosed(prev, prev);
    Round2OfCents(-prev);
  }

  /** A new invoice after the client's advance, if any, has been applied to it. */
  function Offset(inv: Invoice, prev: real): (r: Invoice)
    requires InvoiceOk(inv) && inv.paidAmount == 0.0
    ensures InvoiceOk(r) && r.clientId == inv.clientId && r.invoiceNo == inv.invoiceNo && r.totals == inv.totals
    ensures r.paidAmount == AdvanceApplied(prev, inv.totals.totalInclGst)
    ensures r.pendingAmount == inv.totals.totalInclGst - AdvanceApplied(prev, inv.totals.totalInclGst)
  {
    var apply := AdvanceApplied(prev, inv.totals.totalInclGst);
    if apply > 0.0 then
      ApplyKeepsInvoiceOk(inv, apply);
      ApplyToInvoice(inv, apply)
    else inv
  }

  /** The invoice after creation: the advance, if any, applied to the new invoice. */
  function CreatedInvoice(req: InvoiceRequest, no: string, now: int, prev: real): (inv: Invoice)
    ensures InvoiceOk(inv)
  {
    Offset(NewInvoice(req, no, now), prev)
  }

  /** "Invoice " + number. */
  function InvoiceRemark(no: string): string {
    "Invoice " + no
  }

  /** "Advance adjusted against " + number. */
  function AdjustRemark(no: string): string {
    "Advance adjusted against " + no
  }

  /** The DEBIT INVOICE row: the total, on top of the previous balance. */
  function DebitRow(owner: nat, now: int, id: nat, no: string, total: real, prev: real): ClientEntry {
    Entry(owner, now, Debit, total, Round2(prev + total), InvoiceRef, Some(id), InvoiceRemark(no))
  }

  /** The CREDIT ADJUSTMENT row: the applied advance, taken off the balance after the DEBIT. */
  function AdjustRow(owner: nat, now: int, id: nat, no: string, afterInvoice: real, apply: real): ClientEntry {
    Entry(owner, now, Credit, apply, Round2(afterInvoice - apply), AdjustmentRef, Some(id), AdjustRemark(no))
  }

  /**
   * The ledger rows `createInvoice` appends for invoice `id` of client `owner`
   * with total `total`, when the client's balance was `prev`: a DEBIT INVOICE
   * row of the total, then a CREDIT ADJUSTMENT row of the applied advance
   * exactly when an advance is applied. Both are dated `now`.
   */
  function InvoicePostings(owner: nat, now: int, id: nat, no: string, total: real, prev: real): (rows: seq<ClientEntry>)
    ensures 1 <= |rows| <= 2
    ensures rows[0] == Entry(owner, now, Debit, total, Round2(prev + total), InvoiceRef, Some(id), InvoiceRemark(no))
    ensures |rows| == 2 <==> AdvanceApplied(prev, total) > 0.0
    ensures |rows| == 2 ==> rows[1] == Entry(owner, now, Credit, AdvanceApplied(prev, total),
      Round2(Round2(prev + total) - AdvanceApplied(prev, total)), AdjustmentRef, Some(id), AdjustRemark(no))
  {
    var debit := DebitRow(owner, now, id, no, total, prev);
    var apply := AdvanceApplied(prev, total);
    if apply > 0.0 then [debit, AdjustRow(owner, now, id, no, debit.balanceAfter, apply)] else [debit]
  }

  /** Every invoice's number is in `issued`. */
  predicate NumbersIssued(invoices: seq<Invoice>, issued: set<string>) {
    forall i :: 0 <= i < |invoices| ==> invoices[i].invoiceNo in issued
  }

  /** No two invoices share a number (the unique index on `invoiceNo`). */
  predicate DistinctNumbers(invoices: seq<Invoice>) {
    forall i, j :: 0 <= i < j < |invoices| ==> invoices[i].invoiceNo != invoices[j].invoiceNo
  }

  /** Every invoice number in the books has been handed out by the counter table, and no two invoices share one. */
  ghost predicate Numbered(books: ClientBooks, counters: CounterTable)
    reads books, counters
  {
    NumbersIssued(books.invoices, counters.issued) && DistinctNumbers(books.invoices)
  }

  /** An invoice with a number not handed out before keeps the numbers distinct. */
  lemma AddNumbered(invoices: seq<Invoice>, issued: set<string>, inv: Invoice)
    requires NumbersIssued(invoices, issued) && DistinctNumbers(invoices)
    requires inv.invoiceNo !in issued
    ensures NumbersIssued(invoices + [inv], issued + {inv.invoiceNo}) && DistinctNumbers(invoices + [inv])
  {
  }

  /**
   * The ledger half of `createInvoice` for the invoice just stored at `id`:
   * read the client's balance, post the DEBIT, and offset an advance against
   * the invoice (saving it) with a CREDIT ADJUSTMENT.
   */
  method PostInvoice(books: ClientBooks, id: nat, now: int)
    requires books.Valid() && id < |books.invoices|
    requires books.invoices[id].paidAmount == 0.0
    modifies books
    ensures books.Valid()
    ensures books.clients == old(books.clients) && books.payments == old(books.payments)
    ensures var inv := old(books.invoices[id]);
      books.invoices == old(books.invoices)[id := Offset(inv, CurrentBalance(old(books.ledger), inv.clientId))]
    ensures var inv := old(books.invoices[id]);
      books.ledger == old(books.ledger)
        + InvoicePostings(inv.clientId, now, id, inv.invoiceNo, inv.totals.totalInclGst, CurrentBalance(old(books.ledger), inv.clientId))
  {
    var inv := books.invoices[id];
    var total := inv.totals.totalInclGst;
    var prev := CurrentBalance(books.ledger, inv.clientId);
    var debit := DebitRow(inv.clientId, now, id, inv.invoiceNo, total, prev);
    books.Post(debit);

    var available := if prev < 0.0 then Round2(-prev) else 0.0;
    ghost var applied := AdvanceApplied(prev, total);
    if available > 0.0 {
      var apply := Min(available, total);
      if apply > 0.0 {
        assert apply == applied;
        ApplyKeepsInvoiceOk(inv, apply);
        books.SaveInvoice(id, ApplyToInvoice(inv, apply));
        var adjust := AdjustRow(inv.clientId, now, id, inv.invoiceNo, debit.balanceAfter, apply);
        books.Post(adjust);
        assert InvoicePostings(inv.clientId, now, id, inv.invoiceNo, total, prev) == [debit, adjust];
        return;
      }
    }
    assert applied == 0.0;
    assert InvoicePostings(inv.clientId, now, id, inv.invoiceNo, total, prev) == [debit];
  }

  /**
   * `createInvoice`. `now` is the clock, and `year`/`month` its calendar month
   * (the month `nextInvoiceNo` numbers in). An unknown client changes nothing;
   * otherwise one invoice number is drawn, one invoice stored, and one or two
   * ledger rows appended.
   */
  method CreateInvoice(books: ClientBooks, counters: CounterTable, req: InvoiceRequest, now: int, year: nat, month: nat)
    returns (r: Result<nat, InvoiceError>)
    requires books.Valid() && counters.Valid() && Numbered(books, counters)
    modifies books, counters
    ensures books.Valid() && counters.Valid() && Numbered(books, counters)
    ensures req.clientId >= |old(books.clients)| ==>
      r == Failure(ClientNotFound) && unchanged(books) && unchanged(counters)
    ensures req.clientId < |old(books.clients)| ==>
      var key := MonthKey(year, month);
      var no := Format(key, SeqOf(old(counters.seqs), key) + 1);
      var prev := CurrentBalance(old(books.ledger), req.clientId);
      var id := |old(books.invoices)|;
      r == Success(id)
      && counters.seqs == old(counters.seqs)[key := SeqOf(old(counters.seqs), key) + 1]
      && books.clients == old(books.clients) && books.payments == old(books.payments)
      && books.invoices == old(books.invoices) + [CreatedInvoice(req, no, now, prev)]
      && books.ledger == old(books.ledger) + InvoicePostings(req.clientId, now, id, no, InvoiceTotals(req).totalInclGst, prev)
  {
    if req.clientId >= |books.clients| {
      return Failure(ClientNotFound);
    }
    var no := counters.NextInvoiceNo(year, month);
    var draft := NewInvoice(req, no, now);
    var id := books.AddInvoice(draft);
    ghost var prev := CurrentBalance(books.ledger, req.clientId);
    PostInvoice(books, id, now);
    ReplaceLast(old(books.invoices), draft, Offset(draft, prev));
    AddNumbered(old(books.invoices), old(counters.issued), Offset(draft, prev));
    r := Success(id);
  }

  /** Replacing the element just appended. */
  lemma ReplaceLast<T>(s: seq<T>, x: T, y: T)
    ensures (s + [x])[|s| := y] == s + [y]
  {
  }

  /**
   * The balance after `createInvoice`, when no row of the client is dated
   * after `now`: the balance after the DEBIT less the applied advance. With a
   * whole-cent previous balance this is prev + total - apply, while the same
   * `apply` has also been taken off the invoice's pending amount: the advance
   * that was already in the (negative) balance is subtracted a second time.
   */
  lemma BalanceAfterInvoice(ledger: seq<ClientEntry>, req: InvoiceRequest, now: int, id: nat, no: string)
    requires forall i :: 0 <= i < |ledger| && ledger[i].owner == req.clientId ==> ledger[i].date <= now
    ensures var prev := CurrentBalance(ledger, req.clientId);
      var total := InvoiceTotals(req).totalInclGst;
      var apply := AdvanceApplied(prev, total);
      var after := CurrentBalance(ledger + InvoicePostings(req.clientId, now, id, no, total, prev), req.clientId);
      && CreatedInvoice(req, no, now, prev).pendingAmount == total - apply
      && (IsCents(prev) ==> after == prev + total - apply)
  {
    var prev := CurrentBalance(ledger, req.clientId);
    var total := InvoiceTotals(req).totalInclGst;
    ModeTotalsReconcile(WithEpsilon, req.gstMode, PricedAmount(req), InvoiceRate(req));
    PostingsLeaveBalance(ledger, req.clientId, now, id, no, total, prev);
    if IsCents(prev) {
      SettledArithmetic(prev, total, AdvanceApplied(prev, total));
    }
  }

  /** The balance the posted rows leave, when none of the owner's rows is dated after `now`. */
  lemma PostingsLeaveBalance(ledger: seq<ClientEntry>, owner: nat, now: int, id: nat, no: string, total: real, prev: real)
    requires forall i :: 0 <= i < |ledger| && ledger[i].owner == owner ==> ledger[i].date <= now
    ensures var apply := AdvanceApplied(prev, total);
      CurrentBalance(ledger + InvoicePostings(owner, now, id, no, total, prev), owner)
      == if apply > 0.0 then Round2(Round2(prev + total) - apply) else Round2(prev + total)
  {
    var rows := InvoicePostings(owner, now, id, no, total, prev);
    AppendLatest(ledger, rows[0]);
    if |rows| == 2 {
      assert ledger + rows == (ledger + [rows[0]]) + [rows[1]];
      AppendLatest(ledger + [rows[0]], rows[1]);
    } else {
      assert ledger + rows == ledger + [rows[0]];
    }
  }

  /** On whole cents the two roundings of the postings change nothing. */
  lemma SettledArithmetic(prev: real, total: real, apply: real)
    requires IsCents(prev) && IsCents(total) && IsCents(apply)
    ensures Round2(prev + total) == prev + total
    ensures Round2(Round2(prev + total) - apply) == prev + total - apply
  {
    CentsClosed(prev, total);
    Round2OfCents(prev + total);
    CentsClosed(prev + total, apply);
    Round2OfCents(prev + total - apply);
  }

  /**
   * The double count in numbers: a client holding a whole-cent advance `a`
   * (balance -a) who is invoiced at least `a` ends with balance total - 2a,
   * while the invoice shows total - a pending.
   */
  lemma AdvanceCountedTwice(ledger: seq<ClientEntry>, req: InvoiceRequest, now: int, id: nat, no: string)
    requires forall i :: 0 <= i < |ledger| && ledger[i].owner == req.clientId ==> ledger[i].date <= now
    requires var prev := CurrentBalance(ledger, req.clientId);
      IsCents(prev) && prev < 0.0 && InvoiceTotals(req).totalInclGst >= -prev
    ensures var prev := CurrentBalance(ledger, req.clientId);
      var total := InvoiceTotals(req).totalInclGst;
      && CreatedInvoice(req, no, now, prev).pendingAmount == total + prev
      && CurrentBalance(ledger + InvoicePostings(req.clientId, now, id, no, total, prev), req.clientId) == total + 2.0 * prev
  {
    var prev := CurrentBalance(ledger, req.clientId);
    AdvanceAppliedOfCents(prev, InvoiceTotals(req).totalInclGst);
    BalanceAfterInvoice(ledger, req, now, id, no);
  }

  /** Without an advance (a balance of zero or more) only the DEBIT is posted and the invoice stays DUE with nothing paid. */
  lemma NoAdvanceNoOffset(req: InvoiceRequest, no: string, now: int, prev: real, owner: nat, id: nat)
    requires prev >= 0.0
    ensures |InvoicePostings(owner, now, id, no, InvoiceTotals(req).totalInclGst, prev)| == 1
    ensures CreatedInvoice(req, no, now, prev) == NewInvoice(req, no, now)
  {
  }

  /**
   * Lines that carry no unit price (only `amountExclGst`/`amountInclGst`, as
   * produced by converting a quotation) contribute nothing to either sum.
   */
  lemma {:induction false} LinesWithoutPricesSumToZero(items: seq<LineItem>)
    requires forall i :: 0 <= i < |items| ==> items[i].unitPriceExclGst.None? && items[i].unitPriceInclGst.None?
    ensures SumExcl(items) == 0.0 && SumIncl(items) == 0.0
    decreases |items|
  {
    if items != [] {
      LinesWithoutPricesSumToZero(items[..|items| - 1]);
    }
  }

  /** The line sums add up over concatenation, so the sum of a request is the sum of its lines taken one by one. */
  lemma {:induction false} SumsAppend(a: seq<LineItem>, b: seq<LineItem>)
    ensures SumExcl(a + b) == SumExcl(a) + SumExcl(b)
    ensures SumIncl(a + b) == SumIncl(a) + SumIncl(b)
    decreases |b|
  {
    if b == [] {
      assert a + b == a;
    } else {
      var b' := b[..|b| - 1];
      assert (a + b)[..|a + b| - 1] == a + b';
      SumsAppend(a, b');
    }
  }
}
