/**
 * `recordPayment` (controllers/paymentController.js): store a payment, post
 * one CREDIT of the whole receipt to the client ledger, and apply as much of
 * it as is pending to the invoice named in the request, if there is one.
 */
module PaymentController {
  import opened Wrappers
  import opened Money
  import opened Ledger
  import opened PaymentNumber
  import opened Books

  datatype PaymentRequest = PaymentRequest(
    clientId: nat,
    invoiceId: Option<nat>,
    date: Option<int>,
    amount: Option<real>,
    mode: Option<PayMode>,
    slipRef: Option<string>,
    notes: Option<string>)

  datatype PaymentError = ClientNotFound | AmountRequired | ReceiptNoRequired

  /** `invoiceAppliedTo` of the reply. */
  datatype AppliedTo = AppliedTo(invoiceId: nat, invoiceNo: string, applied: real, pendingAfter: Option<real>)

  datatype PaymentReply = PaymentReply(paymentId: nat, isAdvance: bool, invoiceAppliedTo: Option<AppliedTo>)

  /** `round2(Number(amount || 0))`. */
  function ReceivedAmount(req: PaymentRequest): real {
    Round2(ToNum(req.amount))
  }

  /**
   * `invoiceId ? Invoice.findById(invoiceId) : null`: the invoice is looked up
   * by id alone, whichever client it belongs to.
   */
  function FoundInvoice(invoiceId: Option<nat>, invoiceCount: nat): (found: Option<nat>)
    ensures found.Some? <==> invoiceId.Some? && invoiceId.value < invoiceCount
    ensures found.Some? ==> found == invoiceId
  {
    if invoiceId.Some? && invoiceId.value < invoiceCount then invoiceId else None
  }

  /** The amount applied to a found invoice: `min(pendingAmount, amt)` if that is positive, else nothing. */
  function CanApply(inv: Invoice, amt: real): (c: real)
    ensures c >= 0.0
    ensures c > 0.0 <==> inv.pendingAmount > 0.0 && amt > 0.0
    ensures c > 0.0 ==> c == Min(inv.pendingAmount, amt)
  {
    var m := Min(inv.pendingAmount, amt);
    if m > 0.0 then m else 0.0
  }

  /** The invoice after the payment: changed only when something is applied. */
  function SettledInvoice(inv: Invoice, amt: real): Invoice {
    var c := CanApply(inv, amt);
    if c > 0.0 then ApplyToInvoice(inv, c) else inv
  }

  /**
   * A payment of a positive whole-cent amount keeps an invoice well formed;
   * it pays off `min(pending, amt)`, and an invoice with nothing pending is
   * left as it was.
   */
  lemma SettledInvoiceOk(inv: Invoice, amt: real)
    requires InvoiceOk(inv) && IsCents(amt) && amt > 0.0
    ensures var r := SettledInvoice(inv, amt);
      && InvoiceOk(r)
      && r.totals == inv.totals && r.invoiceNo == inv.invoiceNo && r.clientId == inv.clientId
      && r.paidAmount == inv.paidAmount + CanApply(inv, amt)
      && r.pendingAmount == inv.pendingAmount - CanApply(inv, amt)
      && (inv.pendingAmount <= 0.0 ==> r == inv)
      && (inv.pendingAmount > 0.0 ==> r.pendingAmount >= 0.0 && (r.status == Paid <==> amt >= inv.pendingAmount))
  {
    var c := CanApply(inv, amt);
    if c > 0.0 {
      ApplyKeepsInvoiceOk(inv, c);
    }
  }

  /** `slipRef ? ' | Ref: ' + slipRef : ''`. */
  function RefSuffix(slipRef: Option<string>): string {
    if slipRef.Some? && slipRef.value != "" then " | Ref: " + slipRef.value else ""
  }

  /** The remark of the CREDIT row: against the invoice's number, or an advance. */
  function PaymentRemark(invoiceNo: Option<string>, slipRef: Option<string>): string {
    match invoiceNo
    case Some(no) => "Payment against " + no + RefSuffix(slipRef)
    case None => "Advance payment" + RefSuffix(slipRef)
  }

  /** The receipt number of the next payment, from the most recently created one. */
  function NextReceipt(payments: seq<Payment>): string {
    NextPaymentNo(if payments == [] then None else Some(payments[|payments| - 1].receiptNo))
  }

  /** The `i`-th payment carries receipt number `pay_<i+1>`. */
  predicate ReceiptsNumbered(payments: seq<Payment>) {
    forall i :: 0 <= i < |payments| ==> payments[i].receiptNo == PaymentNo(i + 1)
  }

  /** Receipts numbered pay_1, pay_2, ... continue with the next number, and stay so numbered. */
  lemma NextReceiptContinues(payments: seq<Payment>, p: Payment)
    requires ReceiptsNumbered(payments)
    requires p.receiptNo == NextReceipt(payments)
    ensures NextReceipt(payments) == PaymentNo(|payments| + 1)
    ensures ReceiptsNumbered(payments + [p])
  {
    NextReceiptIs(payments);
    var s := payments + [p];
    forall i | 0 <= i < |s| ensures s[i].receiptNo == PaymentNo(i + 1) {
      if i < |payments| {
        assert s[i] == payments[i];
      }
    }
  }

  lemma NextReceiptIs(payments: seq<Payment>)
    requires ReceiptsNumbered(payments)
    ensures NextReceipt(payments) == PaymentNo(|payments| + 1)
  {
    if payments != [] {
      var n := |payments|;
      assert payments[n - 1].receiptNo == PaymentNo(n);
      NextAfterPaymentNo(n);
    }
  }

  /** Receipts numbered pay_1, pay_2, ... are pairwise distinct (the unique index on `receiptNo`). */
  lemma ReceiptsDistinct(payments: seq<Payment>, i: nat, j: nat)
    requires ReceiptsNumbered(payments)
    requires i < j < |payments|
    ensures payments[i].receiptNo != payments[j].receiptNo
  {
    if payments[i].receiptNo == payments[j].receiptNo {
      PaymentNoInjective(i + 1, j + 1);
    }
  }

  /** The payment document, with the receipt number drawn from `nextPaymentNo`. */
  function NewPayment(req: PaymentRequest, found: Option<nat>, now: int, amt: real, receiptNo: string): Payment {
    Payment(req.clientId, found, req.date.GetOr(now), amt, req.mode.GetOr(OtherMode), req.slipRef, req.notes, receiptNo)
  }

  /** The CREDIT PAYMENT row for the whole receipt, dated with the payment's date. */
  function PaymentEntry(req: PaymentRequest, now: int, amt: real, prev: real, paymentId: nat, invoiceNo: Option<string>): ClientEntry {
    Entry(req.clientId, req.date.GetOr(now), Credit, amt, Round2(prev - amt), PaymentRef, Some(paymentId), PaymentRemark(invoiceNo, req.slipRef))
  }

  /**
   * The reply: `isAdvance` exactly when no invoice was found, however much was
   * applied; `pendingAfter` only when something was applied.
   */
  function Reply(paymentId: nat, found: Option<nat>, invoices: seq<Invoice>, amt: real): (rep: PaymentReply)
    requires found.Some? ==> found.value < |invoices|
    ensures rep.paymentId == paymentId
    ensures rep.isAdvance <==> found.None?
    ensures rep.invoiceAppliedTo.Some? <==> found.Some?
    ensures found.Some? ==> rep.invoiceAppliedTo.value.applied == CanApply(invoices[found.value], amt)
    ensures found.Some? ==> (rep.invoiceAppliedTo.value.pendingAfter.Some? <==> CanApply(invoices[found.value], amt) > 0.0)
  {
    match found
    case None => PaymentReply(paymentId, true, None)
    case Some(id) =>
      var c := CanApply(invoices[id], amt);
      PaymentReply(paymentId, false, Some(AppliedTo(id, invoices[id].invoiceNo, c,
        if c > 0.0 then Some(SettledInvoice(invoices[id], amt).pendingAmount) else None)))
  }

  function InvoiceNoOf(found: Option<nat>, invoices: seq<Invoice>): Option<string>
    requires found.Some? ==> found.value < |invoices|
  {
    if found.Some? then Some(invoices[found.value].invoiceNo) else None
  }

  /**
   * `recordPayment` with the receipt number drawn from `nextPaymentNo`, which
   * the schema requires. `now` is the clock.
   */
  method RecordPayment(books: ClientBooks, req: PaymentRequest, now: int) returns (r: Result<PaymentReply, PaymentError>)
    requires books.Valid() && ReceiptsNumbered(books.payments)
    modifies books
    ensures books.Valid() && ReceiptsNumbered(books.payments)
    ensures req.clientId >= |old(books.clients)| ==> r == Failure(ClientNotFound) && unchanged(books)
    ensures req.clientId < |old(books.clients)| && ReceivedAmount(req) <= 0.0 ==> r == Failure(AmountRequired) && unchanged(books)
    ensures req.clientId < |old(books.clients)| && ReceivedAmount(req) > 0.0 ==>
      && r == Success(Reply(|old(books.payments)|, FoundInvoice(req.invoiceId, |old(books.invoices)|), old(books.invoices), ReceivedAmount(req)))
      && books.clients == old(books.clients)
      && books.payments == old(books.payments)
           + [NewPayment(req, FoundInvoice(req.invoiceId, |old(books.invoices)|), now, ReceivedAmount(req), PaymentNo(|old(books.payments)| + 1))]
    ensures req.clientId < |old(books.clients)| && ReceivedAmount(req) > 0.0 ==>
      var found := FoundInvoice(req.invoiceId, |old(books.invoices)|);
      books.ledger == old(books.ledger)
        + [PaymentEntry(req, now, ReceivedAmount(req), CurrentBalance(old(books.ledger), req.clientId), |old(books.payments)|, InvoiceNoOf(found, old(books.invoices)))]
    ensures req.clientId < |old(books.clients)| && ReceivedAmount(req) > 0.0 ==>
      var found := FoundInvoice(req.invoiceId, |old(books.invoices)|);
      books.invoices == if found.Some? then old(books.invoices)[found.value := SettledInvoice(old(books.invoices)[found.value], ReceivedAmount(req))]
                        else old(books.invoices)
  {
    if req.clientId >= |books.clients| {
      return Failure(ClientNotFound);
    }
    var amt := Round2(ToNum(req.amount));
    if amt <= 0.0 {
      return Failure(AmountRequired);
    }
    var found := FoundInvoice(req.invoiceId, |books.invoices|);
    var invoicesBefore := books.invoices;
    var receiptNo := NextReceipt(books.payments);
    NextReceiptContinues(books.payments, NewPayment(req, found, now, amt, receiptNo));
    var pid := books.AddPayment(NewPayment(req, found, now, amt, receiptNo));

    var prev := CurrentBalance(books.ledger, req.clientId);
    books.Post(PaymentEntry(req, now, amt, prev, pid, InvoiceNoOf(found, books.invoices)));

    if found.Some? {
      ApplyPayment(books, found.value, amt);
    }
    r := Success(Reply(pid, found, invoicesBefore, amt));
  }

  /** Applying the receipt to the found invoice: `min(pending, amt)` if positive, then `inv.save()`. */
  method ApplyPayment(books: ClientBooks, id: nat, amt: real)
    requires books.Valid() && id < |books.invoices| && IsCents(amt) && amt > 0.0
    modifies books
    ensures books.Valid()
    ensures books.invoices == old(books.invoices)[id := SettledInvoice(old(books.invoices)[id], amt)]
    ensures books.clients == old(books.clients) && books.payments == old(books.payments) && books.ledger == old(books.ledger)
  {
    var inv := books.invoices[id];
    var canApply := Min(inv.pendingAmount, amt);
    SettledInvoiceOk(inv, amt);
    if canApply > 0.0 {
      books.SaveInvoice(id, ApplyToInvoice(inv, canApply));
    } else {
      assert books.invoices == old(books.invoices)[id := inv];
    }
  }

  /**
   * `recordPayment` as written: `Payment.create` is called without a
   * `receiptNo`, which the schema requires, so once the client and amount
   * checks pass the create is rejected and nothing is stored.
   */
  method RecordPaymentAsWritten(books: ClientBooks, req: PaymentRequest, now: int) returns (r: Result<PaymentReply, PaymentError>)
    ensures req.clientId >= |books.clients| ==> r == Failure(ClientNotFound)
    ensures req.clientId < |books.clients| && ReceivedAmount(req) <= 0.0 ==> r == Failure(AmountRequired)
    ensures req.clientId < |books.clients| && ReceivedAmount(req) > 0.0 ==> r == Failure(ReceiptNoRequired)
  {
    if req.clientId >= |books.clients| {
      return Failure(ClientNotFound);
    }
    var amt := Round2(ToNum(req.amount));
    if amt <= 0.0 {
      return Failure(AmountRequired);
    }
    // Payment.create({ ..., no receiptNo }) fails schema validation.
    r := Failure(ReceiptNoRequired);
  }

  /**
   * The balance after a payment dated no earlier than the client's other
   * rows is the previous balance less the rounded receipt.
   */
  lemma BalanceAfterPayment(ledger: seq<ClientEntry>, req: PaymentRequest, now: int, pid: nat, invoiceNo: Option<string>)
    requires forall i :: 0 <= i < |ledger| && ledger[i].owner == req.clientId ==> ledger[i].date <= req.date.GetOr(now)
    ensures var prev := CurrentBalance(ledger, req.clientId);
      var amt := ReceivedAmount(req);
      var after := CurrentBalance(ledger + [PaymentEntry(req, now, amt, prev, pid, invoiceNo)], req.clientId);
      && after == Round2(prev - amt)
      && (IsCents(prev) ==> after == prev - amt)
  {
    var prev := CurrentBalance(ledger, req.clientId);
    var amt := ReceivedAmount(req);
    LatestCredit(ledger, PaymentEntry(req, now, amt, prev, pid, invoiceNo), prev, amt);
  }

  /** A row dated no earlier than its owner's others, holding `round2(prev - amt)`, sets the balance to that. */
  lemma LatestCredit(ledger: seq<ClientEntry>, e: ClientEntry, prev: real, amt: real)
    requires forall i :: 0 <= i < |ledger| && ledger[i].owner == e.owner ==> ledger[i].date <= e.date
    requires e.balanceAfter == Round2(prev - amt) && IsCents(amt)
    ensures CurrentBalance(ledger + [e], e.owner) == Round2(prev - amt)
    ensures IsCents(prev) ==> CurrentBalance(ledger + [e], e.owner) == prev - amt
  {
    AppendLatest(ledger, e);
    if IsCents(prev) {
      CentsClosed(prev, amt);
      Round2OfCents(prev - amt);
    }
  }

  /**
   * A payment dated before one of the client's rows is posted, but the
   * current balance does not move: the latest row by date is still the other.
   */
  lemma BackdatedPaymentLeavesBalance(ledger: seq<ClientEntry>, req: PaymentRequest, now: int, pid: nat, invoiceNo: Option<string>, j: nat)
    requires j < |ledger| && ledger[j].owner == req.clientId && ledger[j].date > req.date.GetOr(now)
    ensures var prev := CurrentBalance(ledger, req.clientId);
      CurrentBalance(ledger + [PaymentEntry(req, now, ReceivedAmount(req), prev, pid, invoiceNo)], req.clientId) == prev
  {
    var prev := CurrentBalance(ledger, req.clientId);
    AppendBackdated(ledger, PaymentEntry(req, now, ReceivedAmount(req), prev, pid, invoiceNo), j);
  }
}
