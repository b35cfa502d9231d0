/**
 * The client-side books: clients with their services, credentials and
 * meetings (models/Client.js), invoices (models/Invoice.js), payments
 * (models/Payment.js) and the client ledger (models/LedgerEntry.js), held in
 * memory as one store. A record's id is its position in its collection, so
 * "insertion order" is "creation order".
 */
module Books {
  import opened Wrappers
  import opened Money
  import opened Pricing
  import opened Ledger

  datatype ServiceKind = Hosting | DigitalMarketing | OtherService
  datatype BillingType = Monthly | OneTime

  datatype Service = Service(
    kind: ServiceKind,
    amountMonthly: real,
    amountOneTime: real,
    billingType: BillingType,
    startDate: int,
    expiryDate: Option<int>,
    notes: Option<string>)

  datatype Environment = Prod | Staging | Dev | OtherEnvironment

  /**
   * A stored credential. A text field is `None` where null is stored: the
   * update route sets fields without running the schema's validators, so even
   * a required field can end up null, and `environment` can hold any text.
   */
  datatype Credential = Credential(
    id: nat,
    panelName: Option<string>,
    projectName: Option<string>,
    environment: Option<string>,
    url: Option<string>,
    username: Option<string>,
    password: Option<string>,
    tags: Option<seq<string>>,
    notes: Option<string>,
    lastRotatedAt: Option<int>)

  datatype ActionStatus = Open | InProgress | Done | Blocked

  /** An action item; `status` is `None` where null is stored (the enum validator lets null through). */
  datatype ActionItem = ActionItem(
    description: string,
    owner: Option<string>,
    dueDate: Option<int>,
    status: Option<ActionStatus>)

  datatype Meeting = Meeting(
    id: nat,
    meetingDate: int,
    title: Option<string>,
    attendees: seq<string>,
    remarks: Option<string>,
    summary: Option<string>,
    actionItems: seq<ActionItem>,
    nextFollowUp: Option<int>)

  datatype Client = Client(
    name: string,
    openingBalance: real,
    services: seq<Service>,
    credentials: seq<Credential>,
    meetings: seq<Meeting>)

  /**
   * A line as sent by the caller. A number field is `None` when it is absent,
   * null, or another value that `Number(v || 0)` turns into 0.
   */
  datatype LineItem = LineItem(
    description: string,
    qty: Option<real>,
    unitPriceExclGst: Option<real>,
    unitPriceInclGst: Option<real>,
    amountExclGst: Option<real>,
    amountInclGst: Option<real>)

  datatype InvoiceStatus = Due | PartiallyPaid | Paid

  datatype Invoice = Invoice(
    clientId: nat,
    invoiceNo: string,
    issueDate: int,
    periodStart: Option<int>,
    periodEnd: Option<int>,
    lineItems: seq<LineItem>,
    extraAmount: real,
    remarks: Option<string>,
    gstMode: GstMode,
    gstRate: real,
    totals: Totals,
    paidAmount: real,
    pendingAmount: real,
    status: InvoiceStatus)

  datatype PayMode = Cash | Upi | Neft | Imps | Rtgs | Card | Cheque | OtherMode

  datatype Payment = Payment(
    clientId: nat,
    invoiceId: Option<nat>,
    date: int,
    amount: real,
    mode: PayMode,
    slipRef: Option<string>,
    notes: Option<string>,
    receiptNo: string)

  /** `refType` of a client ledger entry. */
  datatype RefType = InvoiceRef | PaymentRef | OpeningRef | AdjustmentRef

  type ClientEntry = Entry<RefType>

  /**
   * The status both controllers derive after money is applied:
   * `pending <= 0 ? 'PAID' : (paid > 0 ? 'PARTIALLY_PAID' : 'DUE')`.
   */
  function DerivedStatus(paid: real, pending: real): (s: InvoiceStatus)
    ensures s == Paid <==> pending <= 0.0
    ensures s == PartiallyPaid <==> pending > 0.0 && paid > 0.0
  {
    if pending <= 0.0 then Paid else if paid > 0.0 then PartiallyPaid else Due
  }

  /**
   * Applying `x` to an invoice, as both `createInvoice` (the advance) and
   * `recordPayment` do: paid grows by `x` (rounded), pending is recomputed from
   * the total (rounded), and the status is derived again.
   */
  function ApplyToInvoice(inv: Invoice, x: real): Invoice {
    var paid := Round2(inv.paidAmount + x);
    var pending := Round2(inv.totals.totalInclGst - paid);
    inv.(paidAmount := paid, pendingAmount := pending, status := DerivedStatus(paid, pending))
  }

  /**
   * What every stored invoice satisfies: its totals reconcile, paid and pending
   * are whole cents that add up to the total, nothing negative has been paid,
   * once something is paid the pending amount is not negative, and the status
   * is the derived one, or DUE with nothing paid (a new invoice).
   */
  predicate InvoiceOk(inv: Invoice) {
    Reconciled(inv.totals)
    && IsCents(inv.paidAmount) && IsCents(inv.pendingAmount)
    && inv.paidAmount + inv.pendingAmount == inv.totals.totalInclGst
    && inv.paidAmount >= 0.0
    && (inv.paidAmount > 0.0 ==> inv.pendingAmount >= 0.0)
    && (inv.status == DerivedStatus(inv.paidAmount, inv.pendingAmount)
        || (inv.paidAmount == 0.0 && inv.status == Due))
  }

  /**
   * Applying a whole-cent amount no larger than what is pending keeps an
   * invoice well formed, moves exactly that amount from pending to paid, and
   * marks it PAID exactly when nothing is left.
   */
  lemma ApplyKeepsInvoiceOk(inv: Invoice, x: real)
    requires InvoiceOk(inv) && IsCents(x) && 0.0 < x <= inv.pendingAmount
    ensures var r := ApplyToInvoice(inv, x);
      InvoiceOk(r)
      && r.paidAmount == inv.paidAmount + x
      && r.pendingAmount == inv.pendingAmount - x
      && (r.status == Paid <==> x == inv.pendingAmount)
      && r.status != Due
      && r.totals == inv.totals && r.invoiceNo == inv.invoiceNo && r.clientId == inv.clientId
  {
    CentsClosed(inv.paidAmount, x);
    Round2OfCents(inv.paidAmount + x);
    CentsClosed(inv.totals.totalInclGst, inv.paidAmount + x);
    Round2OfCents(inv.totals.totalInclGst - (inv.paidAmount + x));
  }

  predicate EntryOk(e: ClientEntry, clientCount: nat, invoiceCount: nat, paymentCount: nat) {
    e.owner < clientCount
    && match e.refType
       case InvoiceRef => e.refId.Some? && e.refId.value < invoiceCount
       case AdjustmentRef => e.refId.Some? && e.refId.value < invoiceCount
       case PaymentRef => e.refId.Some? && e.refId.value < paymentCount
       case OpeningRef => e.refId.None?
  }

  /** A stored payment: an existing client, a positive whole-cent amount, and an existing invoice if any. */
  predicate PaymentOk(p: Payment, clientCount: nat, invoiceCount: nat) {
    p.clientId < clientCount
    && IsCents(p.amount) && p.amount > 0.0
    && (p.invoiceId.Some? ==> p.invoiceId.value < invoiceCount)
  }

  predicate LedgerOk(ledger: seq<ClientEntry>, clientCount: nat, invoiceCount: nat, paymentCount: nat) {
    forall i :: 0 <= i < |ledger| ==> EntryOk(ledger[i], clientCount, invoiceCount, paymentCount)
  }

  predicate InvoicesOk(invoices: seq<Invoice>, clientCount: nat) {
    forall i :: 0 <= i < |invoices| ==> invoices[i].clientId < clientCount && InvoiceOk(invoices[i])
  }

  predicate PaymentsOk(payments: seq<Payment>, clientCount: nat, invoiceCount: nat) {
    forall i :: 0 <= i < |payments| ==> PaymentOk(payments[i], clientCount, invoiceCount)
  }

  class ClientBooks {
    var clients: seq<Client>
    var invoices: seq<Invoice>
    var payments: seq<Payment>
    var ledger: seq<ClientEntry>

    /** Every reference points at an existing record and every record is well formed. */
    ghost predicate Valid()
      reads this
    {
      LedgerOk(ledger, |clients|, |invoices|, |payments|)
      && InvoicesOk(invoices, |clients|)
      && PaymentsOk(payments, |clients|, |invoices|)
    }

    constructor ()
      ensures Valid()
      ensures clients == [] && invoices == [] && payments == [] && ledger == []
    {
      clients := [];
      invoices := [];
      payments := [];
      ledger := [];
    }

    /** `Client.create`: the new client's id is the next position. */
    method AddClient(c: Client) returns (id: nat)
      requires Valid()
      modifies this
      ensures Valid()
      ensures id == |old(clients)| && clients == old(clients) + [c]
      ensures invoices == old(invoices) && payments == old(payments) && ledger == old(ledger)
    {
      id := |clients|;
      clients := clients + [c];
    }

    /** Saving a client document after its sub-documents changed. */
    method SaveClient(id: nat, c: Client)
      requires Valid() && id < |clients|
      modifies this
      ensures Valid()
      ensures clients == old(clients)[id := c]
      ensures invoices == old(invoices) && payments == old(payments) && ledger == old(ledger)
    {
      clients := clients[id := c];
    }

    /** `Invoice.create`. */
    method AddInvoice(inv: Invoice) returns (id: nat)
      requires Valid() && inv.clientId < |clients| && InvoiceOk(inv)
      modifies this
      ensures Valid()
      ensures id == |old(invoices)| && invoices == old(invoices) + [inv]
      ensures clients == old(clients) && payments == old(payments) && ledger == old(ledger)
    {
      id := |invoices|;
      invoices := invoices + [inv];
    }

    /** `invoice.save()` after its amounts changed. */
    method SaveInvoice(id: nat, inv: Invoice)
      requires Valid() && id < |invoices| && inv.clientId < |clients| && InvoiceOk(inv)
      modifies this
      ensures Valid()
      ensures invoices == old(invoices)[id := inv]
      ensures clients == old(clients) && payments == old(payments) && ledger == old(ledger)
    {
      invoices := invoices[id := inv];
    }

    /** `Payment.create`. */
    method AddPayment(p: Payment) returns (id: nat)
      requires Valid() && PaymentOk(p, |clients|, |invoices|)
      modifies this
      ensures Valid()
      ensures id == |old(payments)| && payments == old(payments) + [p]
      ensures clients == old(clients) && invoices == old(invoices) && ledger == old(ledger)
    {
      id := |payments|;
      payments := payments + [p];
    }

    /** `LedgerEntry.create`: a row is appended, never changed afterwards. */
    method Post(e: ClientEntry)
      requires Valid() && EntryOk(e, |clients|, |invoices|, |payments|)
      modifies this
      ensures Valid()
      ensures ledger == old(ledger) + [e]
      ensures clients == old(clients) && invoices == old(invoices) && payments == old(payments)
    {
      ledger := ledger + [e];
    }
  }
}
