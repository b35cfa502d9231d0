# Billing core, modelled and proved in Dafny

This project models the money core of a small-business billing system, a Node/Express server backed by MongoDB plus a React browser client. It covers clients, GST-aware invoices and quotations, payments, a running ledger per client and per staff member, payroll, expenses, a monthly cash-flow report and login by one-time password. Every collection the server queries or appends to is held in memory. Classes (`Books.ClientBooks`, `Payroll.StaffBooks`, `Quotations.QuotationBook`, `Expenses.ExpenseStore`, `Auth.UserStore`, `InvoiceNumber.CounterTable`) hold it as fields of type `seq` or `map`, and the controller operations are methods that change those fields. The pure parts are functions, with lemmas about them:

- the pricing formula;
- rounding to the cent;
- the "latest entry" balance lookup;
- number formats;
- date arithmetic;
- the browser's previews, guards and request bodies.

Amounts are exact reals. `round2` is `Math.round((x + Number.EPSILON) * 100) / 100`, with `Number.EPSILON` kept as the exact offset 2^-52. Instants are whole milliseconds. Where the code reads calendar fields, a civil date (year, month, day, time of day) is computed from the milliseconds.

The modules follow the program:

| module | models |
|---|---|
| `Money`, `Pricing` | `round2` and the three-mode GST formula shared by invoices, quotations and both browser previews |
| `Ledger`, `LedgerView` | the ledger entry, `getCurrentBalance`/`getStaffCurrentBalance`, and the browser's running balance |
| `Books` | the client store: clients, invoices, payments, ledger, counters, and the invoice status rule |
| `InvoiceController`, `PaymentController`, `ClientController` | `createInvoice`, `recordPayment`, and the client controller's operations |
| `Quotations`, `Payroll`, `Expenses`, `Report`, `Auth` | the quotation, staff, expense, report and OTP controllers |
| `InvoiceNumber`, `QuoteNumber`, `PaymentNumber`, `Dates`, `Calendar`, `Pdf` | the server's utilities |
| `InvoiceForm`, `QuotationForm`, `PayrollForm`, `ExpenseForm`, `ClientForms` | the browser's forms |
| `Text`, `Lists`, `Wrappers` | string, list and option helpers |

Four behaviours of the code are modelled as written:

- `createInvoice` defaults `lineItems` to `[]` (server/controllers/invoiceController.js:19) and never checks that the list is non-empty, unlike `createQuotation`'s `LINE_ITEMS_REQUIRED`; an invoice with no lines is priced on its extra amount alone.
- `recordAdvance` (server/controllers/staffController.js:70-82) passes the body's amount to the ledger without checking that it is positive. Only the payroll panel checks it.
- An invoice posted from the invoice form, or converted from a quotation, is priced on its extra amount alone. `createInvoice` sums only `qty * unitPriceExclGst` or `qty * unitPriceInclGst` (server/controllers/invoiceController.js:33-45), and neither the form's payload nor the converted items carry a unit price (`InvoiceForm.PayloadPricesOnlyExtra`, `Quotations.ConvertedInvoiceOfOneLine`).
- server/models/Payment.js:12 declares `receiptNo` required and unique, and `recordPayment` never sets it (see Findings).

The ledger's running-balance chain is stated per append (each operation's new row starts from the balance before it) rather than as an invariant of the whole store, because a backdated payment leaves the latest entry, and so the balance, where it was (`Ledger.AppendBackdated`, `PaymentController.BackdatedPaymentLeavesBalance`).

## Model

| member | source | states |
|---|---|---|
| Money.Round2 | server/controllers/staffController.js:9 | `round2` with the epsilon nudge lands on whole cents, within half a cent of x + EPSILON |
| Money.RoundPlain | client/src/pages/QuotationsPage.jsx:162-173 | the preview's `Math.round(x * 100) / 100` lands on whole cents, within half a cent of x |
| Money.Round2OfCents | server/controllers/staffController.js:9 | `round2` leaves a whole-cent amount unchanged |
| Money.RoundPlainOfCents | client/src/pages/QuotationsPage.jsx:162-173 | the plain rounding leaves a whole-cent amount unchanged |
| Money.Round2Monotone | server/controllers/staffController.js:9 | `round2` never reverses the order of two amounts |
| Money.Round2Sign | server/controllers/staffController.js:9 | `round2` of a non-negative amount is non-negative |
| Money.EpsilonMatters | server/controllers/staffController.js:9 | the two roundings part: just under half a cent rounds up to 0.01 with the nudge and down to 0 without it |
| Money.CentsClosed | server/controllers/staffController.js:9 | sums and differences of whole-cent amounts are whole cents, so rounding them again changes nothing |
| Pricing.GstRateFor | server/controllers/invoiceController.js:28-29 | NOGST prices at rate 0; otherwise the override is used when given (even 0), else the default 0.18 |
| Pricing.ModeTotalsReconcile | server/controllers/invoiceController.js:51-67 | in all three modes and with either rounding, subtotal, GST and total are whole cents and subtotal + GST = total |
| Pricing.ModeTotalsNonNegative | server/controllers/invoiceController.js:51-67 | for a non-negative amount and rate no figure is negative and neither the subtotal nor the GST exceeds the total |
| Pricing.InclusiveBaseBelowGross | server/controllers/invoiceController.js:55-62 | the INCLUSIVE base backed out of the gross lies between 0 and the gross |
| Pricing.ZeroRateIsNoGst | server/controllers/invoiceController.js:51-67 | at rate 0 EXCLUSIVE and INCLUSIVE give the NOGST figures: no tax and total = subtotal |
| Pricing.ExclusiveTaxClose | server/controllers/invoiceController.js:51-54 | the EXCLUSIVE GST is the subtotal times the rate to within half a cent (plus the nudge) |
| Pricing.InclusiveBaseClose | server/controllers/invoiceController.js:55-62 | the INCLUSIVE total is the rounded gross and the base is gross / (1 + rate) to within half a cent |
| Ledger.LatestIndex | server/utils/balance.js:4-6 | the query `sort({date: -1, createdAt: -1}).limit(1)`: none exactly when the owner has no entries, else an entry of the owner that no other entry of the owner sorts after |
| Ledger.LatestIsUnique | server/utils/balance.js:4-6 | the latest entry is the only one of the owner's entries that none sorts after |
| Ledger.NoEntriesNoBalance | server/utils/balance.js:7 | with no entries for the owner the current balance is 0 |
| Ledger.AppendOtherOwner | server/utils/balance.js:4 | another owner's entry never changes this owner's balance |
| Ledger.AppendLatest | server/utils/balance.js:4-7 | an entry dated no earlier than the owner's others becomes the latest: the balance is its `balanceAfter` |
| Ledger.AppendBackdated | server/utils/staffBalance.js:4-7 | an entry dated before one of the owner's entries leaves the balance unchanged |
| Books.DerivedStatus | server/controllers/invoiceController.js:103-104 | PAID exactly when nothing is pending, PARTIALLY_PAID exactly when something is pending and something is paid, else DUE |
| Books.ApplyKeepsInvoiceOk | server/controllers/paymentController.js:55-60 | applying a whole-cent amount up to the pending amount moves it from pending to paid, keeps the totals, and makes the invoice PAID exactly when the whole pending amount was applied |
| Books.ClientBooks.AddClient | server/controllers/clientController.js:31 | `Client.create` appends exactly the new client under the next id and leaves the other collections as they were |
| Books.ClientBooks.SaveClient | server/controllers/clientController.js:385 | `client.save()` replaces exactly that client and nothing else |
| Books.ClientBooks.AddInvoice | server/controllers/invoiceController.js:70-81 | `Invoice.create` appends exactly the new invoice under the next id; clients, payments and ledger stay as they were |
| Books.ClientBooks.SaveInvoice | server/controllers/invoiceController.js:105 | `invoice.save()` replaces exactly that invoice and nothing else |
| Books.ClientBooks.AddPayment | server/controllers/paymentController.js:22-31 | `Payment.create` appends exactly the new payment under the next id and nothing else |
| Books.ClientBooks.Post | server/controllers/invoiceController.js:86-95 | `LedgerEntry.create` appends exactly one row; no earlier row changes |
| InvoiceController.Qty | server/controllers/invoiceController.js:37 | `toNum(it.qty or 1)`: a missing or zero quantity counts as 1, any other is used as it is |
| InvoiceController.SumsAppend | server/controllers/invoiceController.js:33-45 | both line sums add up over concatenation: each line contributes qty times its active price field |
| InvoiceController.LinesWithoutPricesSumToZero | server/controllers/invoiceController.js:33-45 | lines carrying no unit price (only `amountExclGst`/`amountInclGst`) contribute 0 to both sums |
| InvoiceController.NewInvoice | server/controllers/invoiceController.js:70-81 | a new invoice carries the request's client, the drawn number, the mode totals and rate, paid 0, pending = total, status DUE |
| InvoiceController.CreatedInvoice | server/controllers/invoiceController.js:97-105 | the invoice as created, with any advance applied, keeps the stored-invoice invariant: totals reconcile, paid and pending are whole cents adding up to the total, and the status is derived from them |
| InvoiceController.AdvanceApplied | server/controllers/invoiceController.js:97-100 | the applied advance is 0 unless the previous balance is negative and the total positive; then it is min(round2(-prev), total) |
| InvoiceController.AdvanceAppliedOfCents | server/controllers/invoiceController.js:97-99 | on a whole-cent negative balance the advance applied is min(-prev, total) |
| InvoiceController.Offset | server/controllers/invoiceController.js:100-105 | the applied advance is paid on the invoice and taken off its pending amount; number, client and totals are kept |
| InvoiceController.InvoicePostings | server/controllers/invoiceController.js:84-118 | one DEBIT INVOICE row of the total with balance round2(prev + total), then a CREDIT ADJUSTMENT row of the applied advance with balance round2(afterInvoice - apply) exactly when an advance is applied |
| InvoiceController.PostInvoice | server/controllers/invoiceController.js:84-119 | the ledger gains exactly the postings for the client's current balance and the invoice is replaced by its offset version; clients and payments are unchanged |
| InvoiceController.CreateInvoice | server/controllers/invoiceController.js:24-119 | an unknown client is CLIENT_NOT_FOUND with nothing changed; otherwise one number is drawn, one invoice stored and its postings appended, and numbers stay distinct |
| InvoiceController.AddNumbered | server/models/Invoice.js:14 | an invoice with a fresh number keeps the stored numbers distinct |
| InvoiceController.BalanceAfterInvoice | server/controllers/invoiceController.js:84-118 | after creation the invoice's pending amount is total - apply, and on a whole-cent previous balance the client's balance is prev + total - apply |
| InvoiceController.PostingsLeaveBalance | server/controllers/invoiceController.js:85-107 | the balance the postings leave is round2(round2(prev + total) - apply) when an advance is applied, else round2(prev + total) |
| InvoiceController.SettledArithmetic | server/controllers/invoiceController.js:85-107 | on whole cents the two roundings of the postings change nothing |
| InvoiceController.AdvanceCountedTwice | server/controllers/invoiceController.js:97-117 | a client holding a whole-cent advance a, invoiced at least a, ends with balance total - 2a while the invoice shows total - a pending |
| InvoiceController.NoAdvanceNoOffset | server/controllers/invoiceController.js:97-98 | with a balance of 0 or more only the DEBIT is posted and the invoice stays as created: paid 0, DUE |
| InvoiceNumber.ParseFormat | server/utils/invoiceNumber.js:10-11 | key + "-" + seq padded to 4 digits reads back as that key and sequence number |
| InvoiceNumber.FormatInjective | server/utils/invoiceNumber.js:10-11 | two numbers are equal only for the same key and sequence number |
| InvoiceNumber.BumpKeepsReached | server/utils/invoiceNumber.js:7-9 | after the increment the new number was never issued before and every issued number stays within its key's counter |
| InvoiceNumber.CounterTable.NextInvoiceNo | server/utils/invoiceNumber.js:4-12 | the key is "INV-" + YYYYMM; its counter (0 when new) goes up by exactly 1, others are unchanged; the result is key-seq padded to 4 digits and was never issued before |
| InvoiceNumber.CounterTable.Bump | server/utils/invoiceNumber.js:7-11 | `findOneAndUpdate` with `$inc` and `upsert`: that key's counter (0 when new) goes up by exactly 1, the others are unchanged, and the number key-seq was never issued before |
| Money.MathRound | server/controllers/staffController.js:9 | `Math.round` gives the whole number within half of its argument, halves rounded up |
| Money.RoundPlainMonotone | client/src/pages/QuotationsPage.jsx:162-173 | the preview's rounding never reverses the order of two amounts |
| PaymentController.FoundInvoice | server/controllers/paymentController.js:21 | the invoice is found exactly when an id is given and exists, by id alone (not checked against the client) |
| PaymentController.CanApply | server/controllers/paymentController.js:53-54 | the amount applied is min(pending, amt) when both are positive, else nothing |
| PaymentController.SettledInvoiceOk | server/controllers/paymentController.js:52-60 | applying a receipt moves min(pending, amt) from pending to paid, keeps totals and number, leaves an already-paid invoice unchanged, and makes the invoice PAID exactly when the receipt covers what was pending |
| PaymentController.NextReceiptContinues | server/utils/paymentNumber.js:5-14 | receipts numbered pay_1, pay_2, ... continue with pay_(n+1) and stay so numbered |
| PaymentController.NextReceiptIs | server/utils/paymentNumber.js:5-14 | after receipts pay_1 ... pay_n the next receipt number is pay_(n+1) |
| PaymentController.ReceiptsDistinct | server/models/Payment.js:12 | receipts drawn that way are unique, as the schema's unique index demands |
| PaymentController.Reply | server/controllers/paymentController.js:68-72 | `isAdvance` exactly when no invoice was found, whatever was applied; `invoiceAppliedTo` exactly when one was found, carrying the applied amount and a pending amount only when something was applied |
| PaymentController.RecordPaymentAsWritten | server/controllers/paymentController.js:14-31 | as written: CLIENT_NOT_FOUND, then AMOUNT_REQUIRED for amt = round2(amount) at most 0, and every other request refused because `Payment.create` omits the required receipt number |
| PaymentController.RecordPayment | server/controllers/paymentController.js:9-78 | corrected: CLIENT_NOT_FOUND and AMOUNT_REQUIRED change nothing; otherwise one payment with the next receipt number, exactly one CREDIT PAYMENT row of amt with balance round2(prev - amt), and the found invoice, only it, settled |
| PaymentController.ApplyPayment | server/controllers/paymentController.js:52-60 | only the found invoice changes, to its settled version; no second ledger row |
| PaymentController.BalanceAfterPayment | server/controllers/paymentController.js:34-42 | a payment dated no earlier than the client's rows leaves balance round2(prev - amt), which is prev - amt on whole cents |
| PaymentController.LatestCredit | server/controllers/paymentController.js:34-42 | a CREDIT row of round2(prev - amt) dated no earlier than the owner's rows becomes the latest, so it is the reported balance, exactly prev - amt on whole cents |
| PaymentController.BackdatedPaymentLeavesBalance | server/controllers/paymentController.js:39 | a payment dated before one of the client's rows is not the latest entry, so the reported balance does not move |
| PaymentNumber.NextPaymentNo | server/utils/paymentNumber.js:5-14 | no previous payment or no receipt number gives pay_1; otherwise pay_ followed by the trailing number plus 1 (1 when there are no trailing digits), unpadded |
| PaymentNumber.PaymentNoDigits | server/utils/paymentNumber.js:10-13 | the trailing digits of pay_n are n written out, so its successor is n + 1 |
| PaymentNumber.NextAfterPaymentNo | server/utils/paymentNumber.js:10-13 | after pay_n comes pay_(n+1) |
| PaymentNumber.PaymentNoInjective | server/utils/paymentNumber.js:13 | distinct counts give distinct receipt numbers |
| QuoteNumber.NextQuoteNo | server/utils/quoteNumber.js:4-10 | no previous quotation or no number gives QTN-0001; otherwise QTN- and the trailing number plus 1 padded to 4 digits |
| QuoteNumber.QuoteNoDigits | server/utils/quoteNumber.js:8-10 | the trailing digits of QTN-n are n padded to 4 digits, so its successor is n + 1 |
| QuoteNumber.NextAfterQuoteNo | server/utils/quoteNumber.js:8-10 | after QTN-n comes QTN-(n+1) |
| QuoteNumber.QuoteNoInjective | server/utils/quoteNumber.js:10 | distinct counts give distinct quotation numbers |
| QuoteNumber.NoDigitsRestarts | server/utils/quoteNumber.js:9 | a last number without trailing digits restarts the sequence at QTN-0001 |
| Payroll.SalaryTotals | server/controllers/staffController.js:117-119 | gross, total deductions and net pay are each a `round2`, so all three are whole cents |
| Payroll.SalaryTotalsExact | server/controllers/staffController.js:117-120 | on whole-cent inputs gross is the sum of earnings, deductions the sum of deductions, net pay their difference, and net pay is negative exactly when deductions exceed earnings |
| Payroll.StaffRowBalance | server/controllers/staffController.js:58-66 | the row `addLedger` appends becomes the latest, and on whole cents its balance is prev + amt for a DEBIT and prev - amt for a CREDIT |
| Payroll.SalaryPostings | server/controllers/staffController.js:133-153 | a DEBIT SALARY row of the net pay, then a CREDIT RECOVERY row of the recovery exactly when it is above 0, both for the staff member and the payment and dated now |
| Payroll.PostingsBalance | server/controllers/staffController.js:133-153 | the staff balance after the postings is the last row's; on whole cents the salary row holds prev + net pay and the balance ends at prev + net pay - recovery (for any remarks, so for those of `SalaryPostings`) |
| Payroll.RecoveryContinues | server/controllers/staffController.js:144-152 | the CREDIT RECOVERY row reads the balance the DEBIT left and ends at round2(debit balance - recovery) |
| Payroll.AddKeepsOnePerPeriod | server/controllers/staffController.js:111-115 | adding a payment for an unpaid (staff, month, year) keeps at most one payment per period and marks that period paid |
| Payroll.StaffBooks.AddSalary | server/models/SalaryPayment.js:1-35 | a salary payment is stored only for an unpaid period, which it then marks paid |
| Payroll.StaffBooks.AddStaff | server/controllers/staffController.js:20 | `Staff.create` appends exactly the new staff member under the next id and nothing else |
| Payroll.StaffBooks.SaveSlipPath | server/controllers/staffController.js:176-177 | `pay.slipPath = outPath; pay.save()` sets the slip path of exactly that payment, to the slip's file name rather than its full path, and changes nothing else |
| Payroll.StaffBooks.Post | server/controllers/staffController.js:62-64 | `StaffLedgerEntry.create` appends exactly one row; no earlier row changes |
| Payroll.AddLedger | server/controllers/staffController.js:58-66 | exactly one row is appended, with amt = Number(amount or 0), balance round2(prev + amt) for DEBIT or round2(prev - amt) for CREDIT, dated now; the returned balance is that row's |
| Payroll.RecordAdvance | server/controllers/staffController.js:70-90 | an unknown staff is STAFF_NOT_FOUND with nothing changed; otherwise exactly one DEBIT ADVANCE row, remarked "Salary advance" when no remark is given, the body's date unused |
| Payroll.PaySalary | server/controllers/staffController.js:94-186 | STAFF_NOT_FOUND, MONTH_YEAR_REQUIRED, ALREADY_PAID_FOR_MONTH and NET_PAY_NEGATIVE, in that order, change nothing; the call succeeds exactly when none of them applies, and then one payment and the salary postings are stored, and the reply's `ledgerAfter` is the SALARY row's balance, not the balance after recovery |
| Quotations.LineAmount | server/controllers/quotationController.js:59 | a line's `round2(net * qty)` is whole cents |
| Quotations.LineNet | server/controllers/quotationController.js:52-64 | each line contributes round2((active unit price - discount) * qty), qty defaulting to 1 and discount to 0, in whole cents |
| Quotations.QuoteLineSumCents | server/controllers/quotationController.js:49-65 | the quotation line sum is whole cents |
| Quotations.AccumulateLines | server/controllers/quotationController.js:49-65 | the loop adds every line's rounded net amount into the active mode's sum only; the other sum stays 0 |
| Quotations.ComputeTotals | server/controllers/quotationController.js:67-86 | the totals computed step by step are the shared three-mode formula on the line sum plus the extra amount |
| Quotations.QuoteTotals | server/controllers/quotationController.js:43-86 | the quotation's totals reconcile: whole cents and subtotal + GST = total |
| Quotations.PlainLineNet | server/controllers/quotationController.js:52-64 | an undiscounted whole-cent line contributes exactly what the invoice formula gives it |
| Quotations.WithoutDiscountsSumsAgree | server/controllers/quotationController.js:52-64 | without discounts, on whole-cent lines, the quotation sum equals the invoice line sum: the copies differ only by the per-line discount and rounding |
| Quotations.DiscountNeverRaises | server/controllers/quotationController.js:54-63 | a non-negative discount never raises a line's amount |
| Quotations.StoredItems | server/controllers/quotationController.js:91-95 | every stored item is its request line with `BillingType` from `frequency` (ONE_TIME by default) and the discount as a number |
| Quotations.NewQuotation | server/controllers/quotationController.js:97-115 | the new quotation has the drawn number, the found client or none, the computed totals, and status SENT with `sentAt` exactly when `markSentTo` is non-empty, else DRAFT |
| Quotations.NextQuoteNoFresh | server/utils/quoteNumber.js:4-10 | quotations numbered QTN-0001, QTN-0002, ... get the next number, which no stored quotation has |
| Quotations.QuotationBook.Add | server/models/Quotation.js:4-6 | `Quotation.create` refuses a quotation with an undescribed line and stores nothing; otherwise it appends exactly the new quotation under the next id |
| Quotations.QuotationBook.Save | server/controllers/quotationController.js:120-122 | `quotation.save()` replaces exactly that quotation, keeping its number and totals |
| Quotations.StoreQuotation | server/controllers/quotationController.js:97-122 | a quotation with an undescribed line (server/models/Quotation.js:6) is refused with nothing stored; otherwise it is stored under the next id with number QTN-(n+1) and then its PDF path `<quoteNo>.pdf`; numbers stay distinct and in sequence |
| Quotations.CreateQuotation | server/controllers/quotationController.js:36-125 | missing or empty `lineItems` is LINE_ITEMS_REQUIRED and a line without a description is a validation failure, each with nothing stored; otherwise exactly one quotation is stored, numbered next, with its PDF path |
| Quotations.StatusUpdated | server/controllers/quotationController.js:217-222 | the given status is set first; then non-empty `addSentTo` is appended, `sentAt` set and DRAFT promoted to SENT; nothing else changes |
| Quotations.UpdateQuotationStatus | server/controllers/quotationController.js:209-228 | an unknown id is NOT_FOUND with nothing changed; otherwise only that quotation is replaced by its updated version |
| Quotations.ConvertedItem | server/controllers/quotationController.js:239-254 | a converted item carries `amountInclGst` in INCLUSIVE mode and `amountExclGst` otherwise, and no unit price |
| Quotations.ConvertedItems | server/controllers/quotationController.js:239-254 | one converted item per quotation item, in order |
| Quotations.ConvertedPricesOnlyExtra | server/controllers/quotationController.js:239-273 | the converted invoice's totals are the formula on the extra amount alone: its line sum is 0 |
| Quotations.ConvertedInvoiceOfOneLine | server/controllers/quotationController.js:239-273 | a quotation of one 100.00 line at 18% stores 118.00 but converts to an invoice of 0.00 |
| Quotations.ConvertQuotation | server/controllers/quotationController.js:231-277 | NOT_FOUND and CLIENT_REQUIRED_TO_CONVERT change nothing; otherwise the quotation becomes ACCEPTED before the invoice is created; an unknown client then leaves invoices, ledger and counters as they were, and a known one gets exactly the invoice, counter draw and ledger rows `createInvoice` makes for the converted request |
| Quotations.CreateConvertedInvoice | server/controllers/quotationController.js:256-272 | the conversion's `createInvoice` call: an unknown client changes nothing and is reported as the conversion's failure; a known one gets exactly the invoice, counter draw and ledger rows of the converted request |
| ClientController.OpeningRows | server/controllers/clientController.js:34-43 | a zero opening balance posts nothing; any other posts exactly one OPENING row, DEBIT when positive and CREDIT when negative, of amount the absolute value, with balance the opening balance |
| ClientController.OwnRows | server/controllers/clientController.js:36 | the rows listed for a client are all that client's |
| ClientController.NoOwnRows | server/controllers/clientController.js:36 | a ledger without rows of a new client lists none for it |
| ClientController.OpeningStartsChain | server/controllers/clientController.js:33-43 | after `createClient` the new client's own ledger rows form a running-balance chain from 0 whose last balance is the opening balance, which is also its current balance |
| ClientController.CreateClient | server/controllers/clientController.js:29-51 | a document the schema refuses (server/models/Client.js:17-41,56: an empty name, an incomplete credential, an undescribed action item) changes nothing; otherwise one client is added with its opening rows, and its current balance is then its opening balance |
| ClientController.PageNumber | server/controllers/clientController.js:63 | the page is the parsed page when that is 1 or more, else 1 |
| ClientController.PageLimit | server/controllers/clientController.js:64 | the limit is clamped to 1..200, 25 when missing or 0 |
| ClientController.PageCount | server/controllers/clientController.js:88 | `Math.ceil(total / limit)`: the fewest pages of `limit` rows that hold all rows |
| ClientController.NewestFirst | server/controllers/clientController.js:81 | `sort({createdAt: -1})`: the clients in reverse creation order |
| ClientController.Skip | server/controllers/clientController.js:65 | skip = (page - 1) * limit is never negative |
| ClientController.ListClients | server/controllers/clientController.js:62-89 | the page holds at most `limit` clients, exactly the newest-first rows from skip on, with total and page count beside them |
| ClientController.EveryClientOnItsPage | server/controllers/clientController.js:63-88 | every client appears, at a computable position, on a page within the page count |
| ClientController.PositionOnPage | server/controllers/clientController.js:65-88 | position p sits on page p / limit + 1 at offset p % limit, within the page count |
| ClientController.MeetingsInRange | server/controllers/clientController.js:331-338 | filtering by the bounds never adds meetings |
| ClientController.MeetingsInRangeSpec | server/controllers/clientController.js:331-338 | a meeting is kept, as often as it occurs, exactly when its date satisfies from <= date <= to for the bounds given (an unparseable bound is none) |
| ClientController.FiltersCompose | server/controllers/clientController.js:331-338 | filtering by `from` and then by `to` keeps the same meetings as the combined range |
| ClientController.SortLatestFirst | server/controllers/clientController.js:350 | sorts the meetings latest first, as a permutation |
| ClientController.InsertLatestFirst | server/controllers/clientController.js:350 | one insertion step extends the latest-first prefix, as a permutation |
| ClientController.SwapWithPrevious | server/controllers/clientController.js:350 | exchanges two neighbours and nothing else |
| ClientController.SortedCopy | server/controllers/clientController.js:349-350 | the copy is latest first and holds the same meetings |
| ClientController.ListClientMeetings | server/controllers/clientController.js:320-356 | CLIENT_NOT_FOUND for an unknown client; otherwise exactly the meetings in range, latest first |
| ClientController.MaskCredential | server/controllers/clientController.js:10-15 | a non-empty password becomes the mask and an empty or null one stays; every other field is unchanged |
| ClientController.MaskIdempotent | server/controllers/clientController.js:10-15 | masking twice is masking once |
| ClientController.MaskHidesPassword | server/controllers/clientController.js:13 | two credentials differing only in their non-empty passwords mask to the same value |
| ClientController.MaskCredentials | server/controllers/clientController.js:17-19 | every credential of the list is masked, in order |
| ClientController.SafeClient | server/controllers/clientController.js:249-251 | a returned client holds no password other than null, empty or the mask, and nothing else differs |
| ClientController.BuildCredentialPatch | server/controllers/clientController.js:223-239 | the loop over the whitelisted keys builds exactly the credential patch |
| ClientController.PatchIsWhitelisted | server/controllers/clientController.js:224-236 | the patch holds exactly the whitelisted keys present in the body, with their values (`lastRotatedAt` apart) |
| ClientController.IgnoresOtherKeys | server/controllers/clientController.js:224-236 | a key outside the whitelist never changes the patch |
| ClientController.PasswordRotation | server/controllers/clientController.js:237-239 | a truthy new password without a truthy `lastRotatedAt` dates the rotation now; a given one is kept |
| ClientController.PatchedCredential | server/controllers/clientController.js:241-245 | `$set` with no validators: refused exactly when a value does not cast (a list for a string, a non-date for the date); otherwise each key in the update sets its field to the cast value, null included, and every other field and the id are unchanged |
| ClientController.TextFieldsSet | server/controllers/clientController.js:241-245 | the string fields set one by one are, key by key, the cast value when the key is in the update and the old value otherwise |
| ClientController.NullClearsRequiredField | server/controllers/clientController.js:241-245 | a null `panelName` is stored as null although the schema requires it (server/models/Client.js:17), and nothing else changes |
| ClientController.ListInTextFieldRefused | server/controllers/clientController.js:241-245 | a list sent for any string field makes the whole update fail to cast, whatever else the body carries |
| ClientController.NewPasswordIsDated | server/controllers/clientController.js:235-239 | after the update the credential holds the new password and, unless given, a rotation date of now |
| ClientController.CredentialIndex | server/controllers/clientController.js:242 | the credential is found exactly when the client holds one with that id, at the first such position |
| ClientController.UpdateClientCredential | server/controllers/clientController.js:219-255 | an update that does not cast is a 400 that changes nothing, before any lookup; CLIENT_OR_CREDENTIAL_NOT_FOUND changes nothing; otherwise only that credential is patched and the reply is masked |
| ClientController.PatchedActionItem | server/controllers/clientController.js:379-385 | refused exactly when a present key does not cast, the status names no member of the enum (server/models/Client.js:41), or the description ends empty or null (Client.js:38); otherwise each present key sets its field to the cast value and the rest is kept |
| ClientController.ActionPatchIdempotent | server/controllers/clientController.js:381-383 | applying an accepted patch twice is applying it once |
| ClientController.EmptyActionPatch | server/controllers/clientController.js:381-385 | an empty patch leaves a described item unchanged, and the save refuses an undescribed one |
| ClientController.MeetingIndex | server/controllers/clientController.js:369-372 | the meeting is found exactly when the client holds one with that id |
| ClientController.UpdateMeetingActionItem | server/controllers/clientController.js:360-390 | INVALID_ACTION_INDEX, CLIENT_OR_MEETING_NOT_FOUND, ACTION_ITEM_NOT_FOUND and a patch the save refuses change nothing; otherwise only that item of that meeting is patched |
| ClientController.ServiceOf | server/controllers/clientController.js:412-424 | refused exactly when kind, billing type or start date is missing; the amounts default to 0, and the expiry date and notes are kept only when given |
| ClientController.AddClientService | server/controllers/clientController.js:404-437 | KIND_BILLINGTYPE_STARTDATE_REQUIRED and CLIENT_NOT_FOUND change nothing; otherwise exactly the service is appended to the client |
| Report.MonthKeyInjective | server/controllers/reportController.js:7-10 | "YYYY-MM" with the month padded to 2 digits names exactly one (year, month) |
| Report.SameMonthKey | server/controllers/reportController.js:7-10 | two instants share a month key exactly when they fall in the same calendar year and month |
| Report.AllTimeRange | server/controllers/reportController.js:34-42 | without a month, or with an empty one, the range runs from 1970-01-01 to 3000-01-01 |
| Report.MonthRangeBounds | server/controllers/reportController.js:37-38 | with a month the range runs from the first day at 00:00 to the last day at 23:59:59.999, a year 0..99 read as 1900..1999 and out-of-range months rolling over as `new Date` does |
| Report.NormalizeNext | server/controllers/reportController.js:37-38 | month index rollover: the month after December is January of the next year |
| Report.NextMonthDay | server/controllers/reportController.js:38 | the first of the next month lies `daysInMonth` days after the first of this one |
| Report.DayZero | server/controllers/reportController.js:38 | day 0 at 23:59:59.999 is the last instant before the month starts |
| Report.MonthRangeIsMonth | server/controllers/reportController.js:37-38 | an instant is in the month's range exactly when it falls in that calendar month, of year 1900 + y for a year y in 0..99 |
| Report.MonthRangeKey | server/controllers/reportController.js:37-38 | for months 1..12, an instant is in the range exactly when its month key is that month's key, so "25-09" selects September 1925 |
| Report.Truncate | server/controllers/reportController.js:37-38 | `new Date` reads each number as its integer part, rounded toward zero |
| Report.SplitNoDash | server/controllers/reportController.js:36 | a string with no dash splits into itself alone |
| Report.SplitAtDash | server/controllers/reportController.js:36 | two dash-free parts joined by a dash split back into exactly those parts |
| Report.DigitsNumber | server/controllers/reportController.js:36 | `Number` of a run of digits is the value they write |
| Report.MonthKeyParses | server/controllers/reportController.js:36 | a month key the report prints, fed back as the `month` query, parses to the same year and month |
| Report.NoDashFails | server/controllers/reportController.js:36-38 | a month with no dash leaves `mon` undefined, so the dates are invalid and the request fails with the 400 reply of line 86 |
| Report.Within | server/controllers/reportController.js:44-49 | the `$match` keeps only rows dated in the range |
| Report.MonthTotalsSpec | server/controllers/reportController.js:13-27 | the grouped totals have a key exactly for the months that occur, and each total is the sum of that month's amounts |
| Report.PaymentRows | server/controllers/reportController.js:47 | payments are grouped by `date` and summed by `amount` |
| Report.ExpenseRows | server/controllers/reportController.js:48 | expenses are grouped by `date` and summed by `amount` |
| Report.SalaryRows | server/controllers/reportController.js:49 | salaries are grouped by `paidOn` and summed by `netPay` |
| Report.IgnoresOtherEntries | server/controllers/reportController.js:55-59 | an entry that is not DEBIT+ADVANCE leaves the given totals unchanged, and one that is not CREDIT+RECOVERY leaves the recovered totals unchanged |
| Report.SelectedFrom | server/controllers/reportController.js:55-59 | every amount counted comes from an entry of the right type and reference |
| Report.AdvanceTotals | server/controllers/reportController.js:52-59 | the loop yields the month totals of exactly the DEBIT+ADVANCE entries and of exactly the CREDIT+RECOVERY entries |
| Report.StepTotals | server/controllers/reportController.js:57-58 | one step of the loop adds the entry's amount to its month when it matches and changes nothing otherwise |
| Report.StrLtTotal | server/controllers/reportController.js:69 | `sort()` compares strings by code unit; the order is total |
| Report.StrLtTransitive | server/controllers/reportController.js:69 | and transitive |
| Report.SortedKeys | server/controllers/reportController.js:62-69 | the months are duplicate-free, increasing and exactly the given set |
| Report.IncreasingUnique | server/controllers/reportController.js:69 | there is only one increasing sequence of a given set of months |
| Report.RowFor | server/controllers/reportController.js:72-82 | inflow = payments, outflow = expenses + salaries, net = inflow - outflow |
| Report.Rows | server/controllers/reportController.js:72 | one row per month, in order |
| Report.StoreTotals | server/controllers/reportController.js:47-49 | the three aggregates are taken over the range |
| Report.StaffInRange | server/controllers/reportController.js:52 | the staff entries read are exactly those dated in the range |
| Report.NetBalance | server/controllers/reportController.js:29-88 | the request fails exactly when the month query gives an Invalid Date; otherwise the report has one row per month of the union of the five maps, increasing, each row built from that month's totals |
| Report.ReportRowsSpec | server/controllers/reportController.js:62-82 | every row's payments, expenses and salaries are the sums of that month's rows in range, net is payments - (expenses + salaries), and no month repeats |
| Expenses.Payee | server/controllers/expenseController.js:15 | `(paymentTo or "").trim() or undefined`: the trimmed payee when it is not blank, else none |
| Expenses.CreateOutcome | server/controllers/expenseController.js:7-18 | INVALID_INPUT exactly when the name is falsy or Number(amount) <= 0 (NaN passes); past that, `Expense.create` refuses exactly a NaN amount or a name that trims to empty; otherwise the stored expense has the trimmed name, the amount as a number, mode OTHER by default, the payee, and the date or now |
| Expenses.ExpenseStore.Create | server/controllers/expenseController.js:5-23 | a refused body stores nothing; an accepted one is appended under a fresh id |
| Expenses.ExpenseStore.Append | server/controllers/expenseController.js:11 | exactly the new row is appended under the next id, which then moves on by one, keeping ids unique |
| Expenses.QueryMeansRange | server/controllers/expenseController.js:28-38 | the built query keeps exactly the rows dated at or after `from` and no later than the end of the `to` day, 23:59:59.999 |
| Expenses.Filter | server/controllers/expenseController.js:39 | the query never adds rows |
| Expenses.FilterCounts | server/controllers/expenseController.js:39 | every row the query matches is kept, as often as it occurs, and no other |
| Expenses.InsertNewestFirst | server/controllers/expenseController.js:39 | inserting into a newest-first list keeps it newest first and adds exactly that row |
| Expenses.InsertHead | server/controllers/expenseController.js:39 | the insertion step behind the head keeps the order |
| Expenses.SortNewestFirstSpec | server/controllers/expenseController.js:39 | `sort({date: -1, createdAt: -1})` orders by date, then creation, newest first, as a permutation |
| Expenses.ListExpensesSpec | server/controllers/expenseController.js:25-44 | the listing is newest first and holds exactly the stored rows in the date range |
| Expenses.ExpenseStore.List | server/controllers/expenseController.js:25-44 | the store's listing is that of its rows |
| Expenses.IndexOf | server/controllers/expenseController.js:49 | the row is found exactly when one with that id is stored |
| Expenses.ExpenseStore.Delete | server/controllers/expenseController.js:46-55 | NOT_FOUND exactly for an unknown id, with nothing changed, and no other failure; otherwise exactly that row is removed and no row with that id is left |
| Expenses.AppendKeepsIds | server/controllers/expenseController.js:11 | a row stored under the next id keeps ids unique |
| Expenses.RemoveKeepsIds | server/controllers/expenseController.js:49 | removing a row keeps ids unique and leaves no row with its id |
| Dates.TruncDiv | server/utils/dates.js:7 | integer division toward zero, as dayjs's `diff` truncates |
| Dates.DaysBetweenDays | server/utils/dates.js:3-8 | the whole-day difference of the two start-of-days, plus 1 |
| Dates.SameDayIsOne | server/utils/dates.js:3-8 | two instants of the same day count 1 |
| Dates.DayBeforeIsZero | server/utils/dates.js:7 | an end one day before the start counts 0 |
| Dates.DaysBetweenMonotone | server/utils/dates.js:3-8 | the count never falls as the end moves later |
| Dates.DaysBetweenSplit | server/utils/dates.js:3-8 | the days of a period split at a day boundary add up to the whole |
| Dates.ProratedAmountMonthly | server/utils/dates.js:10-15 | days is `daysBetween` of the period |
| Dates.ThirtyDaysIsOneMonth | server/utils/dates.js:13-14 | any 30-day period is charged exactly the monthly amount: the month is always 30 days |
| Dates.ProratedSplit | server/utils/dates.js:10-15 | prorating two adjacent periods charges the same as prorating their union |
| Dates.ExpiredIff | server/utils/dates.js:17-19 | not expired without an expiry date; otherwise expired exactly when the expiry day ended before today |
| Auth.Find | server/controllers/authController.js:19 | `User.findOne({identifier})`: the first user with that identifier, or none exactly when there is no such user |
| Auth.NormalizeEmpty | server/controllers/authController.js:15-18 | the normalized identifier (trimmed, lower-cased) is empty exactly when the trimmed input is |
| Auth.RequestSpec | server/controllers/authController.js:13-43 | IDENTIFIER_REQUIRED exactly for an empty identifier, changing nothing; otherwise the user (created as ADMIN with no name if new) gets the hash, an expiry 5 minutes on and 0 tries, and no other user changes |
| Auth.FindAppended | server/controllers/authController.js:20-22 | a user created for a new identifier is then the one found |
| Auth.VerifySucceedsIff | server/controllers/authController.js:45-97 | verify succeeds exactly for a non-empty identifier and code, a user holding an OTP with fewer than 5 tries, not expired, whose hash matches |
| Auth.VerifyEffects | server/controllers/authController.js:50-81 | every failure but OTP_INVALID changes nothing; a mismatch raises the tries by exactly 1 and keeps the hash; success clears hash and expiry and sets tries to 0 |
| Auth.RequestThenVerify | server/controllers/authController.js:24-31 | the code just issued verifies within 5 minutes |
| Auth.LateVerifyExpires | server/controllers/authController.js:62-64 | after 5 minutes it is OTP_EXPIRED |
| Auth.LockedRefuses | server/controllers/authController.js:59-61 | with 5 tries spent verify is OTP_TRIES_EXCEEDED and changes nothing |
| Auth.Budget | server/controllers/authController.js:8 | the remaining attempts are at most 5 |
| Auth.FindAfterUpdate | server/controllers/authController.js:31 | saving a user never changes which user an identifier finds |
| Auth.FindAfterAppend | server/controllers/authController.js:21 | creating another user never changes which user an identifier finds |
| Auth.OtherRequestKeeps | server/controllers/authController.js:13-43 | a request for another identifier leaves this user as it was |
| Auth.OtherVerifyKeeps | server/controllers/authController.js:45-97 | a verify for another identifier leaves this user as it was |
| Auth.VerifyBudget | server/controllers/authController.js:70-75 | each OTP_INVALID spends one attempt of the budget |
| Auth.StepBudget | server/controllers/authController.js:59-75 | no event but a request for this identifier raises its budget, and an invalid guess spends one |
| Auth.GuessBudget | server/controllers/authController.js:59-75 | over any run without a new request, invalid guesses plus the remaining budget never exceed the starting budget |
| Auth.RequestBudget | server/controllers/authController.js:28-30 | a request restores the full budget of 5 |
| Auth.SpentBudgetRefuses | server/controllers/authController.js:55-61 | with no budget left every verify fails |
| Auth.LockoutAfterFiveFailures | server/controllers/authController.js:59-70 | after 5 invalid guesses every later verify fails until a new OTP is requested |
| Auth.UserStore.RequestOtp | server/controllers/authController.js:13-43 | the store makes exactly the request step |
| Auth.UserStore.VerifyOtp | server/controllers/authController.js:45-97 | the store makes exactly the verify step |
| Auth.UserStore.VerifyCode | server/controllers/authController.js:50-81 | on normalized identifier and code the store makes exactly the verify step: the checks in order, then the tries update or the clearing of the OTP |
| Pdf.FixedTextReadsBack | server/utils/pdf.js:10-13 | the two-decimal text of c cents, signed, reads back as exactly that signed number of cents |
| Pdf.UnsignedReadsBack | server/utils/pdf.js:12 | the unsigned text of c cents is digits, a dot and two digits, reading back as c |
| Pdf.Fixed2ReadsBack | server/utils/pdf.js:12 | `toFixed(2)` writes the whole number of cents nearest to the value, with its sign |
| Pdf.Fixed2ReadsCents | server/utils/pdf.js:10-13 | a whole-cent amount is printed exactly |
| Pdf.CurrencyOfNotFinite | server/utils/pdf.js:11 | a non-finite value prints as 0.00 |
| Pdf.FracTextEnd | server/utils/pdf.js:18 | a non-zero fraction never ends in '0' |
| Pdf.StripIsNoOp | server/utils/pdf.js:18 | `replace(/\.0+$/, "")` never changes `String` of a value of at most two decimals |
| Pdf.PctExamples | server/utils/pdf.js:15-19 | the 18% rate is labelled "18" and a missing rate "0" |
| Pdf.LabelsDistinct | server/utils/pdf.js:21-25 | each mode gets its own amount heading |
| Pdf.LineAmountSides | server/utils/pdf.js:28-42 | a line's amount depends only on the active side, and EXCLUSIVE and NOGST read the same side |
| Pdf.SideAmountSpec | server/utils/pdf.js:28-42 | a stored amount is shown as it is (0 if not a number); without one the legacy round2(qty * rate) is used, with qty defaulting to 1 |
| Pdf.HiddenGstIsZero | server/utils/pdf.js:237-238 | where the GST row is hidden because the mode is NOGST or the rate is 0, the tax is 0 and the total is the subtotal |
| Pdf.NegativeRateHidesTax | server/utils/pdf.js:237-238 | a negative rate, which `createInvoice` takes unchecked (server/controllers/invoiceController.js:29), hides a negative tax: the row is not drawn while the total is below the subtotal |
| Pdf.RefTextReadsBack | server/utils/pdf.js:405 | the ledger reference text `TYPE #id` determines both the type and the id |
| Calendar.StartOfDay | server/utils/dates.js:5-6 | `startOf('day')` gives the midnight at or before the instant, less than a day before it |
| Calendar.EndOfDay | server/controllers/expenseController.js:35 | `setHours(23, 59, 59, 999)` gives the last millisecond of the instant's day |
| Calendar.SameDay | server/utils/dates.js:5-6 | two instants have the same start (or end) of day exactly when they lie on the same day |
| Calendar.BeforeEndOfDay | server/controllers/expenseController.js:35 | an instant is at or before the end of a day exactly when its day is not later |
| Calendar.DaysInMonth | client/src/components/Invoices.js:93 | `new Date(y, m, 0).getDate()` lies between 28 and 31 |
| Calendar.MonthLengths | client/src/components/Invoices.js:93 | the seven long months have 31 days, February has 29 exactly in a leap year, the others 30 |
| Calendar.CivilOf | server/controllers/reportController.js:7-9 | the calendar fields of an instant form a valid date whose instant is the one read |
| Calendar.CivilOfMs | server/controllers/reportController.js:7-9 | reading the fields of a valid date's instant gives that date back |
| Calendar.DateOfDay | server/controllers/reportController.js:7-9 | the date of a day number is a valid date of that day number, in the year and month whose days hold it |
| Calendar.YearOfDay | server/controllers/reportController.js:8 | `getFullYear`: the year whose days hold the day number |
| Calendar.MonthOfDay | server/controllers/reportController.js:8 | `getMonth`: the month of the year whose days hold the day of the year |
| Calendar.CivilUnique | server/controllers/reportController.js:7-9 | two valid dates with the same day number and time of day are the same date |
| Calendar.InMonthIff | server/controllers/reportController.js:37-38 | a day number lies in month m of year y exactly when it lies between that month's first day and the next month's |
| Calendar.InstantInMonth | server/controllers/reportController.js:37-38 | an instant falls in month m of year y exactly when it lies from `new Date(y, m - 1, 1)` up to the next month's first instant |
| Text.NatToString | server/utils/invoiceNumber.js:10 | `String(n)` of a count is at least one digit, with no leading zero unless it is 0 |
| Text.DigitsValueOfNatToString | server/utils/invoiceNumber.js:10 | `String(n)` reads back as n |
| Text.NatToStringInjective | server/utils/invoiceNumber.js:10 | distinct counts print differently |
| Text.IntToString | server/controllers/reportController.js:8 | `String(year)` of a signed year is at least one character, starting with '-' exactly for a negative year |
| Text.IntToStringInjective | server/controllers/reportController.js:8 | distinct years print differently |
| Text.PadStart | server/utils/invoiceNumber.js:10 | `padStart`: a long enough text is kept; otherwise fill characters go in front up to the width, the text itself at the end |
| Text.PaddedValue | server/utils/invoiceNumber.js:10 | a count zero-padded to any width is all digits and reads back as the count |
| Text.TrailingDigits | server/utils/quoteNumber.js:8 | `/(\d+)$/` takes the longest run of digits at the end of the text |
| Text.TrailingDigitsOf | server/utils/quoteNumber.js:8 | digits after a prefix that does not end in a digit are exactly what the match takes |
| Text.TrimSpec | server/controllers/authController.js:47 | `trim` keeps one slice, drops only white space on either side and leaves no white space at the ends |
| Text.TrimIdempotent | server/controllers/authController.js:47 | trimming twice is trimming once |
| Text.TrimEmptyIff | client/src/components/StaffPayroll.jsx:135 | the trimmed text is empty exactly when every character is white space |
| Text.ToLower | server/controllers/authController.js:47 | `toLowerCase` maps each character on its own, keeping the length |
| Text.ToLowerIdempotent | server/controllers/authController.js:47 | lower-casing twice is lower-casing once |
| Text.SplitJoin | client/src/components/Clients.js:117-120 | `split(",")` yields pieces without a comma that joined by commas give the text back |
| Text.SplitTrimmedSpec | client/src/components/Clients.js:116-121 | split, trim and `filter(Boolean)` leave no blank piece and no comma, and keep every non-blank trimmed piece |
| Lists.UpdateAt | client/src/pages/QuotationsPage.jsx:144-146 | mapping with `i === idx ? next : it` changes exactly the item at idx and keeps the length |
| Lists.RemoveAtSpec | client/src/components/Invoices.js:54-58 | `filter((_, idx) => idx !== i)` removes exactly item i; an index off the list changes nothing |
| Lists.RemoveAtMultiset | client/src/pages/QuotationsPage.jsx:147-149 | removing one item takes exactly one copy of it out of the list's multiset |
| Lists.AppendThenRemove | client/src/pages/QuotationsPage.jsx:138-149 | removing the row just added restores the list |
| InvoiceForm.CeilDiv | client/src/components/Invoices.js:71 | `Math.ceil` of a quotient is the least whole number not below it |
| InvoiceForm.PeriodDaysPositive | client/src/components/Invoices.js:61-73 | the period length is positive exactly for a ONE_TIME form with both dates, the end not before the start |
| InvoiceForm.PeriodDaysOfDates | client/src/components/Invoices.js:61-73 | for dates at midnight the period length counts both end days |
| InvoiceForm.MonthDays | client/src/components/Invoices.js:91-93 | the month of the period start has 28 to 31 days |
| InvoiceForm.PeriodBill | client/src/components/Invoices.js:94-96 | a prorated bill is a whole number of cents |
| InvoiceForm.PeriodBills | client/src/components/Invoices.js:76-100 | no bills without a period; otherwise one prorated bill per line, of that line's active amount |
| InvoiceForm.FullMonthBill | client/src/components/Invoices.js:94-96 | a period as long as the month bills the whole amount, rounded to cents |
| InvoiceForm.PeriodBillMonotone | client/src/components/Invoices.js:94-96 | a longer period never bills less |
| InvoiceForm.FormTotalsAreModeTotals | client/src/components/Invoices.js:103-162 | the preview is the shared GST formula on the lines' amounts, prorated or not, plus the extra amount |
| InvoiceForm.FormTotalsReconcile | client/src/components/Invoices.js:103-162 | the preview's subtotal plus its GST is its total |
| InvoiceForm.Validate | client/src/components/Invoices.js:164-191 | the form passes exactly when a client is chosen and every line, of at least one, is described and non-negative; each error names the first failing check and line |
| InvoiceForm.AddLine | client/src/components/Invoices.js:35-44 | one empty line of the mode's shape is appended, nothing else changes |
| InvoiceForm.UpdateLine | client/src/components/Invoices.js:46-52 | only line i is patched |
| InvoiceForm.RemoveLine | client/src/components/Invoices.js:54-58 | exactly line i goes; an index off the list changes nothing |
| InvoiceForm.AddLineKeepsTotals | client/src/components/Invoices.js:35-44 | adding a line leaves the preview totals unchanged |
| InvoiceForm.AddLinePreview | client/src/components/Invoices.js:35-44 | a new empty line leaves both the amount the preview prices and its rate unchanged |
| InvoiceForm.AddLineBills | client/src/components/Invoices.js:35-44 | adding a line adds nothing to the prorated bills |
| InvoiceForm.RemoveLineAmount | client/src/components/Invoices.js:54-58 | removing a line takes exactly its amount off the amount priced |
| InvoiceForm.SwitchMode | client/src/components/Invoices.js:342-358 | switching mode reshapes every line and keeps their number |
| InvoiceForm.SwitchSpec | client/src/components/Invoices.js:347-356 | a reshaped line keeps its description and carries the new side's amount, else the other side's (`??` chain) |
| InvoiceForm.SwitchRoundTrip | client/src/components/Invoices.js:347-356 | switching away and back restores a line already of the mode's shape |
| InvoiceForm.PayloadRate | client/src/components/Invoices.js:222-224 | the service prices the posted body at the rate the preview shows |
| InvoiceForm.PayloadCarriesPreview | client/src/components/Invoices.js:197-221 | the posted lines plus the extra amount add up to the amount the preview prices |
| InvoiceForm.PayloadPricesOnlyExtra | client/src/components/Invoices.js:197-224 | the service stores the GST formula on the extra amount alone |
| QuotationForm.AddItem | client/src/pages/QuotationsPage.jsx:138-143 | one default row is appended |
| QuotationForm.ChangeItem | client/src/pages/QuotationsPage.jsx:144-146 | only row idx changes, to the new row |
| QuotationForm.RemoveItem | client/src/pages/QuotationsPage.jsx:147-149 | exactly row idx goes, the others keep their order |
| QuotationForm.ComputedTotals | client/src/pages/QuotationsPage.jsx:151-176 | the preview's subtotal plus its GST is its total |
| QuotationForm.PreviewIsInvoiceSum | client/src/pages/QuotationsPage.jsx:152-158 | the preview sum is the sum the invoice service forms from the same rows |
| QuotationForm.AddItemKeepsPreview | client/src/pages/QuotationsPage.jsx:138-158 | a new default row leaves the preview sum unchanged |
| QuotationForm.ChangeItemPreview | client/src/pages/QuotationsPage.jsx:144-158 | changing a row moves the preview sum by the difference of the two rows |
| QuotationForm.RemoveItemPreview | client/src/pages/QuotationsPage.jsx:147-158 | removing a row takes exactly its share off the preview sum |
| QuotationForm.Body | client/src/pages/QuotationsPage.jsx:185-196 | the body carries the rows as they are, the mode and the extra amount as a number |
| QuotationForm.GuardedBodyHasLines | client/src/pages/QuotationsPage.jsx:180-183 | a body the guard lets through always has lines |
| QuotationForm.BodyRate | client/src/pages/QuotationsPage.jsx:185-196 | the service uses the page's rate, except 0 in NOGST mode |
| QuotationForm.AmountsAgree | client/src/pages/QuotationsPage.jsx:151-196 | on undiscounted whole-cent rows the service prices the very amount the preview shows |
| QuotationForm.PreviewMatchesStored | client/src/pages/QuotationsPage.jsx:151-176 | under those conditions the preview and the stored quotation agree on the base (or on the gross in INCLUSIVE mode) |
| QuotationForm.OneRowPreview | client/src/pages/QuotationsPage.jsx:151-176 | a NOGST page holding one row of quantity 1 at price p previews a total of p rounded plainly to cents |
| QuotationForm.OneRowStored | server/controllers/quotationController.js:52-86 | for the same page the service stores the line rounded to cents with the epsilon nudge, and that rounded again |
| QuotationForm.PreviewCanShowLess | client/src/pages/QuotationsPage.jsx:151-176 | a row just under half a cent previews a total of 0 while the service stores 0.01 |
| PayrollForm.CanCreateStaffIff | client/src/components/StaffPayroll.jsx:135-137 | a staff name passes exactly when it holds a character other than white space |
| PayrollForm.AdvanceGuard | client/src/components/StaffPayroll.jsx:172-180 | an advance passes exactly with a staff member selected and an amount above 0 |
| PayrollForm.AdvancePayload | client/src/components/StaffPayroll.jsx:182-186 | the body carries the amount as a number, the date, and the remark only when typed |
| PayrollForm.GuardedAdvanceRaisesBalance | client/src/components/StaffPayroll.jsx:172-186 | an advance that passes posts a positive DEBIT that raises a whole-cent balance by exactly its amount |
| PayrollForm.FormFigures | client/src/components/StaffPayroll.jsx:200-213 | the figures shown are whole cents |
| PayrollForm.PayloadFigures | client/src/components/StaffPayroll.jsx:233-246 | the service computes for the posted body the very figures the panel shows |
| PayrollForm.PayGuard | client/src/components/StaffPayroll.jsx:219-230 | a salary passes exactly with a staff member, a month, a year and a net pay not below 0; each error names the first failing check |
| PayrollForm.PayGuardMatchesService | client/src/components/StaffPayroll.jsx:219-246 | the panel lets a body through exactly when the service would not refuse it for a missing period or a negative net pay |
| PayrollForm.AfterPay | client/src/components/StaffPayroll.jsx:260-271 | the reset clears the remark and slip number and keeps month, year, date and mode |
| PayrollForm.AfterPayIsBlank | client/src/components/StaffPayroll.jsx:260-271 | after the reset every figure is 0 and the same period passes the guard again |
| PayrollForm.AfterPayIdempotent | client/src/components/StaffPayroll.jsx:260-271 | resetting twice is resetting once |
| ExpenseForm.ReplaceFirst | client/src/pages/ExpensesPage.jsx:11 | `replace(",", ".")` changes only the first comma |
| ExpenseForm.KeepNumeric | client/src/pages/ExpensesPage.jsx:17 | only digits, dots and minus signs remain, and a text of those alone is kept |
| ExpenseForm.ParseAmount | client/src/pages/ExpensesPage.jsx:6-21 | an empty field is 0; otherwise the cleaned text as a number, or 0 when it is not one |
| ExpenseForm.ParsesPrintedAmount | client/src/pages/ExpensesPage.jsx:6-21 | an amount printed with two decimals reads back as itself |
| ExpenseForm.CommaWithoutPointIsDecimal | client/src/pages/ExpensesPage.jsx:11 | a single comma without a point is read as the decimal point, so "1,234" is 1.234 |
| ExpenseForm.ThousandsSeparatorDropped | client/src/pages/ExpensesPage.jsx:14 | a comma before three digits and a point is a thousands separator |
| ExpenseForm.TwoPointsIsZero | client/src/pages/ExpensesPage.jsx:19-20 | a text with two points is not a number and reads as 0 |
| ExpenseForm.LoneMinusIsZero | client/src/pages/ExpensesPage.jsx:19-20 | a lone minus sign reads as 0 |
| ExpenseForm.AddBody | client/src/pages/ExpensesPage.jsx:73-80 | the body carries the trimmed name, the parsed amount, the mode and the date |
| ExpenseForm.GuardIsServiceCheck | client/src/pages/ExpensesPage.jsx:66-71 | the panel's guard lets a body through exactly when the service would accept it |
| ExpenseForm.GuardedExpenseStored | client/src/pages/ExpensesPage.jsx:64-80 | an expense that passes is stored with the name, amount, mode and date typed (now when no date) |
| LedgerView.Signed | client/src/components/Ledger.js:5-7 | a CREDIT row lowers the balance by its amount, every other row raises it |
| LedgerView.Shown | client/src/components/Ledger.js:22 | a dash before the ledger loads, 0 for a ledger without entries |
| LedgerView.BalanceAppend | client/src/components/Ledger.js:5-7 | the running balance splits over a concatenation of rows |
| LedgerView.BalanceWithout | client/src/components/Ledger.js:5-7 | taking one row out takes exactly its effect off the balance |
| LedgerView.BalanceOrderFree | client/src/components/Ledger.js:5-7 | the balance depends only on which rows there are, not on their order |
| LedgerView.BalanceMatchesChain | client/src/components/Ledger.js:5-7 | on a chain of stored entries starting from 0 the balance shown is the last stored balance |
| ClientForms.MonthInvoiceBody | client/src/pages/ClientDetailPage.jsx:41-49 | a request is sent exactly when month and year are whole numbers in 1..12 and 2000..2100, and it carries those numbers |
| ClientForms.EveryMonthValid | client/src/pages/ClientDetailPage.jsx:41-49 | every month of the years 2000 to 2100 passes |
| ClientForms.FractionalMonthRejected | client/src/pages/ClientDetailPage.jsx:41-49 | fractional, out-of-range and non-numeric months are refused |
| ClientForms.NumberField | client/src/pages/ClientDetailPage.jsx:150-151 | `Number(x or 0)` reads as the field's number, 0 when empty |
| ClientForms.PayloadAlwaysAccepted | client/src/pages/ClientDetailPage.jsx:147-157 | the service never refuses the body the form posts |
| ClientForms.GuardedServiceStored | client/src/pages/ClientDetailPage.jsx:140-157 | a service that passes the guard is stored with the kind, billing type, dates and amounts typed, and a positive amount for its billing type |
| ClientForms.CommaListSpec | client/src/pages/ClientDetailPage.jsx:187-192 | the tags are the non-blank trimmed pieces between commas, none with a comma or outer white space |
| ClientForms.CredentialTags | client/src/pages/ClientDetailPage.jsx:187-192 | an empty tags field posts no tags |
| ClientForms.AddActionDraft | client/src/components/Clients.js:145-151 | an undescribed draft changes nothing; otherwise it is appended and the draft cleared |
| ClientForms.RemoveActionItem | client/src/components/Clients.js:153-155 | exactly item i goes and the draft is untouched |
| ClientForms.BuilderKeepsDescribed | client/src/components/Clients.js:145-155 | adding and removing keep every listed item described |
| ClientForms.SubmittedItems | client/src/components/Clients.js:172-176 | one submitted item per listed draft, in order |
| ClientForms.SubmittedSpec | client/src/components/Clients.js:172-176 | every submitted item is OPEN and keeps its draft's description, owner and due date |
| ClientForms.AfterSave | client/src/components/Clients.js:189 | after saving the list is empty and the draft is kept |
| ClientForms.SaveEmpties | client/src/components/Clients.js:189 | what is submitted next starts from no items |

## Left out

- Persistence: MongoDB queries, indexes and aggregation become operations on in-memory sequences and maps. Each operation applies all of its writes or none; a write failing half-way, which the code does not guard against, is not modelled.
- Concurrency: one request at a time. The read-balance-then-append race between concurrent requests is not modelled.
- Floating point: amounts are exact reals. Binary representation error, `toFixed` on values that are not exact cents, and exponent notation from `String(n)` for very large numbers are not modelled. `Number.EPSILON` is kept as an exact offset.
- NaN in form fields: a number field of the browser is `None` when empty and otherwise holds a number, so a NaN typed into a field is not modelled. The `!(val >= 0)` rejection of NaN in the invoice form and the NaN that slips past `canSubmitService` (`Number(x) <= 0` is false for NaN) are not captured.
- ExpenseForm.ParseAmount: a digit string too long for a double, for which `Number` gives Infinity and so 0, is read as its exact value instead.
- Text.ToLower: lower-cases ASCII letters only; JavaScript's Unicode case mapping is not modelled.
- Calendar.CivilOf: the server's local time zone is taken to be UTC; dayjs and `Date` parsing of date strings is left out, and dates arrive as milliseconds.
- Regular-expression search: the `q` filters of `listClients`, `listQuotations` and `listClientMeetings` are left out. They are user-supplied regexes, and the listing is modelled without them.
- Hashing and tokens: the OTP hash is a parameter (a function on codes) compared by equality. JWT signing and `timingSafeEqual` are left out.
- Delivery: emailing or texting the OTP, sharing documents and WhatsApp messages are left out. They are I/O with no effect on the books.
- PDF drawing: the layout of invoice, ledger and salary PDFs is left out (pdfkit and streams). Only the helpers that decide what is printed are modelled: `currency`, `pct`, `labelForAmount`, `computeLineAmount`, the GST and extra rows, and the ledger reference text.
- The "invoice from services" endpoint and the other symbols the routes import but the code does not define (`getPayments`, `generateQuotationPDF`) are not part of this model. Only the browser's month check and request body are.
- Read-only endpoints are left out beyond the balance lookup, pagination, filters and sorts they share with the modelled operations: `getInvoicePdf`, `getQuotationPdf`, `getLedger`, `getLedgerPdf`, `getAllClientsLedger`, `getClientById`, `listClientCredentials`, `listQuotations`, `listStaff`, `getStaff`, `getStaffLedger`, `getSalarySlip` and `me`. They only query and render.
- Record-keeping endpoints outside the money core are left out on the server: `addClientCredential`, `deleteClientCredential`, `addClientMeeting`, `createStaff`, `updateStaff` and the WhatsApp share endpoints. Their browser guards and request bodies are modelled in `ClientForms` and `PayrollForm`.
- Routing, uploads, authentication middleware, React rendering, toasts and navigation are I/O glue and are left out.
- Clocks: "now" is a parameter of every operation that reads the clock.
- Pricing.GstRateFor: the server's default rate is `Number(process.env.GST_RATE || 0.18)` (server/controllers/invoiceController.js:28, server/controllers/quotationController.js:43, server/models/Quotation.js:44); the model takes `GST_RATE` unset, so the default is 0.18.
- InvoiceForm.PayloadRate: the invoice form previews an empty rate at a fixed 0.18 (client/src/components/Invoices.js:29), so the lemma holds only while the server's `GST_RATE` is unset or 0.18; with another server default the preview and the stored invoice differ. The quotation page's initial rate from `VITE_GST_RATE` is an input of its form.
- ClientController.CreateClient: the body arrives already cast to the schema's types; a value that does not cast (a list for the name, say) is not modelled, nor are the email, phone, address and GSTIN fields, which have no constraint.
- ClientController.PatchedCredential: body values are strings, lists of strings and null; numbers and booleans, which Mongoose casts to their text, and objects are not modelled. `toDate` stands for JavaScript's `new Date(s)`.
- ClientController.PatchedActionItem: `client.save()` validates the whole client document, so a sub-document left invalid by an earlier credential update would also make the save fail; the model checks only the patched item. A null status is stored, as the enum validator of current Mongoose versions lets null through.
- Quotations.StoreQuotation: a `frequency` that names no billing type, which the item schema's enum would refuse, cannot be expressed: request lines carry a billing type or none.
- Pdf.HiddenGstIsZero: holds for NOGST and a zero rate only; a negative rate also hides the row while the tax is negative (`Pdf.NegativeRateHidesTax`).
- Payroll.StaffBooks.SaveSlipPath: stores the slip's file name where the code stores `path.join(dir, fileName)`; the uploads directory is not modelled.
- Report.MonthParam: `Number` of each part is modelled for digits and dots only (`ExpenseForm.NumberOf`); white space, exponents, hexadecimal and `Infinity` spellings read as NaN. A `month` query given twice, which Express turns into an array, is not modelled.
- Server-assigned ids are positions in their collection, so "creation order" is insertion order.

## Findings

| source | as written | input that shows it | evidently intended | confidence | as-written member | corrected member |
|---|---|---|---|---|---|---|
| server/controllers/paymentController.js:22-31 | `Payment.create` is called without a `receiptNo`, which the schema requires (server/models/Payment.js:12), so every payment fails validation after the client and amount checks pass | any request for an existing client with a positive amount | draw a number with `nextPaymentNo` and store it with the payment | not executed | PaymentController.RecordPaymentAsWritten | PaymentController.RecordPayment |
