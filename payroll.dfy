/**
 * The staff payroll ledger (controllers/staffController.js): salary advances
 * and salary payments post rows to a per-staff running-balance ledger
 * (models/StaffLedgerEntry.js) whose current balance is read by
 * utils/staffBalance.js. From the company's side a DEBIT is money paid to the
 * staff member and a CREDIT is money recovered, so the balance is what the
 * staff member has received beyond what was recovered.
 */
module Payroll {
  import opened Wrappers
  import opened Money
  import opened Ledger
  import opened Text

  /** `refType` of a staff ledger entry. */
  datatype StaffRef = AdvanceRef | SalaryRef | StaffAdjustmentRef | RecoveryRef | OtherRef

  type StaffEntry = Entry<StaffRef>

  datatype Staff = Staff(name: string, designation: Option<string>, salaryBase: real, isActive: bool)

  datatype SalaryMode = CashSalary | BankSalary | UpiSalary | OtherSalary

  /** The three computed figures of a salary payment. */
  datatype SalaryFigures = SalaryFigures(gross: real, totalDeductions: real, netPay: real)

  datatype SalaryPayment = SalaryPayment(
    staffId: nat,
    month: nat,
    year: nat,
    basic: real,
    hra: real,
    otherAllowances: real,
    pf: real,
    tds: real,
    advanceRecovery: real,
    otherDeductions: real,
    figures: SalaryFigures,
    paidOn: int,
    payMode: SalaryMode,
    slipPath: Option<string>,
    slipNo: Option<string>,
    remarks: Option<string>)

  /**
   * The body of a salary request. A number that is absent (or that `Number`
   * turns into 0) is `None`; `month` and `year` are falsy when absent or 0.
   */
  datatype SalaryRequest = SalaryRequest(
    month: Option<nat>,
    year: Option<nat>,
    basic: Option<real>,
    hra: Option<real>,
    otherAllowances: Option<real>,
    pf: Option<real>,
    tds: Option<real>,
    advanceRecovery: Option<real>,
    otherDeductions: Option<real>,
    paidOn: Option<int>,
    payMode: Option<SalaryMode>,
    remarks: Option<string>,
    slipNo: Option<string>)

  datatype AdvanceRequest = AdvanceRequest(amount: Option<real>, date: Option<int>, remarks: Option<string>)

  datatype StaffError = StaffNotFound | MonthYearRequired | AlreadyPaidForMonth | NetPayNegative

  datatype AdvanceReply = AdvanceReply(row: StaffEntry, balanceAfter: real)

  datatype SalaryReply = SalaryReply(paymentId: nat, ledgerAfter: real, slipFile: string)

  /**
   * gross, total deductions and net pay, each rounded with round2; the server
   * (staffController.js) and the payroll form (StaffPayroll.jsx) compute them
   * the same way.
   */
  function SalaryTotals(basic: real, hra: real, otherAllowances: real,
                        pf: real, tds: real, advanceRecovery: real, otherDeductions: real): (f: SalaryFigures)
    ensures IsCents(f.gross) && IsCents(f.totalDeductions) && IsCents(f.netPay)
  {
    var gross := Round2(basic + hra + otherAllowances);
    var totalDeductions := Round2(pf + tds + advanceRecovery + otherDeductions);
    SalaryFigures(gross, totalDeductions, Round2(gross - totalDeductions))
  }

  /**
   * On whole-cent components the rounding is exact: gross is the sum of the
   * earnings, the deductions their sum, net pay their difference, and net pay
   * is negative exactly when the deductions exceed the earnings.
   */
  lemma SalaryTotalsExact(basic: real, hra: real, otherAllowances: real,
                          pf: real, tds: real, advanceRecovery: real, otherDeductions: real)
    requires IsCents(basic) && IsCents(hra) && IsCents(otherAllowances)
    requires IsCents(pf) && IsCents(tds) && IsCents(advanceRecovery) && IsCents(otherDeductions)
    ensures var f := SalaryTotals(basic, hra, otherAllowances, pf, tds, advanceRecovery, otherDeductions);
      && f.gross == basic + hra + otherAllowances
      && f.totalDeductions == pf + tds + advanceRecovery + otherDeductions
      && f.netPay == f.gross - f.totalDeductions
      && (f.netPay < 0.0 <==> basic + hra + otherAllowances < pf + tds + advanceRecovery + otherDeductions)
  {
    CentsClosed(basic, hra);
    CentsClosed(basic + hra, otherAllowances);
    Round2OfCents(basic + hra + otherAllowances);
    CentsClosed(pf, tds);
    CentsClosed(pf + tds, advanceRecovery);
    CentsClosed(pf + tds + advanceRecovery, otherDeductions);
    Round2OfCents(pf + tds + advanceRecovery + otherDeductions);
    CentsClosed(basic + hra + otherAllowances, pf + tds + advanceRecovery + otherDeductions);
    Round2OfCents(basic + hra + otherAllowances - (pf + tds + advanceRecovery + otherDeductions));
  }

  /** The figures of a request, its missing components taken as 0. */
  function RequestTotals(req: SalaryRequest): SalaryFigures {
    SalaryTotals(ToNum(req.basic), ToNum(req.hra), ToNum(req.otherAllowances),
                 ToNum(req.pf), ToNum(req.tds), ToNum(req.advanceRecovery), ToNum(req.otherDeductions))
  }

  /** JavaScript truthiness of an optional number. */
  predicate Truthy(v: Option<nat>) {
    v.Some? && v.value != 0
  }

  predicate TruthyText(v: Option<string>) {
    v.Some? && v.value != ""
  }

  /**
   * `addLedger`'s row: dated now, of amount `amt`, with the balance moved up by
   * a DEBIT and down by a CREDIT from the staff member's current balance.
   */
  function StaffRow(entries: seq<StaffEntry>, staffId: nat, debit: bool, amt: real,
                    refType: StaffRef, refId: Option<nat>, remarks: string, now: int): StaffEntry
  {
    var prev := CurrentBalance(entries, staffId);
    Entry(staffId, now, if debit then Debit else Credit, amt,
          if debit then Round2(prev + amt) else Round2(prev - amt), refType, refId, remarks)
  }

  /**
   * A row of `addLedger` posted when the clock is not behind the staff member's
   * rows becomes the latest: the balance is then its balanceAfter, which is the
   * previous balance plus a debit or minus a credit (exactly, on whole cents).
   */
  lemma StaffRowBalance(entries: seq<StaffEntry>, staffId: nat, debit: bool, amt: real,
                        refType: StaffRef, refId: Option<nat>, remarks: string, now: int)
    requires forall i :: 0 <= i < |entries| && entries[i].owner == staffId ==> entries[i].date <= now
    ensures var prev := CurrentBalance(entries, staffId);
      var row := StaffRow(entries, staffId, debit, amt, refType, refId, remarks, now);
      && CurrentBalance(entries + [row], staffId) == row.balanceAfter
      && (IsCents(prev) && IsCents(amt) ==> row.balanceAfter == if debit then prev + amt else prev - amt)
  {
    var prev := CurrentBalance(entries, staffId);
    var row := StaffRow(entries, staffId, debit, amt, refType, refId, remarks, now);
    AppendLatest(entries, row);
    assert row.balanceAfter == if debit then Round2(prev + amt) else Round2(prev - amt);
    if IsCents(prev) && IsCents(amt) {
      ExactOnCents(prev, amt);
    }
  }

  /** On whole cents, rounding a sum or a difference changes nothing. */
  lemma ExactOnCents(prev: real, amt: real)
    requires IsCents(prev) && IsCents(amt)
    ensures Round2(prev + amt) == prev + amt && Round2(prev - amt) == prev - amt
  {
    CentsClosed(prev, amt);
    Round2OfCents(prev + amt);
    Round2OfCents(prev - amt);
  }

  /** `remarks || 'Salary advance'`, trimmed as the schema stores it. */
  function AdvanceRemark(remarks: Option<string>): string {
    if TruthyText(remarks) then Trim(remarks.value) else "Salary advance"
  }

  /** `String(month).padStart(2, '0') + '/' + year`. */
  function Period(month: nat, year: nat): string {
    PadStart(NatToString(month), 2, '0') + "/" + NatToString(year)
  }

  function SalaryRemark(month: nat, year: nat): string {
    "Salary for " + Period(month, year)
  }

  function RecoveryRemark(month: nat, year: nat): string {
    "Advance recovery for " + Period(month, year)
  }

  /** The advance row of `recordAdvance`: a DEBIT ADVANCE of `Number(amount || 0)` without a reference. */
  function AdvanceRow(entries: seq<StaffEntry>, staffId: nat, req: AdvanceRequest, now: int): StaffEntry {
    StaffRow(entries, staffId, true, ToNum(req.amount), AdvanceRef, None, AdvanceRemark(req.remarks), now)
  }

  /**
   * The rows `paySalary` posts: a DEBIT SALARY of the net pay and, when the
   * advance recovery is positive, a CREDIT RECOVERY of it computed from the
   * ledger that already holds the first row.
   */
  function SalaryPostings(entries: seq<StaffEntry>, staffId: nat, paymentId: nat,
                          month: nat, year: nat, netPay: real, recovery: real, now: int): (rows: seq<StaffEntry>)
    ensures 1 <= |rows| <= 2 && (|rows| == 2 <==> recovery > 0.0)
    ensures rows[0].kind == Debit && rows[0].refType == SalaryRef && rows[0].amount == netPay
    ensures |rows| == 2 ==> rows[1].kind == Credit && rows[1].refType == RecoveryRef && rows[1].amount == recovery
    ensures forall k :: 0 <= k < |rows| ==> rows[k].owner == staffId && rows[k].refId == Some(paymentId) && rows[k].date == now
  {
    Postings(entries, staffId, paymentId, SalaryRemark(month, year), RecoveryRemark(month, year), netPay, recovery, now)
  }

  /** The same rows with the two remarks given. */
  function Postings(entries: seq<StaffEntry>, staffId: nat, paymentId: nat,
                    salaryRemark: string, recoveryRemark: string, netPay: real, recovery: real, now: int): seq<StaffEntry>
  {
    var debit := StaffRow(entries, staffId, true, netPay, SalaryRef, Some(paymentId), salaryRemark, now);
    if recovery > 0.0 then
      [debit, StaffRow(entries + [debit], staffId, false, recovery, RecoveryRef, Some(paymentId), recoveryRemark, now)]
    else [debit]
  }

  /**
   * When the clock is not behind the staff member's rows, the final balance
   * is the last row's, and on whole cents it is the previous balance plus net
   * pay less the recovery, while the salary row alone carries previous
   * balance plus net pay: the `ledgerAfter` reply is the balance before the
   * recovery. This holds whatever the two remarks are, so in particular for
   * the ones `paySalary` writes (`SalaryPostings`).
   */
  lemma PostingsBalance(entries: seq<StaffEntry>, staffId: nat, paymentId: nat,
                        salaryRemark: string, recoveryRemark: string, netPay: real, recovery: real, now: int)
    requires forall i :: 0 <= i < |entries| && entries[i].owner == staffId ==> entries[i].date <= now
    ensures var rows := Postings(entries, staffId, paymentId, salaryRemark, recoveryRemark, netPay, recovery, now);
      var prev := CurrentBalance(entries, staffId);
      && CurrentBalance(entries + rows, staffId) == rows[|rows| - 1].balanceAfter
      && (IsCents(prev) && IsCents(netPay) ==> rows[0].balanceAfter == prev + netPay)
      && (IsCents(prev) && IsCents(netPay) && IsCents(recovery) ==>
            CurrentBalance(entries + rows, staffId) == prev + netPay - (if recovery > 0.0 then recovery else 0.0))
  {
    var debit := StaffRow(entries, staffId, true, netPay, SalaryRef, Some(paymentId), salaryRemark, now);
    StaffRowBalance(entries, staffId, true, netPay, SalaryRef, Some(paymentId), salaryRemark, now);
    if recovery > 0.0 {
      RecoveryContinues(entries, staffId, paymentId, recoveryRemark, debit, recovery, now);
      var credit := StaffRow(entries + [debit], staffId, false, recovery, RecoveryRef, Some(paymentId), recoveryRemark, now);
      PairBalance(CurrentBalance(entries, staffId), netPay, recovery, debit.balanceAfter, credit.balanceAfter);
      assert Postings(entries, staffId, paymentId, salaryRemark, recoveryRemark, netPay, recovery, now) == [debit, credit];
    }
  }

  /** The whole-cent arithmetic of the two rows: prev + netPay, then less the recovery. */
  lemma PairBalance(prev: real, netPay: real, recovery: real, afterDebit: real, afterCredit: real)
    requires IsCents(prev) && IsCents(netPay) ==> afterDebit == prev + netPay
    requires IsCents(afterDebit) && IsCents(recovery) ==> afterCredit == afterDebit - recovery
    ensures IsCents(prev) && IsCents(netPay) && IsCents(recovery) ==> afterCredit == prev + netPay - recovery
  {
    if IsCents(prev) && IsCents(netPay) {
      CentsClosed(prev, netPay);
    }
  }

  /** The recovery row, posted after the salary row `debit`, starts from the salary row's balance. */
  lemma RecoveryContinues(entries: seq<StaffEntry>, staffId: nat, paymentId: nat,
                          remark: string, debit: StaffEntry, recovery: real, now: int)
    requires forall i :: 0 <= i < |entries| && entries[i].owner == staffId ==> entries[i].date <= now
    requires debit.owner == staffId && debit.date == now
    requires CurrentBalance(entries + [debit], staffId) == debit.balanceAfter
    ensures var credit := StaffRow(entries + [debit], staffId, false, recovery, RecoveryRef, Some(paymentId), remark, now);
      && credit.balanceAfter == Round2(debit.balanceAfter - recovery)
      && CurrentBalance(entries + [debit, credit], staffId) == credit.balanceAfter
      && (IsCents(debit.balanceAfter) && IsCents(recovery) ==> credit.balanceAfter == debit.balanceAfter - recovery)
  {
    var e1 := entries + [debit];
    forall i | 0 <= i < |e1| && e1[i].owner == staffId ensures e1[i].date <= now {
      if i < |entries| { assert e1[i] == entries[i]; }
    }
    StaffRowBalance(e1, staffId, false, recovery, RecoveryRef, Some(paymentId), remark, now);
    var credit := StaffRow(e1, staffId, false, recovery, RecoveryRef, Some(paymentId), remark, now);
    assert entries + [debit, credit] == e1 + [credit];
  }

  function SlipFileName(slipNo: Option<string>, month: nat, year: nat, paymentId: nat): string {
    if TruthyText(slipNo) then slipNo.value + ".pdf"
    else "SAL-" + NatToString(year) + "-" + PadStart(NatToString(month), 2, '0') + "-" + NatToString(paymentId) + ".pdf"
  }

  /** The payment document `paySalary` creates, before its slip path is saved. */
  function NewSalary(staffId: nat, month: nat, year: nat, req: SalaryRequest, now: int): SalaryPayment {
    SalaryPayment(staffId, month, year,
      ToNum(req.basic), ToNum(req.hra), ToNum(req.otherAllowances),
      ToNum(req.pf), ToNum(req.tds), ToNum(req.advanceRecovery), ToNum(req.otherDeductions),
      RequestTotals(req), req.paidOn.GetOr(now), req.payMode.GetOr(OtherSalary), None,
      if TruthyText(req.slipNo) then req.slipNo else None,
      if TruthyText(req.remarks) then Some(Trim(req.remarks.value)) else None)
  }

  /** A payment for the staff member and period already exists: `SalaryPayment.findOne({ staffId, month, year })`. */
  predicate PaidFor(salaries: seq<SalaryPayment>, staffId: nat, month: nat, year: nat) {
    exists i :: 0 <= i < |salaries| && salaries[i].staffId == staffId && salaries[i].month == month && salaries[i].year == year
  }

  /** The unique index on (staffId, month, year): no two payments share a staff member and a period. */
  predicate OnePerPeriod(salaries: seq<SalaryPayment>) {
    forall i, j :: 0 <= i < j < |salaries| ==>
      !(salaries[i].staffId == salaries[j].staffId && salaries[i].month == salaries[j].month && salaries[i].year == salaries[j].year)
  }

  /** A payment for a period not yet paid keeps the periods unique, and the period is then paid. */
  lemma AddKeepsOnePerPeriod(salaries: seq<SalaryPayment>, p: SalaryPayment)
    requires OnePerPeriod(salaries) && !PaidFor(salaries, p.staffId, p.month, p.year)
    ensures OnePerPeriod(salaries + [p]) && PaidFor(salaries + [p], p.staffId, p.month, p.year)
  {
    var s := salaries + [p];
    assert s[|salaries|] == p;
    forall i, j | 0 <= i < j < |s|
      ensures !(s[i].staffId == s[j].staffId && s[i].month == s[j].month && s[i].year == s[j].year)
    {
      if j == |salaries| {
        assert s[i] == salaries[i];
      } else {
        assert s[i] == salaries[i] && s[j] == salaries[j];
      }
    }
  }

  predicate SalaryOk(p: SalaryPayment, staffCount: nat) {
    p.staffId < staffCount && p.month != 0 && p.year != 0 && p.figures.netPay >= 0.0
  }

  predicate SalariesOk(salaries: seq<SalaryPayment>, staffCount: nat) {
    forall i :: 0 <= i < |salaries| ==> SalaryOk(salaries[i], staffCount)
  }

  /** An ADVANCE row has no reference; the SALARY and RECOVERY rows point at their payment. */
  predicate StaffEntryOk(e: StaffEntry, staffCount: nat, salaryCount: nat) {
    e.owner < staffCount
    && (e.refType == AdvanceRef ==> e.refId.None?)
    && (e.refType == SalaryRef || e.refType == RecoveryRef ==> e.refId.Some? && e.refId.value < salaryCount)
  }

  predicate StaffLedgerOk(ledger: seq<StaffEntry>, staffCount: nat, salaryCount: nat) {
    forall i :: 0 <= i < |ledger| ==> StaffEntryOk(ledger[i], staffCount, salaryCount)
  }

  class StaffBooks {
    var staff: seq<Staff>
    var salaries: seq<SalaryPayment>
    var ledger: seq<StaffEntry>

    ghost predicate Valid()
      reads this
    {
      StaffLedgerOk(ledger, |staff|, |salaries|)
      && SalariesOk(salaries, |staff|)
      && OnePerPeriod(salaries)
    }

    constructor ()
      ensures Valid()
      ensures staff == [] && salaries == [] && ledger == []
    {
      staff := [];
      salaries := [];
      ledger := [];
    }

    /** `Staff.create`. */
    method AddStaff(s: Staff) returns (id: nat)
      requires Valid()
      modifies this
      ensures Valid()
      ensures id == |old(staff)| && staff == old(staff) + [s]
      ensures salaries == old(salaries) && ledger == old(ledger)
    {
      id := |staff|;
      staff := staff + [s];
    }

    /** `SalaryPayment.create`; the unique index refuses a second payment for the same period. */
    method AddSalary(p: SalaryPayment) returns (id: nat)
      requires Valid() && SalaryOk(p, |staff|) && !PaidFor(salaries, p.staffId, p.month, p.year)
      modifies this
      ensures Valid()
      ensures id == |old(salaries)| && salaries == old(salaries) + [p]
      ensures PaidFor(salaries, p.staffId, p.month, p.year)
      ensures staff == old(staff) && ledger == old(ledger)
    {
      AddKeepsOnePerPeriod(salaries, p);
      id := |salaries|;
      salaries := salaries + [p];
    }

    /** `pay.slipPath = outPath; pay.save()`. */
    method SaveSlipPath(id: nat, path: string)
      requires Valid() && id < |salaries|
      modifies this
      ensures Valid()
      ensures salaries == old(salaries)[id := old(salaries)[id].(slipPath := Some(path))]
      ensures staff == old(staff) && ledger == old(ledger)
    {
      salaries := salaries[id := salaries[id].(slipPath := Some(path))];
      assert forall i :: 0 <= i < |salaries| ==>
        (salaries[i].staffId, salaries[i].month, salaries[i].year) == (old(salaries)[i].staffId, old(salaries)[i].month, old(salaries)[i].year);
    }

    /** `StaffLedgerEntry.create`. */
    method Post(e: StaffEntry)
      requires Valid() && StaffEntryOk(e, |staff|, |salaries|)
      modifies this
      ensures Valid()
      ensures ledger == old(ledger) + [e]
      ensures staff == old(staff) && salaries == old(salaries)
    {
      ledger := ledger + [e];
    }
  }

  /**
   * `addLedger`: reads the staff member's current balance, and appends one row
   * dated now of `Number(amount || 0)`, DEBIT adding it and CREDIT
   * subtracting it; returns the row and its balanceAfter.
   */
  method AddLedger(books: StaffBooks, staffId: nat, debit: bool, amount: Option<real>,
                   refType: StaffRef, refId: Option<nat>, remarks: string, now: int)
      returns (row: StaffEntry, balanceAfter: real)
    requires books.Valid() && staffId < |books.staff|
    requires refType == AdvanceRef ==> refId.None?
    requires refType == SalaryRef || refType == RecoveryRef ==> refId.Some? && refId.value < |books.salaries|
    modifies books
    ensures books.Valid()
    ensures row == StaffRow(old(books.ledger), staffId, debit, ToNum(amount), refType, refId, remarks, now)
    ensures balanceAfter == row.balanceAfter
    ensures books.ledger == old(books.ledger) + [row]
    ensures books.staff == old(books.staff) && books.salaries == old(books.salaries)
  {
    row := StaffRow(books.ledger, staffId, debit, ToNum(amount), refType, refId, remarks, now);
    books.Post(row);
    balanceAfter := row.balanceAfter;
  }

  /**
   * `recordAdvance`: an unknown staff member is refused; otherwise one DEBIT
   * ADVANCE row is posted dated now (the request's own date is not used).
   */
  method RecordAdvance(books: StaffBooks, staffId: nat, req: AdvanceRequest, now: int) returns (r: Result<AdvanceReply, StaffError>)
    requires books.Valid()
    modifies books
    ensures books.Valid()
    ensures staffId >= |old(books.staff)| ==> r == Failure(StaffNotFound) && unchanged(books)
    ensures staffId < |old(books.staff)| ==>
      var row := AdvanceRow(old(books.ledger), staffId, req, now);
      && r == Success(AdvanceReply(row, row.balanceAfter))
      && books.ledger == old(books.ledger) + [row]
      && books.staff == old(books.staff) && books.salaries == old(books.salaries)
  {
    if staffId >= |books.staff| {
      return Failure(StaffNotFound);
    }
    var row, balanceAfter := AddLedger(books, staffId, true, req.amount, AdvanceRef, None, AdvanceRemark(req.remarks), now);
    r := Success(AdvanceReply(row, balanceAfter));
  }

  /**
   * `paySalary`: refuses an unknown staff member, a falsy month or year, a
   * period already paid and a negative net pay, in that order and before any
   * write; otherwise stores the payment, posts the salary debit and the
   * recovery credit, saves the slip's file name, and replies with the balance
   * after the salary debit.
   */
  method PaySalary(books: StaffBooks, staffId: nat, req: SalaryRequest, now: int) returns (r: Result<SalaryReply, StaffError>)
    requires books.Valid()
    modifies books
    ensures books.Valid()
    ensures staffId >= |old(books.staff)| ==> r == Failure(StaffNotFound) && unchanged(books)
    ensures staffId < |old(books.staff)| && !(Truthy(req.month) && Truthy(req.year)) ==>
      r == Failure(MonthYearRequired) && unchanged(books)
    ensures (staffId < |old(books.staff)| && Truthy(req.month) && Truthy(req.year)
             && PaidFor(old(books.salaries), staffId, req.month.value, req.year.value)) ==>
      r == Failure(AlreadyPaidForMonth) && unchanged(books)
    ensures (staffId < |old(books.staff)| && Truthy(req.month) && Truthy(req.year)
             && !PaidFor(old(books.salaries), staffId, req.month.value, req.year.value)
             && RequestTotals(req).netPay < 0.0) ==>
      r == Failure(NetPayNegative) && unchanged(books)
    ensures r.Success? <==>
      (staffId < |old(books.staff)| && Truthy(req.month) && Truthy(req.year)
       && !PaidFor(old(books.salaries), staffId, req.month.value, req.year.value)
       && RequestTotals(req).netPay >= 0.0)
    ensures r.Success? ==>
      var m := req.month.value;
      var y := req.year.value;
      var pid := |old(books.salaries)|;
      var rows := SalaryPostings(old(books.ledger), staffId, pid, m, y, RequestTotals(req).netPay, ToNum(req.advanceRecovery), now);
      var file := SlipFileName(req.slipNo, m, y, pid);
      && staffId < |old(books.staff)| && Truthy(req.month) && Truthy(req.year)
      && !PaidFor(old(books.salaries), staffId, m, y) && RequestTotals(req).netPay >= 0.0
      && r == Success(SalaryReply(pid, rows[0].balanceAfter, file))
      && books.salaries == old(books.salaries) + [NewSalary(staffId, m, y, req, now).(slipPath := Some(file))]
      && books.ledger == old(books.ledger) + rows
      && books.staff == old(books.staff)
  {
    if staffId >= |books.staff| {
      return Failure(StaffNotFound);
    }
    if !(Truthy(req.month) && Truthy(req.year)) {
      return Failure(MonthYearRequired);
    }
    var month, year := req.month.value, req.year.value;
    if PaidFor(books.salaries, staffId, month, year) {
      return Failure(AlreadyPaidForMonth);
    }
    var figures := RequestTotals(req);
    if figures.netPay < 0.0 {
      return Failure(NetPayNegative);
    }
    var pid := books.AddSalary(NewSalary(staffId, month, year, req, now));
    var ledgerBefore := books.ledger;
    var debit, ledgerAfter := AddLedger(books, staffId, true, Some(figures.netPay), SalaryRef, Some(pid), SalaryRemark(month, year), now);
    var recovery := ToNum(req.advanceRecovery);
    if recovery > 0.0 {
      var credit, _ := AddLedger(books, staffId, false, req.advanceRecovery, RecoveryRef, Some(pid), RecoveryRemark(month, year), now);
      assert books.ledger == ledgerBefore + [debit, credit];
    }
    var file := SlipFileName(req.slipNo, month, year, pid);
    books.SaveSlipPath(pid, file);
    r := Success(SalaryReply(pid, ledgerAfter, file));
  }
}
