/**
 * The payroll panel of the browser client (client/src/components/StaffPayroll.jsx):
 * the staff, advance and salary forms, the salary figures it shows while the
 * user types, the guards it applies before posting, the bodies it posts and
 * the reset after a salary is paid. A text field is `None` when it is empty
 * (or `null`); such a field reads as 0 (the panel's `toNum`).
 */
module PayrollForm {
  import opened Wrappers
  import opened Money
  import opened Text
  import opened Ledger
  import opened Payroll

  /* ------------------------------- new staff ------------------------------ */

  /** The guard of `createStaff`: a name that is not blank. */
  predicate CanCreateStaff(name: string) {
    Trim(name) != ""
  }

  /** A name passes exactly when it holds a character other than white space, so the trimmed name the schema stores is not empty. */
  lemma CanCreateStaffIff(name: string)
    ensures CanCreateStaff(name) <==> exists i :: 0 <= i < |name| && name[i] !in SpaceChars
  {
    TrimEmptyIff(name);
  }

  /* -------------------------------- advances ------------------------------ */

  datatype AdvanceForm = AdvanceForm(amount: Option<real>, date: Option<int>, remarks: string)

  datatype PanelError = NoStaffSelected | AmountNotPositive | PeriodRequired | NetPayBelowZero

  /** The guards of `recordAdvance`, in order: a selected staff member, then an amount above 0. */
  function AdvanceGuard(form: AdvanceForm, selected: bool): (e: Option<PanelError>)
    ensures e.None? <==> selected && ToNum(form.amount) > 0.0
    ensures !selected ==> e == Some(NoStaffSelected)
  {
    if !selected then Some(NoStaffSelected)
    else if !(ToNum(form.amount) > 0.0) then Some(AmountNotPositive)
    else None
  }

  /** The posted body: the amount as a number, an empty date or remark left out. */
  function AdvancePayload(form: AdvanceForm): (req: AdvanceRequest)
    ensures req.amount == Some(ToNum(form.amount)) && req.date == form.date
    ensures req.remarks.None? <==> form.remarks == ""
  {
    AdvanceRequest(Some(ToNum(form.amount)), form.date, if form.remarks == "" then None else Some(form.remarks))
  }

  /**
   * An advance the panel lets through posts a DEBIT of the typed amount, above
   * 0, remarked "Salary advance" when no remark was typed; on whole cents it
   * raises the balance by exactly that amount.
   */
  lemma GuardedAdvanceRaisesBalance(entries: seq<StaffEntry>, staffId: nat, form: AdvanceForm, now: int)
    requires AdvanceGuard(form, true).None?
    ensures var row := AdvanceRow(entries, staffId, AdvancePayload(form), now);
      var prev := CurrentBalance(entries, staffId);
      && row.kind == Debit && row.amount == ToNum(form.amount) && row.amount > 0.0
      && (form.remarks == "" ==> row.remarks == "Salary advance")
      && (IsCents(prev) && IsCents(row.amount) ==> row.balanceAfter == prev + row.amount > prev)
  {
    var req := AdvancePayload(form);
    var prev := CurrentBalance(entries, staffId);
    var amt := ToNum(form.amount);
    assert ToNum(req.amount) == amt;
    var row := StaffRow(entries, staffId, true, amt, AdvanceRef, None, AdvanceRemark(req.remarks), now);
    assert row == AdvanceRow(entries, staffId, req, now);
    assert row.balanceAfter == Round2(prev + amt);
    if IsCents(prev) && IsCents(amt) {
      DebitOnCents(prev, amt);
    }
  }

  /** A positive whole-cent debit on a whole-cent balance is added exactly. */
  lemma DebitOnCents(prev: real, amt: real)
    requires IsCents(prev) && IsCents(amt) && amt > 0.0
    ensures Round2(prev + amt) == prev + amt > prev
  {
    CentsClosed(prev, amt);
    Round2OfCents(prev + amt);
  }

  /* -------------------------------- salaries ------------------------------ */

  datatype SalaryForm = SalaryForm(
    month: Option<nat>,
    year: Option<nat>,
    basic: Option<real>,
    hra: Option<real>,
    otherAllowances: Option<real>,
    pf: Option<real>,
    tds: Option<real>,
    advanceRecovery: Option<real>,
    otherDeductions: Option<real>,
    paidOn: Option<int>,
    payMode: SalaryMode,
    remarks: string,
    slipNo: string)

  /** `salaryTotals`: the figures the panel shows, its empty fields read as 0. */
  function FormFigures(f: SalaryForm): (s: SalaryFigures)
    ensures IsCents(s.gross) && IsCents(s.totalDeductions) && IsCents(s.netPay)
  {
    SalaryTotals(ToNum(f.basic), ToNum(f.hra), ToNum(f.otherAllowances),
                 ToNum(f.pf), ToNum(f.tds), ToNum(f.advanceRecovery), ToNum(f.otherDeductions))
  }

  /** `toNum` on an optional count: an empty field is 0. */
  function CountOf(v: Option<nat>): nat {
    v.GetOr(0)
  }

  /** The posted body of `paySalary`: every amount as a number, an empty date, remark or slip number left out. */
  function SalaryPayload(f: SalaryForm): SalaryRequest {
    SalaryRequest(Some(CountOf(f.month)), Some(CountOf(f.year)),
      Some(ToNum(f.basic)), Some(ToNum(f.hra)), Some(ToNum(f.otherAllowances)),
      Some(ToNum(f.pf)), Some(ToNum(f.tds)), Some(ToNum(f.advanceRecovery)), Some(ToNum(f.otherDeductions)),
      f.paidOn, Some(f.payMode), TextOrNone(f.remarks), TextOrNone(f.slipNo))
  }

  /** The panel shows the figures the service computes for the body it posts. */
  lemma PayloadFigures(f: SalaryForm)
    ensures RequestTotals(SalaryPayload(f)) == FormFigures(f)
    ensures Truthy(SalaryPayload(f).month) == Truthy(f.month) && Truthy(SalaryPayload(f).year) == Truthy(f.year)
  {
  }

  /** The guards of `paySalary`, in order: a selected staff member, a month and a year, a net pay not below 0. */
  function PayGuard(f: SalaryForm, selected: bool): (e: Option<PanelError>)
    ensures e.None? <==> selected && Truthy(f.month) && Truthy(f.year) && FormFigures(f).netPay >= 0.0
    ensures e == Some(PeriodRequired) <==> selected && !(Truthy(f.month) && Truthy(f.year))
    ensures e == Some(NetPayBelowZero) <==> selected && Truthy(f.month) && Truthy(f.year) && FormFigures(f).netPay < 0.0
  {
    if !selected then Some(NoStaffSelected)
    else if !(Truthy(f.month) && Truthy(f.year)) then Some(PeriodRequired)
    else if FormFigures(f).netPay < 0.0 then Some(NetPayBelowZero)
    else None
  }

  /**
   * The panel and the service agree: a body the guard lets through is never
   * refused for a missing period or a negative net pay, and the panel stops
   * every body the service would refuse for those reasons.
   */
  lemma PayGuardMatchesService(f: SalaryForm)
    ensures PayGuard(f, true).None? <==>
      (Truthy(SalaryPayload(f).month) && Truthy(SalaryPayload(f).year) && RequestTotals(SalaryPayload(f)).netPay >= 0.0)
  {
    PayloadFigures(f);
  }

  /** The reset after a paid salary: amounts, remark and slip number cleared; month, year, date and mode kept. */
  function AfterPay(f: SalaryForm): (g: SalaryForm)
    ensures g.month == f.month && g.year == f.year && g.paidOn == f.paidOn && g.payMode == f.payMode
    ensures g.remarks == "" && g.slipNo == ""
  {
    f.(basic := None, hra := None, otherAllowances := None, pf := None, tds := None,
       advanceRecovery := None, otherDeductions := None, remarks := "", slipNo := "")
  }

  /** After the reset every figure is 0, and the same period can be submitted again at once (the service then refuses it as already paid). */
  lemma AfterPayIsBlank(f: SalaryForm)
    ensures FormFigures(AfterPay(f)) == SalaryFigures(0.0, 0.0, 0.0)
    ensures PayGuard(f, true) != Some(PeriodRequired) ==> PayGuard(AfterPay(f), true).None?
  {
    CentsOfInt(0);
    Round2OfCents(0.0);
  }

  /** Resetting twice is resetting once. */
  lemma AfterPayIdempotent(f: SalaryForm)
    ensures AfterPay(AfterPay(f)) == AfterPay(f)
  {
  }
}
