/**
 * The net-balance report (controllers/reportController.js): payments,
 * expenses and net salaries totalled per "YYYY-MM" month within a date range,
 * staff advances given and recovered tallied by a loop over the staff ledger,
 * and one row per month that appears anywhere, in sorted order, with inflow,
 * outflow and net.
 */
module Report {
  import opened Wrappers
  import opened Text
  import opened Calendar
  import opened Ledger
  import opened Books
  import opened Expenses
  import opened Payroll
  import Money
  import ExpenseForm

  // ---------------------------------------------------------------- month keys

  /** The "YYYY-MM" key of a year and month (1 = January). */
  function MonthKeyOf(year: int, month: int): string
    requires 1 <= month <= 12
  {
    IntToString(year) + "-" + PadStart(NatToString(month), 2, '0')
  }

  /** `getMonthKey`: the year, a dash and the two-digit month of an instant. */
  function MonthKey(t: int): string {
    var c := CivilOf(t);
    MonthKeyOf(c.year, c.month)
  }

  /** Two month keys are equal exactly when their years and months are. */
  lemma MonthKeyInjective(y1: int, m1: int, y2: int, m2: int)
    requires 1 <= m1 <= 12 && 1 <= m2 <= 12
    ensures MonthKeyOf(y1, m1) == MonthKeyOf(y2, m2) <==> y1 == y2 && m1 == m2
  {
    if MonthKeyOf(y1, m1) == MonthKeyOf(y2, m2) {
      var k := MonthKeyOf(y1, m1);
      TwoDigits(m1);
      TwoDigits(m2);
      var a, b := IntToString(y1), IntToString(y2);
      assert |a| == |b|;
      assert k[..|a|] == a && k[..|b|] == b;
      IntToStringInjective(y1, y2);
      assert k[|a| + 1..] == PadStart(NatToString(m1), 2, '0');
      assert k[|b| + 1..] == PadStart(NatToString(m2), 2, '0');
    }
  }

  /** Two instants get the same key exactly when they fall in the same calendar month. */
  lemma SameMonthKey(a: int, b: int)
    ensures MonthKey(a) == MonthKey(b) <==>
      CivilOf(a).year == CivilOf(b).year && CivilOf(a).month == CivilOf(b).month
  {
    MonthKeyInjective(CivilOf(a).year, CivilOf(a).month, CivilOf(b).year, CivilOf(b).month);
  }

  // ---------------------------------------------------------------- the range

  datatype DateRange = DateRange(start: int, end: int)

  predicate InRange(r: DateRange, t: int) {
    r.start <= t <= r.end
  }


  /**
   * `new Date(year, …)` reads a year from 0 to 99 as 1900 to 1999
   * (MakeFullYear, section 21.4.2.1 of ECMA-262), before the month index
   * carries into the year.
   */
  function FullYear(y: int): int {
    if 0 <= y <= 99 then 1900 + y else y
  }

  /**
   * `{ $gte: startDate, $lte: endDate }`. With `month` parsed into
   * `(year, mon)`: `new Date(year, mon - 1, 1)` to `new Date(year, mon, 0,
   * 23, 59, 59, 999)`, where day 0 is the day before the first and month
   * indexes outside 0..11 carry into the year. Without it: 1970-01-01 to
   * 3000-01-01.
   */
  function ReportRange(month: Option<(int, int)>): DateRange {
    match month
    case None => DateRange(CivilMs(Civil(1970, 1, 1, 0)), CivilMs(Civil(3000, 1, 1, 0)))
    case Some(ym) => MonthRange(FullYear(ym.0), ym.1)
  }

  /** `new Date(y, mon - 1, 1)` to `new Date(y, mon, 0, 23, 59, 59, 999)` for a full year `y`. */
  function MonthRange(y: int, mon: int): DateRange {
    var first := NormalizeMonth(y, mon - 1);
    var next := NormalizeMonth(y, mon);
    DateRange(CivilMs(Civil(first.0, first.1, 1, 0)), CivilMs(Civil(next.0, next.1, 0, DayMs - 1)))
  }

  // ---------------------------------------------------------------- the month query

  /** ToIntegerOrInfinity on a finite number: the integer part, rounded toward zero. */
  function Truncate(x: real): (n: int)
    ensures x >= 0.0 ==> n as real <= x < n as real + 1.0
    ensures x < 0.0 ==> n as real - 1.0 < x <= n as real
  {
    if x >= 0.0 then x.Floor else -((-x).Floor)
  }

  /**
   * `const [year, mon] = month.split("-").map(Number)`, as `new Date` reads the
   * two numbers: a missing second part is `undefined`, which is NaN, like a
   * part that is not a number; `None` is a NaN year or month.
   */
  function MonthParam(s: string): Option<(int, int)> {
    var parts := Split(s, '-');
    var y := ExpenseForm.NumberOf(parts[0]);
    var m := if |parts| >= 2 then ExpenseForm.NumberOf(parts[1]) else Money.NotFinite;
    if y.Finite? && m.Finite? then Some((Truncate(y.value), Truncate(m.value))) else None
  }

  /** TimeClip: a time more than 8.64e15 ms from the epoch is an Invalid Date. */
  predicate ValidTime(t: int) {
    -8640000000000000 <= t <= 8640000000000000
  }

  /**
   * The `rangeMatch` of a `month` query: all time when it is missing or empty;
   * otherwise the range of the parsed month, or `None` when either date is an
   * Invalid Date, which `StaffLedgerEntry.find` refuses to cast, so that the
   * request answers 400.
   */
  function QueryRange(month: Option<string>): Option<DateRange> {
    if month.None? || month.value == "" then Some(ReportRange(None))
    else
      match MonthParam(month.value)
      case None => None
      case Some(ym) =>
        var r := ReportRange(Some(ym));
        if ValidTime(r.start) && ValidTime(r.end) then Some(r) else None
  }

  /** A part holding no dash is the whole of a string split at dashes. */
  lemma {:induction false} SplitNoDash(a: string)
    requires forall i :: 0 <= i < |a| ==> a[i] != '-'
    ensures Split(a, '-') == [a]
    decreases |a|
  {
    if a != [] {
      SplitNoDash(a[1..]);
      assert [a[0]] + a[1..] == a;
    }
  }

  /** Two dash-free parts joined by one dash split back into those two parts. */
  lemma {:induction false} SplitAtDash(a: string, b: string)
    requires forall i :: 0 <= i < |a| ==> a[i] != '-'
    requires forall i :: 0 <= i < |b| ==> b[i] != '-'
    ensures Split(a + "-" + b, '-') == [a, b]
    decreases |a|
  {
    if a == [] {
      assert a + "-" + b == "-" + b;
      SplitNoDash(b);
      assert ("-" + b)[1..] == b;
    } else {
      SplitAtDash(a[1..], b);
      assert (a + "-" + b)[1..] == a[1..] + "-" + b;
      assert [a[0]] + a[1..] == a;
    }
  }

  /** `Number` of a non-empty run of digits is the number those digits write. */
  lemma DigitsNumber(t: string)
    requires |t| > 0 && AllDigits(t)
    ensures ExpenseForm.NumberOf(t) == Money.Finite(DigitsValue(t) as real)
  {
    assert t[0] != '-';
    DigitsHaveNoDot(t);
  }

  lemma DigitsHaveNoDot(t: string)
    requires AllDigits(t)
    ensures ExpenseForm.Find(t, '.').None?
  {
    forall k | 0 <= k < |t| ensures t[k] != '.' {
      assert IsDigit(t[k]);
    }
  }

  /**
   * The month keys the report prints parse back: a query naming the key of a
   * year from 0 and a month 1..12 reads as that year and month.
   */
  lemma MonthKeyParses(year: nat, mon: int)
    requires 1 <= mon <= 12
    ensures MonthParam(MonthKeyOf(year, mon)) == Some((year, mon))
  {
    var a, b := NatToString(year), PadStart(NatToString(mon), 2, '0');
    var k := MonthKeyOf(year, mon);
    assert k == a + "-" + b;
    PartsOfKey(year, mon);
    SplitAtDash(a, b);
    var parts := Split(k, '-');
    assert parts[0] == a && parts[1] == b;
    DigitsNumber(a);
    DigitsNumber(b);
    DigitsValueOfNatToString(year);
    assert ExpenseForm.NumberOf(parts[0]) == Money.Finite(year as real);
    assert ExpenseForm.NumberOf(parts[1]) == Money.Finite(mon as real);
  }

  /** Both halves of a month key are dash-free runs of digits, the second reading as the month. */
  lemma PartsOfKey(year: nat, mon: int)
    requires 1 <= mon <= 12
    ensures var a, b := NatToString(year), PadStart(NatToString(mon), 2, '0');
      && |a| > 0 && AllDigits(a) && (forall i :: 0 <= i < |a| ==> a[i] != '-')
      && |b| > 0 && AllDigits(b) && DigitsValue(b) == mon && (forall i :: 0 <= i < |b| ==> b[i] != '-')
  {
    var a, b := NatToString(year), PadStart(NatToString(mon), 2, '0');
    PaddedValue(year, 0);
    assert PadStart(a, 0, '0') == a;
    TwoDigits(mon);
    forall i | 0 <= i < |a| ensures a[i] != '-' { assert IsDigit(a[i]); }
    forall i | 0 <= i < |b| ensures b[i] != '-' { assert IsDigit(b[i]); }
  }

  /** A query with no dash has no month part: the month is NaN and the request fails. */
  lemma NoDashFails(s: string)
    requires s != "" && forall i :: 0 <= i < |s| ==> s[i] != '-'
    ensures MonthParam(s).None?
    ensures QueryRange(Some(s)).None?
  {
    SplitNoDash(s);
  }

  /**
   * Without a month, or with an empty one, the range runs from the epoch,
   * instant 0, to 1 January 3000, instant 32503680000000.
   */
  lemma AllTimeRange()
    ensures ReportRange(None) == DateRange(0, 32503680000000)
    ensures QueryRange(None) == QueryRange(Some("")) == Some(DateRange(0, 32503680000000))
  {
    EpochDayIsJan1970();
    DaysBeforeYearFormula(3000);
  }

  /** The month after a normalised month index. */
  lemma NormalizeNext(year: int, index: int)
    ensures var a := NormalizeMonth(year, index);
      NormalizeMonth(year, index + 1) == if a.1 < 12 then (a.0, a.1 + 1) else (a.0 + 1, 1)
  {
    var q, r := index / 12, index % 12;
    if r < 11 {
      DivUnique(index + 1, 12, q, r + 1);
    } else {
      DivUnique(index + 1, 12, q + 1, 0);
    }
  }

  /**
   * The range of a month parameter runs from the first instant of the month
   * to the last millisecond before the next month: day 0 of the next month at
   * 23:59:59.999.
   */
  lemma MonthRangeBounds(year: int, mon: int)
    ensures var a := NormalizeMonth(FullYear(year), mon - 1);
      ReportRange(Some((year, mon))) == DateRange(MonthStartMs(a.0, a.1), MonthStartMs(a.0, a.1) + DaysInMonth(a.0, a.1) * DayMs - 1)
  {
    MonthEnd(FullYear(year), mon - 1);
  }

  /** Day 0 of the month after a normalised month index, at its last millisecond, ends that month. */
  lemma MonthEnd(y: int, index: int)
    ensures var a, n := NormalizeMonth(y, index), NormalizeMonth(y, index + 1);
      CivilMs(Civil(n.0, n.1, 0, DayMs - 1)) == MonthStartMs(a.0, a.1) + DaysInMonth(a.0, a.1) * DayMs - 1
  {
    var a, n := NormalizeMonth(y, index), NormalizeMonth(y, index + 1);
    NormalizeNext(y, index);
    NextMonthDay(a.0, a.1);
    DayZero(n.0, n.1);
  }

  /** The first day of the following month comes `DaysInMonth` days after the first of this one. */
  lemma NextMonthDay(y: int, m: int)
    requires 1 <= m <= 12
    ensures var n := if m < 12 then (y, m + 1) else (y + 1, 1);
      DayNumber(Civil(n.0, n.1, 1, 0)) == DayNumber(Civil(y, m, 1, 0)) + DaysInMonth(y, m)
  {
    MonthStep(y, m);
    if m == 12 {
      YearLength(y);
    }
  }

  /** Day 0 of a month at the last millisecond is one millisecond before the month's first instant. */
  lemma DayZero(y: int, m: int)
    requires 1 <= m <= 12
    ensures CivilMs(Civil(y, m, 0, DayMs - 1)) == MonthStartMs(y, m) - 1
  {
  }

  /**
   * A month parameter selects exactly the instants of that calendar month
   * (after carrying an out-of-range month into the year).
   */
  lemma MonthRangeIsMonth(year: int, mon: int, t: int)
    ensures var a := NormalizeMonth(FullYear(year), mon - 1);
      InRange(ReportRange(Some((year, mon))), t) <==> CivilOf(t).year == a.0 && CivilOf(t).month == a.1
  {
    var a := NormalizeMonth(FullYear(year), mon - 1);
    MonthRangeBounds(year, mon);
    InstantInMonth(t, a.0, a.1);
  }

  /** A month parameter with `mon` in 1..12 selects the instants whose month key is "year-mon". */
  lemma MonthRangeKey(year: int, mon: int, t: int)
    requires 1 <= mon <= 12
    ensures InRange(ReportRange(Some((year, mon))), t) <==> MonthKey(t) == MonthKeyOf(FullYear(year), mon)
  {
    MonthRangeIsMonth(year, mon, t);
    DivUnique(mon - 1, 12, 0, mon - 1);
    MonthKeyInjective(CivilOf(t).year, CivilOf(t).month, FullYear(year), mon);
  }

  // ---------------------------------------------------------------- per-month totals

  /** A record's date (or `paidOn`) and the summed field. */
  datatype Dated = Dated(date: int, amount: real)

  /** A record's month key and amount. */
  datatype Keyed = Keyed(key: string, amount: real)

  function Within(rows: seq<Dated>, r: DateRange): (w: seq<Dated>)
    ensures forall x :: x in w ==> x in rows && InRange(r, x.date)
  {
    if rows == [] then []
    else Within(rows[..|rows| - 1], r) + (if InRange(r, rows[|rows| - 1].date) then [rows[|rows| - 1]] else [])
  }

  function Keys(rows: seq<Dated>): (ks: seq<Keyed>)
    ensures |ks| == |rows|
  {
    if rows == [] then [] else Keys(rows[..|rows| - 1]) + [Keyed(MonthKey(rows[|rows| - 1].date), rows[|rows| - 1].amount)]
  }

  /** `m[k] = (m[k] || 0) + x`. */
  function Bump(m: map<string, real>, k: string, x: real): map<string, real> {
    m[k := Get(m, k) + x]
  }

  /** `m[k] || 0`. */
  function Get(m: map<string, real>, k: string): real {
    if k in m then m[k] else 0.0
  }

  /** The per-key totals, adding the rows in order. */
  function MonthTotals(ks: seq<Keyed>): map<string, real> {
    if ks == [] then map[] else Bump(MonthTotals(ks[..|ks| - 1]), ks[|ks| - 1].key, ks[|ks| - 1].amount)
  }

  /** The sum of the amounts of the rows with key `k`. */
  function SumFor(ks: seq<Keyed>, k: string): real {
    if ks == [] then 0.0
    else SumFor(ks[..|ks| - 1], k) + (if ks[|ks| - 1].key == k then ks[|ks| - 1].amount else 0.0)
  }

  /** A key has a total exactly when some row has it, and the total is the sum of that key's rows. */
  lemma {:induction false} MonthTotalsSpec(ks: seq<Keyed>, k: string)
    ensures k in MonthTotals(ks) <==> exists i :: 0 <= i < |ks| && ks[i].key == k
    ensures Get(MonthTotals(ks), k) == SumFor(ks, k)
  {
    if ks != [] {
      var init := ks[..|ks| - 1];
      MonthTotalsSpec(init, k);
      if k in MonthTotals(ks) && ks[|ks| - 1].key != k {
        var i :| 0 <= i < |init| && init[i].key == k;
        assert ks[i] == init[i];
      }
      if exists i :: 0 <= i < |ks| && ks[i].key == k {
        var i :| 0 <= i < |ks| && ks[i].key == k;
        if i < |init| {
          assert init[i] == ks[i];
        }
      }
    }
  }

  /** `aggregateByMonth`: `$match` on the range, then `$group` by month key with `$sum`. */
  function AggregateByMonth(rows: seq<Dated>, r: DateRange): map<string, real> {
    MonthTotals(Keys(Within(rows, r)))
  }

  function PaymentRows(ps: seq<Payment>): (rows: seq<Dated>)
    ensures |rows| == |ps| && forall i :: 0 <= i < |ps| ==> rows[i] == Dated(ps[i].date, ps[i].amount)
  {
    if ps == [] then [] else PaymentRows(ps[..|ps| - 1]) + [Dated(ps[|ps| - 1].date, ps[|ps| - 1].amount)]
  }

  function ExpenseRows(es: seq<Expense>): (rows: seq<Dated>)
    ensures |rows| == |es| && forall i :: 0 <= i < |es| ==> rows[i] == Dated(es[i].date, es[i].amount)
  {
    if es == [] then [] else ExpenseRows(es[..|es| - 1]) + [Dated(es[|es| - 1].date, es[|es| - 1].amount)]
  }

  /** Salary payments are grouped by `paidOn` and sum `netPay`. */
  function SalaryRows(ss: seq<SalaryPayment>): (rows: seq<Dated>)
    ensures |rows| == |ss| && forall i :: 0 <= i < |ss| ==> rows[i] == Dated(ss[i].paidOn, ss[i].figures.netPay)
  {
    if ss == [] then [] else SalaryRows(ss[..|ss| - 1]) + [Dated(ss[|ss| - 1].paidOn, ss[|ss| - 1].figures.netPay)]
  }

  // ---------------------------------------------------------------- staff advances

  predicate IsAdvanceGiven(e: StaffEntry) {
    e.kind == Debit && e.refType == AdvanceRef
  }

  predicate IsAdvanceRecovered(e: StaffEntry) {
    e.kind == Credit && e.refType == RecoveryRef
  }

  /** The keyed rows of the entries `keep` selects, in ledger order. */
  function Selected(entries: seq<StaffEntry>, given: bool): seq<Keyed> {
    if entries == [] then []
    else
      var e := entries[|entries| - 1];
      Selected(entries[..|entries| - 1], given)
        + (if (if given then IsAdvanceGiven(e) else IsAdvanceRecovered(e)) then [Keyed(MonthKey(e.date), e.amount)] else [])
  }

  /** An entry of any other kind or reference is ignored by the tally. */
  lemma IgnoresOtherEntries(entries: seq<StaffEntry>, e: StaffEntry)
    ensures !IsAdvanceGiven(e) ==> Selected(entries + [e], true) == Selected(entries, true)
    ensures !IsAdvanceRecovered(e) ==> Selected(entries + [e], false) == Selected(entries, false)
  {
    assert (entries + [e])[..|entries|] == entries;
  }

  /** Every selected row comes from an entry of the selected kind with that month and amount. */
  lemma {:induction false} SelectedFrom(entries: seq<StaffEntry>, given: bool, x: Keyed)
    requires x in Selected(entries, given)
    ensures exists i :: (0 <= i < |entries| && x == Keyed(MonthKey(entries[i].date), entries[i].amount)
      && (if given then IsAdvanceGiven(entries[i]) else IsAdvanceRecovered(entries[i])))
  {
    var init := entries[..|entries| - 1];
    if x in Selected(init, given) {
      SelectedFrom(init, given, x);
      var i :| 0 <= i < |init| && x == Keyed(MonthKey(init[i].date), init[i].amount)
        && (if given then IsAdvanceGiven(init[i]) else IsAdvanceRecovered(init[i]));
      assert entries[i] == init[i];
    }
  }

  /**
   * The `forEach` over the staff entries in range: DEBIT ADVANCE amounts are
   * added to `advGiven` under their month key, CREDIT RECOVERY amounts to
   * `advRec`, and every other entry is skipped.
   */
  method AdvanceTotals(entries: seq<StaffEntry>) returns (given: map<string, real>, recovered: map<string, real>)
    ensures given == MonthTotals(Selected(entries, true))
    ensures recovered == MonthTotals(Selected(entries, false))
  {
    given, recovered := map[], map[];
    var i := 0;
    while i < |entries|
      invariant 0 <= i <= |entries|
      invariant given == MonthTotals(Selected(entries[..i], true))
      invariant recovered == MonthTotals(Selected(entries[..i], false))
    {
      var e := entries[i];
      StepTotals(entries, i, true);
      StepTotals(entries, i, false);
      if IsAdvanceGiven(e) {
        given := Bump(given, MonthKey(e.date), e.amount);
      }
      if IsAdvanceRecovered(e) {
        recovered := Bump(recovered, MonthKey(e.date), e.amount);
      }
      i := i + 1;
    }
    assert entries[..i] == entries;
  }

  /** One more entry adds at most one row at the end of the selection, so the totals take one more `Bump`. */
  lemma StepTotals(entries: seq<StaffEntry>, i: nat, given: bool)
    requires i < |entries|
    ensures var e := entries[i];
      var prev := MonthTotals(Selected(entries[..i], given));
      MonthTotals(Selected(entries[..i + 1], given)) ==
        if (if given then IsAdvanceGiven(e) else IsAdvanceRecovered(e))
        then Bump(prev, MonthKey(e.date), e.amount)
        else prev
  {
    var e := entries[i];
    var prev := Selected(entries[..i], given);
    var next := Selected(entries[..i + 1], given);
    assert entries[..i + 1][..i] == entries[..i];
    if (if given then IsAdvanceGiven(e) else IsAdvanceRecovered(e)) {
      assert next == prev + [Keyed(MonthKey(e.date), e.amount)];
      assert next[..|next| - 1] == prev;
    } else {
      assert next == prev;
    }
  }

  // ---------------------------------------------------------------- sorted months

  /** The order `Array.prototype.sort` uses for strings: character by character, a proper prefix first. */
  predicate StrLt(a: string, b: string)
    decreases |a|
  {
    if a == [] then b != []
    else if b == [] then false
    else if a[0] != b[0] then a[0] < b[0]
    else StrLt(a[1..], b[1..])
  }

  lemma {:induction false} StrLtIrreflexive(a: string)
    ensures !StrLt(a, a)
    decreases |a|
  {
    if a != [] {
      StrLtIrreflexive(a[1..]);
    }
  }

  lemma {:induction false} StrLtTransitive(a: string, b: string, c: string)
    requires StrLt(a, b) && StrLt(b, c)
    ensures StrLt(a, c)
    decreases |a|
  {
    if a != [] && a[0] == b[0] && b[0] == c[0] {
      StrLtTransitive(a[1..], b[1..], c[1..]);
    }
  }

  lemma {:induction false} StrLtTotal(a: string, b: string)
    requires a != b
    ensures StrLt(a, b) || StrLt(b, a)
    decreases |a|
  {
    if a != [] && b != [] && a[0] == b[0] {
      assert a == [a[0]] + a[1..] && b == [b[0]] + b[1..];
      StrLtTotal(a[1..], b[1..]);
    }
  }

  predicate Increasing(s: seq<string>) {
    forall i, j :: 0 <= i < j < |s| ==> StrLt(s[i], s[j])
  }

  /** `m` is the least string of `s`. */
  predicate IsLeast(m: string, s: set<string>) {
    m in s && forall x :: x in s && x != m ==> StrLt(m, x)
  }

  /** Every non-empty finite set of strings has a least element. */
  lemma {:induction false} LeastOf(s: set<string>) returns (m: string)
    requires s != {}
    ensures IsLeast(m, s)
    decreases |s|
  {
    var y :| y in s;
    if s == {y} {
      m := y;
    } else {
      var rest := s - {y};
      var k := LeastOf(rest);
      if StrLt(y, k) {
        forall x | x in s && x != y ensures StrLt(y, x) {
          if x != k {
            assert x in rest;
            StrLtTransitive(y, k, x);
          }
        }
        m := y;
      } else {
        StrLtTotal(y, k);
        m := k;
      }
    }
  }

  /** `Array.from(monthsSet).sort()`: the set's strings in increasing order. */
  method SortedKeys(s: set<string>) returns (r: seq<string>)
    ensures Increasing(r)
    ensures forall x :: x in r <==> x in s
  {
    r := [];
    var rest := s;
    while rest != {}
      invariant Increasing(r)
      invariant forall x :: x in s <==> x in r || x in rest
      invariant forall x, y :: x in r && y in rest ==> StrLt(x, y)
      invariant forall x :: x in r ==> x !in rest
      decreases |rest|
    {
      ghost var least := LeastOf(rest);
      assert IsLeast(least, rest);
      var m :| m in rest && forall x :: x in rest && x != m ==> StrLt(m, x);
      AppendLeast(r, rest, m);
      r := r + [m];
      rest := rest - {m};
    }
  }

  lemma AppendLeast(r: seq<string>, rest: set<string>, m: string)
    requires Increasing(r) && m in rest
    requires forall x, y :: x in r && y in rest ==> StrLt(x, y)
    ensures Increasing(r + [m])
  {
    var t := r + [m];
    forall i, j | 0 <= i < j < |t| ensures StrLt(t[i], t[j]) {
      if j == |r| {
        assert t[i] in r;
      } else {
        assert t[i] == r[i] && t[j] == r[j];
      }
    }
  }

  /** An increasing sequence is fixed by its elements, so the sorted month list is unique. */
  lemma {:induction false} IncreasingUnique(a: seq<string>, b: seq<string>)
    requires Increasing(a) && Increasing(b)
    requires forall x :: x in a <==> x in b
    ensures a == b
    decreases |a|
  {
    if a != [] {
      assert a[0] in a;
    }
    if b != [] {
      assert b[0] in b;
    }
    if a != [] && b != [] {
      StrLtIrreflexive(a[0]);
      StrLtIrreflexive(b[0]);
      assert a[0] == b[0] by {
        if a[0] != b[0] {
          var i :| 0 <= i < |b| && b[i] == a[0];
          var j :| 0 <= j < |a| && a[j] == b[0];
          StrLtTransitive(b[0], b[i], a[j]);
        }
      }
      forall x ensures x in a[1..] <==> x in b[1..] {
        if x in a[1..] {
          var i :| 1 <= i < |a| && a[i] == x;
          assert x in b;
          var k :| 0 <= k < |b| && b[k] == x;
          assert k != 0;
          assert b[k] == b[1..][k - 1];
        }
        if x in b[1..] {
          var i :| 1 <= i < |b| && b[i] == x;
          assert x in a;
          var k :| 0 <= k < |a| && a[k] == x;
          assert k != 0;
          assert a[k] == a[1..][k - 1];
        }
      }
      IncreasingUnique(a[1..], b[1..]);
      assert a == [a[0]] + a[1..] && b == [b[0]] + b[1..];
    }
  }

  // ---------------------------------------------------------------- the report

  /** The five per-month maps. */
  datatype Aggregates = Aggregates(
    payments: map<string, real>,
    expenses: map<string, real>,
    salaries: map<string, real>,
    given: map<string, real>,
    recovered: map<string, real>)

  /** Every month that appears in any of the five maps. */
  function AllMonths(a: Aggregates): set<string> {
    a.payments.Keys + a.expenses.Keys + a.salaries.Keys + a.given.Keys + a.recovered.Keys
  }

  datatype ReportRow = ReportRow(
    month: string,
    clientPayments: real,
    expenses: real,
    salariesNet: real,
    advancesGiven: real,
    advancesRecovered: real,
    inflows: real,
    outflows: real,
    net: real)

  /** The row of month `m`: inflow is the client payments, outflow expenses plus net salaries, net their difference. */
  function RowFor(m: string, a: Aggregates): (row: ReportRow)
    ensures row.month == m && row.net == row.inflows - row.outflows
    ensures row.inflows == row.clientPayments && row.outflows == row.expenses + row.salariesNet
  {
    var inflow := Get(a.payments, m);
    var outflow := Get(a.expenses, m) + Get(a.salaries, m);
    ReportRow(m, inflow, Get(a.expenses, m), Get(a.salaries, m), Get(a.given, m), Get(a.recovered, m),
      inflow, outflow, inflow - outflow)
  }

  function Rows(months: seq<string>, a: Aggregates): (rows: seq<ReportRow>)
    ensures |rows| == |months| && forall i :: 0 <= i < |months| ==> rows[i] == RowFor(months[i], a)
  {
    if months == [] then [] else Rows(months[..|months| - 1], a) + [RowFor(months[|months| - 1], a)]
  }

  /** The three store aggregations over the range. */
  function StoreTotals(r: DateRange, ps: seq<Payment>, es: seq<Expense>, ss: seq<SalaryPayment>): (m: (map<string, real>, map<string, real>, map<string, real>))
    ensures m.0 == AggregateByMonth(PaymentRows(ps), r)
    ensures m.1 == AggregateByMonth(ExpenseRows(es), r)
    ensures m.2 == AggregateByMonth(SalaryRows(ss), r)
  {
    (AggregateByMonth(PaymentRows(ps), r), AggregateByMonth(ExpenseRows(es), r), AggregateByMonth(SalaryRows(ss), r))
  }

  /** The staff entries `StaffLedgerEntry.find({ date: rangeMatch })` returns. */
  function StaffInRange(entries: seq<StaffEntry>, r: DateRange): (w: seq<StaffEntry>)
    ensures forall e :: e in w <==> e in entries && InRange(r, e.date)
  {
    if entries == [] then []
    else
      StaffInRange(entries[..|entries| - 1], r)
        + (if InRange(r, entries[|entries| - 1].date) then [entries[|entries| - 1]] else [])
  }

  /** The aggregates the report is built from, for a date range and the stored records. */
  function ReportAggregates(r: DateRange, ps: seq<Payment>, es: seq<Expense>, ss: seq<SalaryPayment>,
                            staff: seq<StaffEntry>): Aggregates
  {
    var inRange := StaffInRange(staff, r);
    Aggregates(AggregateByMonth(PaymentRows(ps), r), AggregateByMonth(ExpenseRows(es), r),
      AggregateByMonth(SalaryRows(ss), r), MonthTotals(Selected(inRange, true)), MonthTotals(Selected(inRange, false)))
  }

  /** The 400 reply: a month query whose dates are invalid. */
  datatype ReportError = InvalidDate

  /**
   * `netBalance`: a month query that gives an Invalid Date fails; otherwise
   * one row for every month that appears in any category within the range,
   * in sorted order without repeats, built from the month's totals.
   */
  method NetBalance(month: Option<string>, ps: seq<Payment>, es: seq<Expense>, ss: seq<SalaryPayment>,
                    staff: seq<StaffEntry>) returns (res: Result<seq<ReportRow>, ReportError>, ghost months: seq<string>)
    ensures res.Failure? <==> QueryRange(month).None?
    ensures res.Failure? ==> res == Failure(InvalidDate)
    ensures res.Success? ==>
      var a := ReportAggregates(QueryRange(month).value, ps, es, ss, staff);
      && Increasing(months)
      && (forall m :: m in months <==> m in AllMonths(a))
      && res.value == Rows(months, a)
  {
    var range := QueryRange(month);
    if range.None? {
      return Failure(InvalidDate), [];
    }
    var r := range.value;
    var totals := StoreTotals(r, ps, es, ss);
    var given, recovered := AdvanceTotals(StaffInRange(staff, r));
    var a := Aggregates(totals.0, totals.1, totals.2, given, recovered);
    var sorted := SortedKeys(AllMonths(a));
    res := Success(Rows(sorted, a));
    months := sorted;
  }

  /**
   * What a report row says: its month appears in some category, every month
   * that does appears once, and the client-payment figure is the sum of the
   * in-range payments whose month key is the row's month.
   */
  lemma ReportRowsSpec(months: seq<string>, ps: seq<Payment>, es: seq<Expense>, ss: seq<SalaryPayment>,
                       staff: seq<StaffEntry>, r: DateRange, i: nat)
    requires var a := ReportAggregates(r, ps, es, ss, staff);
      Increasing(months) && (forall m :: m in months <==> m in AllMonths(a))
    requires i < |months|
    ensures var a := ReportAggregates(r, ps, es, ss, staff);
      var row := Rows(months, a)[i];
      && row.month in AllMonths(a)
      && row.clientPayments == SumFor(Keys(Within(PaymentRows(ps), r)), row.month)
      && row.expenses == SumFor(Keys(Within(ExpenseRows(es), r)), row.month)
      && row.salariesNet == SumFor(Keys(Within(SalaryRows(ss), r)), row.month)
      && row.net == row.clientPayments - (row.expenses + row.salariesNet)
      && forall j :: 0 <= j < |months| && j != i ==> Rows(months, a)[j].month != row.month
  {
    var a := ReportAggregates(r, ps, es, ss, staff);
    var k := months[i];
    MonthTotalsSpec(Keys(Within(PaymentRows(ps), r)), k);
    MonthTotalsSpec(Keys(Within(ExpenseRows(es), r)), k);
    MonthTotalsSpec(Keys(Within(SalaryRows(ss), r)), k);
    forall j | 0 <= j < |months| && j != i ensures months[j] != k {
      if j < i {
        assert StrLt(months[j], months[i]);
      } else {
        assert StrLt(months[i], months[j]);
      }
      StrLtIrreflexive(k);
    }
  }
}
