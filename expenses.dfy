/**
 * Office expenses (controllers/expenseController.js over models/Expense.js):
 * recording an expense, listing them within a date range newest first, and
 * deleting one. The collection is held in memory; an expense's id is the
 * store's counter at the time it was recorded.
 */
module Expenses {
  import opened Wrappers
  import opened Text
  import opened Calendar

  datatype ExpenseMode = CashExpense | BankExpense | UpiExpense | CardExpense | OtherExpense

  datatype Expense = Expense(
    id: nat,
    name: string,
    amount: real,
    mode: ExpenseMode,
    paymentTo: Option<string>,
    date: int,
    remarks: Option<string>,
    createdAt: int)

  /** What `Number(x)` gives: a number, or NaN (for `undefined` and unparseable text). */
  datatype NumberValue = Num(value: real) | NaN

  /**
   * The request body. `name` is `None` when absent; `mode` is `None` when
   * absent (an unknown mode string is not modelled); `date` is `None` when it
   * is falsy.
   */
  datatype ExpenseBody = ExpenseBody(
    name: Option<string>,
    amount: NumberValue,
    mode: Option<ExpenseMode>,
    paymentTo: Option<string>,
    date: Option<int>,
    remarks: Option<string>)

  /**
   * `InvalidInput` is the controller's own check; `ValidationFailed` is the
   * schema refusing the document (a required field left empty, or NaN where a
   * number is required), reported with status 400.
   */
  datatype ExpenseError = InvalidInput | ValidationFailed | NotFound

  /** The controller's guard `!name || Number(amount) <= 0`; NaN compares false, so it passes. */
  predicate RejectedInput(body: ExpenseBody) {
    body.name.None? || body.name.value == [] || (body.amount.Num? && body.amount.value <= 0.0)
  }

  /** `(paymentTo || "").trim() || undefined`. */
  function Payee(paymentTo: Option<string>): (p: Option<string>)
    ensures p.Some? ==> p.value != [] && Trim(p.value) == p.value
    ensures paymentTo.None? ==> p.None?
    ensures paymentTo.Some? && Trim(paymentTo.value) != [] ==> p == Some(Trim(paymentTo.value))
  {
    match paymentTo
    case None => None
    case Some(v) =>
      TrimIdempotent(v);
      var t := Trim(v);
      if t == [] then None else Some(t)
  }

  /** A string field the schema trims. */
  function Trimmed(s: Option<string>): Option<string> {
    match s
    case None => None
    case Some(v) => Some(Trim(v))
  }

  /** The document `Expense.create` is given, with the schema's defaults and trimming applied. */
  function NewExpense(body: ExpenseBody, id: nat, now: int): Expense
    requires body.name.Some? && body.amount.Num?
  {
    Expense(
      id,
      Trim(body.name.value),
      body.amount.value,
      body.mode.GetOr(OtherExpense),
      Payee(body.paymentTo),
      body.date.GetOr(now),
      Trimmed(body.remarks),
      now)
  }

  /**
   * The outcome of `createExpense` given the next id: the guard's rejection,
   * the schema's (a name that trims to nothing, or a NaN amount), or the new
   * expense.
   */
  function CreateOutcome(body: ExpenseBody, id: nat, now: int): (r: Result<Expense, ExpenseError>)
    ensures r == Failure(InvalidInput) <==> RejectedInput(body)
    ensures r == Failure(ValidationFailed) <==> !RejectedInput(body) && (body.amount.NaN? || Trim(body.name.value) == [])
    ensures r.Success? <==> !RejectedInput(body) && body.amount.Num? && Trim(body.name.value) != []
    ensures r.Success? ==> var e := r.value;
      && e.id == id && e.name == Trim(body.name.value) && e.name != []
      && e.amount > 0.0 && body.amount == Num(e.amount)
      && e.mode == body.mode.GetOr(OtherExpense)
      && e.paymentTo == Payee(body.paymentTo)
      && e.date == body.date.GetOr(now) && e.createdAt == now
  {
    if RejectedInput(body) then Failure(InvalidInput)
    else if body.amount.NaN? || Trim(body.name.value) == [] then Failure(ValidationFailed)
    else Success(NewExpense(body, id, now))
  }

  /** The date condition `listExpenses` builds: `$gte` the `from` instant and `$lte` the `to` instant moved to 23:59:59.999. */
  datatype DateQuery = DateQuery(gte: Option<int>, lte: Option<int>)

  function BuildQuery(from: Option<int>, to: Option<int>): DateQuery {
    DateQuery(from, if to.Some? then Some(EndOfDay(to.value)) else None)
  }

  predicate Matches(q: DateQuery, e: Expense) {
    (q.gte.None? || q.gte.value <= e.date) && (q.lte.None? || e.date <= q.lte.value)
  }

  /** An expense is in the listed range when it is not before `from` and its day is not after `to`'s day. */
  predicate InDateRange(d: int, from: Option<int>, to: Option<int>) {
    (from.None? || from.value <= d) && (to.None? || DayOf(d) <= DayOf(to.value))
  }

  /** The built query keeps exactly the expenses in range: `to` counts its whole day. */
  lemma QueryMeansRange(from: Option<int>, to: Option<int>, e: Expense)
    ensures Matches(BuildQuery(from, to), e) <==> InDateRange(e.date, from, to)
  {
    if to.Some? {
      BeforeEndOfDay(e.date, to.value);
    }
  }

  function Filter(rows: seq<Expense>, q: DateQuery): (r: seq<Expense>)
    ensures |r| <= |rows|
  {
    if rows == [] then []
    else if Matches(q, rows[0]) then [rows[0]] + Filter(rows[1..], q)
    else Filter(rows[1..], q)
  }

  /** The filter keeps each matching row as often as it occurs, and nothing else. */
  lemma {:induction false} FilterCounts(rows: seq<Expense>, q: DateQuery, e: Expense)
    ensures multiset(Filter(rows, q))[e] == if Matches(q, e) then multiset(rows)[e] else 0
  {
    if rows != [] {
      FilterCounts(rows[1..], q, e);
      assert rows == [rows[0]] + rows[1..];
    }
  }

  /** `a` is listed no later than `b` under `sort({ date: -1, createdAt: -1 })`. */
  predicate NotAfter(a: Expense, b: Expense) {
    a.date > b.date || (a.date == b.date && a.createdAt >= b.createdAt)
  }

  predicate NewestFirst(s: seq<Expense>) {
    forall i, j :: 0 <= i < j < |s| ==> NotAfter(s[i], s[j])
  }

  function Insert(e: Expense, s: seq<Expense>): seq<Expense> {
    if s == [] || NotAfter(e, s[0]) then [e] + s else [s[0]] + Insert(e, s[1..])
  }

  /** Inserting into a newest-first list keeps it newest first and adds exactly that expense. */
  lemma {:induction false} InsertNewestFirst(e: Expense, s: seq<Expense>)
    requires NewestFirst(s)
    ensures NewestFirst(Insert(e, s))
    ensures multiset(Insert(e, s)) == multiset(s) + multiset{e}
  {
    if s != [] && !NotAfter(e, s[0]) {
      var rest := s[1..];
      assert NewestFirst(rest) by {
        forall i, j | 0 <= i < j < |rest| ensures NotAfter(rest[i], rest[j]) {
          assert rest[i] == s[i + 1] && rest[j] == s[j + 1];
        }
      }
      InsertNewestFirst(e, rest);
      InsertHead(e, s);
      assert s == [s[0]] + rest;
    }
  }

  /** Everything in `Insert(e, s[1..])` comes no earlier than `s[0]`. */
  lemma InsertHead(e: Expense, s: seq<Expense>)
    requires s != [] && NewestFirst(s) && !NotAfter(e, s[0])
    requires NewestFirst(Insert(e, s[1..]))
    requires multiset(Insert(e, s[1..])) == multiset(s[1..]) + multiset{e}
    ensures NewestFirst([s[0]] + Insert(e, s[1..]))
  {
    var t := Insert(e, s[1..]);
    forall j | 0 <= j < |t| ensures NotAfter(s[0], t[j]) {
      assert t[j] in multiset(t);
      if t[j] != e {
        assert t[j] in multiset(s[1..]);
        var k :| 0 <= k < |s[1..]| && s[1..][k] == t[j];
        assert s[k + 1] == t[j];
      }
    }
    var r := [s[0]] + t;
    forall i, j | 0 <= i < j < |r| ensures NotAfter(r[i], r[j]) {
      if i == 0 {
        assert r[j] == t[j - 1];
      } else {
        assert r[i] == t[i - 1] && r[j] == t[j - 1];
      }
    }
  }

  /** The store's sort, as an insertion sort: the order of expenses with equal keys is not stated. */
  function SortNewestFirst(s: seq<Expense>): seq<Expense> {
    if s == [] then [] else Insert(s[0], SortNewestFirst(s[1..]))
  }

  lemma {:induction false} SortNewestFirstSpec(s: seq<Expense>)
    ensures NewestFirst(SortNewestFirst(s))
    ensures multiset(SortNewestFirst(s)) == multiset(s)
  {
    if s != [] {
      SortNewestFirstSpec(s[1..]);
      InsertNewestFirst(s[0], SortNewestFirst(s[1..]));
      assert s == [s[0]] + s[1..];
    }
  }

  /** `listExpenses`: the expenses in range, newest first. */
  function ListExpenses(rows: seq<Expense>, from: Option<int>, to: Option<int>): seq<Expense> {
    SortNewestFirst(Filter(rows, BuildQuery(from, to)))
  }

  /**
   * The listing is newest first, and it holds every stored expense whose date
   * is in range, as often as it is stored, and no other.
   */
  lemma ListExpensesSpec(rows: seq<Expense>, from: Option<int>, to: Option<int>, e: Expense)
    ensures NewestFirst(ListExpenses(rows, from, to))
    ensures multiset(ListExpenses(rows, from, to))[e] ==
      if InDateRange(e.date, from, to) then multiset(rows)[e] else 0
  {
    SortNewestFirstSpec(Filter(rows, BuildQuery(from, to)));
    FilterCounts(rows, BuildQuery(from, to), e);
    QueryMeansRange(from, to, e);
  }

  /** The position of the expense with id `id`, if there is one. */
  function IndexOf(rows: seq<Expense>, id: nat): (r: Option<nat>)
    ensures r.Some? ==> r.value < |rows| && rows[r.value].id == id
    ensures r.None? ==> forall k :: 0 <= k < |rows| ==> rows[k].id != id
  {
    if rows == [] then None
    else if rows[|rows| - 1].id == id then Some(|rows| - 1)
    else IndexOf(rows[..|rows| - 1], id)
  }

  /** Ids are distinct and below the counter. */
  predicate IdsOk(rows: seq<Expense>, nextId: nat) {
    (forall k :: 0 <= k < |rows| ==> rows[k].id < nextId)
    && (forall k, l :: 0 <= k < l < |rows| ==> rows[k].id != rows[l].id)
  }

  class ExpenseStore {
    var rows: seq<Expense>
    var nextId: nat

    ghost predicate Valid()
      reads this
    {
      IdsOk(rows, nextId)
    }

    constructor ()
      ensures Valid() && rows == [] && nextId == 0
    {
      rows := [];
      nextId := 0;
    }

    /** `createExpense` at time `now`. */
    method Create(body: ExpenseBody, now: int) returns (r: Result<Expense, ExpenseError>)
      requires Valid()
      modifies this
      ensures Valid()
      ensures r == CreateOutcome(body, old(nextId), now)
      ensures r.Success? ==> rows == old(rows) + [r.value] && nextId == old(nextId) + 1
      ensures r.Failure? ==> rows == old(rows) && nextId == old(nextId)
    {
      r := CreateOutcome(body, nextId, now);
      if r.Success? {
        Append(r.value);
      }
    }

    /** Stores a row under the next id and moves the counter past it. */
    method Append(e: Expense)
      requires Valid() && e.id == nextId
      modifies this
      ensures Valid()
      ensures rows == old(rows) + [e] && nextId == old(nextId) + 1
    {
      AppendKeepsIds(rows, nextId, e);
      rows := rows + [e];
      nextId := nextId + 1;
    }

    /** `listExpenses`: read-only. */
    method List(from: Option<int>, to: Option<int>) returns (out: seq<Expense>)
      ensures out == ListExpenses(rows, from, to)
    {
      out := ListExpenses(rows, from, to);
    }

    /** `deleteExpense`: NOT_FOUND for an unknown id, otherwise exactly that row is removed. */
    method Delete(id: nat) returns (r: Result<(), ExpenseError>)
      requires Valid()
      modifies this
      ensures Valid() && nextId == old(nextId)
      ensures (forall k :: 0 <= k < |old(rows)| ==> old(rows)[k].id != id) <==> r == Failure(NotFound)
      ensures r.Failure? ==> r == Failure(NotFound) && rows == old(rows)
      ensures r.Success? ==>
        (exists k :: 0 <= k < |old(rows)| && old(rows)[k].id == id && rows == old(rows)[..k] + old(rows)[k + 1..])
        && forall k :: 0 <= k < |rows| ==> rows[k].id != id
    {
      var i := IndexOf(rows, id);
      if i.None? {
        r := Failure(NotFound);
      } else {
        var k := i.value;
        RemoveKeepsIds(rows, nextId, k, rows[..k] + rows[k + 1..]);
        rows := rows[..k] + rows[k + 1..];
        r := Success(());
      }
    }
  }

  lemma AppendKeepsIds(rows: seq<Expense>, nextId: nat, e: Expense)
    requires IdsOk(rows, nextId) && e.id == nextId
    ensures IdsOk(rows + [e], nextId + 1)
  {
  }

  /** Removing one row keeps the ids distinct, and no other row had the removed id. */
  lemma RemoveKeepsIds(rows: seq<Expense>, nextId: nat, k: nat, s: seq<Expense>)
    requires IdsOk(rows, nextId) && k < |rows| && s == rows[..k] + rows[k + 1..]
    ensures IdsOk(s, nextId)
    ensures forall a :: 0 <= a < |s| ==> s[a].id != rows[k].id
  {
    forall a | 0 <= a < |s| ensures s[a] == rows[if a < k then a else a + 1] {
    }
    forall a, b | 0 <= a < b < |s| ensures s[a].id != s[b].id {
      assert s[a] == rows[if a < k then a else a + 1];
      assert s[b] == rows[if b < k then b else b + 1];
    }
  }
}
