/**
 * The ledger table of the browser client (client/src/components/Ledger.js):
 * the running balance it shows above the rows, a `reduce` over the entries
 * the ledger service returned, CREDIT rows taken off and every other row
 * added, a missing amount counting 0.
 */
module LedgerView {
  import opened Wrappers
  import opened Ledger
  import opened Lists

  /** A row as the client receives it: its type and its amount, which may be missing. */
  datatype Row = Row(kind: EntryType, amount: Option<real>)

  /** `toNum` of Ledger.js: a missing amount is 0. */
  function AmountOf(r: Row): real {
    r.amount.GetOr(0.0)
  }

  /** One row's effect: a CREDIT lowers the balance, every other type raises it. */
  function Signed(r: Row): (x: real)
    ensures r.kind == Credit ==> x == -AmountOf(r)
    ensures r.kind != Credit ==> x == AmountOf(r)
  {
    if r.kind == Credit then -AmountOf(r) else AmountOf(r)
  }

  /** The `reduce`, from the first row to the last, starting at 0. */
  function RunningBalance(rows: seq<Row>): real
    decreases |rows|
  {
    if rows == [] then 0.0 else RunningBalance(rows[..|rows| - 1]) + Signed(rows[|rows| - 1])
  }

  /** What is shown: nothing (a dash) before the ledger has loaded, else the balance of its rows (none when it has no entries). */
  function Shown(ledger: Option<Option<seq<Row>>>): (r: Option<real>)
    ensures ledger.None? <==> r.None?
    ensures ledger == Some(None) ==> r == Some(0.0)
  {
    match ledger
    case None => None
    case Some(entries) => Some(RunningBalance(entries.GetOr([])))
  }

  /** The balance splits over a concatenation of rows. */
  lemma {:induction false} BalanceAppend(a: seq<Row>, b: seq<Row>)
    ensures RunningBalance(a + b) == RunningBalance(a) + RunningBalance(b)
    decreases |b|
  {
    if b == [] {
      assert a + b == a;
    } else {
      assert (a + b)[..|a + b| - 1] == a + b[..|b| - 1];
      BalanceAppend(a, b[..|b| - 1]);
    }
  }

  /** Taking one row out takes its effect off the balance. */
  lemma BalanceWithout(s: seq<Row>, i: nat)
    requires i < |s|
    ensures RunningBalance(s) == RunningBalance(s[..i] + s[i + 1..]) + Signed(s[i])
  {
    var pre, x, post := s[..i], s[i], s[i + 1..];
    assert s == (pre + [x]) + post;
    BalanceAppend(pre + [x], post);
    BalanceAppend(pre, [x]);
    BalanceAppend(pre, post);
    BalanceOne(x);
  }

  lemma BalanceOne(x: Row)
    ensures RunningBalance([x]) == Signed(x)
  {
    assert [x][..0] == [];
  }

  /** The balance depends only on which rows there are, not on their order. */
  lemma {:induction false} BalanceOrderFree(a: seq<Row>, b: seq<Row>)
    requires multiset(a) == multiset(b)
    ensures RunningBalance(a) == RunningBalance(b)
    decreases |a|
  {
    if a == [] {
      assert |b| == |multiset(b)| == 0;
    } else {
      var n := |a| - 1;
      var x := a[n];
      assert x in multiset(b);
      var i :| 0 <= i < |b| && b[i] == x;
      assert a == a[..n] + [x];
      assert multiset(a[..n]) == multiset(a) - multiset{x};
      MultisetWithout(b, i);
      BalanceOrderFree(a[..n], b[..i] + b[i + 1..]);
      BalanceWithout(b, i);
    }
  }

  /** The row the client receives for a stored entry. */
  function RowOf<R>(e: Entry<R>): Row {
    Row(e.kind, Some(e.amount))
  }

  function RowsOf<R>(entries: seq<Entry<R>>): (r: seq<Row>)
    ensures |r| == |entries| && forall i :: 0 <= i < |entries| ==> r[i] == RowOf(entries[i])
  {
    seq(|entries|, i requires 0 <= i < |entries| => RowOf(entries[i]))
  }

  /** The balance before entry `i`: that of the entry before it, or 0 for the first. */
  function Before<R>(entries: seq<Entry<R>>, i: nat): real
    requires i < |entries|
  {
    if i == 0 then 0.0 else entries[i - 1].balanceAfter
  }

  /** Entry `i`'s balance is the one before it plus a debit or minus a credit, exactly. */
  predicate Linked<R>(entries: seq<Entry<R>>, i: nat)
    requires i < |entries|
  {
    entries[i].balanceAfter == Before(entries, i) + Signed(RowOf(entries[i]))
  }

  /** A chain of stored entries starting from 0. */
  predicate Chained<R>(entries: seq<Entry<R>>) {
    forall i :: 0 <= i < |entries| ==> Linked(entries, i)
  }

  /** On an exact chain starting from 0, the running balance the table shows is the last stored balance. */
  lemma {:induction false} BalanceMatchesChain<R>(entries: seq<Entry<R>>)
    requires Chained(entries)
    ensures RunningBalance(RowsOf(entries)) == if entries == [] then 0.0 else entries[|entries| - 1].balanceAfter
    decreases |entries|
  {
    if entries != [] {
      var n := |entries| - 1;
      var init := entries[..n];
      assert Chained(init) by {
        forall i | 0 <= i < |init| ensures Linked(init, i) {
          assert Linked(entries, i);
          assert init[i] == entries[i];
          if i > 0 { assert init[i - 1] == entries[i - 1]; }
        }
      }
      BalanceMatchesChain(init);
      assert RowsOf(entries)[..n] == RowsOf(init);
      assert Linked(entries, n);
    }
  }
}
