/**
 * Running-balance ledgers: the client ledger (utils/balance.js) and the staff
 * ledger (utils/staffBalance.js). Entries are kept in insertion order, which
 * stands for their creation time (`createdAt`, and the `_id` that grows with
 * it), so "latest by (date, createdAt)" is "largest date, and among equal dates
 * the one appended last".
 */
module Ledger {
  import opened Wrappers

  datatype EntryType = Debit | Credit | Adjustment

  /** One ledger row; `R` is the kind of reference (invoice, payment, ... or advance, salary, ...). */
  datatype Entry<R> = Entry(
    owner: nat,
    date: int,
    kind: EntryType,
    amount: real,
    balanceAfter: real,
    refType: R,
    refId: Option<nat>,
    remarks: string)

  /** Entry `i` sorts no later than entry `j` under `sort({ date: -1, createdAt: -1 })`. */
  predicate NotAfter<R>(entries: seq<Entry<R>>, i: nat, j: nat)
    requires i < |entries| && j < |entries|
  {
    entries[i].date < entries[j].date || (entries[i].date == entries[j].date && i <= j)
  }

  predicate HasEntries<R>(entries: seq<Entry<R>>, owner: nat) {
    exists i :: 0 <= i < |entries| && entries[i].owner == owner
  }

  /** The position of the owner's latest entry: the first row of the sorted query, `limit(1)`. */
  function LatestIndex<R>(entries: seq<Entry<R>>, owner: nat): (r: Option<nat>)
    ensures r.None? <==> !HasEntries(entries, owner)
    ensures r.Some? ==> r.value < |entries| && entries[r.value].owner == owner
    ensures r.Some? ==> forall i :: 0 <= i < |entries| && entries[i].owner == owner ==> NotAfter(entries, i, r.value)
    decreases |entries|
  {
    if |entries| == 0 then None
    else
      var last := |entries| - 1;
      var prev := LatestIndex(entries[..last], owner);
      if entries[last].owner != owner then prev
      else if prev.Some? && entries[prev.value].date > entries[last].date then prev
      else Some(last)
  }

  /**
   * `getCurrentBalance` / `getStaffCurrentBalance`: the balance after the latest
   * entry, or 0 when the owner has none. (Both fall back to 0 for a missing
   * `balanceAfter`; the schemas require the field, so a stored row always has it.)
   */
  function CurrentBalance<R>(entries: seq<Entry<R>>, owner: nat): real {
    match LatestIndex(entries, owner)
    case None => 0.0
    case Some(i) => entries[i].balanceAfter
  }

  /** The latest entry is the only one that no other entry of the owner sorts after. */
  lemma LatestIsUnique<R>(entries: seq<Entry<R>>, owner: nat, k: nat)
    requires k < |entries| && entries[k].owner == owner
    requires forall i :: 0 <= i < |entries| && entries[i].owner == owner ==> NotAfter(entries, i, k)
    ensures LatestIndex(entries, owner) == Some(k)
  {
    var r := LatestIndex(entries, owner);
    assert r.Some?;
    assert NotAfter(entries, k, r.value) && NotAfter(entries, r.value, k);
  }

  /** With no entries for the owner the balance is 0. */
  lemma NoEntriesNoBalance<R>(entries: seq<Entry<R>>, owner: nat)
    requires forall i :: 0 <= i < |entries| ==> entries[i].owner != owner
    ensures CurrentBalance(entries, owner) == 0.0
  {
  }

  /** Appending an entry of another owner leaves this owner's balance as it was. */
  lemma AppendOtherOwner<R>(entries: seq<Entry<R>>, e: Entry<R>, owner: nat)
    requires e.owner != owner
    ensures CurrentBalance(entries + [e], owner) == CurrentBalance(entries, owner)
  {
    assert (entries + [e])[..|entries|] == entries;
  }

  /** An entry dated no earlier than all of the owner's entries becomes the latest, so the balance is its balanceAfter. */
  lemma AppendLatest<R>(entries: seq<Entry<R>>, e: Entry<R>)
    requires forall i :: 0 <= i < |entries| && entries[i].owner == e.owner ==> entries[i].date <= e.date
    ensures CurrentBalance(entries + [e], e.owner) == e.balanceAfter
  {
    var s := entries + [e];
    forall i | 0 <= i < |s| && s[i].owner == e.owner ensures NotAfter(s, i, |entries|) {
      if i < |entries| { assert s[i] == entries[i]; }
    }
    LatestIsUnique(s, e.owner, |entries|);
  }

  /** An entry dated before one of the owner's entries does not become the latest: the balance is unchanged. */
  lemma AppendBackdated<R>(entries: seq<Entry<R>>, e: Entry<R>, j: nat)
    requires j < |entries| && entries[j].owner == e.owner && entries[j].date > e.date
    ensures CurrentBalance(entries + [e], e.owner) == CurrentBalance(entries, e.owner)
  {
    var s := entries + [e];
    assert s[..|entries|] == entries;
    var prev := LatestIndex(entries, e.owner);
    assert prev.Some? && NotAfter(entries, j, prev.value);
  }
}
