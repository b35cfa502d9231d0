/**
 * `nextInvoiceNo` (utils/invoiceNumber.js): a per-month counter table, bumped
 * atomically, formatted as `INV-YYYYMM-nnnn`.
 */
module InvoiceNumber {
  import opened Wrappers
  import opened Text

  /** The counter key of a month: "INV-" then the four-digit year and two-digit month. */
  function MonthKey(year: nat, month: nat): string {
    "INV-" + PadStart(NatToString(year), 4, '0') + PadStart(NatToString(month), 2, '0')
  }

  /** `${key}-${String(seq).padStart(4, '0')}`. */
  function Format(key: string, n: nat): string {
    key + "-" + PadStart(NatToString(n), 4, '0')
  }

  /** Reads a number back into its key and sequence number. */
  function Parse(s: string): (r: Option<(string, nat)>)
  {
    var d := TrailingDigits(s);
    if d != [] && |s| > |d| && s[|s| - |d| - 1] == '-' then Some((s[..|s| - |d| - 1], DigitsValue(d)))
    else None
  }

  /** Every formatted number reads back as the key and sequence number it was made from. */
  lemma ParseFormat(key: string, n: nat)
    ensures Parse(Format(key, n)) == Some((key, n))
  {
    var digits := PadStart(NatToString(n), 4, '0');
    PaddedValue(n, 4);
    TrailingDigitsOf(key + "-", digits);
    assert Format(key, n) == (key + "-") + digits;
    assert Format(key, n)[..|key|] == key;
  }

  /** Two numbers are equal only when key and sequence number both are. */
  lemma FormatInjective(k1: string, n1: nat, k2: string, n2: nat)
    requires Format(k1, n1) == Format(k2, n2)
    ensures k1 == k2 && n1 == n2
  {
    ParseFormat(k1, n1);
    ParseFormat(k2, n2);
  }

  /** The counter of a key: 0 before its first use (`Counter.seq` defaults to 0). */
  function SeqOf(seqs: map<string, nat>, key: string): nat {
    if key in seqs then seqs[key] else 0
  }

  /** `s` reads back as a key of the table and a sequence number that key has reached. */
  predicate Reached(s: string, seqs: map<string, nat>) {
    match Parse(s)
    case None => false
    case Some(kn) => kn.0 in seqs && 1 <= kn.1 <= seqs[kn.0]
  }

  /** Bumping one counter keeps every issued number reached, and the new number was not issued before. */
  lemma BumpKeepsReached(issued: set<string>, seqs: map<string, nat>, key: string, no: string)
    requires forall s :: s in issued ==> Reached(s, seqs)
    requires Parse(no) == Some((key, SeqOf(seqs, key) + 1))
    ensures no !in issued
    ensures forall s :: s in issued + {no} ==> Reached(s, seqs[key := SeqOf(seqs, key) + 1])
  {
    var n := SeqOf(seqs, key) + 1;
    forall s | s in issued + {no} ensures Reached(s, seqs[key := n]) {
      if s != no {
        var kn := Parse(s).value;
        assert kn.0 in seqs && kn.1 <= seqs[kn.0];
      }
    }
  }

  /** The `Counter` collection: one sequence number per key. */
  class CounterTable {
    var seqs: map<string, nat>
    /** The numbers handed out so far. */
    ghost var issued: set<string>

    /** Every number handed out reads back as a key of the table and a sequence number it has reached. */
    ghost predicate Valid()
      reads this
    {
      forall s :: s in issued ==> Reached(s, seqs)
    }

    constructor ()
      ensures Valid() && seqs == map[] && issued == {}
    {
      seqs := map[];
      issued := {};
    }

    /**
     * `findOneAndUpdate({ key }, { $inc: { seq: 1 } }, { upsert: true, new: true })`
     * then the formatting: the month's counter goes up by exactly one, other
     * counters stay, and the number returned has not been handed out before.
     */
    method NextInvoiceNo(year: nat, month: nat) returns (no: string)
      requires Valid()
      modifies this
      ensures Valid()
      ensures var key := MonthKey(year, month);
        seqs == old(seqs)[key := SeqOf(old(seqs), key) + 1] && no == Format(key, SeqOf(old(seqs), key) + 1)
      ensures no !in old(issued) && issued == old(issued) + {no}
    {
      no := Bump(MonthKey(year, month));
    }

    /** The bump of one key's counter and the number it yields. */
    method Bump(key: string) returns (no: string)
      requires Valid()
      modifies this
      ensures Valid()
      ensures seqs == old(seqs)[key := SeqOf(old(seqs), key) + 1] && no == Format(key, SeqOf(old(seqs), key) + 1)
      ensures no !in old(issued) && issued == old(issued) + {no}
    {
      var n := SeqOf(seqs, key) + 1;
      no := Format(key, n);
      ParseFormat(key, n);
      BumpKeepsReached(issued, seqs, key, no);
      seqs := seqs[key := n];
      issued := issued + {no};
    }
  }
}
