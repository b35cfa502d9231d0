/**
 * `nextQuoteNo` (utils/quoteNumber.js): read the most recent quotation's
 * number, take its trailing digits, add one, pad to four digits.
 */
module QuoteNumber {
  import opened Wrappers
  import opened Text

  /** `QTN-${String(n).padStart(4, "0")}`. */
  function QuoteNo(n: nat): string {
    "QTN-" + PadStart(NatToString(n), 4, '0')
  }

  /**
   * `nextQuoteNo`, given the `quoteNo` of the most recently created quotation
   * (None when there is no quotation or it has no number).
   */
  function NextQuoteNo(last: Option<string>): (no: string)
    ensures last.None? || last == Some("") ==> no == QuoteNo(1)
    ensures last.Some? && last.value != "" ==> no == QuoteNo(Successor(last.value))
  {
    if last.None? || last.value == "" then "QTN-0001" else QuoteNo(Successor(last.value))
  }

  /** A number's own digits read back as that number. */
  lemma QuoteNoDigits(n: nat)
    ensures TrailingDigits(QuoteNo(n)) == PadStart(NatToString(n), 4, '0')
    ensures Successor(QuoteNo(n)) == n + 1
  {
    PaddedValue(n, 4);
    TrailingDigitsOf("QTN-", PadStart(NatToString(n), 4, '0'));
  }

  /** After QTN-n comes QTN-(n+1). */
  lemma NextAfterQuoteNo(n: nat)
    ensures NextQuoteNo(Some(QuoteNo(n))) == QuoteNo(n + 1)
  {
    QuoteNoDigits(n);
  }

  /** Quote numbers of different sequence numbers differ. */
  lemma QuoteNoInjective(a: nat, b: nat)
    requires QuoteNo(a) == QuoteNo(b)
    ensures a == b
  {
    QuoteNoDigits(a);
    QuoteNoDigits(b);
  }

  /** A last number without trailing digits restarts the sequence at 1. */
  lemma NoDigitsRestarts(s: string)
    requires s != "" && !IsDigit(s[|s| - 1])
    ensures NextQuoteNo(Some(s)) == QuoteNo(1)
  {
  }
}
