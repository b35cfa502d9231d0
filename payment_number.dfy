/**
 * `nextPaymentNo` (utils/paymentNumber.js): read the most recent payment's
 * receipt number, take its trailing digits, add one; no padding.
 */
module PaymentNumber {
  import opened Wrappers
  import opened Text

  /** `pay_${n}`: no padding. */
  function PaymentNo(n: nat): string {
    "pay_" + NatToString(n)
  }

  /** `nextPaymentNo`, given the `receiptNo` of the most recently created payment. */
  function NextPaymentNo(last: Option<string>): (no: string)
    ensures last.None? || last == Some("") ==> no == PaymentNo(1)
    ensures last.Some? && last.value != "" ==> no == PaymentNo(Successor(last.value))
  {
    if last.None? || last.value == "" then "pay_1" else PaymentNo(Successor(last.value))
  }

  lemma PaymentNoDigits(n: nat)
    ensures TrailingDigits(PaymentNo(n)) == NatToString(n)
    ensures Successor(PaymentNo(n)) == n + 1
  {
    DigitsValueOfNatToString(n);
    TrailingDigitsOf("pay_", NatToString(n));
  }

  /** After pay_n comes pay_(n+1). */
  lemma NextAfterPaymentNo(n: nat)
    ensures NextPaymentNo(Some(PaymentNo(n))) == PaymentNo(n + 1)
  {
    PaymentNoDigits(n);
  }

  lemma PaymentNoInjective(a: nat, b: nat)
    requires PaymentNo(a) == PaymentNo(b)
    ensures a == b
  {
    PaymentNoDigits(a);
    PaymentNoDigits(b);
  }
}
