/**
 * The fee-history tab of a student's profile
 * (components/students/StudentFeeHistory.tsx): the three totals, the guard of
 * the payment form and the receipt numbers.
 */
module FeeHistory {

  import opened Strings
  import opened Seqs

  /** A payment row as the tab reads it. */
  datatype Payment = Payment(id: nat, amount: real, status: string)

  function Amount(p: Payment): real { p.amount }

  predicate IsPaid(p: Payment) { p.status == "Paid" }

  predicate NotPaid(p: Payment) { p.status != "Paid" }

  /** `totalAmount`: every payment's amount. */
  function TotalAmount(history: seq<Payment>): real
  {
    SumBy(history, Amount)
  }

  /** `totalPaid`: the amounts whose status is exactly 'Paid'. */
  function TotalPaid(history: seq<Payment>): real
  {
    SumBy(Filter(history, IsPaid), Amount)
  }

  /** `totalDue` */
  function TotalDue(history: seq<Payment>): real
  {
    TotalAmount(history) - TotalPaid(history)
  }

  /**
   * What is due is what the rows not marked 'Paid' add up to; it is never
   * negative when no amount is, and an empty history has every total 0.
   */
  lemma TotalDueSpec(history: seq<Payment>)
    ensures TotalDue(history) == SumBy(Filter(history, NotPaid), Amount)
    ensures (forall i :: 0 <= i < |history| ==> history[i].amount >= 0.0) ==> TotalDue(history) >= 0.0
    ensures history == [] ==> TotalAmount(history) == 0.0 && TotalPaid(history) == 0.0 && TotalDue(history) == 0.0
  {
    SumByPartition(history, Amount, IsPaid, NotPaid);
    if forall i :: 0 <= i < |history| ==> history[i].amount >= 0.0 {
      var rest := Filter(history, NotPaid);
      forall i | 0 <= i < |rest| ensures Amount(rest[i]) >= 0.0 {
        FilterMembership(history, NotPaid);
        assert rest[i] in history;
      }
      SumByNonNegative(rest, Amount);
    }
  }

  /** The payment form is shown when something is due. */
  predicate ShowPaymentForm(history: seq<Payment>)
  {
    TotalDue(history) > 0.0
  }

  /** A history whose rows are all 'Paid' never shows the form. */
  lemma AllPaidHidesForm(history: seq<Payment>)
    requires forall i :: 0 <= i < |history| ==> IsPaid(history[i])
    ensures !ShowPaymentForm(history)
  {
    FilterKeepsAll(history, IsPaid);
  }

  // ---------------------------------------------------------------------------
  // Receipt numbers
  // ---------------------------------------------------------------------------

  /** `'R-' + id.toString().padStart(4, '0')` */
  function ReceiptNumber(id: nat): (r: string)
    ensures |r| >= 6 && r[..2] == "R-"
    ensures AllDigits(r[2..])
    ensures id >= 1000 ==> r == "R-" + DecimalString(id)
    ensures id < 1000 ==> |r| == 6
  {
    DecimalLengthAtLeast4(id);
    var r := "R-" + PadStart(DecimalString(id), 4, '0');
    assert r[2..] == PadStart(DecimalString(id), 4, '0');
    r
  }

  lemma {:induction false} ZerosValue(n: nat)
    ensures DigitsValue(Repeat('0', n)) == 0
  {
    if n > 0 {
      assert Repeat('0', n)[..n - 1] == Repeat('0', n - 1);
      ZerosValue(n - 1);
    }
  }

  /** Leading zeros do not change a numeral's value. */
  lemma {:induction false} LeadingZerosValue(n: nat, s: string)
    requires AllDigits(s)
    ensures AllDigits(Repeat('0', n) + s)
    ensures DigitsValue(Repeat('0', n) + s) == DigitsValue(s)
    decreases |s|
  {
    var z := Repeat('0', n);
    assert forall i :: 0 <= i < |z + s| ==> (z + s)[i] == if i < n then '0' else s[i - n];
    if s == [] {
      assert z + s == z;
      ZerosValue(n);
    } else {
      var init := s[..|s| - 1];
      assert (z + s)[..|z + s| - 1] == z + init;
      LeadingZerosValue(n, init);
    }
  }

  /** The id a receipt number was made from: the value of the digits after 'R-'. */
  function ReceiptId(receipt: string): nat
    requires |receipt| >= 2 && AllDigits(receipt[2..])
  {
    DigitsValue(receipt[2..])
  }

  /** Reading the digits back gives the id, so different payments get different receipt numbers. */
  lemma ReceiptNumberRoundTrip(id: nat)
    ensures ReceiptId(ReceiptNumber(id)) == id
  {
    var d := DecimalString(id);
    DigitsValueOfDecimal(id);
    var r := ReceiptNumber(id);
    assert r[2..] == PadStart(d, 4, '0');
    if |d| < 4 {
      LeadingZerosValue(4 - |d|, d);
    }
  }

  lemma ReceiptNumberInjective(a: nat, b: nat)
    requires ReceiptNumber(a) == ReceiptNumber(b)
    ensures a == b
  {
    ReceiptNumberRoundTrip(a);
    ReceiptNumberRoundTrip(b);
  }
}
