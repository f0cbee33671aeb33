/**
 * The fee screen (app/Fees.tsx): the per-student fee summary and its status,
 * the search and status filter, the list totals and the payment handler.
 */
module Fees {

  import opened Wrappers
  import opened Strings
  import opened Seqs
  import opened Records

  // ---------------------------------------------------------------------------
  // The summary
  // ---------------------------------------------------------------------------

  datatype FeeStatus = Paid | Partial | Unpaid

  function StatusName(st: FeeStatus): (r: string)
    ensures r in {"Paid", "Partial", "Unpaid"}
  {
    match st
    case Paid => "Paid"
    case Partial => "Partial"
    case Unpaid => "Unpaid"
  }

  /**
   * The status chain of `fetchData`: Unpaid while nothing is paid, Paid only
   * on an exact match, Partial strictly in between, and Unpaid for anything
   * else, an overpayment included.
   */
  function ClassifyStatus(total: real, paid: real): (r: FeeStatus)
    ensures paid == 0.0 ==> r == Unpaid
    ensures r == Paid <==> paid == total && paid != 0.0
    ensures r == Partial <==> 0.0 < total - paid < total
    ensures r == Unpaid <==> paid == 0.0 || (paid != total && !(0.0 < total - paid < total))
  {
    var due := total - paid;
    if due == total then Unpaid
    else if paid == total then Paid
    else if due > 0.0 && due < total then Partial
    else Unpaid
  }

  /** Paying more than the total leaves the student Unpaid. */
  lemma OverpaidIsUnpaid(total: real, paid: real)
    requires paid > total
    ensures ClassifyStatus(total, paid) == Unpaid
  {
  }

  /** A zero total is never Paid or Partial, whatever has been paid. */
  lemma ZeroTotalIsUnpaid(paid: real)
    ensures ClassifyStatus(0.0, paid) == Unpaid
  {
  }

  datatype FeeRow = FeeRow(
    id: nat,
    name: string,
    category: string,
    course: string,
    totalAmount: real,
    amountPaid: real,
    amountDue: real,
    status: FeeStatus
  )

  /** One summary entry; a missing total or paid fee counts as 0. */
  function SummaryRow(s: Student): (r: FeeRow)
    ensures r.id == s.id && r.name == s.name && r.category == s.category && r.course == s.course
    ensures r.totalAmount == OrZero(s.totalFee) && r.amountPaid == OrZero(s.paidFee)
    ensures r.amountDue == r.totalAmount - r.amountPaid
    ensures r.status == ClassifyStatus(r.totalAmount, r.amountPaid)
  {
    var total := OrZero(s.totalFee);
    var paid := OrZero(s.paidFee);
    FeeRow(s.id, s.name, s.category, s.course, total, paid, total - paid, ClassifyStatus(total, paid))
  }

  /** `feeSummary`: one entry per student, in the same order. */
  function FeeSummary(students: seq<Student>): (r: seq<FeeRow>)
    ensures |r| == |students|
    ensures forall i :: 0 <= i < |students| ==> r[i] == SummaryRow(students[i])
  {
    Map(students, SummaryRow)
  }

  // ---------------------------------------------------------------------------
  // The filter and the totals
  // ---------------------------------------------------------------------------

  /** Name or category contains the term ignoring case, or the id contains the term as typed. */
  predicate MatchesFeeSearch(r: FeeRow, term: string)
  {
    Includes(Lower(r.name), Lower(term)) || Includes(DecimalString(r.id), term) || Includes(Lower(r.category), Lower(term))
  }

  predicate MatchesFeeFilter(r: FeeRow, term: string, statusFilter: string)
  {
    MatchesFeeSearch(r, term) && (statusFilter == "All" || StatusName(r.status) == statusFilter)
  }

  /** `filteredFeeSummary` */
  function FilterFeeSummary(rows: seq<FeeRow>, term: string, statusFilter: string): seq<FeeRow>
  {
    Filter(rows, r => MatchesFeeFilter(r, term, statusFilter))
  }

  /**
   * The filtered summary is an order-preserving part of the summary; 'All'
   * keeps every search match, any other filter only the rows of that status.
   */
  lemma FilterFeeSummarySpec(rows: seq<FeeRow>, term: string, statusFilter: string)
    ensures IsSubsequence(FilterFeeSummary(rows, term, statusFilter), rows)
    ensures forall r :: r in FilterFeeSummary(rows, term, statusFilter) <==>
              r in rows && MatchesFeeSearch(r, term) && (statusFilter == "All" || StatusName(r.status) == statusFilter)
    ensures FilterFeeSummary(rows, term, "All") == Filter(rows, r => MatchesFeeSearch(r, term))
  {
    FilterIsSubsequence(rows, r => MatchesFeeFilter(r, term, statusFilter));
    FilterMembership(rows, r => MatchesFeeFilter(r, term, statusFilter));
    FilterSameTest(rows, r => MatchesFeeFilter(r, term, "All"), r => MatchesFeeSearch(r, term));
  }

  /** A status filter other than the three statuses and 'All' keeps nothing. */
  lemma UnknownStatusKeepsNothing(rows: seq<FeeRow>, term: string, statusFilter: string)
    requires statusFilter !in {"All", "Paid", "Partial", "Unpaid"}
    ensures FilterFeeSummary(rows, term, statusFilter) == []
  {
    var kept := FilterFeeSummary(rows, term, statusFilter);
    FilterAllSatisfy(rows, r => MatchesFeeFilter(r, term, statusFilter));
    assert |kept| == 0 || MatchesFeeFilter(kept[0], term, statusFilter);
  }

  function TotalFees(rows: seq<FeeRow>): real
  {
    SumBy(rows, (r: FeeRow) => r.totalAmount)
  }

  function TotalCollected(rows: seq<FeeRow>): real
  {
    SumBy(rows, (r: FeeRow) => r.amountPaid)
  }

  function TotalPending(rows: seq<FeeRow>): real
  {
    SumBy(rows, (r: FeeRow) => r.amountDue)
  }

  /** Over any filtered summary the pending total is the difference of the other two. */
  lemma TotalsBalance(students: seq<Student>, term: string, statusFilter: string)
    ensures var rows := FilterFeeSummary(FeeSummary(students), term, statusFilter);
            TotalPending(rows) == TotalFees(rows) - TotalCollected(rows)
  {
    var all := FeeSummary(students);
    var rows := FilterFeeSummary(all, term, statusFilter);
    FilterMembership(all, r => MatchesFeeFilter(r, term, statusFilter));
    forall i | 0 <= i < |rows| ensures rows[i].amountDue == rows[i].totalAmount - rows[i].amountPaid {
      assert rows[i] in all;
    }
    SumByDifference(rows, (r: FeeRow) => r.amountDue, (r: FeeRow) => r.totalAmount, (r: FeeRow) => r.amountPaid);
  }

  // ---------------------------------------------------------------------------
  // Recording a payment
  // ---------------------------------------------------------------------------

  /**
   * The checks before any store call. `amount` is what `parseFloat` gives
   * for the typed text, `None` for NaN; a selected id of 0 is no selection.
   */
  function ValidatePayment(selectedId: nat, amount: Option<real>): (r: Result<real>)
    ensures r.Success? <==> selectedId != 0 && amount.Some? && amount.value > 0.0
    ensures r.Success? ==> r.value == amount.value
    ensures selectedId == 0 ==> r == Failure("Please select a student.")
    ensures selectedId != 0 && !(amount.Some? && amount.value > 0.0) ==> r == Failure("Please enter a valid payment amount.")
  {
    if selectedId == 0 then Failure("Please select a student.")
    else if amount.None? || amount.value <= 0.0 then Failure("Please enter a valid payment amount.")
    else Success(amount.value)
  }

  datatype PaymentRow = PaymentRow(
    studentId: nat,
    studentName: string,
    amount: real,
    paymentDate: string,
    paymentMethod: string,
    description: string,
    status: string
  )

  /** The payment modal's fields. */
  datatype PaymentForm = PaymentForm(selectedId: nat, amount: Option<real>, date: string, payMethod: string, details: string)

  /** Which store call failed. */
  datatype Stage = ReadFailed | UpdateFailed | InsertFailed

  datatype SubmitOutcome = Rejected(message: string) | StoreFailed(stage: Stage) | Recorded

  /** The row after a payment: paid fee raised by the amount, last payment set to its date. */
  function WithPayment(s: Student, amount: real, date: string): (r: Student)
    ensures OrZero(r.paidFee) == OrZero(s.paidFee) + amount
    ensures r.lastPayment == date
    ensures r == s.(paidFee := r.paidFee, lastPayment := date)
  {
    s.(paidFee := Some(OrZero(s.paidFee) + amount), lastPayment := date)
  }

  /** After a payment the recomputed summary shows the amount as paid and no longer due. */
  lemma PaymentMovesAmountToPaid(s: Student, amount: real, date: string)
    ensures SummaryRow(WithPayment(s, amount, date)).amountPaid == SummaryRow(s).amountPaid + amount
    ensures SummaryRow(WithPayment(s, amount, date)).amountDue == SummaryRow(s).amountDue - amount
    ensures SummaryRow(WithPayment(s, amount, date)).totalAmount == SummaryRow(s).totalAmount
  {
  }

  /** The two tables the payment handler touches. */
  class FeeStore {
    var students: map<nat, Student>
    var payments: seq<PaymentRow>

    constructor(rows: map<nat, Student>, history: seq<PaymentRow>)
      ensures students == rows && payments == history
    {
      students := rows;
      payments := history;
    }

    /**
     * `handlePaymentSubmit`. The store's read, update and insert replies are
     * the parameters `readFails`, `updateFails` and `insertFails`; reading a
     * row that does not exist fails too. A failed insert leaves the paid fee
     * already written.
     */
    method SubmitPayment(form: PaymentForm, readFails: bool, updateFails: bool, insertFails: bool) returns (outcome: SubmitOutcome)
      modifies this
      ensures ValidatePayment(form.selectedId, form.amount).Failure? ==>
                outcome == Rejected(ValidatePayment(form.selectedId, form.amount).error) &&
                students == old(students) && payments == old(payments)
      ensures ValidatePayment(form.selectedId, form.amount).Success? && (readFails || form.selectedId !in old(students)) ==>
                outcome == StoreFailed(ReadFailed) && students == old(students) && payments == old(payments)
      ensures ValidatePayment(form.selectedId, form.amount).Success? && !readFails && form.selectedId in old(students) && updateFails ==>
                outcome == StoreFailed(UpdateFailed) && students == old(students) && payments == old(payments)
      ensures ValidatePayment(form.selectedId, form.amount).Success? && !readFails && form.selectedId in old(students) && !updateFails ==>
                students == old(students)[form.selectedId := WithPayment(old(students)[form.selectedId], form.amount.value, form.date)]
      ensures ValidatePayment(form.selectedId, form.amount).Success? && !readFails && form.selectedId in old(students) && !updateFails && insertFails ==>
                outcome == StoreFailed(InsertFailed) && payments == old(payments)
      ensures ValidatePayment(form.selectedId, form.amount).Success? && !readFails && form.selectedId in old(students) && !updateFails && !insertFails ==>
                outcome == Recorded &&
                payments == old(payments) + [PaymentRow(form.selectedId, old(students)[form.selectedId].name, form.amount.value,
                                                        form.date, form.payMethod, form.details, "Paid")]
    {
      var checked := ValidatePayment(form.selectedId, form.amount);
      if checked.Failure? {
        return Rejected(checked.error);
      }
      var amount := checked.value;
      if readFails || form.selectedId !in students {
        return StoreFailed(ReadFailed);
      }
      var row := students[form.selectedId];
      if updateFails {
        return StoreFailed(UpdateFailed);
      }
      students := students[form.selectedId := WithPayment(row, amount, form.date)];
      if insertFails {
        return StoreFailed(InsertFailed);
      }
      payments := payments + [PaymentRow(form.selectedId, row.name, amount, form.date, form.payMethod, form.details, "Paid")];
      outcome := Recorded;
    }
  }
}
