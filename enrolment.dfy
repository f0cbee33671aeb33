/**
 * The web student page (pages/temp.tsx): the new-student form's installment
 * plan, adding a student, the fee update, and the installment editor's Add
 * and Save buttons. Its roster filter is `Roster.FilterRosterAsTyped` and its
 * grouped table is `Grouping.GroupStudents`.
 */
module Enrolment {

  import opened Wrappers
  import opened Seqs
  import opened Records
  import opened Slots
  import Fees

  // ---------------------------------------------------------------------------
  // The installment plan
  // ---------------------------------------------------------------------------

  /** The installment count the form accepts, from 1 to 24. */
  function Clamp(n: int): (r: nat)
    ensures 1 <= r <= 24
    ensures n < 1 ==> r == 1
    ensures n > 24 ==> r == 24
    ensures 1 <= n <= 24 ==> r == n
  {
    if n < 1 then 1 else if n > 24 then 24 else n
  }

  lemma ClampIdempotent(n: int)
    ensures Clamp(Clamp(n)) == Clamp(n)
  {
  }

  /** `Array(n).fill(total / n)` */
  function EqualSplit(total: real, n: nat): (r: seq<real>)
    requires n >= 1
    ensures |r| == n
    ensures forall i :: 0 <= i < n ==> r[i] == total / n as real
  {
    seq(n, _ => total / n as real)
  }

  /** The equal shares add up to the total again. */
  lemma EqualSplitSum(total: real, n: nat)
    requires n >= 1
    ensures Sum(EqualSplit(total, n)) == total
  {
    SumConstant(EqualSplit(total, n), total / n as real);
  }

  /**
   * The date list resized to `count`: truncated, or padded with '' by the
   * `while` loop. The handler computes it and never stores it.
   */
  method ResizeDates(dates: seq<string>, count: nat) returns (r: seq<string>)
    ensures |r| == count
    ensures forall i :: 0 <= i < count && i < |dates| ==> r[i] == dates[i]
    ensures forall i :: |dates| <= i < count ==> r[i] == ""
  {
    r := dates;
    if |r| > count {
      r := r[..count];
    } else {
      while |r| < count
        invariant |dates| <= |r| <= count
        invariant r[..|dates|] == dates
        invariant forall i :: |dates| <= i < |r| ==> r[i] == ""
        decreases count - |r|
      {
        r := r + [""];
      }
    }
  }

  // ---------------------------------------------------------------------------
  // The form
  // ---------------------------------------------------------------------------

  /** `newStudent`, the record the add and installment forms edit. */
  class EnrolmentForm {
    var student: Student

    constructor(s: Student)
      ensures student == s
    {
      student := s;
    }

    /**
     * The total-fee input: the count (1 if unset) is clamped and the amounts
     * become equal shares of the new total; the count itself is not stored.
     */
    method ChangeTotalFee(total: real)
      modifies this
      ensures student == old(student).(totalFee := Some(total),
                                       installmentAmt := EqualSplit(total, Clamp(OrElse(old(student).installments, 1))))
    {
      var n := Clamp(OrElse(student.installments, 1));
      student := student.(totalFee := Some(total), installmentAmt := EqualSplit(total, n));
    }

    /**
     * The installment-count input: the clamped count is stored and the amounts
     * are rebuilt from the total (0 if unset). The resized date list is
     * discarded, so the dates stay as they were.
     */
    method ChangeInstallments(count: int)
      modifies this
      ensures student == old(student).(installments := Some(Clamp(count)),
                                       installmentAmt := EqualSplit(OrZero(old(student).totalFee), Clamp(count)))
      ensures student.installmentDates == old(student).installmentDates
    {
      var n := Clamp(count);
      var resized := ResizeDates(student.installmentDates, n);
      student := student.(installments := Some(n), installmentAmt := EqualSplit(OrZero(student.totalFee), n));
    }

    /** Add Installment: a 0 amount and a '' date are pushed, and the count goes up by one, with no upper bound. */
    method AddInstallment()
      modifies this
      ensures student == old(student).(installmentAmt := old(student).installmentAmt + [0.0],
                                       installmentDates := old(student).installmentDates + [""],
                                       installments := Some(OrElse(old(student).installments, 0) + 1))
    {
      student := student.(installmentAmt := student.installmentAmt + [0.0],
                          installmentDates := student.installmentDates + [""],
                          installments := Some(OrElse(student.installments, 0) + 1));
    }

    /** The amount input of one installment. */
    method SetAmount(index: nat, value: real)
      modifies this
      ensures student == old(student).(installmentAmt := WithSlot(old(student).installmentAmt, index, value, 0.0))
    {
      var amounts := SetSlot(student.installmentAmt, index, value, 0.0);
      student := student.(installmentAmt := amounts);
    }

    /** The date input of one installment. */
    method SetDate(index: nat, value: string)
      modifies this
      ensures student == old(student).(installmentDates := WithSlot(old(student).installmentDates, index, value, ""))
    {
      var dates := SetSlot(student.installmentDates, index, value, "");
      student := student.(installmentDates := dates);
    }

    /** Save Installment Payment: a missing paid fee is first set to 0 in place, then the update is computed. */
    method SaveInstallment() returns (u: PlanUpdate)
      modifies this
      ensures student == old(student).(paidFee := Some(OrZero(old(student).paidFee)))
      ensures u == SaveUpdate(old(student))
    {
      if student.paidFee.None? || student.paidFee.value == 0.0 {
        student := student.(paidFee := Some(0.0));
      }
      var totalPaid := student.paidFee.value + Sum(student.installmentAmt);
      var total := OrZero(student.totalFee);
      u := PlanUpdate(FeeUpdate(totalPaid, if totalPaid >= total then "Paid" else "Partial", total - totalPaid),
                      student.installments, student.installmentAmt, student.installmentDates);
    }
  }

  // ---------------------------------------------------------------------------
  // Fee updates
  // ---------------------------------------------------------------------------

  /** The fields a fee update writes. */
  datatype FeeUpdate = FeeUpdate(paidFee: real, feeStatus: string, dueAmount: real)

  /** The status rule of this page: Paid once the total is reached, else Partial. */
  function PaidOrPartial(paid: real, total: real): (r: string)
    ensures r == "Paid" <==> paid >= total
    ensures r in {"Paid", "Partial"}
  {
    if paid >= total then "Paid" else "Partial"
  }

  /** The update Save Installment writes: the fee fields, and the plan as it stands. */
  datatype PlanUpdate = PlanUpdate(fee: FeeUpdate, installments: Option<int>, installmentAmt: seq<real>, installmentDates: seq<string>)

  /**
   * The update Save Installment writes: the installment amounts are added to
   * what was paid, and the count, amounts and dates are written back unchanged.
   */
  function SaveUpdate(s: Student): (u: PlanUpdate)
    ensures u.fee.paidFee == OrZero(s.paidFee) + Sum(s.installmentAmt)
    ensures u.fee.dueAmount + u.fee.paidFee == OrZero(s.totalFee)
    ensures u.fee.feeStatus == "Paid" <==> u.fee.paidFee >= OrZero(s.totalFee)
    ensures u.fee.feeStatus != "Unpaid"
    ensures u.installments == s.installments && u.installmentAmt == s.installmentAmt && u.installmentDates == s.installmentDates
  {
    var totalPaid := OrZero(s.paidFee) + Sum(s.installmentAmt);
    PlanUpdate(FeeUpdate(totalPaid, PaidOrPartial(totalPaid, OrZero(s.totalFee)), OrZero(s.totalFee) - totalPaid),
               s.installments, s.installmentAmt, s.installmentDates)
  }

  /**
   * Save Installment counts the planned amounts as paid: right after the plan
   * is rebuilt as equal shares of the total, saving marks the student Paid.
   */
  lemma SaveAfterEqualSplitIsPaid(s: Student, n: nat)
    requires n >= 1
    requires s.installmentAmt == EqualSplit(OrZero(s.totalFee), n)
    requires OrZero(s.paidFee) >= 0.0
    ensures SaveUpdate(s).fee.feeStatus == "Paid"
    ensures SaveUpdate(s).fee.dueAmount == -OrZero(s.paidFee)
  {
    EqualSplitSum(OrZero(s.totalFee), n);
  }

  /** `handleFeeUpdate`: a missing, zero or negative amount is refused. */
  function FeeUpdateOf(s: Student, amount: Option<real>): (r: Result<FeeUpdate>)
    ensures r.Failure? <==> amount.None? || amount.value <= 0.0
    ensures r.Failure? ==> r.error == "Please enter a positive amount."
    ensures r.Success? ==> r.value.paidFee == OrZero(s.paidFee) + amount.value
    ensures r.Success? ==> r.value.dueAmount + r.value.paidFee == OrZero(s.totalFee)
    ensures r.Success? ==> (r.value.feeStatus == "Paid" <==> r.value.paidFee >= OrZero(s.totalFee))
    ensures r.Success? ==> r.value.feeStatus != "Unpaid"
  {
    if amount.None? || amount.value <= 0.0 then Failure("Please enter a positive amount.")
    else
      var paid := OrZero(s.paidFee) + amount.value;
      Success(FeeUpdate(paid, PaidOrPartial(paid, OrZero(s.totalFee)), OrZero(s.totalFee) - paid))
  }

  /**
   * The two pages disagree on an overpayment: this page marks it Paid, while
   * the fee screen's summary of the same amounts shows Unpaid.
   */
  lemma LedgersDisagreeOnOverpayment(s: Student, amount: real)
    requires amount > 0.0
    requires OrZero(s.paidFee) + amount > OrZero(s.totalFee)
    ensures FeeUpdateOf(s, Some(amount)).Success?
    ensures FeeUpdateOf(s, Some(amount)).value.feeStatus == "Paid"
    ensures Fees.ClassifyStatus(OrZero(s.totalFee), FeeUpdateOf(s, Some(amount)).value.paidFee) == Fees.Unpaid
  {
  }

  // ---------------------------------------------------------------------------
  // Adding a student
  // ---------------------------------------------------------------------------

  /**
   * `handleAddStudentSubmit`: refused when name, category or course is empty;
   * otherwise the row inserted, with the count clamped (0 when unset, so 1),
   * the amounts rebuilt as equal shares and the due amount recomputed.
   */
  function PrepareInsert(s: Student, yearStart: YearInput, yearEnd: YearInput): (r: Result<Student>)
    ensures r.Failure? <==> s.name == "" || s.category == "" || s.course == ""
    ensures r.Failure? ==> r.error == "Please fill in all required fields."
    ensures r.Success? ==> r.value.installments.Some? && 1 <= r.value.installments.value <= 24
    ensures r.Success? ==> r.value.installments.value == Clamp(OrElse(s.installments, 0))
    ensures r.Success? ==> |r.value.installmentAmt| == r.value.installments.value
    ensures r.Success? ==> forall i :: 0 <= i < |r.value.installmentAmt| ==>
              r.value.installmentAmt[i] == OrZero(s.totalFee) / r.value.installments.value as real
    ensures r.Success? ==> Sum(r.value.installmentAmt) == OrZero(s.totalFee)
    ensures r.Success? ==> r.value.dueAmount == Some(OrZero(s.totalFee) - OrZero(s.paidFee))
    ensures r.Success? ==> r.value.enrollmentYear == [yearStart, yearEnd]
    ensures r.Success? ==> r.value == s.(totalFee := Some(OrZero(s.totalFee)),
                                         installments := r.value.installments,
                                         installmentAmt := r.value.installmentAmt,
                                         dueAmount := r.value.dueAmount,
                                         enrollmentYear := [yearStart, yearEnd])
  {
    if s.name == "" || s.category == "" || s.course == "" then Failure("Please fill in all required fields.")
    else
      var total := OrZero(s.totalFee);
      var n := Clamp(OrElse(s.installments, 0));
      EqualSplitSum(total, n);
      Success(s.(totalFee := Some(total), installments := Some(n), installmentAmt := EqualSplit(total, n),
                 dueAmount := Some(total - OrZero(s.paidFee)), enrollmentYear := [yearStart, yearEnd]))
  }
}
