/**
 * The rows the screens read from the `students` table, as one record.
 *
 * Missing values: a missing id is 0 (the screens only test it for
 * truthiness), a missing text is "", a missing list is [] (every handler
 * treats a missing list as an empty one), and a missing amount or count is
 * `None`.
 */
module Records {

  import opened Wrappers

  datatype Student = Student(
    id: nat,
    name: string,
    email: string,
    phone: string,
    category: string,
    course: string,
    year: nat,
    semester: Option<int>,
    enrollmentDate: string,
    createdAt: string,
    feeStatus: string,
    totalFee: Option<real>,
    paidFee: Option<real>,
    dueAmount: Option<real>,
    lastPayment: string,
    birthday: string,
    installments: Option<int>,
    installmentAmt: seq<real>,
    installmentDates: seq<string>,
    dueDates: seq<string>,
    subjects: seq<string>,
    enrollmentYear: seq<YearInput>
  )

  /** The enrollment-year inputs: left blank, or the number typed (`None` for NaN). */
  datatype YearInput = Blank | Typed(value: Option<nat>)

  /** `(total_fee || 0) - (paid_fee || 0)`: what a student still owes. */
  function Remaining(s: Student): (r: real)
    ensures s.totalFee.None? && s.paidFee.None? ==> r == 0.0
    ensures r + OrZero(s.paidFee) == OrZero(s.totalFee)
  {
    OrZero(s.totalFee) - OrZero(s.paidFee)
  }
}
