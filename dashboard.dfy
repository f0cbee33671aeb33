/**
 * The dashboard's two figures (app/Dashboard.tsx): the number of students and
 * the fee figure, which adds up the total fees.
 */
module Dashboard {

  import opened Wrappers
  import opened Seqs
  import opened Records

  /** The store's reply to the students query. */
  datatype Reply = Failed(message: string) | NoData | Rows(rows: seq<Student>)

  /** The figures shown; both start unset. */
  datatype Figures = Figures(totalStudents: Option<nat>, feeCollection: Option<real>, error: Option<string>)

  function TotalFee(s: Student): real { OrZero(s.totalFee) }

  function PaidFee(s: Student): real { OrZero(s.paidFee) }

  /** `studentsData.reduce((sum, s) => sum + (s.total_fee || 0), 0)` */
  function FeeCollection(rows: seq<Student>): real
  {
    SumBy(rows, TotalFee)
  }

  /** `fetchDashboardData`, from the unset figures. */
  function AfterFetch(reply: Reply): (f: Figures)
    ensures reply.Failed? ==> f == Figures(None, None, Some(reply.message))
    ensures reply.NoData? ==> f == Figures(Some(0), Some(0.0), None)
    ensures reply.Rows? ==> f.totalStudents == Some(|reply.rows|) && f.error.None?
    ensures reply.Rows? ==> f.feeCollection == Some(FeeCollection(reply.rows))
  {
    match reply
    case Failed(message) => Figures(None, None, Some(message))
    case NoData => Figures(Some(0), Some(0.0), None)
    case Rows(rows) => Figures(Some(|rows|), Some(FeeCollection(rows)), None)
  }

  /**
   * The "Fee Collection" figure is the fees charged, not the fees paid: it is
   * what was paid plus what is still owed, and a payment does not change it.
   */
  lemma FeeCollectionIsCharged(rows: seq<Student>)
    ensures FeeCollection(rows) == SumBy(rows, PaidFee) + SumBy(rows, Remaining)
  {
    SumByDifference(rows, Remaining, TotalFee, PaidFee);
  }

  lemma {:induction false} FeeCollectionIgnoresPaid(rows: seq<Student>, paid: seq<Option<real>>)
    requires |paid| == |rows|
    ensures FeeCollection(seq(|rows|, i requires 0 <= i < |rows| => rows[i].(paidFee := paid[i]))) == FeeCollection(rows)
  {
    if rows != [] {
      var updated := seq(|rows|, i requires 0 <= i < |rows| => rows[i].(paidFee := paid[i]));
      FeeCollectionIgnoresPaid(rows[1..], paid[1..]);
      assert updated[1..] == seq(|rows[1..]|, i requires 0 <= i < |rows[1..]| => rows[1..][i].(paidFee := paid[1..][i]));
    }
  }

  /** With no rows both figures are 0. */
  lemma EmptyRowsAreZero()
    ensures AfterFetch(Rows([])) == AfterFetch(NoData)
  {
  }
}
