/**
 * The dashboard's attendance chart (components/dashboard/AttendanceChart.tsx):
 * one bar per subject with the rounded percentage of 'present' records.
 */
module AttendanceChart {

  import opened Seqs
  import opened SubjectTally

  /** `{ name, value }` */
  datatype ChartItem = ChartItem(name: string, value: nat)

  function ToItem(c: Counts): ChartItem
  {
    ChartItem(c.subject, RoundedPercentage(c.present, c.total))
  }

  /** The `forEach` that fills `attendanceMap`, then the `map` over its entries. */
  method ChartData(records: seq<AttendanceRow>) returns (items: seq<ChartItem>)
    ensures items == Map(TallyOf(records), ToItem)
    ensures |items| == |Distinct(Map(records, SubjectKey))|
    ensures forall i :: 0 <= i < |items| ==>
              items[i].name == Distinct(Map(records, SubjectKey))[i] &&
              items[i].value == RoundedPercentage(Count(records, PresentWithKey(items[i].name)), Count(records, HasKey(items[i].name))) &&
              items[i].value <= 100
  {
    var tally := Tally(records);
    items := Map(tally, ToItem);
    TallySubjects(records);
    TallyCounts(records);
    TallyBounds(records);
  }
}
