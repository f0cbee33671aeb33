/**
 * The attendance tab of a student's profile
 * (components/students/StudentAttendance.tsx): the subject and month filter,
 * the overall counts and percentage, the per-subject breakdown and the
 * subject picker.
 */
module StudentAttendance {

  import opened Seqs
  import opened SubjectTally

  /** The filter test: each of subject and month equals the selection or the selection is 'All'. */
  function KeepsRow(subject: string, month: string): AttendanceRow -> bool
  {
    (r: AttendanceRow) => (subject == "All" || r.subject == subject) && (month == "All" || r.month == month)
  }

  /** `filteredAttendance` */
  function FilterAttendance(rows: seq<AttendanceRow>, subject: string, month: string): seq<AttendanceRow>
  {
    Filter(rows, KeepsRow(subject, month))
  }

  /** A record is shown exactly when both selections admit it; the order is kept. */
  lemma FilterAttendanceSpec(rows: seq<AttendanceRow>, subject: string, month: string)
    ensures forall r :: r in FilterAttendance(rows, subject, month) <==>
              r in rows && (subject == "All" || r.subject == subject) && (month == "All" || r.month == month)
    ensures IsSubsequence(FilterAttendance(rows, subject, month), rows)
    ensures subject == "All" && month == "All" ==> FilterAttendance(rows, subject, month) == rows
  {
    FilterMembership(rows, KeepsRow(subject, month));
    FilterIsSubsequence(rows, KeepsRow(subject, month));
    if subject == "All" && month == "All" {
      FilterKeepsAll(rows, KeepsRow(subject, month));
    }
  }

  lemma {:induction false} CountAtMostLength<T>(s: seq<T>, p: T -> bool)
    ensures Count(s, p) <= |s|
  {
    if s != [] {
      CountAtMostLength(s[1..], p);
    }
  }

  /** `totalClasses`, `presentClasses`, `absentClasses` and `attendancePercentage`. */
  datatype Stats = Stats(total: nat, present: nat, absent: int, percentage: real)

  function StatsOf(filtered: seq<AttendanceRow>): (r: Stats)
    ensures r.total == |filtered|
    ensures r.present == Count(filtered, IsPresent) <= r.total
    ensures r.absent == r.total - r.present >= 0
    ensures r.total == 0 ==> r.percentage == 0.0
    ensures r.total > 0 ==> r.percentage * r.total as real == 100.0 * r.present as real
    ensures 0.0 <= r.percentage <= 100.0
  {
    CountAtMostLength(filtered, IsPresent);
    var present := Count(filtered, IsPresent);
    Stats(|filtered|, present, |filtered| - present, Percentage(present, |filtered|))
  }

  /** One row of `subjectWiseAttendance`. */
  datatype SubjectAttendance = SubjectAttendance(subject: string, present: nat, total: nat, percentage: real)

  function WithPercentage(c: Counts): SubjectAttendance
  {
    SubjectAttendance(c.subject, c.present, c.total, Percentage(c.present, c.total))
  }

  /** Every row of the breakdown describes one subject's own records. */
  predicate DescribesSubject(row: SubjectAttendance, filtered: seq<AttendanceRow>)
  {
    row.total == Count(filtered, HasKey(row.subject)) &&
    row.present == Count(filtered, PresentWithKey(row.subject)) &&
    1 <= row.total && row.present <= row.total &&
    row.percentage * row.total as real == 100.0 * row.present as real &&
    0.0 <= row.percentage <= 100.0
  }

  /**
   * One row per distinct subject, in first-seen order, each counting exactly
   * that subject's records; the rows add up to the overall counts.
   */
  lemma BreakdownSpec(filtered: seq<AttendanceRow>)
    ensures Subjects(TallyOf(filtered)) == Distinct(Map(filtered, SubjectKey))
    ensures forall i :: 0 <= i < |TallyOf(filtered)| ==> DescribesSubject(WithPercentage(TallyOf(filtered)[i]), filtered)
    ensures TotalOf(TallyOf(filtered)) == StatsOf(filtered).total
    ensures PresentOf(TallyOf(filtered)) == StatsOf(filtered).present
  {
    var ts := TallyOf(filtered);
    TallySubjects(filtered);
    TallyCounts(filtered);
    TallyBounds(filtered);
    TallyTotals(filtered);
    forall i | 0 <= i < |ts| ensures DescribesSubject(WithPercentage(ts[i]), filtered) {
      EntryDescribes(ts[i], filtered);
    }
  }

  lemma EntryDescribes(c: Counts, filtered: seq<AttendanceRow>)
    requires c.total == Count(filtered, HasKey(c.subject))
    requires c.present == Count(filtered, PresentWithKey(c.subject))
    requires 1 <= c.total && c.present <= c.total
    ensures DescribesSubject(WithPercentage(c), filtered)
  {
  }

  /**
   * The `forEach` that fills `subjectMap`, then the loop over its entries that
   * pushes one row per subject.
   */
  method SubjectBreakdown(filtered: seq<AttendanceRow>) returns (out: seq<SubjectAttendance>)
    ensures out == Map(TallyOf(filtered), WithPercentage)
    ensures |out| == |Distinct(Map(filtered, SubjectKey))|
    ensures forall i :: 0 <= i < |out| ==> out[i].subject == Distinct(Map(filtered, SubjectKey))[i]
    ensures forall i :: 0 <= i < |out| ==> DescribesSubject(out[i], filtered)
  {
    var tally := Tally(filtered);
    out := [];
    var i := 0;
    while i < |tally|
      invariant 0 <= i <= |tally|
      invariant out == Map(tally[..i], WithPercentage)
    {
      out := out + [WithPercentage(tally[i])];
      i := i + 1;
    }
    assert tally[..|tally|] == tally;
    BreakdownSpec(filtered);
  }

  /** The subject of every record, in record order. */
  function RowSubjects(rows: seq<AttendanceRow>): (r: seq<string>)
    ensures |r| == |rows| && forall i :: 0 <= i < |rows| ==> r[i] == rows[i].subject
  {
    Map(rows, (row: AttendanceRow) => row.subject)
  }

  /**
   * `['All', ...new Set(attendance.map(item => item.subject))]`, over all
   * records, not the filtered ones: a `Set` keeps its first-insertion order.
   */
  function SubjectPicker(rows: seq<AttendanceRow>): (r: seq<string>)
    ensures |r| >= 1 && r[0] == "All"
    ensures NoDuplicates(r[1..])
    ensures forall x :: x in r[1..] <==> exists i :: 0 <= i < |rows| && rows[i].subject == x
    ensures forall i :: 1 <= i < |r| ==> r[i] in RowSubjects(rows)
    ensures forall i, j :: 1 <= i < j < |r| ==> FirstIndex(RowSubjects(rows), r[i]) < FirstIndex(RowSubjects(rows), r[j])
  {
    var subjects := RowSubjects(rows);
    var d := Distinct(subjects);
    DistinctFirstSeenOrder(subjects);
    var r := ["All"] + d;
    assert forall i :: 1 <= i < |r| ==> r[i] == d[i - 1];
    r
  }
}
