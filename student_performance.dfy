/**
 * The performance tab of a student's profile
 * (components/students/StudentPerformance.tsx): the exam-type filter, the
 * rounded average, the highest and lowest scores, the date-ordered trend and
 * the colour and text bands.
 */
module StudentPerformance {

  import opened Strings
  import opened Seqs
  import opened Sorting

  /** A result row; `time` is the instant of its date, which the caller computes. */
  datatype ExamResult = ExamResult(examName: string, time: int, percentage: real)

  /** The filter test: 'All', or the exam name contains the chosen type. */
  function OfExamType(examType: string): ExamResult -> bool
  {
    (r: ExamResult) => examType == "All" || Includes(r.examName, examType)
  }

  /** `filteredPerformance` */
  function FilterPerformance(results: seq<ExamResult>, examType: string): seq<ExamResult>
  {
    Filter(results, OfExamType(examType))
  }

  lemma FilterPerformanceSpec(results: seq<ExamResult>, examType: string)
    ensures forall r :: r in FilterPerformance(results, examType) <==>
              r in results && (examType == "All" || Includes(r.examName, examType))
    ensures IsSubsequence(FilterPerformance(results, examType), results)
    ensures examType == "All" ==> FilterPerformance(results, examType) == results
  {
    FilterMembership(results, OfExamType(examType));
    FilterIsSubsequence(results, OfExamType(examType));
    if examType == "All" {
      FilterKeepsAll(results, OfExamType(examType));
    }
  }

  function Score(r: ExamResult): real { r.percentage }

  // ---------------------------------------------------------------------------
  // Average, highest, lowest
  // ---------------------------------------------------------------------------

  /** `Math.round(x)`: the nearest integer, halves rounded up. */
  function Round(x: real): (r: int)
    ensures r as real <= x + 0.5 < r as real + 1.0
  {
    (x + 0.5).Floor
  }

  lemma RoundMonotone(x: real, y: real)
    requires x <= y
    ensures Round(x) <= Round(y)
  {
  }

  /** `Math.max(...xs)` */
  function Max(xs: seq<real>): (m: real)
    requires |xs| >= 1
    ensures m in xs
    ensures forall i :: 0 <= i < |xs| ==> xs[i] <= m
  {
    if |xs| == 1 then xs[0]
    else var t := Max(xs[1..]); if xs[0] >= t then xs[0] else t
  }

  /** `Math.min(...xs)` */
  function Min(xs: seq<real>): (m: real)
    requires |xs| >= 1
    ensures m in xs
    ensures forall i :: 0 <= i < |xs| ==> m <= xs[i]
  {
    if |xs| == 1 then xs[0]
    else var t := Min(xs[1..]); if xs[0] <= t then xs[0] else t
  }

  /** `highestPerformance`: 0 for no results. */
  function Highest(results: seq<ExamResult>): (r: real)
    ensures results == [] ==> r == 0.0
    ensures results != [] ==> (exists i :: 0 <= i < |results| && results[i].percentage == r) &&
                              forall i :: 0 <= i < |results| ==> results[i].percentage <= r
  {
    if results == [] then 0.0
    else
      var scores := Map(results, Score);
      assert forall i :: 0 <= i < |results| ==> scores[i] == results[i].percentage;
      Max(scores)
  }

  /** `lowestPerformance`: 0 for no results. */
  function Lowest(results: seq<ExamResult>): (r: real)
    ensures results == [] ==> r == 0.0
    ensures results != [] ==> (exists i :: 0 <= i < |results| && results[i].percentage == r) &&
                              forall i :: 0 <= i < |results| ==> r <= results[i].percentage
  {
    if results == [] then 0.0
    else
      var scores := Map(results, Score);
      assert forall i :: 0 <= i < |results| ==> scores[i] == results[i].percentage;
      Min(scores)
  }

  /** `avgPerformance`: the rounded mean, or 0 for no results. */
  function Average(results: seq<ExamResult>): int
  {
    if results == [] then 0 else Round(SumBy(results, Score) / |results| as real)
  }

  lemma {:induction false} SumBetween(results: seq<ExamResult>, lo: real, hi: real)
    requires forall i :: 0 <= i < |results| ==> lo <= results[i].percentage <= hi
    ensures |results| as real * lo <= SumBy(results, Score) <= |results| as real * hi
  {
    if results != [] {
      SumBetween(results[1..], lo, hi);
    }
  }

  /**
   * The average of a non-empty list lies between the rounded lowest and the
   * rounded highest score; the lowest never exceeds the highest.
   */
  lemma MeanBetween(sum: real, n: real, lo: real, hi: real)
    requires n > 0.0 && n * lo <= sum <= n * hi
    ensures lo <= sum / n <= hi
  {
    var m := sum / n;
    assert sum == n * m;
  }

  lemma MeanOfBounded(results: seq<ExamResult>, lo: real, hi: real)
    requires results != []
    requires forall i :: 0 <= i < |results| ==> lo <= results[i].percentage <= hi
    ensures lo <= SumBy(results, Score) / |results| as real <= hi
  {
    SumBetween(results, lo, hi);
    MeanBetween(SumBy(results, Score), |results| as real, lo, hi);
  }

  lemma AverageBetween(results: seq<ExamResult>)
    ensures Lowest(results) <= Highest(results)
    ensures results != [] ==> Round(Lowest(results)) <= Average(results) <= Round(Highest(results))
    ensures results == [] ==> Average(results) == 0
  {
    if results != [] {
      var lo, hi := Lowest(results), Highest(results);
      assert lo <= results[0].percentage <= hi;
      var mean := SumBy(results, Score) / |results| as real;
      MeanOfBounded(results, lo, hi);
      assert Average(results) == Round(mean);
      RoundMonotone(lo, mean);
      RoundMonotone(mean, hi);
    }
  }

  /** Every result scored exactly the same gives that (rounded) score as the average. */
  lemma {:induction false} SumConstantScore(results: seq<ExamResult>, x: real)
    requires forall i :: 0 <= i < |results| ==> results[i].percentage == x
    ensures SumBy(results, Score) == |results| as real * x
  {
    if results != [] {
      SumConstantScore(results[1..], x);
    }
  }

  lemma AverageOfEqualScores(results: seq<ExamResult>, x: real)
    requires results != []
    requires forall i :: 0 <= i < |results| ==> results[i].percentage == x
    ensures Average(results) == Round(x)
  {
    SumConstantScore(results, x);
    var n := |results| as real;
    var sum := SumBy(results, Score);
    assert sum == n * x;
    assert sum / n == x;
    assert Average(results) == Round(sum / n);
  }

  // ---------------------------------------------------------------------------
  // The trend
  // ---------------------------------------------------------------------------

  /** `(a, b) => time(a) - time(b)`, as `compare(a, b) <= 0`. */
  function EarlierOrSame(): (ExamResult, ExamResult) -> bool
  {
    (a: ExamResult, b: ExamResult) => a.time <= b.time
  }

  /** `performanceTrend`: a sorted copy of the filtered list. */
  function Trend(filtered: seq<ExamResult>): seq<ExamResult>
  {
    SortBy(filtered, EarlierOrSame())
  }

  /** The trend holds the same results, oldest first. */
  lemma TrendSpec(filtered: seq<ExamResult>)
    ensures multiset(Trend(filtered)) == multiset(filtered)
    ensures forall i, j :: 0 <= i < j < |Trend(filtered)| ==> Trend(filtered)[i].time <= Trend(filtered)[j].time
  {
    SortByPermutation(filtered, EarlierOrSame());
    SortBySorted(filtered, EarlierOrSame());
  }

  // ---------------------------------------------------------------------------
  // Bands
  // ---------------------------------------------------------------------------

  datatype Colour = Green | Yellow | Red

  /** The bar and badge colour of a score. */
  function ScoreColour(percentage: real): (c: Colour)
    ensures c == Green <==> percentage >= 80.0
    ensures c == Yellow <==> 60.0 <= percentage < 80.0
    ensures c == Red <==> percentage < 60.0
  {
    if percentage >= 80.0 then Green else if percentage >= 60.0 then Yellow else Red
  }

  datatype Analysis = Excellent | Good | Potential

  /** Which of the three analysis texts is shown for the average. */
  function AnalysisOf(average: int): (a: Analysis)
    ensures a == Excellent <==> average >= 80
    ensures a == Good <==> 70 <= average < 80
    ensures a == Potential <==> average < 70
  {
    if average >= 80 then Excellent else if average >= 70 then Good else Potential
  }

  /** A higher score never gets a worse colour. */
  lemma ScoreColourMonotone(x: real, y: real)
    requires x <= y
    ensures ScoreColour(x) == Green ==> ScoreColour(y) == Green
    ensures ScoreColour(y) == Red ==> ScoreColour(x) == Red
  {
  }
}
