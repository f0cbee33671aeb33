/**
 * The attendance screen (app/Attendance.tsx): the column sort of the grouped
 * roster, the month's attendance marks and the per-category summary.
 */
module Attendance {

  import opened Wrappers
  import opened Strings
  import opened Seqs
  import opened Sorting
  import opened Records
  import opened Grouping

  // ---------------------------------------------------------------------------
  // Sort settings
  // ---------------------------------------------------------------------------

  datatype Direction = Asc | Desc
  datatype SortConfig = SortConfig(key: string, direction: Direction)

  /** `requestSort`: ascending, unless the same key is already sorted ascending. */
  function RequestSort(current: Option<SortConfig>, key: string): (r: SortConfig)
    ensures r.key == key
    ensures r.direction == Desc <==> current == Some(SortConfig(key, Asc))
  {
    if current.Some? && current.value.key == key && current.value.direction == Asc then SortConfig(key, Desc)
    else SortConfig(key, Asc)
  }

  /** Clicking the same header again flips the direction, whatever came before. */
  lemma RequestSortFlips(current: Option<SortConfig>, key: string)
    ensures RequestSort(Some(RequestSort(current, key)), key).direction != RequestSort(current, key).direction
    ensures RequestSort(Some(RequestSort(Some(RequestSort(current, key)), key)), key) == RequestSort(current, key)
  {
  }

  /**
   * `a.localeCompare(b) <= 0`. The collation depends on the device's locale
   * (case, accents, digits), so the model takes it as a parameter and asks of
   * it only what every collator gives: a total, transitive order.
   */
  type Collation = (string, string) -> bool

  ghost predicate Collator(coll: Collation)
  {
    Total(coll) && Transitive(coll)
  }

  /** Plain code-unit order is one collator; a locale's is another. */
  lemma CodeUnitOrderIsCollator()
    ensures Collator((a: string, b: string) => StrLe(a, b))
  {
    var coll := (a: string, b: string) => StrLe(a, b);
    forall a: string, b: string ensures coll(a, b) || coll(b, a) {
      StrLeTotal(a, b);
    }
    forall a: string, b: string, c: string ensures coll(a, b) && coll(b, c) ==> coll(a, c) {
      if coll(a, b) && coll(b, c) {
        StrLeTransitive(a, b, c);
      }
    }
  }

  /** `localeCompare` in the chosen direction, as `compare(a, b) <= 0`. */
  predicate DirLe(coll: Collation, d: Direction, a: string, b: string)
  {
    if d == Asc then coll(a, b) else coll(b, a)
  }

  /** Either direction of a collator is again total and transitive. */
  lemma DirLeTotal(coll: Collation, d: Direction, a: string, b: string)
    requires Total(coll)
    ensures DirLe(coll, d, a, b) || DirLe(coll, d, b, a)
  {
    assert coll(a, b) || coll(b, a);
  }

  lemma DirLeTransitive(coll: Collation, d: Direction, a: string, b: string, c: string)
    requires Transitive(coll)
    requires DirLe(coll, d, a, b) && DirLe(coll, d, b, c)
    ensures DirLe(coll, d, a, c)
  {
    if d == Asc {
      assert coll(a, b) && coll(b, c) ==> coll(a, c);
    } else {
      assert coll(c, b) && coll(b, a) ==> coll(c, a);
    }
  }

  /** The category comparator: `localeCompare` when sorting by category, 0 otherwise. */
  function CategoryLe(coll: Collation, cfg: SortConfig): (CategoryGroup, CategoryGroup) -> bool
  {
    (a: CategoryGroup, b: CategoryGroup) => cfg.key != "category" || DirLe(coll, cfg.direction, a.category, b.category)
  }

  function CourseLe(coll: Collation, cfg: SortConfig): (CourseGroup, CourseGroup) -> bool
  {
    (a: CourseGroup, b: CourseGroup) => cfg.key != "course" || DirLe(coll, cfg.direction, a.course, b.course)
  }

  function NameLe(coll: Collation, d: Direction): (Student, Student) -> bool
  {
    (a: Student, b: Student) => DirLe(coll, d, a.name, b.name)
  }

  // ---------------------------------------------------------------------------
  // sortedGroupedStudents
  // ---------------------------------------------------------------------------

  /** A bucket's students, sorted by name only when the key is 'name'. */
  function SortNames(coll: Collation, cfg: SortConfig, xs: seq<Student>): seq<Student>
  {
    if cfg.key == "name" then SortBy(xs, NameLe(coll, cfg.direction)) else xs
  }

  /**
   * The year level. The source sorts the year keys as strings, but writes them
   * into a fresh object, whose integer-like keys enumerate in ascending numeric
   * order again: the order of the years never changes.
   */
  function SortYears(coll: Collation, cfg: SortConfig, ys: seq<YearGroup>): seq<YearGroup>
  {
    Map(ys, (g: YearGroup) => g.(students := SortNames(coll, cfg, g.students)))
  }

  function SortCourses(coll: Collation, cfg: SortConfig, cs: seq<CourseGroup>): seq<CourseGroup>
  {
    Map(SortBy(cs, CourseLe(coll, cfg)), (g: CourseGroup) => g.(years := SortYears(coll, cfg, g.years)))
  }

  /** `sortedGroupedStudents`: the groups unchanged without a sort setting. */
  function SortGroups(coll: Collation, cfg: Option<SortConfig>, gs: seq<CategoryGroup>): seq<CategoryGroup>
  {
    if cfg.None? then gs
    else Map(SortBy(gs, CategoryLe(coll, cfg.value)), (g: CategoryGroup) => g.(courses := SortCourses(coll, cfg.value, g.courses)))
  }

  // ---------------------------------------------------------------------------
  // What the sort keeps
  // ---------------------------------------------------------------------------

  lemma {:induction false} YearBucketSorted(coll: Collation, cfg: SortConfig, ys: seq<YearGroup>, y: nat)
    ensures YearBucket(SortYears(coll, cfg, ys), y) == SortNames(coll, cfg, YearBucket(ys, y))
  {
    if ys != [] {
      YearBucketSorted(coll, cfg, ys[1..], y);
      assert SortYears(coll, cfg, ys)[1..] == SortYears(coll, cfg, ys[1..]);
    }
  }

  lemma {:induction false} CourseBucketAt(cs: seq<CourseGroup>, i: nat, k: string, y: nat)
    requires forall a, b :: 0 <= a < b < |cs| ==> cs[a].course != cs[b].course
    requires i < |cs| && cs[i].course == k
    ensures CourseBucket(cs, k, y) == YearBucket(cs[i].years, y)
  {
    if i > 0 {
      CourseBucketAt(cs[1..], i - 1, k, y);
    }
  }

  lemma {:induction false} CourseBucketAbsent(cs: seq<CourseGroup>, k: string, y: nat)
    requires forall a :: 0 <= a < |cs| ==> cs[a].course != k
    ensures CourseBucket(cs, k, y) == []
  {
    if cs != [] {
      CourseBucketAbsent(cs[1..], k, y);
    }
  }

  lemma {:induction false} BucketAt(gs: seq<CategoryGroup>, i: nat, c: string, k: string, y: nat)
    requires forall a, b :: 0 <= a < b < |gs| ==> gs[a].category != gs[b].category
    requires i < |gs| && gs[i].category == c
    ensures Bucket(gs, c, k, y) == CourseBucket(gs[i].courses, k, y)
  {
    if i > 0 {
      BucketAt(gs[1..], i - 1, c, k, y);
    }
  }

  lemma {:induction false} BucketAbsent(gs: seq<CategoryGroup>, c: string, k: string, y: nat)
    requires forall a :: 0 <= a < |gs| ==> gs[a].category != c
    ensures Bucket(gs, c, k, y) == []
  {
    if gs != [] {
      BucketAbsent(gs[1..], c, k, y);
    }
  }

  lemma CourseBucketSorted(coll: Collation, cfg: SortConfig, cs: seq<CourseGroup>, k: string, y: nat)
    requires forall a, b :: 0 <= a < b < |cs| ==> cs[a].course != cs[b].course
    ensures CourseBucket(SortCourses(coll, cfg, cs), k, y) == SortNames(coll, cfg, CourseBucket(cs, k, y))
  {
    var s := SortBy(cs, CourseLe(coll, cfg));
    var r := SortCourses(coll, cfg, cs);
    SortByPermutation(cs, CourseLe(coll, cfg));
    PermutationKeepsKeysDistinct(cs, s, (g: CourseGroup) => g.course);
    assert forall a :: 0 <= a < |r| ==> r[a].course == s[a].course && r[a].years == SortYears(coll, cfg, s[a].years);
    if i :| 0 <= i < |cs| && cs[i].course == k {
      assert cs[i] in multiset(s);
      var m :| 0 <= m < |s| && s[m] == cs[i];
      CourseBucketAt(r, m, k, y);
      CourseBucketAt(cs, i, k, y);
      YearBucketSorted(coll, cfg, cs[i].years, y);
    } else {
      CourseBucketAbsent(cs, k, y);
      forall m | 0 <= m < |r| ensures r[m].course != k {
        assert s[m] in multiset(cs);
      }
      CourseBucketAbsent(r, k, y);
    }
  }

  /** Sorting never moves a student to another bucket; with key 'name' it reorders each bucket. */
  lemma SortGroupsBuckets(coll: Collation, cfg: SortConfig, gs: seq<CategoryGroup>, c: string, k: string, y: nat)
    requires WellGrouped(gs)
    ensures Bucket(SortGroups(coll, Some(cfg), gs), c, k, y) == SortNames(coll, cfg, Bucket(gs, c, k, y))
  {
    var s := SortBy(gs, CategoryLe(coll, cfg));
    var r := SortGroups(coll, Some(cfg), gs);
    SortByPermutation(gs, CategoryLe(coll, cfg));
    PermutationKeepsKeysDistinct(gs, s, (g: CategoryGroup) => g.category);
    assert forall a :: 0 <= a < |r| ==> r[a].category == s[a].category && r[a].courses == SortCourses(coll, cfg, s[a].courses);
    if i :| 0 <= i < |gs| && gs[i].category == c {
      SortedBucketPresent(coll, cfg, gs, s, r, i, c, k, y);
    } else {
      SortedBucketAbsent(gs, s, r, c, k, y);
    }
  }

  /** The bucket of a category that is present: found in its (moved) group, its courses sorted. */
  lemma SortedBucketPresent(coll: Collation, cfg: SortConfig, gs: seq<CategoryGroup>, s: seq<CategoryGroup>, r: seq<CategoryGroup>,
                            i: nat, c: string, k: string, y: nat)
    requires WellGrouped(gs) && multiset(s) == multiset(gs)
    requires forall a, b :: 0 <= a < b < |s| ==> s[a].category != s[b].category
    requires |r| == |s| && forall a :: 0 <= a < |r| ==> r[a].category == s[a].category && r[a].courses == SortCourses(coll, cfg, s[a].courses)
    requires i < |gs| && gs[i].category == c
    ensures Bucket(r, c, k, y) == SortNames(coll, cfg, Bucket(gs, c, k, y))
  {
    assert gs[i] in multiset(s);
    var m :| 0 <= m < |s| && s[m] == gs[i];
    BucketAt(r, m, c, k, y);
    BucketAt(gs, i, c, k, y);
    assert CategoryOk(gs[i]);
    CourseBucketSorted(coll, cfg, gs[i].courses, k, y);
  }

  /** A category that is absent before sorting is absent after. */
  lemma SortedBucketAbsent(gs: seq<CategoryGroup>, s: seq<CategoryGroup>, r: seq<CategoryGroup>, c: string, k: string, y: nat)
    requires multiset(s) == multiset(gs)
    requires |r| == |s| && forall a :: 0 <= a < |r| ==> r[a].category == s[a].category
    requires forall a :: 0 <= a < |gs| ==> gs[a].category != c
    ensures Bucket(r, c, k, y) == [] && Bucket(gs, c, k, y) == []
  {
    BucketAbsent(gs, c, k, y);
    forall m | 0 <= m < |r| ensures r[m].category != c {
      assert s[m] in multiset(gs);
    }
    BucketAbsent(r, c, k, y);
  }

  /** Sorting by name returns each bucket as a permutation ordered by name. */
  lemma SortNamesSpec(coll: Collation, cfg: SortConfig, xs: seq<Student>)
    ensures multiset(SortNames(coll, cfg, xs)) == multiset(xs)
    ensures cfg.key == "name" && Collator(coll) ==> SortedBy(SortNames(coll, cfg, xs), NameLe(coll, cfg.direction))
    ensures cfg.key != "name" ==> SortNames(coll, cfg, xs) == xs
  {
    SortByPermutation(xs, NameLe(coll, cfg.direction));
    if cfg.key == "name" && Collator(coll) {
      var le := NameLe(coll, cfg.direction);
      forall a, b ensures le(a, b) || le(b, a) {
        DirLeTotal(coll, cfg.direction, a.name, b.name);
      }
      forall a, b, c ensures le(a, b) && le(b, c) ==> le(a, c) {
        if le(a, b) && le(b, c) {
          DirLeTransitive(coll, cfg.direction, a.name, b.name, c.name);
        }
      }
      SortBySorted(xs, le);
    }
  }

  /** Sorting by category orders the category groups by name in the chosen direction. */
  lemma SortGroupsOrdersCategories(coll: Collation, cfg: SortConfig, gs: seq<CategoryGroup>)
    requires cfg.key == "category" && Collator(coll)
    ensures forall i, j :: 0 <= i < j < |SortGroups(coll, Some(cfg), gs)| ==>
              DirLe(coll, cfg.direction, SortGroups(coll, Some(cfg), gs)[i].category, SortGroups(coll, Some(cfg), gs)[j].category)
  {
    var le := CategoryLe(coll, cfg);
    forall a, b ensures le(a, b) || le(b, a) {
      DirLeTotal(coll, cfg.direction, a.category, b.category);
    }
    forall a, b, c ensures le(a, b) && le(b, c) ==> le(a, c) {
      if le(a, b) && le(b, c) {
        DirLeTransitive(coll, cfg.direction, a.category, b.category, c.category);
      }
    }
    SortBySorted(gs, le);
  }

  /** Sorting by course orders the course groups of every category. */
  lemma SortGroupsOrdersCourses(coll: Collation, cfg: SortConfig, cs: seq<CourseGroup>)
    requires cfg.key == "course" && Collator(coll)
    ensures forall i, j :: 0 <= i < j < |SortCourses(coll, cfg, cs)| ==>
              DirLe(coll, cfg.direction, SortCourses(coll, cfg, cs)[i].course, SortCourses(coll, cfg, cs)[j].course)
  {
    var le := CourseLe(coll, cfg);
    forall a, b ensures le(a, b) || le(b, a) {
      DirLeTotal(coll, cfg.direction, a.course, b.course);
    }
    forall a, b, c ensures le(a, b) && le(b, c) ==> le(a, c) {
      if le(a, b) && le(b, c) {
        DirLeTransitive(coll, cfg.direction, a.course, b.course, c.course);
      }
    }
    SortBySorted(cs, le);
  }

  lemma SortCoursesUnchanged(coll: Collation, cfg: SortConfig, cs: seq<CourseGroup>)
    requires cfg.key != "course" && cfg.key != "name"
    ensures SortCourses(coll, cfg, cs) == cs
  {
    SortByAllEqual(cs, CourseLe(coll, cfg));
    forall i | 0 <= i < |cs| ensures SortYears(coll, cfg, cs[i].years) == cs[i].years {
    }
  }

  /** A sort by 'year', or by a key no column uses, leaves the groups as they were. */
  lemma SortGroupsUnchanged(coll: Collation, cfg: SortConfig, gs: seq<CategoryGroup>)
    requires cfg.key !in {"category", "course", "name"}
    ensures SortGroups(coll, Some(cfg), gs) == gs
  {
    SortByAllEqual(gs, CategoryLe(coll, cfg));
    forall i | 0 <= i < |gs| ensures SortCourses(coll, cfg, gs[i].courses) == gs[i].courses {
      SortCoursesUnchanged(coll, cfg, gs[i].courses);
    }
  }

  // ---------------------------------------------------------------------------
  // The month's marks
  // ---------------------------------------------------------------------------

  /** A stored attendance row; `day` is the day of the month of its date. */
  datatype AttendanceRecord = AttendanceRecord(studentId: nat, day: nat, status: string)

  /** `attendanceMap`: student id to day of the month to status. */
  type Marks = map<nat, map<nat, string>>

  /** `map[id][day] = status`, creating the student's entry when it is missing. */
  function Mark(m: Marks, id: nat, day: nat, status: string): (r: Marks)
    ensures r.Keys == m.Keys + {id}
    ensures r[id].Keys == (if id in m then m[id].Keys else {}) + {day}
    ensures r[id][day] == status
    ensures forall i :: i in m && i != id ==> r[i] == m[i]
    ensures forall d :: d in r[id] && d != day ==> r[id][d] == m[id][d]
  {
    m[id := (if id in m then m[id] else map[])[day := status]]
  }

  /** The status a switch shows: `attendanceMap[id]?.[day] || 'Absent'`. */
  function StatusOf(m: Marks, id: nat, day: nat): (r: string)
    ensures r != ""
    ensures id in m && day in m[id] && m[id][day] != "" ==> r == m[id][day]
    ensures !(id in m && day in m[id]) ==> r == "Absent"
  {
    if id in m && day in m[id] && m[id][day] != "" then m[id][day] else "Absent"
  }

  /** Reading a slot after writing it gives what was written; every other slot reads as before. */
  lemma MarkThenStatus(m: Marks, id: nat, day: nat, status: string, id': nat, day': nat)
    ensures StatusOf(Mark(m, id, day, status), id', day') ==
            if id' == id && day' == day then (if status == "" then "Absent" else status) else StatusOf(m, id', day')
  {
  }

  /** The records folded into the marks in order: a later record for the same day wins. */
  function MarksOf(records: seq<AttendanceRecord>): Marks
  {
    if records == [] then map[]
    else
      var r := records[|records| - 1];
      Mark(MarksOf(records[..|records| - 1]), r.studentId, r.day, r.status)
  }

  /** The slot of a record no later record overwrites holds that record's status. */
  lemma {:induction false} MarksOfLatest(records: seq<AttendanceRecord>, i: nat)
    requires i < |records|
    requires forall j :: i < j < |records| ==> records[j].studentId != records[i].studentId || records[j].day != records[i].day
    ensures records[i].studentId in MarksOf(records)
    ensures records[i].day in MarksOf(records)[records[i].studentId]
    ensures MarksOf(records)[records[i].studentId][records[i].day] == records[i].status
  {
    if i < |records| - 1 {
      var p := records[..|records| - 1];
      assert forall j :: i < j < |p| ==> p[j] == records[j];
      MarksOfLatest(p, i);
    }
  }

  /** A slot no record names stays unmarked, so it reads as 'Absent'. */
  lemma {:induction false} MarksOfUnmarked(records: seq<AttendanceRecord>, id: nat, day: nat)
    requires forall j :: 0 <= j < |records| ==> records[j].studentId != id || records[j].day != day
    ensures !(id in MarksOf(records) && day in MarksOf(records)[id])
    ensures StatusOf(MarksOf(records), id, day) == "Absent"
  {
    if records != [] {
      MarksOfUnmarked(records[..|records| - 1], id, day);
    }
  }

  /** `Object.values(attendanceMap[id] || {}).filter(status => status === 'Present').length` */
  function PresentDays(m: Marks, id: nat): nat
  {
    if id in m then |set d | d in m[id] && m[id][d] == "Present"| else 0
  }

  /** The attendance screen's marks for the month it was opened in. */
  class AttendanceSheet {
    var marks: Marks
    /** Set once when the screen opens and never recomputed. */
    const daysInMonth: nat

    constructor(days: nat)
      ensures marks == map[] && daysInMonth == days
    {
      marks := map[];
      daysInMonth := days;
    }

    /** `handleStatusChange` */
    method SetStatus(id: nat, day: nat, status: string)
      modifies this
      ensures marks == Mark(old(marks), id, day, status)
    {
      marks := Mark(marks, id, day, status);
    }

    /** `fetchAttendance`: the marks are rebuilt from the month's records. */
    method Load(records: seq<AttendanceRecord>)
      modifies this
      ensures marks == MarksOf(records)
    {
      var m: Marks := map[];
      var i := 0;
      while i < |records|
        invariant 0 <= i <= |records|
        invariant m == MarksOf(records[..i])
      {
        assert records[..i + 1][..i] == records[..i];
        m := Mark(m, records[i].studentId, records[i].day, records[i].status);
        i := i + 1;
      }
      assert records[..|records|] == records;
      marks := m;
    }

    /** Every marked day lies in the month the screen shows. */
    ghost predicate WithinMonth()
      reads this
    {
      forall id, d :: id in marks && d in marks[id] ==> 1 <= d <= daysInMonth
    }

    /** The switches only offer the days 1 to `daysInMonth`, so marking one keeps the marks within the month. */
    lemma SetStatusWithinMonth(id: nat, day: nat, status: string)
      requires WithinMonth() && 1 <= day <= daysInMonth
      ensures forall i, d :: i in Mark(marks, id, day, status) && d in Mark(marks, id, day, status)[i] ==> 1 <= d <= daysInMonth
    {
    }

    /** `summaryData`, computed by the same `forEach` over the students. */
    method Summarize(students: seq<Student>, selected: string) returns (summary: seq<Tally>)
      ensures summary == SummaryOf(students, marks, selected)
    {
      summary := [];
      var i := 0;
      while i < |students|
        invariant 0 <= i <= |students|
        invariant summary == SummaryOf(students[..i], marks, selected)
      {
        assert students[..i + 1][..i] == students[..i];
        var s := students[i];
        if selected == "All" || s.category == selected {
          summary := SummaryStep(summary, s.category, PresentDays(marks, s.id));
        }
        i := i + 1;
      }
      assert students[..|students|] == students;
    }
  }

  // ---------------------------------------------------------------------------
  // The summary tab
  // ---------------------------------------------------------------------------

  datatype Tally = Tally(category: string, studentCount: nat, presentCount: nat)

  /** One student counted into its category's entry, created at the end when new. */
  function SummaryStep(ts: seq<Tally>, category: string, present: nat): (r: seq<Tally>)
    ensures |r| == |ts| || |r| == |ts| + 1
    ensures forall j :: 0 <= j < |ts| ==> r[j].category == ts[j].category
    ensures |r| == |ts| + 1 ==> r[|ts|].category == category && forall j :: 0 <= j < |ts| ==> ts[j].category != category
  {
    if ts == [] then [Tally(category, 1, present)]
    else if ts[0].category == category then
      [ts[0].(studentCount := ts[0].studentCount + 1, presentCount := ts[0].presentCount + present)] + ts[1..]
    else [ts[0]] + SummaryStep(ts[1..], category, present)
  }

  /** The summary of the students in order, skipping those outside the selected category. */
  function SummaryOf(students: seq<Student>, m: Marks, selected: string): seq<Tally>
  {
    if students == [] then []
    else
      var s := students[|students| - 1];
      var rest := SummaryOf(students[..|students| - 1], m, selected);
      if selected == "All" || s.category == selected then SummaryStep(rest, s.category, PresentDays(m, s.id)) else rest
  }

  /** The entry of a category, if the summary has one. */
  function Entry(ts: seq<Tally>, category: string): (r: Option<Tally>)
    ensures r.Some? ==> r.value.category == category
  {
    if ts == [] then None else if ts[0].category == category then Some(ts[0]) else Entry(ts[1..], category)
  }

  function InCategory(category: string): Student -> bool
  {
    (s: Student) => s.category == category
  }

  /** The present days of a list of students, added up. */
  function PresentTotal(xs: seq<Student>, m: Marks): nat
  {
    if xs == [] then 0 else PresentDays(m, xs[0].id) + PresentTotal(xs[1..], m)
  }

  lemma {:induction false} PresentTotalAppend(a: seq<Student>, b: seq<Student>, m: Marks)
    ensures PresentTotal(a + b, m) == PresentTotal(a, m) + PresentTotal(b, m)
  {
    if a == [] {
      assert a + b == b;
    } else {
      PresentTotalAppend(a[1..], b, m);
      assert (a + b)[1..] == a[1..] + b;
    }
  }

  /** A category's entry after counting one more of its students with `present` days. */
  function CountedOnce(e: Option<Tally>, category: string, present: nat): Option<Tally>
  {
    if e.None? then Some(Tally(category, 1, present))
    else Some(e.value.(studentCount := e.value.studentCount + 1, presentCount := e.value.presentCount + present))
  }

  lemma {:induction false} EntryStep(ts: seq<Tally>, category: string, present: nat, c: string)
    ensures Entry(SummaryStep(ts, category, present), c) ==
            if c != category then Entry(ts, c) else CountedOnce(Entry(ts, c), category, present)
  {
    if ts != [] && ts[0].category != category {
      EntryStep(ts[1..], category, present, c);
    }
  }

  /**
   * What the summary should hold for a category: an entry exactly when the
   * category passes the selection and has students, counting those students
   * and adding up their present days.
   */
  function ExpectedEntry(students: seq<Student>, m: Marks, selected: string, c: string): Option<Tally>
  {
    if (selected == "All" || c == selected) && Count(students, InCategory(c)) > 0
    then Some(Tally(c, Count(students, InCategory(c)), PresentTotal(Filter(students, InCategory(c)), m)))
    else None
  }

  lemma ExpectedOther(p: seq<Student>, s: Student, m: Marks, selected: string, c: string)
    requires s.category != c
    ensures ExpectedEntry(p + [s], m, selected, c) == ExpectedEntry(p, m, selected, c)
  {
    FilterAppend(p, [s], InCategory(c));
    assert Filter([s], InCategory(c)) == [];
    assert Filter(p + [s], InCategory(c)) == Filter(p, InCategory(c));
  }

  lemma ExpectedSame(p: seq<Student>, s: Student, m: Marks, selected: string)
    requires selected == "All" || s.category == selected
    ensures ExpectedEntry(p + [s], m, selected, s.category) ==
            CountedOnce(ExpectedEntry(p, m, selected, s.category), s.category, PresentDays(m, s.id))
  {
    var c := s.category;
    FilterAppend(p, [s], InCategory(c));
    assert Filter([s], InCategory(c)) == [s];
    PresentTotalAppend(Filter(p, InCategory(c)), [s], m);
    assert PresentTotal([s], m) == PresentDays(m, s.id);
    if Count(p, InCategory(c)) == 0 {
      assert Filter(p, InCategory(c)) == [];
    }
  }

  lemma ExpectedExcluded(p: seq<Student>, s: Student, m: Marks, selected: string, c: string)
    requires selected != "All" && s.category != selected
    ensures ExpectedEntry(p + [s], m, selected, c) == ExpectedEntry(p, m, selected, c)
  {
    if c == selected {
      ExpectedOther(p, s, m, selected, c);
    }
  }

  /**
   * A category has an entry exactly when it passes the selection and has
   * students; the entry counts those students and adds up their present days.
   */
  lemma {:induction false} SummaryEntry(students: seq<Student>, m: Marks, selected: string, c: string)
    ensures Entry(SummaryOf(students, m, selected), c) == ExpectedEntry(students, m, selected, c)
  {
    if students == [] {
      assert Filter(students, InCategory(c)) == [];
    } else {
      var p := students[..|students| - 1];
      var s := students[|students| - 1];
      SummaryEntry(p, m, selected, c);
      FrontLast(students);
      if selected == "All" || s.category == selected {
        SummaryEntryCounted(p, s, m, selected, c);
      } else {
        ExpectedExcluded(p, s, m, selected, c);
      }
    }
  }

  /** A student that passes the selection is counted into its category's entry. */
  lemma SummaryEntryCounted(p: seq<Student>, s: Student, m: Marks, selected: string, c: string)
    requires selected == "All" || s.category == selected
    requires Entry(SummaryOf(p, m, selected), c) == ExpectedEntry(p, m, selected, c)
    ensures Entry(SummaryOf(p + [s], m, selected), c) == ExpectedEntry(p + [s], m, selected, c)
  {
    var rest := SummaryOf(p, m, selected);
    assert (p + [s])[..|p|] == p;
    assert SummaryOf(p + [s], m, selected) == SummaryStep(rest, s.category, PresentDays(m, s.id));
    EntryStep(rest, s.category, PresentDays(m, s.id), c);
    if s.category == c {
      ExpectedSame(p, s, m, selected);
    } else {
      ExpectedOther(p, s, m, selected, c);
    }
  }

  /** The summary lists each category once. */
  lemma {:induction false} SummaryDistinct(students: seq<Student>, m: Marks, selected: string)
    ensures forall i, j :: 0 <= i < j < |SummaryOf(students, m, selected)| ==>
              SummaryOf(students, m, selected)[i].category != SummaryOf(students, m, selected)[j].category
  {
    if students != [] {
      var p := students[..|students| - 1];
      var s := students[|students| - 1];
      SummaryDistinct(p, m, selected);
      var rest := SummaryOf(p, m, selected);
      if selected == "All" || s.category == selected {
        var r := SummaryStep(rest, s.category, PresentDays(m, s.id));
        assert SummaryOf(students, m, selected) == r;
        forall i, j | 0 <= i < j < |r| ensures r[i].category != r[j].category {
          if j < |rest| {
            assert r[i].category == rest[i].category && r[j].category == rest[j].category;
          }
        }
      }
    }
  }

  /** The average shown per category: present days over student-days of the month, in percent. */
  function AverageAttendance(t: Tally, daysInMonth: nat): (r: real)
    ensures r >= 0.0
    ensures t.studentCount * daysInMonth == 0 ==> r == 0.0
    ensures t.studentCount * daysInMonth > 0 ==> r * (t.studentCount * daysInMonth) as real == 100.0 * t.presentCount as real
  {
    var total := t.studentCount * daysInMonth;
    if total > 0 then (t.presentCount as real / total as real) * 100.0 else 0.0
  }

  lemma AverageAtMostHundred(t: Tally, daysInMonth: nat)
    requires t.presentCount <= t.studentCount * daysInMonth
    ensures AverageAttendance(t, daysInMonth) <= 100.0
  {
    var total := t.studentCount * daysInMonth;
    if total > 0 {
      RatioAtMostOne(t.presentCount as real, total as real);
    }
  }

  lemma RatioAtMostOne(p: real, n: real)
    requires 0.0 < n && p <= n
    ensures p / n <= 1.0
  {
    assert p / n * n == p;
  }

  lemma {:induction false} RangeCardinality(s: set<nat>, n: nat)
    requires forall d :: d in s ==> 1 <= d <= n
    ensures |s| <= n
  {
    if n > 0 {
      RangeCardinality(s - {n}, n - 1);
    } else {
      assert s == {};
    }
  }

  /** A student is present on at most as many days as the month has. */
  lemma PresentDaysBound(m: Marks, id: nat, days: nat)
    requires forall i, d :: i in m && d in m[i] ==> 1 <= d <= days
    ensures PresentDays(m, id) <= days
  {
    if id in m {
      var present := set d | d in m[id] && m[id][d] == "Present";
      RangeCardinality(present, days);
    }
  }

  lemma {:induction false} PresentTotalBound(xs: seq<Student>, m: Marks, days: nat)
    requires forall id, d :: id in m && d in m[id] ==> 1 <= d <= days
    ensures PresentTotal(xs, m) <= |xs| * days
  {
    if xs != [] {
      var rest := xs[1..];
      PresentTotalBound(rest, m, days);
      PresentDaysBound(m, xs[0].id, days);
      assert PresentTotal(xs, m) == PresentDays(m, xs[0].id) + PresentTotal(rest, m);
      MulSucc(|rest|, days);
    }
  }

  lemma MulSucc(a: nat, b: nat)
    ensures (a + 1) * b == a * b + b
  {
  }

  /** While every mark lies in the month, no category's average exceeds 100 percent. */
  lemma SummaryAtMostHundred(students: seq<Student>, m: Marks, selected: string, days: nat, c: string)
    requires forall id, d :: id in m && d in m[id] ==> 1 <= d <= days
    requires Entry(SummaryOf(students, m, selected), c).Some?
    ensures AverageAttendance(Entry(SummaryOf(students, m, selected), c).value, days) <= 100.0
  {
    SummaryEntry(students, m, selected, c);
    assert Entry(SummaryOf(students, m, selected), c).value.presentCount == PresentTotal(Filter(students, InCategory(c)), m);
    PresentTotalBound(Filter(students, InCategory(c)), m, days);
    AverageAtMostHundred(Entry(SummaryOf(students, m, selected), c).value, days);
  }
}
