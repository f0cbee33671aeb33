/**
 * The three-level roster grouping (category, then course, then year) that the
 * attendance screen and the web student page build with `forEach` and `push`.
 *
 * Groups are kept as lists in the order a JavaScript object lists its keys:
 * category and course names in the order they first appear, and years
 * (whole numbers, so array-index keys) in ascending numeric order.
 */
module Grouping {

  import opened Seqs
  import opened Records

  datatype YearGroup = YearGroup(year: nat, students: seq<Student>)
  datatype CourseGroup = CourseGroup(course: string, years: seq<YearGroup>)
  datatype CategoryGroup = CategoryGroup(category: string, courses: seq<CourseGroup>)

  /** The bucket a student belongs to. */
  predicate InBucket(s: Student, category: string, course: string, year: nat)
  {
    s.category == category && s.course == course && s.year == year
  }

  // ---------------------------------------------------------------------------
  // Adding one student
  // ---------------------------------------------------------------------------

  /** Appends `s` to the bucket of its year, creating it in ascending position. */
  function InsertYear(ys: seq<YearGroup>, s: Student): (r: seq<YearGroup>)
    ensures |r| >= 1
  {
    if ys == [] then [YearGroup(s.year, [s])]
    else if ys[0].year == s.year then [ys[0].(students := ys[0].students + [s])] + ys[1..]
    else if s.year < ys[0].year then [YearGroup(s.year, [s])] + ys
    else [ys[0]] + InsertYear(ys[1..], s)
  }

  /** Adds `s` under its course, creating the course at the end when it is new. */
  function InsertCourse(cs: seq<CourseGroup>, s: Student): (r: seq<CourseGroup>)
    ensures |r| == |cs| || |r| == |cs| + 1
    ensures forall j :: 0 <= j < |cs| ==> r[j].course == cs[j].course
    ensures |r| == |cs| + 1 ==> r[|cs|].course == s.course && forall j :: 0 <= j < |cs| ==> cs[j].course != s.course
  {
    if cs == [] then [CourseGroup(s.course, [YearGroup(s.year, [s])])]
    else if cs[0].course == s.course then [cs[0].(years := InsertYear(cs[0].years, s))] + cs[1..]
    else [cs[0]] + InsertCourse(cs[1..], s)
  }

  /** Adds `s` under its category, creating the category at the end when it is new. */
  function InsertCategory(gs: seq<CategoryGroup>, s: Student): (r: seq<CategoryGroup>)
    ensures |r| == |gs| || |r| == |gs| + 1
    ensures forall j :: 0 <= j < |gs| ==> r[j].category == gs[j].category
    ensures |r| == |gs| + 1 ==> r[|gs|].category == s.category && forall j :: 0 <= j < |gs| ==> gs[j].category != s.category
  {
    if gs == [] then [CategoryGroup(s.category, [CourseGroup(s.course, [YearGroup(s.year, [s])])])]
    else if gs[0].category == s.category then [gs[0].(courses := InsertCourse(gs[0].courses, s))] + gs[1..]
    else [gs[0]] + InsertCategory(gs[1..], s)
  }

  /** The grouping of a list: its students added one after the other. */
  function GroupAll(xs: seq<Student>): seq<CategoryGroup>
  {
    if xs == [] then [] else InsertCategory(GroupAll(xs[..|xs| - 1]), xs[|xs| - 1])
  }

  /** `groupedStudents`: the loop over the filtered students. */
  method GroupStudents(students: seq<Student>) returns (groups: seq<CategoryGroup>)
    ensures groups == GroupAll(students)
    ensures WellGrouped(groups)
    ensures forall c, k, y :: Bucket(groups, c, k, y) == Filter(students, s => InBucket(s, c, k, y))
    ensures multiset(Flatten(groups)) == multiset(students)
  {
    groups := [];
    var i := 0;
    while i < |students|
      invariant 0 <= i <= |students|
      invariant groups == GroupAll(students[..i])
    {
      assert students[..i + 1][..i] == students[..i];
      groups := InsertCategory(groups, students[i]);
      i := i + 1;
    }
    assert students[..|students|] == students;
    GroupAllWellGrouped(students);
    GroupAllBuckets(students);
    GroupAllFlatten(students);
  }

  // ---------------------------------------------------------------------------
  // Reading the groups
  // ---------------------------------------------------------------------------

  function YearBucket(ys: seq<YearGroup>, y: nat): seq<Student>
  {
    if ys == [] then [] else if ys[0].year == y then ys[0].students else YearBucket(ys[1..], y)
  }

  function CourseBucket(cs: seq<CourseGroup>, k: string, y: nat): seq<Student>
  {
    if cs == [] then [] else if cs[0].course == k then YearBucket(cs[0].years, y) else CourseBucket(cs[1..], k, y)
  }

  /** `groups[c][k][y]`, or [] when there is no such bucket. */
  function Bucket(gs: seq<CategoryGroup>, c: string, k: string, y: nat): seq<Student>
  {
    if gs == [] then [] else if gs[0].category == c then CourseBucket(gs[0].courses, k, y) else Bucket(gs[1..], c, k, y)
  }

  function FlattenYears(ys: seq<YearGroup>): seq<Student>
  {
    if ys == [] then [] else ys[0].students + FlattenYears(ys[1..])
  }

  function FlattenCourses(cs: seq<CourseGroup>): seq<Student>
  {
    if cs == [] then [] else FlattenYears(cs[0].years) + FlattenCourses(cs[1..])
  }

  /** The rows of the attendance table: every bucket's students, group after group. */
  function Flatten(gs: seq<CategoryGroup>): seq<Student>
  {
    if gs == [] then [] else FlattenCourses(gs[0].courses) + Flatten(gs[1..])
  }

  // ---------------------------------------------------------------------------
  // Shape of the groups
  // ---------------------------------------------------------------------------

  /** Years ascending, no empty bucket, every student in the bucket of its own keys. */
  predicate YearsOk(ys: seq<YearGroup>, c: string, k: string)
  {
    (forall i, j :: 0 <= i < j < |ys| ==> ys[i].year < ys[j].year) &&
    (forall i :: 0 <= i < |ys| ==> ys[i].students != []) &&
    (forall i, m :: 0 <= i < |ys| && 0 <= m < |ys[i].students| ==> InBucket(ys[i].students[m], c, k, ys[i].year))
  }

  /** A course group that is not empty and whose years are in order. */
  predicate CourseOk(g: CourseGroup, c: string)
  {
    g.years != [] && YearsOk(g.years, c, g.course)
  }

  predicate CoursesOk(cs: seq<CourseGroup>, c: string)
  {
    (forall i, j :: 0 <= i < j < |cs| ==> cs[i].course != cs[j].course) &&
    (forall i :: 0 <= i < |cs| ==> CourseOk(cs[i], c))
  }

  /** A category group that is not empty and whose courses are well formed. */
  predicate CategoryOk(g: CategoryGroup)
  {
    g.courses != [] && CoursesOk(g.courses, g.category)
  }

  /** Distinct keys at every level, no empty group, and every student under its own keys. */
  predicate WellGrouped(gs: seq<CategoryGroup>)
  {
    (forall i, j :: 0 <= i < j < |gs| ==> gs[i].category != gs[j].category) &&
    (forall i :: 0 <= i < |gs| ==> CategoryOk(gs[i]))
  }

  lemma {:induction false} InsertYearAbove(ys: seq<YearGroup>, s: Student, b: int)
    requires forall i :: 0 <= i < |ys| ==> ys[i].year > b
    requires s.year > b
    ensures forall i :: 0 <= i < |InsertYear(ys, s)| ==> InsertYear(ys, s)[i].year > b
  {
    if ys != [] && ys[0].year != s.year && s.year >= ys[0].year {
      InsertYearAbove(ys[1..], s, b);
    }
  }

  lemma InsertYearSameOk(ys: seq<YearGroup>, s: Student, c: string, k: string)
    requires YearsOk(ys, c, k)
    requires s.category == c && s.course == k
    requires ys != [] && ys[0].year == s.year
    ensures YearsOk(InsertYear(ys, s), c, k)
  {
    var r := InsertYear(ys, s);
    assert r[0].students == ys[0].students + [s];
    assert r[0].year == ys[0].year;
    assert forall i :: 1 <= i < |r| ==> r[i] == ys[i];
    forall i, m | 0 <= i < |r| && 0 <= m < |r[i].students| ensures InBucket(r[i].students[m], c, k, r[i].year) {
      if i == 0 && m < |ys[0].students| {
        assert r[i].students[m] == ys[0].students[m];
      }
    }
  }

  lemma InsertYearFrontOk(ys: seq<YearGroup>, s: Student, c: string, k: string)
    requires YearsOk(ys, c, k)
    requires s.category == c && s.course == k
    requires ys != [] && s.year < ys[0].year
    ensures YearsOk(InsertYear(ys, s), c, k)
  {
    var r := InsertYear(ys, s);
    assert r == [YearGroup(s.year, [s])] + ys;
    assert forall i :: 1 <= i < |r| ==> r[i] == ys[i - 1];
    forall i, j | 0 <= i < j < |r| ensures r[i].year < r[j].year {
      if i == 0 && j > 1 {
        assert ys[0].year < ys[j - 1].year;
      }
    }
  }

  lemma {:induction false} InsertYearOk(ys: seq<YearGroup>, s: Student, c: string, k: string)
    requires YearsOk(ys, c, k)
    requires s.category == c && s.course == k
    ensures YearsOk(InsertYear(ys, s), c, k)
  {
    if ys == [] {
    } else if ys[0].year == s.year {
      InsertYearSameOk(ys, s, c, k);
    } else if s.year < ys[0].year {
      InsertYearFrontOk(ys, s, c, k);
    } else {
      var t := InsertYear(ys[1..], s);
      InsertYearOk(ys[1..], s, c, k);
      InsertYearAbove(ys[1..], s, ys[0].year);
      assert InsertYear(ys, s) == [ys[0]] + t;
      YearsOkCons(ys[0], t, c, k);
    }
  }

  /** A year group in front of later, well-formed year groups keeps them well formed. */
  lemma YearsOkCons(g: YearGroup, t: seq<YearGroup>, c: string, k: string)
    requires YearsOk(t, c, k)
    requires g.students != []
    requires forall m :: 0 <= m < |g.students| ==> InBucket(g.students[m], c, k, g.year)
    requires forall i :: 0 <= i < |t| ==> t[i].year > g.year
    ensures YearsOk([g] + t, c, k)
  {
    var r := [g] + t;
    assert forall i :: 1 <= i < |r| ==> r[i] == t[i - 1];
  }

  /** Each course group is either kept or, for the student's course, gets the student; a new one holds only the student. */
  lemma {:induction false} InsertCourseShape(cs: seq<CourseGroup>, s: Student)
    ensures forall j :: 0 <= j < |cs| ==>
              InsertCourse(cs, s)[j] == cs[j] ||
              (cs[j].course == s.course && InsertCourse(cs, s)[j] == cs[j].(years := InsertYear(cs[j].years, s)))
    ensures |InsertCourse(cs, s)| == |cs| + 1 ==> InsertCourse(cs, s)[|cs|] == CourseGroup(s.course, [YearGroup(s.year, [s])])
  {
    if cs != [] && cs[0].course != s.course {
      InsertCourseShape(cs[1..], s);
    }
  }

  lemma CourseGroupInsertOk(g: CourseGroup, s: Student, c: string)
    requires CourseOk(g, c)
    requires s.category == c && s.course == g.course
    ensures CourseOk(g.(years := InsertYear(g.years, s)), c)
  {
    InsertYearOk(g.years, s, c, s.course);
  }

  lemma NewCourseOk(s: Student)
    ensures CourseOk(CourseGroup(s.course, [YearGroup(s.year, [s])]), s.category)
  {
  }

  lemma InsertCourseOk(cs: seq<CourseGroup>, s: Student, c: string)
    requires CoursesOk(cs, c)
    requires s.category == c
    ensures CoursesOk(InsertCourse(cs, s), c)
  {
    var r := InsertCourse(cs, s);
    forall i | 0 <= i < |r| ensures CourseOk(r[i], c) {
      InsertCourseAt(cs, s, c, i);
    }
    InsertCourseDistinct(cs, s);
  }

  lemma InsertCourseDistinct(cs: seq<CourseGroup>, s: Student)
    requires forall i, j :: 0 <= i < j < |cs| ==> cs[i].course != cs[j].course
    ensures forall i, j :: 0 <= i < j < |InsertCourse(cs, s)| ==> InsertCourse(cs, s)[i].course != InsertCourse(cs, s)[j].course
  {
    var r := InsertCourse(cs, s);
    forall i, j | 0 <= i < j < |r| ensures r[i].course != r[j].course {
      if j < |cs| {
        assert r[i].course == cs[i].course && r[j].course == cs[j].course;
      }
    }
  }

  lemma InsertCourseAt(cs: seq<CourseGroup>, s: Student, c: string, i: nat)
    requires CoursesOk(cs, c)
    requires s.category == c
    requires i < |InsertCourse(cs, s)|
    ensures CourseOk(InsertCourse(cs, s)[i], c)
  {
    InsertCourseShape(cs, s);
    var g := InsertCourse(cs, s)[i];
    if i == |cs| {
      NewCourseOk(s);
    } else if g != cs[i] {
      CourseGroupInsertOk(cs[i], s, c);
    }
  }

  /** Each category group is either kept or, for the student's category, gets the student; a new one holds only the student. */
  lemma {:induction false} InsertCategoryShape(gs: seq<CategoryGroup>, s: Student)
    ensures forall j :: 0 <= j < |gs| ==>
              InsertCategory(gs, s)[j] == gs[j] ||
              (gs[j].category == s.category && InsertCategory(gs, s)[j] == gs[j].(courses := InsertCourse(gs[j].courses, s)))
    ensures |InsertCategory(gs, s)| == |gs| + 1 ==>
              InsertCategory(gs, s)[|gs|] == CategoryGroup(s.category, [CourseGroup(s.course, [YearGroup(s.year, [s])])])
  {
    if gs != [] && gs[0].category != s.category {
      InsertCategoryShape(gs[1..], s);
    }
  }

  lemma InsertCategoryOk(gs: seq<CategoryGroup>, s: Student)
    requires WellGrouped(gs)
    ensures WellGrouped(InsertCategory(gs, s))
  {
    var r := InsertCategory(gs, s);
    InsertCategoryShape(gs, s);
    forall i | 0 <= i < |r| ensures CategoryOk(r[i]) {
      if i < |gs| && r[i] != gs[i] {
        InsertCourseOk(gs[i].courses, s, s.category);
      }
    }
  }

  /** Every grouping the screens build has distinct keys, no empty group and every student under its own keys. */
  lemma {:induction false} GroupAllWellGrouped(xs: seq<Student>)
    ensures WellGrouped(GroupAll(xs))
  {
    if xs != [] {
      GroupAllWellGrouped(xs[..|xs| - 1]);
      InsertCategoryOk(GroupAll(xs[..|xs| - 1]), xs[|xs| - 1]);
    }
  }

  // ---------------------------------------------------------------------------
  // Buckets
  // ---------------------------------------------------------------------------

  lemma {:induction false} YearBucketBelow(ys: seq<YearGroup>, y: nat)
    requires forall i, j :: 0 <= i < j < |ys| ==> ys[i].year < ys[j].year
    requires ys != [] && y < ys[0].year
    ensures YearBucket(ys, y) == []
  {
    if |ys| > 1 {
      assert ys[0].year < ys[1].year;
      YearBucketBelow(ys[1..], y);
    }
  }

  lemma {:induction false} YearBucketInsert(ys: seq<YearGroup>, s: Student, y: nat)
    requires forall i, j :: 0 <= i < j < |ys| ==> ys[i].year < ys[j].year
    ensures YearBucket(InsertYear(ys, s), y) == YearBucket(ys, y) + (if s.year == y then [s] else [])
  {
    if ys == [] {
    } else if ys[0].year == s.year {
    } else if s.year < ys[0].year {
      if y == s.year {
        YearBucketBelow(ys, y);
      }
    } else {
      YearBucketInsert(ys[1..], s, y);
    }
  }

  lemma {:induction false} CourseBucketInsert(cs: seq<CourseGroup>, s: Student, k: string, y: nat)
    requires forall i :: 0 <= i < |cs| ==>
               forall a, b :: 0 <= a < b < |cs[i].years| ==> cs[i].years[a].year < cs[i].years[b].year
    ensures CourseBucket(InsertCourse(cs, s), k, y) == CourseBucket(cs, k, y) + (if s.course == k && s.year == y then [s] else [])
  {
    if cs == [] {
      YearBucketInsert([], s, y);
    } else if cs[0].course == s.course {
      if k == s.course {
        YearBucketInsert(cs[0].years, s, y);
      }
    } else {
      CourseBucketInsert(cs[1..], s, k, y);
    }
  }

  /** Adding a student adds it to its own bucket and to no other. */
  lemma {:induction false} BucketInsert(gs: seq<CategoryGroup>, s: Student, c: string, k: string, y: nat)
    requires WellGrouped(gs)
    ensures Bucket(InsertCategory(gs, s), c, k, y) == Bucket(gs, c, k, y) + (if InBucket(s, c, k, y) then [s] else [])
  {
    if gs == [] {
      CourseBucketInsert([], s, k, y);
    } else if gs[0].category == s.category {
      if c == s.category {
        CourseBucketInsert(gs[0].courses, s, k, y);
      }
    } else {
      BucketInsert(gs[1..], s, c, k, y);
    }
  }

  /** Each bucket holds exactly the students with its keys, in input order. */
  lemma {:induction false} GroupAllBuckets(xs: seq<Student>)
    ensures forall c, k, y :: Bucket(GroupAll(xs), c, k, y) == Filter(xs, s => InBucket(s, c, k, y))
  {
    if xs != [] {
      var p := xs[..|xs| - 1];
      var x := xs[|xs| - 1];
      GroupAllBuckets(p);
      GroupAllWellGrouped(p);
      assert xs == p + [x];
      forall c, k, y ensures Bucket(GroupAll(xs), c, k, y) == Filter(xs, s => InBucket(s, c, k, y)) {
        BucketInsert(GroupAll(p), x, c, k, y);
        FilterAppend(p, [x], s => InBucket(s, c, k, y));
      }
    }
  }

  // ---------------------------------------------------------------------------
  // Flattening
  // ---------------------------------------------------------------------------

  lemma {:induction false} FlattenYearsInsert(ys: seq<YearGroup>, s: Student)
    ensures multiset(FlattenYears(InsertYear(ys, s))) == multiset(FlattenYears(ys)) + multiset{s}
  {
    if ys == [] {
    } else if ys[0].year == s.year {
      var g := ys[0].(students := ys[0].students + [s]);
      assert InsertYear(ys, s)[1..] == ys[1..];
    } else if s.year < ys[0].year {
      assert InsertYear(ys, s)[1..] == ys;
    } else {
      FlattenYearsInsert(ys[1..], s);
      assert InsertYear(ys, s)[1..] == InsertYear(ys[1..], s);
    }
  }

  lemma {:induction false} FlattenCoursesInsert(cs: seq<CourseGroup>, s: Student)
    ensures multiset(FlattenCourses(InsertCourse(cs, s))) == multiset(FlattenCourses(cs)) + multiset{s}
  {
    if cs == [] {
      FlattenYearsInsert([], s);
    } else if cs[0].course == s.course {
      FlattenYearsInsert(cs[0].years, s);
      assert InsertCourse(cs, s)[1..] == cs[1..];
    } else {
      FlattenCoursesInsert(cs[1..], s);
      assert InsertCourse(cs, s)[1..] == InsertCourse(cs[1..], s);
    }
  }

  lemma {:induction false} FlattenInsert(gs: seq<CategoryGroup>, s: Student)
    ensures multiset(Flatten(InsertCategory(gs, s))) == multiset(Flatten(gs)) + multiset{s}
  {
    if gs == [] {
      FlattenCoursesInsert([], s);
    } else if gs[0].category == s.category {
      FlattenCoursesInsert(gs[0].courses, s);
      assert InsertCategory(gs, s)[1..] == gs[1..];
    } else {
      FlattenInsert(gs[1..], s);
      assert InsertCategory(gs, s)[1..] == InsertCategory(gs[1..], s);
    }
  }

  /** Flattening the groups gives back the same students, each as often as before. */
  lemma {:induction false} GroupAllFlatten(xs: seq<Student>)
    ensures multiset(Flatten(GroupAll(xs))) == multiset(xs)
  {
    if xs != [] {
      var p := xs[..|xs| - 1];
      var x := xs[|xs| - 1];
      GroupAllFlatten(p);
      FlattenInsert(GroupAll(p), x);
      assert GroupAll(xs) == InsertCategory(GroupAll(p), x);
      MultisetSnoc(xs);
    }
  }
}
