/**
 * The roster rules shared by the attendance and student screens: the course
 * options of a category, the search-and-sentinel filter, and the due
 * amounts recomputed on load.
 */
module Roster {

  import opened Wrappers
  import opened Strings
  import opened Seqs
  import opened Records

  // ---------------------------------------------------------------------------
  // Course options
  // ---------------------------------------------------------------------------

  const SchoolCourses: seq<string> := ["SSC", "CBSE", "ICSE", "Others"]
  const JuniorCollegeCourses: seq<string> := ["Science", "Commerce", "Arts"]
  /** The attendance screen's Diploma courses. */
  const AttendanceDiplomaCourses: seq<string> := ["Computer Science", "Mechanical", "Electrical", "Civil"]
  /** The student screens' Diploma courses, which add 'Other'. */
  const StudentsDiplomaCourses: seq<string> := AttendanceDiplomaCourses + ["Other"]
  const EntranceExamCourses: seq<string> := ["NEET", "JEE", "MHTCET", "Boards"]

  /** Which of the two course tables a screen uses. */
  datatype CourseTable = AttendanceTable | StudentsTable

  /** The `switch (selectedCategory)` that picks the course table; 'All' and unknown categories get none. */
  function CoursesFor(table: CourseTable, category: string): (r: seq<string>)
    ensures category == "School" ==> r == SchoolCourses
    ensures category == "Junior College" ==> r == JuniorCollegeCourses
    ensures category == "Diploma" ==> r == (if table == AttendanceTable then AttendanceDiplomaCourses else StudentsDiplomaCourses)
    ensures category == "Entrance Exams" ==> r == EntranceExamCourses
    ensures category !in {"School", "Junior College", "Diploma", "Entrance Exams"} ==> r == []
  {
    match category
    case "School" => SchoolCourses
    case "Junior College" => JuniorCollegeCourses
    case "Diploma" => if table == AttendanceTable then AttendanceDiplomaCourses else StudentsDiplomaCourses
    case "Entrance Exams" => EntranceExamCourses
    case _ => []
  }

  /** The picker state after choosing a category. */
  datatype Selection = Selection(courses: seq<string>, course: string, year: nat)

  /** The category effect: new course options, course back to 'All', year back to 0. */
  function OnCategoryChange(table: CourseTable, category: string): (r: Selection)
    ensures r.course == "All" && r.year == 0
    ensures r.courses == CoursesFor(table, category)
    ensures category == "All" ==> r.courses == []
  {
    Selection(CoursesFor(table, category), "All", 0)
  }

  /** The two tables differ only in the Diploma entry, where the student screens add 'Other'. */
  lemma CourseTablesDiffer(category: string)
    ensures category != "Diploma" ==> CoursesFor(AttendanceTable, category) == CoursesFor(StudentsTable, category)
    ensures CoursesFor(StudentsTable, "Diploma") == CoursesFor(AttendanceTable, "Diploma") + ["Other"]
  {
  }

  // ---------------------------------------------------------------------------
  // The roster filter
  // ---------------------------------------------------------------------------

  /** The filter settings; 'All' and 0 mean "any". */
  datatype RosterQuery = RosterQuery(search: string, category: string, course: string, year: nat)

  /**
   * The search: name or email contains the lower-cased term ignoring case, or
   * a non-zero id's decimal form contains it.
   */
  predicate MatchesSearch(s: Student, term: string)
  {
    var t := Lower(term);
    Includes(Lower(s.name), t) || (s.id != 0 && Includes(DecimalString(s.id), t)) || Includes(Lower(s.email), t)
  }

  predicate MatchesQuery(s: Student, q: RosterQuery)
  {
    MatchesSearch(s, q.search) &&
    (q.category == "All" || s.category == q.category) &&
    (q.course == "All" || s.course == q.course) &&
    (q.year == 0 || s.year == q.year)
  }

  /** The `filteredStudents` of the attendance and students screens. */
  function FilterRoster(students: seq<Student>, q: RosterQuery): seq<Student>
  {
    Filter(students, s => MatchesQuery(s, q))
  }

  /** A student is listed exactly when it matches the query; order and multiplicity are kept. */
  lemma FilterRosterSpec(students: seq<Student>, q: RosterQuery)
    ensures forall s :: s in FilterRoster(students, q) <==> s in students && MatchesQuery(s, q)
    ensures IsSubsequence(FilterRoster(students, q), students)
    ensures forall s :: multiset(FilterRoster(students, q))[s] == if MatchesQuery(s, q) then multiset(students)[s] else 0
  {
    FilterMembership(students, s => MatchesQuery(s, q));
    FilterIsSubsequence(students, s => MatchesQuery(s, q));
    FilterMultiset(students, s => MatchesQuery(s, q));
  }

  /** An empty search and the sentinels everywhere keep every student. */
  lemma FilterRosterKeepsAll(students: seq<Student>)
    ensures FilterRoster(students, RosterQuery("", "All", "All", 0)) == students
  {
    var q := RosterQuery("", "All", "All", 0);
    forall i | 0 <= i < |students| ensures MatchesQuery(students[i], q) {
      IncludesEmpty(Lower(students[i].name));
    }
    FilterKeepsAll(students, s => MatchesQuery(s, q));
  }

  /**
   * The same filter as written in the web page, which tests the id against the
   * search term as typed rather than lower-cased.
   */
  predicate MatchesQueryAsTyped(s: Student, q: RosterQuery)
  {
    var t := Lower(q.search);
    (Includes(Lower(s.name), t) || (s.id != 0 && Includes(DecimalString(s.id), q.search)) || Includes(Lower(s.email), t)) &&
    (q.category == "All" || s.category == q.category) &&
    (q.course == "All" || s.course == q.course) &&
    (q.year == 0 || s.year == q.year)
  }

  function FilterRosterAsTyped(students: seq<Student>, q: RosterQuery): seq<Student>
  {
    Filter(students, s => MatchesQueryAsTyped(s, q))
  }

  /** Lower-casing the term cannot change an id match, since ids are all digits: both filters agree. */
  lemma {:induction false} FilterRosterAsTypedAgrees(students: seq<Student>, q: RosterQuery)
    ensures FilterRosterAsTyped(students, q) == FilterRoster(students, q)
  {
    if students != [] {
      IncludesLowerOnDigits(DecimalString(students[0].id), q.search);
      FilterRosterAsTypedAgrees(students[1..], q);
    }
  }

  // ---------------------------------------------------------------------------
  // Due amounts on load
  // ---------------------------------------------------------------------------

  /** `fetchStudents`: every row gets `due_amount = (total or 0) - (paid or 0)`, overriding what was stored. */
  function WithDue(rows: seq<Student>): (r: seq<Student>)
    ensures |r| == |rows|
    ensures forall i :: 0 <= i < |rows| ==>
              r[i] == rows[i].(dueAmount := Some(Remaining(rows[i])))
  {
    Map(rows, (s: Student) => s.(dueAmount := Some(Remaining(s))))
  }

  /** `student.due_amount && student.due_amount > 0` */
  predicate HasDue(s: Student)
  {
    s.dueAmount.Some? && s.dueAmount.value > 0.0
  }

  /** The fee-due list: the recomputed students that still owe something, in order. */
  function DueList(rows: seq<Student>): seq<Student>
  {
    Filter(WithDue(rows), HasDue)
  }

  lemma DueListSpec(rows: seq<Student>)
    ensures forall s :: s in DueList(rows) <==> exists i :: 0 <= i < |rows| && s == WithDue(rows)[i] && Remaining(rows[i]) > 0.0
    ensures IsSubsequence(DueList(rows), WithDue(rows))
  {
    FilterMembership(WithDue(rows), HasDue);
    FilterIsSubsequence(WithDue(rows), HasDue);
  }
}
