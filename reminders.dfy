/**
 * The dashboard's reminders: students with an installment due today
 * (components/dashboard/DueDateReminder.tsx), students whose birthday is today
 * (components/dashboard/BirthdayReminder.tsx) and the exam scheduled today
 * (components/dashboard/UpcomingExams.tsx). Today is given as the text the
 * components compute: `YYYY-MM-DD`, or the full ISO instant for birthdays.
 */
module Reminders {

  import opened Wrappers
  import opened Strings
  import opened Seqs
  import opened Records

  // ---------------------------------------------------------------------------
  // Installments due today
  // ---------------------------------------------------------------------------

  /** A student with the due dates that fall today. */
  datatype DueEntry = DueEntry(student: Student, dueDates: seq<string>)

  function IsToday(today: string): string -> bool
  {
    d => d == today
  }

  /** The inner `map`: the student with today's due dates, or `null` for none. */
  function EntryOf(today: string): Student -> Option<DueEntry>
  {
    (s: Student) =>
      var dates := Filter(s.dueDates, IsToday(today));
      if |dates| > 0 then Some(DueEntry(s, dates)) else None
  }

  /** The `filter(item => item !== null)` */
  function Present<T>(xs: seq<Option<T>>): (r: seq<T>)
    ensures |r| <= |xs|
  {
    if xs == [] then [] else if xs[0].Some? then [xs[0].value] + Present(xs[1..]) else Present(xs[1..])
  }

  function EntryStudent(e: DueEntry): Student { e.student }

  /** `studentsDueToday` */
  function DueToday(students: seq<Student>, today: string): seq<DueEntry>
  {
    Present(Map(students, EntryOf(today)))
  }

  /** Whether a student has at least one due date equal to today. */
  predicate HasDueToday(today: string, s: Student)
  {
    today in s.dueDates
  }

  function DueTodayTest(today: string): Student -> bool
  {
    s => HasDueToday(today, s)
  }

  lemma TodayFilter(dates: seq<string>, today: string)
    ensures |Filter(dates, IsToday(today))| > 0 <==> today in dates
    ensures forall i :: 0 <= i < |Filter(dates, IsToday(today))| ==> Filter(dates, IsToday(today))[i] == today
  {
    FilterMembership(dates, IsToday(today));
    FilterAllSatisfy(dates, IsToday(today));
    if |Filter(dates, IsToday(today))| > 0 {
      assert Filter(dates, IsToday(today))[0] in Filter(dates, IsToday(today));
    }
  }

  /**
   * The reminder lists, in order, exactly the students with a due date equal
   * to today (a missing list has none), each with only those dates.
   */
  lemma {:induction false} DueTodaySpec(students: seq<Student>, today: string)
    ensures Map(DueToday(students, today), EntryStudent) == Filter(students, DueTodayTest(today))
    ensures forall i :: 0 <= i < |DueToday(students, today)| ==>
              var e := DueToday(students, today)[i];
              |e.dueDates| > 0 && e.dueDates == Filter(e.student.dueDates, IsToday(today)) &&
              forall j :: 0 <= j < |e.dueDates| ==> e.dueDates[j] == today
  {
    if students != [] {
      var s := students[0];
      DueTodaySpec(students[1..], today);
      TodayFilter(s.dueDates, today);
      var m := Map(students, EntryOf(today));
      assert m[1..] == Map(students[1..], EntryOf(today));
      var r := DueToday(students, today);
      var rest := DueToday(students[1..], today);
      if HasDueToday(today, s) {
        assert r == [DueEntry(s, Filter(s.dueDates, IsToday(today)))] + rest;
        forall i | 0 <= i < |r| ensures
          var e := r[i];
          |e.dueDates| > 0 && e.dueDates == Filter(e.student.dueDates, IsToday(today)) &&
          forall j :: 0 <= j < |e.dueDates| ==> e.dueDates[j] == today
        {
          if i > 0 {
            assert r[i] == rest[i - 1];
          }
        }
      } else {
        assert r == rest;
      }
    }
  }

  /** The reminder is shown when the list is not empty. */
  predicate ShowDueReminder(students: seq<Student>, today: string)
  {
    |DueToday(students, today)| > 0
  }

  lemma ShowDueReminderSpec(students: seq<Student>, today: string)
    ensures ShowDueReminder(students, today) <==> exists i :: 0 <= i < |students| && today in students[i].dueDates
  {
    DueTodaySpec(students, today);
    FilterMembership(students, DueTodayTest(today));
    var shown := Filter(students, DueTodayTest(today));
    assert |Map(DueToday(students, today), EntryStudent)| == |DueToday(students, today)|;
    if |shown| > 0 {
      assert shown[0] in shown;
    }
    if exists i :: 0 <= i < |students| && today in students[i].dueDates {
      var i :| 0 <= i < |students| && today in students[i].dueDates;
      assert students[i] in shown;
    }
  }

  // ---------------------------------------------------------------------------
  // Birthdays today
  // ---------------------------------------------------------------------------

  /** `today.toISOString().slice(5, 10)`: the `MM-DD` of the ISO instant. */
  function MonthDay(iso: string): (r: string)
    ensures |iso| >= 10 ==> r == iso[5..10]
    ensures |r| <= 5
  {
    Slice(iso, 5, 10)
  }

  /** The filter test: a birthday is set and its characters 5 to 10 are today's `MM-DD`. */
  function BornToday(monthDay: string): Student -> bool
  {
    (s: Student) => s.birthday != "" && Slice(s.birthday, 5, 10) == monthDay
  }

  function BirthdaysToday(students: seq<Student>, nowIso: string): seq<Student>
  {
    Filter(students, BornToday(MonthDay(nowIso)))
  }

  /**
   * A student is listed exactly when the birthday is set and its month and day
   * are today's, whatever its year; a missing birthday is never listed.
   */
  lemma BirthdaysTodaySpec(students: seq<Student>, nowIso: string)
    ensures forall s :: s in BirthdaysToday(students, nowIso) <==>
              s in students && s.birthday != "" && Slice(s.birthday, 5, 10) == Slice(nowIso, 5, 10)
    ensures IsSubsequence(BirthdaysToday(students, nowIso), students)
  {
    FilterMembership(students, BornToday(MonthDay(nowIso)));
    FilterIsSubsequence(students, BornToday(MonthDay(nowIso)));
  }

  /** Two birthdays with the same month and day are listed on the same days, whatever their years. */
  lemma YearIgnored(a: Student, b: Student, nowIso: string)
    requires |a.birthday| >= 10 && |b.birthday| >= 10
    requires a.birthday[5..10] == b.birthday[5..10]
    ensures BornToday(MonthDay(nowIso))(a) == BornToday(MonthDay(nowIso))(b)
  {
  }

  /** A born-today date written `YYYY-MM-DD` matches the ISO instant of that day. */
  lemma IsoDateMatches(s: Student, nowIso: string)
    requires |nowIso| >= 10 && |s.birthday| >= 10
    requires s.birthday[5..10] == nowIso[5..10]
    ensures s in BirthdaysToday([s], nowIso)
  {
    assert [s][1..] == [];
  }

  /** `showReminder`, set only when the filtered list is non-empty and checked again before rendering. */
  predicate ShowBirthdayReminder(students: seq<Student>, nowIso: string)
  {
    |BirthdaysToday(students, nowIso)| > 0
  }

  /** The birthday reminder is shown exactly when some student's month and day are today's. */
  lemma ShowBirthdayReminderSpec(students: seq<Student>, nowIso: string)
    ensures ShowBirthdayReminder(students, nowIso) <==>
              exists s :: s in students && s.birthday != "" && Slice(s.birthday, 5, 10) == Slice(nowIso, 5, 10)
  {
    var shown := BirthdaysToday(students, nowIso);
    BirthdaysTodaySpec(students, nowIso);
    if |shown| > 0 {
      assert shown[0] in shown;
    }
  }

  // ---------------------------------------------------------------------------
  // The exam today
  // ---------------------------------------------------------------------------

  datatype Exam = Exam(id: nat, name: string, date: string, course: string, category: string, year: Option<nat>)

  /** `data || []` */
  function ExamList(data: Option<seq<Exam>>): (r: seq<Exam>)
    ensures data.None? ==> r == []
    ensures data.Some? ==> r == data.value
  {
    OrElse(data, [])
  }

  function IsOn(today: string): Exam -> bool
  {
    (e: Exam) => e.date == today
  }

  /** `examsData.find(exam => exam.date === todayStr) || null` */
  function TodayExam(exams: seq<Exam>, today: string): (r: Option<Exam>)
    ensures r.None? <==> forall i :: 0 <= i < |exams| ==> exams[i].date != today
    ensures r.Some? ==> r.value.date == today
    ensures r.Some? ==> exists k :: 0 <= k < |exams| && exams[k] == r.value && forall j :: 0 <= j < k ==> exams[j].date != today
  {
    Find(exams, IsOn(today))
  }

  /** A date stored with a time after the day (`YYYY-MM-DDThh:mm`) never matches today's `YYYY-MM-DD`. */
  lemma TimeSuffixNeverMatches(exams: seq<Exam>, today: string)
    requires forall i :: 0 <= i < |exams| ==> |exams[i].date| > |today|
    ensures TodayExam(exams, today).None?
  {
  }
}
