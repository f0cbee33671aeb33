/**
 * The edit-student modal (components/students/EditStudentModal.tsx): the
 * enrolment-year inputs, the comma-separated subjects field, the one-slot
 * editors of the installment dates, due dates and amounts, and how many of
 * those inputs are rendered.
 */
module EditStudent {

  import opened Wrappers
  import opened Strings
  import opened Seqs
  import opened Records
  import opened Slots

  // ---------------------------------------------------------------------------
  // Enrolment years
  // ---------------------------------------------------------------------------

  /** `value === "" ? "" : Number(value)` */
  function YearInputOf(value: string): (r: YearInput)
    ensures r.Blank? <==> value == ""
    ensures r.Typed? ==> r.value == NumberOf(value)
  {
    if value == "" then Blank else Typed(NumberOf(value))
  }

  /** A year typed as its decimal numeral is read back as that year. */
  lemma YearInputOfDecimal(year: nat)
    ensures YearInputOf(DecimalString(year)) == Typed(Some(year))
  {
    NumberOfDecimal(year);
  }

  // ---------------------------------------------------------------------------
  // Subjects
  // ---------------------------------------------------------------------------

  predicate NonEmpty(s: string) { |s| > 0 }

  /** `value.split(",").map(s => s.trim()).filter(s => s.length > 0)` */
  function ParseSubjects(value: string): seq<string>
  {
    Filter(Map(Split(value, ','), Trim), NonEmpty)
  }

  /** A subject as the parser leaves it: non-empty, comma-free, no white space at either end. */
  predicate CleanSubject(s: string)
  {
    |s| > 0 && ',' !in s && !IsSpace(s[0]) && !IsSpace(s[|s| - 1])
  }

  lemma OccursAtKeepsOut(hay: string, needle: string, k: int, c: char)
    requires OccursAt(hay, needle, k) && c !in hay
    ensures c !in needle
  {
    assert forall i :: 0 <= i < |needle| ==> needle[i] == hay[k + i];
  }

  /**
   * Every parsed subject is clean, and the subjects are the trimmed pieces
   * between commas, in their order, with the empty ones dropped.
   */
  lemma ParseSubjectsClean(value: string)
    ensures forall i :: 0 <= i < |ParseSubjects(value)| ==> CleanSubject(ParseSubjects(value)[i])
    ensures IsSubsequence(ParseSubjects(value), Map(Split(value, ','), Trim))
    ensures forall s :: s in ParseSubjects(value) <==> s in Map(Split(value, ','), Trim) && s != ""
  {
    var trimmed := Map(Split(value, ','), Trim);
    ParsedAreClean(value);
    FilterMembership(trimmed, NonEmpty);
    FilterIsSubsequence(trimmed, NonEmpty);
  }

  lemma ParsedAreClean(value: string)
    ensures forall i :: 0 <= i < |ParseSubjects(value)| ==> CleanSubject(ParseSubjects(value)[i])
  {
    var pieces := Split(value, ',');
    var trimmed := Map(pieces, Trim);
    forall i | 0 <= i < |trimmed| ensures ',' !in trimmed[i] {
      TrimmedPieceNoComma(pieces, i);
    }
    FilterAllSatisfy(trimmed, NonEmpty);
    FilterMembership(trimmed, NonEmpty);
    var r := Filter(trimmed, NonEmpty);
    forall i | 0 <= i < |r| ensures CleanSubject(r[i]) {
      assert r[i] in trimmed;
    }
  }

  lemma TrimmedPieceNoComma(pieces: seq<string>, i: nat)
    requires i < |pieces| && ',' !in pieces[i]
    ensures ',' !in Map(pieces, Trim)[i]
  {
    var t := Map(pieces, Trim)[i];
    assert t == Trim(pieces[i]);
    var k :| OccursAt(pieces[i], t, k);
    OccursAtKeepsOut(pieces[i], t, k, ',');
  }

  /** Each piece after the first, with the blank that follows a ", " separator. */
  function Spaced(parts: seq<string>): (r: seq<string>)
    ensures |r| == |parts|
    ensures forall i :: 0 <= i < |parts| ==> r[i] == " " + parts[i]
  {
    if parts == [] then [] else [" " + parts[0]] + Spaced(parts[1..])
  }

  lemma JoinPrefixHead(c: string, b: string, rest: seq<string>, sep: string)
    ensures Join([c + b] + rest, sep) == c + Join([b] + rest, sep)
  {
    if rest != [] {
      assert ([c + b] + rest)[1..] == rest && ([b] + rest)[1..] == rest;
    }
  }

  /** Joining with ", " is joining with "," the pieces that, after the first, start with a blank. */
  lemma {:induction false} JoinCommaSpace(a: string, rest: seq<string>)
    ensures Join([a] + rest, ", ") == Join([a] + Spaced(rest), ",")
    decreases |rest|
  {
    if rest != [] {
      var b := rest[0];
      JoinCommaSpace(b, rest[1..]);
      assert ([a] + rest)[1..] == [b] + rest[1..];
      assert Spaced(rest) == [" " + b] + Spaced(rest[1..]);
      assert ([a] + Spaced(rest))[1..] == [" " + b] + Spaced(rest[1..]);
      JoinPrefixHead(" ", b, Spaced(rest[1..]), ",");
      assert Join([a] + rest, ", ") == a + ", " + Join([b] + rest[1..], ", ");
      assert Join([a] + Spaced(rest), ",") == a + "," + Join([" " + b] + Spaced(rest[1..]), ",");
    }
  }

  lemma TrimLeadingBlank(p: string)
    requires CleanSubject(p)
    ensures Trim(" " + p) == p
  {
    assert (" " + p)[1..] == p;
    assert TrimStart(" " + p) == TrimStart(p) == p;
    assert TrimEnd(p) == p;
  }

  /** Trimming the spaced pieces of clean subjects gives the subjects. */
  lemma TrimSpaced(rest: seq<string>)
    requires forall i :: 0 <= i < |rest| ==> CleanSubject(rest[i])
    ensures Map(Spaced(rest), Trim) == rest
  {
    var t := Map(Spaced(rest), Trim);
    forall i | 0 <= i < |rest| ensures t[i] == rest[i] {
      TrimLeadingBlank(rest[i]);
    }
  }

  lemma MapCons<T, U>(x: T, s: seq<T>, f: T -> U)
    ensures Map([x] + s, f) == [f(x)] + Map(s, f)
  {
    var a := Map([x] + s, f);
    var b := [f(x)] + Map(s, f);
    forall i | 0 <= i < |a| ensures a[i] == b[i] {
      if i > 0 {
        assert ([x] + s)[i] == s[i - 1];
      }
    }
  }

  /** Trimming the pieces of a ", " join gives the clean subjects back. */
  lemma TrimSpacedPieces(first: string, rest: seq<string>)
    requires CleanSubject(first)
    requires forall i :: 0 <= i < |rest| ==> CleanSubject(rest[i])
    ensures Map([first] + Spaced(rest), Trim) == [first] + rest
  {
    MapCons(first, Spaced(rest), Trim);
    TrimTrimmed(first);
    TrimSpaced(rest);
  }

  /** A ", " join is a "," join of the spaced pieces. */
  lemma JoinedPieces(subjects: seq<string>)
    requires subjects != []
    ensures Join(subjects, ", ") == Join([subjects[0]] + Spaced(subjects[1..]), [','])
  {
    assert [subjects[0]] + subjects[1..] == subjects;
    JoinCommaSpace(subjects[0], subjects[1..]);
  }

  /** The spaced pieces of clean subjects contain no comma, so splitting their join gives them back. */
  lemma SplitJoinedPieces(subjects: seq<string>)
    requires subjects != []
    requires forall i :: 0 <= i < |subjects| ==> CleanSubject(subjects[i])
    ensures Split(Join([subjects[0]] + Spaced(subjects[1..]), [',']), ',') == [subjects[0]] + Spaced(subjects[1..])
  {
    var parts := [subjects[0]] + Spaced(subjects[1..]);
    forall i | 0 <= i < |parts| ensures ',' !in parts[i] {
      if i > 0 {
        assert parts[i] == " " + subjects[i];
      }
    }
    SplitJoin(parts, ',');
  }

  /**
   * The field shows the subjects joined with ", "; typing that text back
   * gives exactly the same clean subjects.
   */
  lemma ParseJoinedSubjects(subjects: seq<string>)
    requires forall i :: 0 <= i < |subjects| ==> CleanSubject(subjects[i])
    ensures ParseSubjects(Join(subjects, ", ")) == subjects
  {
    if subjects == [] {
      EmptyFieldParsesEmpty();
    } else {
      PiecesTrimBack(subjects);
      FilterKeepsAll(subjects, NonEmpty);
    }
  }

  /** The trimmed pieces of a non-empty ", " join are the subjects. */
  lemma PiecesTrimBack(subjects: seq<string>)
    requires subjects != []
    requires forall i :: 0 <= i < |subjects| ==> CleanSubject(subjects[i])
    ensures Map(Split(Join(subjects, ", "), ','), Trim) == subjects
  {
    var first, rest := subjects[0], subjects[1..];
    JoinedPieces(subjects);
    SplitJoinedPieces(subjects);
    assert Split(Join(subjects, ", "), ',') == [first] + Spaced(rest);
    forall i | 0 <= i < |rest| ensures CleanSubject(rest[i]) {
      assert rest[i] == subjects[i + 1];
    }
    TrimSpacedPieces(first, rest);
    HeadTail(subjects);
  }

  /** An empty field gives no subjects. */
  lemma EmptyFieldParsesEmpty()
    ensures ParseSubjects("") == []
  {
    assert Split("", ',') == [[]];
    assert Map([[]], Trim) == [[]];
  }

  // ---------------------------------------------------------------------------
  // The modal's state
  // ---------------------------------------------------------------------------

  /** `editStudent`, the record the modal edits. */
  class EditForm {
    var student: Student

    constructor(s: Student)
      ensures student == s
    {
      student := s;
    }

    /** `handleSubjectsChange` */
    method ChangeSubjects(value: string)
      modifies this
      ensures student == old(student).(subjects := ParseSubjects(value))
    {
      student := student.(subjects := ParseSubjects(value));
    }

    /** `handleInstallmentDateChange`: one slot of a copy of the dates (absent is empty). */
    method ChangeInstallmentDate(index: nat, value: string)
      modifies this
      ensures student == old(student).(installmentDates := WithSlot(old(student).installmentDates, index, value, ""))
    {
      var dates := SetSlot(student.installmentDates, index, value, "");
      student := student.(installmentDates := dates);
    }

    /** `handleDueDateChange`: one slot of a copy of the due dates. */
    method ChangeDueDate(index: nat, value: string)
      modifies this
      ensures student == old(student).(dueDates := WithSlot(old(student).dueDates, index, value, ""))
    {
      var dates := SetSlot(student.dueDates, index, value, "");
      student := student.(dueDates := dates);
    }

    /** `handleInstallmentAmtChange`: one slot of a copy of the amounts, given as the parsed number. */
    method ChangeInstallmentAmount(index: nat, value: real)
      modifies this
      ensures student == old(student).(installmentAmt := WithSlot(old(student).installmentAmt, index, value, 0.0))
    {
      var amounts := SetSlot(student.installmentAmt, index, value, 0.0);
      student := student.(installmentAmt := amounts);
    }
  }

  // ---------------------------------------------------------------------------
  // How many inputs are rendered
  // ---------------------------------------------------------------------------

  /** How many installment-date, due-date and amount inputs the modal shows. */
  datatype InputCounts = InputCounts(dates: nat, dueDates: nat, amounts: nat)

  /**
   * As written: the two date sections are shown only for a positive count,
   * while the amount inputs come from `[...Array(installments)]`, which makes
   * one input for a missing count and throws for a negative one. A count of 0
   * makes the guard `installments && ...` evaluate to the number 0, which
   * React Native refuses to render outside a text element. Both failures are
   * `None`.
   */
  function InputCountsAsWritten(installments: Option<int>): (r: Option<InputCounts>)
    ensures r.None? <==> installments.Some? && installments.value <= 0
    ensures r.Some? ==> r.value.dates == r.value.dueDates
    ensures r.Some? && installments.Some? ==> r.value.amounts == r.value.dates == installments.value
    ensures installments.None? ==> r == Some(InputCounts(0, 0, 1))
  {
    match installments
    case None => Some(InputCounts(0, 0, 1))
    case Some(n) => if n <= 0 then None else Some(InputCounts(n, n, n))
  }

  /**
   * With no installment count, one amount input is shown but no date input;
   * with a count of 0 the modal does not render at all.
   */
  lemma MissingCountShowsOneAmount()
    ensures InputCountsAsWritten(None).value.amounts != InputCountsAsWritten(None).value.dates
    ensures InputCountsAsWritten(Some(0)).None?
  {
  }

  /**
   * The intended rendering: each section has one input per installment, and
   * none when the count is missing or not positive.
   */
  function InputCountsOf(installments: Option<int>): (r: InputCounts)
    ensures r.dates == r.dueDates == r.amounts
    ensures installments.Some? && installments.value > 0 ==> r.amounts == installments.value
    ensures installments.None? || installments.value <= 0 ==> r.amounts == 0
  {
    var n := if installments.Some? && installments.value > 0 then installments.value else 0;
    InputCounts(n, n, n)
  }

  /** The two agree exactly on the positive counts: a missing, zero or negative count is where they part. */
  lemma InputCountsAgree(installments: Option<int>)
    ensures InputCountsAsWritten(installments) == Some(InputCountsOf(installments)) <==>
              installments.Some? && installments.value > 0
  {
  }
}
