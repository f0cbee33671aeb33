/**
 * The student picker of the performance screen (app/Performance.tsx): the
 * search over the fetched students and the choice of one student.
 */
module Performance {

  import opened Wrappers
  import opened Strings
  import opened Seqs

  /** The columns the screen fetches. */
  datatype Pupil = Pupil(id: nat, name: string, category: string, course: string)

  /** The name contains the search ignoring case, or the id's digits contain the search as typed. */
  predicate PupilMatches(p: Pupil, search: string)
  {
    Includes(Lower(p.name), Lower(search)) || Includes(DecimalString(p.id), search)
  }

  function PupilTest(search: string): Pupil -> bool
  {
    (p: Pupil) => PupilMatches(p, search)
  }

  /** `filteredStudents` */
  function FilterPupils(pupils: seq<Pupil>, search: string): seq<Pupil>
  {
    Filter(pupils, PupilTest(search))
  }

  lemma FilterPupilsSpec(pupils: seq<Pupil>, search: string)
    ensures forall p :: p in FilterPupils(pupils, search) <==> p in pupils && PupilMatches(p, search)
    ensures IsSubsequence(FilterPupils(pupils, search), pupils)
    ensures FilterPupils(pupils, "") == pupils
  {
    FilterMembership(pupils, PupilTest(search));
    FilterIsSubsequence(pupils, PupilTest(search));
    forall i | 0 <= i < |pupils| ensures PupilTest("")(pupils[i]) {
      IncludesEmpty(Lower(pupils[i].name));
    }
    FilterKeepsAll(pupils, PupilTest(""));
  }

  /** `item.id.toString()`: the selected id once a student is tapped. */
  function SelectPupil(p: Pupil): (selected: string)
    ensures selected != "" && AllDigits(selected)
    ensures NumberOf(selected) == Some(p.id)
  {
    NumberOfDecimal(p.id);
    DecimalString(p.id)
  }

  /** The detail view replaces the list when a student is selected. */
  predicate ShowsDetail(selectedId: string)
  {
    selectedId != ""
  }

  /** Tapping any student opens the detail view of that student. */
  lemma TapOpensDetail(p: Pupil)
    ensures ShowsDetail(SelectPupil(p))
  {
  }
}
