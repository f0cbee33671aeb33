/**
 * The course catalogue screen (app/Courses.tsx): the fixed catalogue of
 * courses and batches and the two searches over them.
 */
module Courses {

  import opened Wrappers
  import opened Strings
  import opened Seqs

  /** The fields of a catalogue course the screen filters on. */
  datatype Course = Course(id: nat, name: string, category: string)

  /** The fields of a batch the screen filters on. */
  datatype Batch = Batch(id: nat, name: string, course: string, teacher: string)

  const Catalogue: seq<Course> := [
    Course(1, "10th Science", "School (8-10th)"),
    Course(2, "9th Science", "School (8-10th)"),
    Course(3, "12th PCM", "Junior College (11-12th)"),
    Course(4, "11th PCB", "Junior College (11-12th)"),
    Course(5, "JEE Advanced", "JEE"),
    Course(6, "NEET Preparation", "NEET"),
    Course(7, "MHCET Engineering", "MHCET"),
    Course(8, "Diploma in Engineering", "Diploma"),
    Course(9, "B.Sc. Physics", "Degree")
  ]

  const Batches: seq<Batch> := [
    Batch(1, "Morning Batch - 10th Science", "10th Science", "Rajesh Kumar"),
    Batch(2, "Evening Batch - 10th Science", "10th Science", "Sneha Sharma"),
    Batch(3, "Morning Batch - JEE Advanced", "JEE Advanced", "Dr. Vijay Reddy"),
    Batch(4, "Weekend Batch - NEET", "NEET Preparation", "Dr. Arjun Singh"),
    Batch(5, "Evening Batch - 12th PCM", "12th PCM", "Dr. Mohan Singh")
  ]

  /** The course filter: the name contains the search ignoring case, or the id's digits contain the search as typed. */
  predicate CourseMatches(c: Course, search: string, category: string)
  {
    (Includes(Lower(c.name), Lower(search)) || Includes(DecimalString(c.id), search)) &&
    (category == "All" || c.category == category)
  }

  function CourseTest(search: string, category: string): Course -> bool
  {
    (c: Course) => CourseMatches(c, search, category)
  }

  /** `filteredCourses`, over any catalogue. */
  function FilterCourses(courses: seq<Course>, search: string, category: string): seq<Course>
  {
    Filter(courses, CourseTest(search, category))
  }

  lemma FilterCoursesSpec(courses: seq<Course>, search: string, category: string)
    ensures forall c :: c in FilterCourses(courses, search, category) <==> c in courses && CourseMatches(c, search, category)
    ensures IsSubsequence(FilterCourses(courses, search, category), courses)
  {
    FilterMembership(courses, CourseTest(search, category));
    FilterIsSubsequence(courses, CourseTest(search, category));
  }

  /** An empty search keeps every course of the selected category. */
  lemma EmptySearchKeepsCategory(courses: seq<Course>, category: string)
    ensures FilterCourses(courses, "", category) == Filter(courses, (c: Course) => category == "All" || c.category == category)
  {
    forall i | 0 <= i < |courses| ensures CourseTest("", category)(courses[i]) == (category == "All" || courses[i].category == category) {
      IncludesEmpty(Lower(courses[i].name));
    }
    FilterSameTest(courses, CourseTest("", category), (c: Course) => category == "All" || c.category == category);
  }

  function NamedAs(name: string): Course -> bool
  {
    (c: Course) => c.name == name
  }

  /** `MOCK_COURSES.find(course => course.name === batch.course)?.category` */
  function CategoryOf(courses: seq<Course>, courseName: string): (r: Option<string>)
    ensures r.None? <==> forall i :: 0 <= i < |courses| ==> courses[i].name != courseName
    ensures r.Some? ==> exists k :: FirstMatchAt(courses, NamedAs(courseName), k) && courses[k].category == r.value
  {
    var found := Find(courses, NamedAs(courseName));
    if found.Some? then Some(found.value.category) else None
  }

  /** The batch filter: name, course or teacher contains the search ignoring case, and the batch's course is of the category. */
  predicate BatchMatches(courses: seq<Course>, b: Batch, search: string, category: string)
  {
    var term := Lower(search);
    (Includes(Lower(b.name), term) || Includes(Lower(b.course), term) || Includes(Lower(b.teacher), term)) &&
    (category == "All" || CategoryOf(courses, b.course) == Some(category))
  }

  function BatchTest(courses: seq<Course>, search: string, category: string): Batch -> bool
  {
    (b: Batch) => BatchMatches(courses, b, search, category)
  }

  /** `filteredBatches`, over any catalogue and batch list. */
  function FilterBatches(courses: seq<Course>, batches: seq<Batch>, search: string, category: string): seq<Batch>
  {
    Filter(batches, BatchTest(courses, search, category))
  }

  lemma FilterBatchesSpec(courses: seq<Course>, batches: seq<Batch>, search: string, category: string)
    ensures forall b :: b in FilterBatches(courses, batches, search, category) <==> b in batches && BatchMatches(courses, b, search, category)
    ensures IsSubsequence(FilterBatches(courses, batches, search, category), batches)
  {
    FilterMembership(batches, BatchTest(courses, search, category));
    FilterIsSubsequence(batches, BatchTest(courses, search, category));
  }

  /** A batch whose course is not in the catalogue is shown only under 'All'. */
  lemma UnknownCourseOnlyUnderAll(courses: seq<Course>, b: Batch, search: string, category: string)
    requires forall i :: 0 <= i < |courses| ==> courses[i].name != b.course
    requires category != "All"
    ensures !BatchMatches(courses, b, search, category)
  {
  }

  /** The lookup finds the first course of that name. */
  lemma CategoryAt(courses: seq<Course>, name: string, k: nat)
    requires k < |courses| && courses[k].name == name
    requires forall j :: 0 <= j < k ==> courses[j].name != name
    ensures CategoryOf(courses, name) == Some(courses[k].category)
  {
    assert FirstMatchAt(courses, NamedAs(name), k);
  }

  /** In the shipped catalogue the batches of a course are filed under that course's category. */
  lemma CatalogueCategories()
    ensures CategoryOf(Catalogue, "10th Science") == Some("School (8-10th)")
    ensures CategoryOf(Catalogue, "JEE Advanced") == Some("JEE")
    ensures CategoryOf(Catalogue, "NEET Preparation") == Some("NEET")
    ensures CategoryOf(Catalogue, "12th PCM") == Some("Junior College (11-12th)")
  {
    TenthScienceCategory();
    JeeAdvancedCategory();
    NeetCategory();
    TwelfthPcmCategory();
  }

  lemma TenthScienceCategory()
    ensures CategoryOf(Catalogue, "10th Science") == Some("School (8-10th)")
  {
    CategoryAt(Catalogue, "10th Science", 0);
  }

  lemma JeeAdvancedCategory()
    ensures CategoryOf(Catalogue, "JEE Advanced") == Some("JEE")
  {
    CategoryAt(Catalogue, "JEE Advanced", 4);
  }

  lemma NeetCategory()
    ensures CategoryOf(Catalogue, "NEET Preparation") == Some("NEET")
  {
    CategoryAt(Catalogue, "NEET Preparation", 5);
  }

  lemma TwelfthPcmCategory()
    ensures CategoryOf(Catalogue, "12th PCM") == Some("Junior College (11-12th)")
  {
    CategoryAt(Catalogue, "12th PCM", 2);
  }

  /** A batch whose course is found is listed, with an empty search, under the course's category. */
  lemma BatchListed(courses: seq<Course>, b: Batch)
    requires CategoryOf(courses, b.course).Some?
    ensures BatchMatches(courses, b, "", CategoryOf(courses, b.course).value)
  {
    IncludesEmpty(Lower(b.name));
  }

  /**
   * Every shipped batch names a catalogue course, so with an empty search it
   * is listed under that course's category, not only under 'All'.
   */
  lemma BatchesInCatalogue()
    ensures forall i :: 0 <= i < |Batches| ==> CategoryOf(Catalogue, Batches[i].course).Some?
    ensures forall i :: 0 <= i < |Batches| ==>
              BatchMatches(Catalogue, Batches[i], "", CategoryOf(Catalogue, Batches[i].course).value)
  {
    forall i | 0 <= i < |Batches|
      ensures CategoryOf(Catalogue, Batches[i].course).Some?
      ensures BatchMatches(Catalogue, Batches[i], "", CategoryOf(Catalogue, Batches[i].course).value)
    {
      BatchCourseFound(i);
      BatchListed(Catalogue, Batches[i]);
    }
  }

  lemma BatchCourseFound(i: nat)
    requires i < |Batches|
    ensures CategoryOf(Catalogue, Batches[i].course).Some?
  {
    var course := Batches[i].course;
    if i < 2 {
      assert course == "10th Science";
      TenthScienceCategory();
    } else if i == 2 {
      assert course == "JEE Advanced";
      JeeAdvancedCategory();
    } else if i == 3 {
      assert course == "NEET Preparation";
      NeetCategory();
    } else {
      assert course == "12th PCM";
      TwelfthPcmCategory();
    }
  }
}
