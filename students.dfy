/**
 * Adding a student on the mobile students screen (app/Students.tsx): the
 * required-field check and the form reset after a successful insert. The
 * screen's due recomputation, due list, filter and course table are those of
 * module Roster.
 */
module StudentsScreen {

  import opened Wrappers
  import opened Records

  /** The empty form the screen starts from and returns to; `today` and `now` are the current date and instant as text. */
  function BlankForm(today: string, now: string): (f: Student)
    ensures f.name == "" && f.category == "" && f.course == "" && f.email == "" && f.phone == ""
    ensures f.id == 0 && f.year == 0 && f.semester.None?
    ensures f.feeStatus == "Unpaid"
    ensures f.totalFee.None? && f.paidFee.None? && f.dueAmount.None? && f.installments.None?
    ensures f.installmentAmt == [] && f.installmentDates == [] && f.dueDates == [] && f.subjects == [] && f.enrollmentYear == []
    ensures f.enrollmentDate == today && f.createdAt == now
  {
    Student(0, "", "", "", "", "", 0, None, today, now, "Unpaid", None, None, None, "", "",
            None, [], [], [], [], [])
  }

  /** What a press of Add leaves behind: the row inserted, if any, the message shown, and the form. */
  datatype AddResult = AddResult(inserted: Option<Student>, error: Option<string>, form: Student)

  /**
   * `handleAddStudentSubmit`: a form missing its name, course or category is
   * refused before any insert; otherwise the form is inserted as it is, and
   * on success the form is reset. `insertError` is the store's reply.
   */
  function AddStudent(form: Student, insertError: Option<string>, today: string, now: string): (r: AddResult)
    ensures form.name == "" || form.course == "" || form.category == "" ==>
              r == AddResult(None, Some("Please fill in all required fields."), form)
    ensures form.name != "" && form.course != "" && form.category != "" ==>
              r.inserted == Some(form) &&
              r.error == insertError &&
              r.form == (if insertError.None? then BlankForm(today, now) else form)
  {
    if form.name == "" || form.course == "" || form.category == "" then
      AddResult(None, Some("Please fill in all required fields."), form)
    else if insertError.Some? then AddResult(Some(form), insertError, form)
    else AddResult(Some(form), None, BlankForm(today, now))
  }

  /** The reset form is itself refused, so pressing Add again inserts nothing. */
  lemma ResetFormIsRefused(form: Student, today: string, now: string, e: Option<string>)
    requires AddStudent(form, None, today, now).inserted.Some?
    ensures AddStudent(AddStudent(form, None, today, now).form, e, today, now).inserted.None?
  {
  }
}
