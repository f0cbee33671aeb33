# Tuition centre business rules

This project models the business rules of a tuition-centre management app (web pages and
React Native screens over a remote table store). Each screen contains a small layer of logic
between the rows it fetches and the values it shows or writes back:

- the fee status and totals;
- recording a payment;
- the installment plan;
- filtering, grouping and sorting the roster;
- attendance and performance aggregates;
- the dashboard reminders;
- the receipt's amount in words.

The rows a screen fetches, the store's replies, today's date and the month are parameters of the
model. Nothing here talks to a store.

Module layout, one module per screen or shared concern:

- `Wrappers`, `Seqs`, `Sorting`, `Strings`: option/result types, sequence folds and filters, a
  stable comparator sort (the JavaScript `sort` on a copy), and the string operations the screens
  use (`toLowerCase`, `includes`, `trim`, `split`/`join`, `padStart`, `slice`, `Number`).
- `Records`: the shared student row; `Slots`: writing one array slot of a copied array.
- `Receipt` (`numberToWords` on the Indian scale), `Fees` (the fee screen), `Enrolment` (the
  web add-student page), `EditStudent` (the edit modal), `Roster`, `Grouping` and `Attendance`
  (the attendance screen), `StudentsScreen`.
- `StudentAttendance`, `SubjectTally`, `AttendanceChart`, `StudentPerformance`, `FeeHistory`,
  `Dashboard`, `Reminders` (due dates, birthdays, today's exam), `Courses`, `Performance`,
  `Pagination`.

Conventions:

- Money and percentages are `real`. A missing number (`null`) is `None`, and "or 0" is `OrZero`.
- An absent id is 0, the value JavaScript treats as false.
- JavaScript `Math.round(x)` is `floor(x + 1/2)`. On a ratio of naturals it is the integer
  division `(200p + t) / (2t)`.
- Where a screen mutates an object (the attendance marks, the add-student form, the edit modal,
  the payment store), the model is a class whose methods state the new state.
- The two fee ledgers are kept apart on purpose. `Fees.ClassifyStatus` uses exact equality for
  Paid. `Enrolment.FeeUpdateOf` and `Enrolment.SaveUpdate` use `>=` and never produce Unpaid.
  `Enrolment.LedgersDisagreeOnOverpayment` proves that they disagree on an overpayment.

Two behaviours of the code are easy to misread:

- **Year keys.** The web page's grouping sorts year keys as numbers. The attendance screen sorts
  them as strings, but writes them back into a fresh object, and an object lists integer-like
  keys in ascending numeric order. In both screens the years therefore come out ascending.
  `Attendance.SortYears` never reorders them.
- **Id search.** The web page tests the id against the search term as typed. The attendance and
  students screens test it against the lower-cased term. `Roster.FilterRosterAsTypedAgrees`
  proves that the two give the same result, because an id's decimal form has no letters.

## Model

| member | source | states |
|---|---|---|
| Receipt.NumToWords | components/students/ReceiptModal.tsx:49-76 | the words are empty exactly for 0; it terminates for every natural, with each recursive call on a smaller argument |
| Receipt.NumberToWords | components/students/ReceiptModal.tsx:11-79 | 0 gives "Zero"; every result is non-empty with no leading, trailing or doubled spaces |
| Receipt.NumToWordsIsJoin | components/students/ReceiptModal.tsx:49-76 | the text is the words `Words(n)` joined by single spaces |
| Receipt.ScaledWords | components/students/ReceiptModal.tsx:59-75 | at or above 1000 the text is the quotient's words, the scale word, and the remainder's words only when the remainder is non-zero |
| Receipt.ScaleDivisor | components/students/ReceiptModal.tsx:59-75 | the scale divides by 1000, 100000 or 10000000 |
| Receipt.ScaleThresholds | components/students/ReceiptModal.tsx:59-75 | "Crore" appears only from 10^7, "Lakh" only from 10^5, "Thousand" only from 1000 |
| Receipt.NumToWordsWellSpaced | components/students/ReceiptModal.tsx:49-76 | for n >= 1 the text is non-empty and every space is single and inner |
| Receipt.WordsAreWords | components/students/ReceiptModal.tsx:49-58 | every word is non-empty and space-free; below 100 no scale word occurs |
| Receipt.NumberToWordsRoundTrip | components/students/ReceiptModal.tsx:11-79 | reading the words back with the Indian scale gives the number again |
| Receipt.NumberToWordsInjective | components/students/ReceiptModal.tsx:11-79 | different amounts never get the same words |
| Receipt.ExactMultiples | components/students/ReceiptModal.tsx:59-75 | every exact multiple of a thousand, lakh or crore (at its own scale) is written as its multiplier's words and the scale word, with no trailing part |
| Receipt.ReceiptAmountWords | components/students/ReceiptModal.tsx:140 | a null paid fee reads "Zero"; otherwise the words read back as the paid fee |
| Fees.ClassifyStatus | app/Fees.tsx:114-123 | Paid iff paid == total and paid != 0; Partial iff 0 < due < total; Unpaid in every other case, including nothing paid |
| Fees.StatusName | app/Fees.tsx:114 | the status is one of "Paid", "Partial", "Unpaid" |
| Fees.OverpaidIsUnpaid | app/Fees.tsx:115-123 | an overpaid student falls through to Unpaid |
| Fees.ZeroTotalIsUnpaid | app/Fees.tsx:115-116 | a total of 0 always classifies as Unpaid |
| Fees.SummaryRow | app/Fees.tsx:110-136 | a row carries the student's id, name, category and course, total and paid with null as 0, due = total - paid and the classified status |
| Fees.FeeSummary | app/Fees.tsx:110-137 | one row per student, in input order |
| Fees.FilterFeeSummary | app/Fees.tsx:146-155 | `filteredFeeSummary`: the rows matching the search and the status filter; stated by Fees.FilterFeeSummarySpec (kept iff matching, in order) and Fees.UnknownStatusKeepsNothing |
| Fees.TotalFees | app/Fees.tsx:157 | the sum of the total amounts of the filtered rows; related to the other two totals by Fees.TotalsBalance |
| Fees.TotalCollected | app/Fees.tsx:158 | the sum of the paid amounts of the filtered rows; related to the other two totals by Fees.TotalsBalance |
| Fees.TotalPending | app/Fees.tsx:159 | the sum of the due amounts of the filtered rows; stated by Fees.TotalsBalance as total fees minus collected |
| Fees.FilterFeeSummarySpec | app/Fees.tsx:146-155 | the filtered summary is an order-preserving subsequence; a row is kept iff it matches the search and the status filter is 'All' or its status |
| Fees.UnknownStatusKeepsNothing | app/Fees.tsx:152 | a status filter other than All/Paid/Partial/Unpaid keeps no row |
| Fees.TotalsBalance | app/Fees.tsx:157-159 | over any filtered list, pending == fees - collected |
| Fees.ValidatePayment | app/Fees.tsx:176-184 | rejects no selection with "Please select a student.", then a NaN or non-positive amount with "Please enter a valid payment amount."; otherwise accepts the amount |
| Fees.WithPayment | app/Fees.tsx:193-199 | the new paid fee is the old one (null as 0) plus the amount, the last payment is the payment date, and nothing else changes |
| Fees.PaymentMovesAmountToPaid | app/Fees.tsx:193-199 | after a payment the summary's paid rises and its due falls by the amount; the total stays |
| Fees.FeeStore.constructor | app/Fees.tsx:107-109 | the store holds the given students and payments |
| Fees.FeeStore.SubmitPayment | app/Fees.tsx:175-221 | a rejected form changes nothing; a failed read or update changes nothing; after the update the student has the payment; a successful insert appends one 'Paid' payment row with the form's amount, date, method and description |
| Enrolment.Clamp | pages/temp.tsx:232-234 | the installment count lies in [1, 24], below 1 becomes 1, above 24 becomes 24, in range it is kept |
| Enrolment.ClampIdempotent | pages/temp.tsx:241-243 | clamping twice is clamping once |
| Enrolment.EqualSplit | pages/temp.tsx:238 | exactly n amounts, each total / n |
| Enrolment.EqualSplitSum | pages/temp.tsx:238 | the equal shares add up to the total fee |
| Enrolment.ResizeDates | pages/temp.tsx:244-251 | the resized list has length count, keeps the existing prefix and pads with '' |
| Enrolment.EnrolmentForm.constructor | pages/temp.tsx:203-225 | the form holds the given student |
| Enrolment.EnrolmentForm.ChangeTotalFee | pages/temp.tsx:230-239 | sets the total fee and rebuilds the amounts as the equal split over the clamped count (null count as 1); nothing else changes |
| Enrolment.EnrolmentForm.ChangeInstallments | pages/temp.tsx:240-257 | stores the clamped count and the equal split of the total (null as 0); the installment dates are left unchanged because the resized list is never stored |
| Enrolment.EnrolmentForm.AddInstallment | pages/temp.tsx:1389-1395 | appends 0 to the amounts and '' to the dates and adds exactly 1 to the count, with no upper bound |
| Enrolment.EnrolmentForm.SetAmount | pages/temp.tsx:1411-1415 | only the amount slot at the index changes |
| Enrolment.EnrolmentForm.SetDate | pages/temp.tsx:1424-1428 | only the date slot at the index changes |
| Enrolment.EnrolmentForm.SaveInstallment | pages/temp.tsx:1437-1452 | the paid fee is set to itself with null as 0, and the update returned is SaveUpdate of the form before |
| Enrolment.SaveUpdate | pages/temp.tsx:1439-1452 | paid is the old paid plus the installment amounts; due + paid == total; Paid iff paid >= total, otherwise Partial, never Unpaid; the count, amounts and dates are written as they stand |
| Enrolment.PaidOrPartial | pages/temp.tsx:590-591 | "Paid" iff paid >= total, otherwise "Partial" |
| Enrolment.SaveAfterEqualSplitIsPaid | pages/temp.tsx:1439-1442 | saving an unchanged equal split of the total always yields Paid |
| Enrolment.FeeUpdateOf | pages/temp.tsx:587-594 | rejects an absent or non-positive amount; otherwise paid rises by the amount, due + paid == total, and the status is Paid iff paid >= total, never Unpaid |
| Enrolment.LedgersDisagreeOnOverpayment | pages/temp.tsx:590 | an overpayment is Paid for the web page but Unpaid for the fee screen's rule |
| Enrolment.PrepareInsert | pages/temp.tsx:533-557 | rejected with "Please fill in all required fields." iff name, category or course is empty; otherwise the row has the clamped count, that many equal shares summing to the total, and due = total - paid |
| EditStudent.YearInputOf | components/students/EditStudentModal.tsx:32-40 | '' stays blank; any other input becomes Number(value) |
| EditStudent.YearInputOfDecimal | components/students/EditStudentModal.tsx:32-40 | a typed year reads back as that year |
| EditStudent.ParseSubjects | components/students/EditStudentModal.tsx:43-46 | split at commas, trim each piece, drop the empty ones; stated by EditStudent.ParseSubjectsClean and EditStudent.ParseJoinedSubjects |
| EditStudent.ParseSubjectsClean | components/students/EditStudentModal.tsx:42-54 | every subject is non-empty, has no comma and no surrounding blanks, the subjects keep the order of the pieces, and a subject is kept iff it is a non-empty trimmed piece |
| EditStudent.ParseJoinedSubjects | components/students/EditStudentModal.tsx:42-54 | joining clean subjects with ", " and parsing again gives the same subjects |
| EditStudent.EditForm.constructor | components/students/EditStudentModal.tsx:20-31 | the form holds the given student |
| EditStudent.EditForm.ChangeSubjects | components/students/EditStudentModal.tsx:42-54 | stores the parsed subjects and nothing else |
| EditStudent.EditForm.ChangeInstallmentDate | components/students/EditStudentModal.tsx:56-68 | only the date slot at the index changes (absent as []) |
| EditStudent.EditForm.ChangeDueDate | components/students/EditStudentModal.tsx:70-82 | only the due-date slot at the index changes |
| EditStudent.EditForm.ChangeInstallmentAmount | components/students/EditStudentModal.tsx:84-93 | only the amount slot at the index changes |
| EditStudent.InputCountsAsWritten | components/students/EditStudentModal.tsx:240-277 | a zero or negative count fails to render (a bare 0, or a throw); a positive count gives that many inputs of each kind; a null count gives no date inputs but one amount input |
| EditStudent.MissingCountShowsOneAmount | components/students/EditStudentModal.tsx:240-277 | with a null count the amount inputs and date inputs differ in number; a count of 0 fails to render |
| EditStudent.InputCountsOf | components/students/EditStudentModal.tsx:240-277 | the three input counts are equal, installments when positive and 0 otherwise |
| EditStudent.InputCountsAgree | components/students/EditStudentModal.tsx:240-277 | the page as written agrees with the corrected counts exactly when the count is a positive number |
| Slots.WithSlot | components/students/EditStudentModal.tsx:56-68 | the copy has the grown length, the new value at the index, every other old slot unchanged and holes elsewhere |
| Slots.SetSlot | components/students/EditStudentModal.tsx:57-60 | copying the array and writing one slot gives WithSlot |
| Slots.WithSlotTwice | components/students/EditStudentModal.tsx:56-68 | a second write to the same slot replaces the first |
| Slots.WithSlotSame | components/students/EditStudentModal.tsx:56-68 | writing a slot's own value leaves the array as it was |
| Slots.WithSlotCommute | components/students/EditStudentModal.tsx:56-68 | writes to different slots commute |
| Records.Remaining | pages/temp.tsx:620-622 | the remaining fee plus the paid fee is the total, with nulls as 0 |
| Roster.CoursesFor | app/Attendance.tsx:71-90 | the course table of each category; 'All' and unknown categories get none |
| Roster.OnCategoryChange | app/Students.tsx:111-130 | choosing a category sets its course options and resets the course to 'All' and the year to 0 |
| Roster.CourseTablesDiffer | app/Students.tsx:55-61 | the two screens' tables differ only in Diploma, where the students screen adds 'Other' |
| Roster.FilterRoster | app/Attendance.tsx:134-153 | `filteredStudents`: the students matching the search and the three selections; stated by Roster.FilterRosterSpec and Roster.FilterRosterKeepsAll |
| Roster.FilterRosterAsTyped | pages/temp.tsx:422-439 | the web page's filter, testing the id against the term as typed; Roster.FilterRosterAsTypedAgrees proves it equal to Roster.FilterRoster |
| Roster.FilterRosterSpec | app/Attendance.tsx:134-153 | a student is listed iff the search and each selection or its sentinel match, in order and with multiplicity |
| Roster.FilterRosterKeepsAll | app/Students.tsx:160-178 | an empty search with all sentinels keeps every student |
| Roster.FilterRosterAsTypedAgrees | pages/temp.tsx:422-439 | testing the id with the term as typed gives the same list as with the lower-cased term |
| Roster.WithDue | app/Students.tsx:142-145 | each loaded row's due amount is recomputed as total - paid with nulls as 0, overriding the stored value |
| Roster.DueList | app/Students.tsx:149-151 | the recomputed rows whose due amount is set and positive; stated by Roster.DueListSpec |
| Roster.DueListSpec | app/Students.tsx:149-152 | the due list is exactly the recomputed rows whose due is > 0, in order |
| StudentsScreen.BlankForm | app/Students.tsx:236-260 | the reset form has empty texts, no numbers, 'Unpaid' status, empty arrays, and today's enrolment date |
| StudentsScreen.AddStudent | app/Students.tsx:223-265 | an empty name, course or category is rejected with no insert; otherwise the row is inserted and on success the form is reset |
| StudentsScreen.ResetFormIsRefused | app/Students.tsx:226-260 | submitting the reset form again is refused |
| Grouping.GroupAll | app/Attendance.tsx:155-164 | the grouping the loop builds, one student at a time; stated by Grouping.GroupAllWellGrouped, Grouping.GroupAllBuckets and Grouping.GroupAllFlatten, and computed by Grouping.GroupStudents |
| Grouping.GroupStudents | app/Attendance.tsx:155-164 | the grouped structure is well formed; each bucket holds exactly the filtered students with that category, course and year, in input order; flattening gives the same multiset |
| Grouping.GroupAllWellGrouped | pages/temp.tsx:995-1006 | categories and courses are listed once each, years ascend, no group is empty and each student sits under its own keys |
| Grouping.GroupAllBuckets | pages/temp.tsx:995-1006 | each bucket is the order-preserving filter of the students on its three keys |
| Grouping.GroupAllFlatten | app/Attendance.tsx:155-164 | flattening the groups gives back the same multiset of students |
| Attendance.RequestSort | app/Attendance.tsx:211-217 | descending iff the current setting is the same key ascending; the key is always the one clicked |
| Attendance.RequestSortFlips | app/Attendance.tsx:211-217 | clicking the same header twice in a row flips the direction and flips it back |
| Attendance.SortGroups | app/Attendance.tsx:168-209 | `sortedGroupedStudents`: the groups unchanged without a setting, otherwise categories, courses and names sorted by the key; stated by Attendance.SortGroupsBuckets, Attendance.SortGroupsOrdersCategories and Attendance.SortGroupsUnchanged |
| Attendance.SortCourses | app/Attendance.tsx:182-204 | one category's courses: sorted under key 'course', each with its years sorted; stated by Attendance.SortGroupsOrdersCourses and Attendance.SortCoursesUnchanged |
| Attendance.SortYears | app/Attendance.tsx:189-203 | one course's years, kept in their order, each with its names sorted; used by Attendance.SortGroupsBuckets |
| Attendance.SortNames | app/Attendance.tsx:197-202 | one bucket, sorted by name only under key 'name'; stated by Attendance.SortNamesSpec |
| Attendance.SortGroupsUnchanged | app/Attendance.tsx:169-203 | a 'year' or unused key leaves the groups as they were |
| Attendance.SortGroupsOrdersCategories | app/Attendance.tsx:173-178 | for any total, transitive collation, sorting by category orders the category groups by it in the chosen direction |
| Attendance.SortGroupsOrdersCourses | app/Attendance.tsx:182-187 | for any total, transitive collation, sorting by course orders every category's course groups by it in the chosen direction |
| Attendance.SortCoursesUnchanged | app/Attendance.tsx:182-187 | keys other than course and name leave the course level alone |
| Attendance.SortNamesSpec | app/Attendance.tsx:198-202 | each bucket stays a permutation of itself; with key 'name' and a total, transitive collation it is sorted by name in the chosen direction; any other key leaves it unchanged |
| Attendance.SortGroupsBuckets | app/Attendance.tsx:168-209 | under any collation, sorting never moves a student to another bucket; each bucket is its name-sorted original |
| Attendance.DirLeTotal | app/Attendance.tsx:175 | a total collation stays total in either direction |
| Attendance.CodeUnitOrderIsCollator | app/Attendance.tsx:175 | character-code order is a total, transitive collation, so the ordering lemmas apply to it |
| Attendance.DirLeTransitive | app/Attendance.tsx:175 | a transitive collation stays transitive in either direction |
| Attendance.Mark | app/Attendance.tsx:219-226 | map[s][d] = status, creating the student's entry, with every other (student, day) entry unchanged |
| Attendance.StatusOf | app/Attendance.tsx:400 | the switch shows the mark, or 'Absent' when it is missing or empty |
| Attendance.MarkThenStatus | app/Attendance.tsx:219-226 | reading the marked slot gives the status; every other slot reads as before |
| Attendance.MarksOfLatest | app/Attendance.tsx:118-123 | a slot holds the status of the last record written to it |
| Attendance.MarksOfUnmarked | app/Attendance.tsx:118-123 | a slot no record names reads as 'Absent' |
| Attendance.AttendanceSheet.constructor | app/Attendance.tsx:67-69 | the sheet starts with no marks and its month's day count |
| Attendance.AttendanceSheet.SetStatus | app/Attendance.tsx:219-226 | the marks become Mark of the old marks |
| Attendance.AttendanceSheet.Load | app/Attendance.tsx:118-123 | the marks are rebuilt from the month's records in order |
| Attendance.AttendanceSheet.SetStatusWithinMonth | app/Attendance.tsx:219-226 | marking a day the switches offer keeps every mark within the month |
| Attendance.AttendanceSheet.Summarize | app/Attendance.tsx:243-256 | the loop computes the category summary of the selected students |
| Attendance.SummaryStep | app/Attendance.tsx:246-253 | a student is counted into its category's entry, which is created at the end when new |
| Attendance.PresentDays | app/Attendance.tsx:251-252 | the number of days a student is marked exactly 'Present', 0 with no marks; stated by Attendance.SummaryEntry and Attendance.PresentDaysBound |
| Attendance.PresentDaysBound | app/Attendance.tsx:251-252 | while every mark lies in the month, a student is present on at most as many days as the month has |
| Attendance.SummaryEntry | app/Attendance.tsx:243-256 | a category has an entry iff it passes the selection and has students; the entry counts them and adds up their Present days |
| Attendance.SummaryDistinct | app/Attendance.tsx:243-256 | the summary lists each category once |
| Attendance.AverageAttendance | app/Attendance.tsx:461-463 | 0 when student count * days is 0, otherwise present / (count * days) * 100 |
| Attendance.AverageAtMostHundred | app/Attendance.tsx:461-463 | the average is at most 100 when present days do not exceed student-days |
| Attendance.SummaryAtMostHundred | app/Attendance.tsx:243-256 | while every mark lies in the month, no category's average exceeds 100 |
| StudentAttendance.FilterAttendance | components/students/StudentAttendance.tsx:44-48 | `filteredAttendance`; stated by StudentAttendance.FilterAttendanceSpec |
| StudentAttendance.FilterAttendanceSpec | components/students/StudentAttendance.tsx:44-48 | a record is kept iff its subject and month each equal the selection or 'All', in order |
| StudentAttendance.StatsOf | components/students/StudentAttendance.tsx:50-53 | present counts case-insensitive 'present' and is at most total; absent = total - present; the percentage is 0 without classes, otherwise present / total * 100, which lies in [0, 100] |
| StudentAttendance.SubjectBreakdown | components/students/StudentAttendance.tsx:57-78 | one entry per distinct subject key in first-seen order, each with that subject's present and total counts and percentage |
| StudentAttendance.BreakdownSpec | components/students/StudentAttendance.tsx:70-78 | each entry's percentage is 0 when its total is 0 and present / total * 100 otherwise |
| StudentAttendance.SubjectPicker | components/students/StudentAttendance.tsx:80 | 'All' first, then each distinct subject once in first-seen order |
| SubjectTally.SubjectKey | components/students/StudentAttendance.tsx:60 | a missing subject is counted as 'Unknown' |
| SubjectTally.TallyOf | components/students/StudentAttendance.tsx:57-68 | the per-subject counters; stated by SubjectTally.TallySubjects, TallyCounts, TallyNoDuplicates, TallyBounds and TallyTotals, and computed by SubjectTally.Tally |
| SubjectTally.Tally | components/students/StudentAttendance.tsx:57-68 | the loop computes the per-subject counters |
| SubjectTally.TallySubjects | components/students/StudentAttendance.tsx:57-68 | the subjects are the distinct subject keys in first-seen order |
| SubjectTally.TallyCounts | components/students/StudentAttendance.tsx:64-67 | each subject's total counts its records and present counts its present ones |
| SubjectTally.TallyNoDuplicates | components/students/StudentAttendance.tsx:61-63 | each subject has one entry |
| SubjectTally.TallyBounds | components/students/StudentAttendance.tsx:64-67 | every subject has present <= total and total >= 1 |
| SubjectTally.TallyTotals | components/students/StudentAttendance.tsx:57-68 | the per-subject totals sum to the number of records and the presents to the present count |
| SubjectTally.Percentage | components/students/StudentAttendance.tsx:71 | 0 for no classes, otherwise present / total * 100, within [0, 100] |
| SubjectTally.RoundedPercentage | components/dashboard/AttendanceChart.tsx:34-37 | Math.round of present / total * 100, at most 100 |
| AttendanceChart.ChartData | components/dashboard/AttendanceChart.tsx:21-37 | one item per distinct subject key in first-seen order, valued at the rounded percentage of its counts, within [0, 100] |
| StudentPerformance.FilterPerformance | components/students/StudentPerformance.tsx:40-42 | the results of the chosen exam type; stated by StudentPerformance.FilterPerformanceSpec |
| StudentPerformance.FilterPerformanceSpec | components/students/StudentPerformance.tsx:40-42 | 'All' keeps every result; otherwise a result is kept iff its exam name contains the type, in order |
| StudentPerformance.Round | components/students/StudentPerformance.tsx:46 | Math.round: r <= x + 1/2 < r + 1 |
| StudentPerformance.Highest | components/students/StudentPerformance.tsx:50-52 | 0 for none; otherwise the largest percentage |
| StudentPerformance.Lowest | components/students/StudentPerformance.tsx:54-56 | 0 for none; otherwise the smallest percentage |
| StudentPerformance.Average | components/students/StudentPerformance.tsx:45-47 | the rounded mean percentage, 0 for no results; stated by StudentPerformance.AverageBetween and StudentPerformance.AverageOfEqualScores |
| StudentPerformance.AverageBetween | components/students/StudentPerformance.tsx:45-56 | the average is 0 for none; otherwise lowest <= highest and the rounded mean lies between the rounded lowest and highest |
| StudentPerformance.AverageOfEqualScores | components/students/StudentPerformance.tsx:45-47 | the average of equal scores is that score rounded |
| StudentPerformance.Trend | components/students/StudentPerformance.tsx:62-64 | the filtered results sorted by date on a copy; stated by StudentPerformance.TrendSpec |
| StudentPerformance.TrendSpec | components/students/StudentPerformance.tsx:62-64 | the trend is a permutation of the filtered results sorted by date ascending |
| StudentPerformance.ScoreColour | components/students/StudentPerformance.tsx:150-151 | green iff >= 80, yellow iff 60 <= score < 80, red otherwise |
| StudentPerformance.ScoreColourMonotone | components/students/StudentPerformance.tsx:183-184 | a higher score never gets a worse band |
| StudentPerformance.AnalysisOf | components/students/StudentPerformance.tsx:207-213 | the three analysis bands in order: >= 80, >= 70, otherwise |
| FeeHistory.TotalAmount | components/students/StudentFeeHistory.tsx:34 | the sum of all payment amounts; with the next two, stated by FeeHistory.TotalDueSpec |
| FeeHistory.TotalPaid | components/students/StudentFeeHistory.tsx:35-37 | the sum of the amounts of the 'Paid' payments; stated by FeeHistory.TotalDueSpec |
| FeeHistory.TotalDue | components/students/StudentFeeHistory.tsx:38 | all amounts minus the paid ones; stated by FeeHistory.TotalDueSpec as the sum of the other payments |
| FeeHistory.TotalDueSpec | components/students/StudentFeeHistory.tsx:34-38 | due equals the sum of the non-'Paid' amounts, is >= 0 for non-negative amounts, and an empty history gives all totals 0 |
| FeeHistory.ShowPaymentForm | components/students/StudentFeeHistory.tsx:141 | the payment form is shown while the due total is positive; stated by FeeHistory.AllPaidHidesForm |
| FeeHistory.AllPaidHidesForm | components/students/StudentFeeHistory.tsx:141 | a history whose payments are all 'Paid' hides the payment form |
| FeeHistory.ReceiptNumber | components/students/StudentFeeHistory.tsx:112 | "R-" then digits; an id of 4 or more digits is unchanged, a shorter one pads to 4 |
| FeeHistory.ReceiptNumberRoundTrip | components/students/StudentFeeHistory.tsx:112 | the receipt number reads back as the id |
| FeeHistory.ReceiptNumberInjective | components/students/StudentFeeHistory.tsx:112 | different ids get different receipt numbers |
| Dashboard.AfterFetch | app/Dashboard.tsx:23-45 | an error sets the message and leaves both figures unset; no data sets both to 0; rows give their count and the fee collection |
| Dashboard.FeeCollection | app/Dashboard.tsx:34-37 | the sum of `total_fee || 0` over the rows; stated by Dashboard.FeeCollectionIsCharged and Dashboard.FeeCollectionIgnoresPaid |
| Dashboard.FeeCollectionIsCharged | app/Dashboard.tsx:34-38 | the fee collection is the total charged (paid plus remaining), not what was paid |
| Dashboard.FeeCollectionIgnoresPaid | app/Dashboard.tsx:34-38 | changing any paid fees leaves the fee collection as it was |
| Dashboard.EmptyRowsAreZero | app/Dashboard.tsx:33-42 | an empty reply shows the same figures as no data |
| Reminders.TodayFilter | components/dashboard/DueDateReminder.tsx:35 | a student's matching dates are non-empty iff today is among them, and all of them equal today |
| Reminders.DueToday | components/dashboard/DueDateReminder.tsx:33-41 | each student with a due date equal to today, with those dates; stated by Reminders.DueTodaySpec |
| Reminders.DueTodaySpec | components/dashboard/DueDateReminder.tsx:33-41 | the reminder lists, in order, exactly the students with a due date equal to today, each with only its matching dates |
| Reminders.ShowDueReminder | components/dashboard/DueDateReminder.tsx:43-58 | the reminder is shown when the due list is non-empty; stated by Reminders.ShowDueReminderSpec |
| Reminders.ShowDueReminderSpec | components/dashboard/DueDateReminder.tsx:43-58 | the reminder is shown iff some student has a due date equal to today |
| Reminders.MonthDay | components/dashboard/BirthdayReminder.tsx:20 | characters 5..10 of the ISO instant, its `MM-DD`, for any instant of at least 10 characters; used by Reminders.BirthdaysTodaySpec |
| Reminders.BirthdaysToday | components/dashboard/BirthdayReminder.tsx:33-36 | the students whose birthday's month and day are today's; stated by Reminders.BirthdaysTodaySpec and Reminders.YearIgnored |
| Reminders.BirthdaysTodaySpec | components/dashboard/BirthdayReminder.tsx:33-36 | a student is listed iff it has a birthday whose characters 5..10 equal today's, in order |
| Reminders.YearIgnored | components/dashboard/BirthdayReminder.tsx:35 | two birthdays with the same month-day match alike whatever their years |
| Reminders.IsoDateMatches | components/dashboard/BirthdayReminder.tsx:20 | a birthday with today's month-day is listed |
| Reminders.ShowBirthdayReminder | components/dashboard/BirthdayReminder.tsx:38-64 | the reminder is shown when the birthday list is non-empty; stated by Reminders.ShowBirthdayReminderSpec |
| Reminders.ShowBirthdayReminderSpec | components/dashboard/BirthdayReminder.tsx:31-64 | the reminder is shown iff some student has a birthday whose characters 5..10 equal today's |
| Reminders.ExamList | components/dashboard/UpcomingExams.tsx:29-30 | the exam list is the fetched rows, null as [] |
| Reminders.TodayExam | components/dashboard/UpcomingExams.tsx:33-35 | the first exam dated today, and none iff no exam is dated today |
| Reminders.TimeSuffixNeverMatches | components/dashboard/UpcomingExams.tsx:35 | a date with a time suffix never matches |
| Courses.FilterCourses | app/Courses.tsx:125-133 | `filteredCourses`; stated by Courses.FilterCoursesSpec and Courses.EmptySearchKeepsCategory |
| Courses.FilterCoursesSpec | app/Courses.tsx:125-133 | a course is kept iff its name matches case-insensitively or its id contains the search, and the category is 'All' or its own, in order |
| Courses.EmptySearchKeepsCategory | app/Courses.tsx:127-129 | an empty search keeps every course of the selected category |
| Courses.CategoryOf | app/Courses.tsx:141-142 | the category of the first catalogue course with that name, none iff there is no such course |
| Courses.FilterBatches | app/Courses.tsx:135-145 | `filteredBatches`, with the category looked up from the course; stated by Courses.FilterBatchesSpec and Courses.UnknownCourseOnlyUnderAll |
| Courses.FilterBatchesSpec | app/Courses.tsx:135-145 | a batch is kept iff its name, course or teacher matches and the category is 'All' or its course's, in order |
| Courses.UnknownCourseOnlyUnderAll | app/Courses.tsx:141-142 | a batch of a course missing from the catalogue is listed only under 'All' |
| Courses.CategoryAt | app/Courses.tsx:141-142 | the lookup returns the category of the first course with that name, wherever it sits |
| Courses.CatalogueCategories | app/Courses.tsx:12-111 | in the shipped catalogue, the four courses the batches name look up to their own categories |
| Courses.BatchesInCatalogue | app/Courses.tsx:12-145 | every shipped batch names a catalogue course, so with an empty search it is listed under that course's category and never only under 'All' |
| Performance.FilterPupils | app/Performance.tsx:23-28 | the students whose name or id matches the search; stated by Performance.FilterPupilsSpec |
| Performance.FilterPupilsSpec | app/Performance.tsx:22-28 | a student is kept iff its name matches case-insensitively or its id contains the search, in order; an empty search keeps all |
| Performance.SelectPupil | app/Performance.tsx:45 | the selected id is the id's non-empty decimal string |
| Performance.TapOpensDetail | app/Performance.tsx:56 | choosing a student always shows its detail view |
| Pagination.Pages | components/ui/Pagination.tsx:16 | the pages are 1 to totalPages, pages[i] = i + 1 |
| Pagination.PagesSpec | components/ui/Pagination.tsx:16 | the pages ascend and are exactly 1..totalPages |
| Pagination.Press | components/ui/Pagination.tsx:22-51 | the page each button hands to `onPageChange`, none while it is disabled; stated by Pagination.NavigationStaysInRange |
| Pagination.NavigationStaysInRange | components/ui/Pagination.tsx:22-51 | from a page in range, Previous is disabled exactly on page 1 and Next exactly on the last page; an enabled one requests the neighbouring page, a page button its own page, and every request is in range |
| Pagination.OneActivePage | components/ui/Pagination.tsx:44-51 | exactly one page is active when 1 <= currentPage <= totalPages, none otherwise |
| Strings.Lower | app/Fees.tsx:149 | `toLowerCase` on ASCII: same length, each upper-case letter lowered and every other character kept |
| Strings.Trim | components/students/EditStudentModal.tsx:45 | `trim`: a piece of the input with no white space at either end, and only white space cut away around it |
| Strings.Split | components/students/EditStudentModal.tsx:44 | `split` at one character: at least one piece, none containing the separator; Strings.JoinSplit and Strings.SplitJoin give the round trips with `join` |
| Strings.PadStart | components/students/StudentFeeHistory.tsx:112 | `padStart`: the input ends the result, which is the width or the input's length, whichever is larger, filled with the pad character in front |
| Strings.NumberOf | components/students/EditStudentModal.tsx:33 | `Number(value)`: '' is 0 and an unsigned numeral its value; `None` exactly for text that is not all digits |

## Left out

- Store calls, loading and error flags, alerts, links, the WhatsApp message request and the CSV export are left out. Fetched rows and store replies are parameters.
- React mechanics are left out: effect timing, state batching and stale closures. Each handler is one sequential step.
- The two-step payment write in app/Fees.tsx:187-212 is modelled as a sequential step. Its lost-update race between concurrent payments is not modelled.
- Floating point is left out: IEEE rounding, `toFixed(2)` on the attendance average, and `toLocaleString`. Money and percentages are exact reals.
- Number parsing is left out. Strings.NumberOf stands for `Number(value)` on the year inputs and the pupil id. It reads the empty string as 0 and unsigned decimal digits as their value. Its `None` covers all other text, whether `Number` gives NaN for it or converts it: a sign, surrounding blanks, a fraction, an exponent or hex.
- Fees.ValidatePayment takes the result of `parseFloat` as an optional number that is `None` for NaN.
- Enrolment.EnrolmentForm.ChangeTotalFee, Enrolment.EnrolmentForm.ChangeInstallments, Enrolment.EnrolmentForm.SetAmount and EditStudent.EditForm.ChangeInstallmentAmount take the number `Number(value)` gives as a plain `real` or `int`. Empty text is 0 there, as in `Number`. The NaN that non-numeric text gives is not modelled. Neither is what follows from it: a NaN count passes both clamps and then `Array(NaN)` throws (pages/temp.tsx:241-255).
- Enrolment.EnrolmentForm.ChangeInstallments: the count is an `int`, so a fractional count is not modelled either. `Number("2.5")` is 2.5, which passes both clamps; the date loop pads to 3 and `Array(2.5)` throws a RangeError (pages/temp.tsx:241-255). A fractional count makes `Array(n)` throw in the edit dialog too (components/students/EditStudentModal.tsx:277).
- Receipt.NumberToWords: defined on naturals only, because the source indexes its word arrays with undefined results for fractional or negative input.
- Dates and locales are left out. Today's date string, `toISOString` and the month name are parameters, and a record's day of the month is a field.
- Attendance.SortGroups, Attendance.SortNames and Attendance.DirLe take `localeCompare`'s collation as a parameter `coll`. The ordering lemmas assume only that it is total and transitive. The rules of any particular locale, such as its treatment of case and accents, are not modelled.
- The attendance screen's fetched students and records are parameters, for Attendance.AttendanceSheet.Load among others. As written, both placeholder fetches produce an empty list (app/Attendance.tsx:99, 117), so the screen always starts with no students and no marks. The model does not fix them to empty.
- Attendance.AttendanceSheet: `daysInMonth` is fixed when the screen opens and never recomputed. The model keeps that as a constant field.
- Attendance.AttendanceSheet.SetStatus: the handler copies only the outer map and writes into the shared inner map. The model is value-based and does not capture that aliasing.
- Enrolment.EnrolmentForm.AddInstallment, SaveInstallment: the fee dialog's form is the roster row itself, not a copy (pages/temp.tsx:576-577). Add Installment pushes into that row's own amount and date arrays, and Save Installment writes `paid_fee = 0` into it (pages/temp.tsx:1390-1393, 1438), so the roster row changes before anything is saved. EnrolmentForm holds a value, and the model does not capture that aliasing.
- Writing past the end of a JavaScript array leaves holes. The model fills them with a filler value: '' for dates and 0 for amounts.
- JavaScript objects list integer-like string keys first, in numeric order. Subject keys, category keys and course keys are modelled in insertion order, so an integer-like subject name would be listed differently.
- The subject tally is a plain object (components/students/StudentAttendance.tsx:57-70). A subject named after an inherited member such as `constructor` or `toString` finds that member, so no entry is created, the counts go onto the member, and the subject is never listed. The model's map starts empty and lists such a subject like any other.
- A record's `year` is a natural, so a record with a null year is not modelled.
- `toLowerCase` is modelled on ASCII letters and `trim` on ASCII blanks only. There is no Unicode case mapping.
- The fee-due reminder and the remote fee component are rendering or remote calls and are not part of this model. So are the recent-payments, stat-card, performance-widget, empty-state, spinner, error-boundary and protected-route components, and the services.

## Findings

| source | as written | input that shows it | evidently intended | confidence | as-written member | corrected member |
|---|---|---|---|---|---|---|
| components/students/EditStudentModal.tsx:240-277 | the date and due-date inputs are guarded by `installments && installments > 0`, but the amount inputs are rendered with `[...Array(installments)]` unguarded, and `Array(null)` has one element; for a count of 0 the guard itself evaluates to 0, which React Native refuses to render as a bare number | a student with `installments` null: no date inputs, one amount input; a count of 0 fails to render; a negative count throws | one date, one due-date and one amount input per installment, none when the count is missing or not positive | not executed | EditStudent.MissingCountShowsOneAmount | EditStudent.InputCountsAgree |
