/**
 Admissions of one tenant: registering an approved application admits a student into a
 class section, and the academic lifecycle promotes, graduates or archives the student.
 Beside them the students service creates and edits students, and staff edit the
 status of applications. Every operation runs in one transaction, so it is one step here;
 the section it fills stays locked meanwhile. Enrolments are kept in the order they were
 inserted.
 */
module Admissions {
  import opened Common
  import opened Text

  type ApplicationId = string
  type StudentId = string
  type SectionId = string

  datatype Application = Application(status: string, student: Option<StudentId>)

  datatype StudentStatus = Active | Inactive | Graduated | Transferred
  datatype Student = Student(admissionNumber: string, status: StudentStatus)

  /** Listed in the order of creation. */
  datatype Section = Section(
    id: SectionId, className: string, stream: string, year: string, capacity: Option<nat>, isActive: bool)

  datatype EnrollmentStatus = Enrolled | Completed | Withdrawn
  datatype Enrollment = Enrollment(
    student: StudentId, application: ApplicationId, section: Option<SectionId>, className: string, stream: string,
    year: string, status: EnrollmentStatus)

  datatype School = School(
    applications: map<ApplicationId, Application>,
    students: map<StudentId, Student>,
    sections: seq<Section>,
    rows: seq<Enrollment>)

  // ----- Sections -----

  /** Text order, character by character. */
  predicate YearBefore(a: string, b: string) {
    if b == "" then false
    else if a == "" then true
    else if a[0] != b[0] then a[0] < b[0]
    else YearBefore(a[1..], b[1..])
  }

  predicate SectionFits(s: Section, className: string, stream: string) {
    Lower(s.className) == Lower(className) && Lower(s.stream) == Lower(stream) && s.isActive
  }

  /** The fitting section of the latest year, the last created among those. */
  function FindSection(sections: seq<Section>, className: string, stream: string): (r: Option<Section>)
    ensures r.Some? ==> r.value in sections && SectionFits(r.value, className, stream)
    decreases |sections|
  {
    if sections == [] then None
    else
      var s := sections[|sections| - 1];
      var before := FindSection(sections[..|sections| - 1], className, stream);
      if SectionFits(s, className, stream) && (before.None? || !YearBefore(s.year, before.value.year)) then Some(s)
      else before
  }

  lemma {:induction false} YearBeforeIsTransitive(a: string, b: string, c: string)
    ensures YearBefore(a, b) && !YearBefore(c, b) ==> YearBefore(a, c)
    decreases |a|
  {
    if a != "" && b != "" && c != "" {
      YearBeforeIsTransitive(a[1..], b[1..], c[1..]);
    }
  }

  lemma {:induction false} YearBeforeIsAsymmetric(a: string, b: string)
    ensures !(YearBefore(a, b) && YearBefore(b, a))
    decreases |a|
  {
    if a != "" && b != "" {
      YearBeforeIsAsymmetric(a[1..], b[1..]);
    }
  }

  /** Nothing fitting is later, and a section is found whenever one fits. */
  lemma {:induction false} FindSectionIsNewest(sections: seq<Section>, className: string, stream: string, i: nat)
    requires i < |sections| && SectionFits(sections[i], className, stream)
    ensures var r := FindSection(sections, className, stream);
      r.Some? && !YearBefore(r.value.year, sections[i].year)
    decreases |sections|
  {
    var last := |sections| - 1;
    var before := FindSection(sections[..last], className, stream);
    if i < last {
      FindSectionIsNewest(sections[..last], className, stream, i);
      YearBeforeIsTransitive(sections[last].year, sections[i].year, before.value.year);
    } else {
      YearBeforeIsAsymmetric(sections[last].year, sections[last].year);
      if before.Some? {
        YearBeforeIsAsymmetric(sections[last].year, before.value.year);
      }
    }
  }

  // ----- Enrolments -----

  predicate IsActive(r: Enrollment) {
    r.status == Enrolled
  }

  predicate FillsSection(r: Enrollment, id: SectionId) {
    IsActive(r) && r.section == Some(id)
  }

  /** COUNT(*) of the active enrolments of a section. */
  function ActiveIn(rows: seq<Enrollment>, id: SectionId): nat {
    if rows == [] then 0
    else ActiveIn(rows[..|rows| - 1], id) + if FillsSection(rows[|rows| - 1], id) then 1 else 0
  }

  function ActiveTotal(rows: seq<Enrollment>): nat {
    if rows == [] then 0
    else ActiveTotal(rows[..|rows| - 1]) + if IsActive(rows[|rows| - 1]) then 1 else 0
  }

  ghost predicate HasActive(rows: seq<Enrollment>, student: StudentId) {
    exists i :: 0 <= i < |rows| && rows[i].student == student && IsActive(rows[i])
  }

  /** The student's active enrolment, the last inserted if there were several. */
  function LastActive(rows: seq<Enrollment>, student: StudentId): (r: Option<nat>)
    ensures r.Some? ==> r.value < |rows| && rows[r.value].student == student && IsActive(rows[r.value])
    ensures r.Some? <==> HasActive(rows, student)
  {
    if rows == [] then None
    else if rows[|rows| - 1].student == student && IsActive(rows[|rows| - 1]) then Some(|rows| - 1)
    else LastActive(rows[..|rows| - 1], student)
  }

  /** The row of a student and year; the table holds at most one. */
  function RowOf(rows: seq<Enrollment>, student: StudentId, year: string): (r: Option<nat>)
    ensures r.Some? ==> r.value < |rows| && rows[r.value].student == student && rows[r.value].year == year
    ensures r.None? ==> forall i :: 0 <= i < |rows| ==> rows[i].student != student || rows[i].year != year
  {
    if rows == [] then None
    else if rows[|rows| - 1].student == student && rows[|rows| - 1].year == year then Some(|rows| - 1)
    else RowOf(rows[..|rows| - 1], student, year)
  }

  /** INSERT ... ON CONFLICT (student, year) DO UPDATE. */
  function Upsert(rows: seq<Enrollment>, r: Enrollment): seq<Enrollment> {
    var at := RowOf(rows, r.student, r.year);
    if at.Some? then rows[at.value := r] else rows + [r]
  }

  function Close(rows: seq<Enrollment>, i: nat, status: EnrollmentStatus): seq<Enrollment>
    requires i < |rows|
  {
    rows[i := rows[i].(status := status)]
  }

  lemma {:induction false} CountsAfterUpdate(rows: seq<Enrollment>, i: nat, r: Enrollment, id: SectionId)
    requires i < |rows|
    ensures ActiveIn(rows[i := r], id) ==
            ActiveIn(rows, id) - (if FillsSection(rows[i], id) then 1 else 0) + if FillsSection(r, id) then 1 else 0
    ensures ActiveTotal(rows[i := r]) ==
            ActiveTotal(rows) - (if IsActive(rows[i]) then 1 else 0) + if IsActive(r) then 1 else 0
    decreases |rows|
  {
    var n := |rows| - 1;
    if i < n {
      CountsAfterUpdate(rows[..n], i, r, id);
      assert rows[i := r][..n] == rows[..n][i := r];
    } else {
      assert rows[i := r][..n] == rows[..n];
    }
  }

  lemma CountsAfterInsert(rows: seq<Enrollment>, r: Enrollment, id: SectionId)
    ensures ActiveIn(rows + [r], id) == ActiveIn(rows, id) + if FillsSection(r, id) then 1 else 0
    ensures ActiveTotal(rows + [r]) == ActiveTotal(rows) + if IsActive(r) then 1 else 0
  {
    assert (rows + [r])[..|rows|] == rows;
  }

  /** Without a section there is no limit; a capacity of 0 counts as none. */
  predicate AtCapacity(section: Option<Section>, rows: seq<Enrollment>) {
    && section.Some? && section.value.capacity.Some? && section.value.capacity.value != 0
    && ActiveIn(rows, section.value.id) >= section.value.capacity.value
  }

  function NewRow(student: StudentId, application: ApplicationId, section: Option<Section>,
                  className: string, stream: string, thisYear: string): Enrollment {
    Enrollment(student, application, if section.Some? then Some(section.value.id) else None, className, stream,
               if section.Some? then section.value.year else thisYear, Enrolled)
  }

  // ----- Students -----

  datatype Creation = Creation(
    id: StudentId, admissionNumber: string, status: Option<StudentStatus>, limitReached: bool)

  /** The fields given are overwritten, the others stay. */
  datatype StudentEdit = StudentEdit(
    id: StudentId, admissionNumber: Option<string>, status: Option<StudentStatus>, limitReached: bool)

  datatype StudentResult = Saved | StudentNotFound | LimitReached | NumberRefused

  /** Blank, or another student's: the table refuses it. */
  predicate NumberUnusable(students: map<StudentId, Student>, id: StudentId, number: string) {
    number == "" || exists s :: s in students && s != id && students[s].admissionNumber == number
  }

  function Created(students: map<StudentId, Student>, c: Creation): (StudentResult, map<StudentId, Student>) {
    var status := if c.status.Some? then c.status.value else Active;
    var number := Trim(c.admissionNumber);
    if status == Active && c.limitReached then (LimitReached, students)
    else if NumberUnusable(students, c.id, number) then (NumberRefused, students)
    else (Saved, students[c.id := Student(number, status)])
  }

  function Edited(students: map<StudentId, Student>, u: StudentEdit): (StudentResult, map<StudentId, Student>) {
    if u.id !in students then (StudentNotFound, students)
    else
      var was := students[u.id];
      var status := if u.status.Some? then u.status.value else was.status;
      var number := if u.admissionNumber.Some? then Trim(u.admissionNumber.value) else was.admissionNumber;
      if status == Active && was.status != Active && u.limitReached then (LimitReached, students)
      else if u.admissionNumber.Some? && NumberUnusable(students, u.id, number) then (NumberRefused, students)
      else (Saved, students[u.id := Student(number, status)])
  }

  // ----- Registration -----

  /** `newStudent` is the id drawn for the student; `limitReached` says that the plan's
      number of active students is used up. */
  datatype Registration = Registration(
    application: ApplicationId, admissionNumber: string, className: string, stream: string,
    newStudent: StudentId, limitReached: bool, thisYear: string)

  datatype RegisterResult =
    | Registered(student: StudentId) | AlreadyRegistered(student: StudentId)
    | ApplicationNotFound | NotApproved | RegistrationFull | StudentRefused | Blank

  const APPROVED := "approved"
  const REGISTERED := "registered"

  function CreationOf(q: Registration): Creation {
    Creation(q.newStudent, q.admissionNumber, Some(Active), q.limitReached)
  }

  /** The checks of a registration other than that of the application's status. */
  predicate PassesGuards(db: School, q: Registration) {
    && !AtCapacity(FindSection(db.sections, Trim(q.className), Trim(q.stream)), db.rows)
    && !q.limitReached && !NumberUnusable(db.students, q.newStudent, Trim(q.admissionNumber))
    && Trim(q.className) != "" && Trim(q.stream) != ""
  }

  function Register(db: School, q: Registration): (RegisterResult, School) {
    if q.application !in db.applications then (ApplicationNotFound, db)
    else
      var application := db.applications[q.application];
      var className, stream := Trim(q.className), Trim(q.stream);
      var section := FindSection(db.sections, className, stream);
      var (created, students) := Created(db.students, CreationOf(q));
      if application.status == REGISTERED && application.student.Some? then
        (AlreadyRegistered(application.student.value), db)
      else if application.status != APPROVED then (NotApproved, db)
      else if AtCapacity(section, db.rows) then (RegistrationFull, db)
      else if !created.Saved? then (StudentRefused, db)
      else if className == "" || stream == "" then (Blank, db)
      else
        (Registered(q.newStudent),
         db.(applications := db.applications[q.application := Application(REGISTERED, Some(q.newStudent))],
             students := students,
             rows := Upsert(db.rows, NewRow(q.newStudent, q.application, section, className, stream, q.thisYear))))
  }

  // ----- Lifecycle -----

  datatype Advance = Advance(
    student: StudentId, action: string, className: Option<string>, stream: Option<string>, thisYear: string)

  datatype AdvanceResult =
    | Promoted | Departed(status: StudentStatus)
    | UnknownAction | NoActiveEnrollment | NoTarget | PromotionFull | SameYear | StudentMissing

  const PROMOTION := "promotion"
  const GRADUATION := "graduation"
  const ARCHIVE := "archive"

  function TrimOrEmpty(s: Option<string>): string {
    if s.Some? then Trim(s.value) else ""
  }

  function Promote(db: School, q: Advance, at: nat): (r: (AdvanceResult, School))
    requires at < |db.rows|
    ensures r.1 == db.(rows := r.1.rows)
  {
    var className, stream := TrimOrEmpty(q.className), TrimOrEmpty(q.stream);
    var target := FindSection(db.sections, className, stream);
    if className == "" || stream == "" then (NoTarget, db)
    else if AtCapacity(target, db.rows) then (PromotionFull, db)
    else if target.Some? && target.value.year == db.rows[at].year then (SameYear, db)
    else
      (Promoted,
       db.(rows := Upsert(Close(db.rows, at, Completed),
                          NewRow(q.student, db.rows[at].application, target, className, stream, q.thisYear))))
  }

  function Depart(db: School, student: StudentId, at: nat, closing: EnrollmentStatus, status: StudentStatus):
    (AdvanceResult, School)
    requires at < |db.rows|
  {
    if student !in db.students then (StudentMissing, db)
    else
      (Departed(status),
       db.(rows := Close(db.rows, at, closing),
           students := db.students[student := db.students[student].(status := status)]))
  }

  function AdvanceStudent(db: School, q: Advance): (AdvanceResult, School) {
    var action := Trim(q.action);
    var at := LastActive(db.rows, q.student);
    if action != PROMOTION && action != GRADUATION && action != ARCHIVE then (UnknownAction, db)
    else if at.None? then (NoActiveEnrollment, db)
    else if action == PROMOTION then Promote(db, q, at.value)
    else if action == GRADUATION then Depart(db, q.student, at.value, Completed, Graduated)
    else Depart(db, q.student, at.value, Withdrawn, Inactive)
  }

  // ----- Runs -----

  datatype Event =
    | RegisterEvent(q: Registration)
    | AdvanceEvent(a: Advance)
    | SubmitEvent(id: ApplicationId)
    | EditStatus(edited: ApplicationId, status: string)
    | CreateStudentEvent(c: Creation)
    | EditStudentEvent(u: StudentEdit)

  function Next(db: School, e: Event): School {
    match e
    case RegisterEvent(q) => Register(db, q).1
    case AdvanceEvent(a) => AdvanceStudent(db, a).1
    case SubmitEvent(id) => db.(applications := db.applications[id := Application("pending", None)])
    case EditStatus(id, status) =>
      if id !in db.applications then db
      else db.(applications := db.applications[id := db.applications[id].(status := status)])
    case CreateStudentEvent(c) => db.(students := Created(db.students, c).1)
    case EditStudentEvent(u) => db.(students := Edited(db.students, u).1)
  }

  /** New ids are new. */
  predicate Allowed(db: School, e: Event) {
    && (e.RegisterEvent? ==> e.q.newStudent !in db.students)
    && (e.CreateStudentEvent? ==> e.c.id !in db.students)
    && (e.SubmitEvent? ==> e.id !in db.applications)
  }

  function Front(events: seq<Event>): seq<Event>
    requires events != []
  {
    events[..|events| - 1]
  }

  function Last(events: seq<Event>): Event
    requires events != []
  {
    events[|events| - 1]
  }

  predicate Run(db: School, events: seq<Event>)
    decreases |events|
  {
    events == [] || (Run(db, Front(events)) && Allowed(Final(db, Front(events)), Last(events)))
  }

  function Final(db: School, events: seq<Event>): School
    decreases |events|
  {
    if events == [] then db else Next(Final(db, Front(events)), Last(events))
  }

  // ----- Invariant -----

  ghost predicate SectionsDistinct(sections: seq<Section>) {
    forall i, j :: 0 <= i < j < |sections| ==> sections[i].id != sections[j].id
  }

  /** No section with a capacity holds more active enrolments than it admits. */
  ghost predicate WithinCapacity(db: School) {
    forall s :: s in db.sections && s.capacity.Some? && s.capacity.value != 0 ==>
      ActiveIn(db.rows, s.id) <= s.capacity.value
  }

  ghost predicate OneRowPerYear(rows: seq<Enrollment>) {
    forall i, j :: 0 <= i < j < |rows| && rows[i].student == rows[j].student ==> rows[i].year != rows[j].year
  }

  ghost predicate OneActive(rows: seq<Enrollment>) {
    forall i, j :: 0 <= i < j < |rows| && IsActive(rows[i]) && IsActive(rows[j]) ==> rows[i].student != rows[j].student
  }

  /** Every row is a known student's. */
  ghost predicate RowsKnown(db: School) {
    forall i :: 0 <= i < |db.rows| ==> db.rows[i].student in db.students
  }

  ghost predicate AdmittedKnown(db: School) {
    forall id :: id in db.applications && db.applications[id].student.Some? ==>
      db.applications[id].student.value in db.students
  }

  ghost predicate Inv(db: School) {
    SectionsDistinct(db.sections) && WithinCapacity(db) && OneRowPerYear(db.rows) && OneActive(db.rows)
    && RowsKnown(db) && AdmittedKnown(db)
  }

  // ----- Steps keep the invariant -----

  lemma UpsertKeepsRows(rows: seq<Enrollment>, r: Enrollment)
    requires OneRowPerYear(rows) && OneActive(rows) && IsActive(r) && !HasActive(rows, r.student)
    ensures var after := Upsert(rows, r);
      && OneRowPerYear(after) && OneActive(after)
      && (forall s :: HasActive(after, s) <==> s == r.student || HasActive(rows, s))
  {
    var after := Upsert(rows, r);
    var at := RowOf(rows, r.student, r.year);
    var k := if at.Some? then at.value else |rows|;
    assert after[k] == r && forall i :: 0 <= i < |rows| && i != k ==> after[i] == rows[i];
    forall s ensures HasActive(after, s) <==> s == r.student || HasActive(rows, s) {
      if s == r.student {
        assert after[k].student == s;
      } else if HasActive(rows, s) {
        var i :| 0 <= i < |rows| && rows[i].student == s && IsActive(rows[i]);
        assert after[i] == rows[i];
      }
    }
  }

  lemma CloseKeepsRows(rows: seq<Enrollment>, i: nat, status: EnrollmentStatus)
    requires i < |rows| && OneRowPerYear(rows) && OneActive(rows) && IsActive(rows[i]) && status != Enrolled
    ensures var after := Close(rows, i, status);
      && OneRowPerYear(after) && OneActive(after)
      && (forall s :: HasActive(after, s) <==> s != rows[i].student && HasActive(rows, s))
  {
    var after := Close(rows, i, status);
    forall s ensures HasActive(after, s) <==> s != rows[i].student && HasActive(rows, s) {
      if s != rows[i].student && HasActive(rows, s) {
        var j :| 0 <= j < |rows| && rows[j].student == s && IsActive(rows[j]);
        assert after[j] == rows[j];
      }
    }
  }

  /** An upsert adds at most one active enrolment, and only to the new row's section. */
  lemma UpsertCounts(rows: seq<Enrollment>, r: Enrollment, id: SectionId)
    ensures ActiveIn(Upsert(rows, r), id) <= ActiveIn(rows, id) + if FillsSection(r, id) then 1 else 0
  {
    var at := RowOf(rows, r.student, r.year);
    if at.Some? {
      CountsAfterUpdate(rows, at.value, r, id);
    } else {
      CountsAfterInsert(rows, r, id);
    }
  }

  lemma FillingKeepsCapacity(db: School, closed: seq<Enrollment>, r: Enrollment, section: Option<Section>)
    requires SectionsDistinct(db.sections) && WithinCapacity(db)
    requires forall id :: ActiveIn(closed, id) <= ActiveIn(db.rows, id)
    requires section.Some? ==> section.value in db.sections
    requires !AtCapacity(section, db.rows)
    requires r.section == if section.Some? then Some(section.value.id) else None
    ensures WithinCapacity(db.(rows := Upsert(closed, r)))
  {
    forall s | s in db.sections && s.capacity.Some? && s.capacity.value != 0
      ensures ActiveIn(Upsert(closed, r), s.id) <= s.capacity.value
    {
      UpsertCounts(closed, r, s.id);
      assert ActiveIn(closed, s.id) <= ActiveIn(db.rows, s.id);
      if r.section == Some(s.id) {
        assert section.value == s;
      }
    }
  }

  lemma CloseCounts(rows: seq<Enrollment>, i: nat, status: EnrollmentStatus)
    requires i < |rows| && IsActive(rows[i]) && status != Enrolled
    ensures forall id :: ActiveIn(Close(rows, i, status), id) <= ActiveIn(rows, id)
    ensures ActiveTotal(Close(rows, i, status)) == ActiveTotal(rows) - 1
  {
    forall id ensures ActiveIn(Close(rows, i, status), id) <= ActiveIn(rows, id) {
      CountsAfterUpdate(rows, i, rows[i].(status := status), id);
    }
    CountsAfterUpdate(rows, i, rows[i].(status := status), "");
  }

  lemma RowsKnownAfterUpsert(db: School, r: Enrollment, students: map<StudentId, Student>)
    requires RowsKnown(db) && db.students.Keys <= students.Keys && r.student in students
    ensures RowsKnown(db.(students := students, rows := Upsert(db.rows, r)))
  {
  }

  lemma AdmissionKeepsInv(db: School, r: Enrollment, student: Student, section: Option<Section>)
    requires Inv(db) && r.student !in db.students && IsActive(r)
    requires section.Some? ==> section.value in db.sections
    requires !AtCapacity(section, db.rows)
    requires r.section == if section.Some? then Some(section.value.id) else None
    ensures Inv(db.(students := db.students[r.student := student], rows := Upsert(db.rows, r)))
  {
    assert !HasActive(db.rows, r.student);
    UpsertKeepsRows(db.rows, r);
    FillingKeepsCapacity(db, db.rows, r, section);
    RowsKnownAfterUpsert(db, r, db.students[r.student := student]);
  }

  lemma RegisterKeepsInv(db: School, q: Registration)
    requires Inv(db) && q.newStudent !in db.students
    ensures Inv(Register(db, q).1)
  {
    if Register(db, q).0.Registered? {
      var section := FindSection(db.sections, Trim(q.className), Trim(q.stream));
      var r := NewRow(q.newStudent, q.application, section, Trim(q.className), Trim(q.stream), q.thisYear);
      AdmissionKeepsInv(db, r, Student(Trim(q.admissionNumber), Active), section);
    }
  }

  lemma MoveKeepsInv(db: School, at: nat, r: Enrollment, target: Option<Section>)
    requires Inv(db) && at < |db.rows| && IsActive(db.rows[at]) && db.rows[at].student == r.student && IsActive(r)
    requires target.Some? ==> target.value in db.sections
    requires !AtCapacity(target, db.rows)
    requires r.section == if target.Some? then Some(target.value.id) else None
    ensures Inv(db.(rows := Upsert(Close(db.rows, at, Completed), r)))
  {
    var closed := Close(db.rows, at, Completed);
    CloseKeepsRows(db.rows, at, Completed);
    CloseCounts(db.rows, at, Completed);
    UpsertKeepsRows(closed, r);
    FillingKeepsCapacity(db, closed, r, target);
    RowsKnownAfterUpsert(db.(rows := closed), r, db.students);
  }

  lemma PromoteKeepsInv(db: School, q: Advance, at: nat)
    requires Inv(db) && at < |db.rows| && IsActive(db.rows[at]) && db.rows[at].student == q.student
    ensures Inv(Promote(db, q, at).1)
  {
    if Promote(db, q, at).0.Promoted? {
      var className, stream := TrimOrEmpty(q.className), TrimOrEmpty(q.stream);
      var target := FindSection(db.sections, className, stream);
      MoveKeepsInv(
        db, at, NewRow(q.student, db.rows[at].application, target, className, stream, q.thisYear), target);
    }
  }

  lemma DepartKeepsInv(db: School, at: nat, closing: EnrollmentStatus, status: StudentStatus)
    requires Inv(db) && at < |db.rows| && IsActive(db.rows[at]) && closing != Enrolled && status != Active
    ensures Inv(Depart(db, db.rows[at].student, at, closing, status).1)
    ensures Depart(db, db.rows[at].student, at, closing, status).0 == Departed(status)
  {
    CloseKeepsRows(db.rows, at, closing);
    CloseCounts(db.rows, at, closing);
  }

  lemma AdvanceKeepsInv(db: School, a: Advance)
    requires Inv(db)
    ensures Inv(AdvanceStudent(db, a).1)
  {
    var at := LastActive(db.rows, a.student);
    if at.Some? {
      PromoteKeepsInv(db, a, at.value);
      DepartKeepsInv(db, at.value, Completed, Graduated);
      DepartKeepsInv(db, at.value, Withdrawn, Inactive);
    }
  }

  lemma StepKeepsInv(db: School, e: Event)
    requires Inv(db) && Allowed(db, e)
    ensures Inv(Next(db, e))
  {
    match e
    case RegisterEvent(q) => RegisterKeepsInv(db, q);
    case AdvanceEvent(a) => AdvanceKeepsInv(db, a);
    case SubmitEvent(id) =>
    case EditStatus(id, status) =>
    case CreateStudentEvent(c) =>
    case EditStudentEvent(u) =>
  }

  /** In every run, whatever the order of registrations, promotions, departures and edits of
      applications and students: no section is over its capacity, and a student has at most
      one active enrolment and one row a year. */
  lemma {:induction false} RunKeepsInv(db: School, events: seq<Event>)
    requires Inv(db) && Run(db, events)
    ensures Inv(Final(db, events))
    decreases |events|
  {
    if events != [] {
      RunKeepsInv(db, Front(events));
      StepKeepsInv(Final(db, Front(events)), Last(events));
    }
  }

  // ----- What each operation does -----

  /** The enrolment of the new student, in the section found if there is one. */
  function AdmittedRow(db: School, q: Registration): Enrollment {
    var className, stream := Trim(q.className), Trim(q.stream);
    NewRow(q.newStudent, q.application, FindSection(db.sections, className, stream), className, stream, q.thisYear)
  }

  lemma RegistrationAppends(db: School, q: Registration)
    requires RowsKnown(db) && q.newStudent !in db.students && Register(db, q).0.Registered?
    ensures Register(db, q).1.rows == db.rows + [AdmittedRow(db, q)]
  {
    var r := AdmittedRow(db, q);
    assert RowOf(db.rows, r.student, r.year).None?;
  }

  lemma RegistrationCountsOne(db: School, q: Registration, id: SectionId)
    requires RowsKnown(db) && q.newStudent !in db.students && Register(db, q).0.Registered?
    ensures var rows := Register(db, q).1.rows; var r := AdmittedRow(db, q);
      && HasActive(rows, q.newStudent)
      && ActiveTotal(rows) == ActiveTotal(db.rows) + 1
      && ActiveIn(rows, id) == ActiveIn(db.rows, id) + if r.section == Some(id) then 1 else 0
  {
    var r := AdmittedRow(db, q);
    RegistrationAppends(db, q);
    CountsAfterInsert(db.rows, r, id);
    assert (db.rows + [r])[|db.rows|] == r;
  }

  lemma RegistrationTouchesOne(db: School, q: Registration)
    requires q.newStudent !in db.students && Register(db, q).0.Registered?
    ensures var after := Register(db, q).1;
      && after.students == db.students[q.newStudent := Student(Trim(q.admissionNumber), Active)]
      && after.applications == db.applications[q.application := Application(REGISTERED, Some(q.newStudent))]
  {
  }

  /** A registration admits one new student: one more active enrolment, in the section
      found and nowhere else, and every other student, row and application as before. */
  lemma RegistrationAdmitsOne(db: School, q: Registration, id: SectionId)
    requires RowsKnown(db) && q.newStudent !in db.students && Register(db, q).0.Registered?
    ensures var after, r := Register(db, q).1, AdmittedRow(db, q);
      && after.rows == db.rows + [r] && HasActive(after.rows, q.newStudent)
      && after.students == db.students[q.newStudent := Student(Trim(q.admissionNumber), Active)]
      && after.applications == db.applications[q.application := Application(REGISTERED, Some(q.newStudent))]
      && ActiveTotal(after.rows) == ActiveTotal(db.rows) + 1
      && ActiveIn(after.rows, id) == ActiveIn(db.rows, id) + if r.section == Some(id) then 1 else 0
  {
    RegistrationCountsOne(db, q, id);
    RegistrationAppends(db, q);
    RegistrationTouchesOne(db, q);
  }

  /** Exact effect of an upsert of a student without an active enrolment. */
  lemma UpsertAddsOne(rows: seq<Enrollment>, r: Enrollment, id: SectionId)
    requires IsActive(r) && !HasActive(rows, r.student)
    ensures ActiveIn(Upsert(rows, r), id) == ActiveIn(rows, id) + if FillsSection(r, id) then 1 else 0
    ensures ActiveTotal(Upsert(rows, r)) == ActiveTotal(rows) + 1
  {
    var at := RowOf(rows, r.student, r.year);
    if at.Some? {
      assert !IsActive(rows[at.value]);
      CountsAfterUpdate(rows, at.value, r, id);
    } else {
      CountsAfterInsert(rows, r, id);
    }
  }

  /** A promotion moves one place: one out of the student's old section, one into the
      target, and the number of active enrolments stays the same. */
  lemma PromotionMovesOne(db: School, q: Advance, id: SectionId)
    requires Inv(db) && AdvanceStudent(db, q).0.Promoted?
    ensures var before := db.rows[LastActive(db.rows, q.student).value]; var after := AdvanceStudent(db, q).1;
      var target := FindSection(db.sections, TrimOrEmpty(q.className), TrimOrEmpty(q.stream));
      && after.students == db.students && after.applications == db.applications
      && HasActive(after.rows, q.student)
      && ActiveTotal(after.rows) == ActiveTotal(db.rows)
      && ActiveIn(after.rows, id) == ActiveIn(db.rows, id)
           - (if before.section == Some(id) then 1 else 0)
           + (if target.Some? && target.value.id == id then 1 else 0)
  {
    var at := LastActive(db.rows, q.student).value;
    var className, stream := TrimOrEmpty(q.className), TrimOrEmpty(q.stream);
    var target := FindSection(db.sections, className, stream);
    var r := NewRow(q.student, db.rows[at].application, target, className, stream, q.thisYear);
    var closed := Close(db.rows, at, Completed);
    CloseKeepsRows(db.rows, at, Completed);
    CountsAfterUpdate(db.rows, at, db.rows[at].(status := Completed), id);
    UpsertKeepsRows(closed, r);
    UpsertAddsOne(closed, r, id);
  }

  /** The old enrolment stays in the table as completed exactly when a section was found
      or the current year is not the old one; otherwise the new enrolment replaces it. */
  lemma PromotionKeepsHistoryIff(db: School, q: Advance)
    requires Inv(db) && AdvanceStudent(db, q).0.Promoted?
    ensures var at := LastActive(db.rows, q.student).value; var after := AdvanceStudent(db, q).1;
      db.rows[at].(status := Completed) in after.rows <==>
        || FindSection(db.sections, TrimOrEmpty(q.className), TrimOrEmpty(q.stream)).Some?
        || q.thisYear != db.rows[at].year
  {
    var at := LastActive(db.rows, q.student).value;
    var after := AdvanceStudent(db, q).1;
    var className, stream := TrimOrEmpty(q.className), TrimOrEmpty(q.stream);
    var target := FindSection(db.sections, className, stream);
    var r := NewRow(q.student, db.rows[at].application, target, className, stream, q.thisYear);
    var closed := Close(db.rows, at, Completed);
    CloseKeepsRows(db.rows, at, Completed);
    UpsertKeepsRows(closed, r);
    assert closed[at].student == q.student && closed[at].year == db.rows[at].year;
    var k := RowOf(closed, r.student, r.year);
    if r.year == db.rows[at].year {
      assert k == Some(at);
      assert after.rows[at] == r;
    } else {
      assert after.rows[at] == closed[at];
    }
  }

  // ----- Conservation -----

  function Gain(db: School, e: Event): int {
    match e
    case RegisterEvent(q) => if Register(db, q).0.Registered? then 1 else 0
    case AdvanceEvent(a) => if AdvanceStudent(db, a).0.Departed? then -1 else 0
    case _ => 0
  }

  /** Registrations less graduations and archivings. */
  function NetAdmissions(db: School, events: seq<Event>): int
    decreases |events|
  {
    if events == [] then 0 else NetAdmissions(db, Front(events)) + Gain(Final(db, Front(events)), Last(events))
  }

  lemma DepartureConserves(db: School, a: Advance)
    requires Inv(db) && AdvanceStudent(db, a).0.Departed?
    ensures ActiveTotal(AdvanceStudent(db, a).1.rows) == ActiveTotal(db.rows) - 1
  {
    var at := LastActive(db.rows, a.student).value;
    CloseCounts(db.rows, at, Completed);
    CloseCounts(db.rows, at, Withdrawn);
  }

  lemma StepConserves(db: School, e: Event)
    requires Inv(db) && Allowed(db, e)
    ensures ActiveTotal(Next(db, e).rows) == ActiveTotal(db.rows) + Gain(db, e)
  {
    if e.RegisterEvent? && Register(db, e.q).0.Registered? {
      RegistrationAdmitsOne(db, e.q, "");
    } else if e.AdvanceEvent? && AdvanceStudent(db, e.a).0.Promoted? {
      PromotionMovesOne(db, e.a, "");
    } else if e.AdvanceEvent? && AdvanceStudent(db, e.a).0.Departed? {
      DepartureConserves(db, e.a);
    }
  }

  lemma {:induction false} RunConserves(db: School, events: seq<Event>)
    requires Inv(db) && Run(db, events)
    ensures ActiveTotal(Final(db, events).rows) == ActiveTotal(db.rows) + NetAdmissions(db, events)
    decreases |events|
  {
    if events != [] {
      RunConserves(db, Front(events));
      RunKeepsInv(db, Front(events));
      StepConserves(Final(db, Front(events)), Last(events));
    }
  }

  // ----- Final states -----

  ghost predicate IsRegistered(db: School, id: ApplicationId) {
    id in db.applications && db.applications[id].status == REGISTERED && db.applications[id].student.Some?
  }

  lemma DepartKeepsTheRest(db: School, student: StudentId, at: nat, closing: EnrollmentStatus, status: StudentStatus)
    requires at < |db.rows|
    ensures var after := Depart(db, student, at, closing, status).1;
      && after.applications == db.applications && after.sections == db.sections
      && after.students.Keys == db.students.Keys
      && forall s :: s in db.students && s != student ==> after.students[s] == db.students[s]
  {
  }

  lemma AdvanceKeepsTheRest(db: School, a: Advance, s: StudentId)
    requires Inv(db)
    ensures var (result, after) := AdvanceStudent(db, a);
      && after.applications == db.applications && after.sections == db.sections
      && after.students.Keys == db.students.Keys
      && (s in db.students && (result.Departed? ==> s != a.student) ==> after.students[s] == db.students[s])
  {
    var at := LastActive(db.rows, a.student);
    if at.Some? {
      assert Promote(db, a, at.value).1.students == db.students;
      DepartKeepsTheRest(db, a.student, at.value, Completed, Graduated);
      DepartKeepsTheRest(db, a.student, at.value, Withdrawn, Inactive);
    }
  }

  lemma RegisterKeepsStudents(db: School, q: Registration, s: StudentId)
    requires q.newStudent !in db.students && s in db.students
    ensures s in Register(db, q).1.students && Register(db, q).1.students[s] == db.students[s]
  {
  }

  lemma PromotionEnrolsOnly(db: School, a: Advance, s: StudentId)
    requires Inv(db) && AdvanceStudent(db, a).0.Promoted?
    ensures HasActive(AdvanceStudent(db, a).1.rows, s) <==> HasActive(db.rows, s)
  {
    var at := LastActive(db.rows, a.student).value;
    var className, stream := TrimOrEmpty(a.className), TrimOrEmpty(a.stream);
    var target := FindSection(db.sections, className, stream);
    CloseKeepsRows(db.rows, at, Completed);
    UpsertKeepsRows(Close(db.rows, at, Completed),
                    NewRow(a.student, db.rows[at].application, target, className, stream, a.thisYear));
  }

  lemma DepartureEndsOnly(db: School, a: Advance, s: StudentId)
    requires Inv(db) && AdvanceStudent(db, a).0.Departed?
    ensures HasActive(AdvanceStudent(db, a).1.rows, s) <==> s != a.student && HasActive(db.rows, s)
  {
    var at := LastActive(db.rows, a.student).value;
    CloseKeepsRows(db.rows, at, Completed);
    CloseKeepsRows(db.rows, at, Withdrawn);
  }

  lemma RegistrationEnrolsOnly(db: School, q: Registration, s: StudentId)
    requires Inv(db) && q.newStudent !in db.students && Register(db, q).0.Registered?
    ensures HasActive(Register(db, q).1.rows, s) <==> s == q.newStudent || HasActive(db.rows, s)
  {
    assert !HasActive(db.rows, q.newStudent);
    UpsertKeepsRows(db.rows, AdmittedRow(db, q));
  }

  lemma StepKeepsUnenrolled(db: School, e: Event, s: StudentId)
    requires Inv(db) && Allowed(db, e) && s in db.students && !HasActive(db.rows, s)
    ensures !HasActive(Next(db, e).rows, s)
  {
    if e.RegisterEvent? && Register(db, e.q).0.Registered? {
      RegistrationEnrolsOnly(db, e.q, s);
    } else if e.AdvanceEvent? && AdvanceStudent(db, e.a).0.Promoted? {
      PromotionEnrolsOnly(db, e.a, s);
    } else if e.AdvanceEvent? && AdvanceStudent(db, e.a).0.Departed? {
      DepartureEndsOnly(db, e.a, s);
    }
  }

  /** A student without an active enrolment never has one again, whatever is edited: only a
      registration enrols, and it enrols a new student. */
  lemma {:induction false} NeverEnrolledAgain(db: School, events: seq<Event>, s: StudentId)
    requires Inv(db) && Run(db, events) && s in db.students && !HasActive(db.rows, s)
    ensures s in Final(db, events).students && !HasActive(Final(db, events).rows, s)
    decreases |events|
  {
    if events != [] {
      var before := Final(db, Front(events));
      NeverEnrolledAgain(db, Front(events), s);
      RunKeepsInv(db, Front(events));
      StepKeepsUnenrolled(before, Last(events), s);
      StepKeepsStatus(before, Last(events), s);
    }
  }

  /** The edit of `s` that sets its status, if `e` is one and is accepted. */
  function StatusSet(db: School, e: Event, s: StudentId): Option<StudentStatus> {
    if e.EditStudentEvent? && e.u.id == s && Edited(db.students, e.u).0.Saved? then e.u.status else None
  }

  /** The status the last accepted edit of `s` gave it. */
  function LastStatusSet(db: School, events: seq<Event>, s: StudentId): Option<StudentStatus>
    decreases |events|
  {
    if events == [] then None
    else
      var status := StatusSet(Final(db, Front(events)), Last(events), s);
      if status.Some? then status else LastStatusSet(db, Front(events), s)
  }

  lemma StepKeepsStatus(db: School, e: Event, s: StudentId)
    requires Inv(db) && Allowed(db, e) && s in db.students && !HasActive(db.rows, s)
    ensures s in Next(db, e).students
    ensures Next(db, e).students[s].status ==
            if StatusSet(db, e, s).Some? then StatusSet(db, e, s).value else db.students[s].status
  {
    match e
    case RegisterEvent(q) => RegisterKeepsStudents(db, q, s);
    case AdvanceEvent(a) => AdvanceKeepsTheRest(db, a, s);
    case SubmitEvent(_) =>
    case EditStatus(_, _) =>
    case CreateStudentEvent(c) =>
    case EditStudentEvent(u) =>
  }

  lemma {:induction false} StatusFollowsEdits(db: School, events: seq<Event>, s: StudentId)
    requires Inv(db) && Run(db, events) && s in db.students && !HasActive(db.rows, s)
    ensures s in Final(db, events).students
    ensures Final(db, events).students[s].status ==
            if LastStatusSet(db, events, s).Some? then LastStatusSet(db, events, s).value else db.students[s].status
    decreases |events|
  {
    if events != [] {
      StatusFollowsEdits(db, Front(events), s);
      NeverEnrolledAgain(db, Front(events), s);
      RunKeepsInv(db, Front(events));
      StepKeepsStatus(Final(db, Front(events)), Last(events), s);
    }
  }

  /** A student who graduated or was archived is active again exactly when the last accepted
      edit of the student's status since then says active, and is not enrolled even so. */
  lemma {:induction false} DepartureIsFinal(db: School, events: seq<Event>, s: StudentId)
    requires Inv(db) && Run(db, events) && s in db.students
    requires db.students[s].status != Active && !HasActive(db.rows, s)
    ensures var after := Final(db, events);
      && s in after.students && !HasActive(after.rows, s)
      && (after.students[s].status == Active <==> LastStatusSet(db, events, s) == Some(Active))
  {
    NeverEnrolledAgain(db, events, s);
    StatusFollowsEdits(db, events, s);
  }

  /** A student is active exactly while enrolled. */
  ghost predicate ActiveMeansEnrolled(db: School) {
    forall s :: s in db.students ==> (db.students[s].status == Active <==> HasActive(db.rows, s))
  }

  /** The students service makes or leaves a student active without an enrolment, or takes
      the active status from one that has an enrolment. */
  ghost predicate Estranges(db: School, e: Event) {
    match e
    case CreateStudentEvent(c) => Created(db.students, c).0.Saved? && (c.status.None? || c.status == Some(Active))
    case EditStudentEvent(u) =>
      StatusSet(db, e, u.id).Some? && (u.status == Some(Active)) != HasActive(db.rows, u.id)
    case _ => false
  }

  lemma AdvanceEnrolsAsIs(db: School, a: Advance, s: StudentId)
    requires Inv(db)
    ensures var (result, after) := AdvanceStudent(db, a);
      && (HasActive(after.rows, s) <==> HasActive(db.rows, s) && !(result.Departed? && s == a.student))
      && (result.Departed? ==> a.student in after.students && after.students[a.student].status != Active)
  {
    if AdvanceStudent(db, a).0.Promoted? {
      PromotionEnrolsOnly(db, a, s);
    } else if AdvanceStudent(db, a).0.Departed? {
      DepartureEndsOnly(db, a, s);
    }
  }

  lemma RegistrationKeepsStatus(db: School, q: Registration)
    requires Inv(db) && q.newStudent !in db.students && ActiveMeansEnrolled(db)
    ensures ActiveMeansEnrolled(Register(db, q).1)
  {
    var after := Register(db, q).1;
    if Register(db, q).0.Registered? {
      assert after.students[q.newStudent].status == Active;
      forall s | s in after.students ensures after.students[s].status == Active <==> HasActive(after.rows, s) {
        RegistrationEnrolsOnly(db, q, s);
        assert s != q.newStudent ==> s in db.students && after.students[s] == db.students[s];
      }
    }
  }

  lemma AdvanceKeepsStatus(db: School, a: Advance)
    requires Inv(db) && ActiveMeansEnrolled(db)
    ensures ActiveMeansEnrolled(AdvanceStudent(db, a).1)
  {
    var after := AdvanceStudent(db, a).1;
    forall s | s in after.students ensures after.students[s].status == Active <==> HasActive(after.rows, s) {
      AdvanceKeepsTheRest(db, a, s);
      AdvanceEnrolsAsIs(db, a, s);
    }
  }

  /** A step breaks "active exactly while enrolled" exactly when it estranges a student. */
  lemma StepEstrangesIff(db: School, e: Event)
    requires Inv(db) && Allowed(db, e) && ActiveMeansEnrolled(db)
    ensures ActiveMeansEnrolled(Next(db, e)) <==> !Estranges(db, e)
  {
    match e
    case RegisterEvent(q) => RegistrationKeepsStatus(db, q);
    case AdvanceEvent(a) => AdvanceKeepsStatus(db, a);
    case SubmitEvent(_) =>
    case EditStatus(_, _) =>
    case CreateStudentEvent(c) => CreationEstrangesIff(db, c);
    case EditStudentEvent(u) => EditEstrangesIff(db, u);
  }

  lemma CreationEstrangesIff(db: School, c: Creation)
    requires Inv(db) && c.id !in db.students && ActiveMeansEnrolled(db)
    ensures ActiveMeansEnrolled(Next(db, CreateStudentEvent(c))) <==> !Estranges(db, CreateStudentEvent(c))
  {
    var after := Next(db, CreateStudentEvent(c));
    assert !HasActive(db.rows, c.id);
    if Created(db.students, c).0.Saved? {
      assert after.students[c.id].status == Active <==> Estranges(db, CreateStudentEvent(c));
    }
  }

  lemma EditEstrangesIff(db: School, u: StudentEdit)
    requires Inv(db) && ActiveMeansEnrolled(db)
    ensures ActiveMeansEnrolled(Next(db, EditStudentEvent(u))) <==> !Estranges(db, EditStudentEvent(u))
  {
    var after := Next(db, EditStudentEvent(u));
    if Edited(db.students, u).0.Saved? {
      assert u.id in after.students;
      assert forall s :: s in after.students && s != u.id ==> after.students[s] == db.students[s];
    }
  }

  // ----- One application, several students -----

  lemma RegisterMovesApplication(db: School, q: Registration, id: ApplicationId)
    requires q.newStudent !in db.students && id in db.applications
    ensures var after := Register(db, q).1;
      && id in after.applications
      && after.applications[id] ==
         if q.application == id && db.applications[id].status == APPROVED && PassesGuards(db, q)
         then Application(REGISTERED, Some(q.newStudent))
         else db.applications[id]
  {
  }

  lemma StepKeepsRegistered(db: School, e: Event, id: ApplicationId)
    requires Inv(db) && Allowed(db, e) && IsRegistered(db, id) && (e.EditStatus? ==> e.edited != id)
    ensures IsRegistered(Next(db, e), id) && Next(db, e).applications[id] == db.applications[id]
  {
    match e
    case RegisterEvent(q) => RegisterMovesApplication(db, q, id);
    case AdvanceEvent(a) => AdvanceKeepsTheRest(db, a, "");
    case SubmitEvent(_) =>
    case EditStatus(_, _) =>
    case CreateStudentEvent(_) =>
    case EditStudentEvent(_) =>
  }

  /** As long as nobody edits its status, a registered application keeps its student, and
      registering it again returns that student and changes nothing. */
  lemma {:induction false} RegistrationIsFinal(db: School, events: seq<Event>, q: Registration)
    requires Inv(db) && Run(db, events) && IsRegistered(db, q.application)
    requires forall i :: 0 <= i < |events| && events[i].EditStatus? ==> events[i].edited != q.application
    ensures var after := Final(db, events);
      && IsRegistered(after, q.application) && after.applications[q.application] == db.applications[q.application]
      && Register(after, q) == (AlreadyRegistered(db.applications[q.application].student.value), after)
    decreases |events|
  {
    if events != [] {
      RegistrationIsFinal(db, Front(events), q);
      RunKeepsInv(db, Front(events));
      StepKeepsRegistered(Final(db, Front(events)), Last(events), q.application);
    }
  }

  predicate Edits(e: Event, id: ApplicationId) {
    e.EditStatus? && e.edited == id
  }

  /** The status of `id` was edited, and last to approved. */
  predicate LastEditApproves(events: seq<Event>, id: ApplicationId)
    decreases |events|
  {
    && events != []
    && if Edits(Last(events), id) then Last(events).status == APPROVED else LastEditApproves(Front(events), id)
  }

  /** Event `k` registers `id` after an edit to approved, and passes the other checks. */
  ghost predicate AdmitsAgainAt(db: School, events: seq<Event>, id: ApplicationId, k: nat)
    requires k < |events|
  {
    && events[k].RegisterEvent? && events[k].q.application == id
    && LastEditApproves(events[..k], id) && PassesGuards(Final(db, events[..k]), events[k].q)
  }

  ghost predicate AdmitsAgain(db: School, events: seq<Event>, id: ApplicationId) {
    exists k :: 0 <= k < |events| && AdmitsAgainAt(db, events, id, k)
  }

  lemma AdmitsAgainAtFront(db: School, events: seq<Event>, id: ApplicationId, k: nat)
    requires events != [] && k < |events| - 1
    ensures AdmitsAgainAt(db, events, id, k) <==> AdmitsAgainAt(db, Front(events), id, k)
  {
    assert Front(events)[k] == events[k] && Front(events)[..k] == events[..k];
  }

  lemma AdmitsAgainStep(db: School, events: seq<Event>, id: ApplicationId)
    requires events != []
    ensures AdmitsAgain(db, events, id) <==>
              AdmitsAgain(db, Front(events), id) || AdmitsAgainAt(db, events, id, |events| - 1)
  {
    if AdmitsAgain(db, Front(events), id) {
      var k :| 0 <= k < |Front(events)| && AdmitsAgainAt(db, Front(events), id, k);
      AdmitsAgainAtFront(db, events, id, k);
    }
    if AdmitsAgain(db, events, id) {
      var k :| 0 <= k < |events| && AdmitsAgainAt(db, events, id, k);
      if k < |events| - 1 {
        AdmitsAgainAtFront(db, events, id, k);
      }
    }
  }

  /** How one step moves an application. */
  lemma ApplicationStep(db: School, e: Event, id: ApplicationId)
    requires Inv(db) && Allowed(db, e) && id in db.applications
    ensures var was := db.applications[id];
      && id in Next(db, e).applications
      && Next(db, e).applications[id] ==
         if Edits(e, id) then was.(status := e.status)
         else if e.RegisterEvent? && e.q.application == id && was.status == APPROVED && PassesGuards(db, e.q)
         then Application(REGISTERED, Some(e.q.newStudent))
         else was
  {
    match e
    case RegisterEvent(q) => RegisterMovesApplication(db, q, id);
    case AdvanceEvent(a) => AdvanceKeepsTheRest(db, a, "");
    case SubmitEvent(_) =>
    case EditStatus(_, _) =>
    case CreateStudentEvent(_) =>
    case EditStudentEvent(_) =>
  }

  /** What the status says of the edits so far: approved only after an edit to approved, and
      then for as long as the application still names its first student. */
  lemma {:induction false} ApplicationHistory(db: School, events: seq<Event>, id: ApplicationId)
    requires Inv(db) && Run(db, events) && id in db.applications && db.applications[id].status != APPROVED
    ensures var first, after := db.applications[id].student, Final(db, events);
      && id in after.applications
      && (first.Some? ==> first.value in after.students)
      && (after.applications[id].status == APPROVED ==> LastEditApproves(events, id))
      && (LastEditApproves(events, id) && after.applications[id].student == first ==>
            after.applications[id].status == APPROVED)
      && (after.applications[id].student != first <==> AdmitsAgain(db, events, id))
    decreases |events|
  {
    if events != [] {
      var before, e := Final(db, Front(events)), Last(events);
      ApplicationHistory(db, Front(events), id);
      RunKeepsInv(db, Front(events));
      ApplicationStep(before, e, id);
      if db.applications[id].student.Some? {
        StudentsStay(before, e, db.applications[id].student.value);
      }
      AdmitsAgainStep(db, events, id);
      assert events[..|events| - 1] == Front(events);
    }
  }

  lemma StudentsStay(db: School, e: Event, s: StudentId)
    requires Inv(db) && Allowed(db, e) && s in db.students
    ensures s in Next(db, e).students
  {
    match e
    case RegisterEvent(q) => RegisterKeepsStudents(db, q, s);
    case AdvanceEvent(a) => AdvanceKeepsTheRest(db, a, s);
    case _ =>
  }

  /** An application comes to name another student, or its first, exactly when a registration
      of it that passes the other checks follows an edit of its status to approved, with no
      later edit to anything else in between. The student it named before stays. */
  lemma {:induction false} AdmitsAgainIff(db: School, events: seq<Event>, id: ApplicationId)
    requires Inv(db) && Run(db, events) && id in db.applications && db.applications[id].status != "approved"
    ensures var first, after := db.applications[id].student, Final(db, events);
      && id in after.applications && (first.Some? ==> first.value in after.students)
      && (after.applications[id].student != first <==> AdmitsAgain(db, events, id))
  {
    ApplicationHistory(db, events, id);
  }

  lemma ApprovedRegisters(db: School, q: Registration)
    requires q.application in db.applications && db.applications[q.application].status == APPROVED
    requires PassesGuards(db, q)
    ensures Register(db, q).0 == Registered(q.newStudent)
  {
  }

  /** The shortest such run: both students are then active. */
  lemma EditedApplicationAdmitsTwice(db: School, id: ApplicationId, q: Registration)
    requires Inv(db) && IsRegistered(db, id) && q.application == id && q.newStudent !in db.students
    requires var first := db.applications[id].student.value; first in db.students && db.students[first].status == Active
    requires PassesGuards(db, q)
    ensures var first := db.applications[id].student.value; var edited := Next(db, EditStatus(id, APPROVED));
      var (result, after) := Register(edited, q);
      && result == Registered(q.newStudent) && after.applications[id].student == Some(q.newStudent) != Some(first)
      && after.students[first].status == Active && after.students[q.newStudent].status == Active
  {
    var edited := Next(db, EditStatus(id, APPROVED));
    assert PassesGuards(edited, q);
    ApprovedRegisters(edited, q);
    RegistrationTouchesOne(edited, q);
  }

  // ----- When a call goes through, and what it writes -----

  /** The year before another in text order: the other goes on where it stops, or has the
      greater character where they first differ. */
  lemma {:induction false} YearBeforeIff(a: string, b: string)
    ensures YearBefore(a, b) <==> exists n :: 0 <= n <= |a| && DiffersUp(a, b, n)
  {
    if a != "" && b != "" && a[0] == b[0] {
      YearBeforeIff(a[1..], b[1..]);
      if n :| 0 <= n <= |a[1..]| && DiffersUp(a[1..], b[1..], n) {
        DiffersUpStep(a, b, n + 1);
      }
      if n :| 0 <= n <= |a| && DiffersUp(a, b, n) {
        DiffersUpStep(a, b, n);
      }
    } else if YearBefore(a, b) {
      assert DiffersUp(a, b, 0);
    } else if n :| 0 <= n <= |a| && DiffersUp(a, b, n) {
      DiffersUpHeads(a, b, n);
    }
  }

  predicate DiffersUp(a: string, b: string, n: nat)
    requires n <= |a|
  {
    n < |b| && a[..n] == b[..n] && (n == |a| || a[n] < b[n])
  }

  lemma DiffersUpHeads(a: string, b: string, n: nat)
    requires n <= |a| && DiffersUp(a, b, n)
    ensures a != "" ==> if n == 0 then a[0] < b[0] else a[0] == b[0]
  {
    if n > 0 {
      assert a[..n][0] == b[..n][0];
    }
  }

  lemma DiffersUpStep(a: string, b: string, n: nat)
    requires a != "" && b != "" && a[0] == b[0] && n <= |a|
    ensures n > 0 ==> (DiffersUp(a, b, n) <==> DiffersUp(a[1..], b[1..], n - 1))
    ensures !DiffersUp(a, b, 0)
  {
    if 0 < n < |b| {
      assert a[..n] == [a[0]] + a[1..][..n - 1] && b[..n] == [b[0]] + b[1..][..n - 1];
      assert a[1..][..n - 1] == a[..n][1..] && b[1..][..n - 1] == b[..n][1..];
    }
  }

  ghost predicate Fits(s: Section, className: string, stream: string) {
    s.isActive && SameText(s.className, className) && SameText(s.stream, stream)
  }

  /** Section `k` fits, no fitting one is of a later year, and none of its year was created
      after it. */
  ghost predicate IsNewestFitting(sections: seq<Section>, className: string, stream: string, k: nat) {
    && k < |sections| && Fits(sections[k], className, stream)
    && forall i :: 0 <= i < |sections| && Fits(sections[i], className, stream) ==>
         !YearBefore(sections[k].year, sections[i].year) && (i > k ==> YearBefore(sections[i].year, sections[k].year))
  }

  /** The section a class and stream name, if there is one. */
  ghost predicate Names(sections: seq<Section>, className: string, stream: string, found: Option<Section>) {
    if found.Some? then
      exists k :: 0 <= k < |sections| && sections[k] == found.value && IsNewestFitting(sections, className, stream, k)
    else
      forall i :: 0 <= i < |sections| ==> !Fits(sections[i], className, stream)
  }

  lemma FitsIff(s: Section, className: string, stream: string)
    ensures SectionFits(s, className, stream) <==> Fits(s, className, stream)
  {
    LowerIff(s.className, className);
    LowerIff(s.stream, stream);
  }

  lemma {:induction false} NewestFitting(sections: seq<Section>, className: string, stream: string) returns (k: nat)
    requires FindSection(sections, className, stream).Some?
    ensures IsNewestFitting(sections, className, stream, k)
    ensures FindSection(sections, className, stream) == Some(sections[k])
    decreases |sections|
  {
    var last := |sections| - 1;
    var s, before := sections[last], FindSection(sections[..last], className, stream);
    if SectionFits(s, className, stream) && (before.None? || !YearBefore(s.year, before.value.year)) {
      k := last;
    } else {
      k := NewestFitting(sections[..last], className, stream);
      assert forall i :: 0 <= i < last ==> sections[..last][i] == sections[i];
    }
    FitsIff(sections[k], className, stream);
    forall i | 0 <= i < |sections| && Fits(sections[i], className, stream)
      ensures !YearBefore(sections[k].year, sections[i].year)
      ensures i > k ==> YearBefore(sections[i].year, sections[k].year)
    {
      FitsIff(sections[i], className, stream);
      FindSectionIsNewest(sections, className, stream, i);
    }
  }

  /** The section found is the newest fitting one, and there is one if any fits. */
  lemma FindSectionNames(sections: seq<Section>, className: string, stream: string, found: Option<Section>)
    ensures Names(sections, className, stream, found) <==> FindSection(sections, className, stream) == found
  {
    var r := FindSection(sections, className, stream);
    if r.Some? {
      var k := NewestFitting(sections, className, stream);
      if found.Some? && Names(sections, className, stream, found) {
        var j :| 0 <= j < |sections| && sections[j] == found.value && IsNewestFitting(sections, className, stream, j);
        YearBeforeIsAsymmetric(sections[j].year, sections[k].year);
        assert j == k;
      }
    } else {
      forall i | 0 <= i < |sections| ensures !Fits(sections[i], className, stream) {
        FitsIff(sections[i], className, stream);
        if SectionFits(sections[i], className, stream) {
          FindSectionIsNewest(sections, className, stream, i);
        }
      }
    }
  }

  ghost function Places(rows: seq<Enrollment>, id: SectionId): set<int> {
    set i | 0 <= i < |rows| && rows[i].section == Some(id) && rows[i].status == Enrolled
  }

  lemma {:induction false} ActiveInCounts(rows: seq<Enrollment>, id: SectionId)
    ensures ActiveIn(rows, id) == |Places(rows, id)|
  {
    if rows != [] {
      var n := |rows| - 1;
      ActiveInCounts(rows[..n], id);
      assert Places(rows, id) == Places(rows[..n], id) + if FillsSection(rows[n], id) then {n} else {};
    }
  }

  ghost function ActiveRows(rows: seq<Enrollment>): set<int> {
    set i | 0 <= i < |rows| && rows[i].status == Enrolled
  }

  lemma {:induction false} ActiveTotalCounts(rows: seq<Enrollment>)
    ensures ActiveTotal(rows) == |ActiveRows(rows)|
  {
    if rows != [] {
      var n := |rows| - 1;
      ActiveTotalCounts(rows[..n]);
      assert ActiveRows(rows) == ActiveRows(rows[..n]) + if IsActive(rows[n]) then {n} else {};
    }
  }

  /** All the places of the section are taken; no section, no capacity and capacity 0 set no
      limit. */
  ghost predicate Full(section: Option<Section>, rows: seq<Enrollment>) {
    && section.Some?
    && match section.value.capacity
       case None => false
       case Some(n) => 0 < n <= |Places(rows, section.value.id)|
  }

  lemma FullIff(section: Option<Section>, rows: seq<Enrollment>)
    ensures AtCapacity(section, rows) <==> Full(section, rows)
  {
    if section.Some? {
      ActiveInCounts(rows, section.value.id);
    }
  }

  ghost predicate FreeNumber(students: map<StudentId, Student>, id: StudentId, number: string) {
    number != "" && forall s :: s in students && students[s].admissionNumber == number ==> s == id
  }

  /** When the students service creates a student, and what it stores. */
  lemma CreationAsTold(students: map<StudentId, Student>, c: Creation)
    ensures var (result, after) := Created(students, c);
      var active := c.status == None || c.status == Some(Active);
      && (if result.Saved? then
            after == students[c.id := Student(Trim(c.admissionNumber),
                                              match c.status case Some(s) => s case None => Active)]
          else after == students)
      && match result
         case Saved => !(active && c.limitReached) && FreeNumber(students, c.id, Trim(c.admissionNumber))
         case LimitReached => active && c.limitReached
         case NumberRefused => !(active && c.limitReached) && !FreeNumber(students, c.id, Trim(c.admissionNumber))
         case StudentNotFound => false
  {
  }

  /** When it edits one, and what it then stores: the fields given, the others as they were. */
  lemma EditAsTold(students: map<StudentId, Student>, u: StudentEdit)
    ensures var (result, after) := Edited(students, u);
      && (result.StudentNotFound? <==> u.id !in students)
      && (!result.Saved? ==> after == students)
      && (u.id in students ==>
            var was := students[u.id];
            var limited := u.status == Some(Active) && was.status != Active && u.limitReached;
            && (result.LimitReached? <==> limited)
            && (result.NumberRefused? <==>
                  !limited && u.admissionNumber.Some? && !FreeNumber(students, u.id, Trim(u.admissionNumber.value)))
            && (result.Saved? ==>
                  && after.Keys == students.Keys && (forall s :: s in students && s != u.id ==> after[s] == students[s])
                  && after[u.id].status == (match u.status case Some(s) => s case None => was.status)
                  && after[u.id].admissionNumber ==
                       (match u.admissionNumber case Some(n) => Trim(n) case None => was.admissionNumber)))
  {
  }

  function PlacedRow(student: StudentId, application: ApplicationId, found: Option<Section>, className: string,
                     stream: string, thisYear: string): Enrollment {
    match found
    case Some(s) => Enrollment(student, application, Some(s.id), className, stream, s.year, Enrolled)
    case None => Enrollment(student, application, None, className, stream, thisYear, Enrolled)
  }

  /** The answer of a registration, when each is given, and what a registration writes. */
  lemma RegistrationAsTold(db: School, q: Registration, found: Option<Section>)
    requires RowsKnown(db) && q.newStudent !in db.students
    requires Names(db.sections, Trim(q.className), Trim(q.stream), found)
    ensures var (result, after) := Register(db, q);
      var known := q.application in db.applications;
      var approved := known && db.applications[q.application].status == "approved";
      var full := Full(found, db.rows);
      var refused := q.limitReached || !FreeNumber(db.students, q.newStudent, Trim(q.admissionNumber));
      var blank := Trim(q.className) == "" || Trim(q.stream) == "";
      && (if result.Registered? then
            after == School(
              db.applications[q.application := Application("registered", Some(q.newStudent))],
              db.students[q.newStudent := Student(Trim(q.admissionNumber), Active)], db.sections,
              db.rows + [PlacedRow(q.newStudent, q.application, found, Trim(q.className), Trim(q.stream), q.thisYear)])
          else after == db)
      && match result
         case Registered(s) => s == q.newStudent && approved && !full && !refused && !blank
         case AlreadyRegistered(s) => known && db.applications[q.application] == Application("registered", Some(s))
         case ApplicationNotFound => !known
         case NotApproved =>
           known && !approved && !(db.applications[q.application].status == "registered"
                                   && db.applications[q.application].student.Some?)
         case RegistrationFull => approved && full
         case StudentRefused => approved && !full && refused
         case Blank => approved && !full && !refused && blank
  {
    FindSectionNames(db.sections, Trim(q.className), Trim(q.stream), found);
    FullIff(found, db.rows);
    CreationAsTold(db.students, CreationOf(q));
    if Register(db, q).0.Registered? {
      RegistrationAppends(db, q);
      RegistrationTouchesOne(db, q);
    }
  }

  /** Row `at` is the student's active enrolment. */
  ghost predicate IsCurrent(rows: seq<Enrollment>, student: StudentId, at: nat) {
    at < |rows| && rows[at].student == student && rows[at].status == Enrolled
  }

  lemma CurrentIsLastActive(db: School, student: StudentId, at: nat)
    requires Inv(db) && IsCurrent(db.rows, student, at)
    ensures LastActive(db.rows, student) == Some(at)
  {
  }

  /** An advance is refused outright unless its action is one of three and the student has
      an active enrolment. */
  lemma AdvanceGoesOnIff(db: School, q: Advance)
    ensures var (result, after) := AdvanceStudent(db, q);
      var known := Trim(q.action) == "promotion" || Trim(q.action) == "graduation" || Trim(q.action) == "archive";
      && (result.UnknownAction? <==> !known)
      && (result.NoActiveEnrollment? <==> known && forall at :: !IsCurrent(db.rows, q.student, at))
      && (result.UnknownAction? || result.NoActiveEnrollment? ==> after == db)
  {
    if HasActive(db.rows, q.student) {
      var i :| 0 <= i < |db.rows| && db.rows[i].student == q.student && IsActive(db.rows[i]);
      assert IsCurrent(db.rows, q.student, i);
    }
  }

  /** Graduation completes the enrolment and graduates the student, archiving withdraws the
      enrolment and makes the student inactive; nothing else changes. */
  lemma DepartureAsTold(db: School, q: Advance, at: nat)
    requires Inv(db) && IsCurrent(db.rows, q.student, at)
    requires Trim(q.action) == "graduation" || Trim(q.action) == "archive"
    ensures var (result, after) := AdvanceStudent(db, q);
      var (closing, status) := if Trim(q.action) == "graduation" then (Completed, Graduated) else (Withdrawn, Inactive);
      && result == Departed(status)
      && q.student in db.students
      && after == School(
           db.applications, db.students[q.student := Student(db.students[q.student].admissionNumber, status)],
           db.sections, db.rows[at := db.rows[at].(status := closing)])
  {
    CurrentIsLastActive(db, q.student, at);
  }

  /** `after` is `rows` with `r` in place of the row of its student and year, if there is
      one, and at the end otherwise. */
  ghost predicate Upserted(rows: seq<Enrollment>, r: Enrollment, after: seq<Enrollment>) {
    if after == rows + [r] then forall i :: 0 <= i < |rows| ==> rows[i].student != r.student || rows[i].year != r.year
    else exists i :: 0 <= i < |rows| && rows[i].student == r.student && rows[i].year == r.year && after == rows[i := r]
  }

  lemma UpsertUpserts(rows: seq<Enrollment>, r: Enrollment)
    ensures Upserted(rows, r, Upsert(rows, r))
  {
    var at := RowOf(rows, r.student, r.year);
    if at.Some? {
      assert |Upsert(rows, r)| != |rows + [r]|;
    }
  }

  /** The answer of a promotion, when each is given, and what a promotion writes. */
  lemma PromotionAsTold(db: School, q: Advance, at: nat, className: string, stream: string, found: Option<Section>)
    requires Inv(db) && IsCurrent(db.rows, q.student, at) && Trim(q.action) == "promotion"
    requires className == match q.className case Some(c) => Trim(c) case None => ""
    requires stream == match q.stream case Some(s) => Trim(s) case None => ""
    requires Names(db.sections, className, stream, found)
    ensures var (result, after) := AdvanceStudent(db, q);
      var blank, full := className == "" || stream == "", Full(found, db.rows);
      var sameYear := found.Some? && found.value.year == db.rows[at].year;
      match result
      case Promoted =>
        && !blank && !full && !sameYear && after == db.(rows := after.rows)
        && Upserted(db.rows[at := db.rows[at].(status := Completed)],
                    PlacedRow(q.student, db.rows[at].application, found, className, stream, q.thisYear), after.rows)
      case NoTarget => blank && after == db
      case PromotionFull => !blank && full && after == db
      case SameYear => !blank && !full && sameYear && after == db
      case _ => false
  {
    CurrentIsLastActive(db, q.student, at);
    FindSectionNames(db.sections, className, stream, found);
    FullIff(found, db.rows);
    UpsertUpserts(Close(db.rows, at, Completed),
                  NewRow(q.student, db.rows[at].application, found, className, stream, q.thisYear));
  }

  /** An application starts out pending, without a student. */
  lemma SubmissionIsPending(db: School, id: ApplicationId)
    ensures Next(db, SubmitEvent(id)) ==
              School(db.applications[id := Application("pending", None)], db.students, db.sections, db.rows)
  {
  }

  // ----- The service -----

  class AdmissionsService {
    var applications: map<ApplicationId, Application>
    var students: map<StudentId, Student>
    var rows: seq<Enrollment>
    const sections: seq<Section>

    constructor (sections: seq<Section>)
      requires SectionsDistinct(sections)
      ensures this.sections == sections && Contents() == School(map[], map[], sections, []) && Inv(Contents())
    {
      applications, students, rows := map[], map[], [];
      this.sections := sections;
    }

    function Contents(): School
      reads this
    {
      School(applications, students, sections, rows)
    }

    /** The students service's createStudent. */
    method CreateStudent(c: Creation) returns (result: StudentResult)
      modifies `students
      ensures (result, students) == Created(old(students), c)
    {
      var status := if c.status.Some? then c.status.value else Active;
      if status == Active && c.limitReached {
        return LimitReached;
      }
      var unusable := NumberUnusable(students, c.id, Trim(c.admissionNumber));
      if unusable {
        return NumberRefused;
      }
      students := students[c.id := Student(Trim(c.admissionNumber), status)];
      return Saved;
    }

    /** The students service's updateStudent. */
    method UpdateStudent(u: StudentEdit) returns (result: StudentResult)
      modifies `students
      ensures (result, students) == Edited(old(students), u)
    {
      if u.id !in students {
        return StudentNotFound;
      }
      var was := students[u.id];
      var status := if u.status.Some? then u.status.value else was.status;
      if status == Active && was.status != Active && u.limitReached {
        return LimitReached;
      }
      if u.admissionNumber.Some? {
        var unusable := NumberUnusable(students, u.id, Trim(u.admissionNumber.value));
        if unusable {
          return NumberRefused;
        }
        students := students[u.id := Student(Trim(u.admissionNumber.value), status)];
      } else {
        students := students[u.id := was.(status := status)];
      }
      return Saved;
    }

    /** The status is whatever the caller gives. */
    method UpdateApplication(id: ApplicationId, status: string) returns (found: bool)
      modifies `applications
      ensures found <==> id in old(applications)
      ensures Contents() == Next(old(Contents()), EditStatus(id, status))
    {
      if id !in applications {
        return false;
      }
      applications := applications[id := applications[id].(status := status)];
      return true;
    }

    /** The checks come first except the table's own, which rolls the transaction back. */
    method RegisterApprovedApplication(q: Registration) returns (result: RegisterResult)
      requires Inv(Contents()) && q.newStudent !in students
      modifies this
      ensures (result, Contents()) == Register(old(Contents()), q) && Inv(Contents())
    {
      RegisterKeepsInv(Contents(), q);
      if q.application !in applications {
        return ApplicationNotFound;
      }
      var application := applications[q.application];
      if application.status == REGISTERED && application.student.Some? {
        return AlreadyRegistered(application.student.value);
      }
      if application.status != APPROVED {
        return NotApproved;
      }
      var className, stream := Trim(q.className), Trim(q.stream);
      var section := FindSection(sections, className, stream);
      if AtCapacity(section, rows) {
        return RegistrationFull;
      }
      var savedStudents, savedApplications := students, applications;
      var created := CreateStudent(CreationOf(q));
      if !created.Saved? {
        return StudentRefused;
      }
      applications := applications[q.application := Application(REGISTERED, Some(q.newStudent))];
      if className == "" || stream == "" {
        students, applications := savedStudents, savedApplications;
        return Blank;
      }
      rows := Upsert(rows, NewRow(q.newStudent, q.application, section, className, stream, q.thisYear));
      return Registered(q.newStudent);
    }

    method AdvanceStudentAcademicLifecycle(q: Advance) returns (result: AdvanceResult)
      requires Inv(Contents())
      modifies this
      ensures (result, Contents()) == AdvanceStudent(old(Contents()), q) && Inv(Contents())
    {
      StepKeepsInv(Contents(), AdvanceEvent(q));
      var action := Trim(q.action);
      if action != PROMOTION && action != GRADUATION && action != ARCHIVE {
        return UnknownAction;
      }
      var active := LastActive(rows, q.student);
      if active.None? {
        return NoActiveEnrollment;
      }
      if action == PROMOTION {
        result := PromoteStudent(q, active.value);
        return;
      }
      if q.student !in students {
        return StudentMissing;
      }
      rows := Close(rows, active.value, if action == GRADUATION then Completed else Withdrawn);
      var status := if action == GRADUATION then Graduated else Inactive;
      students := students[q.student := students[q.student].(status := status)];
      return Departed(status);
    }

    method PromoteStudent(q: Advance, active: nat) returns (result: AdvanceResult)
      requires active < |rows|
      modifies `rows
      ensures (result, Contents()) == Promote(old(Contents()), q, active)
    {
      var className, stream := TrimOrEmpty(q.className), TrimOrEmpty(q.stream);
      if className == "" || stream == "" {
        return NoTarget;
      }
      var target := FindSection(sections, className, stream);
      if AtCapacity(target, rows) {
        return PromotionFull;
      }
      var source := rows[active];
      if target.Some? && target.value.year == source.year {
        return SameYear;
      }
      rows := Close(rows, active, Completed);
      rows := Upsert(rows, NewRow(q.student, source.application, target, className, stream, q.thisYear));
      return Promoted;
    }
  }
}
