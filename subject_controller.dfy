/** The subject handlers (backend/controllers/subjectController.js): creation with a unique
    code and defaults, teacher assignment, and partial update. The `trim` setter of `code`
    applies both to what is stored and to the value a query compares against it. */
module SubjectController {
  import opened Common
  import opened Text
  import opened UserModel
  import opened SubjectModel
  import opened Store

  const MsgSubjectRequired := "Code, name, and semester are required"
  const MsgCodeTaken := "Subject code already exists"
  const MsgSubjectNotFound := "Subject not found"
  const MsgTeacherNotFound := "Teacher not found"

  /** `Subject.findOne({ code })` finds something. */
  predicate CodeTaken(subjects: map<Id, Subject>, code: string)
  {
    exists k :: k in subjects && subjects[k].code == code
  }

  /** The subject `createSubject` saves: trimmed code, description "" and 3 units when falsy,
      no teacher and nobody enrolled. */
  function NewSubject(code: string, name: string, description: string, units: int, semester: int, now: Time): (s: Subject)
    ensures s.code == Trim(code) && s.name == name && s.semester == semester
    ensures s.description == description
    ensures s.units == (if units != 0 then units else DefaultUnits)
    ensures s.assignedTeacher.None? && s.enrolledStudents == []
  {
    Subject(Trim(code), name, description, if units != 0 then units else DefaultUnits, semester, None, [], now)
  }

  /** `createSubject`. A code that trims to nothing fails the `required` validator inside `save`. */
  method CreateSubject(db: Database, code: string, name: string, description: string, units: int, semester: int, now: Time)
    returns (r: Response<Doc<Subject>>)
    requires db.Valid()
    modifies db`subjects, db`nextId
    ensures db.Valid()
    ensures code == "" || name == "" || semester == 0 ==> r == Err(BadRequest, MsgSubjectRequired)
    ensures code != "" && name != "" && semester != 0 && CodeTaken(old(db.subjects), Trim(code)) ==>
              r == Err(BadRequest, MsgCodeTaken)
    ensures code != "" && name != "" && semester != 0 && !CodeTaken(old(db.subjects), Trim(code)) && Trim(code) == "" ==>
              r == Err(ServerError, MsgServerError)
    ensures r.Err? ==> unchanged(db)
    ensures r.Ok? <==> && code != "" && name != "" && semester != 0 && Trim(code) != ""
                       && !CodeTaken(old(db.subjects), Trim(code))
    ensures r.Ok? ==> && r.value.id == old(db.nextId) && db.nextId == old(db.nextId) + 1
                      && r.value.body == NewSubject(code, name, description, units, semester, now)
                      && db.subjects == old(db.subjects)[r.value.id := r.value.body]
  {
    if code == "" || name == "" || semester == 0 {
      return Err(BadRequest, MsgSubjectRequired);
    }
    var s := NewSubject(code, name, description, units, semester, now);
    if exists k :: k in db.subjects && db.subjects[k].code == s.code {
      return Err(BadRequest, MsgCodeTaken);
    }
    if s.code == "" {
      return Err(ServerError, MsgServerError);
    }
    var id := db.nextId;
    SaveSubject(db, id, s);
    r := Ok(Doc(id, s));
  }

  /** `assignTeacher`: the subject is looked up first; the teacher must exist and have the
      teacher role; the assignment replaces any previous one. */
  method AssignTeacher(db: Database, subjectId: Option<Id>, teacherId: Option<Id>) returns (r: Response<Subject>)
    requires db.Valid()
    modifies db`subjects, db`nextId
    ensures db.Valid()
    ensures subjectId.None? || subjectId.value !in old(db.subjects) ==> r == Err(NotFound, MsgSubjectNotFound)
    ensures subjectId.Some? && subjectId.value in old(db.subjects)
            && (teacherId.None? || teacherId.value !in old(db.users) || old(db.users)[teacherId.value].role != Teacher) ==>
              r == Err(NotFound, MsgTeacherNotFound)
    ensures r.Err? ==> unchanged(db)
    ensures r.Ok? <==> && subjectId.Some? && subjectId.value in old(db.subjects)
                       && teacherId.Some? && teacherId.value in old(db.users) && old(db.users)[teacherId.value].role == Teacher
    ensures r.Ok? ==> && subjectId.Some? && subjectId.value in old(db.subjects)
                      && r.value == old(db.subjects)[subjectId.value].(assignedTeacher := teacherId)
                      && db.subjects == old(db.subjects)[subjectId.value := r.value]
                      && db.nextId == old(db.nextId)
  {
    if subjectId.None? || subjectId.value !in db.subjects {
      return Err(NotFound, MsgSubjectNotFound);
    }
    if teacherId.None? || teacherId.value !in db.users || db.users[teacherId.value].role != Teacher {
      return Err(NotFound, MsgTeacherNotFound);
    }
    var subject := db.subjects[subjectId.value].(assignedTeacher := teacherId);
    SaveSubject(db, subjectId.value, subject);
    r := Ok(subject);
  }

  /** The body `updateSubject` reads; empty strings and 0 are falsy and ignored. */
  datatype SubjectFields = SubjectFields(code: string, name: string, description: string, units: int, semester: int)

  /** The subject after `updateSubject`'s assignments: each truthy field overwritten (the code
      through its `trim` setter), the teacher, the roster and the creation time untouched. */
  function EditSubject(s: Subject, f: SubjectFields): (r: Subject)
    ensures r.code == (if f.code != "" then Trim(f.code) else s.code)
    ensures r.name == OrString(f.name, s.name)
    ensures r.description == OrString(f.description, s.description)
    ensures r.units == OrInt(f.units, s.units)
    ensures r.semester == OrInt(f.semester, s.semester)
    ensures r.assignedTeacher == s.assignedTeacher && r.enrolledStudents == s.enrolledStudents && r.createdAt == s.createdAt
  {
    s.(code := if f.code != "" then Trim(f.code) else s.code,
       name := OrString(f.name, s.name),
       description := OrString(f.description, s.description),
       units := OrInt(f.units, s.units),
       semester := OrInt(f.semester, s.semester))
  }

  /** The same body sent twice changes nothing the second time. */
  lemma EditSubjectIdempotent(s: Subject, f: SubjectFields)
    ensures EditSubject(EditSubject(s, f), f) == EditSubject(s, f)
  {
  }

  /** The unique code index, seen from a write: no other subject holds this code. */
  predicate CodeFreeFor(subjects: map<Id, Subject>, id: Id, code: string)
  {
    forall k :: k in subjects && k != id ==> subjects[k].code != code
  }

  /** `updateSubject`. A code that trims to nothing, or that another subject holds, fails inside `save`. */
  method UpdateSubject(db: Database, subjectId: Id, f: SubjectFields) returns (r: Response<Subject>)
    requires db.Valid()
    modifies db`subjects, db`nextId
    ensures db.Valid()
    ensures subjectId !in old(db.subjects) ==> r == Err(NotFound, MsgSubjectNotFound)
    ensures subjectId in old(db.subjects)
            && (EditSubject(old(db.subjects)[subjectId], f).code == ""
                || !CodeFreeFor(old(db.subjects), subjectId, EditSubject(old(db.subjects)[subjectId], f).code)) ==>
              r == Err(ServerError, MsgServerError)
    ensures r.Err? ==> unchanged(db)
    ensures r.Ok? <==> && subjectId in old(db.subjects)
                       && EditSubject(old(db.subjects)[subjectId], f).code != ""
                       && CodeFreeFor(old(db.subjects), subjectId, EditSubject(old(db.subjects)[subjectId], f).code)
    ensures r.Ok? ==> && subjectId in old(db.subjects)
                      && r.value == EditSubject(old(db.subjects)[subjectId], f)
                      && db.subjects == old(db.subjects)[subjectId := r.value]
                      && db.nextId == old(db.nextId)
  {
    if subjectId !in db.subjects {
      return Err(NotFound, MsgSubjectNotFound);
    }
    var subject := EditSubject(db.subjects[subjectId], f);
    if subject.code == "" || exists k :: k in db.subjects && k != subjectId && db.subjects[k].code == subject.code {
      return Err(ServerError, MsgServerError);
    }
    SaveSubject(db, subjectId, subject);
    r := Ok(subject);
  }
}
