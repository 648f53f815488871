/** The grade handlers (backend/controllers/gradeController.js): find-or-create of the
    record of one (student, subject) pair with a partial update, and the student's
    own-grades read. */
module GradeController {
  import opened Common
  import opened GradeModel
  import opened Store

  const MsgIdsRequired := "Student ID and Subject ID are required"
  const MsgNotFound := "Student or subject not found"
  const MsgOwnGrades := "You can only view your own grades"

  /** `if (x !== undefined) grade.x = x`. */
  function ApplyPatch(o: Option<int>, p: Patch): (r: Option<int>)
    ensures p.Keep? ==> r == o
    ensures p.Assign? ==> r == p.value
  {
    match p
    case Keep => o
    case Assign(v) => v
  }

  /** A patch the `min: 0, max: 100` validators accept. */
  predicate PatchInRange(p: Patch)
  {
    p.Assign? ==> ScoreInRange(p.value)
  }

  predicate PatchesInRange(midterm: Patch, finals: Patch, projects: Patch, participation: Patch)
  {
    PatchInRange(midterm) && PatchInRange(finals) && PatchInRange(projects) && PatchInRange(participation)
  }

  /** The document after the handler's assignments and before the save: each defined score
      overwritten, truthy remarks overwritten, the encoder and the instant recorded, and the
      student, the subject and the stored final grade left alone. */
  function Encoded(g: Grade, midterm: Patch, finals: Patch, projects: Patch, participation: Patch,
                   remarks: string, teacher: Id, now: Time): (r: Grade)
    ensures r.student == g.student && r.subject == g.subject && r.finalGrade == g.finalGrade
    ensures r.midterm == ApplyPatch(g.midterm, midterm) && r.finals == ApplyPatch(g.finals, finals)
    ensures r.projects == ApplyPatch(g.projects, projects) && r.participation == ApplyPatch(g.participation, participation)
    ensures r.remarks == (if remarks != "" then remarks else g.remarks)
    ensures r.encodedBy == Some(teacher) && r.encodedAt == now
  {
    g.(midterm := ApplyPatch(g.midterm, midterm),
       finals := ApplyPatch(g.finals, finals),
       projects := ApplyPatch(g.projects, projects),
       participation := ApplyPatch(g.participation, participation),
       remarks := if remarks != "" then remarks else g.remarks,
       encodedBy := Some(teacher),
       encodedAt := now)
  }

  /** A record whose scores were valid passes validation after the update exactly when
      every score the request defines is within 0..100. */
  lemma EncodedInRange(g: Grade, midterm: Patch, finals: Patch, projects: Patch, participation: Patch,
                       remarks: string, teacher: Id, now: Time)
    requires ComponentsInRange(g)
    ensures ComponentsInRange(Encoded(g, midterm, finals, projects, participation, remarks, teacher, now))
            <==> PatchesInRange(midterm, finals, projects, participation)
  {
  }

  /** Clearing every score with explicit nulls leaves the previous final grade in place: the
      hook only writes `finalGrade` when some score is present. */
  lemma ClearedScoresKeepFinalGrade(g: Grade, remarks: string, teacher: Id, now: Time)
    ensures WithFinalGrade(Encoded(g, Assign(None), Assign(None), Assign(None), Assign(None), remarks, teacher, now)).finalGrade
            == g.finalGrade
  {
  }

  /** `Grade.findOne({ student, subject })` finds something. */
  predicate GradeExists(grades: map<Id, Grade>, student: Id, subject: Id)
  {
    exists k :: k in grades && grades[k].student == student && grades[k].subject == subject
  }

  /** `Grade.findOne({ student, subject })`, or a `new Grade` under a fresh id when there is none. */
  method FindOrCreate(grades: map<Id, Grade>, nextId: Id, student: Id, subject: Id, teacher: Id, now: Time)
    returns (id: Id, grade: Grade, created: bool)
    ensures created <==> !GradeExists(grades, student, subject)
    ensures !created ==> id in grades && grade == grades[id] && grade.student == student && grade.subject == subject
    ensures created ==> id == nextId && grade == NewGrade(student, subject, teacher, now)
  {
    if exists k :: k in grades && grades[k].student == student && grades[k].subject == subject {
      id :| id in grades && grades[id].student == student && grades[id].subject == subject;
      grade := grades[id];
      created := false;
    } else {
      id := nextId;
      grade := NewGrade(student, subject, teacher, now);
      created := true;
    }
  }

  /** The handler's field-by-field assignments on the found or new document. */
  method AssignFields(g: Grade, midterm: Patch, finals: Patch, projects: Patch, participation: Patch,
                      remarks: string, teacher: Id, now: Time) returns (grade: Grade)
    ensures grade == Encoded(g, midterm, finals, projects, participation, remarks, teacher, now)
  {
    grade := g;
    if midterm.Assign? { grade := grade.(midterm := midterm.value); }
    if finals.Assign? { grade := grade.(finals := finals.value); }
    if projects.Assign? { grade := grade.(projects := projects.value); }
    if participation.Assign? { grade := grade.(participation := participation.value); }
    if remarks != "" { grade := grade.(remarks := remarks); }
    grade := grade.(encodedBy := Some(teacher));
    grade := grade.(encodedAt := now);
  }

  /** `grade.save()` of a well-formed record: an update in place of the pair's record, or an
      insert under a fresh id. */
  method SaveGrade(db: Database, id: Id, g: Grade)
    requires db.Valid()
    requires g.student in db.users && g.subject in db.subjects && WellFormed(g)
    requires id in db.grades ==> db.grades[id].student == g.student && db.grades[id].subject == g.subject
    requires id !in db.grades ==> id == db.nextId && !GradeExists(db.grades, g.student, g.subject)
    modifies db`grades, db`nextId
    ensures db.Valid()
    ensures db.grades == old(db.grades)[id := g]
    ensures db.nextId == if id in old(db.grades) then old(db.nextId) else old(db.nextId) + 1
  {
    CoherentGradeStore(db.users, db.subjects, db.grades, db.payments, db.announcements, db.nextId, id, g);
    if id !in db.grades {
      db.nextId := db.nextId + 1;
    }
    db.grades := db.grades[id := g];
  }

  /** `grade.save()` with its pre-save hook: the final grade recomputed, then the record stored. */
  method SaveWithHook(db: Database, id: Id, g: Grade) returns (saved: Grade)
    requires db.Valid()
    requires g.student in db.users && g.subject in db.subjects && ComponentsInRange(g) && ScoreInRange(g.finalGrade)
    requires id in db.grades ==> db.grades[id].student == g.student && db.grades[id].subject == g.subject
    requires id !in db.grades ==> id == db.nextId && !GradeExists(db.grades, g.student, g.subject)
    modifies db`grades, db`nextId
    ensures db.Valid()
    ensures saved == WithFinalGrade(g) && WellFormed(saved)
    ensures db.grades == old(db.grades)[id := saved]
    ensures db.nextId == if id in old(db.grades) then old(db.nextId) else old(db.nextId) + 1
  {
    saved := PreSave(g);
    WithFinalGradeWellFormed(g);
    SaveGrade(db, id, saved);
  }

  /** The part of `encodeGrades` after both references resolved. A request that defines an
      out-of-range score fails schema validation inside `save`, which the handler reports as 500. */
  method EncodeResolved(db: Database, caller: Caller, student: Id, subject: Id,
                        midterm: Patch, finals: Patch, projects: Patch, participation: Patch,
                        remarks: string, now: Time) returns (r: Response<Doc<Grade>>)
    requires db.Valid() && student in db.users && subject in db.subjects
    modifies db`grades, db`nextId
    ensures db.Valid()
    ensures r.Err? <==> !PatchesInRange(midterm, finals, projects, participation)
    ensures r.Err? ==> r == Err(ServerError, MsgServerError) && unchanged(db)
    ensures r.Ok? ==> db.grades == old(db.grades)[r.value.id := r.value.body] && WellFormed(r.value.body)
    ensures r.Ok? && GradeExists(old(db.grades), student, subject) ==>
              && r.value.id in old(db.grades) && db.nextId == old(db.nextId)
              && old(db.grades)[r.value.id].student == student && old(db.grades)[r.value.id].subject == subject
              && r.value.body == WithFinalGrade(Encoded(old(db.grades)[r.value.id], midterm, finals, projects, participation, remarks, caller.id, now))
    ensures r.Ok? && !GradeExists(old(db.grades), student, subject) ==>
              && r.value.id == old(db.nextId) && db.nextId == old(db.nextId) + 1
              && r.value.body == WithFinalGrade(Encoded(NewGrade(student, subject, caller.id, now),
                                                        midterm, finals, projects, participation, remarks, caller.id, now))
  {
    var id, grade, created := FindOrCreate(db.grades, db.nextId, student, subject, caller.id, now);
    EncodedInRange(grade, midterm, finals, projects, participation, remarks, caller.id, now);
    grade := AssignFields(grade, midterm, finals, projects, participation, remarks, caller.id, now);
    if !ComponentsInRange(grade) {
      return Err(ServerError, MsgServerError);
    }
    var saved := SaveWithHook(db, id, grade);
    r := Ok(Doc(id, saved));
  }

  /** `encodeGrades`: both ids are required and must resolve before the record is touched. */
  method EncodeGrades(db: Database, caller: Caller, studentId: Option<Id>, subjectId: Option<Id>,
                      midterm: Patch, finals: Patch, projects: Patch, participation: Patch,
                      remarks: string, now: Time) returns (r: Response<Doc<Grade>>)
    requires db.Valid()
    modifies db`grades, db`nextId
    ensures db.Valid()
    ensures studentId.None? || subjectId.None? ==> r == Err(BadRequest, MsgIdsRequired)
    ensures studentId.Some? && subjectId.Some? && (studentId.value !in old(db.users) || subjectId.value !in old(db.subjects)) ==>
              r == Err(NotFound, MsgNotFound)
    ensures studentId.Some? && subjectId.Some? && studentId.value in old(db.users) && subjectId.value in old(db.subjects)
            && !PatchesInRange(midterm, finals, projects, participation) ==>
              r == Err(ServerError, MsgServerError)
    ensures r.Err? ==> unchanged(db)
    ensures r.Ok? <==> studentId.Some? && subjectId.Some? && studentId.value in old(db.users)
                       && subjectId.value in old(db.subjects) && PatchesInRange(midterm, finals, projects, participation)
    ensures r.Ok? ==> db.grades == old(db.grades)[r.value.id := r.value.body] && WellFormed(r.value.body)
    ensures r.Ok? && GradeExists(old(db.grades), studentId.value, subjectId.value) ==>
              && r.value.id in old(db.grades) && db.nextId == old(db.nextId)
              && old(db.grades)[r.value.id].student == studentId.value && old(db.grades)[r.value.id].subject == subjectId.value
              && r.value.body == WithFinalGrade(Encoded(old(db.grades)[r.value.id], midterm, finals, projects, participation, remarks, caller.id, now))
    ensures r.Ok? && !GradeExists(old(db.grades), studentId.value, subjectId.value) ==>
              && r.value.id == old(db.nextId) && db.nextId == old(db.nextId) + 1
              && r.value.body == WithFinalGrade(Encoded(NewGrade(studentId.value, subjectId.value, caller.id, now),
                                                        midterm, finals, projects, participation, remarks, caller.id, now))
  {
    if studentId.None? || subjectId.None? {
      return Err(BadRequest, MsgIdsRequired);
    }
    if studentId.value !in db.users || subjectId.value !in db.subjects {
      return Err(NotFound, MsgNotFound);
    }
    r := EncodeResolved(db, caller, studentId.value, subjectId.value, midterm, finals, projects, participation, remarks, now);
  }

  /** `getGrades`: a student may read only their own grades; anyone else reads any student's. */
  method GetGrades(db: Database, caller: Caller, studentId: Id) returns (r: Response<seq<Doc<Grade>>>)
    ensures r.Err? <==> caller.role == Student && caller.id != studentId
    ensures r.Err? ==> r == Err(Forbidden, MsgOwnGrades)
    ensures r.Ok? ==> forall i, j :: 0 <= i < j < |r.value| ==> r.value[i].id != r.value[j].id
    ensures r.Ok? ==> forall i :: 0 <= i < |r.value| ==>
                        r.value[i].id in db.grades && db.grades[r.value[i].id] == r.value[i].body
                        && r.value[i].body.student == studentId
    ensures r.Ok? ==> forall k :: k in db.grades && db.grades[k].student == studentId ==>
                        exists i :: 0 <= i < |r.value| && r.value[i].id == k
  {
    if caller.role == Student && caller.id != studentId {
      return Err(Forbidden, MsgOwnGrades);
    }
    var ids := SelectKeys(db.grades, (g: Grade) => g.student == studentId);
    var ds := Docs(db.grades, ids);
    forall k | k in db.grades && db.grades[k].student == studentId
      ensures exists i :: 0 <= i < |ds| && ds[i].id == k
    {
      var i :| 0 <= i < |ids| && ids[i] == k;
      assert ds[i].id == k;
    }
    r := Ok(ds);
  }
}
