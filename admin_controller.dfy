/** The admin handlers (backend/controllers/adminController.js): account provisioning with
    default passwords, activation, password reset and two-sided enrolment. */
module AdminController {
  import opened Common
  import opened Text
  import opened UserModel
  import opened SubjectModel
  import opened Store
  import opened AuthController

  const MsgNamesRequired := "Email, first name, and last name are required"
  const MsgEmailTaken := "Email already registered"
  const MsgStudentCreationFailed := "Server error during student creation"
  const MsgTeacherCreationFailed := "Server error during teacher creation"
  const MsgUserNotFound := "User not found"
  const MsgEnrolNotFound := "Student or subject not found"

  /** The default password: the lowercased first initial, the lowercased last name, then "123456".
      An empty first name contributes no initial (`charAt(0)` of "" is ""). */
  function DefaultPassword(firstName: string, lastName: string): (p: string)
    ensures |p| >= 6 && NoUpper(p[..|p| - 6]) && p[|p| - 6..] == "123456"
    ensures firstName != "" ==> |p| == |lastName| + 7 && p[0] == LowerChar(firstName[0]) && p[1..|p| - 6] == Lower(lastName)
    ensures firstName == "" ==> p == Lower(lastName) + "123456"
  {
    var initial := if firstName == "" then "" else firstName[..1];
    LowerConcat(initial, lastName);
    Lower(initial) + Lower(lastName) + "123456"
  }

  /** Names already in lower case appear as typed. */
  lemma DefaultPasswordOfLowerNames(firstName: string, lastName: string)
    requires firstName != "" && NoUpper(firstName) && NoUpper(lastName)
    ensures DefaultPassword(firstName, lastName) == [firstName[0]] + lastName + "123456"
  {
    var initial := firstName[..1];
    LowerOfNoUpper(lastName);
    LowerOfNoUpper(initial);
    assert initial == [firstName[0]];
  }

  /** The password depends on the last name and the first initial only. */
  lemma DefaultPasswordUsesInitialOnly(a: string, b: string, lastName: string)
    requires a != "" && b != "" && a[0] == b[0]
    ensures DefaultPassword(a, lastName) == DefaultPassword(b, lastName)
  {
    assert a[..1] == b[..1];
  }

  /** A teacher's identifier: "TECH-" and the millisecond timestamp. */
  function TeacherId(millis: Time): (r: string)
    ensures |r| > 5 && r[..5] == "TECH-" && AllDigits(r[5..]) && DigitsValue(r[5..]) == millis
  {
    NatToStringRoundTrip(millis);
    assert ("TECH-" + NatToString(millis))[5..] == NatToString(millis);
    "TECH-" + NatToString(millis)
  }

  /** Teacher ids collide exactly for creations in the same millisecond. */
  lemma TeacherIdSameMillisecond(a: Time, b: Time)
    ensures TeacherId(a) == TeacherId(b) <==> a == b
  {
    NatToStringInjective(a, b);
    if TeacherId(a) == TeacherId(b) {
      assert TeacherId(a)[5..] == NatToString(a);
      assert TeacherId(b)[5..] == NatToString(b);
    }
  }

  /** A student id and a teacher id never collide: their prefixes differ. */
  lemma StudentAndTeacherIdsDiffer(d: DateParts, millis: Time)
    ensures GenerateStudentID(d) != TeacherId(millis)
  {
    assert GenerateStudentID(d)[0] == 'S';
    assert TeacherId(millis)[0] == 'T';
  }

  /** What a successful creation answers with. */
  datatype Created = Created(id: Id, studentID: string, email: string, firstName: string, lastName: string, defaultPassword: string)

  /** The account a creation saves. */
  function Provisioned(studentID: string, email: string, firstName: string, lastName: string, contact: string,
                       role: Role, admin: Id, now: Time): (u: User)
    ensures u.studentID == studentID && u.email == NormalizeEmail(email) && u.role == role
    ensures ComparePassword(DefaultPassword(firstName, lastName), u.password)
    ensures u.firstName == firstName && u.lastName == lastName && u.contact == contact
    ensures u.isActive && u.mustChangePassword && u.createdBy == Some(admin) && u.enrolledSubjects == []
  {
    NewUser(studentID, email, DefaultPassword(firstName, lastName), firstName, lastName, contact, role, true, true, Some(admin), now)
  }

  /** The shared body of the two creation handlers, given the identifier the handler generates.
      A collision on the unique `studentID` index, or an email the setters trim to nothing,
      fails inside `save`. */
  method Provision(db: Database, admin: Caller, studentID: string, role: Role, email: string, firstName: string,
                   lastName: string, contact: string, now: Time, failure: string) returns (r: Response<Created>)
    requires db.Valid()
    modifies db`users, db`nextId
    ensures db.Valid()
    ensures email == "" || firstName == "" || lastName == "" ==> r == Err(BadRequest, MsgNamesRequired)
    ensures email != "" && firstName != "" && lastName != "" && EmailTaken(old(db.users), NormalizeEmail(email)) ==>
              r == Err(BadRequest, MsgEmailTaken)
    ensures email != "" && firstName != "" && lastName != "" && !EmailTaken(old(db.users), NormalizeEmail(email))
            && (NormalizeEmail(email) == "" || StudentIdTaken(old(db.users), studentID)) ==>
              r == Err(ServerError, failure)
    ensures r.Err? ==> unchanged(db)
    ensures r.Ok? <==> && email != "" && firstName != "" && lastName != "" && NormalizeEmail(email) != ""
                       && !EmailTaken(old(db.users), NormalizeEmail(email)) && !StudentIdTaken(old(db.users), studentID)
    ensures r.Ok? ==> && r.value.id == old(db.nextId) && r.value.id !in old(db.users) && db.nextId == old(db.nextId) + 1
                      && db.users == old(db.users)[r.value.id := Provisioned(studentID, email, firstName, lastName, contact, role, admin.id, now)]
                      && r.value == Created(r.value.id, studentID, NormalizeEmail(email), firstName, lastName, DefaultPassword(firstName, lastName))
  {
    if email == "" || firstName == "" || lastName == "" {
      return Err(BadRequest, MsgNamesRequired);
    }
    var existing := FindUserByEmail(db.users, NormalizeEmail(email));
    if existing.Some? {
      return Err(BadRequest, MsgEmailTaken);
    }
    var defaultPassword := DefaultPassword(firstName, lastName);
    var u := Provisioned(studentID, email, firstName, lastName, contact, role, admin.id, now);
    if u.email == "" || exists k :: k in db.users && db.users[k].studentID == studentID {
      return Err(ServerError, failure);
    }
    var id := db.nextId;
    SaveUser(db, id, u);
    r := Ok(Created(id, u.studentID, u.email, firstName, lastName, defaultPassword));
  }

  /** `createStudent` as written. Line 4 takes `generateStudentID` from the exports of
      authController.js, which declares it as a local constant and never exports it, so the
      name is undefined and the call at line 26 throws. Whatever passes the two 400 checks
      ends in the catch block's 500, and nothing is saved. */
  method CreateStudentAsWritten(db: Database, email: string, firstName: string, lastName: string)
    returns (r: Response<Created>)
    ensures r.Err?
    ensures email == "" || firstName == "" || lastName == "" ==> r == Err(BadRequest, MsgNamesRequired)
    ensures email != "" && firstName != "" && lastName != "" && EmailTaken(db.users, NormalizeEmail(email)) ==>
              r == Err(BadRequest, MsgEmailTaken)
    ensures email != "" && firstName != "" && lastName != "" && !EmailTaken(db.users, NormalizeEmail(email)) ==>
              r == Err(ServerError, MsgStudentCreationFailed)
  {
    if email == "" || firstName == "" || lastName == "" {
      return Err(BadRequest, MsgNamesRequired);
    }
    var existing := FindUserByEmail(db.users, NormalizeEmail(email));
    if existing.Some? {
      return Err(BadRequest, MsgEmailTaken);
    }
    r := Err(ServerError, MsgStudentCreationFailed);
  }

  /** An input on which the two versions part: on an empty database a well-formed address
      meets every condition under which `CreateStudent` answers `Ok`, while
      `CreateStudentAsWritten` answers 500 for it. */
  lemma CreateStudentFreshEmail(d: DateParts)
    ensures NormalizeEmail("ana@x.com") == "ana@x.com"
    ensures !EmailTaken(map[], NormalizeEmail("ana@x.com"))
    ensures !StudentIdTaken(map[], GenerateStudentID(d))
  {
    ExampleAddressNormal();
    NoneTaken(NormalizeEmail("ana@x.com"), GenerateStudentID(d));
  }

  lemma NoneTaken(email: string, studentID: string)
    ensures !EmailTaken(map[], email) && !StudentIdTaken(map[], studentID)
  {
  }

  lemma ExampleAddressNormal()
    ensures NormalizeEmail("ana@x.com") == "ana@x.com"
  {
    var e := "ana@x.com";
    assert e[0] == 'a' && e[|e| - 1] == 'm';
    assert forall i :: 0 <= i < |e| ==> 'a' <= e[i] <= 'z' || e[i] == '@' || e[i] == '.';
    NormalizeEmailOfPlain(e);
  }

  /** `createStudent` as evidently intended, with `generateStudentID` in scope: a student
      account with a `STU-` id from the current second. */
  method CreateStudent(db: Database, admin: Caller, email: string, firstName: string, lastName: string,
                       contact: string, clock: Clock) returns (r: Response<Created>)
    requires db.Valid()
    modifies db`users, db`nextId
    ensures db.Valid()
    ensures email == "" || firstName == "" || lastName == "" ==> r == Err(BadRequest, MsgNamesRequired)
    ensures email != "" && firstName != "" && lastName != "" && EmailTaken(old(db.users), NormalizeEmail(email)) ==>
              r == Err(BadRequest, MsgEmailTaken)
    ensures email != "" && firstName != "" && lastName != "" && !EmailTaken(old(db.users), NormalizeEmail(email))
            && (NormalizeEmail(email) == "" || StudentIdTaken(old(db.users), GenerateStudentID(clock.local))) ==>
              r == Err(ServerError, MsgStudentCreationFailed)
    ensures r.Err? ==> unchanged(db)
    ensures r.Ok? <==> && email != "" && firstName != "" && lastName != "" && NormalizeEmail(email) != ""
                       && !EmailTaken(old(db.users), NormalizeEmail(email)) && !StudentIdTaken(old(db.users), GenerateStudentID(clock.local))
    ensures r.Ok? ==> && r.value.id == old(db.nextId) && db.nextId == old(db.nextId) + 1
                      && db.users == old(db.users)[r.value.id := Provisioned(GenerateStudentID(clock.local), email, firstName,
                                                                              lastName, contact, Student, admin.id, clock.millis)]
                      && r.value.defaultPassword == DefaultPassword(firstName, lastName)
  {
    r := Provision(db, admin, GenerateStudentID(clock.local), Student, email, firstName, lastName, contact,
                   clock.millis, MsgStudentCreationFailed);
  }

  /** `createTeacher`: a teacher account with a `TECH-` id from the current millisecond. */
  method CreateTeacher(db: Database, admin: Caller, email: string, firstName: string, lastName: string,
                       contact: string, clock: Clock) returns (r: Response<Created>)
    requires db.Valid()
    modifies db`users, db`nextId
    ensures db.Valid()
    ensures email == "" || firstName == "" || lastName == "" ==> r == Err(BadRequest, MsgNamesRequired)
    ensures email != "" && firstName != "" && lastName != "" && EmailTaken(old(db.users), NormalizeEmail(email)) ==>
              r == Err(BadRequest, MsgEmailTaken)
    ensures email != "" && firstName != "" && lastName != "" && !EmailTaken(old(db.users), NormalizeEmail(email))
            && (NormalizeEmail(email) == "" || StudentIdTaken(old(db.users), TeacherId(clock.millis))) ==>
              r == Err(ServerError, MsgTeacherCreationFailed)
    ensures r.Err? ==> unchanged(db)
    ensures r.Ok? <==> && email != "" && firstName != "" && lastName != "" && NormalizeEmail(email) != ""
                       && !EmailTaken(old(db.users), NormalizeEmail(email)) && !StudentIdTaken(old(db.users), TeacherId(clock.millis))
    ensures r.Ok? ==> && r.value.id == old(db.nextId) && db.nextId == old(db.nextId) + 1
                      && db.users == old(db.users)[r.value.id := Provisioned(TeacherId(clock.millis), email, firstName,
                                                                              lastName, contact, Teacher, admin.id, clock.millis)]
                      && r.value.defaultPassword == DefaultPassword(firstName, lastName)
  {
    r := Provision(db, admin, TeacherId(clock.millis), Teacher, email, firstName, lastName, contact,
                   clock.millis, MsgTeacherCreationFailed);
  }

  /** `findByIdAndUpdate(userId, { isActive })`, shared by `deactivateUser` and `activateUser`. */
  method SetActive(db: Database, userId: Id, active: bool) returns (r: Response<PublicUser>)
    requires db.Valid()
    modifies db`users, db`nextId
    ensures db.Valid()
    ensures userId !in old(db.users) <==> r.Err?
    ensures r.Err? ==> r == Err(NotFound, MsgUserNotFound) && unchanged(db)
    ensures r.Ok? ==> && db.users == old(db.users)[userId := old(db.users)[userId].(isActive := active)]
                      && db.nextId == old(db.nextId) && r.value == ToJson(db.users[userId])
  {
    if userId !in db.users {
      return Err(NotFound, MsgUserNotFound);
    }
    var user := db.users[userId].(isActive := active);
    ResaveUser(db, userId, user);
    r := Ok(ToJson(user));
  }

  /** `deactivateUser`: only `isActive` changes, to false. */
  method DeactivateUser(db: Database, userId: Id) returns (r: Response<PublicUser>)
    requires db.Valid()
    modifies db`users, db`nextId
    ensures db.Valid()
    ensures userId !in old(db.users) <==> r.Err?
    ensures r.Err? ==> r == Err(NotFound, MsgUserNotFound) && unchanged(db)
    ensures r.Ok? ==> && db.users == old(db.users)[userId := old(db.users)[userId].(isActive := false)]
                      && db.nextId == old(db.nextId) && !r.value.isActive
  {
    r := SetActive(db, userId, false);
  }

  /** `activateUser`: only `isActive` changes, to true. */
  method ActivateUser(db: Database, userId: Id) returns (r: Response<PublicUser>)
    requires db.Valid()
    modifies db`users, db`nextId
    ensures db.Valid()
    ensures userId !in old(db.users) <==> r.Err?
    ensures r.Err? ==> r == Err(NotFound, MsgUserNotFound) && unchanged(db)
    ensures r.Ok? ==> && db.users == old(db.users)[userId := old(db.users)[userId].(isActive := true)]
                      && db.nextId == old(db.nextId) && r.value.isActive
  {
    r := SetActive(db, userId, true);
  }

  /** Activation is idempotent: setting the flag twice is setting it once. */
  lemma SetActiveIdempotent(u: User, active: bool)
    ensures u.(isActive := active).(isActive := active) == u.(isActive := active)
    ensures ToJson(u.(isActive := active)) == ToJson(u).(isActive := active)
  {
  }

  /** What a reset answers with. */
  datatype ResetInfo = ResetInfo(userEmail: string, newPassword: string)

  /** `resetPassword`: the default password rebuilt from the account's current names, hashed on
      save, and the must-change flag raised; the student id is kept. */
  method ResetPassword(db: Database, userId: Id) returns (r: Response<ResetInfo>)
    requires db.Valid()
    modifies db`users, db`nextId
    ensures db.Valid()
    ensures userId !in old(db.users) <==> r.Err?
    ensures r.Err? ==> r == Err(NotFound, MsgUserNotFound) && unchanged(db)
    ensures r.Ok? ==> var u := old(db.users)[userId];
              && db.users == old(db.users)[userId := u.(password := Hash(DefaultPassword(u.firstName, u.lastName)),
                                                        mustChangePassword := true)]
              && db.nextId == old(db.nextId)
              && r.value == ResetInfo(u.email, DefaultPassword(u.firstName, u.lastName))
    ensures r.Ok? ==> forall p :: ComparePassword(p, db.users[userId].password) <==> p == r.value.newPassword
  {
    if userId !in db.users {
      return Err(NotFound, MsgUserNotFound);
    }
    var user := db.users[userId];
    var newPassword := DefaultPassword(user.firstName, user.lastName);
    user := user.(password := PreSavePassword(user.password, Some(newPassword)));
    user := user.(mustChangePassword := true);
    ResaveUser(db, userId, user);
    r := Ok(ResetInfo(user.email, newPassword));
  }

  /** `if (!xs.includes(x)) xs.push(x)`. */
  function AddOnce(xs: seq<Id>, x: Id): (r: seq<Id>)
    ensures x in xs ==> r == xs
    ensures x !in xs ==> r == xs + [x]
    ensures forall y :: y in r <==> y in xs || y == x
    ensures NoDuplicates(xs) ==> NoDuplicates(r)
  {
    if x in xs then xs else xs + [x]
  }

  /** A repeated enrolment changes nothing. */
  lemma AddOnceIdempotent(xs: seq<Id>, x: Id)
    ensures AddOnce(AddOnce(xs, x), x) == AddOnce(xs, x)
  {
  }

  /** The student's side of an enrolment: the subject pushed unless already listed, then saved. */
  method EnrolStudentSide(db: Database, student: Id, subject: Id) returns (u: User)
    requires db.Valid() && student in db.users && subject in db.subjects
    modifies db`users, db`nextId
    ensures db.Valid()
    ensures u == old(db.users)[student].(enrolledSubjects := AddOnce(old(db.users)[student].enrolledSubjects, subject))
    ensures db.users == old(db.users)[student := u] && db.nextId == old(db.nextId)
  {
    u := db.users[student];
    if subject !in u.enrolledSubjects {
      u := u.(enrolledSubjects := u.enrolledSubjects + [subject]);
      SaveUser(db, student, u);
    }
  }

  /** The subject's side of an enrolment: the student pushed unless already listed, then saved. */
  method EnrolSubjectSide(db: Database, subject: Id, student: Id) returns (c: Subject)
    requires db.Valid() && student in db.users && subject in db.subjects
    modifies db`subjects, db`nextId
    ensures db.Valid()
    ensures c == old(db.subjects)[subject].(enrolledStudents := AddOnce(old(db.subjects)[subject].enrolledStudents, student))
    ensures db.subjects == old(db.subjects)[subject := c] && db.nextId == old(db.nextId)
  {
    c := db.subjects[subject];
    if student !in c.enrolledStudents {
      c := c.(enrolledStudents := c.enrolledStudents + [student]);
      SaveSubject(db, subject, c);
    }
  }

  /** `enrollStudentInSubject`: both sides record the enrolment, each only if absent. Any
      account may be enrolled; its role is not checked. */
  method EnrollStudentInSubject(db: Database, studentId: Option<Id>, subjectId: Option<Id>) returns (r: Response<PublicUser>)
    requires db.Valid()
    modifies db`users, db`subjects, db`nextId
    ensures db.Valid()
    ensures r.Err? <==> studentId.None? || subjectId.None? || studentId.value !in old(db.users) || subjectId.value !in old(db.subjects)
    ensures r.Err? ==> r == Err(NotFound, MsgEnrolNotFound) && unchanged(db)
    ensures r.Ok? ==> var s, c := studentId.value, subjectId.value;
              && db.users == old(db.users)[s := old(db.users)[s].(enrolledSubjects := AddOnce(old(db.users)[s].enrolledSubjects, c))]
              && db.subjects == old(db.subjects)[c := old(db.subjects)[c].(enrolledStudents := AddOnce(old(db.subjects)[c].enrolledStudents, s))]
              && db.nextId == old(db.nextId)
              && r.value == ToJson(db.users[s])
  {
    if studentId.None? || subjectId.None? || studentId.value !in db.users || subjectId.value !in db.subjects {
      return Err(NotFound, MsgEnrolNotFound);
    }
    var student := EnrolStudentSide(db, studentId.value, subjectId.value);
    var subject := EnrolSubjectSide(db, subjectId.value, studentId.value);
    r := Ok(ToJson(student));
  }
}
