/** The subject schema (backend/models/Subject.js): a course and its defaults. */
module SubjectModel {
  import opened Common

  /** One course. `code` is unique and trimmed; `units` defaults to 3. */
  datatype Subject = Subject(
    code: string,
    name: string,
    description: string,
    units: int,
    semester: int,
    assignedTeacher: Option<Id>,
    enrolledStudents: seq<Id>,
    createdAt: Time)

  const DefaultUnits := 3
}

/** The announcement schema (backend/models/Announcement.js) and who may see what. */
module AnnouncementModel {
  import opened Common

  /** The `target` enum: "all", "students", "teachers", "admin". */
  datatype Target = All | Students | Teachers | AdminOnly

  datatype Announcement = Announcement(
    title: string,
    content: string,
    createdBy: Id,
    target: Target,
    subject: Option<Id>,
    isActive: bool,
    createdAt: Time)

  /** The enum cast of a request's `target` string; `None` is a value the enum validator rejects. */
  function ParseTarget(s: string): (r: Option<Target>)
    ensures r.Some? <==> s in ["all", "students", "teachers", "admin"]
  {
    if s == "all" then Some(All)
    else if s == "students" then Some(Students)
    else if s == "teachers" then Some(Teachers)
    else if s == "admin" then Some(AdminOnly)
    else None
  }

  /** The audience filter of the announcement list: a student sees `all` and `students`,
      a teacher `all` and `teachers`, an admin every target. */
  predicate VisibleTo(role: Role, t: Target)
  {
    match role
    case Student => t == All || t == Students
    case Teacher => t == All || t == Teachers
    case Admin => true
  }

  /** An `admin` target is seen by admins only, and `all` by everyone. */
  lemma VisibilityFacts(role: Role)
    ensures VisibleTo(role, AdminOnly) <==> role == Admin
    ensures VisibleTo(role, All)
    ensures VisibleTo(role, Students) <==> role != Teacher
    ensures VisibleTo(role, Teachers) <==> role != Student
  {
  }
}
