/** The `auth` and `authorize` middleware (backend/middleware/auth.js) and the role lists
    each route puts in front of its handler (backend/routes/*.js). Token verification
    is the parameter `verify`: the decoded payload of a valid token, `None` for a token
    `jwt.verify` rejects. */
module AuthMiddleware {
  import opened Common
  import opened Text

  const MsgNoToken := "No token provided, authorization denied"
  const MsgBadToken := "Token is not valid"
  const MsgAuthRequired := "Authorization required"
  const MsgNoPermission := "Access denied. Insufficient permissions"

  /** `req.header("Authorization")?.replace("Bearer ", "")`: no header gives no token. */
  function BearerToken(header: Option<string>): (token: Option<string>)
    ensures header.None? <==> token.None?
  {
    match header
    case None => None
    case Some(h) => Some(ReplaceFirst(h, "Bearer ", ""))
  }

  lemma BearerTokenOfBearerHeader(t: string)
    ensures BearerToken(Some("Bearer " + t)) == Some(t)
  {
    var h := "Bearer " + t;
    assert h[..7] == "Bearer ";
    ReplaceFirstAtStart(h, "Bearer ");
    assert h[7..] == t;
  }

  /** `auth`: an absent or empty token is refused, an invalid one too (with a different
      message), and a valid one attaches its payload as `req.user`. */
  function Auth(header: Option<string>, verify: string -> Option<Caller>): (r: Response<Caller>)
    ensures (BearerToken(header).None? || BearerToken(header) == Some("")) ==> r == Err(Unauthorized, MsgNoToken)
    ensures r.Ok? <==> BearerToken(header).Some? && BearerToken(header).value != ""
                       && verify(BearerToken(header).value).Some?
    ensures r.Ok? ==> r.value == verify(BearerToken(header).value).value
    ensures r.Err? ==> r.code == Unauthorized
  {
    var token := BearerToken(header);
    if token.None? || token.value == "" then Err(Unauthorized, MsgNoToken)
    else
      match verify(token.value)
      case None => Err(Unauthorized, MsgBadToken)
      case Some(c) => Ok(c)
  }

  /** `authorize(...roles)`: 401 without a user, 403 for a role outside the list. */
  function Authorize(user: Option<Caller>, roles: seq<Role>): (r: Response<Caller>)
    ensures user.None? ==> r == Err(Unauthorized, MsgAuthRequired)
    ensures user.Some? && user.value.role !in roles ==> r == Err(Forbidden, MsgNoPermission)
    ensures r.Ok? <==> user.Some? && user.value.role in roles
    ensures r.Ok? ==> r.value == user.value
  {
    match user
    case None => Err(Unauthorized, MsgAuthRequired)
    case Some(c) => if c.role in roles then Ok(c) else Err(Forbidden, MsgNoPermission)
  }

  /** What a route puts in front of its handler. */
  datatype Access = Public | Authenticated | Roles(allowed: seq<Role>)

  /** Every route of the API. */
  datatype Route =
    | Login | ChangePassword | CurrentUser | UpdateProfile
    | CreateStudent | CreateTeacher | ListStudents | ListTeachers
    | DeactivateUser | ActivateUser | ResetPassword | EnrollStudent
    | ListAnnouncements | GetAnnouncement | CreateAnnouncement | UpdateAnnouncement | DeleteAnnouncement
    | StudentGrades | SubjectGrades | EncodeGrades
    | TuitionBalance | PaymentRecords | ListPayments | CreatePayment | UpdatePayment
    | ListSubjects | GetSubject | CreateSubject | UpdateSubject | AssignTeacher

  predicate IsAdminRoute(r: Route)
  {
    r in {CreateStudent, CreateTeacher, ListStudents, ListTeachers, DeactivateUser, ActivateUser, ResetPassword, EnrollStudent}
  }

  /** The middleware chain each router gives its routes. */
  function AccessFor(r: Route): Access
  {
    if IsAdminRoute(r) then Roles([Admin])
    else match r
      case Login => Public
      case CreateAnnouncement => Roles([Teacher, Admin])
      case SubjectGrades => Roles([Teacher, Admin])
      case EncodeGrades => Roles([Teacher])
      case ListPayments => Roles([Admin])
      case CreatePayment => Roles([Admin])
      case UpdatePayment => Roles([Admin])
      case CreateSubject => Roles([Admin])
      case UpdateSubject => Roles([Admin])
      case AssignTeacher => Roles([Admin])
      case _ => Authenticated
  }

  /** The chain run on a request: `Ok(Some(caller))` reaches the handler with `req.user`
      set, `Ok(None)` reaches a public handler, an `Err` is the middleware's response. */
  function Gate(route: Route, header: Option<string>, verify: string -> Option<Caller>): (r: Response<Option<Caller>>)
    ensures AccessFor(route) == Public ==> r == Ok(None)
    ensures AccessFor(route) != Public && Auth(header, verify).Err? ==> r == Err(Unauthorized, Auth(header, verify).message)
    ensures AccessFor(route) == Authenticated ==> (r.Ok? <==> Auth(header, verify).Ok?)
    ensures AccessFor(route).Roles? && Auth(header, verify).Ok? ==>
              r == (if Auth(header, verify).value.role in AccessFor(route).allowed
                    then Ok(Some(Auth(header, verify).value)) else Err(Forbidden, MsgNoPermission))
  {
    match AccessFor(route)
    case Public => Ok(None)
    case Authenticated =>
      (match Auth(header, verify)
       case Err(code, msg) => Err(code, msg)
       case Ok(c) => Ok(Some(c)))
    case Roles(allowed) =>
      (match Auth(header, verify)
       case Err(code, msg) => Err(code, msg)
       case Ok(c) =>
         match Authorize(Some(c), allowed)
         case Err(code, msg) => Err(code, msg)
         case Ok(d) => Ok(Some(d)))
  }

  /** A request passes a role-restricted route exactly when its token is valid and the
      caller's role is one the route lists. */
  lemma GateRoles(route: Route, header: Option<string>, verify: string -> Option<Caller>)
    requires AccessFor(route).Roles?
    ensures Gate(route, header, verify).Ok? <==>
              Auth(header, verify).Ok? && Auth(header, verify).value.role in AccessFor(route).allowed
    ensures Gate(route, header, verify).Ok? ==> Gate(route, header, verify).value == Some(Auth(header, verify).value)
  {
  }

  /** Every admin route admits admins only. */
  lemma AdminRoutesAdminOnly(route: Route, header: Option<string>, verify: string -> Option<Caller>)
    requires IsAdminRoute(route)
    ensures Gate(route, header, verify).Ok? <==> Auth(header, verify).Ok? && Auth(header, verify).value.role == Admin
  {
  }

  /** Encoding grades admits teachers only (an admin gets 403); reading a subject's
      grades admits teachers and admins. */
  lemma GradeRouteRoles(header: Option<string>, verify: string -> Option<Caller>)
    ensures Gate(EncodeGrades, header, verify).Ok? <==> Auth(header, verify).Ok? && Auth(header, verify).value.role == Teacher
    ensures Auth(header, verify).Ok? && Auth(header, verify).value.role == Admin ==>
              Gate(EncodeGrades, header, verify) == Err(Forbidden, MsgNoPermission)
    ensures Gate(SubjectGrades, header, verify).Ok? <==> Auth(header, verify).Ok? && Auth(header, verify).value.role != Student
  {
  }

  /** Listing, creating and updating payments admits admins only; the balance and the
      records of a student need only a valid token. */
  lemma PaymentRouteRoles(route: Route, header: Option<string>, verify: string -> Option<Caller>)
    ensures route in {ListPayments, CreatePayment, UpdatePayment} ==>
              (Gate(route, header, verify).Ok? <==> Auth(header, verify).Ok? && Auth(header, verify).value.role == Admin)
    ensures route in {TuitionBalance, PaymentRecords} ==>
              (Gate(route, header, verify).Ok? <==> Auth(header, verify).Ok?)
  {
  }

  /** Only the login route is reachable without a valid token. */
  lemma OnlyLoginIsPublic(route: Route, header: Option<string>, verify: string -> Option<Caller>)
    ensures Gate(route, header, verify).Ok? && Auth(header, verify).Err? ==> route == Login
  {
  }
}
