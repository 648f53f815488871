/** The account handlers every role uses (backend/controllers/authController.js):
    student-id generation, login, password change and profile update. Token signing is
    not modelled; a successful login answers with the account summary only. */
module AuthController {
  import opened Common
  import opened Text
  import opened UserModel
  import opened Store

  const MsgCredentialsRequired := "Email and password are required"
  const MsgInvalidCredentials := "Invalid email or password"
  const MsgDeactivated := "Your account has been deactivated"
  const MsgAllFieldsRequired := "All fields are required"
  const MsgNoMatch := "New passwords do not match"
  const MsgTooShort := "Password must be at least 6 characters"
  const MsgUserNotFound := "User not found"
  const MsgWrongCurrent := "Current password is incorrect"

  /** `generateStudentID`: "STU-", the four-digit year, then the 1-based month, the day, the
      hours, the minutes and the seconds, each padded to two digits. */
  function GenerateStudentID(d: DateParts): string
  {
    "STU-" + NatToString(d.year) + Pad2(d.month + 1) + Pad2(d.day) + Pad2(d.hours) + Pad2(d.minutes) + Pad2(d.seconds)
  }

  /** Six digit strings concatenate to a digit string. */
  lemma SixDigitParts(a: string, b: string, c: string, e: string, f: string, g: string)
    requires AllDigits(a) && AllDigits(b) && AllDigits(c) && AllDigits(e) && AllDigits(f) && AllDigits(g)
    ensures AllDigits(a + b + c + e + f + g)
  {
    DigitsConcat(a, b);
    DigitsConcat(a + b, c);
    DigitsConcat(a + b + c, e);
    DigitsConcat(a + b + c + e, f);
    DigitsConcat(a + b + c + e + f, g);
  }

  /** Dropping the prefix of a left-nested concatenation leaves the other six parts. */
  lemma PrefixTail(p: string, a: string, b: string, c: string, e: string, f: string, g: string)
    ensures (p + a + b + c + e + f + g)[..|p|] == p
    ensures (p + a + b + c + e + f + g)[|p|..] == a + b + c + e + f + g
  {
    assert p + a + b + c + e + f + g == p + (a + b + c + e + f + g);
  }

  /** After the prefix, an identifier is made of decimal digits only. */
  lemma StudentIdDigits(d: DateParts)
    ensures |GenerateStudentID(d)| > 4 && GenerateStudentID(d)[..4] == "STU-" && AllDigits(GenerateStudentID(d)[4..])
  {
    var y, m, dd, h, mi, sec := NatToString(d.year), Pad2(d.month + 1), Pad2(d.day), Pad2(d.hours), Pad2(d.minutes), Pad2(d.seconds);
    SixDigitParts(y, m, dd, h, mi, sec);
    PrefixTail("STU-", y, m, dd, h, mi, sec);
  }

  /** Calendar fields a `Date` of the years 1000 to 9999 can have. */
  predicate CalendarFields(d: DateParts)
  {
    1000 <= d.year < 10000 && d.month < 12 && 1 <= d.day <= 31 && d.hours < 24 && d.minutes < 60 && d.seconds < 60
  }

  /** Two concatenations with equally long first parts agree exactly when the parts do. */
  lemma ConcatParts(a: string, b: string, c: string, e: string)
    requires |a| == |c|
    ensures a + b == c + e <==> a == c && b == e
  {
    if a + b == c + e {
      assert a == (a + b)[..|a|] && c == (c + e)[..|c|];
      assert b == (a + b)[|a|..] && e == (c + e)[|c|..];
    }
  }

  /** Seven-part concatenations with equally long parts are equal only part by part. */
  lemma SevenParts(p1: string, p2: string, p3: string, p4: string, p5: string, p6: string, p7: string,
                   q1: string, q2: string, q3: string, q4: string, q5: string, q6: string, q7: string)
    requires |p1| == |q1| && |p2| == |q2| && |p3| == |q3| && |p4| == |q4| && |p5| == |q5| && |p6| == |q6|
    requires p1 + p2 + p3 + p4 + p5 + p6 + p7 == q1 + q2 + q3 + q4 + q5 + q6 + q7
    ensures p1 == q1 && p2 == q2 && p3 == q3 && p4 == q4 && p5 == q5 && p6 == q6 && p7 == q7
  {
    ConcatParts(p1 + p2 + p3 + p4 + p5 + p6, p7, q1 + q2 + q3 + q4 + q5 + q6, q7);
    ConcatParts(p1 + p2 + p3 + p4 + p5, p6, q1 + q2 + q3 + q4 + q5, q6);
    ConcatParts(p1 + p2 + p3 + p4, p5, q1 + q2 + q3 + q4, q5);
    ConcatParts(p1 + p2 + p3, p4, q1 + q2 + q3, q4);
    ConcatParts(p1 + p2, p3, q1 + q2, q3);
    ConcatParts(p1, p2, q1, q2);
  }

  /** The widths of the fields of the generated id. */
  lemma FieldWidths(d: DateParts)
    requires CalendarFields(d)
    ensures |NatToString(d.year)| == 4 && |Pad2(d.month + 1)| == 2 && |Pad2(d.day)| == 2
    ensures |Pad2(d.hours)| == 2 && |Pad2(d.minutes)| == 2 && |Pad2(d.seconds)| == 2
  {
    NatToStringLength(d.year);
    Pad2Value(d.month + 1);
    Pad2Value(d.day);
    Pad2Value(d.hours);
    Pad2Value(d.minutes);
    Pad2Value(d.seconds);
  }

  /** The generated id is 18 characters: "STU-", four digits of year and five two-digit fields. */
  lemma StudentIdLength(d: DateParts)
    requires CalendarFields(d)
    ensures |GenerateStudentID(d)| == 18 && GenerateStudentID(d)[..4] == "STU-"
  {
    FieldWidths(d);
  }

  lemma Pad2Injective(a: nat, b: nat)
    requires a < 100 && b < 100 && Pad2(a) == Pad2(b)
    ensures a == b
  {
    Pad2Value(a);
    Pad2Value(b);
  }

  /** Two instants get the same student id exactly when they fall in the same second: the id
      determines every calendar field, and nothing finer. */
  lemma StudentIdSameSecond(a: DateParts, b: DateParts)
    requires CalendarFields(a) && CalendarFields(b)
    ensures GenerateStudentID(a) == GenerateStudentID(b) <==> a == b
  {
    if GenerateStudentID(a) == GenerateStudentID(b) {
      FieldWidths(a);
      FieldWidths(b);
      SevenParts("STU-", NatToString(a.year), Pad2(a.month + 1), Pad2(a.day), Pad2(a.hours), Pad2(a.minutes), Pad2(a.seconds),
                 "STU-", NatToString(b.year), Pad2(b.month + 1), Pad2(b.day), Pad2(b.hours), Pad2(b.minutes), Pad2(b.seconds));
      NatToStringInjective(a.year, b.year);
      Pad2Injective(a.month + 1, b.month + 1);
      Pad2Injective(a.day, b.day);
      Pad2Injective(a.hours, b.hours);
      Pad2Injective(a.minutes, b.minutes);
      Pad2Injective(a.seconds, b.seconds);
    }
  }

  /** The account summary a successful login answers with. */
  datatype LoginUser = LoginUser(
    id: Id,
    studentID: string,
    email: string,
    firstName: string,
    lastName: string,
    role: Role,
    mustChangePassword: bool)

  /** `login`. The email is matched after lowercasing and trimming; the deactivation check comes
      before the password check, and an unknown email and a wrong password get the same
      answer. A success records the login instant and changes nothing else. */
  method Login(db: Database, email: string, password: string, now: Time) returns (r: Response<LoginUser>)
    requires db.Valid()
    modifies db`users, db`nextId
    ensures db.Valid()
    ensures email == "" || password == "" ==> r == Err(BadRequest, MsgCredentialsRequired)
    ensures email != "" && password != "" && !EmailTaken(old(db.users), NormalizeEmail(email)) ==>
              r == Err(Unauthorized, MsgInvalidCredentials)
    ensures email != "" && password != "" ==>
              forall k :: k in old(db.users) && old(db.users)[k].email == NormalizeEmail(email) ==>
                && (!old(db.users)[k].isActive ==> r == Err(Forbidden, MsgDeactivated))
                && (old(db.users)[k].isActive && !ComparePassword(password, old(db.users)[k].password) ==>
                      r == Err(Unauthorized, MsgInvalidCredentials))
                && (old(db.users)[k].isActive && ComparePassword(password, old(db.users)[k].password) ==>
                      r.Ok? && r.value.id == k)
    ensures r.Err? ==> unchanged(db)
    ensures r.Ok? ==> var k := r.value.id;
              && k in old(db.users) && old(db.users)[k].email == NormalizeEmail(email)
              && old(db.users)[k].isActive && ComparePassword(password, old(db.users)[k].password)
              && db.users == old(db.users)[k := old(db.users)[k].(lastLogin := Some(now))]
              && db.nextId == old(db.nextId)
              && r.value == LoginUser(k, db.users[k].studentID, db.users[k].email, db.users[k].firstName,
                                      db.users[k].lastName, db.users[k].role, db.users[k].mustChangePassword)
  {
    if email == "" || password == "" {
      return Err(BadRequest, MsgCredentialsRequired);
    }
    var found := FindUserByEmail(db.users, NormalizeEmail(email));
    if found.None? {
      return Err(Unauthorized, MsgInvalidCredentials);
    }
    var id := found.value;
    var user := db.users[id];
    if !user.isActive {
      return Err(Forbidden, MsgDeactivated);
    }
    if !ComparePassword(password, user.password) {
      return Err(Unauthorized, MsgInvalidCredentials);
    }
    user := user.(lastLogin := Some(now));
    ResaveUser(db, id, user);
    r := Ok(LoginUser(id, user.studentID, user.email, user.firstName, user.lastName, user.role, user.mustChangePassword));
  }

  /** `changePassword`, with its checks in the handler's order. The new password is hashed by
      the pre-save hook and the must-change flag is cleared. */
  method ChangePassword(db: Database, caller: Caller, currentPassword: string, newPassword: string, confirmPassword: string)
    returns (r: Response<()>)
    requires db.Valid()
    modifies db`users, db`nextId
    ensures db.Valid()
    ensures currentPassword == "" || newPassword == "" || confirmPassword == "" ==> r == Err(BadRequest, MsgAllFieldsRequired)
    ensures currentPassword != "" && newPassword != "" && confirmPassword != "" && newPassword != confirmPassword ==>
              r == Err(BadRequest, MsgNoMatch)
    ensures currentPassword != "" && newPassword != "" && newPassword == confirmPassword && |newPassword| < 6 ==>
              r == Err(BadRequest, MsgTooShort)
    ensures currentPassword != "" && newPassword == confirmPassword && |newPassword| >= 6 && caller.id !in old(db.users) ==>
              r == Err(NotFound, MsgUserNotFound)
    ensures currentPassword != "" && newPassword == confirmPassword && |newPassword| >= 6 && caller.id in old(db.users)
            && !ComparePassword(currentPassword, old(db.users)[caller.id].password) ==>
              r == Err(Unauthorized, MsgWrongCurrent)
    ensures r.Err? ==> unchanged(db)
    ensures r.Ok? <==> && currentPassword != "" && newPassword != "" && confirmPassword != ""
                       && newPassword == confirmPassword && |newPassword| >= 6
                       && caller.id in old(db.users) && ComparePassword(currentPassword, old(db.users)[caller.id].password)
    ensures r.Ok? ==> && caller.id in old(db.users)
                      && db.users == old(db.users)[caller.id := old(db.users)[caller.id].(
                           password := PreSavePassword(old(db.users)[caller.id].password, Some(newPassword)),
                           mustChangePassword := false)]
                      && db.nextId == old(db.nextId)
    ensures r.Ok? ==> forall p :: ComparePassword(p, db.users[caller.id].password) <==> p == newPassword
  {
    if currentPassword == "" || newPassword == "" || confirmPassword == "" {
      return Err(BadRequest, MsgAllFieldsRequired);
    }
    if newPassword != confirmPassword {
      return Err(BadRequest, MsgNoMatch);
    }
    if |newPassword| < 6 {
      return Err(BadRequest, MsgTooShort);
    }
    if caller.id !in db.users {
      return Err(NotFound, MsgUserNotFound);
    }
    var user := db.users[caller.id];
    if !ComparePassword(currentPassword, user.password) {
      return Err(Unauthorized, MsgWrongCurrent);
    }
    user := user.(password := PreSavePassword(user.password, Some(newPassword)));
    user := user.(mustChangePassword := false);
    ResaveUser(db, caller.id, user);
    r := Ok(());
  }

  /** The profile fields `updateProfile` accepts; an empty string (and `None` or an empty
      string for the date) is a falsy field and is ignored. */
  datatype ProfileFields = ProfileFields(
    firstName: string,
    lastName: string,
    middleName: string,
    dateOfBirth: Option<string>,
    contact: string,
    address: string)

  /** The account after `updateProfile`: each truthy field overwritten, and nothing else,
      in particular not the email, role, password, flags or enrolment. */
  function EditProfile(u: User, f: ProfileFields): (r: User)
    ensures r.firstName == OrString(f.firstName, u.firstName)
    ensures r.lastName == OrString(f.lastName, u.lastName)
    ensures r.middleName == OrString(f.middleName, u.middleName)
    ensures r.dateOfBirth == (if f.dateOfBirth.Some? && f.dateOfBirth.value != "" then f.dateOfBirth else u.dateOfBirth)
    ensures r.contact == OrString(f.contact, u.contact)
    ensures r.address == OrString(f.address, u.address)
    ensures r.studentID == u.studentID && r.email == u.email && r.password == u.password && r.role == u.role
    ensures r.isActive == u.isActive && r.mustChangePassword == u.mustChangePassword && r.createdBy == u.createdBy
    ensures r.lastLogin == u.lastLogin && r.enrolledSubjects == u.enrolledSubjects && r.createdAt == u.createdAt
  {
    User(u.studentID, u.email, u.password,
         OrString(f.firstName, u.firstName),
         OrString(f.lastName, u.lastName),
         OrString(f.middleName, u.middleName),
         if f.dateOfBirth.Some? && f.dateOfBirth.value != "" then f.dateOfBirth else u.dateOfBirth,
         OrString(f.contact, u.contact),
         OrString(f.address, u.address),
         u.role, u.isActive, u.mustChangePassword, u.createdBy, u.lastLogin, u.enrolledSubjects, u.createdAt)
  }

  /** Sending the same profile twice changes nothing the second time. */
  lemma EditProfileIdempotent(u: User, f: ProfileFields)
    ensures EditProfile(EditProfile(u, f), f) == EditProfile(u, f)
  {
  }

  /** An all-falsy body leaves the account as it was. */
  lemma EditProfileEmpty(u: User)
    ensures EditProfile(u, ProfileFields("", "", "", None, "", "")) == u
  {
  }

  /** `updateProfile`: the caller's own account, the password-free form returned. */
  method UpdateProfile(db: Database, caller: Caller, f: ProfileFields) returns (r: Response<PublicUser>)
    requires db.Valid()
    modifies db`users, db`nextId
    ensures db.Valid()
    ensures caller.id !in old(db.users) <==> r.Err?
    ensures r.Err? ==> r == Err(NotFound, MsgUserNotFound) && unchanged(db)
    ensures r.Ok? ==> && db.users == old(db.users)[caller.id := EditProfile(old(db.users)[caller.id], f)]
                      && db.nextId == old(db.nextId)
                      && r.value == ToJson(db.users[caller.id])
  {
    if caller.id !in db.users {
      return Err(NotFound, MsgUserNotFound);
    }
    var user := EditProfile(db.users[caller.id], f);
    ResaveUser(db, caller.id, user);
    r := Ok(ToJson(user));
  }
}
