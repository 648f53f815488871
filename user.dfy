/** The user schema (backend/models/User.js): roles, email normalisation,
    defaults, the re-hash-only-if-modified pre-save hook, `comparePassword`
    and the password-free `toJSON`. bcrypt is modelled symbolically. */
module UserModel {
  import opened Common
  import opened Text

  /** A bcrypt digest, standing for the salted hash of the plain text it carries. The model never
      reads `plain` back; it only compares digests, as `bcrypt.compare` does. */
  datatype Digest = Digest(plain: string)

  /** `bcrypt.hash(password, salt)`. */
  function Hash(password: string): Digest
  {
    Digest(password)
  }

  /** `comparePassword`: whether the entered text is the one the stored digest was made from. */
  predicate ComparePassword(entered: string, stored: Digest)
  {
    stored == Hash(entered)
  }

  lemma ComparePasswordExactly(entered: string, original: string)
    ensures ComparePassword(entered, Hash(original)) <==> entered == original
  {
  }

  /** One account. `password` is what the database holds: always a digest, since every
      save of a document whose password was assigned goes through the pre-save hook. */
  datatype User = User(
    studentID: string,
    email: string,
    password: Digest,
    firstName: string,
    lastName: string,
    middleName: string,
    dateOfBirth: Option<string>,
    contact: string,
    address: string,
    role: Role,
    isActive: bool,
    mustChangePassword: bool,
    createdBy: Option<Id>,
    lastLogin: Option<Time>,
    enrolledSubjects: seq<Id>,
    createdAt: Time)

  /** The `lowercase: true, trim: true` setters of the email path, which also apply to the
      values a query compares against it. */
  function NormalizeEmail(email: string): (r: string)
    ensures NoUpper(r)
  {
    var l := Lower(email);
    var t := Trim(l);
    assert forall i :: 0 <= i < |t| ==> t[i] in l;
    t
  }

  /** An address already in lower case, without white space at either end, is stored as typed. */
  lemma NormalizeEmailOfPlain(email: string)
    requires NoUpper(email) && email != [] && !IsWhiteSpace(email[0]) && !IsWhiteSpace(email[|email| - 1])
    ensures NormalizeEmail(email) == email
  {
    LowerOfNoUpper(email);
    assert TrimStart(email) == email;
    assert TrimEnd(email) == email;
  }

  /** The pre-save hook's decision: a password assigned in this save (`Some`) is hashed;
      an unmodified one keeps its stored digest and is not hashed again. */
  function PreSavePassword(stored: Digest, newPassword: Option<string>): (r: Digest)
    ensures newPassword.None? ==> r == stored
    ensures newPassword.Some? ==> forall p :: ComparePassword(p, r) <==> p == newPassword.value
  {
    match newPassword
    case None => stored
    case Some(p) => Hash(p)
  }

  /** `new User({ ... })` with the paths the controllers give, then saved: the email normalised,
      the password hashed (a new document's password counts as modified), and every other
      path at its schema default. */
  function NewUser(studentID: string, email: string, password: string, firstName: string, lastName: string,
                   contact: string, role: Role, isActive: bool, mustChangePassword: bool,
                   createdBy: Option<Id>, now: Time): (u: User)
    ensures u.email == NormalizeEmail(email) && ComparePassword(password, u.password)
    ensures u.middleName == "" && u.dateOfBirth.None? && u.address == ""
    ensures u.lastLogin.None? && u.enrolledSubjects == [] && u.createdAt == now
  {
    User(studentID, NormalizeEmail(email), Hash(password), firstName, lastName, "", None, contact, "",
         role, isActive, mustChangePassword, createdBy, None, [], now)
  }

  /** The serialised form `toJSON` produces: every field but the password. */
  datatype PublicUser = PublicUser(
    studentID: string,
    email: string,
    firstName: string,
    lastName: string,
    middleName: string,
    dateOfBirth: Option<string>,
    contact: string,
    address: string,
    role: Role,
    isActive: bool,
    mustChangePassword: bool,
    createdBy: Option<Id>,
    lastLogin: Option<Time>,
    enrolledSubjects: seq<Id>,
    createdAt: Time)

  /** `toJSON`: copy the document and delete its password. */
  function ToJson(u: User): PublicUser
  {
    PublicUser(u.studentID, u.email, u.firstName, u.lastName, u.middleName, u.dateOfBirth, u.contact,
               u.address, u.role, u.isActive, u.mustChangePassword, u.createdBy, u.lastLogin,
               u.enrolledSubjects, u.createdAt)
  }

  /** Two accounts serialise alike exactly when they differ at most in their password:
      the password never reaches the output and every other field does. */
  lemma ToJsonForgetsOnlyPassword(u: User, v: User)
    ensures ToJson(u) == ToJson(v) <==> u.(password := v.password) == v
  {
  }
}
