# Student portal: a verified model of its rules

The student portal is an Express and Mongoose web application. Administrators provision
student and teacher accounts, record tuition payments and manage subjects and
enrolments. Teachers encode grades. Every role reads announcements, and students read
their own grades and balances. This project models the rules underneath the HTTP layer
in Dafny and proves properties about them.

The backend is modelled as one in-memory database. `Store.Database` is a class whose
fields are value maps (users, subjects, grades, payments, announcements, keyed by `_id`)
plus the allocator of fresh ids. Its `Valid()` invariant groups several facts:

- the unique indexes on the user email, the student id and the subject code;
- references that point at existing documents;
- one grade per (student, subject) pair;
- one payment record per (student, semester, academic year);
- the ledger equation `amountPaid + balance == totalAmount` on every record.

Each controller handler is a method on that database. It returns `Ok(value)` or
`Err(code, message)` with the handler's own status codes and messages. Early returns are
checked in the handler's order. A `save` that schema validation or a unique index would
reject ends in the handlers' generic 500, with nothing stored.

The document-level logic is modelled as methods proved against specification functions,
which the lemmas then reason about:

- the payment method `updatePayment` (`PaymentModel.UpdatePayment` against `ApplyPayment`);
- the grade pre-save hook (`GradeModel.PreSave` against `WithFinalGrade`);
- the balance loop (`PaymentController.Accumulate` against `SumBy`).

The middleware, the route role lists and the pure display helpers of the frontend are
modelled as functions.

How the model represents the source:

- Money is in integer centavos.
- Grade scores are integers, and the weighted sum is kept exactly, in tenths. The source
  adds IEEE doubles, which can differ at a tie (see "## Left out").
- Clock readings are parameters.
- bcrypt is the symbolic digest `UserModel.Hash`.
- JWT verification is a function parameter `verify`.

The model keeps these behaviours of the code as written:

- Teacher identifiers start with `TECH-` (backend/controllers/adminController.js line 90).
- Updating a payment with both an amount and remarks saves the record inside
  `updatePayment` before it assigns the remarks. The remarks are therefore shown in the
  response but never stored (`PaymentController.RemarksNotSavedWithAmount`).
- Encoding a grade with every score set to `null` leaves the old final grade in place,
  because the hook only recomputes when some score is present
  (`GradeController.ClearedScoresKeepFinalGrade`).
- An explicit `null` amount in a payment update is not an absent one: it enters the payment
  branch and resets the record to nothing paid (`PaymentController.NullAmountResets`).

`createStudent` as written can never succeed (see "## Findings"). The model keeps both that
version and the evidently intended one.

## Model

| member | source | states |
|---|---|---|
| Text.LowerChar | backend/models/User.js:18 | `toLowerCase` of one character: upper-case ASCII letters move by 32, every other character is kept. |
| Text.Lower | backend/models/User.js:18 | `toLowerCase`: same length, no upper-case letter left, applied character by character. |
| Text.LowerIdempotent | backend/models/User.js:18 | Lowercasing twice is lowercasing once. |
| Text.LowerOfNoUpper | backend/controllers/adminController.js:29-30 | A string without upper-case letters is its own lowercase. |
| Text.LowerConcat | backend/controllers/adminController.js:29-30 | Lowercasing distributes over concatenation. |
| Text.TrimStart | backend/models/User.js:19 | Drops exactly the leading white space: the result is a suffix that starts with a non-space. |
| Text.TrimEnd | backend/models/User.js:19 | Drops exactly the trailing white space: the result is a prefix that ends with a non-space. |
| Text.Trim | backend/models/User.js:19 | `trim`: a slice of the input that neither starts nor ends with white space. |
| Text.IndexOf | backend/middleware/auth.js:8 | `indexOf`: a found index is a match with no earlier match, and `None` means there is no match anywhere. |
| Text.ReplaceFirst | backend/middleware/auth.js:8 | `replace(p, rep)` with a string pattern: the first occurrence, as `IndexOf` finds it, is replaced and the rest kept; no occurrence leaves the string as it was. `ReplaceFirstAtStart` states its use on the header. |
| Text.ReplaceFirstAtStart | backend/middleware/auth.js:8 | `replace` of a prefix with "" removes that prefix. |
| Text.DigitChar | backend/controllers/authController.js:8-13 | A digit below 10 becomes its decimal character. |
| Text.NatToString | backend/controllers/authController.js:8-13 | `toString` of a natural number: at least one digit, all decimal, no leading zero except for 0. |
| Text.NatToStringRoundTrip | backend/controllers/authController.js:8-13 | Reading the decimal string back gives the number. |
| Text.NatToStringInjective | backend/controllers/adminController.js:90 | Two numbers have the same decimal string exactly when they are equal. |
| Text.NatToStringLength | backend/controllers/authController.js:8-13 | Numbers below 10, from 10 to 99, and from 1000 to 9999 have 1, 2 and 4 digits. |
| Text.PadStart2 | backend/controllers/authController.js:9-13 | `padStart(2, "0")`: a string of two or more characters is kept; a shorter one becomes two characters, ending with the original and filled in front with "0". |
| Text.Pad2 | backend/controllers/authController.js:9-13 | `n.toString().padStart(2, "0")`: at least two characters, all decimal digits. |
| Text.Pad2Value | backend/controllers/authController.js:9-13 | A number below 100, padded, is two digits that read back as the number. |
| UserModel.ComparePasswordExactly | backend/models/User.js:103-105 | `comparePassword(p)` holds against the hash of `q` exactly when `p == q`. |
| UserModel.ComparePassword | backend/models/User.js:103-105 | `comparePassword`: whether the entered text is the one the stored digest was made from; `ComparePasswordExactly` states it as an iff. |
| UserModel.NormalizeEmail | backend/models/User.js:14-20 | The lowercase and trim setters: the stored email has no upper-case letter. |
| UserModel.NormalizeEmailOfPlain | backend/models/User.js:14-20 | An address already in lower case, without white space at either end, is stored as typed. |
| UserModel.PreSavePassword | backend/models/User.js:91-100 | An unmodified password keeps its stored digest; a newly assigned one is hashed, so exactly that text matches afterwards. |
| UserModel.NewUser | backend/models/User.js:33-85 | A new account has a normalised email, a hashed password that matches the given one, and the schema defaults: empty middle name and address, no birth date, no last login, no enrolments. |
| UserModel.ToJsonForgetsOnlyPassword | backend/models/User.js:108-112 | Two accounts serialise alike exactly when they differ at most in the password. |
| UserModel.ToJson | backend/models/User.js:108-112 | `toJSON`: every field but the password; `ToJsonForgetsOnlyPassword` states that it forgets exactly the password. |
| AnnouncementModel.ParseTarget | backend/models/Announcement.js:19-23 | The target enum accepts exactly "all", "students", "teachers" and "admin". |
| AnnouncementModel.VisibilityFacts | backend/controllers/announcementController.js:44-52 | An `admin` target is seen by admins only; `all` is seen by everyone; `students` by everyone but teachers; `teachers` by everyone but students. |
| PaymentModel.WithDefaults | backend/models/Payment.js:11-56 | A fresh record has amount paid 0, status Unpaid, academic year "2024-2025", empty remarks and both timestamps at creation. |
| PaymentModel.StatusFor | backend/models/Payment.js:66-72 | Paid exactly when nothing is left to pay; Partial exactly when something is left and something was paid; Unpaid exactly when something is left and nothing positive was paid. |
| PaymentModel.ApplyPayment | backend/models/Payment.js:62-76 | After `updatePayment(x)`: the amount paid is `x`, paid plus balance is the total, the status is Paid if nothing is left, else Partial if `x > 0`, else Unpaid. Only those fields and `lastUpdated` change. |
| PaymentModel.UpdatePayment | backend/models/Payment.js:62-76 | The field assignments in sequence produce exactly the `ApplyPayment` document. |
| PaymentModel.StatusExactly | backend/models/Payment.js:64-72 | For `0 <= x <= total`: Paid iff `x == total`, Partial iff `0 < x < total`, Unpaid iff `x == 0 < total`. |
| PaymentModel.ApplyPaymentIdempotent | backend/models/Payment.js:62-76 | Applying the same amount twice equals applying it once at the later time. |
| PaymentModel.ApplyPaymentConsistent | backend/models/Payment.js:62-76 | An in-bounds update keeps the ledger invariant. |
| PaymentModel.ConsistentStatus | backend/models/Payment.js:35-39 | On a consistent record each status names one exact range of the amount paid. |
| PaymentController.YearOrDefault | backend/controllers/paymentController.js:65 | The given academic year when it is non-empty, otherwise "2024-2025", for both the duplicate check and the stored record. |
| PaymentController.NewRecord | backend/controllers/paymentController.js:74-83 | A new record is keyed by its student, semester and defaulted year, owes the whole amount, has paid 0 and is Unpaid. |
| PaymentController.NewRecordConsistent | backend/controllers/paymentController.js:74-83 | A record the creation guard admits keeps the ledger invariant. |
| PaymentController.CreatePaymentRecord | backend/controllers/paymentController.js:49-85 | 400 for a missing or falsy field (so a total of 0); 404 for an unknown student; 400 for an existing (student, semester, year) record. Success exactly when none of these applies: the new record is stored under a fresh id and nothing else changes. Every error leaves the database unchanged. |
| PaymentController.UpdateOutcome | backend/controllers/paymentController.js:112-124 | 400 exactly when an amount is sent outside `0..total`. Otherwise the saved record is `updatePayment`'s result (or the remarks-updated record when no amount is sent), and the response also carries the truthy remarks. |
| PaymentController.AmountSent | backend/controllers/paymentController.js:112-118 | An `undefined` amount skips the payment branch; an explicit `null` enters it and acts as 0; a number is used as sent. |
| PaymentController.NullAmountResets | backend/controllers/paymentController.js:112-117 | A `null` amount on a positive obligation is accepted and resets the record to nothing paid, the whole amount owed, Unpaid. |
| PaymentController.RemarksOnlyUpdate | backend/controllers/paymentController.js:120-124 | A remarks-only update changes only truthy remarks, and the saved record is the one shown. |
| PaymentController.RemarksNotSavedWithAmount | backend/controllers/paymentController.js:117-124 | With an amount, the stored remarks stay as they were while the response shows the new ones. |
| PaymentController.UpdateOutcomeConsistent | backend/controllers/paymentController.js:106-124 | An accepted update keeps the ledger invariant and the record's (student, semester, year) key. |
| PaymentController.UpdatePaymentRecord | backend/controllers/paymentController.js:106-124 | 404 for an unknown id, 400 for an out-of-bounds amount (`null` counting as 0), with nothing modified. Success exactly otherwise: only that record changes, to the saved outcome, and the response is the shown outcome. |
| PaymentController.FindRecords | backend/controllers/paymentController.js:18 | `find({ student })`: every record of the student, each once, and nothing else. |
| PaymentController.GetPaymentRecords | backend/controllers/paymentController.js:12-20 | 403 exactly for a student reading another student's records; otherwise exactly that student's records, each once. |
| PaymentController.CountsAddUp | backend/controllers/paymentController.js:169-173 | The paid, partial and unpaid counts add up to the number of records. |
| PaymentController.SumBy | backend/controllers/paymentController.js:155-163 | The sum of one amount over the records, added left to right; `Accumulate` is proved equal to it and `TotalsBalance` relates the three sums. |
| PaymentController.TotalsBalance | backend/controllers/paymentController.js:155-163 | Over consistent records, total paid plus total balance is the total amount. |
| PaymentController.Accumulate | backend/controllers/paymentController.js:155-163 | The loop's three running totals are the sums of the amount, the amount paid and the balance over the records. |
| PaymentController.GetTuitionBalance | backend/controllers/paymentController.js:147-175 | 403 exactly for another student's balance. Otherwise the details are that student's records, each once; the totals are their sums, with paid plus balance equal to the total; and the status counts add up. |
| GradeModel.NewGrade | backend/models/Grade.js:16-57 | A new grade has every score and the final grade null, empty remarks, and the caller as encoder. |
| GradeModel.WeightedTenths | backend/models/Grade.js:70-76 | The 30/40/20/10 weighted sum of the scores in tenths, an absent score counting 0; `FinalGradeInRange` and `FinalGradeMonotone` state its bounds and monotonicity. |
| GradeModel.RoundTenths | backend/models/Grade.js:76 | `Math.round` of tenths: the nearest integer, halves rounded up. |
| GradeModel.FinalGrade | backend/models/Grade.js:70-76 | The nearest integer to the weighted sum, halves rounded up. |
| GradeModel.WithFinalGrade | backend/models/Grade.js:63-79 | The hook leaves a record without components untouched. Otherwise it sets the final grade to the rounded 30/40/20/10 sum, with absent components counting 0. |
| GradeModel.SumPush | backend/models/Grade.js:76 | The `reduce` sum of a pushed list is the old sum plus the pushed term. |
| GradeModel.PreSave | backend/models/Grade.js:63-79 | The hook's pushes and the `reduce` produce exactly `WithFinalGrade`. |
| GradeModel.FinalGradeInRange | backend/models/Grade.js:16-45 | With every component in 0..100, the weighted sum is in 0..1000 tenths and the final grade in 0..100. |
| GradeModel.FinalGradeMonotone | backend/models/Grade.js:70-76 | Raising any component never lowers the final grade. |
| GradeModel.WithFinalGradeIdempotent | backend/models/Grade.js:63-79 | Running the hook again on a saved record changes nothing. |
| GradeModel.FinalsOnlyExample | backend/models/Grade.js:70-76 | Finals 100 alone gives 40: the weights are not renormalised. |
| GradeModel.MidtermFinalsExample | backend/models/Grade.js:70-76 | Midterm 80 and finals 90 give round(24 + 36) = 60. |
| GradeModel.WithFinalGradeWellFormed | backend/models/Grade.js:16-45 | In-range scores after the hook make a record the schema validators accept. |
| GradeController.ApplyPatch | backend/controllers/gradeController.js:46-49 | An `undefined` field keeps the score; a defined one (including `null`) replaces it. |
| GradeController.Encoded | backend/controllers/gradeController.js:46-53 | The handler's assignments: each defined score replaced, remarks only when truthy, the encoder set to the caller and the timestamp refreshed; student, subject and final grade kept. |
| GradeController.EncodedInRange | backend/controllers/gradeController.js:46-49 | In-range patches on an in-range record give an in-range record. |
| GradeController.ClearedScoresKeepFinalGrade | backend/controllers/gradeController.js:46-49 | Clearing every score with nulls keeps the previous final grade. |
| GradeController.FindOrCreate | backend/controllers/gradeController.js:35-43 | The pair's existing record, or a new one under a fresh id exactly when none exists. |
| GradeController.AssignFields | backend/controllers/gradeController.js:46-53 | The assignments in sequence produce exactly `Encoded`. |
| GradeController.SaveGrade | backend/controllers/gradeController.js:55 | Saving a well-formed record of the pair keeps the database invariant and changes only that entry. |
| GradeController.SaveWithHook | backend/controllers/gradeController.js:55 | `save` runs the hook first: the stored record is `WithFinalGrade` of the assigned one, and it is well formed. |
| GradeController.EncodeResolved | backend/controllers/gradeController.js:35-55 | With both ids resolved: 500 with nothing stored exactly when a defined score is outside 0..100. Otherwise the pair's one record (existing or fresh) becomes the hooked, encoded record. |
| GradeController.EncodeGrades | backend/controllers/gradeController.js:20-55 | 400 for a missing id, then 404 for an unknown student or subject with nothing created, then the resolved encode. There is at most one grade per pair. |
| GradeController.GetGrades | backend/controllers/gradeController.js:75-81 | 403 exactly for a student reading another student's grades; otherwise every grade of that student, each once, and nothing else. |
| Store.GradebookStore | backend/controllers/gradeController.js:35-43 | Storing a well-formed grade under its pair's own id, or a fresh id for a new pair, keeps one grade per pair. |
| Store.CoherentGradeStore | backend/controllers/gradeController.js:35-55 | The same for the whole database invariant, with the allocator advanced only for a new record. |
| Store.CoherentPaymentStore | backend/controllers/paymentController.js:62-85 | Storing a consistent record under its own key, or a fresh id for a new key, keeps the database invariant. |
| Store.CoherentUserStore | backend/models/User.js:8-20 | Storing an account that keeps the email and student-id indexes unique, and keeps the role of an existing account, keeps the invariant. |
| Store.CoherentSubjectStore | backend/models/Subject.js:6-38 | Storing a subject with a unique code, an existing teacher (if any) and existing enrolled accounts keeps the invariant. |
| Store.FindUserByEmail | backend/controllers/authController.js:43 | `findOne({ email })`: a found id holds that email, and `None` exactly when no account does. |
| Store.SelectKeys | backend/controllers/announcementController.js:54 | `find(filter)`: the ids of exactly the documents the filter keeps, each once. |
| Store.Docs | backend/controllers/announcementController.js:54 | The documents with the given ids, in order, with their ids. |
| Store.SaveUser | backend/models/User.js:8-20 | `user.save()` of an account that keeps the unique indexes: the invariant holds and only that entry changes. |
| Store.ResaveUser | backend/controllers/authController.js:62-63 | Saving an existing account with its email, student id, role and enrolments unchanged keeps the invariant and changes only that entry. |
| Store.SavePayment | backend/controllers/paymentController.js:74-85 | `payment.save()` of a consistent record under its own key: the invariant holds and only that entry changes. |
| Store.SaveSubject | backend/models/Subject.js:6-11 | `subject.save()` with a unique code and valid references: the invariant holds and only that entry changes. |
| Store.SaveAnnouncement | backend/controllers/announcementController.js:24 | `announcement.save()`: only that entry changes. |
| AuthMiddleware.BearerToken | backend/middleware/auth.js:8 | No header gives no token. |
| AuthMiddleware.BearerTokenOfBearerHeader | backend/middleware/auth.js:8 | `"Bearer " + t` gives the token `t`. |
| AuthMiddleware.Auth | backend/middleware/auth.js:5-23 | 401 "No token provided" for no or an empty token; success exactly for a token `verify` accepts, with `req.user` its payload; any failure is 401. |
| AuthMiddleware.Authorize | backend/middleware/auth.js:26-40 | 401 without a user; 403 for a role outside the list; success exactly for a user whose role is listed, passed through. |
| AuthMiddleware.AccessFor | backend/routes/subject.js:7-24 | The middleware each route declares: public login, `auth` alone, or `auth` with `authorize` and its role list, as in every file under backend/routes; `AdminRoutesAdminOnly`, `GradeRouteRoles`, `PaymentRouteRoles` and `OnlyLoginIsPublic` state the lists. |
| AuthMiddleware.Gate | backend/routes/admin.js:8 | The chain of a route: public routes pass; otherwise `auth` failures are 401; authenticated routes pass exactly with a valid token; role lists answer 403 for other roles. |
| AuthMiddleware.GateRoles | backend/middleware/auth.js:26-40 | A role-restricted route passes exactly with a valid token whose role is listed, with that caller. |
| AuthMiddleware.AdminRoutesAdminOnly | backend/routes/admin.js:8 | Every admin route admits exactly the admins. |
| AuthMiddleware.GradeRouteRoles | backend/routes/grade.js:9-22 | Encoding grades admits exactly teachers, and an admin gets 403; subject grades admit everyone but students. |
| AuthMiddleware.PaymentRouteRoles | backend/routes/payment.js:8-26 | Listing, creating and updating payments admit exactly admins; the balance and records reads admit any valid token. |
| AuthMiddleware.OnlyLoginIsPublic | backend/routes/auth.js:8-13 | Without a valid token only the login route passes. |
| AuthController.ConcatParts | backend/controllers/authController.js:7-13 | Concatenations with equally long first parts are equal exactly when both parts are. |
| AuthController.GenerateStudentID | backend/controllers/authController.js:5-15 | "STU-" and the year, then the 1-based month, day, hours, minutes and seconds padded to two digits; `StudentIdDigits`, `StudentIdLength` and `StudentIdSameSecond` state its shape and collisions. |
| AuthController.StudentIdDigits | backend/controllers/authController.js:5-15 | After "STU-" the identifier is decimal digits only. |
| AuthController.SevenParts | backend/controllers/authController.js:7-14 | A seven-part identifier with fixed field widths is equal only field by field. |
| AuthController.FieldWidths | backend/controllers/authController.js:8-13 | The year has four digits and each padded field has two. |
| AuthController.StudentIdLength | backend/controllers/authController.js:5-15 | The student id is 18 characters and starts with "STU-". |
| AuthController.Pad2Injective | backend/controllers/authController.js:9-13 | Distinct numbers below 100 pad to distinct strings. |
| AuthController.StudentIdSameSecond | backend/controllers/authController.js:5-15 | Two calendar readings give the same id exactly when they agree to the second, so creations within one second collide. |
| AuthController.Login | backend/controllers/authController.js:36-80 | 400 for a missing field; 401 for an unknown email; 403 for an inactive account before any password check; 401 with the same message for a wrong password. Success answers the summary and changes only `lastLogin`; every error changes nothing. |
| AuthController.ChangePassword | backend/controllers/authController.js:94-125 | 400 for a missing field, then a mismatch, then a short password; 404 for an unknown user; 401 for a wrong current password. Success exactly when all five checks pass: the stored hash is one only the new password matches and `mustChangePassword` is cleared. |
| AuthController.EditProfile | backend/controllers/authController.js:161-166 | Each truthy field among the six is overwritten (an empty date string is falsy too); email, password, role, flags, enrolments and timestamps are untouched. |
| AuthController.EditProfileIdempotent | backend/controllers/authController.js:161-166 | Sending the same profile twice changes nothing the second time. |
| AuthController.EditProfileEmpty | backend/controllers/authController.js:161-166 | An all-falsy body leaves the account as it was. |
| AuthController.UpdateProfile | backend/controllers/authController.js:155-173 | 404 for an unknown caller; otherwise only the caller's account changes, to `EditProfile`, and its password-free form is returned. |
| AdminController.DefaultPassword | backend/controllers/adminController.js:29-30 | The lowered first initial, the lowered last name, then "123456". |
| AdminController.DefaultPasswordOfLowerNames | backend/controllers/adminController.js:29-30 | For lower-case names the password is the initial, the last name and "123456" as typed. |
| AdminController.DefaultPasswordUsesInitialOnly | backend/controllers/adminController.js:206-209 | Only the first initial of the first name matters. |
| AdminController.TeacherId | backend/controllers/adminController.js:90 | "TECH-" followed by decimal digits that read back as the millisecond timestamp. |
| AdminController.TeacherIdSameMillisecond | backend/controllers/adminController.js:90 | Teacher ids collide exactly for creations in the same millisecond. |
| AdminController.StudentAndTeacherIdsDiffer | backend/controllers/adminController.js:90 | A student id and a teacher id are never equal. |
| AdminController.Provisioned | backend/controllers/adminController.js:33-44 | The saved account: the generated id, the normalised email, the endpoint's role, the hashed default password, active, must change password, created by the admin, no enrolments. |
| AdminController.Provision | backend/controllers/adminController.js:13-46 | 400 for a missing field, 400 for a taken lowercased email, 500 when the `save` would fail (an email that trims to nothing, or a taken id). Success exactly when none applies: one account is added under a fresh id. Every error changes nothing. |
| AdminController.CreateStudent | backend/controllers/adminController.js:13-58 | `createStudent` as evidently intended, with `generateStudentID` in scope: the provisioning rules with a "STU-" id from the current second and the student role, success exactly when no guard fires. |
| AdminController.CreateStudentAsWritten | backend/controllers/adminController.js:4-62 | `createStudent` as written: 400 for a missing field, 400 for a taken email, and otherwise always the 500 "Server error during student creation", with nothing saved. |
| AdminController.CreateStudentFreshEmail | backend/controllers/adminController.js:19-26 | On an empty database, "ana@x.com" normalises to itself and neither it nor the generated id is taken: `CreateStudent` succeeds on it and `CreateStudentAsWritten` answers 500. |
| AdminController.CreateTeacher | backend/controllers/adminController.js:72-114 | The provisioning rules with a "TECH-" id from the current millisecond and the teacher role; success exactly when no guard fires. |
| AdminController.SetActive | backend/controllers/adminController.js:150-158 | 404 for an unknown user; otherwise only `isActive` of that account changes. |
| AdminController.DeactivateUser | backend/controllers/adminController.js:150-158 | Only `isActive` changes, to false; 404 for an unknown user. |
| AdminController.ActivateUser | backend/controllers/adminController.js:175-183 | Only `isActive` changes, to true; 404 for an unknown user. |
| AdminController.SetActiveIdempotent | backend/controllers/adminController.js:150-183 | Setting the flag twice is setting it once, and the response shows the flag. |
| AdminController.ResetPassword | backend/controllers/adminController.js:200-220 | 404 for an unknown user. Otherwise the password becomes the hashed default from the current names and `mustChangePassword` is set, with nothing else (the student id included) changed. Only the returned password matches afterwards. |
| AdminController.AddOnce | backend/controllers/adminController.js:240-243 | `includes` then `push`: an id already present changes nothing; otherwise it is appended; no duplicates arise. |
| AdminController.AddOnceIdempotent | backend/controllers/adminController.js:240-249 | Enrolling twice is enrolling once. |
| AdminController.EnrolStudentSide | backend/controllers/adminController.js:240-243 | The student's list gets the subject once; only that account changes. |
| AdminController.EnrolSubjectSide | backend/controllers/adminController.js:246-249 | The subject's list gets the student once; only that subject changes. |
| AdminController.EnrollStudentInSubject | backend/controllers/adminController.js:232-254 | 404 exactly when either side is missing, with nothing changed. Otherwise both lists record the enrolment once, and nothing else changes. |
| SubjectController.NewSubject | backend/controllers/subjectController.js:22-28 | The trimmed code, the name and semester as given, and a falsy units value becoming 3; no teacher, no students. |
| SubjectController.CreateSubject | backend/controllers/subjectController.js:10-30 | 400 for a missing code, name or semester; 400 for a taken code; 500 for a code that trims to nothing. Success exactly when none applies: one subject is added. Every error changes nothing. |
| SubjectController.AssignTeacher | backend/controllers/subjectController.js:80-92 | 404 for an unknown subject first, then 404 for a missing or non-teacher account. Success exactly for an existing subject and teacher: the teacher is replaced and nothing else changes. |
| SubjectController.EditSubject | backend/controllers/subjectController.js:118-122 | Each truthy field overwritten; teacher, students and creation time untouched. |
| SubjectController.EditSubjectIdempotent | backend/controllers/subjectController.js:118-122 | The same body twice changes nothing the second time. |
| SubjectController.UpdateSubject | backend/controllers/subjectController.js:113-124 | 404 for an unknown id; 500 when the code would be empty or held by another subject. Success exactly otherwise: only that subject changes, to `EditSubject`. |
| AnnouncementController.CreateAnnouncement | backend/controllers/announcementController.js:10-24 | 400 without title or content; 500 for a target outside the enum. Success exactly for a title, content and an absent or valid target: a new active announcement by the caller under a fresh id, target "all" by default, the subject as given or null. |
| AnnouncementController.Insert | backend/controllers/announcementController.js:54-56 | Inserting into a newest-first list keeps it newest first and adds exactly the one element. |
| AnnouncementController.SortNewestFirst | backend/controllers/announcementController.js:54-56 | `sort({ createdAt: -1 })`: newest first, and a permutation of the input. |
| AnnouncementController.InsertKeepsDistinct | backend/controllers/announcementController.js:54-56 | Inserting a fresh id keeps the ids distinct. |
| AnnouncementController.SortKeepsDistinct | backend/controllers/announcementController.js:54-56 | Sorting keeps the ids distinct. |
| AnnouncementController.ReorderedDocs | backend/controllers/announcementController.js:54-56 | A permutation of listed stored documents holds only listed stored documents, and all of them. |
| AnnouncementController.AllListedReturned | backend/controllers/announcementController.js:44-54 | Every listed announcement the query selects appears in the result. |
| AnnouncementController.GetAnnouncements | backend/controllers/announcementController.js:44-58 | Exactly the active announcements whose target the role sees, each once, newest first. |
| AnnouncementController.GetAnnouncementById | backend/controllers/announcementController.js:70-79 | Any stored announcement whatever its target or state; 404 exactly when absent. |
| AnnouncementController.EditAnnouncement | backend/controllers/announcementController.js:107-109 | Truthy title, content and target overwritten, everything else kept; `None` exactly for a target outside the enum. |
| AnnouncementController.UpdateAnnouncement | backend/controllers/announcementController.js:94-111 | 404 for an unknown id, then 403 for a caller who is neither creator nor admin, then 500 for an invalid target. Success exactly otherwise: only that announcement changes; `createdBy` never changes. |
| AnnouncementController.DeleteAnnouncement | backend/controllers/announcementController.js:133-147 | 404, then 403 as for updates. Success exactly for a found record and a permitted caller: the record stays stored and only `isActive` becomes false. |
| AnnouncementController.DeletedNotListed | backend/controllers/announcementController.js:44-52 | A deleted announcement drops out of every role's list. |
| FrontendUtils.GetStatusClass | frontend/utils.js:90-98 | "status-" plus the lowered name for active, inactive, paid, partial and unpaid; "" for anything else, including no status. |
| FrontendUtils.GetStatusClassIgnoresCase | frontend/utils.js:91 | The class does not depend on letter case. |
| FrontendUtils.GetInitials | frontend/utils.js:82-87 | One character per non-empty name, first name first: the first characters of the names. |
| FrontendUtils.GetInitialsAtMostTwo | frontend/utils.js:82-87 | At most two characters, and empty exactly when both names are. |
| FrontendUtils.AtPosition | frontend/utils.js:102 | The first "@", or the length when there is none. |
| FrontendUtils.IsValidEmail | frontend/utils.js:101-104 | The regular expression test; `IsValidEmailMatchesPattern` states that it accepts exactly the language of `^[^\s@]+@[^\s@]+\.[^\s@]+$`. |
| FrontendUtils.IsValidEmailIsPattern | frontend/utils.js:101-104 | An accepted string matches the regular expression's three-run shape. |
| FrontendUtils.PatternIsValidEmail | frontend/utils.js:101-104 | A string of the three-run shape is accepted. |
| FrontendUtils.PatternAt | frontend/utils.js:101-104 | A string split at a given "@" and "." into three plain runs is accepted. |
| FrontendUtils.IsValidEmailMatchesPattern | frontend/utils.js:101-104 | `isValidEmail` holds exactly for the strings `^[^\s@]+@[^\s@]+\.[^\s@]+$` matches. |
| FrontendUtils.IsValidEmailOfParts | frontend/utils.js:101-104 | Non-empty plain local part, domain and top-level part make an accepted address. |
| FrontendUtils.IsValidEmailNeedsDot | frontend/utils.js:102 | An address without a dot after the "@" is refused. |
| FrontendUtils.Group | frontend/utils.js:18 | Grouping never shortens the digits. |
| FrontendUtils.RemoveCommasConcat | frontend/utils.js:18 | Removing commas distributes over concatenation. |
| FrontendUtils.RemoveCommasOfDigits | frontend/utils.js:18 | A digit string has no commas to remove. |
| FrontendUtils.GroupStep | frontend/utils.js:18 | Appending a comma and three digits extends the digits and keeps the grouping. |
| FrontendUtils.GroupFacts | frontend/utils.js:18 | The comma replacement inserts only commas, and leaves one to three leading digits followed by groups of three. |
| FrontendUtils.FormatCurrency | frontend/utils.js:16-19 | "₱ " first and a "." before the two decimals. |
| FrontendUtils.SplitFormatted | frontend/utils.js:18 | The integer part and the decimals of a formatted amount are read back apart. |
| FrontendUtils.FormatCurrencyRoundTrip | frontend/utils.js:16-19 | The integer part is well grouped and, without its commas, with the two decimals, reads back as the amount in centavos. |
| FrontendUtils.FormatCurrencyOfNothing | frontend/utils.js:17 | A missing or non-numeric amount shows as "₱ 0.00". |
| FrontendUtils.GroupFourDigits | frontend/utils.js:18 | Four digits get one comma, after the first. |
| FrontendUtils.PesosExample | frontend/utils.js:18 | The whole pesos of 123456 centavos are "1234". |
| FrontendUtils.FormatCurrencyExample | frontend/utils.js:16-19 | 123456 centavos show as "₱ 1,234.56". |

## Left out

- GradeModel.WithFinalGrade: the weighted sum is exact. `Grade.js` lines 71-76 add the products as IEEE doubles, which can land just below a .5 tie. For example, midterm 72, finals 70, projects 73 and participation 73 sum exactly to 71.5, which the model rounds to 72. The double sum is 71.49999999999999, which `Math.round` takes to 71.
- PaymentController.UpdatePaymentRecord: a `null` amount is stored as 0 rather than as `null`. The getter reads a stored `null` back as 0, so the two are indistinguishable through the schema.
- PaymentController.GetTuitionBalance: the totals are exact integer sums. The `toFixed` getters of `Payment.js` make the fields read back as strings, so `+=` in the handler concatenates, and `toFixed` on the resulting string would throw and end in the 500. The model does not reproduce that coercion.
- FrontendUtils.FormatCurrency: modelled over non-negative integer centavos. Floating-point parsing and rounding (`parseFloat`, `toFixed`) and negative amounts are not modelled.
- AuthController.StudentIdSameSecond: holds only for years 1000 to 9999, where the year has four digits.
- bcrypt hashing and salting: `Hash` is a symbolic digest that only `comparePassword` inspects.
- JWT signing in `generateToken` and in `login`'s response: not modelled, so the login result has no token. Verification is the parameter `verify`.
- Clock reads (`new Date()`, `Date.now()`): passed in as parameters, the calendar fields as `DateParts`.
- Date parsing of `dueDate` and `dateOfBirth`: these stay opaque strings or values.
- `populate` joins and `select("-password")` projections: presentation at read time. The password-free form is `ToJson`.
- The plain reads `getAllStudents`, `getAllTeachers`, `getAllSubjects`, `getSubjectById`, `getCurrentUser`, `getAllPayments` and `getSubjectGrades`: no rule beyond their route gate, which `AuthMiddleware.Gate` models.
- 201 and 200 success codes: both are `Ok`.
- Mongoose `timestamps` (`createdAt`, `updatedAt` maintained by the driver): only the schema's own `createdAt` default and the fields the handlers assign are modelled.
- The subject `schedule` field and `Material.js`: no controller reads or writes them in the modelled handlers.
- The DOM helpers of `frontend/utils.js` (`formatDate`, `showError`, `showSuccess`, `cloneTemplate` and the rest): browser presentation.
- Races between the duplicate checks and `save`: the database is sequential. A unique-index violation surfaces as the 500 of the handler's catch block.
- Letter case: `toLowerCase` is modelled for ASCII letters only; there is no Unicode case mapping, and strings are sequences of characters rather than UTF-16 units.
- The email lookups in `login`, `createStudent` and `createTeacher` query `email.toLowerCase()` without trimming. The model assumes the schema setters (lowercase and trim) also normalise query values, so it compares normalised emails.
- Identifiers are well-formed ObjectIds (`Id` is a natural number). In the source, a request id that is not a valid ObjectId makes `findById`, or the cast of a reference such as `subject: subjectId || null` at `save`, throw a CastError, and the catch block answers 500. The model does not represent such ids. So where the source answers 500 for a malformed id, the model answers 404 or goes ahead. This affects `UpdateSubject`, `AssignTeacher`, `UpdateAnnouncement`, `DeleteAnnouncement`, `CreateAnnouncement`, `SetActive`, `ResetPassword`, `EnrollStudentInSubject` and `UpdatePaymentRecord`.
- Errors thrown by the database driver itself (lost connections and the like): not modelled. In the model only validation and index failures lead to the 500; in the source, malformed ids do too (see the line above).

## Findings

| source | as written | input that shows it | evidently intended | confidence | as-written member | corrected member |
|---|---|---|---|---|---|---|
| backend/controllers/adminController.js:4 | `generateStudentID` is destructured from the exports of authController.js, which declares it as a local constant (line 5) and exports only `login`, `changePassword`, `getCurrentUser` and `updateProfile`. The call at line 26 therefore throws, and the catch block answers 500. | `{ email: "ana@x.com", firstName: "Ana", lastName: "Cruz" }` with the email free: 500 "Server error during student creation", nothing saved | a new student account with a `STU-` id, as `createTeacher` does for teachers | high, not executed | AdminController.CreateStudentAsWritten | AdminController.CreateStudent |
