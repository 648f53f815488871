/** The database the controllers read and write: one map per collection,
    keyed by `_id`, and the allocator of fresh ids. A Mongoose document is a
    copy of a stored value; `save` writes the copy back, so a handler's field
    assignments on a document become updates of a local value followed by one
    map update. */
module Store {
  import opened Common
  import opened PaymentModel
  import opened GradeModel
  import opened UserModel
  import opened SubjectModel
  import opened AnnouncementModel

  predicate IdsBelow<V>(m: map<Id, V>, bound: Id)
  {
    forall k :: k in m ==> k < bound
  }

  predicate NoDuplicates(s: seq<Id>)
  {
    forall i, j :: 0 <= i < j < |s| ==> s[i] != s[j]
  }

  predicate AllIn<V>(s: seq<Id>, m: map<Id, V>)
  {
    forall i :: 0 <= i < |s| ==> s[i] in m
  }

  /** `User.findOne({ email })` finds something. */
  predicate EmailTaken(users: map<Id, User>, email: string)
  {
    exists k :: k in users && users[k].email == email
  }

  /** The unique index on `studentID` already holds this value. */
  predicate StudentIdTaken(users: map<Id, User>, studentID: string)
  {
    exists k :: k in users && users[k].studentID == studentID
  }

  /** The unique indexes of the user collection, and enrolment lists that name existing
      subjects once each. */
  predicate AccountsValid(users: map<Id, User>, subjects: map<Id, Subject>)
  {
    && (forall a, b :: a in users && b in users && a != b ==> users[a].email != users[b].email)
    && (forall a, b :: a in users && b in users && a != b ==> users[a].studentID != users[b].studentID)
    && (forall k :: k in users ==> AllIn(users[k].enrolledSubjects, subjects) && NoDuplicates(users[k].enrolledSubjects))
  }

  /** The unique index on `code`; an assigned teacher is an existing teacher account; the
      enrolled students exist and are listed once each. */
  predicate CatalogValid(subjects: map<Id, Subject>, users: map<Id, User>)
  {
    && (forall a, b :: a in subjects && b in subjects && a != b ==> subjects[a].code != subjects[b].code)
    && (forall k :: k in subjects && subjects[k].assignedTeacher.Some? ==>
          subjects[k].assignedTeacher.value in users && users[subjects[k].assignedTeacher.value].role == Teacher)
    && (forall k :: k in subjects ==> AllIn(subjects[k].enrolledStudents, users) && NoDuplicates(subjects[k].enrolledStudents))
  }

  /** The key the creation check keeps unique: (student, semester, academic year). */
  function LedgerKey(p: Payment): (Id, int, string)
  {
    (p.student, p.semester, p.academicYear)
  }

  /** Every record belongs to an existing account, keeps the ledger invariant, and is the
      only one for its (student, semester, academic year). */
  predicate LedgerValid(payments: map<Id, Payment>, users: map<Id, User>)
  {
    && (forall k :: k in payments ==> payments[k].student in users && Consistent(payments[k]))
    && (forall a, b :: a in payments && b in payments && a != b ==> LedgerKey(payments[a]) != LedgerKey(payments[b]))
  }

  /** Every grade belongs to an existing account and subject, is well formed, and is the only
      one for its (student, subject) pair. */
  predicate GradebookValid(grades: map<Id, Grade>, users: map<Id, User>, subjects: map<Id, Subject>)
  {
    && (forall k :: k in grades ==> grades[k].student in users && grades[k].subject in subjects && WellFormed(grades[k]))
    && (forall a, b :: a in grades && b in grades && a != b ==>
          (grades[a].student, grades[a].subject) != (grades[b].student, grades[b].subject))
  }

  /** The database invariant: ids below the allocator, the unique indexes, and references that
      resolve. */
  predicate Coherent(users: map<Id, User>, subjects: map<Id, Subject>, grades: map<Id, Grade>,
                     payments: map<Id, Payment>, announcements: map<Id, Announcement>, nextId: Id)
  {
    && IdsBelow(users, nextId) && IdsBelow(subjects, nextId) && IdsBelow(grades, nextId)
    && IdsBelow(payments, nextId) && IdsBelow(announcements, nextId)
    && AccountsValid(users, subjects)
    && CatalogValid(subjects, users)
    && LedgerValid(payments, users)
    && GradebookValid(grades, users, subjects)
  }

  /** Writing a well-formed grade back under its pair's own id, or under a fresh id when the
      pair has no record yet, keeps the gradebook valid. */
  lemma GradebookStore(grades: map<Id, Grade>, users: map<Id, User>, subjects: map<Id, Subject>, id: Id, g: Grade)
    requires GradebookValid(grades, users, subjects)
    requires g.student in users && g.subject in subjects && WellFormed(g)
    requires id in grades ==> grades[id].student == g.student && grades[id].subject == g.subject
    requires id !in grades ==> forall k :: k in grades ==> (grades[k].student, grades[k].subject) != (g.student, g.subject)
    ensures GradebookValid(grades[id := g], users, subjects)
  {
  }

  /** The same, for the whole database: a grade stored under an existing id, or under the
      allocator's id, which then moves on. */
  lemma CoherentGradeStore(users: map<Id, User>, subjects: map<Id, Subject>, grades: map<Id, Grade>,
                           payments: map<Id, Payment>, announcements: map<Id, Announcement>, nextId: Id,
                           id: Id, g: Grade)
    requires Coherent(users, subjects, grades, payments, announcements, nextId)
    requires g.student in users && g.subject in subjects && WellFormed(g)
    requires id in grades ==> grades[id].student == g.student && grades[id].subject == g.subject
    requires id !in grades ==> id == nextId && forall k :: k in grades ==> (grades[k].student, grades[k].subject) != (g.student, g.subject)
    ensures Coherent(users, subjects, grades[id := g], payments, announcements, if id in grades then nextId else nextId + 1)
  {
    GradebookStore(grades, users, subjects, id, g);
  }

  /** Writing a consistent record of an existing account, under an existing id with the stored
      key or under the allocator's id with a key nobody holds, keeps the invariant. */
  lemma CoherentPaymentStore(users: map<Id, User>, subjects: map<Id, Subject>, grades: map<Id, Grade>,
                             payments: map<Id, Payment>, announcements: map<Id, Announcement>, nextId: Id,
                             id: Id, p: Payment)
    requires Coherent(users, subjects, grades, payments, announcements, nextId)
    requires p.student in users && Consistent(p)
    requires id in payments ==> LedgerKey(payments[id]) == LedgerKey(p)
    requires id !in payments ==> id == nextId && forall k :: k in payments ==> LedgerKey(payments[k]) != LedgerKey(p)
    ensures Coherent(users, subjects, grades, payments[id := p], announcements, if id in payments then nextId else nextId + 1)
  {
  }

  /** Writing an account back, or inserting one under the allocator's id, keeps the invariant
      when its email and student id stay unique, its enrolment list stays valid and its role is
      the stored one. */
  lemma CoherentUserStore(users: map<Id, User>, subjects: map<Id, Subject>, grades: map<Id, Grade>,
                          payments: map<Id, Payment>, announcements: map<Id, Announcement>, nextId: Id,
                          id: Id, u: User)
    requires Coherent(users, subjects, grades, payments, announcements, nextId)
    requires id in users || id == nextId
    requires forall k :: k in users && k != id ==> users[k].email != u.email && users[k].studentID != u.studentID
    requires AllIn(u.enrolledSubjects, subjects) && NoDuplicates(u.enrolledSubjects)
    requires id in users ==> u.role == users[id].role
    ensures Coherent(users[id := u], subjects, grades, payments, announcements, if id in users then nextId else nextId + 1)
  {
    var users' := users[id := u];
    forall k | k in subjects
      ensures AllIn(subjects[k].enrolledStudents, users')
    {
      assert AllIn(subjects[k].enrolledStudents, users);
    }
  }

  /** Writing a subject back, or inserting one under the allocator's id, keeps the invariant
      when its code stays unique, its teacher is a teacher and its roster stays valid. */
  lemma CoherentSubjectStore(users: map<Id, User>, subjects: map<Id, Subject>, grades: map<Id, Grade>,
                             payments: map<Id, Payment>, announcements: map<Id, Announcement>, nextId: Id,
                             id: Id, s: Subject)
    requires Coherent(users, subjects, grades, payments, announcements, nextId)
    requires id in subjects || id == nextId
    requires forall k :: k in subjects && k != id ==> subjects[k].code != s.code
    requires s.assignedTeacher.Some? ==> s.assignedTeacher.value in users && users[s.assignedTeacher.value].role == Teacher
    requires AllIn(s.enrolledStudents, users) && NoDuplicates(s.enrolledStudents)
    ensures Coherent(users, subjects[id := s], grades, payments, announcements, if id in subjects then nextId else nextId + 1)
  {
    var subjects' := subjects[id := s];
    forall k | k in users
      ensures AllIn(users[k].enrolledSubjects, subjects')
    {
      assert AllIn(users[k].enrolledSubjects, subjects);
    }
  }

  class Database {
    var users: map<Id, User>
    var subjects: map<Id, Subject>
    var grades: map<Id, Grade>
    var payments: map<Id, Payment>
    var announcements: map<Id, Announcement>
    /** The next `_id` to hand out; every stored id is below it. */
    var nextId: Id

    ghost predicate Valid()
      reads this
    {
      Coherent(users, subjects, grades, payments, announcements, nextId)
    }

    constructor ()
      ensures Valid()
      ensures users == map[] && subjects == map[] && grades == map[] && payments == map[]
      ensures announcements == map[] && nextId == 0
    {
      users, subjects, grades, payments, announcements := map[], map[], map[], map[], map[];
      nextId := 0;
    }
  }

  /** `User.findOne({ email })`. */
  method FindUserByEmail(users: map<Id, User>, email: string) returns (found: Option<Id>)
    ensures found.Some? ==> found.value in users && users[found.value].email == email
    ensures found.None? <==> !EmailTaken(users, email)
  {
    if exists k :: k in users && users[k].email == email {
      var k :| k in users && users[k].email == email;
      found := Some(k);
    } else {
      found := None;
    }
  }

  /** The ids of the documents a `find` with the filter `keep` returns, each once, in the
      collection's natural (unspecified) order. */
  method SelectKeys<V>(m: map<Id, V>, keep: V -> bool) returns (ids: seq<Id>)
    ensures NoDuplicates(ids)
    ensures forall k :: k in ids <==> k in m && keep(m[k])
  {
    ids := [];
    var rest := m.Keys;
    while rest != {}
      invariant rest <= m.Keys
      invariant NoDuplicates(ids)
      invariant forall k :: k in ids <==> k in m && k !in rest && keep(m[k])
      decreases |rest|
    {
      var k :| k in rest;
      if keep(m[k]) {
        ids := ids + [k];
      }
      rest := rest - {k};
    }
  }

  /** The documents with the given ids, with their ids. */
  function Docs<V>(m: map<Id, V>, ids: seq<Id>): (r: seq<Doc<V>>)
    requires AllIn(ids, m)
    ensures |r| == |ids|
    ensures forall i :: 0 <= i < |ids| ==> r[i].id == ids[i] && r[i].body == m[ids[i]]
  {
    seq(|ids|, i requires 0 <= i < |ids| => Doc(ids[i], m[ids[i]]))
  }

  /** `user.save()` of an account that keeps the unique indexes. */
  method SaveUser(db: Database, id: Id, u: User)
    requires db.Valid()
    requires id in db.users || id == db.nextId
    requires forall k :: k in db.users && k != id ==> db.users[k].email != u.email && db.users[k].studentID != u.studentID
    requires AllIn(u.enrolledSubjects, db.subjects) && NoDuplicates(u.enrolledSubjects)
    requires id in db.users ==> u.role == db.users[id].role
    modifies db`users, db`nextId
    ensures db.Valid()
    ensures db.users == old(db.users)[id := u]
    ensures db.nextId == if id in old(db.users) then old(db.nextId) else old(db.nextId) + 1
  {
    CoherentUserStore(db.users, db.subjects, db.grades, db.payments, db.announcements, db.nextId, id, u);
    if id !in db.users {
      db.nextId := db.nextId + 1;
    }
    db.users := db.users[id := u];
  }

  /** `user.save()` of an existing account whose email, student id, role and enrolment are
      the stored ones: the indexed fields are untouched, so the save succeeds. */
  method ResaveUser(db: Database, id: Id, u: User)
    requires db.Valid() && id in db.users
    requires u.email == db.users[id].email && u.studentID == db.users[id].studentID
    requires u.role == db.users[id].role && u.enrolledSubjects == db.users[id].enrolledSubjects
    modifies db`users, db`nextId
    ensures db.Valid()
    ensures db.users == old(db.users)[id := u] && db.nextId == old(db.nextId)
  {
    SaveUser(db, id, u);
  }

  /** `payment.save()` of a consistent record of an existing account: an update in place that
      keeps the record's key, or an insert under a fresh id of a key nobody holds. */
  method SavePayment(db: Database, id: Id, p: Payment)
    requires db.Valid()
    requires p.student in db.users && Consistent(p)
    requires id in db.payments ==> LedgerKey(db.payments[id]) == LedgerKey(p)
    requires id !in db.payments ==> id == db.nextId && forall k :: k in db.payments ==> LedgerKey(db.payments[k]) != LedgerKey(p)
    modifies db`payments, db`nextId
    ensures db.Valid()
    ensures db.payments == old(db.payments)[id := p]
    ensures db.nextId == if id in old(db.payments) then old(db.nextId) else old(db.nextId) + 1
  {
    CoherentPaymentStore(db.users, db.subjects, db.grades, db.payments, db.announcements, db.nextId, id, p);
    if id !in db.payments {
      db.nextId := db.nextId + 1;
    }
    db.payments := db.payments[id := p];
  }

  /** `subject.save()` of a subject that keeps the unique code and valid references. */
  method SaveSubject(db: Database, id: Id, s: Subject)
    requires db.Valid()
    requires id in db.subjects || id == db.nextId
    requires forall k :: k in db.subjects && k != id ==> db.subjects[k].code != s.code
    requires s.assignedTeacher.Some? ==> s.assignedTeacher.value in db.users && db.users[s.assignedTeacher.value].role == Teacher
    requires AllIn(s.enrolledStudents, db.users) && NoDuplicates(s.enrolledStudents)
    modifies db`subjects, db`nextId
    ensures db.Valid()
    ensures db.subjects == old(db.subjects)[id := s]
    ensures db.nextId == if id in old(db.subjects) then old(db.nextId) else old(db.nextId) + 1
  {
    CoherentSubjectStore(db.users, db.subjects, db.grades, db.payments, db.announcements, db.nextId, id, s);
    if id !in db.subjects {
      db.nextId := db.nextId + 1;
    }
    db.subjects := db.subjects[id := s];
  }

  /** `announcement.save()`: announcements carry no index and no checked reference. */
  method SaveAnnouncement(db: Database, id: Id, a: Announcement)
    requires db.Valid()
    requires id in db.announcements || id == db.nextId
    modifies db`announcements, db`nextId
    ensures db.Valid()
    ensures db.announcements == old(db.announcements)[id := a]
    ensures db.nextId == if id in old(db.announcements) then old(db.nextId) else old(db.nextId) + 1
  {
    if id !in db.announcements {
      db.nextId := db.nextId + 1;
    }
    db.announcements := db.announcements[id := a];
  }
}
