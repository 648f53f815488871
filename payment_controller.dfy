/** The payment handlers (backend/controllers/paymentController.js): record creation
    with duplicate detection, bounds-checked updates, and the per-student reads. */
module PaymentController {
  import opened Common
  import opened PaymentModel
  import opened Store

  const MsgRequired := "Student ID, amount, semester, and due date are required"
  const MsgStudentNotFound := "Student not found"
  const MsgDuplicate := "Payment record already exists for this semester"
  const MsgRecordNotFound := "Payment record not found"
  const MsgInvalidAmount := "Invalid amount paid"
  const MsgOwnRecords := "You can only view your own payment records"
  const MsgOwnBalance := "You can only view your own tuition balance"

  /** `academicYear || "2024-2025"`, used both by the duplicate check and by the new record. */
  function YearOrDefault(academicYear: string): (y: string)
    ensures academicYear != "" ==> y == academicYear
    ensures academicYear == "" ==> y == DefaultAcademicYear
  {
    if academicYear != "" then academicYear else DefaultAcademicYear
  }

  /** The creation guard `!studentId || !totalAmount || !semester || !dueDate`. */
  predicate MissingField(studentId: Option<Id>, totalAmount: int, semester: int, dueDate: string)
  {
    studentId.None? || totalAmount == 0 || semester == 0 || dueDate == ""
  }

  /** `Payment.findOne({ student, semester, academicYear })` finds something. */
  predicate LedgerTaken(payments: map<Id, Payment>, key: (Id, int, string))
  {
    exists k :: k in payments && LedgerKey(payments[k]) == key
  }

  /** The record `createPaymentRecord` saves: the whole amount still to pay. */
  function NewRecord(student: Id, totalAmount: int, semester: int, academicYear: string, dueDate: string, now: Time): (p: Payment)
    ensures LedgerKey(p) == (student, semester, YearOrDefault(academicYear))
    ensures p.totalAmount == totalAmount && p.balance == totalAmount && p.amountPaid == 0 && p.status == Unpaid
    ensures p.dueDate == dueDate && p.remarks == ""
  {
    WithDefaults(student, semester, totalAmount, totalAmount, dueDate, now).(academicYear := YearOrDefault(academicYear))
  }

  /** A record the creation guard lets through keeps the ledger invariant. */
  lemma NewRecordConsistent(student: Id, totalAmount: int, semester: int, academicYear: string, dueDate: string, now: Time)
    requires totalAmount != 0
    ensures Consistent(NewRecord(student, totalAmount, semester, academicYear, dueDate, now))
  {
  }

  /** `createPaymentRecord`. The student id may name any account; only its existence is checked. */
  method CreatePaymentRecord(db: Database, studentId: Option<Id>, totalAmount: int, semester: int,
                             academicYear: string, dueDate: string, now: Time) returns (r: Response<Id>)
    requires db.Valid()
    modifies db`payments, db`nextId
    ensures db.Valid()
    ensures MissingField(studentId, totalAmount, semester, dueDate) ==> r == Err(BadRequest, MsgRequired)
    ensures !MissingField(studentId, totalAmount, semester, dueDate) && studentId.value !in old(db.users) ==>
              r == Err(NotFound, MsgStudentNotFound)
    ensures !MissingField(studentId, totalAmount, semester, dueDate) && studentId.value in old(db.users)
            && LedgerTaken(old(db.payments), (studentId.value, semester, YearOrDefault(academicYear))) ==>
              r == Err(BadRequest, MsgDuplicate)
    ensures r.Err? ==> unchanged(db)
    ensures r.Ok? <==> !MissingField(studentId, totalAmount, semester, dueDate) && studentId.value in old(db.users)
                       && !LedgerTaken(old(db.payments), (studentId.value, semester, YearOrDefault(academicYear)))
    ensures r.Ok? ==> r.value == old(db.nextId) && r.value !in old(db.payments) && db.nextId == old(db.nextId) + 1
                      && db.payments == old(db.payments)[r.value := NewRecord(studentId.value, totalAmount, semester, academicYear, dueDate, now)]
  {
    if studentId.None? || totalAmount == 0 || semester == 0 || dueDate == "" {
      return Err(BadRequest, MsgRequired);
    }
    if studentId.value !in db.users {
      return Err(NotFound, MsgStudentNotFound);
    }
    var year := YearOrDefault(academicYear);
    if exists k :: k in db.payments && LedgerKey(db.payments[k]) == (studentId.value, semester, year) {
      return Err(BadRequest, MsgDuplicate);
    }
    var p := NewRecord(studentId.value, totalAmount, semester, academicYear, dueDate, now);
    NewRecordConsistent(studentId.value, totalAmount, semester, academicYear, dueDate, now);
    var id := db.nextId;
    SavePayment(db, id, p);
    r := Ok(id);
  }

  /** What `updatePaymentRecord` does to a found record: `Err` for an amount outside
      `0..totalAmount`, else the record as saved and the record as sent back. With an amount,
      `updatePayment` saves the record before the remarks are assigned, so the remarks reach
      the response but not the database. */
  function UpdateOutcome(p: Payment, amountPaid: Option<int>, remarks: string, now: Time): (r: Response<(Payment, Payment)>)
    ensures r.Err? <==> amountPaid.Some? && (amountPaid.value < 0 || amountPaid.value > p.totalAmount)
    ensures r.Err? ==> r == Err(BadRequest, MsgInvalidAmount)
    ensures r.Ok? && amountPaid.Some? ==> r.value.0 == ApplyPayment(p, amountPaid.value, now)
    ensures r.Ok? && amountPaid.None? ==>
              r.value.0 == p.(remarks := if remarks != "" then remarks else p.remarks)
    ensures r.Ok? ==> r.value.1 == r.value.0.(remarks := if remarks != "" then remarks else r.value.0.remarks)
  {
    if amountPaid.Some? && (amountPaid.value < 0 || amountPaid.value > p.totalAmount) then
      Err(BadRequest, MsgInvalidAmount)
    else
      var saved := if amountPaid.Some? then ApplyPayment(p, amountPaid.value, now)
                   else if remarks != "" then p.(remarks := remarks) else p;
      var shown := if remarks != "" then saved.(remarks := remarks) else saved;
      Ok((saved, shown))
  }

  /** The amount `updatePaymentRecord` goes on with. An `undefined` field skips the payment
      branch (`amountPaid !== undefined` at line 112); an explicit `null` enters it and behaves as 0:
      `null < 0` and `null > total` compare 0, `totalAmount - null` is `totalAmount`, `null > 0`
      is false, and the getter reads the stored `null` back as 0. */
  function AmountSent(amountPaid: Patch): (r: Option<int>)
    ensures amountPaid.Keep? <==> r.None?
    ensures amountPaid == Assign(None) ==> r == Some(0)
    ensures amountPaid.Assign? && amountPaid.value.Some? ==> r == amountPaid.value
  {
    match amountPaid
    case Keep => None
    case Assign(None) => Some(0)
    case Assign(Some(x)) => Some(x)
  }

  /** An explicit `null` amount on a positive obligation is accepted and resets the record:
      nothing paid, the whole amount owed, `Unpaid`. */
  lemma NullAmountResets(p: Payment, remarks: string, now: Time)
    requires Consistent(p) && p.totalAmount > 0
    ensures UpdateOutcome(p, AmountSent(Assign(None)), remarks, now).Ok?
    ensures var saved := UpdateOutcome(p, AmountSent(Assign(None)), remarks, now).value.0;
            saved.amountPaid == 0 && saved.balance == p.totalAmount && saved.status == Unpaid
  {
  }

  /** A remarks-only update touches the remarks and nothing else, and only when they are truthy. */
  lemma RemarksOnlyUpdate(p: Payment, remarks: string, now: Time)
    ensures UpdateOutcome(p, None, remarks, now).Ok?
    ensures UpdateOutcome(p, None, remarks, now).value.0 == p.(remarks := if remarks != "" then remarks else p.remarks)
    ensures UpdateOutcome(p, None, remarks, now).value.0 == UpdateOutcome(p, None, remarks, now).value.1
  {
  }

  /** Sent together with an amount, new remarks are shown and not stored: the saved record
      keeps its old remarks. */
  lemma RemarksNotSavedWithAmount(p: Payment, x: int, remarks: string, now: Time)
    requires 0 <= x <= p.totalAmount && remarks != "" && remarks != p.remarks
    ensures UpdateOutcome(p, Some(x), remarks, now).Ok?
    ensures UpdateOutcome(p, Some(x), remarks, now).value.0.remarks == p.remarks
    ensures UpdateOutcome(p, Some(x), remarks, now).value.1.remarks == remarks
  {
  }

  /** An update keeps the ledger invariant and the record's (student, semester, year) key. */
  lemma UpdateOutcomeConsistent(p: Payment, amountPaid: Option<int>, remarks: string, now: Time)
    requires Consistent(p)
    ensures UpdateOutcome(p, amountPaid, remarks, now).Ok? ==>
              Consistent(UpdateOutcome(p, amountPaid, remarks, now).value.0)
              && LedgerKey(UpdateOutcome(p, amountPaid, remarks, now).value.0) == LedgerKey(p)
  {
    if amountPaid.Some? && UpdateOutcome(p, amountPaid, remarks, now).Ok? {
      ApplyPaymentConsistent(p, amountPaid.value, now);
    }
  }

  /** `updatePaymentRecord`: 404 for an unknown id, then the outcome above for the amount sent. */
  method UpdatePaymentRecord(db: Database, paymentId: Id, amountPaid: Patch, remarks: string, now: Time)
    returns (r: Response<Payment>)
    requires db.Valid()
    modifies db`payments, db`nextId
    ensures db.Valid()
    ensures paymentId !in old(db.payments) ==> r == Err(NotFound, MsgRecordNotFound)
    ensures paymentId in old(db.payments) && UpdateOutcome(old(db.payments)[paymentId], AmountSent(amountPaid), remarks, now).Err? ==>
              r == Err(BadRequest, MsgInvalidAmount)
    ensures r.Err? ==> unchanged(db)
    ensures r.Ok? <==> paymentId in old(db.payments) && UpdateOutcome(old(db.payments)[paymentId], AmountSent(amountPaid), remarks, now).Ok?
    ensures r.Ok? ==> paymentId in old(db.payments)
                      && UpdateOutcome(old(db.payments)[paymentId], AmountSent(amountPaid), remarks, now).Ok?
                      && db.payments == old(db.payments)[paymentId := UpdateOutcome(old(db.payments)[paymentId], AmountSent(amountPaid), remarks, now).value.0]
                      && r.value == UpdateOutcome(old(db.payments)[paymentId], AmountSent(amountPaid), remarks, now).value.1
                      && db.nextId == old(db.nextId)
  {
    if paymentId !in db.payments {
      return Err(NotFound, MsgRecordNotFound);
    }
    var payment := db.payments[paymentId];
    var amount := AmountSent(amountPaid);
    UpdateOutcomeConsistent(payment, amount, remarks, now);
    if amount.Some? {
      if amount.value < 0 || amount.value > payment.totalAmount {
        return Err(BadRequest, MsgInvalidAmount);
      }
      payment := UpdatePayment(payment, amount.value, now);
      SavePayment(db, paymentId, payment);
    }
    if remarks != "" {
      payment := payment.(remarks := remarks);
    }
    if amount.None? {
      SavePayment(db, paymentId, payment);
    }
    r := Ok(payment);
  }

  /** The ownership check of both read handlers: a student may read only their own records. */
  predicate MayRead(caller: Caller, studentId: Id)
  {
    caller.role != Student || caller.id == studentId
  }

  /** `Payment.find({ student: studentId })`. */
  method FindRecords(payments: map<Id, Payment>, studentId: Id) returns (ds: seq<Doc<Payment>>)
    ensures forall i, j :: 0 <= i < j < |ds| ==> ds[i].id != ds[j].id
    ensures forall i :: 0 <= i < |ds| ==> ds[i].id in payments && payments[ds[i].id] == ds[i].body
    ensures forall i :: 0 <= i < |ds| ==> ds[i].body.student == studentId
    ensures forall k :: k in payments && payments[k].student == studentId ==> exists i :: 0 <= i < |ds| && ds[i].id == k
  {
    var ids := SelectKeys(payments, (p: Payment) => p.student == studentId);
    ds := Docs(payments, ids);
    forall k | k in payments && payments[k].student == studentId
      ensures exists i :: 0 <= i < |ds| && ds[i].id == k
    {
      var i :| 0 <= i < |ids| && ids[i] == k;
      assert ds[i].id == k;
    }
  }

  /** `getPaymentRecords`. */
  method GetPaymentRecords(db: Database, caller: Caller, studentId: Id) returns (r: Response<seq<Doc<Payment>>>)
    ensures !MayRead(caller, studentId) <==> r.Err?
    ensures r.Err? ==> r == Err(Forbidden, MsgOwnRecords)
    ensures r.Ok? ==> forall i, j :: 0 <= i < j < |r.value| ==> r.value[i].id != r.value[j].id
    ensures r.Ok? ==> forall i :: 0 <= i < |r.value| ==>
                        r.value[i].id in db.payments && db.payments[r.value[i].id] == r.value[i].body
                        && r.value[i].body.student == studentId
    ensures r.Ok? ==> forall k :: k in db.payments && db.payments[k].student == studentId ==>
                        exists i :: 0 <= i < |r.value| && r.value[i].id == k
  {
    if caller.role == Student && caller.id != studentId {
      return Err(Forbidden, MsgOwnRecords);
    }
    var ds := FindRecords(db.payments, studentId);
    r := Ok(ds);
  }

  /** The sum of one numeric path over a list of records, added left to right as the loop does. */
  function SumBy(ds: seq<Doc<Payment>>, f: Payment -> int): int
  {
    if ds == [] then 0 else SumBy(ds[..|ds| - 1], f) + f(ds[|ds| - 1].body)
  }

  /** `payments.filter((p) => p.status === s).length`. */
  function CountStatus(ds: seq<Doc<Payment>>, s: Status): nat
  {
    if ds == [] then 0 else CountStatus(ds[1..], s) + (if ds[0].body.status == s then 1 else 0)
  }

  /** Every record has one of the three statuses, so the counts add up to the number of records. */
  lemma {:induction false} CountsAddUp(ds: seq<Doc<Payment>>)
    ensures CountStatus(ds, Paid) + CountStatus(ds, Partial) + CountStatus(ds, Unpaid) == |ds|
  {
    if ds != [] {
      CountsAddUp(ds[1..]);
    }
  }

  /** Over consistent records the totals balance: paid plus balance is the amount owed. */
  lemma {:induction false} TotalsBalance(ds: seq<Doc<Payment>>)
    requires forall i :: 0 <= i < |ds| ==> Consistent(ds[i].body)
    ensures SumBy(ds, (p: Payment) => p.amountPaid) + SumBy(ds, (p: Payment) => p.balance)
            == SumBy(ds, (p: Payment) => p.totalAmount)
  {
    if ds != [] {
      TotalsBalance(ds[..|ds| - 1]);
    }
  }

  /** The body of `getTuitionBalance`'s response. */
  datatype Balance = Balance(
    totalAmount: int,
    totalPaid: int,
    totalBalance: int,
    paid: nat,
    partial: nat,
    unpaid: nat,
    details: seq<Doc<Payment>>)

  /** The handler's loop: the three running totals over the records, in order. */
  method Accumulate(ds: seq<Doc<Payment>>) returns (totalAmount: int, totalPaid: int, totalBalance: int)
    ensures totalAmount == SumBy(ds, (p: Payment) => p.totalAmount)
    ensures totalPaid == SumBy(ds, (p: Payment) => p.amountPaid)
    ensures totalBalance == SumBy(ds, (p: Payment) => p.balance)
  {
    totalAmount, totalPaid, totalBalance := 0, 0, 0;
    var i := 0;
    while i < |ds|
      invariant 0 <= i <= |ds|
      invariant totalAmount == SumBy(ds[..i], (p: Payment) => p.totalAmount)
      invariant totalPaid == SumBy(ds[..i], (p: Payment) => p.amountPaid)
      invariant totalBalance == SumBy(ds[..i], (p: Payment) => p.balance)
    {
      assert ds[..i + 1][..i] == ds[..i];
      totalAmount := totalAmount + ds[i].body.totalAmount;
      totalPaid := totalPaid + ds[i].body.amountPaid;
      totalBalance := totalBalance + ds[i].body.balance;
      i := i + 1;
    }
    assert ds[..|ds|] == ds;
  }

  /** `getTuitionBalance`: the student's records, their three totals accumulated in one pass,
      and the count of each status. */
  method GetTuitionBalance(db: Database, caller: Caller, studentId: Id) returns (r: Response<Balance>)
    requires db.Valid()
    ensures !MayRead(caller, studentId) <==> r.Err?
    ensures r.Err? ==> r == Err(Forbidden, MsgOwnBalance)
    ensures r.Ok? ==> forall i, j :: 0 <= i < j < |r.value.details| ==> r.value.details[i].id != r.value.details[j].id
    ensures r.Ok? ==> forall i :: 0 <= i < |r.value.details| ==>
                        r.value.details[i].id in db.payments && db.payments[r.value.details[i].id] == r.value.details[i].body
                        && r.value.details[i].body.student == studentId
    ensures r.Ok? ==> forall k :: k in db.payments && db.payments[k].student == studentId ==>
                        exists i :: 0 <= i < |r.value.details| && r.value.details[i].id == k
    ensures r.Ok? ==> r.value.totalAmount == SumBy(r.value.details, (p: Payment) => p.totalAmount)
                      && r.value.totalPaid == SumBy(r.value.details, (p: Payment) => p.amountPaid)
                      && r.value.totalBalance == SumBy(r.value.details, (p: Payment) => p.balance)
    ensures r.Ok? ==> r.value.totalPaid + r.value.totalBalance == r.value.totalAmount
    ensures r.Ok? ==> r.value.paid + r.value.partial + r.value.unpaid == |r.value.details|
    ensures r.Ok? ==> r.value.paid == CountStatus(r.value.details, Paid)
                      && r.value.partial == CountStatus(r.value.details, Partial)
                      && r.value.unpaid == CountStatus(r.value.details, Unpaid)
  {
    if caller.role == Student && caller.id != studentId {
      return Err(Forbidden, MsgOwnBalance);
    }
    var ds := FindRecords(db.payments, studentId);
    var totalAmount, totalPaid, totalBalance := Accumulate(ds);
    TotalsBalance(ds);
    CountsAddUp(ds);
    r := Ok(Balance(totalAmount, totalPaid, totalBalance,
                    CountStatus(ds, Paid), CountStatus(ds, Partial), CountStatus(ds, Unpaid), ds));
  }
}
