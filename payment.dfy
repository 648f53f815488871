/** The payment schema and its `updatePayment` document method
    (backend/models/Payment.js). Money is in integer centavos. */
module PaymentModel {
  import opened Common

  /** The `status` enum; a new document defaults to `Unpaid`. */
  datatype Status = Unpaid | Partial | Paid

  /** One tuition obligation of one student for one semester of one academic year. */
  datatype Payment = Payment(
    student: Id,
    academicYear: string,
    semester: int,
    totalAmount: int,
    amountPaid: int,
    balance: int,
    status: Status,
    dueDate: string,
    lastUpdated: Time,
    remarks: string,
    createdAt: Time)

  /** The schema default of `academicYear`, which the controller also falls back to. */
  const DefaultAcademicYear := "2024-2025"

  /** A document built with only the required paths given: every other path takes its schema default. */
  function WithDefaults(student: Id, semester: int, totalAmount: int, balance: int, dueDate: string, now: Time): (p: Payment)
    ensures p.amountPaid == 0 && p.status == Unpaid
    ensures p.academicYear == DefaultAcademicYear && p.remarks == ""
    ensures p.lastUpdated == now && p.createdAt == now
  {
    Payment(student, DefaultAcademicYear, semester, totalAmount, 0, balance, Unpaid, dueDate, now, "", now)
  }

  /** The status `updatePayment` derives, tested in its order: `Paid` when nothing is left to pay,
      else `Partial` when something was paid, else `Unpaid`. */
  function StatusFor(balance: int, amountPaid: int): (s: Status)
    ensures s == Paid <==> balance <= 0
    ensures s == Partial <==> balance > 0 && amountPaid > 0
    ensures s == Unpaid <==> balance > 0 && amountPaid <= 0
  {
    if balance <= 0 then Paid else if amountPaid > 0 then Partial else Unpaid
  }

  /** The document after `updatePayment(amountPaid)`: the amount is recorded, the balance
      and status are derived from it, `lastUpdated` is refreshed and nothing else changes. */
  function ApplyPayment(p: Payment, amountPaid: int, now: Time): (r: Payment)
    ensures r.amountPaid == amountPaid && r.amountPaid + r.balance == p.totalAmount
    ensures r.status == StatusFor(p.totalAmount - amountPaid, amountPaid)
    ensures r.lastUpdated == now
    ensures r.(amountPaid := p.amountPaid, balance := p.balance, status := p.status, lastUpdated := p.lastUpdated) == p
  {
    p.(amountPaid := amountPaid,
       balance := p.totalAmount - amountPaid,
       status := StatusFor(p.totalAmount - amountPaid, amountPaid),
       lastUpdated := now)
  }

  /** `updatePayment`: assigns `amountPaid`, `balance`, `status` and `lastUpdated` on the
      document in that order and hands the document back to be saved. */
  method UpdatePayment(p: Payment, amountPaid: int, now: Time) returns (doc: Payment)
    ensures doc == ApplyPayment(p, amountPaid, now)
  {
    doc := p;
    doc := doc.(amountPaid := amountPaid);
    doc := doc.(balance := doc.totalAmount - amountPaid);
    if doc.balance <= 0 {
      doc := doc.(status := Paid);
    } else if amountPaid > 0 {
      doc := doc.(status := Partial);
    } else {
      doc := doc.(status := Unpaid);
    }
    doc := doc.(lastUpdated := now);
  }

  /** Within the bounds the controller enforces, each status names one range of the amount paid. */
  lemma StatusExactly(p: Payment, x: int, now: Time)
    requires 0 <= x <= p.totalAmount
    ensures ApplyPayment(p, x, now).status == Paid <==> x == p.totalAmount
    ensures ApplyPayment(p, x, now).status == Partial <==> 0 < x < p.totalAmount
    ensures ApplyPayment(p, x, now).status == Unpaid <==> x == 0 < p.totalAmount
  {
  }

  /** Applying the same amount twice gives the same amount, balance and status; only
      `lastUpdated` moves to the second call's instant. */
  lemma ApplyPaymentIdempotent(p: Payment, x: int, t1: Time, t2: Time)
    ensures ApplyPayment(ApplyPayment(p, x, t1), x, t2) == ApplyPayment(p, x, t2)
  {
  }

  /** The ledger invariant every stored payment keeps. The obligation is never 0 (the creation
      check rejects it) and the amounts always add up. A positive
      obligation has its amount paid within bounds and its status derived from it; a negative one
      (the creation check accepts it) can never be updated and stays `Unpaid` with nothing paid. */
  predicate Consistent(p: Payment)
  {
    && p.totalAmount != 0
    && p.amountPaid + p.balance == p.totalAmount
    && (p.totalAmount > 0 ==> 0 <= p.amountPaid <= p.totalAmount && p.status == StatusFor(p.balance, p.amountPaid))
    && (p.totalAmount < 0 ==> p.amountPaid == 0 && p.status == Unpaid)
  }

  /** An in-bounds payment keeps the invariant. */
  lemma ApplyPaymentConsistent(p: Payment, x: int, now: Time)
    requires Consistent(p) && 0 <= x <= p.totalAmount
    ensures Consistent(ApplyPayment(p, x, now))
  {
  }

  /** A consistent record's status strictly follows its amount paid. */
  lemma ConsistentStatus(p: Payment)
    requires Consistent(p) && p.totalAmount > 0
    ensures p.status == Paid <==> p.amountPaid == p.totalAmount
    ensures p.status == Partial <==> 0 < p.amountPaid < p.totalAmount
    ensures p.status == Unpaid <==> p.amountPaid == 0
  {
  }
}
