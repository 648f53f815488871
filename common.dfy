/** Types shared by every part of the portal model: identifiers, instants,
    roles, the authenticated caller and the tagged result every handler returns. */
module Common {

  /** A document identifier (a MongoDB ObjectId). Only equality is ever used. */
  type Id = nat

  /** An instant in milliseconds since the Unix epoch, as `Date.now()` gives it. */
  type Time = nat

  datatype Option<T> = None | Some(value: T)

  /** The `role` enum of the user schema: "student", "teacher" or "admin". */
  datatype Role = Student | Teacher | Admin

  /** The payload a valid token decodes to, which `auth` attaches as `req.user`. */
  datatype Caller = Caller(id: Id, role: Role)

  /** The local calendar fields of `new Date()`: `getFullYear()`, `getMonth()` (0-based),
      `getDate()`, `getHours()`, `getMinutes()`, `getSeconds()`. */
  datatype DateParts = DateParts(year: nat, month: nat, day: nat, hours: nat, minutes: nat, seconds: nat)

  /** What the JavaScript `Date` values give a handler: the millisecond instant and its local calendar fields. */
  datatype Clock = Clock(millis: Time, local: DateParts)

  /** A numeric field of a request body: `Keep` for an `undefined` field, `Assign(None)` for an
      explicit `null`, `Assign(Some(n))` for a number. */
  datatype Patch = Keep | Assign(value: Option<int>)

  /** A stored document together with its `_id`, as the list endpoints return them. */
  datatype Doc<T> = Doc(id: Id, body: T)

  /** A handler's reply: the JSON body of a 2xx response, or an error status with its message. */
  datatype Response<T> = Ok(value: T) | Err(code: int, message: string)

  /** `x || y` on strings: the empty string is falsy. */
  function OrString(x: string, y: string): string { if x != "" then x else y }

  /** `x || y` on numbers: zero is falsy. */
  function OrInt(x: int, y: int): int { if x != 0 then x else y }

  const BadRequest := 400
  const Unauthorized := 401
  const Forbidden := 403
  const NotFound := 404
  /** What every `catch` block answers, and what a failed `save` (schema validation or a unique index) ends in. */
  const ServerError := 500

  const MsgServerError := "Server error"
}
