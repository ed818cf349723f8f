/** How a request model is built from its input: every field's validator
    runs, the `ValueError`s of all fields are collected into one validation
    error, and any other exception escapes. */
module Schema {
  import opened Wrappers
  import opened PyStr
  import opened PyValue
  import opened Validators

  /** One entry of a validation error: the field and the message. */
  datatype FieldError = FieldError(loc: string, msg: string)

  /** The outcome of building a model: the model, the collected errors, or
      an exception that escaped a validator. */
  datatype Parsed<T> = Valid(value: T) | Invalid(errors: seq<FieldError>) | Raised

  /** The outcome of one field. */
  datatype Checked<T> = Ok(value: T) | Bad(errors: seq<FieldError>) | Escaped {
    function Errors(): seq<FieldError> {
      if Bad? then errors else []
    }
  }

  /** A validator's outcome as a field outcome: a `ValueError` is reported
      against the field, anything else escapes. */
  function Report<T>(key: string, r: Result<T, Exc>): (c: Checked<T>)
    ensures r.Success? <==> c.Ok?
    ensures r.Success? ==> c.value == r.value
    ensures r.Failure? && r.error.ValueError? ==> c == Bad([FieldError(key, r.error.msg)])
  {
    match r
    case Success(x) => Ok(x)
    case Failure(ValueError(m)) => Bad([FieldError(key, m)])
    case Failure(_) => Escaped
  }

  /** The raw input of a field (`None` when absent). */
  function Input(body: Dict, key: string): Value {
    Get(body, key, VNone)
  }

  /** A field without a default, where `r` is its validator's outcome on
      `Input(body, key)`: absent means "Field required", and the validator's
      outcome is not used. */
  function Required<T>(body: Dict, key: string, r: Result<T, Exc>): (c: Checked<T>)
    ensures key !in body ==> c == Bad([FieldError(key, "Field required")])
    ensures key in body ==> c == Report(key, r)
  {
    if key !in body then Bad([FieldError(key, "Field required")]) else Report(key, r)
  }

  /** A field with a default: absent means the default, which is not
      validated. */
  function Defaulted<T>(body: Dict, key: string, default: T, r: Result<T, Exc>): (c: Checked<T>)
    ensures key !in body ==> c == Ok(default)
    ensures key in body ==> c == Report(key, r)
  {
    if key !in body then Ok(default) else Report(key, r)
  }

  /** An integer field constrained by `ge=lo` and, when given, `le=hi`. */
  function Bounded(key: string, v: Option<int>, default: int, lo: int, hi: Option<int>): (c: Checked<int>)
    ensures c.Ok? <==> (v.None? || (lo <= v.value && (hi.Some? ==> v.value <= hi.value)))
    ensures c.Ok? ==> c.value == v.GetOr(default)
    ensures !c.Escaped?
  {
    match v
    case None => Ok(default)
    case Some(n) =>
      if n < lo then Bad([FieldError(key, "Input should be greater than or equal to " + IntToString(lo))])
      else if hi.Some? && n > hi.value then
        Bad([FieldError(key, "Input should be less than or equal to " + IntToString(hi.value))])
      else Ok(n)
  }

  /** Pagination parameters `skip` and `limit`. */
  datatype Page = Page(skip: int, limit: int)

  /** `skip: int = Field(0, ge=0)` and `limit: int = Field(default, ge=1, le=100)`;
      the errors of both fields are reported together. */
  function ParsePage(skip: Option<int>, limit: Option<int>, defaultLimit: int): (p: Parsed<Page>)
    ensures p.Valid? <==> (skip.None? || skip.value >= 0) && (limit.None? || 1 <= limit.value <= 100)
    ensures p.Valid? ==> p.value == Page(skip.GetOr(0), limit.GetOr(defaultLimit))
    ensures p.Invalid? ==> |p.errors| in {1, 2}
  {
    var s := Bounded("skip", skip, 0, 0, None);
    var l := Bounded("limit", limit, defaultLimit, 1, Some(100));
    if s.Ok? && l.Ok? then Valid(Page(s.value, l.value)) else Invalid(s.Errors() + l.Errors())
  }
  /** The `EmailStr` type pydantic checks after an email field's
      `mode="before"` validator. Its `email_validator` library (run without
      deliverability checks) refuses some addresses the simple pattern of
      `validate_email_format` admits, such as a doubled dot in the local
      part or a special-use domain like `.test`. The library is not part of
      this model: `refusal(a)` is its reason for refusing `a`, and `None`
      when it accepts. For the lower-case ASCII addresses that reach it, its
      normalized form is the address itself. */
  type EmailStrCheck = string -> Option<string>

  /** The message of an `EmailStr` refusal, before the library's reason. */
  const EMAIL_STR_ERROR := "value is not a valid email address: "

  /** The `EmailStr` check applied to the outcome `r` of the field's own
      validator: refused addresses become a validation error of the field. */
  function EmailStr(refusal: EmailStrCheck, r: Result<string, Exc>): (c: Result<string, Exc>)
    ensures c.Success? <==> r.Success? && refusal(r.value).None?
    ensures c.Success? ==> c.value == r.value
    ensures r.Failure? ==> c == r
    ensures r.Success? && refusal(r.value).Some? ==>
      c == Failure(ValueError(EMAIL_STR_ERROR + refusal(r.value).value))
  {
    match r
    case Failure(e) => Failure(e)
    case Success(a) =>
      match refusal(a)
      case None => Success(a)
      case Some(reason) => Failure(ValueError(EMAIL_STR_ERROR + reason))
  }
}
