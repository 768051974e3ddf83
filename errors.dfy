/** The Express error handler of middleware/errorHandler.js: a chain of
    tests on the error's kind, the first match deciding the status and the
    message of the JSON reply. */
module ErrorHandler {
  import opened Common
  import opened Strings

  /** The error fields the handler reads: `name`, the numeric `code`, the
      field names of `keyValue` in key order, the `message` of each entry of
      `errors`, `statusCode` and `message`. */
  datatype AppError = AppError(
    name: string,
    code: Option<int>,
    keyFields: seq<string>,
    validationMessages: seq<string>,
    statusCode: Option<int>,
    message: string)

  /** A JSON error reply: status, `message` and the optional `code`. */
  datatype Reply = Reply(status: int, message: string, code: Option<string>)

  const NotFound := Reply(404, "Resource not found.", None)
  const BadToken := Reply(401, "Invalid token.", None)
  const ExpiredToken := Reply(401, "Token expired.", Some("TOKEN_EXPIRED"))

  predicate IsDuplicateKey(err: AppError) {
    err.code == Some(11000)
  }

  /** `` `${field.charAt(0).toUpperCase() + field.slice(1)} already exists.` ``. */
  function DuplicateMessage(field: string): (m: string)
    ensures |m| == |field| + |" already exists."|
    ensures m[|field|..] == " already exists."
    ensures field != [] ==> m[0] == UpperChar(field[0]) && m[1..|field|] == field[1..]
  {
    Capitalize(field) + " already exists."
  }

  /** `err.statusCode || 500`: a missing or zero status becomes 500. */
  function StatusOr500(statusCode: Option<int>): (s: int)
    ensures statusCode.Some? && statusCode.value != 0 ==> s == statusCode.value
    ensures statusCode.None? || statusCode.value == 0 ==> s == 500
  {
    if statusCode.Some? && statusCode.value != 0 then statusCode.value else 500
  }

  /** `errorHandler`. A duplicate-key error always carries a `keyValue`
      with at least one field. */
  function Handle(err: AppError): (r: Reply)
    requires IsDuplicateKey(err) ==> |err.keyFields| >= 1
    ensures err.name == "CastError" ==> r == NotFound
    ensures err.name != "CastError" && IsDuplicateKey(err) ==>
              r == Reply(400, DuplicateMessage(err.keyFields[0]), None)
    ensures r.code.Some? <==> r == ExpiredToken
  {
    if err.name == "CastError" then NotFound
    else if IsDuplicateKey(err) then Reply(400, DuplicateMessage(err.keyFields[0]), None)
    else if err.name == "ValidationError" then Reply(400, Join(err.validationMessages, ", "), None)
    else if err.name == "JsonWebTokenError" then BadToken
    else if err.name == "TokenExpiredError" then ExpiredToken
    else Reply(StatusOr500(err.statusCode), if err.message != "" then err.message else "Internal Server Error", None)
  }

  /** The names the handler recognises before its default branch. */
  predicate Recognised(err: AppError) {
    err.name in {"CastError", "ValidationError", "JsonWebTokenError", "TokenExpiredError"} || IsDuplicateKey(err)
  }

  /** Every recognised error gets a 4xx status: 404 for a bad id, 400 for
      a duplicate key or a failed validation, 401 for a token error; any
      other error keeps its own non-zero status or gets 500, with its own
      non-empty message or `'Internal Server Error'`. */
  lemma HandleStatus(err: AppError)
    requires IsDuplicateKey(err) ==> |err.keyFields| >= 1
    ensures Recognised(err) ==> Handle(err).status in {400, 401, 404}
    ensures Handle(err).status == 404 && Recognised(err) <==> err.name == "CastError"
    ensures Handle(err).status == 401 && Recognised(err) <==>
              err.name != "CastError" && !IsDuplicateKey(err) && err.name in {"JsonWebTokenError", "TokenExpiredError"}
    ensures !Recognised(err) ==> Handle(err).status == StatusOr500(err.statusCode)
    ensures !Recognised(err) ==> Handle(err).message == (if err.message != "" then err.message else "Internal Server Error")
  {
  }

  /** A bad-id error is reported as a missing resource even when it also
      carries the duplicate-key code: the `CastError` test comes first. */
  lemma CastErrorFirst(err: AppError)
    requires err.name == "CastError" && IsDuplicateKey(err) && |err.keyFields| >= 1
    ensures Handle(err) == NotFound
  {
  }

  /** A duplicate `email` is reported as `'Email already exists.'`. */
  lemma DuplicateEmail(err: AppError)
    requires err.name == "MongoServerError" && IsDuplicateKey(err) && err.keyFields == ["email", "name"]
    ensures Handle(err) == Reply(400, "Email already exists.", None)
  {
    assert err.name != "CastError";
    EmailMessage();
  }

  lemma EmailMessage()
    ensures DuplicateMessage("email") == "Email already exists."
  {
    assert Capitalize("email") == "Email";
  }

  /** A failed validation is reported with 400 and all its messages, in
      order, joined by a comma and a space: one message on its own, two as
      `m1, m2`, none as an empty message. */
  lemma ValidationMessages(err: AppError, m1: string, m2: string)
    requires err.name == "ValidationError" && !IsDuplicateKey(err)
    ensures Handle(err) == Reply(400, Join(err.validationMessages, ", "), None)
    ensures err.validationMessages == [m1] ==> Handle(err).message == m1
    ensures err.validationMessages == [m1, m2] ==> Handle(err).message == m1 + ", " + m2
    ensures err.validationMessages == [] ==> Handle(err).message == ""
    ensures Handle(err).status == 400
  {
    if err.validationMessages == [m1, m2] {
      assert [m1, m2][1..] == [m2];
      assert Join([m1, m2], ", ") == m1 + ", " + Join([m2], ", ");
    }
  }

  /** An error with its own status and message keeps both. */
  lemma DefaultKeepsOwn(err: AppError, status: int)
    requires !Recognised(err) && err.statusCode == Some(status) && status != 0 && err.message != ""
    ensures Handle(err) == Reply(status, err.message, None)
  {
  }
}
