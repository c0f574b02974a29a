/**
 * The Express error middleware and the 404 handler
 * (middleware/errorHandler.js): how a thrown error becomes a JSON reply.
 */
module ErrorHandler {
  import opened Wrappers

  /** The parts of a thrown error the handler reads. A missing `statusCode`
      or `message` property is `None`. */
  datatype Failure = Failure(name: string, statusCode: Option<int>, message: Option<string>, stack: string)

  /** The reply: `success` is always false; `stack` is present or absent. */
  datatype Reply = Reply(status: int, success: bool, message: string, stack: Option<string>)

  const DefaultStatus := 500
  const DefaultMessage := "Internal Server Error"

  /** `err.statusCode || 500`. */
  function StatusOf(err: Failure): (s: int)
    ensures err.statusCode.Some? && err.statusCode.value != 0 ==> s == err.statusCode.value
    ensures err.statusCode.None? || err.statusCode.value == 0 ==> s == DefaultStatus
  {
    if err.statusCode.Some? && err.statusCode.value != 0 then err.statusCode.value else DefaultStatus
  }

  /** `err.message || 'Internal Server Error'`. */
  function MessageOf(err: Failure): (m: string)
    ensures err.message.Some? && err.message.value != "" ==> m == err.message.value
    ensures err.message.None? || err.message.value == "" ==> m == DefaultMessage
    ensures m != ""
  {
    if err.message.Some? && err.message.value != "" then err.message.value else DefaultMessage
  }

  /** The string `'...' + err.message` concatenates: a missing message prints as `undefined`. */
  function Printed(message: Option<string>): string {
    if message.Some? then message.value else "undefined"
  }

  /** `errorHandler`. The name checks run in order, so an `UnauthorizedError`
      overrides any status code and message; the stack is sent only when
      `NODE_ENV` is `development`. */
  function Handle(err: Failure, nodeEnv: Option<string>): (r: Reply)
    ensures !r.success
    ensures r.stack.Some? <==> nodeEnv == Some("development")
    ensures r.stack.Some? ==> r.stack.value == err.stack
    ensures err.name == "ValidationError" ==>
              r.status == 400 && r.message == "Validation Error: " + Printed(err.message)
    ensures err.name == "UnauthorizedError" ==> r.status == 401 && r.message == "Unauthorized"
    ensures err.name != "ValidationError" && err.name != "UnauthorizedError" ==>
              r.status == StatusOf(err) && r.message == MessageOf(err)
  {
    var status := if err.name == "ValidationError" then 400
                  else if err.name == "UnauthorizedError" then 401
                  else StatusOf(err);
    var message := if err.name == "ValidationError" then "Validation Error: " + Printed(err.message)
                   else if err.name == "UnauthorizedError" then "Unauthorized"
                   else MessageOf(err);
    Reply(status, false, message, if nodeEnv == Some("development") then Some(err.stack) else None)
  }

  /** `notFound`. */
  function NotFound(): (r: Reply)
    ensures r.status == 404 && !r.success && r.message == "Route not found" && r.stack.None?
  {
    Reply(404, false, "Route not found", None)
  }
}
