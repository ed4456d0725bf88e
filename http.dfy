/** The request and response shapes the controllers and middleware share. */
module Http {
  import opened Wrappers
  import opened Schema

  /** req.user as the authentication middleware sets it. */
  datatype AuthUser = AuthUser(userId: int, role: Role)

  /** A JSON reply: HTTP status, the success flag, and the optional message
      and data fields. */
  datatype Reply<T> = Reply(status: int, success: bool, message: Option<string>, data: Option<T>)

  /** A handled request: the reply sent and the database afterwards. */
  datatype Handled<T> = Handled(reply: Reply<T>, after: Tables)

  function Failure<T>(status: int, message: string): (r: Reply<T>)
    ensures !r.success && r.data.None?
  {
    Reply(status, false, Some(message), None)
  }

  /** An error caught by a controller: 400 with the error's message. */
  function BadRequest<T>(e: Error): (r: Reply<T>)
    ensures r.status == 400 && !r.success && r.message == Some(Message(e))
  {
    Failure(400, Message(e))
  }
}
