/** The JSON responses the route handlers return: an HTTP status and either the
    payload or an `{ error }` object. */
module Http {

  datatype Body<+T> = Payload(value: T) | ErrorMessage(message: string)

  datatype Reply<+T> = Reply(status: int, body: Body<T>) {

    /** `Response.ok`: the status is in the 2xx range. */
    predicate Ok() {
      200 <= status <= 299
    }
  }

  function Fail<T>(status: int, message: string): (r: Reply<T>)
    ensures r.status == status && r.body == ErrorMessage(message)
  {
    Reply(status, ErrorMessage(message))
  }
}
