/** What the sign-up and login forms get back from `fetch` and how they turn
    it into a message (src/pages/Signup.js:60-83, src/pages/Login.js:38-59). */
module Auth {
  import opened Optional

  /** The signed-in identity the backend hands back. */
  datatype User = User(name: string, email: string)

  /** The parts of a JSON reply body the forms read: `message` and `user`. */
  datatype Body = Body(message: Option<string>, user: Option<User>)

  /** One round trip: either something threw (no connection, or a body
      `res.json()` could not parse) or an answer with a status and body. */
  datatype Exchange = Threw | Answered(status: int, body: Body)

  /** `res.ok`: the status is in the 2xx range. */
  predicate IsOk(status: int) {
    200 <= status <= 299
  }

  /** The message shown whenever the round trip threw. */
  const ConnectionError := "Connection error. Please check your internet and try again."

  /** `data.message || fallback`: the server's message unless it is absent
      or empty, which JavaScript treats alike. */
  function MessageOr(body: Body, fallback: string): (r: string)
    ensures body.message.Some? && body.message.value != "" ==> r == body.message.value
    ensures body.message.None? || body.message.value == "" ==> r == fallback
    ensures fallback != "" ==> r != ""
  {
    if body.message.Some? && body.message.value != "" then body.message.value else fallback
  }
}
