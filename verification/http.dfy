/** How a `fetch` call followed by `res.json()` ends, as the pages see it. */
module Http {
  import opened Wrappers

  /** `Ok`: `res.ok` with the parsed body; `NotOk`: an error status, with the
      body's message field if it has one; `Thrown`: the request or the JSON
      parsing threw. */
  datatype Reply<T> = Ok(data: T) | NotOk(message: Option<string>) | Thrown

  /** JavaScript `message || fallback` on an optional string: a missing or
      empty message gives way to the fallback. */
  function MessageOr(message: Option<string>, fallback: string): (r: string)
    ensures message.Some? && message.value != "" ==> r == message.value
    ensures message.None? || message.value == "" ==> r == fallback
  {
    if message.Some? && message.value != "" then message.value else fallback
  }

  /** The colour class of a page message. */
  datatype Tone = Info | Success | Error
}
