/** The boundary to the coffee API: what a request can come back with, the
    `success ? payload : data` unwrapping, and what a thrown error carries.
    The requests themselves are not modelled; their outcomes are inputs. */
module Http {
  import opened Wrappers

  /** A JSON response body: a bare value, or the envelope
      `{success, coffee}` / `{success, coffees}` (the payload may be missing). */
  datatype Body<T> = Bare(value: T) | Envelope(success: bool, payload: Option<T>)

  /** The value of `data.success ? data.payload : data`. */
  datatype Unwrapped<T> = Found(value: T) | WholeEnvelope | Undefined

  /** `data.success ? data.payload : data`: a bare value is kept, a
      successful envelope gives its payload (undefined when missing), an
      unsuccessful one is kept whole. */
  function Unwrap<T>(body: Body<T>): (u: Unwrapped<T>)
    ensures body.Bare? ==> u == Found(body.value)
    ensures body.Envelope? && body.success ==>
      u == (if body.payload.Some? then Found(body.payload.value) else Undefined)
    ensures body.Envelope? && !body.success ==> u == WholeEnvelope
  {
    match body
    case Bare(v) => Found(v)
    case Envelope(success, payload) =>
      if !success then WholeEnvelope
      else if payload.Some? then Found(payload.value)
      else Undefined
  }

  /** `err.response` of an axios error: the status and `data.message`. */
  datatype ErrorResponse = ErrorResponse(status: int, serverMessage: Option<string>)

  /** A thrown error: `err.response`, present only when a server answered
      with an error status, and `err.message`. */
  datatype Thrown = Thrown(response: Option<ErrorResponse>, message: string)

  /** How an `axios.get` settles. */
  datatype AxiosReply<T> = Resolved(data: T) | Rejected(error: Thrown)

  /** How a `fetch` followed by `response.json()` settles: an answer with
      `response.ok` and its parsed body, or a rejection with its message. */
  datatype FetchReply<T> = Answered(ok: bool, json: T) | Failed(message: string)

  /** JavaScript truthiness of an optional string: present and not "". */
  predicate Truthy(s: Option<string>)
  {
    s.Some? && s.value != ""
  }

  /** `err.response?.data?.message`. */
  function ServerMessage(e: Thrown): Option<string>
  {
    if e.response.Some? then e.response.value.serverMessage else None
  }

  /** `err.response?.status === 404`. */
  predicate IsNotFound(e: Thrown)
  {
    e.response.Some? && e.response.value.status == 404
  }
}
