/**
 * One attempt of the retrying fetcher: the POST, `raise_for_status()` and
 * `resp.json()`, all inside one `try` block.  Any of the three may raise, and
 * the `except Exception` clause catches them alike, so an attempt ends either
 * with the parsed payload or with the text of the exception.
 */
module Attempt {

  /** The body of a reply as `resp.json()` sees it; the payload type `J` is opaque. */
  datatype Decoded<J> = Json(value: J) | Malformed(description: string)

  /** What the upstream does with one POST. */
  datatype Response<J> =
    | TransportError(description: string)                       // timeout, refused connection, ...
    | Reply(status: int, statusError: string, body: Decoded<J>) // statusError: the text raise_for_status raises with

  /** The classified end of one attempt. */
  datatype Outcome<J> = Ok(payload: J) | Err(message: string)

  /** `raise_for_status()` lets exactly the 2xx codes through. */
  predicate IsSuccessStatus(status: int) {
    200 <= status < 300
  }

  /** The three ways an attempt can fail. */
  predicate Fails<J>(r: Response<J>) {
    r.TransportError? || !IsSuccessStatus(r.status) || r.body.Malformed?
  }

  /** The attempt as the `try`/`except` sees it: the status is checked before the body is parsed. */
  function Classify<J>(r: Response<J>): (o: Outcome<J>)
    ensures o.Err? <==> Fails(r)
    ensures o.Ok? ==> r.Reply? && r.body == Json(o.payload)
    ensures r.TransportError? ==> o == Err(r.description)
    ensures r.Reply? && !IsSuccessStatus(r.status) ==> o == Err(r.statusError)
    ensures r.Reply? && IsSuccessStatus(r.status) && r.body.Malformed? ==> o == Err(r.body.description)
  {
    match r
    case TransportError(d) => Err(d)
    case Reply(status, statusError, body) =>
      if !IsSuccessStatus(status) then Err(statusError)
      else
        match body
        case Json(v) => Ok(v)
        case Malformed(d) => Err(d)
  }
}
