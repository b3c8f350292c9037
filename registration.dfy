/**
  `insert_user`: the kiosk posts the entry to the registry and reads back
  whether it was accepted. The HTTP exchange itself is not modelled; the
  reply the registry would give (or the fault the transport would raise) is
  the input.
*/
module Registration {
  import opened Wrappers

  /** A JSON value as far as the comparison with `"success"` can tell them apart. */
  datatype Json = JString(text: string) | JOther

  /** What `response.json()` makes of the body. */
  datatype Body =
    | Unparsable                        // json() raises a decode error
    | NonObject                         // valid JSON but not an object: `.get` raises
    | Object(status: Option<Json>)      // an object, with or without a "status" member

  /** What `requests.post` gives back. */
  datatype Reply =
    | TransportFailure                  // the call raises (no connection, timeout, ...)
    | Http(code: int, body: Body)

  /** The registry acknowledged the entry: status 200 and `"status": "success"`. */
  predicate Acknowledged(r: Reply) {
    r.Http? && r.code == 200 && r.body == Object(Some(JString("success")))
  }

  /** How the `try` block of `insert_user` ends. */
  datatype TryOutcome = Raised | Returned(value: bool)

  /**
    The `try` block. The `and` is evaluated left to right, so the body is
    parsed only when the status code is 200.
  */
  function TryBlock(r: Reply): (o: TryOutcome)
    ensures o.Raised? <==> r.TransportFailure? || (r.code == 200 && !r.body.Object?)
    ensures o.Returned? ==> (o.value <==> Acknowledged(r))
  {
    match r
    case TransportFailure => Raised
    case Http(code, body) =>
      if code != 200 then Returned(false)
      else
        match body
        case Unparsable => Raised
        case NonObject => Raised
        case Object(status) => Returned(status == Some(JString("success")))
  }

  /**
    `insert_user`: every exception is caught and turned into `False`, so the
    result is a plain yes or no and nothing escapes to the caller.
  */
  function InsertUser(r: Reply): (ok: bool)
    ensures ok <==> Acknowledged(r)
    ensures TryBlock(r).Raised? ==> !ok
  {
    match TryBlock(r)
    case Raised => false
    case Returned(b) => b
  }
}
