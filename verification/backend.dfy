/** The decision logic of `BackendConnector`: the classification of an
    HTTP status into a backend error, and the order in which each request
    method checks its preconditions and reports failures. The request
    itself is an input: what response and what body came back. */
module Backend {
  import opened Wrappers

  /** `BackendErrors`. Payloads the connector never inspects are dropped. */
  datatype BackendError =
    | DataIsEmpty(message: string)
    | TokenIsNone(message: string)
    | EncodingError(message: string)
    | CannotPrepareEndpoint
    | UnsynchronizedRevision
    | NotFound
    | Unauthorized
    | ParseError

  /** What the session hands to the completion handler as `response`. */
  datatype Response = NoResponse | NotHttp | Http(statusCode: int)

  /** `checkStatus(response:)`. */
  function CheckStatus(r: Response): (e: Option<BackendError>)
    ensures e.Some? <==> r.Http? && r.statusCode in {400, 401, 404}
    ensures e.Some? ==> StatusOf(e.value) == Some(r.statusCode)
  {
    if !r.Http? then None
    else if r.statusCode == 200 then None
    else if r.statusCode == 400 then Some(UnsynchronizedRevision)
    else if r.statusCode == 404 then Some(NotFound)
    else if r.statusCode == 401 then Some(Unauthorized)
    else None
  }

  /** The status each classified error stands for. */
  function StatusOf(e: BackendError): Option<int> {
    match e
    case UnsynchronizedRevision => Some(400)
    case NotFound => Some(404)
    case Unauthorized => Some(401)
    case _ => None
  }

  /** Every error that stands for a status is what that status classifies
      as, so the classification and `StatusOf` are mutually inverse. */
  lemma StatusRoundTrip(e: BackendError)
    requires StatusOf(e).Some?
    ensures CheckStatus(Http(StatusOf(e).value)) == Some(e)
  {
  }

  /** Success and every status outside the three error codes classify as no
      error, as does a missing or non-HTTP response. */
  lemma OtherStatusesAreNoError(code: int)
    requires code != 400 && code != 401 && code != 404
    ensures CheckStatus(Http(code)).None?
    ensures CheckStatus(NoResponse).None? && CheckStatus(NotHttp).None?
  {
  }

  /** The six request methods. */
  datatype Method = GetList | Merge | AddItem | UpdateItem | RemoveItem | GetItem

  /** Whether the method builds its endpoint through a throwing factory
      (`merge`, `add`, `update`, `remove`) rather than a fixed case. */
  predicate BuildsEndpoint(m: Method) {
    m.Merge? || m.AddItem? || m.UpdateItem? || m.RemoveItem?
  }

  /** The endpoint factory's outcome. */
  datatype EndpointBuild = Built | FactoryThrew | FactoryReturnedNil

  /** The response body: absent, present but not decodable, or decoded. */
  datatype Payload<T> = NoData | Undecodable | Decoded(value: T)

  /** A request method, from the token check to the returned value. The
      body is decoded whenever it is present, but a status error is thrown
      after the wait even when decoding succeeded. */
  function Request<T>(m: Method, token: Option<string>, endpoint: EndpointBuild,
                      response: Response, body: Payload<T>): (r: Result<Option<T>, BackendError>)
    ensures token.None? ==> r == Failure(TokenIsNone("Token is none"))
    ensures token.Some? && BuildsEndpoint(m) && endpoint != Built ==> r == Failure(CannotPrepareEndpoint)
    ensures r.Success? <==> token.Some? && (!BuildsEndpoint(m) || endpoint == Built) && CheckStatus(response).None?
    ensures r.Success? && body.Decoded? ==> r.value == Some(body.value)
    ensures r.Success? && !body.Decoded? ==> r.value.None?
    ensures token.Some? && (!BuildsEndpoint(m) || endpoint == Built) && CheckStatus(response).Some? ==>
              r == Failure(CheckStatus(response).value)
  {
    if token.None? then Failure(TokenIsNone("Token is none"))
    else if BuildsEndpoint(m) && endpoint != Built then Failure(CannotPrepareEndpoint)
    else
      var decoded := if body.Decoded? then Some(body.value) else None;
      var statusError := CheckStatus(response);
      if statusError.Some? then Failure(statusError.value) else Success(decoded)
  }

  /** A missing token is reported before anything else is looked at,
      whatever the endpoint, response and body would have been. */
  lemma TokenCheckComesFirst<T>(m: Method, e: EndpointBuild, r: Response, b: Payload<T>,
                                e': EndpointBuild, r': Response, b': Payload<T>)
    ensures Request(m, None, e, r, b) == Request(m, None, e', r', b')
  {
  }

  /** A status error wins over a successfully decoded body. */
  lemma StatusErrorBeatsBody<T>(m: Method, token: string, v: T)
    ensures Request(m, Some(token), Built, Http(400), Decoded(v)) == Failure(UnsynchronizedRevision)
    ensures Request(m, Some(token), Built, Http(200), Decoded(v)) == Success(Some(v))
  {
  }
}
