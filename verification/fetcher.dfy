/** The outcome classification of `httpFetcher.Fetch`
    (services/data_http.go): a conditional GET of the upstream feed. With a
    previous entity tag the request carries `If-None-Match` (section 13.1.2
    of RFC 9110); a `304 Not Modified` answer (section 15.4.5 of RFC 9110)
    means "keep what you have"; a `200` carries the document and, perhaps,
    a new `ETag` (section 8.8.3 of RFC 9110). The transport is a
    parameter: a function from request to response. */
module Fetcher {
  import opened Wrappers
  import opened Schema

  const StatusOK: int := 200
  const StatusNotModified: int := 304

  /** What can go wrong while getting the feed. The last one is raised by
      the cache, when a fetch reports neither an error nor a document. */
  datatype Error =
    | TransportError(reason: string)
    | StatusError(status: string)
    | DecodeError(reason: string)
    | NoDataReturned
  {
    function Message(): string
    {
      match this
      case TransportError(reason) => reason
      case StatusError(status) => "Upstream API error, Status: " + status
      case DecodeError(reason) => reason
      case NoDataReturned => "no data returned from fetcher"
    }
  }

  /** The only header the service varies: `If-None-Match`. */
  datatype Request = Request(ifNoneMatch: Option<string>)

  /** A response: a transport failure, or a status code with its status
      line, the `ETag` header (empty when absent) and the outcome of
      decoding the body as the feed document. */
  datatype HttpResponse =
    | TransportFailure(reason: string)
    | Response(status: int, statusLine: string, etagHeader: string, body: Result<APIResponse, string>)

  /** `Fetch`'s four results: the document, the entity tag, the
      not-modified flag and the error. */
  datatype FetchReply = FetchReply(data: Option<APIResponse>, etag: string, notModified: bool, err: Option<Error>)

  /** The request `Fetch` sends for a previous tag. */
  function RequestFor(etag: string): (req: Request)
    ensures req.ifNoneMatch.Some? <==> etag != ""
    ensures req.ifNoneMatch.Some? ==> req.ifNoneMatch.value == etag
  {
    if etag != "" then Request(Some(etag)) else Request(None)
  }

  /** The branches of `Fetch` after the round trip, in source order. */
  function Classify(etag: string, resp: HttpResponse): (r: FetchReply)
    ensures resp.TransportFailure? ==> r == FetchReply(None, "", false, Some(TransportError(resp.reason)))
    ensures resp.Response? && resp.status == StatusNotModified ==> r == FetchReply(None, etag, true, None)
    ensures resp.Response? && resp.status != StatusNotModified && resp.status != StatusOK
        ==> r == FetchReply(None, "", false, Some(StatusError(resp.statusLine)))
    ensures resp.Response? && resp.status == StatusOK && resp.body.Failure?
        ==> r == FetchReply(None, "", false, Some(DecodeError(resp.body.error)))
    ensures resp.Response? && resp.status == StatusOK && resp.body.Success?
        ==> r == FetchReply(Some(resp.body.value), resp.etagHeader, false, None)
  {
    match resp
    case TransportFailure(reason) => FetchReply(None, "", false, Some(TransportError(reason)))
    case Response(status, statusLine, etagHeader, body) =>
      if status == StatusNotModified then FetchReply(None, etag, true, None)
      else if status != StatusOK then FetchReply(None, "", false, Some(StatusError(statusLine)))
      else match body
        case Failure(e) => FetchReply(None, "", false, Some(DecodeError(e)))
        case Success(doc) => FetchReply(Some(doc), etagHeader, false, None)
  }

  /** `Fetch(etag)` against the transport `server`. */
  function Fetch(etag: string, server: Request -> HttpResponse): FetchReply
  {
    Classify(etag, server(RequestFor(etag)))
  }

  /** The three kinds of reply a caller has to tell apart. */
  ghost predicate WellFormed(r: FetchReply)
  {
    && (r.err.Some? ==> r.data.None? && !r.notModified && r.etag == "")
    && (r.notModified ==> r.data.None? && r.err.None?)
    && (r.err.None? && !r.notModified ==> r.data.Some?)
  }

  /** Every reply is exactly one of: a failure with nothing else, a
      not-modified echo of the tag sent, or a document. */
  lemma ClassifyWellFormed(etag: string, resp: HttpResponse)
    ensures WellFormed(Classify(etag, resp))
    ensures Classify(etag, resp).notModified ==> Classify(etag, resp).etag == etag
    ensures Classify(etag, resp).data.Some? <==>
      resp.Response? && resp.status == StatusOK && resp.body.Success?
  {
  }

  /** A server that follows section 15.4.5 of RFC 9110: `304` answers only
      conditional requests. */
  ghost predicate Compliant(server: Request -> HttpResponse)
  {
    forall req: Request :: req.ifNoneMatch.None? && server(req).Response? ==> server(req).status != StatusNotModified
  }

  /** Without a previous tag no precondition is sent, so a compliant server
      never says "not modified": the cold fetch either fails or delivers a
      document. */
  lemma ColdFetchDelivers(server: Request -> HttpResponse)
    requires Compliant(server)
    ensures !Fetch("", server).notModified
    ensures Fetch("", server).err.None? ==> Fetch("", server).data.Some?
  {
    var req := RequestFor("");
    assert req.ifNoneMatch.None?;
    ClassifyWellFormed("", server(req));
  }
}
