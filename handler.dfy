/**
 * `proxy_handler`: forwards one request to the configured upstream and hands back the
 * upstream's answer, or a `ProxyError`. The network is not modelled: what it answers is
 * a parameter.
 */
module Handler {
  import opened Wrappers
  import opened Text
  import opened Http
  import opened Urls
  import opened OutboundRequest
  import opened Responses
  import opened ResponseCopy
  import opened ProxyErrors

  /** The configuration the handler reads. */
  datatype AppState = AppState(apiKey: string, apiBase: string)

  /** The parts of the inbound request the handler reads; `query` is `None` when the URI has no `?`. */
  datatype InboundRequest = InboundRequest(verb: string, path: string, query: Option<string>, headers: HeaderList)

  /** Status and headers of the upstream response. */
  datatype UpstreamResponse = UpstreamResponse(status: StatusCode, headers: HeaderList)

  /**
   * What the outside world answers, in the order the handler asks: the inbound body or why
   * it could not be read; the upstream's response to a well-formed request or why sending
   * it failed; the text reqwest gives a request it could not build; the upstream body or
   * why reading it failed.
   */
  datatype Exchange = Exchange(
    requestBody: Result<seq<byte>, string>,
    upstream: Result<UpstreamResponse, string>,
    builderError: string,
    responseBody: Result<seq<byte>, string>)

  /** The request the handler builds once the inbound body has been read. */
  function Planned(state: AppState, req: InboundRequest, body: seq<byte>): RequestBuilder
  {
    Outbound(req.verb, UpstreamUrl(state.apiBase, req.path, req.query), state.apiKey, req.headers, body)
  }

  /**
   * Reads the body, sends the planned request, copies status, headers and body of the
   * answer. `sent` is the request handed to the transport, if any. Errors are checked in
   * the source's order: body read, then build and send, then reading the upstream body.
   */
  method ProxyHandler(state: AppState, req: InboundRequest, io: Exchange)
    returns (sent: Option<Request>, result: Result<Response, ProxyError>)
    ensures io.requestBody.Failure? ==>
      sent == None && result == Failure(BodyReadError(io.requestBody.error))
    ensures io.requestBody.Success? && Planned(state, req, io.requestBody.value).Invalid? ==>
      sent == None && result == Failure(RequestError(io.builderError))
    ensures io.requestBody.Success? && Planned(state, req, io.requestBody.value).Building? ==>
      && sent == Some(Planned(state, req, io.requestBody.value).request)
      && (io.upstream.Failure? ==> result == Failure(RequestError(io.upstream.error)))
      && (io.upstream.Success? && io.responseBody.Failure? ==>
            result == Failure(ResponseError(io.responseBody.error)))
      && (io.upstream.Success? && io.responseBody.Success? ==>
            && result.Success? && fresh(result.value) && fresh(result.value.headers)
            && result.value.status == io.upstream.value.status
            && result.value.headers.Valid()
            && result.value.headers.entries == CopiedHeaders(io.upstream.value.headers)
            && result.value.body == io.responseBody.value)
  {
    var url := UpstreamUrl(state.apiBase, req.path, req.query);
    if io.requestBody.Failure? {
      sent, result := None, Failure(BodyReadError(io.requestBody.error));
      return;
    }
    var builder := BuildRequest(req.verb, url, state.apiKey, req.headers, io.requestBody.value);
    if builder.Invalid? {
      sent, result := None, Failure(RequestError(io.builderError));
      return;
    }
    sent := Some(builder.request);
    if io.upstream.Failure? {
      result := Failure(RequestError(io.upstream.error));
      return;
    }
    var status := io.upstream.value.status;
    var responseHeaders := CopyResponseHeaders(io.upstream.value.headers);
    if io.responseBody.Failure? {
      result := Failure(ResponseError(io.responseBody.error));
      return;
    }
    var resp := new Response(io.responseBody.value);
    resp.status := status;
    resp.headers := responseHeaders;
    result := Success(resp);
  }

  /**
   * What the client receives: the upstream's status, copied headers and body, or the
   * error's JSON response (one `content-type: application/json` header and the JSON error
   * body) with 400 for an unreadable body and 502 for any failure talking to the upstream.
   */
  method HandleRequest(state: AppState, req: InboundRequest, io: Exchange) returns (resp: Response)
    ensures fresh(resp) && fresh(resp.headers) && resp.headers.Valid()
    ensures io.requestBody.Failure? ==> resp.status == 400
    ensures io.requestBody.Success? && Planned(state, req, io.requestBody.value).Invalid? ==> resp.status == 502
    ensures io.requestBody.Success? && Planned(state, req, io.requestBody.value).Building? ==>
      resp.status == match io.upstream
        case Failure(_) => 502
        case Success(u) => if io.responseBody.Success? then u.status else 502
    ensures io.requestBody.Failure? ==>
      && resp.headers.entries == [(ContentTypeName, ApplicationJson)]
      && resp.body == Utf8(ErrorBody(BodyReadError(io.requestBody.error)))
    ensures io.requestBody.Success? && Planned(state, req, io.requestBody.value).Invalid? ==>
      && resp.headers.entries == [(ContentTypeName, ApplicationJson)]
      && resp.body == Utf8(ErrorBody(RequestError(io.builderError)))
    ensures io.requestBody.Success? && Planned(state, req, io.requestBody.value).Building? ==>
      && (io.upstream.Failure? ==>
            && resp.headers.entries == [(ContentTypeName, ApplicationJson)]
            && resp.body == Utf8(ErrorBody(RequestError(io.upstream.error))))
      && (io.upstream.Success? && io.responseBody.Failure? ==>
            && resp.headers.entries == [(ContentTypeName, ApplicationJson)]
            && resp.body == Utf8(ErrorBody(ResponseError(io.responseBody.error))))
      && (io.upstream.Success? && io.responseBody.Success? ==>
            && resp.headers.entries == CopiedHeaders(io.upstream.value.headers)
            && resp.body == io.responseBody.value)
  {
    var _, result := ProxyHandler(state, req, io);
    match result {
      case Success(r) => resp := r;
      case Failure(e) => resp := IntoResponse(e);
    }
  }
}
