# openai_proxy request pipeline, modelled in Dafny

`openai_proxy` is a small HTTP reverse proxy in front of an OpenAI-compatible API. For
each request under `/v1/` its handler `proxy_handler` does the following:

- it builds the upstream URL from the configured base, the inbound path and the query;
- it maps the inbound method to one of seven verbs, and any other method to POST;
- it sends the configured API key as `Authorization: Bearer <key>` together with
  `Content-Type: application/json`;
- it forwards the other inbound headers, except `host`, `authorization` and `content-length`;
- it attaches the body when there is one;
- it copies the upstream status, headers and body back to the client. `content-length`
  and `transfer-encoding` are not copied.

The three ways this can fail form the `ProxyError` enum. Each becomes a JSON error
response, with status 400 or 502.

The model covers that handler and the error mapping. Each piece of the handler is a
module:

- `Urls`: URL construction, `str::trim_start_matches` and `trim_end_matches`, and a reader
  that splits a URL at its first `?`.
- `Methods`: the method `match`.
- `Http`: the `http` crate's types as the handler uses them. A header name is a non-empty
  lowercase token. A value is bytes. `HeaderValue::to_str` accepts tab and visible ASCII
  only, and the string-to-value parse accepts anything but DEL and control characters
  other than tab.
- `OutboundRequest`: reqwest's by-value `RequestBuilder`. `header` appends an entry; a value
  that does not parse leaves the builder in its error state. `BuildRequest` is the
  header-forwarding loop, proved against the specification function `Outbound`.
- `Responses`: a `HeaderMap` class whose `Insert` replaces the value stored under a name,
  in place, and a `Response` class.
- `ResponseCopy`: the response-header loop, proved against `CopiedHeaders`, and the lemmas
  that only the last upstream value of a name survives.
- `ProxyErrors`: status, message and JSON body of each error, with serde_json's escaping.
  A JSON string reader shows that the escaping round-trips.
- `Handler`: the whole handler. What the network answers is a parameter.

## Model

| member | source | states |
|---|---|---|
| Urls.TrimLeadingSlashesSpec | src/main.rs:105 | the path keeps a suffix that does not start with `/`; only slashes are removed before it |
| Urls.TrimTrailingSlashesSpec | src/main.rs:110-112 | the base keeps a prefix that does not end with `/`; only slashes are removed after it |
| Urls.UpstreamUrlJoin | src/main.rs:105-113 | the URL is the trimmed base, then one `/`, then the trimmed path; neither neighbour of that slash is a slash |
| Urls.UpstreamUrlQuerySuffix | src/main.rs:106-113 | for any base, the URL ends right after the joined path with `?` and the query verbatim when the query is non-empty, and with nothing otherwise |
| Urls.UpstreamUrlQueryRoundTrip | src/main.rs:106-113 | for a configured base without `?` (URI paths never hold one), splitting the URL at its first `?` gives back the trimmed base, `/` and the trimmed path, and gives the query exactly when it is non-empty; for such a base, an absent query and an empty one both give a URL without `?` |
| Urls.UpstreamUrlIgnoresExtraSlashes | src/main.rs:105-112 | an extra `/` at the end of the base or the start of the path does not change the URL |
| Methods.MapMethod | src/main.rs:126-135 | a standard verb maps to the method of the same name; any other string maps to POST |
| Methods.MapMethodOfName | src/main.rs:126-133 | each of the seven methods comes back unchanged from its own name |
| Methods.MapMethodKeepsIffStandard | src/main.rs:126-135 | the method name is kept if and only if it is one of GET, POST, PUT, DELETE, PATCH, HEAD, OPTIONS |
| Http.ParseCanonicalName | src/main.rs:154 | re-parsing the text of a header name gives the same name, so forwarding and copying never drop a name |
| Http.ParseFixedNames | src/main.rs:143-144 | `Authorization` and `Content-Type` are stored as `authorization` and `content-type` |
| Http.TextOrEmptyParses | src/main.rs:154 | a value that is not visible ASCII becomes empty rather than being dropped; a visible value is kept as is; both parse as header values |
| Http.Utf8ValueValid | src/main.rs:143 | a string is a valid header value exactly when none of its characters is a control character other than tab, or DEL |
| OutboundRequest.BuildRequest | src/main.rs:138-161 | the builder the loop produces is `Outbound`: method mapped, the URL, the two fixed headers, the forwarded headers in order, and the body when non-empty |
| OutboundRequest.ForwardedHeadersAppend | src/main.rs:147-156 | forwarding distributes over concatenation of header lists, so the inbound order is kept |
| OutboundRequest.ForwardedHeadersCount | src/main.rs:147-156 | every name other than `host`, `authorization`, `content-length` is forwarded as often as it came in; those three never are |
| OutboundRequest.ForwardedHeadersEntries | src/main.rs:147-156 | an entry is forwarded if and only if an inbound entry has an allowed name; its value is that entry's text, or empty |
| OutboundRequest.ForwardedHeadersIgnoreValues | src/main.rs:150-154 | which entries are forwarded depends only on the names, never on the values |
| OutboundRequest.OutboundBuildsIffKeyValid | src/main.rs:143 | the request can be built exactly when the API key holds no control character other than tab, and no DEL |
| OutboundRequest.OutboundHeaderCount | src/main.rs:143-156 | the request carries exactly one `authorization` entry and one `content-type` entry plus any the client sent; every other allowed name appears as often as inbound; `host` and `content-length` never appear among the entries the builder holds |
| OutboundRequest.OutboundAuthorization | src/main.rs:143-156 | the only `authorization` entry comes first and equals `Bearer ` plus the key; no inbound credential is forwarded |
| OutboundRequest.OutboundBody | src/main.rs:159-161 | a body is attached if and only if the inbound body is non-empty, and it is attached byte for byte |
| Responses.InsertedLookup | src/main.rs:180 | after an insert, the name reads back the new value and every other name reads back its old value |
| Responses.InsertedDistinct | src/main.rs:180 | insert keeps at most one entry per name |
| Responses.HeaderMap.Insert | src/main.rs:180 | replaces the value of an existing name in place, or appends a new name; returns the previous value |
| Responses.Response.constructor | src/main.rs:195 | a new response has status 200, no headers and the given body |
| ResponseCopy.CopyResponseHeaders | src/main.rs:174-184 | the map the loop fills is `CopiedHeaders` of the upstream headers |
| ResponseCopy.CopiedHeadersLastValueWins | src/main.rs:174-184 | looking up a name gives the text of its last upstream value, or nothing for `content-length` and `transfer-encoding` |
| ResponseCopy.CopiedHeadersDistinct | src/main.rs:174-184 | the copied headers hold at most one value per name |
| ResponseCopy.CopiedHeadersNames | src/main.rs:175-180 | the copied names are exactly the upstream names other than `content-length` and `transfer-encoding` |
| ProxyErrors.ErrorStatus | src/main.rs:211-215 | BodyReadError gives 400; RequestError and ResponseError give 502 |
| ProxyErrors.ErrorMessageInjective | src/main.rs:212-214 | the prefixed message determines the variant and the underlying error text |
| ProxyErrors.EscapeJsonRoundTrip | src/main.rs:217-222 | reading back the escaped string literal gives the original message |
| ProxyErrors.ErrorBodyCarriesMessage | src/main.rs:217-222 | the body is `{"error":{"message":"`, the escaped message, then `","type":"proxy_error"}}`; the middle reads back as the message |
| ProxyErrors.ErrorBodyInjective | src/main.rs:211-222 | different errors give different JSON bodies |
| ProxyErrors.IntoResponse | src/main.rs:209-225 | the response has the error's status, one `content-type: application/json` header, and the UTF-8 of the JSON body |
| Handler.ProxyHandler | src/main.rs:100-200 | a body-read failure gives BodyReadError and sends nothing; otherwise the request sent is `Outbound`; a build or send failure gives RequestError; a failed body read upstream gives ResponseError; otherwise the status is copied, the headers are `CopiedHeaders`, and the body is copied byte for byte |
| Handler.HandleRequest | src/main.rs:100-225 | the client sees 400 for an unreadable body, 502 for a failure talking to the upstream, and the upstream status otherwise; on an error the response has one `content-type: application/json` header and the UTF-8 JSON body of that error, otherwise the copied upstream headers and the upstream body |

## Behaviour of `src/main.rs` worth noting

- The request body is forwarded as bytes and never parsed: the handler does not read or
  change any JSON field, keeps no list of models, and answers a 404 from the upstream
  with that 404.
- A client's `Content-Type` is forwarded next to the fixed `application/json` one, not
  replaced by it (`OutboundHeaderCount`).
- An inbound header value holding a byte other than tab or visible ASCII is forwarded
  with an empty value, not dropped (`ForwardedHeadersEntries`).
- The request loop compares names exactly against lowercase strings, and the response
  loop compares through `http`'s case-insensitive comparison. Both exclude every
  spelling, because `http` stores every header name in lowercase, as the `HeaderName`
  type states.
- Upstream headers with a repeated name keep only their last value
  (`CopiedHeadersLastValueWins`). For example, only the last of several `set-cookie`
  headers reaches the client.

## Left out

- `Settings::load`, `main`, `root`, the router and the CORS layer (src/main.rs:30-98) are
  configuration and server plumbing. The router registers only GET and POST (and HEAD
  through GET) for `/v1/*path`. So in practice only those methods reach the mapping,
  which is modelled for every method string.
- The `println!` diagnostics, including the key prefix (src/main.rs:65, 115, 192).
- Network I/O and async execution are not modelled. Reading the inbound body, `send` and
  reading the upstream body (src/main.rs:121-123, 164-167, 187-190) are the parameters
  of `Handler.Exchange`. So is the text reqwest gives a request it could not build. The
  shared `reqwest::Client` is not modelled.
- `StatusCode::from_u16` falling back to 500 (src/main.rs:170-171) is not modelled. The
  upstream status is a `StatusCode` (100 to 999), and for those the conversion is the
  identity.
- URL parsing inside `Client::request` is not modelled. reqwest turns a URL that does not
  parse into a builder error. The model assumes the URL parses, and models only the
  builder error caused by an API key that is not a valid header value. The model's `url`
  is the text before parsing; normalisation by `url::Url` (dot segments,
  percent-encoding) is not modelled.
- Iteration order of `HeaderMap` with a repeated name is not modelled. The inbound
  headers are taken in the order the map yields them. The outbound request is the
  sequence of appended entries, but reqwest's map yields all values of one name
  together when it sends them.
- The `http` crate's length limit on header names is not modelled.
- `ProxyErrors.UnescapeJson` reads only what is needed to show the escaping
  round-trips. It rejects surrogate pairs written as two `\u` escapes.
- `Request` and the `sent` request of `Handler.ProxyHandler` are what the reqwest builder
  holds (with the URL as unparsed text), not the bytes on the wire. reqwest's `Client` adds `accept: */*` when the client
  sent no `accept`, and the transport writes `host` and `content-length` itself.
- Urls.UpstreamUrlQueryRoundTrip: the reading direction is stated only for a configured
  base without `?`. Nothing in the configuration rejects a `?` in the base, and then the
  first `?` of the URL lies inside the base. `Urls.UpstreamUrlQuerySuffix` states what
  follows the joined path for every base.
