/**
 * The forwarded request as the handler assembles it with reqwest's by-value
 * `RequestBuilder`: method, URL, the two fixed headers, the inbound headers that
 * survive the filter, and the body.
 */
module OutboundRequest {
  import opened Wrappers
  import opened Text
  import opened Http
  import opened Methods

  /** What is sent upstream; `body` is `None` when no body was attached. */
  datatype Request = Request(verb: Method, url: string, headers: HeaderList, body: Option<seq<byte>>)

  /**
   * A `reqwest::RequestBuilder`: the request being built, or the error it recorded when
   * a header did not parse. Later calls keep the error, and `send` reports it.
   */
  datatype RequestBuilder = Building(request: Request) | Invalid
  {
    /** `RequestBuilder::header`: appends the entry, never replacing one, when name and value parse. */
    function Header(name: string, value: seq<byte>): RequestBuilder
    {
      match this
      case Invalid => Invalid
      case Building(req) =>
        match (ParseHeaderName(name), ParseHeaderValue(value))
        case (Some(n), Some(v)) => Building(req.(headers := req.headers + [(n, v)]))
        case _ => Invalid
    }

    /** `RequestBuilder::body`. */
    function Body(bytes: seq<byte>): RequestBuilder
    {
      match this
      case Invalid => Invalid
      case Building(req) => Building(req.(body := Some(bytes)))
    }
  }

  /** `Client::request(verb, url)`: a builder with no header and no body yet. */
  function NewBuilder(verb: Method, url: string): RequestBuilder
  {
    Building(Request(verb, url, [], None))
  }

  /** The inbound header names the proxy passes on: all but `host`, `authorization` and `content-length`. */
  predicate IsForwarded(name: HeaderName)
  {
    name != "host" && name != "authorization" && name != "content-length"
  }

  /** The inbound headers in iteration order, filtered by name, each value as its text or empty. */
  function ForwardedHeaders(inbound: HeaderList): HeaderList
  {
    if inbound == [] then []
    else
      var h := inbound[|inbound| - 1];
      ForwardedHeaders(inbound[..|inbound| - 1]) + (if IsForwarded(h.0) then [(h.0, TextOrEmpty(h.1))] else [])
  }

  /** The credential the proxy sends: `Bearer ` and the configured key. */
  function AuthorizationValue(key: string): seq<byte>
  {
    Utf8("Bearer " + key)
  }

  /** The two headers set before any inbound header, with their names as `HeaderName` stores them. */
  function FixedHeaders(key: string): HeaderList
  {
    [(AuthorizationName, AuthorizationValue(key)), (ContentTypeName, ApplicationJson)]
  }

  /** The request the handler sends for these inputs, or `Invalid` when the credential is not a header value. */
  function Outbound(verb: string, url: string, key: string, inbound: HeaderList, body: seq<byte>): RequestBuilder
  {
    if ParseHeaderValue(AuthorizationValue(key)).Some? then
      Building(Request(MapMethod(verb), url, FixedHeaders(key) + ForwardedHeaders(inbound),
                       if |body| > 0 then Some(body) else None))
    else
      Invalid
  }

  /**
   * Assembles the outbound request: method and URL, the credential and the JSON content
   * type, then every inbound header except `host`, `authorization` and `content-length`
   * in order, then the body when it is not empty.
   */
  method BuildRequest(verb: string, url: string, key: string, inbound: HeaderList, body: seq<byte>)
    returns (builder: RequestBuilder)
    ensures builder == Outbound(verb, url, key, inbound, body)
  {
    ParseFixedNames();
    ApplicationJsonIsValue();
    builder := NewBuilder(MapMethod(verb), url);
    builder := builder.Header("Authorization", AuthorizationValue(key));
    builder := builder.Header("Content-Type", ApplicationJson);
    for i := 0 to |inbound|
      invariant builder == Outbound(verb, url, key, inbound[..i], [])
    {
      var (name, value) := inbound[i];
      assert inbound[..i + 1][..i] == inbound[..i];
      if name != "host" && name != "authorization" && name != "content-length" {
        ParseCanonicalName(name);
        TextOrEmptyParses(value);
        builder := builder.Header(name, TextOrEmpty(value));
      }
    }
    assert inbound[..|inbound|] == inbound;
    if |body| > 0 {
      builder := builder.Body(body);
    }
  }

  /** Forwarding distributes over concatenation, so inbound order is kept. */
  lemma {:induction false} ForwardedHeadersAppend(a: HeaderList, b: HeaderList)
    ensures ForwardedHeaders(a + b) == ForwardedHeaders(a) + ForwardedHeaders(b)
  {
    if b == [] {
      assert a + b == a;
    } else {
      assert (a + b)[..|a + b| - 1] == a + b[..|b| - 1];
      ForwardedHeadersAppend(a, b[..|b| - 1]);
    }
  }

  /** Each forwarded name occurs as often as it did inbound; the three dropped names never occur. */
  lemma {:induction false} ForwardedHeadersCount(hs: HeaderList, name: HeaderName)
    ensures Count(ForwardedHeaders(hs), name) == if IsForwarded(name) then Count(hs, name) else 0
  {
    if hs != [] {
      var init, h := hs[..|hs| - 1], hs[|hs| - 1];
      ForwardedHeadersCount(init, name);
      var tail := if IsForwarded(h.0) then [(h.0, TextOrEmpty(h.1))] else [];
      CountAppend(ForwardedHeaders(init), tail, name);
      assert tail != [] ==> tail[..0] == [];
    }
  }

  /**
   * An entry is forwarded exactly when some inbound entry has an allowed name; the value is
   * then that entry's text, or empty when the value is not visible ASCII. The value never
   * decides whether the entry is kept.
   */
  lemma {:induction false} ForwardedHeadersEntries(hs: HeaderList)
    ensures forall e :: e in ForwardedHeaders(hs) ==>
      IsForwarded(e.0) && exists i :: 0 <= i < |hs| && hs[i].0 == e.0 && e.1 == TextOrEmpty(hs[i].1)
    ensures forall i :: 0 <= i < |hs| && IsForwarded(hs[i].0) ==>
      (hs[i].0, TextOrEmpty(hs[i].1)) in ForwardedHeaders(hs)
  {
    if hs != [] {
      var init, h := hs[..|hs| - 1], hs[|hs| - 1];
      ForwardedHeadersEntries(init);
      forall e | e in ForwardedHeaders(hs)
        ensures IsForwarded(e.0) && exists i :: 0 <= i < |hs| && hs[i].0 == e.0 && e.1 == TextOrEmpty(hs[i].1)
      {
        if e in ForwardedHeaders(init) {
          var i :| 0 <= i < |init| && init[i].0 == e.0 && e.1 == TextOrEmpty(init[i].1);
          assert hs[i] == init[i];
        } else {
          assert hs[|hs| - 1].0 == e.0;
        }
      }
      forall i | 0 <= i < |hs| && IsForwarded(hs[i].0)
        ensures (hs[i].0, TextOrEmpty(hs[i].1)) in ForwardedHeaders(hs)
      {
        if i < |init| {
          assert hs[i] == init[i];
        }
      }
    }
  }

  /** Two header lists with the same names in the same order forward the same names. */
  lemma {:induction false} ForwardedHeadersIgnoreValues(hs1: HeaderList, hs2: HeaderList)
    requires |hs1| == |hs2| && forall i :: 0 <= i < |hs1| ==> hs1[i].0 == hs2[i].0
    ensures |ForwardedHeaders(hs1)| == |ForwardedHeaders(hs2)|
    ensures forall k :: 0 <= k < |ForwardedHeaders(hs1)| ==> ForwardedHeaders(hs1)[k].0 == ForwardedHeaders(hs2)[k].0
  {
    if hs1 != [] {
      var n := |hs1| - 1;
      ForwardedHeadersIgnoreValues(hs1[..n], hs2[..n]);
    }
  }

  /** The request is built exactly when every character of the key may appear in a header value. */
  lemma OutboundBuildsIffKeyValid(verb: string, url: string, key: string, inbound: HeaderList, body: seq<byte>)
    ensures Outbound(verb, url, key, inbound, body).Building?
        <==> forall i :: 0 <= i < |key| ==> IsValueChar(key[i])
  {
    var s := "Bearer " + key;
    Utf8ValueValid(s);
    assert forall i :: 0 <= i < 7 ==> IsValueChar(s[i]);
    assert forall i :: 0 <= i < |key| ==> s[i + 7] == key[i];
  }

  /**
   * Header counts of the sent request: one credential, one JSON content type plus any the
   * client sent, every other forwarded name as often as inbound, and no `host` or
   * `content-length`.
   */
  lemma OutboundHeaderCount(verb: string, url: string, key: string, inbound: HeaderList, body: seq<byte>, name: HeaderName)
    requires Outbound(verb, url, key, inbound, body).Building?
    ensures Count(Outbound(verb, url, key, inbound, body).request.headers, name)
         == (if name == "authorization" || name == "content-type" then 1 else 0)
          + (if IsForwarded(name) then Count(inbound, name) else 0)
  {
    var fixed := FixedHeaders(key);
    CountAppend(fixed, ForwardedHeaders(inbound), name);
    ForwardedHeadersCount(inbound, name);
    assert fixed[..|fixed| - 1] == fixed[..1] && fixed[..1][..0] == fixed[..0];
    assert Count(fixed[..1], name) == if name == AuthorizationName then 1 else 0;
  }

  /**
   * No inbound credential reaches upstream: the sent request has exactly one
   * `authorization` entry, first in the list, and its value is `Bearer ` and the key.
   */
  lemma OutboundAuthorization(verb: string, url: string, key: string, inbound: HeaderList, body: seq<byte>)
    requires Outbound(verb, url, key, inbound, body).Building?
    ensures var hs := Outbound(verb, url, key, inbound, body).request.headers;
      && Count(hs, "authorization") == 1
      && hs[0] == ("authorization", AuthorizationValue(key))
      && Lookup(hs, "authorization") == Some(AuthorizationValue(key))
      && forall i :: 0 <= i < |hs| && hs[i].0 == "authorization" ==> hs[i].1 == AuthorizationValue(key)
  {
    OutboundHeaderCount(verb, url, key, inbound, body, "authorization");
    ForwardedHeadersEntries(inbound);
  }

  /** The body goes out byte for byte when there is one, and no body is attached otherwise. */
  lemma OutboundBody(verb: string, url: string, key: string, inbound: HeaderList, body: seq<byte>)
    requires Outbound(verb, url, key, inbound, body).Building?
    ensures var sent := Outbound(verb, url, key, inbound, body).request.body;
      && (sent.Some? <==> body != [])
      && (sent.Some? ==> sent.value == body)
  {
  }
}
