/** `ProxyError` and the JSON error response each variant becomes. */
module ProxyErrors {
  import opened Wrappers
  import opened Text
  import opened Http
  import opened Responses

  /** The three ways a proxied request fails; each carries the underlying error's text. */
  datatype ProxyError =
    | BodyReadError(detail: string)
    | RequestError(detail: string)
    | ResponseError(detail: string)

  /** A body that cannot be read is the client's fault; failures talking upstream are a bad gateway. */
  function ErrorStatus(e: ProxyError): (s: StatusCode)
    ensures s == 400 <==> e.BodyReadError?
    ensures s == 502 <==> !e.BodyReadError?
  {
    match e
    case BodyReadError(_) => 400
    case RequestError(_) => 502
    case ResponseError(_) => 502
  }

  function MessagePrefix(e: ProxyError): string
  {
    match e
    case BodyReadError(_) => "Failed to read request body: "
    case RequestError(_) => "Failed to send request to OpenAI: "
    case ResponseError(_) => "Failed to read response from OpenAI: "
  }

  /** The human-readable message: a fixed prefix per variant, then the underlying error. */
  function ErrorMessage(e: ProxyError): string
  {
    MessagePrefix(e) + e.detail
  }

  /** The message loses nothing: the variant and its detail can be read back from it. */
  lemma ErrorMessageInjective(e1: ProxyError, e2: ProxyError)
    requires ErrorMessage(e1) == ErrorMessage(e2)
    ensures e1 == e2
  {
    var p1, p2, m := MessagePrefix(e1), MessagePrefix(e2), ErrorMessage(e1);
    assert forall k :: 0 <= k < |p1| ==> m[k] == p1[k];
    assert forall k :: 0 <= k < |p2| ==> m[k] == p2[k];
    assert p1[10] == m[10] == p2[10] && p1[17] == m[17] == p2[17];
    assert p1 == p2;
    assert e1.detail == m[|p1|..] == e2.detail;
  }

  /** A hexadecimal digit in lowercase, as serde_json writes them. */
  function HexDigit(n: nat): char
    requires n < 16
  {
    "0123456789abcdef"[n]
  }

  /** How serde_json writes one character inside a JSON string. */
  function EscapeChar(c: char): string
  {
    if c == '"' then "\\\""
    else if c == '\\' then "\\\\"
    else if c == '\U{8}' then "\\b"
    else if c == '\U{C}' then "\\f"
    else if c == '\n' then "\\n"
    else if c == '\r' then "\\r"
    else if c == '\t' then "\\t"
    else if c < ' ' then "\\u00" + [HexDigit(c as int / 16), HexDigit(c as int % 16)]
    else [c]
  }

  /** The body of a JSON string literal for `s`, without the quotes. */
  function EscapeJson(s: string): string
  {
    if s == [] then [] else EscapeChar(s[0]) + EscapeJson(s[1..])
  }

  function HexValue(c: char): (r: Option<nat>)
    ensures r.Some? ==> r.value < 16
  {
    if '0' <= c <= '9' then Some(c as int - '0' as int)
    else if 'a' <= c <= 'f' then Some(c as int - 'a' as int + 10)
    else if 'A' <= c <= 'F' then Some(c as int - 'A' as int + 10)
    else None
  }

  /** The code unit written by four hexadecimal digits. */
  function Hex4Value(h: string): (r: Option<nat>)
    requires |h| == 4
    ensures r.Some? ==> r.value < 0x1_0000
  {
    match (HexValue(h[0]), HexValue(h[1]), HexValue(h[2]), HexValue(h[3]))
    case (Some(a), Some(b), Some(c), Some(d)) =>
      Some(((a * 16 + b) * 16 + c) * 16 + d)
    case _ => None
  }

  function Prepend(c: char, rest: Option<string>): Option<string>
  {
    match rest
    case Some(s) => Some([c] + s)
    case None => None
  }

  /**
   * Reads the body of a JSON string literal (section 7 of RFC 8259): the two-character
   * escapes and `\u` escapes of characters outside the surrogate range. A raw quote or
   * control character, or any other escape, is rejected.
   */
  function UnescapeJson(t: string): Option<string>
    decreases |t|
  {
    if t == [] then Some([])
    else if t[0] == '\\' then
      if |t| < 2 then None
      else if t[1] == '"' then Prepend('"', UnescapeJson(t[2..]))
      else if t[1] == '\\' then Prepend('\\', UnescapeJson(t[2..]))
      else if t[1] == '/' then Prepend('/', UnescapeJson(t[2..]))
      else if t[1] == 'b' then Prepend('\U{8}', UnescapeJson(t[2..]))
      else if t[1] == 'f' then Prepend('\U{C}', UnescapeJson(t[2..]))
      else if t[1] == 'n' then Prepend('\n', UnescapeJson(t[2..]))
      else if t[1] == 'r' then Prepend('\r', UnescapeJson(t[2..]))
      else if t[1] == 't' then Prepend('\t', UnescapeJson(t[2..]))
      else if t[1] == 'u' && |t| >= 6 then
        match Hex4Value(t[2..6])
        case Some(v) =>
          if v < 0xD800 || 0xE000 <= v then Prepend(v as char, UnescapeJson(t[6..])) else None
        case None => None
      else None
    else if t[0] == '"' || t[0] < ' ' then None
    else Prepend(t[0], UnescapeJson(t[1..]))
  }

  /** A control character without a short escape is written as `\u00` and two hex digits, and read back. */
  lemma UnescapeHexEscape(c: char, rest: string)
    requires c < ' ' && c != '\U{8}' && c != '\U{C}' && c != '\n' && c != '\r' && c != '\t'
    ensures UnescapeJson(EscapeChar(c) + rest) == Prepend(c, UnescapeJson(rest))
  {
    var t := EscapeChar(c) + rest;
    var hi, lo := c as int / 16, c as int % 16;
    assert EscapeChar(c) == ['\\', 'u', '0', '0', HexDigit(hi), HexDigit(lo)];
    assert t[0] == '\\' && t[1] == 'u';
    assert t[2..6] == ['0', '0', HexDigit(hi), HexDigit(lo)];
    assert HexValue(HexDigit(hi)) == Some(hi) && HexValue(HexDigit(lo)) == Some(lo);
    assert Hex4Value(t[2..6]) == Some(c as int);
    assert t[6..] == rest;
  }

  lemma UnescapeEscapeChar(c: char, rest: string)
    ensures UnescapeJson(EscapeChar(c) + rest) == Prepend(c, UnescapeJson(rest))
  {
    var t := EscapeChar(c) + rest;
    if c < ' ' && c != '\U{8}' && c != '\U{C}' && c != '\n' && c != '\r' && c != '\t' {
      UnescapeHexEscape(c, rest);
    } else if |EscapeChar(c)| == 2 {
      assert t[2..] == rest;
    } else {
      assert t[1..] == rest;
    }
  }

  /** Escaping round-trips: a JSON reader gets back exactly the string that was escaped. */
  lemma {:induction false} EscapeJsonRoundTrip(s: string)
    ensures UnescapeJson(EscapeJson(s)) == Some(s)
  {
    if s != [] {
      EscapeJsonRoundTrip(s[1..]);
      UnescapeEscapeChar(s[0], EscapeJson(s[1..]));
      assert [s[0]] + s[1..] == s;
    }
  }

  const BodyOpen: string := "{\"error\":{\"message\":\""
  const BodyClose: string := "\",\"type\":\"proxy_error\"}}"

  /**
   * The compact JSON text of `{"error": {"message": ..., "type": "proxy_error"}}`, keys in
   * the sorted order serde_json's default map keeps.
   */
  function ErrorBody(e: ProxyError): string
  {
    BodyOpen + EscapeJson(ErrorMessage(e)) + BodyClose
  }

  /** The body is the fixed JSON frame around a string literal that reads back as the message. */
  lemma ErrorBodyCarriesMessage(e: ProxyError)
    ensures var b := ErrorBody(e);
      && |BodyOpen| + |BodyClose| <= |b|
      && b[..|BodyOpen|] == BodyOpen
      && b[|b| - |BodyClose|..] == BodyClose
      && UnescapeJson(b[|BodyOpen|..|b| - |BodyClose|]) == Some(ErrorMessage(e))
  {
    var b, mid := ErrorBody(e), EscapeJson(ErrorMessage(e));
    assert b[|BodyOpen|..|b| - |BodyClose|] == mid;
    EscapeJsonRoundTrip(ErrorMessage(e));
  }

  /** Different errors give different bodies. */
  lemma ErrorBodyInjective(e1: ProxyError, e2: ProxyError)
    requires ErrorBody(e1) == ErrorBody(e2)
    ensures e1 == e2
  {
    ErrorBodyCarriesMessage(e1);
    ErrorBodyCarriesMessage(e2);
    ErrorMessageInjective(e1, e2);
  }

  /** `ProxyError::into_response`: the status, a JSON content type and the UTF-8 of the error body. */
  method IntoResponse(e: ProxyError) returns (resp: Response)
    ensures fresh(resp) && fresh(resp.headers) && resp.headers.Valid()
    ensures resp.status == ErrorStatus(e)
    ensures resp.headers.entries == [(ContentTypeName, ApplicationJson)]
    ensures resp.body == Utf8(ErrorBody(e))
  {
    resp := new Response(Utf8(ErrorBody(e)));
    var _ := resp.headers.Insert(ContentTypeName, ApplicationJson);
    resp.status := ErrorStatus(e);
  }
}
