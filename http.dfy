/**
 * The parts of the `http` crate's header and status types that the proxy relies on:
 * header names are lowercase tokens, header values are bytes, and the two
 * conversions the proxy uses (`HeaderValue::to_str` and the string-to-value parse).
 */
module Http {
  import opened Wrappers
  import opened Text

  /** Token characters (section 3.2.6 of RFC 7230): the characters a header name may hold. */
  predicate IsTokenChar(c: char)
  {
    || ('0' <= c <= '9') || ('a' <= c <= 'z') || ('A' <= c <= 'Z')
    || c == '!' || c == '#' || c == '$' || c == '%' || c == '&' || c == '\'' || c == '*'
    || c == '+' || c == '-' || c == '.' || c == '^' || c == '_' || c == '`' || c == '|' || c == '~'
  }

  predicate IsUpper(c: char) { 'A' <= c <= 'Z' }

  function ToLower(c: char): char
  {
    if IsUpper(c) then (c as int + 32) as char else c
  }

  /** An `http::HeaderName` is a non-empty token held in lowercase. */
  predicate IsHeaderName(s: string)
  {
    |s| > 0 && forall i :: 0 <= i < |s| ==> IsTokenChar(s[i]) && !IsUpper(s[i])
  }

  type HeaderName = s: string | IsHeaderName(s) witness "a"

  /** `HeaderName::from_str`: accepts a non-empty token and folds it to lowercase. */
  function ParseHeaderName(s: string): Option<HeaderName>
  {
    if |s| > 0 && forall i :: 0 <= i < |s| ==> IsTokenChar(s[i]) then
      Some(seq(|s|, i requires 0 <= i < |s| => ToLower(s[i])))
    else
      None
  }

  /** Re-parsing the text of a header name gives the same name back. */
  lemma ParseCanonicalName(n: HeaderName)
    ensures ParseHeaderName(n) == Some(n)
  {
    var r := ParseHeaderName(n);
    assert r.value == n;
  }

  /** The two names the proxy writes in mixed case are stored in lowercase. */
  lemma ParseFixedNames()
    ensures ParseHeaderName("Authorization") == Some("authorization")
    ensures ParseHeaderName("Content-Type") == Some("content-type")
  {
    assert ParseHeaderName("Authorization").value == "authorization";
    assert ParseHeaderName("Content-Type").value == "content-type";
  }

  /** The bytes `HeaderValue::to_str` accepts: a tab, or 0x20 up to 0x7E. */
  predicate IsVisibleAscii(b: byte) { b == 9 || 32 <= b < 127 }

  /** The bytes a header value may hold when parsed from text: a tab, or 0x20 and up except DEL. */
  predicate IsValueByte(b: byte) { b == 9 || (32 <= b && b != 127) }

  /** `HeaderValue::to_str`: the value as text when it is all visible ASCII. */
  function ValueToStr(v: seq<byte>): (r: Option<seq<byte>>)
  {
    if forall i :: 0 <= i < |v| ==> IsVisibleAscii(v[i]) then Some(v) else None
  }

  /** `HeaderValue::from_str` and `HeaderValue::try_from`: the value when every byte is allowed. */
  function ParseHeaderValue(s: seq<byte>): (r: Option<seq<byte>>)
  {
    if AllValueBytes(s) then Some(s) else None
  }

  predicate AllValueBytes(v: seq<byte>)
  {
    forall i :: 0 <= i < |v| ==> IsValueByte(v[i])
  }

  lemma AllValueBytesConcat(a: seq<byte>, b: seq<byte>)
    ensures AllValueBytes(a + b) <==> AllValueBytes(a) && AllValueBytes(b)
  {
    if AllValueBytes(a) && AllValueBytes(b) {
      forall i | 0 <= i < |a + b| ensures IsValueByte((a + b)[i]) {
        if i < |a| { assert (a + b)[i] == a[i]; } else { assert (a + b)[i] == b[i - |a|]; }
      }
    }
    if AllValueBytes(a + b) {
      forall i | 0 <= i < |a| ensures IsValueByte(a[i]) { assert a[i] == (a + b)[i]; }
      forall i | 0 <= i < |b| ensures IsValueByte(b[i]) { assert b[i] == (a + b)[|a| + i]; }
    }
  }

  /** `value.to_str().unwrap_or_default()`: the text of the value, or the empty string. */
  function TextOrEmpty(v: seq<byte>): seq<byte>
  {
    match ValueToStr(v)
    case Some(t) => t
    case None => []
  }

  /** The text of a value is the value itself when visible, and empty otherwise; either way it parses back. */
  lemma TextOrEmptyParses(v: seq<byte>)
    ensures TextOrEmpty(v) == v || TextOrEmpty(v) == []
    ensures TextOrEmpty(v) == v <==> forall i :: 0 <= i < |v| ==> IsVisibleAscii(v[i])
    ensures ParseHeaderValue(TextOrEmpty(v)) == Some(TextOrEmpty(v))
  {
  }

  /** A character whose UTF-8 bytes are all allowed in a header value. */
  predicate IsValueChar(c: char) { c == '\t' || (' ' <= c && c != '\U{7F}') }

  lemma EncodeCharValueValid(c: char)
    ensures AllValueBytes(EncodeChar(c)) <==> IsValueChar(c)
  {
    var e := EncodeChar(c);
    if |e| == 1 {
      assert AllValueBytes(e) <==> IsValueByte(e[0]);
    }
  }

  /** A string is a valid header value exactly when each of its characters is allowed. */
  lemma {:induction false} Utf8ValueValid(s: string)
    ensures ParseHeaderValue(Utf8(s)).Some? <==> forall i :: 0 <= i < |s| ==> IsValueChar(s[i])
  {
    if s != [] {
      Utf8ValueValid(s[1..]);
      EncodeCharValueValid(s[0]);
      AllValueBytesConcat(EncodeChar(s[0]), Utf8(s[1..]));
      assert (forall i :: 0 <= i < |s| ==> IsValueChar(s[i]))
        <==> IsValueChar(s[0]) && (forall i :: 0 <= i < |s[1..]| ==> IsValueChar(s[1..][i]))
      by {
        forall i | 0 <= i < |s[1..]| ensures s[1..][i] == s[i + 1] { }
      }
    }
  }

  const AuthorizationName: HeaderName := "authorization"
  const ContentTypeName: HeaderName := "content-type"

  /** The bytes of `application/json`, the JSON media type, in ASCII. */
  const ApplicationJson: seq<byte> :=
    [0x61, 0x70, 0x70, 0x6C, 0x69, 0x63, 0x61, 0x74, 0x69, 0x6F, 0x6E, 0x2F, 0x6A, 0x73, 0x6F, 0x6E]

  lemma ApplicationJsonIsValue()
    ensures ParseHeaderValue(ApplicationJson) == Some(ApplicationJson)
  {
  }

  /** A header entry in iteration order: name and raw value bytes. */
  type Header = (HeaderName, seq<byte>)
  type HeaderList = seq<Header>

  /** How many entries of `hs` carry `name`. */
  function Count(hs: HeaderList, name: HeaderName): nat
  {
    if hs == [] then 0
    else Count(hs[..|hs| - 1], name) + (if hs[|hs| - 1].0 == name then 1 else 0)
  }

  lemma {:induction false} CountAppend(a: HeaderList, b: HeaderList, name: HeaderName)
    ensures Count(a + b, name) == Count(a, name) + Count(b, name)
  {
    if b == [] {
      assert a + b == a;
    } else {
      assert (a + b)[..|a + b| - 1] == a + b[..|b| - 1];
      CountAppend(a, b[..|b| - 1], name);
    }
  }

  /** The value of the first entry named `name`, as `HeaderMap::get` reads it. */
  function Lookup(hs: HeaderList, name: HeaderName): Option<seq<byte>>
  {
    if hs == [] then None
    else if hs[0].0 == name then Some(hs[0].1)
    else Lookup(hs[1..], name)
  }

  predicate DistinctNames(hs: HeaderList)
  {
    forall i, j :: 0 <= i < j < |hs| ==> hs[i].0 != hs[j].0
  }

  /** A `StatusCode`: the three-digit codes 100 to 999. */
  type StatusCode = x: int | 100 <= x <= 999 witness 200
}
