/** How the handler turns the upstream response's headers into its own. */
module ResponseCopy {
  import opened Wrappers
  import opened Text
  import opened Http
  import opened Responses

  /** The framing headers the outbound transport recomputes, so they are never copied. */
  predicate IsFramingHeader(name: HeaderName)
  {
    name == "content-length" || name == "transfer-encoding"
  }

  /** One turn of the copy loop on one upstream entry. */
  function CopyStep(entries: HeaderList, h: Header): HeaderList
  {
    if IsFramingHeader(h.0) then entries
    else
      match ParseHeaderName(h.0)
      case None => entries
      case Some(n) =>
        match ParseHeaderValue(TextOrEmpty(h.1))
        case None => entries
        case Some(v) => Inserted(entries, n, v)
  }

  /** The header map after the copy loop has seen every upstream entry in order. */
  function CopiedHeaders(upstream: HeaderList): HeaderList
  {
    if upstream == [] then []
    else CopyStep(CopiedHeaders(upstream[..|upstream| - 1]), upstream[|upstream| - 1])
  }

  /** The value the last upstream entry named `name` carries, if any. */
  function LastUpstreamValue(upstream: HeaderList, name: HeaderName): Option<seq<byte>>
  {
    if upstream == [] then None
    else if upstream[|upstream| - 1].0 == name then Some(upstream[|upstream| - 1].1)
    else LastUpstreamValue(upstream[..|upstream| - 1], name)
  }

  /**
   * What the client should see under `name`: nothing for a framing header, otherwise the
   * text of the last upstream value (empty when that value is not visible ASCII).
   */
  function ExpectedValue(upstream: HeaderList, name: HeaderName): Option<seq<byte>>
  {
    if IsFramingHeader(name) then None
    else
      match LastUpstreamValue(upstream, name)
      case None => None
      case Some(v) => Some(TextOrEmpty(v))
  }

  /**
   * Copies the upstream headers into a fresh map: skips `content-length` and
   * `transfer-encoding`, re-parses each name and the text of each value, and inserts.
   */
  method CopyResponseHeaders(upstream: HeaderList) returns (headers: HeaderMap)
    ensures fresh(headers) && headers.Valid()
    ensures headers.entries == CopiedHeaders(upstream)
  {
    headers := new HeaderMap();
    for i := 0 to |upstream|
      invariant fresh(headers) && headers.Valid()
      invariant headers.entries == CopiedHeaders(upstream[..i])
    {
      var (name, value) := upstream[i];
      assert upstream[..i + 1][..i] == upstream[..i];
      if name != "content-length" && name != "transfer-encoding" {
        var headerName := ParseHeaderName(name);
        if headerName.Some? {
          var headerValue := ParseHeaderValue(TextOrEmpty(value));
          if headerValue.Some? {
            var _ := headers.Insert(headerName.value, headerValue.value);
          }
        }
      }
    }
    assert upstream[..|upstream|] == upstream;
  }

  /**
   * Last value wins: looking up any name in the copied headers gives the text of the last
   * upstream entry with that name, and nothing for `content-length` and `transfer-encoding`.
   */
  lemma {:induction false} CopiedHeadersLastValueWins(upstream: HeaderList, name: HeaderName)
    ensures Lookup(CopiedHeaders(upstream), name) == ExpectedValue(upstream, name)
  {
    if upstream != [] {
      var init, h := upstream[..|upstream| - 1], upstream[|upstream| - 1];
      CopiedHeadersLastValueWins(init, name);
      if !IsFramingHeader(h.0) {
        ParseCanonicalName(h.0);
        TextOrEmptyParses(h.1);
        InsertedLookup(CopiedHeaders(init), h.0, TextOrEmpty(h.1), name);
      }
    }
  }

  /** The copied headers hold one entry per name. */
  lemma {:induction false} CopiedHeadersDistinct(upstream: HeaderList)
    ensures DistinctNames(CopiedHeaders(upstream))
  {
    if upstream != [] {
      var init, h := upstream[..|upstream| - 1], upstream[|upstream| - 1];
      CopiedHeadersDistinct(init);
      if !IsFramingHeader(h.0) {
        ParseCanonicalName(h.0);
        TextOrEmptyParses(h.1);
        InsertedDistinct(CopiedHeaders(init), h.0, TextOrEmpty(h.1));
      }
    }
  }

  /** The copied headers name exactly the upstream names other than the two framing headers. */
  lemma CopiedHeadersNames(upstream: HeaderList)
    ensures Names(CopiedHeaders(upstream)) == set i | 0 <= i < |upstream| && !IsFramingHeader(upstream[i].0) :: upstream[i].0
    ensures forall e :: e in CopiedHeaders(upstream) ==> !IsFramingHeader(e.0)
  {
    forall n ensures n in Names(CopiedHeaders(upstream)) <==> exists i :: 0 <= i < |upstream| && !IsFramingHeader(upstream[i].0) && upstream[i].0 == n {
      CopiedHeadersLastValueWins(upstream, n);
      LookupFindsNames(CopiedHeaders(upstream), n);
      LastUpstreamValueFound(upstream, n);
    }
    forall e | e in CopiedHeaders(upstream) ensures !IsFramingHeader(e.0) {
      var i :| 0 <= i < |CopiedHeaders(upstream)| && CopiedHeaders(upstream)[i] == e;
      assert e.0 in Names(CopiedHeaders(upstream));
    }
  }

  /** Some upstream entry carries `name` exactly when a last value for it exists. */
  lemma {:induction false} LastUpstreamValueFound(upstream: HeaderList, name: HeaderName)
    ensures LastUpstreamValue(upstream, name).Some? <==> exists i :: 0 <= i < |upstream| && upstream[i].0 == name
  {
    if upstream != [] {
      var init := upstream[..|upstream| - 1];
      LastUpstreamValueFound(init, name);
      if exists i :: 0 <= i < |init| && init[i].0 == name {
        var i :| 0 <= i < |init| && init[i].0 == name;
        assert upstream[i].0 == name;
      }
      if exists i :: 0 <= i < |upstream| && upstream[i].0 == name {
        var i :| 0 <= i < |upstream| && upstream[i].0 == name;
        if i < |init| { assert init[i].0 == name; }
      }
    }
  }
}
