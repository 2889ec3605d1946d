/** The upstream URL the proxy forwards to: configured base, inbound path, inbound query. */
module Urls {
  import opened Wrappers

  /** `str::trim_start_matches('/')`: every leading slash removed. */
  function TrimLeadingSlashes(s: string): string
  {
    if s != [] && s[0] == '/' then TrimLeadingSlashes(s[1..]) else s
  }

  /** What is left is a suffix of the input that does not start with a slash, and only slashes went. */
  lemma {:induction false} TrimLeadingSlashesSpec(s: string)
    ensures var r := TrimLeadingSlashes(s);
      && |r| <= |s| && r == s[|s| - |r|..]
      && (forall i :: 0 <= i < |s| - |r| ==> s[i] == '/')
      && (r == [] || r[0] != '/')
  {
    if s != [] && s[0] == '/' {
      var r := TrimLeadingSlashes(s[1..]);
      TrimLeadingSlashesSpec(s[1..]);
      assert TrimLeadingSlashes(s) == r;
      assert s[1..][|s| - 1 - |r|..] == s[|s| - |r|..];
      forall i | 0 <= i < |s| - |r| ensures s[i] == '/' {
        if i > 0 { assert s[i] == s[1..][i - 1]; }
      }
    }
  }

  /** `str::trim_end_matches('/')`: every trailing slash removed. */
  function TrimTrailingSlashes(s: string): string
  {
    if s != [] && s[|s| - 1] == '/' then TrimTrailingSlashes(s[..|s| - 1]) else s
  }

  /** What is left is a prefix of the input that does not end with a slash, and only slashes went. */
  lemma {:induction false} TrimTrailingSlashesSpec(s: string)
    ensures var r := TrimTrailingSlashes(s);
      && |r| <= |s| && r == s[..|r|]
      && (forall i :: |r| <= i < |s| ==> s[i] == '/')
      && (r == [] || r[|r| - 1] != '/')
  {
    if s != [] && s[|s| - 1] == '/' {
      var r := TrimTrailingSlashes(s[..|s| - 1]);
      TrimTrailingSlashesSpec(s[..|s| - 1]);
      assert TrimTrailingSlashes(s) == r;
      assert s[..|s| - 1][..|r|] == s[..|r|];
      forall i | |r| <= i < |s| ensures s[i] == '/' {
        if i < |s| - 1 { assert s[i] == s[..|s| - 1][i]; }
      }
    }
  }

  /** The query as the handler reads it: `uri.query().unwrap_or("")`. */
  function QueryText(query: Option<string>): string
  {
    match query
    case Some(q) => q
    case None => ""
  }

  /** The URL the request is forwarded to. */
  function UpstreamUrl(base: string, path: string, query: Option<string>): string
  {
    var q := QueryText(query);
    if q == [] then
      TrimTrailingSlashes(base) + "/" + TrimLeadingSlashes(path)
    else
      TrimTrailingSlashes(base) + "/" + TrimLeadingSlashes(path) + "?" + q
  }

  /**
   * Reads a URL back the way a server does: everything before the first `?`,
   * and what follows it when there is one.
   */
  function SplitQuery(u: string): (string, Option<string>)
  {
    if u == [] then ([], None)
    else if u[0] == '?' then ([], Some(u[1..]))
    else ([u[0]] + SplitQuery(u[1..]).0, SplitQuery(u[1..]).1)
  }

  lemma {:induction false} SplitQueryAfter(a: string, rest: string)
    requires '?' !in a
    ensures SplitQuery(a + rest) == (a + SplitQuery(rest).0, SplitQuery(rest).1)
  {
    if a == [] {
      assert a + rest == rest;
      assert a + SplitQuery(rest).0 == SplitQuery(rest).0;
    } else {
      var tail := SplitQuery(a[1..] + rest);
      assert (a + rest)[0] == a[0] && a[0] != '?';
      assert (a + rest)[1..] == a[1..] + rest;
      assert SplitQuery(a + rest) == ([a[0]] + tail.0, tail.1);
      SplitQueryAfter(a[1..], rest);
      assert [a[0]] + (a[1..] + SplitQuery(rest).0) == a + SplitQuery(rest).0;
    }
  }

  /**
   * The URL joins the base, stripped of its trailing slashes, to the path, stripped of
   * its leading slashes, with exactly one slash: the character before the joining slash
   * is not a slash, nor is the one after it.
   */
  lemma UpstreamUrlJoin(base: string, path: string, query: Option<string>)
    ensures var u, b, p := UpstreamUrl(base, path, query), TrimTrailingSlashes(base), TrimLeadingSlashes(path);
      && |b| + 1 + |p| <= |u|
      && u[..|b|] == b && u[|b|] == '/' && u[|b| + 1..|b| + 1 + |p|] == p
      && (|b| == 0 || u[|b| - 1] != '/')
      && (|b| + 1 == |u| || u[|b| + 1] != '/')
  {
    var b, p, q := TrimTrailingSlashes(base), TrimLeadingSlashes(path), QueryText(query);
    TrimTrailingSlashesSpec(base);
    TrimLeadingSlashesSpec(path);
    var rest := if q == [] then "" else "?" + q;
    assert UpstreamUrl(base, path, query) == b + "/" + p + rest;
    JoinLayout(b, p, rest);
  }

  lemma JoinLayout(b: string, p: string, rest: string)
    requires b == [] || b[|b| - 1] != '/'
    requires p == [] || p[0] != '/'
    requires rest == [] || rest[0] == '?'
    ensures var u := b + "/" + p + rest;
      && |b| + 1 + |p| <= |u|
      && u[..|b|] == b && u[|b|] == '/' && u[|b| + 1..|b| + 1 + |p|] == p
      && (|b| == 0 || u[|b| - 1] != '/')
      && (|b| + 1 == |u| || u[|b| + 1] != '/')
  {
    var u := b + "/" + p + rest;
    assert u[..|b|] == b;
    assert u[|b| + 1..|b| + 1 + |p|] == p;
    if |b| + 1 < |u| {
      if p != [] { assert u[|b| + 1] == p[0]; } else { assert u[|b| + 1] == rest[0]; }
    }
  }

  /**
   * Reading the URL back recovers the joined base and path, and the query exactly when
   * it is non-empty: an absent query and an empty one both give a URL without `?`.
   * URI paths never hold `?`; the base is assumed not to either.
   */
  lemma UpstreamUrlQueryRoundTrip(base: string, path: string, query: Option<string>)
    requires '?' !in base && '?' !in path
    ensures var q := QueryText(query);
      && SplitQuery(UpstreamUrl(base, path, query))
         == (TrimTrailingSlashes(base) + "/" + TrimLeadingSlashes(path), if q == [] then None else Some(q))
      && ('?' in UpstreamUrl(base, path, query) <==> q != [])
  {
    var b, p, q := TrimTrailingSlashes(base), TrimLeadingSlashes(path), QueryText(query);
    var joined := b + "/" + p;
    TrimTrailingSlashesSpec(base);
    TrimLeadingSlashesSpec(path);
    assert '?' !in b by {
      forall i | 0 <= i < |b| ensures b[i] != '?' { assert b[i] == base[i]; }
    }
    assert '?' !in p by {
      forall i | 0 <= i < |p| ensures p[i] != '?' { assert p[i] == path[|path| - |p| + i]; }
    }
    assert '?' !in joined by {
      forall i | 0 <= i < |joined| ensures joined[i] != '?' {
        if i < |b| { assert joined[i] == b[i]; }
        else if i > |b| { assert joined[i] == p[i - |b| - 1]; }
      }
    }
    if q == [] {
      SplitQueryAfter(joined, []);
      assert joined + [] == joined;
    } else {
      SplitQueryAfter(joined, "?" + q);
      assert UpstreamUrl(base, path, query) == joined + ("?" + q);
      assert ("?" + q)[0] == '?' && ("?" + q)[1..] == q;
      assert SplitQuery("?" + q) == ([], Some(q));
      assert joined + [] == joined;
    }
  }

  /**
   * Whatever the base holds, the URL ends, right after the joined path, with `?` and the
   * query verbatim when the query is non-empty, and with nothing otherwise.
   */
  lemma UpstreamUrlQuerySuffix(base: string, path: string, query: Option<string>)
    ensures var b, p, q := TrimTrailingSlashes(base), TrimLeadingSlashes(path), QueryText(query);
      var u := UpstreamUrl(base, path, query);
      && |b| + 1 + |p| <= |u|
      && u[|b| + 1 + |p|..] == if q == [] then "" else "?" + q
  {
    var b, p, q := TrimTrailingSlashes(base), TrimLeadingSlashes(path), QueryText(query);
    var rest := if q == [] then "" else "?" + q;
    assert UpstreamUrl(base, path, query) == (b + "/" + p) + rest;
    assert ((b + "/" + p) + rest)[|b + "/" + p|..] == rest;
  }

  /** Extra slashes at the end of the base or the start of the path do not change the URL. */
  lemma UpstreamUrlIgnoresExtraSlashes(base: string, path: string, query: Option<string>)
    ensures UpstreamUrl(base + "/", path, query) == UpstreamUrl(base, path, query)
    ensures UpstreamUrl(base, "/" + path, query) == UpstreamUrl(base, path, query)
  {
    assert (base + "/")[..|base + "/"| - 1] == base;
    assert ("/" + path)[1..] == path;
  }
}
