/**
 * The response side of `http`: a `HeaderMap` filled with `insert`, and a `Response`
 * whose status, headers and body the handler sets.
 */
module Responses {
  import opened Wrappers
  import opened Text
  import opened Http

  /** The names a header list holds. */
  function Names(hs: HeaderList): set<HeaderName>
  {
    set i | 0 <= i < |hs| :: hs[i].0
  }

  /**
   * The entries after `HeaderMap::insert(name, value)`: the value replaces the one stored
   * under `name`, in its place, or is added at the end when the name is new.
   */
  function Inserted(entries: HeaderList, name: HeaderName, value: seq<byte>): HeaderList
  {
    if entries == [] then [(name, value)]
    else if entries[0].0 == name then [(name, value)] + entries[1..]
    else [entries[0]] + Inserted(entries[1..], name, value)
  }

  /** After an insert the name reads back the new value, and every other name reads as before. */
  lemma {:induction false} InsertedLookup(entries: HeaderList, name: HeaderName, value: seq<byte>, other: HeaderName)
    ensures Lookup(Inserted(entries, name, value), other) == if other == name then Some(value) else Lookup(entries, other)
  {
    if entries != [] && entries[0].0 != name {
      InsertedLookup(entries[1..], name, value, other);
      assert ([entries[0]] + Inserted(entries[1..], name, value))[1..] == Inserted(entries[1..], name, value);
    } else if entries != [] {
      assert ([(name, value)] + entries[1..])[1..] == entries[1..];
    }
  }

  /** A name is held exactly when looking it up finds a value. */
  lemma {:induction false} LookupFindsNames(hs: HeaderList, n: HeaderName)
    ensures Lookup(hs, n).Some? <==> n in Names(hs)
  {
    if hs != [] && hs[0].0 != n {
      LookupFindsNames(hs[1..], n);
      if n in Names(hs) {
        var i :| 0 <= i < |hs| && hs[i].0 == n;
        assert hs[1..][i - 1].0 == n;
      }
      if n in Names(hs[1..]) {
        var i :| 0 <= i < |hs[1..]| && hs[1..][i].0 == n;
        assert hs[i + 1].0 == n;
      }
    } else if hs != [] {
      assert hs[0].0 in Names(hs);
    }
  }

  /** An insert adds its name to the names held and nothing else. */
  lemma InsertedNames(entries: HeaderList, name: HeaderName, value: seq<byte>)
    ensures Names(Inserted(entries, name, value)) == Names(entries) + {name}
  {
    forall n ensures n in Names(Inserted(entries, name, value)) <==> n in Names(entries) + {name} {
      InsertedLookup(entries, name, value, n);
      LookupFindsNames(Inserted(entries, name, value), n);
      LookupFindsNames(entries, n);
    }
  }

  /** Inserting keeps the names distinct. */
  lemma {:induction false} InsertedDistinct(entries: HeaderList, name: HeaderName, value: seq<byte>)
    requires DistinctNames(entries)
    ensures DistinctNames(Inserted(entries, name, value))
  {
    if entries != [] && entries[0].0 != name {
      var tail := entries[1..];
      InsertedDistinct(tail, name, value);
      InsertedNames(tail, name, value);
      var r := Inserted(entries, name, value);
      forall i, j | 0 <= i < j < |r| ensures r[i].0 != r[j].0 {
        if i == 0 {
          assert r[j].0 == Inserted(tail, name, value)[j - 1].0;
          assert r[j].0 in Names(tail) + {name};
          if r[j].0 in Names(tail) {
            var k :| 0 <= k < |tail| && tail[k].0 == r[j].0;
            assert entries[k + 1].0 == r[j].0;
          }
        } else {
          assert r[i] == Inserted(tail, name, value)[i - 1];
          assert r[j] == Inserted(tail, name, value)[j - 1];
        }
      }
    } else if entries != [] {
      var r := Inserted(entries, name, value);
      forall i, j | 0 <= i < j < |r| ensures r[i].0 != r[j].0 {
        assert r[j] == entries[j];
        assert i > 0 ==> r[i] == entries[i];
      }
    }
  }

  /** Where the name is already held, at `i`, the insert overwrites that entry in place. */
  lemma {:induction false} InsertedAt(entries: HeaderList, name: HeaderName, value: seq<byte>, i: nat)
    requires i < |entries| && entries[i].0 == name
    requires forall j :: 0 <= j < i ==> entries[j].0 != name
    ensures Inserted(entries, name, value) == entries[i := (name, value)]
  {
    if i > 0 {
      InsertedAt(entries[1..], name, value, i - 1);
      assert [entries[0]] + entries[1..][i - 1 := (name, value)] == entries[i := (name, value)];
    } else {
      assert [(name, value)] + entries[1..] == entries[0 := (name, value)];
    }
  }

  /** Where the name is new, the insert appends. */
  lemma {:induction false} InsertedAbsent(entries: HeaderList, name: HeaderName, value: seq<byte>)
    requires forall j :: 0 <= j < |entries| ==> entries[j].0 != name
    ensures Inserted(entries, name, value) == entries + [(name, value)]
  {
    if entries != [] {
      InsertedAbsent(entries[1..], name, value);
      assert [entries[0]] + (entries[1..] + [(name, value)]) == entries + [(name, value)];
    }
  }

  /** An `http::HeaderMap` holding at most one value per name, in the order names were first inserted. */
  class HeaderMap {
    var entries: HeaderList

    ghost predicate Valid()
      reads this
    {
      DistinctNames(entries)
    }

    constructor ()
      ensures Valid() && entries == []
    {
      entries := [];
    }

    /** `HeaderMap::get`. */
    function Get(name: HeaderName): Option<seq<byte>>
      reads this
    {
      Lookup(entries, name)
    }

    /** `HeaderMap::insert`: stores the value under the name, dropping what was there, and returns that. */
    method Insert(name: HeaderName, value: seq<byte>) returns (previous: Option<seq<byte>>)
      requires Valid()
      modifies this
      ensures Valid()
      ensures entries == Inserted(old(entries), name, value)
      ensures previous == Lookup(old(entries), name)
      ensures Get(name) == Some(value)
      ensures forall n :: n != name ==> Get(n) == old(Get(n))
    {
      var i := 0;
      while i < |entries| && entries[i].0 != name
        invariant 0 <= i <= |entries|
        invariant forall j :: 0 <= j < i ==> entries[j].0 != name
        invariant Lookup(entries, name) == Lookup(entries[i..], name)
      {
        assert entries[i..][1..] == entries[i + 1..];
        i := i + 1;
      }
      forall n { InsertedLookup(entries, name, value, n); }
      InsertedDistinct(entries, name, value);
      if i < |entries| {
        previous := Some(entries[i].1);
        InsertedAt(entries, name, value, i);
        entries := entries[i := (name, value)];
      } else {
        previous := None;
        InsertedAbsent(entries, name, value);
        entries := entries + [(name, value)];
      }
    }
  }

  /** An `http::Response`: status, header map and body bytes. */
  class Response {
    var status: StatusCode
    var headers: HeaderMap
    var body: seq<byte>

    /** `Response::new(body)`: status 200 and no headers. */
    constructor (body: seq<byte>)
      ensures status == 200 && this.body == body
      ensures fresh(headers) && headers.Valid() && headers.entries == []
    {
      status := 200;
      headers := new HeaderMap();
      this.body := body;
    }
  }
}
