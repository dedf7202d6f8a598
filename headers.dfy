/** The header sanitizer of app.js (lines 24-63): the case-insensitive lookup and
    the two filters that build the header object sent upstream and the one
    returned to the client.

    A header object is the list of its (name, value) entries in insertion order,
    the order in which `for...in` visits them; like the keys of a JavaScript
    object, its names are distinct. */
module Headers {
  import opened Wrappers
  import opened Js

  type Header = (string, string)

  predicate DistinctNames(h: seq<Header>) {
    forall i, j :: 0 <= i < j < |h| ==> h[i].0 != h[j].0
  }

  /** `obj[name]`: the value stored under exactly this name */
  function Lookup(h: seq<Header>, name: string): Option<string>
    decreases |h|
  {
    if h == [] then None else if h[0].0 == name then Some(h[0].1) else Lookup(h[1..], name)
  }

  /** `obj[name] = value`: an entry with this name keeps its place and takes the
      new value; a new name is added at the end. */
  function Put(h: seq<Header>, name: string, value: string): (r: seq<Header>)
    ensures Lookup(r, name) == Some(value)
    ensures forall n :: n != name ==> Lookup(r, n) == Lookup(h, n)
    ensures forall e :: e in r ==> e in h || e == (name, value)
    ensures DistinctNames(h) ==> DistinctNames(r)
    ensures Lookup(h, name) == None ==> r == h + [(name, value)]
    decreases |h|
  {
    if h == [] then [(name, value)]
    else if h[0].0 == name then
      var r := [(name, value)] + h[1..];
      assert r[1..] == h[1..];
      r
    else
      var tail := Put(h[1..], name, value);
      ConsLookup(h, tail, name);
      ConsEntries(h, tail, name, value);
      ConsAppended(h, tail, name, value);
      assert DistinctNames(h) ==> DistinctNames([h[0]] + tail) by {
        if DistinctNames(h) {
          DistinctTail(h);
          PutHeadStaysDistinct(h, tail, name, value);
        }
      }
      [h[0]] + tail
  }

  /** Keeping the head of h in front of a tail that agrees with h[1..] on every
      name but name gives a list that agrees with h on those names. */
  lemma ConsLookup(h: seq<Header>, tail: seq<Header>, name: string)
    requires h != [] && h[0].0 != name
    ensures Lookup([h[0]] + tail, name) == Lookup(tail, name)
    ensures (forall n :: n != name ==> Lookup(tail, n) == Lookup(h[1..], n)) ==>
              forall n :: n != name ==> Lookup([h[0]] + tail, n) == Lookup(h, n)
  {
    assert ([h[0]] + tail)[1..] == tail;
  }

  lemma ConsEntries(h: seq<Header>, tail: seq<Header>, name: string, value: string)
    requires h != [] && forall e :: e in tail ==> e in h[1..] || e == (name, value)
    ensures forall e :: e in [h[0]] + tail ==> e in h || e == (name, value)
  {
  }

  lemma ConsAppended(h: seq<Header>, tail: seq<Header>, name: string, value: string)
    requires h != [] && h[0].0 != name
    requires Lookup(h[1..], name) == None ==> tail == h[1..] + [(name, value)]
    ensures Lookup(h, name) == None ==> [h[0]] + tail == h + [(name, value)]
  {
    if Lookup(h, name) == None {
      assert [h[0]] + (h[1..] + [(name, value)]) == h + [(name, value)];
    }
  }

  /** The head of a distinct list can go in front of the tail after a Put of
      another name. */
  lemma PutHeadStaysDistinct(h: seq<Header>, tail: seq<Header>, name: string, value: string)
    requires DistinctNames(h) && h != [] && h[0].0 != name && DistinctNames(tail)
    requires forall e :: e in tail ==> e in h[1..] || e == (name, value)
    ensures DistinctNames([h[0]] + tail)
  {
    var r := [h[0]] + tail;
    forall i, j | 0 <= i < j < |r| ensures r[i].0 != r[j].0 {
      assert r[j] == tail[j - 1] && r[j] in tail;
      if i == 0 && r[j] != (name, value) {
        var k :| 0 <= k < |h[1..]| && h[1..][k] == r[j];
        assert h[k + 1] == r[j];
      } else if i > 0 {
        assert r[i] == tail[i - 1];
      }
    }
  }

  lemma DistinctTail(h: seq<Header>)
    requires DistinctNames(h) && h != []
    ensures DistinctNames(h[1..])
  {
    forall i, j | 0 <= i < j < |h[1..]| ensures h[1..][i].0 != h[1..][j].0 {
      assert h[1..][i] == h[i + 1] && h[1..][j] == h[j + 1];
    }
  }

  /** With distinct names, `obj[name]` is v exactly when (name, v) is an entry. */
  lemma {:induction false} LookupIsEntry(h: seq<Header>, name: string, v: string)
    requires DistinctNames(h)
    ensures Lookup(h, name) == Some(v) <==> (name, v) in h
    decreases |h|
  {
    if h != [] {
      DistinctTail(h);
      LookupIsEntry(h[1..], name, v);
      assert h == [h[0]] + h[1..];
      if h[0].0 == name {
        forall k | 0 <= k < |h[1..]| ensures h[1..][k].0 != name {
          assert h[1..][k] == h[k + 1];
        }
      }
    }
  }

  /** `obj[name]` is undefined when no entry has that name. */
  lemma {:induction false} LookupMissing(h: seq<Header>, name: string)
    requires forall e :: e in h ==> e.0 != name
    ensures Lookup(h, name) == None
    decreases |h|
  {
    if h != [] {
      assert h[0] in h;
      LookupMissing(h[1..], name);
    }
  }

  // ---------------------------------------------------------------------------
  // getPropertyNoCase (app.js:24-30)
  // ---------------------------------------------------------------------------

  /** The two names are equal ignoring the case of ASCII letters. */
  predicate SameNoCase(a: string, b: string) {
    Lower(a) == Lower(b)
  }

  /** The value of the first entry whose name equals `name` ignoring case. */
  function FindNoCase(h: seq<Header>, name: string): (r: Option<string>)
    ensures r.Some? ==> exists i :: 0 <= i < |h| && SameNoCase(h[i].0, name) && h[i].1 == r.value
    decreases |h|
  {
    if h == [] then None
    else if SameNoCase(h[0].0, name) then Some(h[0].1)
    else FindNoCase(h[1..], name)
  }

  /** FindNoCase answers with the value of the first entry whose name matches
      ignoring case, and with nothing exactly when no name matches. */
  lemma {:induction false} FindNoCaseIsFirstMatch(h: seq<Header>, name: string)
    ensures FindNoCase(h, name) == None <==> forall i :: 0 <= i < |h| ==> !SameNoCase(h[i].0, name)
    ensures forall k :: 0 <= k < |h| && SameNoCase(h[k].0, name)
                        && (forall j :: 0 <= j < k ==> !SameNoCase(h[j].0, name))
                        ==> FindNoCase(h, name) == Some(h[k].1)
    decreases |h|
  {
    if h != [] {
      FindNoCaseIsFirstMatch(h[1..], name);
      forall k | 0 <= k < |h| && SameNoCase(h[k].0, name)
                 && (forall j :: 0 <= j < k ==> !SameNoCase(h[j].0, name))
        ensures FindNoCase(h, name) == Some(h[k].1)
      {
        if k > 0 {
          assert !SameNoCase(h[0].0, name);
          assert h[1..][k - 1] == h[k];
          forall j | 0 <= j < k - 1 ensures !SameNoCase(h[1..][j].0, name) {
            assert h[1..][j] == h[j + 1];
          }
        }
      }
      if !SameNoCase(h[0].0, name) {
        assert (forall i :: 0 <= i < |h[1..]| ==> !SameNoCase(h[1..][i].0, name))
          <==> (forall i :: 0 <= i < |h| ==> !SameNoCase(h[i].0, name)) by {
          forall i | 0 <= i < |h[1..]| ensures h[1..][i] == h[i + 1] { }
        }
      }
    }
  }

  /** getPropertyNoCase: scans the entries in order and returns the value of the
      first whose name matches ignoring case, or nothing (JavaScript's null). */
  method GetPropertyNoCase(obj: seq<Header>, propertyName: string) returns (r: Option<string>)
    ensures r == FindNoCase(obj, propertyName)
  {
    for i := 0 to |obj|
      invariant FindNoCase(obj[i..], propertyName) == FindNoCase(obj, propertyName)
    {
      if Lower(obj[i].0) == Lower(propertyName) {
        return Some(obj[i].1);
      }
      assert obj[i..][1..] == obj[i + 1..];
    }
    return None;
  }

  // ---------------------------------------------------------------------------
  // The filters behind setOutgoingHeaders and setIncomingHeaders
  // ---------------------------------------------------------------------------

  /** Whether a filter over `names` keeps entry e: with keep, the entries whose
      lower-cased name is one of names; without, all the others. */
  predicate Selected(e: Header, names: set<string>, keep: bool) {
    (Lower(e.0) in names) == keep
  }

  /** The entries of h that the filter keeps, in their order. */
  function Filter(h: seq<Header>, names: set<string>, keep: bool): seq<Header>
    decreases |h|
  {
    if h == [] then []
    else
      var last := h[|h| - 1];
      Filter(h[..|h| - 1], names, keep) + (if Selected(last, names, keep) then [last] else [])
  }

  lemma {:induction false} FilterMembers(h: seq<Header>, names: set<string>, keep: bool)
    ensures forall e :: e in Filter(h, names, keep) <==> e in h && Selected(e, names, keep)
    decreases |h|
  {
    if h != [] {
      FilterMembers(h[..|h| - 1], names, keep);
      assert h == h[..|h| - 1] + [h[|h| - 1]];
    }
  }

  lemma {:induction false} FilterDistinct(h: seq<Header>, names: set<string>, keep: bool)
    requires DistinctNames(h)
    ensures DistinctNames(Filter(h, names, keep))
    decreases |h|
  {
    if h != [] {
      var init := h[..|h| - 1];
      var last := h[|h| - 1];
      FilterDistinct(init, names, keep);
      FilterMembers(init, names, keep);
      var f := Filter(init, names, keep);
      forall i | 0 <= i < |f| ensures f[i].0 != last.0 {
        assert f[i] in init;
        var k :| 0 <= k < |init| && init[k] == f[i];
        assert h[k] == f[i];
      }
    }
  }

  /** A filter that keeps every entry of h returns h. */
  lemma {:induction false} FilterKeepsAll(h: seq<Header>, names: set<string>, keep: bool)
    requires forall e :: e in h ==> Selected(e, names, keep)
    ensures Filter(h, names, keep) == h
    decreases |h|
  {
    if h != [] {
      assert h[|h| - 1] in h;
      FilterKeepsAll(h[..|h| - 1], names, keep);
      assert h == h[..|h| - 1] + [h[|h| - 1]];
    }
  }

  /** Filtering what a filter returned changes nothing. */
  lemma FilterIdempotent(h: seq<Header>, names: set<string>, keep: bool)
    ensures Filter(Filter(h, names, keep), names, keep) == Filter(h, names, keep)
  {
    FilterMembers(h, names, keep);
    FilterKeepsAll(Filter(h, names, keep), names, keep);
  }

  /** With distinct names, a filter leaves `obj[n]` alone for the names it keeps
      and makes it undefined for the others. */
  lemma FilterLookup(h: seq<Header>, names: set<string>, keep: bool, n: string)
    requires DistinctNames(h)
    ensures Lookup(Filter(h, names, keep), n)
         == if (Lower(n) in names) == keep then Lookup(h, n) else None
  {
    var f := Filter(h, names, keep);
    FilterMembers(h, names, keep);
    FilterDistinct(h, names, keep);
    if (Lower(n) in names) == keep {
      if Lookup(h, n).Some? {
        LookupIsEntry(h, n, Lookup(h, n).value);
        LookupIsEntry(f, n, Lookup(h, n).value);
      } else if Lookup(f, n).Some? {
        LookupIsEntry(f, n, Lookup(f, n).value);
        LookupIsEntry(h, n, Lookup(f, n).value);
      }
    } else {
      LookupMissing(f, n);
    }
  }

  /** With distinct names, assigning to an existing key changes that entry's
      value in place: every entry keeps its position. */
  lemma {:induction false} PutKeepsPlace(h: seq<Header>, name: string, value: string)
    requires DistinctNames(h) && Lookup(h, name).Some?
    ensures |Put(h, name, value)| == |h|
    ensures forall i :: 0 <= i < |h| ==> Put(h, name, value)[i] == if h[i].0 == name then (name, value) else h[i]
    decreases |h|
  {
    var r := Put(h, name, value);
    if h[0].0 == name {
      forall i | 0 <= i < |h| ensures r[i] == if h[i].0 == name then (name, value) else h[i] {
        if i > 0 {
          assert h[i].0 != h[0].0;
        }
      }
    } else {
      DistinctTail(h);
      PutKeepsPlace(h[1..], name, value);
      var tail := Put(h[1..], name, value);
      assert r == [h[0]] + tail;
      forall i | 0 <= i < |h| ensures r[i] == if h[i].0 == name then (name, value) else h[i] {
        if i > 0 {
          assert r[i] == tail[i - 1] && h[i] == h[1..][i - 1];
        }
      }
    }
  }

  /** The entry for `name` added a second time leaves the object as it was. */
  lemma {:induction false} PutTwice(h: seq<Header>, name: string, value: string)
    ensures Put(Put(h, name, value), name, value) == Put(h, name, value)
    decreases |h|
  {
    if h != [] && h[0].0 != name {
      PutTwice(h[1..], name, value);
    }
  }

  /** The fresh object's entries come from a prefix of a header object with
      distinct names, so the next name of that object is not among them yet. */
  lemma NextNameIsNew(h: seq<Header>, i: nat, names: set<string>, keep: bool)
    requires DistinctNames(h) && i < |h|
    ensures Lookup(Filter(h[..i], names, keep), h[i].0) == None
  {
    var f := Filter(h[..i], names, keep);
    FilterMembers(h[..i], names, keep);
    forall e | e in f ensures e.0 != h[i].0 {
      var k :| 0 <= k < i && h[..i][k] == e;
      assert h[k] == e;
    }
    LookupMissing(f, h[i].0);
  }

  // ---------------------------------------------------------------------------
  // setOutgoingHeaders (app.js:50-63)
  // ---------------------------------------------------------------------------

  /** The lower-cased names the gateway forwards upstream (`conkie` is the
      source's own spelling). */
  const ForwardedNames: set<string> := {"accept-encoding", "conkie", "user-agent"}

  /** The header object sent upstream for the client's header object. */
  function Forwarded(clientHeaders: seq<Header>): (r: seq<Header>)
    ensures forall e :: e in r ==> e in clientHeaders && Lower(e.0) in ForwardedNames
  {
    FilterMembers(clientHeaders, ForwardedNames, true);
    Filter(clientHeaders, ForwardedNames, true)
  }

  /** setOutgoingHeaders: builds a fresh obj, copying each client header whose
      lower-cased name is forwarded. */
  method SetOutgoingHeaders(clientHeaders: seq<Header>) returns (headers: seq<Header>)
    requires DistinctNames(clientHeaders)
    ensures headers == Forwarded(clientHeaders)
  {
    headers := [];
    for i := 0 to |clientHeaders|
      invariant headers == Filter(clientHeaders[..i], ForwardedNames, true)
    {
      var (header, value) := clientHeaders[i];
      assert clientHeaders[..i + 1][..i] == clientHeaders[..i];
      if Lower(header) in ForwardedNames {
        NextNameIsNew(clientHeaders, i, ForwardedNames, true);
        headers := Put(headers, header, value);
      }
    }
    assert clientHeaders[..|clientHeaders|] == clientHeaders;
  }

  /** The upstream request carries exactly the client's entries whose lower-cased
      name is accept-encoding, conkie or user-agent, with their original names
      and values, in their order, and still with distinct names. */
  lemma ForwardedExactly(clientHeaders: seq<Header>)
    ensures forall e :: e in Forwarded(clientHeaders)
                        <==> e in clientHeaders && Lower(e.0) in ForwardedNames
    ensures DistinctNames(clientHeaders) ==> DistinctNames(Forwarded(clientHeaders))
  {
    FilterMembers(clientHeaders, ForwardedNames, true);
    if DistinctNames(clientHeaders) {
      FilterDistinct(clientHeaders, ForwardedNames, true);
    }
  }

  /** Sanitizing the outgoing headers a second time changes nothing. */
  lemma ForwardedIdempotent(clientHeaders: seq<Header>)
    ensures Forwarded(Forwarded(clientHeaders)) == Forwarded(clientHeaders)
  {
    FilterIdempotent(clientHeaders, ForwardedNames, true);
  }

  // ---------------------------------------------------------------------------
  // setIncomingHeaders (app.js:32-48)
  // ---------------------------------------------------------------------------

  /** The lower-cased names the gateway does not copy to the client, because it
      may re-encode or re-frame the body. */
  const RecomputedNames: set<string> := {"content-encoding", "content-length", "transfer-encoding"}

  const AllowOrigin: string := "access-control-allow-origin"

  /** The header object returned to the client for the upstream's header obj,
      before any content-encoding is added. */
  function Incoming(upstreamHeaders: seq<Header>): (r: seq<Header>)
    ensures Lookup(r, AllowOrigin) == Some("*")
    ensures forall e :: e in r ==> e == (AllowOrigin, "*") || (e in upstreamHeaders && Lower(e.0) !in RecomputedNames)
  {
    FilterMembers(upstreamHeaders, RecomputedNames, false);
    Put(Filter(upstreamHeaders, RecomputedNames, false), AllowOrigin, "*")
  }

  /** setIncomingHeaders: builds a fresh obj, copying each upstream header
      except the recomputed ones, then sets access-control-allow-origin to `*`. */
  method SetIncomingHeaders(upstreamHeaders: seq<Header>) returns (headers: seq<Header>)
    requires DistinctNames(upstreamHeaders)
    ensures headers == Incoming(upstreamHeaders)
  {
    headers := [];
    for i := 0 to |upstreamHeaders|
      invariant headers == Filter(upstreamHeaders[..i], RecomputedNames, false)
    {
      var (header, value) := upstreamHeaders[i];
      assert upstreamHeaders[..i + 1][..i] == upstreamHeaders[..i];
      if Lower(header) !in RecomputedNames {
        NextNameIsNew(upstreamHeaders, i, RecomputedNames, false);
        headers := Put(headers, header, value);
      }
    }
    assert upstreamHeaders[..|upstreamHeaders|] == upstreamHeaders;
    headers := Put(headers, AllowOrigin, "*");
  }

  /** The client sees access-control-allow-origin `*`, every other upstream
      header unchanged unless its lower-cased name is content-encoding,
      content-length or transfer-encoding, and those not at all. */
  lemma IncomingSanitized(upstreamHeaders: seq<Header>)
    requires DistinctNames(upstreamHeaders)
    ensures DistinctNames(Incoming(upstreamHeaders))
    ensures Lookup(Incoming(upstreamHeaders), AllowOrigin) == Some("*")
    ensures forall n :: n != AllowOrigin ==>
              Lookup(Incoming(upstreamHeaders), n)
              == if Lower(n) in RecomputedNames then None else Lookup(upstreamHeaders, n)
  {
    FilterDistinct(upstreamHeaders, RecomputedNames, false);
    forall n | n != AllowOrigin
      ensures Lookup(Incoming(upstreamHeaders), n)
              == if Lower(n) in RecomputedNames then None else Lookup(upstreamHeaders, n)
    {
      FilterLookup(upstreamHeaders, RecomputedNames, false, n);
    }
  }

  /** Sanitizing the incoming headers a second time changes nothing. */
  lemma IncomingIdempotent(upstreamHeaders: seq<Header>)
    ensures Incoming(Incoming(upstreamHeaders)) == Incoming(upstreamHeaders)
  {
    var f := Filter(upstreamHeaders, RecomputedNames, false);
    var once := Put(f, AllowOrigin, "*");
    FilterMembers(upstreamHeaders, RecomputedNames, false);
    assert |Lower(AllowOrigin)| == 27;
    assert forall e :: e in once ==> Selected(e, RecomputedNames, false);
    FilterKeepsAll(once, RecomputedNames, false);
    PutTwice(f, AllowOrigin, "*");
  }
}
