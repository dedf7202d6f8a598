/** The request classifier of app.js (getOptions, lines 126-180): the request
    path is split on `/`, and its first segment chooses between the proxy, the
    JSON API and the static file server. */
module Classifier {
  import opened Wrappers
  import opened Js
  import opened Headers

  /** The options object getOptions hands to its callback. A field the code
      leaves unset is false or None. */
  datatype Options = Options(
    port: Number,
    path: string,
    httpMethod: string,
    headers: seq<Header>,
    proxy: bool,
    proxyTls: bool,
    hostname: Option<string>,
    api: bool,
    resourceType: Option<string>,
    resource: Option<string>,
    subresource: Option<string>)

  /** A proxy request whose path has no host segment: the code reads the first
      element of an empty list and throws a TypeError. */
  datatype ClassifyError = MissingHostSegment

  /** The options every request starts from: port 80, path `/`, method GET and
      the headers forwarded upstream. */
  function Defaults(headers: seq<Header>): Options {
    Options(Int(80), "/", "GET", headers, false, false, None, false, None, None, None)
  }

  /** The path's segments: its split on `/`, with the empty segment in front of
      a leading `/` dropped, once. */
  function Segments(url: string): seq<string> {
    var seps := Split(url, '/');
    if seps[0] == "" then seps[1..] else seps
  }

  /** `s[i]`, undefined past the end */
  function At(s: seq<string>, i: nat): Option<string> {
    if i < |s| then Some(s[i]) else None
  }

  /** What getOptions answers for a request with this path, method and headers.
      For `proxy/H/s1/.../sn` the target host is the text of H before its first
      `:`, the port is parseInt of the text after it (80 without a `:`) and the
      path is `/s1/.../sn`; for `api/T/R/S` the resource identifiers are T, R
      and S; anything else is a static request with the defaults. */
  function Classify(url: string, clientMethod: string, clientHeaders: seq<Header>): (r: Result<Options, ClassifyError>)
    ensures r.Failure? <==> Segments(url) == ["proxy"]
    ensures r.Success? ==> r.value.headers == Forwarded(clientHeaders) && !r.value.proxyTls && !(r.value.proxy && r.value.api)
    ensures r.Success? && !r.value.proxy ==> r.value.port == Int(80) && r.value.path == "/" && r.value.httpMethod == "GET"
  {
    var segs := Segments(url);
    var defaults := Defaults(Forwarded(clientHeaders));
    if segs != [] && segs[0] == "proxy" then
      if |segs| == 1 then Failure(MissingHostSegment)
      else
        var host := segs[1];
        Success(defaults.(
          proxy := true,
          hostname := Some(Before(host, ':')),
          port := if ':' in host then ParseInt(After(host, ':')) else Int(80),
          path := "/" + Join(segs[2..], '/'),
          httpMethod := clientMethod))
    else if segs != [] && segs[0] == "api" then
      Success(defaults.(api := true, resourceType := At(segs, 1), resource := At(segs, 2), subresource := At(segs, 3)))
    else
      Success(defaults)
  }

  /** A segment of a split on `/` never starts with `https://` or `http://`, so
      the code's scheme tests on the host segment never succeed. */
  lemma SchemeTestsNeverFire(segment: string)
    requires '/' !in segment
    ensures !StartsWith(segment, "https://") && !StartsWith(segment, "http://")
  {
    if |segment| >= 7 {
      assert segment[..7][6] == segment[6];
    }
  }

  /** The port the code reads, parseInt of the second piece of the host segment
      split on `:`, is parseInt of all the text after the first `:`. */
  lemma PortOfHostSegment(host: string)
    ensures |Split(host, ':')| > 1 <==> ':' in host
    ensures ':' in host ==> ParseInt(Split(host, ':')[1]) == ParseInt(After(host, ':'))
    ensures Split(host, ':')[0] == Before(host, ':')
  {
    SplitAtFirst(host, ':');
    BeforeIsFirstPiece(host, ':');
    if ':' in host {
      BeforeIsFirstPiece(After(host, ':'), ':');
      ParseIntBeforeColon(After(host, ':'));
    }
  }

  /** getOptions: starts from the defaults, splits the path and updates the
      options field by field as the first segment dictates. The check for an
      empty split (app.js:134) is left out: a split always has a piece. */
  method GetOptions(url: string, clientMethod: string, clientHeaders: seq<Header>)
    returns (r: Result<Options, ClassifyError>)
    requires DistinctNames(clientHeaders)
    ensures r == Classify(url, clientMethod, clientHeaders)
  {
    var headers := SetOutgoingHeaders(clientHeaders);
    var options := Options(Int(80), "/", "GET", headers, false, false, None, false, None, None, None);
    var seps := Split(url, '/');
    if seps[0] == "" {
      seps := if |seps| > 1 then seps[1..] else [];
    }
    ghost var segs := seps;
    assert segs == Segments(url);
    assert forall i :: 0 <= i < |segs| ==> '/' !in segs[i];
    var tag := if |seps| > 0 then Some(seps[0]) else None;
    seps := if |seps| > 1 then seps[1..] else [];
    assert seps == if segs == [] then [] else segs[1..];
    if tag == Some("proxy") {
      options := options.(proxy := true);
      if |seps| == 0 {
        return Failure(MissingHostSegment);
      }
      var host := seps[0];
      SchemeTestsNeverFire(host);
      if StartsWith(host, "https://") {
        options := options.(proxyTls := true);
        host := Substring(host, 8);
      } else if StartsWith(host, "http://") {
        host := Substring(host, 7);
      }
      var hostname := Split(host, ':');
      PortOfHostSegment(host);
      options := options.(hostname := Some(hostname[0]));
      if |hostname| > 1 {
        options := options.(port := ParseInt(hostname[1]));
      }
      if |seps| > 1 {
        options := options.(path := options.path + Join(seps[1..], '/'));
      }
      assert seps[1..] == segs[2..];
      assert options.path == "/" + Join(segs[2..], '/');
      options := options.(httpMethod := clientMethod);
      return Success(options);
    } else if tag == Some("api") {
      options := options.(api := true);
      options := options.(resourceType := if |seps| > 0 then Some(seps[0]) else None);
      options := options.(resource := if |seps| > 1 then Some(seps[1]) else None);
      options := options.(subresource := if |seps| > 2 then Some(seps[2]) else None);
      return Success(options);
    } else {
      return Success(options);
    }
  }

  // ---------------------------------------------------------------------------
  // What a request path turns into
  // ---------------------------------------------------------------------------

  lemma SegmentsOfRooted(first: string, rest: string)
    requires '/' !in first
    ensures Segments("/" + first + "/" + rest) == [first] + Split(rest, '/')
  {
    var url := "/" + first + "/" + rest;
    assert url == [] + ['/'] + (first + ['/'] + rest);
    SplitAfterPiece([], '/', first + ['/'] + rest);
    SplitAfterPiece(first, '/', rest);
  }

  /** A proxy path's segments after the host determine the forwarded path.
      This unfolds Classify once, for the request lemmas below, so that each of
      them only has to establish the segments of its own path. */
  lemma ClassifyProxy(url: string, host: string, tail: seq<string>, clientMethod: string, clientHeaders: seq<Header>)
    requires Segments(url) == ["proxy", host] + tail
    ensures Classify(url, clientMethod, clientHeaders)
         == Success(Defaults(Forwarded(clientHeaders)).(
              proxy := true,
              hostname := Some(Before(host, ':')),
              port := if ':' in host then ParseInt(After(host, ':')) else Int(80),
              path := "/" + Join(tail, '/'),
              httpMethod := clientMethod))
  {
    assert Segments(url)[2..] == tail;
  }

  lemma SegmentsOfTwo(first: string, second: string, rest: string)
    requires '/' !in first && '/' !in second
    ensures Segments("/" + first + "/" + second + "/" + rest) == [first, second] + Split(rest, '/')
  {
    var tail := second + "/" + rest;
    calc {
      "/" + first + "/" + second + "/" + rest;
      ("/" + first + "/") + (second + "/" + rest);
    }
    SegmentsOfRooted(first, tail);
    SplitAfterPiece(second, '/', rest);
    assert tail == second + ['/'] + rest;
  }

  /** The segments of `/proxy/H/rest` */
  lemma ProxySegments(host: string, rest: string)
    requires '/' !in host
    ensures Segments("/proxy/" + host + "/" + rest) == ["proxy", host] + Split(rest, '/')
  {
    assert "/" + "proxy" + "/" == "/proxy/";
    SegmentsOfTwo("proxy", host, rest);
  }

  /** `/proxy/H/rest` targets the host and port named by H, forwards `/rest`
      literally (`..` segments included) with the client's method, and never
      asks for TLS. */
  lemma ProxyRequest(host: string, rest: string, clientMethod: string, clientHeaders: seq<Header>)
    requires '/' !in host
    ensures Classify("/proxy/" + host + "/" + rest, clientMethod, clientHeaders)
         == Success(Defaults(Forwarded(clientHeaders)).(
              proxy := true,
              hostname := Some(Before(host, ':')),
              port := if ':' in host then ParseInt(After(host, ':')) else Int(80),
              path := "/" + rest,
              httpMethod := clientMethod))
  {
    ProxySegments(host, rest);
    ClassifyProxy("/proxy/" + host + "/" + rest, host, Split(rest, '/'), clientMethod, clientHeaders);
  }

  /** The segments of `/proxy/H` */
  lemma ProxySegmentsWithoutPath(host: string)
    requires '/' !in host
    ensures Segments("/proxy/" + host) == ["proxy", host]
  {
    var url := "/proxy/" + host;
    assert url == "/" + "proxy" + "/" + host;
    SegmentsOfRooted("proxy", host);
    SplitWithoutSeparator(host, '/');
  }

  /** `/proxy/H` alone targets H with the path `/`. */
  lemma ProxyRequestWithoutPath(host: string, clientMethod: string, clientHeaders: seq<Header>)
    requires '/' !in host
    ensures Classify("/proxy/" + host, clientMethod, clientHeaders)
         == Success(Defaults(Forwarded(clientHeaders)).(
              proxy := true,
              hostname := Some(Before(host, ':')),
              port := if ':' in host then ParseInt(After(host, ':')) else Int(80),
              httpMethod := clientMethod))
  {
    ProxySegmentsWithoutPath(host);
    assert ["proxy", host] == ["proxy", host] + [];
    ClassifyProxy("/proxy/" + host, host, [], clientMethod, clientHeaders);
    assert "/" + Join([], '/') == "/";
  }

  /** `/proxy` with no host segment is the request the code fails on. */
  lemma ProxyRequestWithoutHost(clientMethod: string, clientHeaders: seq<Header>)
    ensures Classify("/proxy", clientMethod, clientHeaders) == Failure(MissingHostSegment)
  {
    assert "/proxy" == [] + ['/'] + "proxy";
    SplitAfterPiece([], '/', "proxy");
    SplitWithoutSeparator("proxy", '/');
  }

  /** The segments of `/proxy/http://rest`: the host segment is the scheme and
      its colon, followed by an empty segment. */
  lemma SchemeSegments(scheme: string, rest: string)
    requires scheme == "http" || scheme == "https"
    ensures Segments("/proxy/" + scheme + "://" + rest) == ["proxy", scheme + ":"] + ([""] + Split(rest, '/'))
  {
    assert "/proxy/" + scheme + "://" + rest == "/proxy/" + (scheme + ":") + "/" + ("" + "/" + rest);
    ProxySegments(scheme + ":", "" + "/" + rest);
    SplitAfterPiece("", '/', rest);
  }

  /** The host segment `http:` names the host `http` and an empty port. */
  lemma SchemeHost(scheme: string)
    requires scheme == "http" || scheme == "https"
    ensures ':' in scheme + ":"
    ensures Before(scheme + ":", ':') == scheme && After(scheme + ":", ':') == ""
  {
    CutAtFirst(scheme, ':', "");
    assert scheme + ":" == scheme + [':'] + "";
    assert (scheme + ":")[|scheme|] == ':';
  }

  /** An empty segment in front of the path adds a second `/`. */
  lemma PathAfterEmptySegment(rest: string)
    ensures "/" + Join([""] + Split(rest, '/'), '/') == "//" + rest
  {
    var tail := [""] + Split(rest, '/');
    assert tail[1..] == Split(rest, '/');
    assert Join(tail, '/') == "" + ['/'] + rest;
  }

  /** A scheme written into the proxy path is not stripped: `/proxy/http://H/p`
      targets the host `http` with port NaN and forwards the path `//H/p`. */
  lemma SchemeInProxyPath(scheme: string, rest: string, clientMethod: string, clientHeaders: seq<Header>)
    requires scheme == "http" || scheme == "https"
    ensures Classify("/proxy/" + scheme + "://" + rest, clientMethod, clientHeaders)
         == Success(Defaults(Forwarded(clientHeaders)).(
              proxy := true,
              hostname := Some(scheme),
              port := NaN,
              path := "//" + rest,
              httpMethod := clientMethod))
  {
    SchemeSegments(scheme, rest);
    ClassifyProxy("/proxy/" + scheme + "://" + rest, scheme + ":", [""] + Split(rest, '/'), clientMethod, clientHeaders);
    SchemeHost(scheme);
    assert ParseInt("") == NaN;
    PathAfterEmptySegment(rest);
  }

  /** `/api/T/R[/S]` is an API request for resource type T, resource R and
      subresource S, or no subresource. */
  lemma ApiRequest(resourceType: string, resource: string, subresource: Option<string>,
                   clientMethod: string, clientHeaders: seq<Header>)
    requires '/' !in resourceType && '/' !in resource
    requires subresource.Some? ==> '/' !in subresource.value
    ensures Classify("/api/" + resourceType + "/" + resource
                     + (if subresource.Some? then "/" + subresource.value else ""),
                     clientMethod, clientHeaders)
         == Success(Defaults(Forwarded(clientHeaders)).(
              api := true,
              resourceType := Some(resourceType),
              resource := Some(resource),
              subresource := subresource))
  {
    var tail := if subresource.Some? then "/" + subresource.value else "";
    var url := "/api/" + resourceType + "/" + resource + tail;
    assert url == "/" + "api" + "/" + (resourceType + "/" + (resource + tail));
    SegmentsOfRooted("api", resourceType + "/" + (resource + tail));
    SplitAfterPiece(resourceType, '/', resource + tail);
    if subresource.Some? {
      assert resource + tail == resource + "/" + subresource.value;
      SplitAfterPiece(resource, '/', subresource.value);
      SplitWithoutSeparator(subresource.value, '/');
    } else {
      assert resource + tail == resource;
      SplitWithoutSeparator(resource, '/');
    }
  }

  /** Only one leading empty segment is dropped: a path starting with `//` has
      the empty tag and is a static request, whatever follows. */
  lemma DoubleSlashIsStatic(rest: string, clientMethod: string, clientHeaders: seq<Header>)
    ensures Classify("//" + rest, clientMethod, clientHeaders) == Success(Defaults(Forwarded(clientHeaders)))
  {
    assert "//" + rest == [] + ['/'] + ([] + ['/'] + rest);
    SplitAfterPiece([], '/', [] + ['/'] + rest);
    SplitAfterPiece([], '/', rest);
  }

  /** Any first segment other than proxy and api, and other than the empty one
      a path starting with `//` leaves, is a static request with the defaults. */
  lemma StaticRequest(tag: string, rest: string, clientMethod: string, clientHeaders: seq<Header>)
    requires '/' !in tag && tag != "proxy" && tag != "api" && tag != ""
    ensures Classify("/" + tag + "/" + rest, clientMethod, clientHeaders) == Success(Defaults(Forwarded(clientHeaders)))
  {
    SegmentsOfRooted(tag, rest);
  }
}
