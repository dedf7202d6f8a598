/** The decisions inside handleProxyResponse (app.js:65-124): which way the
    upstream body travels to the client, which compression it gets, and which
    headers the client is sent. A Plan names what the code wires together; the
    streams, the zlib transforms themselves and the stream events are not part
    of this model. */
module ProxyResponse {
  import opened Wrappers
  import opened Js
  import opened Headers

  /** HTML is gathered in full and rewritten; anything else is piped through. */
  datatype Strategy = BufferAndRewrite | Stream

  /** The last stream the client-bound body passes through. */
  datatype Transform = Gzip | Deflate | PassThrough

  /** How one upstream response is delivered: the strategy, whether the body is
      unzipped before it is buffered, the outbound transform and the
      content-encoding header added for the client, if any. */
  datatype Plan = Plan(strategy: Strategy, unzipFirst: bool, transform: Transform, contentEncoding: Option<string>)

  /** The codings zlib's unzip stream removes. */
  predicate IsZlibCoding(coding: string) {
    coding == "gzip" || coding == "deflate"
  }

  /** The compression chosen for the client from its lower-cased accept-encoding
      value, by a plain substring test: gzip first, then deflate. */
  function Negotiate(acceptEncoding: string): (Transform, Option<string>) {
    if Includes(acceptEncoding, "gzip") then (Gzip, Some("gzip"))
    else if Includes(acceptEncoding, "deflate") then (Deflate, Some("deflate"))
    else (PassThrough, None)
  }

  /** The plan for the client's lower-cased accept-encoding and the upstream's
      lower-cased content-encoding and content-type. */
  function ChoosePlan(acceptEncoding: string, upstreamEncoding: string, contentType: string): (r: Plan)
    ensures r.contentEncoding == None || r.contentEncoding == Some("gzip") || r.contentEncoding == Some("deflate")
    ensures r.transform != PassThrough ==> r.contentEncoding == Some(if r.transform == Gzip then "gzip" else "deflate")
    ensures r.unzipFirst ==> r.strategy == BufferAndRewrite
  {
    if StartsWith(contentType, "text/html") then
      var (transform, coding) := Negotiate(acceptEncoding);
      Plan(BufferAndRewrite, IsZlibCoding(upstreamEncoding), transform, coding)
    else if !IsZlibCoding(upstreamEncoding) then
      var (transform, coding) := Negotiate(acceptEncoding);
      Plan(Stream, false, transform, coding)
    else
      Plan(Stream, false, PassThrough, if |upstreamEncoding| > 0 then Some(upstreamEncoding) else None)
  }

  /** A content-type starting with text/html takes the buffer-and-rewrite path,
      anything else is streamed; the body is unzipped first exactly when it is
      HTML and its upstream coding is gzip or deflate. */
  lemma HtmlIsBuffered(acceptEncoding: string, upstreamEncoding: string, contentType: string)
    ensures var plan := ChoosePlan(acceptEncoding, upstreamEncoding, contentType);
            && (plan.strategy == BufferAndRewrite <==> StartsWith(contentType, "text/html"))
            && (plan.unzipFirst <==> StartsWith(contentType, "text/html") && IsZlibCoding(upstreamEncoding))
  {
  }

  /** Whenever the gateway compresses (HTML, or a body the upstream did not
      compress with gzip or deflate), it prefers gzip, then deflate, then sends
      the body as it is with no content-encoding. */
  lemma OutboundCompression(acceptEncoding: string, upstreamEncoding: string, contentType: string)
    requires StartsWith(contentType, "text/html") || !IsZlibCoding(upstreamEncoding)
    ensures var plan := ChoosePlan(acceptEncoding, upstreamEncoding, contentType);
            && (Includes(acceptEncoding, "gzip") ==> plan.transform == Gzip && plan.contentEncoding == Some("gzip"))
            && (!Includes(acceptEncoding, "gzip") && Includes(acceptEncoding, "deflate") ==>
                  plan.transform == Deflate && plan.contentEncoding == Some("deflate"))
            && (!Includes(acceptEncoding, "gzip") && !Includes(acceptEncoding, "deflate") ==>
                  plan.transform == PassThrough && plan.contentEncoding == None)
  {
  }

  /** A non-HTML body the upstream compressed with gzip or deflate is passed
      through untouched and keeps its content-encoding, whatever the client
      accepts. */
  lemma CompressedPassesThrough(acceptEncoding: string, upstreamEncoding: string, contentType: string)
    requires !StartsWith(contentType, "text/html") && IsZlibCoding(upstreamEncoding)
    ensures ChoosePlan(acceptEncoding, upstreamEncoding, contentType)
         == Plan(Stream, false, PassThrough, Some(upstreamEncoding))
  {
  }

  // ---------------------------------------------------------------------------
  // The content-encoding header against the body's codings
  // ---------------------------------------------------------------------------

  /** The codings the upstream body carries, given its content-encoding. */
  function UpstreamCodings(upstreamEncoding: string): seq<string> {
    if upstreamEncoding == "" || upstreamEncoding == "identity" then [] else [upstreamEncoding]
  }

  function TransformCodings(transform: Transform): seq<string> {
    match transform
    case Gzip => ["gzip"]
    case Deflate => ["deflate"]
    case PassThrough => []
  }

  /** The codings on the body the client receives, in the order applied. */
  function DeliveredCodings(plan: Plan, upstreamEncoding: string): seq<string> {
    (if plan.unzipFirst then [] else UpstreamCodings(upstreamEncoding)) + TransformCodings(plan.transform)
  }

  /** The codings the client is told about. */
  function DeclaredCodings(plan: Plan): seq<string> {
    match plan.contentEncoding
    case None => []
    case Some(coding) => [coding]
  }

  /** For every upstream coding the code recognises, the content-encoding the
      client is sent names exactly the codings on the body it receives, and the
      body is never compressed twice. */
  lemma HeaderDescribesBody(acceptEncoding: string, upstreamEncoding: string, contentType: string)
    requires upstreamEncoding in {"", "identity", "gzip", "deflate"}
    ensures var plan := ChoosePlan(acceptEncoding, upstreamEncoding, contentType);
            && DeclaredCodings(plan) == DeliveredCodings(plan, upstreamEncoding)
            && |DeliveredCodings(plan, upstreamEncoding)| <= 1
  {
  }

  /** With an upstream coding the code does not recognise, such as `br`, a
      non-HTML body is compressed a second time and the client is told only
      about the outer coding. */
  lemma UnknownCodingMislabelled()
    ensures var plan := ChoosePlan("gzip", "br", "image/png");
            && DeliveredCodings(plan, "br") == ["br", "gzip"]
            && DeclaredCodings(plan) == ["gzip"]
  {
    assert StartsWith("gzip", "gzip");
    assert "image/png"[..9][0] != "text/html"[0];
  }

  /** A browser that accepts `gzip, deflate` gets an uncompressed HTML page
      rewritten and gzip-compressed. */
  lemma GzipForBrowsers(contentType: string)
    requires StartsWith(contentType, "text/html")
    ensures ChoosePlan("gzip, deflate", "", contentType) == Plan(BufferAndRewrite, false, Gzip, Some("gzip"))
  {
    assert StartsWith("gzip, deflate", "gzip");
  }

  // ---------------------------------------------------------------------------
  // handleProxyResponse
  // ---------------------------------------------------------------------------

  /** The headers sent to the client: the sanitized upstream headers, with the
      chosen content-encoding added when there is one. */
  function ClientHeaders(upstreamHeaders: seq<Header>, coding: Option<string>): seq<Header> {
    match coding
    case None => Incoming(upstreamHeaders)
    case Some(c) => Put(Incoming(upstreamHeaders), "content-encoding", c)
  }

  /** The client is sent access-control-allow-origin `*`, exactly the chosen
      content-encoding, and every other upstream header except content-length
      and transfer-encoding, with distinct names. */
  lemma ClientHeadersSanitized(upstreamHeaders: seq<Header>, coding: Option<string>)
    requires DistinctNames(upstreamHeaders)
    ensures var h := ClientHeaders(upstreamHeaders, coding);
            && DistinctNames(h)
            && Lookup(h, "content-encoding") == coding
            && Lookup(h, AllowOrigin) == Some("*")
            && forall n :: n != AllowOrigin && n != "content-encoding" ==>
                 Lookup(h, n) == if Lower(n) in RecomputedNames then None else Lookup(upstreamHeaders, n)
  {
    IncomingSanitized(upstreamHeaders);
    assert Lower("content-encoding") == "content-encoding";
    var inc := Incoming(upstreamHeaders);
    assert Lookup(inc, "content-encoding") == None;
    match coding {
      case None =>
      case Some(c) =>
        forall n | n != AllowOrigin && n != "content-encoding"
          ensures Lookup(Put(inc, "content-encoding", c), n) == Lookup(inc, n)
        {
        }
    }
  }

  /** handleProxyResponse up to the point where the streams are wired: reads the
      three headers it needs ignoring case, sanitizes the upstream headers and
      adds the content-encoding of the transform it picks. */
  method HandleProxyResponse(clientHeaders: seq<Header>, upstreamHeaders: seq<Header>)
    returns (plan: Plan, responseHeaders: seq<Header>)
    requires DistinctNames(upstreamHeaders)
    ensures plan == ChoosePlan(Lower(FindNoCase(clientHeaders, "accept-encoding").GetOr("")),
                               Lower(FindNoCase(upstreamHeaders, "content-encoding").GetOr("")),
                               Lower(FindNoCase(upstreamHeaders, "content-type").GetOr("")))
    ensures responseHeaders == ClientHeaders(upstreamHeaders, plan.contentEncoding)
  {
    var acceptEncoding := GetPropertyNoCase(clientHeaders, "accept-encoding");
    var clientAcceptEncoding := Lower(acceptEncoding.GetOr(""));
    var responseEncoding := GetPropertyNoCase(upstreamHeaders, "content-encoding");
    var proxyResponseEncoding := Lower(responseEncoding.GetOr(""));
    var contentType := GetPropertyNoCase(upstreamHeaders, "content-type");
    var proxyResponseContentType := Lower(contentType.GetOr(""));
    var clientResponseHeaders := SetIncomingHeaders(upstreamHeaders);

    var strategy := Stream;
    var unzipFirst := false;
    var transform := PassThrough;
    var coding: Option<string> := None;
    if StartsWith(proxyResponseContentType, "text/html") {
      // HTML is unzipped, gathered and rewritten before it is compressed again
      strategy := BufferAndRewrite;
      unzipFirst := proxyResponseEncoding == "gzip" || proxyResponseEncoding == "deflate";
      if Includes(clientAcceptEncoding, "gzip") {
        transform, coding := Gzip, Some("gzip");
      } else if Includes(clientAcceptEncoding, "deflate") {
        transform, coding := Deflate, Some("deflate");
      }
    } else if proxyResponseEncoding != "gzip" && proxyResponseEncoding != "deflate" {
      // an uncompressed body is compressed as the client accepts
      if Includes(clientAcceptEncoding, "gzip") {
        transform, coding := Gzip, Some("gzip");
      } else if Includes(clientAcceptEncoding, "deflate") {
        transform, coding := Deflate, Some("deflate");
      }
    } else if |proxyResponseEncoding| > 0 {
      // a compressed body keeps its coding
      coding := Some(proxyResponseEncoding);
    }
    if coding.Some? {
      clientResponseHeaders := Put(clientResponseHeaders, "content-encoding", coding.value);
    }
    plan := Plan(strategy, unzipFirst, transform, coding);
    responseHeaders := clientResponseHeaders;
  }
}
