# camserver gateway: request and response transformations

camserver's `app.js` is a Node.js HTTPS gateway on port 3000. It proxies web
pages for a camera front-end, serves the JSON API of its cameras and serves
static files. This project models the part of it that transforms requests and
responses, and proves properties about that model:

- **Headers** (`headers.dfy`): `getPropertyNoCase`, `setOutgoingHeaders` and
  `setIncomingHeaders`. A header object is a sequence of (name, value) entries
  in insertion order, which is the order `for...in` visits. Its names are
  distinct. `obj[k] = v` is `Put`: an existing entry is updated in place, and a
  new name is appended. The three operations are loops, proved against the
  functions `FindNoCase`, `Forwarded` and `Incoming`.
- **Request classification** (`classifier.dfy`): `getOptions`, as a method
  that updates the options record field by field like the code does. It is
  proved equal to the declarative `Classify`. The path's first segment picks
  one of three kinds of request:
  - proxy: host, port, path and method;
  - API: resource type, resource and subresource;
  - static: the defaults.
- **Response handling** (`proxy_response.dfy`): what `handleProxyResponse`
  decides. That is the delivery plan (buffer and rewrite HTML, or stream),
  whether to unzip first, the compression, and the headers sent to the client.
- **URL rewriting** (`rewriter.dfy`): `rewriteUrl`'s three global,
  case-insensitive regular-expression replacements, each modelled as a
  left-to-right scanner.
- **Static content types** (`static_files.dfy`): the extension table of
  `sendFile`.
- **Helpers** (`js.dfy`, `wrappers.dfy`): the JavaScript built-ins the code
  relies on, with JavaScript's edge cases:
  - `split` never returns an empty list;
  - `substring` clamps its start;
  - `parseInt` skips leading white space, reads a sign, a `0x` prefix and the
    longest run of digits, and gives `NaN` when there are none;
  - `toLowerCase` covers ASCII letters only.

The code tests the host segment of a proxied path for an `https://` or
`http://` prefix (app.js:142-147), evidently to accept URLs such as
`/proxy/http://host:port/path`. It splits the path on `/` before those tests,
so a segment can never contain `//` and the tests never succeed. Such a request
targets the host `http` with port `NaN` and the path `//host:port/path`. The
model follows the code, and `Classifier.SchemeTestsNeverFire` and
`Classifier.SchemeInProxyPath` prove both facts.

## Model

| member | source | states |
|---|---|---|
| Js.Split | app.js:133 | `split` (with `Js.Join` its inverse) never returns an empty list, no piece holds the separator, and joining the pieces with it gives back the text |
| Js.SplitAtFirst | app.js:148 | splitting a text is the text before the first separator followed by the split of the rest; without a separator it is the text alone |
| Js.CutsAtFirst | app.js:148 | a text holding the separator is the text before its first occurrence, the separator, and the text after it |
| Js.ParseInt | app.js:151 | `parseInt` of blank text is NaN, and a negative result needs a leading `-` after the white space |
| Js.ParseIntOfDecimal | app.js:151 | `parseInt` reads back the decimal numeral of every natural number |
| Js.ParseIntStopsAt | app.js:151 | `parseInt` ignores everything after the first character that cannot continue a numeral |
| Js.ParseIntBeforeColon | app.js:148-151 | `parseInt` of the text before the first `:` equals `parseInt` of the whole text |
| Headers.Put | app.js:42 | assignment to an object key: the key now maps to the value, other keys are untouched, distinct names stay distinct, and a new key is appended at the end |
| Headers.PutKeepsPlace | app.js:42 | assigning to an existing key changes only that entry's value: every entry keeps its position, so the order `for...in` and the case-insensitive lookup see is unchanged |
| Headers.LookupIsEntry | app.js:42 | with distinct names, reading a key gives v exactly when (key, v) is an entry |
| Headers.FindNoCase | app.js:24-30 | a value found ignoring case belongs to an entry whose name matches ignoring case |
| Headers.FindNoCaseIsFirstMatch | app.js:24-30 | the case-insensitive lookup gives the value of the first entry whose name matches ignoring case, and nothing exactly when no name matches |
| Headers.GetPropertyNoCase | app.js:24-30 | the early-return loop returns the first case-insensitive match, or null |
| Headers.FilterMembers | app.js:34-45 | an entry is in a filter's result exactly when it is in the input and its lower-cased name passes the allow or deny list |
| Headers.FilterDistinct | app.js:33-45 | a filter of a header object with distinct names has distinct names |
| Headers.FilterKeepsAll | app.js:52-61 | a filter that selects every entry returns its input unchanged |
| Headers.FilterIdempotent | app.js:52-61 | filtering a filter's output again changes nothing |
| Headers.FilterLookup | app.js:34-45 | after a filter, a name whose lower-cased form passes keeps its value, and any other name is absent |
| Headers.PutTwice | app.js:46 | setting the same key to the same value twice is the same as setting it once |
| Headers.NextNameIsNew | app.js:52-58 | the key being copied is not yet in the fresh object, so copying it appends a new entry |
| Headers.Forwarded | app.js:50-63 | only client entries whose lower-cased name is accept-encoding, conkie or user-agent go upstream |
| Headers.SetOutgoingHeaders | app.js:50-63 | the loop builds exactly the filtered object: the client's entries named accept-encoding, conkie or user-agent, in any case, in order |
| Headers.ForwardedExactly | app.js:50-63 | an entry goes upstream exactly when it is a client entry whose lower-cased name is accept-encoding, conkie or user-agent, with its original name and value; names stay distinct |
| Headers.ForwardedIdempotent | app.js:50-63 | applying setOutgoingHeaders to its own output changes nothing |
| Headers.Incoming | app.js:32-48 | the client headers map access-control-allow-origin to `*`, and every other entry is an upstream entry whose lower-cased name is not recomputed |
| Headers.SetIncomingHeaders | app.js:32-48 | the loop copies every upstream entry except content-encoding, content-length and transfer-encoding (in any case), then sets access-control-allow-origin to `*` |
| Headers.IncomingSanitized | app.js:32-48 | the client sees access-control-allow-origin `*`; every other name keeps its upstream value unless its lower-cased form is one of the three recomputed names, which are absent; names stay distinct |
| Headers.IncomingIdempotent | app.js:32-48 | sanitizing already sanitized headers changes nothing |
| Classifier.Classify | app.js:126-180 | over `Classifier.Segments` (the split path minus its leading empty segment, app.js:133-137), the only failure is a proxy path with no host segment; every request carries the forwarded client headers, never sets proxyTls and is never both proxy and API; API and static requests keep port 80, path `/` and GET |
| Classifier.SchemeTestsNeverFire | app.js:142-147 | a segment produced by splitting on `/` never starts with `https://` or `http://`, so proxyTls is never set |
| Classifier.PortOfHostSegment | app.js:148-151 | the host segment has a second `:`-piece exactly when it contains `:`; its first piece is the text before the first `:`; parseInt of the second piece is parseInt of everything after the first `:` |
| Classifier.GetOptions | app.js:126-180 | the step-by-step classifier returns exactly `Classify`: proxy options, API options, the defaults, or an error for a proxy path with no host segment |
| Classifier.SegmentsOfRooted | app.js:133-139 | for `/first/rest`, only the leading empty segment is dropped: the segments are first followed by the split of rest |
| Classifier.ProxySegments | app.js:133-139 | `/proxy/H/rest`, with no `/` in H, splits into proxy, H and the split of rest |
| Classifier.SchemeSegments | app.js:133-139 | `/proxy/http://rest` splits into proxy, `http:`, an empty segment and the split of rest |
| Classifier.ProxyRequest | app.js:140-155 | `/proxy/H/rest` (host and port read with `Js.Split`, `Js.Substring` and `Js.ParseInt`) targets H's host and port with the path `/rest` and the client's method; proxyTls stays false |
| Classifier.ProxyRequestWithoutPath | app.js:152-153 | `/proxy/H` keeps the path `/` |
| Classifier.ProxyRequestWithoutHost | app.js:140-142 | `/proxy` has no host segment, and the code fails on it |
| Classifier.SchemeInProxyPath | app.js:133-151 | `/proxy/http://H/p` targets the host `http` with port NaN and forwards the path `//H/p` |
| Classifier.ApiRequest | app.js:157-161 | `/api/T/R[/S]` sets api with resource type T, resource R and subresource S, or null without S |
| Classifier.DoubleSlashIsStatic | app.js:133-179 | only one leading empty segment is dropped: a path starting with `//` is a static request with the defaults (port 80, path `/`, GET) |
| Classifier.StaticRequest | app.js:133-179 | any other non-empty first segment than proxy and api gives a static request with the defaults |
| ProxyResponse.ChoosePlan | app.js:74-120 | the client is only ever told gzip, deflate or nothing; a compressing transform comes with its own coding in the header; only buffered HTML is unzipped first |
| ProxyResponse.HtmlIsBuffered | app.js:74-78 | the body is buffered and rewritten exactly when the content type starts with text/html, and it is unzipped first exactly when it is HTML and its coding is gzip or deflate |
| ProxyResponse.OutboundCompression | app.js:88-118 | `ProxyResponse.Negotiate` (app.js:89-96 and 110-117, using `Js.Includes`): when the gateway compresses, it chooses gzip if accept-encoding contains `gzip`, else deflate if it contains `deflate`, else no compression and no content-encoding |
| ProxyResponse.CompressedPassesThrough | app.js:105-120 | a non-HTML body the upstream compressed with gzip or deflate is streamed unchanged and keeps that content-encoding, whatever the client accepts |
| ProxyResponse.HeaderDescribesBody | app.js:74-120 | for an upstream coding of none, identity, gzip or deflate, the content-encoding the client receives names exactly the codings on the body it gets, and there is at most one |
| ProxyResponse.UnknownCodingMislabelled | app.js:105-120 | for a non-HTML body the upstream sent as `br` and a client accepting gzip, the body carries br then gzip, but the client is told only gzip |
| ProxyResponse.GzipForBrowsers | app.js:89-92 | a browser sending `gzip, deflate` gets an uncompressed HTML page rewritten and gzip-compressed |
| ProxyResponse.HandleProxyResponse | app.js:65-124 | the plan (content type tested with `Js.StartsWith`) follows the accept-encoding, content-encoding and content-type headers, each looked up ignoring case and lower-cased; the client is sent the sanitized upstream headers plus the content-encoding of the plan |
| ProxyResponse.ClientHeadersSanitized | app.js:32-121 | the client headers have distinct names, content-encoding exactly the chosen coding, allow-origin `*`, and every other upstream header except content-length and transfer-encoding |
| Rewriter.MatchAt | app.js:16-18 | a match starts and ends with a quote and lies inside the text |
| Rewriter.ReplaceAll | app.js:16-18 | the global replace leaves text without quotes unchanged; after a match it resumes right behind it (`Rewriter.MatchThenResume` names that step for `Rewriter.PlainThenMatch`), and a first character that starts no match is copied |
| Rewriter.RewriteUrl | app.js:13-22 | a page without `'` or `"` comes back unchanged from all three replacements |
| Rewriter.CloseIndexIsLazy | app.js:16-18 | the lazy `.*?` before the closing quote stops at the first quote, and finds none when a line terminator comes first |
| Rewriter.Opener | app.js:16-18 | each rule's fixed prefix after the opening quote ends inside the text and holds no line terminator |
| Rewriter.PlainTextUnchanged | app.js:15-18 | text without quotes is copied unchanged by every rule, whatever follows it |
| Rewriter.CloseAfter | app.js:16-18 | for a literal with no quote and no line terminator, the match ends at the quote after it |
| Rewriter.QuotedLiteralUnchanged | app.js:16-18 | in a page whose text around it holds no quotes, a quoted literal without inner quotes whose opening quote starts no match is copied unchanged, and so is the whole page |
| Rewriter.NoMatchBeforePlain | app.js:16-18 | a quote followed only by text without quotes starts no match of any rule, since nothing can close it |
| Rewriter.PlainThenMatch | app.js:16-18 | text without quotes, then a match: the text is copied, the match replaced with `Rewriter.Replacement` of its capture, and the rest replaced on its own |
| Rewriter.ProxiedIsStable | app.js:16-18 | a gateway URL produced by a rule opens with `"h`, so the protocol-relative and root-relative rules never rewrite it again, in a page whose text around it holds no quotes |
| Rewriter.GatewayUrlIsPlain | app.js:14-18 | the gateway URL prefix starts with `h` and holds no quote, so no rule can open or close a match inside it |
| Rewriter.AbsoluteUrlMatch | app.js:16 | rule 1 matches `"http(s)://t"`, with `http` and `s` in any case and any quote characters, and captures t, whatever follows the literal |
| Rewriter.ProtocolRelativeMatch | app.js:16-17 | `"//t"` is not matched by rule 1; rule 2 matches it and captures t, whatever follows the literal |
| Rewriter.RootRelativeMatch | app.js:16-18 | `"/ct"` with c a letter or digit is not matched by rules 1 and 2; rule 3 matches it and captures ct, whatever follows the literal |
| Rewriter.LiteralMatch | app.js:16-18 | once a rule's prefix opens a single-line literal, the match runs to the closing quote and captures the rest of the prefix and the literal, whatever follows |
| Rewriter.AbsoluteUrlPass | app.js:16 | the first replacement copies quote-free text, turns the `"http(s)://t"` after it into the gateway URL for t and goes on with whatever follows |
| Rewriter.ProtocolRelativePass | app.js:17 | the second replacement copies quote-free text, turns the `"//t"` after it into the gateway URL for t and goes on with whatever follows |
| Rewriter.RootRelativePass | app.js:18 | the third replacement copies quote-free text, turns the `"/ct"` after it into the gateway URL for hostname/ct and goes on with whatever follows |
| Rewriter.AbsoluteUrlRewritten | app.js:13-22 | in a page whose text around it holds no quotes, `"http(s)://t"` becomes `"<proto>localhost:3000/proxy/t"` (`Rewriter.Protocol` gives `https://` exactly when the client's connection is TLS) and the text around it is kept |
| Rewriter.ProtocolRelativeRewritten | app.js:13-22 | in a page whose text around it holds no quotes, `"//t"` becomes `"<proto>localhost:3000/proxy/t"` and the text around it is kept |
| Rewriter.RootRelativeRewritten | app.js:13-22 | in a page whose text around it holds no quotes, `"/ct"` becomes `"<proto>localhost:3000/proxy/<hostname>/ct"` and the text around it is kept |
| Rewriter.NoCloseAcrossLine | app.js:16-18 | a line terminator before any quote leaves the lazy `.*?` no place to stop |
| Rewriter.MultiLineNoMatch | app.js:16-18 | no rule matches a quoted literal with a line terminator inside, whatever follows it |
| Rewriter.MultiLineLiteralUnchanged | app.js:16-18 | a literal with a line terminator inside is never matched: in a page whose text around it holds no quotes, the page is copied unchanged |
| StaticFiles.ContentType | app.js:184-211 | the listed type for the fourteen listed extensions; text/plain exactly for every other extension |
| StaticFiles.HtmlOnlyForHtmlFiles | app.js:186-211 | a static file is served as text/html exactly when its extension is `.html`, with that exact case |
| StaticFiles.ContentTypeIsKnown | app.js:184-211 | every file is served with one of the listed types or text/plain |

## Left out

- Network and stream plumbing is not modelled (app.js:258-338): `http.request` and `https.request`, `pipe`, the `data`/`end`/`error` events, `writeHead`, the server bootstrap and its TLS fallback. `HandleProxyResponse` returns the plan and headers that the code wires into streams. The status code the code passes through is not modelled.
- The zlib compressors and decompressors are foreign code. The model only names the transform it picks and, in `DeliveredCodings`, the coding it adds or removes.
- `buffer.toString('utf-8')` (app.js:15) is left out. The rewriter works on strings of characters, and the buffering of chunks (app.js:81-86) is not modelled.
- Reading the API body and `JSON.parse` (app.js:162-176) are stream I/O plus a library parser. The model returns the options without a `body`.
- Static file serving, apart from the content-type table, is left out: file-system access, Node's `path.parse`, `path.join` and `path.relative` (including the traversal check at app.js:219-224), and the DASH manifest lookup. Those are library and I/O code.
- The camera handlers (`camera-escamg02.js`) are not part of this model.
- Logging and the random `objectId` (app.js:66-69) are left out.
- Js.Lower: `toLowerCase` is modelled for ASCII letters only. Full Unicode lower-casing (for instance of U+212A KELVIN SIGN to `k`) is not modelled.
- Header objects keep keys in insertion order. JavaScript lists integer-like keys first in numeric order, and that ordering is not modelled; header names are not integers in practice.
- `Js.ParseInt` gives an unbounded integer. Floating-point rounding of very long numerals and the value `-0` are not modelled.
- Rewriter.RewriteUrl: requires the hostname to contain no `$`. In JavaScript, a `$` in the replacement string starts a substitution pattern (`$$`, `$&`, `` $` ``, `$'`, `$n`), and those are not modelled.
- ProxyResponse.HeaderDescribesBody: holds only for an upstream content-encoding of none, `identity`, `gzip` or `deflate`. For any other coding, such as `br`, the code drops the upstream header and may compress the body again. The client is then told about at most the outer coding. `ProxyResponse.UnknownCodingMislabelled` shows it for `br`.
- Classifier.GetOptions: the test for an empty split (app.js:134-135) is not modelled as a branch. `split` always returns at least one piece (`Js.Split` proves it), so that branch can never run.
- Classifier.GetOptions: the callback style of `getOptions` is replaced by a returned `Result`. `MissingHostSegment` stands for the TypeError that `seps[0].startsWith` throws on a proxy path with no host segment (app.js:142). The code throws it inside the request listener (app.js:277-278), where nothing catches it, so a single `GET /proxy` ends the gateway process; the model returns an error value instead and does not model the crash.
