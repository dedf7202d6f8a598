/** rewriteUrl (app.js:13-22): three global, case-insensitive regular-expression
    replacements over the text of an HTML page, each pointing a quoted URL at
    the gateway's /proxy/ route. The regular expressions are modelled by what
    they match: an opening quote, a fixed opener, then the lazy `.*?`, which
    stops at the first quote and cannot cross a line terminator. */
module Rewriter {
  import opened Wrappers
  import opened Js

  /** The three replacement rules, applied in this order. */
  datatype Rule =
    | AbsoluteUrl       // ["']http(s|)://(.*?)["']  becomes  "<protocol>localhost:3000/proxy/$2"
    | ProtocolRelative  // ["']//(.*?)["']           becomes  "<protocol>localhost:3000/proxy/$1"
    | RootRelative      // ["']/([a-zA-Z0-9].*?)["'] becomes  "<protocol>localhost:3000/proxy/<hostname>/$1"

  predicate IsQuote(c: char) {
    c == '\'' || c == '"'
  }

  /** The characters the regular-expression `.` does not match */
  predicate IsLineTerminator(c: char) {
    c == '\n' || c == '\r' || c == '\U{2028}' || c == '\U{2029}'
  }

  predicate IsAlnum(c: char) {
    'a' <= c <= 'z' || 'A' <= c <= 'Z' || '0' <= c <= '9'
  }

  /** No quote in u */
  predicate Plain(u: string) {
    forall i :: 0 <= i < |u| ==> !IsQuote(u[i])
  }

  /** No line terminator among the first j characters of u */
  predicate OnOneLine(u: string, j: nat)
    requires j <= |u|
  {
    forall k :: 0 <= k < j ==> !IsLineTerminator(u[k])
  }

  // ---------------------------------------------------------------------------
  // Matching one rule at one position
  // ---------------------------------------------------------------------------

  /** t starts with the lower-case word p, ignoring the case of ASCII letters */
  predicate StartsWithNoCase(t: string, p: string) {
    |p| <= |t| && forall i :: 0 <= i < |p| ==> LowerChar(t[i]) == p[i]
  }

  /** The part of a rule's pattern between the opening quote and the lazy group,
      matched against the text t after the quote (letters ignoring ASCII case):
      where the captured text starts and where the lazy `.*?` starts. */
  function Opener(rule: Rule, t: string): (r: Option<(nat, nat)>)
    ensures r.Some? ==> r.value.0 <= r.value.1 <= |t|
    ensures r.Some? ==> forall k :: 0 <= k < r.value.1 ==> !IsLineTerminator(t[k])
  {
    match rule
    case AbsoluteUrl =>
      if StartsWithNoCase(t, "http") then
        var n := if |t| >= 5 && LowerChar(t[4]) == 's' then 5 else 4;
        if StartsWith(t[n..], "://") then
          SchemeOnOneLine(t, n);
          Some((n + 3, n + 3))
        else None
      else None
    case ProtocolRelative =>
      if StartsWith(t, "//") then Some((2, 2)) else None
    case RootRelative =>
      if |t| >= 2 && t[0] == '/' && IsAlnum(t[1]) then Some((1, 2)) else None
  }

  /** `http`, an optional `s` and `://` hold no line terminator. */
  lemma SchemeOnOneLine(t: string, n: nat)
    requires StartsWithNoCase(t, "http")
    requires n == 4 || (n == 5 && |t| >= 5 && LowerChar(t[4]) == 's')
    requires n <= |t| && StartsWith(t[n..], "://")
    ensures n + 3 <= |t| && OnOneLine(t, n + 3)
  {
    forall k | 0 <= k < n + 3 ensures !IsLineTerminator(t[k]) {
      if k < 4 {
        assert LowerChar(t[k]) == "http"[k];
      } else if k >= n {
        assert t[n..][..3][k - n] == t[k];
      }
    }
  }

  /** Where the lazy `.*?` followed by a quote stops in u: at the first quote,
      unless a line terminator comes before it. */
  function CloseIndex(u: string): (r: Option<nat>)
    ensures r.Some? ==> r.value < |u| && IsQuote(u[r.value])
    decreases |u|
  {
    if |u| == 0 || IsLineTerminator(u[0]) then None
    else if IsQuote(u[0]) then Some(0)
    else
      match CloseIndex(u[1..])
      case None => None
      case Some(j) => Some(j + 1)
  }

  /** CloseIndex finds the least position where a quote can end the match, and
      there is none when it says so. */
  lemma {:induction false} CloseIndexIsLazy(u: string)
    ensures CloseIndex(u).Some? ==>
              var j := CloseIndex(u).value;
              OnOneLine(u, j) && forall k :: 0 <= k < j ==> !IsQuote(u[k])
    ensures CloseIndex(u).None? ==>
              forall j :: 0 <= j < |u| && IsQuote(u[j]) ==> !OnOneLine(u, j)
    decreases |u|
  {
    if |u| == 0 {
    } else if IsLineTerminator(u[0]) {
      forall j | 0 <= j < |u| && IsQuote(u[j])
        ensures !OnOneLine(u, j)
      {
        assert j > 0;
        assert IsLineTerminator(u[0]);
      }
    } else if IsQuote(u[0]) {
    } else {
      CloseIndexIsLazy(u[1..]);
      if CloseIndex(u[1..]).None? {
        forall j | 0 <= j < |u| && IsQuote(u[j])
          ensures !OnOneLine(u, j)
        {
          assert j > 0 && IsQuote(u[1..][j - 1]);
          assert !OnOneLine(u[1..], j - 1);
          var k :| 0 <= k < j - 1 && IsLineTerminator(u[1..][k]);
          assert IsLineTerminator(u[k + 1]);
        }
      } else {
        var j := CloseIndex(u[1..]).value;
        forall k | 0 <= k < j + 1
          ensures !IsLineTerminator(u[k]) && !IsQuote(u[k])
        {
          if k > 0 {
            assert u[k] == u[1..][k - 1];
          }
        }
      }
    }
  }

  /** A match of rule in the text t that follows an opening quote: the captured
      text and the length of the rest of the match, closing quote included. */
  function MatchAfterQuote(rule: Rule, t: string): (m: Option<(string, nat)>)
    ensures m.Some? ==> 1 <= m.value.1 <= |t| && IsQuote(t[m.value.1 - 1])
  {
    match Opener(rule, t)
    case None => None
    case Some((captureStart, lazyStart)) =>
      match CloseIndex(t[lazyStart..])
      case None => None
      case Some(j) => Some((t[captureStart..lazyStart + j], lazyStart + j + 1))
  }

  /** A match of rule at the start of s: the captured text and the length of the
      whole match, quotes included. */
  function MatchAt(rule: Rule, s: string): (m: Option<(string, nat)>)
    ensures m.Some? ==> 2 <= m.value.1 <= |s| && IsQuote(s[0]) && IsQuote(s[m.value.1 - 1])
  {
    if |s| == 0 || !IsQuote(s[0]) then None
    else
      match MatchAfterQuote(rule, s[1..])
      case None => None
      case Some((captured, length)) => Some((captured, length + 1))
  }

  // ---------------------------------------------------------------------------
  // Global replacement
  // ---------------------------------------------------------------------------

  function Protocol(ssl: bool): string {
    if ssl then "https://" else "http://"
  }

  /** The gateway's /proxy/ route, on the client's protocol */
  function GatewayUrl(ssl: bool): string {
    Protocol(ssl) + "localhost:3000/proxy/"
  }

  /** body between the quotes q1 and q2 */
  function Quoted(q1: char, body: string, q2: char): string {
    [q1] + body + [q2]
  }

  lemma QuotedParts(q1: char, body: string, q2: char)
    ensures |Quoted(q1, body, q2)| == |body| + 2
    ensures Quoted(q1, body, q2)[0] == q1 && Quoted(q1, body, q2)[1..] == body + [q2]
  {
  }

  /** A double-quoted URL of the gateway's /proxy/ route for path. */
  function Proxied(ssl: bool, path: string): string {
    Quoted('"', GatewayUrl(ssl) + path, '"')
  }

  /** What a match of rule is replaced with, for the captured text. */
  function Replacement(rule: Rule, captured: string, ssl: bool, hostname: string): string {
    Proxied(ssl, if rule == RootRelative then hostname + "/" + captured else captured)
  }

  /** `s.replace(pattern, replacement)` with the g flag: from left to right,
      every match is replaced and the search resumes after it. */
  function ReplaceAll(rule: Rule, s: string, ssl: bool, hostname: string): (r: string)
    ensures Plain(s) ==> r == s
    decreases |s|
  {
    if |s| == 0 then ""
    else
      match MatchAt(rule, s)
      case Some((captured, length)) =>
        Replacement(rule, captured, ssl, hostname) + ReplaceAll(rule, s[length..], ssl, hostname)
      case None =>
        var r := [s[0]] + ReplaceAll(rule, s[1..], ssl, hostname);
        assert Plain(s) ==> r == s by {
          if Plain(s) {
            PlainTail(s);
            assert [s[0]] + s[1..] == s;
          }
        }
        r
  }

  /** rewriteUrl on the page's text: ssl tells whether the client's connection is
      TLS, hostname is the proxied host. */
  function RewriteUrl(html: string, ssl: bool, hostname: string): (r: string)
    requires '$' !in hostname
    ensures Plain(html) ==> r == html
  {
    var afterAbsolute := ReplaceAll(AbsoluteUrl, html, ssl, hostname);
    var afterProtocolRelative := ReplaceAll(ProtocolRelative, afterAbsolute, ssl, hostname);
    ReplaceAll(RootRelative, afterProtocolRelative, ssl, hostname)
  }

  // ---------------------------------------------------------------------------
  // Properties
  // ---------------------------------------------------------------------------

  /** ReplaceAll's no-match step: a first character that starts no match is
      copied. Stated apart so that callers use it on their own text without
      unfolding ReplaceAll there. */
  lemma NoMatchStep(rule: Rule, s: string, ssl: bool, hostname: string)
    requires |s| > 0 && MatchAt(rule, s) == None
    ensures ReplaceAll(rule, s, ssl, hostname) == [s[0]] + ReplaceAll(rule, s[1..], ssl, hostname)
  {
  }

  /** A first character that is not a quote is copied, whatever follows. */
  lemma PlainStep(rule: Rule, u: string, rest: string, ssl: bool, hostname: string)
    requires u != [] && !IsQuote(u[0])
    ensures ReplaceAll(rule, u + rest, ssl, hostname) == [u[0]] + ReplaceAll(rule, u[1..] + rest, ssl, hostname)
  {
    var s := u + rest;
    assert s[0] == u[0];
    assert MatchAt(rule, s) == None;
    NoMatchStep(rule, s, ssl, hostname);
    assert s[1..] == u[1..] + rest;
  }

  lemma PlainTail(u: string)
    requires Plain(u) && u != []
    ensures Plain(u[1..])
  {
    forall i | 0 <= i < |u[1..]|
      ensures !IsQuote(u[1..][i])
    {
      assert u[1..][i] == u[i + 1];
    }
  }

  lemma ConsAppend(c: char, v: string, w: string)
    ensures [c] + (v + w) == ([c] + v) + w
  {
  }

  /** Text without quotes is copied unchanged, whatever follows it. */
  lemma {:induction false} PlainTextUnchanged(rule: Rule, u: string, rest: string, ssl: bool, hostname: string)
    requires Plain(u)
    ensures ReplaceAll(rule, u + rest, ssl, hostname) == u + ReplaceAll(rule, rest, ssl, hostname)
    decreases |u|
  {
    if u != [] {
      PlainStep(rule, u, rest, ssl, hostname);
      PlainTail(u);
      PlainTextUnchanged(rule, u[1..], rest, ssl, hostname);
      ConsAppend(u[0], u[1..], ReplaceAll(rule, rest, ssl, hostname));
      assert [u[0]] + u[1..] == u;
    } else {
      assert u + rest == rest;
    }
  }

  /** A lazy `.*?` over t stops at the quote after t when t holds no quote and no
      line terminator. */
  lemma {:induction false} CloseAfter(t: string, q: char, rest: string)
    requires Plain(t) && IsQuote(q)
    requires forall i :: 0 <= i < |t| ==> !IsLineTerminator(t[i])
    ensures CloseIndex(t + [q] + rest) == Some(|t|)
    decreases |t|
  {
    if t == [] {
      assert (t + [q] + rest)[0] == q;
    } else {
      var u := t + [q] + rest;
      assert u[0] == t[0];
      assert u[1..] == t[1..] + [q] + rest;
      CloseAfter(t[1..], q, rest);
    }
  }

  lemma PlainConcat(a: string, b: string)
    requires Plain(a) && Plain(b)
    ensures Plain(a + b)
  {
    forall i | 0 <= i < |a + b|
      ensures !IsQuote((a + b)[i])
    {
      if i >= |a| {
        assert (a + b)[i] == b[i - |a|];
      }
    }
  }

  lemma PlainSuffix(v: string, k: nat)
    requires Plain(v) && k <= |v|
    ensures Plain(v[k..])
  {
    forall i | 0 <= i < |v[k..]|
      ensures !IsQuote(v[k..][i])
    {
      assert v[k..][i] == v[k + i];
    }
  }

  /** The lazy `.*?` finds no closing quote in text without quotes. */
  lemma {:induction false} CloseIndexOfPlain(w: string)
    requires Plain(w)
    ensures CloseIndex(w) == None
    decreases |w|
  {
    if w != [] {
      PlainTail(w);
      CloseIndexOfPlain(w[1..]);
    }
  }

  /** A quote followed by text without quotes starts no match: whatever the
      opener, nothing can close it. */
  lemma NoMatchBeforePlain(rule: Rule, q: char, v: string)
    requires Plain(v)
    ensures MatchAt(rule, [q] + v) == None
  {
    assert ([q] + v)[1..] == v;
    match Opener(rule, v) {
      case None =>
      case Some((captureStart, lazyStart)) =>
        PlainSuffix(v, lazyStart);
        CloseIndexOfPlain(v[lazyStart..]);
    }
  }

  /** The parts of a quoted literal followed by more text. */
  lemma QuotedRestParts(q1: char, body: string, q2: char, rest: string)
    ensures |Quoted(q1, body, q2) + rest| == |body| + |rest| + 2
    ensures (Quoted(q1, body, q2) + rest)[0] == q1
    ensures (Quoted(q1, body, q2) + rest)[1..] == body + [q2] + rest
  {
    assert (Quoted(q1, body, q2) + rest)[1..] == body + [q2] + rest;
  }

  /** A closing quote followed by text without quotes is copied. */
  lemma QuoteThenPlainCopied(rule: Rule, q: char, v: string, ssl: bool, hostname: string)
    requires Plain(v)
    ensures ReplaceAll(rule, [q] + v, ssl, hostname) == [q] + v
  {
    NoMatchBeforePlain(rule, q, v);
    NoMatchStep(rule, [q] + v, ssl, hostname);
    assert ([q] + v)[1..] == v;
  }

  /** A literal whose opening quote starts no match is copied. */
  lemma LiteralCopied(rule: Rule, q1: char, body: string, q2: char, v: string, ssl: bool, hostname: string)
    requires Plain(body) && Plain(v)
    requires MatchAt(rule, Quoted(q1, body, q2) + v) == None
    ensures ReplaceAll(rule, Quoted(q1, body, q2) + v, ssl, hostname) == Quoted(q1, body, q2) + v
  {
    var s := Quoted(q1, body, q2) + v;
    var w := [q2] + v;
    QuotedRestParts(q1, body, q2, v);
    NoMatchStep(rule, s, ssl, hostname);
    assert s[1..] == body + w;
    PlainTextUnchanged(rule, body, w, ssl, hostname);
    QuoteThenPlainCopied(rule, q2, v, ssl, hostname);
    assert s == [q1] + (body + w);
  }

  /** In a page whose text around a literal holds no quotes, a literal whose
      body holds no quote and whose opening quote starts no match of rule is
      left as it is, and so is the whole page. */
  lemma QuotedLiteralUnchanged(rule: Rule, u: string, q1: char, body: string, q2: char, v: string, ssl: bool, hostname: string)
    requires Plain(u) && Plain(body) && Plain(v)
    requires MatchAt(rule, Quoted(q1, body, q2) + v) == None
    ensures ReplaceAll(rule, u + Quoted(q1, body, q2) + v, ssl, hostname) == u + Quoted(q1, body, q2) + v
  {
    var lit := Quoted(q1, body, q2);
    assert u + lit + v == u + (lit + v);
    PlainTextUnchanged(rule, u, lit + v, ssl, hostname);
    LiteralCopied(rule, q1, body, q2, v, ssl, hostname);
  }

  lemma GatewayUrlIsPlain(ssl: bool)
    ensures Plain(GatewayUrl(ssl)) && |GatewayUrl(ssl)| > 0 && GatewayUrl(ssl)[0] == 'h'
  {
  }

  /** The gateway's own URLs start with `"h`, so the protocol-relative and
      root-relative rules leave them alone in a page whose text around them holds
      no quotes; only the absolute-URL rule, applied first, would match them
      again. */
  lemma ProxiedIsStable(rule: Rule, u: string, ssl: bool, path: string, v: string, hostname: string)
    requires rule != AbsoluteUrl && Plain(u) && Plain(path) && Plain(v)
    ensures ReplaceAll(rule, u + Proxied(ssl, path) + v, ssl, hostname) == u + Proxied(ssl, path) + v
  {
    var body := GatewayUrl(ssl) + path;
    GatewayUrlIsPlain(ssl);
    PlainConcat(GatewayUrl(ssl), path);
    QuotedRestParts('"', body, '"', v);
    var tt := body + ['"'] + v;
    assert tt[0] == 'h';
    assert Opener(rule, tt) == None;
    QuotedLiteralUnchanged(rule, u, '"', body, '"', v, ssl, hostname);
  }

  /** `http` or `https`, letters in any case */
  predicate IsHttpScheme(scheme: string) {
    StartsWithNoCase(scheme, "http")
    && (|scheme| == 4 || (|scheme| == 5 && LowerChar(scheme[4]) == 's'))
  }

  predicate SingleLine(t: string) {
    forall i :: 0 <= i < |t| ==> !IsLineTerminator(t[i])
  }

  /** ReplaceAll's match step, with the matched text and what follows it
      named apart, so that callers need not unfold ReplaceAll on a
      concatenation. */
  lemma MatchThenResume(rule: Rule, s: string, rest: string, captured: string, ssl: bool, hostname: string)
    requires MatchAt(rule, s + rest) == Some((captured, |s|))
    ensures ReplaceAll(rule, s + rest, ssl, hostname)
         == Replacement(rule, captured, ssl, hostname) + ReplaceAll(rule, rest, ssl, hostname)
  {
    assert (s + rest)[|s|..] == rest;
  }

  /** A literal whose opener pre is followed by a text t holding no quote and no
      line terminator, then a quote, is matched whole, whatever follows it. */
  lemma LiteralMatch(rule: Rule, q1: char, pre: string, t: string, q2: char, rest: string, captureStart: nat)
    requires IsQuote(q1) && IsQuote(q2) && Plain(t) && SingleLine(t)
    requires captureStart <= |pre| && Opener(rule, pre + t + [q2] + rest) == Some((captureStart, |pre|))
    ensures MatchAt(rule, Quoted(q1, pre + t, q2) + rest) == Some((pre[captureStart..] + t, |pre| + |t| + 2))
  {
    LiteralMatchAfterQuote(rule, pre, t, q2, rest, captureStart);
    QuotedRestParts(q1, pre + t, q2, rest);
  }

  lemma LiteralMatchAfterQuote(rule: Rule, pre: string, t: string, q2: char, rest: string, captureStart: nat)
    requires IsQuote(q2) && Plain(t) && SingleLine(t)
    requires captureStart <= |pre| && Opener(rule, pre + t + [q2] + rest) == Some((captureStart, |pre|))
    ensures MatchAfterQuote(rule, pre + t + [q2] + rest) == Some((pre[captureStart..] + t, |pre| + |t| + 1))
  {
    LiteralSlices(pre, t, q2, rest, captureStart);
    CloseAfter(t, q2, rest);
  }

  lemma LiteralSlices(pre: string, t: string, q2: char, rest: string, captureStart: nat)
    requires captureStart <= |pre|
    ensures (pre + t + [q2] + rest)[|pre|..] == t + [q2] + rest
    ensures (pre + t + [q2] + rest)[captureStart..|pre| + |t|] == pre[captureStart..] + t
  {
    var tt := pre + t + [q2] + rest;
    assert tt[|pre|..] == t + [q2] + rest;
    assert tt[captureStart..|pre| + |t|] == pre[captureStart..] + t;
  }

  /** The opener of the absolute-URL rule: `http` or `https` in any case, then
      `://`. */
  lemma AbsoluteUrlOpener(scheme: string, t: string, q2: char, rest: string)
    requires IsHttpScheme(scheme)
    ensures Opener(AbsoluteUrl, scheme + "://" + t + [q2] + rest) == Some((|scheme| + 3, |scheme| + 3))
  {
    var tt := scheme + "://" + t + [q2] + rest;
    var n := |scheme|;
    assert StartsWithNoCase(tt, "http") by {
      forall i | 0 <= i < 4
        ensures LowerChar(tt[i]) == "http"[i]
      {
        assert tt[i] == scheme[i];
      }
    }
    if n == 5 {
      assert tt[4] == scheme[4];
    } else {
      assert tt[4] == ':';
    }
    assert tt[n..][..3] == "://";
  }

  /** The absolute-URL rule matches `"http(s)://t"` and captures t, whatever
      follows the literal. */
  lemma AbsoluteUrlMatch(q1: char, scheme: string, t: string, q2: char, rest: string)
    requires IsQuote(q1) && IsQuote(q2) && IsHttpScheme(scheme) && Plain(t) && SingleLine(t)
    ensures MatchAt(AbsoluteUrl, Quoted(q1, scheme + "://" + t, q2) + rest) == Some((t, |scheme| + |t| + 5))
  {
    var pre := scheme + "://";
    AbsoluteUrlOpener(scheme, t, q2, rest);
    LiteralMatch(AbsoluteUrl, q1, pre, t, q2, rest, |pre|);
    assert pre[|pre|..] + t == t;
  }

  /** Of the two other rules, the protocol-relative one alone matches `"//t"`;
      it captures t, whatever follows the literal. */
  lemma ProtocolRelativeMatch(q1: char, t: string, q2: char, rest: string)
    requires IsQuote(q1) && IsQuote(q2) && Plain(t) && SingleLine(t)
    ensures MatchAt(AbsoluteUrl, Quoted(q1, "//" + t, q2) + rest) == None
    ensures MatchAt(ProtocolRelative, Quoted(q1, "//" + t, q2) + rest) == Some((t, |t| + 4))
  {
    var tt := "//" + t + [q2] + rest;
    QuotedRestParts(q1, "//" + t, q2, rest);
    assert LowerChar(tt[0]) != "http"[0];
    assert Opener(AbsoluteUrl, tt) == None;
    assert tt[..2] == "//";
    LiteralMatch(ProtocolRelative, q1, "//", t, q2, rest, 2);
    assert "//"[2..] + t == t;
  }

  /** Of the three rules, the root-relative one alone matches `"/ct"` with c a
      letter or digit; it captures ct, whatever follows the literal. */
  lemma RootRelativeMatch(q1: char, c: char, t: string, q2: char, rest: string)
    requires IsQuote(q1) && IsQuote(q2) && IsAlnum(c) && Plain(t) && SingleLine(t)
    ensures MatchAt(AbsoluteUrl, Quoted(q1, "/" + [c] + t, q2) + rest) == None
    ensures MatchAt(ProtocolRelative, Quoted(q1, "/" + [c] + t, q2) + rest) == None
    ensures MatchAt(RootRelative, Quoted(q1, "/" + [c] + t, q2) + rest) == Some(([c] + t, |t| + 4))
  {
    var pre := "/" + [c];
    var tt := pre + t + [q2] + rest;
    QuotedRestParts(q1, pre + t, q2, rest);
    assert tt[0] == '/' && tt[1] == c;
    RootRelativeOpeners(tt);
    LiteralMatch(RootRelative, q1, pre, t, q2, rest, 1);
    assert pre[1..] == [c];
  }

  /** After the opening quote, `/` and a letter or digit start a root-relative
      path and nothing else. */
  lemma RootRelativeOpeners(tt: string)
    requires |tt| >= 2 && tt[0] == '/' && IsAlnum(tt[1])
    ensures Opener(AbsoluteUrl, tt) == None
    ensures Opener(ProtocolRelative, tt) == None
    ensures Opener(RootRelative, tt) == Some((1, 2))
  {
    assert LowerChar(tt[0]) != "http"[0];
    assert tt[..2] != "//" by {
      assert tt[..2][1] == tt[1];
    }
  }

  // ---------------------------------------------------------------------------
  // One pass: text without quotes, then a literal the rule matches, then
  // anything
  // ---------------------------------------------------------------------------

  /** Text without quotes in front of lit + rest is copied. Kept apart from
      PlainThenMatch so that its proof sees no match to unfold. */
  lemma PlainBeforeLiteral(rule: Rule, u: string, lit: string, rest: string, ssl: bool, hostname: string)
    requires Plain(u)
    ensures ReplaceAll(rule, u + lit + rest, ssl, hostname) == u + ReplaceAll(rule, lit + rest, ssl, hostname)
  {
    assert u + lit + rest == u + (lit + rest);
    PlainTextUnchanged(rule, u, lit + rest, ssl, hostname);
  }

  /** Text without quotes, then a match of rule that ends where lit ends: u is
      copied, lit replaced, and the search resumes behind it. */
  lemma PlainThenMatch(rule: Rule, u: string, lit: string, rest: string, captured: string, ssl: bool, hostname: string)
    requires Plain(u) && MatchAt(rule, lit + rest) == Some((captured, |lit|))
    ensures ReplaceAll(rule, u + lit + rest, ssl, hostname)
         == u + Replacement(rule, captured, ssl, hostname) + ReplaceAll(rule, rest, ssl, hostname)
  {
    var m := Replacement(rule, captured, ssl, hostname);
    var y := ReplaceAll(rule, rest, ssl, hostname);
    PlainBeforeLiteral(rule, u, lit, rest, ssl, hostname);
    MatchThenResume(rule, lit, rest, captured, ssl, hostname);
    assert u + (m + y) == u + m + y;
  }

  /** The first replacement copies u, turns `"http(s)://t"` into the gateway
      URL for t and goes on behind the literal. */
  lemma AbsoluteUrlPass(u: string, q1: char, scheme: string, t: string, q2: char, rest: string, ssl: bool, hostname: string)
    requires Plain(u) && IsQuote(q1) && IsQuote(q2) && IsHttpScheme(scheme) && Plain(t) && SingleLine(t)
    ensures ReplaceAll(AbsoluteUrl, u + Quoted(q1, scheme + "://" + t, q2) + rest, ssl, hostname)
         == u + Proxied(ssl, t) + ReplaceAll(AbsoluteUrl, rest, ssl, hostname)
  {
    AbsoluteUrlMatch(q1, scheme, t, q2, rest);
    QuotedParts(q1, scheme + "://" + t, q2);
    PlainThenMatch(AbsoluteUrl, u, Quoted(q1, scheme + "://" + t, q2), rest, t, ssl, hostname);
  }

  /** The second replacement copies u, turns `"//t"` into the gateway URL for t
      and goes on behind the literal. */
  lemma ProtocolRelativePass(u: string, q1: char, t: string, q2: char, rest: string, ssl: bool, hostname: string)
    requires Plain(u) && IsQuote(q1) && IsQuote(q2) && Plain(t) && SingleLine(t)
    ensures ReplaceAll(ProtocolRelative, u + Quoted(q1, "//" + t, q2) + rest, ssl, hostname)
         == u + Proxied(ssl, t) + ReplaceAll(ProtocolRelative, rest, ssl, hostname)
  {
    ProtocolRelativeMatch(q1, t, q2, rest);
    QuotedParts(q1, "//" + t, q2);
    PlainThenMatch(ProtocolRelative, u, Quoted(q1, "//" + t, q2), rest, t, ssl, hostname);
  }

  /** The third replacement copies u, turns `"/ct"` into the gateway URL for the
      same path on the proxied host and goes on behind the literal. */
  lemma RootRelativePass(u: string, q1: char, c: char, t: string, q2: char, rest: string, ssl: bool, hostname: string)
    requires Plain(u) && IsQuote(q1) && IsQuote(q2) && IsAlnum(c) && Plain(t) && SingleLine(t)
    ensures ReplaceAll(RootRelative, u + Quoted(q1, "/" + [c] + t, q2) + rest, ssl, hostname)
         == u + Proxied(ssl, hostname + "/" + [c] + t) + ReplaceAll(RootRelative, rest, ssl, hostname)
  {
    RootRelativeMatch(q1, c, t, q2, rest);
    QuotedParts(q1, "/" + [c] + t, q2);
    PlainThenMatch(RootRelative, u, Quoted(q1, "/" + [c] + t, q2), rest, [c] + t, ssl, hostname);
    assert hostname + "/" + ([c] + t) == hostname + "/" + [c] + t;
  }

  // ---------------------------------------------------------------------------
  // The three passes over a page: text without quotes around one literal
  // ---------------------------------------------------------------------------

  /** Which quote opens and closes a literal does not matter, nor the case of
      `http`, nor whether it is http or https: `"http(s)://t"` becomes the
      gateway URL for t, on the client's own protocol, and the text around it is
      kept. */
  lemma AbsoluteUrlRewritten(u: string, q1: char, scheme: string, t: string, q2: char, v: string, ssl: bool, hostname: string)
    requires Plain(u) && Plain(v) && IsQuote(q1) && IsQuote(q2) && '$' !in hostname
    requires IsHttpScheme(scheme) && Plain(t) && SingleLine(t)
    ensures RewriteUrl(u + Quoted(q1, scheme + "://" + t, q2) + v, ssl, hostname) == u + Proxied(ssl, t) + v
  {
    AbsoluteUrlPass(u, q1, scheme, t, q2, v, ssl, hostname);
    ProxiedIsStable(ProtocolRelative, u, ssl, t, v, hostname);
    ProxiedIsStable(RootRelative, u, ssl, t, v, hostname);
  }

  /** `"//t"` becomes the gateway URL for t, and the text around it is kept. */
  lemma ProtocolRelativeRewritten(u: string, q1: char, t: string, q2: char, v: string, ssl: bool, hostname: string)
    requires Plain(u) && Plain(v) && IsQuote(q1) && IsQuote(q2) && '$' !in hostname
    requires Plain(t) && SingleLine(t)
    ensures RewriteUrl(u + Quoted(q1, "//" + t, q2) + v, ssl, hostname) == u + Proxied(ssl, t) + v
  {
    ProtocolRelativeMatch(q1, t, q2, v);
    assert Plain("//");
    PlainConcat("//", t);
    QuotedLiteralUnchanged(AbsoluteUrl, u, q1, "//" + t, q2, v, ssl, hostname);
    ProtocolRelativePass(u, q1, t, q2, v, ssl, hostname);
    ProxiedIsStable(RootRelative, u, ssl, t, v, hostname);
  }

  /** `"/ct"`, c a letter or digit, becomes the gateway URL for the same path on
      the proxied host, and the text around it is kept. */
  lemma RootRelativeRewritten(u: string, q1: char, c: char, t: string, q2: char, v: string, ssl: bool, hostname: string)
    requires Plain(u) && Plain(v) && IsQuote(q1) && IsQuote(q2) && IsAlnum(c) && '$' !in hostname
    requires Plain(t) && SingleLine(t)
    ensures RewriteUrl(u + Quoted(q1, "/" + [c] + t, q2) + v, ssl, hostname)
         == u + Proxied(ssl, hostname + "/" + [c] + t) + v
  {
    var body := "/" + [c] + t;
    assert Plain("/" + [c]);
    PlainConcat("/" + [c], t);
    RootRelativeMatch(q1, c, t, q2, v);
    QuotedLiteralUnchanged(AbsoluteUrl, u, q1, body, q2, v, ssl, hostname);
    QuotedLiteralUnchanged(ProtocolRelative, u, q1, body, q2, v, ssl, hostname);
    RootRelativePass(u, q1, c, t, q2, v, ssl, hostname);
  }

  // ---------------------------------------------------------------------------
  // Literals that span lines
  // ---------------------------------------------------------------------------

  /** A line terminator before any quote leaves the lazy `.*?` nowhere to stop. */
  lemma NoCloseAcrossLine(w: string, i: nat)
    requires i < |w| && IsLineTerminator(w[i]) && Plain(w[..i])
    ensures CloseIndex(w).None?
  {
    CloseIndexIsLazy(w);
    forall k | 0 <= k < i
      ensures !IsQuote(w[k])
    {
      assert w[k] == w[..i][k];
    }
  }

  /** Seen from lazyStart on, the text before a line terminator of a quote-free
      body is still quote-free. */
  lemma LineInWindow(body: string, q2: char, v: string, lazyStart: nat, i: nat)
    requires Plain(body) && lazyStart <= i < |body| && IsLineTerminator(body[i])
    ensures var w := (body + [q2] + v)[lazyStart..];
            i - lazyStart < |w| && IsLineTerminator(w[i - lazyStart]) && Plain(w[..i - lazyStart])
  {
    var w := (body + [q2] + v)[lazyStart..];
    assert w[i - lazyStart] == body[i];
    var before := w[..i - lazyStart];
    forall k | 0 <= k < |before|
      ensures !IsQuote(before[k])
    {
      assert before[k] == body[lazyStart + k];
    }
  }

  /** No rule matches a literal with a line terminator inside, whatever follows
      it. */
  lemma MultiLineNoMatch(rule: Rule, q1: char, body: string, q2: char, v: string, i: nat)
    requires Plain(body) && i < |body| && IsLineTerminator(body[i])
    ensures MatchAt(rule, Quoted(q1, body, q2) + v) == None
  {
    QuotedRestParts(q1, body, q2, v);
    var tt := body + [q2] + v;
    assert IsLineTerminator(tt[i]);
    var opener := Opener(rule, tt);
    if opener.Some? {
      var lazyStart := opener.value.1;
      assert lazyStart <= i;
      var w := tt[lazyStart..];
      LineInWindow(body, q2, v, lazyStart, i);
      NoCloseAcrossLine(w, i - lazyStart);
    }
  }

  /** A line terminator before the closing quote stops a match: in a page whose
      text around the literal holds no quotes, the literal is copied as it is. */
  lemma MultiLineLiteralUnchanged(rule: Rule, u: string, q1: char, body: string, q2: char, v: string, i: nat, ssl: bool, hostname: string)
    requires Plain(u) && Plain(body) && Plain(v)
    requires i < |body| && IsLineTerminator(body[i])
    ensures ReplaceAll(rule, u + Quoted(q1, body, q2) + v, ssl, hostname) == u + Quoted(q1, body, q2) + v
  {
    MultiLineNoMatch(rule, q1, body, q2, v, i);
    QuotedLiteralUnchanged(rule, u, q1, body, q2, v, ssl, hostname);
  }
}
