/** The JavaScript built-ins that app.js leans on, over strings of characters:
    `startsWith`, `includes`, `substring`, `toLowerCase` (ASCII letters only),
    `split` and `join` with a one-character separator, and `parseInt`. */
module Js {

  /** `s.startsWith(p)` */
  predicate StartsWith(s: string, p: string) {
    |p| <= |s| && s[..|p|] == p
  }

  /** `s.includes(p)`: p occurs in s at some position */
  predicate Includes(s: string, p: string)
    decreases |s|
  {
    StartsWith(s, p) || (s != [] && Includes(s[1..], p))
  }

  /** `s.substring(start)`, which clamps start to the bounds of s */
  function Substring(s: string, start: int): string {
    if start <= 0 then s else if start <= |s| then s[start..] else []
  }

  function LowerChar(c: char): char {
    if 'A' <= c <= 'Z' then (c as int + 32) as char else c
  }

  /** `s.toLowerCase()`, restricted to the ASCII letters */
  function Lower(s: string): string {
    seq(|s|, i requires 0 <= i < |s| => LowerChar(s[i]))
  }

  // ---------------------------------------------------------------------------
  // split and join
  // ---------------------------------------------------------------------------

  /** `s.split(sep)`: the pieces of s between the occurrences of sep. Like
      JavaScript's, it never returns an empty list: `"".split("/")` is `[""]`. */
  function Split(s: string, sep: char): (parts: seq<string>)
    ensures |parts| >= 1
    ensures forall i :: 0 <= i < |parts| ==> sep !in parts[i]
    ensures Join(parts, sep) == s
    decreases |s|
  {
    if s == [] then [""]
    else
      var rest := Split(s[1..], sep);
      if s[0] == sep then
        assert [sep] + s[1..] == s;
        [""] + rest
      else
        var parts := [[s[0]] + rest[0]] + rest[1..];
        assert parts[1..] == rest[1..];
        assert Join(parts, sep) == [s[0]] + Join(rest, sep) by {
          if |rest| > 1 {
            assert Join(parts, sep) == ([s[0]] + rest[0]) + [sep] + Join(rest[1..], sep);
          }
        }
        parts
  }

  /** `parts.join(sep)` */
  function Join(parts: seq<string>, sep: char): string
    decreases |parts|
  {
    if parts == [] then ""
    else if |parts| == 1 then parts[0]
    else parts[0] + [sep] + Join(parts[1..], sep)
  }

  /** The text of s before the first occurrence of c; all of s when c does not occur. */
  function Before(s: string, c: char): (r: string)
    ensures c !in r
    decreases |s|
  {
    if s == [] || s[0] == c then [] else [s[0]] + Before(s[1..], c)
  }

  /** The text of s after the first occurrence of c; empty when c does not occur. */
  function After(s: string, c: char): string
    decreases |s|
  {
    if s == [] then [] else if s[0] == c then s[1..] else After(s[1..], c)
  }

  /** Splitting a text with no separator in it gives the text itself. */
  lemma {:induction false} SplitWithoutSeparator(u: string, sep: char)
    requires sep !in u
    ensures Split(u, sep) == [u]
    decreases |u|
  {
    if u != [] {
      assert sep !in u[1..] by {
        forall i | 0 <= i < |u[1..]| ensures u[1..][i] != sep { assert u[1..][i] == u[i + 1]; }
      }
      SplitWithoutSeparator(u[1..], sep);
      assert [u[0]] + u[1..] == u;
    }
  }

  /** A separator after a first piece u starts a new piece. */
  lemma {:induction false} SplitAfterPiece(u: string, sep: char, w: string)
    requires sep !in u
    ensures Split(u + [sep] + w, sep) == [u] + Split(w, sep)
    decreases |u|
  {
    var s := u + [sep] + w;
    if u == [] {
      assert s[1..] == w;
    } else {
      assert s[1..] == u[1..] + [sep] + w;
      assert sep !in u[1..] by {
        forall i | 0 <= i < |u[1..]| ensures u[1..][i] != sep { assert u[1..][i] == u[i + 1]; }
      }
      SplitAfterPiece(u[1..], sep, w);
      assert [u[0]] + u[1..] == u;
    }
  }

  /** A text holding c is the text before its first c, then c, then the text
      after it. */
  lemma {:induction false} CutsAtFirst(s: string, c: char)
    requires c in s
    ensures s == Before(s, c) + [c] + After(s, c)
    decreases |s|
  {
    if s[0] != c {
      assert c in s[1..] by {
        var k :| 0 <= k < |s| && s[k] == c;
        assert s[1..][k - 1] == c;
      }
      CutsAtFirst(s[1..], c);
      assert s == [s[0]] + s[1..];
    }
  }

  /** `s.split(c)` is the text before the first c followed by the split of the
      text after it; with no c in s, it is `[s]`. */
  lemma SplitAtFirst(s: string, c: char)
    ensures c !in s ==> Split(s, c) == [s]
    ensures c in s ==> (&& s == Before(s, c) + [c] + After(s, c)
                        && Split(s, c) == [Before(s, c)] + Split(After(s, c), c))
  {
    if c !in s {
      SplitWithoutSeparator(s, c);
    } else {
      CutsAtFirst(s, c);
      SplitAfterPiece(Before(s, c), c, After(s, c));
    }
  }

  // ---------------------------------------------------------------------------
  // parseInt
  // ---------------------------------------------------------------------------

  /** A JavaScript number as far as the gateway uses one: an integer or NaN. */
  datatype Number = Int(value: int) | NaN

  /** The characters `parseInt` skips at the start: the white space and line
      terminators of ECMAScript. */
  predicate IsSpace(c: char) {
    || c == '\t' || c == '\n' || c == '\U{B}' || c == '\U{C}' || c == '\r' || c == ' '
    || c == '\U{A0}' || c == '\U{1680}' || ('\U{2000}' <= c <= '\U{200A}')
    || c == '\U{2028}' || c == '\U{2029}' || c == '\U{202F}' || c == '\U{205F}'
    || c == '\U{3000}' || c == '\U{FEFF}'
  }

  function TrimStart(s: string): string
    decreases |s|
  {
    if s != [] && IsSpace(s[0]) then TrimStart(s[1..]) else s
  }

  /** Whether c is a digit in the given radix (10 or 16). */
  predicate IsDigit(c: char, radix: nat) {
    || '0' <= c <= '9'
    || (radix == 16 && ('a' <= c <= 'f' || 'A' <= c <= 'F'))
  }

  function DigitValue(c: char): nat {
    if '0' <= c <= '9' then c as int - '0' as int
    else if 'a' <= c <= 'f' then c as int - 'a' as int + 10
    else if 'A' <= c <= 'F' then c as int - 'A' as int + 10
    else 0
  }

  /** The longest prefix of s made of digits of the radix. */
  function LeadingDigits(s: string, radix: nat): string
    decreases |s|
  {
    if s != [] && IsDigit(s[0], radix) then [s[0]] + LeadingDigits(s[1..], radix) else []
  }

  /** The value of a numeral, most significant digit first. */
  function DigitsValue(ds: string, radix: nat): nat
    decreases |ds|
  {
    if ds == [] then 0 else DigitsValue(ds[..|ds| - 1], radix) * radix + DigitValue(ds[|ds| - 1])
  }

  /** `parseInt(s)` with no radix: leading white space is skipped, then an
      optional sign, then a `0x`/`0X` prefix selects radix 16; the longest run of
      digits that follows is the value, and NaN when there is none. */
  function ParseInt(s: string): (r: Number)
    ensures TrimStart(s) == [] ==> r == NaN
    ensures r.Int? && r.value < 0 ==> TrimStart(s) != [] && TrimStart(s)[0] == '-'
  {
    var t := TrimStart(s);
    var negative := t != [] && t[0] == '-';
    var unsigned := if t != [] && (t[0] == '-' || t[0] == '+') then t[1..] else t;
    var hex := |unsigned| >= 2 && unsigned[0] == '0' && (unsigned[1] == 'x' || unsigned[1] == 'X');
    var radix := if hex then 16 else 10;
    var digits := LeadingDigits(if hex then unsigned[2..] else unsigned, radix);
    if digits == [] then NaN
    else
      var magnitude: int := DigitsValue(digits, radix);
      Int(if negative then -magnitude else magnitude)
  }

  function DigitChar(d: nat): char
    requires d < 10
  {
    ('0' as int + d) as char
  }

  /** The decimal numeral of n, without leading zeros. */
  function DecimalString(n: nat): string
    decreases n
  {
    if n < 10 then [DigitChar(n)] else DecimalString(n / 10) + [DigitChar(n % 10)]
  }

  lemma {:induction false} DecimalStringDigits(n: nat)
    ensures |DecimalString(n)| >= 1
    ensures forall i :: 0 <= i < |DecimalString(n)| ==> '0' <= DecimalString(n)[i] <= '9'
    ensures DigitsValue(DecimalString(n), 10) == n
    decreases n
  {
    if n >= 10 {
      DecimalStringDigits(n / 10);
      var s := DecimalString(n);
      assert s[..|s| - 1] == DecimalString(n / 10);
    }
  }

  lemma {:induction false} LeadingDigitsOfDigits(s: string, radix: nat)
    requires forall i :: 0 <= i < |s| ==> IsDigit(s[i], radix)
    ensures LeadingDigits(s, radix) == s
    decreases |s|
  {
    if s != [] {
      LeadingDigitsOfDigits(s[1..], radix);
      assert [s[0]] + s[1..] == s;
    }
  }

  /** `parseInt` reads back the decimal numeral of every natural number. */
  lemma ParseIntOfDecimal(n: nat)
    ensures ParseInt(DecimalString(n)) == Int(n)
  {
    var s := DecimalString(n);
    DecimalStringDigits(n);
    LeadingDigitsOfDigits(s, 10);
    assert TrimStart(s) == s;
  }

  lemma {:induction false} TrimStartBeforeStop(b: string, c: char, a: string)
    requires !IsSpace(c)
    ensures TrimStart(b + [c] + a) == TrimStart(b) + [c] + a
    decreases |b|
  {
    if b != [] {
      assert (b + [c] + a)[1..] == b[1..] + [c] + a;
      TrimStartBeforeStop(b[1..], c, a);
    }
  }

  lemma {:induction false} LeadingDigitsBeforeStop(v: string, c: char, a: string, radix: nat)
    requires !IsDigit(c, radix)
    ensures LeadingDigits(v + [c] + a, radix) == LeadingDigits(v, radix)
    decreases |v|
  {
    if v != [] {
      assert (v + [c] + a)[1..] == v[1..] + [c] + a;
      LeadingDigitsBeforeStop(v[1..], c, a, radix);
    }
  }

  /** `parseInt` stops at the first character that cannot belong to a numeral:
      what follows it never changes the result. */
  lemma ParseIntStopsAt(b: string, c: char, a: string)
    requires !IsSpace(c) && c != '-' && c != '+' && c != 'x' && c != 'X' && !IsDigit(c, 16)
    ensures ParseInt(b + [c] + a) == ParseInt(b)
  {
    var t := TrimStart(b);
    var full := b + [c] + a;
    TrimStartBeforeStop(b, c, a);
    var T := t + [c] + a;
    assert TrimStart(full) == T;
    var u := if t != [] && (t[0] == '-' || t[0] == '+') then t[1..] else t;
    var U := if T != [] && (T[0] == '-' || T[0] == '+') then T[1..] else T;
    assert U == u + [c] + a by {
      if t != [] && (t[0] == '-' || t[0] == '+') {
        DropBeforeStop(t, 1, c, a);
      }
    }
    assert (T != [] && T[0] == '-') == (t != [] && t[0] == '-');
    var hexU := |U| >= 2 && U[0] == '0' && (U[1] == 'x' || U[1] == 'X');
    var hexu := |u| >= 2 && u[0] == '0' && (u[1] == 'x' || u[1] == 'X');
    assert hexU == hexu by {
      if |u| == 0 {
        assert U[0] == c;
      } else if |u| == 1 {
        assert U[1] == c;
      } else {
        assert U[0] == u[0] && U[1] == u[1];
      }
    }
    var radix := if hexu then 16 else 10;
    var v := if hexu then u[2..] else u;
    var V := if hexU then U[2..] else U;
    assert V == v + [c] + a by {
      if hexu {
        DropBeforeStop(u, 2, c, a);
      }
    }
    LeadingDigitsBeforeStop(v, c, a, radix);
  }

  /** Dropping a prefix of u from u + [c] + a leaves the rest of u in front. */
  lemma DropBeforeStop(u: string, k: nat, c: char, a: string)
    requires k <= |u|
    ensures (u + [c] + a)[k..] == u[k..] + [c] + a
  {
  }

  /** `parseInt` reads no further than the first `:` of s: parsing the text
      before it gives the same number as parsing s whole. */
  lemma ParseIntBeforeColon(s: string)
    ensures ParseInt(Before(s, ':')) == ParseInt(s)
  {
    SplitAtFirst(s, ':');
    if ':' in s {
      ParseIntStopsAt(Before(s, ':'), ':', After(s, ':'));
    } else {
      assert Split(s, ':')[0] == Before(s, ':') by { BeforeIsFirstPiece(s, ':'); }
    }
  }

  /** Before and After cut a text at its first c. */
  lemma {:induction false} CutAtFirst(u: string, c: char, w: string)
    requires c !in u
    ensures Before(u + [c] + w, c) == u && After(u + [c] + w, c) == w
    decreases |u|
  {
    if u != [] {
      assert (u + [c] + w)[1..] == u[1..] + [c] + w;
      CutAtFirst(u[1..], c, w);
      assert [u[0]] + u[1..] == u;
    }
  }

  /** The first piece of `s.split(c)` is the text before the first c. */
  lemma {:induction false} BeforeIsFirstPiece(s: string, c: char)
    ensures Split(s, c)[0] == Before(s, c)
    decreases |s|
  {
    if s != [] {
      BeforeIsFirstPiece(s[1..], c);
    }
  }
}
