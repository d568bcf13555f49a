/** The HLS playlist rewriter of the `/proxy` handler (index.js:217-234).

    Pass 1 sweeps the whole text and replaces every match of
    `/(https?:\/\/[^\s]+)/g` by `/proxy?url=` followed by the match under
    `encodeURIComponent`. Pass 2 replaces every match of
    `/^([^#\n][^\n]*)$/gm`: the URI lines of section 4.1 of RFC 8216, which it
    leaves alone when they already start with `/proxy`, wraps verbatim when
    they start with `http`, and otherwise resolves against the playlist's own
    URL first. */
module Playlist {
  import opened Wrappers
  import opened Text
  import opened UriComponent
  import opened UriReference

  const ProxyPrefix := "/proxy"
  const ProxyQuery := "/proxy?url="

  /** LineTerminator of ECMA-262 (section 12.3): where a multiline `^` may
      match, besides the start of the text. */
  predicate IsLineTerminator(c: char) {
    c == '\n' || c == '\r' || c == '\U{2028}' || c == '\U{2029}'
  }

  /** The class `\s` of ECMA-262 regular expressions: WhiteSpace (section 12.2,
      with the space separators of Unicode) and LineTerminator. */
  predicate IsWhitespace(c: char) {
    IsLineTerminator(c) ||
    c == '\t' || c == '\U{000B}' || c == '\U{000C}' || c == ' ' || c == '\U{00A0}' ||
    c == '\U{1680}' || ('\U{2000}' <= c <= '\U{200A}') || c == '\U{202F}' ||
    c == '\U{205F}' || c == '\U{3000}' || c == '\U{FEFF}'
  }

  /** A text holding no line terminator at all. */
  predicate IsBreakFree(s: string) {
    forall i :: 0 <= i < |s| ==> !IsLineTerminator(s[i])
  }

  /** The same-origin proxy reference for upstream URL `u`. */
  function ProxyUrl(u: string): (r: string)
    ensures StartsWith(r, ProxyPrefix) && r[0] == '/'
    ensures forall i :: 0 <= i < |r| ==> !IsWhitespace(r[i])
  {
    var e := Encode(u);
    ProxiedNoWhitespace(e);
    ProxyQuery + e
  }

  lemma ProxiedNoWhitespace(e: string)
    requires forall i :: 0 <= i < |e| ==> IsEncodedChar(e[i])
    ensures forall i :: 0 <= i < |ProxyQuery + e| ==> !IsWhitespace((ProxyQuery + e)[i])
  {
    var r := ProxyQuery + e;
    forall i | 0 <= i < |r| ensures !IsWhitespace(r[i]) {
      if i >= |ProxyQuery| {
        assert r[i] == e[i - |ProxyQuery|];
        assert IsEncodedChar(e[i - |ProxyQuery|]);
      }
    }
  }

  /** The `url` parameter of a proxy reference decodes to the upstream URL,
      byte for byte, nested query string included. */
  lemma ProxyUrlRoundTrip(u: string)
    ensures StartsWith(ProxyUrl(u), ProxyQuery)
    ensures Decode(ProxyUrl(u)[|ProxyQuery|..]) == Some(u)
  {
    assert ProxyUrl(u)[|ProxyQuery|..] == Encode(u);
    DecodeEncode(u);
  }

  // ---------------------------------------------------------------------
  // Pass 1: /(https?:\/\/[^\s]+)/g

  /** Length of the longest prefix of `s` without whitespace. */
  function NonWhitespaceRun(s: string): (k: nat)
    ensures k <= |s|
    ensures forall i :: 0 <= i < k ==> !IsWhitespace(s[i])
    ensures k < |s| ==> IsWhitespace(s[k])
    decreases |s|
  {
    if s == [] || IsWhitespace(s[0]) then 0 else 1 + NonWhitespaceRun(s[1..])
  }

  /** The strings the regular expression `https?:\/\/[^\s]+` matches. */
  predicate IsUrlRun(r: string) {
    ((StartsWith(r, "http://") && |r| > 7) || (StartsWith(r, "https://") && |r| > 8)) &&
    forall i :: 0 <= i < |r| ==> !IsWhitespace(r[i])
  }

  /** `s` starts with `p` followed by at least one non-whitespace character. */
  predicate Guarded(s: string, p: string) {
    StartsWith(s, p) && |s| > |p| && !IsWhitespace(s[|p|])
  }

  /** Length of the match the regular expression makes at the start of `s`
      (`s?` greedy, then `[^\s]+` greedy), or 0 when it makes none. */
  function MatchLength(s: string): (n: nat)
    ensures n <= |s|
  {
    if Guarded(s, "https://") then 8 + NonWhitespaceRun(s[8..])
    else if Guarded(s, "http://") then 7 + NonWhitespaceRun(s[7..])
    else 0
  }

  /** `MatchLength` is the longest prefix of `s` in the language of the
      pattern, and 0 exactly when no prefix is. */
  lemma MatchLengthIsLongestMatch(s: string)
    ensures MatchLength(s) > 0 ==> IsUrlRun(s[..MatchLength(s)])
    ensures forall k :: 0 < k <= |s| && IsUrlRun(s[..k]) ==> 0 < k <= MatchLength(s)
  {
    var n := MatchLength(s);
    if n > 0 {
      MatchIsUrlRun(s);
    }
    forall k | 0 < k <= |s| && IsUrlRun(s[..k]) ensures k <= n {
      var r := s[..k];
      var p := if StartsWith(r, "https://") && |r| > 8 then "https://" else "http://";
      assert s[..|p|] == r[..|p|] == p;
      assert s[|p|] == r[|p|];
      if p == "http://" {
        assert !Guarded(s, "https://") by { assert s[4] == ':'; }
      }
      assert Guarded(s, p);
      var t := s[|p|..];
      forall i | 0 <= i < k - |p| ensures !IsWhitespace(t[i]) { assert t[i] == r[i + |p|]; }
      assert NonWhitespaceRun(t) >= k - |p|;
    }
  }

  lemma MatchIsUrlRun(s: string)
    requires MatchLength(s) > 0
    ensures IsUrlRun(s[..MatchLength(s)])
  {
    var n := MatchLength(s);
    var p := if Guarded(s, "https://") then "https://" else "http://";
    assert n == |p| + NonWhitespaceRun(s[|p|..]);
    assert s[..|p|] == p;
    assert s[..n][..|p|] == p;
    forall i | 0 <= i < n ensures !IsWhitespace(s[..n][i]) {
      if i >= |p| { assert s[..n][i] == s[|p|..][i - |p|]; }
      else { assert s[..n][i] == p[i]; }
    }
  }

  /** Pass 1 over the whole text: every match, leftmost first and without
      overlap, becomes its proxy reference; the text between matches is kept. */
  function ProxyAbsoluteUrls(s: string): (r: string)
    ensures r == [] <==> s == []
    decreases |s|
  {
    if s == [] then []
    else
      var n := MatchLength(s);
      if n == 0 then [s[0]] + ProxyAbsoluteUrls(s[1..])
      else ProxyUrl(s[..n]) + ProxyAbsoluteUrls(s[n..])
  }

  /** The properties pass 1 keeps, as one predicate of input and output. */
  predicate KeepsShape(s: string, r: string) {
    (s != [] ==> r != [] && (r[0] == '#' <==> s[0] == '#')) &&
    ('\n' !in s ==> '\n' !in r) &&
    (IsBreakFree(s) ==> IsBreakFree(r))
  }

  /** Pass 1 keeps a leading `#` (and adds none), and adds no line feed or
      other line terminator. */
  lemma {:induction false} ProxyAbsoluteUrlsShape(s: string)
    ensures KeepsShape(s, ProxyAbsoluteUrls(s))
    decreases |s|
  {
    if s != [] {
      var n := MatchLength(s);
      if n == 0 {
        assert ProxyAbsoluteUrls(s) == [s[0]] + ProxyAbsoluteUrls(s[1..]);
        ProxyAbsoluteUrlsShape(s[1..]);
        KeptCharShape(s, ProxyAbsoluteUrls(s[1..]));
      } else {
        assert ProxyAbsoluteUrls(s) == ProxyUrl(s[..n]) + ProxyAbsoluteUrls(s[n..]);
        ProxyAbsoluteUrlsShape(s[n..]);
        MatchStartsWithH(s);
        ProxiedRunShape(s, n, ProxyAbsoluteUrls(s[n..]));
      }
    }
  }

  lemma MatchStartsWithH(s: string)
    requires MatchLength(s) > 0
    ensures s[0] == 'h'
  {
    if Guarded(s, "https://") {
      assert s[..8][0] == 'h';
    } else {
      assert s[..7][0] == 'h';
    }
  }

  /** A character kept by pass 1 in front of an output that keeps the shape. */
  lemma KeptCharShape(s: string, rest: string)
    requires s != [] && KeepsShape(s[1..], rest)
    ensures KeepsShape(s, [s[0]] + rest)
  {
    SplitBreakFree(s, 1);
    assert s[..1] == [s[0]];
    ConcatBreakFree([s[0]], rest);
  }

  /** A proxied run in front of an output that keeps the shape. */
  lemma ProxiedRunShape(s: string, n: nat, rest: string)
    requires 0 < n <= |s| && s[0] == 'h' && KeepsShape(s[n..], rest)
    ensures KeepsShape(s, ProxyUrl(s[..n]) + rest)
  {
    var u := ProxyUrl(s[..n]);
    SplitBreakFree(s, n);
    ProxyUrlBreakFree(s[..n]);
    ConcatBreakFree(u, rest);
  }

  /** A proxy reference holds no line terminator. */
  lemma ProxyUrlBreakFree(u: string)
    ensures IsBreakFree(ProxyUrl(u)) && '\n' !in ProxyUrl(u)
  {
    var r := ProxyUrl(u);
    assert forall i :: 0 <= i < |r| ==> !IsWhitespace(r[i]);
  }

  lemma SplitBreakFree(s: string, k: nat)
    requires k <= |s|
    ensures IsBreakFree(s) ==> IsBreakFree(s[..k]) && IsBreakFree(s[k..])
    ensures '\n' !in s ==> '\n' !in s[..k] && '\n' !in s[k..]
  {
    assert s == s[..k] + s[k..];
    if IsBreakFree(s) {
      assert forall i :: 0 <= i < |s| - k ==> s[k..][i] == s[k + i];
    }
  }

  lemma ConcatBreakFree(a: string, b: string)
    ensures IsBreakFree(a) && IsBreakFree(b) ==> IsBreakFree(a + b)
    ensures '\n' !in a && '\n' !in b ==> '\n' !in a + b
  {
    if IsBreakFree(a) && IsBreakFree(b) {
      forall i | 0 <= i < |a + b| ensures !IsLineTerminator((a + b)[i]) {
        if i >= |a| { assert (a + b)[i] == b[i - |a|]; }
      }
    }
  }

  lemma GuardedAcrossBreak(a: string, x: string, p: string)
    requires x != [] && IsWhitespace(x[0])
    requires forall i :: 0 <= i < |p| ==> !IsWhitespace(p[i])
    ensures Guarded(a + x, p) <==> Guarded(a, p)
  {
    var s := a + x;
    if |a| > |p| {
      assert s[..|p|] == a[..|p|];
      assert s[|p|] == a[|p|];
    } else if |a| == |p| {
      assert IsWhitespace(s[|p|]);
    } else if |s| > |p| {
      assert s[..|p|][|a|] == x[0];
      assert s[..|p|] != p;
    }
  }

  lemma NotStartsWith(s: string, p: string)
    requires s != [] && p != [] && s[0] != p[0]
    ensures !StartsWith(s, p)
  {
    if |p| <= |s| {
      assert s[..|p|][0] != p[0];
    }
  }

  lemma {:induction false} RunAcrossBreak(a: string, x: string)
    requires x != [] && IsWhitespace(x[0])
    ensures NonWhitespaceRun(a + x) == NonWhitespaceRun(a)
    decreases |a|
  {
    if a != [] {
      RunAcrossBreak(a[1..], x);
      assert (a + x)[1..] == a[1..] + x;
    } else {
      assert a + x == x;
    }
  }

  /** A match never runs past a whitespace character. */
  lemma MatchAcrossBreak(a: string, x: string)
    requires x != [] && IsWhitespace(x[0])
    ensures MatchLength(a + x) == MatchLength(a)
  {
    GuardedAcrossBreak(a, x, "https://");
    GuardedAcrossBreak(a, x, "http://");
    if Guarded(a, "https://") {
      assert (a + x)[8..] == a[8..] + x;
      RunAcrossBreak(a[8..], x);
    } else if Guarded(a, "http://") {
      assert (a + x)[7..] == a[7..] + x;
      RunAcrossBreak(a[7..], x);
    }
  }

  lemma SweepAtBreak(w: char, b: string)
    requires IsWhitespace(w)
    ensures ProxyAbsoluteUrls([w] + b) == [w] + ProxyAbsoluteUrls(b)
  {
    var s := [w] + b;
    NotStartsWith(s, "https://");
    NotStartsWith(s, "http://");
    assert s[1..] == b;
  }

  /** Pass 1 never matches across whitespace: it commutes with any whitespace
      character, a line feed in particular. */
  lemma {:induction false} SweepAcrossBreak(a: string, w: char, b: string)
    requires IsWhitespace(w)
    ensures ProxyAbsoluteUrls(a + [w] + b) == ProxyAbsoluteUrls(a) + [w] + ProxyAbsoluteUrls(b)
    decreases |a|
  {
    if a == [] {
      assert a + [w] + b == [w] + b;
      SweepAtBreak(w, b);
    } else {
      var x := [w] + b;
      MatchAcrossBreak(a, x);
      var n := MatchLength(a);
      var k := if n == 0 then 1 else n;
      var tail := a[k..];
      var head := if n == 0 then [a[0]] else ProxyUrl(a[..n]);
      SweepStep(a, x);
      SweepAcrossBreak(tail, w, b);
      ConcatAssoc(a, [w], b);
      ConcatAssoc(tail, [w], b);
      Reassemble(head, ProxyAbsoluteUrls(tail + x), ProxyAbsoluteUrls(tail), [w], ProxyAbsoluteUrls(b));
    }
  }

  /** Regrouping of the pieces in the step case of `SweepAcrossBreak`. */
  lemma Reassemble(head: string, rest: string, pt: string, sep: string, pb: string)
    requires rest == pt + sep + pb
    ensures head + rest == (head + pt) + sep + pb
  {
  }

  lemma ConcatAssoc(a: string, b: string, c: string)
    ensures a + b + c == a + (b + c)
  {
  }

  /** One step of pass 1 on `a + x`, where `x` starts with whitespace. */
  lemma SweepStep(a: string, x: string)
    requires a != [] && x != [] && IsWhitespace(x[0])
    requires MatchLength(a + x) == MatchLength(a)
    ensures var n := MatchLength(a);
            var k := if n == 0 then 1 else n;
            var head := if n == 0 then [a[0]] else ProxyUrl(a[..n]);
            ProxyAbsoluteUrls(a + x) == head + ProxyAbsoluteUrls(a[k..] + x) &&
            ProxyAbsoluteUrls(a) == head + ProxyAbsoluteUrls(a[k..])
  {
    var n := MatchLength(a);
    var s := a + x;
    if n == 0 {
      assert s[0] == a[0];
      assert s[1..] == a[1..] + x;
    } else {
      assert s[..n] == a[..n];
      assert s[n..] == a[n..] + x;
    }
  }

  /** Pass 1 applied to each of a sequence of lines. */
  function SweepEach(ls: seq<string>): (r: seq<string>)
    ensures |r| == |ls|
    ensures forall i :: 0 <= i < |ls| ==> r[i] == ProxyAbsoluteUrls(ls[i])
  {
    seq(|ls|, i requires 0 <= i < |ls| => ProxyAbsoluteUrls(ls[i]))
  }

  lemma {:induction false} SweepJoin(ls: seq<string>)
    requires |ls| >= 1
    requires forall i :: 0 <= i < |ls| ==> '\n' !in ls[i]
    ensures ProxyAbsoluteUrls(Join(ls)) == Join(SweepEach(ls))
    decreases |ls|
  {
    if |ls| > 1 {
      SweepJoin(ls[1..]);
      SweepAcrossBreak(ls[0], '\n', Join(ls[1..]));
      assert SweepEach(ls)[1..] == SweepEach(ls[1..]);
    }
  }

  /** Pass 1 keeps the lines: line `i` of its output is pass 1 applied to
      line `i` of its input. */
  lemma SweepLines(s: string)
    ensures Lines(ProxyAbsoluteUrls(s)) == SweepEach(Lines(s))
  {
    var ls := Lines(s);
    JoinLines(s);
    SweepJoin(ls);
    forall i | 0 <= i < |ls| ensures '\n' !in SweepEach(ls)[i] {
      ProxyAbsoluteUrlsShape(ls[i]);
    }
    LinesJoin(SweepEach(ls));
  }

  /** A URL run that ends the text or is followed by whitespace leaves pass 1
      as its proxy reference, and the rest is swept on its own. */
  lemma RunReplaced(u: string, b: string)
    requires IsUrlRun(u) && (b == [] || IsWhitespace(b[0]))
    ensures ProxyAbsoluteUrls(u + b) == ProxyUrl(u) + ProxyAbsoluteUrls(b)
  {
    var s := u + b;
    assert u[..|u|] == u;
    MatchLengthIsLongestMatch(u);
    if b != [] {
      MatchAcrossBreak(u, b);
    } else {
      assert s == u;
    }
    assert s[..|u|] == u;
    assert s[|u|..] == b;
  }

  /** Text without a lower-case `h` holds no match and is kept by pass 1. */
  lemma {:induction false} KeptWithoutH(p: string, rest: string)
    requires forall i :: 0 <= i < |p| ==> p[i] != 'h'
    ensures ProxyAbsoluteUrls(p + rest) == p + ProxyAbsoluteUrls(rest)
    decreases |p|
  {
    if p != [] {
      var s := p + rest;
      assert s[0] == p[0] && s[1..] == p[1..] + rest;
      KeptChar(s);
      KeptWithoutH(p[1..], rest);
      Regroup(p, ProxyAbsoluteUrls(rest));
    } else {
      assert p + rest == rest;
    }
  }

  /** A character other than `h` starts no match, and pass 1 keeps it. */
  lemma KeptChar(s: string)
    requires s != [] && s[0] != 'h'
    ensures ProxyAbsoluteUrls(s) == [s[0]] + ProxyAbsoluteUrls(s[1..])
  {
    NotStartsWith(s, "https://");
    NotStartsWith(s, "http://");
  }

  lemma Regroup(p: string, r: string)
    requires p != []
    ensures [p[0]] + (p[1..] + r) == p + r
  {
    assert p == [p[0]] + p[1..];
  }

  /** A run that reaches a closing `"` takes it in: the quoted URI of a tag
      attribute is proxied together with its closing quote (as `%22`), and the
      attribute loses its closing quote. */
  lemma ClosingQuoteJoinsRun(u: string, rest: string)
    requires IsUrlRun(u)
    ensures MatchLength(u + "\"" + rest) > |u|
  {
    var s := u + "\"" + rest;
    assert s[..|u|] == u;
    assert s[..|u| + 1] == u + "\"";
    assert IsUrlRun(s[..|u| + 1]) by {
      assert s[..|u| + 1][..7] == u[..7];
      assert |u| > 8 ==> s[..|u| + 1][..8] == u[..8];
    }
    MatchLengthIsLongestMatch(s);
  }

  // ---------------------------------------------------------------------
  // Pass 2: /^([^#\n][^\n]*)$/gm

  /** Can a match of pass 2 start at index `j` of a line? With the `m` flag,
      `^` holds at the start of the text and after any line terminator, so
      inside a `"\n"`-free line also after `\r`, U+2028 and U+2029. */
  predicate IsMatchStart(line: string, j: int) {
    0 <= j < |line| && (j == 0 || IsLineTerminator(line[j - 1])) &&
    line[j] != '#' && line[j] != '\n'
  }

  /** The first index from `j` on where a match of pass 2 starts. Once it
      starts, `[^\n]*` runs to the end of the line, where `$` holds. */
  function FirstMatchStart(line: string, j: nat): (r: Option<nat>)
    ensures r.Some? ==> j <= r.value && IsMatchStart(line, r.value)
    ensures r.Some? ==> forall k :: j <= k < r.value ==> !IsMatchStart(line, k)
    ensures r.None? ==> forall k :: j <= k < |line| ==> !IsMatchStart(line, k)
    decreases |line| - j
  {
    if j >= |line| then None
    else if IsMatchStart(line, j) then Some(j)
    else FirstMatchStart(line, j + 1)
  }

  /** The replacement callback of pass 2 (index.js:224-233); `None` is the
      `TypeError` of `new URL`. Only the resolution of a relative line can
      fail, and whatever the callback changes becomes a proxy reference. */
  function RewriteUri(m: string, base: string): (r: Option<string>)
    ensures r.None? ==> Resolve(m, base).None?
    ensures r.Some? && r.value != m ==> StartsWith(r.value, ProxyQuery)
  {
    if StartsWith(m, ProxyPrefix) then Some(m)
    else if StartsWith(m, "#") then Some(m)
    else if StartsWith(m, "http") then Some(ProxyUrl(m))
    else
      match Resolve(m, base)
      case Some(t) => Some(ProxyUrl(t))
      case None => None
  }

  /** Pass 2 on one `"\n"`-free line: at most one match, from its first
      match start to its end. */
  function RewriteLine(line: string, base: string): (r: Option<string>)
    ensures r.None? ==> Parse(base).scheme.None?
    ensures r.Some? && FirstMatchStart(line, 0).Some? ==>
              var j := FirstMatchStart(line, 0).value;
              |r.value| >= j && r.value[..j] == line[..j]
  {
    match FirstMatchStart(line, 0)
    case None => Some(line)
    case Some(j) =>
      match RewriteUri(line[j..], base)
      case Some(t) => Some(line[..j] + t)
      case None => None
  }

  /** The callback never sees a line starting with `#`: its check for one
      (index.js:226) can never succeed. */
  lemma HashCheckUnreachable(line: string, base: string)
    requires FirstMatchStart(line, 0).Some?
    ensures !StartsWith(line[FirstMatchStart(line, 0).value..], "#")
  {
    var j := FirstMatchStart(line, 0).value;
    assert line[j..][0] == line[j];
  }

  /** What the callback returns for a match starts with `/proxy`, and holds no
      line feed when the match holds none. */
  lemma RewriteUriProxied(m: string, base: string)
    requires m != [] && m[0] != '#'
    requires RewriteUri(m, base).Some?
    ensures StartsWith(RewriteUri(m, base).value, ProxyPrefix)
    ensures '\n' !in m ==> '\n' !in RewriteUri(m, base).value
  {
    var t := RewriteUri(m, base).value;
    if !StartsWith(m, ProxyPrefix) {
      assert forall i :: 0 <= i < |t| ==> !IsWhitespace(t[i]);
    }
  }

  /** The shape of a line after pass 2: empty lines stay empty, a line
      starting with `#` still does (and is untouched when it holds no line
      terminator), every other line starts with `/proxy`. */
  lemma RewriteLineShape(line: string, base: string)
    requires '\n' !in line
    requires RewriteLine(line, base).Some?
    ensures var out := RewriteLine(line, base).value;
            '\n' !in out &&
            (out == [] <==> line == []) &&
            (line != [] ==> (out[0] == '#' <==> line[0] == '#')) &&
            (line != [] && line[0] != '#' ==> StartsWith(out, ProxyPrefix)) &&
            (line != [] && line[0] == '#' && IsBreakFree(line) ==> out == line)
  {
    var out := RewriteLine(line, base).value;
    match FirstMatchStart(line, 0)
    case None =>
    case Some(j) =>
      var m := line[j..];
      assert m[0] == line[j];
      assert '\n' !in m;
      RewriteUriProxied(m, base);
      var t := RewriteUri(m, base).value;
      assert out == line[..j] + t;
      if j > 0 {
        assert out[0] == line[0];
        assert line[0] == '#' by {
          assert !IsMatchStart(line, 0);
        }
        assert !IsBreakFree(line) by { assert IsLineTerminator(line[j - 1]); }
      }
  }

  /** Pass 2 on its own output changes nothing. */
  lemma RewriteLineIdempotent(line: string, base: string)
    requires RewriteLine(line, base).Some?
    ensures RewriteLine(RewriteLine(line, base).value, base) == RewriteLine(line, base)
  {
    var out := RewriteLine(line, base).value;
    match FirstMatchStart(line, 0)
    case None =>
    case Some(j) =>
      var m := line[j..];
      assert m[0] == line[j];
      RewriteUriProxied(m, base);
      var t := RewriteUri(m, base).value;
      assert out == line[..j] + t;
      assert out[j] == t[0] == '/';
      forall k | 0 <= k < j ensures IsMatchStart(out, k) == IsMatchStart(line, k) {
        assert out[k] == line[k];
        if k > 0 { assert out[k - 1] == line[k - 1]; }
      }
      assert j > 0 ==> out[j - 1] == line[j - 1];
      assert IsMatchStart(out, j);
      var r := FirstMatchStart(out, 0);
      assert r.Some? && r.value == j;
      assert out[j..] == t;
      assert StartsWith(t, ProxyPrefix);
      assert out[..j] == line[..j];
  }

  // ---------------------------------------------------------------------
  // The two passes over a whole playlist

  /** Pass 2 on every line; `None` as soon as one line fails. */
  function RewriteEach(ls: seq<string>, base: string): (r: Option<seq<string>>)
    ensures r.Some? ==> |r.value| == |ls|
    ensures r.Some? ==> forall i :: 0 <= i < |ls| ==> RewriteLine(ls[i], base) == Some(r.value[i])
    ensures r.None? ==> exists i :: 0 <= i < |ls| && RewriteLine(ls[i], base).None?
    decreases |ls|
  {
    if ls == [] then Some([])
    else
      match (RewriteLine(ls[0], base), RewriteEach(ls[1..], base))
      case (Some(h), Some(t)) => Some([h] + t)
      case (None, _) => None
      case (_, None) =>
        assert exists i :: 1 <= i < |ls| && RewriteLine(ls[i], base).None? by {
          var i :| 0 <= i < |ls[1..]| && RewriteLine(ls[1..][i], base).None?;
          assert ls[1..][i] == ls[i + 1];
        }
        None
  }

  /** Pass 2 over the whole text (index.js:222-234): it fails exactly when
      some line fails, which needs a base without a scheme. */
  function ProxyUriLines(text: string, base: string): (r: Option<string>)
    ensures r.None? <==> exists i :: 0 <= i < |Lines(text)| && RewriteLine(Lines(text)[i], base).None?
    ensures r.None? ==> Parse(base).scheme.None?
  {
    var ls := Lines(text);
    var each := RewriteEach(ls, base);
    if each.None? then
      var i :| 0 <= i < |ls| && RewriteLine(ls[i], base).None?;
      assert RewriteLine(Lines(text)[i], base).None?;
      assert exists k :: 0 <= k < |Lines(text)| && RewriteLine(Lines(text)[k], base).None?;
      None
    else
      assert forall i :: 0 <= i < |ls| ==> RewriteLine(ls[i], base) == Some(each.value[i]);
      Some(Join(each.value))
  }

  /** The playlist rewriter: pass 1, then pass 2; `base` is the URL the
      playlist was fetched from. */
  function RewritePlaylist(text: string, base: string): (r: Option<string>)
    ensures r.None? ==> Parse(base).scheme.None?
  {
    ProxyUriLines(ProxyAbsoluteUrls(text), base)
  }

  /** Pass 2 keeps the lines, rewriting each on its own. */
  lemma ProxyUriLinesLines(text: string, base: string)
    requires ProxyUriLines(text, base).Some?
    ensures var outs := Lines(ProxyUriLines(text, base).value);
            |outs| == |Lines(text)| &&
            forall i :: 0 <= i < |outs| ==> RewriteLine(Lines(text)[i], base) == Some(outs[i])
  {
    var ins := Lines(text);
    var ls := RewriteEach(ins, base).value;
    forall i | 0 <= i < |ls| ensures '\n' !in ls[i] {
      RewriteLineShape(ins[i], base);
    }
    LinesJoin(ls);
  }

  /** Line `i` of the rewritten playlist is line `i` of the upstream playlist
      taken through both passes: nothing is inserted, dropped or reordered. */
  lemma RewritePlaylistLines(text: string, base: string)
    requires RewritePlaylist(text, base).Some?
    ensures var outs := Lines(RewritePlaylist(text, base).value);
            |outs| == |Lines(text)| &&
            forall i :: 0 <= i < |outs| ==>
              RewriteLine(ProxyAbsoluteUrls(Lines(text)[i]), base) == Some(outs[i])
  {
    SweepLines(text);
    ProxyUriLinesLines(ProxyAbsoluteUrls(text), base);
  }

  /** After both passes every line is empty, a tag or comment (`#`), or a
      proxy reference; empty lines stay empty, `#` lines stay `#` lines and,
      when free of line terminators, are exactly what pass 1 made of them. */
  lemma RewritePlaylistShape(text: string, base: string, i: int)
    requires RewritePlaylist(text, base).Some?
    requires 0 <= i < |Lines(text)|
    ensures var line := Lines(text)[i];
            var outs := Lines(RewritePlaylist(text, base).value);
            i < |outs| &&
            (line == [] ==> outs[i] == []) &&
            (line != [] && line[0] == '#' ==> outs[i] != [] && outs[i][0] == '#') &&
            (line != [] && line[0] == '#' && IsBreakFree(line) ==> outs[i] == ProxyAbsoluteUrls(line)) &&
            (line != [] && line[0] != '#' ==> StartsWith(outs[i], ProxyPrefix))
  {
    RewritePlaylistLines(text, base);
    var line := Lines(text)[i];
    ProxyAbsoluteUrlsShape(line);
    RewriteLineShape(ProxyAbsoluteUrls(line), base);
  }

  /** Pass 2 applied to its own output changes nothing. */
  lemma ProxyUriLinesIdempotent(text: string, base: string)
    requires ProxyUriLines(text, base).Some?
    ensures ProxyUriLines(ProxyUriLines(text, base).value, base) == ProxyUriLines(text, base)
  {
    var out := ProxyUriLines(text, base).value;
    ProxyUriLinesLines(text, base);
    var outs := Lines(out);
    var again := RewriteEach(outs, base);
    forall i | 0 <= i < |outs| ensures RewriteLine(outs[i], base) == Some(outs[i]) {
      RewriteLineIdempotent(Lines(text)[i], base);
    }
    assert again.value == outs;
    JoinLines(out);
  }

  /** Pass 2 can only fail on a base that is not an absolute URI; the
      playlist's own URL, already fetched, always is one. */
  lemma RewriteSucceedsOnAbsoluteBase(text: string, base: string)
    requires Parse(base).scheme.Some?
    ensures RewritePlaylist(text, base).Some?
  {
    var ls := Lines(ProxyAbsoluteUrls(text));
    assert RewriteEach(ls, base).Some?;
  }

  /** The `url` parameter of a rewritten URI line decodes to the line itself
      when it starts with `http`, and otherwise to the line resolved against
      the playlist URL. */
  lemma RewriteUriTarget(m: string, base: string)
    requires !StartsWith(m, ProxyPrefix) && !StartsWith(m, "#")
    requires RewriteUri(m, base).Some?
    ensures var out := RewriteUri(m, base).value;
            StartsWith(out, ProxyQuery) &&
            Decode(out[|ProxyQuery|..]) == Some(if StartsWith(m, "http") then m else Resolve(m, base).value)
  {
    if StartsWith(m, "http") {
      ProxyUrlRoundTrip(m);
    } else {
      ProxyUrlRoundTrip(Resolve(m, base).value);
    }
  }

  /** Resolving a relative line first, or wrapping the absolute URL it
      resolves to, sends the client to the same place. */
  lemma RelativeLineLikeAbsolute(rel: string, base: string)
    requires Parse(base).scheme == Some("https") || Parse(base).scheme == Some("http")
    requires rel != [] && !StartsWith(rel, ProxyPrefix) && !StartsWith(rel, "#") && !StartsWith(rel, "http")
    requires Parse(rel).scheme.None?
    ensures RewriteUri(rel, base).Some?
    ensures RewriteUri(rel, base) == RewriteUri(Resolve(rel, base).value, base)
  {
    ResolvedKeepsBaseScheme(rel, base);
    var t := Resolve(rel, base).value;
    StartsWithHttp(t, Parse(base).scheme.value);
    assert RewriteUri(rel, base) == Some(ProxyUrl(t));
  }

  lemma StartsWithHttp(t: string, sch: string)
    requires sch == "https" || sch == "http"
    requires StartsWith(t, sch + ":")
    ensures StartsWith(t, "http") && !StartsWith(t, ProxyPrefix) && !StartsWith(t, "#")
    ensures RewriteUri(t, "") == Some(ProxyUrl(t))
  {
    assert t[..|sch| + 1] == sch + ":";
    assert t[..4] == (sch + ":")[..4] == "http";
    assert t[0] == 'h';
  }

  // ---------------------------------------------------------------------
  // What the two passes make of particular lines

  /** Pass 2 leaves a `#` line alone when it holds no line terminator. */
  lemma HashLineKept(line: string, base: string)
    requires line != [] && line[0] == '#' && IsBreakFree(line)
    ensures RewriteLine(line, base) == Some(line)
  {
    forall k | 0 <= k < |line| ensures !IsMatchStart(line, k) {
      if k > 0 {
        assert !IsLineTerminator(line[k - 1]);
      }
    }
  }

  /** A line that is one absolute URL comes out of both passes as its proxy
      reference: pass 1 wraps it, and pass 2 keeps what starts with `/proxy`. */
  lemma AbsoluteUriLine(line: string, base: string)
    requires IsUrlRun(line)
    ensures ProxyAbsoluteUrls(line) == ProxyUrl(line)
    ensures RewriteLine(ProxyAbsoluteUrls(line), base) == Some(ProxyUrl(line))
  {
    RunReplaced(line, []);
    assert line + [] == line;
    var u := ProxyUrl(line);
    assert IsMatchStart(u, 0);
    assert FirstMatchStart(u, 0) == Some(0);
    assert u[0..] == u;
    assert u[..0] + u == u;
  }

  /** A relative URI inside a tag attribute is not proxied: pass 1 only
      matches `http`, and pass 2 leaves `#` lines alone. */
  lemma TagUriWithoutUrlKept(line: string, base: string)
    requires line != [] && line[0] == '#' && IsBreakFree(line)
    requires forall i :: 0 <= i < |line| ==> line[i] != 'h'
    ensures RewriteLine(ProxyAbsoluteUrls(line), base) == Some(line)
  {
    KeptWithoutH(line, []);
    assert line + [] == line;
    HashLineKept(line, base);
  }

  const KeyTag := "#EXT-X-KEY:METHOD=AES-128,URI=\"key.bin\""
  const KeyTagHead := "#EXT-X-KEY:METHOD=AES-128,URI=\""
  const QuotedRun := "https://k/key\",IV=0x1"
  const NestedRun := "https://x"

  lemma KeyTagFacts()
    ensures forall i :: 0 <= i < |KeyTag| ==> KeyTag[i] != 'h' && !IsLineTerminator(KeyTag[i])
    ensures forall i :: 0 <= i < |KeyTagHead| ==> KeyTagHead[i] != 'h' && !IsLineTerminator(KeyTagHead[i])
  {
  }

  lemma QuotedRunIsUrlRun()
    ensures IsUrlRun(QuotedRun)
  {
    assert QuotedRun[..8] == "https://";
    assert forall i :: 0 <= i < |QuotedRun| ==> '!' <= QuotedRun[i] <= '~';
    PrintableRunHasNoWhitespace(QuotedRun);
  }

  /** Printable ASCII other than the space holds no whitespace character. */
  lemma PrintableRunHasNoWhitespace(s: string)
    requires forall i :: 0 <= i < |s| ==> '!' <= s[i] <= '~'
    ensures forall i :: 0 <= i < |s| ==> !IsWhitespace(s[i])
  {
  }

  lemma NestedRunIsUrlRun()
    ensures IsUrlRun(NestedRun)
  {
    assert NestedRun[..8] == "https://";
  }

  /** The key of `#EXT-X-KEY:METHOD=AES-128,URI="key.bin"` stays a relative
      URI that the player resolves against `/proxy`, not against upstream. */
  lemma RelativeKeyUriKept(base: string)
    ensures RewriteLine(ProxyAbsoluteUrls(KeyTag), base) == Some(KeyTag)
  {
    KeyTagFacts();
    TagUriWithoutUrlKept(KeyTag, base);
  }

  /** An absolute URI in a quoted attribute takes in everything up to the
      next whitespace: the closing quote and the attributes after it are
      encoded into the proxy reference, so the tag loses its `IV`. */
  lemma QuotedUriTakesLaterAttributes(base: string)
    ensures ProxyAbsoluteUrls(KeyTagHead + QuotedRun) == KeyTagHead + ProxyUrl(QuotedRun)
    ensures RewriteLine(ProxyAbsoluteUrls(KeyTagHead + QuotedRun), base) == Some(KeyTagHead + ProxyUrl(QuotedRun))
  {
    KeyTagFacts();
    QuotedRunIsUrlRun();
    TagEndingInRun(KeyTagHead, QuotedRun, base);
  }

  /** A `#` line whose only `h` starts a URL run that fills the rest of it:
      pass 1 replaces the whole run, and pass 2 keeps the line. */
  lemma TagEndingInRun(head: string, run: string, base: string)
    requires head != [] && head[0] == '#'
    requires forall i :: 0 <= i < |head| ==> head[i] != 'h' && !IsLineTerminator(head[i])
    requires IsUrlRun(run)
    ensures ProxyAbsoluteUrls(head + run) == head + ProxyUrl(run)
    ensures RewriteLine(ProxyAbsoluteUrls(head + run), base) == Some(head + ProxyUrl(run))
  {
    KeptWithoutH(head, run);
    AbsoluteUriLine(run, base);
    var out := head + ProxyUrl(run);
    ProxyUrlBreakFree(run);
    ConcatBreakFree(head, ProxyUrl(run));
    assert out[0] == '#';
    HashLineKept(out, base);
  }

  /** Pass 1 can make a raw upstream URL: in `http:/https://x` the inner URL is
      replaced, and the output `http://proxy?url=…` is itself a run pass 1
      would match. */
  lemma SweepCreatesUrl()
    ensures ProxyAbsoluteUrls("http:/" + NestedRun) == "http:/" + ProxyUrl(NestedRun)
    ensures MatchLength(ProxyAbsoluteUrls("http:/" + NestedRun)) > 0
  {
    NestedRunIsUrlRun();
    RunAfterBrokenScheme(NestedRun);
  }

  lemma RunAfterBrokenScheme(t: string)
    requires IsUrlRun(t) && StartsWith(t, "https://")
    ensures ProxyAbsoluteUrls("http:/" + t) == "http:/" + ProxyUrl(t)
    ensures MatchLength(ProxyAbsoluteUrls("http:/" + t)) > 0
  {
    NoMatchAtBrokenScheme(t);
    KeptWithoutH("ttp:/", t);
    AbsoluteUriLine(t, "");
    Regroup("http:/", ProxyUrl(t));
    ProxyInsideScheme(ProxyUrl(t));
  }

  /** `http:/` followed by a URL is no match at its `h`. */
  lemma NoMatchAtBrokenScheme(t: string)
    requires StartsWith(t, "https://")
    ensures ProxyAbsoluteUrls("http:/" + t) == "h" + ProxyAbsoluteUrls("ttp:/" + t)
  {
    var s := "http:/" + t;
    assert s[4] == ':' && s[6] == t[0] == t[..8][0] == 'h';
    NoMatchAt(s, 4, "https://");
    NoMatchAt(s, 6, "http://");
    assert s[1..] == "ttp:/" + t;
  }

  /** A character that differs from `p` at position `i` rules out `p`. */
  lemma NoMatchAt(s: string, i: nat, p: string)
    requires i < |s| && i < |p| && s[i] != p[i]
    ensures !StartsWith(s, p)
  {
    if |p| <= |s| {
      assert s[..|p|][i] == s[i];
    }
  }

  /** `http:/` in front of a proxy reference reads as `http://proxy…`. */
  lemma ProxyInsideScheme(u: string)
    requires StartsWith(u, ProxyPrefix)
    ensures MatchLength("http:/" + u) > 0
  {
    var s := "http:/" + u;
    assert u[..6] == ProxyPrefix;
    assert s[..7] == "http://";
    assert s[7] == u[1] == 'p';
  }
}
