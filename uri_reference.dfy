/** URI references and their resolution against a base URI, as section 5.2 of
    RFC 3986 defines them: the split into components (Appendix B), the
    resolution of a reference (5.2.2), the merge of paths (5.2.3), the removal
    of dot segments (5.2.4) and recomposition (5.3). This stands for
    `new URL(line, targetUrl).toString()`. */
module UriReference {
  import opened Wrappers
  import opened Text

  /** The five components of a URI reference; an absent component is `None`,
      an empty one `Some("")`. */
  datatype Reference = Reference(
    scheme: Option<string>,
    authority: Option<string>,
    path: string,
    query: Option<string>,
    fragment: Option<string>)

  predicate IsAlpha(c: char) { ('A' <= c <= 'Z') || ('a' <= c <= 'z') }

  /** `scheme = ALPHA *( ALPHA / DIGIT / "+" / "-" / "." )` (section 3.1). */
  predicate IsScheme(s: string) {
    |s| >= 1 && IsAlpha(s[0]) &&
    forall i :: 1 <= i < |s| ==> IsAlpha(s[i]) || ('0' <= s[i] <= '9') || s[i] in "+-."
  }

  /** Length of the longest prefix of `s` holding none of the characters in `stops`. */
  function SpanNot(s: string, stops: string): (k: nat)
    ensures k <= |s|
    ensures k < |s| ==> s[k] in stops
    decreases |s|
  {
    if s == [] || s[0] in stops then 0 else 1 + SpanNot(s[1..], stops)
  }

  /** The query and fragment in what follows the path (empty, or starting
      with "?" or "#"). */
  function QueryAndFragment(rest: string): (Option<string>, Option<string>) {
    if rest != [] && rest[0] == '?' then
      var q := 1 + SpanNot(rest[1..], "#");
      var after := rest[q..];
      (Some(rest[1..q]), if after == [] then None else Some(after[1..]))
    else
      (None, if rest == [] then None else Some(rest[1..]))
  }

  /** Everything after the optional authority: path, `?query`, `#fragment`. */
  function ParsePathOn(s: string, scheme: Option<string>, authority: Option<string>): Reference {
    var p := SpanNot(s, "?#");
    var qf := QueryAndFragment(s[p..]);
    Reference(scheme, authority, s[..p], qf.0, qf.1)
  }

  /** The optional `//authority` and what follows it. */
  function ParseAfterScheme(s: string, scheme: Option<string>): Reference {
    if StartsWith(s, "//") then
      var j := 2 + SpanNot(s[2..], "/?#");
      ParsePathOn(s[j..], scheme, Some(s[2..j]))
    else
      ParsePathOn(s, scheme, None)
  }

  /** The split of a reference into its components. */
  function Parse(s: string): (r: Reference)
    ensures r.scheme.Some? ==> IsScheme(r.scheme.value) && StartsWith(s, r.scheme.value + ":")
  {
    var k := SpanNot(s, ":/?#");
    if k < |s| && s[k] == ':' && IsScheme(s[..k]) then ParseAfterScheme(s[k + 1..], Some(s[..k]))
    else ParseAfterScheme(s, None)
  }

  function Prefixed(mark: string, c: Option<string>): string {
    match c
    case Some(v) => mark + v
    case None => []
  }

  /** The path, query and fragment part of a recomposed reference. */
  function PathAndAfter(r: Reference): string {
    r.path + (Prefixed("?", r.query) + Prefixed("#", r.fragment))
  }

  /** Component recomposition (section 5.3). */
  function Recompose(r: Reference): string {
    (match r.scheme case Some(v) => v + ":" case None => []) +
    (Prefixed("//", r.authority) + PathAndAfter(r))
  }

  /** Query and fragment recompose to what follows the path. */
  lemma QueryAndFragmentRecompose(rest: string)
    requires rest == [] || rest[0] in "?#"
    ensures Prefixed("?", QueryAndFragment(rest).0) + Prefixed("#", QueryAndFragment(rest).1) == rest
  {
    if rest != [] && rest[0] == '?' {
      var q := 1 + SpanNot(rest[1..], "#");
      var after := rest[q..];
      assert rest == "?" + rest[1..q] + after;
      if after != [] {
        assert after[0] == '#';
        assert after == "#" + after[1..];
      }
    } else if rest != [] {
      assert rest == "#" + rest[1..];
    }
  }

  lemma PathOnRecompose(s: string, scheme: Option<string>, authority: Option<string>)
    ensures ParsePathOn(s, scheme, authority).scheme == scheme
    ensures ParsePathOn(s, scheme, authority).authority == authority
    ensures PathAndAfter(ParsePathOn(s, scheme, authority)) == s
  {
    var p := SpanNot(s, "?#");
    var rest := s[p..];
    var r := ParsePathOn(s, scheme, authority);
    assert rest != [] ==> rest[0] == s[p];
    QueryAndFragmentRecompose(rest);
    calc {
      PathAndAfter(r);
      r.path + (Prefixed("?", r.query) + Prefixed("#", r.fragment));
      s[..p] + rest;
      { assert s == s[..p] + s[p..]; }
      s;
    }
  }

  lemma AfterSchemeRecompose(s: string, scheme: Option<string>)
    ensures ParseAfterScheme(s, scheme).scheme == scheme
    ensures Prefixed("//", ParseAfterScheme(s, scheme).authority) + PathAndAfter(ParseAfterScheme(s, scheme)) == s
  {
    if StartsWith(s, "//") {
      var j := 2 + SpanNot(s[2..], "/?#");
      assert ParseAfterScheme(s, scheme) == ParsePathOn(s[j..], scheme, Some(s[2..j]));
      AuthorityRecompose(s, j, scheme);
    } else {
      PathOnRecompose(s, scheme, None);
    }
  }

  lemma AuthorityRecompose(s: string, j: nat, scheme: Option<string>)
    requires StartsWith(s, "//") && 2 <= j <= |s|
    ensures Prefixed("//", ParsePathOn(s[j..], scheme, Some(s[2..j])).authority) +
              PathAndAfter(ParsePathOn(s[j..], scheme, Some(s[2..j]))) == s
  {
    var r := ParsePathOn(s[j..], scheme, Some(s[2..j]));
    PathOnRecompose(s[j..], scheme, Some(s[2..j]));
    assert Prefixed("//", r.authority) == "//" + s[2..j];
    SplitAfterSlashes(s, j);
  }

  lemma SplitAfterSlashes(s: string, j: nat)
    requires StartsWith(s, "//") && 2 <= j <= |s|
    ensures ("//" + s[2..j]) + s[j..] == s
  {
    assert s[..2] == "//";
    assert s[..j] == s[..2] + s[2..j];
    assert s == s[..j] + s[j..];
  }

  lemma SplitAtColon(s: string, k: nat)
    requires k < |s| && s[k] == ':'
    ensures s == (s[..k] + ":") + s[k + 1..]
  {
  }

  lemma RecomposeAfterScheme(scheme: Option<string>, tail: string)
    ensures Recompose(ParseAfterScheme(tail, scheme)) ==
              (match scheme case Some(v) => v + ":" case None => []) + tail
  {
    AfterSchemeRecompose(tail, scheme);
  }

  /** Splitting a reference loses nothing: recomposing the parts gives it back. */
  lemma RecomposeParse(s: string)
    ensures Recompose(Parse(s)) == s
  {
    var k := SpanNot(s, ":/?#");
    if k < |s| && s[k] == ':' && IsScheme(s[..k]) {
      RecomposeAfterScheme(Some(s[..k]), s[k + 1..]);
      SplitAtColon(s, k);
    } else {
      RecomposeAfterScheme(None, s);
    }
  }

  // ---------------------------------------------------------------------
  // Paths

  /** Index of the last occurrence of `c` in `s`, or -1. */
  function LastIndexOf(s: string, c: char): (r: int)
    ensures -1 <= r < |s|
    ensures r >= 0 ==> s[r] == c
    ensures forall i :: r < i < |s| ==> s[i] != c
    decreases |s|
  {
    if s == [] then -1
    else if s[|s| - 1] == c then |s| - 1
    else LastIndexOf(s[..|s| - 1], c)
  }

  /** The base path without its last segment: everything up to and including
      the right-most "/", or nothing when there is no "/". */
  function Directory(p: string): (d: string)
    ensures StartsWith(p, d)
    ensures d == [] || d[|d| - 1] == '/'
    ensures forall i :: |d| <= i < |p| ==> p[i] != '/'
  {
    p[..LastIndexOf(p, '/') + 1]
  }

  /** Merge of a relative-path reference with the base path (section 5.2.3). */
  function Merge(base: Reference, refPath: string): (m: string)
    ensures EndsWith(m, refPath)
    ensures base.authority.Some? && base.path == [] ==> m[..|m| - |refPath|] == "/"
    ensures base.authority.None? || base.path != [] ==>
              var d := m[..|m| - |refPath|];
              StartsWith(base.path, d) && (d == [] || d[|d| - 1] == '/') &&
              forall i :: |d| <= i < |base.path| ==> base.path[i] != '/'
  {
    var d := if base.authority.Some? && base.path == [] then "/" else Directory(base.path);
    var m := d + refPath;
    assert m[..|d|] == d && m[|d|..] == refPath;
    m
  }

  /** How long the first segment of `p` is, its leading "/" included. */
  function SegmentEnd(p: string): (k: nat)
    requires p != []
    ensures 1 <= k <= |p|
  {
    if p[0] == '/' then 1 + SpanNot(p[1..], "/") else SpanNot(p, "/")
  }

  /** The output buffer without its last segment and the "/" before it. */
  function DropLastSegment(out: string): (r: string)
    ensures StartsWith(out, r)
    ensures forall i :: |r| < i < |out| ==> out[i] != '/'
  {
    var i := LastIndexOf(out, '/');
    if i < 0 then [] else out[..i]
  }

  /** The loop of section 5.2.4: `input` is the input buffer, `out` the output buffer. */
  function RemoveDots(input: string, out: string): (r: string)
    ensures |r| <= |out| + |input|
    decreases |input|
  {
    if input == [] then out
    else if StartsWith(input, "../") then RemoveDots(input[3..], out)            // A
    else if StartsWith(input, "./") then RemoveDots(input[2..], out)             // A
    else if StartsWith(input, "/./") then RemoveDots(input[2..], out)            // B
    else if input == "/." then RemoveDots("/", out)                              // B
    else if StartsWith(input, "/../") then RemoveDots(input[3..], DropLastSegment(out)) // C
    else if input == "/.." then RemoveDots("/", DropLastSegment(out))            // C
    else if input == "." || input == ".." then out                               // D
    else var k := SegmentEnd(input); RemoveDots(input[k..], out + input[..k])    // E
  }

  function RemoveDotSegments(p: string): string {
    RemoveDots(p, [])
  }

  /** The name of the first segment of `p`, without its leading "/". */
  function FirstSegmentName(p: string): string
    requires p != []
  {
    var k := SegmentEnd(p);
    if p[0] == '/' then p[1..k] else p[..k]
  }

  /** A path none of whose segments is "." or "..". */
  predicate NoDotSegments(p: string)
    decreases |p|
  {
    p == [] ||
    (FirstSegmentName(p) != "." && FirstSegmentName(p) != ".." && NoDotSegments(p[SegmentEnd(p)..]))
  }

  lemma RuleAFirstName(input: string)
    requires StartsWith(input, "../") || StartsWith(input, "./")
    ensures FirstSegmentName(input) == "." || FirstSegmentName(input) == ".."
  {
    if StartsWith(input, "../") {
      RuleADotDotSlash(input);
    } else {
      RuleADotSlash(input);
    }
  }

  lemma RuleADotDotSlash(input: string)
    requires StartsWith(input, "../")
    ensures FirstSegmentName(input) == ".."
  {
    assert input[..3] == "../";
    assert input[0] == '.' && input[1] == '.' && input[2] == '/';
    assert SpanNot(input[2..], "/") == 0;
    assert SpanNot(input[1..], "/") == 1;
    assert SpanNot(input, "/") == 2;
    assert SegmentEnd(input) == 2;
    assert input[..2] == "..";
  }

  lemma RuleADotSlash(input: string)
    requires StartsWith(input, "./")
    ensures FirstSegmentName(input) == "."
  {
    assert input[..2] == "./";
    assert input[0] == '.' && input[1] == '/';
    assert SpanNot(input[1..], "/") == 0;
    assert SpanNot(input, "/") == 1;
    assert SegmentEnd(input) == 1;
    assert input[..1] == ".";
  }

  lemma RuleBCFirstName(input: string)
    requires StartsWith(input, "/./") || StartsWith(input, "/../") || input == "/." || input == "/.."
    ensures FirstSegmentName(input) == "." || FirstSegmentName(input) == ".."
  {
    if StartsWith(input, "/./") {
      RuleBSlashDot(input);
    } else if StartsWith(input, "/../") {
      RuleCSlashDotDot(input);
    } else if input == "/." {
      assert SpanNot(input[1..], "/") == 1;
    } else {
      assert input[1..][1..] == ".";
      assert SpanNot(input[1..], "/") == 2;
    }
  }

  lemma RuleBSlashDot(input: string)
    requires StartsWith(input, "/./")
    ensures FirstSegmentName(input) == "."
  {
    var t := input[1..];
    assert input[..3] == "/./";
    assert t[0] == '.' && t[1] == '/';
    assert SpanNot(t[1..], "/") == 0;
    assert SpanNot(t, "/") == 1;
    assert SegmentEnd(input) == 2;
    assert input[1..2] == ".";
  }

  lemma RuleCSlashDotDot(input: string)
    requires StartsWith(input, "/../")
    ensures FirstSegmentName(input) == ".."
  {
    var t := input[1..];
    assert input[..4] == "/../";
    assert t[0] == '.' && t[1] == '.' && t[2] == '/';
    assert SpanNot(t[2..], "/") == 0;
    assert SpanNot(t[1..], "/") == 1;
    assert SpanNot(t, "/") == 2;
    assert SegmentEnd(input) == 3;
    assert input[1..3] == "..";
  }

  lemma RuleDFirstName(input: string)
    requires input == "." || input == ".."
    ensures FirstSegmentName(input) == input
  {
    assert SpanNot(input, "/") == |input|;
  }

  /** When the first segment is not a dot segment, step E applies. */
  lemma MoveFirstSegment(input: string, out: string)
    requires input != []
    requires FirstSegmentName(input) != "." && FirstSegmentName(input) != ".."
    ensures RemoveDots(input, out) ==
              RemoveDots(input[SegmentEnd(input)..], out + input[..SegmentEnd(input)])
  {
    if StartsWith(input, "../") || StartsWith(input, "./") {
      RuleAFirstName(input);
    } else if StartsWith(input, "/./") || StartsWith(input, "/../") || input == "/." || input == "/.." {
      RuleBCFirstName(input);
    } else if input == "." || input == ".." {
      RuleDFirstName(input);
    }
  }

  /** A path without dot segments passes through the algorithm unchanged. */
  lemma {:induction false} RemoveDotsIdentity(input: string, out: string)
    requires NoDotSegments(input)
    ensures RemoveDots(input, out) == out + input
    decreases |input|
  {
    if input != [] {
      var k := SegmentEnd(input);
      MoveFirstSegment(input, out);
      RemoveDotsIdentity(input[k..], out + input[..k]);
      SplitAppend(out, input, k);
    }
  }

  lemma SplitAppend(out: string, p: string, k: nat)
    requires k <= |p|
    ensures (out + p[..k]) + p[k..] == out + p
  {
    assert p[..k] + p[k..] == p;
  }

  // ---------------------------------------------------------------------
  // Every dot segment is removed

  /** A path that is empty or starts with "/", as every path after an
      authority is (section 3.3). */
  predicate IsRooted(p: string) {
    p == [] || p[0] == '/'
  }

  /** One segment of a rooted path: "/" and a name that holds no "/". */
  predicate IsSegment(seg: string) {
    seg != [] && seg[0] == '/' && forall i :: 1 <= i < |seg| ==> seg[i] != '/'
  }

  lemma {:induction false} SpanNotSkips(s: string, stops: string)
    ensures forall i :: 0 <= i < SpanNot(s, stops) ==> s[i] !in stops
    decreases |s|
  {
    if s != [] && s[0] !in stops {
      SpanNotSkips(s[1..], stops);
      assert forall i :: 1 <= i < SpanNot(s, stops) ==> s[i] == s[1..][i - 1];
    }
  }

  lemma {:induction false} SpanNotAll(s: string)
    requires forall i :: 0 <= i < |s| ==> s[i] != '/'
    ensures SpanNot(s, "/") == |s|
    decreases |s|
  {
    if s != [] {
      SpanNotAll(s[1..]);
    }
  }

  /** The span of a text stops where it did, whatever a rooted tail adds. */
  lemma {:induction false} SpanNotAppend(x: string, y: string)
    requires IsRooted(y)
    ensures SpanNot(x + y, "/") == SpanNot(x, "/")
    decreases |x|
  {
    if x == [] {
      assert x + y == y;
    } else {
      assert (x + y)[0] == x[0];
      assert (x + y)[1..] == x[1..] + y;
      SpanNotAppend(x[1..], y);
    }
  }

  /** The first segment of a rooted path, and a rooted remainder. */
  lemma FirstSegment(p: string)
    requires p != [] && p[0] == '/'
    ensures IsSegment(p[..SegmentEnd(p)]) && IsRooted(p[SegmentEnd(p)..])
    ensures FirstSegmentName(p) == p[..SegmentEnd(p)][1..]
  {
    var k := SegmentEnd(p);
    SpanNotSkips(p[1..], "/");
    assert forall i :: 1 <= i < k ==> p[i] == p[1..][i - 1];
    if k < |p| {
      assert p[k] == p[1..][k - 1];
    }
  }

  /** A segment in front of a rooted path is that path's new first segment. */
  lemma ConsSegment(seg: string, x: string)
    requires IsSegment(seg) && IsRooted(x)
    ensures SegmentEnd(seg + x) == |seg|
    ensures FirstSegmentName(seg + x) == seg[1..] && (seg + x)[|seg|..] == x
    ensures NoDotSegments(seg + x) <==> seg[1..] != "." && seg[1..] != ".." && NoDotSegments(x)
  {
    var t := seg + x;
    assert t[1..] == seg[1..] + x;
    SpanNotAll(seg[1..]);
    SpanNotAppend(seg[1..], x);
    assert t[1..|seg|] == seg[1..];
    assert t[|seg|..] == x;
  }

  lemma Regroup(a: string, k: nat, b: string)
    requires k <= |a|
    ensures a + b == a[..k] + (a[k..] + b)
  {
    assert a == a[..k] + a[k..];
  }

  lemma {:induction false} AppendSegment(a: string, seg: string)
    requires IsRooted(a) && NoDotSegments(a)
    requires IsSegment(seg) && seg[1..] != "." && seg[1..] != ".."
    ensures IsRooted(a + seg) && NoDotSegments(a + seg)
    decreases |a|
  {
    if a == [] {
      ConsSegment(seg, []);
      assert seg + [] == seg;
      assert a + seg == seg;
    } else {
      var k := SegmentEnd(a);
      FirstSegment(a);
      AppendSegment(a[k..], seg);
      Regroup(a, k, seg);
      ConsSegment(a[..k], a[k..] + seg);
    }
  }

  lemma LastIndexOfAt(s: string, c: char, i: nat)
    requires i < |s| && s[i] == c
    requires forall j :: i < j < |s| ==> s[j] != c
    ensures LastIndexOf(s, c) == i
  {
  }

  /** Step C keeps the output buffer rooted and free of dot segments. */
  lemma {:induction false} DropLastSegmentClean(out: string)
    requires IsRooted(out) && NoDotSegments(out)
    ensures IsRooted(DropLastSegment(out)) && NoDotSegments(DropLastSegment(out))
    decreases |out|
  {
    if out != [] {
      var k := SegmentEnd(out);
      FirstSegment(out);
      var rest := out[k..];
      if rest == [] {
        LastIndexOfAt(out, '/', 0);
      } else {
        var j := DropLastInTail(out, k);
        DropLastSegmentClean(rest);
        ConsSegment(out[..k], rest[..j]);
      }
    }
  }

  /** Past a first segment that ends in a "/", the last "/" lies in the tail. */
  lemma DropLastInTail(out: string, k: nat) returns (j: nat)
    requires 0 < k < |out| && out[k] == '/'
    ensures j < |out| - k && DropLastSegment(out[k..]) == out[k..][..j]
    ensures DropLastSegment(out) == out[..k] + out[k..][..j]
  {
    var rest := out[k..];
    assert rest[0] == '/';
    j := LastIndexOf(rest, '/');
    assert out[k + j] == rest[j];
    forall i | k + j < i < |out| ensures out[i] != '/' {
      assert out[i] == rest[i - k];
    }
    LastIndexOfAt(out, '/', k + j);
    assert out[..k + j] == out[..k] + rest[..j];
  }

  /** The algorithm of section 5.2.4 removes every "." and ".." segment of a
      rooted path. */
  lemma RemoveDotSegmentsClean(p: string)
    requires IsRooted(p)
    ensures NoDotSegments(RemoveDotSegments(p))
  {
    RemoveDotsClean(p, []);
  }

  lemma {:induction false} RemoveDotsClean(input: string, out: string)
    requires IsRooted(input) && IsRooted(out) && NoDotSegments(out)
    ensures IsRooted(RemoveDots(input, out)) && NoDotSegments(RemoveDots(input, out))
    decreases |input|
  {
    if input == [] {
    } else if StartsWith(input, "/./") {
      RuleBStep(input, out);
      RemoveDotsClean(input[2..], out);
    } else if input == "/." {
      RemoveDotsClean("/", out);
    } else if StartsWith(input, "/../") {
      RuleCStep(input, out);
      DropLastSegmentClean(out);
      RemoveDotsClean(input[3..], DropLastSegment(out));
    } else if input == "/.." {
      RuleCLast(input, out);
      DropLastSegmentClean(out);
      RemoveDotsClean("/", DropLastSegment(out));
    } else {
      var k := SegmentEnd(input);
      FirstSegment(input);
      NotDotName(input);
      MoveFirstSegment(input, out);
      AppendSegment(out, input[..k]);
      RemoveDotsClean(input[k..], out + input[..k]);
    }
  }

  lemma RuleBStep(input: string, out: string)
    requires StartsWith(input, "/./")
    ensures IsRooted(input[2..]) && RemoveDots(input, out) == RemoveDots(input[2..], out)
  {
    assert input[..3] == "/./";
    assert input[2] == input[..3][2];
  }

  lemma RuleCStep(input: string, out: string)
    requires StartsWith(input, "/../")
    ensures IsRooted(input[3..]) && RemoveDots(input, out) == RemoveDots(input[3..], DropLastSegment(out))
  {
    assert input[..4] == "/../";
    assert input[0] == '/' && input[2] == '.' && input[3] == '/';
    NotRuleA(input);
    assert !StartsWith(input, "/./") by {
      assert input[2] == input[..4][2];
    }
  }

  lemma RuleCLast(input: string, out: string)
    requires input == "/.."
    ensures RemoveDots(input, out) == RemoveDots("/", DropLastSegment(out))
  {
    NotRuleA(input);
    assert |input| == 3 && input[..3] == input && input[2] == '.';
    assert !StartsWith(input, "/./") && !StartsWith(input, "/../") && input != "/.";
  }

  /** Rule A needs a leading ".". */
  lemma NotRuleA(input: string)
    requires input != [] && input[0] == '/'
    ensures !StartsWith(input, "../") && !StartsWith(input, "./")
  {
    if |input| >= 3 {
      assert input[..3][0] == '/';
    }
    if |input| >= 2 {
      assert input[..2][0] == '/';
    }
  }

  /** A rooted path that no rule among A to D matches starts with a segment
      whose name is neither "." nor "..". */
  lemma NotDotName(input: string)
    requires input != [] && input[0] == '/'
    requires !StartsWith(input, "/./") && input != "/." && !StartsWith(input, "/../") && input != "/.."
    ensures FirstSegmentName(input) != "." && FirstSegmentName(input) != ".."
  {
    DotName(input);
    DotDotName(input);
  }

  lemma DotName(input: string)
    requires input != [] && input[0] == '/'
    ensures FirstSegmentName(input) == "." ==> StartsWith(input, "/./") || input == "/."
  {
    var k := SegmentEnd(input);
    FirstSegment(input);
    if FirstSegmentName(input) == "." {
      assert k == 2 && input[1] == '.';
      if k < |input| {
        assert input[..3] == "/./";
      } else {
        assert input == "/.";
      }
    }
  }

  lemma DotDotName(input: string)
    requires input != [] && input[0] == '/'
    ensures FirstSegmentName(input) == ".." ==> StartsWith(input, "/../") || input == "/.."
  {
    var k := SegmentEnd(input);
    FirstSegment(input);
    if FirstSegmentName(input) == ".." {
      assert k == 3 && input[1] == '.' && input[2] == '.';
      if k < |input| {
        assert input[..4] == "/../";
      } else {
        assert input == "/..";
      }
    }
  }

  // ---------------------------------------------------------------------
  // Resolution

  /** Transform References (section 5.2.2, strict): the target of reference
      `R` against the absolute base `b`. */
  function Transform(R: Reference, b: Reference): (T: Reference)
    requires b.scheme.Some?
    ensures T.scheme.Some?
    ensures T.fragment == R.fragment
  {
    if R.scheme.Some? then
      Reference(R.scheme, R.authority, RemoveDotSegments(R.path), R.query, R.fragment)
    else if R.authority.Some? then
      Reference(b.scheme, R.authority, RemoveDotSegments(R.path), R.query, R.fragment)
    else if R.path == [] then
      Reference(b.scheme, b.authority, b.path, if R.query.Some? then R.query else b.query, R.fragment)
    else if R.path[0] == '/' then
      Reference(b.scheme, b.authority, RemoveDotSegments(R.path), R.query, R.fragment)
    else
      Reference(b.scheme, b.authority, RemoveDotSegments(Merge(b, R.path)), R.query, R.fragment)
  }

  /** `new URL(reference, base).toString()`: `None` when the base has no
      scheme and so is not an absolute URI (the `TypeError` of `new URL`). */
  function Resolve(reference: string, base: string): (r: Option<string>)
    ensures r.None? <==> Parse(base).scheme.None?
  {
    var b := Parse(base);
    if b.scheme.None? then None else Some(Recompose(Transform(Parse(reference), b)))
  }

  /** A reference without a scheme takes the scheme of the base. */
  lemma ResolvedKeepsBaseScheme(reference: string, base: string)
    requires Parse(base).scheme.Some? && Parse(reference).scheme.None?
    ensures Resolve(reference, base).Some?
    ensures StartsWith(Resolve(reference, base).value, Parse(base).scheme.value + ":")
  {
    var T := Transform(Parse(reference), Parse(base));
    assert T.scheme == Parse(base).scheme;
    RecomposeStartsWithScheme(T);
  }

  lemma RecomposeStartsWithScheme(T: Reference)
    requires T.scheme.Some?
    ensures StartsWith(Recompose(T), T.scheme.value + ":")
  {
    var head := T.scheme.value + ":";
    var tail := Prefixed("//", T.authority) + PathAndAfter(T);
    assert Recompose(T) == head + tail;
    assert (head + tail)[..|head|] == head;
  }

  /** A relative-path reference without dot segments, query or fragment,
      against a base with an authority and a non-empty path: the last segment
      of the base path is replaced by the reference, and nothing moves up a
      directory. */
  lemma SiblingTarget(R: Reference, b: Reference)
    requires b.scheme.Some? && b.authority.Some? && b.path != []
    requires R.scheme.None? && R.authority.None? && R.query.None? && R.fragment.None?
    requires R.path != [] && R.path[0] != '/'
    requires NoDotSegments(Directory(b.path) + R.path)
    ensures Transform(R, b) == Reference(b.scheme, b.authority, Directory(b.path) + R.path, None, None)
  {
    RemoveDotsIdentity(Directory(b.path) + R.path, []);
    assert [] + (Directory(b.path) + R.path) == Directory(b.path) + R.path;
  }

  /** A reference with a path and neither scheme nor authority, against a
      base with an authority: no "." or ".." segment is left in the target
      path, however many the reference holds. */
  lemma TransformRemovesDotSegments(R: Reference, b: Reference)
    requires b.scheme.Some? && b.authority.Some? && IsRooted(b.path)
    requires R.scheme.None? && R.authority.None? && R.path != []
    ensures NoDotSegments(Transform(R, b).path)
  {
    if R.path[0] != '/' {
      var m := Merge(b, R.path);
      if b.path != [] {
        var d := Directory(b.path);
        assert d == b.path[..LastIndexOf(b.path, '/') + 1];
        assert LastIndexOf(b.path, '/') >= 0;
        assert m[0] == d[0] == b.path[0];
      }
      RemoveDotSegmentsClean(m);
    } else {
      RemoveDotSegmentsClean(R.path);
    }
  }

  // ---------------------------------------------------------------------
  // The shapes of reference a playlist holds

  lemma {:induction false} SpanNotIs(s: string, stops: string, k: nat)
    requires k <= |s|
    requires forall i :: 0 <= i < k ==> s[i] !in stops
    requires k < |s| ==> s[k] in stops
    ensures SpanNot(s, stops) == k
    decreases k
  {
    if k > 0 {
      SpanNotIs(s[1..], stops, k - 1);
    }
  }

  /** A valid scheme followed by ":" is split off as the scheme. */
  lemma ParseScheme(scheme: string, tail: string)
    requires IsScheme(scheme)
    ensures Parse(scheme + (":" + tail)) == ParseAfterScheme(tail, Some(scheme))
  {
    var s := scheme + (":" + tail);
    var k := |scheme|;
    forall i | 0 <= i < k ensures s[i] !in ":/?#" { assert s[i] == scheme[i]; }
    SpanNotIs(s, ":/?#", k);
    assert s[..k] == scheme;
    assert s[k + 1..] == tail;
  }

  /** The authority ends where the path begins. */
  lemma AuthorityEnd(host: string, path: string)
    requires forall i :: 0 <= i < |host| ==> host[i] !in "/?#"
    requires path == [] || path[0] == '/'
    ensures SpanNot(host + path, "/?#") == |host|
  {
    var hp := host + path;
    forall i | 0 <= i < |host| ensures hp[i] !in "/?#" { assert hp[i] == host[i]; }
    if path != [] { assert hp[|host|] == path[0]; }
    SpanNotIs(hp, "/?#", |host|);
  }

  /** `//host` followed by a path that starts with "/" (or is empty) has
      exactly `host` as its authority. */
  lemma ParseAuthority(host: string, path: string, scheme: Option<string>)
    requires forall i :: 0 <= i < |host| ==> host[i] !in "/?#"
    requires path == [] || path[0] == '/'
    ensures ParseAfterScheme("//" + (host + path), scheme) == ParsePathOn(path, scheme, Some(host))
  {
    var hp := host + path;
    var tail := "//" + hp;
    assert tail[..2] == "//";
    assert tail[2..] == hp;
    AuthorityEnd(host, path);
    var j := 2 + |host|;
    assert tail[2..j] == hp[..|host|] == host;
    assert tail[j..] == hp[|host|..] == path;
  }

  /** A text free of "?" and "#" is all path. */
  lemma ParsePathOnly(path: string, scheme: Option<string>, authority: Option<string>)
    requires forall i :: 0 <= i < |path| ==> path[i] !in "?#"
    ensures ParsePathOn(path, scheme, authority) == Reference(scheme, authority, path, None, None)
  {
    SpanNotIs(path, "?#", |path|);
    assert path[|path|..] == [];
    assert path[..|path|] == path;
  }

  /** `scheme://host/path`, with a host free of "/", "?" and "#" and a path
      free of "?" and "#", splits into exactly those parts. */
  lemma ParseAbsolute(scheme: string, host: string, path: string)
    requires IsScheme(scheme)
    requires forall i :: 0 <= i < |host| ==> host[i] !in "/?#"
    requires path == [] || path[0] == '/'
    requires forall i :: 0 <= i < |path| ==> path[i] !in "?#"
    ensures Parse(scheme + "://" + host + path) == Reference(Some(scheme), Some(host), path, None, None)
  {
    assert scheme + "://" + host + path == scheme + (":" + ("//" + (host + path)));
    ParseScheme(scheme, "//" + (host + path));
    ParseAuthority(host, path, Some(scheme));
    ParsePathOnly(path, Some(scheme), Some(host));
  }

  /** A relative path without ":", "?" or "#" (and not starting with "/") is a
      reference holding only a path. */
  lemma ParseRelativePath(p: string)
    requires p != [] && p[0] != '/'
    requires forall i :: 0 <= i < |p| ==> p[i] !in ":?#"
    ensures Parse(p) == Reference(None, None, p, None, None)
  {
    var k := SpanNot(p, ":/?#");
    assert k < |p| ==> p[k] != ':';
    assert !StartsWith(p, "//");
    SpanNotIs(p, "?#", |p|);
    assert p[|p|..] == [];
  }

  lemma DirectoryOfFile(dir: string, last: string)
    requires dir != [] && dir[|dir| - 1] == '/'
    requires '/' !in last
    ensures Directory(dir + last) == dir
  {
    var s := dir + last;
    var r := LastIndexOf(s, '/');
    assert s[|dir| - 1] == '/';
    assert r == |dir| - 1;
    assert s[..|dir|] == dir;
  }

  lemma RecomposeHostPath(scheme: string, host: string, path: string)
    ensures Recompose(Reference(Some(scheme), Some(host), path, None, None)) == scheme + "://" + host + path
  {
    var T := Reference(Some(scheme), Some(host), path, None, None);
    assert PathAndAfter(T) == path;
    assert Recompose(T) == (scheme + ":") + ("//" + host + path);
  }

  /** The resolution every relative playlist line goes through: against
      `scheme://host/dir/last`, a relative path `name` without dot segments
      lands beside `last`, in the same directory. */
  lemma ResolveBesideBase(scheme: string, host: string, dir: string, last: string, name: string)
    requires IsScheme(scheme)
    requires forall i :: 0 <= i < |host| ==> host[i] !in "/?#"
    requires dir != [] && dir[0] == '/' && dir[|dir| - 1] == '/'
    requires forall i :: 0 <= i < |dir| ==> dir[i] !in "?#"
    requires forall i :: 0 <= i < |last| ==> last[i] !in "/?#"
    requires name != [] && name[0] != '/'
    requires forall i :: 0 <= i < |name| ==> name[i] !in ":?#"
    requires NoDotSegments(dir + name)
    ensures Resolve(name, scheme + "://" + host + (dir + last)) == Some(scheme + "://" + host + (dir + name))
  {
    var path := dir + last;
    forall i | 0 <= i < |path| ensures path[i] !in "?#" {
      if i >= |dir| { assert path[i] == last[i - |dir|]; }
    }
    var base := scheme + "://" + host + path;
    ParseAbsolute(scheme, host, path);
    var b := Reference(Some(scheme), Some(host), path, None, None);
    assert Parse(base) == b;
    ParseRelativePath(name);
    var R := Reference(None, None, name, None, None);
    DirectoryOfFile(dir, last);
    SiblingTarget(R, b);
    var T := Reference(Some(scheme), Some(host), dir + name, None, None);
    assert Transform(R, b) == T;
    assert Resolve(name, base) == Some(Recompose(T));
    RecomposeHostPath(scheme, host, dir + name);
  }
}
