/** The string primitives the source relies on (`startsWith`, `endsWith`,
    `includes`, `replace` with a string pattern) and the split of a text into
    its `"\n"`-separated lines. */
module Text {

  /** `s.startsWith(p)` */
  predicate StartsWith(s: string, p: string) {
    |p| <= |s| && s[..|p|] == p
  }

  /** `s.endsWith(p)` */
  predicate EndsWith(s: string, p: string) {
    |p| <= |s| && s[|s| - |p|..] == p
  }

  /** Does `p` occur in `s` at index `i`? */
  predicate OccursAt(s: string, p: string, i: int) {
    0 <= i && i + |p| <= |s| && s[i..i + |p|] == p
  }

  /** `s.includes(p)`, computed by scanning from the left. */
  predicate Includes(s: string, p: string)
    decreases |s|
  {
    StartsWith(s, p) || (s != [] && Includes(s[1..], p))
  }

  /** `includes` holds exactly when the pattern occurs at some index. */
  lemma {:induction false} IncludesIffOccurs(s: string, p: string)
    ensures Includes(s, p) <==> exists i :: OccursAt(s, p, i)
    decreases |s|
  {
    if StartsWith(s, p) {
      assert OccursAt(s, p, 0);
    } else if s != [] {
      IncludesIffOccurs(s[1..], p);
      forall i | OccursAt(s, p, i) ensures OccursAt(s[1..], p, i - 1) {
        assert i != 0;
        assert s[1..][i - 1..i - 1 + |p|] == s[i..i + |p|];
      }
      forall j | OccursAt(s[1..], p, j) ensures OccursAt(s, p, j + 1) {
        assert s[1..][j..j + |p|] == s[j + 1..j + 1 + |p|];
      }
    }
  }

  /** An occurrence past the first character is an occurrence in the tail. */
  lemma OccursInTail(s: string, p: string)
    requires s != []
    ensures forall i :: 1 <= i ==> (OccursAt(s, p, i) <==> OccursAt(s[1..], p, i - 1))
  {
    forall i | 1 <= i ensures OccursAt(s, p, i) <==> OccursAt(s[1..], p, i - 1) {
      if i + |p| <= |s| {
        assert s[1..][i - 1..i - 1 + |p|] == s[i..i + |p|];
      }
    }
  }

  /** Index of the first occurrence of `p` in `s`, if any. */
  function IndexOf(s: string, p: string): (r: int)
    ensures r < 0 ==> r == -1
    ensures r >= 0 ==> OccursAt(s, p, r)
    ensures forall i :: 0 <= i < (if r < 0 then |s| else r) ==> !OccursAt(s, p, i)
    decreases |s|
  {
    if StartsWith(s, p) then 0
    else if s == [] then -1
    else
      var k := IndexOf(s[1..], p);
      OccursInTail(s, p);
      if k < 0 then -1 else k + 1
  }

  /** `s.replace(p, q)` with a STRING pattern: only the first occurrence of `p`
      is replaced. The contract is the definition of `String.prototype.replace`
      for a string pattern in ECMA-262: the position is the
      one `IndexOf` finds, whose own contract makes it the first occurrence. */
  function ReplaceFirst(s: string, p: string, q: string): (r: string)
    ensures IndexOf(s, p) < 0 ==> r == s
    ensures IndexOf(s, p) >= 0 ==>
              var i := IndexOf(s, p);
              r == s[..i] + q + s[i + |p|..]
  {
    var i := IndexOf(s, p);
    if i < 0 then s else s[..i] + q + s[i + |p|..]
  }

  // ---------------------------------------------------------------------
  // Lines of a text, separated by "\n" only

  /** The pieces of `s` between line feeds, as `s.split("\n")` returns them. */
  function Lines(s: string): (ls: seq<string>)
    ensures |ls| >= 1
    ensures forall i :: 0 <= i < |ls| ==> '\n' !in ls[i]
    decreases |s|
  {
    if s == [] then [[]]
    else
      var rest := Lines(s[1..]);
      if s[0] == '\n' then [[]] + rest
      else [[s[0]] + rest[0]] + rest[1..]
  }

  /** `ls.join("\n")` */
  function Join(ls: seq<string>): string
    decreases |ls|
  {
    if ls == [] then []
    else if |ls| == 1 then ls[0]
    else ls[0] + "\n" + Join(ls[1..])
  }

  /** Joining the lines gives back the text. */
  lemma {:induction false} JoinLines(s: string)
    ensures Join(Lines(s)) == s
    decreases |s|
  {
    if s != [] {
      JoinLines(s[1..]);
      var rest := Lines(s[1..]);
      if s[0] == '\n' {
        assert Lines(s) == [[]] + rest;
        assert Lines(s)[1..] == rest;
        assert s == [] + "\n" + s[1..];
      } else if |rest| == 1 {
        assert s == [s[0]] + s[1..];
      } else {
        assert Lines(s)[1..] == rest[1..];
        assert Join(rest) == rest[0] + "\n" + Join(rest[1..]);
        assert s == [s[0]] + s[1..];
      }
    }
  }

  /** Splitting joined lines gives back the lines, when none holds a line feed. */
  lemma {:induction false} LinesJoin(ls: seq<string>)
    requires |ls| >= 1
    requires forall i :: 0 <= i < |ls| ==> '\n' !in ls[i]
    ensures Lines(Join(ls)) == ls
    decreases |ls|, |ls[0]|
  {
    if |ls| == 1 {
      LinesOfLine(ls[0]);
    } else if ls[0] == [] {
      LinesJoin(ls[1..]);
      assert Join(ls) == "\n" + Join(ls[1..]);
      assert Join(ls)[1..] == Join(ls[1..]);
      assert ls == [[]] + ls[1..];
    } else {
      var tail := [ls[0][1..]] + ls[1..];
      assert tail[1..] == ls[1..];
      LinesJoin(tail);
      assert Join(ls) == [ls[0][0]] + Join(tail);
      assert Join(ls)[1..] == Join(tail);
      assert ls[0] == [ls[0][0]] + ls[0][1..];
      assert ls == [[ls[0][0]] + tail[0]] + tail[1..];
    }
  }

  /** A text without line feeds is a single line. */
  lemma {:induction false} LinesOfLine(s: string)
    requires '\n' !in s
    ensures Lines(s) == [s]
    decreases |s|
  {
    if s != [] {
      assert '\n' !in s[1..] by {
        forall k | 0 <= k < |s[1..]| ensures s[1..][k] != '\n' { assert s[1..][k] == s[k + 1]; }
      }
      LinesOfLine(s[1..]);
      assert s == [s[0]] + s[1..];
    }
  }

  /** Number of occurrences of `c` in `s`. */
  function Count(s: string, c: char): nat
    decreases |s|
  {
    if s == [] then 0 else (if s[0] == c then 1 else 0) + Count(s[1..], c)
  }

  /** There is one line more than there are line feeds. */
  lemma {:induction false} LineCount(s: string)
    ensures |Lines(s)| == Count(s, '\n') + 1
    decreases |s|
  {
    if s != [] { LineCount(s[1..]); }
  }
}
