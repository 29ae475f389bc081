/** String operations of the JavaScript runtime that the sources rely on, over `seq<char>`. */
module Text {

  /** `s.startsWith(p)` */
  predicate StartsWith(s: string, p: string) {
    |p| <= |s| && s[..|p|] == p
  }

  /** `s.includes(sub)` */
  predicate Contains(s: string, sub: string)
    decreases |s|
  {
    StartsWith(s, sub) || (|s| > 0 && Contains(s[1..], sub))
  }

  /** `s.replace(/pat/g, rep)` for a literal pattern and a replacement without `$` substitutions:
      the leftmost occurrence is replaced and the scan resumes after it. */
  function ReplaceAll(s: string, pat: string, rep: string): string
    requires pat != ""
    decreases |s|
  {
    if s == [] then []
    else if StartsWith(s, pat) then rep + ReplaceAll(s[|pat|..], pat, rep)
    else [s[0]] + ReplaceAll(s[1..], pat, rep)
  }

  /** `parts.join(sep)` */
  function Join(parts: seq<string>, sep: string): string {
    if |parts| == 0 then ""
    else if |parts| == 1 then parts[0]
    else parts[0] + sep + Join(parts[1..], sep)
  }

  /** `s.split(c)` for a one-character separator. */
  function SplitOn(s: string, c: char): (r: seq<string>)
    ensures |r| > 0
    decreases |s|
  {
    if s == [] then [""]
    else if s[0] == c then [""] + SplitOn(s[1..], c)
    else var rest := SplitOn(s[1..], c); [[s[0]] + rest[0]] + rest[1..]
  }

  /** ASCII case folding, which is what a `/.../i` pattern without the `u` flag applies. */
  function LowerChar(c: char): char {
    if 'A' <= c <= 'Z' then (c as int + 32) as char else c
  }

  function ToLowerAscii(s: string): (r: string)
    ensures |r| == |s|
    ensures forall i :: 0 <= i < |s| ==> r[i] == LowerChar(s[i])
  {
    if s == [] then [] else [LowerChar(s[0])] + ToLowerAscii(s[1..])
  }

  // ---------------------------------------------------------------------------
  // Splitting undoes joining.

  lemma {:induction false} SplitOnNoSeparator(x: string, c: char)
    requires c !in x
    ensures SplitOn(x, c) == [x]
    decreases |x|
  {
    if x != [] {
      SplitOnNoSeparator(x[1..], c);
      assert [x[0]] + x[1..] == x;
    }
  }

  lemma {:induction false} SplitOnCons(x: string, c: char, rest: string)
    requires c !in x
    ensures SplitOn(x + [c] + rest, c) == [x] + SplitOn(rest, c)
    decreases |x|
  {
    if x == [] {
      assert x + [c] + rest == [c] + rest;
      assert ([c] + rest)[1..] == rest;
    } else {
      var s := x + [c] + rest;
      assert s[0] == x[0] && s[1..] == x[1..] + [c] + rest;
      SplitOnCons(x[1..], c, rest);
      assert [x[0]] + x[1..] == x;
    }
  }

  /** Splitting a join on a separator that occurs in no part gives the parts back. */
  lemma {:induction false} SplitOnJoin(xs: seq<string>, c: char)
    requires |xs| > 0
    requires forall i :: 0 <= i < |xs| ==> c !in xs[i]
    ensures SplitOn(Join(xs, [c]), c) == xs
    decreases |xs|
  {
    if |xs| == 1 {
      SplitOnNoSeparator(xs[0], c);
    } else {
      SplitOnJoin(xs[1..], c);
      SplitOnCons(xs[0], c, Join(xs[1..], [c]));
      assert [xs[0]] + xs[1..] == xs;
    }
  }

  // ---------------------------------------------------------------------------
  // Facts about global replacement.

  /** Replacing a pattern whose first character does not occur changes nothing. */
  lemma {:induction false} ReplaceAllAbsent(s: string, pat: string, rep: string)
    requires pat != "" && pat[0] !in s
    ensures ReplaceAll(s, pat, rep) == s
    decreases |s|
  {
    if s != [] {
      assert s[0] != pat[0];
      ReplaceAllAbsent(s[1..], pat, rep);
      assert [s[0]] + s[1..] == s;
    }
  }

  /** A one-character replacement that does not reintroduce the character removes all of it. */
  lemma {:induction false} ReplaceAllRemoves(s: string, c: char, rep: string)
    requires c !in rep
    ensures c !in ReplaceAll(s, [c], rep)
    decreases |s|
  {
    if s != [] {
      ReplaceAllRemoves(s[1..], c, rep);
    }
  }

  /** A character absent from the input and from the replacement stays absent. */
  lemma {:induction false} ReplaceAllKeepsAbsent(s: string, pat: string, rep: string, c: char)
    requires pat != "" && c !in s && c !in rep
    ensures c !in ReplaceAll(s, pat, rep)
    decreases |s|
  {
    if s != [] {
      if StartsWith(s, pat) {
        ReplaceAllKeepsAbsent(s[|pat|..], pat, rep, c);
      } else {
        ReplaceAllKeepsAbsent(s[1..], pat, rep, c);
      }
    }
  }

  /** A one-character replacement acts on each character independently. */
  lemma {:induction false} ReplaceAllAppend(a: string, b: string, c: char, rep: string)
    ensures ReplaceAll(a + b, [c], rep) == ReplaceAll(a, [c], rep) + ReplaceAll(b, [c], rep)
    decreases |a|
  {
    if a != [] {
      assert (a + b)[1..] == a[1..] + b;
      assert (a + b)[0] == a[0];
      ReplaceAllAppend(a[1..], b, c, rep);
    } else {
      assert a + b == b;
    }
  }

  /** Deleting a one-character separator from text that has none before its first occurrence. */
  lemma {:induction false} DropSeparator(a: string, c: char, rest: string)
    requires c !in a
    ensures ReplaceAll(a + ([c] + rest), [c], "") == a + ReplaceAll(rest, [c], "")
    decreases |a|
  {
    var s := a + ([c] + rest);
    if a == [] {
      assert s == [c] + rest && s[..1] == [c] && s[1..] == rest;
    } else {
      assert s[0] == a[0] && s[1..] == a[1..] + ([c] + rest);
      DropSeparator(a[1..], c, rest);
      assert a == [a[0]] + a[1..];
    }
  }

  /** A replacement over text that does not start with the pattern, and holds none of the pattern's
      first character further on, changes nothing. */
  lemma ReplaceNone(s: string, pat: string, rep: string)
    requires pat != "" && s != [] && !StartsWith(s, pat) && pat[0] !in s[1..]
    ensures ReplaceAll(s, pat, rep) == s
  {
    ReplaceAllAbsent(s[1..], pat, rep);
    assert [s[0]] + s[1..] == s;
  }

  /** A replacement over the pattern followed by text without the pattern's first character. */
  lemma ReplaceFront(pat: string, t: string, rep: string)
    requires pat != "" && pat[0] !in t
    ensures ReplaceAll(pat + t, pat, rep) == rep + t
  {
    var s := pat + t;
    assert s[..|pat|] == pat;
    assert s[|pat|..] == t;
    ReplaceAllAbsent(t, pat, rep);
  }

  /** The first piece of a split keeps a prefix that holds no separator. */
  lemma {:induction false} SplitOnHead(s: string, c: char, p: string)
    requires StartsWith(s, p) && c !in p
    ensures StartsWith(SplitOn(s, c)[0], p)
    decreases |p|
  {
    if p != [] {
      assert s[0] == p[0];
      assert StartsWith(s[1..], p[1..]) by {
        assert s[1..][..|p| - 1] == s[..|p|][1..];
      }
      SplitOnHead(s[1..], c, p[1..]);
      var rest := SplitOn(s[1..], c);
      var head := [s[0]] + rest[0];
      assert head[..|p|] == [s[0]] + rest[0][..|p| - 1];
    }
  }
}
