/**
 * The one piece of .NET string handling the plugin relies on: `String.Trim()`,
 * which strips from both ends every character that `Char.IsWhiteSpace` accepts.
 */
module Text {

  /** The characters `Char.IsWhiteSpace` accepts: the control characters U+0009 to
      U+000D, U+0085, and the Unicode space, line and paragraph separators. */
  predicate IsWhiteSpace(c: char) {
    || ('\t' <= c <= '\r')
    || c == ' '
    || c == '\U{85}'
    || c == '\U{A0}'
    || c == '\U{1680}'
    || ('\U{2000}' <= c <= '\U{200A}')
    || c == '\U{2028}'
    || c == '\U{2029}'
    || c == '\U{202F}'
    || c == '\U{205F}'
    || c == '\U{3000}'
  }

  /** Every character of `s` is white space. */
  predicate AllWhiteSpace(s: string)
    decreases |s|
  {
    s == [] || (IsWhiteSpace(s[0]) && AllWhiteSpace(s[1..]))
  }

  lemma {:induction false} AllWhiteSpaceAppend(a: string, b: string)
    ensures AllWhiteSpace(a + b) <==> AllWhiteSpace(a) && AllWhiteSpace(b)
    decreases |a|
  {
    if a == [] {
      assert a + b == b;
    } else {
      assert (a + b)[0] == a[0];
      assert (a + b)[1..] == a[1..] + b;
      AllWhiteSpaceAppend(a[1..], b);
    }
  }

  /** Neither end of `s` is white space (the empty string included). */
  predicate IsTrimmed(s: string) {
    s == [] || (!IsWhiteSpace(s[0]) && !IsWhiteSpace(s[|s| - 1]))
  }

  /** `s` without its leading white space: a suffix of `s` that does not start with white space. */
  function TrimStart(s: string): (r: string)
    ensures |r| <= |s| && r == s[|s| - |r|..]
    ensures r == [] || !IsWhiteSpace(r[0])
  {
    if s != [] && IsWhiteSpace(s[0]) then TrimStart(s[1..]) else s
  }

  /** `s` without its trailing white space: a prefix of `s` that does not end with white space. */
  function TrimEnd(s: string): (r: string)
    ensures |r| <= |s| && r == s[..|r|]
    ensures r == [] || !IsWhiteSpace(r[|r| - 1])
  {
    if s != [] && IsWhiteSpace(s[|s| - 1]) then TrimEnd(s[..|s| - 1]) else s
  }

  /** What TrimStart cuts off is white space. */
  lemma {:induction false} TrimStartCutsWhiteSpace(s: string)
    ensures AllWhiteSpace(s[..|s| - |TrimStart(s)|])
    decreases |s|
  {
    if s != [] && IsWhiteSpace(s[0]) {
      var k := |s| - |TrimStart(s)|;
      TrimStartCutsWhiteSpace(s[1..]);
      assert s[..k][1..] == s[1..][..k - 1];
    } else {
      assert s[..0] == [];
    }
  }

  /** What TrimEnd cuts off is white space. */
  lemma {:induction false} TrimEndCutsWhiteSpace(s: string)
    ensures AllWhiteSpace(s[|TrimEnd(s)|..])
    decreases |s|
  {
    if s != [] && IsWhiteSpace(s[|s| - 1]) {
      var k := |TrimEnd(s)|;
      var init := s[..|s| - 1];
      TrimEndCutsWhiteSpace(init);
      assert s[k..] == init[k..] + [s[|s| - 1]];
      assert AllWhiteSpace([s[|s| - 1]]) by {
        assert [s[|s| - 1]][1..] == [];
      }
      AllWhiteSpaceAppend(init[k..], [s[|s| - 1]]);
    } else {
      assert s[|s|..] == [];
    }
  }

  /** A string of white space only has nothing left after TrimStart. */
  lemma {:induction false} WhiteSpaceTrimsStartToEmpty(s: string)
    requires AllWhiteSpace(s)
    ensures TrimStart(s) == []
    decreases |s|
  {
    if s != [] {
      WhiteSpaceTrimsStartToEmpty(s[1..]);
    }
  }

  /** `String.Trim()`: the middle of `s` once the white space at both ends is cut off.
      Neither end of the result is white space, and the result is empty exactly when `s`
      is all white space. */
  function Trim(s: string): (r: string)
    ensures IsTrimmed(r)
    ensures r == [] <==> AllWhiteSpace(s)
  {
    var t := TrimStart(s);
    var r := TrimEnd(t);
    assert r != [] ==> r[0] == t[0];
    WhiteOnlyTrimsToEmpty(s);
    r
  }

  lemma {:induction false} WhiteOnlyTrimsToEmpty(s: string)
    ensures TrimEnd(TrimStart(s)) == [] <==> AllWhiteSpace(s)
  {
    var t := TrimStart(s);
    var k := |s| - |t|;
    if AllWhiteSpace(s) {
      WhiteSpaceTrimsStartToEmpty(s);
    }
    if TrimEnd(t) == [] {
      // t is all white space and cannot start with white space, so it is empty
      TrimEndCutsWhiteSpace(t);
      assert t[0..] == t;
      assert t == [];
      TrimStartCutsWhiteSpace(s);
      assert s[..k] == s;
    }
  }

  /** The white space Trim cuts off the front of `s`. */
  function LeadingWhiteSpace(s: string): string {
    s[..|s| - |TrimStart(s)|]
  }

  /** The white space Trim cuts off the back of `s`. */
  function TrailingWhiteSpace(s: string): string {
    var t := TrimStart(s);
    t[|TrimEnd(t)|..]
  }

  /** Trim only cuts white space off the ends: `s` is white space, then `Trim(s)`, then
      white space. */
  lemma {:induction false} TrimDecomposes(s: string)
    ensures AllWhiteSpace(LeadingWhiteSpace(s)) && AllWhiteSpace(TrailingWhiteSpace(s))
    ensures s == LeadingWhiteSpace(s) + Trim(s) + TrailingWhiteSpace(s)
  {
    var t := TrimStart(s);
    var r := TrimEnd(t);
    assert AllWhiteSpace(LeadingWhiteSpace(s)) by {
      TrimStartCutsWhiteSpace(s);
    }
    assert AllWhiteSpace(TrailingWhiteSpace(s)) by {
      TrimEndCutsWhiteSpace(t);
    }
    assert s == LeadingWhiteSpace(s) + Trim(s) + TrailingWhiteSpace(s) by {
      assert Trim(s) == r;
      SplitThree(s, t, r);
    }
  }

  /** A suffix `t` of `s` and a prefix `r` of `t` cut `s` into three pieces. */
  lemma SplitThree(s: string, t: string, r: string)
    requires |t| <= |s| && t == s[|s| - |t|..]
    requires |r| <= |t| && r == t[..|r|]
    ensures s == s[..|s| - |t|] + r + t[|r|..]
  {
    assert t == r + t[|r|..];
  }

  lemma {:induction false} TrimStartSkipsWhitePrefix(a: string, x: string)
    requires AllWhiteSpace(a)
    ensures TrimStart(a + x) == TrimStart(x)
    decreases |a|
  {
    if a != [] {
      assert (a + x)[0] == a[0];
      assert (a + x)[1..] == a[1..] + x;
      TrimStartSkipsWhitePrefix(a[1..], x);
    } else {
      assert a + x == x;
    }
  }

  lemma {:induction false} TrimEndSkipsWhiteSuffix(x: string, b: string)
    requires AllWhiteSpace(b)
    ensures TrimEnd(x + b) == TrimEnd(x)
    decreases |b|
  {
    if b != [] {
      var init := b[..|b| - 1];
      assert b == init + [b[|b| - 1]];
      AllWhiteSpaceAppend(init, [b[|b| - 1]]);
      assert (x + b)[|x + b| - 1] == b[|b| - 1];
      assert (x + b)[..|x + b| - 1] == x + init;
      TrimEndSkipsWhiteSuffix(x, init);
    } else {
      assert x + b == x;
    }
  }

  /** Trim is characterised independently of its definition: whenever `s` splits into
      white space, a trimmed middle and white space, Trim returns exactly that middle. */
  lemma {:induction false} TrimUnique(a: string, m: string, b: string)
    requires AllWhiteSpace(a) && AllWhiteSpace(b) && IsTrimmed(m)
    ensures Trim(a + m + b) == m
  {
    TrimBothEnds(a, m, b);
  }

  lemma {:induction false} TrimBothEnds(a: string, m: string, b: string)
    requires AllWhiteSpace(a) && AllWhiteSpace(b) && IsTrimmed(m)
    ensures TrimEnd(TrimStart(a + m + b)) == m
  {
    assert a + m + b == a + (m + b);
    TrimStartSkipsWhitePrefix(a, m + b);
    if m == [] {
      assert m + b == b;
      WhiteSpaceTrimsStartToEmpty(b);
    } else {
      assert (m + b)[0] == m[0];
      assert TrimStart(m + b) == m + b;
      TrimEndSkipsWhiteSuffix(m, b);
    }
  }

  /** Trimming twice is trimming once. */
  lemma TrimIdempotent(s: string)
    ensures Trim(Trim(s)) == Trim(s)
  {
    var m := Trim(s);
    assert [] + m + [] == m;
    TrimUnique([], m, []);
  }

  /** The position of the first `c` in `s`, or `|s|` when there is none. */
  function IndexOf(s: string, c: char): (i: nat)
    ensures i <= |s|
    ensures i < |s| ==> s[i] == c
    ensures forall j :: 0 <= j < i ==> s[j] != c
  {
    if s == [] || s[0] == c then 0 else 1 + IndexOf(s[1..], c)
  }

  /** The first `c` in `a + [c] + b` is the one after `a` when `a` holds none. */
  lemma {:induction false} IndexOfAfter(a: string, c: char, b: string)
    requires forall j :: 0 <= j < |a| ==> a[j] != c
    ensures IndexOf(a + [c] + b, c) == |a|
  {
    var s := a + [c] + b;
    assert s[|a|] == c;
    assert forall j :: 0 <= j < |a| ==> s[j] == a[j];
  }
}
