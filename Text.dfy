/** The JavaScript string operations the catalogue relies on, over `seq<char>`:
    `trim`, ASCII `toLowerCase`, `startsWith`, `endsWith`, `includes`,
    `split` on a one-character separator and `join`. */
module Text {

  /** The characters `String.prototype.trim` (and `parseInt`) skip: the ECMAScript
      WhiteSpace set (TAB, VT, FF, SP, NBSP, ZWNBSP and the Zs category) and the
      LineTerminator set (LF, CR, LS, PS). */
  predicate IsSpace(c: char) {
    || c == '\t' || c == '\n' || c == '\U{000B}' || c == '\U{000C}' || c == '\r' || c == ' '
    || c == '\U{00A0}' || c == '\U{1680}' || ('\U{2000}' <= c <= '\U{200A}')
    || c == '\U{2028}' || c == '\U{2029}' || c == '\U{202F}' || c == '\U{205F}'
    || c == '\U{3000}' || c == '\U{FEFF}'
  }

  /** Neither end of `s` is white space. */
  predicate Trimmed(s: string) {
    s == [] || (!IsSpace(s[0]) && !IsSpace(s[|s| - 1]))
  }

  /** `s.trimStart()` */
  function TrimStart(s: string): (r: string)
    ensures r == [] || !IsSpace(r[0])
    ensures |r| <= |s|
  {
    if s != [] && IsSpace(s[0]) then TrimStart(s[1..]) else s
  }

  /** `s.trimEnd()` */
  function TrimEnd(s: string): (r: string)
    ensures r == [] || !IsSpace(r[|r| - 1])
    ensures |r| <= |s|
  {
    if s != [] && IsSpace(s[|s| - 1]) then TrimEnd(s[..|s| - 1]) else s
  }

  /** `trimStart` removes a prefix. */
  lemma {:induction false} TrimStartSuffix(s: string)
    ensures TrimStart(s) == s[|s| - |TrimStart(s)|..]
  {
    if s != [] && IsSpace(s[0]) {
      TrimStartSuffix(s[1..]);
    }
  }

  /** `trimEnd` removes a suffix. */
  lemma {:induction false} TrimEndPrefix(s: string)
    ensures TrimEnd(s) == s[..|TrimEnd(s)|]
  {
    if s != [] && IsSpace(s[|s| - 1]) {
      TrimEndPrefix(s[..|s| - 1]);
    }
  }

  /** `trimStart` removes white space only. */
  lemma {:induction false} TrimStartSkipsSpace(s: string)
    ensures forall k :: 0 <= k < |s| - |TrimStart(s)| ==> IsSpace(s[k])
  {
    if s != [] && IsSpace(s[0]) {
      TrimStartSuffix(s);
      TrimStartSkipsSpace(s[1..]);
      assert forall k :: 1 <= k < |s| ==> s[1..][k - 1] == s[k];
    }
  }

  /** `trimEnd` removes white space only. */
  lemma {:induction false} TrimEndSkipsSpace(s: string)
    ensures forall k :: |TrimEnd(s)| <= k < |s| ==> IsSpace(s[k])
  {
    if s != [] && IsSpace(s[|s| - 1]) {
      TrimEndPrefix(s);
      TrimEndSkipsSpace(s[..|s| - 1]);
      assert forall k :: 0 <= k < |s| - 1 ==> s[..|s| - 1][k] == s[k];
    }
  }

  /** Every character of `s` outside `s[i..j]` is white space. */
  ghost predicate SpaceAround(s: string, i: int, j: int) {
    forall k :: 0 <= k < |s| && (k < i || j <= k) ==> IsSpace(s[k])
  }

  /** `s.trim()`: the result is the slice of `s` left once the white space at both
      ends is removed, has no white space at either end, and leaves an already
      trimmed string alone. */
  function Trim(s: string): (r: string)
    ensures Trimmed(r)
    ensures exists i, j :: 0 <= i <= j <= |s| && r == s[i..j] && SpaceAround(s, i, j)
    ensures forall c :: c in r ==> c in s
    ensures Trimmed(s) ==> r == s
  {
    TrimBothEnds(s);
    TrimSlice(s);
    TrimEnd(TrimStart(s))
  }

  lemma SliceOfSuffix(s: string, i: int, n: int)
    requires 0 <= i && 0 <= n && i + n <= |s|
    ensures s[i..][..n] == s[i..i + n]
  {
  }

  /** `trim` cuts white space off the two ends and nothing else. */
  lemma TrimSlice(s: string)
    ensures var r := TrimEnd(TrimStart(s));
      exists i, j :: 0 <= i <= j <= |s| && r == s[i..j] && SpaceAround(s, i, j)
  {
    var t := TrimStart(s);
    var r := TrimEnd(t);
    var i := |s| - |t|;
    TrimStartSuffix(s);
    TrimEndPrefix(t);
    SliceOfSuffix(s, i, |r|);
    TrimSpaceAround(s, t, r, i);
  }

  lemma TrimSpaceAround(s: string, t: string, r: string, i: int)
    requires t == TrimStart(s) && r == TrimEnd(t) && i == |s| - |t|
    requires t == s[i..]
    ensures SpaceAround(s, i, i + |r|)
  {
    TrimStartSkipsSpace(s);
    TrimEndSkipsSpace(t);
    forall k | i + |r| <= k < |s|
      ensures IsSpace(s[k])
    {
      assert s[k] == t[k - i];
    }
  }

  lemma TrimBothEnds(s: string)
    ensures Trimmed(TrimEnd(TrimStart(s)))
    ensures forall c :: c in TrimEnd(TrimStart(s)) ==> c in s
    ensures Trimmed(s) ==> TrimEnd(TrimStart(s)) == s
  {
    var t := TrimStart(s);
    var r := TrimEnd(t);
    TrimStartSuffix(s);
    TrimEndPrefix(t);
    if r != [] {
      assert r[0] == t[0];
    }
    forall c | c in r
      ensures c in s
    {
      var k :| 0 <= k < |r| && r[k] == c;
      assert t[k] == c;
      assert s[|s| - |t| + k] == c;
    }
    if Trimmed(s) {
      assert TrimStart(s) == s;
      assert TrimEnd(s) == s;
    }
  }

  /** White space in front of a string disappears under `trim`. */
  lemma {:induction false} TrimLeadingSpace(c: char, s: string)
    requires IsSpace(c)
    ensures Trim([c] + s) == Trim(s)
  {
    assert ([c] + s)[1..] == s;
  }

  function LowerChar(c: char): char {
    if 'A' <= c <= 'Z' then (c as int + 32) as char else c
  }

  /** ASCII `toLowerCase`. */
  function Lower(s: string): (r: string)
    ensures |r| == |s|
    ensures forall k :: 0 <= k < |s| ==> r[k] == LowerChar(s[k])
  {
    if s == [] then [] else [LowerChar(s[0])] + Lower(s[1..])
  }

  /** Lower-casing twice is lower-casing once. */
  lemma LowerIdempotent(s: string)
    ensures Lower(Lower(s)) == Lower(s)
  {
  }

  /** Lower-casing never creates or removes a given non-letter character. */
  lemma LowerKeepsChar(s: string, c: char)
    requires !('A' <= c <= 'Z') && !('a' <= c <= 'z')
    ensures c in Lower(s) <==> c in s
  {
    assert forall k :: 0 <= k < |s| ==> (LowerChar(s[k]) == c <==> s[k] == c);
  }

  predicate StartsWith(s: string, p: string) {
    |p| <= |s| && s[..|p|] == p
  }

  predicate EndsWith(s: string, x: string) {
    |x| <= |s| && s[|s| - |x|..] == x
  }

  /** `s.includes(sub)`. */
  predicate Contains(s: string, sub: string)
    decreases |s|
  {
    StartsWith(s, sub) || (s != [] && Contains(s[1..], sub))
  }

  /** `sub` occurs in `s` starting at index `i`. */
  predicate OccursAt(s: string, sub: string, i: int) {
    0 <= i <= |s| - |sub| && s[i..i + |sub|] == sub
  }

  /** `Contains` is exactly "occurs as a contiguous slice somewhere". */
  lemma {:induction false} ContainsIsSlice(s: string, sub: string)
    ensures Contains(s, sub) <==> exists i :: OccursAt(s, sub, i)
    decreases |s|
  {
    if StartsWith(s, sub) {
      assert OccursAt(s, sub, 0);
    }
    if s != [] {
      ContainsIsSlice(s[1..], sub);
      if Contains(s[1..], sub) {
        var i :| OccursAt(s[1..], sub, i);
        assert s[i + 1..i + 1 + |sub|] == s[1..][i..i + |sub|];
        assert OccursAt(s, sub, i + 1);
      }
      if exists i :: OccursAt(s, sub, i) {
        var i :| OccursAt(s, sub, i);
        if i > 0 {
          assert s[1..][i - 1..i - 1 + |sub|] == s[i..i + |sub|];
          assert OccursAt(s[1..], sub, i - 1);
        }
      }
    } else if exists i :: OccursAt(s, sub, i) {
      var i :| OccursAt(s, sub, i);
      assert i == 0;
    }
  }

  /** `s.split(d)` for a one-character separator: always at least one piece,
      and no piece contains the separator. */
  function Split(s: string, d: char): (r: seq<string>)
    ensures |r| > 0
    ensures forall k :: 0 <= k < |r| ==> d !in r[k]
  {
    if s == [] then [[]]
    else
      var rest := Split(s[1..], d);
      if s[0] == d then [[]] + rest else [[s[0]] + rest[0]] + rest[1..]
  }

  /** `split` yields one more piece than there are separators. */
  lemma {:induction false} SplitCount(s: string, d: char)
    ensures |Split(s, d)| == multiset(s)[d] + 1
  {
    if s != [] {
      SplitCount(s[1..], d);
      assert s == [s[0]] + s[1..];
      assert multiset(s) == multiset{s[0]} + multiset(s[1..]);
    }
  }

  /** `xs.join(sep)`. */
  function Join(xs: seq<string>, sep: string): string {
    if xs == [] then [] else if |xs| == 1 then xs[0] else xs[0] + sep + Join(xs[1..], sep)
  }

  lemma JoinCons(x: string, xs: seq<string>, sep: string)
    requires xs != []
    ensures Join([x] + xs, sep) == x + sep + Join(xs, sep)
  {
    assert ([x] + xs)[1..] == xs;
  }

  /** `xs.map(x => ' ' + x)` */
  function Blanks(xs: seq<string>): (r: seq<string>)
    ensures |r| == |xs|
  {
    if xs == [] then [] else [[' '] + xs[0]] + Blanks(xs[1..])
  }

  /** Joining with `", "` is joining with `","` after a blank is put in front of
      every piece but the first. */
  lemma {:induction false} JoinCommaSpace(xs: seq<string>)
    requires xs != []
    ensures Join(xs, ", ") == Join([xs[0]] + Blanks(xs[1..]), ",")
  {
    if |xs| > 1 {
      var b := Blanks(xs[2..]);
      JoinCommaSpace(xs[1..]);
      assert xs[1..][0] == xs[1] && xs[1..][1..] == xs[2..];
      JoinHead([' '], xs[1], b, ",");
      assert Blanks(xs[1..]) == [[' '] + xs[1]] + b;
      JoinCons(xs[0], [[' '] + xs[1]] + b, ",");
    }
  }

  /** A blank in front adds no separator. */
  lemma {:induction false} BlanksKeepSeparatorOut(xs: seq<string>, d: char)
    requires d != ' '
    requires forall k :: 0 <= k < |xs| ==> d !in xs[k]
    ensures forall k :: 0 <= k < |xs| ==> d !in Blanks(xs)[k]
  {
    if xs != [] {
      assert forall k :: 0 < k < |xs| ==> xs[1..][k - 1] == xs[k];
      BlanksKeepSeparatorOut(xs[1..], d);
      assert forall k :: 0 < k < |xs| ==> Blanks(xs)[k] == Blanks(xs[1..])[k - 1];
    }
  }

  /** Text placed in front of the first piece is placed in front of the whole. */
  lemma JoinHead(h: string, x: string, xs: seq<string>, sep: string)
    ensures Join([h + x] + xs, sep) == h + Join([x] + xs, sep)
  {
    assert ([h + x] + xs)[1..] == xs == ([x] + xs)[1..];
  }

  /** A join starts with its first piece. */
  lemma JoinStart(xs: seq<string>, sep: string)
    requires xs != []
    ensures StartsWith(Join(xs, sep), xs[0])
  {
    if |xs| > 1 {
      var j := Join(xs, sep);
      assert j == xs[0] + (sep + Join(xs[1..], sep));
      assert j[..|xs[0]|] == xs[0];
    }
  }

  /** Text put in front keeps the end of a string. */
  lemma EndsWithAfterPrefix(p: string, s: string, x: string)
    requires EndsWith(s, x)
    ensures EndsWith(p + s, x)
  {
    assert (p + s)[|p + s| - |x|..] == s[|s| - |x|..];
  }

  /** A join ends with its last piece. */
  lemma {:induction false} JoinEnd(xs: seq<string>, sep: string)
    requires xs != []
    ensures EndsWith(Join(xs, sep), xs[|xs| - 1])
  {
    if |xs| > 1 {
      JoinEnd(xs[1..], sep);
      assert xs[1..][|xs| - 2] == xs[|xs| - 1];
      EndsWithAfterPrefix(xs[0] + sep, Join(xs[1..], sep), xs[|xs| - 1]);
    }
  }

  /** Splitting at a separator splits the pieces: `split` distributes over a separator. */
  lemma {:induction false} SplitAround(x: string, d: char, y: string)
    ensures Split(x + [d] + y, d) == Split(x, d) + Split(y, d)
  {
    if x == [] {
      assert x + [d] + y == [d] + y;
      assert ([d] + y)[1..] == y;
    } else {
      assert (x + [d] + y)[1..] == x[1..] + [d] + y;
      SplitAround(x[1..], d, y);
    }
  }

  /** A string without the separator is a single piece. */
  lemma {:induction false} SplitNone(s: string, d: char)
    requires d !in s
    ensures Split(s, d) == [s]
  {
    if s != [] {
      SplitNone(s[1..], d);
      assert [s[0]] + s[1..] == s;
    }
  }

  /** Characters other than the separator in front stick to the first piece. */
  lemma {:induction false} SplitPrepend(c: char, s: string, d: char)
    requires c != d
    ensures Split([c] + s, d) == [[c] + Split(s, d)[0]] + Split(s, d)[1..]
  {
    assert ([c] + s)[1..] == s;
  }

  /** Round trip: joining the pieces with the separator gives the original string. */
  lemma {:induction false} JoinSplit(s: string, d: char)
    ensures Join(Split(s, d), [d]) == s
  {
    if s != [] {
      var rest := Split(s[1..], d);
      JoinSplit(s[1..], d);
      if s[0] == d {
        JoinCons([], rest, [d]);
      } else {
        JoinHead([s[0]], rest[0], rest[1..], [d]);
        assert [rest[0]] + rest[1..] == rest;
      }
    }
  }

  /** Round trip the other way: separator-free pieces are recovered by `split`. */
  lemma {:induction false} SplitJoin(xs: seq<string>, d: char)
    requires |xs| > 0
    requires forall k :: 0 <= k < |xs| ==> d !in xs[k]
    ensures Split(Join(xs, [d]), d) == xs
  {
    if |xs| == 1 {
      SplitNone(xs[0], d);
    } else {
      SplitJoin(xs[1..], d);
      SplitAround(xs[0], d, Join(xs[1..], [d]));
      SplitNone(xs[0], d);
    }
  }
}
