/** Field normalisation shared by the browser form handlers and the server:
    a comma-delimited text becomes its trimmed, non-empty pieces, and a
    comma-delimited list of training counts becomes one number per piece,
    `parseInt(piece.trim()) || 0`. */
module Normalize {
  import opened Common
  import opened Text
  import opened Numbers
  import opened Records

  /** What a token of a normalised list looks like. */
  predicate Canonical(t: string) {
    t != [] && Trimmed(t) && ',' !in t
  }

  /** `pieces.map(s => s.trim())` */
  function Trims(pieces: seq<string>): (r: seq<string>)
    ensures |r| == |pieces|
  {
    Map(Trim, pieces)
  }

  /** `pieces.filter(Boolean)`: the non-empty pieces, in order. */
  function NonEmpty(pieces: seq<string>): (r: seq<string>)
    ensures |r| <= |pieces|
  {
    if pieces == [] then []
    else (if pieces[0] == [] then [] else [pieces[0]]) + NonEmpty(pieces[1..])
  }

  /** `filter(Boolean)` keeps exactly the non-empty pieces. */
  lemma {:induction false} NonEmptyMembers(pieces: seq<string>)
    ensures forall x :: x in NonEmpty(pieces) <==> x in pieces && x != []
  {
    if pieces != [] {
      NonEmptyMembers(pieces[1..]);
      assert forall x :: x in pieces <==> x == pieces[0] || x in pieces[1..];
    }
  }

  /** `pieces.map(s => s.trim()).filter(Boolean)` */
  function Clean(pieces: seq<string>): seq<string> {
    NonEmpty(Trims(pieces))
  }

  /** `s.split(',').map(s => s.trim()).filter(Boolean)` */
  function Tokens(s: string): seq<string> {
    Clean(Split(s, ','))
  }

  /** Every token is non-empty, trimmed, free of commas and made of characters of `s`. */
  lemma TokensCanonical(s: string)
    ensures forall k :: 0 <= k < |Tokens(s)| ==> Canonical(Tokens(s)[k])
    ensures forall k, c :: 0 <= k < |Tokens(s)| && c in Tokens(s)[k] ==> c in s
  {
    var pieces := Split(s, ',');
    var t := Trims(pieces);
    var r := NonEmpty(t);
    JoinCharsIn(pieces);
    JoinSplit(s, ',');
    NonEmptyMembers(t);
    forall k | 0 <= k < |r|
      ensures Canonical(r[k]) && forall c :: c in r[k] ==> c in s
    {
      assert r[k] in t;
      var j :| 0 <= j < |t| && t[j] == r[k];
      MapAt(Trim, pieces, j);
      assert ',' !in pieces[j];
    }
  }

  /** Characters of a piece are characters of the joined text. */
  lemma {:induction false} JoinCharsIn(pieces: seq<string>)
    ensures forall j, c :: 0 <= j < |pieces| && c in pieces[j] ==> c in Join(pieces, ",")
  {
    if |pieces| > 1 {
      JoinCharsIn(pieces[1..]);
      assert Join(pieces, ",") == pieces[0] + "," + Join(pieces[1..], ",");
      forall j, c | 0 < j < |pieces| && c in pieces[j]
        ensures c in Join(pieces, ",")
      {
        assert pieces[1..][j - 1] == pieces[j];
      }
    }
  }

  lemma TrimsConcat(a: seq<string>, b: seq<string>)
    ensures Trims(a + b) == Trims(a) + Trims(b)
  {
    MapConcat(Trim, a, b);
  }

  lemma {:induction false} NonEmptyConcat(a: seq<string>, b: seq<string>)
    ensures NonEmpty(a + b) == NonEmpty(a) + NonEmpty(b)
  {
    if a != [] {
      var t := a[1..];
      NonEmptyConcat(t, b);
      assert a + b == [a[0]] + (t + b);
      assert a == [a[0]] + t;
      NonEmptyCons(a[0], t + b);
      NonEmptyCons(a[0], t);
    } else {
      assert a + b == b;
    }
  }

  lemma NonEmptyCons(x: string, s: seq<string>)
    ensures NonEmpty([x] + s) == (if x == [] then [] else [x]) + NonEmpty(s)
  {
    assert ([x] + s)[1..] == s;
  }

  lemma CleanConcat(a: seq<string>, b: seq<string>)
    ensures Clean(a + b) == Clean(a) + Clean(b)
  {
    TrimsConcat(a, b);
    NonEmptyConcat(Trims(a), Trims(b));
  }

  /** Tokenising distributes over a comma: the tokens keep their order. */
  lemma TokensConcat(x: string, y: string)
    ensures Tokens(x + "," + y) == Tokens(x) + Tokens(y)
  {
    SplitAround(x, ',', y);
    CleanConcat(Split(x, ','), Split(y, ','));
  }

  /** A text without commas is one token, or none when it is blank. */
  lemma TokensSingle(t: string)
    requires ',' !in t
    ensures Tokens(t) == if Trim(t) == [] then [] else [Trim(t)]
  {
    SplitNone(t, ',');
  }

  /** An empty field has no tokens. */
  lemma TokensEmpty()
    ensures Tokens("") == []
  {
    TokensSingle("");
  }

  /** Blanks put in front of pieces disappear when the pieces are trimmed. */
  lemma {:induction false} TrimsBlanks(xs: seq<string>)
    ensures Trims(Blanks(xs)) == Trims(xs)
  {
    if xs != [] {
      TrimsBlanks(xs[1..]);
      TrimLeadingSpace(' ', xs[0]);
      TrimsConcat([[' '] + xs[0]], Blanks(xs[1..]));
      TrimsConcat([xs[0]], xs[1..]);
      assert [xs[0]] + xs[1..] == xs;
    }
  }

  /** Splitting `xs.join(', ')` at the commas gives the pieces, each after the
      first with its blank in front, provided no piece holds a comma. */
  lemma SplitJoinCommaSpace(xs: seq<string>)
    requires xs != []
    requires forall k :: 0 <= k < |xs| ==> ',' !in xs[k]
    ensures Split(Join(xs, ", "), ',') == [xs[0]] + Blanks(xs[1..])
  {
    NoCommaPieces(xs);
    JoinCommaSpace(xs);
    SplitJoin([xs[0]] + Blanks(xs[1..]), ',');
  }

  /** The pieces with their blanks still hold no comma. */
  lemma NoCommaPieces(xs: seq<string>)
    requires xs != []
    requires forall k :: 0 <= k < |xs| ==> ',' !in xs[k]
    ensures var ys := [xs[0]] + Blanks(xs[1..]);
      forall k :: 0 <= k < |ys| ==> ',' !in ys[k]
  {
    var t := xs[1..];
    var ys := [xs[0]] + Blanks(t);
    assert forall k :: 0 <= k < |t| ==> ',' !in t[k] by {
      forall k | 0 <= k < |t|
        ensures ',' !in t[k]
      {
        assert t[k] == xs[k + 1];
      }
    }
    BlanksKeepSeparatorOut(t, ',');
    forall k | 0 <= k < |ys|
      ensures ',' !in ys[k]
    {
      if k > 0 {
        assert ys[k] == Blanks(t)[k - 1];
      }
    }
  }

  lemma TrimsHeadBlanks(xs: seq<string>)
    requires xs != []
    ensures Trims([xs[0]] + Blanks(xs[1..])) == Trims(xs)
  {
    TrimsConcat([xs[0]], Blanks(xs[1..]));
    TrimsBlanks(xs[1..]);
    TrimsConcat([xs[0]], xs[1..]);
    assert [xs[0]] + xs[1..] == xs;
  }

  /** Splitting `xs.join(', ')` at the commas and trimming gives back the trimmed
      pieces, provided no piece holds a comma. */
  lemma TrimsSplitJoin(xs: seq<string>)
    requires xs != []
    requires forall k :: 0 <= k < |xs| ==> ',' !in xs[k]
    ensures Trims(Split(Join(xs, ", "), ',')) == Trims(xs)
  {
    SplitJoinCommaSpace(xs);
    TrimsHeadBlanks(xs);
  }

  /** Trimmed pieces are left alone by `map(trim)`. */
  lemma {:induction false} TrimsOfTrimmed(xs: seq<string>)
    requires forall k :: 0 <= k < |xs| ==> Trimmed(xs[k])
    ensures Trims(xs) == xs
  {
    if xs != [] {
      assert forall k :: 0 < k < |xs| ==> xs[1..][k - 1] == xs[k];
      TrimsOfTrimmed(xs[1..]);
      TrimsConcat([xs[0]], xs[1..]);
      assert [xs[0]] + xs[1..] == xs;
    }
  }

  /** Non-empty pieces all pass `filter(Boolean)`. */
  lemma {:induction false} NonEmptyOfNonEmpty(xs: seq<string>)
    requires forall k :: 0 <= k < |xs| ==> xs[k] != []
    ensures NonEmpty(xs) == xs
  {
    if xs != [] {
      assert forall k :: 0 < k < |xs| ==> xs[1..][k - 1] == xs[k];
      NonEmptyOfNonEmpty(xs[1..]);
      assert [xs[0]] + xs[1..] == xs;
    }
  }

  /** Round trip: canonical tokens shown as `tokens.join(', ')` are read back unchanged. */
  lemma TokensJoin(xs: seq<string>)
    requires forall k :: 0 <= k < |xs| ==> Canonical(xs[k])
    ensures Tokens(Join(xs, ", ")) == xs
  {
    if xs == [] {
      TokensEmpty();
    } else {
      TrimsSplitJoin(xs);
      TrimsOfTrimmed(xs);
      NonEmptyOfNonEmpty(xs);
    }
  }

  /** Canonical tokens joined with `", "` have no white space at either end. */
  lemma JoinCanonicalTrimmed(xs: seq<string>)
    requires forall k :: 0 <= k < |xs| ==> Canonical(xs[k])
    ensures Trimmed(Join(xs, ", "))
  {
    if xs != [] {
      var j := Join(xs, ", ");
      var last := xs[|xs| - 1];
      JoinStart(xs, ", ");
      JoinEnd(xs, ", ");
      assert j[0] == xs[0][0];
      assert j[|j| - 1] == last[|last| - 1] by {
        assert j[|j| - |last|..][|last| - 1] == last[|last| - 1];
      }
    }
  }

  /** Normalising an already normalised field changes nothing. */
  lemma TokensIdempotent(s: string)
    ensures Tokens(Join(Tokens(s), ", ")) == Tokens(s)
  {
    TokensCanonical(s);
    TokensJoin(Tokens(s));
  }

  /** `xs.map(x => x.toLowerCase())` */
  function LowerAll(xs: seq<string>): (r: seq<string>)
    ensures |r| == |xs|
  {
    Map(Lower, xs)
  }

  // ---- Training counts ----

  /** `pieces.map(s => parseInt(s) || 0)`: the number a piece starts with, 0 for NaN. */
  function Values(pieces: seq<string>): (r: seq<int>)
    ensures |r| == |pieces|
  {
    Map(IntOrZero, pieces)
  }

  /** `s.split(',').map(s => parseInt(s.trim()) || 0).filter(c => !isNaN(c))`:
      exactly one number per comma-separated piece, 0 for a piece that is not a
      number. The final `filter` never removes anything, since `x || 0` is never NaN. */
  function ParseCounts(s: string): (r: seq<int>)
    ensures |r| == |Split(s, ',')|
  {
    Values(Trims(Split(s, ',')))
  }

  /** A piece that does not start with a number counts as 0. */
  lemma ParseCountsNaN(s: string, k: int)
    requires 0 <= k < |Split(s, ',')|
    requires ParseInt(Trim(Split(s, ',')[k])) == None
    ensures ParseCounts(s)[k] == 0
  {
    MapAt(Trim, Split(s, ','), k);
    MapAt(IntOrZero, Trims(Split(s, ',')), k);
  }

  /** One count per comma, plus one. */
  lemma ParseCountsLength(s: string)
    ensures |ParseCounts(s)| == multiset(s)[','] + 1
  {
    SplitCount(s, ',');
  }

  /** An empty counts field reads as a single 0. */
  lemma ParseCountsEmpty()
    ensures ParseCounts("") == [0]
  {
  }

  /** `ns.map(String)`. */
  function NumTexts(ns: seq<int>): (r: seq<string>)
    ensures |r| == |ns|
  {
    Map(IntToString, ns)
  }

  /** Round trip: counts shown as `counts.join(', ')` are read back unchanged;
      an empty list is read back as `[0]`. */
  lemma ParseCountsJoin(ns: seq<int>)
    ensures ParseCounts(Join(NumTexts(ns), ", ")) == if ns == [] then [0] else ns
  {
    if ns != [] {
      var t := NumTexts(ns);
      forall k | 0 <= k < |t|
        ensures t[k] == IntToString(ns[k]) && Trimmed(t[k]) && ',' !in t[k]
      {
        MapAt(IntToString, ns, k);
        IntToStringPlain(ns[k]);
      }
      TrimsSplitJoin(t);
      TrimsOfTrimmed(t);
      var r := ParseCounts(Join(t, ", "));
      assert r == Map(IntOrZero, t);
      forall k | 0 <= k < |ns|
        ensures r[k] == ns[k]
      {
        MapAt(IntOrZero, t, k);
        ParseIntToString(ns[k]);
      }
    }
  }

  // ---- Server-side normalisation of a request body (POST and PUT) ----

  /** `Array.isArray(x) ? x : (x ? x.split(',').map(trim).filter(Boolean) : [])` */
  function NormalizeIds(f: Field<string>): (r: seq<string>)
    ensures f.List? ==> r == f.items
    ensures !f.List? ==> forall k :: 0 <= k < |r| ==> Canonical(r[k])
    ensures f.Missing? || f == Text("") ==> r == []
    ensures f.Text? ==> r == Tokens(f.s)
  {
    match f
    case List(xs) => xs
    case Text(s) => TokensCanonical(s); TokensEmpty(); if s == "" then [] else Tokens(s)
    case Missing => []
  }

  /** `Array.isArray(x) ? x : (x ? x.split(',').map(...) : [0])` */
  function NormalizeCounts(f: Field<Count>): (r: seq<Count>)
    ensures f.List? ==> r == f.items
    ensures !f.List? ==> |r| >= 1 && forall k :: 0 <= k < |r| ==> r[k].Num?
    ensures f.Missing? || f == Text("") ==> r == [Num(0)]
    ensures f.Text? ==> |r| == multiset(f.s)[','] + 1
    ensures f.Text? && f.s != "" ==> r == Nums(ParseCounts(f.s))
  {
    match f
    case List(cs) => cs
    case Text(s) => ParseCountsLength(s); if s == "" then [Num(0)] else Nums(ParseCounts(s))
    case Missing => [Num(0)]
  }

  /** Numbers as numeric JSON entries. */
  function Nums(ns: seq<int>): (r: seq<Count>)
    ensures |r| == |ns|
    ensures forall k :: 0 <= k < |r| ==> r[k] == Num(ns[k])
  {
    if ns == [] then [] else [Num(ns[0])] + Nums(ns[1..])
  }
}
