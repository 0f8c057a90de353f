/** Small shared vocabulary: an Option type and insertion-ordered de-duplication,
    which is what `[...new Set(xs)]` and repeated `Set.add` compute in JavaScript. */
module Common {

  datatype Option<T> = None | Some(value: T)

  /** No element occurs twice. */
  predicate NoDups<T(==)>(s: seq<T>) {
    forall i, j :: 0 <= i < j < |s| ==> s[i] != s[j]
  }

  /** The distinct elements of `s`, each at the position of its first occurrence
      (the iteration order of a JavaScript Set filled from `s`). */
  function Dedup<T(==,!new)>(s: seq<T>): (r: seq<T>)
    ensures NoDups(r)
    ensures forall x :: x in r <==> x in s
    ensures |r| <= |s|
  {
    if s == [] then []
    else
      var d := Dedup(s[..|s| - 1]);
      assert forall x :: x in s <==> x in s[..|s| - 1] || x == s[|s| - 1];
      if s[|s| - 1] in d then d else d + [s[|s| - 1]]
  }

  /** Adding one element to the sequence fed to a Set. */
  lemma DedupSnoc<T(!new)>(s: seq<T>, x: T)
    ensures Dedup(s + [x]) == if x in Dedup(s) then Dedup(s) else Dedup(s) + [x]
  {
    assert (s + [x])[..|s + [x]| - 1] == s;
  }

  /** Feeding more elements never disturbs the ones already in the Set:
      the distinct elements of `a` are a prefix of the distinct elements of `a + b`. */
  lemma {:induction false} DedupPrefix<T(!new)>(a: seq<T>, b: seq<T>)
    ensures |Dedup(a)| <= |Dedup(a + b)|
    ensures Dedup(a + b)[..|Dedup(a)|] == Dedup(a)
  {
    if b == [] {
      assert a + b == a;
    } else {
      var b' := b[..|b| - 1];
      DedupPrefix(a, b');
      assert a + b == (a + b') + [b[|b| - 1]];
      DedupSnoc(a + b', b[|b| - 1]);
    }
  }

  /** Elements that are already in the Set add nothing. */
  lemma {:induction false} DedupAbsorbs<T(!new)>(a: seq<T>, b: seq<T>)
    requires forall x :: x in b ==> x in a
    ensures Dedup(a + b) == Dedup(a)
  {
    if b != [] {
      var b' := b[..|b| - 1];
      assert forall x :: x in b' ==> x in b;
      DedupAbsorbs(a, b');
      assert a + b == (a + b') + [b[|b| - 1]];
      DedupSnoc(a + b', b[|b| - 1]);
    } else {
      assert a + b == a;
    }
  }

  /** A sequence without repeats is its own Set order. */
  lemma {:induction false} DedupOfNoDups<T(!new)>(s: seq<T>)
    requires NoDups(s)
    ensures Dedup(s) == s
  {
    if s != [] {
      var s' := s[..|s| - 1];
      assert NoDups(s');
      DedupOfNoDups(s');
      assert s[|s| - 1] !in s';
    }
  }

  /** Taking out the element at `i` takes it out of the multiset. */
  lemma MultisetRemoveAt<A>(b: seq<A>, i: int)
    requires 0 <= i < |b|
    ensures multiset(b[..i] + b[i + 1..]) + multiset{b[i]} == multiset(b)
  {
    assert b == b[..i] + [b[i]] + b[i + 1..];
  }

  /** `s.map(f)`. */
  function Map<A, B>(f: A -> B, s: seq<A>): (r: seq<B>)
    ensures |r| == |s|
  {
    if s == [] then [] else [f(s[0])] + Map(f, s[1..])
  }

  /** Element `k` of `s.map(f)` is `f(s[k])`. */
  lemma {:induction false} MapAt<A, B>(f: A -> B, s: seq<A>, k: int)
    requires 0 <= k < |s|
    ensures Map(f, s)[k] == f(s[k])
  {
    if k > 0 {
      MapAt(f, s[1..], k - 1);
    }
  }

  /** Mapping distributes over concatenation. */
  lemma MapConcat<A, B>(f: A -> B, a: seq<A>, b: seq<A>)
    ensures Map(f, a + b) == Map(f, a) + Map(f, b)
  {
    var l, r := Map(f, a + b), Map(f, a) + Map(f, b);
    forall k | 0 <= k < |l|
      ensures l[k] == r[k]
    {
      MapAt(f, a + b, k);
      if k < |a| {
        MapAt(f, a, k);
      } else {
        MapAt(f, b, k - |a|);
      }
    }
  }

  lemma WholeSlice<T>(s: seq<T>)
    ensures s[..|s|] == s
  {
  }
}
