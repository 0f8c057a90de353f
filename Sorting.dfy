/** `Array.prototype.sort`, which is stable: a comparator `cmp(a, b) < 0` means
    "a goes before b". The model sorts by insertion, which for a consistent
    comparator is the unique stable order. The default comparator of `sort()`
    orders strings by their characters. */
module Sorting {

  /** Put `x` after every element it does not strictly precede. */
  function Insert<T>(x: T, s: seq<T>, cmp: (T, T) -> int): (r: seq<T>)
    ensures multiset(r) == multiset(s) + multiset{x}
  {
    if s == [] then [x]
    else if cmp(x, s[0]) < 0 then [x] + s
    else
      assert s == [s[0]] + s[1..];
      [s[0]] + Insert(x, s[1..], cmp)
  }

  /** Stable sort: elements are taken in order and each is inserted after its equals. */
  function StableSort<T>(s: seq<T>, cmp: (T, T) -> int): (r: seq<T>)
    ensures multiset(r) == multiset(s)
  {
    if s == [] then []
    else
      assert s == s[..|s| - 1] + [s[|s| - 1]];
      Insert(s[|s| - 1], StableSort(s[..|s| - 1], cmp), cmp)
  }

  /** No element strictly precedes an element in front of it. */
  ghost predicate Sorted<T>(s: seq<T>, cmp: (T, T) -> int) {
    forall i, j :: 0 <= i < j < |s| ==> cmp(s[j], s[i]) >= 0
  }

  /** "Strictly precedes" is a strict order (irreflexive and transitive): what a
      comparator must satisfy for `sort` to have a well-defined result. */
  ghost predicate StrictOrder<T(!new)>(cmp: (T, T) -> int) {
    && (forall a :: cmp(a, a) >= 0)
    && (forall a, b, c :: cmp(a, b) < 0 && cmp(b, c) < 0 ==> cmp(a, c) < 0)
  }

  /** A head that no later element strictly precedes extends a sorted sequence. */
  lemma ConsSorted<T>(h: T, r: seq<T>, cmp: (T, T) -> int)
    requires Sorted(r, cmp)
    requires forall j :: 0 <= j < |r| ==> cmp(r[j], h) >= 0
    ensures Sorted([h] + r, cmp)
  {
    var t := [h] + r;
    forall i, j | 0 <= i < j < |t|
      ensures cmp(t[j], t[i]) >= 0
    {
      assert t[j] == r[j - 1];
      if i > 0 {
        assert t[i] == r[i - 1];
      }
    }
  }

  /** An element that strictly precedes the head of a sorted sequence may go first. */
  lemma InsertFront<T(!new)>(x: T, s: seq<T>, cmp: (T, T) -> int)
    requires StrictOrder(cmp)
    requires Sorted(s, cmp)
    requires s != [] && cmp(x, s[0]) < 0
    ensures Sorted([x] + s, cmp)
  {
    forall j | 0 <= j < |s|
      ensures cmp(s[j], x) >= 0
    {
      assert cmp(s[j], s[0]) >= 0;
    }
    ConsSorted(x, s, cmp);
  }

  lemma {:induction false} InsertSorted<T(!new)>(x: T, s: seq<T>, cmp: (T, T) -> int)
    requires StrictOrder(cmp)
    requires Sorted(s, cmp)
    ensures Sorted(Insert(x, s, cmp), cmp)
  {
    if s == [] {
      assert Insert(x, s, cmp) == [x];
    } else if cmp(x, s[0]) < 0 {
      assert Insert(x, s, cmp) == [x] + s;
      InsertFront(x, s, cmp);
    } else {
      var t := s[1..];
      assert Sorted(t, cmp);
      InsertSorted(x, t, cmp);
      var r := Insert(x, t, cmp);
      assert Insert(x, s, cmp) == [s[0]] + r;
      assert multiset(r) == multiset(t) + multiset{x};
      forall j | 0 <= j < |r|
        ensures cmp(r[j], s[0]) >= 0
      {
        assert r[j] in multiset(r);
        if r[j] != x {
          assert r[j] in t;
          var m :| 0 <= m < |t| && t[m] == r[j];
          assert s[m + 1] == r[j];
        }
      }
      ConsSorted(s[0], r, cmp);
    }
  }

  /** With a consistent comparator the result is sorted. */
  lemma {:induction false} StableSortSorted<T(!new)>(s: seq<T>, cmp: (T, T) -> int)
    requires StrictOrder(cmp)
    ensures Sorted(StableSort(s, cmp), cmp)
  {
    if s != [] {
      StableSortSorted(s[..|s| - 1], cmp);
      InsertSorted(s[|s| - 1], StableSort(s[..|s| - 1], cmp), cmp);
    }
  }

  lemma {:induction false} InsertNeutral<T>(x: T, s: seq<T>, cmp: (T, T) -> int)
    requires forall k :: 0 <= k < |s| ==> cmp(x, s[k]) >= 0
    ensures Insert(x, s, cmp) == s + [x]
  {
    if s != [] {
      InsertNeutral(x, s[1..], cmp);
      assert [s[0]] + (s[1..] + [x]) == s + [x];
    }
  }

  /** A comparator that never says "before" leaves the order alone. */
  lemma {:induction false} StableSortIdentity<T(!new)>(s: seq<T>, cmp: (T, T) -> int)
    requires forall a, b :: cmp(a, b) >= 0
    ensures StableSort(s, cmp) == s
  {
    if s != [] {
      var p, x := s[..|s| - 1], s[|s| - 1];
      StableSortIdentity(p, cmp);
      InsertNeutral(x, p, cmp);
      FrontAndLast(s);
    }
  }

  lemma FrontAndLast<T>(s: seq<T>)
    requires s != []
    ensures s[..|s| - 1] + [s[|s| - 1]] == s
  {
  }

  // ---- The default comparator of sort(): strings in character order ----

  /** `a < b` on JavaScript strings (lexicographic by character). */
  predicate StrLess(a: string, b: string) {
    b != [] && (a == [] || a[0] < b[0] || (a[0] == b[0] && StrLess(a[1..], b[1..])))
  }

  function CompareStrings(a: string, b: string): int {
    if StrLess(a, b) then -1 else if a == b then 0 else 1
  }

  lemma {:induction false} StrLessIrreflexive(a: string)
    ensures !StrLess(a, a)
  {
    if a != [] {
      StrLessIrreflexive(a[1..]);
    }
  }

  lemma {:induction false} StrLessTransitive(a: string, b: string, c: string)
    requires StrLess(a, b) && StrLess(b, c)
    ensures StrLess(a, c)
  {
    if a != [] && a[0] == b[0] && b[0] == c[0] {
      StrLessTransitive(a[1..], b[1..], c[1..]);
    }
  }

  /** Two different strings are ordered one way or the other. */
  lemma {:induction false} StrLessTotal(a: string, b: string)
    ensures a == b || StrLess(a, b) || StrLess(b, a)
  {
    if a != [] && b != [] && a[0] == b[0] && a != b {
      assert a == [a[0]] + a[1..] && b == [b[0]] + b[1..];
      StrLessTotal(a[1..], b[1..]);
    }
  }

  lemma {:induction false} StrLessAsymmetric(a: string, b: string)
    requires StrLess(a, b)
    ensures !StrLess(b, a)
  {
    if StrLess(b, a) {
      StrLessTransitive(a, b, a);
      StrLessIrreflexive(a);
    }
  }

  lemma CompareStringsStrictOrder()
    ensures StrictOrder(CompareStrings)
  {
    forall a
      ensures CompareStrings(a, a) >= 0
    {
      StrLessIrreflexive(a);
    }
    forall a, b, c | CompareStrings(a, b) < 0 && CompareStrings(b, c) < 0
      ensures CompareStrings(a, c) < 0
    {
      StrLessTransitive(a, b, c);
    }
  }

  lemma SortedTail<T>(s: seq<T>, cmp: (T, T) -> int)
    requires s != [] && Sorted(s, cmp)
    ensures Sorted(s[1..], cmp)
  {
  }

  lemma MultisetTails<T>(a: seq<T>, b: seq<T>)
    requires a != [] && b != [] && a[0] == b[0]
    requires multiset(a) == multiset(b)
    ensures multiset(a[1..]) == multiset(b[1..])
  {
    assert a == [a[0]] + a[1..];
    assert b == [b[0]] + b[1..];
    assert multiset(a) == multiset{a[0]} + multiset(a[1..]);
    assert multiset(b) == multiset{a[0]} + multiset(b[1..]);
    assert multiset(a[1..]) == multiset(a) - multiset{a[0]};
    assert multiset(b[1..]) == multiset(b) - multiset{a[0]};
  }

  /** Sorted with the same elements: both start with the least string. */
  lemma SortedHeads(a: seq<string>, b: seq<string>)
    requires Sorted(a, CompareStrings) && Sorted(b, CompareStrings)
    requires multiset(a) == multiset(b) && a != []
    ensures b != [] && a[0] == b[0]
  {
    assert a[0] in multiset(b);
    assert b[0] in multiset(a);
    var k :| 0 <= k < |a| && a[k] == b[0];
    var m :| 0 <= m < |b| && b[m] == a[0];
    if k > 0 {
      assert CompareStrings(a[k], a[0]) >= 0;
    }
    if m > 0 {
      assert CompareStrings(b[m], b[0]) >= 0;
    }
    StrLessTotal(a[0], b[0]);
  }

  /** Sorted string sequences with the same elements are equal: the result of
      `sort()` depends only on the multiset of its input. */
  lemma {:induction false} SortedStringsUnique(a: seq<string>, b: seq<string>)
    requires Sorted(a, CompareStrings) && Sorted(b, CompareStrings)
    requires multiset(a) == multiset(b)
    ensures a == b
  {
    if a != [] {
      SortedHeads(a, b);
      MultisetTails(a, b);
      SortedTail(a, CompareStrings);
      SortedTail(b, CompareStrings);
      SortedStringsUnique(a[1..], b[1..]);
      assert a == [a[0]] + a[1..] && b == [b[0]] + b[1..];
    } else {
      assert |multiset(b)| == 0;
    }
  }

  /** `x.sort()` and `y.sort()` agree whenever x and y hold the same strings. */
  lemma SortStringsByContents(x: seq<string>, y: seq<string>)
    requires multiset(x) == multiset(y)
    ensures StableSort(x, CompareStrings) == StableSort(y, CompareStrings)
  {
    CompareStringsStrictOrder();
    StableSortSorted(x, CompareStrings);
    StableSortSorted(y, CompareStrings);
    SortedStringsUnique(StableSort(x, CompareStrings), StableSort(y, CompareStrings));
  }
}
