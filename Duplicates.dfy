/** The duplicate-ID-set check of the create form. An ID list is reduced to a key:
    its entries lower-cased, sorted and joined with ",". A new artist is refused
    when an existing record whose `artistId` is an array has the same key, so the
    check compares whole sorted multisets of IDs, never subsets. */
module Duplicates {
  import opened Common
  import opened Text
  import opened Sorting
  import opened Records
  import opened Normalize

  /** `ids.map(id => id.toLowerCase()).sort().join(',')` */
  function IdKey(ids: seq<string>): string {
    Join(StableSort(LowerAll(ids), CompareStrings), ",")
  }

  /** `artists.some(a => a.artistId && Array.isArray(a.artistId) && key(a.artistId) === key(ids))` */
  function IsDuplicateSet(artists: seq<Artist>, ids: seq<string>): (r: bool)
    ensures r <==> exists k :: 0 <= k < |artists| && artists[k].artistId.List? &&
                            IdKey(artists[k].artistId.items) == IdKey(ids)
  {
    if artists == [] then false
    else if artists[0].artistId.List? && IdKey(artists[0].artistId.items) == IdKey(ids) then true
    else
      var r := IsDuplicateSet(artists[1..], ids);
      assert forall k :: 0 < k < |artists| ==> artists[k] == artists[1..][k - 1];
      r
  }

  /** The same, seen through `map`. */
  lemma MapRemoveAt<A, B>(f: A -> B, b: seq<A>, i: int)
    requires 0 <= i < |b|
    ensures multiset(Map(f, b[..i] + b[i + 1..])) + multiset{f(b[i])} == multiset(Map(f, b))
  {
    var x, y := b[..i], b[i + 1..];
    assert b == x + ([b[i]] + y);
    MapConcat(f, x, [b[i]] + y);
    MapConcat(f, [b[i]], y);
    MapConcat(f, x, y);
    var mx, my := Map(f, x), Map(f, y);
    assert Map(f, [b[i]]) == [f(b[i])];
    assert Map(f, b) == mx + ([f(b[i])] + my);
    assert Map(f, x + y) == mx + my;
  }

  lemma MultisetCancel<A>(x: multiset<A>, y: multiset<A>, c: A)
    requires x + multiset{c} == y + multiset{c}
    ensures x == y
  {
    assert x == (x + multiset{c}) - multiset{c};
    assert y == (y + multiset{c}) - multiset{c};
  }

  /** Mapping preserves "same elements, maybe in another order". */
  lemma {:induction false} MapMultiset<A, B>(f: A -> B, a: seq<A>, b: seq<A>)
    requires multiset(a) == multiset(b)
    ensures multiset(Map(f, a)) == multiset(Map(f, b))
    decreases |a|
  {
    if a == [] {
      assert |multiset(b)| == 0;
    } else {
      assert a[0] in multiset(b);
      var i :| 0 <= i < |b| && b[i] == a[0];
      var b' := b[..i] + b[i + 1..];
      RemoveMatching(a, b, i);
      MapMultiset(f, a[1..], b');
      MapRemoveAt(f, b, i);
      MapRemoveFirst(f, a);
    }
  }

  /** Taking the same element out of two equal multisets leaves equal multisets. */
  lemma RemoveMatching<A>(a: seq<A>, b: seq<A>, i: int)
    requires multiset(a) == multiset(b) && a != []
    requires 0 <= i < |b| && b[i] == a[0]
    ensures multiset(a[1..]) == multiset(b[..i] + b[i + 1..])
  {
    MultisetRemoveAt(b, i);
    MultisetRemoveAt(a, 0);
    assert a[..0] + a[1..] == a[1..];
    MultisetCancel(multiset(a[1..]), multiset(b[..i] + b[i + 1..]), a[0]);
  }

  lemma MapRemoveFirst<A, B>(f: A -> B, a: seq<A>)
    requires a != []
    ensures multiset(Map(f, a[1..])) + multiset{f(a[0])} == multiset(Map(f, a))
  {
    assert Map(f, a) == [f(a[0])] + Map(f, a[1..]);
  }

  /** The key depends only on the lower-cased IDs as a multiset. */
  lemma IdKeyByContents(x: seq<string>, y: seq<string>)
    requires multiset(LowerAll(x)) == multiset(LowerAll(y))
    ensures IdKey(x) == IdKey(y)
  {
    SortStringsByContents(LowerAll(x), LowerAll(y));
  }

  /** Reordering the IDs does not change the key. */
  lemma IdKeyReorder(x: seq<string>, y: seq<string>)
    requires multiset(x) == multiset(y)
    ensures IdKey(x) == IdKey(y)
  {
    MapMultiset(Lower, x, y);
    IdKeyByContents(x, y);
  }

  /** Lower-casing twice is lower-casing once. */
  lemma LowerAllIdempotent(x: seq<string>)
    ensures LowerAll(LowerAll(x)) == LowerAll(x)
  {
    var l := LowerAll(x);
    forall k | 0 <= k < |x|
      ensures LowerAll(l)[k] == l[k]
    {
      MapAt(Lower, x, k);
      MapAt(Lower, l, k);
      LowerIdempotent(x[k]);
    }
  }

  /** Letter case does not change the key. */
  lemma IdKeyIgnoresCase(x: seq<string>)
    ensures IdKey(LowerAll(x)) == IdKey(x)
  {
    LowerAllIdempotent(x);
  }

  /** The entries of a sorted sequence are entries of what was sorted. */
  lemma SortedEntriesFrom(s: seq<string>, k: int)
    requires 0 <= k < |StableSort(s, CompareStrings)|
    ensures StableSort(s, CompareStrings)[k] in s
  {
    assert StableSort(s, CompareStrings)[k] in multiset(StableSort(s, CompareStrings));
  }

  /** Lower-cased IDs without commas: the sorted list can be read back from the key. */
  lemma SplitIdKey(x: seq<string>)
    requires x != []
    requires forall k :: 0 <= k < |x| ==> ',' !in x[k]
    ensures Split(IdKey(x), ',') == StableSort(LowerAll(x), CompareStrings)
  {
    var l := LowerAll(x);
    var s := StableSort(l, CompareStrings);
    assert |s| == |l| by {
      assert |multiset(s)| == |multiset(l)|;
    }
    forall k | 0 <= k < |s|
      ensures ',' !in s[k]
    {
      SortedEntriesFrom(l, k);
      var j :| 0 <= j < |l| && l[j] == s[k];
      MapAt(Lower, x, j);
      LowerKeepsChar(x[j], ',');
    }
    SplitJoin(s, ',');
  }

  /** For non-empty ID lists without commas, equal keys mean the same lower-cased
      IDs with the same multiplicities (together with `IdKeyByContents`, an
      if-and-only-if). */
  lemma IdKeySameContents(x: seq<string>, y: seq<string>)
    requires x != [] && y != []
    requires forall k :: 0 <= k < |x| ==> ',' !in x[k]
    requires forall k :: 0 <= k < |y| ==> ',' !in y[k]
    requires IdKey(x) == IdKey(y)
    ensures multiset(LowerAll(x)) == multiset(LowerAll(y))
  {
    SplitIdKey(x);
    SplitIdKey(y);
  }

  /** Repeats count: `["a", "a"]` does not clash with `["a"]`. */
  lemma RepeatsAreNotDuplicates()
    ensures IdKey(["a", "a"]) != IdKey(["a"])
  {
  }

  /** Outcome of the checks `createArtist` makes before it sends anything. */
  datatype CreateCheck = MissingRequired | DuplicateIds | Accepted(name: string, ids: seq<string>)

  /** The required-field and duplicate checks of `createArtist`: the trimmed name
      and the ID tokens must be non-empty, and the ID set must be new. */
  function CheckNewArtist(artists: seq<Artist>, nameInput: string, idInput: string): (r: CreateCheck)
    ensures r.MissingRequired? <==> Trim(nameInput) == [] || Tokens(idInput) == []
    ensures r.DuplicateIds? <==> !r.MissingRequired? && IsDuplicateSet(artists, Tokens(idInput))
    ensures r.Accepted? ==> r.name == Trim(nameInput) && r.ids == Tokens(idInput)
  {
    TokensEmpty();
    var name := Trim(nameInput);
    var ids := if idInput != "" then Tokens(idInput) else [];
    if name == [] || |ids| == 0 then MissingRequired
    else if IsDuplicateSet(artists, ids) then DuplicateIds
    else Accepted(name, ids)
  }

  /** An accepted ID list is new: no array-valued record holds the same lower-cased
      IDs with the same multiplicities; and the accepted fields are canonical. */
  lemma AcceptedIsNew(artists: seq<Artist>, nameInput: string, idInput: string)
    requires CheckNewArtist(artists, nameInput, idInput).Accepted?
    ensures var r := CheckNewArtist(artists, nameInput, idInput);
      && r.name != [] && r.ids != []
      && (forall k :: 0 <= k < |r.ids| ==> Canonical(r.ids[k]))
      && forall k :: 0 <= k < |artists| && artists[k].artistId.List? ==>
           multiset(LowerAll(artists[k].artistId.items)) != multiset(LowerAll(r.ids))
  {
    var r := CheckNewArtist(artists, nameInput, idInput);
    TokensCanonical(idInput);
    forall k | 0 <= k < |artists| && artists[k].artistId.List?
      ensures multiset(LowerAll(artists[k].artistId.items)) != multiset(LowerAll(r.ids))
    {
      if multiset(LowerAll(artists[k].artistId.items)) == multiset(LowerAll(r.ids)) {
        IdKeyByContents(artists[k].artistId.items, r.ids);
      }
    }
  }

  /** A refusal as duplicate names a record with the same lower-cased IDs, when
      the stored IDs are free of commas (see `IdKeyCommaCollision` for why that
      hypothesis is needed). */
  lemma DuplicateHasSameIds(artists: seq<Artist>, nameInput: string, idInput: string)
    requires CheckNewArtist(artists, nameInput, idInput).DuplicateIds?
    requires forall k, j :: 0 <= k < |artists| && artists[k].artistId.List? && 0 <= j < |artists[k].artistId.items|
               ==> ',' !in artists[k].artistId.items[j]
    ensures exists k :: 0 <= k < |artists| && artists[k].artistId.List? &&
              multiset(LowerAll(artists[k].artistId.items)) == multiset(LowerAll(Tokens(idInput)))
  {
    var ids := Tokens(idInput);
    var k :| 0 <= k < |artists| && artists[k].artistId.List? && IdKey(artists[k].artistId.items) == IdKey(ids);
    TokensCanonical(idInput);
    if artists[k].artistId.items == [] {
      IdKeyNonEmpty(ids);
      assert false;
    }
    IdKeySameContents(artists[k].artistId.items, ids);
  }

  /** The key of non-empty IDs is not the key `""` of an empty list. */
  lemma IdKeyNonEmpty(x: seq<string>)
    requires x != [] && forall k :: 0 <= k < |x| ==> x[k] != ""
    ensures IdKey(x) != ""
  {
    var l := LowerAll(x);
    var s := StableSort(l, CompareStrings);
    assert |s| == |multiset(s)| == |multiset(l)| == |l|;
    assert s[0] in multiset(l);
    var j :| 0 <= j < |l| && l[j] == s[0];
    MapAt(Lower, x, j);
    JoinHead(s, ",");
  }

  lemma JoinHead(s: seq<string>, sep: string)
    requires s != []
    ensures |Join(s, sep)| >= |s[0]|
  {
  }

  /** A stored ID holding a comma collides with the two IDs it joins: the key of
      `["a,b"]` is the key of `["a", "b"]`, so such a record refuses a new artist
      whose IDs differ from its own. */
  lemma IdKeyCommaCollision()
    ensures IdKey(["a,b"]) == IdKey(["a", "b"])
  {
    LowerSamples();
    SortPair();
    assert StableSort(["a,b"], CompareStrings) == ["a,b"];
    assert Join(["a", "b"], ",") == "a,b";
  }

  lemma LowerSamples()
    ensures LowerAll(["a,b"]) == ["a,b"] && LowerAll(["a", "b"]) == ["a", "b"]
  {
    assert Lower("a,b") == "a,b";
    assert Lower("a") == "a" && Lower("b") == "b";
  }

  lemma SortPair()
    ensures StableSort(["a", "b"], CompareStrings) == ["a", "b"]
  {
    assert ["a", "b"][..1] == ["a"];
    assert StableSort(["a"], CompareStrings) == ["a"];
    assert CompareStrings("b", "a") == 1;
  }
}
