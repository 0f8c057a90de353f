/** What `filterAndRender` shows: the records matching the search term, sorted by
    the chosen key, and whether the selected record survives. */
module View {
  import opened Common
  import opened Text
  import opened Numbers
  import opened Sorting
  import opened Records

  // ---- Training-count totals ----

  /** `cs.reduce((sum, c) => sum + (parseInt(c) || 0), 0)` */
  function SumValues(cs: seq<Count>): int {
    if cs == [] then 0 else SumValues(cs[..|cs| - 1]) + CountValue(cs[|cs| - 1])
  }

  /** The training count shown and sorted on: the sum over an array, otherwise
      `parseInt(x) || 0` of the single value (an absent value is NaN, so 0). */
  function TotalCount(f: Field<Count>): int {
    match f
    case List(cs) => SumValues(cs)
    case Text(s) => IntOrZero(s)
    case Missing => 0
  }

  /** The plain sum of a list of integers. */
  function Sum(ns: seq<int>): int {
    if ns == [] then 0 else Sum(ns[..|ns| - 1]) + ns[|ns| - 1]
  }

  /** Numeric entries add up to their own sum; an empty array totals 0. */
  lemma {:induction false} TotalOfNums(cs: seq<Count>, ns: seq<int>)
    requires |cs| == |ns|
    requires forall k :: 0 <= k < |cs| ==> cs[k] == Num(ns[k])
    ensures TotalCount(List(cs)) == Sum(ns)
  {
    if cs != [] {
      TotalOfNums(cs[..|cs| - 1], ns[..|ns| - 1]);
    }
  }

  /** Totals add up over concatenation. */
  lemma {:induction false} SumValuesConcat(a: seq<Count>, b: seq<Count>)
    ensures SumValues(a + b) == SumValues(a) + SumValues(b)
  {
    if b != [] {
      SumValuesConcat(a, b[..|b| - 1]);
      assert (a + b)[..|a + b| - 1] == a + b[..|b| - 1];
    } else {
      assert a + b == a;
    }
  }

  // ---- The search filter ----

  /** `xs.some(x => x.toLowerCase().includes(term))` */
  predicate AnyContains(xs: seq<string>, term: string) {
    exists k :: 0 <= k < |xs| && Contains(Lower(xs[k]), term)
  }

  /** The search predicate for an already lower-cased, non-empty term: name, IDs,
      style, trigger words or tags contain it, ignoring case. */
  predicate Matches(a: Artist, term: string) {
    || Contains(Lower(a.name), term)
    || (a.artistId.List? && AnyContains(a.artistId.items, term))
    || Contains(Lower(a.styleDescription), term)
    || AnyContains(a.triggerWords, term)
    || AnyContains(a.tags, term)
  }

  /** The records that match, in order. */
  function KeepMatching(artists: seq<Artist>, term: string): (r: seq<Artist>)
    ensures |r| <= |artists|
  {
    if artists == [] then []
    else (if Matches(artists[0], term) then [artists[0]] else []) + KeepMatching(artists[1..], term)
  }

  /** The filter step: an empty term keeps everything. */
  function Filtered(artists: seq<Artist>, term: string): seq<Artist> {
    if term == "" then artists else KeepMatching(artists, term)
  }

  /** The filter keeps each matching record as often as it occurs and drops the
      others: a record is in the result exactly when it matches. */
  lemma {:induction false} KeepMatchingContents(artists: seq<Artist>, term: string)
    ensures forall a :: multiset(KeepMatching(artists, term))[a] ==
                        if Matches(a, term) then multiset(artists)[a] else 0
  {
    if artists != [] {
      KeepMatchingContents(artists[1..], term);
      assert artists == [artists[0]] + artists[1..];
      assert multiset(artists) == multiset{artists[0]} + multiset(artists[1..]);
    }
  }

  /** The filter step as promised: an empty term keeps every record in order;
      otherwise a record is kept iff it matches, as often as it occurs. */
  lemma FilteredProperties(artists: seq<Artist>, term: string)
    ensures term == "" ==> Filtered(artists, term) == artists
    ensures term != "" ==> forall a :: a in Filtered(artists, term) <==> a in artists && Matches(a, term)
    ensures term != "" ==> forall a :: Matches(a, term) ==> multiset(Filtered(artists, term))[a] == multiset(artists)[a]
  {
    KeepMatchingContents(artists, term);
    if term != "" {
      forall a
        ensures a in Filtered(artists, term) <==> a in artists && Matches(a, term)
      {
        assert a in Filtered(artists, term) <==> multiset(Filtered(artists, term))[a] > 0;
        assert a in artists <==> multiset(artists)[a] > 0;
      }
    }
  }

  // ---- The sort comparator ----

  /** `countB - countA`: larger totals first. */
  function ByCount(a: Artist, b: Artist): int {
    TotalCount(b.trainingCount) - TotalCount(a.trainingCount)
  }

  /** The comparator for the sort key; `nameOrder` stands for `localeCompare` and
      `dateDiff(x, y)` for `new Date(x) - new Date(y)`. Unknown keys compare
      everything as equal. */
  function Comparator(sortBy: string, nameOrder: (string, string) -> int,
                      dateDiff: (string, string) -> int): (Artist, Artist) -> int {
    if sortBy == "count" then ByCount
    else if sortBy == "name" then (a: Artist, b: Artist) => nameOrder(a.name, b.name)
    else if sortBy == "date" then (a: Artist, b: Artist) => dateDiff(b.createTime, a.createTime)
    else (a: Artist, b: Artist) => 0
  }

  /** What `filterAndRender` displays. */
  function Shown(artists: seq<Artist>, term: string, sortBy: string,
                 nameOrder: (string, string) -> int, dateDiff: (string, string) -> int): seq<Artist> {
    StableSort(Filtered(artists, term), Comparator(sortBy, nameOrder, dateDiff))
  }

  lemma ByCountStrictOrder()
    ensures StrictOrder(ByCount)
  {
  }

  /** Sorting by `count` lists larger totals first and keeps every record. */
  lemma SortByCountDescending(s: seq<Artist>, nameOrder: (string, string) -> int,
                              dateDiff: (string, string) -> int)
    ensures var r := StableSort(s, Comparator("count", nameOrder, dateDiff));
      && multiset(r) == multiset(s)
      && forall i, j :: 0 <= i < j < |r| ==> TotalCount(r[i].trainingCount) >= TotalCount(r[j].trainingCount)
  {
    ByCountStrictOrder();
    StableSortSorted(s, ByCount);
  }

  /** An unknown sort key keeps the filtered order. */
  lemma UnknownKeyKeepsOrder(s: seq<Artist>, sortBy: string, nameOrder: (string, string) -> int,
                             dateDiff: (string, string) -> int)
    requires sortBy != "count" && sortBy != "name" && sortBy != "date"
    ensures StableSort(s, Comparator(sortBy, nameOrder, dateDiff)) == s
  {
    StableSortIdentity(s, Comparator(sortBy, nameOrder, dateDiff));
  }

  // ---- The selection ----

  /** The selected record stays selected only if a record with its id is shown. */
  function KeepSelection(shown: seq<Artist>, current: Option<Artist>): (r: Option<Artist>)
    ensures r.Some? ==> r == current && exists k :: 0 <= k < |shown| && shown[k].id == current.value.id
    ensures current.Some? && (exists k :: 0 <= k < |shown| && shown[k].id == current.value.id) ==> r == current
    ensures current.None? ==> r.None?
  {
    match current
    case None => None
    case Some(a) => if IndexOfId(shown, a.id) >= 0 then current else None
  }
}
