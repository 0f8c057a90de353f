/** The trigger-word chain ("artist string") of the browser page. Clicking an
    artist card appends that artist's trigger words to the chain, dropping
    repeats (case-sensitively); saving the chain as a new artist looks up every
    artist that owns one of the chain's words (case-insensitively) and collects
    their IDs and training counts without repeats. */
module Chain {
  import opened Common
  import opened Text
  import opened Records
  import opened Normalize

  // ---- Appending an artist's trigger words ----

  /** The chain box's value after `addArtistTriggerWordsToChain(artist)`: an
      artist without trigger words leaves it alone; otherwise the existing tokens
      and the artist's tokens are put through a Set and joined with `", "`. */
  function AppendTriggerWords(chain: string, words: seq<string>): string {
    if |words| == 0 then chain
    else Join(Dedup(Tokens(Trim(chain)) + Tokens(Join(words, ", "))), ", ")
  }

  /** What comes out of the Set is canonical when what goes in is. */
  lemma MergedCanonical(e: seq<string>, n: seq<string>)
    requires forall k :: 0 <= k < |e| ==> Canonical(e[k])
    requires forall k :: 0 <= k < |n| ==> Canonical(n[k])
    ensures forall k :: 0 <= k < |Dedup(e + n)| ==> Canonical(Dedup(e + n)[k])
  {
    var m := Dedup(e + n);
    forall k | 0 <= k < |m|
      ensures Canonical(m[k])
    {
      assert m[k] in e + n;
      var j :| 0 <= j < |e + n| && (e + n)[j] == m[k];
      if j >= |e| {
        assert (e + n)[j] == n[j - |e|];
      }
    }
  }

  /** Reading the new chain back gives exactly the Set's contents, in order. */
  lemma AppendTokens(chain: string, words: seq<string>)
    requires |words| > 0
    ensures Tokens(AppendTriggerWords(chain, words)) ==
            Dedup(Tokens(Trim(chain)) + Tokens(Join(words, ", ")))
  {
    var e, n := Tokens(Trim(chain)), Tokens(Join(words, ", "));
    TokensCanonical(Trim(chain));
    TokensCanonical(Join(words, ", "));
    MergedCanonical(e, n);
    TokensJoin(Dedup(e + n));
  }

  /** The chain after a click: no token twice, the distinct old tokens first and
      in their old order, and a token is in the chain exactly when it was there
      before or is one of the artist's; an artist without words changes nothing. */
  lemma AppendProperties(chain: string, words: seq<string>)
    ensures |words| == 0 ==> AppendTriggerWords(chain, words) == chain
    ensures |words| > 0 ==>
      var r := Tokens(AppendTriggerWords(chain, words));
      var old_ := Tokens(Trim(chain));
      var new_ := Tokens(Join(words, ", "));
      && NoDups(r)
      && |Dedup(old_)| <= |r| && r[..|Dedup(old_)|] == Dedup(old_)
      && forall x :: x in r <==> x in old_ || x in new_
  {
    if |words| > 0 {
      var old_ := Tokens(Trim(chain));
      var new_ := Tokens(Join(words, ", "));
      AppendTokens(chain, words);
      DedupPrefix(old_, new_);
    }
  }

  /** A chain built by clicks has no repeats, so its own tokens are the prefix. */
  lemma AppendKeepsChain(chain: string, words: seq<string>)
    requires |words| > 0
    requires NoDups(Tokens(Trim(chain)))
    ensures var r := Tokens(AppendTriggerWords(chain, words));
      |Tokens(Trim(chain))| <= |r| && r[..|Tokens(Trim(chain))|] == Tokens(Trim(chain))
  {
    AppendProperties(chain, words);
    DedupOfNoDups(Tokens(Trim(chain)));
  }

  /** Clicking the same artist twice is the same as clicking it once. */
  lemma AppendIdempotent(chain: string, words: seq<string>)
    ensures AppendTriggerWords(AppendTriggerWords(chain, words), words) == AppendTriggerWords(chain, words)
  {
    if |words| > 0 {
      var n := Tokens(Join(words, ", "));
      var m := Dedup(Tokens(Trim(chain)) + n);
      var r := AppendTriggerWords(chain, words);
      TokensCanonical(Trim(chain));
      TokensCanonical(Join(words, ", "));
      MergedCanonical(Tokens(Trim(chain)), n);
      JoinCanonicalTrimmed(m);
      assert Trim(r) == r;
      AppendTokens(chain, words);
      DedupAbsorbs(m, n);
      DedupOfNoDups(m);
    }
  }

  // ---- Matching the chain against the catalogue ----

  /** `chain.split(',').map(s => s.trim().toLowerCase()).filter(Boolean)` */
  function ChainWords(chain: string): seq<string> {
    NonEmpty(LowerAll(Trims(Split(chain, ','))))
  }

  /** `artist.triggerWords.length > 0 && artist.triggerWords.some(w => words.includes(w.toLowerCase()))` */
  predicate HasMatchingWord(a: Artist, words: seq<string>) {
    |a.triggerWords| > 0 && exists k :: 0 <= k < |a.triggerWords| && Lower(a.triggerWords[k]) in words
  }

  /** The IDs a matching artist contributes: its `artistId` when that is an array. */
  function IdsOf(a: Artist): seq<string> {
    if a.artistId.List? then a.artistId.items else []
  }

  function CountsOf(a: Artist): seq<Count> {
    if a.trainingCount.List? then a.trainingCount.items else []
  }

  /** Every ID offered to the Set, in the order the `forEach` loops offer them. */
  function MatchedIds(artists: seq<Artist>, words: seq<string>): seq<string> {
    if artists == [] then []
    else
      var a := artists[|artists| - 1];
      MatchedIds(artists[..|artists| - 1], words) + (if HasMatchingWord(a, words) then IdsOf(a) else [])
  }

  function MatchedCounts(artists: seq<Artist>, words: seq<string>): seq<Count> {
    if artists == [] then []
    else
      var a := artists[|artists| - 1];
      MatchedCounts(artists[..|artists| - 1], words) + (if HasMatchingWord(a, words) then CountsOf(a) else [])
  }

  /** An ID is offered exactly when some matching artist has it in its ID array. */
  lemma {:induction false} MatchedIdsMembers(artists: seq<Artist>, words: seq<string>, x: string)
    ensures x in MatchedIds(artists, words) <==>
      exists k :: 0 <= k < |artists| && HasMatchingWord(artists[k], words) && x in IdsOf(artists[k])
  {
    if artists != [] {
      var p := artists[..|artists| - 1];
      MatchedIdsMembers(p, words, x);
      assert forall k :: 0 <= k < |p| ==> p[k] == artists[k];
    }
  }

  /** A count is offered exactly when some matching artist has it in its count array. */
  lemma {:induction false} MatchedCountsMembers(artists: seq<Artist>, words: seq<string>, x: Count)
    ensures x in MatchedCounts(artists, words) <==>
      exists k :: 0 <= k < |artists| && HasMatchingWord(artists[k], words) && x in CountsOf(artists[k])
  {
    if artists != [] {
      var p := artists[..|artists| - 1];
      MatchedCountsMembers(p, words, x);
      assert forall k :: 0 <= k < |p| ==> p[k] == artists[k];
    }
  }

  /** Without chain words nothing matches. */
  lemma {:induction false} NoWordsNoMatch(artists: seq<Artist>)
    ensures MatchedIds(artists, []) == [] && MatchedCounts(artists, []) == []
  {
    if artists != [] {
      NoWordsNoMatch(artists[..|artists| - 1]);
    }
  }

  /** A blank chain has no words. */
  lemma BlankChainHasNoWords()
    ensures ChainWords("") == []
  {
    assert Split("", ',') == [""];
    MapAt(Trim, [""], 0);
    MapAt(Lower, Trims([""]), 0);
  }

  /** One more artist offers its IDs and counts when it matches, nothing otherwise. */
  lemma MatchedStep(artists: seq<Artist>, i: int, words: seq<string>)
    requires 0 <= i < |artists|
    ensures MatchedIds(artists[..i + 1], words) ==
      MatchedIds(artists[..i], words) + (if HasMatchingWord(artists[i], words) then IdsOf(artists[i]) else [])
    ensures MatchedCounts(artists[..i + 1], words) ==
      MatchedCounts(artists[..i], words) + (if HasMatchingWord(artists[i], words) then CountsOf(artists[i]) else [])
  {
    assert artists[..i + 1][..i] == artists[..i];
  }

  /** `set.add(x)` for each `x` of `xs`, in order; the Set is kept as its iteration order. */
  method AddEach<T(==,!new)>(ghost offered: seq<T>, acc: seq<T>, xs: seq<T>) returns (r: seq<T>)
    requires acc == Dedup(offered)
    ensures r == Dedup(offered + xs)
  {
    r := acc;
    var j := 0;
    assert offered + xs[..0] == offered;
    while j < |xs|
      invariant 0 <= j <= |xs|
      invariant r == Dedup(offered + xs[..j])
    {
      AddStep(offered, xs, j);
      if xs[j] !in r {
        r := r + [xs[j]];
      }
      j := j + 1;
    }
    WholeSlice(xs);
  }

  /** One `set.add` of the loop above. */
  lemma AddStep<T(!new)>(offered: seq<T>, xs: seq<T>, j: int)
    requires 0 <= j < |xs|
    ensures xs[j] in Dedup(offered + xs[..j]) ==> Dedup(offered + xs[..j + 1]) == Dedup(offered + xs[..j])
    ensures xs[j] !in Dedup(offered + xs[..j]) ==> Dedup(offered + xs[..j + 1]) == Dedup(offered + xs[..j]) + [xs[j]]
  {
    assert offered + xs[..j + 1] == offered + xs[..j] + [xs[j]];
    DedupSnoc(offered + xs[..j], xs[j]);
  }

  /** The matching loop of `saveArtistChainAsNewArtist`: the IDs and counts of every
      artist with a trigger word among the chain's words, each once, in the order
      the loop first meets them. */
  method MatchChain(artists: seq<Artist>, chainContent: string) returns (ids: seq<string>, counts: seq<Count>)
    ensures ids == Dedup(MatchedIds(artists, ChainWords(Trim(chainContent))))
    ensures counts == Dedup(MatchedCounts(artists, ChainWords(Trim(chainContent))))
  {
    var words := ChainWords(Trim(chainContent));
    ids, counts := [], [];
    var i := 0;
    while i < |artists|
      invariant 0 <= i <= |artists|
      invariant ids == Dedup(MatchedIds(artists[..i], words))
      invariant counts == Dedup(MatchedCounts(artists[..i], words))
    {
      var a := artists[i];
      MatchedStep(artists, i, words);
      if HasMatchingWord(a, words) {
        ids := AddEach(MatchedIds(artists[..i], words), ids, IdsOf(a));
        counts := AddEach(MatchedCounts(artists[..i], words), counts, CountsOf(a));
      } else {
        assert MatchedIds(artists[..i], words) + [] == MatchedIds(artists[..i], words);
        assert MatchedCounts(artists[..i], words) + [] == MatchedCounts(artists[..i], words);
      }
      i := i + 1;
    }
    assert artists[..i] == artists;
  }

  /** What the matching yields: no repeats, exactly the IDs and counts of the
      matching artists, and nothing at all for a blank chain. */
  lemma MatchProperties(artists: seq<Artist>, chainContent: string)
    ensures var words := ChainWords(Trim(chainContent));
      var ids := Dedup(MatchedIds(artists, words));
      var counts := Dedup(MatchedCounts(artists, words));
      && NoDups(ids) && NoDups(counts)
      && (forall x :: x in ids <==> exists k :: 0 <= k < |artists| && HasMatchingWord(artists[k], words) && x in IdsOf(artists[k]))
      && (forall x :: x in counts <==> exists k :: 0 <= k < |artists| && HasMatchingWord(artists[k], words) && x in CountsOf(artists[k]))
      && (Trim(chainContent) == "" ==> ids == [] && counts == [])
  {
    var words := ChainWords(Trim(chainContent));
    forall x
      ensures x in MatchedIds(artists, words) <==>
        exists k :: 0 <= k < |artists| && HasMatchingWord(artists[k], words) && x in IdsOf(artists[k])
    {
      MatchedIdsMembers(artists, words, x);
    }
    forall x
      ensures x in MatchedCounts(artists, words) <==>
        exists k :: 0 <= k < |artists| && HasMatchingWord(artists[k], words) && x in CountsOf(artists[k])
    {
      MatchedCountsMembers(artists, words, x);
    }
    if Trim(chainContent) == "" {
      BlankChainHasNoWords();
      NoWordsNoMatch(artists);
    }
  }
}
