/** The browser page's state and the handlers that change it: the record list
    loaded from the server, the selected record, the sort key, the search term
    and the trigger-word chain. Server answers are parameters: `None` stands for
    a failed request. */
module Catalogue {
  import opened Common
  import opened Text
  import opened Numbers
  import opened Records
  import opened Normalize
  import opened Duplicates
  import opened Chain
  import opened View

  /** The text fields of the add-artist (or edit) form. */
  datatype ArtistForm = ArtistForm(
    name: string,
    artistIds: string,
    trainingCount: string,
    tags: string,
    triggerWords: string,
    styleDescription: string)

  /** The preview-image input: no file chosen, or the path `uploadImage` returned
      (`None` when the upload failed). */
  datatype PreviewUpload = NoFile | Uploaded(path: Option<string>)

  /** The path a preview upload yields, if any (`if (!path)` refuses `null` and ""). */
  function UploadedPath(u: PreviewUpload, fallback: string): (r: Option<string>)
    ensures u.NoFile? ==> r == Some(fallback)
    ensures u.Uploaded? ==> (r.Some? <==> u.path.Some? && u.path.value != "")
  {
    match u
    case NoFile => Some(fallback)
    case Uploaded(p) => if p.Some? && p.value != "" then p else None
  }

  /** The counts field of the add form: `input ? input.split(',').map(...) : [0]`.
      It reads a typed string exactly as the server reads a string field. */
  function NewCounts(input: string): (r: seq<Count>)
    ensures |r| >= 1 && forall k :: 0 <= k < |r| ==> r[k].Num?
    ensures input != "" ==> r == Nums(ParseCounts(input))
    ensures r == NormalizeCounts(Text(input))
  {
    if input != "" then Nums(ParseCounts(input)) else [Num(0)]
  }

  /** The POST body `createArtist` sends once its checks have passed. */
  function NewArtistRequest(name: string, ids: seq<string>, form: ArtistForm,
                            preview: string, today: string): Draft {
    Draft(Some(name), List(ids), List(NewCounts(form.trainingCount)), Some(preview), Some([]),
          Some(Tokens(form.tags)), Some(Tokens(form.triggerWords)), Some(Trim(form.styleDescription)),
          Some(today))
  }

  /** The record `saveArtistChanges` sends: the selected record overridden by the
      edit form's normalised fields. */
  function EditedArtist(a: Artist, form: ArtistForm, preview: string): Artist {
    a.(name := Trim(form.name),
       artistId := List(Tokens(form.artistIds)),
       trainingCount := List(Nums(ParseCounts(form.trainingCount))),
       previewImage := preview,
       tags := Tokens(form.tags),
       triggerWords := Tokens(form.triggerWords),
       styleDescription := Trim(form.styleDescription))
  }

  /** `artists.filter(a => a.id !== id)` */
  function WithoutId(artists: seq<Artist>, id: int): (r: seq<Artist>)
    ensures |r| <= |artists|
  {
    if artists == [] then []
    else (if artists[0].id == id then [] else [artists[0]]) + WithoutId(artists[1..], id)
  }

  /** Deleting removes every record with that id and keeps every other record as
      often as it occurred. */
  lemma {:induction false} WithoutIdContents(artists: seq<Artist>, id: int)
    ensures forall a :: multiset(WithoutId(artists, id))[a] == if a.id == id then 0 else multiset(artists)[a]
  {
    if artists != [] {
      WithoutIdContents(artists[1..], id);
      assert artists == [artists[0]] + artists[1..];
      assert multiset(artists) == multiset{artists[0]} + multiset(artists[1..]);
    }
  }

  /** `uploadedPaths.filter(Boolean)`: the uploads that produced a non-empty path, in order. */
  function ValidPaths(uploaded: seq<Option<string>>): (r: seq<string>)
    ensures |r| <= |uploaded|
  {
    if uploaded == [] then []
    else (if uploaded[0].Some? && uploaded[0].value != "" then [uploaded[0].value] else [])
         + ValidPaths(uploaded[1..])
  }

  /** A path is kept exactly when some upload produced it and it is not empty. */
  lemma {:induction false} ValidPathsMembers(uploaded: seq<Option<string>>)
    ensures forall p :: p in ValidPaths(uploaded) <==> p != "" && Some(p) in uploaded
  {
    if uploaded != [] {
      ValidPathsMembers(uploaded[1..]);
      assert forall x :: x in uploaded <==> x == uploaded[0] || x in uploaded[1..];
    }
  }

  /** The image file `deleteSampleImage` asks the server to delete: the path
      itself, unless it is empty or names the sample placeholder. */
  function ImageToDelete(url: string): (r: Option<string>)
    ensures r.Some? <==> url != "" && !Contains(url, "placeholder-sample.png")
    ensures r.Some? ==> r.value == url
  {
    if url != "" && !Contains(url, "placeholder-sample.png") then Some(url) else None
  }

  class Catalogue {
    var artists: seq<Artist>
    var current: Option<Artist>
    var sortBy: string
    var searchTerm: string
    var chainEnabled: bool
    var chain: string
    /** `localeCompare` on names, and `new Date(x) - new Date(y)` on creation times. */
    const nameOrder: (string, string) -> int
    const dateDiff: (string, string) -> int

    /** The page as it starts: nothing loaded, sorted by count, no search, chain off. */
    constructor(nameOrder: (string, string) -> int, dateDiff: (string, string) -> int)
      ensures artists == [] && current == None && sortBy == "count" && searchTerm == ""
      ensures !chainEnabled && chain == ""
      ensures this.nameOrder == nameOrder && this.dateDiff == dateDiff
    {
      artists := [];
      current := None;
      sortBy := "count";
      searchTerm := "";
      chainEnabled := false;
      chain := "";
      this.nameOrder := nameOrder;
      this.dateDiff := dateDiff;
    }

    /** `loadArtists`: the server's list, or nothing when the request failed. */
    method Load(response: Option<seq<Artist>>)
      modifies this
      ensures artists == (if response.Some? then response.value else [])
      ensures current == old(current) && sortBy == old(sortBy) && searchTerm == old(searchTerm)
      ensures chainEnabled == old(chainEnabled) && chain == old(chain)
    {
      artists := if response.Some? then response.value else [];
    }

    /** `filterAndRender`: the list shown, and the selection dropped when its
        record is no longer shown. */
    method FilterAndRender() returns (shown: seq<Artist>)
      modifies this
      ensures shown == Shown(artists, searchTerm, sortBy, nameOrder, dateDiff)
      ensures current == KeepSelection(shown, old(current))
      ensures artists == old(artists) && sortBy == old(sortBy) && searchTerm == old(searchTerm)
      ensures chainEnabled == old(chainEnabled) && chain == old(chain)
    {
      shown := Shown(artists, searchTerm, sortBy, nameOrder, dateDiff);
      current := KeepSelection(shown, current);
    }

    /** The sort selector. */
    method SetSortBy(value: string) returns (shown: seq<Artist>)
      modifies this
      ensures sortBy == value
      ensures shown == Shown(artists, searchTerm, value, nameOrder, dateDiff)
      ensures current == KeepSelection(shown, old(current))
      ensures artists == old(artists) && searchTerm == old(searchTerm)
      ensures chainEnabled == old(chainEnabled) && chain == old(chain)
    {
      sortBy := value;
      shown := FilterAndRender();
    }

    /** The search box: the term is kept lower-cased. */
    method SetSearchTerm(value: string) returns (shown: seq<Artist>)
      modifies this
      ensures searchTerm == Lower(value)
      ensures shown == Shown(artists, Lower(value), sortBy, nameOrder, dateDiff)
      ensures current == KeepSelection(shown, old(current))
      ensures artists == old(artists) && sortBy == old(sortBy)
      ensures chainEnabled == old(chainEnabled) && chain == old(chain)
    {
      searchTerm := Lower(value);
      shown := FilterAndRender();
    }

    /** `selectArtist` */
    method SelectArtist(a: Artist)
      modifies this
      ensures current == Some(a)
      ensures artists == old(artists) && sortBy == old(sortBy) && searchTerm == old(searchTerm)
      ensures chainEnabled == old(chainEnabled) && chain == old(chain)
    {
      current := Some(a);
    }

    /** `addArtistTriggerWordsToChain` */
    method AddArtistTriggerWordsToChain(a: Artist)
      modifies this
      ensures chain == AppendTriggerWords(old(chain), a.triggerWords)
      ensures artists == old(artists) && current == old(current) && sortBy == old(sortBy)
      ensures searchTerm == old(searchTerm) && chainEnabled == old(chainEnabled)
    {
      chain := AppendTriggerWords(chain, a.triggerWords);
    }

    /** A click on a gallery card: its words join the chain when the chain is on,
        and the record is selected. */
    method ClickCard(a: Artist)
      modifies this
      ensures chain == if old(chainEnabled) then AppendTriggerWords(old(chain), a.triggerWords) else old(chain)
      ensures current == Some(a)
      ensures artists == old(artists) && sortBy == old(sortBy) && searchTerm == old(searchTerm)
      ensures chainEnabled == old(chainEnabled)
    {
      if chainEnabled {
        AddArtistTriggerWordsToChain(a);
      }
      SelectArtist(a);
    }

    /** The chain toggle; switching it off empties the chain box. */
    method SetChainEnabled(enabled: bool)
      modifies this
      ensures chainEnabled == enabled
      ensures chain == if enabled then old(chain) else ""
      ensures artists == old(artists) && current == old(current) && sortBy == old(sortBy)
      ensures searchTerm == old(searchTerm)
    {
      chainEnabled := enabled;
      if !enabled {
        chain := "";
      }
    }

    /** `saveArtistChainAsNewArtist`: with the chain on, the add form is filled
        with the chain as trigger words and the matched IDs and counts, each
        list joined with `", "`; every other field is cleared. */
    method SaveChainAsNewArtist() returns (form: Option<ArtistForm>)
      ensures !chainEnabled ==> form.None?
      ensures chainEnabled ==>
        var words := ChainWords(Trim(chain));
        form == Some(ArtistForm("", Join(Dedup(MatchedIds(artists, words)), ", "),
                                Join(Map(CountText, Dedup(MatchedCounts(artists, words))), ", "),
                                "", Trim(chain), ""))
    {
      if !chainEnabled {
        return None;
      }
      var ids, counts := MatchChain(artists, chain);
      form := Some(ArtistForm("", Join(ids, ", "), Join(Map(CountText, counts), ", "), "", Trim(chain), ""));
    }

    /** `createArtist`: nothing is sent when the name or the IDs are missing, when
        the ID set is a duplicate or when the preview upload fails; otherwise the
        POST body is returned and, when the server answers, its record is added
        at the end and selected. */
    method CreateArtist(form: ArtistForm, preview: PreviewUpload, today: string, response: Option<Artist>)
      returns (request: Option<Draft>)
      modifies this
      ensures var check := CheckNewArtist(old(artists), form.name, form.artistIds);
        var path := UploadedPath(preview, PlaceholderArtist);
        && (request.Some? <==> check.Accepted? && path.Some?)
        && (request.Some? ==> request.value == NewArtistRequest(check.name, check.ids, form, path.value, today))
      ensures request.Some? && response.Some? ==>
        artists == old(artists) + [response.value] && current == Some(response.value)
      ensures !(request.Some? && response.Some?) ==> artists == old(artists) && current == old(current)
      ensures sortBy == old(sortBy) && searchTerm == old(searchTerm)
      ensures chainEnabled == old(chainEnabled) && chain == old(chain)
    {
      var check := CheckNewArtist(artists, form.name, form.artistIds);
      if !check.Accepted? {
        return None;
      }
      var path := UploadedPath(preview, PlaceholderArtist);
      if path.None? {
        return None;
      }
      request := Some(NewArtistRequest(check.name, check.ids, form, path.value, today));
      if response.Some? {
        artists := artists + [response.value];
        var _ := FilterAndRender();
        SelectArtist(response.value);
      }
    }

    /** `saveArtistChanges`: with a selected record that is still in the list and
        a preview that did not fail to upload, the edited record is sent; the
        server's answer replaces the record in place and becomes the selection
        (dropped again if the current search hides it). */
    method SaveArtistChanges(form: ArtistForm, preview: PreviewUpload, response: Option<Artist>)
      returns (request: Option<Artist>)
      modifies this
      ensures old(current).None? ==> request.None?
      ensures old(current).Some? ==>
        var path := UploadedPath(preview, old(current).value.previewImage);
        var index := IndexOfId(old(artists), old(current).value.id);
        && (request.Some? <==> path.Some? && index >= 0)
        && (request.Some? ==> request.value == EditedArtist(old(current).value, form, path.value))
        && (request.Some? && response.Some? ==>
              artists == old(artists)[index := response.value] &&
              current == KeepSelection(Shown(artists, searchTerm, sortBy, nameOrder, dateDiff), Some(response.value)))
      ensures !(request.Some? && response.Some?) ==> artists == old(artists) && current == old(current)
      ensures sortBy == old(sortBy) && searchTerm == old(searchTerm)
      ensures chainEnabled == old(chainEnabled) && chain == old(chain)
    {
      if current.None? {
        return None;
      }
      var a := current.value;
      var path := UploadedPath(preview, a.previewImage);
      if path.None? {
        return None;
      }
      var index := IndexOfId(artists, a.id);
      if index == -1 {
        return None;
      }
      request := Some(EditedArtist(a, form, path.value));
      if response.Some? {
        artists := artists[index := response.value];
        current := response;
        var _ := FilterAndRender();
      }
    }

    /** `deleteArtist`: once the server confirms, every record with that id goes
        and the selection is cleared. */
    method DeleteArtist(id: int, confirmed: bool)
      modifies this
      ensures confirmed ==> artists == WithoutId(old(artists), id) && current == None
      ensures !confirmed ==> artists == old(artists) && current == old(current)
      ensures sortBy == old(sortBy) && searchTerm == old(searchTerm)
      ensures chainEnabled == old(chainEnabled) && chain == old(chain)
    {
      if confirmed {
        artists := WithoutId(artists, id);
        current := None;
        var _ := FilterAndRender();
      }
    }

    /** `addSampleImages`: the non-empty uploaded paths are appended to the list
        entry of the selected record, which is then sent; the list entry keeps the
        new images even when the save fails, and a successful answer becomes the
        selection. */
    method AddSampleImages(uploaded: seq<Option<string>>, response: Option<Artist>)
      returns (request: Option<Artist>)
      modifies this
      ensures var index := if old(current).Some? then IndexOfId(old(artists), old(current).value.id) else -1;
        && (request.Some? <==> index >= 0 && ValidPaths(uploaded) != [])
        && (request.Some? ==>
              var a := old(artists)[index];
              && request.value == a.(sampleImages := a.sampleImages + ValidPaths(uploaded))
              && artists == old(artists)[index := request.value]
              && current == (if response.Some? then response else old(current)))
      ensures request.None? ==> artists == old(artists) && current == old(current)
      ensures sortBy == old(sortBy) && searchTerm == old(searchTerm)
      ensures chainEnabled == old(chainEnabled) && chain == old(chain)
    {
      if current.None? || |uploaded| == 0 {
        return None;
      }
      var valid := ValidPaths(uploaded);
      if |valid| == 0 {
        return None;
      }
      var index := IndexOfId(artists, current.value.id);
      if index == -1 {
        return None;
      }
      var a := artists[index];
      var updated := a.(sampleImages := a.sampleImages + valid);
      artists := artists[index := updated];
      request := Some(updated);
      if response.Some? {
        current := response;
      }
    }

    /** `deleteSampleImage`: for a confirmed deletion of an existing image, the
        image file is asked to be deleted unless it is empty or the placeholder,
        exactly that image is removed from the list entry, which is sent; an
        index out of range changes nothing. */
    method DeleteSampleImage(artistId: int, imageIndex: int, confirmed: bool, response: Option<Artist>)
      returns (deleteRequest: Option<string>, request: Option<Artist>)
      modifies this
      ensures var index := IndexOfId(old(artists), artistId);
        && (request.Some? <==> index >= 0 && confirmed && 0 <= imageIndex < |old(artists)[index].sampleImages|)
        && (request.Some? ==>
              var a := old(artists)[index];
              && deleteRequest == ImageToDelete(a.sampleImages[imageIndex])
              && request.value == a.(sampleImages := a.sampleImages[..imageIndex] + a.sampleImages[imageIndex + 1..])
              && artists == old(artists)[index := request.value]
              && current == (if response.Some? then response else old(current)))
      ensures request.None? ==> deleteRequest.None? && artists == old(artists) && current == old(current)
      ensures sortBy == old(sortBy) && searchTerm == old(searchTerm)
      ensures chainEnabled == old(chainEnabled) && chain == old(chain)
    {
      deleteRequest, request := None, None;
      var index := IndexOfId(artists, artistId);
      if index == -1 || !confirmed {
        return;
      }
      var a := artists[index];
      if imageIndex < 0 || imageIndex >= |a.sampleImages| {
        return;
      }
      deleteRequest := ImageToDelete(a.sampleImages[imageIndex]);
      var updated := a.(sampleImages := a.sampleImages[..imageIndex] + a.sampleImages[imageIndex + 1..]);
      artists := artists[index := updated];
      request := Some(updated);
      if response.Some? {
        current := response;
      }
    }
  }

  // ---- Properties of what the handlers send ----

  /** A create request carries a non-empty trimmed name, non-empty canonical IDs,
      at least one numeric count, canonical tags and trigger words, no sample
      images, and the placeholder preview when no file was chosen. */
  lemma CreateRequestProperties(artists: seq<Artist>, form: ArtistForm, today: string)
    requires CheckNewArtist(artists, form.name, form.artistIds).Accepted?
    ensures var check := CheckNewArtist(artists, form.name, form.artistIds);
      var d := NewArtistRequest(check.name, check.ids, form, PlaceholderArtist, today);
      && d.name.Some? && d.name.value != [] && Trimmed(d.name.value)
      && d.artistId.List? && d.artistId.items != []
      && (forall k :: 0 <= k < |d.artistId.items| ==> Canonical(d.artistId.items[k]))
      && d.trainingCount.List? && |d.trainingCount.items| >= 1
      && (forall k :: 0 <= k < |d.trainingCount.items| ==> d.trainingCount.items[k].Num?)
      && (forall k :: 0 <= k < |d.tags.value| ==> Canonical(d.tags.value[k]))
      && (forall k :: 0 <= k < |d.triggerWords.value| ==> Canonical(d.triggerWords.value[k]))
      && d.sampleImages == Some([]) && d.previewImage == Some(PlaceholderArtist)
  {
    AcceptedIsNew(artists, form.name, form.artistIds);
    TokensCanonical(form.tags);
    TokensCanonical(form.triggerWords);
  }

  /** Showing a record in the edit panel (lists joined with `", "`) and saving it
      unchanged keeps its canonical IDs, tags, trigger words and numeric counts. */
  lemma EditRoundTrip(a: Artist, ids: seq<string>, ns: seq<int>)
    requires a.artistId == List(ids) && a.trainingCount == List(Nums(ns)) && ns != []
    requires forall k :: 0 <= k < |ids| ==> Canonical(ids[k])
    requires forall k :: 0 <= k < |a.tags| ==> Canonical(a.tags[k])
    requires forall k :: 0 <= k < |a.triggerWords| ==> Canonical(a.triggerWords[k])
    requires Trimmed(a.name) && Trimmed(a.styleDescription)
    ensures var form := ArtistForm(a.name, Join(ids, ", "), Join(NumTexts(ns), ", "),
                                   Join(a.tags, ", "), Join(a.triggerWords, ", "), a.styleDescription);
      EditedArtist(a, form, a.previewImage) == a
  {
    TokensJoin(ids);
    TokensJoin(a.tags);
    TokensJoin(a.triggerWords);
    ParseCountsJoin(ns);
  }

  /** Saving the chain fills IDs that the create form reads back unchanged, when
      the matched IDs are canonical. */
  lemma ChainFormIdsRoundTrip(ids: seq<string>)
    requires forall k :: 0 <= k < |ids| ==> Canonical(ids[k])
    ensures Tokens(Join(ids, ", ")) == ids
  {
    TokensJoin(ids);
  }

  /** Numeric counts filled in by the chain are read back by the create form as
      the same numbers; no matched count at all reads back as `[0]`. */
  lemma ChainFormCountsRoundTrip(ns: seq<int>)
    ensures NewCounts(Join(Map(CountText, Nums(ns)), ", ")) == if ns == [] then [Num(0)] else Nums(ns)
  {
    assert Map(CountText, Nums(ns)) == NumTexts(ns) by {
      forall k | 0 <= k < |ns|
        ensures Map(CountText, Nums(ns))[k] == NumTexts(ns)[k]
      {
        MapAt(CountText, Nums(ns), k);
        MapAt(IntToString, ns, k);
      }
    }
    ParseCountsJoin(ns);
    if ns != [] {
      assert NumTexts(ns)[0] != "";
      JoinStart(NumTexts(ns), ", ");
    }
  }
}
