/** The Express server's images directory, which holds the uploaded images and
    one JSON file per artist, and the handlers that read and change it. The
    directory is a listing (the order `readdirSync` returns: libuv sorts the
    entries of a directory scan with `strcmp`, which on names in UTF-8 is the
    character order `StrLess`) and a map from file name to content; JSON (de)serialisation is the identity on records, and a
    file that does not parse is `Unparsable`. The clock (`Date.now()`, today's
    date) is a parameter, and HTTP answers are return values. */
module Server {
  import opened Common
  import opened Text
  import opened Numbers
  import opened Records
  import opened Normalize
  import opened Paths
  import opened Sorting
  import opened Catalogue

  datatype Content = Record(artist: Artist) | Unparsable | Image

  /** A file arriving through multer: its client-side name and its MIME type. */
  datatype Upload = Upload(originalName: string, mimetype: string)

  // ---- Sequences of file names ----

  /** `xs.filter(p)` */
  function Select(xs: seq<string>, p: string -> bool): (r: seq<string>)
    ensures |r| <= |xs|
    ensures forall x :: x in r <==> x in xs && p(x)
  {
    if xs == [] then []
    else
      assert forall x :: x in xs <==> x == xs[0] || x in xs[1..];
      (if p(xs[0]) then [xs[0]] else []) + Select(xs[1..], p)
  }

  lemma {:induction false} SelectNoDups(xs: seq<string>, p: string -> bool)
    requires NoDups(xs)
    ensures NoDups(Select(xs, p))
  {
    if xs != [] {
      assert NoDups(xs[1..]);
      SelectNoDups(xs[1..], p);
      assert xs[0] !in xs[1..];
    }
  }

  lemma {:induction false} SelectSnoc(xs: seq<string>, x: string, p: string -> bool)
    ensures Select(xs + [x], p) == Select(xs, p) + (if p(x) then [x] else [])
  {
    if xs != [] {
      assert (xs + [x])[1..] == xs[1..] + [x];
      SelectSnoc(xs[1..], x, p);
    } else {
      assert [x][1..] == [];
    }
  }

  /** The listing once the files `names` are gone. */
  function Drop(listing: seq<string>, names: seq<string>): (r: seq<string>)
    ensures |r| <= |listing|
    ensures forall f :: f in r <==> f in listing && f !in names
  {
    if listing == [] then []
    else
      assert forall x :: x in listing <==> x == listing[0] || x in listing[1..];
      (if listing[0] in names then [] else [listing[0]]) + Drop(listing[1..], names)
  }

  /** Dropping one more name is dropping it from what is left. */
  lemma {:induction false} DropSnoc(listing: seq<string>, names: seq<string>, x: string)
    ensures Drop(listing, names + [x]) == Drop(Drop(listing, names), [x])
  {
    if listing != [] {
      var h, t := listing[0], listing[1..];
      DropSnoc(t, names, x);
      var d := Drop(t, names);
      assert h in names + [x] <==> h in names || h == x;
      if h !in names {
        assert Drop(listing, names) == [h] + d;
        assert ([h] + d)[0] == h && ([h] + d)[1..] == d;
      } else {
        assert Drop(listing, names) == d;
      }
    }
  }

  /** Names that are not listed, or already dropped, drop nothing more. */
  lemma {:induction false} DropAbsent(listing: seq<string>, names: seq<string>, x: string)
    requires x in names || x !in listing
    ensures Drop(listing, names + [x]) == Drop(listing, names)
  {
    if listing != [] {
      DropAbsent(listing[1..], names, x);
    }
  }

  /** The listing `readdirSync` returns: names in strictly ascending order. */
  ghost predicate Ascending(listing: seq<string>) {
    forall i, j :: 0 <= i < j < |listing| ==> StrLess(listing[i], listing[j])
  }

  /** An ascending listing names each file once. */
  lemma AscendingNoDups(listing: seq<string>)
    requires Ascending(listing)
    ensures NoDups(listing)
  {
    forall i, j | 0 <= i < j < |listing|
      ensures listing[i] != listing[j]
    {
      StrLessIrreflexive(listing[i]);
    }
  }

  /** `writeFileSync` of a name: a name already listed stays where it is; a new
      one takes its place in the sorted listing. */
  function PutName(listing: seq<string>, name: string): (r: seq<string>)
    ensures forall f :: f in r <==> f in listing || f == name
    ensures name in listing ==> r == listing
    ensures name !in listing ==> multiset(r) == multiset(listing) + multiset{name}
  {
    if name in listing then listing
    else
      InsertMembers(name, listing);
      Insert(name, listing, CompareStrings)
  }

  lemma InsertMembers(x: string, s: seq<string>)
    ensures forall f :: f in Insert(x, s, CompareStrings) <==> f in s || f == x
  {
    var r := Insert(x, s, CompareStrings);
    forall f
      ensures f in r <==> f in s || f == x
    {
      assert f in r <==> f in multiset(r);
      assert f in s <==> f in multiset(s);
    }
  }

  /** Writing a file keeps the listing ascending. */
  lemma PutNameAscending(listing: seq<string>, name: string)
    requires Ascending(listing)
    ensures Ascending(PutName(listing, name))
  {
    if name !in listing {
      InsertAscending(name, listing);
    }
  }

  lemma {:induction false} InsertAscending(x: string, s: seq<string>)
    requires Ascending(s) && x !in s
    ensures Ascending(Insert(x, s, CompareStrings))
  {
    if s == [] {
      assert Insert(x, s, CompareStrings) == [x];
    } else if CompareStrings(x, s[0]) < 0 {
      assert Insert(x, s, CompareStrings) == [x] + s;
      InsertFirst(x, s);
    } else {
      var t := s[1..];
      assert Ascending(t);
      InsertAscending(x, t);
      assert Insert(x, s, CompareStrings) == [s[0]] + Insert(x, t, CompareStrings);
      StrLessTotal(x, s[0]);
      InsertLater(x, s);
    }
  }

  /** A name before the first listed one goes in front. */
  lemma InsertFirst(x: string, s: seq<string>)
    requires Ascending(s) && s != [] && StrLess(x, s[0])
    ensures Ascending([x] + s)
  {
    forall y | y in s
      ensures StrLess(x, y)
    {
      var m :| 0 <= m < |s| && s[m] == y;
      if m > 0 {
        StrLessTransitive(x, s[0], y);
      }
    }
    ConsAscending(x, s);
  }

  /** A name after the first listed one goes into the rest. */
  lemma InsertLater(x: string, s: seq<string>)
    requires Ascending(s) && s != [] && StrLess(s[0], x)
    requires Ascending(Insert(x, s[1..], CompareStrings))
    ensures Ascending([s[0]] + Insert(x, s[1..], CompareStrings))
  {
    var t := s[1..];
    var r := Insert(x, t, CompareStrings);
    forall y | y in r
      ensures StrLess(s[0], y)
    {
      assert y in multiset(r);
      if y != x {
        assert y in t;
        var m :| 0 <= m < |t| && t[m] == y;
        assert s[m + 1] == y;
      }
    }
    ConsAscending(s[0], r);
  }

  lemma ConsAscending(h: string, r: seq<string>)
    requires Ascending(r) && forall y :: y in r ==> StrLess(h, y)
    ensures Ascending([h] + r)
  {
    var t := [h] + r;
    forall i, j | 0 <= i < j < |t|
      ensures StrLess(t[i], t[j])
    {
      assert t[j] == r[j - 1];
      if i > 0 {
        assert t[i] == r[i - 1];
      }
    }
  }

  /** Removing files keeps the listing ascending. */
  lemma {:induction false} DropAscending(listing: seq<string>, names: seq<string>)
    requires Ascending(listing)
    ensures Ascending(Drop(listing, names))
  {
    if listing != [] {
      var h, t := listing[0], listing[1..];
      assert Ascending(t);
      DropAscending(t, names);
      var d := Drop(t, names);
      if h !in names {
        assert Drop(listing, names) == [h] + d;
        forall y | y in d
          ensures StrLess(h, y)
        {
          var m :| 0 <= m < |t| && t[m] == y;
          assert listing[m + 1] == y;
        }
        ConsAscending(h, d);
      } else {
        assert Drop(listing, names) == d;
      }
    }
  }

  /** The files once the files `names` are gone. */
  function Removed(files: map<string, Content>, names: seq<string>): (r: map<string, Content>)
    ensures forall f :: f in r <==> f in files && f !in names
  {
    map f | f in files && f !in names :: files[f]
  }

  /** `files.find(f => f.endsWith(suffix))`: the first listed file with that ending, or -1. */
  function FindEnding(listing: seq<string>, suffix: string): (r: int)
    ensures -1 <= r < |listing|
    ensures r >= 0 ==> EndsWith(listing[r], suffix) && forall k :: 0 <= k < r ==> !EndsWith(listing[k], suffix)
    ensures r == -1 <==> forall k :: 0 <= k < |listing| ==> !EndsWith(listing[k], suffix)
  {
    if listing == [] then -1
    else if EndsWith(listing[0], suffix) then 0
    else
      var r := FindEnding(listing[1..], suffix);
      if r == -1 then -1 else r + 1
  }

  // ---- readArtistsData ----

  /** The records of the `.json` files that parse, in listing order. */
  function RecordsIn(listing: seq<string>, files: map<string, Content>): seq<Artist> {
    if listing == [] then []
    else
      var f := listing[|listing| - 1];
      RecordsIn(listing[..|listing| - 1], files)
      + (if EndsWith(f, ".json") && f in files && files[f].Record? then [files[f].artist] else [])
  }

  /** A record is read exactly when some listed `.json` file holds it. */
  lemma {:induction false} RecordsInMembers(listing: seq<string>, files: map<string, Content>)
    ensures forall a :: a in RecordsIn(listing, files) <==>
      exists f :: f in listing && EndsWith(f, ".json") && f in files && files[f] == Record(a)
  {
    if listing != [] {
      var init := listing[..|listing| - 1];
      RecordsInMembers(init, files);
      assert listing == init + [listing[|listing| - 1]];
      assert forall f :: f in listing <==> f in init || f == listing[|listing| - 1];
    }
  }

  // ---- writeArtistData ----

  /** `oldFiles` as written: the files ending in `<id>.json` that do not start
      with the sanitised name. */
  function StaleAsWritten(listing: seq<string>, a: Artist): seq<string> {
    var safe := Sanitize(a.name);
    var suffix := IntToString(a.id) + ".json";
    Select(listing, f => EndsWith(f, suffix) && !StartsWith(f, safe))
  }

  /** The old files the corrected write removes: every other file named `-<id>.json`. */
  function Superseded(listing: seq<string>, a: Artist): seq<string> {
    var filename := RecordFileName(a.name, a.id);
    var suffix := "-" + IntToString(a.id) + ".json";
    Select(listing, f => EndsWith(f, suffix) && f != filename)
  }

  /** The listing after the files `stale` are removed and the record file written. */
  function ListingAfterWrite(listing: seq<string>, stale: seq<string>, a: Artist): seq<string> {
    PutName(Drop(listing, stale), RecordFileName(a.name, a.id))
  }

  /** The files after the files `stale` are removed and the record file written. */
  function FilesAfterWrite(files: map<string, Content>, stale: seq<string>, a: Artist): map<string, Content> {
    Removed(files, stale)[RecordFileName(a.name, a.id) := Record(a)]
  }

  /** The write as written: the record file holds the record; any other file
      survives, unchanged, exactly when it does not end in `<id>.json` or it
      starts with the sanitised name. */
  lemma WriteAsWrittenEffect(listing: seq<string>, files: map<string, Content>, a: Artist, f: string)
    requires forall g :: g in files <==> g in listing
    ensures var r := FilesAfterWrite(files, StaleAsWritten(listing, a), a);
      && r[RecordFileName(a.name, a.id)] == Record(a)
      && (f != RecordFileName(a.name, a.id) ==>
            (f in r <==> f in files && (!EndsWith(f, IntToString(a.id) + ".json") || StartsWith(f, Sanitize(a.name))))
            && (f in r ==> r[f] == files[f]))
  {
  }

  /** Renaming "Alice" (id 5) to "Ali" leaves `Alice-5.json` in place, because it
      starts with "Ali": from then on two records with id 5 are read back, the
      new one first since `Ali-5.json` sorts before `Alice-5.json`. */
  lemma StaleRecordSurvivesRename(alice: Artist)
    requires alice.name == "Alice" && alice.id == 5
    ensures var ali := alice.(name := "Ali");
      var listing := [RecordFileName("Alice", 5)];
      var files := map[RecordFileName("Alice", 5) := Record(alice)];
      var stale := StaleAsWritten(listing, ali);
      RecordsIn(ListingAfterWrite(listing, stale, ali), FilesAfterWrite(files, stale, ali)) == [ali, alice]
  {
    var ali := alice.(name := "Ali");
    RenameNames();
    var old5, new5 := "Alice-5.json", "Ali-5.json";
    StaleSample(ali);
    ListingSample(ali, []);
    var r := FilesAfterWrite(map[old5 := Record(alice)], [], ali);
    FilesSample(alice, ali, []);
    RecordsInPair(new5, old5, r);
  }

  /** As written, the old file starts with the new name, so nothing is removed. */
  lemma StaleSample(ali: Artist)
    requires ali.name == "Ali" && ali.id == 5
    ensures StaleAsWritten(["Alice-5.json"], ali) == []
  {
    RenameNames();
    assert StartsWith("Alice-5.json", "Ali");
  }

  /** The listing after writing `Ali-5.json` with the files `stale` removed. */
  lemma ListingSample(ali: Artist, stale: seq<string>)
    requires ali.name == "Ali" && ali.id == 5
    requires stale == [] || stale == ["Alice-5.json"]
    ensures stale == [] ==> ListingAfterWrite(["Alice-5.json"], stale, ali) == ["Ali-5.json", "Alice-5.json"]
    ensures stale != [] ==> ListingAfterWrite(["Alice-5.json"], stale, ali) == ["Ali-5.json"]
  {
    RenameNames();
    if stale == [] {
      assert Drop(["Alice-5.json"], stale) == ["Alice-5.json"];
      AliBeforeAlice();
      assert Insert("Ali-5.json", ["Alice-5.json"], CompareStrings) == ["Ali-5.json", "Alice-5.json"];
    } else {
      assert Drop(["Alice-5.json"], stale) == [];
    }
  }

  /** `strcmp` order of the two file names: they part at `-` against `c`. */
  lemma AliBeforeAlice()
    ensures StrLess("Ali-5.json", "Alice-5.json")
  {
    assert StrLess("-5.json", "ce-5.json");
    assert "i-5.json"[1..] == "-5.json" && "ice-5.json"[1..] == "ce-5.json";
    assert StrLess("i-5.json", "ice-5.json");
    assert "li-5.json"[1..] == "i-5.json" && "lice-5.json"[1..] == "ice-5.json";
    assert StrLess("li-5.json", "lice-5.json");
    assert "Ali-5.json"[1..] == "li-5.json" && "Alice-5.json"[1..] == "lice-5.json";
  }

  /** The files after writing `Ali-5.json` with the files `stale` removed. */
  lemma FilesSample(alice: Artist, ali: Artist, stale: seq<string>)
    requires ali.name == "Ali" && ali.id == 5
    ensures var r := FilesAfterWrite(map["Alice-5.json" := Record(alice)], stale, ali);
      && "Ali-5.json" in r && r["Ali-5.json"] == Record(ali)
      && (stale == [] ==> "Alice-5.json" in r && r["Alice-5.json"] == Record(alice))
  {
    RenameNames();
  }

  /** The file names of the rename example. */
  lemma RenameNames()
    ensures RecordFileName("Alice", 5) == "Alice-5.json"
    ensures RecordFileName("Ali", 5) == "Ali-5.json"
    ensures Sanitize("Alice") == "Alice" && Sanitize("Ali") == "Ali"
  {
    SanitizeLegal("Alice");
    SanitizeLegal("Ali");
    assert IntToString(5) == "5";
  }

  lemma RecordsInPair(f: string, g: string, files: map<string, Content>)
    requires EndsWith(f, ".json") && EndsWith(g, ".json")
    requires f in files && files[f].Record? && g in files && files[g].Record?
    ensures RecordsIn([f, g], files) == [files[f].artist, files[g].artist]
  {
    assert [f, g][..1] == [f];
    RecordsInOne(f, files);
  }

  /** Writing "Ann" with id 5 unlinks Bob's record `Bob-15.json` (id 15): its
      name ends with `5.json` and does not start with "Ann". */
  lemma LooseSuffixRemovesOtherRecord(bob: Artist, ann: Artist)
    requires ann.name == "Ann" && ann.id == 5
    ensures var files := map["Bob-15.json" := Record(bob)];
      "Bob-15.json" !in FilesAfterWrite(files, StaleAsWritten(["Bob-15.json"], ann), ann)
  {
    SanitizeLegal("Ann");
    assert IntToString(5) == "5";
    assert RecordFileName("Ann", 5) == "Ann-5.json";
    assert EndsWith("Bob-15.json", "5.json");
    assert !StartsWith("Bob-15.json", "Ann");
    assert StaleAsWritten(["Bob-15.json"], ann) == ["Bob-15.json"] by {
      assert ["Bob-15.json"][1..] == [];
    }
  }

  /** The corrected write: the record file holds the record; any other file
      survives, unchanged, exactly when it is not named `-<id>.json`. */
  lemma WriteEffect(listing: seq<string>, files: map<string, Content>, a: Artist, f: string)
    requires forall g :: g in files <==> g in listing
    ensures var r := FilesAfterWrite(files, Superseded(listing, a), a);
      && r[RecordFileName(a.name, a.id)] == Record(a)
      && (f != RecordFileName(a.name, a.id) ==>
            (f in r <==> f in files && !EndsWith(f, "-" + IntToString(a.id) + ".json"))
            && (f in r ==> r[f] == files[f]))
  {
  }

  /** After the corrected write, the record file is the only listed file named
      for this id, so exactly one record with this id is read back from such files. */
  lemma WriteLeavesOneRecordFile(listing: seq<string>, a: Artist)
    ensures var l := ListingAfterWrite(listing, Superseded(listing, a), a);
      && RecordFileName(a.name, a.id) in l
      && forall f :: f in l && EndsWith(f, "-" + IntToString(a.id) + ".json") ==> f == RecordFileName(a.name, a.id)
  {
  }

  /** The corrected write never touches the record file of another
      (non-negative) id. */
  lemma WriteSparesOtherRecords(listing: seq<string>, files: map<string, Content>, a: Artist, name: string, id: int)
    requires forall g :: g in files <==> g in listing
    requires a.id >= 0 && id >= 0 && id != a.id
    requires RecordFileName(name, id) in files
    ensures var r := FilesAfterWrite(files, Superseded(listing, a), a);
      RecordFileName(name, id) in r && r[RecordFileName(name, id)] == files[RecordFileName(name, id)]
  {
    var f := RecordFileName(name, id);
    if EndsWith(f, "-" + IntToString(a.id) + ".json") {
      RecordFileNameId(name, id, a.id);
    }
    RecordFileNameShape(name, id);
    RecordFileNameShape(a.name, a.id);
    if f == RecordFileName(a.name, a.id) {
      RecordFileNameId(name, id, a.id);
    }
  }

  /** With the corrected write, the rename of "Alice" to "Ali" replaces the record. */
  lemma RenameReplacesRecord(alice: Artist)
    requires alice.name == "Alice" && alice.id == 5
    ensures var ali := alice.(name := "Ali");
      var listing := [RecordFileName("Alice", 5)];
      var files := map[RecordFileName("Alice", 5) := Record(alice)];
      var stale := Superseded(listing, ali);
      RecordsIn(ListingAfterWrite(listing, stale, ali), FilesAfterWrite(files, stale, ali)) == [ali]
  {
    var ali := alice.(name := "Ali");
    RenameNames();
    var old5, new5 := "Alice-5.json", "Ali-5.json";
    assert IntToString(5) == "5";
    SupersededSample(ali);
    ListingSample(ali, [old5]);
    var r := FilesAfterWrite(map[old5 := Record(alice)], [old5], ali);
    FilesSample(alice, ali, [old5]);
    RecordsInOne(new5, r);
  }

  /** The corrected write removes the old file. */
  lemma SupersededSample(ali: Artist)
    requires RecordFileName(ali.name, ali.id) == "Ali-5.json" && IntToString(ali.id) == "5"
    ensures Superseded(["Alice-5.json"], ali) == ["Alice-5.json"]
  {
    SupersededOne("Alice-5.json", ali);
    SuffixSample();
  }

  lemma SuffixSample()
    ensures EndsWith("Alice-5.json", "-5.json")
  {
  }

  /** `Superseded` on a one-file listing. */
  lemma SupersededOne(x: string, a: Artist)
    ensures Superseded([x], a) ==
      if EndsWith(x, "-" + IntToString(a.id) + ".json") && x != RecordFileName(a.name, a.id) then [x] else []
  {
    assert [x][1..] == [];
  }

  lemma RecordsInOne(f: string, files: map<string, Content>)
    requires EndsWith(f, ".json") && f in files && files[f].Record?
    ensures RecordsIn([f], files) == [files[f].artist]
  {
    assert [f][..0] == [];
  }

  // ---- The POST and PUT bodies ----

  /** `x || fallback` on an optional string. */
  function OrDefault(x: Option<string>, fallback: string): (r: string)
    ensures x.Some? && x.value != "" ==> r == x.value
    ensures x.None? || x.value == "" ==> r == fallback
    ensures r != "" || fallback == ""
  {
    if x.Some? && x.value != "" then x.value else fallback
  }

  /** The record POST stores: the request body with the server's id, today's date
      when none was sent, no sample images when none were sent, the two list
      fields normalised and the placeholder preview when none was sent. */
  function NewRecord(body: Draft, id: int, today: string): (r: Artist)
    requires body.name.Some?
    ensures r.id == id && r.name == body.name.value
    ensures r.artistId == List(NormalizeIds(body.artistId))
    ensures r.trainingCount == List(NormalizeCounts(body.trainingCount))
    ensures body.trainingCount != List([]) ==> |r.trainingCount.items| >= 1
    ensures body.previewImage.Some? && body.previewImage.value != "" ==> r.previewImage == body.previewImage.value
    ensures body.previewImage.None? || body.previewImage.value == "" ==> r.previewImage == PlaceholderArtist
    ensures r.previewImage != ""
    ensures body.sampleImages.Some? ==> r.sampleImages == body.sampleImages.value
    ensures body.sampleImages.None? ==> r.sampleImages == []
    ensures body.tags.Some? ==> r.tags == body.tags.value
    ensures body.tags.None? ==> r.tags == []
    ensures body.triggerWords.Some? ==> r.triggerWords == body.triggerWords.value
    ensures body.triggerWords.None? ==> r.triggerWords == []
    ensures body.styleDescription.Some? ==> r.styleDescription == body.styleDescription.value
    ensures body.styleDescription.None? ==> r.styleDescription == ""
    ensures body.createTime.Some? && body.createTime.value != "" ==> r.createTime == body.createTime.value
    ensures body.createTime.None? || body.createTime.value == "" ==> r.createTime == today
  {
    Artist(id, body.name.value,
           List(NormalizeIds(body.artistId)), List(NormalizeCounts(body.trainingCount)),
           OrDefault(body.previewImage, PlaceholderArtist),
           if body.sampleImages.Some? then body.sampleImages.value else [],
           if body.tags.Some? then body.tags.value else [],
           if body.triggerWords.Some? then body.triggerWords.value else [],
           if body.styleDescription.Some? then body.styleDescription.value else "",
           OrDefault(body.createTime, today))
  }

  /** `{ ...old, ...body, id }` after the two list fields of the body are
      normalised (so they always override the stored ones). */
  function Merge(a: Artist, body: Draft, id: int): (r: Artist)
    ensures r.id == id
    ensures r.artistId.List? && r.trainingCount.List?
  {
    Artist(id,
           if body.name.Some? then body.name.value else a.name,
           List(NormalizeIds(body.artistId)), List(NormalizeCounts(body.trainingCount)),
           if body.previewImage.Some? then body.previewImage.value else a.previewImage,
           if body.sampleImages.Some? then body.sampleImages.value else a.sampleImages,
           if body.tags.Some? then body.tags.value else a.tags,
           if body.triggerWords.Some? then body.triggerWords.value else a.triggerWords,
           if body.styleDescription.Some? then body.styleDescription.value else a.styleDescription,
           if body.createTime.Some? then body.createTime.value else a.createTime)
  }

  /** The JSON body of a whole record, as the browser sends it on save. */
  function DraftOf(a: Artist): Draft {
    Draft(Some(a.name), a.artistId, a.trainingCount, Some(a.previewImage), Some(a.sampleImages),
          Some(a.tags), Some(a.triggerWords), Some(a.styleDescription), Some(a.createTime))
  }

  /** A body that leaves out a field keeps the stored value of that field, except
      for the IDs and counts: leaving those out stores `[]` and `[0]`. */
  lemma MergeKeepsAbsent(a: Artist, body: Draft, id: int)
    ensures var r := Merge(a, body, id);
      && (body.name.None? ==> r.name == a.name)
      && (body.previewImage.None? ==> r.previewImage == a.previewImage)
      && (body.sampleImages.None? ==> r.sampleImages == a.sampleImages)
      && (body.tags.None? ==> r.tags == a.tags)
      && (body.triggerWords.None? ==> r.triggerWords == a.triggerWords)
      && (body.styleDescription.None? ==> r.styleDescription == a.styleDescription)
      && (body.createTime.None? ==> r.createTime == a.createTime)
      && (body.artistId.Missing? ==> r.artistId == List([]))
      && (body.trainingCount.Missing? ==> r.trainingCount == List([Num(0)]))
  {
  }

  /** A field the body sends overrides the stored one; sent IDs and counts are
      stored normalised: arrays as sent, strings split and parsed. */
  lemma MergeOverrides(a: Artist, body: Draft, id: int)
    ensures var r := Merge(a, body, id);
      && (body.name.Some? ==> r.name == body.name.value)
      && (body.previewImage.Some? ==> r.previewImage == body.previewImage.value)
      && (body.sampleImages.Some? ==> r.sampleImages == body.sampleImages.value)
      && (body.tags.Some? ==> r.tags == body.tags.value)
      && (body.triggerWords.Some? ==> r.triggerWords == body.triggerWords.value)
      && (body.styleDescription.Some? ==> r.styleDescription == body.styleDescription.value)
      && (body.createTime.Some? ==> r.createTime == body.createTime.value)
      && (body.artistId.List? ==> r.artistId == body.artistId)
      && (body.artistId.Text? ==> r.artistId == List(Tokens(body.artistId.s)))
      && (body.trainingCount.List? ==> r.trainingCount == body.trainingCount)
      && (body.trainingCount.Text? && body.trainingCount.s != "" ==>
            r.trainingCount == List(Nums(ParseCounts(body.trainingCount.s))))
  {
  }

  /** Saving a whole record whose list fields are arrays stores exactly that
      record under the URL's id, whatever was stored before. */
  lemma MergeWholeRecord(stored: Artist, a: Artist, id: int)
    requires a.artistId.List? && a.trainingCount.List?
    ensures Merge(stored, DraftOf(a), id) == a.(id := id)
  {
  }

  /** What the browser's create sends is stored as sent, with the server's id. */
  lemma PostStoresCreateRequest(name: string, ids: seq<string>, form: ArtistForm, preview: string,
                                today: string, id: int, serverToday: string)
    requires preview != "" && today != ""
    ensures NewRecord(NewArtistRequest(name, ids, form, preview, today), id, serverToday)
      == Artist(id, name, List(ids), List(NewCounts(form.trainingCount)), preview, [],
                Tokens(form.tags), Tokens(form.triggerWords), Trim(form.styleDescription), today)
  {
  }

  /** What the browser's save sends is stored as sent. */
  lemma PutStoresEditedRecord(stored: Artist, a: Artist, form: ArtistForm, preview: string)
    ensures var e := EditedArtist(a, form, preview);
      Merge(stored, DraftOf(e), a.id) == e
  {
  }

  // ---- The images a record delete removes ----

  predicate KeptSample(s: string) {
    s != "" && s != PlaceholderSample
  }

  /** `imagesToDelete`: the preview unless empty or the placeholder, then the
      sample images that are neither empty nor the sample placeholder. */
  function DeletableImages(a: Artist): seq<string> {
    (if a.previewImage != "" && a.previewImage != PlaceholderArtist then [a.previewImage] else [])
    + Select(a.sampleImages, KeptSample)
  }

  /** The scheduled images are exactly the record's non-empty, non-placeholder images. */
  lemma DeletableImagesMembers(a: Artist)
    ensures forall p :: p in DeletableImages(a) <==>
      p != "" && ((p == a.previewImage && p != PlaceholderArtist) || (p in a.sampleImages && p != PlaceholderSample))
  {
  }

  /** The building loop of `imagesToDelete`. */
  method ImagesToDelete(a: Artist) returns (images: seq<string>)
    ensures images == DeletableImages(a)
  {
    var kept := KeptSamples(a.sampleImages);
    if a.previewImage != "" && a.previewImage != PlaceholderArtist {
      images := [a.previewImage] + kept;
    } else {
      images := kept;
    }
  }

  /** The `forEach` over the sample images. */
  method KeptSamples(samples: seq<string>) returns (kept: seq<string>)
    ensures kept == Select(samples, KeptSample)
  {
    kept := [];
    var i := 0;
    while i < |samples|
      invariant 0 <= i <= |samples|
      invariant kept == Select(samples[..i], KeptSample)
    {
      SelectSnoc(samples[..i], samples[i], KeptSample);
      assert samples[..i + 1] == samples[..i] + [samples[i]];
      if samples[i] != "" && samples[i] != PlaceholderSample {
        kept := kept + [samples[i]];
      }
      i := i + 1;
    }
    WholeSlice(samples);
  }

  /** The file names the image loop unlinks: each base name, unless it starts
      with `placeholder-` (names that are not files are skipped by `existsSync`). */
  function ImageFiles(images: seq<string>): (r: seq<string>)
    ensures forall n :: n in r ==> !StartsWith(n, "placeholder-")
  {
    if images == [] then []
    else
      var n := Basename(images[|images| - 1]);
      ImageFiles(images[..|images| - 1]) + (if StartsWith(n, "placeholder-") then [] else [n])
  }

  lemma ImageFilesSnoc(images: seq<string>, i: int)
    requires 0 <= i < |images|
    ensures StartsWith(Basename(images[i]), "placeholder-") ==> ImageFiles(images[..i + 1]) == ImageFiles(images[..i])
    ensures !StartsWith(Basename(images[i]), "placeholder-") ==>
      ImageFiles(images[..i + 1]) == ImageFiles(images[..i]) + [Basename(images[i])]
  {
    assert images[..i + 1][..i] == images[..i];
  }

  lemma RemovedSnoc(files: map<string, Content>, names: seq<string>, x: string)
    ensures Removed(files, names + [x]) == Removed(Removed(files, names), [x])
  {
  }

  lemma RemovedAbsent(files: map<string, Content>, names: seq<string>, x: string)
    requires x in names || x !in files
    ensures Removed(files, names + [x]) == Removed(files, names)
  {
  }

  /** The JSON file `deleteArtistJson` removes, if any. */
  function RecordFileOf(listing: seq<string>, id: int): seq<string> {
    var i := FindEnding(listing, IntToString(id) + ".json");
    if i >= 0 then [listing[i]] else []
  }

  /** Deleting artist 5 (`Zed`) over `Bob-15.json` and `Zed-5.json` unlinks Bob's
      record, which is listed first and ends with `5.json`, and keeps Zed's. */
  lemma LooseSuffixDeletesOtherRecord()
    ensures RecordFileOf(["Bob-15.json", "Zed-5.json"], 5) == ["Bob-15.json"]
  {
    assert IntToString(5) == "5";
    assert EndsWith("Bob-15.json", "5.json");
  }

  /** The corrected choice of `deleteArtistJson`: the first listed file named
      `-<id>.json`, with the dash, or none when no listed file is. */
  function RecordFileOfCorrected(listing: seq<string>, id: int): (r: seq<string>)
    ensures |r| <= 1
    ensures forall f :: f in r ==> f in listing && EndsWith(f, "-" + IntToString(id) + ".json")
    ensures r == [] <==> forall f :: f in listing ==> !EndsWith(f, "-" + IntToString(id) + ".json")
  {
    var i := FindEnding(listing, "-" + IntToString(id) + ".json");
    if i >= 0 then [listing[i]] else []
  }

  /** The corrected delete never picks the record file of another non-negative id. */
  lemma DeleteSparesOtherRecords(listing: seq<string>, name: string, id: int, other: int)
    requires id >= 0 && other >= 0 && other != id
    ensures RecordFileName(name, other) !in RecordFileOfCorrected(listing, id)
  {
    if RecordFileName(name, other) in RecordFileOfCorrected(listing, id) {
      RecordFileNameId(name, other, id);
    }
  }

  /** With the corrected choice, deleting artist 5 removes `Zed-5.json` and keeps Bob's record. */
  lemma CorrectedDeleteSample()
    ensures RecordFileOfCorrected(["Bob-15.json", "Zed-5.json"], 5) == ["Zed-5.json"]
  {
    var l := ["Bob-15.json", "Zed-5.json"];
    assert IntToString(5) == "5";
    assert "-" + IntToString(5) + ".json" == "-5.json";
    assert !EndsWith(l[0], "-5.json") by {
      assert l[0][4] == '1' && "-5.json"[0] == '-';
    }
    assert EndsWith(l[1], "-5.json");
    assert FindEnding(l, "-5.json") == 1;
  }

  /** A record delete spares every `placeholder-` file that is not a JSON file
      of this id, and every file that none of its images names. */
  lemma DeleteSpares(listing: seq<string>, a: Artist, id: int, f: string)
    requires f in listing
    requires StartsWith(f, "placeholder-") || forall p :: p in DeletableImages(a) ==> Basename(p) != f
    requires !EndsWith(f, IntToString(id) + ".json")
    ensures var l := Drop(listing, ImageFiles(DeletableImages(a)));
      f in Drop(l, RecordFileOf(l, id))
  {
    var l := Drop(listing, ImageFiles(DeletableImages(a)));
    ImageFilesNamed(DeletableImages(a), f);
    var i := FindEnding(l, IntToString(id) + ".json");
  }

  /** The image loop unlinks only base names of its images. */
  lemma {:induction false} ImageFilesNamed(images: seq<string>, f: string)
    ensures f in ImageFiles(images) <==> !StartsWith(f, "placeholder-") && exists p :: p in images && Basename(p) == f
  {
    if images != [] {
      var init, last := images[..|images| - 1], images[|images| - 1];
      ImageFilesNamed(init, f);
      var n := Basename(last);
      assert ImageFiles(images) == ImageFiles(init) + (if StartsWith(n, "placeholder-") then [] else [n]);
      assert images == init + [last];
      assert forall p :: p in images <==> p in init || p == last;
    }
  }

  // ---- The directory ----

  class Directory {
    var listing: seq<string>
    var files: map<string, Content>

    /** A directory lists each of its files once, in ascending order. */
    ghost predicate Valid()
      reads this
    {
      Ascending(listing) && forall f :: f in files <==> f in listing
    }

    constructor(listing: seq<string>, files: map<string, Content>)
      requires Ascending(listing) && forall f :: f in files <==> f in listing
      ensures Valid() && this.listing == listing && this.files == files
    {
      this.listing := listing;
      this.files := files;
    }

    /** `writeFileSync`: the file holds the content, listed once. */
    method Write(name: string, c: Content)
      requires Valid()
      modifies this
      ensures Valid()
      ensures listing == PutName(old(listing), name) && files == old(files)[name := c]
    {
      PutNameAscending(listing, name);
      listing := PutName(listing, name);
      files := files[name := c];
    }

    /** `unlinkSync` of a file that exists. */
    method Unlink(name: string)
      requires Valid() && name in files
      modifies this
      ensures Valid()
      ensures listing == Drop(old(listing), [name]) && files == Removed(old(files), [name])
    {
      DropAscending(listing, [name]);
      listing := Drop(listing, [name]);
      files := Removed(files, [name]);
    }

    /** `oldFiles.forEach(unlinkSync)` on distinct existing files. */
    method RemoveFiles(names: seq<string>)
      requires Valid() && NoDups(names) && forall n :: n in names ==> n in files
      modifies this
      ensures Valid()
      ensures listing == Drop(old(listing), names) && files == Removed(old(files), names)
    {
      var i := 0;
      DropNothing(listing);
      assert Removed(files, []) == files;
      while i < |names|
        invariant 0 <= i <= |names| && Valid()
        invariant listing == Drop(old(listing), names[..i]) && files == Removed(old(files), names[..i])
      {
        RemoveNext(old(listing), old(files), names, i);
        i := i + 1;
      }
      WholeSlice(names);
    }

    /** One step of that `forEach`: the next name is unlinked. */
    method RemoveNext(ghost listing0: seq<string>, ghost files0: map<string, Content>, names: seq<string>, i: int)
      requires Valid() && NoDups(names) && 0 <= i < |names| && names[i] in files0
      requires listing == Drop(listing0, names[..i]) && files == Removed(files0, names[..i])
      modifies this
      ensures Valid()
      ensures listing == Drop(listing0, names[..i + 1]) && files == Removed(files0, names[..i + 1])
    {
      var n := names[i];
      NoDupsFresh(names, i);
      assert n in files;
      DropStep(listing0, names, i);
      RemovedStep(files0, names, i);
      Unlink(n);
    }

    /** `readArtistsData`: the records of the `.json` files that parse, in listing order. */
    method ReadArtistsData() returns (artists: seq<Artist>)
      ensures artists == RecordsIn(listing, files)
    {
      artists := [];
      var i := 0;
      while i < |listing|
        invariant 0 <= i <= |listing|
        invariant artists == RecordsIn(listing[..i], files)
      {
        var f := listing[i];
        assert listing[..i + 1][..i] == listing[..i];
        if EndsWith(f, ".json") && f in files && files[f].Record? {
          artists := artists + [files[f].artist];
        }
        i := i + 1;
      }
      WholeSlice(listing);
    }

    /** `writeArtistData` as written (see `StaleRecordSurvivesRename`). */
    method WriteArtistDataAsWritten(a: Artist)
      requires Valid()
      modifies this
      ensures Valid()
      ensures listing == ListingAfterWrite(old(listing), StaleAsWritten(old(listing), a), a)
      ensures files == FilesAfterWrite(old(files), StaleAsWritten(old(listing), a), a)
    {
      var stale := StaleAsWritten(listing, a);
      AscendingNoDups(listing);
      SelectNoDups(listing, f => EndsWith(f, IntToString(a.id) + ".json") && !StartsWith(f, Sanitize(a.name)));
      RemoveFiles(stale);
      Write(RecordFileName(a.name, a.id), Record(a));
    }

    /** `writeArtistData`, removing every other file of this id (see `WriteEffect`). */
    method WriteArtistData(a: Artist)
      requires Valid()
      modifies this
      ensures Valid()
      ensures listing == ListingAfterWrite(old(listing), Superseded(old(listing), a), a)
      ensures files == FilesAfterWrite(old(files), Superseded(old(listing), a), a)
    {
      var stale := Superseded(listing, a);
      AscendingNoDups(listing);
      SelectNoDups(listing, f => EndsWith(f, "-" + IntToString(a.id) + ".json") && f != RecordFileName(a.name, a.id));
      RemoveFiles(stale);
      Write(RecordFileName(a.name, a.id), Record(a));
    }

    /** `deleteArtistJson`: removes the first listed file ending in `<id>.json`
        and nothing else. */
    method DeleteArtistJson(id: int)
      requires Valid()
      modifies this
      ensures Valid()
      ensures listing == Drop(old(listing), RecordFileOf(old(listing), id))
      ensures files == Removed(old(files), RecordFileOf(old(listing), id))
      ensures |RecordFileOf(old(listing), id)| <= 1
    {
      var i := FindEnding(listing, IntToString(id) + ".json");
      if i >= 0 {
        Unlink(listing[i]);
      } else {
        assert Drop(listing, []) == listing by {
          DropNothing(listing);
        }
        assert Removed(files, []) == files;
      }
    }

    /** The corrected `deleteArtistJson`: removes the first listed file named
        `-<id>.json` and nothing else. */
    method DeleteArtistJsonCorrected(id: int)
      requires Valid()
      modifies this
      ensures Valid()
      ensures listing == Drop(old(listing), RecordFileOfCorrected(old(listing), id))
      ensures files == Removed(old(files), RecordFileOfCorrected(old(listing), id))
    {
      var i := FindEnding(listing, "-" + IntToString(id) + ".json");
      if i >= 0 {
        Unlink(listing[i]);
      } else {
        assert Drop(listing, []) == listing by {
          DropNothing(listing);
        }
        assert Removed(files, []) == files;
      }
    }

    /** POST /api/artists: a body without a name fails (500) before anything is
        written; otherwise the record is completed and written as `writeArtistData`
        does (201). */
    method Post(body: Draft, id: int, today: string) returns (status: int, created: Option<Artist>)
      requires Valid()
      modifies this
      ensures Valid()
      ensures body.name.None? ==> status == 500 && created.None? && listing == old(listing) && files == old(files)
      ensures body.name.Some? ==>
        && status == 201 && created == Some(NewRecord(body, id, today))
        && listing == ListingAfterWrite(old(listing), StaleAsWritten(old(listing), created.value), created.value)
        && files == FilesAfterWrite(old(files), StaleAsWritten(old(listing), created.value), created.value)
    {
      if body.name.None? {
        return 500, None;
      }
      var a := NewRecord(body, id, today);
      WriteArtistDataAsWritten(a);
      return 201, Some(a);
    }

    /** POST /api/artists with the corrected write (see `WriteEffect`). */
    method PostCorrected(body: Draft, id: int, today: string) returns (status: int, created: Option<Artist>)
      requires Valid()
      modifies this
      ensures Valid()
      ensures body.name.None? ==> status == 500 && created.None? && listing == old(listing) && files == old(files)
      ensures body.name.Some? ==>
        && status == 201 && created == Some(NewRecord(body, id, today))
        && listing == ListingAfterWrite(old(listing), Superseded(old(listing), created.value), created.value)
        && files == FilesAfterWrite(old(files), Superseded(old(listing), created.value), created.value)
    {
      if body.name.None? {
        return 500, None;
      }
      var a := NewRecord(body, id, today);
      WriteArtistData(a);
      return 201, Some(a);
    }

    /** PUT /api/artists/:id: an id that does not parse or names no record gives
        404 and changes nothing; otherwise the merged record is written as
        `writeArtistData` does (200). */
    method Put(idParam: string, body: Draft) returns (status: int, updated: Option<Artist>)
      requires Valid()
      modifies this
      ensures Valid()
      ensures var artists := RecordsIn(old(listing), old(files));
        var i := Lookup(artists, idParam);
        && (i == -1 ==> status == 404 && updated.None? && listing == old(listing) && files == old(files))
        && (i >= 0 ==>
              var a := Merge(artists[i], body, ParseInt(idParam).value);
              && status == 200 && updated == Some(a)
              && listing == ListingAfterWrite(old(listing), StaleAsWritten(old(listing), a), a)
              && files == FilesAfterWrite(old(files), StaleAsWritten(old(listing), a), a))
    {
      var artists := ReadArtistsData();
      var i := Lookup(artists, idParam);
      if i == -1 {
        return 404, None;
      }
      var a := Merge(artists[i], body, ParseInt(idParam).value);
      WriteArtistDataAsWritten(a);
      return 200, Some(a);
    }

    /** PUT /api/artists/:id with the corrected write (see `RenameReplacesRecord`). */
    method PutCorrected(idParam: string, body: Draft) returns (status: int, updated: Option<Artist>)
      requires Valid()
      modifies this
      ensures Valid()
      ensures var artists := RecordsIn(old(listing), old(files));
        var i := Lookup(artists, idParam);
        && (i == -1 ==> status == 404 && updated.None? && listing == old(listing) && files == old(files))
        && (i >= 0 ==>
              var a := Merge(artists[i], body, ParseInt(idParam).value);
              && status == 200 && updated == Some(a)
              && listing == ListingAfterWrite(old(listing), Superseded(old(listing), a), a)
              && files == FilesAfterWrite(old(files), Superseded(old(listing), a), a))
    {
      var artists := ReadArtistsData();
      var i := Lookup(artists, idParam);
      if i == -1 {
        return 404, None;
      }
      var a := Merge(artists[i], body, ParseInt(idParam).value);
      WriteArtistData(a);
      return 200, Some(a);
    }

    /** The image loop of DELETE: each base name that is a file and does not
        start with `placeholder-` is unlinked. */
    method RemoveImages(images: seq<string>)
      requires Valid()
      modifies this
      ensures Valid()
      ensures listing == Drop(old(listing), ImageFiles(images))
      ensures files == Removed(old(files), ImageFiles(images))
    {
      var i := 0;
      DropNothing(listing);
      assert Removed(files, []) == files;
      assert images[..0] == [];
      while i < |images|
        invariant 0 <= i <= |images| && Valid()
        invariant listing == Drop(old(listing), ImageFiles(images[..i]))
        invariant files == Removed(old(files), ImageFiles(images[..i]))
      {
        var name := Basename(images[i]);
        ImageFilesSnoc(images, i);
        ghost var before := ImageFiles(images[..i]);
        if name in files && !StartsWith(name, "placeholder-") {
          DropSnoc(old(listing), before, name);
          RemovedSnoc(old(files), before, name);
          Unlink(name);
        } else if !StartsWith(name, "placeholder-") {
          assert name in before || name !in old(files);
          DropAbsent(old(listing), before, name);
          RemovedAbsent(old(files), before, name);
        }
        i := i + 1;
      }
      WholeSlice(images);
    }

    /** DELETE /api/artists/:id: an unknown id gives 404 and changes nothing;
        otherwise the record's images are removed, then its JSON file (204). */
    method Delete(idParam: string) returns (status: int)
      requires Valid()
      modifies this
      ensures Valid()
      ensures var artists := RecordsIn(old(listing), old(files));
        var i := Lookup(artists, idParam);
        && (i == -1 ==> status == 404 && listing == old(listing) && files == old(files))
        && (i >= 0 ==>
              var gone := ImageFiles(DeletableImages(artists[i]));
              var l := Drop(old(listing), gone);
              && status == 204
              && listing == Drop(l, RecordFileOf(l, ParseInt(idParam).value))
              && files == Removed(Removed(old(files), gone), RecordFileOf(l, ParseInt(idParam).value)))
    {
      var artists := ReadArtistsData();
      var i := Lookup(artists, idParam);
      if i == -1 {
        return 404;
      }
      var images := ImagesToDelete(artists[i]);
      RemoveImages(images);
      DeleteArtistJson(ParseInt(idParam).value);
      return 204;
    }

    /** DELETE /api/artists/:id with the corrected `deleteArtistJson`: the same
        answers as `Delete`, but only a file named `-<id>.json` is removed after
        the images. */
    method DeleteCorrected(idParam: string) returns (status: int)
      requires Valid()
      modifies this
      ensures Valid()
      ensures var artists := RecordsIn(old(listing), old(files));
        var i := Lookup(artists, idParam);
        && (i == -1 ==> status == 404 && listing == old(listing) && files == old(files))
        && (i >= 0 ==>
              var gone := ImageFiles(DeletableImages(artists[i]));
              var l := Drop(old(listing), gone);
              && status == 204
              && listing == Drop(l, RecordFileOfCorrected(l, ParseInt(idParam).value))
              && files == Removed(Removed(old(files), gone), RecordFileOfCorrected(l, ParseInt(idParam).value)))
    {
      var artists := ReadArtistsData();
      var i := Lookup(artists, idParam);
      if i == -1 {
        return 404;
      }
      var images := ImagesToDelete(artists[i]);
      RemoveImages(images);
      DeleteArtistJsonCorrected(ParseInt(idParam).value);
      return 204;
    }

    /** POST /api/upload-image: no file gives 400, a file of another type fails in
        the filter (500); otherwise the image is stored under the name multer's
        callback computes, overwriting a file of that name, and its URL path is
        returned. The name and type are those multer has parsed before the file
        part. A name holding `/` does not name a file of this directory: the
        model takes that write as failed (500). */
    method UploadImage(file: Option<Upload>, artistName: Option<string>, imageType: Option<string>)
      returns (status: int, path: Option<string>)
      requires Valid()
      modifies this
      ensures Valid()
      ensures file.None? ==> status == 400 && path.None? && listing == old(listing) && files == old(files)
      ensures file.Some? && !FileFilter(file.value.originalName, file.value.mimetype) ==>
        status == 500 && path.None? && listing == old(listing) && files == old(files)
      ensures file.Some? && FileFilter(file.value.originalName, file.value.mimetype) ==>
        var name := UploadFileNameAsWritten(old(listing), OrDefault(artistName, "unknown"),
                                            OrDefault(imageType, "general"), file.value.originalName);
        && ('/' in name ==> status == 500 && path.None? && listing == old(listing) && files == old(files))
        && ('/' !in name ==>
              && status == 200 && path == Some("/images/" + name)
              && listing == PutName(old(listing), name) && files == old(files)[name := Image])
    {
      if file.None? {
        return 400, None;
      }
      if !FileFilter(file.value.originalName, file.value.mimetype) {
        return 500, None;
      }
      var name := UploadFileNameAsWritten(listing, OrDefault(artistName, "unknown"), OrDefault(imageType, "general"),
                                          file.value.originalName);
      if '/' in name {
        return 500, None;
      }
      Write(name, Image);
      return 200, Some("/images/" + name);
    }

    /** POST /api/upload-image with the corrected name (see `UploadFileNameFresh`):
        a new file is always created. */
    method UploadImageCorrected(file: Option<Upload>, artistName: Option<string>, imageType: Option<string>)
      returns (status: int, path: Option<string>)
      requires Valid()
      modifies this
      ensures Valid()
      ensures file.None? ==> status == 400 && path.None? && listing == old(listing) && files == old(files)
      ensures file.Some? && !FileFilter(file.value.originalName, file.value.mimetype) ==>
        status == 500 && path.None? && listing == old(listing) && files == old(files)
      ensures file.Some? && FileFilter(file.value.originalName, file.value.mimetype) ==>
        var name := UploadFileName(old(listing), OrDefault(artistName, "unknown"), OrDefault(imageType, "general"),
                                   file.value.originalName);
        && status == 200 && path == Some("/images/" + name)
        && name !in old(files)
        && listing == PutName(old(listing), name) && files == old(files)[name := Image]
    {
      if file.None? {
        return 400, None;
      }
      if !FileFilter(file.value.originalName, file.value.mimetype) {
        return 500, None;
      }
      var name := UploadFileName(listing, OrDefault(artistName, "unknown"), OrDefault(imageType, "general"),
                                 file.value.originalName);
      UploadFileNameFresh(listing, OrDefault(artistName, "unknown"), OrDefault(imageType, "general"),
                          file.value.originalName);
      Write(name, Image);
      return 200, Some("/images/" + name);
    }

    /** POST /api/delete-image: an empty path gives 400; a base name ".." (the
        parent directory) or one starting with `placeholder-` gives 403; the
        directory itself cannot be unlinked (500); a file is removed (200);
        anything else is not found (404). */
    method DeleteImage(imagePath: Option<string>) returns (status: int)
      requires Valid()
      modifies this
      ensures Valid()
      ensures var p := OrDefault(imagePath, "");
        var n := Basename(p);
        if p == "" then status == 400 && listing == old(listing) && files == old(files)
        else if n == ".." || StartsWith(n, "placeholder-") then status == 403 && listing == old(listing) && files == old(files)
        else if n == "" || n == "." then status == 500 && listing == old(listing) && files == old(files)
        else if n in old(files) then status == 200 && listing == Drop(old(listing), [n]) && files == Removed(old(files), [n])
        else status == 404 && listing == old(listing) && files == old(files)
    {
      var p := OrDefault(imagePath, "");
      if p == "" {
        return 400;
      }
      var n := Basename(p);
      if n == ".." || StartsWith(n, "placeholder-") {
        return 403;
      }
      if n == "" || n == "." {
        return 500;
      }
      if n in files {
        Unlink(n);
        return 200;
      }
      return 404;
    }
  }

  /** The record `artists.findIndex(a => a.id === parseInt(idParam))` finds: the
      first with the parsed id; NaN finds none. */
  function Lookup(artists: seq<Artist>, idParam: string): (r: int)
    ensures -1 <= r < |artists|
    ensures r >= 0 ==> ParseInt(idParam).Some? && artists[r].id == ParseInt(idParam).value
    ensures r >= 0 ==> forall k :: 0 <= k < r ==> artists[k].id != ParseInt(idParam).value
    ensures r == -1 <==> ParseInt(idParam).None? || forall k :: 0 <= k < |artists| ==> artists[k].id != ParseInt(idParam).value
  {
    match ParseInt(idParam)
    case None => -1
    case Some(n) => IndexOfId(artists, n)
  }

  /** In a sequence without repeats, no element occurs before its own position. */
  lemma NoDupsFresh(s: seq<string>, i: int)
    requires NoDups(s) && 0 <= i < |s|
    ensures s[i] !in s[..i]
  {
  }

  lemma DropStep(listing: seq<string>, names: seq<string>, i: int)
    requires 0 <= i < |names|
    ensures Drop(listing, names[..i + 1]) == Drop(Drop(listing, names[..i]), [names[i]])
  {
    assert names[..i + 1] == names[..i] + [names[i]];
    DropSnoc(listing, names[..i], names[i]);
  }

  lemma RemovedStep(files: map<string, Content>, names: seq<string>, i: int)
    requires 0 <= i < |names|
    ensures Removed(files, names[..i + 1]) == Removed(Removed(files, names[..i]), [names[i]])
  {
    assert names[..i + 1] == names[..i] + [names[i]];
    RemovedSnoc(files, names[..i], names[i]);
  }

  lemma {:induction false} DropNothing(listing: seq<string>)
    ensures Drop(listing, []) == listing
  {
    if listing != [] {
      DropNothing(listing[1..]);
    }
  }

  /** The test multer's name callback filters the listing with. */
  function Matches(prefix: string, ext: string): string -> bool {
    f => StartsWith(f, prefix) && EndsWith(f, ext)
  }

  /** `CountMatching` is `existingFiles.length`. */
  lemma {:induction false} CountMatchingSelect(listing: seq<string>, prefix: string, ext: string)
    ensures CountMatching(listing, prefix, ext) == |Select(listing, Matches(prefix, ext))|
  {
    if listing != [] {
      CountMatchingSelect(listing[1..], prefix, ext);
    }
  }

  /** The name multer's callback gives an upload, as written: `<safe>-<type>-<n><ext>`,
      with the unsanitised type, the lower-cased extension, and `n` one more than
      the number of listed files that start with `<safe>-<type>` and end with that
      extension. */
  lemma UploadNameAsWrittenCount(listing: seq<string>, artistName: string, imageType: string,
                                 originalName: string)
    ensures var ext := Lower(Extname(originalName));
      var prefix := Sanitize(artistName) + "-" + imageType;
      var name := UploadFileNameAsWritten(listing, artistName, imageType, originalName);
      && name == prefix + "-" + IntToString(|Select(listing, Matches(prefix, ext))| + 1) + ext
      && StartsWith(name, prefix + "-") && EndsWith(name, ext)
  {
    var ext := Lower(Extname(originalName));
    var prefix := Sanitize(artistName) + "-" + imageType;
    CountMatchingSelect(listing, prefix, ext);
    UploadNameAsWrittenUnfold(listing, artistName, imageType, originalName);
    ConcatEnds(prefix + "-", IntToString(CountMatching(listing, prefix, ext) + 1), ext);
  }

  lemma ConcatEnds(a: string, b: string, c: string)
    ensures StartsWith(a + b + c, a) && EndsWith(a + b + c, c)
  {
    var s := a + b + c;
    assert s[..|a|] == a;
    assert s[|s| - |c|..] == c;
  }

  /** The URL an upload returns names the stored file, so `delete-image` on it
      removes that file, unless the artist name makes it a `placeholder-` name. */
  lemma UploadedImageDeletable(listing: seq<string>, artistName: string, imageType: string, originalName: string)
    ensures var n := UploadFileName(listing, artistName, imageType, originalName);
      && Basename("/images/" + n) == n
      && n != "" && n != "." && n != ".."
  {
    var n := UploadFileName(listing, artistName, imageType, originalName);
    UploadFileNameNoSlash(listing, artistName, imageType, originalName);
    UploadFileNameLength(listing, artistName, imageType, originalName);
    ImagesUrlBasename(n);
  }

  lemma ImagesUrlBasename(n: string)
    requires n != [] && '/' !in n
    ensures Basename("/images/" + n) == n
  {
    assert "/images/" + n == "/images" + "/" + n;
    BasenameAfterSlash("/images", n);
  }

  /** The base name of `dir/n` is `n` when `n` is a non-empty name without `/`. */
  lemma {:induction false} BasenameAfterSlash(dir: string, n: string)
    requires n != [] && '/' !in n
    ensures Basename(dir + "/" + n) == n
    decreases |n|
  {
    var p := dir + "/" + n;
    assert p[|p| - 1] == n[|n| - 1];
    assert StripTrailingSlashes(p) == p;
    AfterSlashPlain(dir, n);
  }

  lemma {:induction false} AfterSlashPlain(dir: string, n: string)
    requires '/' !in n
    ensures AfterLastSlash(dir + "/" + n) == n
    decreases |n|
  {
    var p := dir + "/" + n;
    if n != [] {
      var m := n[..|n| - 1];
      assert '/' !in m by {
        forall k | 0 <= k < |m|
          ensures m[k] != '/'
        {
          assert m[k] == n[k];
        }
      }
      assert p[..|p| - 1] == dir + "/" + m;
      AfterSlashPlain(dir, m);
      assert m + [n[|n| - 1]] == n;
    } else {
      assert p[|p| - 1] == '/';
    }
  }
}
