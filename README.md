# Artist catalogue — a verified model of its record reconciliation

The artist catalogue is a browser page plus a small Express server. It keeps
one JSON record per artist in an images directory, together with the preview
and sample images. This project models the parts of the two programs that
decide what gets stored and shown:

- **Field normalisation.** A comma-separated form field becomes trimmed,
  non-empty tokens. Training counts are parsed with `parseInt(s) || 0`.
- **The duplicate-ID-set check** that guards record creation.
- **The trigger-word chain.**
  - Appending an artist's trigger words merges them into the chain without
    repeats.
  - Saving the chain as a new artist collects the IDs and counts of every
    artist one of whose trigger words appears in the chain.
- **The view pipeline:** search filter, stable sort, and keeping the
  selection.
- **The in-memory list edits** done by the page's handlers.
- **The file-backed store** on the server:
  - record file naming and file-name sanitisation;
  - the removal of a record's old file;
  - POST defaults and the PUT merge;
  - the images that a record delete removes;
  - upload naming and the upload filter;
  - the `delete-image` guard.

## How it is organised

- **`Common`:** options, duplicate-free sequences and `Dedup`. `Dedup` keeps
  first occurrences in order, like spreading a JavaScript `Set`.
- **`Text`:** JavaScript `trim`, ASCII `toLowerCase`, `split`, `join`,
  `startsWith`/`endsWith`/`includes`.
- **`Numbers`:** `parseInt` in radix 10, rendering numbers as decimal text,
  and the round trip between the two.
- **`Records`:** the record shape.
  - `artistId` and `trainingCount` may be absent, a string (as a form sends
    it) or an array, because the code branches on `Array.isArray`.
  - A training count may be a number or a string, because JSON arrays can
    hold either.
- **`Normalize`:** `split(',').map(trim).filter(Boolean)`, count parsing, and
  the server's normalisation ternaries.
- **`Sorting`:** a stable insertion sort standing for `Array.prototype.sort`,
  and the default string order.
- **`Duplicates`**, **`Chain`** and **`View`:** the pure parts of the browser
  script.
- **`Catalogue`:** the page state as a class (the list, the selection, the
  sort key, the search term, the chain), one method per handler. Server
  answers are parameters; `None` stands for a failed request.
- **`Paths`:** name sanitisation, record file names, POSIX
  `path.basename`/`path.extname`, the upload filter and upload naming.
- **`Server`:** the images directory as a class `Directory`.
  - Its state is the `readdir` listing plus a map from file name to content.
    The content is a parsed record, an unparsable file or an image. The
    listing is kept in ascending order, as `readdirSync` returns it.
  - Each route handler is a method. It returns the HTTP status and changes
    only the directory.

### How the model reads the source

- **Clock and ids.** `Date.now()` ids and `new Date()` dates are parameters
  of the model.
- **Name and date order.** `localeCompare` on names and `new Date(b) - new
  Date(a)` on creation times are two comparators held by the page. The model
  fixes neither.
- **Sorting.** The model sorts stably, which is what `Array.prototype.sort`
  guarantees today. An unknown sort key returns 0 for every pair, so the
  order is kept.
- **Upload field order.** The browser appends `image` to the form before
  `artistName` and `imageType` (script.js:911-914). multer therefore runs the
  file-name callback before those fields arrive, so the server sees the
  defaults `unknown` and `general`. The model takes both names as optional
  parameters, so either order is covered.
- **The loose id suffix.** `writeArtistData` and `deleteArtistJson` test
  `endsWith(id + ".json")`. That test also matches the record of id 15 when
  the id is 5. Ids assigned by POST are 13-digit `Date.now()` values, and two
  different ids of equal length never match each other's suffix, so only
  hand-placed record files with ids of other lengths reach this.
  - `Server.Directory.DeleteArtistJson`, `Post` and `Put` keep that
    looseness: writing id 5 removes `Bob-15.json`.
  - The corrected write removes only names ending in `-<id>.json`; the routes
    `PostCorrected` and `PutCorrected` use it.
  - The corrected `deleteArtistJson` removes only a name ending in
    `-<id>.json`; the route `DeleteCorrected` uses it.
- **Fields a POST leaves out.** The server defaults only the date, the
  samples, the IDs, the counts and the preview. A stored record has no absent
  fields in the model, so omitted tags and trigger words are stored as `[]`
  and an omitted description as `""`; the page always sends all three.
- **A PUT without `artistId` or `trainingCount`.** It stores `[]` and `[0]`,
  because the normalisation runs on the request body before the merge.
- **Listing order.** `readdirSync` returns the names libuv's directory scan
  sorts with `strcmp`. On names stored as UTF-8 that is the character order
  `StrLess`, so the listing is strictly ascending. A new file takes its sorted
  place; a removed one leaves. This order decides which file `find` in
  `deleteArtistJson` picks and the order in which records are read.
- **Upload routes.** `UploadImage` uses the name multer's callback computes,
  and overwrites a file that already has it. `UploadImageCorrected` uses a
  fresh name instead.
- **`fs.unlink`** is asynchronous in the source. The model removes the file
  immediately.
- **Filter before naming.** multer calls `fileFilter` before the name
  callback, so a refused upload writes nothing and the handler answers 500.
- **`delete-image` refuses `placeholder-` names.** An upload whose sanitised
  artist name begins with `placeholder-` cannot be deleted through
  `delete-image` (403). The model keeps this.

## Model

| member | source | states |
|---|---|---|
| Text.Trim | script.js:550 | the result is the slice of the input left once white space is cut from both ends (everything outside the slice is white space), it has no white space at either end, and an already trimmed string is unchanged |
| Text.Lower | script.js:95 | ASCII lower-casing is length-preserving and works character by character |
| Text.LowerIdempotent | script.js:592 | lower-casing twice is lower-casing once |
| Text.ContainsIsSlice | script.js:309-314 | `includes` holds exactly when the substring occurs at some index |
| Text.SplitJoin | script.js:448-453 | splitting a list joined with the separator gives the pieces back when no piece contains it |
| Text.JoinSplit | script.js:448-453 | joining the pieces of a split with the separator gives the string back |
| Text.SplitCount | script.js:550 | a split has one piece more than there are separators |
| Numbers.ParseIntNaN | script.js:551 | `parseInt` is NaN exactly when no digit follows the leading white space and optional sign |
| Numbers.ParseIntToString | script.js:518 | reading back a rendered integer gives that integer, both with and without the fallback to 0 |
| Numbers.LeadingDigitsMaximal | script.js:551 | `parseInt` reads a maximal run of leading digits |
| Records.IndexOfId | script.js:543 | `findIndex` by id: the first index with that id, and -1 exactly when no record has it |
| Normalize.TokensCanonical | script.js:550 | every token is trimmed and non-empty and uses only characters of the input |
| Normalize.NonEmptyMembers | script.js:583 | `filter(Boolean)` keeps exactly the non-empty pieces |
| Normalize.TokensConcat | script.js:448-451 | the tokens of two comma-joined strings are the tokens of each, in order |
| Normalize.TokensEmpty | script.js:583 | an empty field yields no tokens |
| Normalize.TokensJoin | script.js:550 | joining canonical tokens with `", "` and splitting again gives them back |
| Normalize.TokensIdempotent | script.js:448-453 | normalising a normalised field is the identity |
| Normalize.ParseCounts | script.js:551 | one count per comma piece |
| Normalize.ParseCountsNaN | script.js:551 | a piece with no leading number becomes 0 and is not dropped |
| Normalize.ParseCountsLength | script.js:551 | the number of counts is the number of commas plus one |
| Normalize.ParseCountsJoin | script.js:551 | counts shown joined with `", "` read back as themselves; an empty list reads back as `[0]` |
| Normalize.NormalizeIds | server.js:170-192 | an array passes through; a string gives exactly its tokens (`split`, `trim`, drop empties), which are canonical; missing or empty gives `[]` |
| Normalize.NormalizeCounts | server.js:171-193 | an array passes through; a non-empty string gives the numbers `parseInt(piece) or 0` of its comma pieces, one per piece; missing or empty gives `[0]` |
| Sorting.StableSort | script.js:318 | the sorted list is a permutation of the input |
| Sorting.StableSortSorted | script.js:318-328 | with a strict-order comparator the result is ordered |
| Sorting.StableSortIdentity | script.js:327 | a comparator that never answers "before" leaves the order unchanged |
| Sorting.CompareStringsStrictOrder | script.js:592 | the default `sort()` order on strings is a strict total order |
| Sorting.SortStringsByContents | script.js:592-596 | sorting strings depends only on their multiset |
| Duplicates.IsDuplicateSet | script.js:594-600 | true exactly when some record whose `artistId` is an array has the same sorted, lower-cased key |
| Duplicates.IdKeyReorder | script.js:592 | the key does not depend on the order of the IDs |
| Duplicates.IdKeyIgnoresCase | script.js:592 | the key does not depend on letter case |
| Duplicates.IdKeyByContents | script.js:592-596 | equal lower-cased multisets give equal keys |
| Duplicates.IdKeySameContents | script.js:592-597 | for comma-free IDs, equal keys mean equal lower-cased multisets: whole-set matching only |
| Duplicates.RepeatsAreNotDuplicates | script.js:597 | `["a","a"]` and `["a"]` have different keys |
| Duplicates.CheckNewArtist | script.js:580-605 | refused as incomplete iff the trimmed name or the ID list is empty; refused as duplicate iff complete and the ID set is a duplicate; otherwise the trimmed name and tokens are accepted |
| Duplicates.AcceptedIsNew | script.js:585-605 | an accepted request has a name, canonical IDs, and a lower-cased ID multiset equal to no existing record's |
| Duplicates.DuplicateHasSameIds | script.js:594-602 | when no stored ID contains a comma, a refused duplicate has the same lower-cased ID multiset as some existing record (a stored `[]` never matches) |
| Duplicates.IdKeyCommaCollision | script.js:592-597 | a stored ID `"a,b"` has the key of the two IDs `a` and `b`, so the comma-free hypothesis above is needed |
| Chain.AppendTokens | script.js:444-453 | the new chain's tokens are the old chain's tokens and the artist's words, repeats removed keeping first occurrences |
| Chain.AppendProperties | script.js:443-453 | no words leave the chain unchanged; otherwise the tokens have no repeats, start with the old distinct tokens, and are exactly the old tokens and the new words |
| Chain.AppendKeepsChain | script.js:448-453 | a repeat-free chain is a prefix of the new chain, in its original order |
| Chain.AppendIdempotent | script.js:441-455 | appending the same artist's words twice equals appending them once |
| Chain.MatchedIdsMembers | script.js:277-288 | an ID is collected iff it belongs to an artist with a trigger word whose lower-cased form is a chain token |
| Chain.MatchedCountsMembers | script.js:277-291 | the same for training counts |
| Chain.NoWordsNoMatch | script.js:272-294 | an empty word list matches nothing |
| Chain.AddEach | script.js:287-290 | adding each element to a set-in-insertion-order gives the first-occurrence dedup of everything offered |
| Chain.MatchChain | script.js:272-294 | the loop computes the deduplicated matched IDs and counts, in first-occurrence order |
| Chain.MatchProperties | script.js:272-298 | results have no repeats, contain exactly the IDs and counts of matching artists, and are empty for a blank chain |
| View.TotalOfNums | script.js:321 | a list of numeric counts sums to the sum of the numbers |
| View.SumValuesConcat | script.js:321 | the count sum is additive over concatenation |
| View.KeepMatchingContents | script.js:308-315 | a record is kept as often as it occurs if it matches, and never otherwise |
| View.FilteredProperties | script.js:307-316 | an empty term keeps the whole list; otherwise a record is shown iff it matches, with its multiplicity |
| View.ByCountStrictOrder | script.js:319-323 | the count comparator is a strict order |
| View.SortByCountDescending | script.js:319-323 | sorting by `count` is a permutation with non-increasing summed counts |
| View.UnknownKeyKeepsOrder | script.js:327 | an unknown sort key preserves the order |
| View.KeepSelection | script.js:334-345 | the selection survives iff some shown record has its id; no selection stays none |
| Catalogue.UploadedPath | script.js:532-541 | no file keeps the fallback; an upload counts only with a non-empty path |
| Catalogue.NewCounts | script.js:611 | the create form's counts are the numbers of its comma pieces for a non-empty field and `[0]` otherwise, exactly what the server's normalisation gives for that string |
| Catalogue.WithoutIdContents | script.js:673 | deleting removes every record with that id and keeps every other record with its multiplicity |
| Catalogue.ValidPathsMembers | script.js:701 | a path is kept iff some upload produced it and it is not empty |
| Catalogue.ImageToDelete | script.js:746 | the server is asked to delete the image iff the URL is non-empty and not the sample placeholder |
| Catalogue.Catalogue.constructor | script.js:5-12 | the page starts with no records, no selection, sort by count, no search, and the chain off |
| Catalogue.Catalogue.Load | script.js:51-64 | the list is the server's answer, or empty when the request failed; nothing else changes |
| Catalogue.Catalogue.FilterAndRender | script.js:304-346 | returns the filtered, sorted list and drops a selection that is not shown |
| Catalogue.Catalogue.SetSortBy | script.js:89-92 | stores the key and re-renders |
| Catalogue.Catalogue.SetSearchTerm | script.js:94-97 | stores the lower-cased term and re-renders |
| Catalogue.Catalogue.SelectArtist | script.js:458-473 | the record becomes the selection; nothing else changes |
| Catalogue.Catalogue.AddArtistTriggerWordsToChain | script.js:441-455 | only the chain changes, to the merged chain |
| Catalogue.Catalogue.ClickCard | script.js:422-434 | the chain grows only when it is on; the record is selected |
| Catalogue.Catalogue.SetChainEnabled | script.js:194-226 | switching the chain off empties it |
| Catalogue.Catalogue.SaveChainAsNewArtist | script.js:248-301 | with the chain off there is no form; otherwise the form holds the trimmed chain as trigger words and the matched IDs and counts joined with `", "`, and its other fields are cleared |
| Catalogue.Catalogue.CreateArtist | script.js:579-660 | a POST is sent iff the check accepts and the preview upload did not fail; with an answer, the record is appended and selected; otherwise the list and the selection are unchanged |
| Catalogue.Catalogue.SaveArtistChanges | script.js:527-576 | a PUT is sent iff something is selected, the preview did not fail and the record is still listed; the answer replaces the record at its index and becomes the selection unless the search hides it |
| Catalogue.Catalogue.DeleteArtist | script.js:663-683 | after the server confirms, exactly the records with that id are removed and the selection is cleared |
| Catalogue.Catalogue.AddSampleImages | script.js:686-731 | the non-empty uploaded paths are appended after the existing images of the selected record's list entry, which is sent |
| Catalogue.Catalogue.DeleteSampleImage | script.js:734-773 | an unknown record, an unconfirmed deletion or an index out of range changes nothing; otherwise exactly that image is removed and the rest keep their order |
| Catalogue.CreateRequestProperties | script.js:627-638 | a create request has a non-empty trimmed name, canonical IDs, at least one numeric count, canonical tags and words, no samples, and the placeholder preview when no file was chosen |
| Catalogue.EditRoundTrip | script.js:516-523 | showing a normalised record in the edit form and saving it unchanged gives the same record |
| Catalogue.ChainFormIdsRoundTrip | script.js:297 | canonical matched IDs filled in by the chain read back unchanged |
| Catalogue.ChainFormCountsRoundTrip | script.js:298 | numeric matched counts read back as themselves; no counts read back as `[0]` |
| Paths.SanitizeAt | server.js:57 | each illegal character becomes `_` and every other character is kept |
| Paths.SanitizeSafe | server.js:57 | a sanitised name has no illegal character and no `/`, and sanitising is idempotent |
| Paths.SanitizeLegal | server.js:57 | a name without illegal characters is unchanged |
| Paths.RecordFileNameShape | server.js:58 | the record file starts with the sanitised name and ends with `-<id>.json` |
| Paths.RecordFileNameId | server.js:58 | for non-negative ids the record file's `-<id>.json` suffix determines the id |
| Paths.BasenameLastSegment | server.js:259 | `path.basename` drops the trailing slashes, then keeps the slash-free end that follows the last `/` (or the whole path when there is none) |
| Paths.BasenamePlain | server.js:259 | a name without `/` is its own basename |
| Paths.StripTrailingSlashesShape | server.js:259 | a prefix of the path, not ending in `/`, followed only by slashes |
| Paths.AfterLastSlashShape | server.js:259 | a slash-free suffix that is the whole string or follows a `/` |
| Paths.ExtnameShape | server.js:125-144 | the extension is empty or a dot followed by no dot, and has no `/` |
| Paths.ExtnameAt | server.js:125 | the extension starts at the last dot when that dot is not the first character |
| Paths.FileFilterNeedsExtension | server.js:143-147 | an accepted file has an extension |
| Paths.FileFilterAcceptsPng | server.js:143-147 | `cat.PNG` of type `image/png` is accepted |
| Paths.UploadNameInjective | server.js:134 | different indexes give different names |
| Server.UploadNameAsWrittenCount | server.js:122-135 | the name starts with `<safe>-<type>-`, ends with the lower-cased extension, and its index is one more than the number of listed files the `filter` keeps |
| Server.CountMatchingSelect | server.js:129-132 | the counter is the length of the filtered listing |
| Paths.UploadNameReusesExisting | server.js:129-134 | after a deletion the counter can return a name that is already taken |
| Paths.UploadNameEscapes | server.js:124-134 | the type `../../../x` yields a name that holds `/` and starts with `A-../../../x`; where `path.join` puts that file is argued, not proved |
| Paths.FreshIndex | server.js:133 | the first index from n whose name is not listed; all earlier indexes are taken |
| Paths.UploadFileNameFresh | server.js:122-135 | the corrected name is never already listed and has no `/`; it agrees with the source when the type is legal and the source's name is free |
| Paths.UploadFileNameLength | server.js:134 | an upload name has at least three characters, so it is never empty, `.` or `..` |
| Server.Select | server.js:129-131 | a filter keeps exactly the elements satisfying the predicate |
| Server.Drop | server.js:62-66 | removing names keeps exactly the other listed files |
| Server.PutName | server.js:68 | writing a listed name keeps the listing; a new name is added once |
| Server.AscendingNoDups | server.js:38 | a sorted listing names each file once |
| Server.PutNameAscending | server.js:68 | writing a file keeps the listing sorted |
| Server.DropAscending | server.js:64 | unlinking files keeps the listing sorted |
| Server.FindEnding | server.js:75 | `find` by suffix: the first match, and -1 exactly when none matches |
| Server.RecordsInMembers | server.js:36-52 | a record is read iff some listed `.json` file parses to it |
| Server.WriteAsWrittenEffect | server.js:56-70 | after the source's write the target file holds the record, and any other file remains iff it does not end with `<id>.json` or starts with the sanitised name, unchanged |
| Server.StaleRecordSurvivesRename | server.js:62-67 | renaming `Alice` (id 5) to `Ali` leaves both records on disk |
| Server.LooseSuffixRemovesOtherRecord | server.js:62 | writing `Ann` with id 5 unlinks `Bob-15.json`, the record of id 15 |
| Server.WriteEffect | server.js:56-70 | after the corrected write the target file holds the record, and any other file remains iff it does not end with `-<id>.json`, unchanged |
| Server.WriteLeavesOneRecordFile | server.js:56-70 | after the corrected write the only listed file ending with `-<id>.json` is the target |
| Server.WriteSparesOtherRecords | server.js:62 | the corrected write never touches the record file of another id |
| Server.RenameReplacesRecord | server.js:56-70 | with the corrected write, renaming `Alice` to `Ali` leaves only the new record |
| Server.OrDefault | server.js:123-124 | a non-empty value sent is kept; a missing or empty one gives the default |
| Server.NewRecord | server.js:167-176 | the record gets the supplied id and name and the normalised IDs and counts; the preview and date sent are kept unless missing or empty, when the placeholder and today are used; omitted samples are `[]`, and omitted tags, words and description take the model's empty values |
| Server.MergeKeepsAbsent | server.js:192-195 | fields the request omits keep their stored values, except that missing IDs become `[]` and missing counts `[0]` |
| Server.MergeOverrides | server.js:192-195 | every field the request sends overrides the stored one; sent IDs and counts are stored normalised: arrays as sent, strings split and parsed |
| Server.MergeWholeRecord | server.js:195 | a request carrying a whole record stores that record under the URL id |
| Server.PostStoresCreateRequest | server.js:165-176 | the record stored for the page's create request is the normalised form with the server's id |
| Server.PutStoresEditedRecord | server.js:183-196 | the record stored for the page's edit request is exactly the edited record |
| Server.DeletableImagesMembers | server.js:214-222 | a path is scheduled iff it is non-empty and is the preview other than the artist placeholder, or a sample other than the sample placeholder |
| Server.ImagesToDelete | server.js:214-222 | the loop builds exactly the scheduled images |
| Server.KeptSamples | server.js:218-222 | the loop keeps exactly the samples that are neither empty nor the placeholder |
| Server.ImageFiles | server.js:225-229 | no unlinked basename starts with `placeholder-` |
| Server.ImageFilesNamed | server.js:224-229 | a file is unlinked iff it is not a placeholder and is the basename of some scheduled image |
| Server.DeleteSpares | server.js:224-237 | a record delete keeps every file that is neither a scheduled image nor a file ending with `<id>.json` |
| Server.Directory.constructor | server.js:38 | the directory starts from a given ascending listing and its contents |
| Server.Directory.Write | server.js:68 | the file is created or overwritten, a new name takes its sorted place in the listing, and nothing else changes |
| Server.Directory.Unlink | server.js:78 | exactly that file goes |
| Server.Directory.RemoveFiles | server.js:63-66 | the loop removes exactly the given files |
| Server.Directory.ReadArtistsData | server.js:36-52 | the loop returns the records of the parsable `.json` files, in listing order |
| Server.Directory.WriteArtistDataAsWritten | server.js:56-70 | the source's stale files are removed and the record file is written |
| Server.Directory.WriteArtistData | server.js:56-70 | the superseded files of the same id are removed and the record file is written |
| Server.Directory.DeleteArtistJson | server.js:73-81 | at most one file goes: the first ending with `<id>.json` |
| Server.Directory.DeleteArtistJsonCorrected | server.js:73-81 | the corrected removal: at most the first listed file named `-<id>.json` goes, and nothing else changes |
| Server.Directory.Post | server.js:165-180 | without a name the request fails with 500 and writes nothing; otherwise the defaulted record is written with the source's stale-file rule and returned with 201 |
| Server.Directory.PostCorrected | server.js:165-180 | the same answers as `Post`, writing with the corrected rule that removes only the other `-<id>.json` files |
| Server.Directory.Put | server.js:183-201 | an unknown id answers 404 and writes nothing; otherwise the merged record, with the URL id, is written with the source's stale-file rule and returned with 200 |
| Server.Directory.PutCorrected | server.js:183-201 | the same answers as `Put`, writing with the corrected rule |
| Server.Directory.Delete | server.js:204-239 | an unknown id answers 404 and writes nothing; otherwise the scheduled images and then the record file are removed, with 204 |
| Server.Directory.DeleteCorrected | server.js:204-239 | the same answers as `Delete`, removing after the images only a file named `-<id>.json` |
| Server.Directory.RemoveImages | server.js:224-229 | the loop unlinks exactly the listed non-placeholder base names of the scheduled images, and nothing else changes |
| Server.LooseSuffixDeletesOtherRecord | server.js:73-81 | deleting id 5 over `[Bob-15.json, Zed-5.json]` picks `Bob-15.json`, Bob's record, and not `Zed-5.json` |
| Server.RecordFileOfCorrected | server.js:73-81 | at most one listed file, named `-<id>.json`, and none exactly when no listed file has that name |
| Server.DeleteSparesOtherRecords | server.js:73-81 | the corrected removal never picks the record file of another non-negative id |
| Server.CorrectedDeleteSample | server.js:73-81 | with the corrected removal, deleting id 5 over the same listing picks `Zed-5.json` |
| Server.Directory.UploadImage | server.js:242-250 | no file answers 400 and a refused file 500, both writing nothing; otherwise the counter's name is written, overwriting a file of that name, and its `/images/` path returned |
| Server.Directory.UploadImageCorrected | server.js:242-250 | the same answers as `UploadImage`, but the written name is fresh: never already listed |
| Server.Directory.DeleteImage | server.js:253-279 | an empty path answers 400; `..` or a placeholder answers 403; the directory itself answers 500; an existing file is removed with 200; otherwise 404 |
| Server.Lookup | server.js:185-188 | the first index whose record has the parsed URL id, as `findIndex` returns, and -1 exactly when the id is NaN or no record has it |
| Server.UploadedImageDeletable | server.js:259 | the basename of a returned upload path is the uploaded file, which `delete-image` can address |

## Left out

- Rendering, event wiring, modals, image previews and pan/zoom are not modelled. They are DOM work and floating-point geometry.
- Copying the chain to the clipboard and `exportData` are not modelled, for the same reason.
- `fetch` and HTTP transport are not modelled; the model passes answers in as parameters.
- Alerts, confirmations and console logging are left out. A confirmation is a boolean parameter.
- Creating the placeholder SVGs (server.js:85-116, script.js:26-49) is left out. It is file I/O with fixed content.
- Typing into the chain box is left out. Once the chain is enabled the box is free text (script.js:214, script.js:255), but the model changes `Catalogue.Catalogue.chain` only by appending trigger words and by switching the chain on or off; every chain lemma holds for any chain string.
- JSON serialisation is left out. Record files hold the record itself, or an unparsable marker.
- A request body whose `artistId` or `trainingCount` is a non-zero number or `true` makes `.split` throw (server.js:170-171, server.js:192-193), and the request answers 500; `0` and `false` are falsy and give the `[]` or `[0]` default. `Field` has no number or boolean value, so the model does not capture either case.
- Express, multer and cors wiring are left out, and so are the 10 MB upload limit and `listen`.
- `Date.now()` ids and `new Date()` dates are parameters, not a clock.
- `localeCompare` and date subtraction are abstract comparators, so the model proves nothing about name or date order.
- Case folding is ASCII only. Unicode lower-casing is not modelled.
- Filesystem errors and the 500 answers they cause are not modelled, apart from unlinking the directory itself in `delete-image`.
- UploadImage: when the image type holds a `/`, where the file lands depends on `path.join`'s handling of `..` and on which directories exist. The model takes that upload as a failed write (500, directory unchanged) and does not capture a write into another directory or, after `..` is resolved, back into this one.
- Server.Ascending: the listing order is libuv's `strcmp` sort. Node does not promise it, and another platform may list in another order.
- Asynchronous unlink completion and request interleaving are not modelled.
- Text.Lower: lower-cases ASCII letters only, because the model has no Unicode tables.
- Numbers.ParseInt: covers radix 10 only. It does not treat a `0x` prefix as hexadecimal, and it does not model float rounding of very long digit strings.
- Catalogue.Catalogue.AddSampleImages: the page mutates the listed record in place, so the new images stay in the list even when the save fails. The model keeps that, but it does not model aliasing between `currentArtist` and the list entry.
- Catalogue.Catalogue.DeleteSampleImage: the splice on the shared object is modelled as replacing the list entry, without aliasing to `currentArtist`.
- View.Matches: the source throws when a record's `artistId` is a string and the term matches nothing earlier. The model treats a non-array `artistId` as having no IDs to match.
- Catalogue.Catalogue.CreateArtist: network failures become `None` answers. Exceptions thrown mid-handler are not modelled separately.

## Findings

| source | as written | input that shows it | evidently intended | confidence | as-written member | corrected member |
|---|---|---|---|---|---|---|
| server.js:62-67 | a file is stale when it ends with `<id>.json` and does not start with the new sanitised name | record `Alice` with id 5, stored as `Alice-5.json`, renamed to `Ali`: `Alice-5.json` starts with `Ali` and is kept, so the directory then holds two records with id 5 | a rename removes the record's previous file: every `-<id>.json` file other than the new one | not executed | Server.StaleRecordSurvivesRename | Server.RenameReplacesRecord |
| server.js:129-134 | the upload index is one more than the number of matching files | listing `["unknown-general-2.png"]` (the first image was deleted): the next `b.png` upload is named `unknown-general-2.png` and overwrites the existing image | each upload gets a name that is not yet taken | not executed | Paths.UploadNameReusesExisting | Paths.UploadFileNameFresh |
| server.js:62 | a file is stale when it ends with `<id>.json`, without the dash before the id | writing `Ann` with id 5 while `Bob-15.json` is listed: that name ends with `5.json` and does not start with `Ann`, so Bob's record is unlinked; this needs ids of different digit counts, which only hand-placed record files have, since POST assigns 13-digit `Date.now()` ids | only files of the same id, named `-<id>.json`, are stale | not executed | Server.LooseSuffixRemovesOtherRecord | Server.WriteSparesOtherRecords |
| server.js:124-134 | only the artist name is sanitised; the image type goes into the file name as sent | image type `../../../x`: the generated name `A-../../../x-1.png` contains `/`; its segments are `A-..`, two `..` and `x-1.png`, so in `path.join` one `..` cancels `A-..` and the other climbs out of the images directory into the server's own, statically served, directory (argued from `path.join`, which is not modelled; the lemma proves the `/` and the prefix) | the type is sanitised like the artist name | not executed | Paths.UploadNameEscapes | Paths.UploadFileNameFresh |
| server.js:75 | `deleteArtistJson` removes the first listed file ending with `<id>.json`, without the dash before the id | deleting `Zed` with id 5 while `Bob-15.json` and `Zed-5.json` are listed: `Bob-15.json` comes first and ends with `5.json`, so Bob's record is unlinked and `Zed-5.json` stays; this needs ids of different digit counts, which only hand-placed record files have, since POST assigns 13-digit `Date.now()` ids | only a file named `-<id>.json` is the record's file | not executed | Server.LooseSuffixDeletesOtherRecord | Server.DeleteSparesOtherRecords |
