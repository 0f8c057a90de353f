/** File names on the server: the sanitised artist name, the record file
    `<safe>-<id>.json`, Node's `path.basename` and `path.extname` (POSIX), the
    upload type whitelist and the upload file name `<safe>-<type>-<n><ext>`. */
module Paths {
  import opened Common
  import opened Text
  import opened Numbers

  // ---- Sanitising names ----

  /** The characters `/[\\/:*?"<>|]/g` matches. */
  predicate Illegal(c: char) {
    c == '\\' || c == '/' || c == ':' || c == '*' || c == '?' || c == '"' || c == '<' || c == '>' || c == '|'
  }

  function SafeChar(c: char): char {
    if Illegal(c) then '_' else c
  }

  /** `name.replace(/[\\/:*?"<>|]/g, '_')` */
  function Sanitize(s: string): (r: string)
    ensures |r| == |s|
  {
    Map(SafeChar, s)
  }

  /** Each illegal character becomes `_`, every other character stays where it was. */
  lemma SanitizeAt(s: string, k: int)
    requires 0 <= k < |s|
    ensures Sanitize(s)[k] == if Illegal(s[k]) then '_' else s[k]
  {
    MapAt(SafeChar, s, k);
  }

  /** A sanitised name has no illegal character (in particular no `/`), and
      sanitising it again changes nothing. */
  lemma SanitizeSafe(s: string)
    ensures forall k :: 0 <= k < |Sanitize(s)| ==> !Illegal(Sanitize(s)[k])
    ensures Sanitize(Sanitize(s)) == Sanitize(s)
    ensures '/' !in Sanitize(s)
  {
    forall k | 0 <= k < |s|
      ensures !Illegal(Sanitize(s)[k]) && Sanitize(Sanitize(s))[k] == Sanitize(s)[k]
    {
      SanitizeAt(s, k);
      SanitizeAt(Sanitize(s), k);
    }
  }

  /** A name without illegal characters is kept as it is. */
  lemma SanitizeLegal(s: string)
    requires forall k :: 0 <= k < |s| ==> !Illegal(s[k])
    ensures Sanitize(s) == s
  {
    forall k | 0 <= k < |s|
      ensures Sanitize(s)[k] == s[k]
    {
      SanitizeAt(s, k);
    }
  }

  // ---- Record files ----

  /** `${safeArtistName}-${artist.id}.json` */
  function RecordFileName(name: string, id: int): string {
    Sanitize(name) + "-" + IntToString(id) + ".json"
  }

  /** Dropping a common ending. */
  lemma EndsWithDropSuffix(a: string, b: string, x: string)
    requires EndsWith(a + x, b + x)
    ensures EndsWith(a, b)
  {
    var t := (a + x)[|a + x| - |b + x|..];
    assert t == a[|a| - |b|..] + x;
    assert t[..|b|] == b;
    assert t[..|b|] == a[|a| - |b|..];
  }

  /** `-` followed by digits ends with `-` followed by digits only when the digits agree. */
  lemma DashDigitsSuffix(p: string, s: string, t: string)
    requires AllDigits(s) && AllDigits(t)
    requires EndsWith(p + "-" + s, "-" + t)
    ensures s == t
  {
    var a := p + "-" + s;
    var b := "-" + t;
    var d := |a| - |b|;
    assert a[d..] == b;
    forall k | |p| + 1 <= k < |a|
      ensures a[k] != '-'
    {
      assert a[k] == s[k - |p| - 1];
    }
    forall k | 1 <= k < |b|
      ensures b[k] != '-'
    {
      assert b[k] == t[k - 1];
    }
    // The dash of `b` cannot fall among the digits of `s`, nor that of `a` among those of `t`.
    assert a[d] == b[0] == '-';
    assert |t| >= |s|;
    assert b[|p| - d] == a[|p|] == '-';
    assert |t| == |s|;
    assert a[d..] == "-" + s;
    assert b[1..] == t;
    assert ("-" + s)[1..] == s;
  }

  /** A record file name starts with the sanitised name and ends with `-<id>.json`. */
  lemma RecordFileNameShape(name: string, id: int)
    ensures StartsWith(RecordFileName(name, id), Sanitize(name))
    ensures EndsWith(RecordFileName(name, id), "-" + IntToString(id) + ".json")
  {
    var x := "-" + IntToString(id) + ".json";
    assert RecordFileName(name, id) == Sanitize(name) + x;
    assert (Sanitize(name) + x)[..|Sanitize(name)|] == Sanitize(name);
    assert (Sanitize(name) + x)[|Sanitize(name)|..] == x;
  }

  /** For non-negative ids, a record file name ends with `-<id2>.json` only for
      its own id: the suffix identifies the record. */
  lemma RecordFileNameId(name: string, id: int, id2: int)
    requires id >= 0 && id2 >= 0
    requires EndsWith(RecordFileName(name, id), "-" + IntToString(id2) + ".json")
    ensures id == id2
  {
    var a := Sanitize(name) + "-" + IntToString(id);
    assert RecordFileName(name, id) == a + ".json";
    EndsWithDropSuffix(a, "-" + IntToString(id2), ".json");
    DashDigitsSuffix(Sanitize(name), IntToString(id), IntToString(id2));
    ParseIntToString(id);
    ParseIntToString(id2);
  }

  // ---- path.basename and path.extname (POSIX) ----

  /** `p` without the slashes at its end. */
  function StripTrailingSlashes(s: string): (r: string)
    ensures |r| <= |s|
  {
    if s != [] && s[|s| - 1] == '/' then StripTrailingSlashes(s[..|s| - 1]) else s
  }

  /** Stripping leaves a prefix that does not end in `/`, and only slashes go. */
  lemma {:induction false} StripTrailingSlashesShape(s: string)
    ensures var r := StripTrailingSlashes(s);
      && r == s[..|r|]
      && (r == [] || r[|r| - 1] != '/')
      && forall k :: |r| <= k < |s| ==> s[k] == '/'
  {
    if s != [] && s[|s| - 1] == '/' {
      StripTrailingSlashesShape(s[..|s| - 1]);
    }
  }

  /** The text after the last `/`. */
  function AfterLastSlash(s: string): (r: string)
    ensures '/' !in r && |r| <= |s|
  {
    if s == [] || s[|s| - 1] == '/' then [] else AfterLastSlash(s[..|s| - 1]) + [s[|s| - 1]]
  }

  /** The text after the last `/` is a suffix that is either all of `s` or
      preceded by a `/`. */
  lemma {:induction false} AfterLastSlashShape(s: string)
    ensures var r := AfterLastSlash(s);
      && r == s[|s| - |r|..]
      && (|r| < |s| ==> s[|s| - |r| - 1] == '/')
  {
    if s != [] && s[|s| - 1] != '/' {
      var p := s[..|s| - 1];
      AfterLastSlashShape(p);
      assert s == p + [s[|s| - 1]];
    }
  }

  /** `path.basename(p)`: the last path segment, trailing slashes ignored. */
  function Basename(p: string): (r: string)
    ensures '/' !in r
  {
    AfterLastSlash(StripTrailingSlashes(p))
  }

  /** The base name is the slash-free end of the path once its trailing slashes
      are dropped, and it follows the last `/` of what remains. */
  lemma BasenameLastSegment(p: string)
    ensures var q := StripTrailingSlashes(p);
      var r := Basename(p);
      && q == p[..|q|] && (forall k :: |q| <= k < |p| ==> p[k] == '/')
      && |r| <= |q| && r == q[|q| - |r|..]
      && (|r| < |q| ==> q[|q| - |r| - 1] == '/')
  {
    StripTrailingSlashesShape(p);
    AfterLastSlashShape(StripTrailingSlashes(p));
  }

  /** A name without `/` is all text after the last `/`. */
  lemma {:induction false} AfterLastSlashPlain(s: string)
    requires '/' !in s
    ensures AfterLastSlash(s) == s
  {
    if s != [] {
      var p := s[..|s| - 1];
      assert '/' !in p by {
        forall k | 0 <= k < |p|
          ensures p[k] != '/'
        {
          assert p[k] == s[k];
        }
      }
      AfterLastSlashPlain(p);
      assert p + [s[|s| - 1]] == s;
    }
  }

  /** A name without `/` is its own base name. */
  lemma BasenamePlain(s: string)
    requires '/' !in s
    ensures Basename(s) == s
  {
    assert StripTrailingSlashes(s) == s by {
      if s != [] {
        assert s[|s| - 1] != '/';
      }
    }
    AfterLastSlashPlain(s);
  }

  /** The index of the last `.` of `s`, or -1 when there is none. */
  function LastDot(s: string): (r: int)
    ensures -1 <= r < |s|
    ensures r >= 0 ==> s[r] == '.'
    ensures forall k :: r < k < |s| ==> s[k] != '.'
  {
    if s == [] then -1 else if s[|s| - 1] == '.' then |s| - 1 else LastDot(s[..|s| - 1])
  }

  /** `path.extname` of a single segment: from the last `.` on, except that a
      leading dot (".bashrc"), a name without dot, and ".." have none. */
  function ExtOf(b: string): string {
    var i := LastDot(b);
    if i <= 0 || b == ".." then "" else b[i..]
  }

  /** `path.extname(p)` */
  function Extname(p: string): string {
    ExtOf(Basename(p))
  }

  /** An extension is empty or a dot followed by no other dot, and has no `/`. */
  lemma ExtnameShape(p: string)
    ensures var e := Extname(p);
      && (e == "" || (e[0] == '.' && '.' !in e[1..]))
      && '/' !in e
  {
    ExtOfShape(Basename(p));
  }

  lemma ExtOfShape(b: string)
    requires '/' !in b
    ensures var e := ExtOf(b);
      && (e == "" || (e[0] == '.' && '.' !in e[1..]))
      && '/' !in e
  {
    var i := LastDot(b);
    var e := ExtOf(b);
    if e != "" {
      assert e == b[i..];
      forall k | 1 <= k < |e|
        ensures e[k] != '.'
      {
        assert e[k] == b[i + k];
      }
      forall k | 0 <= k < |e|
        ensures e[k] != '/'
      {
        assert e[k] == b[i + k];
      }
    }
  }

  /** The last dot is found where it is. */
  lemma {:induction false} LastDotIs(s: string, i: int)
    requires 0 <= i < |s| && s[i] == '.'
    requires forall k :: i < k < |s| ==> s[k] != '.'
    ensures LastDot(s) == i
    decreases |s|
  {
    if i < |s| - 1 {
      var p := s[..|s| - 1];
      assert forall k :: i < k < |p| ==> p[k] == s[k];
      LastDotIs(p, i);
    }
  }

  /** The extension of a name without `/` from a dot that is not its first character. */
  lemma ExtnameAt(b: string, i: int)
    requires '/' !in b && b != ".."
    requires 0 < i < |b| && b[i] == '.'
    requires forall k :: i < k < |b| ==> b[k] != '.'
    ensures Extname(b) == b[i..]
  {
    BasenamePlain(b);
    LastDotIs(b, i);
  }

  // ---- The upload type whitelist ----

  /** `/jpeg|jpg|png|gif|webp/.test(s)` */
  predicate AllowedType(s: string) {
    Contains(s, "jpeg") || Contains(s, "jpg") || Contains(s, "png") || Contains(s, "gif") || Contains(s, "webp")
  }

  /** multer's `fileFilter`: both the lower-cased extension and the MIME type must
      mention one of the image types. */
  predicate FileFilter(originalName: string, mimetype: string) {
    AllowedType(Lower(Extname(originalName))) && AllowedType(mimetype)
  }

  /** A file whose name has no extension (including dot files such as ".png") is
      refused, whatever its MIME type. */
  lemma FileFilterNeedsExtension(originalName: string, mimetype: string)
    ensures FileFilter(originalName, mimetype) ==> Extname(originalName) != ""
  {
    if Extname(originalName) == "" {
      assert Lower("") == "";
    }
  }

  /** An upper-case extension passes: only the extension is lower-cased. */
  lemma FileFilterAcceptsPng()
    ensures FileFilter("cat.PNG", "image/png")
  {
    ExtnameCatPng();
    LowerPng();
    AllowedPng();
    AllowedImagePng();
  }

  lemma ExtnameCatPng()
    ensures Extname("cat.PNG") == ".PNG"
  {
    var b := "cat.PNG";
    ExtnameAt(b, 3);
    assert b[3..] == ".PNG";
  }

  lemma LowerPng()
    ensures Lower(".PNG") == ".png"
    ensures Lower(".png") == ".png"
  {
  }

  lemma AllowedPng()
    ensures AllowedType(".png")
  {
    assert OccursAt(".png", "png", 1);
    ContainsIsSlice(".png", "png");
  }

  lemma AllowedImagePng()
    ensures AllowedType("image/png")
  {
    assert OccursAt("image/png", "png", 6);
    ContainsIsSlice("image/png", "png");
  }

  // ---- Upload file names ----

  /** `${prefix}-${n}${ext}` */
  function UploadName(prefix: string, n: int, ext: string): string {
    prefix + "-" + IntToString(n) + ext
  }

  /** Different numbers give different names. */
  lemma UploadNameInjective(prefix: string, n: int, m: int, ext: string)
    requires n != m
    ensures UploadName(prefix, n, ext) != UploadName(prefix, m, ext)
  {
    var a, b := IntToString(n), IntToString(m);
    if UploadName(prefix, n, ext) == UploadName(prefix, m, ext) {
      var u := UploadName(prefix, n, ext);
      assert |a| == |b|;
      assert u[|prefix| + 1..|prefix| + 1 + |a|] == a;
      assert u[|prefix| + 1..|prefix| + 1 + |b|] == b;
      ParseIntToString(n);
      ParseIntToString(m);
    }
  }

  /** The files the upload counter counts: those with the prefix and the extension. */
  function CountMatching(listing: seq<string>, prefix: string, ext: string): (r: nat)
    ensures r <= |listing|
  {
    if listing == [] then 0
    else (if StartsWith(listing[0], prefix) && EndsWith(listing[0], ext) then 1 else 0)
         + CountMatching(listing[1..], prefix, ext)
  }

  /** Multer's file-name callback as written: one more than the number of existing
      files that start with `<safe>-<type>` and end with the extension. */
  function UploadFileNameAsWritten(listing: seq<string>, artistName: string, imageType: string,
                                   originalName: string): string {
    var ext := Lower(Extname(originalName));
    var prefix := Sanitize(artistName) + "-" + imageType;
    UploadName(prefix, CountMatching(listing, prefix, ext) + 1, ext)
  }

  /** With images `unknown-general-1.png` and `unknown-general-2.png` stored and
      the first one deleted, the counter names the next upload after the surviving
      second image, which is then overwritten. */
  lemma UploadNameReusesExisting()
    ensures UploadFileNameAsWritten(["unknown-general-2.png"], "unknown", "general", "b.png") == "unknown-general-2.png"
  {
    UploadNameAsWrittenUnfold(["unknown-general-2.png"], "unknown", "general", "b.png");
    ExtPng();
    PrefixSample();
    CountSample();
    NameSample();
  }

  /** The name as written is the counter's name for the unsanitised type. */
  lemma UploadNameAsWrittenUnfold(listing: seq<string>, artistName: string, imageType: string,
                                  originalName: string)
    ensures var ext := Lower(Extname(originalName));
      var prefix := Sanitize(artistName) + "-" + imageType;
      UploadFileNameAsWritten(listing, artistName, imageType, originalName) ==
      UploadName(prefix, CountMatching(listing, prefix, ext) + 1, ext)
  {
  }

  lemma PrefixSample()
    ensures Sanitize("unknown") + "-" + "general" == "unknown-general"
  {
    SanitizeLegal("unknown");
  }

  lemma NameSample()
    ensures UploadName("unknown-general", 2, ".png") == "unknown-general-2.png"
  {
    assert IntToString(2) == "2";
  }

  lemma ExtPng()
    ensures Lower(Extname("b.png")) == ".png"
  {
    ExtnameBPng();
    LowerPng();
  }

  lemma ExtnameBPng()
    ensures Extname("b.png") == ".png"
  {
    var b := "b.png";
    ExtnameAt(b, 1);
    assert b[1..] == ".png";
  }

  lemma CountSample()
    ensures CountMatching(["unknown-general-2.png"], "unknown-general", ".png") == 1
  {
    assert StartsWith("unknown-general-2.png", "unknown-general");
    assert EndsWith("unknown-general-2.png", ".png");
  }

  /** The type is not sanitised, so an upload name can hold `/`: with the type
      `../../../x` the name is `A-../../../x-<n><ext>`, whose segments are `A-..`,
      two `..` and `x-<n><ext>`. Once `path.join` resolves it against the images
      directory, one `..` cancels `A-..` and the other climbs into the server's own
      directory. The lemma proves only the `/` and the prefix; where the file
      lands follows from `path.join`, which is not modelled. */
  lemma UploadNameEscapes(listing: seq<string>, originalName: string)
    ensures var r := UploadFileNameAsWritten(listing, "A", "../../../x", originalName);
      '/' in r && StartsWith(r, "A-../../../x")
  {
    UploadNameAsWrittenPrefix(listing, "A", "../../../x", originalName);
    var r := UploadFileNameAsWritten(listing, "A", "../../../x", originalName);
    SanitizeLegal("A");
    assert Sanitize("A") + "-" + "../../../x" == "A-../../../x";
    assert r[4] == "A-../../../x"[4];
  }

  /** The name as written starts with the sanitised name, a dash and the type as given. */
  lemma UploadNameAsWrittenPrefix(listing: seq<string>, artistName: string, imageType: string,
                                  originalName: string)
    ensures var r := UploadFileNameAsWritten(listing, artistName, imageType, originalName);
      StartsWith(r, Sanitize(artistName) + "-" + imageType)
  {
  }

  /** `listing.filter(f => f !== x)` */
  function Without(listing: seq<string>, x: string): (r: seq<string>)
    ensures x !in r && |r| <= |listing|
    ensures x in listing ==> |r| < |listing|
    ensures forall y :: y in r <==> y in listing && y != x
  {
    if listing == [] then []
    else (if listing[0] == x then [] else [listing[0]]) + Without(listing[1..], x)
  }

  /** The first number from `n` on whose upload name is not taken. */
  function FreshIndex(listing: seq<string>, prefix: string, ext: string, n: int): (r: int)
    ensures r >= n && UploadName(prefix, r, ext) !in listing
    ensures forall k :: n <= k < r ==> UploadName(prefix, k, ext) in listing
    decreases |listing|
  {
    var c := UploadName(prefix, n, ext);
    if c !in listing then n
    else
      var rest := Without(listing, c);
      var r := FreshIndex(rest, prefix, ext, n + 1);
      FreshStepFree(listing, prefix, ext, n, r);
      FreshStepTaken(listing, prefix, ext, n, r);
      r
  }

  /** One step of `FreshIndex`: a name not in the listing without the taken
      name `n` is not in the listing either. */
  lemma FreshStepFree(listing: seq<string>, prefix: string, ext: string, n: int, r: int)
    requires r != n && UploadName(prefix, r, ext) !in Without(listing, UploadName(prefix, n, ext))
    ensures UploadName(prefix, r, ext) !in listing
  {
    UploadNameInjective(prefix, r, n, ext);
  }

  /** One step of `FreshIndex`: the names taken from `n + 1` on in the listing
      without name `n` are taken in the listing. */
  lemma FreshStepTaken(listing: seq<string>, prefix: string, ext: string, n: int, r: int)
    requires UploadName(prefix, n, ext) in listing
    requires forall k :: n + 1 <= k < r ==> UploadName(prefix, k, ext) in Without(listing, UploadName(prefix, n, ext))
    ensures forall k :: n <= k < r ==> UploadName(prefix, k, ext) in listing
  {
    var rest := Without(listing, UploadName(prefix, n, ext));
    forall k | n + 1 <= k < r
      ensures UploadName(prefix, k, ext) in listing
    {
      assert UploadName(prefix, k, ext) in rest;
    }
  }

  /** The upload file name the rest of the model uses: the type is sanitised like
      the artist name, and the counter moves past names that are already taken. */
  function UploadFileName(listing: seq<string>, artistName: string, imageType: string,
                          originalName: string): string {
    var ext := Lower(Extname(originalName));
    var prefix := Sanitize(artistName) + "-" + Sanitize(imageType);
    UploadName(prefix, FreshIndex(listing, prefix, ext, CountMatching(listing, prefix, ext) + 1), ext)
  }

  /** An upload name has at least two dashes and a digit. */
  lemma UploadFileNameLength(listing: seq<string>, artistName: string, imageType: string, originalName: string)
    ensures |UploadFileName(listing, artistName, imageType, originalName)| >= 3
  {
  }

  /** The corrected name is new, stays inside the directory, and is the name the
      counter gives whenever that name is free and the type needs no sanitising. */
  lemma UploadFileNameFresh(listing: seq<string>, artistName: string, imageType: string, originalName: string)
    ensures UploadFileName(listing, artistName, imageType, originalName) !in listing
    ensures '/' !in UploadFileName(listing, artistName, imageType, originalName)
    ensures (forall k :: 0 <= k < |imageType| ==> !Illegal(imageType[k])) &&
            UploadFileNameAsWritten(listing, artistName, imageType, originalName) !in listing ==>
            UploadFileName(listing, artistName, imageType, originalName) ==
            UploadFileNameAsWritten(listing, artistName, imageType, originalName)
  {
    UploadFileNameNoSlash(listing, artistName, imageType, originalName);
    if forall k :: 0 <= k < |imageType| ==> !Illegal(imageType[k]) {
      SanitizeLegal(imageType);
    }
  }

  lemma UploadFileNameNoSlash(listing: seq<string>, artistName: string, imageType: string, originalName: string)
    ensures '/' !in UploadFileName(listing, artistName, imageType, originalName)
  {
    var ext := Lower(Extname(originalName));
    var prefix := Sanitize(artistName) + "-" + Sanitize(imageType);
    var n := FreshIndex(listing, prefix, ext, CountMatching(listing, prefix, ext) + 1);
    SanitizeSafe(artistName);
    SanitizeSafe(imageType);
    ExtensionNoSlash(originalName);
    UploadNameNoSlash(prefix, n, ext);
  }

  lemma UploadNameNoSlash(prefix: string, n: int, ext: string)
    requires '/' !in prefix && '/' !in ext
    ensures '/' !in UploadName(prefix, n, ext)
  {
    NumberNoSlash(n);
  }

  lemma ExtensionNoSlash(originalName: string)
    ensures '/' !in Lower(Extname(originalName))
  {
    ExtnameShape(originalName);
    LowerKeepsChar(Extname(originalName), '/');
  }

  lemma NumberNoSlash(n: int)
    ensures '/' !in IntToString(n)
  {
    var d := IntToString(n);
    assert forall k :: 0 <= k < |d| ==> d[k] == '-' || IsDigit(d[k]);
  }
}
