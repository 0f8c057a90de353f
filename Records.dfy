/** The artist record as the browser and the server exchange it (one JSON document
    per artist). Absent list fields are the empty list and absent text fields the
    empty string, since every reader of the record treats the two alike; the two
    fields whose readers test `Array.isArray` keep their shape in `Field`. */
module Records {
  import opened Common
  import opened Numbers

  /** One training-count entry: JSON arrays may hold numbers or strings. */
  datatype Count = Num(n: int) | Str(s: string)

  /** A multi-valued JSON field: absent, a bare (comma-joined) string, or an array. */
  datatype Field<T> = Missing | Text(s: string) | List(items: seq<T>)

  datatype Artist = Artist(
    id: int,
    name: string,
    artistId: Field<string>,
    trainingCount: Field<Count>,
    previewImage: string,
    sampleImages: seq<string>,
    tags: seq<string>,
    triggerWords: seq<string>,
    styleDescription: string,
    createTime: string)

  /** A request body: any field may be left out, and `{...old, ...body}` keeps
      the old value exactly for the fields left out. */
  datatype Draft = Draft(
    name: Option<string>,
    artistId: Field<string>,
    trainingCount: Field<Count>,
    previewImage: Option<string>,
    sampleImages: Option<seq<string>>,
    tags: Option<seq<string>>,
    triggerWords: Option<seq<string>>,
    styleDescription: Option<string>,
    createTime: Option<string>)

  const PlaceholderArtist := "/images/placeholder-artist.png"
  const PlaceholderSample := "/images/placeholder-sample.png"

  /** `String(c)`: how a count is shown in a form field. */
  function CountText(c: Count): string {
    match c
    case Num(n) => IntToString(n)
    case Str(s) => s
  }

  /** `parseInt(c) || 0` for one entry. */
  function CountValue(c: Count): (v: int)
    ensures c.Num? ==> v == c.n
  {
    match c
    case Num(n) => ParseIntToString(n); IntOrZero(IntToString(n))
    case Str(s) => IntOrZero(s)
  }

  /** `artists.find(a => a.id === id)` / `findIndex`: the first record with that id, or -1. */
  function IndexOfId(s: seq<Artist>, id: int): (r: int)
    ensures -1 <= r < |s|
    ensures r >= 0 ==> s[r].id == id && forall k :: 0 <= k < r ==> s[k].id != id
    ensures r == -1 <==> forall k :: 0 <= k < |s| ==> s[k].id != id
  {
    if s == [] then -1
    else if s[0].id == id then 0
    else
      var r := IndexOfId(s[1..], id);
      if r == -1 then -1 else r + 1
  }
}
