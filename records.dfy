/** The values the metadata updater reads from the library server and the
    encyclopedia, the requests it issues, and the outcomes of those requests. */
module Records {

  datatype Option<+T> = None | Some(value: T)

  /** A member of a JSON object as Python's `dict.get` sees it: the key is
      missing, it holds `null`, or it holds a string. */
  datatype Field = Absent | Null | Text(text: string)

  /** `d.get(key)` with no default: a missing key and a `null` both read as None. */
  function Get(f: Field): Option<string>
  {
    if f.Text? then Some(f.text) else None
  }

  /** Python truthiness of an optional string: both None and "" are false. */
  predicate Truthy(o: Option<string>)
  {
    o.Some? && o.value != ""
  }

  /** How an f-string renders a value read with `d.get(key)`: None becomes "None". */
  function Render(f: Field): string
  {
    if f.Text? then f.text else "None"
  }

  /** An author record as the library server lists it. */
  datatype Author = Author(id: Field, name: Field, description: Field, imagePath: Field)

  /** What the encyclopedia answers for one name once the search found a page:
      the page's title, its `extract` member and the `source` of its original image. */
  datatype PageRecord = PageRecord(title: string, extract: Field, imageSource: Field)

  /** The enrichment result built from one page. */
  datatype WikiData = WikiData(description: string, imageUrl: Option<string>, source: string)

  /** The observable actions of a run, in the order they happen. */
  datatype Event =
    | GetAuthors(url: string)
    | Lookup(name: string)
    | Patch(url: string, description: string)
    | Upload(url: string, imageUrl: string)
    | Sleep

  /** The remote services, as the answers they give:
      - `listAuthors(url)`: the author list at that endpoint, or None when the
        request or its decoding failed;
      - `search(name)`: the page found for that name, or None when the search
        found nothing or a request failed;
      - `patch(url, description)`: whether the PATCH succeeded;
      - `upload(url, imageUrl)`: whether the image upload succeeded. */
  datatype Remote = Remote(
    listAuthors: string -> Option<seq<Author>>,
    search: string -> Option<PageRecord>,
    patch: (string, string) -> bool,
    upload: (string, string) -> bool)
}
