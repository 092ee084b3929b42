/** The URLs the updater builds: the library server's endpoints and the
    encyclopedia page a result links back to. */
module Urls {
  import opened Records
  import opened Text

  const AuthorsPath := "/api/authors"
  const LibrariesPath := "/api/libraries/"
  const WikiPagePrefix := "https://en.wikipedia.org/wiki/"

  predicate StartsWith(s: string, prefix: string)
  {
    |prefix| <= |s| && s[..|prefix|] == prefix
  }

  predicate EndsWith(s: string, suffix: string)
  {
    |suffix| <= |s| && s[|s| - |suffix|..] == suffix
  }

  /** The author-list endpoint: library-scoped exactly when a (truthy) library
      id was configured, the global list otherwise. */
  function AuthorsEndpoint(base: string, libraryId: Option<string>): (url: string)
    ensures StartsWith(url, base) && EndsWith(url, "/authors")
    ensures StartsWith(url[|base|..], LibrariesPath) <==> Truthy(libraryId)
    ensures Truthy(libraryId) ==>
      && |url| == |base| + |LibrariesPath| + |libraryId.value| + |"/authors"|
      && url[|base| + |LibrariesPath|..|url| - |"/authors"|] == libraryId.value
    ensures !Truthy(libraryId) ==> url[|base|..] == AuthorsPath
  {
    if Truthy(libraryId) then base + LibrariesPath + libraryId.value + "/authors"
    else base + AuthorsPath
  }

  /** The URL the PATCH of one author's description goes to. */
  function AuthorUrl(base: string, id: Field): (url: string)
    ensures StartsWith(url, base + AuthorsPath + "/") && EndsWith(url, Render(id))
    ensures |url| == |base| + |AuthorsPath| + 1 + |Render(id)|
  {
    base + AuthorsPath + "/" + Render(id)
  }

  /** The URL an author's image URL is posted to. */
  function ImageUploadUrl(base: string, id: Field): (url: string)
    ensures StartsWith(url, AuthorUrl(base, id)) && EndsWith(url, "/image")
    ensures |url| == |AuthorUrl(base, id)| + |"/image"|
  {
    AuthorUrl(base, id) + "/image"
  }

  /** The canonical page URL of a title: the wiki prefix, then the title with
      every space turned into an underscore and every other character kept. */
  function SourceUrl(title: string): (url: string)
    ensures StartsWith(url, WikiPagePrefix) && |url| == |WikiPagePrefix| + |title|
    ensures forall i :: 0 <= i < |title| ==>
      url[|WikiPagePrefix| + i] == (if title[i] == ' ' then '_' else title[i])
    ensures ' ' !in url[|WikiPagePrefix|..]
  {
    WikiPagePrefix + Underscored(title)
  }
}
