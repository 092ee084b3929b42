# Audiobookshelf author metadata updater — a Dafny model

This project models the decision policy of `AudiobookshelfMetadataUpdater`. That class fills in
missing author descriptions and portraits in an Audiobookshelf library from Wikipedia. The model
covers how one run works:

- it lists the authors (library-scoped or global endpoint);
- it skips every author that already has both a description and an image path;
- it looks every other author up on Wikipedia, then sleeps;
- in live mode it writes back only the fields the author is missing (a field-level merge);
- it counts an author as updated when the combined write reports success.

The HTTP traffic is not modelled. A `Remote` value stands for it: four oracles that answer each
request.

- `listAuthors(url)`: the author list, or None when the request failed.
- `search(name)`: the page found for a name, or None.
- `patch(url, description)`: whether the PATCH succeeded.
- `upload(url, imageUrl)`: whether the image upload succeeded.

A caught exception is the oracle's failure value. A run returns its trace of events
(`GetAuthors`, `Lookup`, `Patch`, `Upload`, `Sleep`) and the two counters it would log.

JSON members are modelled as `Field = Absent | Null | Text(s)`. `author.get('name', 'Unknown')`
tells a missing key apart from `null`, and an f-string renders None as `"None"`. Python
truthiness is `Truthy`: None and `""` both count as missing.

Modules:

- `Records`: the data and the oracles.
- `Text`: `rstrip('/')`, `strip()` with Python's whitespace set, and `replace(' ', '_')`.
- `Urls`: the endpoints and the page URL.
- `Sync`: the per-author policy as specification functions (`Step`, `Write`, `Run`) and the
  lemmas about them.
- `Updater`: the class, with a constructor and the two methods `UpdateAuthor` and
  `ProcessAuthors`, proved against `Write` and `Run`. The body of the `for` loop of
  `process_authors` is its own method, `ProcessAuthor`, proved against `Step`.

Three details of the code a reader might not expect:

- the author's name and id are optional JSON members, not strings;
- a page whose `extract` is `null` makes `strip()` raise, so the lookup yields nothing;
- no summary is reported when the author list is empty.

## Model

| member | source | states |
|---|---|---|
| Text.RStripSlash | wiki.py:26 | the stored URL is a prefix of the given one, does not end in `/`, and only `/` characters were removed |
| Text.RStripSlashIdempotent | wiki.py:26 | stripping an already stripped base URL changes nothing |
| Updater.MetadataUpdater.constructor | wiki.py:17-30 | the base URL is stored with trailing slashes removed (so it never ends in `/`), the library id as given, and the header value `Bearer <token>` |
| Urls.AuthorsEndpoint | wiki.py:32-37 | the endpoint starts with the base and ends in `/authors`; it is the library-scoped `/api/libraries/<id>/authors` exactly when the library id is truthy, carrying that id, and `/api/authors` otherwise |
| Sync.NeedsUpdate | wiki.py:47-51 | an author needs work exactly when its description or image path is missing, `null` or `""`; an author that does not need work has both fields non-empty |
| Sync.DisplayName | wiki.py:176 | an author without a `name` key is looked up as `Unknown`; otherwise the name is rendered as the f-string would render it (`null` as `None`) |
| Updater.Listed | wiki.py:38-45 | the authors are the endpoint's list when the request succeeds, and an empty list when it fails |
| Text.Strip | wiki.py:98 | the result is a piece of the input with only whitespace removed around it; it neither starts nor ends with whitespace; it is empty exactly when the input is all whitespace |
| Text.Underscored | wiki.py:100 | same length as the title, every space becomes `_` and every other character is kept |
| Urls.SourceUrl | wiki.py:100 | the page URL is `https://en.wikipedia.org/wiki/` followed by the title with spaces turned into underscores, and contains no space after the prefix |
| Sync.PageData | wiki.py:94-101 | a found page yields no result exactly when its extract is `null`; otherwise the description is the stripped extract (empty when the key is missing), the image URL is the original image's source if any, and the source is the page URL of the title |
| Sync.SearchWikipedia | wiki.py:53-108 | a result exists exactly when a page was found and its extract is not `null`; the result carries the page URL of the title and the page's image; its description is the stripped extract (empty when the extract is missing), so it is empty exactly when the extract is missing or all whitespace and otherwise has no surrounding whitespace |
| Urls.AuthorUrl | wiki.py:141 | the PATCH goes to the base URL, then `/api/authors/`, then the rendered author id, and nothing else |
| Urls.ImageUploadUrl | wiki.py:117 | the image is posted to the author's URL followed by `/image` |
| Sync.Write | wiki.py:132-156 | success is the conjunction of the calls actually made; only a PATCH for a non-empty description and an upload for a non-empty image URL are made, PATCH first, each at most once (the number of calls is exactly the number of those requests reached); a failed PATCH ends with false and no upload; with neither argument set, no call is made and the result is true |
| Updater.MetadataUpdater.UpdateAuthor | wiki.py:132-156 | the method's success flag and the calls it issues are those `Write` specifies |
| Sync.Step | wiki.py:175-205 | a complete author is only counted as skipped (no lookup, no write, no sleep); any other author is looked up first and followed by one sleep; a failed lookup moves no counter and writes nothing; a dry run never writes or counts; an update is counted exactly when the merged write reports success |
| Sync.DescriptionArg | wiki.py:198 | the fetched description is passed exactly when the author's own description is missing, `null` or empty |
| Sync.ImageArg | wiki.py:199 | an author with an image path gets no image URL; otherwise the fetched image URL (possibly none) is passed |
| Sync.StepShape | wiki.py:184-205 | a step that looks an author up is the lookup, then only writes, then the sleep |
| Sync.StepWrites | wiki.py:186-205 | for an author that needs work and whose lookup succeeds, a dry run is exactly the lookup and the sleep; a live step is the lookup, then exactly the calls of the merged write, then the sleep, and counts an update exactly when that write succeeds |
| Sync.StepNeverClobbers | wiki.py:196-200 | a PATCH in a step goes to an author whose description was missing and carries the fetched description; an upload goes to an author whose image path was missing and carries the fetched image URL |
| Sync.Run | wiki.py:172-205 | over a whole author list, updated plus skipped never exceeds the number of authors; a dry run counts no update and issues no write |
| Sync.StepCounts | wiki.py:179-205 | one author contributes one lookup and one sleep when it needs work, and none otherwise |
| Sync.RunCounts | wiki.py:172-205 | the skipped count is the number of complete authors; lookups and sleeps each equal the number of authors needing work; updates never exceed it |
| Sync.RunEventOrigin | wiki.py:175-205 | every event of a run belongs to the step of one of its authors |
| Sync.RunNeverClobbers | wiki.py:196-200 | over a whole live run, every PATCH targets an author whose description was missing and every upload an author whose image path was missing |
| Sync.UpdatedWithoutWrite | wiki.py:135-202 | an author missing only its image, whose lookup brings no image, is counted as updated although nothing is written |
| Sync.MissingDescriptionScenario | wiki.py:196-202 | an author with a `null` description but an image path, whose lookup finds a description and an image, gets only its description written (lookup, PATCH, sleep), and a successful PATCH counts one update |
| Sync.SecondCompleteScenario | wiki.py:175-186 | with two authors, the second complete, a run skips one, looks up one and updates at most one |
| Updater.MetadataUpdater.ProcessAuthor | wiki.py:176-205 | one iteration of the loop produces exactly the counters and events `Step` specifies for that author |
| Updater.MetadataUpdater.ProcessAuthors | wiki.py:158-209 | the run lists the authors at the configured endpoint; an empty list ends the run with only that request and no summary; otherwise the trace and counters are those of `Run`, so updated plus skipped is bounded by the list length and a dry run writes nothing |

## Left out

- HTTP traffic (`requests.Session`, GET/PATCH/POST, `raise_for_status`, status codes): each request is an oracle in `Remote`, and every exception or non-success status is the oracle's failure value. `upload_image_url` (wiki.py:110-130) is modelled only as the `upload` oracle plus its URL.
- The oracles are functions, so within a run the same request always gets the same answer. Identical repeated requests cannot answer differently.
- JSON decoding of the Wikipedia answers (wiki.py:70-95) is abstracted into `search(name)`, which returns the title, the `extract` member and the image `source`. Two cases fold into that oracle: an `original` member that is `null` (which raises in the source) and a missing page map. Non-string JSON values in author records are not modelled.
- The search string suffix `" author writer"`, the `srlimit` parameter and the `User-Agent` header: request decoration. The search oracle is keyed by the author's rendered name.
- `time.sleep(delay)` and the float delay: the model records a `Sleep` event at the point of the call.
- Logging, the 100-character dry-run preview, and printing the final summary: the counters are returned as a `Summary` instead. The source's `process_authors` returns nothing.
- The session's header dictionary: only the authorization value is kept.
- `main`, `argparse` and the hard-coded configuration constants (wiki.py:212-238): command-line plumbing.
