/** The updater object: its configuration, the combined write for one
    author, and the run over the whole author list. */
module Updater {
  import opened Records
  import opened Text
  import opened Urls
  import opened Sync

  /** The counters reported at the end of a run. */
  datatype Summary = Summary(updated: nat, skipped: nat)

  /** The author list the endpoint answered with; a failed request reads as
      an empty list. */
  function Listed(remote: Remote, url: string): (authors: seq<Author>)
    ensures remote.listAuthors(url).None? ==> authors == []
    ensures remote.listAuthors(url).Some? ==> authors == remote.listAuthors(url).value
  {
    match remote.listAuthors(url)
    case None => []
    case Some(authors) => authors
  }

  class MetadataUpdater {
    const absUrl: string
    const libraryId: Option<string>
    const authorization: string

    /** The server URL is stored without trailing slashes; the token becomes
        a bearer authorization header value. */
    constructor (url: string, apiToken: string, libraryId: Option<string>)
      ensures absUrl == RStripSlash(url)
      ensures absUrl == [] || absUrl[|absUrl| - 1] != '/'
      ensures this.libraryId == libraryId
      ensures authorization == "Bearer " + apiToken
    {
      absUrl := RStripSlash(url);
      this.libraryId := libraryId;
      authorization := "Bearer " + apiToken;
    }

    /** Writes a description and an image URL for one author, each only when
        it is non-empty; a failed PATCH ends the write with false. */
    method UpdateAuthor(authorId: Field, description: Option<string>, imageUrl: Option<string>,
                        remote: Remote) returns (success: bool, calls: seq<Event>)
      ensures WriteOutcome(success, calls) == Write(absUrl, authorId, description, imageUrl, remote)
    {
      success := true;
      calls := [];
      if Truthy(description) {
        var url := AuthorUrl(absUrl, authorId);
        calls := calls + [Patch(url, description.value)];
        if !remote.patch(url, description.value) {
          // the failed PATCH raises, and the handler answers false
          return false, calls;
        }
      }
      if Truthy(imageUrl) {
        var url := ImageUploadUrl(absUrl, authorId);
        calls := calls + [Upload(url, imageUrl.value)];
        var imageSuccess := remote.upload(url, imageUrl.value);
        success := success && imageSuccess;
      }
    }

    /** The body of the run's loop for one author: skip a complete author,
        otherwise look it up, write the merged fields unless in a dry run, and
        sleep. */
    method ProcessAuthor(author: Author, dryRun: bool, remote: Remote)
      returns (updated: bool, skipped: bool, events: seq<Event>)
      ensures StepOutcome(updated, skipped, events) == Step(absUrl, author, dryRun, remote)
    {
      if !NeedsUpdate(author) {
        return false, true, [];
      }
      var name := DisplayName(author);
      var wikiData := SearchWikipedia(name, remote);
      updated, skipped := false, false;
      if wikiData.Some? {
        StepWrites(absUrl, author, dryRun, remote);
        if dryRun {
          // only logs what would be written
          events := [Lookup(name), Sleep];
        } else {
          var success, calls := UpdateAuthor(author.id, DescriptionArg(author, wikiData.value),
                                             ImageArg(author, wikiData.value), remote);
          updated := success;
          events := [Lookup(name)] + calls + [Sleep];
        }
      } else {
        events := [Lookup(name), Sleep];
      }
    }

    /** One run: list the authors, then look up and (unless in a dry run)
        write each author that needs work, counting updates and skips. No
        summary is reported when the list is empty. */
    method ProcessAuthors(dryRun: bool, remote: Remote) returns (summary: Option<Summary>, trace: seq<Event>)
      ensures var url := AuthorsEndpoint(absUrl, libraryId);
              var authors := Listed(remote, url);
              var t := Run(absUrl, authors, dryRun, remote);
              && trace == [GetAuthors(url)] + t.trace
              && (summary.None? <==> authors == [])
              && (summary.Some? ==> summary.value == Summary(t.updated, t.skipped))
      ensures Listed(remote, AuthorsEndpoint(absUrl, libraryId)) == [] ==>
        trace == [GetAuthors(AuthorsEndpoint(absUrl, libraryId))]
      ensures summary.Some? ==>
        summary.value.updated + summary.value.skipped <= |Listed(remote, AuthorsEndpoint(absUrl, libraryId))|
      ensures dryRun ==> summary.Some? ==> summary.value.updated == 0
      ensures dryRun ==> forall e :: e in trace ==> !e.Patch? && !e.Upload?
    {
      var url := AuthorsEndpoint(absUrl, libraryId);
      var authors := Listed(remote, url);
      if authors == [] {
        return None, [GetAuthors(url)];
      }
      var updatedCount, skippedCount := 0, 0;
      var events: seq<Event> := [];
      for i := 0 to |authors|
        invariant Run(absUrl, authors[..i], dryRun, remote) == Tally(updatedCount, skippedCount, events)
      {
        RunExtend(absUrl, authors, i, dryRun, remote);
        var updated, skipped, stepEvents := ProcessAuthor(authors[i], dryRun, remote);
        if skipped {
          skippedCount := skippedCount + 1;
        }
        if updated {
          updatedCount := updatedCount + 1;
        }
        events := events + stepEvents;
      }
      assert authors[..|authors|] == authors;
      summary, trace := Some(Summary(updatedCount, skippedCount)), [GetAuthors(url)] + events;
    }
  }
}
