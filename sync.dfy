/** The per-author decision policy of one synchronisation run, as
    specification functions, and what they guarantee. */
module Sync {
  import opened Records
  import opened Text
  import opened Urls

  /** The name an author is searched and logged under: `author.get('name', 'Unknown')`
      rendered into a string. */
  function DisplayName(a: Author): (name: string)
    ensures a.name.Absent? ==> name == "Unknown"
    ensures !a.name.Absent? ==> name == Render(a.name)
  {
    match a.name
    case Absent => "Unknown"
    case Null => "None"
    case Text(s) => s
  }

  /** An author needs work when its description or its image path is missing;
      a missing key, a `null` and an empty string all count as missing. */
  function NeedsUpdate(a: Author): (needed: bool)
    ensures needed <==> a.description in {Absent, Null, Text("")} || a.imagePath in {Absent, Null, Text("")}
    ensures !needed ==> |a.description.text| > 0 && |a.imagePath.text| > 0
  {
    !Truthy(Get(a.description)) || !Truthy(Get(a.imagePath))
  }

  /** The result built from a found page: the stripped extract (an empty
      string when the page has none), the original image if any, and the page
      URL. A `null` extract makes `strip` fail, which the lookup turns into None. */
  function PageData(p: PageRecord): (r: Option<WikiData>)
    ensures r.None? <==> p.extract.Null?
    ensures r.Some? ==>
      && r.value.description == (if p.extract.Text? then Strip(p.extract.text) else "")
      && r.value.imageUrl == Get(p.imageSource)
      && r.value.source == SourceUrl(p.title)
  {
    match p.extract
    case Null => None
    case Absent => Some(WikiData("", Get(p.imageSource), SourceUrl(p.title)))
    case Text(s) => Some(WikiData(Strip(s), Get(p.imageSource), SourceUrl(p.title)))
  }

  /** The encyclopedia lookup for one name. */
  function SearchWikipedia(name: string, remote: Remote): (r: Option<WikiData>)
    ensures r.Some? <==> remote.search(name).Some? && !remote.search(name).value.extract.Null?
    ensures r.Some? ==>
      var p := remote.search(name).value;
      && r.value.source == SourceUrl(p.title)
      && r.value.imageUrl == Get(p.imageSource)
      && (r.value.description == [] <==>
            p.extract.Absent? || forall i :: 0 <= i < |p.extract.text| ==> IsSpace(p.extract.text[i]))
    ensures r.Some? ==>
      var p := remote.search(name).value;
      r.value.description == (if p.extract.Text? then Strip(p.extract.text) else "")
    ensures r.Some? && r.value.description != [] ==>
      !IsSpace(r.value.description[0]) && !IsSpace(r.value.description[|r.value.description| - 1])
  {
    match remote.search(name)
    case None => None
    case Some(p) => PageData(p)
  }

  /** The lookup made for an author. */
  function Fetched(a: Author, remote: Remote): Option<WikiData>
  {
    SearchWikipedia(DisplayName(a), remote)
  }

  /** Field-level merge: the fetched description is offered only when the
      author's own description is missing. */
  function DescriptionArg(a: Author, w: WikiData): (r: Option<string>)
    ensures r.Some? <==> !Truthy(Get(a.description))
    ensures r.Some? ==> r.value == w.description
  {
    if Truthy(Get(a.description)) then None else Some(w.description)
  }

  /** Field-level merge: the fetched image URL is offered only when the
      author's own image path is missing. */
  function ImageArg(a: Author, w: WikiData): (r: Option<string>)
    ensures Truthy(Get(a.imagePath)) ==> r == None
    ensures !Truthy(Get(a.imagePath)) ==> r == w.imageUrl
  {
    if Truthy(Get(a.imagePath)) then None else w.imageUrl
  }

  datatype WriteOutcome = WriteOutcome(ok: bool, calls: seq<Event>)

  /** The combined write for one author: a PATCH for a non-empty description,
      then an image upload for a non-empty image URL; a failed PATCH answers
      false before any upload. */
  function Write(base: string, id: Field, description: Option<string>, imageUrl: Option<string>,
                 remote: Remote): (w: WriteOutcome)
    // success is the conjunction of the calls that were actually made
    ensures w.ok <==>
      && (Truthy(description) ==> remote.patch(AuthorUrl(base, id), description.value))
      && (Truthy(imageUrl) ==> remote.upload(ImageUploadUrl(base, id), imageUrl.value))
    // only the calls asked for are made, each with its argument
    ensures forall e :: e in w.calls ==>
      || (Truthy(description) && e == Patch(AuthorUrl(base, id), description.value))
      || (Truthy(imageUrl) && e == Upload(ImageUploadUrl(base, id), imageUrl.value))
    // each call is made at most once
    ensures |w.calls| ==
      (if Truthy(description) then 1 else 0) +
      (if Truthy(imageUrl) && (!Truthy(description) || remote.patch(AuthorUrl(base, id), description.value)) then 1 else 0)
    ensures Truthy(description) ==> 0 < |w.calls| && w.calls[0] == Patch(AuthorUrl(base, id), description.value)
    ensures Truthy(description) && !remote.patch(AuthorUrl(base, id), description.value) ==> |w.calls| == 1
    ensures Truthy(imageUrl) && (!Truthy(description) || remote.patch(AuthorUrl(base, id), description.value)) ==>
      0 < |w.calls| && w.calls[|w.calls| - 1] == Upload(ImageUploadUrl(base, id), imageUrl.value)
    ensures !Truthy(description) && !Truthy(imageUrl) ==> w.ok && w.calls == []
  {
    var patchUrl := AuthorUrl(base, id);
    if Truthy(description) && !remote.patch(patchUrl, description.value) then
      WriteOutcome(false, [Patch(patchUrl, description.value)])
    else
      var patched := if Truthy(description) then [Patch(patchUrl, description.value)] else [];
      if Truthy(imageUrl) then
        WriteOutcome(remote.upload(ImageUploadUrl(base, id), imageUrl.value),
                     patched + [Upload(ImageUploadUrl(base, id), imageUrl.value)])
      else
        WriteOutcome(true, patched)
  }

  datatype StepOutcome = StepOutcome(updated: bool, skipped: bool, events: seq<Event>)

  /** What one iteration of the run does with one author. */
  function Step(base: string, a: Author, dryRun: bool, remote: Remote): (s: StepOutcome)
    // a complete author is counted as skipped: no lookup, no write, no sleep
    ensures !NeedsUpdate(a) ==> s == StepOutcome(false, true, [])
    // any other author is looked up first and followed by exactly one sleep
    ensures NeedsUpdate(a) ==>
      && !s.skipped && 2 <= |s.events|
      && s.events[0] == Lookup(DisplayName(a)) && s.events[|s.events| - 1] == Sleep
    // nothing found: no counter moves and nothing is written
    ensures NeedsUpdate(a) && Fetched(a, remote).None? ==>
      s == StepOutcome(false, false, [Lookup(DisplayName(a)), Sleep])
    // a dry run never writes and never counts an update
    ensures dryRun ==> !s.updated && forall e :: e in s.events ==> !e.Patch? && !e.Upload?
    // counted as updated exactly when the combined write reports success
    ensures s.updated <==>
      && !dryRun && NeedsUpdate(a) && Fetched(a, remote).Some?
      && Write(base, a.id, DescriptionArg(a, Fetched(a, remote).value),
               ImageArg(a, Fetched(a, remote).value), remote).ok
  {
    if !NeedsUpdate(a) then
      StepOutcome(false, true, [])
    else
      var name := DisplayName(a);
      match Fetched(a, remote)
      case None => StepOutcome(false, false, [Lookup(name), Sleep])
      case Some(w) =>
        if dryRun then
          StepOutcome(false, false, [Lookup(name), Sleep])
        else
          var out := Write(base, a.id, DescriptionArg(a, w), ImageArg(a, w), remote);
          StepOutcome(out.ok, false, [Lookup(name)] + out.calls + [Sleep])
  }

  /** Every event of `t` is a write to the library server. */
  predicate OnlyWrites(t: seq<Event>)
  {
    forall e :: e in t ==> e.Patch? || e.Upload?
  }

  /** A step that looks an author up is the lookup, then only writes, then the sleep. */
  lemma StepShape(base: string, a: Author, dryRun: bool, remote: Remote)
    requires NeedsUpdate(a)
    ensures var ev := Step(base, a, dryRun, remote).events;
      && ev == [Lookup(DisplayName(a))] + ev[1..|ev| - 1] + [Sleep]
      && OnlyWrites(ev[1..|ev| - 1])
  {
  }

  /** A looked-up author's step: in a dry run only the lookup and the sleep; in
      a live run the merged write's calls between them. */
  lemma StepWrites(base: string, a: Author, dryRun: bool, remote: Remote)
    requires NeedsUpdate(a) && Fetched(a, remote).Some?
    ensures dryRun ==> Step(base, a, dryRun, remote) == StepOutcome(false, false, [Lookup(DisplayName(a)), Sleep])
    ensures !dryRun ==>
      var out := Write(base, a.id, DescriptionArg(a, Fetched(a, remote).value), ImageArg(a, Fetched(a, remote).value), remote);
      Step(base, a, dryRun, remote) == StepOutcome(out.ok, false, [Lookup(DisplayName(a))] + out.calls + [Sleep])
  {
  }

  /** Field-level merge for one author: a field that already holds a value is
      never written, and a written field gets the fetched value. */
  lemma StepNeverClobbers(base: string, a: Author, dryRun: bool, remote: Remote, e: Event)
    requires e in Step(base, a, dryRun, remote).events
    ensures e.Patch? ==>
      && !Truthy(Get(a.description)) && Fetched(a, remote).Some?
      && e == Patch(AuthorUrl(base, a.id), Fetched(a, remote).value.description)
    ensures e.Upload? ==>
      && !Truthy(Get(a.imagePath)) && Fetched(a, remote).Some?
      && Truthy(Fetched(a, remote).value.imageUrl)
      && e == Upload(ImageUploadUrl(base, a.id), Fetched(a, remote).value.imageUrl.value)
  {
    if e.Patch? || e.Upload? {
      var w := Fetched(a, remote).value;
      var out := Write(base, a.id, DescriptionArg(a, w), ImageArg(a, w), remote);
      assert e in out.calls;
    }
  }

  datatype Tally = Tally(updated: nat, skipped: nat, trace: seq<Event>)

  /** The counters and events after processing `authors` in order. */
  function Run(base: string, authors: seq<Author>, dryRun: bool, remote: Remote): (t: Tally)
    ensures t.updated + t.skipped <= |authors|
    ensures dryRun ==> t.updated == 0 && forall e :: e in t.trace ==> !e.Patch? && !e.Upload?
    decreases |authors|
  {
    if authors == [] then Tally(0, 0, [])
    else
      var before := Run(base, authors[..|authors| - 1], dryRun, remote);
      var s := Step(base, authors[|authors| - 1], dryRun, remote);
      Tally(before.updated + (if s.updated then 1 else 0),
            before.skipped + (if s.skipped then 1 else 0),
            before.trace + s.events)
  }

  /** Processing one more author extends the counters and the trace by that author's step. */
  lemma RunExtend(base: string, authors: seq<Author>, i: nat, dryRun: bool, remote: Remote)
    requires i < |authors|
    ensures var before, s := Run(base, authors[..i], dryRun, remote), Step(base, authors[i], dryRun, remote);
      Run(base, authors[..i + 1], dryRun, remote) ==
        Tally(before.updated + (if s.updated then 1 else 0),
              before.skipped + (if s.skipped then 1 else 0),
              before.trace + s.events)
  {
    assert authors[..i + 1][..i] == authors[..i];
  }

  /** The number of authors that need work. */
  function NumNeeding(authors: seq<Author>): (n: nat)
    ensures n <= |authors|
  {
    if authors == [] then 0
    else NumNeeding(authors[..|authors| - 1]) + (if NeedsUpdate(authors[|authors| - 1]) then 1 else 0)
  }

  datatype Kind = KGetAuthors | KLookup | KPatch | KUpload | KSleep

  function KindOf(e: Event): Kind
  {
    match e
    case GetAuthors(_) => KGetAuthors
    case Lookup(_) => KLookup
    case Patch(_, _) => KPatch
    case Upload(_, _) => KUpload
    case Sleep => KSleep
  }

  /** The number of events of kind `k` in `t`. */
  function Count(t: seq<Event>, k: Kind): nat
  {
    if t == [] then 0 else (if KindOf(t[0]) == k then 1 else 0) + Count(t[1..], k)
  }

  lemma {:induction false} CountAppend(a: seq<Event>, b: seq<Event>, k: Kind)
    ensures Count(a + b, k) == Count(a, k) + Count(b, k)
  {
    if a == [] {
      assert a + b == b;
    } else {
      assert (a + b)[1..] == a[1..] + b;
      CountAppend(a[1..], b, k);
    }
  }

  lemma {:induction false} CountNone(t: seq<Event>, k: Kind)
    requires forall e :: e in t ==> KindOf(e) != k
    ensures Count(t, k) == 0
  {
    if t != [] {
      CountNone(t[1..], k);
    }
  }

  lemma CountFramed(first: Event, middle: seq<Event>, last: Event, k: Kind)
    requires OnlyWrites(middle) && k !in {KPatch, KUpload}
    ensures Count([first] + middle + [last], k) ==
      (if KindOf(first) == k then 1 else 0) + (if KindOf(last) == k then 1 else 0)
  {
    CountNone(middle, k);
    CountAppend([first] + middle, [last], k);
    CountAppend([first], middle, k);
  }

  /** One author contributes one lookup and one sleep when it needs work, none otherwise. */
  lemma StepCounts(base: string, a: Author, dryRun: bool, remote: Remote)
    ensures Count(Step(base, a, dryRun, remote).events, KLookup) == (if NeedsUpdate(a) then 1 else 0)
    ensures Count(Step(base, a, dryRun, remote).events, KSleep) == (if NeedsUpdate(a) then 1 else 0)
  {
    if NeedsUpdate(a) {
      var ev := Step(base, a, dryRun, remote).events;
      StepShape(base, a, dryRun, remote);
      CountFramed(Lookup(DisplayName(a)), ev[1..|ev| - 1], Sleep, KLookup);
      CountFramed(Lookup(DisplayName(a)), ev[1..|ev| - 1], Sleep, KSleep);
    }
  }

  /** Over a whole run: complete authors are exactly the skipped ones, and
      every other author is looked up once and followed by one sleep. */
  lemma {:induction false} RunCounts(base: string, authors: seq<Author>, dryRun: bool, remote: Remote)
    ensures Run(base, authors, dryRun, remote).skipped == |authors| - NumNeeding(authors)
    ensures Run(base, authors, dryRun, remote).updated <= NumNeeding(authors)
    ensures Count(Run(base, authors, dryRun, remote).trace, KLookup) == NumNeeding(authors)
    ensures Count(Run(base, authors, dryRun, remote).trace, KSleep) == NumNeeding(authors)
  {
    if authors != [] {
      var init, last := authors[..|authors| - 1], authors[|authors| - 1];
      RunCounts(base, init, dryRun, remote);
      StepCounts(base, last, dryRun, remote);
      var before, s := Run(base, init, dryRun, remote), Step(base, last, dryRun, remote);
      CountAppend(before.trace, s.events, KLookup);
      CountAppend(before.trace, s.events, KSleep);
    }
  }

  /** Every event of a run comes from the step of one of its authors. */
  lemma {:induction false} RunEventOrigin(base: string, authors: seq<Author>, dryRun: bool, remote: Remote, e: Event)
    requires e in Run(base, authors, dryRun, remote).trace
    ensures exists k :: 0 <= k < |authors| && e in Step(base, authors[k], dryRun, remote).events
  {
    var init := authors[..|authors| - 1];
    if e in Run(base, init, dryRun, remote).trace {
      RunEventOrigin(base, init, dryRun, remote, e);
      var k :| 0 <= k < |init| && e in Step(base, init[k], dryRun, remote).events;
      assert init[k] == authors[k];
    } else {
      assert e in Step(base, authors[|authors| - 1], dryRun, remote).events;
    }
  }

  /** Field-level merge over a whole run: every PATCH goes to an author whose
      description was missing, every upload to one whose image path was missing. */
  lemma RunNeverClobbers(base: string, authors: seq<Author>, remote: Remote, e: Event)
    requires e in Run(base, authors, false, remote).trace
    ensures e.Patch? ==>
      exists k :: 0 <= k < |authors| && !Truthy(Get(authors[k].description)) && e.url == AuthorUrl(base, authors[k].id)
    ensures e.Upload? ==>
      exists k :: 0 <= k < |authors| && !Truthy(Get(authors[k].imagePath)) && e.url == ImageUploadUrl(base, authors[k].id)
  {
    RunEventOrigin(base, authors, false, remote, e);
    var k :| 0 <= k < |authors| && e in Step(base, authors[k], false, remote).events;
    StepNeverClobbers(base, authors[k], false, remote, e);
  }

  /** An author missing only its image, whose lookup brings no image, is
      counted as updated although nothing is written. */
  lemma UpdatedWithoutWrite(base: string, a: Author, remote: Remote)
    requires Truthy(Get(a.description)) && !Truthy(Get(a.imagePath))
    requires Fetched(a, remote).Some? && !Truthy(Fetched(a, remote).value.imageUrl)
    ensures Step(base, a, false, remote) == StepOutcome(true, false, [Lookup(DisplayName(a)), Sleep])
  {
  }

  /** A one-call write framed by a lookup and a sleep. */
  lemma Framed(first: Event, middle: Event, last: Event)
    ensures [first] + [middle] + [last] == [first, middle, last]
  {
  }

  /** An author with a `null` description and an image path, whose lookup
      finds both a description and an image: only the description is written,
      and a successful PATCH counts one update. */
  lemma MissingDescriptionScenario(base: string, a: Author, remote: Remote, w: WikiData)
    requires a.description == Null && Truthy(Get(a.imagePath))
    requires Fetched(a, remote) == Some(w) && w.description != "" && Truthy(w.imageUrl)
    requires remote.patch(AuthorUrl(base, a.id), w.description)
    ensures Step(base, a, false, remote) ==
      StepOutcome(true, false, [Lookup(DisplayName(a)), Patch(AuthorUrl(base, a.id), w.description), Sleep])
  {
    var url, name := AuthorUrl(base, a.id), DisplayName(a);
    StepWrites(base, a, false, remote);
    var out := Write(base, a.id, DescriptionArg(a, w), ImageArg(a, w), remote);
    assert out == WriteOutcome(true, [Patch(url, w.description)]) by {
      assert DescriptionArg(a, w) == Some(w.description) && ImageArg(a, w) == None;
    }
    Framed(Lookup(name), Patch(url, w.description), Sleep);
  }

  /** Two authors, the second complete: one skip, one lookup, at most one update. */
  lemma SecondCompleteScenario(base: string, a1: Author, a2: Author, dryRun: bool, remote: Remote)
    requires NeedsUpdate(a1) && !NeedsUpdate(a2)
    ensures Run(base, [a1, a2], dryRun, remote).skipped == 1
    ensures Run(base, [a1, a2], dryRun, remote).updated <= 1
    ensures Count(Run(base, [a1, a2], dryRun, remote).trace, KLookup) == 1
  {
    RunCounts(base, [a1, a2], dryRun, remote);
    assert [a1, a2][..1] == [a1];
    assert [a1][..0] == [];
  }
}
