/** The top-level loop of the script: request pages 1, 2, ... of the
    listing, process every record of a page before the next request, and
    append each page's record list to the manifest. */
module Paging {
  import opened Failures
  import opened Media
  import opened Storage
  import opened Pipeline

  /** The loop also stops after this page, whatever the listing reports. */
  const PageLimit := 2

  /** The loop stops after the answer `r` to the request for `page`. */
  function Stops(r: PageResponse, page: int): (stop: bool)
    ensures page == PageLimit ==> stop
    ensures page != PageLimit ==> (stop <==> r.page == r.pages)
  {
    r.page == r.pages || page == PageLimit
  }

  /** What the run has done, in order: a page request, or a record whose
      processing completed. */
  datatype Event = Fetched(page: int) | Processed(id: string)

  function Ids(recs: seq<RawPhoto>): (events: seq<Event>)
    ensures |events| == |recs|
    ensures forall i :: 0 <= i < |recs| ==> events[i] == Processed(recs[i].id)
  {
    seq(|recs|, i requires 0 <= i < |recs| => Processed(recs[i].id))
  }

  /** The records of all pages, page after page. */
  function Flatten(pages: seq<seq<RawPhoto>>): seq<RawPhoto> {
    if pages == [] then [] else Flatten(pages[..|pages| - 1]) + pages[|pages| - 1]
  }

  /** The events of a run that fetched `pages`: each page's request,
      followed by its records. */
  function Schedule(pages: seq<seq<RawPhoto>>): seq<Event> {
    if pages == [] then []
    else Schedule(pages[..|pages| - 1]) + [Fetched(|pages|)] + Ids(pages[|pages| - 1])
  }

  /** The page numbers requested in `events`, in order. */
  function Requests(events: seq<Event>): seq<int> {
    if events == [] then []
    else (if events[0].Fetched? then [events[0].page] else []) + Requests(events[1..])
  }

  /** The ids of the records processed in `events`, in order. */
  function Handled(events: seq<Event>): seq<string> {
    if events == [] then []
    else (if events[0].Processed? then [events[0].id] else []) + Handled(events[1..])
  }

  function IdList(recs: seq<RawPhoto>): (ids: seq<string>)
    ensures |ids| == |recs|
    ensures forall i :: 0 <= i < |recs| ==> ids[i] == recs[i].id
  {
    seq(|recs|, i requires 0 <= i < |recs| => recs[i].id)
  }

  lemma {:induction false} EventsAppend(a: seq<Event>, b: seq<Event>)
    ensures Requests(a + b) == Requests(a) + Requests(b)
    ensures Handled(a + b) == Handled(a) + Handled(b)
  {
    if a != [] {
      assert (a + b)[1..] == a[1..] + b;
      EventsAppend(a[1..], b);
    } else {
      assert a + b == b;
    }
  }

  lemma {:induction false} EventsOfIds(recs: seq<RawPhoto>)
    ensures Requests(Ids(recs)) == []
    ensures Handled(Ids(recs)) == IdList(recs)
  {
    if recs != [] {
      assert Ids(recs)[1..] == Ids(recs[1..]);
      EventsOfIds(recs[1..]);
      assert IdList(recs) == [recs[0].id] + IdList(recs[1..]);
    }
  }

  lemma {:induction false} FetchedEvent(k: int)
    ensures Requests([Fetched(k)]) == [k] && Handled([Fetched(k)]) == []
  {
    assert [Fetched(k)][1..] == [];
  }

  lemma {:induction false} ScheduleSnoc(pages: seq<seq<RawPhoto>>)
    requires pages != []
    ensures Requests(Schedule(pages)) == Requests(Schedule(pages[..|pages| - 1])) + [|pages|]
    ensures Handled(Schedule(pages)) == Handled(Schedule(pages[..|pages| - 1])) + IdList(pages[|pages| - 1])
  {
    var a, b, c := Schedule(pages[..|pages| - 1]), [Fetched(|pages|)], Ids(pages[|pages| - 1]);
    assert Schedule(pages) == a + b + c;
    EventsAppend(a, b);
    EventsAppend(a + b, c);
    FetchedEvent(|pages|);
    EventsOfIds(pages[|pages| - 1]);
  }

  lemma {:induction false} IdListAppend(a: seq<RawPhoto>, b: seq<RawPhoto>)
    ensures IdList(a + b) == IdList(a) + IdList(b)
  {
  }

  /** A run that fetched `pages` requested pages 1, 2, ..., |pages| in
      that order, and processed the records of the manifest in manifest
      order, each once. */
  lemma {:induction false} ScheduleOrder(pages: seq<seq<RawPhoto>>)
    ensures Requests(Schedule(pages)) == seq(|pages|, i => i + 1)
    ensures Handled(Schedule(pages)) == IdList(Flatten(pages))
  {
    if pages != [] {
      var init, last := pages[..|pages| - 1], pages[|pages| - 1];
      ScheduleOrder(init);
      ScheduleSnoc(pages);
      assert seq(|pages|, i => i + 1) == seq(|init|, i => i + 1) + [|pages|];
      IdListAppend(Flatten(init), last);
    }
  }

  /** Record `i` of `recs` takes the file system from `states[i]` to
      `states[i + 1]` without failure. */
  ghost predicate StepAt(recs: seq<RawPhoto>, sizes: SizesService, web: Web, states: seq<FileSystem>, i: nat)
    requires i < |recs| && i + 1 < |states|
  {
    Step(Photo(recs[i]), sizes, web, states[i], states[i + 1], None)
  }

  /** `states` are the file systems before and after each of `recs`,
      processed one after another without failure, from `start` to
      `end`. */
  ghost predicate Ran(recs: seq<RawPhoto>, sizes: SizesService, web: Web, start: FileSystem, end: FileSystem, states: seq<FileSystem>) {
    && |states| == |recs| + 1
    && states[0] == start
    && states[|recs|] == end
    && forall i :: 0 <= i < |recs| ==> StepAt(recs, sizes, web, states, i)
  }

  /** The files that processing `recs` may write. */
  ghost function OutputPaths(recs: seq<RawPhoto>): set<string> {
    set i | 0 <= i < |recs| :: OutputPath(Photo(recs[i]))
  }

  /** A step depends only on the record and the two file systems, not on
      where they sit in their sequences. */
  lemma StepAtMoved(recs: seq<RawPhoto>, states: seq<FileSystem>, i: nat,
                    src: seq<RawPhoto>, srcStates: seq<FileSystem>, j: nat, sizes: SizesService, web: Web)
    requires i < |recs| && i + 1 < |states| && j < |src| && j + 1 < |srcStates|
    requires recs[i] == src[j] && states[i] == srcStates[j] && states[i + 1] == srcStates[j + 1]
    requires StepAt(src, sizes, web, srcStates, j)
    ensures StepAt(recs, sizes, web, states, i)
  {
  }

  lemma {:induction false} RanExtend(recs: seq<RawPhoto>, r: RawPhoto, sizes: SizesService, web: Web,
                                     start: FileSystem, end: FileSystem, states: seq<FileSystem>, next: FileSystem)
    requires Ran(recs, sizes, web, start, end, states)
    requires Step(Photo(r), sizes, web, end, next, None)
    ensures Ran(recs + [r], sizes, web, start, next, states + [next])
  {
    var recs', states' := recs + [r], states + [next];
    forall i | 0 <= i < |recs'|
      ensures StepAt(recs', sizes, web, states', i)
    {
      if i < |recs| {
        StepAtMoved(recs', states', i, recs, states, i, sizes, web);
      } else {
        assert recs'[i] == r && states'[i] == end && states'[i + 1] == next;
      }
    }
  }

  lemma {:induction false} RanPrefix(recs: seq<RawPhoto>, sizes: SizesService, web: Web,
                                     start: FileSystem, end: FileSystem, states: seq<FileSystem>, k: nat)
    requires Ran(recs, sizes, web, start, end, states) && k <= |recs|
    ensures Ran(recs[..k], sizes, web, start, states[k], states[..k + 1])
  {
    var r, st := recs[..k], states[..k + 1];
    forall i | 0 <= i < k
      ensures StepAt(r, sizes, web, st, i)
    {
      StepAtMoved(r, st, i, recs, states, i, sizes, web);
    }
  }

  lemma {:induction false} RanAppend(a: seq<RawPhoto>, b: seq<RawPhoto>, sizes: SizesService, web: Web,
                                     start: FileSystem, mid: FileSystem, end: FileSystem, sa: seq<FileSystem>, sb: seq<FileSystem>)
    returns (states: seq<FileSystem>)
    requires Ran(a, sizes, web, start, mid, sa) && Ran(b, sizes, web, mid, end, sb)
    ensures Ran(a + b, sizes, web, start, end, states)
  {
    var recs := a + b;
    states := sa + sb[1..];
    forall i | 0 <= i < |recs|
      ensures StepAt(recs, sizes, web, states, i)
    {
      if i < |a| {
        StepAtMoved(recs, states, i, a, sa, i, sizes, web);
      } else {
        var j := i - |a|;
        StepAtMoved(recs, states, i, b, sb, j, sizes, web);
      }
    }
  }

  lemma {:induction false} UntouchedTransitive(a: FileSystem, b: FileSystem, c: FileSystem, s: set<string>, t: set<string>)
    requires Untouched(a, b, s) && Untouched(b, c, t)
    ensures Untouched(a, c, s + t)
  {
  }

  lemma {:induction false} OutputPathsSnoc(recs: seq<RawPhoto>)
    requires recs != []
    ensures OutputPaths(recs) == OutputPaths(recs[..|recs| - 1]) + {OutputPath(Photo(recs[|recs| - 1]))}
  {
    var k := |recs|;
    forall i | 0 <= i < k - 1 ensures recs[i] == recs[..k - 1][i] { }
  }

  /** Processing a sequence of records writes no file but theirs. */
  lemma {:induction false} RanWritesOnlyOutputs(recs: seq<RawPhoto>, sizes: SizesService, web: Web,
                                                start: FileSystem, end: FileSystem, states: seq<FileSystem>)
    requires Ran(recs, sizes, web, start, end, states)
    ensures Untouched(start, end, OutputPaths(recs))
  {
    if recs != [] {
      var k := |recs|;
      RanPrefix(recs, sizes, web, start, end, states, k - 1);
      RanWritesOnlyOutputs(recs[..k - 1], sizes, web, start, states[k - 1], states[..k]);
      assert StepAt(recs, sizes, web, states, k - 1);
      StepWritesOnlyOutput(Photo(recs[k - 1]), sizes, web, states[k - 1], end, None);
      UntouchedTransitive(start, states[k - 1], end, OutputPaths(recs[..k - 1]), {OutputPath(Photo(recs[k - 1]))});
      OutputPathsSnoc(recs);
    }
  }

  /** Records `done` of `photos` completed, one after another, and the
      next record failed with `err` on the file system `fs`, which it left
      unchanged. */
  ghost predicate FailedAfter(photos: seq<RawPhoto>, done: seq<RawPhoto>, sizes: SizesService, web: Web, fs: FileSystem, err: Option<Failure>) {
    && |done| < |photos|
    && done == photos[..|done|]
    && err.Some?
    && Step(Photo(photos[|done|]), sizes, web, fs, fs, err)
  }

  /** The inner loop: process the records of one page in order, stopping
      at the first failure. `n` records completed; on a failure, record
      `n` is the one that failed, and it wrote nothing. */
  method ProcessPage(photos: seq<RawPhoto>, sizes: SizesService, web: Web, fs: FileSystem)
    returns (fs': FileSystem, n: nat, err: Option<Failure>, ghost states: seq<FileSystem>)
    ensures n <= |photos| && Ran(photos[..n], sizes, web, fs, fs', states)
    ensures err.None? ==> n == |photos|
    ensures err.Some? ==> FailedAfter(photos, photos[..n], sizes, web, fs', err)
  {
    fs', n, err, states := fs, 0, None, [fs];
    while n < |photos|
      invariant n <= |photos| && Ran(photos[..n], sizes, web, fs, fs', states)
    {
      var next, e := Process(Photo(photos[n]), sizes, web, fs');
      if e.Some? {
        RecordFails(photos, n, sizes, web, fs', next, e);
        return fs', n, e, states;
      }
      RecordCompletes(photos, n, sizes, web, fs, fs', states, next);
      fs', n, states := next, n + 1, states + [next];
    }
  }

  /** Record `n` of the page failed: it left the disk as it was. */
  lemma {:induction false} RecordFails(photos: seq<RawPhoto>, n: nat, sizes: SizesService, web: Web,
                                       fs: FileSystem, next: FileSystem, err: Option<Failure>)
    requires n < |photos| && err.Some?
    requires Step(Photo(photos[n]), sizes, web, fs, next, err)
    ensures next == fs && FailedAfter(photos, photos[..n], sizes, web, fs, err)
  {
    FailedStepWritesNothing(Photo(photos[n]), sizes, web, fs, next, err);
  }

  /** Record `n` of the page completed: the run covers one more record. */
  lemma {:induction false} RecordCompletes(photos: seq<RawPhoto>, n: nat, sizes: SizesService, web: Web,
                                           start: FileSystem, fs: FileSystem, states: seq<FileSystem>, next: FileSystem)
    requires n < |photos| && Ran(photos[..n], sizes, web, start, fs, states)
    requires Step(Photo(photos[n]), sizes, web, fs, next, None)
    ensures Ran(photos[..n + 1], sizes, web, start, next, states + [next])
  {
    assert photos[..n] + [photos[n]] == photos[..n + 1];
    RanExtend(photos[..n], photos[n], sizes, web, start, fs, states, next);
  }

  /** A completed page extends the manifest's records and events. */
  lemma {:induction false} AppendPage(manifest: seq<seq<RawPhoto>>, photos: seq<RawPhoto>)
    ensures Flatten(manifest + [photos]) == Flatten(manifest) + photos
    ensures Schedule(manifest + [photos]) == Schedule(manifest) + [Fetched(|manifest| + 1)] + Ids(photos)
  {
    var m := manifest + [photos];
    assert m[..|manifest|] == manifest;
  }

  /** The state at the top of the loop: the pages of `manifest` were
      requested and processed in order, none of them stopped the loop, and
      the next request is for page `|manifest| + 1`. */
  ghost predicate Looping(listing: seq<PageResponse>, sizes: SizesService, web: Web, fs0: FileSystem,
                          manifest: seq<seq<RawPhoto>>, trace: seq<Event>, fs: FileSystem, states: seq<FileSystem>) {
    && |manifest| < PageLimit && |manifest| <= |listing|
    && (forall i :: 0 <= i < |manifest| ==> manifest[i] == listing[i].photos && !Stops(listing[i], i + 1))
    && trace == Schedule(manifest)
    && Ran(Flatten(manifest), sizes, web, fs0, fs, states)
  }

  /** What a run leaves behind. Manifest entry i is page i+1's record
      list, and no page before the last one fetched stopped the loop. A
      completed run ends at a page that stops it. A failed run ends either
      at the request past the end of the listing or at the first record of
      the current page that failed, `partial` being the records of that
      page completed before it. The disk went through exactly the steps of
      the records processed, and the events are the requests and records
      in the order they happened. */
  ghost predicate Finished(listing: seq<PageResponse>, sizes: SizesService, web: Web, fs0: FileSystem,
                           fs: FileSystem, manifest: seq<seq<RawPhoto>>, trace: seq<Event>, err: Option<Failure>,
                           partial: seq<RawPhoto>, states: seq<FileSystem>) {
    && |manifest| <= PageLimit && |manifest| <= |listing|
    && (forall i :: 0 <= i < |manifest| ==> manifest[i] == listing[i].photos)
    && (forall i :: 0 <= i < |manifest| - 1 ==> !Stops(listing[i], i + 1))
    && (err.None? ==>
          && 1 <= |manifest|
          && Stops(listing[|manifest| - 1], |manifest|)
          && trace == Schedule(manifest)
          && partial == [])
    && (err.Some? ==>
          && |manifest| < PageLimit
          && (1 <= |manifest| ==> !Stops(listing[|manifest| - 1], |manifest|))
          && trace == Schedule(manifest) + [Fetched(|manifest| + 1)] + Ids(partial))
    && (err.Some? && |manifest| == |listing| ==> err == Some(ListingFailed(|manifest| + 1)) && partial == [])
    && (err.Some? && |manifest| < |listing| ==> FailedAfter(listing[|manifest|].photos, partial, sizes, web, fs, err))
    && Ran(Flatten(manifest) + partial, sizes, web, fs0, fs, states)
  }

  /** The request for the page after the last one of the listing fails,
      and the run ends there. */
  lemma {:induction false} ListingEnds(listing: seq<PageResponse>, sizes: SizesService, web: Web, fs0: FileSystem,
                                       manifest: seq<seq<RawPhoto>>, trace: seq<Event>, fs: FileSystem, states: seq<FileSystem>)
    requires Looping(listing, sizes, web, fs0, manifest, trace, fs, states) && |manifest| == |listing|
    ensures Finished(listing, sizes, web, fs0, fs, manifest, trace + [Fetched(|manifest| + 1)],
                     Some(ListingFailed(|manifest| + 1)), [], states)
  {
    assert Ids([]) == [];
    assert Flatten(manifest) + [] == Flatten(manifest);
  }

  /** A record of the page being processed fails, and the run ends there. */
  lemma {:induction false} PageFails(listing: seq<PageResponse>, sizes: SizesService, web: Web, fs0: FileSystem,
                                     manifest: seq<seq<RawPhoto>>, trace: seq<Event>, fs: FileSystem, states: seq<FileSystem>,
                                     n: nat, err: Option<Failure>, fs': FileSystem, states': seq<FileSystem>)
    requires Looping(listing, sizes, web, fs0, manifest, trace, fs, states) && |manifest| < |listing|
    requires n <= |listing[|manifest|].photos|
    requires Ran(Flatten(manifest) + listing[|manifest|].photos[..n], sizes, web, fs0, fs', states')
    requires FailedAfter(listing[|manifest|].photos, listing[|manifest|].photos[..n], sizes, web, fs', err)
    ensures Finished(listing, sizes, web, fs0, fs', manifest,
                     trace + [Fetched(|manifest| + 1)] + Ids(listing[|manifest|].photos[..n]),
                     err, listing[|manifest|].photos[..n], states')
  {
  }

  /** Every record of the page completed: the page joins the manifest, and
      the run either ends or goes on to the next page. */
  lemma {:induction false} PageCompletes(listing: seq<PageResponse>, sizes: SizesService, web: Web, fs0: FileSystem,
                                         manifest: seq<seq<RawPhoto>>, trace: seq<Event>, fs: FileSystem, states: seq<FileSystem>,
                                         fs': FileSystem, states': seq<FileSystem>)
    requires Looping(listing, sizes, web, fs0, manifest, trace, fs, states) && |manifest| < |listing|
    requires Ran(Flatten(manifest) + listing[|manifest|].photos, sizes, web, fs0, fs', states')
    ensures var data := listing[|manifest|];
            var manifest', trace' := manifest + [data.photos], trace + [Fetched(|manifest| + 1)] + Ids(data.photos);
            if Stops(data, |manifest| + 1) then Finished(listing, sizes, web, fs0, fs', manifest', trace', None, [], states')
            else Looping(listing, sizes, web, fs0, manifest', trace', fs', states')
  {
    var data := listing[|manifest|];
    var manifest' := manifest + [data.photos];
    AppendPage(manifest, data.photos);
    forall i | 0 <= i < |manifest'| ensures manifest'[i] == listing[i].photos {
      if i < |manifest| {
        assert manifest'[i] == manifest[i];
      }
    }
    assert Flatten(manifest') + [] == Flatten(manifest');
  }

  /** One pass of the loop: request page `page`, process its records in
      order, and append its record list to the manifest. The run then
      stops, after a failure or after a page that ends it, or goes on with
      the next page. */
  method FetchPage(listing: seq<PageResponse>, sizes: SizesService, web: Web, ghost fs0: FileSystem, page: nat,
                   manifest: seq<seq<RawPhoto>>, trace: seq<Event>, fs: FileSystem, ghost states: seq<FileSystem>)
    returns (fs': FileSystem, manifest': seq<seq<RawPhoto>>, trace': seq<Event>, err: Option<Failure>, stop: bool,
             ghost partial: seq<RawPhoto>, ghost states': seq<FileSystem>)
    requires page == |manifest| + 1
    requires Looping(listing, sizes, web, fs0, manifest, trace, fs, states)
    ensures stop ==> Finished(listing, sizes, web, fs0, fs', manifest', trace', err, partial, states')
    ensures !stop ==> |manifest'| == page && Looping(listing, sizes, web, fs0, manifest', trace', fs', states')
  {
    if page > |listing| {
      ListingEnds(listing, sizes, web, fs0, manifest, trace, fs, states);
      return fs, manifest, trace + [Fetched(page)], Some(ListingFailed(page)), true, [], states;
    }
    var data := listing[page - 1];
    var n;
    fs', n, err, states' := ProcessPage(data.photos, sizes, web, fs);
    states' := RanAppend(Flatten(manifest), data.photos[..n], sizes, web, fs0, fs, fs', states, states');
    if err.Some? {
      PageFails(listing, sizes, web, fs0, manifest, trace, fs, states, n, err, fs', states');
      return fs', manifest, trace + [Fetched(page)] + Ids(data.photos[..n]), err, true, data.photos[..n], states';
    }
    assert data.photos[..n] == data.photos;
    PageCompletes(listing, sizes, web, fs0, manifest, trace, fs, states, fs', states');
    manifest', trace' := manifest + [data.photos], trace + [Fetched(page)] + Ids(data.photos);
    stop, partial := data.page == data.pages || page == PageLimit, [];
  }

  /** The script: request pages 1, 2, ... of the listing, process every
      record of a page in order, and append the page's record list to the
      manifest; stop after a page that reports itself as the last one, or
      after page 2. A failure of any collaborator ends the run. */
  method Run(listing: seq<PageResponse>, sizes: SizesService, web: Web, fs0: FileSystem)
    returns (fs: FileSystem, manifest: seq<seq<RawPhoto>>, trace: seq<Event>, err: Option<Failure>,
             ghost partial: seq<RawPhoto>, ghost states: seq<FileSystem>)
    ensures Finished(listing, sizes, web, fs0, fs, manifest, trace, err, partial, states)
  {
    fs, manifest, trace, states := fs0, [], [], [fs0];
    var page := 1;
    while true
      invariant page == |manifest| + 1
      invariant Looping(listing, sizes, web, fs0, manifest, trace, fs, states)
      decreases PageLimit - page
    {
      var stop;
      fs, manifest, trace, err, stop, partial, states := FetchPage(listing, sizes, web, fs0, page, manifest, trace, fs, states);
      if stop {
        return;
      }
      page := page + 1;
    }
  }
}
