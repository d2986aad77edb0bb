/** Processing one listed record: `Photo.process_photo`,
    `Photo.process_video` and the dispatch between them, `Photo.process`. */
module Pipeline {
  import opened Failures
  import opened Exif
  import opened Media
  import opened Storage
  import opened Embed

  /** What `getSizes` answers for each photo id; an id absent from the map
      is one for which the call raises. */
  type SizesService = map<string, seq<Size>>

  /** The file a record is saved to: `<id>.mp4` for a video and `<id>.jpg`
      for anything else, under `downloads`. */
  function OutputPath(p: Photo): (path: string)
    ensures p.IsVideo() ==> path == DownloadPath(p.PhotoId() + ".mp4")
    ensures !p.IsVideo() ==> path == DownloadPath(p.PhotoId() + ".jpg")
  {
    DownloadPath(p.PhotoId() + (if p.IsVideo() then ".mp4" else ".jpg"))
  }

  /** Two records share an output file exactly when they have the same id
      and are both videos or both photos: the files of different records
      never overwrite each other. */
  lemma {:induction false} OutputPathInjective(p: Photo, q: Photo)
    ensures OutputPath(p) == OutputPath(q) <==> p.PhotoId() == q.PhotoId() && p.IsVideo() == q.IsVideo()
  {
    var ep, eq := (if p.IsVideo() then ".mp4" else ".jpg"), (if q.IsVideo() then ".mp4" else ".jpg");
    var a, b := p.PhotoId() + ep, q.PhotoId() + eq;
    DownloadPathInjective(a, b);
    if OutputPath(p) == OutputPath(q) {
      assert a[|a| - 4..] == ep && b[|b| - 4..] == eq;
      assert ".mp4"[1] != ".jpg"[1];
      assert a[..|a| - 4] == p.PhotoId() && b[..|b| - 4] == q.PhotoId();
    }
  }

  /** The outcome of `process_photo`: download the original to
      `<id>.jpg`, read the container of whatever file is now there, write
      the metadata into it and save it. */
  ghost predicate PhotoStep(p: Photo, web: Web, fs: FileSystem, fs': FileSystem, err: Option<Failure>) {
    var path := DownloadPath(p.PhotoId() + ".jpg");
    match p.OriginalUrl()
    case None => err == Some(MissingOriginalUrl(p.PhotoId())) && fs' == fs
    case Some(url) =>
      if url !in web then err == Some(NoResponse(url)) && fs' == fs
      else
        var fetched := AfterDownload(web[url], path, fs);
        if path !in fetched then err == Some(MetadataUnreadable(path)) && fs' == fs
        else
          && err == None
          && path in fs'
          && fs' == fetched[path := File(fetched[path].payload, fs'[path].meta)]
          && EmbedsInto(p, fetched[path].meta, fs'[path].meta)
  }

  /** The outcome of `process_video`: look up the sizes, and download the
      source of the first `HD MP4` size to `<id>.mp4` if there is one. */
  ghost predicate VideoStep(p: Photo, sizes: SizesService, web: Web, fs: FileSystem, fs': FileSystem, err: Option<Failure>) {
    var id := p.PhotoId();
    if id !in sizes then err == Some(SizesFailed(id)) && fs' == fs
    else
      var hd := HdSources(sizes[id]);
      if hd == [] then err == None && fs' == fs
      else Downloaded(web, hd[0], DownloadPath(id + ".mp4"), fs, fs', err)
  }

  /** The outcome of `process`. */
  ghost predicate Step(p: Photo, sizes: SizesService, web: Web, fs: FileSystem, fs': FileSystem, err: Option<Failure>) {
    if p.IsVideo() then VideoStep(p, sizes, web, fs, fs', err) else PhotoStep(p, web, fs, fs', err)
  }

  method ProcessPhoto(p: Photo, web: Web, fs: FileSystem) returns (fs': FileSystem, err: Option<Failure>)
    ensures PhotoStep(p, web, fs, fs', err)
  {
    if p.OriginalUrl().None? {
      return fs, Some(MissingOriginalUrl(p.PhotoId()));
    }
    var filename := p.PhotoId() + ".jpg";
    var path;
    path, fs', err := DownloadFile(web, p.OriginalUrl().value, filename, fs);
    if err.Some? {
      return;
    }
    if path !in fs' {
      return fs, Some(MetadataUnreadable(path));
    }
    var md := EmbedMetadata(p, fs'[path].meta);
    fs' := fs'[path := File(fs'[path].payload, md)];
  }

  method ProcessVideo(p: Photo, sizes: SizesService, web: Web, fs: FileSystem) returns (fs': FileSystem, err: Option<Failure>)
    ensures VideoStep(p, sizes, web, fs, fs', err)
  {
    if p.PhotoId() !in sizes {
      return fs, Some(SizesFailed(p.PhotoId()));
    }
    var hd := HdSources(sizes[p.PhotoId()]);
    if hd != [] {
      var filename := p.PhotoId() + ".mp4";
      var path;
      path, fs', err := DownloadFile(web, hd[0], filename, fs);
    } else {
      fs', err := fs, None;
    }
  }

  method Process(p: Photo, sizes: SizesService, web: Web, fs: FileSystem) returns (fs': FileSystem, err: Option<Failure>)
    ensures Step(p, sizes, web, fs, fs', err)
  {
    if p.IsVideo() {
      fs', err := ProcessVideo(p, sizes, web, fs);
    } else {
      fs', err := ProcessPhoto(p, web, fs);
    }
  }

  /** Processing a record changes at most the file it is saved to. */
  lemma {:induction false} StepWritesOnlyOutput(p: Photo, sizes: SizesService, web: Web, fs: FileSystem, fs': FileSystem, err: Option<Failure>)
    requires Step(p, sizes, web, fs, fs', err)
    ensures Untouched(fs, fs', {OutputPath(p)})
  {
    if !p.IsVideo() && p.OriginalUrl().Some? && p.OriginalUrl().value in web {
      var path := OutputPath(p);
      var fetched := AfterDownload(web[p.OriginalUrl().value], path, fs);
      assert Untouched(fs, fetched, {path});
    }
  }

  /** A record whose processing fails leaves the file system as it was:
      each failure comes before anything is written. */
  lemma {:induction false} FailedStepWritesNothing(p: Photo, sizes: SizesService, web: Web, fs: FileSystem, fs': FileSystem, err: Option<Failure>)
    requires Step(p, sizes, web, fs, fs', err) && err.Some?
    ensures fs' == fs
  {
  }

  /** A photo whose processing succeeds is on disk under `<id>.jpg`, with
      its metadata embedded; a photo that ends up with no such file makes
      the run fail. */
  lemma {:induction false} PhotoStepResult(p: Photo, web: Web, fs: FileSystem, fs': FileSystem, err: Option<Failure>)
    requires PhotoStep(p, web, fs, fs', err) && !p.IsVideo()
    ensures err.None? ==> OutputPath(p) in fs' && exists md :: EmbedsInto(p, md, fs'[OutputPath(p)].meta)
    ensures err.None? <==>
      && p.OriginalUrl().Some? && p.OriginalUrl().value in web
      && (web[p.OriginalUrl().value].status == 200 || DownloadPath(p.PhotoId() + ".jpg") in fs)
  {
  }
}
