/** The local file system, the HTTP transport and `download_file`. */
module Storage {
  import opened Failures
  import opened Exif

  type Bytes = seq<bv8>

  /** An image file as the metadata library sees it: the image payload and
      the metadata container embedded in it. */
  datatype File = File(payload: Bytes, meta: Metadata)

  type FileSystem = map<string, File>

  /** The answer to `requests.get(url)`: the status code and the body,
      given as the file it becomes once written to disk. */
  datatype Response = Response(status: int, body: File)

  /** The web as the script sees it: a URL absent from the map is one for
      which `requests.get` raises. */
  type Web = map<string, Response>

  /** `os.path.join(a, b)` on POSIX paths: an absolute `b` replaces `a`;
      otherwise `b` follows `a`, with one `/` added unless `a` is empty or
      already ends in one. */
  function PathJoin(a: string, b: string): string {
    if |b| > 0 && b[0] == '/' then b
    else if a == [] || a[|a| - 1] == '/' then a + b
    else a + "/" + b
  }

  /** The joined path ends with `b`; it is `b` itself when `b` is
      absolute, and otherwise starts with `a`. */
  lemma {:induction false} PathJoinParts(a: string, b: string)
    ensures |b| > 0 && b[0] == '/' ==> PathJoin(a, b) == b
    ensures (b == [] || b[0] != '/') ==> |a| <= |PathJoin(a, b)| && PathJoin(a, b)[..|a|] == a
    ensures |b| <= |PathJoin(a, b)| && PathJoin(a, b)[|PathJoin(a, b)| - |b|..] == b
  {
    var path := PathJoin(a, b);
    if !(|b| > 0 && b[0] == '/') && !(a == [] || a[|a| - 1] == '/') {
      assert path == a + ("/" + b);
    }
  }

  /** Where `download_file` puts a file of the given name. */
  function DownloadPath(filename: string): (path: string)
    ensures (filename == [] || filename[0] != '/') ==> path == "downloads/" + filename
    ensures |filename| > 0 && filename[0] == '/' ==> path == filename
  {
    PathJoin("downloads", filename)
  }

  /** Different file names are saved to different paths. */
  lemma {:induction false} DownloadPathInjective(f: string, g: string)
    ensures DownloadPath(f) == DownloadPath(g) <==> f == g
  {
    var pf, pg := DownloadPath(f), DownloadPath(g);
    var dir := "downloads/";
    if pf == pg {
      var fAbs, gAbs := |f| > 0 && f[0] == '/', |g| > 0 && g[0] == '/';
      if !fAbs && !gAbs {
        assert f == pf[|dir|..];
      }
    }
  }

  /** Two file systems agree on every path outside `written`. */
  ghost predicate Untouched(before: FileSystem, after: FileSystem, written: set<string>) {
    forall q :: q !in written ==> (q in before <==> q in after) && (q in before ==> before[q] == after[q])
  }

  /** The file system after a response was streamed to `path`: only a
      status of 200 writes, and nothing but `path` changes. */
  function AfterDownload(r: Response, path: string, fs: FileSystem): (fs': FileSystem)
    ensures r.status == 200 ==> path in fs' && fs'[path] == r.body
    ensures r.status != 200 ==> fs' == fs
    ensures fs'.Keys == fs.Keys + (if r.status == 200 then {path} else {})
    ensures Untouched(fs, fs', {path})
  {
    if r.status == 200 then fs[path := r.body] else fs
  }

  /** The outcome of `download_file(url, filename)` writing to `path`. */
  ghost predicate Downloaded(web: Web, url: string, path: string, fs: FileSystem, fs': FileSystem, err: Option<Failure>) {
    if url in web then err == None && fs' == AfterDownload(web[url], path, fs)
    else err == Some(NoResponse(url)) && fs' == fs
  }

  /** `download_file`: the returned path is always `downloads/<filename>`,
      and the body is written there only when the status is 200. */
  method DownloadFile(web: Web, url: string, filename: string, fs: FileSystem)
    returns (path: string, fs': FileSystem, err: Option<Failure>)
    ensures path == DownloadPath(filename)
    ensures Downloaded(web, url, path, fs, fs', err)
    ensures Untouched(fs, fs', {path})
  {
    path := DownloadPath(filename);
    if url !in web {
      return path, fs, Some(NoResponse(url));
    }
    var r := web[url];
    fs', err := fs, None;
    if r.status == 200 {
      fs' := fs'[path := r.body];
    }
  }
}
