# flickr-backup, modelled in Dafny

`backup.py` backs up a Flickr account. It walks the account's photo listing page by page. For each record it does one of two things:

- For a video, it downloads the `HD MP4` size.
- For a photo, it downloads the original and writes tags, title, description and GPS position into the image's metadata container.

At the end it dumps the listing as a JSON manifest. This project models the decision logic and arithmetic of that script. The Flickr API, HTTP and the EXIF library are abstracted as values:

- **The listing** is a sequence of page responses. A request past its end fails.
- **`getSizes`** is a map from photo id to size list. A missing id fails.
- **The web** is a map from URL to response (status and body). A missing URL fails.
- **The disk** is a map from path to file. A file is a payload plus the metadata container embedded in it. The container is a map from key to value.

The script catches no exception, so every collaborator failure ends the run. The model returns such a failure as `Option<Failure>`, and the run stops at it.

Modules:

| file | module | models |
|---|---|---|
| geo.dfy | `Geo` | `decdeg2dms` and `abs_geo_coord` over exact reals: `divmod` floors, `int()` truncates toward zero |
| words.dfy | `Words` | Python's `str.split()` with no argument, using the full `str.isspace` character set |
| failures.dfy | `Failures` | the ways a run can end early |
| exif.dfy | `Exif` | metadata values and the keys the script writes |
| media.dfy | `Media` | raw records, the `Photo` accessors, sizes and the `HD MP4` choice, page responses |
| storage.dfy | `Storage` | `os.path.join`, `download_file` and its status-200 guard |
| embed.dfy | `Embed` | the key-by-key metadata update of `process_photo` |
| pipeline.dfy | `Pipeline` | `process_photo`, `process_video` and `process` as state steps on the disk |
| paging.dfy | `Paging` | the top-level page loop, the manifest and the order of events |

Behaviour worth noting:

- **Page cap.** The loop stops after page 2 even when the listing reports more pages (backup.py:149-150).
- **No empty-page stop.** An empty page does not stop the loop.
- **Manifest shape.** The manifest is a list of pages, each that page's record list. It is not a flat list of records (backup.py:144).
- **Failed metadata read.** If a photo's download does not return status 200 and no older file is on disk, the metadata read raises and the run ends; the script does not catch it (backup.py:101-102).

## Model

| member | source | states |
|---|---|---|
| Geo.DivMod60 | backup.py:20-21 | `divmod(x, 60)` gives an integral quotient `q` and a remainder `r` with `0 <= r < 60` and `60q + r == x`; the quotient is non-negative for `x >= 0` |
| Geo.DecDeg2Dms | backup.py:18-22 | `deg*3600 + mnt*60 + sec == dd*3600` exactly; `0 <= mnt < 60` and `0 <= sec < 60`; deg and mnt are whole numbers; for `dd >= 0`, `0 <= deg <= dd` |
| Geo.Trunc | backup.py:27 | `int(x)` truncates toward zero: for `x >= 0` the result is the floor, for negative `x` the ceiling |
| Geo.Abs | backup.py:28 | `abs(x)` is non-negative and equals `x` or `-x` |
| Geo.AbsGeoCoord | backup.py:25-29 | exactly three fractions, each with denominator 1 and a non-negative numerator; minutes and seconds are below 60; the numerators are the fields of `decdeg2dms(abs(x))`, with the seconds truncated |
| Geo.AbsGeoCoordIgnoresSign | backup.py:25-29 | `abs_geo_coord(-x) == abs_geo_coord(x)` |
| Geo.AbsGeoCoordTruncates | backup.py:25-29 | the triple stands for the number of whole seconds of arc in `abs(x)`, truncated: at most `abs(x)*3600` and more than `abs(x)*3600 - 1` |
| Geo.AbsGeoCoordExact | backup.py:25-29 | a coordinate that is a whole number of seconds of arc is recovered exactly from the triple |
| Words.SplitWords | backup.py:57-58 | every element of `s.split()` is non-empty and free of whitespace |
| Words.SplitKeepsVisible | backup.py:57-58 | the words, concatenated, are exactly the non-whitespace characters of `s`, in order: no character is lost, duplicated or reordered |
| Words.SplitEmpty | backup.py:57-58 | `s.split()` is empty exactly when `s` is empty or all whitespace |
| Words.SplitJoin | backup.py:57-58 | splitting inverts joining with single spaces: `' '.join(ws).split() == ws` when every element is a word |
| Words.SplitSeparates | backup.py:57-58 | the words are maximal runs: `s` is the words interleaved with whitespace-only gaps, the gaps between two words non-empty, so no two words of `s.split()` touch in `s` |
| Media.Photo.Title | backup.py:48-50 | the `title` property is the record's `title` field |
| Media.Photo.Description | backup.py:52-54 | the `description` property is the `_content` of the record's `description` field |
| Media.Photo.Latitude | backup.py:60-62 | the `latitude` property is the record's `latitude` value |
| Media.Photo.Longitude | backup.py:64-66 | the `longitude` property is the record's `longitude` value |
| Media.Photo.PhotoId | backup.py:68-70 | the `photo_id` property is the record's `id` field |
| Media.Photo.OriginalUrl | backup.py:72-74 | `original_url` is present exactly when the record has `url_o`, and is then that field |
| Media.Photo.Tags | backup.py:56-58 | the `tags` property is a list of whitespace-free, non-empty words |
| Media.Photo.IsVideo | backup.py:76-78 | a record is a video exactly when its `media` field is `"video"` |
| Media.HdSources | backup.py:85 | the HD list has at most as many entries as the size list, and is empty exactly when no size is labelled `HD MP4` |
| Media.FirstHdSource | backup.py:84-87 | when the HD list is not empty, its first entry is the source of the first size labelled `HD MP4` |
| Storage.PathJoinParts | backup.py:33 | `os.path.join(a, b)` is `b` when `b` is absolute; otherwise it starts with `a`; either way it ends with `b` |
| Storage.DownloadPathInjective | backup.py:33 | two file names give the same download path exactly when they are equal |
| Storage.DownloadPath | backup.py:33 | a plain file name `f` goes to `downloads/f`; an absolute one replaces the directory, as `os.path.join` does |
| Storage.AfterDownload | backup.py:35-39 | status 200 writes the body at the path; any other status changes nothing; no other path is touched |
| Storage.DownloadFile | backup.py:32-41 | always returns `downloads/<filename>`; writes there only on status 200; a URL the web does not answer is a failure that writes nothing |
| Embed.HasGeo | backup.py:107 | a photo counts as geotagged unless both latitude and longitude are zero |
| Embed.WrittenKeys | backup.py:103-111 | the four descriptive keys are always written; the four GPS keys are all written exactly when latitude or longitude is non-zero, and otherwise none of them is; no other key is written |
| Embed.EmbedMetadata | backup.py:101-112 | the container afterwards has the old keys plus the written ones; the keywords are the photo's tags, the title is its title, and both description keys hold its description; a geotagged photo gets `abs_geo_coord` of each coordinate and the hemisphere letters; every other key is unchanged |
| Embed.EmbedsIntoUnique | backup.py:101-112 | the photo and the old container determine the new container |
| Embed.EmbedIdempotent | backup.py:101-112 | embedding the same photo into an already embedded container changes nothing |
| Embed.GpsKeysOnlyWithPosition | backup.py:105-111 | the two description keys agree; a geotagged photo gets all GPS keys; without a position every GPS key keeps its presence and value |
| Embed.HemisphereReferences | backup.py:107-111 | the reference is `N` exactly when latitude > 0 and `S` otherwise, including 0; likewise `E` or `W` for longitude |
| Pipeline.ProcessPhoto | backup.py:95-112 | a record without `url_o` fails and writes nothing; so does a URL the web does not answer; the download guard applies; a failed metadata read (no file at `downloads/<id>.jpg`) ends the run; otherwise the file there keeps its payload and gets the embedded metadata |
| Pipeline.ProcessVideo | backup.py:80-93 | an id that `getSizes` does not answer fails; without an `HD MP4` size nothing is written; otherwise the first HD source is downloaded to `downloads/<id>.mp4` |
| Pipeline.Process | backup.py:114-118 | a record with `media == "video"` takes the video step, and every other record the photo step |
| Pipeline.OutputPath | backup.py:90-97 | the file a record writes: `downloads/<id>.mp4` for a video, `downloads/<id>.jpg` otherwise |
| Pipeline.OutputPathInjective | backup.py:90-97 | two records share an output file exactly when they have the same id and are both videos or both not |
| Pipeline.StepWritesOnlyOutput | backup.py:90-99 | processing a record changes at most its own file: `<id>.mp4` for a video, `<id>.jpg` otherwise |
| Pipeline.FailedStepWritesNothing | backup.py:80-118 | each failure happens before anything is written, so a failed step leaves the disk as it was |
| Pipeline.PhotoStepResult | backup.py:95-112 | a photo succeeds exactly when it has `url_o`, the web answers that URL, and either the status is 200 or an older `<id>.jpg` is on disk; on success that file holds the embedded metadata |
| Paging.ScheduleOrder | backup.py:130-144 | a run that fetched n pages requested pages 1, 2, …, n in order, and processed the manifest's records in manifest order, each once |
| Paging.RanWritesOnlyOutputs | backup.py:141-142 | processing a sequence of records writes no file other than theirs |
| Paging.RecordFails | backup.py:141-142 | a failing record of a page leaves the disk as it was, after the records before it completed |
| Paging.RecordCompletes | backup.py:141-142 | a completing record extends the processed prefix of the page by one, on the disk the previous record left |
| Paging.ProcessPage | backup.py:141-142 | the records of a page are processed in order, each on the disk the previous one left; on a failure the failing record is the next unprocessed one and wrote nothing; otherwise every record was processed |
| Paging.ListingEnds | backup.py:130-138 | at the top of the loop, a request for the page after the last one of the listing fails and ends the run, with the request as its last event |
| Paging.PageFails | backup.py:140-142 | a record of the current page that fails ends the run; the records of the page before it were processed, and they are the last events |
| Paging.Stops | backup.py:146-150 | after the answer for page 2 the loop always stops; after any other page, it stops exactly when the answer reports `page == pages` |
| Paging.PageCompletes | backup.py:140-150 | once every record of a page is processed, the page's record list joins the manifest; the run ends if the page reports `page == pages` or is page 2, and otherwise goes on to the next page |
| Paging.FetchPage | backup.py:130-150 | one pass of the loop: from a state where the earlier pages were requested and processed in order and none stopped the loop, it either ends the run in a state `Run` promises, or grows the manifest by exactly one page and keeps looping |
| Paging.Run | backup.py:128-150 | manifest entry i is page i+1's record list, at most 2 entries; no earlier page stopped the loop; a completed run ends at a page reporting `page == pages` or at page 2, with events in schedule order; a failed run names the listing request past the end or the first failing record of the current page; the disk passes through the steps of exactly the processed records, so by `Paging.RanWritesOnlyOutputs` no other file changes |

## Left out

- **Remote calls.** The listing request parameters, JSON parsing and the API keys read from the environment (backup.py:11-15, 132-138, 81-83) are left out. The listing and `getSizes` are given as values.
- **Coordinate parsing.** `float(...)` of the coordinate strings and float rounding in `divmod` are not modelled. Coordinates are reals.
- **Geo.DivMod60:** covers only the divisor 60 that the script uses.
- **Disk writes.** `downloads/` is assumed to exist and be writable. A failing `open` (backup.py:37) or `metadata.write()` (backup.py:112) is not modelled, and neither is a file left partly written by one.
- **Streaming.** Chunked download streaming (backup.py:37-39) is not modelled. A response's body is written whole.
- **Extra request.** The second, unused `requests.get(hd[0])` (backup.py:88) fails on the same URLs as the download that follows, so it adds no outcome and is not modelled separately.
- **Deterministic web.** The web answers each URL the same way every time. Transient network behaviour is not modelled.
- **Metadata container.** Parsing and serialising the container (pyexiv2) is abstracted. A downloaded body is given as the file it becomes. Parse failures of a present file are not modelled. Only reading a missing file is modelled, as a failure.
- **Missing fields.** Missing record fields other than `url_o` (a KeyError in the other accessors) are not modelled. The raw record type always has them.
- **Manifest output.** Writing `downloads/metadata.json` (backup.py:152-154) is not modelled. The model returns the manifest it would contain.
- **Logging.** `print` logging is not modelled.
- **Embed.EmbedMetadata:** `Iptc.Application2.Keywords` is modelled as a list of strings. The library's IPTC value conversion is not modelled.
