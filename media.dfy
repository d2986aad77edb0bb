/** The records the photo service returns: one listed photo or video, the
    typed `Photo` view over it, the size variants of a video and one page
    of the listing. */
module Media {
  import opened Failures
  import opened Words

  /** The `description` object of a record, `{"_content": ...}`. */
  datatype Description = Description(content: string)

  /** One raw record of the listing, with the fields the backup reads.
      `url_o` may be absent; the coordinates are the parsed `latitude` and
      `longitude` strings. */
  datatype RawPhoto = RawPhoto(
    id: string,
    title: string,
    description: Description,
    tags: string,
    latitude: real,
    longitude: real,
    media: string,
    urlO: Option<string>)

  /** The `Photo` class: read-only typed accessors over a raw record. */
  datatype Photo = Photo(data: RawPhoto) {

    /** `self._data['title']`. */
    function Title(): (title: string)
      ensures title == data.title
    {
      data.title
    }

    /** The `_content` of the record's description object. */
    function Description(): (text: string)
      ensures text == data.description.content
    {
      data.description.content
    }

    /** The whitespace-separated tags, in the order they appear. */
    function Tags(): (tags: seq<string>)
      ensures forall i :: 0 <= i < |tags| ==> IsWord(tags[i])
    {
      SplitWords(data.tags);
      Split(data.tags)
    }

    /** `float(self._data['latitude'])`; the parse itself is abstracted. */
    function Latitude(): (lat: real)
      ensures lat == data.latitude
    {
      data.latitude
    }

    /** `float(self._data['longitude'])`; the parse itself is abstracted. */
    function Longitude(): (lon: real)
      ensures lon == data.longitude
    {
      data.longitude
    }

    function PhotoId(): (id: string)
      ensures id == data.id
    {
      data.id
    }

    /** `self._data['url_o']`: `None` stands for the missing key, on which
        the accessor raises. */
    function OriginalUrl(): (url: Option<string>)
      ensures url.Some? <==> data.urlO.Some?
      ensures url.Some? ==> url.value == data.urlO.value
    {
      data.urlO
    }

    /** Only the exact media string `video` selects the video step; any
        other value, `photo` or a differently cased `Video` alike, is a
        photo. */
    function IsVideo(): (video: bool)
      ensures video <==> data.media == "video"
    {
      data.media == "video"
    }
  }

  /** One entry of `sizes.size` in the answer to `getSizes`. */
  datatype Size = Size(sizeLabel: string, source: string)

  const HdLabel := "HD MP4"

  /** The sources of the sizes labelled `HD MP4`, in order. */
  function HdSources(sizes: seq<Size>): (sources: seq<string>)
    ensures |sources| <= |sizes|
    ensures sources == [] <==> forall i :: 0 <= i < |sizes| ==> sizes[i].sizeLabel != HdLabel
  {
    if sizes == [] then []
    else
      var last := sizes[|sizes| - 1];
      HdSources(sizes[..|sizes| - 1]) + (if last.sizeLabel == HdLabel then [last.source] else [])
  }

  /** The first HD source is that of the first size labelled `HD MP4`. */
  lemma {:induction false} FirstHdSource(sizes: seq<Size>)
    ensures HdSources(sizes) != [] ==>
      exists i :: 0 <= i < |sizes| && sizes[i].sizeLabel == HdLabel
        && HdSources(sizes)[0] == sizes[i].source
        && forall j :: 0 <= j < i ==> sizes[j].sizeLabel != HdLabel
  {
    if sizes != [] {
      var n := |sizes| - 1;
      var init, last := sizes[..n], sizes[n];
      FirstHdSource(init);
      assert forall i :: 0 <= i < n ==> init[i] == sizes[i];
      if HdSources(init) != [] {
        var i :| 0 <= i < n && init[i].sizeLabel == HdLabel
          && HdSources(init)[0] == init[i].source
          && forall j :: 0 <= j < i ==> init[j].sizeLabel != HdLabel;
        assert HdSources(sizes)[0] == sizes[i].source;
      } else if last.sizeLabel == HdLabel {
        assert HdSources(sizes)[0] == sizes[n].source;
      }
    }
  }

  /** One answer of `people.getPhotos`: the records of the page and the
      page number and page count the service reports. */
  datatype PageResponse = PageResponse(photos: seq<RawPhoto>, page: int, pages: int)
}
