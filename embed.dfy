/** The metadata `process_photo` embeds into a downloaded photo: tags,
    title, description and, for a geotagged photo, the GPS position. */
module Embed {
  import opened Geo
  import opened Exif
  import opened Media

  /** `self.latitude or self.longitude`: a float is false exactly when it
      is zero, so the script treats the pair (0, 0), and only it, as "no
      position". */
  function HasGeo(p: Photo): (geo: bool)
    ensures !geo <==> p.Latitude() == 0.0 && p.Longitude() == 0.0
  {
    p.Latitude() != 0.0 || p.Longitude() != 0.0
  }

  /** The keys `process_photo` assigns. */
  function WrittenKeys(p: Photo): (keys: set<string>)
    ensures DescriptiveKeys <= keys <= DescriptiveKeys + GpsKeys
    ensures GpsKeys <= keys <==> HasGeo(p)
    ensures GpsKeys !! keys <==> !HasGeo(p)
  {
    DescriptiveKeys + (if HasGeo(p) then GpsKeys else {})
  }

  /** `r` is the container `md` after the photo's metadata was written
      into it: the written keys hold the photo's values, and every other
      key keeps its old value. */
  ghost predicate EmbedsInto(p: Photo, md: Metadata, r: Metadata) {
    && r.Keys == md.Keys + WrittenKeys(p)
    && (forall k :: k in md && k !in WrittenKeys(p) ==> r[k] == md[k])
    && r[KeyKeywords] == TextList(p.Tags())
    && r[KeyTitle] == Text(p.Title())
    && r[KeyDescription] == Text(p.Description())
    && r[KeyImageDescription] == Text(p.Description())
    && (HasGeo(p) ==>
          && r[KeyGpsLatitude] == Rationals(AbsGeoCoord(p.Latitude()))
          && r[KeyGpsLatitudeRef] == Text(if p.Latitude() > 0.0 then "N" else "S")
          && r[KeyGpsLongitude] == Rationals(AbsGeoCoord(p.Longitude()))
          && r[KeyGpsLongitudeRef] == Text(if p.Longitude() > 0.0 then "E" else "W"))
  }

  /** The key-by-key assignments of `process_photo` on the container read
      from the downloaded file. */
  method EmbedMetadata(p: Photo, md: Metadata) returns (r: Metadata)
    ensures EmbedsInto(p, md, r)
  {
    KeysDistinct();
    r := md;
    r := r[KeyKeywords := TextList(p.Tags())];
    r := r[KeyTitle := Text(p.Title())];
    r := r[KeyDescription := Text(p.Description())];
    r := r[KeyImageDescription := Text(p.Description())];
    if p.Latitude() != 0.0 || p.Longitude() != 0.0 {
      r := r[KeyGpsLatitude := Rationals(AbsGeoCoord(p.Latitude()))];
      r := r[KeyGpsLatitudeRef := Text(if p.Latitude() > 0.0 then "N" else "S")];
      r := r[KeyGpsLongitude := Rationals(AbsGeoCoord(p.Longitude()))];
      r := r[KeyGpsLongitudeRef := Text(if p.Longitude() > 0.0 then "E" else "W")];
    }
  }

  /** The container after embedding is determined by the photo and the
      container before. */
  lemma {:induction false} EmbedsIntoUnique(p: Photo, md: Metadata, r1: Metadata, r2: Metadata)
    requires EmbedsInto(p, md, r1) && EmbedsInto(p, md, r2)
    ensures r1 == r2
  {
    forall k | k in r1
      ensures r1[k] == r2[k]
    {
      if k !in WrittenKeys(p) {
        assert r1[k] == md[k] == r2[k];
      } else if k !in DescriptiveKeys {
        assert k in GpsKeys;
      }
    }
  }

  /** Embedding the same photo into a container that already holds its
      metadata changes nothing: a second run leaves the file as it was. */
  lemma {:induction false} EmbedIdempotent(p: Photo, md: Metadata, r: Metadata)
    requires EmbedsInto(p, md, r)
    ensures EmbedsInto(p, r, r)
  {
  }

  /** Without a position no GPS key is touched; with one, all four are
      set, and the two descriptions hold the same text. */
  lemma {:induction false} GpsKeysOnlyWithPosition(p: Photo, md: Metadata, r: Metadata)
    requires EmbedsInto(p, md, r)
    ensures r[KeyDescription] == r[KeyImageDescription]
    ensures HasGeo(p) ==> GpsKeys <= r.Keys
    ensures !HasGeo(p) ==> forall k :: k in GpsKeys ==> (k in r <==> k in md) && (k in md ==> r[k] == md[k])
  {
  }

  /** The hemisphere references: north exactly for a positive latitude and
      east exactly for a positive longitude, so a zero coordinate of a
      geotagged photo is written as south or west. */
  lemma {:induction false} HemisphereReferences(p: Photo, md: Metadata, r: Metadata)
    requires EmbedsInto(p, md, r) && HasGeo(p)
    ensures r[KeyGpsLatitudeRef] == Text("N") <==> p.Latitude() > 0.0
    ensures r[KeyGpsLatitudeRef] == Text("S") <==> p.Latitude() <= 0.0
    ensures r[KeyGpsLongitudeRef] == Text("E") <==> p.Longitude() > 0.0
    ensures r[KeyGpsLongitudeRef] == Text("W") <==> p.Longitude() <= 0.0
  {
  }
}
