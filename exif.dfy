/** The embedded-metadata container of an image file, seen as a map from
    metadata key to value, and the keys the backup writes. */
module Exif {
  import opened Geo

  datatype Value =
    | Text(text: string)
    | TextList(items: seq<string>)
    | Rationals(fractions: seq<Fraction>)

  type Metadata = map<string, Value>

  const KeyKeywords := "Iptc.Application2.Keywords"
  const KeyTitle := "Xmp.dc.title"
  const KeyDescription := "Xmp.dc.description"
  const KeyImageDescription := "Exif.Image.ImageDescription"
  const KeyGpsLatitude := "Exif.GPSInfo.GPSLatitude"
  const KeyGpsLatitudeRef := "Exif.GPSInfo.GPSLatitudeRef"
  const KeyGpsLongitude := "Exif.GPSInfo.GPSLongitude"
  const KeyGpsLongitudeRef := "Exif.GPSInfo.GPSLongitudeRef"

  /** The keys written for every photo. */
  const DescriptiveKeys: set<string> := {KeyKeywords, KeyTitle, KeyDescription, KeyImageDescription}

  /** The keys written only for a geotagged photo. */
  const GpsKeys: set<string> := {KeyGpsLatitude, KeyGpsLatitudeRef, KeyGpsLongitude, KeyGpsLongitudeRef}

  /** The eight keys are different strings, and the two groups are
      disjoint. */
  lemma {:induction false} KeysDistinct()
    ensures KeyKeywords != KeyTitle && KeyKeywords != KeyDescription && KeyKeywords != KeyImageDescription
    ensures KeyTitle != KeyDescription && KeyTitle != KeyImageDescription && KeyDescription != KeyImageDescription
    ensures KeyGpsLatitude != KeyGpsLatitudeRef && KeyGpsLatitude != KeyGpsLongitude && KeyGpsLatitude != KeyGpsLongitudeRef
    ensures KeyGpsLatitudeRef != KeyGpsLongitude && KeyGpsLatitudeRef != KeyGpsLongitudeRef && KeyGpsLongitude != KeyGpsLongitudeRef
    ensures DescriptiveKeys !! GpsKeys
  {
    assert KeyImageDescription[5] != KeyGpsLatitudeRef[5];
  }
}
