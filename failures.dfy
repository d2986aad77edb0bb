/** Outcomes of the calls the backup script makes into its collaborators.
    The script catches no exception, so every failure listed here ends the
    whole run. */
module Failures {

  datatype Option<T> = None | Some(value: T)

  datatype Failure =
    | ListingFailed(page: int)        // `flickr.people.getPhotos` raised
    | SizesFailed(id: string)         // `flickr.photos.getSizes` raised
    | NoResponse(url: string)         // `requests.get` raised
    | MissingOriginalUrl(id: string)  // the record has no `url_o` key
    | MetadataUnreadable(path: string) // `pyexiv2` could not open the file
}
