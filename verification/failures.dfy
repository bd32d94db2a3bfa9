/**
 * Typed failures. The catalog reports its three checked exceptions
 * (NoAlbumFoundException, NoPlayListFoundException, NoElementFoundException)
 * as values instead of throwing them.
 */
module Failures {

  datatype Result<+T, +E> = Ok(value: T) | Err(error: E)

  /** Why an element could not be delivered; all three share NoElementFoundException
      in the source and differ only in the exception message. */
  datatype ElementCause =
    | UnknownTitle   // "Element <title> not found!"
    | UnknownId      // "Element (ID) <id> not found!"
    | NotASong       // "... exists, but is not a song"

  datatype HubError =
    | NoAlbumFound
    | NoPlayListFound
    | NoElementFound(cause: ElementCause)
}
