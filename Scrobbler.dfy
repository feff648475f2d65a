/** The track record shared by the media monitor and the scrobbling services (src/scrobbler.rs).
    The services themselves wrap foreign HTTP clients and are not part of this model. */
module Scrobbler {
  import opened Wrappers

  /** A music track. Its equality, like the derived `PartialEq`, compares all four fields. */
  datatype Track = Track(title: string, artist: string, album: Option<string>, duration: Option<nat>)
}
