/** The allow-list of download formats and the defaulting of an unknown one. */
module Formats {

  /** The formats the upstream accepts, in the order the service lists them. */
  const FORMATS: seq<string> := ["mp3hd", "mp4", "mp3", "mp4hd", "mp42k", "m4a", "wav", "3gp", "flv"]

  /** What an unrecognised format is silently replaced with. */
  const DEFAULT_FORMAT: string := "mp4"

  /** `if format not in FORMATS: format = "mp4"` */
  function Normalize(format: string): (f: string)
    ensures f in FORMATS
    ensures format in FORMATS ==> f == format
    ensures format !in FORMATS ==> f == DEFAULT_FORMAT
  {
    if format in FORMATS then format else DEFAULT_FORMAT
  }

  /** A format is left alone exactly when it is on the list. */
  lemma NormalizeFixesExactlyFormats(format: string)
    ensures Normalize(format) == format <==> format in FORMATS
  {
  }

  lemma NormalizeIdempotent(format: string)
    ensures Normalize(Normalize(format)) == Normalize(format)
  {
  }
}
