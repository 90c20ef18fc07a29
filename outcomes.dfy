/** Outcome types shared by every variant: an optional value, the reasons a generation
    request stops, and the result of a step that either yields a value or stops. */
module Outcomes {

  datatype Option<T> = None | Some(value: T)

  /** Why a request stops without producing its video or page. */
  datatype Failure =
    | InvalidSurah                 // chapter field is not an integer in 1..114 (HTTP 400)
    | InvalidReciter               // reciter is not on the whitelist (HTTP 400)
    | InvalidBackground            // background is not on the whitelist (HTTP 400)
    | SurahNotFound                // a verse list for the chapter is missing or empty
    | FileNotFound(name: string)   // a named JSON, audio or background file is absent
    | AudioNotFound                // no entry of the reciter's folder matched the chapter
    | NotListed                    // a file route's name is not on its whitelist (HTTP 404)
    | UnknownSurahName             // a chapter name with no entry in the name table
    | NoSuchChapter                // no chapter record carries the selected id
    | MalformedNumber              // Python int() raised ValueError
    | MissingKey                   // a dict lookup raised KeyError
    | IndexOutOfRange              // a list index raised IndexError
    | ZeroDivision                 // a division or floor division by zero
    | DownloadFailed(url: string)  // a per-verse fetch answered with a status other than 200

  datatype Result<T> = Ok(value: T) | Err(failure: Failure)

  /** The status a Flask variant answers with: a failed validation is a 400, a missing
      file or chapter a 404, and an exception that escapes the handler a 500. */
  function HttpStatus(f: Failure): int
  {
    match f
    case InvalidSurah | InvalidReciter | InvalidBackground => 400
    case SurahNotFound | FileNotFound(_) | AudioNotFound | NotListed => 404
    case _ => 500
  }

  function Min(a: int, b: int): int { if a <= b then a else b }
  function Max(a: int, b: int): int { if a >= b then a else b }
}
