/** Option and Result, the two failure-carrying values the model passes around. */
module Wrappers {

  datatype Option<+T> = None | Some(value: T) {
    /** The value, or `default` when there is none (JavaScript's `x ?? default`). */
    function GetOr(default: T): T {
      match this
      case Some(v) => v
      case None => default
    }
  }

  /** A computation that either produced a value or threw. */
  datatype Result<+R, +E> = Success(value: R) | Failure(error: E)
}

/** The errors the build can throw while it walks the icon catalogue. */
module BuildErrors {

  datatype BuildError =
    /** `iconSlug.at(0)` is undefined for an empty slug, so `.toUpperCase()` throws a TypeError. */
    | EmptySlug
    /** `String.fromCodePoint` throws a RangeError above U+10FFFF. */
    | CodePointOutOfRange(codePoint: int)
    /** "Unicodes must be unique. Found '<unicode>' repeated". */
    | DuplicateUnicode(unicode: string)
    /** "Invalid style: <style>". */
    | InvalidStyle(style: string)
    /**
     * `unicodeHexBySlug` is an array, so assigning an object to its `length`
     * property throws a RangeError (invalid array length).
     */
    | InvalidArrayLength
}
