/**
 Times as integer milliseconds.
 */
module Dates {

  const DAY_MS: int := 86_400_000

  /** The largest time a JavaScript `Date` can hold. */
  const MAX_DATE: int := 8_640_000_000_000_000
}
