/** Optional RFC 3339 timestamps, as parsed from their trimmed text. */
module Timestamps {

  datatype Timestamp = Unset | Unreadable | At(t: int)
}
