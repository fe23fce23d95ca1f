/** The one slice every list, page and column cut shares. */
module Sequences {

  /** Python's `s[:n]`: at most the first `n` elements. */
  function Take<T>(s: seq<T>, n: nat): seq<T> {
    if n < |s| then s[..n] else s
  }
}
