/** The result shapes the modules share. */
module Wrappers {
  datatype Option<+T> = None | Some(value: T)

  /** The first n elements, or all if there are fewer: what a write that is cut short leaves. */
  function Cut<T>(s: seq<T>, n: nat): seq<T> {
    if n <= |s| then s[..n] else s
  }

  /** What becomes of a write: it is made and acknowledged, made although an error is returned, or not made. */
  datatype Fate = Acknowledged | Unacknowledged | NotMade
}
