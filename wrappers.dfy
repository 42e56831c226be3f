/** Optional values: a histogram side that was never assigned is absent,
    which is not the same thing as a side holding zero. */
module Wrappers {

  datatype Option<+T> = None | Some(value: T)

  /** Reads an absent count as zero, as every consumer of the histogram does. */
  function OrZero(c: Option<int>): int
  {
    match c
    case Some(v) => v
    case None => 0
  }
}
