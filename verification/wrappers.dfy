/** Failure-carrying result types shared by the profit/loss model. */
module Wrappers {

  /** A value that may be absent, such as a price lookup that finds no row. */
  datatype Option<+T> = None | Some(value: T)

  /** Either a computed value or the reason the computation stopped. */
  datatype Result<+R, +E> = Success(value: R) | Failure(error: E)

  /** Why a price-based metric could not be computed. */
  datatype PriceError =
    | EmptySeries            // a price series with no rows was indexed
    | NoPriceBefore(date: int)  // no series row is dated on or before `date`
    | ZeroPrice(date: int)      // the price used as a divisor for `date` is zero
}
