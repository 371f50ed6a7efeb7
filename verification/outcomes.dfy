/** Failure-carrying wrappers and the error taxonomy shared by the corpus
    readers, the query readers and the four driver programs. */
module Outcomes {

  datatype Option<+T> = None | Some(value: T)

  datatype Result<+T> = Success(value: T) | Failure(error: Error)

  /** Every way the front ends abort. A C++ `throw` or an early `return 1`
      becomes one of these; the line numbers are 1-based physical lines. */
  datatype Error =
    /** A comma-separated corpus field did not start with a number. */
    | Unparseable(line: nat)
    /** A kept corpus record whose length differs from the first kept one. */
    | Inconsistent(line: nat, expected: nat, found: nat)
    /** The query file has no line at all. */
    | QueryFileEmpty
    /** A comma-separated query field did not start with a number. */
    | QueryUnparseable
    /** The query length differs from the corpus dimension. */
    | QueryDimension(expected: nat, found: nat)
    /** The query parsed to no values at all. */
    | QueryEmpty
    /** Deserialising the saved index failed. */
    | IndexLoadFailed
}
