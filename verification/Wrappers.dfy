/** Failure-compatible datatypes shared by every component. */
module Wrappers {

  datatype Option<+T> = None | Some(value: T)

  /** The error kinds a store transaction can abort with. */
  datatype DbError =
    | Overflow
    | AccountingInvariant
    | AccountingNotReady
    | ContentMismatch
    | DirectMessageInvalid
    | MissingVoteProjection
    | InvalidVoteProjection

  /** An aborted transaction carries no new tables: everything it did is rolled back. */
  datatype Result<+T> = Ok(value: T) | Err(error: DbError)

  /** The largest value of the store's 64-bit counters. */
  const U64_MAX: nat := 0xFFFF_FFFF_FFFF_FFFF
}
