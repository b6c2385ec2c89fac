/** Value types of the peer-review engine: identities, bounded integers,
    the three votable records, the initial configuration and the errors. */
module ReviewTypes {

  /** Largest value of a Rust `u16`. */
  const U16_MAX: nat := 0xFFFF

  /** Unsigned 16-bit integers: the reviewer count, the thresholds and every tally. */
  type U16 = x: nat | x <= 0xFFFF

  /** Unsigned 64-bit integers: asset collection identifiers. */
  type U64 = x: nat | x <= 0xFFFF_FFFF_FFFF_FFFF

  /** An account identifier supplied by the hosting ledger; only equality is used. */
  datatype Owner = Owner(id: nat)

  datatype Option<+T> = None | Some(value: T)

  /** The engine's own error kinds (storage and arithmetic errors are not modelled). */
  datatype StateError = InvalidReviewer | AlreadyReviewed | InvalidContent

  datatype Result<+T> = Ok(value: T) | Err(error: StateError)

  /** A reviewer record, accredited or pending. `voters` is the source's
      `reviewers` map of owners who voted on this record, kept as a set of keys. */
  datatype Reviewer = Reviewer(
    reviewer: Owner,
    resume: Option<string>,
    voters: set<Owner>,
    approved: U16,
    rejected: U16)

  /** A content submission, keyed by its content identifier `cid`. */
  datatype Content = Content(
    cid: string,
    voters: set<Owner>,
    approved: U16,
    rejected: U16)

  /** An asset (collection) submission, keyed by its collection identifier. */
  datatype Asset = Asset(
    voters: set<Owner>,
    approved: U16,
    rejected: U16)

  /** The six thresholds supplied when the application is created. */
  datatype InitialState = InitialState(
    contentApprovedThreshold: U16,
    contentRejectedThreshold: U16,
    assetApprovedThreshold: U16,
    assetRejectedThreshold: U16,
    reviewerApprovedThreshold: U16,
    reviewerRejectedThreshold: U16)

  function Min(a: nat, b: nat): (m: nat)
    ensures m <= a && m <= b && (m == a || m == b)
  {
    if a <= b then a else b
  }
}
