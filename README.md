# Peer-review voting engine (res-peer `review` application)

This project models the `Review` state of the res-peer review application.
Accredited reviewers vote on three kinds of pending application: candidate
reviewers, content submissions and asset (collection) submissions. A vote
adds one to a tally. When the tally reaches the smaller of a threshold and
the number of accredited reviewers, the application resolves.

Files:

- `review_types.dfy` (module `ReviewTypes`): owners, the `u16`/`u64` ranges,
  the `Reviewer`, `Content` and `Asset` records, the initial configuration
  and the `StateError` kinds.
- `review_spec.dfy` (module `ReviewSpec`): every operation as a function from
  the state before the call to the state after it and the call's result.
  Each function's contract states the operation's outcome: every error case
  and its error, "state unchanged on error", which single map entry changes
  and how, and the quorum rule as `tally >= min(threshold, reviewer count)`.
- `review_properties.dfy` (module `ReviewProperties`): an invariant `Inv`.
  It is proved to hold at genesis and to be preserved by every operation.
  Induction over any sequence of calls then shows it holds in every
  reachable state. The lemmas after it spell out what the code, as written,
  does in every such state.
- `review.dfy` (module `ReviewEngine`): class `Review`, with the same fields
  as the Rust struct. Its methods update those fields in place, following
  the source step by step: validate, read one record, write it back with one
  tally incremented, read it again, compare. Each state-changing method and
  each validation method is proved to reach exactly the state, and return
  exactly the result, that its `ReviewSpec` function prescribes.
  `IsReviewer` has no `ReviewSpec` counterpart; its contract states directly
  that it returns true iff the owner is a key of the accredited map.

The model follows the code as written, including where it departs from what
its names suggest:

- `initialize` sets `reviewer_rejected_threshold` twice and never sets
  `reviewer_approved_threshold`, so, unless something outside these methods
  writes it, that threshold keeps its default 0.
  As a result, every accepted approval of a candidate accredits it at once
  (`ApprovalAlwaysPromotes`). Every accepted approval of content reports it
  approved (`ContentApprovalAlwaysReported`). A quorum of three approvals
  among three reviewers is therefore never needed.
- No vote adds its caster to the record's voter set. Reviewer records
  therefore never have voters (`Inv`), and `AlreadyReviewed` is never
  raised for them (`NeverAlreadyReviewed`). The same reviewer can reject a
  candidate repeatedly, and each rejection counts (`RepeatedRejectionCounted`).
- A rejection that resolves puts the candidate into the accredited map and
  increments the count, just as an approval does (`RejectionAccredits`).
  It does not extinguish the candidacy.
- Content and asset votes are compared against the reviewer thresholds.
  The four content and asset thresholds are stored but never read.
- Error kinds are the source's three: `InvalidReviewer` (not accredited,
  already accredited or applying, unknown candidate, unknown reviewer on
  resume update, unknown asset), `AlreadyReviewed` and `InvalidContent`.
- Validation accepts a vote on an unknown asset. The second lookup then
  fails with `InvalidReviewer`. No operation here submits an asset, so in
  every state reachable through these methods each asset vote fails
  (`AssetVotesAlwaysFail`).
- Content and asset approvals that resolve leave the entry pending. Only
  reviewer candidates leave their table.

## Model

| member | source | states |
|---|---|---|
| `ReviewSpec.Resolves` | review/src/state.rs:148-150 | the quorum test (tally at least the threshold, or at least the count) holds iff the tally reaches the smaller of the two |
| `ReviewSpec.Initialize` | review/src/state.rs:29-58 | the creator is accredited with approved 1, rejected 0, no resume and no voters, and no other record changes; the count becomes 1; four content/asset thresholds and the reviewer-rejected threshold are copied; the reviewer-approved threshold and the pending tables are unchanged |
| `ReviewSpec.GenesisState` | review/src/state.rs:29-58 | on fresh storage, initialize leaves exactly the creator accredited, count 1, reviewer-approved threshold 0 and all pending tables empty |
| `ReviewSpec.ApplyReviewer` | review/src/state.rs:67-90 | fails with InvalidReviewer, state unchanged, iff the owner is accredited or already pending; otherwise adds exactly one pending record (resume given, no voters, zero tallies) and changes nothing else |
| `ReviewSpec.UpdateReviewerResume` | review/src/state.rs:92-113 | replaces only the resume, in the accredited record if one exists, else in the pending one; fails with InvalidReviewer, state unchanged, iff neither exists |
| `ReviewSpec.ValidateReviewerReview` | review/src/state.rs:115-130 | accepts iff the caster is accredited, the candidate is pending and the caster is not among its voters; AlreadyReviewed exactly in the last case, InvalidReviewer otherwise |
| `ReviewSpec.ApproveReviewer` | review/src/state.rs:132-160 | a refused vote changes nothing and passes the validation error on; an accepted one raises the candidate's approved tally by 1 and returns true iff it reaches min(reviewer-approved threshold, count); if so the record moves from pending to accredited and the count grows by 1, else only the tally changed |
| `ReviewSpec.RejectReviewer` | review/src/state.rs:162-190 | as ApproveReviewer with the rejected tally and the reviewer-rejected threshold; a resolving rejection also moves the candidate into the accredited map and increments the count |
| `ReviewSpec.ValidateContentReview` | review/src/state.rs:192-207 | accepts iff the caster is accredited, the content is pending and the caster is not among its voters; InvalidReviewer, InvalidContent, AlreadyReviewed in that order of checks |
| `ReviewSpec.SubmitContent` | review/src/state.rs:209-213 | stores the content under its own cid, replacing any earlier entry, and changes nothing else |
| `ReviewSpec.ApproveContent` | review/src/state.rs:215-240 | a refused vote changes nothing; an accepted one raises the approved tally by 1, keeps the entry pending, changes nothing else, and returns the updated record iff the tally reaches min(reviewer-approved threshold, count) |
| `ReviewSpec.RejectContent` | review/src/state.rs:242-267 | a refused vote changes nothing; an accepted one raises the rejected tally by 1, keeps the entry pending, and returns true iff it reaches min(reviewer-rejected threshold, count) |
| `ReviewSpec.ValidateAssetReview` | review/src/state.rs:269-284 | accepts iff the caster is accredited and, when the asset is pending, not among its voters; an unknown asset is accepted |
| `ReviewSpec.ApproveAsset` | review/src/state.rs:286-310 | an unknown asset that passed validation fails with InvalidReviewer, state unchanged; otherwise as ApproveContent, with a boolean result |
| `ReviewSpec.RejectAsset` | review/src/state.rs:312-336 | an unknown asset that passed validation fails with InvalidReviewer, state unchanged; otherwise the rejected tally grows by 1 and the result is true iff it reaches min(reviewer-rejected threshold, count) |
| `ReviewProperties.GenesisInv` | review/src/state.rs:29-58 | the state after initialize on fresh storage satisfies the invariant |
| `ReviewProperties.PromotedKeepsInv` | review/src/state.rs:150-154 | moving a pending candidate into the accredited map keeps the maps disjoint and the count equal to the map's size |
| `ReviewProperties.ApplyKeepsInv` | review/src/state.rs:67-90 | filing a reviewer application keeps the invariant |
| `ReviewProperties.UpdateResumeKeepsInv` | review/src/state.rs:92-113 | replacing a resume keeps the invariant |
| `ReviewProperties.ApproveReviewerKeepsInv` | review/src/state.rs:132-160 | an approval of a candidate, resolving or not, keeps the invariant |
| `ReviewProperties.RejectReviewerKeepsInv` | review/src/state.rs:162-190 | a rejection of a candidate, resolving or not, keeps the invariant |
| `ReviewProperties.ContentVoteKeepsInv` | review/src/state.rs:215-267 | approving or rejecting content keeps the invariant |
| `ReviewProperties.StepKeepsInv` | review/src/state.rs:67-336 | every operation other than initialize preserves the invariant |
| `ReviewProperties.RunKeepsInv` | review/src/state.rs:67-336 | any sequence of calls preserves the invariant |
| `ReviewProperties.ReachableInv` | review/src/state.rs:13-25 | every state reachable from genesis satisfies the invariant: records under their own key, no voters on reviewer records, accredited and pending disjoint, count equal to the number accredited, no pending asset, reviewer-approved threshold 0 |
| `ReviewProperties.ReachableReviewerNumber` | review/src/state.rs:56 | in every reachable state the count equals the number of accredited reviewers, is at least 1, and the creator is still accredited |
| `ReviewProperties.AccreditedStays` | review/src/state.rs:151-153 | no sequence of calls removes any accredited reviewer |
| `ReviewProperties.NeverAlreadyReviewed` | review/src/state.rs:123-129 | in every reachable state a vote on a candidate is never refused as AlreadyReviewed |
| `ReviewProperties.RepeatedRejectionCounted` | review/src/state.rs:169-172 | after a non-resolving rejection, the same reviewer's second rejection is accepted and the rejected tally has grown by 2, in the pending record if it stays pending or in the accredited record if the second call resolves |
| `ReviewProperties.ApprovalAlwaysPromotes` | review/src/state.rs:42-45 | in every reachable state an accepted approval accredits the candidate immediately, removing it from the pending table and incrementing the count |
| `ReviewProperties.ContentApprovalAlwaysReported` | review/src/state.rs:231-234 | in every reachable state an accepted content approval returns the record |
| `ReviewProperties.RejectionAccredits` | review/src/state.rs:180-184 | a resolving rejection adds a not-yet-accredited candidate to the accredited map, growing it by one |
| `ReviewProperties.AssetVotesAlwaysFail` | review/src/state.rs:291-298 | in every reachable state approve_asset and reject_asset fail with InvalidReviewer and change nothing |
| `ReviewProperties.FounderAdmitsFirstCandidate` | review/src/state.rs:132-160 | after genesis and one application, the founder's single approval accredits the candidate; the count becomes 2 and no application is pending |
| `ReviewEngine.Review.constructor` | review/src/state.rs:13-25 | fresh storage: empty maps, all registers 0 |
| `ReviewEngine.Review.Initialize` | review/src/state.rs:29-58 | the new field values are those of `ReviewSpec.Initialize` on the old ones |
| `ReviewEngine.Review.IsReviewer` | review/src/state.rs:60-65 | true iff the owner is a key of the accredited map; changes nothing |
| `ReviewEngine.Review.ApplyReviewer` | review/src/state.rs:67-90 | new fields and result are those of `ReviewSpec.ApplyReviewer` |
| `ReviewEngine.Review.UpdateReviewerResume` | review/src/state.rs:92-113 | new fields and result are those of `ReviewSpec.UpdateReviewerResume` |
| `ReviewEngine.Review.ValidateReviewerReview` | review/src/state.rs:115-130 | read-only; returns `ReviewSpec.ValidateReviewerReview` of the current fields |
| `ReviewEngine.Review.ApproveReviewer` | review/src/state.rs:132-160 | new fields and result are those of `ReviewSpec.ApproveReviewer` |
| `ReviewEngine.Review.RejectReviewer` | review/src/state.rs:162-190 | new fields and result are those of `ReviewSpec.RejectReviewer` |
| `ReviewEngine.Review.ValidateContentReview` | review/src/state.rs:192-207 | read-only; returns `ReviewSpec.ValidateContentReview` of the current fields |
| `ReviewEngine.Review.SubmitContent` | review/src/state.rs:209-213 | new fields are those of `ReviewSpec.SubmitContent` |
| `ReviewEngine.Review.ApproveContent` | review/src/state.rs:215-240 | new fields and result are those of `ReviewSpec.ApproveContent` |
| `ReviewEngine.Review.RejectContent` | review/src/state.rs:242-267 | new fields and result are those of `ReviewSpec.RejectContent` |
| `ReviewEngine.Review.ValidateAssetReview` | review/src/state.rs:269-284 | read-only; returns `ReviewSpec.ValidateAssetReview` of the current fields |
| `ReviewEngine.Review.ApproveAsset` | review/src/state.rs:286-310 | new fields and result are those of `ReviewSpec.ApproveAsset` |
| `ReviewEngine.Review.RejectAsset` | review/src/state.rs:312-336 | new fields and result are those of `ReviewSpec.RejectAsset` |

## Left out

- Storage errors (`StateError::ViewError`) and `StateError::ArithmeticError` are not modelled. The map views and registers are plain synchronous map lookups and field assignments, so the model has no failing read or write. No code shown raises `ArithmeticError`.
- Overflow: `+= 1` on a `u16` tally and `reviewer_number + 1` are preconditions (`ApproveReviewerFits`, `RejectReviewerFits`, `ApproveContentFits`, `RejectContentFits`, `ApproveAssetFits`, `RejectAssetFits`), required only on the path that performs the increment. Wrap-around and panics are not modelled.
- The `todo!()` arms after the second lookup are unreachable because the record was written just before. The model indexes the map directly and proves the key is present.
- Async execution, the `RootView`/`GraphQLView` derives and the storage context are not modelled; calls run one at a time.
- `Reviewer`, `Content` and `Asset` come from a crate outside this model. Only the fields the engine reads or writes are kept: owner, resume, voters, the two tallies, and the content's cid. The voter map's values are never read, so voters are a set of owners.
- `Owner` is an opaque identifier modelled as a number; only equality is used.
- Writes to `Review`'s public fields from outside its methods are not modelled (for example, a contract setting a threshold or inserting an asset). `Inv` and the reachable-state lemmas (`ReachableInv`, `ApprovalAlwaysPromotes`, `ContentApprovalAlwaysReported`, `AssetVotesAlwaysFail`, `NeverAlreadyReviewed`) assume that only these methods change the state; the owning contract is not part of this model.
- `initialize` is modelled on any prior state. The reachable-state results start from a single `initialize` on fresh storage, and are not stated for repeated calls.
- mall/src/service.rs (a mutation root that only serialises operations) and market/src/lib.rs (ABI declarations and plain data) carry no engine logic and are not part of this model.
