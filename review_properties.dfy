/** What holds of every state the engine can reach after `initialize` on
    fresh storage, and what the code as written therefore does. */
module ReviewProperties {
  import opened ReviewTypes
  import opened ReviewSpec

  /** Every state-changing call except `initialize`, which runs once at genesis. */
  datatype Op =
    | ApplyReviewerOp(owner: Owner, resume: string)
    | UpdateResumeOp(owner: Owner, resume: string)
    | ApproveReviewerOp(reviewer: Owner, candidate: Owner)
    | RejectReviewerOp(reviewer: Owner, candidate: Owner)
    | SubmitContentOp(content: Content)
    | ApproveContentOp(reviewer: Owner, cid: string)
    | RejectContentOp(reviewer: Owner, cid: string)
    | ApproveAssetOp(reviewer: Owner, id: U64)
    | RejectAssetOp(reviewer: Owner, id: U64)

  /** The call does not overflow a `u16`. */
  predicate Admissible(s: State, op: Op)
  {
    match op
    case ApproveReviewerOp(r, c) => ApproveReviewerFits(s, r, c)
    case RejectReviewerOp(r, c) => RejectReviewerFits(s, r, c)
    case ApproveContentOp(r, cid) => ApproveContentFits(s, r, cid)
    case RejectContentOp(r, cid) => RejectContentFits(s, r, cid)
    case ApproveAssetOp(r, id) => ApproveAssetFits(s, r, id)
    case RejectAssetOp(r, id) => RejectAssetFits(s, r, id)
    case _ => true
  }

  /** The state after one call, successful or not. */
  function Step(s: State, op: Op): State
    requires Admissible(s, op)
  {
    match op
    case ApplyReviewerOp(o, resume) => ApplyReviewer(s, o, resume).post
    case UpdateResumeOp(o, resume) => UpdateReviewerResume(s, o, resume).post
    case ApproveReviewerOp(r, c) => ApproveReviewer(s, r, c).post
    case RejectReviewerOp(r, c) => RejectReviewer(s, r, c).post
    case SubmitContentOp(content) => SubmitContent(s, content)
    case ApproveContentOp(r, cid) => ApproveContent(s, r, cid).post
    case RejectContentOp(r, cid) => RejectContent(s, r, cid).post
    case ApproveAssetOp(r, id) => ApproveAsset(s, r, id).post
    case RejectAssetOp(r, id) => RejectAsset(s, r, id).post
  }

  /** Every call of `ops`, made in order from `s`, is admissible. */
  ghost predicate ValidTrace(s: State, ops: seq<Op>)
    decreases |ops|
  {
    ops == [] || (Admissible(s, ops[0]) && ValidTrace(Step(s, ops[0]), ops[1..]))
  }

  /** The state after the calls of `ops`, in order. */
  ghost function Run(s: State, ops: seq<Op>): State
    requires ValidTrace(s, ops)
    decreases |ops|
  {
    if ops == [] then s else Run(Step(s, ops[0]), ops[1..])
  }

  /** What every reachable state satisfies:
      - records sit under their own key;
      - no reviewer record (accredited or pending) has any voter, because no
        vote ever adds its caster;
      - accredited and pending reviewers are disjoint, the accredited map is
        never empty, and the count equals its size;
      - no asset is ever pending, because nothing submits one;
      - the reviewer-approved threshold is still its default 0. */
  ghost predicate Inv(s: State)
  {
    (forall o :: o in s.reviewers ==> s.reviewers[o].reviewer == o && s.reviewers[o].voters == {}) &&
    (forall o :: o in s.reviewerApplications ==>
       s.reviewerApplications[o].reviewer == o && s.reviewerApplications[o].voters == {}) &&
    s.reviewers.Keys !! s.reviewerApplications.Keys &&
    s.reviewers != map[] &&
    s.reviewerNumber == |s.reviewers| &&
    (forall c :: c in s.contentApplications ==> s.contentApplications[c].cid == c) &&
    s.assetApplications == map[] &&
    s.reviewerApprovedThreshold == 0
  }

  lemma GenesisInv(creator: Owner, init: InitialState)
    ensures Inv(Genesis(creator, init))
  {
    GenesisState(creator, init);
  }

  /** Accrediting a candidate that was pending and not yet accredited keeps the invariant. */
  lemma PromotedKeepsInv(s: State, post: State, candidate: Owner, rec: Reviewer)
    requires Inv(s) && candidate in s.reviewerApplications
    requires rec.reviewer == candidate && rec.voters == {}
    requires Promoted(s, post, candidate, rec)
    ensures Inv(post)
  {
    assert candidate !in s.reviewers;
    assert post.reviewers.Keys == s.reviewers.Keys + {candidate};
    assert |post.reviewers.Keys| == |s.reviewers.Keys| + 1;
  }

  lemma ApplyKeepsInv(s: State, owner: Owner, resume: string)
    requires Inv(s)
    ensures Inv(ApplyReviewer(s, owner, resume).post)
  {
  }

  lemma UpdateResumeKeepsInv(s: State, owner: Owner, resume: string)
    requires Inv(s)
    ensures Inv(UpdateReviewerResume(s, owner, resume).post)
  {
    var post := UpdateReviewerResume(s, owner, resume).post;
    assert post.reviewers.Keys == s.reviewers.Keys;
  }

  lemma ApproveReviewerKeepsInv(s: State, reviewer: Owner, candidate: Owner)
    requires Inv(s) && ApproveReviewerFits(s, reviewer, candidate)
    ensures Inv(ApproveReviewer(s, reviewer, candidate).post)
  {
    var t := ApproveReviewer(s, reviewer, candidate);
    if t.res == Ok(true) {
      var rec := s.reviewerApplications[candidate];
      PromotedKeepsInv(s, t.post, candidate, rec.(approved := rec.approved + 1));
    }
  }

  lemma RejectReviewerKeepsInv(s: State, reviewer: Owner, candidate: Owner)
    requires Inv(s) && RejectReviewerFits(s, reviewer, candidate)
    ensures Inv(RejectReviewer(s, reviewer, candidate).post)
  {
    var t := RejectReviewer(s, reviewer, candidate);
    if t.res == Ok(true) {
      var rec := s.reviewerApplications[candidate];
      PromotedKeepsInv(s, t.post, candidate, rec.(rejected := rec.rejected + 1));
    }
  }

  lemma ContentVoteKeepsInv(s: State, reviewer: Owner, cid: string)
    requires Inv(s)
    ensures ApproveContentFits(s, reviewer, cid) ==> Inv(ApproveContent(s, reviewer, cid).post)
    ensures RejectContentFits(s, reviewer, cid) ==> Inv(RejectContent(s, reviewer, cid).post)
  {
  }

  lemma StepKeepsInv(s: State, op: Op)
    requires Inv(s) && Admissible(s, op)
    ensures Inv(Step(s, op))
  {
    match op
    case ApplyReviewerOp(o, resume) => ApplyKeepsInv(s, o, resume);
    case UpdateResumeOp(o, resume) => UpdateResumeKeepsInv(s, o, resume);
    case ApproveReviewerOp(r, c) => ApproveReviewerKeepsInv(s, r, c);
    case RejectReviewerOp(r, c) => RejectReviewerKeepsInv(s, r, c);
    case SubmitContentOp(content) =>
    case ApproveContentOp(r, cid) => ContentVoteKeepsInv(s, r, cid);
    case RejectContentOp(r, cid) => ContentVoteKeepsInv(s, r, cid);
    case ApproveAssetOp(r, id) => AssetVotesAlwaysFail(s, r, id);
    case RejectAssetOp(r, id) => AssetVotesAlwaysFail(s, r, id);
  }

  lemma {:induction false} RunKeepsInv(s: State, ops: seq<Op>)
    requires Inv(s) && ValidTrace(s, ops)
    ensures Inv(Run(s, ops))
    decreases |ops|
  {
    if ops != [] {
      StepKeepsInv(s, ops[0]);
      RunKeepsInv(Step(s, ops[0]), ops[1..]);
    }
  }

  /** Every state reached from genesis by admissible calls satisfies the invariant. */
  lemma ReachableInv(creator: Owner, init: InitialState, ops: seq<Op>)
    requires ValidTrace(Genesis(creator, init), ops)
    ensures Inv(Run(Genesis(creator, init), ops))
  {
    GenesisInv(creator, init);
    RunKeepsInv(Genesis(creator, init), ops);
  }

  /** The count of accredited reviewers is exact in every reachable state. */
  lemma ReachableReviewerNumber(creator: Owner, init: InitialState, ops: seq<Op>)
    requires ValidTrace(Genesis(creator, init), ops)
    ensures var s := Run(Genesis(creator, init), ops);
      s.reviewerNumber == |s.reviewers| >= 1 && creator in s.reviewers
  {
    ReachableInv(creator, init, ops);
    AccreditedStays(Genesis(creator, init), ops, creator);
  }

  /** No call ever removes an accredited reviewer. */
  lemma {:induction false} AccreditedStays(s: State, ops: seq<Op>, o: Owner)
    requires ValidTrace(s, ops) && o in s.reviewers
    ensures o in Run(s, ops).reviewers
    decreases |ops|
  {
    if ops != [] {
      assert o in Step(s, ops[0]).reviewers;
      AccreditedStays(Step(s, ops[0]), ops[1..], o);
    }
  }

  // ---------------------------------------------------------------------
  // Consequences for the code as written

  /** A vote on a reviewer candidate is never refused as a repeat vote. */
  lemma NeverAlreadyReviewed(s: State, reviewer: Owner, candidate: Owner)
    requires Inv(s)
    ensures ValidateReviewerReview(s, reviewer, candidate) != Err(AlreadyReviewed)
  {
  }

  /** Casting the same rejection twice counts it twice: after a first rejection
      that does not resolve, the second one is accepted, and the candidate's
      rejected tally has grown by two in all, whether the second call leaves
      the record pending or accredits it. */
  lemma RepeatedRejectionCounted(s: State, reviewer: Owner, candidate: Owner)
    requires Inv(s)
    requires RejectReviewerFits(s, reviewer, candidate)
    requires RejectReviewer(s, reviewer, candidate).res == Ok(false)
    requires RejectReviewerFits(RejectReviewer(s, reviewer, candidate).post, reviewer, candidate)
    ensures var once := RejectReviewer(s, reviewer, candidate).post;
      var twice := RejectReviewer(once, reviewer, candidate);
      twice.res.Ok? &&
      (twice.res == Ok(false) ==>
         twice.post.reviewerApplications[candidate].rejected ==
         s.reviewerApplications[candidate].rejected + 2) &&
      (twice.res == Ok(true) ==>
         candidate in twice.post.reviewers &&
         twice.post.reviewers[candidate].rejected ==
         s.reviewerApplications[candidate].rejected + 2)
  {
    var once := RejectReviewer(s, reviewer, candidate).post;
    assert once.reviewerApplications[candidate].voters == {};
  }

  /** With the reviewer-approved threshold left at 0, every accepted approval
      of a candidate accredits it at once. */
  lemma ApprovalAlwaysPromotes(s: State, reviewer: Owner, candidate: Owner)
    requires Inv(s) && ApproveReviewerFits(s, reviewer, candidate)
    requires ValidateReviewerReview(s, reviewer, candidate).Ok?
    ensures var t := ApproveReviewer(s, reviewer, candidate);
      t.res == Ok(true) && candidate in t.post.reviewers &&
      candidate !in t.post.reviewerApplications &&
      t.post.reviewerNumber == s.reviewerNumber + 1
  {
  }

  /** For the same reason every accepted approval of content reports it as approved. */
  lemma ContentApprovalAlwaysReported(s: State, reviewer: Owner, cid: string)
    requires Inv(s) && ApproveContentFits(s, reviewer, cid)
    requires ValidateContentReview(s, reviewer, cid).Ok?
    ensures ApproveContent(s, reviewer, cid).res.Ok? &&
            ApproveContent(s, reviewer, cid).res.value.Some?
  {
  }

  /** A rejection that resolves accredits the candidate instead of discarding it. */
  lemma RejectionAccredits(s: State, reviewer: Owner, candidate: Owner)
    requires Inv(s) && RejectReviewerFits(s, reviewer, candidate)
    requires RejectReviewer(s, reviewer, candidate).res == Ok(true)
    ensures var post := RejectReviewer(s, reviewer, candidate).post;
      candidate !in s.reviewers && candidate in post.reviewers &&
      |post.reviewers| == |s.reviewers| + 1 && Inv(post)
  {
    var rec := s.reviewerApplications[candidate];
    PromotedKeepsInv(s, RejectReviewer(s, reviewer, candidate).post, candidate,
                     rec.(rejected := rec.rejected + 1));
  }

  /** Since no asset is ever pending, every vote on an asset fails with
      InvalidReviewer and changes nothing. */
  lemma AssetVotesAlwaysFail(s: State, reviewer: Owner, id: U64)
    requires Inv(s)
    ensures ApproveAsset(s, reviewer, id) == Transition(s, Err(InvalidReviewer))
    ensures RejectAsset(s, reviewer, id) == Transition(s, Err(InvalidReviewer))
  {
  }

  /** The founder alone admits the first candidate with a single approval. */
  lemma FounderAdmitsFirstCandidate(founder: Owner, candidate: Owner, resume: string,
                                    init: InitialState)
    requires founder != candidate
    ensures var s1 := ApplyReviewer(Genesis(founder, init), candidate, resume).post;
      ApproveReviewerFits(s1, founder, candidate) &&
      var t := ApproveReviewer(s1, founder, candidate);
      t.res == Ok(true) && t.post.reviewers.Keys == {founder, candidate} &&
      t.post.reviewerNumber == 2 && t.post.reviewerApplications == map[]
  {
    GenesisState(founder, init);
    var s1 := ApplyReviewer(Genesis(founder, init), candidate, resume).post;
    assert s1.reviewerApplications.Keys == {candidate};
  }
}
