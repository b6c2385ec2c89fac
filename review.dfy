/** The `Review` application state as a mutable object. Each method does
    what the source method does (validate, read one record, write it back
    with one tally incremented, read it again and compare against the
    thresholds) and is proved to leave the object in the state, and return
    the result, that module ReviewSpec prescribes; IsReviewer, which has no
    counterpart there, states its result directly. */
module ReviewEngine {
  import opened ReviewTypes
  import Spec = ReviewSpec

  class Review {
    var reviewers: map<Owner, Reviewer>
    var reviewerNumber: U16
    var reviewerApplications: map<Owner, Reviewer>
    var contentApplications: map<string, Content>
    var assetApplications: map<U64, Asset>
    var contentApprovedThreshold: U16
    var contentRejectedThreshold: U16
    var assetApprovedThreshold: U16
    var assetRejectedThreshold: U16
    var reviewerApprovedThreshold: U16
    var reviewerRejectedThreshold: U16

    /** The stored fields as one value. */
    function Snapshot(): Spec.State
      reads this
    {
      Spec.State(reviewers, reviewerNumber, reviewerApplications, contentApplications,
                 assetApplications, contentApprovedThreshold, contentRejectedThreshold,
                 assetApprovedThreshold, assetRejectedThreshold,
                 reviewerApprovedThreshold, reviewerRejectedThreshold)
    }

    /** Loading the application's storage for the first time: all defaults. */
    constructor ()
      ensures Snapshot() == Spec.Empty()
    {
      reviewers, reviewerNumber, reviewerApplications := map[], 0, map[];
      contentApplications, assetApplications := map[], map[];
      contentApprovedThreshold, contentRejectedThreshold := 0, 0;
      assetApprovedThreshold, assetRejectedThreshold := 0, 0;
      reviewerApprovedThreshold, reviewerRejectedThreshold := 0, 0;
    }

    method Initialize(creator: Owner, init: InitialState)
      modifies this
      ensures Snapshot() == Spec.Initialize(old(Snapshot()), creator, init)
    {
      contentApprovedThreshold := init.contentApprovedThreshold;
      contentRejectedThreshold := init.contentRejectedThreshold;
      assetApprovedThreshold := init.assetApprovedThreshold;
      assetRejectedThreshold := init.assetRejectedThreshold;
      // the same register twice; reviewerApprovedThreshold is not assigned
      reviewerRejectedThreshold := init.reviewerRejectedThreshold;
      reviewerRejectedThreshold := init.reviewerRejectedThreshold;
      reviewers := reviewers[creator := Reviewer(creator, None, {}, 1, 0)];
      reviewerNumber := 1;
    }

    method IsReviewer(owner: Owner) returns (b: bool)
      ensures b <==> owner in reviewers
    {
      match Lookup(reviewers, owner) {
        case Some(_) => b := true;
        case None => b := false;
      }
    }

    method ApplyReviewer(owner: Owner, resume: string) returns (r: Result<()>)
      modifies this
      ensures Spec.Transition(Snapshot(), r) == Spec.ApplyReviewer(old(Snapshot()), owner, resume)
    {
      var accredited := IsReviewer(owner);
      if accredited {
        return Err(InvalidReviewer);
      }
      if owner in reviewerApplications {
        return Err(InvalidReviewer);
      }
      reviewerApplications := reviewerApplications[owner := Reviewer(owner, Some(resume), {}, 0, 0)];
      r := Ok(());
    }

    method UpdateReviewerResume(owner: Owner, resume: string) returns (r: Result<()>)
      modifies this
      ensures Spec.Transition(Snapshot(), r) == Spec.UpdateReviewerResume(old(Snapshot()), owner, resume)
    {
      match Lookup(reviewers, owner) {
        case Some(stored) =>
          reviewers := reviewers[owner := stored.(resume := Some(resume))];
          return Ok(());
        case None =>
      }
      match Lookup(reviewerApplications, owner) {
        case Some(stored) =>
          reviewerApplications := reviewerApplications[owner := stored.(resume := Some(resume))];
          r := Ok(());
        case None =>
          r := Err(InvalidReviewer);
      }
    }

    method ValidateReviewerReview(reviewer: Owner, candidate: Owner) returns (r: Result<()>)
      ensures r == Spec.ValidateReviewerReview(Snapshot(), reviewer, candidate)
    {
      var accredited := IsReviewer(reviewer);
      if !accredited {
        return Err(InvalidReviewer);
      }
      match Lookup(reviewerApplications, candidate) {
        case Some(rec) =>
          r := if reviewer in rec.voters then Err(AlreadyReviewed) else Ok(());
        case None =>
          r := Err(InvalidReviewer);
      }
    }

    method ApproveReviewer(owner: Owner, candidate: Owner) returns (r: Result<bool>)
      requires Spec.ApproveReviewerFits(Snapshot(), owner, candidate)
      modifies this
      ensures Spec.Transition(Snapshot(), r) == Spec.ApproveReviewer(old(Snapshot()), owner, candidate)
    {
      var valid := ValidateReviewerReview(owner, candidate);
      if valid.Err? {
        return Err(valid.error);
      }
      match Lookup(reviewerApplications, candidate) {
        case Some(stored) =>
          var voted := stored.(approved := stored.approved + 1);
          reviewerApplications := reviewerApplications[candidate := voted];
        case None =>
          return Err(InvalidReviewer);
      }
      // the record was written just above, so this lookup succeeds
      var reviewer := reviewerApplications[candidate];
      var approvedThreshold, number := reviewerApprovedThreshold, reviewerNumber;
      if reviewer.approved >= approvedThreshold || reviewer.approved >= number {
        reviewers := reviewers[candidate := reviewer];
        reviewerApplications := reviewerApplications - {candidate};
        reviewerNumber := number + 1;
        return Ok(true);
      }
      r := Ok(false);
    }

    method RejectReviewer(owner: Owner, candidate: Owner) returns (r: Result<bool>)
      requires Spec.RejectReviewerFits(Snapshot(), owner, candidate)
      modifies this
      ensures Spec.Transition(Snapshot(), r) == Spec.RejectReviewer(old(Snapshot()), owner, candidate)
    {
      var valid := ValidateReviewerReview(owner, candidate);
      if valid.Err? {
        return Err(valid.error);
      }
      match Lookup(reviewerApplications, candidate) {
        case Some(stored) =>
          var voted := stored.(rejected := stored.rejected + 1);
          reviewerApplications := reviewerApplications[candidate := voted];
        case None =>
          return Err(InvalidReviewer);
      }
      var reviewer := reviewerApplications[candidate];
      var rejectedThreshold, number := reviewerRejectedThreshold, reviewerNumber;
      if reviewer.rejected >= rejectedThreshold || reviewer.rejected >= number {
        // a resolved rejection accredits the candidate, as approval does
        reviewers := reviewers[candidate := reviewer];
        reviewerApplications := reviewerApplications - {candidate};
        reviewerNumber := number + 1;
        return Ok(true);
      }
      r := Ok(false);
    }

    method ValidateContentReview(reviewer: Owner, cid: string) returns (r: Result<()>)
      ensures r == Spec.ValidateContentReview(Snapshot(), reviewer, cid)
    {
      var accredited := IsReviewer(reviewer);
      if !accredited {
        return Err(InvalidReviewer);
      }
      match Lookup(contentApplications, cid) {
        case Some(content) =>
          r := if reviewer in content.voters then Err(AlreadyReviewed) else Ok(());
        case None =>
          r := Err(InvalidContent);
      }
    }

    method SubmitContent(content: Content)
      modifies this
      ensures Snapshot() == Spec.SubmitContent(old(Snapshot()), content)
    {
      contentApplications := contentApplications[content.cid := content];
    }

    method ApproveContent(reviewer: Owner, cid: string) returns (r: Result<Option<Content>>)
      requires Spec.ApproveContentFits(Snapshot(), reviewer, cid)
      modifies this
      ensures Spec.Transition(Snapshot(), r) == Spec.ApproveContent(old(Snapshot()), reviewer, cid)
    {
      var valid := ValidateContentReview(reviewer, cid);
      if valid.Err? {
        return Err(valid.error);
      }
      match Lookup(contentApplications, cid) {
        case Some(stored) =>
          var voted := stored.(approved := stored.approved + 1);
          contentApplications := contentApplications[cid := voted];
        case None =>
          return Err(InvalidReviewer);
      }
      var content := contentApplications[cid];
      // the reviewer thresholds, not the content ones
      var approvedThreshold, number := reviewerApprovedThreshold, reviewerNumber;
      if content.approved >= approvedThreshold || content.approved >= number {
        return Ok(Some(content));
      }
      r := Ok(None);
    }

    method RejectContent(reviewer: Owner, cid: string) returns (r: Result<bool>)
      requires Spec.RejectContentFits(Snapshot(), reviewer, cid)
      modifies this
      ensures Spec.Transition(Snapshot(), r) == Spec.RejectContent(old(Snapshot()), reviewer, cid)
    {
      var valid := ValidateContentReview(reviewer, cid);
      if valid.Err? {
        return Err(valid.error);
      }
      match Lookup(contentApplications, cid) {
        case Some(stored) =>
          var voted := stored.(rejected := stored.rejected + 1);
          contentApplications := contentApplications[cid := voted];
        case None =>
          return Err(InvalidReviewer);
      }
      var content := contentApplications[cid];
      var rejectedThreshold, number := reviewerRejectedThreshold, reviewerNumber;
      if content.rejected >= rejectedThreshold || content.rejected >= number {
        return Ok(true);
      }
      r := Ok(false);
    }

    method ValidateAssetReview(reviewer: Owner, id: U64) returns (r: Result<()>)
      ensures r == Spec.ValidateAssetReview(Snapshot(), reviewer, id)
    {
      var accredited := IsReviewer(reviewer);
      if !accredited {
        return Err(InvalidReviewer);
      }
      match Lookup(assetApplications, id) {
        case Some(asset) =>
          r := if reviewer in asset.voters then Err(AlreadyReviewed) else Ok(());
        case None =>
          r := Ok(());
      }
    }

    method ApproveAsset(reviewer: Owner, id: U64) returns (r: Result<bool>)
      requires Spec.ApproveAssetFits(Snapshot(), reviewer, id)
      modifies this
      ensures Spec.Transition(Snapshot(), r) == Spec.ApproveAsset(old(Snapshot()), reviewer, id)
    {
      var valid := ValidateAssetReview(reviewer, id);
      if valid.Err? {
        return Err(valid.error);
      }
      match Lookup(assetApplications, id) {
        case Some(stored) =>
          var voted := stored.(approved := stored.approved + 1);
          assetApplications := assetApplications[id := voted];
        case None =>
          return Err(InvalidReviewer);
      }
      var asset := assetApplications[id];
      var approvedThreshold, number := reviewerApprovedThreshold, reviewerNumber;
      if asset.approved >= approvedThreshold || asset.approved >= number {
        return Ok(true);
      }
      r := Ok(false);
    }

    method RejectAsset(reviewer: Owner, id: U64) returns (r: Result<bool>)
      requires Spec.RejectAssetFits(Snapshot(), reviewer, id)
      modifies this
      ensures Spec.Transition(Snapshot(), r) == Spec.RejectAsset(old(Snapshot()), reviewer, id)
    {
      var valid := ValidateAssetReview(reviewer, id);
      if valid.Err? {
        return Err(valid.error);
      }
      match Lookup(assetApplications, id) {
        case Some(stored) =>
          var voted := stored.(rejected := stored.rejected + 1);
          assetApplications := assetApplications[id := voted];
        case None =>
          return Err(InvalidReviewer);
      }
      var asset := assetApplications[id];
      var rejectedThreshold, number := reviewerRejectedThreshold, reviewerNumber;
      if asset.rejected >= rejectedThreshold || asset.rejected >= number {
        return Ok(true);
      }
      r := Ok(false);
    }
  }

  /** A map view's `get`: the stored value, if any. */
  function Lookup<K, V>(m: map<K, V>, k: K): (r: Option<V>)
    ensures r.Some? <==> k in m
    ensures r.Some? ==> r.value == m[k]
  {
    if k in m then Some(m[k]) else None
  }
}
