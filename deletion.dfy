/**
 * Ownership-gated deletion (`DELETE /posts/{post_id}`): look the post up,
 * refuse when it is absent, refuse when the requester is not its owner,
 * and otherwise remove exactly that record.
 */
module Deletion {
  import opened Wrappers
  import opened Posts
  import opened Upload

  /**
   * The decision the handler takes. `Malformed` stands for a `post_id` that
   * does not parse as a UUID.
   */
  datatype DeleteOutcome = Malformed | NotFound | Forbidden | Deleted

  /** The outcome of a delete request; `postId` is `None` when the identifier does not parse. */
  function DeleteDecision(posts: map<PostId, Post>, postId: Option<PostId>, requester: UserId): (r: DeleteOutcome)
    ensures r == Malformed <==> postId.None?
    ensures r == NotFound <==> postId.Some? && postId.value !in posts
    ensures r == Forbidden <==> postId.Some? && postId.value in posts && posts[postId.value].userId != requester
    ensures r == Deleted <==> postId.Some? && postId.value in posts && posts[postId.value].userId == requester
  {
    match postId
    case None => Malformed
    case Some(id) =>
      if id !in posts then NotFound
      else if posts[id].userId != requester then Forbidden
      else Deleted
  }

  /** The repository after a delete request. */
  function AfterDelete(posts: map<PostId, Post>, postId: Option<PostId>, requester: UserId): map<PostId, Post> {
    if DeleteDecision(posts, postId, requester) == Deleted then posts - {postId.value} else posts
  }

  /** The delete handler: it takes the decision and applies it to the repository. */
  method DeletePost(repo: PostRepository, postId: Option<PostId>, requester: UserId) returns (r: DeleteOutcome)
    requires repo.Valid()
    modifies repo
    ensures repo.Valid()
    ensures repo.confirmed == old(repo.confirmed)
    ensures r == DeleteDecision(old(repo.posts), postId, requester)
    ensures repo.posts == AfterDelete(old(repo.posts), postId, requester)
  {
    if postId.None? {
      return Malformed;
    }
    var found := repo.Find(postId.value);
    if found.None? {
      r := NotFound;
    } else if found.value.userId != requester {
      r := Forbidden;
    } else {
      repo.Remove(found.value.id);
      r := Deleted;
    }
  }

  /** A delete that is refused leaves every record in place. */
  lemma RefusedDeleteChangesNothing(posts: map<PostId, Post>, postId: Option<PostId>, requester: UserId)
    requires DeleteDecision(posts, postId, requester) != Deleted
    ensures AfterDelete(posts, postId, requester) == posts
  {
  }

  /** A granted delete removes exactly the one record and changes no other. */
  lemma DeleteRemovesExactlyOne(posts: map<PostId, Post>, id: PostId, requester: UserId)
    requires DeleteDecision(posts, Some(id), requester) == Deleted
    ensures var after := AfterDelete(posts, Some(id), requester);
      && after.Keys == posts.Keys - {id}
      && |after| == |posts| - 1
      && forall k :: k in after ==> after[k] == posts[k]
  {
  }

  /** No request removes a record owned by someone other than the requester. */
  lemma OthersPostsSurvive(posts: map<PostId, Post>, postId: Option<PostId>, requester: UserId, k: PostId)
    requires k in posts && posts[k].userId != requester
    ensures k in AfterDelete(posts, postId, requester)
    ensures AfterDelete(posts, postId, requester)[k] == posts[k]
  {
  }

  /** Deleting the same post a second time, by anyone, reports that it is not found. */
  lemma RepeatedDeleteIsNotFound(posts: map<PostId, Post>, id: PostId, first: UserId, second: UserId)
    requires DeleteDecision(posts, Some(id), first) == Deleted
    ensures DeleteDecision(AfterDelete(posts, Some(id), first), Some(id), second) == NotFound
    ensures AfterDelete(AfterDelete(posts, Some(id), first), Some(id), second) == AfterDelete(posts, Some(id), first)
  {
  }

  /**
   * Deletion undoes publication: after a successful upload the uploader may
   * delete the new post, which restores the repository; anyone else is refused.
   */
  lemma OwnerDeleteUndoesPublish(posts: map<PostId, Post>, req: UploadRequest, stage: StageResult,
                                 reply: StoreReply, newId: PostId, now: Timestamp, other: UserId)
    requires PublishOutcome(posts, req, stage, reply, newId, now).Published?
    requires other != req.owner
    ensures var after := AfterPublish(posts, PublishOutcome(posts, req, stage, reply, newId, now));
      && DeleteDecision(after, Some(newId), req.owner) == Deleted
      && AfterDelete(after, Some(newId), req.owner) == posts
      && DeleteDecision(after, Some(newId), other) == Forbidden
  {
  }
}
