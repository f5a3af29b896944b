/**
 * Publishing a media post (`POST /upload`): stage the upload in a temporary
 * file, send it to the object store, and create a post record only when the
 * store answers with status 200. The temporary file is removed on every path.
 */
module Upload {
  import opened Wrappers
  import opened Posts

  /** The form fields and the requester of one upload. */
  datatype UploadRequest = UploadRequest(
    fileName: string,
    contentType: Option<string>,
    caption: string,
    owner: UserId)

  /**
   * How staging went: the temporary file could not be created (nothing to
   * clean up), the copy into it failed (the file exists and must be removed),
   * or the bytes were staged.
   */
  datatype StageResult = Staged | CreateFailed(cause: string) | CopyFailed(cause: string)

  /** The object store either raised, or replied with a status code, a url and a stored name. */
  datatype StoreReply = Raised(cause: string) | Replied(status: int, url: string, name: string)

  /**
   * The handler's outcome: the created post; no record and no error (a
   * non-200 reply falls off the end of the handler, which returns `None`);
   * or a failure reported as a server error carrying the exception text.
   */
  datatype UploadOutcome = Published(post: Post) | NoRecord | UploadFailed(cause: string)

  /** The text of the exception raised by `.startswith` on a missing content type. */
  const NoContentType := "'NoneType' object has no attribute 'startswith'"
  /** The text of the integrity error raised by a commit that reuses a primary key. */
  const DuplicateKey := "duplicate key value violates unique constraint"

  /** The temporary files this process has created and not yet removed. */
  class StagingArea {
    ghost var live: nat

    constructor ()
      ensures live == 0
    {
      live := 0;
    }
  }

  /**
   * What one upload attempt decides, given the repository before it, how
   * staging went, the object store's reply, the identifier the database
   * assigns to a new record and the database clock.
   */
  function PublishOutcome(posts: map<PostId, Post>, req: UploadRequest, stage: StageResult,
                          reply: StoreReply, newId: PostId, now: Timestamp): (r: UploadOutcome)
    ensures r.Published? <==>
      stage.Staged? && reply.Replied? && reply.status == 200 && req.contentType.Some? && newId !in posts
    ensures r.NoRecord? <==> stage.Staged? && reply.Replied? && reply.status != 200
    ensures r.Published? ==>
      && r.post.id == newId
      && r.post.userId == req.owner
      && r.post.caption == req.caption
      && r.post.url == reply.url
      && r.post.fileName == reply.name
      && r.post.createdAt == now
      && (r.post.fileType == Video <==> StartsWith(req.contentType.value, "video/"))
    ensures r.UploadFailed? && stage.Staged? && reply.Replied? ==> reply.status == 200
  {
    match stage
    case CreateFailed(cause) => UploadFailed(cause)
    case CopyFailed(cause) => UploadFailed(cause)
    case Staged =>
      match reply
      case Raised(cause) => UploadFailed(cause)
      case Replied(status, url, name) =>
        if status != 200 then NoRecord
        else if req.contentType.None? then UploadFailed(NoContentType)
        else if newId in posts then UploadFailed(DuplicateKey)
        else Published(Post(newId, req.owner, req.caption, url, FileTypeOf(req.contentType.value), name, now))
  }

  /** The repository after an attempt with outcome `r`. */
  function AfterPublish(posts: map<PostId, Post>, r: UploadOutcome): map<PostId, Post> {
    if r.Published? then posts[r.post.id := r.post] else posts
  }

  /**
   * The upload handler. The repository keeps its invariant (no record
   * without a confirmed remote object), its new contents are decided by
   * `PublishOutcome`, and no temporary file is left behind.
   */
  method UploadFile(repo: PostRepository, staging: StagingArea, req: UploadRequest,
                    stage: StageResult, reply: StoreReply, newId: PostId, now: Timestamp)
    returns (r: UploadOutcome)
    requires repo.Valid()
    modifies repo, staging
    ensures repo.Valid()
    ensures r == PublishOutcome(old(repo.posts), req, stage, reply, newId, now)
    ensures repo.posts == AfterPublish(old(repo.posts), r)
    ensures r.Published? ==> r.post.Stored() == StoredObject(reply.url, reply.name) && r.post.Stored() in repo.confirmed
    ensures repo.confirmed == old(repo.confirmed) +
      (if stage.Staged? && reply.Replied? && reply.status == 200 then {StoredObject(reply.url, reply.name)} else {})
    ensures staging.live == old(staging.live)
  {
    var tempFileCreated := false;
    if stage.CreateFailed? {
      r := UploadFailed(stage.cause);
    } else {
      staging.live := staging.live + 1;
      tempFileCreated := true;
      if stage.CopyFailed? {
        r := UploadFailed(stage.cause);
      } else {
        match reply
        case Raised(cause) =>
          r := UploadFailed(cause);
        case Replied(status, url, name) =>
          if status == 200 {
            repo.RecordStored(StoredObject(url, name));
            if req.contentType.None? {
              r := UploadFailed(NoContentType);
            } else {
              var post := Post(newId, req.owner, req.caption, url, FileTypeOf(req.contentType.value), name, now);
              var ok := repo.Add(post);
              r := if ok then Published(post) else UploadFailed(DuplicateKey);
            }
          } else {
            r := NoRecord;
          }
      }
    }
    // the `finally` clause: remove the temporary file if it was created
    if tempFileCreated {
      staging.live := staging.live - 1;
    }
  }

  /** A successful upload adds exactly one record, under the new id, and changes no other record. */
  lemma PublishAddsExactlyOne(posts: map<PostId, Post>, req: UploadRequest, stage: StageResult,
                              reply: StoreReply, newId: PostId, now: Timestamp)
    requires PublishOutcome(posts, req, stage, reply, newId, now).Published?
    ensures var after := AfterPublish(posts, PublishOutcome(posts, req, stage, reply, newId, now));
      && after.Keys == posts.Keys + {newId}
      && |after| == |posts| + 1
      && forall id :: id in posts ==> after[id] == posts[id]
  {
  }

  /** Any reply other than status 200, or a raised error, leaves the repository unchanged. */
  lemma OnlyStatus200Publishes(posts: map<PostId, Post>, req: UploadRequest, stage: StageResult,
                               reply: StoreReply, newId: PostId, now: Timestamp)
    requires reply.Raised? || reply.status != 200
    ensures AfterPublish(posts, PublishOutcome(posts, req, stage, reply, newId, now)) == posts
  {
  }
}
