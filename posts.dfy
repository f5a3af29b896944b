/**
 * The media post record and the repository that stores post records.
 * The repository stands for the SQL table behind `session.add`,
 * `session.delete` and `select(Post).filter(Post.id == ...)`.
 */
module Posts {
  import opened Wrappers

  /** Identifiers are UUIDs in the system; any type with equality would do. */
  type PostId = nat
  type UserId = nat

  /** A timestamp assigned by the database when the record is created. */
  type Timestamp = int

  datatype FileType = Image | Video

  /** What the object store names a stored upload by: its public url and its stored name. */
  datatype StoredObject = StoredObject(url: string, name: string)

  datatype Post = Post(
    id: PostId,
    userId: UserId,
    caption: string,
    url: string,
    fileType: FileType,
    fileName: string,
    createdAt: Timestamp)
  {
    /** The remote object this record points at. */
    function Stored(): StoredObject {
      StoredObject(url, fileName)
    }
  }

  /** Python's `str.startswith`. */
  predicate StartsWith(s: string, prefix: string) {
    |prefix| <= |s| && s[..|prefix|] == prefix
  }

  /**
   * The file type a content type declares: a `video/...` type is a video,
   * every other content type (including `video` without the slash, or
   * `Video/mp4`) is an image.
   */
  function FileTypeOf(contentType: string): (t: FileType)
    ensures t == Video ==> |contentType| >= 6 && contentType == "video/" + contentType[6..]
  {
    if StartsWith(contentType, "video/") then Video else Image
  }

  /** Every content type of the form `video/<anything>` is classified as a video. */
  lemma VideoSubtypeIsVideo(subtype: string)
    ensures FileTypeOf("video/" + subtype) == Video
  {
  }

  lemma FileTypeExamples()
    ensures FileTypeOf("video/mp4") == Video
    ensures FileTypeOf("image/png") == Image
    ensures FileTypeOf("video") == Image
    ensures FileTypeOf("") == Image
  {
    VideoSubtypeIsVideo("mp4");
    assert "image/png"[..6][0] == 'i' != 'v';
  }

  /**
   * The post table. `confirmed` is a ghost record of every object the
   * object store reported as stored (status 200); the invariant says that
   * no record points at an object the store never confirmed.
   */
  class PostRepository {
    var posts: map<PostId, Post>
    ghost var confirmed: set<StoredObject>

    ghost predicate Valid()
      reads this
    {
      forall id :: id in posts ==> posts[id].id == id && posts[id].Stored() in confirmed
    }

    constructor ()
      ensures Valid()
      ensures posts == map[] && confirmed == {}
    {
      posts := map[];
      confirmed := {};
    }

    /** `select(Post).filter(Post.id == id)` followed by `.first()`. */
    function Find(id: PostId): (r: Option<Post>)
      reads this
      ensures r.Some? <==> id in posts
      ensures r.Some? ==> r.value == posts[id]
      ensures Valid() && r.Some? ==> r.value.id == id
    {
      if id in posts then Some(posts[id]) else None
    }

    /** Notes that the object store has confirmed `obj` as stored. */
    ghost method RecordStored(obj: StoredObject)
      requires Valid()
      modifies this
      ensures Valid()
      ensures posts == old(posts)
      ensures confirmed == old(confirmed) + {obj}
    {
      confirmed := confirmed + {obj};
    }

    /**
     * `session.add(post)` and `session.commit()`: the commit fails (an
     * integrity error) when the primary key is already taken.
     */
    method Add(p: Post) returns (ok: bool)
      requires Valid()
      requires p.Stored() in confirmed
      modifies this
      ensures Valid()
      ensures confirmed == old(confirmed)
      ensures ok <==> p.id !in old(posts)
      ensures posts == if ok then old(posts)[p.id := p] else old(posts)
    {
      ok := p.id !in posts;
      if ok {
        posts := posts[p.id := p];
      }
    }

    /** `session.delete(post)` and `session.commit()`: removes exactly the one record. */
    method Remove(id: PostId)
      requires Valid()
      requires id in posts
      modifies this
      ensures Valid()
      ensures confirmed == old(confirmed)
      ensures posts == old(posts) - {id}
    {
      posts := posts - {id};
    }
  }
}
