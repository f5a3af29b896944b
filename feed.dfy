/**
 * Feed assembly (`GET /feed`): every post, in the order the query returned
 * them (newest first), decorated with whether the viewer owns it and the
 * author's email, which is absent when the author is not a known user.
 */
module Feed {
  import opened Wrappers
  import opened Posts

  /** The projection of a user account the feed needs. */
  datatype User = User(id: UserId, email: string)

  /** One decorated feed entry: the post's fields plus `is_owner` and `email`. */
  datatype FeedEntry = FeedEntry(
    id: PostId,
    userId: UserId,
    caption: string,
    url: string,
    fileType: FileType,
    fileName: string,
    createdAt: Timestamp,
    isOwner: bool,
    email: Option<string>)

  /** True when some known user has identifier `id`. */
  ghost predicate Known(users: seq<User>, id: UserId) {
    exists u :: u in users && u.id == id
  }

  /**
   * `{user.id: user.email for user in users}`: a later user with the same
   * identifier overrides an earlier one.
   */
  function UsersDict(users: seq<User>): (d: map<UserId, string>)
    ensures forall id :: id in d <==> Known(users, id)
    ensures forall id :: id in d ==> User(id, d[id]) in users
  {
    if users == [] then map[]
    else
      var last := users[|users| - 1];
      var d := UsersDict(users[..|users| - 1]);
      assert forall u :: u in users ==> u in users[..|users| - 1] || u == last;
      d[last.id := last.email]
  }

  /** When identifiers are unique, the dictionary maps each user's id to that user's email. */
  lemma UsersDictOfUniqueIds(users: seq<User>, u: User)
    requires forall i, j :: 0 <= i < j < |users| ==> users[i].id != users[j].id
    requires u in users
    ensures UsersDict(users)[u.id] == u.email
  {
  }

  /**
   * Later entries override earlier ones: the dictionary maps an id to the
   * email of the last user in the list that has that id.
   */
  lemma {:induction false} UsersDictLastWins(users: seq<User>, i: nat)
    requires i < |users|
    requires forall j :: i < j < |users| ==> users[j].id != users[i].id
    ensures UsersDict(users)[users[i].id] == users[i].email
  {
    var n := |users| - 1;
    if i < n {
      var prefix := users[..n];
      assert prefix[i] == users[i];
      forall j | i < j < |prefix|
        ensures prefix[j].id != prefix[i].id
      {
        assert prefix[j] == users[j];
      }
      UsersDictLastWins(prefix, i);
    }
  }

  /** The dictionary built for one post inside the feed loop. */
  function Decorate(post: Post, emails: map<UserId, string>, viewer: UserId): FeedEntry {
    FeedEntry(post.id, post.userId, post.caption, post.url, post.fileType, post.fileName, post.createdAt,
              post.userId == viewer, Get(emails, post.userId))
  }

  /** The entry carries exactly the fields of `post`. */
  predicate Carries(e: FeedEntry, post: Post) {
    && e.id == post.id
    && e.userId == post.userId
    && e.caption == post.caption
    && e.url == post.url
    && e.fileType == post.fileType
    && e.fileName == post.fileName
    && e.createdAt == post.createdAt
  }

  /** The order `order_by(Post.created_at.desc())` produces. */
  predicate NewestFirst(posts: seq<Post>) {
    forall i, j :: 0 <= i < j < |posts| ==> posts[i].createdAt >= posts[j].createdAt
  }

  predicate FeedNewestFirst(feed: seq<FeedEntry>) {
    forall i, j :: 0 <= i < j < |feed| ==> feed[i].createdAt >= feed[j].createdAt
  }

  /**
   * The feed handler's loop: one entry per post, in the same order; a post
   * whose author is unknown is kept, with no email.
   */
  method AssembleFeed(posts: seq<Post>, users: seq<User>, viewer: UserId) returns (feed: seq<FeedEntry>)
    ensures |feed| == |posts|
    ensures forall i :: 0 <= i < |posts| ==> Carries(feed[i], posts[i])
    ensures forall i :: 0 <= i < |posts| ==> (feed[i].isOwner <==> posts[i].userId == viewer)
    ensures forall i :: 0 <= i < |posts| ==> feed[i].email == Get(UsersDict(users), posts[i].userId)
    ensures forall i :: 0 <= i < |posts| ==> (feed[i].email.Some? <==> Known(users, posts[i].userId))
    ensures forall i :: 0 <= i < |posts| && feed[i].email.Some? ==>
      User(posts[i].userId, feed[i].email.value) in users
    ensures NewestFirst(posts) ==> FeedNewestFirst(feed)
  {
    var emails := UsersDict(users);
    feed := [];
    for k := 0 to |posts|
      invariant |feed| == k
      invariant forall i :: 0 <= i < k ==> feed[i] == Decorate(posts[i], emails, viewer)
    {
      feed := feed + [Decorate(posts[k], emails, viewer)];
    }
  }
}
