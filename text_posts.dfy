/**
 * The in-memory text-post store behind `GET /posts`, `GET /posts{id}` and
 * `POST /posts`: a dictionary from integer keys to posts, initially holding
 * ten posts under the keys 1 to 10. New posts go under the largest key plus
 * one, so the keys are always exactly 1..n with n at least 1.
 */
module TextPosts {
  import opened Wrappers

  datatype TextPost = TextPost(title: string, content: string)

  /** `get_post`'s reply: the post, or a not-found error. */
  datatype Lookup = Found(post: TextPost) | NotFound

  /** `get_all_posts`'s reply: a list of values when a non-zero limit is given, else the whole dictionary. */
  datatype Listing = Values(items: seq<TextPost>) | Whole(entries: map<int, TextPost>)

  /** `max(keys)`: the largest of a non-empty sequence of keys, scanned in order. */
  method MaxKey(keys: seq<int>) returns (m: int)
    requires |keys| > 0
    ensures m in keys
    ensures forall i :: 0 <= i < |keys| ==> keys[i] <= m
  {
    m := keys[0];
    for n := 1 to |keys|
      invariant m in keys[..n]
      invariant forall i :: 0 <= i < n ==> keys[i] <= m
    {
      if keys[n] > m {
        m := keys[n];
      }
    }
  }

  /** The values stored under `order`'s keys, in that order. */
  function ValuesInOrder(order: seq<int>, posts: map<int, TextPost>): (vs: seq<TextPost>)
    requires forall i :: 0 <= i < |order| ==> order[i] in posts
    ensures |vs| == |order|
    ensures forall i :: 0 <= i < |order| ==> vs[i] == posts[order[i]]
  {
    if order == [] then []
    else [posts[order[0]]] + ValuesInOrder(order[1..], posts)
  }

  /**
   * The stop index of the Python slice `xs[:limit]` on a list of length `n`:
   * a negative limit drops that many elements from the end.
   */
  function SliceStop(n: nat, limit: int): (k: nat)
    ensures k <= n
    ensures limit >= 0 ==> k == if limit < n then limit else n
    ensures limit < 0 ==> k + (if -limit < n then -limit else n) == n
  {
    if limit >= 0 then (if limit < n then limit else n)
    else if n + limit > 0 then n + limit else 0
  }

  /** The ten posts the store starts with, under the keys 1 to 10. */
  const InitialPosts: seq<TextPost> := [
    TextPost("First Coffee of the Day",
      "Nothing beats that first sip of coffee while watching the city wake up. Small rituals make the mornings better."),
    TextPost("Late Night Coding",
      "Another night lost in code. It’s crazy how time disappears when you’re deep in a problem that finally starts to click."),
    TextPost("Gym Progress",
      "Feeling stronger every week. Consistency really is the secret sauce — no shortcuts, just showing up."),
    TextPost("Sunset Reset",
      "Stopped what I was doing to catch the sunset tonight. Reminded me that slowing down is just as important as grinding."),
    TextPost("Trying Something New",
      "Said yes to something I would’ve normally avoided. Growth almost always starts outside the comfort zone."),
    TextPost("Good Playlist Day",
      "You know it’s a good day when your playlist hits nonstop from start to finish."),
    TextPost("Deep Thoughts",
      "Wild how a simple walk can turn into a full existential spiral in the best way possible."),
    TextPost("Clean Eating Win",
      "Kept it clean all day — steak, eggs, fruit, and plenty of water. Feels great not crashing anymore."),
    TextPost("Late Night Drive",
      "Driving down PCH at night."),
    TextPost("Building the Future",
      "Every small project feels like a brick laid toward something bigger. One day this grind is going to pay off.")
  ]

  class TextPostStore {
    /** The dictionary's contents. */
    var posts: map<int, TextPost>
    /** The dictionary's keys in insertion order, which is the order Python iterates them in. */
    var order: seq<int>

    /** The keys are exactly 1..n with n >= 1, inserted in ascending order. */
    ghost predicate Valid()
      reads this
    {
      && |order| >= 1
      && (forall i :: 0 <= i < |order| ==> order[i] == i + 1)
      && (forall k :: k in posts <==> 1 <= k <= |order|)
    }

    /** The store as the module starts it: `InitialPosts` under the keys 1 to 10. */
    constructor ()
      ensures Valid()
      ensures |order| == |InitialPosts| == 10
      ensures forall k :: 1 <= k <= 10 ==> posts[k] == InitialPosts[k - 1]
    {
      posts := map[
        1 := InitialPosts[0], 2 := InitialPosts[1], 3 := InitialPosts[2], 4 := InitialPosts[3],
        5 := InitialPosts[4], 6 := InitialPosts[5], 7 := InitialPosts[6], 8 := InitialPosts[7],
        9 := InitialPosts[8], 10 := InitialPosts[9]];
      order := [1, 2, 3, 4, 5, 6, 7, 8, 9, 10];
    }

    /** `list(text_posts.values())`: the stored posts in key order. */
    function AllValues(): (vs: seq<TextPost>)
      reads this
      requires Valid()
      ensures |vs| == |order|
      ensures forall i :: 0 <= i < |vs| ==> vs[i] == posts[i + 1]
    {
      ValuesInOrder(order, posts)
    }

    /** `get_post(id)`: the post under `id`, or not-found exactly when `id` is not a key. */
    function GetPost(id: int): (r: Lookup)
      reads this
      ensures r.NotFound? <==> id !in posts
      ensures r.Found? ==> r.post == posts[id]
      ensures Valid() ==> (r.Found? <==> 1 <= id <= |order|)
    {
      if id !in posts then NotFound else Found(posts[id])
    }

    /**
     * `get_all_posts(limit)`: with a missing or zero limit, the whole
     * dictionary; otherwise the prefix `[:limit]` of its values.
     */
    function GetAllPosts(limit: Option<int>): (r: Listing)
      reads this
      requires Valid()
      ensures r.Whole? <==> limit.None? || limit.value == 0
      ensures r.Whole? ==> r.entries == posts
      ensures r.Values? ==> r.items <= AllValues()
      ensures r.Values? && limit.value > 0 ==>
        |r.items| == if limit.value < |order| then limit.value else |order|
      ensures r.Values? && limit.value < 0 ==>
        |r.items| == if -limit.value < |order| then |order| + limit.value else 0
    {
      if limit.Some? && limit.value != 0 then
        var vs := AllValues();
        Values(vs[..SliceStop(|vs|, limit.value)])
      else
        Whole(posts)
    }

    /**
     * `create_post`: store the new post under `max(keys) + 1`, a key not
     * in use, leaving every existing entry as it was.
     */
    method CreatePost(title: string, content: string) returns (p: TextPost)
      requires Valid()
      modifies this
      ensures Valid()
      ensures p == TextPost(title, content)
      ensures |order| == |old(order)| + 1
      ensures |order| !in old(posts)
      ensures posts == old(posts)[|order| := p]
      ensures GetPost(|order|) == Found(p)
      ensures forall k :: k in old(posts) ==> GetPost(k) == Found(old(posts)[k])
    {
      p := TextPost(title, content);
      var m := MaxKey(order);
      // under the invariant the largest key is the number of keys
      assert order[|order| - 1] == |order| <= m;
      ghost var j :| 0 <= j < |order| && order[j] == m;
      assert m == |order|;
      posts := posts[m + 1 := p];
      order := order + [m + 1];
    }
  }
}
