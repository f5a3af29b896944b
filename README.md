# Image-sharing web app: post handlers, modelled in Dafny

This project models the request handlers of a small image- and video-sharing
web service (`app/app.py`). Authenticated users publish media posts, read a
feed annotated with ownership, and delete their own posts. A separate
in-memory store serves plain text posts.

- **Publishing** (`upload_file`): the upload is staged in a temporary file
  and sent to the object store (ImageKit). A post record is created only when
  the store answers with status 200. The record copies the store's url and
  stored name, takes its file type from the content type and is owned by the
  requester. The temporary file is removed on every path (module `Upload`).
- **The post table** behind `session.add`, `session.delete` and the `select`
  queries is the class `Posts.PostRepository`. It holds a `map` from post id
  to `Post`. A ghost set records the objects the store confirmed with status
  200, and `UploadFile` states exactly what it adds to that set. The
  invariant says that no record points at an object outside the set.
- **Feed assembly** (`get_feed`): one entry per post, in the newest-first
  order the query returned. Each entry carries an `is_owner` flag and the
  author's email, looked up in a dictionary built from the users table
  (module `Feed`).
- **Ownership-gated deletion** (`delete_post`): the id is looked up, then the
  request is refused as not-found, then as forbidden, and otherwise exactly
  that record is removed (module `Deletion`).
- **The text-post store** (`text_posts`, `get_all_posts`, `get_post`,
  `create_post`): a dictionary with integer keys, initially 1 to 10. New posts
  go under `max(keys) + 1`. The invariant is that the keys are exactly
  `1..n` with `n >= 1`, in insertion order (module `TextPosts`).

Anything outside the handlers is an input of the model:
- how staging went (`StageResult`);
- the object store's reply or exception (`StoreReply`);
- the id the database assigns to a new record;
- the database clock;
- whether a `post_id` parsed as a UUID (`Option<PostId>`);
- the rows the feed queries return.

Notes on how the code behaves, where a reader might expect otherwise:
- A reply with a status other than 200 raises nothing. The handler falls off
  the end of its `if` and returns `None`, so no record is created and no error
  is reported. The model calls this outcome `NoRecord`, distinct from
  `UploadFailed`.
- A missing content type (`None`) makes `.startswith` raise after the store
  has already accepted the upload. The error is caught and reported as a
  server error, and no record is created.
- A primary-key clash at commit is caught the same way.
- In both of these cases the store has already accepted the object. The
  handler never deletes it, so the object stays in the store with no record
  pointing at it. The model's ghost set of confirmed objects grows in exactly
  these cases, as it does on success.
- In `delete_post`, the blanket `except Exception` at app/app.py:158-159 also
  catches the 404 and 403 `HTTPException`s and re-raises them as 500. An
  unparsable id ends as a 500 too. The model keeps the handler's four-way
  decision (`Malformed | NotFound | Forbidden | Deleted`) and does not map it
  to status codes.
- The handler's check-then-act is a plain lookup followed by a delete. The
  model proves only the sequential form of "a second delete finds nothing"
  (`RepeatedDeleteIsNotFound`).

## Model

| member | source | states |
|---|---|---|
| `Wrappers.Get` | app/app.py:130 | `dict.get(k, None)`: present exactly when the key is in the map, and then the mapped value |
| `Posts.FileTypeOf` | app/app.py:84 | a content type classified as video has the form `"video/" + rest` |
| `Posts.VideoSubtypeIsVideo` | app/app.py:84 | every `video/<subtype>` content type is classified as video (the converse of `FileTypeOf`'s contract) |
| `Posts.FileTypeExamples` | app/app.py:84 | `video/mp4` is video; `image/png`, `video` and the empty type are images |
| `Posts.PostRepository.constructor` | app/app.py:18-21 | a freshly created database (the model does not cover a table that already holds rows at start-up): the table is empty, there are no confirmed objects, and the no-dangling-record invariant holds |
| `Posts.PostRepository.Find` | app/app.py:144-145 | the lookup by id finds a record exactly when the id is a key, returns that record, and the record's id is the one asked for |
| `Posts.PostRepository.RecordStored` | app/app.py:77 | noting a confirmed upload adds it to the confirmed set and changes no record |
| `Posts.PostRepository.Add` | app/app.py:89-92 | the insert succeeds exactly when the id is fresh, then adds exactly that record; the invariant is kept |
| `Posts.PostRepository.Remove` | app/app.py:153-155 | the delete removes exactly the one key and keeps the invariant |
| `Upload.PublishOutcome` | app/app.py:63-96 | a post is published iff staging succeeded, the store replied 200, a content type is present and the id is fresh; no-record iff the store replied non-200; the published post copies url, stored name, caption, owner and clock and is a video iff the content type starts with `video/` |
| `Upload.StagingArea.constructor` | app/app.py:62 | no temporary file is live before any upload is handled; the ghost count is auxiliary to `UploadFile`'s cleanup clause |
| `Upload.UploadFile` | app/app.py:53-101 | the handler's outcome and new table follow `PublishOutcome`; the confirmed set grows by the reply's object exactly when staging succeeded and the store replied 200, and is otherwise unchanged; every record's object is in that set; the number of live temporary files is the same before and after, on every path |
| `Upload.PublishAddsExactlyOne` | app/app.py:80-93 | a successful upload adds exactly one key, the new id, grows the table by one and leaves every other record unchanged |
| `Upload.OnlyStatus200Publishes` | app/app.py:77-93 | a raised store call or a non-200 reply leaves the table unchanged |
| `Feed.UsersDict` | app/app.py:113-115 | the users dictionary has a key exactly for each known user id, and each value is the email of a user with that id |
| `Feed.UsersDictOfUniqueIds` | app/app.py:115 | with unique user ids, the dictionary maps every user's id to that user's own email |
| `Feed.UsersDictLastWins` | app/app.py:115 | a later user with the same id overrides an earlier one: the dictionary maps an id to the email of the last user in the list with that id |
| `Feed.AssembleFeed` | app/app.py:110-133 | one entry per post in the same order, carrying the post's fields; `is_owner` iff the post's owner is the viewer; the email is exactly the dictionary lookup `users_dict.get(user_id, None)`, present iff the owner is a known user and then that user's email; newest-first input gives a newest-first feed |
| `Deletion.DeleteDecision` | app/app.py:142-159 | malformed iff the id does not parse; not-found iff absent; forbidden iff present and owned by someone else; deleted iff present and owned by the requester |
| `Deletion.DeletePost` | app/app.py:136-159 | the handler's outcome is `DeleteDecision`; the table changes only when the outcome is deleted, and keeps its invariant |
| `Deletion.RefusedDeleteChangesNothing` | app/app.py:147-151 | a malformed, not-found or forbidden request leaves the table unchanged |
| `Deletion.DeleteRemovesExactlyOne` | app/app.py:152-155 | a granted delete removes exactly that key, shrinks the table by one and leaves every other record unchanged |
| `Deletion.OthersPostsSurvive` | app/app.py:150-151 | no request removes or changes a record owned by someone other than the requester |
| `Deletion.RepeatedDeleteIsNotFound` | app/app.py:144-148 | after a granted delete, deleting the same id again, by anyone, is not-found and changes nothing |
| `Deletion.OwnerDeleteUndoesPublish` | app/app.py:147-155 | after a successful upload, the uploader's delete of the new post is granted and restores the table exactly; anyone else's delete of it is forbidden |
| `TextPosts.MaxKey` | app/app.py:226 | `max(keys)`: the result is one of the keys and no key exceeds it |
| `TextPosts.ValuesInOrder` | app/app.py:209 | the values listed key by key, in the given key order |
| `TextPosts.SliceStop` | app/app.py:209 | the stop index of `xs[:limit]`: `min(limit, n)` for a non-negative limit, and for a negative limit `n` minus the number of elements dropped from the end |
| `TextPosts.TextPostStore.constructor` | app/app.py:162-203 | the store starts with the ten posts under keys 1 to 10 and satisfies its invariant |
| `TextPosts.TextPostStore.AllValues` | app/app.py:209 | `list(text_posts.values())`: one value per key, the i-th being the post under key i+1 |
| `TextPosts.TextPostStore.GetPost` | app/app.py:214-220 | not-found iff the id is not a key, otherwise the stored post; under the invariant, found iff 1 <= id <= n |
| `TextPosts.TextPostStore.GetAllPosts` | app/app.py:206-211 | the whole dictionary iff the limit is missing or zero; otherwise a prefix of the values, of length `min(limit, n)` for a positive limit and `max(0, n + limit)` for a negative one |
| `TextPosts.TextPostStore.CreatePost` | app/app.py:222-227 | the new post goes under `n + 1`, which was not a key; every existing entry is unchanged and still found; the keys stay exactly `1..n+1` in insertion order |

## Left out

- Authentication, registration and the user manager (`app/users.py`): the requester's id is an input.
- Construction of the object-store client (`app/images.py`): its reply is an input record (`StoreReply`).
- The byte copying and file I/O of staging. Only whether staging succeeded is kept, plus a ghost count of live temporary files.
- Closing the uploaded file's stream (app/app.py:101) is not modelled.
- Asynchronous session mechanics (`commit`, `refresh`, `execute`): a commit can fail in the model only on a primary-key clash. Other database failures are not modelled.
- Generation of `created_at` and of the UUID primary key: both are inputs.
- `isoformat` rendering and the string conversion of ids in feed entries: entries keep the values.
- The `ORDER BY created_at DESC` query itself. The feed takes the rows in the order the query returned. The model proves that this order is preserved, not that the database sorts.
- Parsing of `post_id` with `uuid.UUID`: only whether it parsed is kept.
- HTTP status codes (including the 500 rewrap of 404 and 403), JSON serialisation and router registration (app/app.py:26-50).
- Concurrent requests: each handler runs as one atomic step on the table, so interleavings of simultaneous deletes are not modelled.
