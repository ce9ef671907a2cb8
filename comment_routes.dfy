/** The handlers of backend/routes/comments.js. A comment is attached to its video's
    `comments` list when top-level and to its parent's `replies` list when a reply; `Linked`
    states that attachment, and every handler that changes comments keeps it. */
module CommentRoutes {
  import opened Common
  import opened Text
  import opened Fields
  import opened Lists
  import opened Likes
  import opened Paging
  import opened Sorting
  import opened Store
  import opened Listing
  import VideoModel
  import CommentModel

  type Video = VideoModel.Video
  type Comment = CommentModel.Comment

  /** The `limit` of the list handler when the query has none. */
  const DefaultLimit: int := 10

  /** Every comment is listed where it belongs: a top-level comment in its video's `comments`
      (when the video exists), a reply in its parent's `replies` (when the parent exists and is
      older than the reply, as a parent must have been when the reply was posted). */
  predicate Linked(videos: map<Id, Video>, comments: map<Id, Comment>)
  {
    forall id :: id in comments ==> Attached(videos, comments, id)
  }

  /** Comment `id` of `comments` is listed where it belongs. */
  predicate Attached(videos: map<Id, Video>, comments: map<Id, Comment>, id: Id)
    requires id in comments
  {
    var c := comments[id];
    if c.parentComment.None? then
      c.video in videos ==> id in videos[c.video].comments
    else
      c.parentComment.value in comments && c.parentComment.value < id ==> id in comments[c.parentComment.value].replies
  }

  /** `Video.findByIdAndUpdate(video, { $push: { comments: id } })`. */
  function PushComment(videos: map<Id, Video>, video: Id, id: Id): (r: map<Id, Video>)
    ensures r.Keys == videos.Keys
    ensures video in videos ==> r[video] == videos[video].(comments := videos[video].comments + [id])
    ensures forall v :: v in videos && v != video ==> r[v] == videos[v]
  {
    if video in videos then videos[video := videos[video].(comments := videos[video].comments + [id])] else videos
  }

  /** `Video.findByIdAndUpdate(video, { $pull: { comments: id } })`. */
  function PullComment(videos: map<Id, Video>, video: Id, id: Id): (r: map<Id, Video>)
    ensures r.Keys == videos.Keys
    ensures video in videos ==> r[video] == videos[video].(comments := Pull(videos[video].comments, id))
    ensures forall v :: v in videos && v != video ==> r[v] == videos[v]
  {
    if video in videos then videos[video := videos[video].(comments := Pull(videos[video].comments, id))] else videos
  }

  /** `Comment.findByIdAndUpdate(parent, { $push: { replies: id } })`. */
  function PushReply(comments: map<Id, Comment>, parent: Id, id: Id): (r: map<Id, Comment>)
    ensures r.Keys == comments.Keys
    ensures parent in comments ==> r[parent] == comments[parent].(replies := comments[parent].replies + [id])
    ensures forall c :: c in comments && c != parent ==> r[c] == comments[c]
  {
    if parent in comments then comments[parent := comments[parent].(replies := comments[parent].replies + [id])] else comments
  }

  /** `Comment.findByIdAndUpdate(parent, { $pull: { replies: id } })`. */
  function PullReply(comments: map<Id, Comment>, parent: Id, id: Id): (r: map<Id, Comment>)
    ensures r.Keys == comments.Keys
    ensures parent in comments ==> r[parent] == comments[parent].(replies := Pull(comments[parent].replies, id))
    ensures forall c :: c in comments && c != parent ==> r[c] == comments[c]
  {
    if parent in comments then comments[parent := comments[parent].(replies := Pull(comments[parent].replies, id))] else comments
  }

  /** The videos after a comment `c` with id `id` is saved: a top-level comment is pushed onto its video. */
  function VideosAfterAdd(videos: map<Id, Video>, id: Id, c: Comment): (r: map<Id, Video>)
    ensures r.Keys == videos.Keys
  {
    if c.parentComment.None? then PushComment(videos, c.video, id) else videos
  }

  /** The comments after `c` is saved under `id`: a reply is pushed onto its parent. */
  function CommentsAfterAdd(comments: map<Id, Comment>, id: Id, c: Comment): (r: map<Id, Comment>)
    ensures r.Keys == comments.Keys + {id}
  {
    if c.parentComment.None? then comments[id := c] else PushReply(comments[id := c], c.parentComment.value, id)
  }

  /** Saving a comment under an id above every existing one and attaching it keeps every
      comment attached. */
  lemma AddKeepsLinked(videos: map<Id, Video>, comments: map<Id, Comment>, id: Id, c: Comment)
    requires Linked(videos, comments) && forall x :: x in comments ==> x < id
    ensures Linked(VideosAfterAdd(videos, id, c), CommentsAfterAdd(comments, id, c))
  {
    var vs, cs := VideosAfterAdd(videos, id, c), CommentsAfterAdd(comments, id, c);
    forall x | x in cs ensures Attached(vs, cs, x) {
      if x != id {
        assert Attached(videos, comments, x);
        AddKeepsOldAttached(videos, comments, id, c, x);
      }
    }
  }

  lemma AddKeepsOldAttached(videos: map<Id, Video>, comments: map<Id, Comment>, id: Id, c: Comment, x: Id)
    requires x in comments && x < id && Attached(videos, comments, x)
    ensures var vs, cs := VideosAfterAdd(videos, id, c), CommentsAfterAdd(comments, id, c);
      x in cs && Attached(vs, cs, x)
  {
    var vs, cs := VideosAfterAdd(videos, id, c), CommentsAfterAdd(comments, id, c);
    var d := comments[x];
    assert cs[x].parentComment == d.parentComment && cs[x].video == d.video;
    if d.parentComment.None? {
      if d.video in vs {
        assert x in videos[d.video].comments;
        assert x in vs[d.video].comments;
      }
    } else {
      var p := d.parentComment.value;
      if p in cs && p < x {
        assert x in comments[p].replies;
        assert x in cs[p].replies;
      }
    }
  }

  /** The videos after deleting comment `c` (id `id`): a top-level comment is pulled from its video. */
  function VideosAfterDelete(videos: map<Id, Video>, id: Id, c: Comment): map<Id, Video>
  {
    if c.parentComment.None? then PullComment(videos, c.video, id) else videos
  }

  /** The comments after deleting `c`: pulled from its parent, its direct replies removed, then
      itself. Replies of replies are left in place. */
  function CommentsAfterDelete(comments: map<Id, Comment>, id: Id, c: Comment): map<Id, Comment>
  {
    var pulled := if c.parentComment.None? then comments else PullReply(comments, c.parentComment.value, id);
    pulled - (set r | r in c.replies) - {id}
  }

  /** A deleted comment is gone, so are its direct replies, and every other comment is unchanged
      except that the parent no longer lists it. */
  lemma DeleteRemoves(comments: map<Id, Comment>, id: Id, c: Comment)
    ensures var r := CommentsAfterDelete(comments, id, c);
      && id !in r
      && (forall x :: x in c.replies ==> x !in r)
      && (forall x :: x in comments && x != id && x !in c.replies <==> x in r)
      && (forall x :: x in r && (c.parentComment.None? || x != c.parentComment.value) ==> r[x] == comments[x])
      && (c.parentComment.Some? && c.parentComment.value in r ==>
            r[c.parentComment.value].replies == Pull(comments[c.parentComment.value].replies, id))
  {
  }

  /** Deleting a comment keeps every remaining comment attached. */
  lemma DeleteKeepsLinked(videos: map<Id, Video>, comments: map<Id, Comment>, id: Id, c: Comment)
    requires Linked(videos, comments)
    ensures Linked(VideosAfterDelete(videos, id, c), CommentsAfterDelete(comments, id, c))
  {
    var vs, cs := VideosAfterDelete(videos, id, c), CommentsAfterDelete(comments, id, c);
    DeleteRemoves(comments, id, c);
    forall x | x in cs ensures Attached(vs, cs, x) {
      assert Attached(videos, comments, x);
      DeleteKeepsOtherAttached(videos, comments, id, c, x);
    }
  }

  lemma DeleteKeepsOtherAttached(videos: map<Id, Video>, comments: map<Id, Comment>, id: Id, c: Comment, x: Id)
    requires x in CommentsAfterDelete(comments, id, c)
    requires x in comments && Attached(videos, comments, x)
    ensures Attached(VideosAfterDelete(videos, id, c), CommentsAfterDelete(comments, id, c), x)
  {
    var vs, cs := VideosAfterDelete(videos, id, c), CommentsAfterDelete(comments, id, c);
    DeleteRemoves(comments, id, c);
    var d := comments[x];
    assert x != id;
    assert cs[x].parentComment == d.parentComment && cs[x].video == d.video;
    if d.parentComment.None? {
      if d.video in vs {
        assert x in videos[d.video].comments;
        if c.parentComment.None? && d.video == c.video {
          PullKeepsOthers(videos[d.video].comments, id, x);
        }
      }
    } else {
      var p := d.parentComment.value;
      if p in cs && p < x {
        assert x in comments[p].replies;
        if c.parentComment == Some(p) {
          PullKeepsOthers(comments[p].replies, id, x);
        }
      }
    }
  }

  /** How POST / ends: 400 when `text` or `videoId` is missing or empty; 404 for an unknown
      video; 500 when the new comment fails validation (a text of blanks, or over 500
      characters); 201 otherwise. */
  function AddStatus(videos: map<Id, Video>, user: Id, text: Option<string>, videoId: Option<Id>, parent: Option<Id>, now: int): (r: nat)
    ensures r in {201, 400, 404, 500}
    ensures r == 400 <==> !NotEmpty(text) || videoId.None?
    ensures r == 404 <==> NotEmpty(text) && videoId.Some? && videoId.value !in videos
    ensures r == 201 <==>
      NotEmpty(text) && videoId.Some? && videoId.value in videos &&
      CommentModel.Valid(CommentModel.NewComment(text.value, user, videoId.value, parent, now))
  {
    if !NotEmpty(text) || videoId.None? then 400
    else if videoId.value !in videos then 404
    else if !CommentModel.Valid(CommentModel.NewComment(text.value, user, videoId.value, parent, now)) then 500
    else 201
  }

  /** POST /: answers `AddStatus`; on 201 the comment is stored under a fresh id and attached to
      its video or to its parent. The parent is not looked up: a reply to a missing comment is
      stored but attached nowhere. */
  method Add(db: Db, user: Id, text: Option<string>, videoId: Option<Id>, parent: Option<Id>, now: int)
      returns (status: nat, id: Option<Id>)
    requires db.Valid()
    modifies db`comments, db`videos, db`nextId
    ensures db.Valid()
    ensures status == AddStatus(old(db.videos), user, text, videoId, parent, now)
    ensures status == 201 ==>
      var c := CommentModel.NewComment(text.value, user, videoId.value, parent, now);
      && id == Some(old(db.nextId))
      && db.comments == CommentsAfterAdd(old(db.comments), id.value, c)
      && db.videos == VideosAfterAdd(old(db.videos), id.value, c)
    ensures status != 201 ==> id.None? && db.comments == old(db.comments) && db.videos == old(db.videos)
    ensures Linked(old(db.videos), old(db.comments)) ==> Linked(db.videos, db.comments)
  {
    id := None;
    status := AddStatus(db.videos, user, text, videoId, parent, now);
    if status == 201 {
      var c := CommentModel.NewComment(text.value, user, videoId.value, parent, now);
      var newId := StoreComment(db, c);
      id := Some(newId);
    }
  }

  /** `comment.save()` under a fresh id, then the id pushed onto the video or the parent. */
  method StoreComment(db: Db, c: Comment) returns (id: Id)
    requires db.Valid()
    modifies db`comments, db`videos, db`nextId
    ensures db.Valid()
    ensures id == old(db.nextId)
    ensures db.comments == CommentsAfterAdd(old(db.comments), id, c)
    ensures db.videos == VideosAfterAdd(old(db.videos), id, c)
    ensures Linked(old(db.videos), old(db.comments)) ==> Linked(db.videos, db.comments)
  {
    id := db.FreshId();
    if Linked(db.videos, db.comments) {
      AddKeepsLinked(db.videos, db.comments, id, c);
    }
    db.comments := CommentsAfterAdd(db.comments, id, c);
    db.videos := VideosAfterAdd(db.videos, id, c);
  }

  /** The comment after PUT /:commentId: the text replaced (trimmed), marked edited at `now`. */
  function Edited(c: Comment, text: string, now: int): (r: Comment)
    ensures r.text == Trim(text) && r.isEdited && r.editedAt == Some(now)
    ensures r.(text := c.text, isEdited := c.isEdited, editedAt := c.editedAt) == c
  {
    c.(text := Trim(text), isEdited := true, editedAt := Some(now))
  }

  /** How PUT /:commentId ends: 400 for a missing or empty text, 404, 403 for anyone but the
      author; 500 when the new text fails validation; 200 otherwise. */
  function UpdateStatus(comments: map<Id, Comment>, commentId: Id, user: Id, text: Option<string>, now: int): (r: nat)
    ensures !NotEmpty(text) ==> r == 400
    ensures NotEmpty(text) && commentId !in comments ==> r == 404
    ensures NotEmpty(text) && commentId in comments && comments[commentId].author != user ==> r == 403
    ensures r == 200 <==>
      NotEmpty(text) && commentId in comments && comments[commentId].author == user &&
      CommentModel.Valid(Edited(comments[commentId], text.value, now))
    ensures r in {200, 400, 403, 404, 500}
  {
    if !NotEmpty(text) then 400
    else if commentId !in comments then 404
    else if comments[commentId].author != user then 403
    else if !CommentModel.Valid(Edited(comments[commentId], text.value, now)) then 500
    else 200
  }

  /** PUT /:commentId: on 200 the edited comment is saved; otherwise nothing changes. */
  method Update(db: Db, commentId: Id, user: Id, text: Option<string>, now: int) returns (status: nat)
    requires db.Valid()
    modifies db`comments
    ensures db.Valid()
    ensures status == UpdateStatus(old(db.comments), commentId, user, text, now)
    ensures status == 200 ==> db.comments == old(db.comments)[commentId := Edited(old(db.comments)[commentId], text.value, now)]
    ensures status != 200 ==> db.comments == old(db.comments)
    ensures Linked(db.videos, old(db.comments)) ==> Linked(db.videos, db.comments)
  {
    status := UpdateStatus(db.comments, commentId, user, text, now);
    if status == 200 {
      db.comments := db.comments[commentId := Edited(db.comments[commentId], text.value, now)];
    }
  }

  /** DELETE /:commentId: 404, 403 for anyone but the author; otherwise the comment is detached
      from its video or parent, its direct replies are deleted, and then the comment itself. */
  method Delete(db: Db, commentId: Id, user: Id) returns (status: nat)
    requires db.Valid()
    modifies db`comments, db`videos
    ensures db.Valid()
    ensures commentId !in old(db.comments) ==> status == 404
    ensures commentId in old(db.comments) && old(db.comments)[commentId].author != user ==> status == 403
    ensures status == 200 <==> commentId in old(db.comments) && old(db.comments)[commentId].author == user
    ensures status == 200 ==>
      && db.comments == CommentsAfterDelete(old(db.comments), commentId, old(db.comments)[commentId])
      && db.videos == VideosAfterDelete(old(db.videos), commentId, old(db.comments)[commentId])
    ensures status != 200 ==> db.comments == old(db.comments) && db.videos == old(db.videos)
    ensures Linked(old(db.videos), old(db.comments)) ==> Linked(db.videos, db.comments)
  {
    if commentId !in db.comments {
      return 404;
    }
    var c := db.comments[commentId];
    if c.author != user {
      return 403;
    }
    RemoveComment(db, commentId, c);
    return 200;
  }

  /** The deletion proper: detach the comment from its video or parent, delete its direct
      replies, then the comment. */
  method RemoveComment(db: Db, commentId: Id, c: Comment)
    requires db.Valid() && commentId in db.comments && db.comments[commentId] == c
    modifies db`comments, db`videos
    ensures db.Valid()
    ensures db.comments == CommentsAfterDelete(old(db.comments), commentId, c)
    ensures db.videos == VideosAfterDelete(old(db.videos), commentId, c)
    ensures Linked(old(db.videos), old(db.comments)) ==> Linked(db.videos, db.comments)
  {
    if Linked(db.videos, db.comments) {
      DeleteKeepsLinked(db.videos, db.comments, commentId, c);
    }
    var videos, comments := db.videos, db.comments;
    if c.parentComment.None? {
      videos := PullComment(videos, c.video, commentId);
    } else {
      comments := PullReply(comments, c.parentComment.value, commentId);
    }
    if |c.replies| > 0 {
      comments := comments - (set r | r in c.replies);
    }
    comments := comments - {commentId};
    assert comments.Keys <= db.comments.Keys && videos.Keys == db.videos.Keys;
    StoreComments(db, videos, comments);
  }

  /** The comment after one press of "like" by `user`. */
  function Liked(c: Comment, user: Id): Comment
  {
    var t := Toggle(LikeState(c.likedBy, c.likes), user);
    c.(likedBy := t.likedBy, likes := t.likes)
  }

  /** A like changes nothing validation looks at. */
  lemma LikeSavesValidRecords(c: Comment, user: Id)
    ensures CommentModel.Valid(Liked(c, user)) <==> CommentModel.Valid(c)
  {
  }

  /** POST /:commentId/like: the toggle on the comment, saved; the reply carries the new counter
      and whether it was a like. */
  method Like(db: Db, commentId: Id, user: Id) returns (status: nat, likes: Option<int>, liked: bool)
    requires db.Valid()
    modifies db`comments
    ensures db.Valid()
    ensures commentId !in old(db.comments) ==> status == 404 && likes.None? && db.comments == old(db.comments)
    ensures commentId in old(db.comments) ==>
      var c := old(db.comments)[commentId];
      if CommentModel.Valid(Liked(c, user)) then
        && status == 200 && likes == Some(Liked(c, user).likes) && liked == WasLike(LikeState(c.likedBy, c.likes), user)
        && db.comments == old(db.comments)[commentId := Liked(c, user)]
      else status == 500 && likes.None? && db.comments == old(db.comments)
    ensures Linked(db.videos, old(db.comments)) ==> Linked(db.videos, db.comments)
  {
    if commentId !in db.comments {
      return 404, None, false;
    }
    var c := db.comments[commentId];
    var nc := Liked(c, user);
    if !CommentModel.Valid(nc) {
      return 500, None, false;
    }
    db.comments := db.comments[commentId := nc];
    return 200, Some(nc.likes), WasLike(LikeState(c.likedBy, c.likes), user);
  }

  /** `createdAt: -1`: newer first. */
  predicate NewestFirst(a: Comment, b: Comment)
  {
    a.createdAt >= b.createdAt
  }

  lemma NewestFirstIsPreorder()
    ensures TotalPreorder(NewestFirst)
  {
  }

  /** The list filter: the top-level comments of one video. */
  predicate TopLevelOf(videoId: Id, c: Comment)
  {
    c.video == videoId && c.parentComment.None?
  }

  /** `TopLevelOf` as the filter document handed to `find` and `countDocuments`. */
  function TopLevelFilter(videoId: Id): Comment -> bool
  {
    c => TopLevelOf(videoId, c)
  }

  /** `find(filter).sort({ createdAt: -1 })` of GET /video/:videoId, before `skip` and `limit`:
      every top-level comment of the video once, nothing else, newest first. */
  function AllTopLevel(comments: map<Id, Comment>, videoId: Id): (r: seq<Comment>)
    ensures multiset(r) == multiset(Filter(Rows(comments), TopLevelFilter(videoId)))
    ensures |r| == |set id | id in comments && TopLevelOf(videoId, comments[id])|
    ensures forall id :: id in comments && TopLevelOf(videoId, comments[id]) ==> comments[id] in r
    ensures forall k :: 0 <= k < |r| ==> TopLevelOf(videoId, r[k]) && r[k] in comments.Values
    ensures SortedBy(r, NewestFirst)
  {
    var keep := TopLevelFilter(videoId);
    NewestFirstIsPreorder();
    QueryFacts(comments, keep, NewestFirst);
    assert Matching(comments, keep) == (set id | id in comments && TopLevelOf(videoId, comments[id]));
    Query(comments, keep, NewestFirst)
  }

  /** GET /video/:videoId: one page of the video's top-level comments, newest first, with `page`
      defaulting to 1 and `limit` to 10: the `PageSize` comments of `AllTopLevel` from position
      `skip` on. */
  function List(comments: map<Id, Comment>, videoId: Id, page: Option<int>, limit: Option<int>): (r: Option<Page<Comment>>)
    ensures var p, l := OrDefault(page, 1), OrDefault(limit, DefaultLimit);
      && (r.None? <==> Skip(p, l) < 0)
      && (r.Some? ==>
        && r.value.total == |set id | id in comments && TopLevelOf(videoId, comments[id])|
        && r.value.pages == PageCount(r.value.total, l)
        && |r.value.items| == PageSize(r.value.total, Skip(p, l), l)
        && (forall k :: 0 <= k < |r.value.items| ==>
          Skip(p, l) + k < |AllTopLevel(comments, videoId)| && r.value.items[k] == AllTopLevel(comments, videoId)[Skip(p, l) + k])
        && (forall k :: 0 <= k < |r.value.items| ==> TopLevelOf(videoId, r.value.items[k]))
        && SortedBy(r.value.items, NewestFirst))
  {
    var p, l := OrDefault(page, 1), OrDefault(limit, DefaultLimit);
    PageOfTopLevel(comments, videoId, p, l);
    Paginate(AllTopLevel(comments, videoId), p, l)
  }

  /** The facts of `List` about a page of `AllTopLevel`, for any page number and limit. */
  lemma PageOfTopLevel(comments: map<Id, Comment>, videoId: Id, p: int, l: int)
    ensures var r := Paginate(AllTopLevel(comments, videoId), p, l);
      && (r.None? <==> Skip(p, l) < 0)
      && (r.Some? ==>
        && r.value.total == |set id | id in comments && TopLevelOf(videoId, comments[id])|
        && r.value.pages == PageCount(r.value.total, l)
        && |r.value.items| == PageSize(r.value.total, Skip(p, l), l)
        && (forall k :: 0 <= k < |r.value.items| ==>
          Skip(p, l) + k < |AllTopLevel(comments, videoId)| && r.value.items[k] == AllTopLevel(comments, videoId)[Skip(p, l) + k])
        && (forall k :: 0 <= k < |r.value.items| ==> TopLevelOf(videoId, r.value.items[k]))
        && SortedBy(r.value.items, NewestFirst))
  {
    var all := AllTopLevel(comments, videoId);
    PaginateKeepsOrder(all, NewestFirst, p, l);
    var r := Paginate(all, p, l);
    if r.Some? {
      forall k | 0 <= k < |r.value.items| ensures TopLevelOf(videoId, r.value.items[k]) {
        assert r.value.items[k] == all[Skip(p, l) + k];
      }
    }
  }
}
