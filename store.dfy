/** The MongoDB collections and the upload directory the handlers work on, as one object whose
    tables the handlers update in place. Documents are keyed by their ObjectId, drawn from one
    counter, so ids never collide across collections and a larger id is a later insert: reading
    a collection in ascending id order is reading it in its natural order. */
module Store {
  import opened Common
  import opened Lists
  import UserModel
  import VideoModel
  import CommentModel
  import QAModel
  import PlaylistModel

  class Db {
    var users: map<Id, UserModel.User>
    var videos: map<Id, VideoModel.Video>
    var comments: map<Id, CommentModel.Comment>
    var qas: map<Id, QAModel.QA>
    var playlists: map<Id, PlaylistModel.Playlist>
    /** The files under `uploads/videos`, by file name. */
    var files: map<string, seq<byte>>
    /** The next ObjectId to hand out. */
    var nextId: nat

    /** Every id in use, documents and embedded answers alike, is below `nextId`. */
    ghost predicate Valid()
      reads this
    {
      && (forall id :: id in users ==> id < nextId)
      && (forall id :: id in videos ==> id < nextId)
      && (forall id :: id in comments ==> id < nextId)
      && (forall id :: id in qas ==> id < nextId)
      && (forall id :: id in playlists ==> id < nextId)
      && (forall id, k :: id in qas && 0 <= k < |qas[id].answers| ==> qas[id].answers[k].id < nextId)
    }

    constructor ()
      ensures Valid()
      ensures users == map[] && videos == map[] && comments == map[] && qas == map[] && playlists == map[]
      ensures files == map[] && nextId == 0
    {
      users, videos, comments, qas, playlists := map[], map[], map[], map[], map[];
      files, nextId := map[], 0;
    }

    /** A new ObjectId: used by no document and no answer. */
    method FreshId() returns (id: Id)
      requires Valid()
      modifies this`nextId
      ensures Valid() && id == old(nextId) && nextId == id + 1
      ensures id !in users && id !in videos && id !in comments && id !in qas && id !in playlists
    {
      id := nextId;
      nextId := nextId + 1;
    }
  }

  /** `findByIdAndUpdate` of an existing playlist: the record under `id` is replaced. */
  method ReplacePlaylist(db: Db, id: Id, p: PlaylistModel.Playlist)
    requires db.Valid() && id in db.playlists
    modifies db`playlists
    ensures db.Valid() && db.playlists == old(db.playlists)[id := p]
  {
    db.playlists := db.playlists[id := p];
  }

  /** `user.save()`: the account under `id`, an id already handed out, is written. */
  method PutUser(db: Db, id: Id, u: UserModel.User)
    requires db.Valid() && id < db.nextId
    modifies db`users
    ensures db.Valid() && db.users == old(db.users)[id := u]
  {
    db.users := db.users[id := u];
  }

  /** `video.save()`: the video under `id`, an id already handed out, is written. */
  method PutVideo(db: Db, id: Id, v: VideoModel.Video)
    requires db.Valid() && id < db.nextId
    modifies db`videos
    ensures db.Valid() && db.videos == old(db.videos)[id := v]
  {
    db.videos := db.videos[id := v];
  }

  /** Several updates to the comments and the videos, none of which adds a document. */
  method StoreComments(db: Db, videos: map<Id, VideoModel.Video>, comments: map<Id, CommentModel.Comment>)
    requires db.Valid() && videos.Keys <= db.videos.Keys && comments.Keys <= db.comments.Keys
    modifies db`videos, db`comments
    ensures db.Valid() && db.videos == videos && db.comments == comments
  {
    db.videos, db.comments := videos, comments;
  }

  /** One more than the largest id in `ids`; zero for none. */
  function Above(ids: set<Id>): (r: nat)
    ensures forall id :: id in ids ==> id < r
  {
    if ids == {} then 0
    else
      HasLargest(ids);
      var x :| x in ids && forall y :: y in ids ==> y <= x;
      x + 1
  }

  lemma HasLargest(ids: set<Id>)
    requires ids != {}
    ensures exists x :: x in ids && forall y :: y in ids ==> y <= x
  {
    var z :| z in ids;
    if ids != {z} {
      HasLargest(ids - {z});
      var x :| x in ids - {z} && forall y :: y in ids - {z} ==> y <= x;
      var top := if z > x then z else x;
      forall y | y in ids ensures y <= top {
        if y != z { assert y in ids - {z}; }
      }
    } else {
      forall y | y in ids ensures y <= z { }
    }
  }

  /** The documents of `m` with ids below `n`, in ascending id order. */
  function RowsBelow<T>(m: map<Id, T>, n: nat): seq<T>
  {
    if n == 0 then []
    else RowsBelow(m, n - 1) + (if n - 1 in m then [m[n - 1]] else [])
  }

  /** A collection read in its natural (insertion) order: every document, by ascending id. */
  function Rows<T>(m: map<Id, T>): seq<T>
  {
    RowsBelow(m, Above(m.Keys))
  }

  /** Reading a collection yields its documents: each one of them, and nothing else. */
  lemma RowsAreDocuments<T>(m: map<Id, T>)
    ensures forall id :: id in m ==> m[id] in Rows(m)
    ensures forall k :: 0 <= k < |Rows(m)| ==> Rows(m)[k] in m.Values
  {
    RowsBelowAreDocuments(m, Above(m.Keys));
  }

  lemma {:induction false} RowsBelowAreDocuments<T>(m: map<Id, T>, n: nat)
    ensures forall id :: id in m && id < n ==> m[id] in RowsBelow(m, n)
    ensures forall k :: 0 <= k < |RowsBelow(m, n)| ==> RowsBelow(m, n)[k] in m.Values
  {
    if n > 0 {
      RowsBelowAreDocuments(m, n - 1);
      var before, last := RowsBelow(m, n - 1), if n - 1 in m then [m[n - 1]] else [];
      assert RowsBelow(m, n) == before + last;
      forall k | 0 <= k < |RowsBelow(m, n)| ensures RowsBelow(m, n)[k] in m.Values {
        if k >= |before| {
          assert RowsBelow(m, n)[k] == m[n - 1];
        } else {
          assert RowsBelow(m, n)[k] == before[k];
        }
      }
    }
  }

  /** The ids below `n` of the documents of `m` that satisfy `p`. */
  function MatchingBelow<T>(m: map<Id, T>, p: T -> bool, n: nat): set<Id>
  {
    set id | id in m && id < n && p(m[id])
  }

  /** The ids of the documents of `m` that satisfy `p`. */
  function Matching<T>(m: map<Id, T>, p: T -> bool): set<Id>
  {
    set id | id in m && p(m[id])
  }

  /** `countDocuments(filter)` counts what `find(filter)` lists: the documents the filter keeps,
      read in natural order, are as many as the documents that satisfy it. */
  lemma CountMatches<T>(m: map<Id, T>, p: T -> bool)
    ensures |Filter(Rows(m), p)| == |Matching(m, p)|
  {
    CountMatchesBelow(m, p, Above(m.Keys));
    assert MatchingBelow(m, p, Above(m.Keys)) == Matching(m, p);
  }

  lemma {:induction false} CountMatchesBelow<T>(m: map<Id, T>, p: T -> bool, n: nat)
    ensures |Filter(RowsBelow(m, n), p)| == |MatchingBelow(m, p, n)|
  {
    if n > 0 {
      var k := n - 1;
      CountMatchesBelow(m, p, k);
      RowStep(m, p, k);
      MatchingStep(m, p, k);
      assert k + 1 == n;
    }
  }

  /** One more id adds its document to the filtered rows when it is present and kept. */
  lemma RowStep<T>(m: map<Id, T>, p: T -> bool, n: nat)
    ensures |Filter(RowsBelow(m, n + 1), p)| == |Filter(RowsBelow(m, n), p)| + (if n in m && p(m[n]) then 1 else 0)
  {
    var s := RowsBelow(m, n);
    if n in m {
      assert RowsBelow(m, n + 1) == s + [m[n]];
      assert (s + [m[n]])[..|s|] == s;
    } else {
      assert RowsBelow(m, n + 1) == s + [];
      assert s + [] == s;
    }
  }

  /** One more id adds itself to the matching ids when it is present and kept. */
  lemma MatchingStep<T>(m: map<Id, T>, p: T -> bool, n: nat)
    ensures |MatchingBelow(m, p, n + 1)| == |MatchingBelow(m, p, n)| + (if n in m && p(m[n]) then 1 else 0)
  {
    if n in m && p(m[n]) {
      assert MatchingBelow(m, p, n + 1) == MatchingBelow(m, p, n) + {n};
    } else {
      assert MatchingBelow(m, p, n + 1) == MatchingBelow(m, p, n);
    }
  }

  /** The first document in natural order that satisfies `p`, if any (`findOne(filter)`). */
  function FirstId<T>(m: map<Id, T>, p: T -> bool): (r: Option<Id>)
    ensures r.Some? ==> r.value in m && p(m[r.value])
    ensures r.Some? ==> forall id :: id in m && id < r.value ==> !p(m[id])
    ensures r.None? ==> forall id :: id in m ==> !p(m[id])
  {
    FirstBelow(m, p, Above(m.Keys))
  }

  function FirstBelow<T>(m: map<Id, T>, p: T -> bool, n: nat): (r: Option<Id>)
    ensures r.Some? ==> r.value in m && r.value < n && p(m[r.value])
    ensures r.Some? ==> forall id :: id in m && id < r.value ==> !p(m[id])
    ensures r.None? ==> forall id :: id in m && id < n ==> !p(m[id])
  {
    if n == 0 then None
    else
      var r := FirstBelow(m, p, n - 1);
      if r.Some? then r
      else if n - 1 in m && p(m[n - 1]) then Some(n - 1)
      else None
  }
}
