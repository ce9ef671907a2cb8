/** The like/unlike toggle. The same few lines appear three times in the source: for a video
    (backend/routes/videoRoutes.js), a comment (backend/routes/comments.js) and an answer
    (backend/routes/qa.js); they are defined once here. */
module Likes {
  import opened Common
  import opened Lists

  /** Who liked a record (`likedBy`) and its `likes` counter. */
  datatype LikeState = LikeState(likedBy: seq<Id>, likes: int)

  /** A record's like state is consistent when the counter is the number of distinct likers. */
  predicate Consistent(s: LikeState)
  {
    NoDup(s.likedBy) && s.likes == |s.likedBy|
  }

  /** One press of "like" by `user`: a user found in `likedBy` is spliced out at their first
      position and the counter drops, never below zero; anyone else is pushed and counted. */
  function Toggle(s: LikeState, user: Id): (r: LikeState)
    ensures user in s.likedBy ==>
      multiset(r.likedBy) == multiset(s.likedBy) - multiset{user} && r.likes == if s.likes > 0 then s.likes - 1 else 0
    ensures user !in s.likedBy ==> r.likedBy == s.likedBy + [user] && r.likes == s.likes + 1
    ensures s.likes >= 0 ==> r.likes >= 0
  {
    var i := IndexOf(s.likedBy, user);
    if i > -1 then LikeState(RemoveAt(s.likedBy, i), if s.likes - 1 > 0 then s.likes - 1 else 0)
    else LikeState(s.likedBy + [user], s.likes + 1)
  }

  /** Whether the toggle was a like (as opposed to an unlike): the reply message depends on it. */
  function WasLike(s: LikeState, user: Id): bool
  {
    IndexOf(s.likedBy, user) == -1
  }

  /** On a duplicate-free list, the toggle flips the user's membership and nobody else's,
      and keeps a consistent state consistent. */
  lemma ToggleFlipsMembership(s: LikeState, user: Id)
    requires NoDup(s.likedBy)
    ensures var r := Toggle(s, user);
      && NoDup(r.likedBy)
      && (user in r.likedBy <==> user !in s.likedBy)
      && (forall v :: v != user ==> (v in r.likedBy <==> v in s.likedBy))
      && (Consistent(s) ==> Consistent(r))
  {
    var i := IndexOf(s.likedBy, user);
    if i > -1 {
      RemoveAtNoDup(s.likedBy, i);
    } else {
      AppendNoDup(s.likedBy, user);
    }
  }

  /** Liking twice restores the state: exactly when the user had not liked yet, and up to the
      user's position in `likedBy` when they had. */
  lemma ToggleTwiceRestores(s: LikeState, user: Id)
    requires Consistent(s)
    ensures var r := Toggle(Toggle(s, user), user);
      && multiset(r.likedBy) == multiset(s.likedBy)
      && r.likes == s.likes
      && (user !in s.likedBy ==> r == s)
  {
    if user in s.likedBy {
      UnlikeThenLike(s, user);
    } else {
      LikeThenUnlike(s, user);
    }
  }

  lemma UnlikeThenLike(s: LikeState, user: Id)
    requires Consistent(s) && user in s.likedBy
    ensures var r := Toggle(Toggle(s, user), user);
      multiset(r.likedBy) == multiset(s.likedBy) && r.likes == s.likes
  {
    var t := Toggle(s, user);
    RemoveAtNoDup(s.likedBy, IndexOf(s.likedBy, user));
    assert user !in t.likedBy;
    assert multiset(s.likedBy)[user] >= 1;
  }

  lemma LikeThenUnlike(s: LikeState, user: Id)
    requires s.likes >= 0 && user !in s.likedBy
    ensures Toggle(Toggle(s, user), user) == s
  {
    var t := Toggle(s, user);
    assert t.likedBy == s.likedBy + [user];
    var i := IndexOf(t.likedBy, user);
    assert i == |s.likedBy| by {
      assert t.likedBy[|s.likedBy|] == user;
      assert t.likedBy[..|s.likedBy|] == s.likedBy;
    }
    assert RemoveAt(t.likedBy, i) == s.likedBy;
  }
}
