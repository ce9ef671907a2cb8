/** The comment record of backend/models/Comment.js. A comment is top-level when
    `parentComment` is null and a reply otherwise; `replies` lists the ids of its direct
    replies. */
module CommentModel {
  import opened Common
  import opened Text

  datatype Comment = Comment(
    text: string,
    author: Id,
    video: Id,
    likes: int,
    likedBy: seq<Id>,
    replies: seq<Id>,
    parentComment: Option<Id>,
    isEdited: bool,
    editedAt: Option<int>,
    status: string,
    createdAt: int)

  const Statuses: set<string> := {"approved", "pending", "rejected"}

  /** What `save()` validates: non-empty text of at most 500 UTF-16 units and a known status. */
  predicate Valid(c: Comment)
  {
    c.text != [] && Utf16Length(c.text) <= 500 && c.status in Statuses
  }

  /** `new Comment({ text, author, video, parentComment })`: the text is trimmed by its setter,
      every other field takes its default. */
  function NewComment(text: string, author: Id, video: Id, parent: Option<Id>, createdAt: int): Comment
  {
    Comment(Trim(text), author, video, 0, [], [], parent, false, None, "approved", createdAt)
  }

  /** A new comment is unliked, has no replies, is not edited, is approved, and is top-level
      exactly when no parent was given. */
  lemma NewCommentDefaults(text: string, author: Id, video: Id, parent: Option<Id>, createdAt: int)
    ensures var c := NewComment(text, author, video, parent, createdAt);
      && c.likes == 0 && c.likedBy == [] && c.replies == []
      && !c.isEdited && c.editedAt.None? && c.status == "approved"
      && (c.parentComment.None? <==> parent.None?)
  {
  }

  /** A new comment saves exactly when its trimmed text is non-empty and at most 500 UTF-16 units:
      a text of white space only passes the handler's `notEmpty` check and fails here. */
  lemma NewCommentValidIff(text: string, author: Id, video: Id, parent: Option<Id>, createdAt: int)
    ensures Valid(NewComment(text, author, video, parent, createdAt)) <==> Trim(text) != [] && Utf16Length(Trim(text)) <= 500
  {
  }
}
