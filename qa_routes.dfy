/** The handlers of backend/routes/qa.js. `Settled` is the promise of the accept flow: a resolved
    question is closed and names an accepted answer it holds; every handler keeps it. */
module QARoutes {
  import opened Common
  import opened Text
  import opened Lists
  import opened Likes
  import opened Paging
  import opened Sorting
  import opened Fields
  import opened Store
  import opened Listing
  import VideoModel
  import QAModel

  type Video = VideoModel.Video
  type QA = QAModel.QA
  type Answer = QAModel.Answer

  /** The `limit` of the list handler when the query has none. */
  const DefaultLimit: int := 10

  /** A resolved question is closed, and its `acceptedAnswer` is the id of an answer it holds
      (the first with that id) that is marked accepted. */
  predicate Settled(q: QA)
  {
    q.isResolved ==>
      && q.status == "closed" && q.acceptedAnswer.Some?
      && var i := QAModel.AnswerIndex(q.answers, q.acceptedAnswer.value);
         i >= 0 && q.answers[i].isAccepted
  }

  /** No two answers of a question share an id. */
  predicate DistinctAnswerIds(q: QA)
  {
    forall i, j :: 0 <= i < j < |q.answers| ==> q.answers[i].id != q.answers[j].id
  }

  /** Answers with the same ids in the same places are searched alike. */
  lemma {:induction false} AnswerIndexSameIds(s: seq<Answer>, t: seq<Answer>, id: Id)
    requires |s| == |t| && forall k :: 0 <= k < |s| ==> s[k].id == t[k].id
    ensures QAModel.AnswerIndex(s, id) == QAModel.AnswerIndex(t, id)
  {
    if s != [] {
      AnswerIndexSameIds(s[1..], t[1..], id);
    }
  }

  /** Appending an answer does not move an answer already found. */
  lemma AnswerIndexAppend(s: seq<Answer>, a: Answer, id: Id)
    requires QAModel.AnswerIndex(s, id) >= 0
    ensures QAModel.AnswerIndex(s + [a], id) == QAModel.AnswerIndex(s, id)
  {
    var i := QAModel.AnswerIndex(s, id);
    assert (s + [a])[i] == s[i];
  }

  /** `new QA(...)` with the request's tags and `priority` (`'medium'` when absent). */
  function Asked(question: string, user: Id, videoId: Id, tags: seq<string>, priority: Option<string>, now: int): QA
  {
    QAModel.NewQA(question, user, videoId, tags, if priority.Some? then priority.value else "medium", now)
  }

  /** How POST / ends: 400 when `question` or `videoId` is missing or empty; 404 for an unknown
      video; 500 when `tags` is not a string (`split` throws) or the question fails validation
      (a question of blanks or over 500 characters, an unknown priority); 201 otherwise. */
  function AskStatus(videos: map<Id, Video>, user: Id, question: Option<string>, videoId: Option<Id>,
                     tags: TagInput, priority: Option<string>, now: int): (r: nat)
    ensures r in {201, 400, 404, 500}
    ensures r == 400 <==> !NotEmpty(question) || videoId.None?
    ensures r == 404 <==> NotEmpty(question) && videoId.Some? && videoId.value !in videos
    ensures r == 201 <==>
      && NotEmpty(question) && videoId.Some? && videoId.value in videos && tags.TagText?
      && QAModel.Valid(Asked(question.value, user, videoId.value, SplitTags(tags.text), priority, now))
  {
    if !NotEmpty(question) || videoId.None? then 400
    else if videoId.value !in videos then 404
    else if !tags.TagText? then 500
    else if !QAModel.Valid(Asked(question.value, user, videoId.value, SplitTags(tags.text), priority, now)) then 500
    else 201
  }

  /** POST /: answers `AskStatus`; on 201 the question is stored under a fresh id and pushed onto
      the video's `qaSection`. A new question is settled. */
  method Ask(db: Db, user: Id, question: Option<string>, videoId: Option<Id>, tags: TagInput,
             priority: Option<string>, now: int) returns (status: nat, id: Option<Id>)
    requires db.Valid()
    modifies db`qas, db`videos, db`nextId
    ensures db.Valid()
    ensures status == AskStatus(old(db.videos), user, question, videoId, tags, priority, now)
    ensures status == 201 ==>
      var q := Asked(question.value, user, videoId.value, SplitTags(tags.text), priority, now);
      && id == Some(old(db.nextId)) && Settled(q)
      && db.qas == old(db.qas)[id.value := q]
      && db.videos == old(db.videos)[videoId.value := old(db.videos)[videoId.value].(qaSection := old(db.videos)[videoId.value].qaSection + [id.value])]
    ensures status != 201 ==> id.None? && db.qas == old(db.qas) && db.videos == old(db.videos)
  {
    id := None;
    status := AskStatus(db.videos, user, question, videoId, tags, priority, now);
    if status == 201 {
      var q := Asked(question.value, user, videoId.value, SplitTags(tags.text), priority, now);
      QAModel.NewQADefaults(question.value, user, videoId.value, SplitTags(tags.text),
                            if priority.Some? then priority.value else "medium", now);
      var newId := StoreQuestion(db, q, videoId.value);
      id := Some(newId);
    }
  }

  /** `question.save()` under a fresh id, then the id pushed onto the video's `qaSection`. */
  method StoreQuestion(db: Db, q: QA, videoId: Id) returns (id: Id)
    requires db.Valid() && videoId in db.videos && q.answers == []
    modifies db`qas, db`videos, db`nextId
    ensures db.Valid()
    ensures id == old(db.nextId)
    ensures db.qas == old(db.qas)[id := q]
    ensures db.videos == old(db.videos)[videoId := old(db.videos)[videoId].(qaSection := old(db.videos)[videoId].qaSection + [id])]
  {
    id := db.FreshId();
    db.qas := db.qas[id := q];
    var v := db.videos[videoId];
    db.videos := db.videos[videoId := v.(qaSection := v.qaSection + [id])];
  }

  /** The question after an answer with sub-document id `id` is pushed: the answer goes last and
      an open question becomes answered. */
  function Answered(q: QA, id: Id, text: string, user: Id, now: int): (r: QA)
    ensures r.answers == q.answers + [QAModel.NewAnswer(id, text, user, now)]
    ensures r.status == QAModel.StatusAfterAnswer(q.status)
    ensures r.(answers := q.answers, status := q.status) == q
  {
    q.(answers := q.answers + [QAModel.NewAnswer(id, text, user, now)], status := QAModel.StatusAfterAnswer(q.status))
  }

  /** Answering keeps a question settled, and keeps its answer ids distinct when the new id is new. */
  lemma AnswerKeepsSettled(q: QA, id: Id, text: string, user: Id, now: int)
    requires Settled(q)
    ensures Settled(Answered(q, id, text, user, now))
    ensures DistinctAnswerIds(q) && (forall k :: 0 <= k < |q.answers| ==> q.answers[k].id != id) ==>
      DistinctAnswerIds(Answered(q, id, text, user, now))
  {
    if q.isResolved {
      AnswerIndexAppend(q.answers, QAModel.NewAnswer(id, text, user, now), q.acceptedAnswer.value);
    }
  }

  /** POST /:qaId/answer: 400 for a missing or empty text, 404 for an unknown question; otherwise
      the answer is pushed under a fresh sub-document id and the question saved (201), or 500
      when validation fails (an answer over 1000 characters). */
  method PostAnswer(db: Db, qaId: Id, user: Id, text: Option<string>, now: int) returns (status: nat, answerId: Option<Id>)
    requires db.Valid()
    modifies db`qas, db`nextId
    ensures db.Valid()
    ensures !NotEmpty(text) ==> status == 400
    ensures NotEmpty(text) && qaId !in old(db.qas) ==> status == 404
    ensures status == 201 <==>
      NotEmpty(text) && qaId in old(db.qas) && QAModel.Valid(Answered(old(db.qas)[qaId], old(db.nextId), text.value, user, now))
    ensures status == 201 ==>
      && answerId == Some(old(db.nextId))
      && db.qas == old(db.qas)[qaId := Answered(old(db.qas)[qaId], answerId.value, text.value, user, now)]
    ensures status != 201 ==> answerId.None? && db.qas == old(db.qas)
    ensures status == 201 ==> forall k :: 0 <= k < |old(db.qas)[qaId].answers| ==> old(db.qas)[qaId].answers[k].id != answerId.value
    ensures status == 201 && Settled(old(db.qas)[qaId]) ==> Settled(db.qas[qaId])
    ensures status == 201 && DistinctAnswerIds(old(db.qas)[qaId]) ==> DistinctAnswerIds(db.qas[qaId])
  {
    answerId := None;
    if !NotEmpty(text) {
      return 400, None;
    }
    if qaId !in db.qas {
      return 404, None;
    }
    var q := db.qas[qaId];
    var candidate := Answered(q, db.nextId, text.value, user, now);
    if !QAModel.Valid(candidate) {
      return 500, None;
    }
    assert forall k :: 0 <= k < |q.answers| ==> q.answers[k].id < db.nextId;
    if Settled(q) {
      AnswerKeepsSettled(q, db.nextId, text.value, user, now);
    }
    var newId := db.FreshId();
    db.qas := db.qas[qaId := candidate];
    return 201, Some(newId);
  }

  /** Accepting an answer found by its id settles the question. */
  lemma AcceptSettles(q: QA, answerId: Id)
    requires QAModel.AnswerIndex(q.answers, answerId) >= 0
    ensures Settled(QAModel.Accept(q, QAModel.AnswerIndex(q.answers, answerId)))
  {
    var i := QAModel.AnswerIndex(q.answers, answerId);
    var r := QAModel.Accept(q, i);
    AnswerIndexSameIds(q.answers, r.answers, answerId);
  }

  /** POST /:qaId/accept-answer/:answerId: 404 for an unknown question, 403 for anyone but the
      asker, 404 when no answer has that id; otherwise the first answer with it is accepted and
      the question resolved and closed, and saved (200; 500 if the question does not validate). */
  method AcceptAnswer(db: Db, qaId: Id, user: Id, answerId: Id) returns (status: nat)
    requires db.Valid()
    modifies db`qas
    ensures db.Valid()
    ensures qaId !in old(db.qas) ==> status == 404
    ensures qaId in old(db.qas) && old(db.qas)[qaId].askedBy != user ==> status == 403
    ensures qaId in old(db.qas) && old(db.qas)[qaId].askedBy == user && QAModel.AnswerIndex(old(db.qas)[qaId].answers, answerId) < 0 ==> status == 404
    ensures status == 200 <==>
      && qaId in old(db.qas) && old(db.qas)[qaId].askedBy == user && QAModel.AnswerIndex(old(db.qas)[qaId].answers, answerId) >= 0
      && QAModel.Valid(QAModel.Accept(old(db.qas)[qaId], QAModel.AnswerIndex(old(db.qas)[qaId].answers, answerId)))
    ensures status == 200 ==>
      && db.qas == old(db.qas)[qaId := QAModel.Accept(old(db.qas)[qaId], QAModel.AnswerIndex(old(db.qas)[qaId].answers, answerId))]
      && Settled(db.qas[qaId])
    ensures status != 200 ==> db.qas == old(db.qas)
  {
    if qaId !in db.qas {
      return 404;
    }
    var q := db.qas[qaId];
    if q.askedBy != user {
      return 403;
    }
    var i := QAModel.AnswerIndex(q.answers, answerId);
    if i == -1 {
      return 404;
    }
    var accepted := QAModel.Accept(q, i);
    if !QAModel.Valid(accepted) {
      return 500;
    }
    AcceptSettles(q, answerId);
    db.qas := db.qas[qaId := accepted];
    return 200;
  }

  /** The question after `user` presses "like" on the answer at position `i`. */
  function LikedAnswer(q: QA, i: nat, user: Id): (r: QA)
    requires i < |q.answers|
    ensures |r.answers| == |q.answers|
    ensures forall k :: 0 <= k < |q.answers| ==> r.answers[k].id == q.answers[k].id && r.answers[k].isAccepted == q.answers[k].isAccepted
  {
    var a := q.answers[i];
    var t := Toggle(LikeState(a.likedBy, a.likes), user);
    q.(answers := q.answers[i := a.(likedBy := t.likedBy, likes := t.likes)])
  }

  /** Liking an answer keeps the question settled and valid. */
  lemma LikeKeepsSettled(q: QA, i: nat, user: Id)
    requires i < |q.answers|
    ensures Settled(q) ==> Settled(LikedAnswer(q, i, user))
    ensures QAModel.Valid(q) ==> QAModel.Valid(LikedAnswer(q, i, user))
  {
    var r := LikedAnswer(q, i, user);
    AnswerIndexSameIds(q.answers, r.answers, if q.acceptedAnswer.Some? then q.acceptedAnswer.value else 0);
    if QAModel.Valid(q) {
      forall k | 0 <= k < |r.answers| ensures QAModel.ValidAnswer(r.answers[k]) {
        assert QAModel.ValidAnswer(q.answers[k]);
      }
    }
  }

  /** POST /:qaId/answer/:answerId/like: 404 for an unknown question or answer; otherwise the
      toggle on the (first) answer with that id, saved; the reply carries its new counter. */
  method LikeAnswer(db: Db, qaId: Id, answerId: Id, user: Id) returns (status: nat, likes: Option<int>)
    requires db.Valid()
    modifies db`qas
    ensures db.Valid()
    ensures qaId !in old(db.qas) ==> status == 404
    ensures qaId in old(db.qas) && QAModel.AnswerIndex(old(db.qas)[qaId].answers, answerId) < 0 ==> status == 404
    ensures status == 200 <==>
      && qaId in old(db.qas) && QAModel.AnswerIndex(old(db.qas)[qaId].answers, answerId) >= 0
      && QAModel.Valid(LikedAnswer(old(db.qas)[qaId], QAModel.AnswerIndex(old(db.qas)[qaId].answers, answerId), user))
    ensures status == 200 ==>
      var i := QAModel.AnswerIndex(old(db.qas)[qaId].answers, answerId);
      && db.qas == old(db.qas)[qaId := LikedAnswer(old(db.qas)[qaId], i, user)]
      && likes == Some(db.qas[qaId].answers[i].likes)
    ensures status != 200 ==> db.qas == old(db.qas) && likes.None?
    ensures qaId in old(db.qas) && Settled(old(db.qas)[qaId]) ==> Settled(db.qas[qaId])
  {
    if qaId !in db.qas {
      return 404, None;
    }
    var q := db.qas[qaId];
    var i := QAModel.AnswerIndex(q.answers, answerId);
    if i == -1 {
      return 404, None;
    }
    var liked := LikedAnswer(q, i, user);
    LikeKeepsSettled(q, i, user);
    if !QAModel.Valid(liked) {
      return 500, None;
    }
    db.qas := db.qas[qaId := liked];
    return 200, Some(liked.answers[i].likes);
  }

  /** GET /:qaId: the view counter goes up by exactly one; 404 for an unknown question. */
  method Get(db: Db, qaId: Id) returns (status: nat, qa: Option<QA>)
    requires db.Valid()
    modifies db`qas
    ensures db.Valid()
    ensures qaId !in old(db.qas) ==> status == 404 && qa.None? && db.qas == old(db.qas)
    ensures qaId in old(db.qas) ==>
      && status == 200 && qa == Some(old(db.qas)[qaId].(views := old(db.qas)[qaId].views + 1))
      && db.qas == old(db.qas)[qaId := qa.value]
  {
    if qaId !in db.qas {
      return 404, None;
    }
    var q := db.qas[qaId];
    var viewed := q.(views := q.views + 1);
    db.qas := db.qas[qaId := viewed];
    return 200, Some(viewed);
  }

  /** PUT /:qaId: 400 for a missing or empty question, 404, 403 for anyone but the asker; then the
      question text is replaced (trimmed) and saved; 500 when it fails validation. */
  method Update(db: Db, qaId: Id, user: Id, question: Option<string>) returns (status: nat)
    requires db.Valid()
    modifies db`qas
    ensures db.Valid()
    ensures !NotEmpty(question) ==> status == 400
    ensures NotEmpty(question) && qaId !in old(db.qas) ==> status == 404
    ensures NotEmpty(question) && qaId in old(db.qas) && old(db.qas)[qaId].askedBy != user ==> status == 403
    ensures status == 200 <==>
      NotEmpty(question) && qaId in old(db.qas) && old(db.qas)[qaId].askedBy == user &&
      QAModel.Valid(old(db.qas)[qaId].(question := Trim(question.value)))
    ensures status == 200 ==> db.qas == old(db.qas)[qaId := old(db.qas)[qaId].(question := Trim(question.value))]
    ensures status != 200 ==> db.qas == old(db.qas)
  {
    if !NotEmpty(question) {
      return 400;
    }
    if qaId !in db.qas {
      return 404;
    }
    var q := db.qas[qaId];
    if q.askedBy != user {
      return 403;
    }
    var edited := q.(question := Trim(question.value));
    if !QAModel.Valid(edited) {
      return 500;
    }
    db.qas := db.qas[qaId := edited];
    return 200;
  }

  /** DELETE /:qaId: 404, 403 for anyone but the asker; otherwise the question is pulled from its
      video's `qaSection` (when the video still exists) and deleted. */
  method Delete(db: Db, qaId: Id, user: Id) returns (status: nat)
    requires db.Valid()
    modifies db`qas, db`videos
    ensures db.Valid()
    ensures qaId !in old(db.qas) ==> status == 404
    ensures qaId in old(db.qas) && old(db.qas)[qaId].askedBy != user ==> status == 403
    ensures status == 200 <==> qaId in old(db.qas) && old(db.qas)[qaId].askedBy == user
    ensures status == 200 ==>
      var v := old(db.qas)[qaId].video;
      && db.qas == old(db.qas) - {qaId}
      && db.videos == if v in old(db.videos) then old(db.videos)[v := old(db.videos)[v].(qaSection := Pull(old(db.videos)[v].qaSection, qaId))] else old(db.videos)
    ensures status != 200 ==> db.qas == old(db.qas) && db.videos == old(db.videos)
  {
    if qaId !in db.qas {
      return 404;
    }
    var q := db.qas[qaId];
    if q.askedBy != user {
      return 403;
    }
    if q.video in db.videos {
      var v := db.videos[q.video];
      db.videos := db.videos[q.video := v.(qaSection := Pull(v.qaSection, qaId))];
    }
    db.qas := db.qas - {qaId};
    return 200;
  }

  /** `sort({ isResolved: 1, createdAt: -1 })`: unresolved questions first, newer first within each. */
  predicate UnresolvedThenNewest(a: QA, b: QA)
  {
    (!a.isResolved && b.isResolved) || (a.isResolved == b.isResolved && a.createdAt >= b.createdAt)
  }

  lemma UnresolvedThenNewestIsPreorder()
    ensures TotalPreorder(UnresolvedThenNewest)
  {
  }

  /** The list filter: the video's questions, of the requested status. A missing `status` means
      `open`; an empty one disables the status filter. */
  predicate ListedQA(videoId: Id, status: Option<string>, q: QA)
  {
    q.video == videoId && (if status.None? then q.status == "open" else status.value == [] || q.status == status.value)
  }

  /** `ListedQA` as the filter document handed to `find` and `countDocuments`. */
  function ListFilter(videoId: Id, status: Option<string>): QA -> bool
  {
    q => ListedQA(videoId, status, q)
  }

  /** `find(filter).sort({ isResolved: 1, createdAt: -1 })` of GET /video/:videoId, before `skip`
      and `limit`: every listed question once, nothing else, unresolved first and newest first. */
  function AllListed(qas: map<Id, QA>, videoId: Id, status: Option<string>): (r: seq<QA>)
    ensures multiset(r) == multiset(Filter(Rows(qas), ListFilter(videoId, status)))
    ensures |r| == |set id | id in qas && ListedQA(videoId, status, qas[id])|
    ensures forall id :: id in qas && ListedQA(videoId, status, qas[id]) ==> qas[id] in r
    ensures forall k :: 0 <= k < |r| ==> ListedQA(videoId, status, r[k]) && r[k] in qas.Values
    ensures SortedBy(r, UnresolvedThenNewest)
  {
    var keep := ListFilter(videoId, status);
    UnresolvedThenNewestIsPreorder();
    QueryFacts(qas, keep, UnresolvedThenNewest);
    assert Matching(qas, keep) == (set id | id in qas && ListedQA(videoId, status, qas[id]));
    Query(qas, keep, UnresolvedThenNewest)
  }

  /** GET /video/:videoId: one page of the video's questions of the requested status, unresolved
      first and newest first, with `page` defaulting to 1 and `limit` to 10: the `PageSize`
      questions of `AllListed` from position `skip` on. */
  function List(qas: map<Id, QA>, videoId: Id, status: Option<string>, page: Option<int>, limit: Option<int>): (r: Option<Page<QA>>)
    ensures var p, l := OrDefault(page, 1), OrDefault(limit, DefaultLimit);
      && (r.None? <==> Skip(p, l) < 0)
      && (r.Some? ==>
        && r.value.total == |set id | id in qas && ListedQA(videoId, status, qas[id])|
        && r.value.pages == PageCount(r.value.total, l)
        && |r.value.items| == PageSize(r.value.total, Skip(p, l), l)
        && (forall k :: 0 <= k < |r.value.items| ==>
          Skip(p, l) + k < |AllListed(qas, videoId, status)| && r.value.items[k] == AllListed(qas, videoId, status)[Skip(p, l) + k])
        && (forall k :: 0 <= k < |r.value.items| ==> ListedQA(videoId, status, r.value.items[k]))
        && SortedBy(r.value.items, UnresolvedThenNewest))
  {
    var p, l := OrDefault(page, 1), OrDefault(limit, DefaultLimit);
    PageOfListed(qas, videoId, status, p, l);
    Paginate(AllListed(qas, videoId, status), p, l)
  }

  /** The facts of `List` about a page of `AllListed`, for any page number and limit. */
  lemma PageOfListed(qas: map<Id, QA>, videoId: Id, status: Option<string>, p: int, l: int)
    ensures var r := Paginate(AllListed(qas, videoId, status), p, l);
      && (r.None? <==> Skip(p, l) < 0)
      && (r.Some? ==>
        && r.value.total == |set id | id in qas && ListedQA(videoId, status, qas[id])|
        && r.value.pages == PageCount(r.value.total, l)
        && |r.value.items| == PageSize(r.value.total, Skip(p, l), l)
        && (forall k :: 0 <= k < |r.value.items| ==>
          Skip(p, l) + k < |AllListed(qas, videoId, status)| && r.value.items[k] == AllListed(qas, videoId, status)[Skip(p, l) + k])
        && (forall k :: 0 <= k < |r.value.items| ==> ListedQA(videoId, status, r.value.items[k]))
        && SortedBy(r.value.items, UnresolvedThenNewest))
  {
    var all := AllListed(qas, videoId, status);
    PaginateKeepsOrder(all, UnresolvedThenNewest, p, l);
    var r := Paginate(all, p, l);
    if r.Some? {
      forall k | 0 <= k < |r.value.items| ensures ListedQA(videoId, status, r.value.items[k]) {
        assert r.value.items[k] == all[Skip(p, l) + k];
      }
    }
  }

  /** In a listed page no resolved question comes before an unresolved one. */
  lemma UnresolvedComeFirst(qas: map<Id, QA>, videoId: Id, status: Option<string>, page: Option<int>, limit: Option<int>)
    ensures var r := List(qas, videoId, status, page, limit);
      r.Some? ==> forall i, j :: 0 <= i < j < |r.value.items| && r.value.items[i].isResolved ==> r.value.items[j].isResolved
  {
    var r := List(qas, videoId, status, page, limit);
    if r.Some? {
      forall i, j | 0 <= i < j < |r.value.items| && r.value.items[i].isResolved ensures r.value.items[j].isResolved {
        assert UnresolvedThenNewest(r.value.items[i], r.value.items[j]);
      }
    }
  }
}
