/** The question record of backend/models/QA.js, with its embedded answers, and the status
    rules the handlers of backend/routes/qa.js apply to it. */
module QAModel {
  import opened Common
  import opened Text

  /** An embedded answer; `id` is its sub-document `_id`. */
  datatype Answer = Answer(
    id: Id,
    text: string,
    answeredBy: Id,
    likes: int,
    likedBy: seq<Id>,
    isAccepted: bool,
    createdAt: int,
    updatedAt: int)

  datatype QA = QA(
    question: string,
    askedBy: Id,
    video: Id,
    answers: seq<Answer>,
    acceptedAnswer: Option<Id>,
    views: int,
    tags: seq<string>,
    isResolved: bool,
    priority: string,
    status: string,
    createdAt: int)

  const Priorities: set<string> := {"low", "medium", "high"}
  const Statuses: set<string> := {"open", "answered", "closed"}

  predicate ValidAnswer(a: Answer)
  {
    a.text != [] && Utf16Length(a.text) <= 1000
  }

  /** What `save()` validates: the question, every answer, and both enums. */
  predicate Valid(q: QA)
  {
    && q.question != [] && Utf16Length(q.question) <= 500
    && (forall k :: 0 <= k < |q.answers| ==> ValidAnswer(q.answers[k]))
    && q.priority in Priorities
    && q.status in Statuses
  }

  /** `new QA({ question, askedBy, video, tags, priority })`: question and tags trimmed by their
      setters, the rest defaulted. */
  function NewQA(question: string, askedBy: Id, video: Id, tags: seq<string>, priority: string, createdAt: int): QA
  {
    QA(Trim(question), askedBy, video, [], None, 0,
       seq(|tags|, k requires 0 <= k < |tags| => Trim(tags[k])), false, priority, "open", createdAt)
  }

  /** A new question is open, unresolved, unanswered, unviewed and has no accepted answer. */
  lemma NewQADefaults(question: string, askedBy: Id, video: Id, tags: seq<string>, priority: string, createdAt: int)
    ensures var q := NewQA(question, askedBy, video, tags, priority, createdAt);
      && q.status == "open" && !q.isResolved && q.answers == [] && q.acceptedAnswer.None? && q.views == 0
  {
  }

  /** The answer the answer handler pushes: the sub-document defaults give no likes and not
      accepted; both dates are the time of the request. */
  function NewAnswer(id: Id, text: string, author: Id, now: int): (a: Answer)
    ensures a.id == id && a.text == text && a.answeredBy == author
    ensures a.likes == 0 && a.likedBy == [] && !a.isAccepted
  {
    Answer(id, text, author, 0, [], false, now, now)
  }

  /** The status after a new answer: `open` becomes `answered`, any other status stays. */
  function StatusAfterAnswer(status: string): (r: string)
    ensures status == "open" ==> r == "answered"
    ensures status != "open" ==> r == status
    ensures status in Statuses ==> r in Statuses && r != "open"
  {
    if status == "open" then "answered" else status
  }

  /** The position of the answer with sub-document id `id` (`findIndex` / `answers.id(id)`). */
  function AnswerIndex(answers: seq<Answer>, id: Id): (r: int)
    ensures -1 <= r < |answers|
    ensures r >= 0 ==> answers[r].id == id && forall k :: 0 <= k < r ==> answers[k].id != id
    ensures r == -1 <==> forall k :: 0 <= k < |answers| ==> answers[k].id != id
  {
    if answers == [] then -1
    else if answers[0].id == id then 0
    else
      var k := AnswerIndex(answers[1..], id);
      if k == -1 then -1 else k + 1
  }

  /** Accepting the answer at position `i`: that answer is marked accepted, its id becomes
      `acceptedAnswer`, and the question is resolved and closed. */
  function Accept(q: QA, i: nat): (r: QA)
    requires i < |q.answers|
    ensures |r.answers| == |q.answers| && r.answers[i].isAccepted
    ensures r.acceptedAnswer == Some(q.answers[i].id) && r.isResolved && r.status == "closed"
    ensures forall k :: 0 <= k < |q.answers| && k != i ==> r.answers[k] == q.answers[k]
    ensures r.answers[i] == q.answers[i].(isAccepted := true)
    ensures r.question == q.question && r.askedBy == q.askedBy && r.video == q.video && r.views == q.views
  {
    q.(answers := q.answers[i := q.answers[i].(isAccepted := true)],
       acceptedAnswer := Some(q.answers[i].id), isResolved := true, status := "closed")
  }

  /** Accepting keeps a valid question valid: answer texts are untouched and `closed` is an
      allowed status. */
  lemma AcceptKeepsValid(q: QA, i: nat)
    requires i < |q.answers| && Valid(q)
    ensures Valid(Accept(q, i))
  {
    var r := Accept(q, i);
    forall k | 0 <= k < |r.answers| ensures ValidAnswer(r.answers[k]) {
      assert ValidAnswer(q.answers[k]);
    }
  }
}
