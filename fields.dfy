/** Field conventions shared by the schemas and the handlers: the subject enum that videos and
    playlists both use, the `tags` input and its `split(',').map(t => t.trim())`, and the
    JavaScript `x || fallback` merge of an optional text field. */
module Fields {
  import opened Common
  import opened Text

  /** The subject enum of backend/models/videoModel.js and backend/models/Playlist.js. */
  const Subjects: set<string> := {"Mathematics", "Science", "History", "English", "Programming", "Other"}

  /** express-validator's `notEmpty()` on a body field. */
  predicate NotEmpty(s: Option<string>)
  {
    s.Some? && s.value != []
  }

  /** The `tags` member of a request body: absent, a string, or some other JSON value
      (a number, an array, a boolean), of which only its truthiness matters. */
  datatype TagInput = NoTags | TagText(text: string) | TagValue(truthy: bool)

  /** `tags.split(',').map(t => t.trim())`. */
  function SplitTags(s: string): seq<string>
  {
    var parts := Split(s, ',');
    seq(|parts|, k requires 0 <= k < |parts| => Trim(parts[k]))
  }

  /** One tag per comma-separated piece, each with its surrounding white space removed; the
      schema's own `trim` setter then finds nothing left to remove. */
  lemma SplitTagsShape(s: string)
    ensures |SplitTags(s)| == |Split(s, ',')| >= 1
    ensures forall k :: 0 <= k < |SplitTags(s)| ==> SplitTags(s)[k] == Trim(Split(s, ',')[k]) && ',' !in SplitTags(s)[k]
    ensures forall k :: 0 <= k < |SplitTags(s)| ==> Trim(SplitTags(s)[k]) == SplitTags(s)[k]
  {
    var parts := Split(s, ',');
    forall k | 0 <= k < |parts| ensures ',' !in Trim(parts[k]) && Trim(Trim(parts[k])) == Trim(parts[k]) {
      TrimIsIdempotent(parts[k]);
      TrimAddsNothing(parts[k], ',');
    }
  }

  /** Trimming only removes characters. */
  lemma TrimAddsNothing(s: string, c: char)
    requires c !in s
    ensures c !in Trim(s)
  {
  }

  /** The tags a create handler stores: `tags.split(...)` on an absent member (whose default is
      the array `[]`) or on a non-string throws, which lands in the handler's 500 branch. */
  function TagsOnCreate(t: TagInput): Option<seq<string>>
  {
    if t.TagText? then Some(SplitTags(t.text)) else None
  }

  /** `if (tags) x.tags = tags.split(...)` and `tags ? tags.split(...) : old`: a falsy member
      keeps the old tags, a string replaces them, any other truthy value throws (`None`). */
  function TagsOnUpdate(t: TagInput, current: seq<string>): (r: Option<seq<string>>)
    ensures r.None? <==> t.TagValue? && t.truthy
    ensures t.NoTags? || (t.TagText? && t.text == []) || (t.TagValue? && !t.truthy) ==> r == Some(current)
    ensures t.TagText? && t.text != [] ==> r == Some(SplitTags(t.text))
  {
    match t
    case NoTags => Some(current)
    case TagText(s) => if s == [] then Some(current) else Some(SplitTags(s))
    case TagValue(truthy) => if truthy then None else Some(current)
  }

  /** `incoming || current` for a text field that may be missing from the request body. */
  function OrElse(incoming: Option<string>, current: string): (r: string)
    ensures r == current || (incoming.Some? && r == incoming.value)
    ensures r == current <== incoming.None? || incoming.value == []
    ensures incoming.Some? && incoming.value != [] ==> r == incoming.value
  {
    if incoming.Some? && incoming.value != [] then incoming.value else current
  }
}
