/** The video record of backend/models/videoModel.js: its fields, what `save()` validates, and
    the defaults a new document takes. Enum fields are kept as strings, because an update that
    bypasses validation may store any string in them. */
module VideoModel {
  import opened Common
  import opened Text
  import opened Fields

  datatype Video = Video(
    title: string,
    description: string,
    videoUrl: string,
    thumbnailUrl: Option<string>,
    duration: int,
    views: int,
    likes: int,
    uploader: Option<Id>,
    subject: string,
    topic: string,
    tags: seq<string>,
    transcript: Option<string>,
    summary: Option<string>,
    comments: seq<Id>,
    qaSection: seq<Id>,
    visibility: string,
    isProcessing: bool,
    fileSize: Option<int>,
    transcriptStatus: string,
    summaryStatus: string,
    likedBy: seq<Id>,
    createdAt: int)

  const Visibilities: set<string> := {"public", "private", "restricted"}
  const ProcessingStates: set<string> := {"pending", "processing", "completed", "failed"}

  /** What Mongoose's validation checks before a `save()`: required strings are non-empty, the
      length bounds, the enums, and that an uploader is set. */
  predicate Valid(v: Video)
  {
    && v.title != [] && Utf16Length(v.title) <= 100
    && v.description != [] && Utf16Length(v.description) <= 2000
    && v.videoUrl != []
    && v.uploader.Some?
    && v.subject in Subjects
    && v.topic != []
    && v.visibility in Visibilities
    && v.transcriptStatus in ProcessingStates
    && v.summaryStatus in ProcessingStates
  }

  /** `new Video({...})` as the upload handler builds it: the title and each tag pass through
      the `trim` setters, and every field not given takes its schema default. */
  function NewVideo(title: string, description: string, subject: string, topic: string,
                    tags: seq<string>, uploader: Id, videoUrl: string, createdAt: int): Video
  {
    Video(Trim(title), description, videoUrl, None, 0, 0, 0, Some(uploader), subject, topic,
          seq(|tags|, k requires 0 <= k < |tags| => Trim(tags[k])),
          None, None, [], [], "public", true, None, "pending", "pending", [], createdAt)
  }

  /** A new video starts unwatched, unliked, public, still processing, with no thumbnail,
      transcript or summary, both processing states pending, and no comments or questions. */
  lemma NewVideoDefaults(title: string, description: string, subject: string, topic: string,
                         tags: seq<string>, uploader: Id, videoUrl: string, createdAt: int)
    ensures var v := NewVideo(title, description, subject, topic, tags, uploader, videoUrl, createdAt);
      && v.views == 0 && v.likes == 0 && v.likedBy == [] && v.duration == 0
      && v.thumbnailUrl.None? && v.transcript.None? && v.summary.None?
      && v.visibility == "public" && v.isProcessing
      && v.transcriptStatus == "pending" && v.summaryStatus == "pending"
      && v.comments == [] && v.qaSection == []
      && v.uploader == Some(uploader)
  {
  }

  /** A new video passes validation exactly when its trimmed title is non-empty and at most
      100 UTF-16 units, the description is non-empty and at most 2000, the URL and topic are
      non-empty and the subject is one of the six. */
  lemma NewVideoValidIff(title: string, description: string, subject: string, topic: string,
                         tags: seq<string>, uploader: Id, videoUrl: string, createdAt: int)
    ensures Valid(NewVideo(title, description, subject, topic, tags, uploader, videoUrl, createdAt)) <==>
      && Trim(title) != [] && Utf16Length(Trim(title)) <= 100
      && description != [] && Utf16Length(description) <= 2000
      && videoUrl != [] && topic != [] && subject in Subjects
  {
  }
}
