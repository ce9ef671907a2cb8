/** The playlist record of backend/models/Playlist.js. */
module PlaylistModel {
  import opened Common
  import opened Text
  import opened Fields

  datatype Playlist = Playlist(
    title: string,
    description: Option<string>,
    creator: Id,
    videos: seq<Id>,
    thumbnailUrl: Option<string>,
    subject: string,
    topic: string,
    tags: seq<string>,
    visibility: string,
    followers: seq<Id>,
    viewCount: int,
    isCurated: bool,
    syllabusCourse: Option<string>,
    createdAt: int)

  const Visibilities: set<string> := {"public", "private"}

  /** What `save()` validates. */
  predicate Valid(p: Playlist)
  {
    && p.title != [] && Utf16Length(p.title) <= 100
    && (p.description.Some? ==> Utf16Length(p.description.value) <= 500)
    && p.subject in Subjects
    && p.topic != []
    && p.visibility in Visibilities
  }

  /** `new Playlist({...})` as the create handler builds it: title and tags trimmed by their
      setters, no followers, no thumbnail, not yet viewed. */
  function NewPlaylist(title: string, description: Option<string>, subject: string, topic: string,
                       tags: seq<string>, videos: seq<Id>, creator: Id, visibility: string,
                       isCurated: bool, syllabusCourse: Option<string>, createdAt: int): Playlist
  {
    Playlist(Trim(title), description, creator, videos, None, subject, topic,
             seq(|tags|, k requires 0 <= k < |tags| => Trim(tags[k])), visibility, [], 0,
             isCurated, syllabusCourse, createdAt)
  }

  /** A new playlist belongs to its creator, has no followers and no views. */
  lemma NewPlaylistDefaults(title: string, description: Option<string>, subject: string, topic: string,
                            tags: seq<string>, videos: seq<Id>, creator: Id, visibility: string,
                            isCurated: bool, syllabusCourse: Option<string>, createdAt: int)
    ensures var p := NewPlaylist(title, description, subject, topic, tags, videos, creator, visibility, isCurated, syllabusCourse, createdAt);
      && p.creator == creator && p.followers == [] && p.viewCount == 0 && p.thumbnailUrl.None?
      && p.videos == videos
  {
  }

  /** A new playlist saves exactly when its trimmed title is 1 to 100 UTF-16 units, a given
      description is at most 500, the subject is one of the six, the topic is non-empty and the
      visibility is public or private. */
  lemma NewPlaylistValidIff(title: string, description: Option<string>, subject: string, topic: string,
                            tags: seq<string>, videos: seq<Id>, creator: Id, visibility: string,
                            isCurated: bool, syllabusCourse: Option<string>, createdAt: int)
    ensures Valid(NewPlaylist(title, description, subject, topic, tags, videos, creator, visibility, isCurated, syllabusCourse, createdAt)) <==>
      && Trim(title) != [] && Utf16Length(Trim(title)) <= 100
      && (description.Some? ==> Utf16Length(description.value) <= 500)
      && subject in Subjects && topic != [] && visibility in Visibilities
  {
  }
}
