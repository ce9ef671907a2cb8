/** The handlers of backend/routes/playlists.js. Update, add-video, remove-video and follow go
    through `findByIdAndUpdate`, which runs no validators; create goes through `save()`. */
module PlaylistRoutes {
  import opened Common
  import opened Text
  import opened Lists
  import opened Sorting
  import opened Fields
  import opened Store
  import opened Listing
  import UserModel
  import PlaylistModel

  type User = UserModel.User
  type Playlist = PlaylistModel.Playlist

  /** A key of the update object: `undefined` (not sent) leaves the field alone, any sent value
      replaces it. */
  function Given<T>(incoming: Option<T>, current: T): (r: T)
    ensures incoming.None? ==> r == current
    ensures incoming.Some? ==> r == incoming.value
  {
    if incoming.Some? then incoming.value else current
  }

  // ---- The user's playlist list, under Mongoose's strict update casting ----

  /** The array paths of the user schema that hold ids. */
  const UserIdArrays: set<string> := {"uploadedVideos", "playlists", "likedVideos", "bookmarkedPlaylists"}

  /** The path the create and delete handlers update on the user. */
  const CreatedListPath: string := "createdPlaylists"

  /** `$push: { [path]: id }` on a user, as cast under strict mode: a path the user schema does
      not declare is dropped from the update, which leaves the document unchanged. */
  function PushToPath(u: User, path: string, id: Id): (r: User)
    ensures path !in UserIdArrays ==> r == u
    ensures path == "playlists" ==> r == u.(playlists := u.playlists + [id])
  {
    match path
    case "uploadedVideos" => u.(uploadedVideos := u.uploadedVideos + [id])
    case "playlists" => u.(playlists := u.playlists + [id])
    case "likedVideos" => u.(likedVideos := u.likedVideos + [id])
    case "bookmarkedPlaylists" => u.(bookmarkedPlaylists := u.bookmarkedPlaylists + [id])
    case _ => u
  }

  /** `$pull: { [path]: id }` on a user, under the same casting. */
  function PullFromPath(u: User, path: string, id: Id): (r: User)
    ensures path !in UserIdArrays ==> r == u
    ensures path == "playlists" ==> r == u.(playlists := Pull(u.playlists, id))
  {
    match path
    case "uploadedVideos" => u.(uploadedVideos := Pull(u.uploadedVideos, id))
    case "playlists" => u.(playlists := Pull(u.playlists, id))
    case "likedVideos" => u.(likedVideos := Pull(u.likedVideos, id))
    case "bookmarkedPlaylists" => u.(bookmarkedPlaylists := Pull(u.bookmarkedPlaylists, id))
    case _ => u
  }

  /** `User.findByIdAndUpdate(user, { $push: { [path]: id } })`; nothing when there is no such user. */
  function PushOnUser(users: map<Id, User>, user: Id, path: string, id: Id): (r: map<Id, User>)
    ensures r.Keys == users.Keys
    ensures forall u :: u in users && u != user ==> r[u] == users[u]
    ensures user in users ==> r[user] == PushToPath(users[user], path, id)
  {
    if user in users then users[user := PushToPath(users[user], path, id)] else users
  }

  /** `User.findByIdAndUpdate(user, { $pull: { [path]: id } })`. */
  function PullOnUser(users: map<Id, User>, user: Id, path: string, id: Id): (r: map<Id, User>)
    ensures r.Keys == users.Keys
    ensures forall u :: u in users && u != user ==> r[u] == users[u]
    ensures user in users ==> r[user] == PullFromPath(users[user], path, id)
  {
    if user in users then users[user := PullFromPath(users[user], path, id)] else users
  }

  /** As written, creating or deleting a playlist leaves every user as it was: `createdPlaylists`
      is not a path of the user schema, so the creator's `playlists` never lists the new playlist. */
  lemma CreatedListIsNotRecorded(users: map<Id, User>, user: Id, id: Id)
    ensures PushOnUser(users, user, CreatedListPath, id) == users
    ensures PullOnUser(users, user, CreatedListPath, id) == users
    ensures user in users && id !in users[user].playlists ==> id !in PushOnUser(users, user, CreatedListPath, id)[user].playlists
  {
  }

  /** With the schema's own path, the creator's `playlists` lists a created playlist and stops
      listing it once it is deleted; no other user changes. */
  lemma PlaylistsPathIsRecorded(users: map<Id, User>, user: Id, id: Id)
    requires user in users
    ensures id in PushOnUser(users, user, "playlists", id)[user].playlists
    ensures PushOnUser(users, user, "playlists", id)[user].playlists == users[user].playlists + [id]
    ensures id !in PullOnUser(PushOnUser(users, user, "playlists", id), user, "playlists", id)[user].playlists
    ensures id !in users[user].playlists ==>
      PullOnUser(PushOnUser(users, user, "playlists", id), user, "playlists", id) == users
  {
    var before := users[user].playlists;
    if id !in before {
      PullAppendAbsent(before, id);
      assert users[user].(playlists := before) == users[user];
    }
  }

  /** Pulling an id that was absent before it was pushed gives back the original list. */
  lemma {:induction false} PullAppendAbsent(s: seq<Id>, x: Id)
    requires x !in s
    ensures Pull(s + [x], x) == s
  {
    if s == [] {
      assert Pull([x], x) == Pull([x][1..], x);
    } else {
      assert (s + [x])[0] == s[0] && (s + [x])[1..] == s[1..] + [x];
      PullAppendAbsent(s[1..], x);
    }
  }

  // ---- Handlers ----

  /** GET /:id: 404 for an unknown playlist; otherwise the playlist as it was read, while the
      stored view count goes up by one. */
  method Get(db: Db, id: Id) returns (status: nat, playlist: Option<Playlist>)
    requires db.Valid()
    modifies db`playlists
    ensures db.Valid()
    ensures id !in old(db.playlists) ==> status == 404 && playlist.None? && db.playlists == old(db.playlists)
    ensures id in old(db.playlists) ==>
      && status == 200 && playlist == Some(old(db.playlists)[id])
      && db.playlists == old(db.playlists)[id := playlist.value.(viewCount := playlist.value.viewCount + 1)]
  {
    if id !in db.playlists {
      return 404, None;
    }
    var p := db.playlists[id];
    db.playlists := db.playlists[id := p.(viewCount := p.viewCount + 1)];
    return 200, Some(p);
  }

  /** The record the create handler saves: `visibility` defaults to public, `isCurated` to false
      and `videos` to none. */
  function Created(title: string, description: Option<string>, subject: string, topic: string, tags: seq<string>,
                   videos: Option<seq<Id>>, user: Id, visibility: Option<string>, isCurated: Option<bool>,
                   syllabusCourse: Option<string>, now: int): Playlist
  {
    PlaylistModel.NewPlaylist(title, description, subject, topic, tags, Given(videos, []), user,
                              Given(visibility, "public"), Given(isCurated, false), syllabusCourse, now)
  }

  /** How POST / ends: 400 when `title`, `subject` or `topic` is missing or empty; 500 when `tags`
      is not a string or the playlist fails validation; 201 otherwise. */
  function CreateStatus(user: Id, title: Option<string>, description: Option<string>, subject: Option<string>,
                        topic: Option<string>, tags: TagInput, videos: Option<seq<Id>>, visibility: Option<string>,
                        isCurated: Option<bool>, syllabusCourse: Option<string>, now: int): (r: nat)
    ensures r in {201, 400, 500}
    ensures r == 400 <==> !(NotEmpty(title) && NotEmpty(subject) && NotEmpty(topic))
    ensures r == 201 <==>
      && NotEmpty(title) && NotEmpty(subject) && NotEmpty(topic) && tags.TagText?
      && PlaylistModel.Valid(Created(title.value, description, subject.value, topic.value, SplitTags(tags.text), videos, user, visibility, isCurated, syllabusCourse, now))
  {
    if !(NotEmpty(title) && NotEmpty(subject) && NotEmpty(topic)) then 400
    else if !tags.TagText? then 500
    else if !PlaylistModel.Valid(Created(title.value, description, subject.value, topic.value, SplitTags(tags.text), videos, user, visibility, isCurated, syllabusCourse, now)) then 500
    else 201
  }

  /** POST / with the creator's list kept under `path`: answers `CreateStatus`; on 201 the
      playlist is stored under a fresh id and `path` of the creator gets the id pushed. */
  method CreateWith(db: Db, user: Id, title: Option<string>, description: Option<string>, subject: Option<string>,
                    topic: Option<string>, tags: TagInput, videos: Option<seq<Id>>, visibility: Option<string>,
                    isCurated: Option<bool>, syllabusCourse: Option<string>, now: int, path: string)
      returns (status: nat, id: Option<Id>)
    requires db.Valid()
    modifies db`playlists, db`users, db`nextId
    ensures db.Valid()
    ensures status == CreateStatus(user, title, description, subject, topic, tags, videos, visibility, isCurated, syllabusCourse, now)
    ensures status == 201 ==>
      && id == Some(old(db.nextId))
      && db.playlists == old(db.playlists)[id.value := Created(title.value, description, subject.value, topic.value, SplitTags(tags.text), videos, user, visibility, isCurated, syllabusCourse, now)]
      && db.users == PushOnUser(old(db.users), user, path, id.value)
    ensures status != 201 ==> id.None? && db.playlists == old(db.playlists) && db.users == old(db.users)
  {
    id := None;
    status := CreateStatus(user, title, description, subject, topic, tags, videos, visibility, isCurated, syllabusCourse, now);
    if status == 201 {
      var p := Created(title.value, description, subject.value, topic.value, SplitTags(tags.text), videos, user, visibility, isCurated, syllabusCourse, now);
      var newId := StorePlaylist(db, p, user, path);
      id := Some(newId);
    }
  }

  /** `playlist.save()` under a fresh id, then the id pushed onto `path` of the creator. */
  method StorePlaylist(db: Db, p: Playlist, user: Id, path: string) returns (id: Id)
    requires db.Valid()
    modifies db`playlists, db`users, db`nextId
    ensures db.Valid()
    ensures id == old(db.nextId)
    ensures db.playlists == old(db.playlists)[id := p]
    ensures db.users == PushOnUser(old(db.users), user, path, id)
  {
    id := db.FreshId();
    db.playlists := db.playlists[id := p];
    db.users := PushOnUser(db.users, user, path, id);
  }

  /** POST / as written: the push goes to `createdPlaylists`, so no user changes. */
  method Create(db: Db, user: Id, title: Option<string>, description: Option<string>, subject: Option<string>,
                topic: Option<string>, tags: TagInput, videos: Option<seq<Id>>, visibility: Option<string>,
                isCurated: Option<bool>, syllabusCourse: Option<string>, now: int)
      returns (status: nat, id: Option<Id>)
    requires db.Valid()
    modifies db`playlists, db`users, db`nextId
    ensures db.Valid()
    ensures status == CreateStatus(user, title, description, subject, topic, tags, videos, visibility, isCurated, syllabusCourse, now)
    ensures status == 201 ==>
      && id == Some(old(db.nextId))
      && db.playlists == old(db.playlists)[id.value := Created(title.value, description, subject.value, topic.value, SplitTags(tags.text), videos, user, visibility, isCurated, syllabusCourse, now)]
    ensures status != 201 ==> id.None? && db.playlists == old(db.playlists)
    ensures db.users == old(db.users)
  {
    CreatedListIsNotRecorded(db.users, user, db.nextId);
    status, id := CreateWith(db, user, title, description, subject, topic, tags, videos, visibility, isCurated, syllabusCourse, now, CreatedListPath);
  }

  /** POST / with the push on the user schema's `playlists`: the creator then lists the playlist. */
  method CreateRecorded(db: Db, user: Id, title: Option<string>, description: Option<string>, subject: Option<string>,
                        topic: Option<string>, tags: TagInput, videos: Option<seq<Id>>, visibility: Option<string>,
                        isCurated: Option<bool>, syllabusCourse: Option<string>, now: int)
      returns (status: nat, id: Option<Id>)
    requires db.Valid()
    modifies db`playlists, db`users, db`nextId
    ensures db.Valid()
    ensures status == CreateStatus(user, title, description, subject, topic, tags, videos, visibility, isCurated, syllabusCourse, now)
    ensures status == 201 ==>
      && id == Some(old(db.nextId))
      && db.playlists == old(db.playlists)[id.value := Created(title.value, description, subject.value, topic.value, SplitTags(tags.text), videos, user, visibility, isCurated, syllabusCourse, now)]
      && db.users == PushOnUser(old(db.users), user, "playlists", id.value)
      && (user in db.users ==> id.value in db.users[user].playlists)
    ensures status != 201 ==> id.None? && db.playlists == old(db.playlists) && db.users == old(db.users)
  {
    status, id := CreateWith(db, user, title, description, subject, topic, tags, videos, visibility, isCurated, syllabusCourse, now, "playlists");
    if status == 201 && user in old(db.users) {
      PlaylistsPathIsRecorded(old(db.users), user, id.value);
    }
  }

  /** The record after PUT /:id: every field sent replaces the stored one (the title through its
      `trim` setter), whether or not it would pass validation; `tags` and `videos` keep their old
      values when not sent. */
  function Edited(p: Playlist, title: Option<string>, description: Option<string>, subject: Option<string>,
                  topic: Option<string>, tags: seq<string>, videos: Option<seq<Id>>, visibility: Option<string>,
                  isCurated: Option<bool>, syllabusCourse: Option<string>): Playlist
  {
    p.(title := if title.Some? then Trim(title.value) else p.title,
       description := if description.Some? then description else p.description,
       subject := Given(subject, p.subject),
       topic := Given(topic, p.topic),
       tags := tags,
       videos := Given(videos, p.videos),
       visibility := Given(visibility, p.visibility),
       isCurated := Given(isCurated, p.isCurated),
       syllabusCourse := if syllabusCourse.Some? then syllabusCourse else p.syllabusCourse)
  }

  /** An update never changes the creator, the followers or the view count, keeps every field
      not sent, and stores a sent value without validating it: an empty title gets through. */
  lemma EditKeepsTheRest(p: Playlist, title: Option<string>, description: Option<string>, subject: Option<string>,
                         topic: Option<string>, videos: Option<seq<Id>>, visibility: Option<string>,
                         isCurated: Option<bool>, syllabusCourse: Option<string>)
    ensures var r := Edited(p, title, description, subject, topic, p.tags, videos, visibility, isCurated, syllabusCourse);
      && r.creator == p.creator && r.followers == p.followers && r.viewCount == p.viewCount && r.createdAt == p.createdAt
      && (videos.None? ==> r.videos == p.videos) && r.tags == p.tags
      && (subject.None? ==> r.subject == p.subject) && (visibility.None? ==> r.visibility == p.visibility)
    ensures !PlaylistModel.Valid(Edited(p, Some(""), description, subject, topic, p.tags, videos, visibility, isCurated, syllabusCourse))
  {
  }

  /** The stored record after an update by its creator: `None` when `tags` is a truthy
      non-string, whose `split` throws. */
  function Edit(p: Playlist, title: Option<string>, description: Option<string>, subject: Option<string>,
                topic: Option<string>, tags: TagInput, videos: Option<seq<Id>>, visibility: Option<string>,
                isCurated: Option<bool>, syllabusCourse: Option<string>): (r: Option<Playlist>)
    ensures r.None? <==> tags.TagValue? && tags.truthy
  {
    var newTags := TagsOnUpdate(tags, p.tags);
    if newTags.None? then None
    else Some(Edited(p, title, description, subject, topic, newTags.value, videos, visibility, isCurated, syllabusCourse))
  }

  /** How PUT /:id ends: 404 for an unknown playlist, 403 for anyone but the creator, 500 when
      `tags` is a truthy non-string, 200 otherwise. */
  function UpdateStatus(playlists: map<Id, Playlist>, id: Id, user: Id, tags: TagInput): (r: nat)
    ensures r == 404 <==> id !in playlists
    ensures r == 403 <==> id in playlists && playlists[id].creator != user
    ensures r == 200 <==> id in playlists && playlists[id].creator == user && !(tags.TagValue? && tags.truthy)
    ensures r in {200, 403, 404, 500}
  {
    if id !in playlists then 404
    else if playlists[id].creator != user then 403
    else if tags.TagValue? && tags.truthy then 500
    else 200
  }

  /** PUT /:id: answers `UpdateStatus`; on 200 the merged record is stored as `Edit` builds it,
      without validation. */
  method Update(db: Db, id: Id, user: Id, title: Option<string>, description: Option<string>, subject: Option<string>,
                topic: Option<string>, tags: TagInput, videos: Option<seq<Id>>, visibility: Option<string>,
                isCurated: Option<bool>, syllabusCourse: Option<string>) returns (status: nat)
    requires db.Valid()
    modifies db`playlists
    ensures db.Valid()
    ensures status == UpdateStatus(old(db.playlists), id, user, tags)
    ensures status == 200 ==>
      db.playlists == old(db.playlists)[id := Edit(old(db.playlists)[id], title, description, subject, topic, tags, videos, visibility, isCurated, syllabusCourse).value]
    ensures status != 200 ==> db.playlists == old(db.playlists)
  {
    status := UpdateStatus(db.playlists, id, user, tags);
    if status == 200 {
      var edited := Edit(db.playlists[id], title, description, subject, topic, tags, videos, visibility, isCurated, syllabusCourse);
      ReplacePlaylist(db, id, edited.value);
    }
  }

  /** DELETE /:id: 404, 403 for anyone but the creator; otherwise the playlist is deleted. The
      pull from `createdPlaylists` changes no user. */
  method Delete(db: Db, id: Id, user: Id) returns (status: nat)
    requires db.Valid()
    modifies db`playlists, db`users
    ensures db.Valid()
    ensures id !in old(db.playlists) ==> status == 404
    ensures id in old(db.playlists) && old(db.playlists)[id].creator != user ==> status == 403
    ensures status == 200 <==> id in old(db.playlists) && old(db.playlists)[id].creator == user
    ensures status == 200 ==> db.playlists == old(db.playlists) - {id}
    ensures status != 200 ==> db.playlists == old(db.playlists)
    ensures db.users == old(db.users)
  {
    if id !in db.playlists {
      return 404;
    }
    if db.playlists[id].creator != user {
      return 403;
    }
    db.playlists := db.playlists - {id};
    CreatedListIsNotRecorded(db.users, user, id);
    db.users := PullOnUser(db.users, user, CreatedListPath, id);
    return 200;
  }

  /** POST /:id/videos: 400 without a `videoId`; 404 for an unknown playlist; 403 for anyone but
      the creator; 404 for an unknown video; 400 when the video is already listed; otherwise it
      is appended. A duplicate-free list stays duplicate-free. */
  method AddVideo(db: Db, id: Id, user: Id, videoId: Option<Id>) returns (status: nat)
    requires db.Valid()
    modifies db`playlists
    ensures db.Valid()
    ensures videoId.None? ==> status == 400
    ensures videoId.Some? && id !in old(db.playlists) ==> status == 404
    ensures videoId.Some? && id in old(db.playlists) && old(db.playlists)[id].creator != user ==> status == 403
    ensures videoId.Some? && id in old(db.playlists) && old(db.playlists)[id].creator == user && videoId.value !in db.videos ==> status == 404
    ensures (videoId.Some? && id in old(db.playlists) && old(db.playlists)[id].creator == user && videoId.value in db.videos &&
             videoId.value in old(db.playlists)[id].videos) ==> status == 400
    ensures status == 200 <==>
      && videoId.Some? && id in old(db.playlists) && old(db.playlists)[id].creator == user
      && videoId.value in db.videos && videoId.value !in old(db.playlists)[id].videos
    ensures status == 200 ==>
      db.playlists == old(db.playlists)[id := old(db.playlists)[id].(videos := old(db.playlists)[id].videos + [videoId.value])]
    ensures status != 200 ==> db.playlists == old(db.playlists)
    ensures id in old(db.playlists) && NoDup(old(db.playlists)[id].videos) ==> NoDup(db.playlists[id].videos)
  {
    if videoId.None? {
      return 400;
    }
    if id !in db.playlists {
      return 404;
    }
    var p := db.playlists[id];
    if p.creator != user {
      return 403;
    }
    if videoId.value !in db.videos {
      return 404;
    }
    if videoId.value in p.videos {
      return 400;
    }
    if NoDup(p.videos) {
      AppendNoDup(p.videos, videoId.value);
    }
    db.playlists := db.playlists[id := p.(videos := p.videos + [videoId.value])];
    return 200;
  }

  /** DELETE /:id/videos/:videoId: 404, 403 for anyone but the creator; otherwise every occurrence
      of the video is pulled, whether or not it was listed or still exists. */
  method RemoveVideo(db: Db, id: Id, user: Id, videoId: Id) returns (status: nat)
    requires db.Valid()
    modifies db`playlists
    ensures db.Valid()
    ensures id !in old(db.playlists) ==> status == 404
    ensures id in old(db.playlists) && old(db.playlists)[id].creator != user ==> status == 403
    ensures status == 200 <==> id in old(db.playlists) && old(db.playlists)[id].creator == user
    ensures status == 200 ==>
      && db.playlists == old(db.playlists)[id := old(db.playlists)[id].(videos := Pull(old(db.playlists)[id].videos, videoId))]
      && videoId !in db.playlists[id].videos
    ensures status != 200 ==> db.playlists == old(db.playlists)
  {
    if id !in db.playlists {
      return 404;
    }
    var p := db.playlists[id];
    if p.creator != user {
      return 403;
    }
    db.playlists := db.playlists[id := p.(videos := Pull(p.videos, videoId))];
    return 200;
  }

  /** The followers after a follow press: a follower is pulled, anyone else pushed. */
  function Followed(followers: seq<Id>, user: Id): (r: seq<Id>)
    ensures user in followers ==> r == Pull(followers, user) && user !in r
    ensures user !in followers ==> r == followers + [user] && user in r
  {
    if user in followers then Pull(followers, user) else followers + [user]
  }

  /** Two presses by a non-follower give back the follower list; two presses by a follower listed
      once give back the same followers (the user moves to the end). */
  lemma FollowTwice(followers: seq<Id>, user: Id)
    ensures user !in followers ==> Followed(Followed(followers, user), user) == followers
    ensures multiset(followers)[user] == 1 ==> multiset(Followed(Followed(followers, user), user)) == multiset(followers)
  {
    if user !in followers {
      PullAppendAbsent(followers, user);
    } else if multiset(followers)[user] == 1 {
      var pulled := Pull(followers, user);
      assert multiset(pulled + [user]) == multiset(pulled) + multiset{user};
    }
  }

  /** POST /:id/follow: 404 for an unknown playlist; otherwise the follow toggle, replying whether
      the user now follows. */
  method Follow(db: Db, id: Id, user: Id) returns (status: nat, following: bool)
    requires db.Valid()
    modifies db`playlists
    ensures db.Valid()
    ensures id !in old(db.playlists) ==> status == 404 && db.playlists == old(db.playlists)
    ensures id in old(db.playlists) ==>
      && status == 200 && following == (user !in old(db.playlists)[id].followers)
      && db.playlists == old(db.playlists)[id := old(db.playlists)[id].(followers := Followed(old(db.playlists)[id].followers, user))]
      && (following <==> user in db.playlists[id].followers)
  {
    if id !in db.playlists {
      return 404, false;
    }
    var p := db.playlists[id];
    var isFollowing := user in p.followers;
    db.playlists := db.playlists[id := p.(followers := Followed(p.followers, user))];
    return 200, !isFollowing;
  }

  /** `createdAt: -1`: newer first. */
  predicate NewestFirst(a: Playlist, b: Playlist)
  {
    a.createdAt >= b.createdAt
  }

  lemma NewestFirstIsPreorder()
    ensures TotalPreorder(NewestFirst)
  {
  }

  /** The filter of GET /, its `topic` and `search` patterns apart: a truthy `subject` or `creator`
      must match, and `isCurated`, when present, selects curated playlists exactly when it is the
      text "true". */
  predicate ListedPlaylist(subject: Option<string>, creator: Option<Id>, isCurated: Option<string>, p: Playlist)
  {
    && (subject.None? || subject.value == [] || p.subject == subject.value)
    && (creator.None? || p.creator == creator.value)
    && (isCurated.None? || p.isCurated == (isCurated.value == "true"))
  }

  /** `ListedPlaylist` as the filter document handed to `find`. */
  function ListFilter(subject: Option<string>, creator: Option<Id>, isCurated: Option<string>): Playlist -> bool
  {
    p => ListedPlaylist(subject, creator, isCurated, p)
  }

  /** GET /: every playlist the filter keeps once, nothing else, newest first, unpaginated. */
  function List(playlists: map<Id, Playlist>, subject: Option<string>, creator: Option<Id>, isCurated: Option<string>): (r: seq<Playlist>)
    ensures multiset(r) == multiset(Filter(Rows(playlists), ListFilter(subject, creator, isCurated)))
    ensures |r| == |set id | id in playlists && ListedPlaylist(subject, creator, isCurated, playlists[id])|
    ensures forall id :: id in playlists && ListedPlaylist(subject, creator, isCurated, playlists[id]) ==> playlists[id] in r
    ensures forall k :: 0 <= k < |r| ==> ListedPlaylist(subject, creator, isCurated, r[k]) && r[k] in playlists.Values
    ensures SortedBy(r, NewestFirst)
  {
    ListedQuery(playlists, subject, creator, isCurated);
    Query(playlists, ListFilter(subject, creator, isCurated), NewestFirst)
  }

  /** The facts of `List` about the query it runs. */
  lemma ListedQuery(playlists: map<Id, Playlist>, subject: Option<string>, creator: Option<Id>, isCurated: Option<string>)
    ensures var r := Query(playlists, ListFilter(subject, creator, isCurated), NewestFirst);
      && multiset(r) == multiset(Filter(Rows(playlists), ListFilter(subject, creator, isCurated)))
      && |r| == |set id | id in playlists && ListedPlaylist(subject, creator, isCurated, playlists[id])|
      && (forall id :: id in playlists && ListedPlaylist(subject, creator, isCurated, playlists[id]) ==> playlists[id] in r)
      && (forall k :: 0 <= k < |r| ==> ListedPlaylist(subject, creator, isCurated, r[k]) && r[k] in playlists.Values)
      && SortedBy(r, NewestFirst)
  {
    var keep := ListFilter(subject, creator, isCurated);
    var r := Query(playlists, keep, NewestFirst);
    NewestFirstIsPreorder();
    QueryFacts(playlists, keep, NewestFirst);
    forall k | 0 <= k < |r| ensures ListedPlaylist(subject, creator, isCurated, r[k]) {
      assert keep(r[k]);
    }
    forall id | id in playlists && ListedPlaylist(subject, creator, isCurated, playlists[id]) ensures playlists[id] in r {
      assert keep(playlists[id]);
    }
    var ids := set id | id in playlists && ListedPlaylist(subject, creator, isCurated, playlists[id]);
    forall id | id in Matching(playlists, keep) ensures id in ids {
      assert keep(playlists[id]);
    }
    forall id | id in ids ensures id in Matching(playlists, keep) {
      assert keep(playlists[id]);
    }
    assert Matching(playlists, keep) == ids;
  }

  predicate CreatedBy(user: Id, p: Playlist)
  {
    p.creator == user
  }

  /** `CreatedBy` as the filter document handed to `find`. */
  function CreatorFilter(user: Id): Playlist -> bool
  {
    p => CreatedBy(user, p)
  }

  /** GET /user/:userId: every playlist of that creator once, nothing else, newest first. */
  function ByCreator(playlists: map<Id, Playlist>, user: Id): (r: seq<Playlist>)
    ensures multiset(r) == multiset(Filter(Rows(playlists), CreatorFilter(user)))
    ensures |r| == |set id | id in playlists && CreatedBy(user, playlists[id])|
    ensures forall id :: id in playlists && playlists[id].creator == user ==> playlists[id] in r
    ensures forall k :: 0 <= k < |r| ==> r[k].creator == user && r[k] in playlists.Values
    ensures SortedBy(r, NewestFirst)
  {
    var keep := CreatorFilter(user);
    NewestFirstIsPreorder();
    QueryFacts(playlists, keep, NewestFirst);
    assert Matching(playlists, keep) == (set id | id in playlists && CreatedBy(user, playlists[id]));
    Query(playlists, keep, NewestFirst)
  }

  predicate IsCurated(p: Playlist)
  {
    p.isCurated
  }

  /** GET /curated/all: every curated playlist once, nothing else, newest first. */
  function Curated(playlists: map<Id, Playlist>): (r: seq<Playlist>)
    ensures multiset(r) == multiset(Filter(Rows(playlists), IsCurated))
    ensures |r| == |set id | id in playlists && IsCurated(playlists[id])|
    ensures forall id :: id in playlists && playlists[id].isCurated ==> playlists[id] in r
    ensures forall k :: 0 <= k < |r| ==> r[k].isCurated && r[k] in playlists.Values
    ensures SortedBy(r, NewestFirst)
  {
    NewestFirstIsPreorder();
    QueryFacts(playlists, IsCurated, NewestFirst);
    assert Matching(playlists, IsCurated) == (set id | id in playlists && IsCurated(playlists[id]));
    Query(playlists, IsCurated, NewestFirst)
  }
}
