/** The handlers of backend/routes/videoRoutes.js. A handler receives the user id the JWT
    middleware decoded (`req.userId`); the middleware's own 401 replies are not modelled. Every
    `save()` validates the whole document, and a failed validation answers 500 from the
    handler's catch block. */
module VideoRoutes {
  import opened Common
  import opened Text
  import opened Lists
  import opened Likes
  import opened Paging
  import opened Sorting
  import opened Fields
  import opened Store
  import opened Listing
  import VideoModel
  import UserModel
  import RangeServer
  import ClampedRangeServer

  type Video = VideoModel.Video

  /** multer's `limits.fileSize`: 500 MiB. */
  const MaxUploadBytes: nat := 500 * 1024 * 1024
  /** The MIME types multer's `fileFilter` lets through. */
  const AllowedMimes: set<string> := {"video/mp4", "video/mpeg", "video/quicktime", "video/x-msvideo"}
  /** The `limit` of the list handler when the query has none. */
  const DefaultLimit: int := 20

  /** The multipart file as multer sees it. */
  datatype UploadFile = UploadFile(originalname: string, mimetype: string, content: seq<byte>)

  /** multer's verdict, before the handler runs. A rejection is passed to `next(err)`, so the
      application's error middleware answers it, not the handler. */
  datatype Admission = Accepted | WrongType | TooLarge

  /** What the upload request ends in: a reply of the handler, or multer's rejection. */
  datatype UploadReply = Replied(status: nat) | Rejected(reason: Admission)

  /** The file filter runs first (on the declared type); the size limit applies while the file
      is written. */
  function Admit(f: UploadFile): (r: Admission)
    ensures r == Accepted <==> f.mimetype in AllowedMimes && |f.content| <= MaxUploadBytes
    ensures r == WrongType <==> f.mimetype !in AllowedMimes
  {
    if f.mimetype !in AllowedMimes then WrongType
    else if |f.content| > MaxUploadBytes then TooLarge
    else Accepted
  }

  /** The disk name multer gives the file: `Date.now() + '-' + file.originalname`. */
  function StoredName(now: nat, originalname: string): string
  {
    NatToString(now) + "-" + originalname
  }

  /** The `videoUrl` stored on the record. */
  function VideoUrl(name: string): string
  {
    "/uploads/videos/" + name
  }

  /** The stored name gives back the upload time and the client's file name. */
  lemma StoredNameRoundTrip(now: nat, originalname: string)
    ensures ParseInt(StoredName(now, originalname)) == Some(now)
    ensures var n := |NatToString(now)|;
      StoredName(now, originalname)[n] == '-' && StoredName(now, originalname)[n + 1..] == originalname
  {
    ParseIntOfNatToString(now, "-" + originalname);
    assert StoredName(now, originalname) == NatToString(now) + ("-" + originalname);
  }

  /** Uploads made at different milliseconds never overwrite each other's files. */
  lemma StoredNamesDiffer(t1: nat, t2: nat, name1: string, name2: string)
    requires t1 != t2
    ensures StoredName(t1, name1) != StoredName(t2, name2)
  {
    StoredNameRoundTrip(t1, name1);
    StoredNameRoundTrip(t2, name2);
  }

  /** An accepted upload is then served whole, under the name the record's `videoUrl` ends in,
      by the streaming route of backend/server.js, with or without its range correction. */
  lemma UploadedFileIsServed(files: map<string, seq<byte>>, now: nat, f: UploadFile)
    ensures var name := StoredName(now, f.originalname);
      && VideoUrl(name) == "/uploads/videos/" + name
      && RangeServer.Serve(files[name := f.content], name, None)
         == RangeServer.Sent(200, Some(RangeServer.Head(|f.content|, RangeServer.ContentTypeFor(name), "bytes", None)), f.content)
      && ClampedRangeServer.ServeClamped(files[name := f.content], name, None) == RangeServer.Serve(files[name := f.content], name, None)
  {
    var name := StoredName(now, f.originalname);
    RangeServer.ServeWithoutRange(files[name := f.content], name, None);
  }

  /** `!value` for an optional text field of the request body. */
  predicate Truthy(s: Option<string>)
  {
    s.Some? && s.value != []
  }

  /** The record the upload handler saves. */
  function UploadedVideo(f: UploadFile, title: string, description: string, subject: string, topic: string,
                         tags: seq<string>, user: Id, now: nat): Video
  {
    VideoModel.NewVideo(title, description, subject, topic, tags, user, VideoUrl(StoredName(now, f.originalname)), now)
  }

  /** `$push: { uploadedVideos: id }` on the user, a no-op when no such user exists. */
  function PushUploaded(users: map<Id, UserModel.User>, user: Id, id: Id): (r: map<Id, UserModel.User>)
    ensures r.Keys == users.Keys
    ensures user in users ==> r[user].uploadedVideos == users[user].uploadedVideos + [id]
    ensures forall u :: u in users && u != user ==> r[u] == users[u]
  {
    if user in users then users[user := users[user].(uploadedVideos := users[user].uploadedVideos + [id])] else users
  }

  /** `$pull: { uploadedVideos: id }` on the user, a no-op when no such user exists. */
  function PullUploaded(users: map<Id, UserModel.User>, user: Id, id: Id): (r: map<Id, UserModel.User>)
    ensures r.Keys == users.Keys
    ensures user in users ==> r[user].uploadedVideos == Pull(users[user].uploadedVideos, id)
    ensures forall u :: u in users && u != user ==> r[u] == users[u]
  {
    if user in users then users[user := users[user].(uploadedVideos := Pull(users[user].uploadedVideos, id))] else users
  }

  /** Whether the request body carries every field the upload handler requires. */
  predicate HasRequiredFields(title: Option<string>, description: Option<string>, subject: Option<string>, topic: Option<string>)
  {
    Truthy(title) && Truthy(description) && Truthy(subject) && Truthy(topic)
  }

  /** How POST /upload ends. multer first: a file of another type or over the limit is rejected
      before the handler runs. The handler answers 400 without a file or with an empty title,
      description, subject or topic; 500 when `tags` is not a string (`split` throws) or the
      record fails validation; 201 otherwise. */
  function UploadVerdict(file: Option<UploadFile>, title: Option<string>, description: Option<string>,
                         subject: Option<string>, topic: Option<string>, tags: TagInput, user: Id, now: nat): UploadReply
  {
    if file.Some? && Admit(file.value) != Accepted then Rejected(Admit(file.value))
    else if file.None? || !HasRequiredFields(title, description, subject, topic) then Replied(400)
    else if !tags.TagText? then Replied(500)
    else if !VideoModel.Valid(UploadedVideo(file.value, title.value, description.value, subject.value, topic.value, SplitTags(tags.text), user, now)) then Replied(500)
    else Replied(201)
  }

  /** multer's rejection comes first; then 400 exactly for a missing file or field, and 201
      exactly when the tags are a string and the new record passes validation. */
  lemma UploadVerdictCases(file: Option<UploadFile>, title: Option<string>, description: Option<string>,
                           subject: Option<string>, topic: Option<string>, tags: TagInput, user: Id, now: nat)
    ensures var r := UploadVerdict(file, title, description, subject, topic, tags, user, now);
      && (r.Rejected? <==> file.Some? && Admit(file.value) != Accepted)
      && (r == Replied(400) <==> (file.Some? ==> Admit(file.value) == Accepted) && (file.None? || !HasRequiredFields(title, description, subject, topic)))
      && (r == Replied(201) <==>
            && file.Some? && Admit(file.value) == Accepted && HasRequiredFields(title, description, subject, topic) && tags.TagText?
            && VideoModel.Valid(UploadedVideo(file.value, title.value, description.value, subject.value, topic.value, SplitTags(tags.text), user, now)))
      && (r.Replied? ==> r.status in {201, 400, 500})
  {
  }

  /** The record POST /upload stores: present exactly when the reply is 201. */
  function UploadRecord(file: Option<UploadFile>, title: Option<string>, description: Option<string>,
                        subject: Option<string>, topic: Option<string>, tags: TagInput, user: Id, now: nat): (r: Option<Video>)
    ensures r.Some? <==> UploadVerdict(file, title, description, subject, topic, tags, user, now) == Replied(201)
    ensures r.Some? ==> file.Some? && title.Some? && description.Some? && subject.Some? && topic.Some? && tags.TagText?
    ensures r.Some? ==> r.value == UploadedVideo(file.value, title.value, description.value, subject.value, topic.value, SplitTags(tags.text), user, now)
  {
    if UploadVerdict(file, title, description, subject, topic, tags, user, now) == Replied(201)
    then Some(UploadedVideo(file.value, title.value, description.value, subject.value, topic.value, SplitTags(tags.text), user, now))
    else None
  }

  /** POST /upload: replies as `UploadVerdict` says. An accepted file is written to disk whatever
      the handler then answers; on 201 the new record is stored under a fresh id and the id is
      pushed onto the uploader's `uploadedVideos`; otherwise no document changes. */
  method Upload(db: Db, user: Id, file: Option<UploadFile>, title: Option<string>, description: Option<string>,
                subject: Option<string>, topic: Option<string>, tags: TagInput, now: nat)
      returns (reply: UploadReply, id: Option<Id>)
    requires db.Valid()
    modifies db`files, db`videos, db`users, db`nextId
    ensures db.Valid()
    ensures reply == UploadVerdict(file, title, description, subject, topic, tags, user, now)
    ensures file.Some? && Admit(file.value) == Accepted ==>
      db.files == old(db.files)[StoredName(now, file.value.originalname) := file.value.content]
    ensures !(file.Some? && Admit(file.value) == Accepted) ==> db.files == old(db.files)
    ensures var v := UploadRecord(file, title, description, subject, topic, tags, user, now);
      && (v.Some? ==> id == Some(old(db.nextId)) && db.videos == old(db.videos)[id.value := v.value]
                      && db.users == PushUploaded(old(db.users), user, id.value))
      && (v.None? ==> id.None? && db.videos == old(db.videos) && db.users == old(db.users))
  {
    id := None;
    reply := UploadVerdict(file, title, description, subject, topic, tags, user, now);
    if file.Some? && Admit(file.value) == Accepted {
      WriteFile(db, StoredName(now, file.value.originalname), file.value.content);
    }
    var record := UploadRecord(file, title, description, subject, topic, tags, user, now);
    if record.Some? {
      var newId := StoreVideo(db, record.value, user);
      id := Some(newId);
    }
  }

  /** multer's disk storage writes the file under `name`, replacing any file of that name. */
  method WriteFile(db: Db, name: string, content: seq<byte>)
    requires db.Valid()
    modifies db`files
    ensures db.Valid() && db.files == old(db.files)[name := content]
  {
    db.files := db.files[name := content];
  }

  /** `video.save()` under a fresh id, then the id pushed onto the uploader's `uploadedVideos`. */
  method StoreVideo(db: Db, v: Video, user: Id) returns (id: Id)
    requires db.Valid()
    modifies db`videos, db`users, db`nextId
    ensures db.Valid()
    ensures id == old(db.nextId)
    ensures db.videos == old(db.videos)[id := v]
    ensures db.users == PushUploaded(old(db.users), user, id)
  {
    id := db.FreshId();
    db.videos := db.videos[id := v];
    db.users := PushUploaded(db.users, user, id);
  }

  /** GET /:videoId: the view counter goes up by exactly one and the updated record is returned;
      an unknown id answers 404 and changes nothing. */
  method Get(db: Db, videoId: Id) returns (status: nat, video: Option<Video>)
    requires db.Valid()
    modifies db`videos
    ensures db.Valid()
    ensures videoId !in old(db.videos) ==> status == 404 && video.None? && db.videos == old(db.videos)
    ensures videoId in old(db.videos) ==>
      && status == 200
      && video == Some(old(db.videos)[videoId].(views := old(db.videos)[videoId].views + 1))
      && db.videos == old(db.videos)[videoId := video.value]
  {
    if videoId !in db.videos {
      return 404, None;
    }
    var v := db.videos[videoId];
    var updated := v.(views := v.views + 1);
    db.videos := db.videos[videoId := updated];
    return 200, Some(updated);
  }

  /** The record after PUT /:videoId: each of title, description, subject, topic and visibility
      is replaced when the request carries a non-empty value and kept otherwise (the title through
      its `trim` setter either way); `tags` replaces the tags when given. */
  function Edited(v: Video, title: Option<string>, description: Option<string>, subject: Option<string>,
                  topic: Option<string>, visibility: Option<string>, tags: seq<string>): Video
  {
    v.(title := Trim(OrElse(title, v.title)),
       description := OrElse(description, v.description),
       subject := OrElse(subject, v.subject),
       topic := OrElse(topic, v.topic),
       visibility := OrElse(visibility, v.visibility),
       tags := tags)
  }

  /** An edit never touches the counters, the uploader, the file, the processing state or the
      attached comments and questions; a field sent empty or not sent keeps its value. */
  lemma EditKeepsTheRest(v: Video, title: Option<string>, description: Option<string>, subject: Option<string>,
                         topic: Option<string>, visibility: Option<string>)
    ensures var r := Edited(v, title, description, subject, topic, visibility, v.tags);
      && r.views == v.views && r.likes == v.likes && r.likedBy == v.likedBy
      && r.uploader == v.uploader && r.videoUrl == v.videoUrl && r.isProcessing == v.isProcessing
      && r.comments == v.comments && r.qaSection == v.qaSection && r.createdAt == v.createdAt
      && (!Truthy(description) ==> r.description == v.description)
      && (!Truthy(subject) ==> r.subject == v.subject)
      && (!Truthy(topic) ==> r.topic == v.topic)
      && (!Truthy(visibility) ==> r.visibility == v.visibility)
      && (!Truthy(title) ==> r.title == Trim(v.title))
      && (Truthy(title) ==> r.title == Trim(title.value))
  {
  }

  /** How PUT /:videoId ends. 404 for an unknown video; a record without uploader makes
      `video.uploader.toString()` throw (500); anyone but the uploader gets 403. Then the merged
      record is saved (200), unless `tags` is a non-string truthy value or validation fails
      (500). */
  function UpdateStatus(videos: map<Id, Video>, videoId: Id, user: Id, title: Option<string>,
                        description: Option<string>, subject: Option<string>, topic: Option<string>,
                        tags: TagInput, visibility: Option<string>): (r: nat)
    ensures videoId !in videos ==> r == 404
    ensures videoId in videos && videos[videoId].uploader.None? ==> r == 500
    ensures videoId in videos && videos[videoId].uploader.Some? && videos[videoId].uploader.value != user ==> r == 403
    ensures r == 200 <==>
      && videoId in videos && videos[videoId].uploader == Some(user)
      && TagsOnUpdate(tags, videos[videoId].tags).Some?
      && VideoModel.Valid(Edited(videos[videoId], title, description, subject, topic, visibility, TagsOnUpdate(tags, videos[videoId].tags).value))
    ensures r in {200, 403, 404, 500}
  {
    if videoId !in videos then 404
    else if videos[videoId].uploader.None? then 500
    else if videos[videoId].uploader.value != user then 403
    else if TagsOnUpdate(tags, videos[videoId].tags).None? then 500
    else if !VideoModel.Valid(Edited(videos[videoId], title, description, subject, topic, visibility, TagsOnUpdate(tags, videos[videoId].tags).value)) then 500
    else 200
  }

  /** PUT /:videoId: on 200 the merged record replaces the stored one; otherwise nothing is
      stored. */
  method Update(db: Db, videoId: Id, user: Id, title: Option<string>, description: Option<string>,
                subject: Option<string>, topic: Option<string>, tags: TagInput, visibility: Option<string>)
      returns (status: nat)
    requires db.Valid()
    modifies db`videos
    ensures db.Valid()
    ensures status == UpdateStatus(old(db.videos), videoId, user, title, description, subject, topic, tags, visibility)
    ensures status == 200 ==> db.videos == old(db.videos)[videoId := Edited(old(db.videos)[videoId], title, description, subject, topic, visibility, TagsOnUpdate(tags, old(db.videos)[videoId].tags).value)]
    ensures status != 200 ==> db.videos == old(db.videos)
  {
    var videos := db.videos;
    status := UpdateStatus(videos, videoId, user, title, description, subject, topic, tags, visibility);
    if status == 200 {
      assert videoId in videos && TagsOnUpdate(tags, videos[videoId].tags).Some?;
      var v := videos[videoId];
      PutVideo(db, videoId, Edited(v, title, description, subject, topic, visibility, TagsOnUpdate(tags, v.tags).value));
    }
  }

  /** DELETE /:videoId. 404, 500 (no uploader) and 403 as for an update; otherwise the record is
      removed and its id pulled from the requester's `uploadedVideos`. Its comments, questions
      and file, and playlists that list it, are left as they are. */
  method Delete(db: Db, videoId: Id, user: Id) returns (status: nat)
    requires db.Valid()
    modifies db`videos, db`users
    ensures db.Valid()
    ensures videoId !in old(db.videos) ==> status == 404
    ensures videoId in old(db.videos) && old(db.videos)[videoId].uploader.None? ==> status == 500
    ensures videoId in old(db.videos) && old(db.videos)[videoId].uploader.Some? && old(db.videos)[videoId].uploader.value != user ==> status == 403
    ensures status == 200 <==> videoId in old(db.videos) && old(db.videos)[videoId].uploader == Some(user)
    ensures status == 200 ==> db.videos == old(db.videos) - {videoId} && db.users == PullUploaded(old(db.users), user, videoId)
    ensures status != 200 ==> db.videos == old(db.videos) && db.users == old(db.users)
  {
    if videoId !in db.videos {
      return 404;
    }
    var v := db.videos[videoId];
    if v.uploader.None? {
      return 500;
    }
    if v.uploader.value != user {
      return 403;
    }
    db.videos := db.videos - {videoId};
    db.users := PullUploaded(db.users, user, videoId);
    return 200;
  }

  /** The record after one press of "like" by `user`. */
  function Liked(v: Video, user: Id): Video
  {
    var t := Toggle(LikeState(v.likedBy, v.likes), user);
    v.(likedBy := t.likedBy, likes := t.likes)
  }

  /** POST /:videoId/like: the toggle of `Likes.Toggle` on the video, saved; the reply carries the
      new counter and whether it was a like. A record that fails validation (one without
      uploader, say) cannot be saved: 500. */
  method Like(db: Db, videoId: Id, user: Id) returns (status: nat, likes: Option<int>, liked: bool)
    requires db.Valid()
    modifies db`videos
    ensures db.Valid()
    ensures videoId !in old(db.videos) ==> status == 404 && likes.None? && db.videos == old(db.videos)
    ensures videoId in old(db.videos) ==>
      var v := old(db.videos)[videoId];
      if VideoModel.Valid(Liked(v, user)) then
        && status == 200 && likes == Some(Liked(v, user).likes) && liked == WasLike(LikeState(v.likedBy, v.likes), user)
        && db.videos == old(db.videos)[videoId := Liked(v, user)]
      else status == 500 && likes.None? && db.videos == old(db.videos)
  {
    liked := false;
    if videoId !in db.videos {
      return 404, None, false;
    }
    var v := db.videos[videoId];
    var nv := Liked(v, user);
    if !VideoModel.Valid(nv) {
      return 500, None, false;
    }
    db.videos := db.videos[videoId := nv];
    return 200, Some(nv.likes), WasLike(LikeState(v.likedBy, v.likes), user);
  }

  /** A like toggles nothing that validation looks at, so it saves exactly when the record
      already was valid. */
  lemma LikeSavesValidRecords(v: Video, user: Id)
    ensures VideoModel.Valid(Liked(v, user)) <==> VideoModel.Valid(v)
  {
  }

  /** `createdAt: -1`: newer first. */
  predicate NewestFirst(a: Video, b: Video)
  {
    a.createdAt >= b.createdAt
  }

  lemma NewestFirstIsPreorder()
    ensures TotalPreorder(NewestFirst)
  {
  }

  /** `filter[field] = value` applied only when the query value is truthy. */
  predicate Matches(value: Option<string>, field: string)
  {
    value.None? || value.value == [] || field == value.value
  }

  /** The list filter: public, processed, and of the requested subject and topic. */
  predicate Listed(subject: Option<string>, topic: Option<string>, v: Video)
  {
    v.visibility == "public" && !v.isProcessing && Matches(subject, v.subject) && Matches(topic, v.topic)
  }

  /** `Listed` as the filter document handed to `find` and `countDocuments`. */
  function ListFilter(subject: Option<string>, topic: Option<string>): Video -> bool
  {
    v => Listed(subject, topic, v)
  }

  /** `find(filter).sort({ createdAt: -1 })` of GET /, before `skip` and `limit`: every listed
      video once, nothing else, newest first. */
  function AllListed(videos: map<Id, Video>, subject: Option<string>, topic: Option<string>): (r: seq<Video>)
    ensures multiset(r) == multiset(Filter(Rows(videos), ListFilter(subject, topic)))
    ensures |r| == |set id | id in videos && Listed(subject, topic, videos[id])|
    ensures forall id :: id in videos && Listed(subject, topic, videos[id]) ==> videos[id] in r
    ensures forall k :: 0 <= k < |r| ==> Listed(subject, topic, r[k]) && r[k] in videos.Values
    ensures SortedBy(r, NewestFirst)
  {
    var keep := ListFilter(subject, topic);
    NewestFirstIsPreorder();
    QueryFacts(videos, keep, NewestFirst);
    assert Matching(videos, keep) == (set id | id in videos && Listed(subject, topic, videos[id]));
    Query(videos, keep, NewestFirst)
  }

  /** GET /: one page of public, processed videos, newest first, with `page` defaulting to 1
      and `limit` to 20: the `PageSize` videos of `AllListed` from position `skip` on. */
  function List(videos: map<Id, Video>, subject: Option<string>, topic: Option<string>,
                page: Option<int>, limit: Option<int>): (r: Option<Page<Video>>)
    ensures var p, l := OrDefault(page, 1), OrDefault(limit, DefaultLimit);
      && (r.None? <==> Skip(p, l) < 0)
      && (r.Some? ==>
        && r.value.total == |set id | id in videos && Listed(subject, topic, videos[id])|
        && r.value.pages == PageCount(r.value.total, l)
        && |r.value.items| == PageSize(r.value.total, Skip(p, l), l)
        && (forall k :: 0 <= k < |r.value.items| ==>
          Skip(p, l) + k < |AllListed(videos, subject, topic)| && r.value.items[k] == AllListed(videos, subject, topic)[Skip(p, l) + k])
        && (forall k :: 0 <= k < |r.value.items| ==> Listed(subject, topic, r.value.items[k]))
        && SortedBy(r.value.items, NewestFirst))
  {
    var p, l := OrDefault(page, 1), OrDefault(limit, DefaultLimit);
    PageOfListed(videos, subject, topic, p, l);
    Paginate(AllListed(videos, subject, topic), p, l)
  }

  /** The facts of `List` about a page of `AllListed`, for any page number and limit. */
  lemma PageOfListed(videos: map<Id, Video>, subject: Option<string>, topic: Option<string>, p: int, l: int)
    ensures var r := Paginate(AllListed(videos, subject, topic), p, l);
      && (r.None? <==> Skip(p, l) < 0)
      && (r.Some? ==>
        && r.value.total == |set id | id in videos && Listed(subject, topic, videos[id])|
        && r.value.pages == PageCount(r.value.total, l)
        && |r.value.items| == PageSize(r.value.total, Skip(p, l), l)
        && (forall k :: 0 <= k < |r.value.items| ==>
          Skip(p, l) + k < |AllListed(videos, subject, topic)| && r.value.items[k] == AllListed(videos, subject, topic)[Skip(p, l) + k])
        && (forall k :: 0 <= k < |r.value.items| ==> Listed(subject, topic, r.value.items[k]))
        && SortedBy(r.value.items, NewestFirst))
  {
    var all := AllListed(videos, subject, topic);
    PaginateKeepsOrder(all, NewestFirst, p, l);
    var r := Paginate(all, p, l);
    if r.Some? {
      forall k | 0 <= k < |r.value.items| ensures Listed(subject, topic, r.value.items[k]) {
        assert r.value.items[k] == all[Skip(p, l) + k];
      }
    }
  }

  /** The filter of the by-uploader list: that uploader's public videos. */
  predicate ByUploaderKeeps(uploader: Id, v: Video)
  {
    v.uploader == Some(uploader) && v.visibility == "public"
  }

  /** `ByUploaderKeeps` as a filter document. */
  function UploaderFilter(uploader: Id): Video -> bool
  {
    v => ByUploaderKeeps(uploader, v)
  }

  /** GET /uploader/:uploaderId: every public video of that uploader once, nothing else, newest first. */
  function ByUploader(videos: map<Id, Video>, uploader: Id): (r: seq<Video>)
    ensures multiset(r) == multiset(Filter(Rows(videos), UploaderFilter(uploader)))
    ensures |r| == |set id | id in videos && ByUploaderKeeps(uploader, videos[id])|
    ensures forall id :: id in videos && ByUploaderKeeps(uploader, videos[id]) ==> videos[id] in r
    ensures forall k :: 0 <= k < |r| ==> r[k].uploader == Some(uploader) && r[k].visibility == "public" && r[k] in videos.Values
    ensures SortedBy(r, NewestFirst)
  {
    var keep := UploaderFilter(uploader);
    NewestFirstIsPreorder();
    QueryFacts(videos, keep, NewestFirst);
    assert Matching(videos, keep) == (set id | id in videos && ByUploaderKeeps(uploader, videos[id]));
    Query(videos, keep, NewestFirst)
  }
}
