/** backend/fix-uploader.js: a one-off script that gives the first video without uploader to a
    user, preferably one whose email mentions "faisal", and lists it among that user's uploads.
    The console output and the database connection are not modelled; the process exit code is
    the method's result. */
module FixUploader {
  import opened Common
  import opened Text
  import opened Store
  import opened Repair
  import opened Lists
  import UserModel
  import VideoModel

  type Video = VideoModel.Video
  type User = UserModel.User

  /** `Video.findOne({ uploader: null })`: the first video, in natural order, with no uploader
      stored. A stored id naming no user does not match. */
  function Target(videos: map<Id, Video>): (r: Option<Id>)
    ensures r.Some? ==> r.value in videos && videos[r.value].uploader.None?
    ensures r.None? <==> forall id :: id in videos ==> videos[id].uploader.Some?
  {
    FirstId(videos, (v: Video) => v.uploader.None?)
  }

  /** `/faisal/i` matches the email. */
  predicate MentionsFaisal(u: User)
  {
    ContainsIgnoringCase(u.email, "faisal")
  }

  /** `User.findOne({ email: /faisal/i }) || User.findOne()`: the first user whose email matches,
      otherwise the first user of all, and none when there are no users. */
  function ChosenUser(users: map<Id, User>): (r: Option<Id>)
    ensures r.Some? ==> r.value in users
    ensures r.None? <==> users.Keys == {}
    ensures (exists id :: id in users && MentionsFaisal(users[id])) ==> r.Some? && MentionsFaisal(users[r.value])
    ensures r.Some? && !MentionsFaisal(users[r.value]) ==>
      forall id :: id in users ==> !MentionsFaisal(users[id]) && r.value <= id
  {
    var f := FirstId(users, (u: User) => MentionsFaisal(u));
    if f.Some? then f
    else
      var any := FirstId(users, (u: User) => true);
      if any.None? then
        assert forall id :: id in users ==> false;
        any
      else
        any
  }

  /** The videos, the users and the exit code when the script ends. */
  datatype State = State(videos: map<Id, Video>, users: map<Id, User>, exitCode: int)

  /** What the script leaves behind. With no video to fix it exits with 0, and with no user with
      1, changing nothing. Otherwise the video is given the chosen user and saved (a record that
      then fails validation makes the script exit with 1 and changes nothing); its id is pushed
      onto the user's uploads only when absent, and that save failing makes the script exit with
      1 with the video already saved. */
  function After(videos: map<Id, Video>, users: map<Id, User>): (r: State)
    ensures r.videos.Keys == videos.Keys && r.users.Keys == users.Keys
    ensures Target(videos).None? ==> r == State(videos, users, 0)
    ensures Target(videos).Some? && users.Keys == {} ==> r == State(videos, users, 1)
    ensures r.exitCode == 0 && Target(videos).Some? ==>
      var t := Target(videos).value;
      var c := ChosenUser(users).value;
      && r.videos[t] == WithOwner(videos[t], c)
      && t in r.users[c].uploadedVideos
      && users[c].uploadedVideos <= r.users[c].uploadedVideos
    ensures forall id :: id in videos && Some(id) != Target(videos) ==> r.videos[id] == videos[id]
    ensures forall id :: id in users && Some(id) != ChosenUser(users) ==> r.users[id] == users[id]
    ensures forall id :: id in users && NoDup(users[id].uploadedVideos) ==> NoDup(r.users[id].uploadedVideos)
    ensures r.exitCode in {0, 1}
  {
    var t := Target(videos);
    var c := ChosenUser(users);
    if t.None? then State(videos, users, 0)
    else if c.None? then State(videos, users, 1)
    else
      var v := WithOwner(videos[t.value], c.value);
      if !VideoModel.Valid(v) then State(videos, users, 1)
      else
        var fixedVideos := videos[t.value := v];
        var list := users[c.value].uploadedVideos;
        if t.value in list then State(fixedVideos, users, 0)
        else
          var u := users[c.value].(uploadedVideos := PushAbsent(list, t.value));
          if !UserModel.Valid(u) then State(fixedVideos, users, 1)
          else State(fixedVideos, users[c.value := u], 0)
  }

  /** Running the script a second time after a clean run changes nothing when no other video
      lacks an uploader: it finds nothing to fix. */
  lemma SecondRunFindsNothing(videos: map<Id, Video>, users: map<Id, User>)
    requires Target(videos).Some?
    requires forall id :: id in videos && id != Target(videos).value ==> videos[id].uploader.Some?
    requires After(videos, users).exitCode == 0
    ensures var r := After(videos, users);
      Target(r.videos).None? && After(r.videos, r.users) == State(r.videos, r.users, 0)
  {
    var r := After(videos, users);
    var t := Target(videos).value;
    assert r.videos[t].uploader.Some?;
    forall id | id in r.videos ensures r.videos[id].uploader.Some? {
      if id != t {
        assert r.videos[id] == videos[id];
      }
    }
  }

  /** The script as it runs against the store: the final state and exit code are `After`. */
  method Run(db: Db) returns (exitCode: int)
    requires db.Valid()
    modifies db`videos, db`users
    ensures db.Valid()
    ensures State(db.videos, db.users, exitCode) == After(old(db.videos), old(db.users))
  {
    var target := Target(db.videos);
    if target.None? {
      return 0;
    }
    var t := target.value;
    var chosen := ChosenUser(db.users);
    if chosen.None? {
      return 1;
    }
    var c := chosen.value;
    var video := WithOwner(db.videos[t], c);
    if !VideoModel.Valid(video) {
      return 1;
    }
    PutVideo(db, t, video);
    var user := db.users[c];
    if t !in user.uploadedVideos {
      user := user.(uploadedVideos := user.uploadedVideos + [t]);
      if !UserModel.Valid(user) {
        return 1;
      }
      PutUser(db, c, UserModel.PreSave(user, false, (p: string) => p));
    }
    return 0;
  }
}
