/** backend/fix-all-videos.js: a one-off script that gives every video without a usable uploader
    to the first user and lists those videos among that user's uploads. The console output and
    the database connection are not modelled; the process exit code is the method's result. */
module FixAllVideos {
  import opened Common
  import opened Lists
  import opened Store
  import opened Repair
  import UserModel
  import VideoModel

  type Video = VideoModel.Video
  type User = UserModel.User

  /** `!video.uploader` after `populate('uploader')`: no uploader is stored, or the stored id
      names no user, which `populate` turns into `null`. */
  predicate NeedsOwner(users: map<Id, User>, v: Video)
  {
    v.uploader.None? || v.uploader.value !in users
  }

  /** `NeedsOwner` as a filter over the videos. */
  function OwnerMissing(users: map<Id, User>): Video -> bool
  {
    (v: Video) => NeedsOwner(users, v)
  }

  /** `users[0]`: the first user in natural order, none when there are no users. */
  function DefaultUser(users: map<Id, User>): (r: Option<Id>)
    ensures r.Some? ==> r.value in users && forall id :: id in users ==> r.value <= id
    ensures r.None? <==> users.Keys == {}
  {
    var r := FirstId(users, (u: User) => true);
    if r.None? then
      assert forall id :: id in users ==> false;
      r
    else
      r
  }

  /** The ids below `n` of the videos that need an owner, in natural order. */
  function OrphansBelow(videos: map<Id, Video>, users: map<Id, User>, n: nat): seq<Id>
  {
    if n == 0 then []
    else
      var r := OrphansBelow(videos, users, n - 1);
      if n - 1 in videos && NeedsOwner(users, videos[n - 1]) then r + [n - 1] else r
  }

  /** The list holds exactly the videos below `n` that need an owner, each once. */
  lemma {:induction false} OrphansBelowMembers(videos: map<Id, Video>, users: map<Id, User>, n: nat)
    ensures forall id :: id in OrphansBelow(videos, users, n) <==> id in videos && id < n && NeedsOwner(users, videos[id])
    ensures NoDup(OrphansBelow(videos, users, n))
  {
    if n > 0 {
      OrphansBelowMembers(videos, users, n - 1);
    }
  }

  /** The ids of every video that needs an owner, in the order the loop visits them. */
  function Orphans(videos: map<Id, Video>, users: map<Id, User>): seq<Id>
  {
    OrphansBelow(videos, users, Above(videos.Keys))
  }

  /** The videos once the loop has handled the ids below `n`. */
  function RepairedBelow(videos: map<Id, Video>, users: map<Id, User>, owner: Id, n: nat): map<Id, Video>
  {
    if n == 0 then videos
    else
      var r := RepairedBelow(videos, users, owner, n - 1);
      if n - 1 in videos && NeedsOwner(users, videos[n - 1]) then r[n - 1 := WithOwner(videos[n - 1], owner)] else r
  }

  /** The loop never adds or removes a video. */
  lemma {:induction false} RepairedBelowKeys(videos: map<Id, Video>, users: map<Id, User>, owner: Id, n: nat)
    ensures RepairedBelow(videos, users, owner, n).Keys == videos.Keys
  {
    if n > 0 {
      RepairedBelowKeys(videos, users, owner, n - 1);
    }
  }

  /** Below `n`, a video that needed an owner is repaired; any other video is as it was. */
  lemma {:induction false} RepairedBelowAt(videos: map<Id, Video>, users: map<Id, User>, owner: Id, n: nat, id: Id)
    requires id in videos
    ensures id in RepairedBelow(videos, users, owner, n)
    ensures RepairedBelow(videos, users, owner, n)[id] ==
      (if id < n && NeedsOwner(users, videos[id]) then WithOwner(videos[id], owner) else videos[id])
  {
    if n > 0 {
      RepairedBelowAt(videos, users, owner, n - 1, id);
    }
  }

  /** The videos after the script: each one that needed an owner has `owner` as uploader. */
  function Repaired(videos: map<Id, Video>, users: map<Id, User>, owner: Id): map<Id, Video>
  {
    RepairedBelow(videos, users, owner, Above(videos.Keys))
  }

  /** The default user with the repaired videos pushed onto its uploads, each only if absent. */
  function OwnerAfter(videos: map<Id, Video>, users: map<Id, User>, owner: Id): User
    requires owner in users
  {
    users[owner].(uploadedVideos := PushAllAbsent(users[owner].uploadedVideos, Orphans(videos, users)))
  }

  /** The counter the script reports is the number of videos that needed an owner. */
  lemma {:induction false} OrphansCountBelow(videos: map<Id, Video>, users: map<Id, User>, n: nat)
    ensures |OrphansBelow(videos, users, n)| == |MatchingBelow(videos, OwnerMissing(users), n)|
  {
    if n > 0 {
      OrphansCountBelow(videos, users, n - 1);
      MatchingStep(videos, OwnerMissing(users), n - 1);
    }
  }

  lemma OrphansCount(videos: map<Id, Video>, users: map<Id, User>)
    ensures |Orphans(videos, users)| == |Matching(videos, OwnerMissing(users))|
  {
    OrphansCountBelow(videos, users, Above(videos.Keys));
    assert MatchingBelow(videos, OwnerMissing(users), Above(videos.Keys)) == Matching(videos, OwnerMissing(users));
  }

  /** After the repair no video needs an owner, videos that had one are untouched, each repaired
      video differs only in its uploader and processing flag, and a second run would change
      nothing. */
  lemma RepairedHasNoOrphans(videos: map<Id, Video>, users: map<Id, User>, owner: Id)
    requires owner in users
    ensures var r := Repaired(videos, users, owner);
      && r.Keys == videos.Keys
      && (forall id :: id in r ==> !NeedsOwner(users, r[id]))
      && (forall id :: id in videos && !NeedsOwner(users, videos[id]) ==> r[id] == videos[id])
      && (forall id :: id in videos && NeedsOwner(users, videos[id]) ==> r[id] == WithOwner(videos[id], owner))
      && Orphans(r, users) == []
      && Repaired(r, users, owner) == r
  {
    var r := Repaired(videos, users, owner);
    var top := Above(videos.Keys);
    RepairedBelowKeys(videos, users, owner, top);
    forall id | id in videos
      ensures r[id] == if NeedsOwner(users, videos[id]) then WithOwner(videos[id], owner) else videos[id]
    {
      RepairedBelowAt(videos, users, owner, top, id);
    }
    assert Above(r.Keys) == top;
    OrphansCount(r, users);
    assert Matching(r, OwnerMissing(users)) == {};
    RepairedBelowKeys(r, users, owner, top);
    forall id | id in r ensures Repaired(r, users, owner)[id] == r[id] {
      RepairedBelowAt(r, users, owner, top, id);
    }
  }

  /** The default user's list ends up holding every repaired video, keeps what it held, in the
      same order, and gains no duplicate. */
  lemma OwnerListsRepaired(videos: map<Id, Video>, users: map<Id, User>, owner: Id)
    requires owner in users
    ensures var s := users[owner].uploadedVideos;
      var t := OwnerAfter(videos, users, owner).uploadedVideos;
      && s <= t
      && (forall id :: id in videos && NeedsOwner(users, videos[id]) ==> id in t)
      && (forall id :: id in t ==> id in s || (id in videos && NeedsOwner(users, videos[id])))
      && (NoDup(s) ==> NoDup(t))
  {
    OrphansBelowMembers(videos, users, Above(videos.Keys));
  }

  /** The exit code of the script: 1 when there is no user, or when videos needed an owner and
      the default user then fails validation; 0 otherwise. */
  function ExitCode(videos: map<Id, Video>, users: map<Id, User>): (r: int)
    ensures users.Keys == {} ==> r == 1
    ensures users.Keys != {} ==>
      (r == 1 <==> Orphans(videos, users) != [] && !UserModel.Valid(OwnerAfter(videos, users, DefaultUser(users).value)))
    ensures r in {0, 1}
  {
    if users.Keys == {} then 1
    else if Orphans(videos, users) != [] && !UserModel.Valid(OwnerAfter(videos, users, DefaultUser(users).value)) then 1
    else 0
  }

  /** The users after the script: the default user's list is saved only when some video needed
      an owner and the user passes validation. */
  function UsersAfter(videos: map<Id, Video>, users: map<Id, User>): (r: map<Id, User>)
    ensures r.Keys == users.Keys
    ensures ExitCode(videos, users) == 1 || Orphans(videos, users) == [] ==> r == users
    ensures ExitCode(videos, users) == 0 && Orphans(videos, users) != [] ==>
      r == users[DefaultUser(users).value := OwnerAfter(videos, users, DefaultUser(users).value)]
  {
    if ExitCode(videos, users) == 1 || Orphans(videos, users) == [] then users
    else users[DefaultUser(users).value := OwnerAfter(videos, users, DefaultUser(users).value)]
  }

  /** The loop of the script: each video that needs an owner, in natural order, is given
      `owner` in the store, and its id is pushed, if absent, onto the in-memory copy of the
      owner's list; the number of such videos is counted. */
  method RepairVideos(db: Db, owner: Id) returns (fixed: nat, uploaded: seq<Id>)
    requires db.Valid() && owner in db.users
    modifies db`videos
    ensures db.Valid()
    ensures db.videos == Repaired(old(db.videos), db.users, owner)
    ensures fixed == |Orphans(old(db.videos), db.users)|
    ensures uploaded == PushAllAbsent(db.users[owner].uploadedVideos, Orphans(old(db.videos), db.users))
  {
    var vs, us := db.videos, db.users;
    uploaded := us[owner].uploadedVideos;
    ghost var orphans: seq<Id> := [];
    fixed := 0;
    var n := 0;
    var top := Above(vs.Keys);
    while n < top
      invariant n <= top
      invariant db.videos == RepairedBelow(vs, us, owner, n) && db.videos.Keys == vs.Keys
      invariant orphans == OrphansBelow(vs, us, n)
      invariant fixed == |orphans|
      invariant uploaded == PushAllAbsent(us[owner].uploadedVideos, orphans)
    {
      if n in vs && NeedsOwner(us, vs[n]) {
        PushAllAbsentSnoc(us[owner].uploadedVideos, orphans, n);
        orphans := orphans + [n];
        db.videos := db.videos[n := WithOwner(vs[n], owner)];
        uploaded := PushAbsent(uploaded, n);
        fixed := fixed + 1;
      }
      n := n + 1;
    }
  }

  /** The whole script. With no users it exits with 1 and changes nothing. Otherwise every video
      that needs an owner is given the first user (`findByIdAndUpdate`, which does not
      validate), and the count of such videos is returned; when it is positive the user's list
      is saved, and a user that fails validation makes the script exit with 1 after the videos
      were already updated. */
  method Run(db: Db) returns (exitCode: int, fixed: nat)
    requires db.Valid()
    modifies db`videos, db`users
    ensures db.Valid()
    ensures exitCode == ExitCode(old(db.videos), old(db.users))
    ensures db.users == UsersAfter(old(db.videos), old(db.users))
    ensures old(db.users).Keys == {} ==> fixed == 0 && db.videos == old(db.videos)
    ensures old(db.users).Keys != {} ==>
      && fixed == |Matching(old(db.videos), OwnerMissing(old(db.users)))|
      && db.videos == Repaired(old(db.videos), old(db.users), DefaultUser(old(db.users)).value)
  {
    ghost var vs := db.videos;
    var us := db.users;
    if us.Keys == {} {
      return 1, 0;
    }
    var owner := DefaultUser(us).value;
    var uploaded;
    fixed, uploaded := RepairVideos(db, owner);
    OrphansCount(vs, us);
    exitCode := 0;
    if fixed > 0 {
      var after := us[owner].(uploadedVideos := uploaded);
      if !UserModel.Valid(after) {
        exitCode := 1;
        return;
      }
      PutUser(db, owner, UserModel.PreSave(after, false, (p: string) => p));
    }
  }
}
