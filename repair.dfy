/** What the two repair scripts (backend/fix-all-videos.js and backend/fix-uploader.js) do to a
    video and to its new owner's list of uploads. */
module Repair {
  import opened Common
  import opened Lists
  import VideoModel

  /** The update both scripts apply: the owner becomes the uploader and the video stops being
      marked as processing; every other field is kept. */
  function WithOwner(v: VideoModel.Video, owner: Id): (r: VideoModel.Video)
    ensures r.uploader == Some(owner) && !r.isProcessing
  {
    v.(uploader := Some(owner), isProcessing := false)
  }

  /** `if (!list.includes(id)) list.push(id)`. */
  function PushAbsent(s: seq<Id>, x: Id): (r: seq<Id>)
    ensures x in r && s <= r && |r| <= |s| + 1
    ensures forall y :: y in r <==> y in s || y == x
    ensures NoDup(s) ==> NoDup(r)
  {
    if x in s then s else s + [x]
  }

  /** `PushAbsent` of each id of `ids` in turn. */
  function PushAllAbsent(s: seq<Id>, ids: seq<Id>): (r: seq<Id>)
    ensures s <= r
    ensures forall y :: y in r <==> y in s || y in ids
    ensures NoDup(s) ==> NoDup(r)
  {
    if ids == [] then s
    else PushAbsent(PushAllAbsent(s, ids[..|ids| - 1]), ids[|ids| - 1])
  }

  /** One more id pushes that id onto the result of the others. */
  lemma PushAllAbsentSnoc(s: seq<Id>, ids: seq<Id>, x: Id)
    ensures PushAllAbsent(s, ids + [x]) == PushAbsent(PushAllAbsent(s, ids), x)
  {
    assert (ids + [x])[..|ids|] == ids;
  }

  /** Pushing ids that are all already listed changes nothing: running a repair a second time
      adds nothing to the owner's list. */
  lemma {:induction false} PushAllPresent(s: seq<Id>, ids: seq<Id>)
    requires forall y :: y in ids ==> y in s
    ensures PushAllAbsent(s, ids) == s
  {
    if ids != [] {
      PushAllPresent(s, ids[..|ids| - 1]);
      assert ids[|ids| - 1] in ids;
    }
  }
}
