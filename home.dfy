/** The statistics and the client-side ordering of the home page (frontend/src/pages/Home.js,
    lines 36-49). The page works on the list reply of GET /api/videos; the moment the page is
    rendered (`Date.now()`) is a parameter. */
module Home {
  import opened Common
  import opened Lists
  import opened Sorting
  import VideoModel

  type Video = VideoModel.Video

  /** The reply the page holds: `undefined` while loading (`None`), otherwise the `videos` array
      and `pagination.total`, each possibly absent. A failed request is replaced by
      `{ videos: [], pagination: {} }`. */
  datatype Reply = Reply(videos: Option<seq<Video>>, total: Option<int>)

  /** The reply the page substitutes when the request fails. */
  const FailedReply: Reply := Reply(Some([]), None)

  /** A week in milliseconds. */
  const WeekMillis: int := 7 * 24 * 60 * 60 * 1000

  /** `videosData?.videos || []`. */
  function VideosOf(data: Option<Reply>): (r: seq<Video>)
    ensures data.None? || data.value.videos.None? ==> r == []
    ensures data.Some? && data.value.videos.Some? ==> r == data.value.videos.value
  {
    if data.Some? && data.value.videos.Some? then data.value.videos.value else []
  }

  /** `videosData?.pagination?.total || 0`: the server's count, or 0 when the reply is still
      loading, failed, or carries none. */
  function Total(data: Option<Reply>): (r: int)
    ensures data.Some? && data.value.total.Some? ==> r == data.value.total.value
    ensures data.None? || data.value.total.None? ==> r == 0
  {
    if data.Some? && data.value.total.Some? && data.value.total.value != 0 then data.value.total.value else 0
  }

  /** `videos.filter(v => v.views > 200).length`. */
  function Trending(videos: seq<Video>): int
  {
    |Filter(videos, (v: Video) => v.views > 200)|
  }

  /** `videos.filter(v => new Date(v.createdAt) > new Date(now - week)).length`. */
  function Recent(videos: seq<Video>, now: int): int
  {
    |Filter(videos, (v: Video) => v.createdAt > now - WeekMillis)|
  }

  /** The trending count is the number of listed videos with more than 200 views, and the
      recent count the number uploaded within the last week: neither exceeds the list. */
  lemma StatsCountTheirVideos(videos: seq<Video>, now: int)
    ensures Trending(videos) == |set i | 0 <= i < |videos| && videos[i].views > 200|
    ensures Recent(videos, now) == |set i | 0 <= i < |videos| && videos[i].createdAt > now - WeekMillis|
    ensures 0 <= Trending(videos) <= |videos| && 0 <= Recent(videos, now) <= |videos|
  {
    var hot := (v: Video) => v.views > 200;
    var lastWeek := (v: Video) => v.createdAt > now - WeekMillis;
    FilterLengthIsPositionCount(videos, hot);
    FilterLengthIsPositionCount(videos, lastWeek);
    assert Positions(videos, hot) == set i | 0 <= i < |videos| && videos[i].views > 200;
    assert Positions(videos, lastWeek) == set i | 0 <= i < |videos| && videos[i].createdAt > now - WeekMillis;
  }

  /** The request failing leaves the statistics at zero. */
  lemma FailedReplyShowsZero(now: int)
    ensures VideosOf(Some(FailedReply)) == [] && Total(Some(FailedReply)) == 0
    ensures Trending(VideosOf(Some(FailedReply))) == 0 && Recent(VideosOf(Some(FailedReply)), now) == 0
  {
  }

  /** The comparator of the sort: descending views or likes, newest first by `createdAt`, and 0
      for any other key. */
  function Compare(sortBy: string, a: Video, b: Video): int
  {
    if sortBy == "views" then b.views - a.views
    else if sortBy == "likes" then b.likes - a.likes
    else if sortBy == "createdAt" then b.createdAt - a.createdAt
    else 0
  }

  /** "`a` may stay in front of `b`" for the comparator. */
  function InFront(sortBy: string): (Video, Video) -> bool
  {
    (a: Video, b: Video) => Compare(sortBy, a, b) <= 0
  }

  /** `[...videos].sort(cmp)`: a sorted copy; the page's `videos` array keeps its order. */
  function SortedVideos(videos: seq<Video>, sortBy: string): seq<Video>
  {
    SortBy(videos, InFront(sortBy))
  }

  /** Every key gives a consistent comparator. */
  lemma InFrontIsPreorder(sortBy: string)
    ensures TotalPreorder(InFront(sortBy))
  {
    var le := InFront(sortBy);
    forall a: Video, b: Video ensures le(a, b) || le(b, a) {
      assert Compare(sortBy, a, b) == -Compare(sortBy, b, a);
    }
    forall a: Video, b: Video, c: Video | le(a, b) && le(b, c) ensures le(a, c) {
      assert Compare(sortBy, a, c) == Compare(sortBy, a, b) + Compare(sortBy, b, c);
    }
  }

  /** The sorted copy holds the same videos, each as often, and is ordered by the chosen key:
      most viewed first, most liked first, or newest first. */
  lemma SortedVideosOrder(videos: seq<Video>, sortBy: string)
    ensures multiset(SortedVideos(videos, sortBy)) == multiset(videos)
    ensures var r := SortedVideos(videos, sortBy);
      && (sortBy == "views" ==> forall i, j :: 0 <= i < j < |r| ==> r[i].views >= r[j].views)
      && (sortBy == "likes" ==> forall i, j :: 0 <= i < j < |r| ==> r[i].likes >= r[j].likes)
      && (sortBy == "createdAt" ==> forall i, j :: 0 <= i < j < |r| ==> r[i].createdAt >= r[j].createdAt)
  {
    InFrontIsPreorder(sortBy);
    SortByIsSorted(videos, InFront(sortBy));
  }

  /** Any other key makes the comparator return 0 throughout, and the stable sort keeps the
      server's order. */
  lemma UnknownKeyKeepsOrder(videos: seq<Video>, sortBy: string)
    requires sortBy !in {"views", "likes", "createdAt"}
    ensures SortedVideos(videos, sortBy) == videos
  {
    SortByAllEqualIsIdentity(videos, InFront(sortBy));
  }
}
