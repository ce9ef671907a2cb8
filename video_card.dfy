/** The display helpers of frontend/src/components/Video/VideoCard.js: the duration label, the
    view and like counters, and the fallbacks for the uploader and the link. */
module VideoCard {
  import opened Common
  import opened Text

  /** The two-digit seconds part: a leading "0" when below ten. */
  function SecondsText(secs: nat): (r: string)
    requires secs < 60
    ensures |r| == 2 && AllDigits(r) && DigitsValue(r) == secs
  {
    NatToStringRoundTrip(secs);
    if secs < 10 then
      assert DigitsValue("0" + NatToString(secs)) == DigitsValue(NatToString(secs));
      "0" + NatToString(secs)
    else NatToString(secs)
  }

  /** `formatDuration(seconds)`: whole minutes, a colon, and the remaining seconds padded to two
      digits. `Math.floor(seconds / 60)` and `seconds % 60` agree with Dafny's division for a
      natural number of seconds. */
  function FormatDuration(seconds: nat): (r: string)
    ensures |r| >= 4 && r[|r| - 3] == ':'
  {
    NatToString(seconds / 60) + ":" + SecondsText(seconds % 60)
  }

  /** Reads an "m:ss" label back into seconds; `None` for any other shape. */
  function ParseDuration(t: string): Option<nat>
  {
    var parts := Split(t, ':');
    if |parts| == 2 && parts[0] != [] && AllDigits(parts[0]) && |parts[1]| == 2 && AllDigits(parts[1])
       && DigitsValue(parts[1]) < 60
    then Some(DigitsValue(parts[0]) * 60 + DigitsValue(parts[1]))
    else None
  }

  /** The label names exactly the duration it was made from: its minutes times sixty plus its
      two-digit seconds give the seconds back. */
  lemma FormatDurationRoundTrip(seconds: nat)
    ensures ParseDuration(FormatDuration(seconds)) == Some(seconds)
  {
    var m := NatToString(seconds / 60);
    var ss := SecondsText(seconds % 60);
    NatToStringRoundTrip(seconds / 60);
    assert Join([m, ss], ':') == m + [':'] + ss;
    assert FormatDuration(seconds) == Join([m, ss], ':');
    forall k | 0 <= k < 2 ensures ':' !in [m, ss][k] {
      assert AllDigits([m, ss][k]);
    }
    SplitJoin([m, ss], ':');
  }

  /** Two different durations never get the same label. */
  lemma FormatDurationInjective(a: nat, b: nat)
    requires FormatDuration(a) == FormatDuration(b)
    ensures a == b
  {
    FormatDurationRoundTrip(a);
    FormatDurationRoundTrip(b);
  }

  /** What `formatNumber(num)` shows: the number itself below 1000; at 1000 or more the text
      `(num / 1000).toFixed(1) + 'K'`, whose digits are not modelled (see `Thousands`). */
  datatype Counter = Exact(value: int) | Thousands(value: int)

  /** `formatNumber`: the threshold between the number shown as is and the "K" form. */
  function FormatNumber(num: int): (r: Counter)
    ensures r.value == num
    ensures r.Exact? <==> num < 1000
  {
    if num >= 1000 then Thousands(num) else Exact(num)
  }

  /** `video.uploader?.name?.charAt(0)?.toUpperCase() || 'U'`: the upper-cased first character of
      the uploader's name, or "U" when there is no uploader, no name (an unpopulated uploader
      has none) or an empty one. */
  function Initial(name: Option<string>): (r: string)
    ensures |r| == 1
    ensures name.Some? && name.value != [] ==> r[0] == UpperChar(name.value[0])
    ensures name.None? || name.value == [] ==> r == "U"
  {
    if name.Some? && name.value != [] then [UpperChar(name.value[0])] else "U"
  }

  /** `video.uploader?.name || 'Unknown User'`. */
  function DisplayName(name: Option<string>): (r: string)
    ensures r != []
    ensures name.Some? && name.value != [] ==> r == name.value
    ensures name.None? || name.value == [] ==> r == "Unknown User"
  {
    if name.Some? && name.value != [] then name.value else "Unknown User"
  }

  /** The avatar letter always belongs to the name shown beside it, the fallback included: it is
      that name's first character, upper-cased. */
  lemma InitialMatchesDisplayName(name: Option<string>)
    ensures Initial(name) == [UpperChar(DisplayName(name)[0])]
  {
    if name.None? || name.value == [] {
      assert DisplayName(name)[0] == 'U';
    }
  }

  /** `/video/${video._id || video.id}`: the `_id` when it is a non-empty string, else `id`;
      a missing `id` renders as "undefined" in the template string. */
  function VideoLink(underscoreId: Option<string>, id: Option<string>): (r: string)
    ensures |r| >= 7 && r[..7] == "/video/"
    ensures underscoreId.Some? && underscoreId.value != [] ==> r[7..] == underscoreId.value
    ensures (underscoreId.None? || underscoreId.value == []) && id.Some? ==> r[7..] == id.value
  {
    "/video/" + (if underscoreId.Some? && underscoreId.value != [] then underscoreId.value
                 else if id.Some? then id.value
                 else "undefined")
  }
}
