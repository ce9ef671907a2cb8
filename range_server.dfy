/** The `/uploads/videos/:filename` handler of backend/server.js: a single `Range: bytes=S-E`
    request is answered with 206 and the bytes S..E, no Range header with 200 and the whole file.
    The file system is a map from file name to contents; the handler's effect is the response it
    writes, so it is modelled as a function from the request to that response. */
module RangeServer {
  import opened Common
  import opened Text

  /** The header object passed to `writeHead`; `Content-Range` is only present on a 206. */
  datatype Head = Head(contentLength: nat, contentType: string, acceptRanges: string, contentRange: Option<string>)

  /** A written response: status, the header object (none for the 404) and the bytes sent. */
  datatype Response =
    | Sent(status: nat, head: Option<Head>, body: seq<byte>)
      /** An exception thrown before anything is written; Express passes it to the application's
          error middleware (middleware/errorHandler.js, which is not part of this model). */
    | ServerError

  /** The bytes of an ASCII text. */
  function AsciiBytes(s: string): (r: seq<byte>)
    requires forall i :: 0 <= i < |s| ==> s[i] as int < 128
    ensures |r| == |s| && forall i :: 0 <= i < |s| ==> r[i] as int == s[i] as int
  {
    seq(|s|, i requires 0 <= i < |s| => s[i] as int as byte)
  }

  const NotFoundBody: seq<byte> := AsciiBytes("Video not found")

  /** `Number.MAX_SAFE_INTEGER`: larger stream bounds are refused by `fs.createReadStream`. */
  const MaxSafeInteger: int := 0x1F_FFFF_FFFF_FFFF

  // ---------------------------------------------------------------------------------------------
  // path.extname and the MIME table

  /** `s` without its trailing `c` characters. */
  function DropTrailing(s: string, c: char): (r: string)
    ensures |r| <= |s| && r == s[..|r|]
    ensures r == [] || r[|r| - 1] != c
    ensures forall i :: |r| <= i < |s| ==> s[i] == c
  {
    if s != [] && s[|s| - 1] == c then DropTrailing(s[..|s| - 1], c) else s
  }

  /** The index of the last `c` in `s`, or -1. */
  function LastIndexOf(s: string, c: char): (r: int)
    ensures -1 <= r < |s|
    ensures r >= 0 ==> s[r] == c
    ensures forall i :: r < i < |s| ==> s[i] != c
  {
    if s == [] then -1 else if s[|s| - 1] == c then |s| - 1 else LastIndexOf(s[..|s| - 1], c)
  }

  /** The last path component, trailing slashes ignored. */
  function LastComponent(p: string): (r: string)
    ensures '/' !in r
  {
    var t := DropTrailing(p, '/');
    t[LastIndexOf(t, '/') + 1..]
  }

  /** `path.extname` (POSIX): from the last dot of the last component to its end; empty when the
      component has no dot, starts with its only dot (a dot file) or is `..`. */
  function Extname(p: string): (r: string)
    ensures r == [] || (r[0] == '.' && '/' !in r)
  {
    var c := LastComponent(p);
    var d := LastIndexOf(c, '.');
    if d <= 0 || c == ".." then [] else c[d..]
  }

  const MimeTypes: map<string, string> := map[
    ".mp4" := "video/mp4",
    ".mov" := "video/quicktime",
    ".avi" := "video/x-msvideo",
    ".mpeg" := "video/mpeg",
    ".mpg" := "video/mpeg",
    ".webm" := "video/webm"
  ]

  /** `mimeTypes[ext] || 'video/mp4'` for the lower-cased extension. */
  function ContentTypeFor(name: string): (r: string)
    ensures r in MimeTypes.Values
    ensures ToLower(Extname(name)) !in MimeTypes ==> r == "video/mp4"
  {
    var ext := ToLower(Extname(name));
    assert MimeTypes[".mp4"] == "video/mp4";
    if ext in MimeTypes then MimeTypes[ext] else "video/mp4"
  }

  /** A name with a stem and a dot-free extension has that extension. */
  lemma ExtnameOfStemAndExtension(stem: string, e: string)
    requires stem != [] && '/' !in stem && '.' !in e && '/' !in e
    requires !(stem == "." && e == [])
    ensures Extname(stem + "." + e) == "." + e
  {
    var s := stem + "." + e;
    NoSlashInName(stem, e);
    ComponentOfSlashFree(s);
    LastDotBeforeExtension(stem, e);
    assert s[|stem|..] == "." + e;
  }

  lemma NoSlashInName(stem: string, e: string)
    requires '/' !in stem && '/' !in e
    ensures forall i :: 0 <= i < |stem + "." + e| ==> (stem + "." + e)[i] != '/'
  {
    var s := stem + "." + e;
    forall i | 0 <= i < |s| ensures s[i] != '/' {
      if i < |stem| { assert s[i] == stem[i]; } else if i > |stem| { assert s[i] == e[i - |stem| - 1]; }
    }
  }

  /** A name without a slash is its own last component. */
  lemma ComponentOfSlashFree(s: string)
    requires forall i :: 0 <= i < |s| ==> s[i] != '/'
    ensures LastComponent(s) == s
  {
    assert DropTrailing(s, '/') == s;
    assert LastIndexOf(s, '/') == -1;
    assert s[0..] == s;
  }

  lemma LastDotBeforeExtension(stem: string, e: string)
    requires '.' !in e
    ensures LastIndexOf(stem + "." + e, '.') == |stem|
  {
    LastIndexOfIsLast(stem + "." + e, '.', |stem|);
  }

  lemma LastIndexOfIsLast(s: string, c: char, k: int)
    requires 0 <= k < |s| && s[k] == c
    requires forall i :: k < i < |s| ==> s[i] != c
    ensures LastIndexOf(s, c) == k
  {
  }

  /** The extension is looked up lower-cased: `Lecture.MOV` is served as `video/quicktime`. */
  lemma ContentTypeOfKnownExtension(stem: string, e: string)
    requires stem != [] && '/' !in stem && '.' !in e && '/' !in e
    requires ToLower("." + e) in MimeTypes
    ensures ContentTypeFor(stem + "." + e) == MimeTypes[ToLower("." + e)]
  {
    ExtnameOfStemAndExtension(stem, e);
  }

  /** A dot file such as `.mov` has no extension and is served with the default type. */
  lemma DotFileGetsDefaultType(e: string)
    requires '.' !in e && '/' !in e
    ensures ContentTypeFor("." + e) == "video/mp4"
  {
    ExtnameOfDotFile(e);
    assert ToLower([]) == [];
  }

  lemma ExtnameOfDotFile(e: string)
    requires '.' !in e && '/' !in e
    ensures Extname("." + e) == []
  {
    NoSlashInName([], e);
    assert [] + "." + e == "." + e;
    ComponentOfSlashFree("." + e);
    LastDotBeforeExtension([], e);
  }

  // ---------------------------------------------------------------------------------------------
  // Range parsing

  /** The two stream bounds; `None` stands for NaN. */
  datatype Bounds = Bounds(start: Option<int>, end: Option<int>)

  /** `range.replace(/bytes=/, "").split("-")`, then `parseInt` of the first piece and, when the
      second piece is present and non-empty, of the second; otherwise the end is `size - 1`. */
  function ParseRange(range: string, size: nat): Bounds
  {
    var parts := Split(ReplaceFirst(range, "bytes=", ""), '-');
    var start := ParseInt(parts[0]);
    var end := if |parts| > 1 && parts[1] != [] then ParseInt(parts[1]) else Some(size - 1);
    Bounds(start, end)
  }

  /** What `fs.createReadStream` accepts: both bounds safe integers, non-negative, start <= end. */
  predicate StreamAccepts(b: Bounds)
  {
    && b.start.Some? && b.end.Some?
    && 0 <= b.start.value <= MaxSafeInteger && 0 <= b.end.value <= MaxSafeInteger
    && b.start.value <= b.end.value
  }

  /** The text of a `Range` header asking for bytes `s` to `e`. */
  function RangeHeader(s: nat, e: nat): string
  {
    "bytes=" + NatToString(s) + "-" + NatToString(e)
  }

  /** The text of a `Range` header asking for bytes `s` to the end. */
  function OpenRangeHeader(s: nat): string
  {
    "bytes=" + NatToString(s) + "-"
  }

  lemma NoDashInNumber(n: nat)
    ensures '-' !in NatToString(n)
  {
  }

  /** A header written as `bytes=S-E` is read back as the bounds S and E. */
  lemma ParseRangeHeader(s: nat, e: nat, size: nat)
    ensures ParseRange(RangeHeader(s, e), size) == Bounds(Some(s), Some(e))
  {
    var a, b := NatToString(s), NatToString(e);
    assert RangeHeader(s, e) == "bytes=" + (a + "-" + b);
    ReplaceFirstAtStart("bytes=", a + "-" + b, "");
    assert ReplaceFirst(RangeHeader(s, e), "bytes=", "") == a + "-" + b;
    NoDashInNumber(s);
    NoDashInNumber(e);
    assert Join([a, b], '-') == a + "-" + b by { assert [a, b][1..] == [b]; }
    SplitJoin([a, b], '-');
    ParseIntOfNatToString(s, []);
    ParseIntOfNatToString(e, []);
    assert a + [] == a && b + [] == b;
  }

  /** A header written as `bytes=S-` is read as the bounds S and `size - 1`. */
  lemma ParseOpenRangeHeader(s: nat, size: nat)
    ensures ParseRange(OpenRangeHeader(s), size) == Bounds(Some(s), Some(size - 1))
  {
    var a := NatToString(s);
    assert OpenRangeHeader(s) == "bytes=" + (a + "-");
    ReplaceFirstAtStart("bytes=", a + "-", "");
    assert ReplaceFirst(OpenRangeHeader(s), "bytes=", "") == a + "-";
    NoDashInNumber(s);
    assert Join([a, []], '-') == a + "-" by { assert [a, []][1..] == [[]]; assert a + "-" + [] == a + "-"; }
    SplitJoin([a, []], '-');
    var parts := Split(a + "-", '-');
    assert parts == [a, []];
    ParseIntOfNatToString(s, []);
    assert a + [] == a;
    assert ParseInt(parts[0]) == Some(s);
  }

  // ---------------------------------------------------------------------------------------------
  // The handler

  function Min(a: int, b: int): int
  {
    if a <= b then a else b
  }

  /** What a read stream over `file` with inclusive bounds `start <= end` delivers: it stops at
      the end of the file. */
  function StreamedBytes(file: seq<byte>, start: nat, end: nat): (r: seq<byte>)
    requires start <= end
    ensures start <= end < |file| ==> r == file[start..end + 1]
    ensures |r| == if start >= |file| then 0 else Min(end + 1, |file|) - start
  {
    if start >= |file| then [] else file[start..Min(end + 1, |file|)]
  }

  /** `bytes S-E/size`. */
  function ContentRange(start: nat, end: nat, size: nat): string
  {
    "bytes " + NatToString(start) + "-" + NatToString(end) + "/" + NatToString(size)
  }

  /** The 206 answer for parsed bounds, or the failure of `createReadStream` when it refuses them. */
  function ServeBounds(file: seq<byte>, contentType: string, b: Bounds): Response
  {
    if !StreamAccepts(b) then ServerError
    else
      var s, e := b.start.value, b.end.value;
      Sent(206, Some(Head(e - s + 1, contentType, "bytes", Some(ContentRange(s, e, |file|)))), StreamedBytes(file, s, e))
  }

  /** The answer for an existing file: the range answer when a non-empty Range header is given
      (an empty one is falsy), else 200 with the whole file. */
  function ServeFile(file: seq<byte>, contentType: string, range: Option<string>): Response
  {
    if range.Some? && range.value != [] then ServeBounds(file, contentType, ParseRange(range.value, |file|))
    else Sent(200, Some(Head(|file|, contentType, "bytes", None)), file)
  }

  /** GET /uploads/videos/:filename with an optional Range header. */
  function Serve(files: map<string, seq<byte>>, name: string, range: Option<string>): Response
  {
    if name !in files then Sent(404, None, NotFoundBody)
    else ServeFile(files[name], ContentTypeFor(name), range)
  }

  /** A name with no backing file gets 404 and the text "Video not found", and no range headers. */
  lemma ServeMissingFile(files: map<string, seq<byte>>, name: string, range: Option<string>)
    requires name !in files
    ensures Serve(files, name, range) == Sent(404, None, AsciiBytes("Video not found"))
  {
  }

  /** A Range header that parses to bounds inside the file is answered with exactly those bytes. */
  lemma ServeParsedRange(files: map<string, seq<byte>>, name: string, range: string, s: nat, e: nat)
    requires name in files && range != [] && s <= e < |files[name]| && e <= MaxSafeInteger
    requires ParseRange(range, |files[name]|) == Bounds(Some(s), Some(e))
    ensures Serve(files, name, Some(range))
      == Sent(206, Some(Head(e - s + 1, ContentTypeFor(name), "bytes", Some(ContentRange(s, e, |files[name]|)))), files[name][s..e + 1])
  {
    ServeOfBounds(files, name, range, Bounds(Some(s), Some(e)));
    ServeBoundsInFile(files[name], ContentTypeFor(name), s, e);
  }

  lemma ServeBoundsInFile(file: seq<byte>, ct: string, s: nat, e: nat)
    requires s <= e < |file| && e <= MaxSafeInteger
    ensures ServeBounds(file, ct, Bounds(Some(s), Some(e))) == Sent(206, Some(Head(e - s + 1, ct, "bytes", Some(ContentRange(s, e, |file|)))), file[s..e + 1])
  {
  }

  lemma ServeOfBounds(files: map<string, seq<byte>>, name: string, range: string, b: Bounds)
    requires name in files && range != [] && ParseRange(range, |files[name]|) == b
    ensures Serve(files, name, Some(range)) == ServeBounds(files[name], ContentTypeFor(name), b)
  {
  }

  /** Without a Range header the whole file is sent with status 200, its size as Content-Length
      and byte ranges advertised. */
  lemma ServeWithoutRange(files: map<string, seq<byte>>, name: string, range: Option<string>)
    requires name in files && (range.None? || range.value == [])
    ensures Serve(files, name, range) ==
      Sent(200, Some(Head(|files[name]|, ContentTypeFor(name), "bytes", None)), files[name])
  {
  }

  /** For `bytes=S-E` with `S <= E < size` the streamed bytes are exactly `file[S..E+1]`, with
      status 206, Content-Length `E - S + 1` and Content-Range `bytes S-E/size`. */
  lemma ServeRange(files: map<string, seq<byte>>, name: string, s: nat, e: nat)
    requires name in files && s <= e < |files[name]| && e <= MaxSafeInteger
    ensures Serve(files, name, Some(RangeHeader(s, e)))
      == Sent(206, Some(Head(e - s + 1, ContentTypeFor(name), "bytes", Some(ContentRange(s, e, |files[name]|)))), files[name][s..e + 1])
  {
    ParseRangeHeader(s, e, |files[name]|);
    assert RangeHeader(s, e) != [];
    ServeParsedRange(files, name, RangeHeader(s, e), s, e);
  }

  /** A suffix range (`bytes=-500`) reaches `createReadStream` with a NaN start and the request
      fails with 500. */
  lemma ServeSuffixRangeFails(files: map<string, seq<byte>>, name: string, n: nat)
    requires name in files
    ensures Serve(files, name, Some("bytes=-" + NatToString(n))) == ServerError
  {
    ParseSuffixRange(n, |files[name]|);
    ServeOfBounds(files, name, "bytes=-" + NatToString(n), ParseRange("bytes=-" + NatToString(n), |files[name]|));
  }

  /** `bytes=-N` leaves nothing before the dash: the start is NaN. */
  lemma ParseSuffixRange(n: nat, size: nat)
    ensures ParseRange("bytes=-" + NatToString(n), size).start == None
  {
    var a := "-" + NatToString(n);
    ReplaceFirstAtStart("bytes=", a, "");
    assert "bytes=-" + NatToString(n) == "bytes=" + a;
    assert Split(a, '-')[0] == [];
  }

  /** The Content-Type and Accept-Ranges of every 200 or 206 answer are those of the plain 200. */
  lemma HeadIndependentOfRange(files: map<string, seq<byte>>, name: string, range: Option<string>)
    requires name in files && Serve(files, name, range).Sent?
    ensures var r, whole := Serve(files, name, range), Serve(files, name, None);
      && r.head.Some?
      && r.head.value.contentType == whole.head.value.contentType == ContentTypeFor(name)
      && r.head.value.acceptRanges == whole.head.value.acceptRanges == "bytes"
  {
  }
}

// The answer the handler evidently intends for a range reaching past the end of the file, as
// sections 2.1 and 4.4 of RFC 7233 prescribe: the last byte position is clamped to the last byte
// of the file, and a first byte position at or past the end is answered 416 with
// `Content-Range: bytes */size`. Everything else is answered as by `RangeServer.Serve`.
module ClampedRangeServer {
  import opened Common
  import opened Text
  import opened RangeServer

  /** The as-written handler announces `E - S + 1` bytes while the stream stops at the end of the
      file: past the end, Content-Length exceeds the bytes sent (a ten-byte file asked for
      `bytes=5-20` is announced as 16 bytes and 5 are sent). */
  lemma ServeOverstatesLengthPastEnd(files: map<string, seq<byte>>, name: string, s: nat, e: nat)
    requires name in files && s <= e && |files[name]| <= e <= MaxSafeInteger
    ensures var r := Serve(files, name, Some(RangeHeader(s, e)));
      && r.Sent? && r.status == 206 && r.head.Some?
      && r.head.value.contentLength == e - s + 1 > |r.body|
  {
    ParseRangeHeader(s, e, |files[name]|);
    assert RangeHeader(s, e) != [];
    ServeOfBounds(files, name, RangeHeader(s, e), Bounds(Some(s), Some(e)));
  }

  /** The range answer for parsed bounds with the end clamped to the file. */
  function ClampedBounds(file: seq<byte>, contentType: string, b: Bounds): Response
  {
    if !StreamAccepts(b) then ServerError
    else if b.start.value >= |file| then
      Sent(416, Some(Head(0, contentType, "bytes", Some("bytes */" + NatToString(|file|)))), [])
    else
      var s, e := b.start.value, Min(b.end.value, |file| - 1);
      Sent(206, Some(Head(e - s + 1, contentType, "bytes", Some(ContentRange(s, e, |file|)))), file[s..e + 1])
  }

  function ServeClamped(files: map<string, seq<byte>>, name: string, range: Option<string>): Response
  {
    if name !in files then Sent(404, None, NotFoundBody)
    else if range.Some? && range.value != [] then
      ClampedBounds(files[name], ContentTypeFor(name), ParseRange(range.value, |files[name]|))
    else Sent(200, Some(Head(|files[name]|, ContentTypeFor(name), "bytes", None)), files[name])
  }

  /** Every 206 of the corrected handler announces exactly the bytes it sends, and its
      Content-Range names positions inside the file. */
  lemma ClampedLengthMatchesBody(files: map<string, seq<byte>>, name: string, range: Option<string>)
    requires ServeClamped(files, name, range).Sent? && ServeClamped(files, name, range).status == 206
    ensures name in files
    ensures var r := ServeClamped(files, name, range);
      && r.head.Some? && r.head.value.contentLength == |r.body|
      && exists s, e :: 0 <= s <= e < |files[name]| && r.head.value.contentRange == Some(ContentRange(s, e, |files[name]|))
           && r.body == files[name][s..e + 1]
  {
    var b := ParseRange(range.value, |files[name]|);
    ClampedBoundsHonest(files[name], ContentTypeFor(name), b);
  }

  lemma ClampedBoundsHonest(file: seq<byte>, ct: string, b: Bounds)
    requires ClampedBounds(file, ct, b).Sent? && ClampedBounds(file, ct, b).status == 206
    ensures var r := ClampedBounds(file, ct, b);
      && r.head.Some? && r.head.value.contentLength == |r.body|
      && exists s, e :: 0 <= s <= e < |file| && r.head.value.contentRange == Some(ContentRange(s, e, |file|))
           && r.body == file[s..e + 1]
  {
    var s, e := b.start.value, Min(b.end.value, |file| - 1);
    assert 0 <= s <= e < |file|;
  }

  /** The correction changes nothing when the requested end lies inside the file. */
  lemma ClampedAgreesInsideFile(files: map<string, seq<byte>>, name: string, range: Option<string>)
    requires name in files && range.Some? && range.value != []
    requires var b := ParseRange(range.value, |files[name]|); b.end.Some? ==> b.end.value < |files[name]|
    ensures ServeClamped(files, name, range) == Serve(files, name, range)
  {
    var b := ParseRange(range.value, |files[name]|);
    ServeOfBounds(files, name, range.value, b);
    ClampedBoundsAgree(files[name], ContentTypeFor(name), b);
  }

  lemma ClampedBoundsAgree(file: seq<byte>, ct: string, b: Bounds)
    requires b.end.Some? ==> b.end.value < |file|
    ensures ClampedBounds(file, ct, b) == ServeBounds(file, ct, b)
  {
  }
}
