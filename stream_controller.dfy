/**
 * `streamVideo` (backend/controllers/streamController.js): look the video up, check its file,
 * and answer either the whole file (200) or the byte range the `Range` header names (206).
 * The uploads directory is a map from stored name to file size, as `fs.existsSync` and
 * `fs.statSync` report it; the bytes themselves are not modelled.
 */
module StreamController {
  import opened Wrappers
  import opened Text
  import VideoModel

  datatype Header = Header(name: string, value: string)

  /** What is piped to the response: the whole file, or `createReadStream({ start, end })`. */
  datatype Body = WholeFile | ByteRange(start: nat, end: nat)

  datatype Response =
    | SendStatus(status: nat)                            // res.sendStatus(status)
    | Send(status: nat, text: string)                    // res.status(status).send(text)
    | Stream(status: nat, headers: seq<Header>, body: Body)  // res.writeHead(...) then pipe

  const VideoContentType := "video/mp4"
  const FileNotFoundMessage := "Video file not found"
  const RangePrefix := "bytes="

  /** `Number.MAX_SAFE_INTEGER`, the largest position Node's read stream accepts. */
  const MaxSafeInteger: int := 0x1F_FFFF_FFFF_FFFF

  /** The value of the first header with that name. */
  function HeaderValue(headers: seq<Header>, name: string): Option<string> {
    if headers == [] then None
    else if headers[0].name == name then Some(headers[0].value)
    else HeaderValue(headers[1..], name)
  }

  /** The first two fields of `range.replace(/bytes=/, "").split("-")`; a missing second field is None. */
  datatype RangeFields = RangeFields(first: string, second: Option<string>)

  /** The fields of the text after "bytes=": up to the first '-', then up to the next one. */
  function SplitFields(spec: string): (r: RangeFields)
    ensures '-' !in r.first
    ensures r.second.Some? ==> '-' !in r.second.value
    ensures StartsWith(spec, r.first)
    ensures r.second.None? <==> '-' !in spec
    ensures r.second.Some? ==> StartsWith(spec, r.first + "-" + r.second.value)
    ensures r.second.Some? && |r.first| + 1 + |r.second.value| < |spec| ==>
      spec[|r.first| + 1 + |r.second.value|] == '-'
  {
    var first := TakeUntil(spec, '-');
    match AfterFirst(spec, '-')
    case None => RangeFields(first, None)
    case Some(rest) =>
      var second := TakeUntil(rest, '-');
      assert StartsWith(spec, first + "-" + second) && (|first| + 1 + |second| < |spec| ==>
        spec[|first| + 1 + |second|] == '-') by {
        SecondFieldInPlace(spec, first, rest);
      }
      RangeFields(first, Some(second))
  }

  lemma SecondFieldInPlace(spec: string, first: string, rest: string)
    requires spec == first + "-" + rest
    ensures StartsWith(spec, first + "-" + TakeUntil(rest, '-'))
    ensures |first| + 1 + |TakeUntil(rest, '-')| < |spec| ==> spec[|first| + 1 + |TakeUntil(rest, '-')|] == '-'
  {
    var second := TakeUntil(rest, '-');
    assert rest[..|second|] == second;
    assert (first + "-" + second) == spec[..|first| + 1 + |second|];
  }

  function SplitRange(range: string): (r: RangeFields)
    ensures '-' !in r.first
    ensures r.second.Some? ==> '-' !in r.second.value
    ensures
      var spec := ReplaceFirst(range, RangePrefix, "");
      && StartsWith(spec, r.first)
      && (r.second.None? <==> '-' !in spec)
      && (r.second.Some? ==> StartsWith(spec, r.first + "-" + r.second.value))
      && (r.second.Some? && |r.first| + 1 + |r.second.value| < |spec| ==>
            spec[|r.first| + 1 + |r.second.value|] == '-')
  {
    SplitFields(ReplaceFirst(range, RangePrefix, ""))
  }

  /**
   * Lines 22-23: `start = parseInt(parts[0], 10)` and `end = parts[1] ? parseInt(parts[1], 10) :
   * fileSize - 1`. None is NaN. Neither field holds '-', so a parsed value is never negative.
   */
  function ParseRange(range: string, fileSize: nat): (r: (Option<int>, Option<int>))
    ensures r.0.Some? ==> r.0.value >= 0
    ensures r.1.Some? ==> r.1.value >= -1
    ensures r.0 == ParseInt(SplitRange(range).first)
    ensures !Truthy(SplitRange(range).second) ==> r.1 == Some(fileSize - 1)
    ensures Truthy(SplitRange(range).second) ==> r.1 == ParseInt(SplitRange(range).second.value)
  {
    var fields := SplitRange(range);
    var start := ParseInt(fields.first);
    var end := if Truthy(fields.second) then ParseInt(fields.second.value) else Some(fileSize - 1);
    (start, end)
  }

  /**
   * Node's rule for `fs.createReadStream(path, { start, end })`: both must be integers in
   * [0, MAX_SAFE_INTEGER] and start must not exceed end; otherwise the call throws.
   */
  predicate ReadStreamAccepts(start: Option<int>, end: Option<int>) {
    && start.Some? && end.Some?
    && 0 <= start.value <= end.value <= MaxSafeInteger
  }

  /** Line 25: the number of bytes from `start` to `end`, both included. */
  function ChunkSize(start: nat, end: nat): (n: nat)
    requires start <= end
    ensures n >= 1
  {
    end - start + 1
  }

  /** Line 29: `bytes ${start}-${end}/${fileSize}`. */
  function ContentRange(start: nat, end: nat, fileSize: nat): string {
    "bytes " + NatToString(start) + "-" + NatToString(end) + "/" + NatToString(fileSize)
  }

  /** Lines 28-33: the headers of a partial reply. */
  function PartialHeaders(start: nat, end: nat, fileSize: nat): seq<Header>
    requires start <= end
  {
    [ Header("Content-Range", ContentRange(start, end, fileSize)),
      Header("Accept-Ranges", "bytes"),
      Header("Content-Length", NatToString(ChunkSize(start, end))),
      Header("Content-Type", VideoContentType) ]
  }

  lemma PartialHeaderValues(start: nat, end: nat, fileSize: nat)
    requires start <= end
    ensures
      var h := PartialHeaders(start, end, fileSize);
      && HeaderValue(h, "Content-Range") == Some(ContentRange(start, end, fileSize))
      && HeaderValue(h, "Accept-Ranges") == Some("bytes")
      && HeaderValue(h, "Content-Length") == Some(NatToString(ChunkSize(start, end)))
      && HeaderValue(h, "Content-Type") == Some(VideoContentType)
  {
    var h := PartialHeaders(start, end, fileSize);
    var t1 := h[1..];
    var t2 := t1[1..];
    var t3 := t2[1..];
    assert HeaderValue(t3, "Content-Type") == Some(VideoContentType);
    assert HeaderValue(t2, "Content-Type") == Some(VideoContentType);
    assert HeaderValue(t2, "Content-Length") == Some(NatToString(ChunkSize(start, end)));
    assert HeaderValue(t1, "Content-Type") == Some(VideoContentType);
    assert HeaderValue(t1, "Content-Length") == Some(NatToString(ChunkSize(start, end)));
  }

  /** Lines 37-40: the headers of a full reply. */
  function FullHeaders(fileSize: nat): seq<Header> {
    [ Header("Content-Length", NatToString(fileSize)),
      Header("Content-Type", VideoContentType) ]
  }

  lemma FullHeaderValues(fileSize: nat)
    ensures HeaderValue(FullHeaders(fileSize), "Content-Length") == Some(NatToString(fileSize))
    ensures HeaderValue(FullHeaders(fileSize), "Content-Type") == Some(VideoContentType)
  {
  }

  /** The start and end a range header asks of a file of `fileSize` bytes, when Node accepts them. */
  predicate RangeAccepted(range: string, fileSize: nat) {
    ReadStreamAccepts(ParseRange(range, fileSize).0, ParseRange(range, fileSize).1)
  }

  /**
   * Lines 16-43 once the file is known to exist: with a truthy `Range` header, 206 with the
   * requested bytes (or 500 when the read stream refuses the bounds); without one, 200 with the
   * whole file. Both replies are typed "video/mp4".
   */
  function ServeFile(fileSize: nat, range: Option<string>): (r: Response)
    ensures r.Stream? <==> !Truthy(range) || RangeAccepted(range.value, fileSize)
    ensures r.SendStatus? ==> r.status == 500
    ensures r.Stream? ==> r.status in {200, 206} && (r.status == 206 <==> Truthy(range))
    ensures r.Stream? ==> HeaderValue(r.headers, "Content-Type") == Some(VideoContentType)
    ensures r.Stream? && r.status == 200 ==>
      r.body == WholeFile && HeaderValue(r.headers, "Content-Length") == Some(NatToString(fileSize))
    ensures r.Stream? && r.status == 206 ==>
      && r.body.ByteRange? && r.body.start <= r.body.end
      && ParseRange(range.value, fileSize) == (Some(r.body.start), Some(r.body.end))
    ensures r.Stream? && r.body.ByteRange? && r.body.start <= r.body.end ==>
      && HeaderValue(r.headers, "Content-Range") == Some(ContentRange(r.body.start, r.body.end, fileSize))
      && HeaderValue(r.headers, "Content-Length") == Some(NatToString(ChunkSize(r.body.start, r.body.end)))
      && HeaderValue(r.headers, "Accept-Ranges") == Some("bytes")
  {
    if Truthy(range) then
      var bounds := ParseRange(range.value, fileSize);
      if !ReadStreamAccepts(bounds.0, bounds.1) then SendStatus(500)
      else
        var start: nat := bounds.0.value;
        var end: nat := bounds.1.value;
        PartialHeaderValues(start, end, fileSize);
        Stream(206, PartialHeaders(start, end, fileSize), ByteRange(start, end))
    else
      FullHeaderValues(fileSize);
      Stream(200, FullHeaders(fileSize), WholeFile)
  }

  /**
   * The handler. `video` is what `Video.findById` found; `files` maps a stored name to the size
   * of its file. A missing record is 404 and a missing file 404 "Video file not found", both
   * before any header is written. A record without `storedName` makes `path.join` throw, which
   * the catch turns into 500.
   */
  function StreamVideo(video: Option<VideoModel.VideoRecord>, files: map<string, nat>, range: Option<string>)
    : (r: Response)
    ensures video.None? ==> r == SendStatus(404)
    ensures video.Some? && video.value.storedName.None? ==> r == SendStatus(500)
    ensures video.Some? && video.value.storedName.Some? && video.value.storedName.value !in files ==>
      r == Send(404, FileNotFoundMessage)
    ensures Servable(video, files) ==> r == ServeFile(FileSize(video, files), range)
    ensures r.Stream? ==> Servable(video, files)
  {
    match video
    case None => SendStatus(404)
    case Some(v) =>
      match v.storedName
      case None => SendStatus(500)
      case Some(name) =>
        if name !in files then Send(404, FileNotFoundMessage)
        else ServeFile(files[name], range)
  }

  /** A record whose file is present. */
  predicate Servable(video: Option<VideoModel.VideoRecord>, files: map<string, nat>) {
    video.Some? && video.value.storedName.Some? && video.value.storedName.value in files
  }

  function FileSize(video: Option<VideoModel.VideoRecord>, files: map<string, nat>): nat
    requires Servable(video, files)
  {
    files[video.value.storedName.value]
  }

  /** A numeral holds no '-'. */
  lemma NoDashInNumeral(n: nat)
    ensures '-' !in NatToString(n)
  {
    var s := NatToString(n);
    assert forall k :: 0 <= k < |s| ==> IsDigit(s[k]);
  }

  /** The range header, after "bytes=" is removed, is `spec`. */
  lemma DropRangePrefix(spec: string)
    ensures ReplaceFirst(RangePrefix + spec, RangePrefix, "") == spec
  {
    ReplaceLeadingPattern(RangePrefix, spec, "");
    assert "" + spec == spec;
  }

  /** "bytes=" followed by a dash-free field, a '-' and the rest: the fields are that field and the rest's first. */
  lemma SplitRangeOfParts(a: string, rest: string)
    requires '-' !in a
    ensures SplitRange(RangePrefix + a + "-" + rest) == RangeFields(a, Some(TakeUntil(rest, '-')))
  {
    var spec := a + "-" + rest;
    assert RangePrefix + a + "-" + rest == RangePrefix + spec;
    DropRangePrefix(spec);
    TakeUntilOfParts(a, '-', rest);
    AfterFirstOfParts(a, '-', rest);
  }

  /** "bytes=S-E" gives start S and end E. */
  lemma ParseClosedRange(start: nat, end: nat, fileSize: nat)
    ensures ParseRange(RangePrefix + NatToString(start) + "-" + NatToString(end), fileSize) == (Some(start), Some(end))
  {
    NoDashInNumeral(start);
    NoDashInNumeral(end);
    SplitRangeOfParts(NatToString(start), NatToString(end));
    TakeUntilWhole(NatToString(end), '-');
    ParseIntOfNatToString(start, "");
    ParseIntOfNatToString(end, "");
    assert NatToString(start) + "" == NatToString(start) && NatToString(end) + "" == NatToString(end);
  }

  /** "bytes=S-" gives start S and the last byte of the file as end. */
  lemma ParseOpenRange(start: nat, fileSize: nat)
    ensures ParseRange(RangePrefix + NatToString(start) + "-", fileSize) == (Some(start), Some(fileSize - 1))
  {
    NoDashInNumeral(start);
    SplitRangeOfParts(NatToString(start), "");
    assert RangePrefix + NatToString(start) + "-" + "" == RangePrefix + NatToString(start) + "-";
    ParseIntOfNatToString(start, "");
    assert NatToString(start) + "" == NatToString(start);
  }

  /** A truthy range whose bounds Node accepts is answered 206 with those bounds. */
  lemma ServeAcceptedRange(fileSize: nat, range: string, start: nat, end: nat)
    requires ParseRange(range, fileSize) == (Some(start), Some(end))
    requires start <= end <= MaxSafeInteger
    ensures ServeFile(fileSize, Some(range)) == Stream(206, PartialHeaders(start, end, fileSize), ByteRange(start, end))
  {
    EmptyRangeHasNoStart(fileSize);
    assert RangeAccepted(range, fileSize);
  }

  /** An empty header has no start: `parseInt("")` is NaN. */
  lemma EmptyRangeHasNoStart(fileSize: nat)
    ensures ParseRange("", fileSize).0 == None
  {
    assert ReplaceFirst("", RangePrefix, "") == "";
    assert ParseInt("") == None;
  }

  /** A truthy range whose bounds Node refuses is answered 500. */
  lemma ServeRefusedRange(fileSize: nat, range: string)
    requires range != "" && !RangeAccepted(range, fileSize)
    ensures ServeFile(fileSize, Some(range)) == SendStatus(500)
  {
    assert Truthy(Some(range));
  }

  /** A well-formed closed range of a present file is answered 206 with exactly that range. */
  lemma ClosedRangeReply(video: Option<VideoModel.VideoRecord>, files: map<string, nat>, start: nat, end: nat)
    requires Servable(video, files)
    requires start <= end <= MaxSafeInteger
    ensures StreamVideo(video, files, Some(RangePrefix + NatToString(start) + "-" + NatToString(end)))
      == Stream(206, PartialHeaders(start, end, FileSize(video, files)), ByteRange(start, end))
  {
    var size := FileSize(video, files);
    var range := RangePrefix + NatToString(start) + "-" + NatToString(end);
    assert ServeFile(size, Some(range)) == Stream(206, PartialHeaders(start, end, size), ByteRange(start, end)) by {
      ParseClosedRange(start, end, size);
      ServeAcceptedRange(size, range, start, end);
    }
  }

  /**
   * "bytes=S-" on a file with a byte at S is answered 206 from S to the last byte; the headers
   * then follow from the contract of ServeFile.
   */
  lemma OpenRangeReply(video: Option<VideoModel.VideoRecord>, files: map<string, nat>, start: nat)
    requires Servable(video, files)
    requires start < FileSize(video, files) <= MaxSafeInteger
    ensures
      var r := StreamVideo(video, files, Some(RangePrefix + NatToString(start) + "-"));
      r.Stream? && r.status == 206 && r.body == ByteRange(start, FileSize(video, files) - 1)
  {
    ServeOpenRange(FileSize(video, files), start);
  }

  /** The open range at the ServeFile level. */
  lemma ServeOpenRange(size: nat, start: nat)
    requires start < size <= MaxSafeInteger
    ensures
      var r := ServeFile(size, Some(RangePrefix + NatToString(start) + "-"));
      r.Stream? && r.status == 206 && r.body == ByteRange(start, size - 1)
  {
    var range := RangePrefix + NatToString(start) + "-";
    assert RangeAccepted(range, size) && Truthy(Some(range)) by { ParseOpenRange(start, size); }
    assert ParseRange(range, size) == (Some(start), Some(size - 1)) by { ParseOpenRange(start, size); }
  }

  /** A range whose start exceeds its end makes `createReadStream` throw: 500. */
  lemma InvertedRangeFails(video: Option<VideoModel.VideoRecord>, files: map<string, nat>, start: nat, end: nat)
    requires Servable(video, files)
    requires end < start
    ensures StreamVideo(video, files, Some(RangePrefix + NatToString(start) + "-" + NatToString(end))) == SendStatus(500)
  {
    var size := FileSize(video, files);
    var range := RangePrefix + NatToString(start) + "-" + NatToString(end);
    assert ServeFile(size, Some(range)) == SendStatus(500) by {
      ParseClosedRange(start, end, size);
      ServeRefusedRange(size, range);
    }
  }

  /** "bytes=0-" on an empty file asks for end -1: 500. */
  lemma EmptyFileOpenRangeFails(video: Option<VideoModel.VideoRecord>, files: map<string, nat>)
    requires Servable(video, files) && FileSize(video, files) == 0
    ensures StreamVideo(video, files, Some(RangePrefix + NatToString(0) + "-")) == SendStatus(500)
  {
    var range := RangePrefix + NatToString(0) + "-";
    assert ServeFile(0, Some(range)) == SendStatus(500) by {
      ParseOpenRange(0, 0);
      ServeRefusedRange(0, range);
    }
  }

  /** A suffix range "bytes=-N" has no start digits; `parseInt` gives NaN and the reply is 500. */
  lemma SuffixRangeFails(video: Option<VideoModel.VideoRecord>, files: map<string, nat>, n: nat)
    requires Servable(video, files)
    ensures StreamVideo(video, files, Some(RangePrefix + "-" + NatToString(n))) == SendStatus(500)
  {
    var size := FileSize(video, files);
    var range := RangePrefix + "-" + NatToString(n);
    assert ServeFile(size, Some(range)) == SendStatus(500) by {
      assert range == RangePrefix + "" + "-" + NatToString(n);
      SplitRangeOfParts("", NatToString(n));
      assert ParseInt("") == None;
      ServeRefusedRange(size, range);
    }
  }

  /**
   * The bytes a read stream over [start, end] delivers from a file of `fileSize` bytes: those of
   * the range that lie inside the file.
   */
  function Delivered(start: nat, end: nat, fileSize: nat): (n: nat)
    ensures n <= fileSize
    ensures n > 0 ==> start < fileSize && start <= end
  {
    var last := if end < fileSize then end else fileSize - 1;
    if last < start then 0 else last - start + 1
  }

  /**
   * No clamping: the Content-Length announced by a 206 reply equals the bytes that follow exactly
   * when the range ends inside the file.
   */
  lemma ContentLengthHonestIffInside(start: nat, end: nat, fileSize: nat)
    requires start <= end
    ensures ChunkSize(start, end) == Delivered(start, end, fileSize) <==> end < fileSize
  {
  }
}
