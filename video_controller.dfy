/**
 * The video handlers (backend/controllers/videoController.js): the upload gate and what an upload
 * stores, the ffprobe defaulting, the thumbnail time, the tenant-scoped list query and its
 * statistics, the fetch, delete and analyse ladders, and the duration and file-size helpers.
 * The store is a map from id to record (or a list, for `find`); files, ffmpeg and the clock are
 * outside the model, and what they return is passed in.
 */
module VideoController {
  import opened Wrappers
  import opened Text
  import opened Http
  import opened VideoModel
  import Jwt
  import Auth
  import UserModel
  import StreamToken
  import Upload
  import VideoProcessor

  /** A JSON reply `{ success, message }`; `success` is `status < 400`. */
  datatype Reply = Reply(status: nat, message: string)

  const NotFoundMessage := "Video not found"
  const ForbiddenMessage := "Forbidden"

  // -------------------------------------------------------------------------------------------
  // Tenant check
  // -------------------------------------------------------------------------------------------

  /** Lines 229, 278, 337: `String(video.tenantId) === String(req.user.tenantId)`. */
  predicate SameTenant(video: VideoRecord, user: Auth.RequestUser): (same: bool)
    ensures video.tenantId == user.tenantId ==> same
  {
    JsString(video.tenantId) == JsString(user.tenantId)
  }

  /** Two present tenant ids pass the check exactly when they are equal. */
  lemma SameTenantOfPresent(video: VideoRecord, user: Auth.RequestUser)
    requires video.tenantId.Id? && user.tenantId.Id?
    ensures SameTenant(video, user) <==> video.tenantId == user.tenantId
  {
  }

  /**
   * Two absent tenants pass the check only when they are absent the same way: a `null` one prints
   * "null" and a missing one "undefined".
   */
  lemma MissingTenantsMatch(video: VideoRecord, user: Auth.RequestUser)
    requires !video.tenantId.Id? && !user.tenantId.Id?
    ensures SameTenant(video, user) <==> video.tenantId == user.tenantId
  {
  }

  /**
   * The whole check: the ids are equal, or one is absent and the other is the string that
   * absence prints as.
   */
  lemma SameTenantCases(video: VideoRecord, user: Auth.RequestUser)
    ensures SameTenant(video, user) <==>
      || video.tenantId == user.tenantId
      || (video.tenantId == Null && user.tenantId == Id("null"))
      || (video.tenantId == Id("null") && user.tenantId == Null)
      || (video.tenantId == Undefined && user.tenantId == Id("undefined"))
      || (video.tenantId == Id("undefined") && user.tenantId == Undefined)
  {
  }

  // -------------------------------------------------------------------------------------------
  // uploadVideo
  // -------------------------------------------------------------------------------------------

  /** `req.file` as multer leaves it. */
  datatype UploadedFile = UploadedFile(originalName: string, filename: string, size: nat)

  const NoFileMessage := "No file uploaded"
  const UploadFailedMessage := "Upload failed"
  const UploadedMessage := "Video uploaded successfully"

  /** Lines 11-26: a file must be present and at most 200 MiB. */
  function UploadGate(file: Option<UploadedFile>): (r: Gate<UploadedFile>)
    ensures r.Pass? <==> file.Some? && file.value.size <= Upload.MaxFileSize
    ensures r.Pass? ==> r.value == file.value
    ensures file.None? ==> r == Respond(400, NoFileMessage)
    ensures file.Some? && file.value.size > Upload.MaxFileSize ==> r == Respond(400, Upload.FileTooLargeMessage)
  {
    if file.None? then Respond(400, NoFileMessage)
    else if file.value.size > Upload.MaxFileSize then Respond(400, Upload.FileTooLargeMessage)
    else Pass(file.value)
  }

  /** The size limit sits exactly at 200 MiB. */
  lemma UploadSizeBoundary(f: UploadedFile)
    ensures UploadGate(Some(f)).Pass? <==> f.size <= 200 * 1024 * 1024
  {
  }

  /** One entry of ffprobe's `streams`. */
  datatype ProbeStream = ProbeStream(codecType: Option<string>, width: Option<int>, height: Option<int>,
                                     codecName: Option<string>)

  /** ffprobe's `format`. */
  datatype ProbeFormat = ProbeFormat(duration: Option<real>, bitRate: Option<int>)

  /** What ffprobe reports; its `format` and `streams` may be missing. */
  datatype ProbeData = ProbeData(format: Option<ProbeFormat>, streams: Option<seq<ProbeStream>>)

  /** The metadata the handler derives; None is `null` (or `undefined`). */
  datatype Metadata = Metadata(duration: real, width: Option<int>, height: Option<int>,
                               bitrate: Option<int>, codec: Option<string>)

  predicate IsVideoStream(s: ProbeStream) { s.codecType == Some("video") }

  /** Line 46: `streams.find(s => s.codec_type === "video")`. */
  function FirstVideoStream(streams: seq<ProbeStream>): (r: Option<ProbeStream>)
    ensures r.None? <==> forall i :: 0 <= i < |streams| ==> !IsVideoStream(streams[i])
    ensures r.Some? ==> exists i :: 0 <= i < |streams| && streams[i] == r.value && IsVideoStream(streams[i])
                                    && forall j :: 0 <= j < i ==> !IsVideoStream(streams[j])
  {
    if streams == [] then None
    else if IsVideoStream(streams[0]) then Some(streams[0])
    else
      var r := FirstVideoStream(streams[1..]);
      assert forall i :: 1 <= i < |streams| ==> streams[i] == streams[1..][i - 1];
      r
  }

  /** Lines 37-43: the metadata of a file ffprobe could not read. */
  const NoMetadata := Metadata(0.0, None, None, None, None)

  /**
   * Lines 35-54: a failed probe (None) gives duration 0 and no other values; otherwise the
   * duration is `format.duration || 0`, the bit rate `format.bit_rate`, and width, height and
   * codec come from the first video stream, or are missing when there is none.
   */
  function ProbeMetadata(probe: Option<ProbeData>): (m: Metadata)
    ensures probe.None? ==> m == NoMetadata
    ensures probe.Some? ==>
      var format := if probe.value.format.Some? then probe.value.format.value else ProbeFormat(None, None);
      var stream := FirstVideoStream(if probe.value.streams.Some? then probe.value.streams.value else []);
      && m.duration == (if format.duration.Some? then format.duration.value else 0.0)
      && m.bitrate == format.bitRate
      && (stream.None? ==> m.width.None? && m.height.None? && m.codec.None?)
      && (stream.Some? ==> m.width == stream.value.width && m.height == stream.value.height
                           && m.codec == stream.value.codecName)
  {
    match probe
    case None => NoMetadata
    case Some(data) =>
      var format := if data.format.Some? then data.format.value else ProbeFormat(None, None);
      var stream := FirstVideoStream(if data.streams.Some? then data.streams.value else []);
      var duration := if format.duration.Some? && format.duration.value != 0.0 then format.duration.value else 0.0;
      Metadata(duration, if stream.Some? then stream.value.width else None,
               if stream.Some? then stream.value.height else None,
               format.bitRate,
               if stream.Some? then stream.value.codecName else None)
  }

  /** Audio streams before the picture do not change what the probe reports. */
  lemma ProbeSkipsNonVideoStreams(format: Option<ProbeFormat>, before: seq<ProbeStream>, rest: seq<ProbeStream>)
    requires forall i :: 0 <= i < |before| ==> !IsVideoStream(before[i])
    ensures ProbeMetadata(Some(ProbeData(format, Some(before + rest)))) == ProbeMetadata(Some(ProbeData(format, Some(rest))))
  {
    FirstVideoStreamAfter(before, rest);
  }

  lemma {:induction false} FirstVideoStreamAfter(before: seq<ProbeStream>, rest: seq<ProbeStream>)
    requires forall i :: 0 <= i < |before| ==> !IsVideoStream(before[i])
    ensures FirstVideoStream(before + rest) == FirstVideoStream(rest)
  {
    if before == [] {
      assert before + rest == rest;
    } else {
      var all := before + rest;
      assert all[0] == before[0] && !IsVideoStream(all[0]);
      assert all[1..] == before[1..] + rest;
      assert forall i :: 0 <= i < |before[1..]| ==> before[1..][i] == before[i + 1];
      FirstVideoStreamAfter(before[1..], rest);
    }
  }

  /** `Math.floor(x)` on a real. */
  function Floor(x: real): (n: int)
    ensures n as real <= x < n as real + 1.0
  {
    x.Floor
  }

  /** Line 88: `Math.min(1, Math.floor(duration / 2) || 1)`. */
  function ThumbnailTimestamp(duration: real): (t: int)
    ensures t <= 1
  {
    var half := Floor(duration / 2.0);
    var pick := if half != 0 then half else 1;
    if pick < 1 then pick else 1
  }

  /** Whatever the duration a probe can report, the thumbnail is taken at second 1. */
  lemma ThumbnailAlwaysAtOneSecond(duration: real)
    ensures ThumbnailTimestamp(duration) == 1 <==> duration >= 0.0
  {
  }

  /** Line 96: the public path of a video's thumbnail. */
  function ThumbnailUrl(id: string): string {
    "/uploads/thumbnails/" + id + ".jpg"
  }

  /**
   * Lines 94-97: when ffmpeg has written the thumbnail, its path is put on the document and the
   * document saved. `thumbnail` is not a schema path, so what is saved is the record as it was.
   */
  method AttachThumbnail(video: VideoProcessor.VideoDocument, io: VideoProcessor.Trace)
    modifies video, io
    ensures video.thumbnail == Some(ThumbnailUrl(video.id))
    ensures video.Record() == old(video.Record())
    ensures io.effects == old(io.effects) + [VideoProcessor.Saved(old(video.Record()))]
  {
    video.thumbnail := Some(ThumbnailUrl(video.id));
    video.Save(io);
  }

  /** What a successful upload answers with (201): the stored record and a stream token for it. */
  datatype UploadReply =
    | UploadRejected(status: nat, message: string)
    | UploadAccepted(record: VideoRecord, streamToken: string, thumbnailAt: int)

  /**
   * `uploadVideo` after the authentication middleware. `newId` is the id the store gives the new
   * record; `probe` is ffprobe's answer (None for an error); `sign`, `expiresIn` and `now` are the
   * token library, its expiry and the clock. A failing step inside the try answers 500.
   */
  function UploadVideo(file: Option<UploadedFile>, user: Auth.RequestUser, probe: Option<ProbeData>, newId: string,
                       sign: Jwt.Sign, expiresIn: string, now: nat): (r: UploadReply)
    ensures file.None? ==> r == UploadRejected(400, NoFileMessage)
    ensures UploadGate(file).Respond? ==> r == UploadRejected(400, UploadGate(file).message)
    ensures r.UploadAccepted? <==> UploadGate(file).Pass? && newId != "" && user.userId != ""
    ensures UploadGate(file).Pass? && !r.UploadAccepted? ==> r == UploadRejected(500, UploadFailedMessage)
    ensures r.UploadAccepted? ==>
      && r.record.id == newId
      && r.record.originalName == Some(file.value.originalName)
      && r.record.storedName == Some(file.value.filename)
      && r.record.tenantId == user.tenantId
      && r.record.status == Uploaded
      && r.record.sensitivity == DefaultSensitivity
      && r.streamToken == sign(StreamToken.StreamPayload(newId, user.userId, Undefined, now), expiresIn)
      && r.thumbnailAt == ThumbnailTimestamp(ProbeMetadata(probe).duration)
  {
    match UploadGate(file)
    case Respond(status, message) => UploadRejected(status, message)
    case Pass(f) =>
      var metadata := ProbeMetadata(probe);
      var created := CreateVideo(newId, Some(f.originalName), Some(f.filename), user.tenantId, Some(Uploaded.Name()));
      assert created.Ok?;
      match StreamToken.GenerateStreamToken(sign, expiresIn, Some(newId), Some(user.userId), Undefined, now)
      case Err(_) => UploadRejected(500, UploadFailedMessage)
      case Ok(token) => UploadAccepted(created.value, token, ThumbnailTimestamp(metadata.duration))
  }

  /** The stored record and its token do not depend on what ffprobe reported. */
  lemma UploadedRecordIgnoresProbe(file: Option<UploadedFile>, user: Auth.RequestUser, p1: Option<ProbeData>,
                                   p2: Option<ProbeData>, newId: string, sign: Jwt.Sign, expiresIn: string, now: nat)
    requires UploadVideo(file, user, p1, newId, sign, expiresIn, now).UploadAccepted?
    ensures
      var a := UploadVideo(file, user, p1, newId, sign, expiresIn, now);
      var b := UploadVideo(file, user, p2, newId, sign, expiresIn, now);
      b.UploadAccepted? && a.record == b.record && a.streamToken == b.streamToken
  {
  }

  // -------------------------------------------------------------------------------------------
  // getVideos: the query and the statistics
  // -------------------------------------------------------------------------------------------

  /**
   * A filter document: path to the value it must have. None is a `null` filter, which the database
   * matches against a `null` value and a missing path alike.
   */
  type Query = map<string, Option<string>>

  /** An id as a filter value or a stored value compares: `null` and missing are both None. */
  function FilterValue(id: JsId): (v: Option<string>)
    ensures v.Some? <==> id.Id?
    ensures id.Id? ==> v.value == id.value
  {
    if id.Id? then Some(id.value) else None
  }

  /** Lines 150-159 as a value: the caller's tenant, plus each optional filter that is truthy. */
  function QueryFor(tenantId: JsId, status: Option<string>, sensitivity: Option<string>): (q: Query)
    ensures "tenantId" in q && q["tenantId"] == FilterValue(tenantId)
    ensures "status" in q <==> Truthy(status)
    ensures "status" in q ==> q["status"] == status
    ensures "sensitivity.status" in q <==> Truthy(sensitivity)
    ensures "sensitivity.status" in q ==> q["sensitivity.status"] == sensitivity
    ensures q.Keys <= {"tenantId", "status", "sensitivity.status"}
  {
    var q := map["tenantId" := FilterValue(tenantId)];
    var q := if Truthy(status) then q["status" := status] else q;
    if Truthy(sensitivity) then q["sensitivity.status" := sensitivity] else q
  }

  /** Lines 150-159: the handler builds the query one assignment at a time. */
  method BuildQuery(tenantId: JsId, status: Option<string>, sensitivity: Option<string>) returns (q: Query)
    ensures q == QueryFor(tenantId, status, sensitivity)
  {
    q := map["tenantId" := FilterValue(tenantId)];
    if Truthy(status) {
      q := q["status" := status];
    }
    if Truthy(sensitivity) {
      q := q["sensitivity.status" := sensitivity];
    }
  }

  /** The value a record holds at a filter path, as the database compares it. */
  function FieldValue(v: VideoRecord, path: string): Option<string> {
    if path == "tenantId" then FilterValue(v.tenantId)
    else if path == "status" then Some(v.status.Name())
    else if path == "sensitivity.status" then v.sensitivity.status
    else None
  }

  /** A record matches when it holds every value the query names. */
  predicate Matches(v: VideoRecord, q: Query) {
    forall path :: path in q ==> FieldValue(v, path) == q[path]
  }

  /** `Video.find(query)`: the matching records, in store order. */
  function FindVideos(store: seq<VideoRecord>, q: Query): (r: seq<VideoRecord>)
    ensures |r| <= |store|
    ensures forall v :: v in r ==> v in store && Matches(v, q)
    ensures forall v :: v in store && Matches(v, q) ==> v in r
    ensures IsSubsequence(r, store)
  {
    if store == [] then []
    else
      var rest := FindVideos(store[1..], q);
      assert forall v :: v in store ==> v == store[0] || v in store[1..];
      if Matches(store[0], q) then [store[0]] + rest else rest
  }

  /**
   * Tenant isolation: every listed record belongs to the caller's tenant and passes each filter
   * the caller supplied; every record of the store that does is listed. A caller without a tenant
   * lists the records without one, `null` and missing alike.
   */
  lemma ListIsTenantScoped(store: seq<VideoRecord>, tenantId: JsId, status: Option<string>,
                           sensitivity: Option<string>)
    ensures
      var listed := FindVideos(store, QueryFor(tenantId, status, sensitivity));
      && (forall v :: v in listed ==> FilterValue(v.tenantId) == FilterValue(tenantId))
      && (forall v :: v in listed && Truthy(status) ==> Some(v.status.Name()) == status)
      && (forall v :: v in listed && Truthy(sensitivity) ==> v.sensitivity.status == sensitivity)
      && (forall v :: v in store && FilterValue(v.tenantId) == FilterValue(tenantId) && !Truthy(status) && !Truthy(sensitivity) ==> v in listed)
  {
    var q := QueryFor(tenantId, status, sensitivity);
    forall v | v in FindVideos(store, q)
      ensures FilterValue(v.tenantId) == FilterValue(tenantId)
      ensures Truthy(status) ==> Some(v.status.Name()) == status
      ensures Truthy(sensitivity) ==> v.sensitivity.status == sensitivity
    {
      assert FieldValue(v, "tenantId") == q["tenantId"];
      if Truthy(status) { assert FieldValue(v, "status") == q["status"]; }
      if Truthy(sensitivity) { assert FieldValue(v, "sensitivity.status") == q["sensitivity.status"]; }
    }
    forall v | v in store && FilterValue(v.tenantId) == FilterValue(tenantId) && !Truthy(status) && !Truthy(sensitivity)
      ensures v in FindVideos(store, q)
    {
      assert q.Keys == {"tenantId"};
      assert Matches(v, q);
    }
  }

  /** Lines 189-197. */
  datatype Stats = Stats(total: nat, uploaded: nat, processing: nat, processed: nat,
                         safe: nat, sensitive: nat, pending: nat)

  /** `videos.filter(v => v.status === st).length`. */
  function CountStatus(videos: seq<VideoRecord>, st: Status): (n: nat)
    ensures n <= |videos|
    ensures n == 0 <==> forall i :: 0 <= i < |videos| ==> videos[i].status != st
  {
    if videos == [] then 0
    else
      var rest := CountStatus(videos[1..], st);
      assert forall i :: 1 <= i < |videos| ==> videos[i] == videos[1..][i - 1];
      (if videos[0].status == st then 1 else 0) + rest
  }

  /** `videos.filter(v => v.sensitivity?.status === label).length`. */
  function CountSensitivity(videos: seq<VideoRecord>, verdict: string): (n: nat)
    ensures n <= |videos|
    ensures n == 0 <==> forall i :: 0 <= i < |videos| ==> videos[i].sensitivity.status != Some(verdict)
  {
    if videos == [] then 0
    else
      var rest := CountSensitivity(videos[1..], verdict);
      assert forall i :: 1 <= i < |videos| ==> videos[i] == videos[1..][i - 1];
      (if videos[0].sensitivity.status == Some(verdict) then 1 else 0) + rest
  }

  /** Lines 189-197: the statistics of the listed videos. */
  function ComputeStats(videos: seq<VideoRecord>): (s: Stats)
    ensures s.total == |videos|
    ensures s.uploaded <= s.total && s.processing <= s.total && s.processed <= s.total
    ensures s.safe <= s.total && s.sensitive <= s.total && s.pending <= s.total
  {
    Stats(|videos|,
          CountStatus(videos, Uploaded), CountStatus(videos, Processing), CountStatus(videos, Processed),
          CountSensitivity(videos, "safe"), CountSensitivity(videos, "sensitive"), CountSensitivity(videos, "pending"))
  }

  /** Every listed video has exactly one status, so the three status counts add up to the total. */
  lemma {:induction false} StatusCountsPartition(videos: seq<VideoRecord>)
    ensures
      var s := ComputeStats(videos);
      s.uploaded + s.processing + s.processed == s.total
  {
    if videos != [] {
      StatusCountsPartition(videos[1..]);
    }
  }

  /** The three verdict labels are distinct, so their counts add up to at most the total. */
  lemma {:induction false} SensitivityCountsBounded(videos: seq<VideoRecord>)
    ensures
      var s := ComputeStats(videos);
      s.safe + s.sensitive + s.pending <= s.total
  {
    if videos != [] {
      SensitivityCountsBounded(videos[1..]);
    }
  }

  /** Records the schema built carry no `sensitivity.status`: the three verdict counts are zero. */
  lemma SchemaRecordsHaveNoVerdictCounts(videos: seq<VideoRecord>)
    requires forall i :: 0 <= i < |videos| ==> videos[i].sensitivity.status.None?
    ensures
      var s := ComputeStats(videos);
      s.safe == 0 && s.sensitive == 0 && s.pending == 0
  {
  }

  // -------------------------------------------------------------------------------------------
  // getVideo, deleteVideo, triggerAnalyze
  // -------------------------------------------------------------------------------------------

  const FetchFailedMessage := "Failed to fetch video"

  /**
   * `getVideo` (lines 219-254): 404 without a record, 403 for another tenant, otherwise the
   * record with a stream token for the caller; a token that cannot be made answers 500.
   */
  function GetVideo(video: Option<VideoRecord>, user: Auth.RequestUser, sign: Jwt.Sign, expiresIn: string, now: nat)
    : (r: Gate<(VideoRecord, string)>)
    ensures video.None? ==> r == Respond(404, NotFoundMessage)
    ensures video.Some? && !SameTenant(video.value, user) ==> r == Respond(403, ForbiddenMessage)
    ensures r.Pass? <==> video.Some? && SameTenant(video.value, user) && video.value.id != "" && user.userId != ""
    ensures r.Pass? ==> r.value.0 == video.value
                        && r.value.1 == sign(StreamToken.StreamPayload(video.value.id, user.userId, Undefined, now), expiresIn)
  {
    match video
    case None => Respond(404, NotFoundMessage)
    case Some(v) =>
      if !SameTenant(v, user) then Respond(403, ForbiddenMessage)
      else
        match StreamToken.GenerateStreamToken(sign, expiresIn, Some(v.id), Some(user.userId), Undefined, now)
        case Err(_) => Respond(500, FetchFailedMessage)
        case Ok(token) => Pass((v, token))
  }

  /**
   * A record stored with a `null` tenant is refused to a caller whose token carries no tenant
   * claim at all, although the list handler shows it to that caller.
   */
  lemma NullTenantHiddenFromClaimlessCaller(v: VideoRecord, user: Auth.RequestUser, sign: Jwt.Sign,
                                            expiresIn: string, now: nat)
    requires v.tenantId == Null && user.tenantId == Undefined
    ensures GetVideo(Some(v), user, sign, expiresIn, now) == Respond(403, ForbiddenMessage)
    ensures Matches(v, QueryFor(user.tenantId, None, None))
  {
    MissingTenantsMatch(v, user);
    assert QueryFor(user.tenantId, None, None).Keys == {"tenantId"};
  }

  const InsufficientPermissionsMessage := "Insufficient permissions"
  const DeletedMessage := "Video deleted successfully"
  const DeleteFailedMessage := "Delete failed"

  /** Line 286: the roles that may delete. */
  const DeletingRoles := [UserModel.Role.Editor.Name(), UserModel.Role.Admin.Name()]

  /**
   * `deleteVideo` over a store keyed by id: 404, then the tenant 403, then the role 403; a record
   * without `storedName` makes `path.join` throw (500). Only past every check is the record
   * removed, and nothing else changes.
   */
  function DeleteVideo(store: map<string, VideoRecord>, id: string, user: Auth.RequestUser)
    : (r: (Reply, map<string, VideoRecord>))
    ensures id !in store ==> r.0 == Reply(404, NotFoundMessage)
    ensures id in store && !SameTenant(store[id], user) ==> r.0 == Reply(403, ForbiddenMessage)
    ensures id in store && SameTenant(store[id], user) && user.role !in DeletingRoles ==>
      r.0 == Reply(403, InsufficientPermissionsMessage)
    ensures r.0.status == 200 <==>
      id in store && SameTenant(store[id], user) && user.role in DeletingRoles && store[id].storedName.Some?
    ensures r.0.status == 200 ==> r.0.message == DeletedMessage && r.1 == store - {id}
    ensures r.0.status != 200 ==> r.1 == store
  {
    if id !in store then (Reply(404, NotFoundMessage), store)
    else
      var v := store[id];
      if !SameTenant(v, user) then (Reply(403, ForbiddenMessage), store)
      else if user.role !in DeletingRoles then (Reply(403, InsufficientPermissionsMessage), store)
      else if v.storedName.None? then (Reply(500, DeleteFailedMessage), store)
      else (Reply(200, DeletedMessage), store - {id})
  }

  /** A viewer never deletes anything, whatever the tenant. */
  lemma ViewersCannotDelete(store: map<string, VideoRecord>, id: string, user: Auth.RequestUser)
    requires user.role == UserModel.Role.Viewer.Name()
    ensures DeleteVideo(store, id, user).1 == store
  {
  }

  /** A caller from another tenant never removes a record, whatever their role. */
  lemma DeleteIsTenantScoped(store: map<string, VideoRecord>, id: string, user: Auth.RequestUser)
    requires id in store && !SameTenant(store[id], user)
    ensures DeleteVideo(store, id, user).1 == store
  {
  }

  const AlreadyAnalyzedMessage := "Video already analyzed"
  const InProgressMessage := "Analysis already in progress"
  const AnalysisStartedMessage := "Analysis started in background"

  /** JavaScript truthiness of a flag that may be missing. */
  predicate TruthyFlag(b: Option<bool>) { b == Some(true) }

  /**
   * The `triggerAnalyze` ladder (lines 327-358): 404, tenant 403, already analysed 400, already
   * requested 400, in that order. Pass carries the record exactly as it was found.
   */
  function AnalyzeAdmission(video: Option<VideoRecord>, user: Auth.RequestUser): (r: Gate<VideoRecord>)
    ensures video.None? ==> r == Respond(404, NotFoundMessage)
    ensures video.Some? && !SameTenant(video.value, user) ==> r == Respond(403, ForbiddenMessage)
    ensures video.Some? && SameTenant(video.value, user) && TruthyFlag(video.value.analysisDone) ==>
      r == Respond(400, AlreadyAnalyzedMessage)
    ensures (video.Some? && SameTenant(video.value, user) && !TruthyFlag(video.value.analysisDone)
             && TruthyFlag(video.value.analysisRequested)) ==> r == Respond(400, InProgressMessage)
    ensures r.Pass? <==> video.Some? && SameTenant(video.value, user)
                         && !TruthyFlag(video.value.analysisDone) && !TruthyFlag(video.value.analysisRequested)
    ensures r.Pass? ==> r.value == video.value
  {
    match video
    case None => Respond(404, NotFoundMessage)
    case Some(v) =>
      if !SameTenant(v, user) then Respond(403, ForbiddenMessage)
      else if TruthyFlag(v.analysisDone) then Respond(400, AlreadyAnalyzedMessage)
      else if TruthyFlag(v.analysisRequested) then Respond(400, InProgressMessage)
      else Pass(v)
  }

  /** No record the schema builds carries either flag, so a same-tenant record is always admitted again. */
  lemma SchemaRecordsAlwaysAdmitted(v: VideoRecord, user: Auth.RequestUser)
    requires v.analysisDone.None? && v.analysisRequested.None?
    ensures AnalyzeAdmission(Some(v), user).Pass? <==> SameTenant(v, user)
  {
  }

  /** The loaded document as a record, or None when `findById` found nothing. */
  function Found(video: VideoProcessor.VideoDocument?): Option<VideoRecord>
    reads video
  {
    if video == null then None else Some(video.Record())
  }

  /**
   * `triggerAnalyze`: the ladder decides; an admitted video is handed unchanged to `processVideo`
   * and the reply is 200. A refused one, and the trace, are left as they were.
   */
  method TriggerAnalyze(video: VideoProcessor.VideoDocument?, user: Auth.RequestUser, io: VideoProcessor.Trace)
    returns (reply: Reply)
    modifies video, io
    ensures AnalyzeAdmission(old(Found(video)), user).Respond? ==>
      && reply == Reply(AnalyzeAdmission(old(Found(video)), user).status, AnalyzeAdmission(old(Found(video)), user).message)
      && (video != null ==> video.Record() == old(video.Record()))
      && io.effects == old(io.effects)
    ensures AnalyzeAdmission(old(Found(video)), user).Pass? ==>
      && video != null
      && reply == Reply(200, AnalysisStartedMessage)
      && video.Record() == VideoProcessor.AfterProcessing(old(video.Record()))
      && io.effects == old(io.effects) + [VideoProcessor.Saved(video.Record()),
                                          VideoProcessor.Emitted(VideoProcessor.CompletionEvent, video.id,
                                                                 VideoProcessor.PlaceholderResult)]
  {
    var admission := AnalyzeAdmission(Found(video), user);
    if admission.Respond? {
      reply := Reply(admission.status, admission.message);
    } else {
      VideoProcessor.ProcessVideo(video, io);
      reply := Reply(200, AnalysisStartedMessage);
    }
  }

  // -------------------------------------------------------------------------------------------
  // formatDuration
  // -------------------------------------------------------------------------------------------

  /** Truncation toward zero, as JavaScript's `%` uses it. */
  function Trunc(x: real): (n: int)
    ensures x >= 0.0 ==> n == Floor(x)
  {
    if x >= 0.0 then Floor(x) else -Floor(-x)
  }

  /** JavaScript's `x % m` on numbers: the remainder takes the sign of `x`. */
  function JsRem(x: real, m: real): real
    requires m > 0.0
  {
    x - m * Trunc(x / m) as real
  }

  /**
   * Lines 391-393: hours, minutes and seconds. For a duration that is not negative they are a
   * mixed-radix reading of it: minutes and seconds below 60, and the whole seconds they add up to
   * lie within a second of the duration.
   */
  function DurationParts(seconds: real): (parts: (int, int, int))
    ensures seconds >= 0.0 ==>
      var (h, m, s) := parts;
      && h >= 0 && 0 <= m < 60 && 0 <= s < 60
      && (h * 3600 + m * 60 + s) as real <= seconds < (h * 3600 + m * 60 + s + 1) as real
  {
    var parts := (Floor(seconds / 3600.0), Floor(JsRem(seconds, 3600.0) / 60.0), Floor(JsRem(seconds, 60.0)));
    if seconds < 0.0 then parts
    else
      var h := Floor(seconds / 3600.0);
      var rem := seconds - 3600.0 * h as real;
      assert JsRem(seconds, 3600.0) == rem;
      assert 0.0 <= rem < 3600.0;
      var m := Floor(rem / 60.0);
      assert 0 <= m < 60;
      var q := Floor(seconds / 60.0);
      assert seconds / 60.0 == (60 * h) as real + rem / 60.0;
      assert q == 60 * h + m;
      assert JsRem(seconds, 60.0) == rem - 60.0 * m as real;
      parts
  }

  /** Line 390-402. */
  function FormatDuration(seconds: real): (r: string)
    ensures r != [] && r[|r| - 1] == 's'
  {
    var (h, m, s) := DurationParts(seconds);
    if h > 0 then IntToString(h) + "h " + IntToString(m) + "m " + IntToString(s) + "s"
    else if m > 0 then IntToString(m) + "m " + IntToString(s) + "s"
    else IntToString(s) + "s"
  }

  /** Parts read back: a whole number of seconds written as h, m, s (m, s below 60) gives back h, m, s. */
  lemma DurationPartsOfWhole(h: nat, m: nat, s: nat)
    requires m < 60 && s < 60
    ensures DurationParts((h * 3600 + m * 60 + s) as real) == (h, m, s)
  {
    var n := h * 3600 + m * 60 + s;
    var x := n as real;
    var (h', m', s') := DurationParts(x);
    var n' := h' * 3600 + m' * 60 + s';
    assert n' as real <= x < (n' + 1) as real;
    assert n' == n;
    assert h' == h by { assert 0 <= m' * 60 + s' < 3600 && 0 <= m * 60 + s < 3600; }
    assert m' * 60 + s' == m * 60 + s;
  }

  /** The three shapes of line 395-401, chosen by the leading non-zero part. */
  lemma FormatDurationOfWhole(h: nat, m: nat, s: nat)
    requires m < 60 && s < 60
    ensures
      var text := FormatDuration((h * 3600 + m * 60 + s) as real);
      && (h > 0 ==> text == NatToString(h) + "h " + NatToString(m) + "m " + NatToString(s) + "s")
      && (h == 0 && m > 0 ==> text == NatToString(m) + "m " + NatToString(s) + "s")
      && (h == 0 && m == 0 ==> text == NatToString(s) + "s")
  {
    DurationPartsOfWhole(h, m, s);
  }

  /** The fraction of a second that ffprobe reports is dropped: only the whole seconds are written. */
  lemma FormatDurationIgnoresFraction(seconds: real)
    requires seconds >= 0.0
    ensures FormatDuration(seconds) == FormatDuration(Floor(seconds) as real)
  {
    var (h, m, s) := DurationParts(seconds);
    assert Floor(seconds) == h * 3600 + m * 60 + s;
    DurationPartsOfWhole(h, m, s);
  }

  /**
   * Every duration that is not negative, fractional or not: written as whole hours, minutes below
   * 60 and seconds below 60 adding up to its whole seconds, the text is "Hh Mm Ss", "Mm Ss" or "Ss",
   * chosen by the leading non-zero part.
   */
  lemma FormatDurationShape(seconds: real, h: nat, m: nat, s: nat)
    requires seconds >= 0.0
    requires m < 60 && s < 60 && h * 3600 + m * 60 + s == Floor(seconds)
    ensures
      var text := FormatDuration(seconds);
      && (h > 0 ==> text == NatToString(h) + "h " + NatToString(m) + "m " + NatToString(s) + "s")
      && (h == 0 && m > 0 ==> text == NatToString(m) + "m " + NatToString(s) + "s")
      && (h == 0 && m == 0 ==> text == NatToString(s) + "s")
  {
    var whole := (h * 3600 + m * 60 + s) as real;
    assert whole == Floor(seconds) as real;
    assert FormatDuration(seconds) == FormatDuration(whole) by {
      FormatDurationIgnoresFraction(seconds);
    }
    FormatDurationOfWhole(h, m, s);
  }

  // -------------------------------------------------------------------------------------------
  // formatFileSize (the unit only)
  // -------------------------------------------------------------------------------------------

  function Pow1024(i: nat): (p: nat)
    ensures p >= 1
  {
    if i == 0 then 1 else 1024 * Pow1024(i - 1)
  }

  lemma {:induction false} Pow1024Monotone(i: nat, j: nat)
    requires i <= j
    ensures Pow1024(i) <= Pow1024(j)
  {
    if i < j {
      Pow1024Monotone(i, j - 1);
    }
  }

  /**
   * Line 386: the index of the unit, the exact integer `floor(log(bytes) / log(1024))` for a
   * positive size: the power of 1024 that the size reaches and does not reach the next of.
   */
  function UnitIndex(bytes: nat): (i: nat)
    requires bytes > 0
    ensures Pow1024(i) <= bytes < Pow1024(i + 1)
  {
    if bytes < 1024 then 0
    else
      var i := UnitIndex(bytes / 1024);
      assert 1024 * Pow1024(i) <= 1024 * (bytes / 1024) <= bytes;
      assert bytes < 1024 * (bytes / 1024) + 1024 <= 1024 * Pow1024(i + 1);
      i + 1
  }

  /** Only one index satisfies those bounds. */
  lemma UnitIndexUnique(bytes: nat, i: nat)
    requires bytes > 0 && Pow1024(i) <= bytes < Pow1024(i + 1)
    ensures UnitIndex(bytes) == i
  {
    var j := UnitIndex(bytes);
    if j < i {
      Pow1024Monotone(j + 1, i);
    } else if i < j {
      Pow1024Monotone(i + 1, j);
    }
  }

  const SizeUnits := ["Bytes", "KB", "MB", "GB"]

  /**
   * Lines 382-388, the unit word of the result: "Bytes" for 0 ("0 Bytes"), otherwise
   * `sizes[i]`, which is `undefined` from 1024^4 bytes on.
   */
  function FileSizeUnit(bytes: nat): (u: string)
    ensures u == "undefined" <==> bytes >= Pow1024(4)
    ensures bytes < Pow1024(1) ==> u == "Bytes"
  {
    if bytes == 0 then "Bytes"
    else
      var i := UnitIndex(bytes);
      if i < |SizeUnits| then
        assert Pow1024(i + 1) <= Pow1024(4) by { Pow1024Monotone(i + 1, 4); }
        SizeUnits[i]
      else
        assert Pow1024(4) <= Pow1024(i) by { Pow1024Monotone(4, i); }
        "undefined"
  }

  /** Each unit covers the sizes from its power of 1024 up to the next. */
  lemma FileSizeUnitRange(bytes: nat, i: nat)
    requires i < 4 && Pow1024(i) <= bytes < Pow1024(i + 1)
    ensures FileSizeUnit(bytes) == SizeUnits[i]
  {
    UnitIndexUnique(bytes, i);
  }
}
