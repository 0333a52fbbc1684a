/**
 * The video schema (backend/models/Video.js) as the handlers see a record. Mongoose runs in strict
 * mode, so a record holds only the schema's paths: the upload metadata the controller passes to
 * `Video.create` is dropped, and the paths the controller reads without the schema declaring them
 * (`analysisDone`, `analysisRequested`, `sensitivity.status`) are kept as optional values, None
 * on every record the schema builds.
 */
module VideoModel {
  import opened Wrappers
  import Text

  /** The `status` enum. */
  datatype Status = Uploaded | Processing | Processed {
    /** The stored string of the status. */
    function Name(): string {
      match this
      case Uploaded => "uploaded"
      case Processing => "processing"
      case Processed => "processed"
    }
  }

  /** The schema default for `status`. */
  const DefaultStatus := Uploaded

  /** The enum validator: exactly the three stored strings are accepted. */
  function ParseStatus(s: string): (r: Option<Status>)
    ensures r.Some? ==> r.value.Name() == s
    ensures r.None? ==> s !in {"uploaded", "processing", "processed"}
  {
    if s == "uploaded" then Some(Uploaded)
    else if s == "processing" then Some(Processing)
    else if s == "processed" then Some(Processed)
    else None
  }

  lemma ParseStatusOfName(st: Status)
    ensures ParseStatus(st.Name()) == Some(st)
  {
  }

  /** The sensitivity flags; `status` is the undeclared `sensitivity.status` the list handler reads. */
  datatype Sensitivity = Sensitivity(nudity: bool, violence: bool, confidence: real, status: Option<string>)

  /** Lines 15-19: both flags false and confidence 0. */
  const DefaultSensitivity := Sensitivity(false, false, 0.0, None)

  /**
   * A stored video. `id` is `_id.toString()`; `tenantId` is the string form of the ObjectId, or
   * `null`, or missing when the document has no such field.
   */
  datatype VideoRecord = VideoRecord(
    id: string,
    originalName: Option<string>,
    storedName: Option<string>,
    tenantId: Text.JsId,
    status: Status,
    sensitivity: Sensitivity,
    analysisDone: Option<bool>,
    analysisRequested: Option<bool>)

  /** Mongoose's message for a value outside an enum. */
  function EnumMessage(value: string, path: string): string {
    "`" + value + "` is not a valid enum value for path `" + path + "`."
  }

  /**
   * `Video.create` with the schema's paths: a `status` outside the enum fails validation; a
   * missing one takes the default; the sensitivity flags take their defaults.
   */
  function CreateVideo(id: string, originalName: Option<string>, storedName: Option<string>,
                       tenantId: Text.JsId, status: Option<string>): (r: Result<VideoRecord>)
    ensures r.Ok? <==> status.None? || ParseStatus(status.value).Some?
    ensures r.Err? ==> r.message == EnumMessage(status.value, "status")
    ensures r.Ok? ==>
      && r.value.id == id && r.value.originalName == originalName
      && r.value.storedName == storedName && r.value.tenantId == tenantId
      && r.value.status == (if status.None? then DefaultStatus else ParseStatus(status.value).value)
      && r.value.sensitivity == DefaultSensitivity
      && r.value.analysisDone.None? && r.value.analysisRequested.None?
  {
    var st := if status.None? then Some(DefaultStatus) else ParseStatus(status.value);
    match st
    case None => Err(EnumMessage(status.value, "status"))
    case Some(s) => Ok(VideoRecord(id, originalName, storedName, tenantId, s, DefaultSensitivity, None, None))
  }

  /** A record created without a status starts out "uploaded", unflagged, with confidence 0. */
  lemma NewVideoDefaults(id: string, originalName: Option<string>, storedName: Option<string>, tenantId: Text.JsId)
    ensures
      var r := CreateVideo(id, originalName, storedName, tenantId, None);
      && r.Ok? && r.value.status == Uploaded
      && !r.value.sensitivity.nudity && !r.value.sensitivity.violence && r.value.sensitivity.confidence == 0.0
  {
  }

  /** Creating with a status's own name stores that status. */
  lemma CreateWithStatusName(id: string, originalName: Option<string>, storedName: Option<string>,
                             tenantId: Text.JsId, st: Status)
    ensures
      var r := CreateVideo(id, originalName, storedName, tenantId, Some(st.Name()));
      r.Ok? && r.value.status == st
  {
    ParseStatusOfName(st);
  }
}
