/**
 * The placeholder analysis (backend/services/videoProcessor.js). A loaded video is a mongoose
 * document whose paths the service assigns in place; saving it and emitting on the socket server
 * are recorded, in order, as effects on a trace. The two-second timer is not modelled: the
 * update runs when it is called.
 */
module VideoProcessor {
  import opened Wrappers
  import opened VideoModel
  import Text

  /** Lines 6-11: the object the service builds as its verdict. */
  datatype AnalysisResult = AnalysisResult(nudity: bool, violence: bool, confidence: real, note: string)

  const PlaceholderNote := "Rule-based placeholder (AI model not integrated yet)"
  const PlaceholderResult := AnalysisResult(false, false, 0.0, PlaceholderNote)
  const CompletionEvent := "analysis-complete"

  /**
   * Line 13 as the schema stores it: the flags and the confidence are kept, `note` is not a path
   * of the schema, and the undeclared `sensitivity.status` is gone with the old object.
   */
  function AsSensitivity(a: AnalysisResult): (s: Sensitivity)
    ensures s.nudity == a.nudity && s.violence == a.violence && s.confidence == a.confidence
    ensures s.status.None?
  {
    Sensitivity(a.nudity, a.violence, a.confidence, None)
  }

  /** The record a run leaves behind, as a function of the record it started from. */
  function AfterProcessing(r: VideoRecord): (p: VideoRecord)
    ensures p.status == Processed
    ensures p.sensitivity == DefaultSensitivity
    ensures p.(status := r.status, sensitivity := r.sensitivity) == r
  {
    r.(status := Processed, sensitivity := AsSensitivity(PlaceholderResult))
  }

  /** A second run changes nothing more. */
  lemma AfterProcessingIdempotent(r: VideoRecord)
    ensures AfterProcessing(AfterProcessing(r)) == AfterProcessing(r)
  {
  }

  /** The verdict does not depend on the video: two records that agree off the verdict agree after it. */
  lemma VerdictIgnoresInput(a: VideoRecord, b: VideoRecord)
    requires a.(status := b.status, sensitivity := b.sensitivity) == b
    ensures AfterProcessing(a) == AfterProcessing(b)
  {
  }

  /** What the outside world sees: a document written to the store, or an event sent to every socket. */
  datatype Effect = Saved(record: VideoRecord) | Emitted(event: string, videoId: string, result: AnalysisResult)

  /** The effects so far, oldest first. */
  class Trace {
    var effects: seq<Effect>

    constructor ()
      ensures effects == []
    {
      effects := [];
    }

    /** `io.emit(event, payload)`. */
    method Emit(event: string, videoId: string, result: AnalysisResult)
      modifies this
      ensures effects == old(effects) + [Emitted(event, videoId, result)]
    {
      effects := effects + [Emitted(event, videoId, result)];
    }
  }

  /**
   * A loaded video document. Its fields are the record's paths; `thumbnail` is a property the
   * upload handler sets that is not a schema path, so saving does not store it.
   */
  class VideoDocument {
    const id: string
    var originalName: Option<string>
    var storedName: Option<string>
    var tenantId: Text.JsId
    var status: Status
    var sensitivity: Sensitivity
    var analysisDone: Option<bool>
    var analysisRequested: Option<bool>
    var thumbnail: Option<string>

    /** The document `Video.findById` hands back for a stored record. */
    constructor (r: VideoRecord)
      ensures Record() == r && thumbnail.None?
    {
      id := r.id;
      originalName := r.originalName;
      storedName := r.storedName;
      tenantId := r.tenantId;
      status := r.status;
      sensitivity := r.sensitivity;
      analysisDone := r.analysisDone;
      analysisRequested := r.analysisRequested;
      thumbnail := None;
    }

    /** The schema paths of the document, as `save` writes them. */
    function Record(): (r: VideoRecord)
      reads this
      ensures r.id == id && r.status == status && r.sensitivity == sensitivity && r.tenantId == tenantId
    {
      VideoRecord(id, originalName, storedName, tenantId, status, sensitivity, analysisDone, analysisRequested)
    }

    /** `await video.save()`: the schema paths are written. */
    method Save(io: Trace)
      modifies io
      ensures io.effects == old(io.effects) + [Saved(Record())]
    {
      io.effects := io.effects + [Saved(Record())];
    }
  }

  /**
   * `processVideo`: assigns the placeholder verdict and "processed", saves, then emits one
   * "analysis-complete" event with the video id and the same verdict. No other path changes.
   */
  method ProcessVideo(video: VideoDocument, io: Trace)
    modifies video, io
    ensures video.Record() == AfterProcessing(old(video.Record()))
    ensures video.thumbnail == old(video.thumbnail)
    ensures io.effects == old(io.effects) + [Saved(video.Record()), Emitted(CompletionEvent, video.id, PlaceholderResult)]
  {
    video.sensitivity := AsSensitivity(PlaceholderResult);
    video.status := Processed;
    video.Save(io);
    io.Emit(CompletionEvent, video.id, PlaceholderResult);
  }

  /**
   * The stored verdict and the emitted one agree: the saved record carries, as flags and
   * confidence, exactly what the event announces.
   */
  lemma SavedMatchesEmitted(r: VideoRecord)
    ensures AfterProcessing(r).sensitivity == AsSensitivity(PlaceholderResult)
  {
  }
}
