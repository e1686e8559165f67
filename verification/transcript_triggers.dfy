/**
 * The transcription entry points of functions/src/index.ts: the store trigger
 * `generateTranscriptOnStatusChange`, which fires when a video document
 * changes, and the callable `generateTranscript`. Both write the
 * `transcripts/{videoId}` record: a "processing" marker first, then either the
 * validated transcript or the error. Signing a `gs://` URL, downloading and
 * transcribing are collaborators passed in as functions; `now` is the server
 * timestamp of the invocation.
 */
module TranscriptTriggers {
  import opened Wrappers
  import opened Strings
  import opened TranscriptNormalizer
  import opened Store

  // ---------------------------------------------------------------------------
  // Guards

  /** The before and after snapshots of a `videos/{videoId}` update. */
  datatype VideoChange = VideoChange(videoId: string, before: Option<VideoDoc>, after: Option<VideoDoc>)

  /** The status moved from "uploading" to "active". */
  predicate IsActivation(e: VideoChange)
  {
    && e.before.Some? && e.before.value.status == Present("uploading")
    && e.after.Some? && e.after.value.status == Present("active")
  }

  /** The storage locations the trigger accepts a video from. */
  predicate AcceptedUrl(url: string)
  {
    || IsPrefix("https://firebasestorage.googleapis.com/", url)
    || IsPrefix("https://storage.googleapis.com/", url)
    || IsPrefix("gs://", url)
  }

  datatype SkipReason = NotActivation | NoVideoUrl | BadVideoUrl | AlreadyProcessing

  // ---------------------------------------------------------------------------
  // The gs:// split

  lemma GsUrlParts(rest: string)
    ensures Split("gs://" + rest, "/") == ["gs:", ""] + Split(rest, "/")
  {
    assert "gs://" + rest == "gs:" + ['/'] + ['/'] + rest;
    DoubledSeparator("gs:", rest, '/');
  }

  /** A separator-free head followed by two separators splits into the head, an empty piece, and the rest's pieces. */
  lemma DoubledSeparator(a: string, rest: string, c: char)
    requires c !in a
    ensures Split(a + [c] + [c] + rest, [c]) == [a, ""] + Split(rest, [c])
  {
    assert a + [c] + [c] + rest == a + [c] + ([] + [c] + rest);
    SplitAtSeparator(a, [] + [c] + rest, c);
    SplitAtSeparator([], rest, c);
    SplitWithout(a, c);
    SplitWithout([], c);
  }

  /** `url.split('/')[2]` and `url.split('/').slice(3).join('/')`. */
  function SplitGsUrl(url: string): (r: (string, string))
    requires IsPrefix("gs://", url)
  {
    assert url == "gs://" + url[5..];
    GsUrlParts(url[5..]);
    var parts := Split(url, "/");
    (parts[2], Join(parts[3..], "/"))
  }

  /**
   * For `gs://B/P` with a slash-free bucket `B`, the bucket is `B` and the
   * object path is all of `P`, slashes included; `gs://B` alone has an empty path.
   */
  lemma SplitGsUrlOf(bucket: string, path: string)
    requires '/' !in bucket
    ensures SplitGsUrl("gs://" + bucket + "/" + path) == (bucket, path)
    ensures SplitGsUrl("gs://" + bucket) == (bucket, "")
  {
    var rest := bucket + "/" + path;
    assert "gs://" + bucket + "/" + path == "gs://" + rest;
    GsUrlParts(rest);
    assert rest == bucket + ['/'] + path;
    SplitAtSeparator(bucket, path, '/');
    SplitWithout(bucket, '/');
    var parts := Split("gs://" + rest, "/");
    assert parts == ["gs:", "", bucket] + Split(path, "/");
    assert parts[3..] == Split(path, "/");
    JoinSplit(path, "/");
    GsUrlParts(bucket);
    assert Split("gs://" + bucket, "/")[3..] == [];
  }

  /**
   * The URL the audio is fetched from: a `gs://` location is signed through
   * `sign(bucket, path)`, any other URL is used as it is.
   */
  function DownloadUrl(url: string, sign: (string, string) -> Result<string, string>): (r: Result<string, string>)
    ensures !IsPrefix("gs://", url) ==> r == Success(url)
  {
    if IsPrefix("gs://", url) then
      var (bucket, path) := SplitGsUrl(url);
      sign(bucket, path)
    else Success(url)
  }

  // ---------------------------------------------------------------------------
  // The records written

  /** The first merge: processing, with fresh metadata; other fields untouched. */
  function ProcessingPatch(now: Stamp): TranscriptDoc
  {
    TranscriptDoc(Absent, Present(true), Absent,
      Present(Metadata(Absent, Present(now), Present(1), Present(now), Absent)))
  }

  /** The stored form of a segment: the same timings, text and words, no keywords. */
  function StoredSegment(s: Segment): Segment
  {
    Segment(s.text, s.start, s.end, s.words, [])
  }

  function StoredSegments(segs: seq<Segment>): (r: seq<Segment>)
    ensures |r| == |segs|
    ensures forall i :: 0 <= i < |segs| ==> r[i].text == segs[i].text
  {
    seq(|segs|, i requires 0 <= i < |segs| => StoredSegment(segs[i]))
  }

  /** The document saved on success, replacing the record. */
  function FinalDoc(result: TranscriptResult, now: Stamp): TranscriptDoc
  {
    TranscriptDoc(Present(StoredSegments(result.segments)), Present(false), Null,
      Present(Metadata(Present("en"), Present(now), Present(1), Null, Null)))
  }

  /** The merge written when anything after the processing marker failed. */
  function ErrorPatch(message: string, now: Stamp): TranscriptDoc
  {
    TranscriptDoc(Absent, Present(false), Present(message),
      Present(Metadata(Absent, Present(now), Absent, Absent, Present(now))))
  }

  // ---------------------------------------------------------------------------
  // Validation before the final save

  /** The index of the first segment with empty text, if any. */
  function FirstEmptyText(segs: seq<Segment>): (r: Option<nat>)
    ensures r.Some? ==> r.value < |segs| && segs[r.value].text == ""
    ensures r.Some? ==> forall j :: 0 <= j < r.value ==> segs[j].text != ""
    ensures r.None? ==> forall j :: 0 <= j < |segs| ==> segs[j].text != ""
    decreases |segs|
  {
    if segs == [] then None
    else if segs[0].text == "" then Some(0)
    else
      match FirstEmptyText(segs[1..])
      case None => None
      case Some(k) => Some(k + 1)
  }

  function InvalidSegmentMessage(index: nat): string
  {
    "Invalid segment at index " + NatToString(index)
  }

  /**
   * The validation loop: the first segment whose text is empty is reported.
   * (Start and end are always numbers here, so only the text can fail.)
   */
  method ValidateSegments(segs: seq<Segment>) returns (r: Option<nat>)
    ensures r == FirstEmptyText(segs)
    ensures r.Some? ==> r.value < |segs| && segs[r.value].text == ""
  {
    var i := 0;
    while i < |segs|
      invariant 0 <= i <= |segs|
      invariant forall j :: 0 <= j < i ==> segs[j].text != ""
    {
      if segs[i].text == "" {
        return Some(i);
      }
      i := i + 1;
    }
    return None;
  }

  // ---------------------------------------------------------------------------
  // One transcription attempt

  /**
   * Everything between the processing marker and the final save that can
   * throw: the collaborators' failures, a response without text, and a
   * segment without text.
   */
  function Attempt(raw: Result<RawResponse, string>): (r: Result<TranscriptResult, string>)
    ensures r.Success? ==> raw.Success? && Normalize(raw.value) == r
    ensures r.Success? ==> forall j :: 0 <= j < |r.value.segments| ==> r.value.segments[j].text != ""
  {
    match raw
    case Failure(e) => Failure(e)
    case Success(response) =>
      match Normalize(response)
      case Failure(e) => Failure(e)
      case Success(result) =>
        match FirstEmptyText(StoredSegments(result.segments))
        case Some(i) => Failure(InvalidSegmentMessage(i))
        case None => Success(result)
  }

  /** The attempt of the store trigger: sign a `gs://` URL, then transcribe. */
  function TriggerAttempt(videoId: string, url: string, sign: (string, string) -> Result<string, string>,
                          transcribe: (string, string) -> Result<RawResponse, string>): Result<TranscriptResult, string>
  {
    match DownloadUrl(url, sign)
    case Failure(e) => Failure(e)
    case Success(downloadUrl) => Attempt(transcribe(videoId, downloadUrl))
  }

  // ---------------------------------------------------------------------------
  // generateTranscriptOnStatusChange

  datatype TriggerOutcome = Skipped(reason: SkipReason) | Saved(result: TranscriptResult) | Failed(message: string)

  datatype Step = Step(transcripts: map<string, TranscriptDoc>, outcome: TriggerOutcome)

  /** The URL of the video after the change, or "" when it has none. */
  function AfterUrl(e: VideoChange): string
  {
    if e.after.Some? && e.after.value.videoUrl.Present? then e.after.value.videoUrl.value else ""
  }

  /** The transcripts collection after the store trigger has run, and how it ended. */
  function StatusChangeEffect(ts: map<string, TranscriptDoc>, e: VideoChange, now: Stamp,
                              sign: (string, string) -> Result<string, string>,
                              transcribe: (string, string) -> Result<RawResponse, string>): Step
  {
    var id := e.videoId;
    var url := AfterUrl(e);
    if !IsActivation(e) then Step(ts, Skipped(NotActivation))
    else if url == "" then Step(ts, Skipped(NoVideoUrl))
    else if !AcceptedUrl(url) then Step(ts, Skipped(BadVideoUrl))
    else if id in ts && IsTrue(ts[id].isProcessing) then Step(ts, Skipped(AlreadyProcessing))
    else
      var marked := ts[id := MergeTranscript(Lookup(ts, id), ProcessingPatch(now))];
      match TriggerAttempt(id, url, sign, transcribe)
      case Success(result) => Step(marked[id := FinalDoc(result, now)], Saved(result))
      case Failure(message) =>
        Step(marked[id := MergeTranscript(Some(marked[id]), ErrorPatch(message, now))], Failed(message))
  }

  /** `generateTranscriptOnStatusChange`, one sequential invocation against the store. */
  method OnVideoStatusChange(db: Firestore, e: VideoChange, now: Stamp,
                             sign: (string, string) -> Result<string, string>,
                             transcribe: (string, string) -> Result<RawResponse, string>)
    returns (outcome: TriggerOutcome)
    modifies db
    ensures Step(db.transcripts, outcome) == StatusChangeEffect(old(db.transcripts), e, now, sign, transcribe)
    ensures db.videos == old(db.videos) && db.errors == old(db.errors)
  {
    var id := e.videoId;
    if !IsActivation(e) {
      return Skipped(NotActivation);
    }
    var url := AfterUrl(e);
    if url == "" {
      return Skipped(NoVideoUrl);
    }
    if !AcceptedUrl(url) {
      return Skipped(BadVideoUrl);
    }
    var existing := db.GetTranscript(id);
    if existing.Some? && IsTrue(existing.value.isProcessing) {
      return Skipped(AlreadyProcessing);
    }
    db.MergeIntoTranscript(id, ProcessingPatch(now));
    var downloadUrl := url;
    var failure: Option<string> := None;
    if IsPrefix("gs://", downloadUrl) {
      var (bucket, path) := SplitGsUrl(downloadUrl);
      match sign(bucket, path) {
        case Success(signed) => downloadUrl := signed;
        case Failure(message) => failure := Some(message);
      }
    }
    var result: TranscriptResult;
    if failure.None? {
      match transcribe(id, downloadUrl) {
        case Failure(message) => failure := Some(message);
        case Success(response) =>
          match Normalize(response) {
            case Failure(message) => failure := Some(message);
            case Success(r) =>
              result := r;
              var bad := ValidateSegments(StoredSegments(r.segments));
              if bad.Some? {
                failure := Some(InvalidSegmentMessage(bad.value));
              }
          }
      }
    }
    if failure.None? {
      db.SetTranscript(id, FinalDoc(result, now));
      outcome := Saved(result);
    } else {
      db.MergeIntoTranscript(id, ErrorPatch(failure.value, now));
      outcome := Failed(failure.value);
    }
  }

  // ---------------------------------------------------------------------------
  // generateTranscript (callable)

  /** The callable's `request.data`: not an object at all, or an object with two optional string fields. */
  datatype CallData = NotAnObject | CallObject(videoId: Field<string>, videoUrl: Field<string>)

  datatype HttpsError = HttpsError(code: string, message: string, details: Option<string>)

  datatype Reply = Reply(transcripts: map<string, TranscriptDoc>, result: Result<TranscriptResult, HttpsError>)

  /** The transcripts collection after the callable has run, and what it returns or throws. */
  function ManualEffect(ts: map<string, TranscriptDoc>, data: CallData, now: Stamp,
                        transcribe: (string, string) -> Result<RawResponse, string>): Reply
  {
    if data.NotAnObject? then
      Reply(ts, Failure(HttpsError("invalid-argument", "Request data must be an object", None)))
    else if !IsSet(data.videoId) || !IsSet(data.videoUrl) then
      Reply(ts, Failure(HttpsError("invalid-argument", "Video ID and URL are required", None)))
    else
      var id := data.videoId.value;
      var marked := ts[id := ProcessingPatch(now)];
      match Attempt(transcribe(id, data.videoUrl.value))
      case Success(result) => Reply(marked[id := FinalDoc(result, now)], Success(result))
      case Failure(message) =>
        Reply(marked[id := MergeTranscript(Some(marked[id]), ErrorPatch(message, now))],
              Failure(HttpsError("internal", "Failed to generate transcript", Some(id))))
  }

  /** `generateTranscript`, one sequential invocation against the store. */
  method GenerateTranscript(db: Firestore, data: CallData, now: Stamp,
                            transcribe: (string, string) -> Result<RawResponse, string>)
    returns (r: Result<TranscriptResult, HttpsError>)
    modifies db
    ensures Reply(db.transcripts, r) == ManualEffect(old(db.transcripts), data, now, transcribe)
    ensures db.videos == old(db.videos) && db.errors == old(db.errors)
  {
    if data.NotAnObject? {
      return Failure(HttpsError("invalid-argument", "Request data must be an object", None));
    }
    if !IsSet(data.videoId) || !IsSet(data.videoUrl) {
      return Failure(HttpsError("invalid-argument", "Video ID and URL are required", None));
    }
    var id := data.videoId.value;
    db.SetTranscript(id, ProcessingPatch(now));
    var failure: Option<string> := None;
    var result: TranscriptResult;
    match transcribe(id, data.videoUrl.value) {
      case Failure(message) => failure := Some(message);
      case Success(response) =>
        match Normalize(response) {
          case Failure(message) => failure := Some(message);
          case Success(res) =>
            result := res;
            var bad := ValidateSegments(StoredSegments(res.segments));
            if bad.Some? {
              failure := Some(InvalidSegmentMessage(bad.value));
            }
        }
    }
    if failure.None? {
      db.SetTranscript(id, FinalDoc(result, now));
      r := Success(result);
    } else {
      db.MergeIntoTranscript(id, ErrorPatch(failure.value, now));
      r := Failure(HttpsError("internal", "Failed to generate transcript", Some(id)));
    }
  }

  // ---------------------------------------------------------------------------
  // Properties

  /** Signing receives exactly the bucket and the object path of a `gs://B/P` URL. */
  lemma GsUrlIsSigned(bucket: string, path: string, sign: (string, string) -> Result<string, string>)
    requires '/' !in bucket
    ensures DownloadUrl("gs://" + bucket + "/" + path, sign) == sign(bucket, path)
  {
    var url := "gs://" + bucket + "/" + path;
    assert url[..5] == "gs://";
    SplitGsUrlOf(bucket, path);
  }

  /** The trigger skips exactly when one of its four guards fails. */
  lemma StatusChangeSkips(ts: map<string, TranscriptDoc>, e: VideoChange, now: Stamp,
                          sign: (string, string) -> Result<string, string>,
                          transcribe: (string, string) -> Result<RawResponse, string>)
    ensures var r := StatusChangeEffect(ts, e, now, sign, transcribe);
      && (r.outcome.Skipped? <==>
            !IsActivation(e) || AfterUrl(e) == "" || !AcceptedUrl(AfterUrl(e))
            || (e.videoId in ts && IsTrue(ts[e.videoId].isProcessing)))
      && (r.outcome.Skipped? ==> r.transcripts == ts)
      && ((IsActivation(e) && AcceptedUrl(AfterUrl(e)) && e.videoId in ts && IsTrue(ts[e.videoId].isProcessing))
            ==> r.outcome == Skipped(AlreadyProcessing))
  {
    assert !IsPrefix("https://firebasestorage.googleapis.com/", "");
    assert !IsPrefix("https://storage.googleapis.com/", "");
    assert !IsPrefix("gs://", "");
  }

  /**
   * A second invocation that reads the record after a first one has written
   * its processing marker skips without transcribing, whatever the first
   * one's record held before.
   */
  lemma SecondTriggerSeesMarker(ts: map<string, TranscriptDoc>, e: VideoChange, now: Stamp, now2: Stamp,
                                sign: (string, string) -> Result<string, string>,
                                transcribe: (string, string) -> Result<RawResponse, string>)
    requires IsActivation(e) && AcceptedUrl(AfterUrl(e))
    ensures var marked := ts[e.videoId := MergeTranscript(Lookup(ts, e.videoId), ProcessingPatch(now))];
      StatusChangeEffect(marked, e, now2, sign, transcribe) == Step(marked, Skipped(AlreadyProcessing))
  {
    assert AfterUrl(e) != "" by {
      assert !IsPrefix("https://firebasestorage.googleapis.com/", "");
      assert !IsPrefix("https://storage.googleapis.com/", "");
      assert !IsPrefix("gs://", "");
    }
  }

  /** Only the record of the changed video is written; every other record is left as it was. */
  lemma StatusChangeTouchesOneRecord(ts: map<string, TranscriptDoc>, e: VideoChange, now: Stamp,
                                     sign: (string, string) -> Result<string, string>,
                                     transcribe: (string, string) -> Result<RawResponse, string>)
    ensures var r := StatusChangeEffect(ts, e, now, sign, transcribe);
      && r.transcripts.Keys <= ts.Keys + {e.videoId}
      && forall k :: k in ts && k != e.videoId ==> k in r.transcripts && r.transcripts[k] == ts[k]
  {
  }

  /**
   * A run that gets past the guards always ends with the record not
   * processing: on success it holds the stored segments and a `null` error;
   * on failure it holds the message, the error time and whatever segments
   * were there before.
   */
  lemma StatusChangeEndsSettled(ts: map<string, TranscriptDoc>, e: VideoChange, now: Stamp,
                                sign: (string, string) -> Result<string, string>,
                                transcribe: (string, string) -> Result<RawResponse, string>)
    ensures var r := StatusChangeEffect(ts, e, now, sign, transcribe);
      var id := e.videoId;
      && (!r.outcome.Skipped? ==> id in r.transcripts && r.transcripts[id].isProcessing == Present(false))
      && (r.outcome.Saved? ==>
            && r.transcripts[id] == FinalDoc(r.outcome.result, now)
            && r.transcripts[id].error == Null
            && r.transcripts[id].segments == Present(StoredSegments(r.outcome.result.segments)))
      && (r.outcome.Failed? ==>
            && r.transcripts[id].error == Present(r.outcome.message)
            && r.transcripts[id].segments == (if id in ts then ts[id].segments else Absent)
            && r.transcripts[id].metadata.Present?
            && r.transcripts[id].metadata.value.errorTimestamp == Present(now))
  {
  }

  /** A saved transcript never holds a segment without text. */
  lemma SavedSegmentsHaveText(ts: map<string, TranscriptDoc>, e: VideoChange, now: Stamp,
                              sign: (string, string) -> Result<string, string>,
                              transcribe: (string, string) -> Result<RawResponse, string>)
    ensures var r := StatusChangeEffect(ts, e, now, sign, transcribe);
      r.outcome.Saved? ==>
        var stored := r.transcripts[e.videoId].segments.value;
        forall j :: 0 <= j < |stored| ==> stored[j].text != ""
  {
    var r := StatusChangeEffect(ts, e, now, sign, transcribe);
    if r.outcome.Saved? {
      var result := r.outcome.result;
      assert TriggerAttempt(e.videoId, AfterUrl(e), sign, transcribe) == Success(result);
      var stored := StoredSegments(result.segments);
      assert forall j :: 0 <= j < |stored| ==> stored[j].text == result.segments[j].text;
    }
  }

  /** The processing marker leaves an earlier error message in place until the run settles. */
  lemma ProcessingMergeKeepsError(d: TranscriptDoc, now: Stamp)
    ensures var m := MergeTranscript(Some(d), ProcessingPatch(now));
      && m.error == d.error
      && m.segments == d.segments
      && IsTrue(m.isProcessing)
  {
  }

  /** A response with text but no segments always passes validation. */
  lemma SynthesizedSegmentsPassValidation(response: RawResponse)
    requires response.text != "" && response.segments == []
    ensures Attempt(Success(response)).Success?
  {
    var segs := SynthesizedSegments(response.text);
    assert Normalize(response) == Success(TranscriptResult(segs, response.text));
    SynthesizedSegmentsHaveText(response.text);
  }

  lemma SynthesizedSegmentsHaveText(text: string)
    ensures FirstEmptyText(StoredSegments(SynthesizedSegments(text))) == None
  {
    var segs := SynthesizedSegments(text);
    forall j | 0 <= j < |segs|
      ensures segs[j].text != ""
    {
      SynthesizedTextsEndWithPeriod(text);
      assert segs[j] in segs;
    }
    NoEmptyTextStored(segs);
  }

  lemma NoEmptyTextStored(segs: seq<Segment>)
    requires forall j :: 0 <= j < |segs| ==> segs[j].text != ""
    ensures FirstEmptyText(StoredSegments(segs)) == None
  {
    var stored := StoredSegments(segs);
    assert forall j :: 0 <= j < |stored| ==> stored[j].text != "";
  }

  /** A provider segment with empty text fails the run, naming the first such index. */
  lemma EmptyProviderSegmentFails(response: RawResponse, i: nat)
    requires response.text != "" && i < |response.segments| && response.segments[i].text == ""
    requires forall j :: 0 <= j < i ==> response.segments[j].text != ""
    ensures Attempt(Success(response)) == Failure(InvalidSegmentMessage(i))
  {
    ProviderSegmentsConverted(response);
    var stored := StoredSegments(Normalize(response).value.segments);
    var k := FirstEmptyText(stored);
    assert stored[i].text == "";
  }

  /** Malformed calls leave the store alone and are rejected as invalid arguments. */
  lemma ManualRejectsBadData(ts: map<string, TranscriptDoc>, data: CallData, now: Stamp,
                             transcribe: (string, string) -> Result<RawResponse, string>)
    ensures var r := ManualEffect(ts, data, now, transcribe);
      && (r.result.Failure? && r.result.error.code == "invalid-argument" <==>
            data.NotAnObject? || !IsSet(data.videoId) || !IsSet(data.videoUrl))
      && (r.result.Failure? && r.result.error.code == "invalid-argument" ==> r.transcripts == ts)
  {
  }

  /**
   * The callable replaces the record outright and does not look at whether a
   * run is in progress: what it returns and the record it leaves do not depend
   * on the previous record.
   */
  lemma ManualIgnoresPreviousRecord(ts1: map<string, TranscriptDoc>, ts2: map<string, TranscriptDoc>,
                                    id: string, url: string, now: Stamp,
                                    transcribe: (string, string) -> Result<RawResponse, string>)
    requires id != "" && url != ""
    ensures var data := CallObject(Present(id), Present(url));
      var r1 := ManualEffect(ts1, data, now, transcribe);
      var r2 := ManualEffect(ts2, data, now, transcribe);
      && r1.result == r2.result
      && r1.transcripts[id] == r2.transcripts[id]
  {
  }

  /** A failed call reports `internal` with the video id, and the record keeps no segments from before. */
  lemma ManualFailureRecord(ts: map<string, TranscriptDoc>, id: string, url: string, now: Stamp,
                            transcribe: (string, string) -> Result<RawResponse, string>)
    requires id != "" && url != ""
    ensures var r := ManualEffect(ts, CallObject(Present(id), Present(url)), now, transcribe);
      && (r.result.Failure? <==> Attempt(transcribe(id, url)).Failure?)
      && (r.result.Failure? ==>
            && r.result.error == HttpsError("internal", "Failed to generate transcript", Some(id))
            && r.transcripts[id].segments == Absent
            && r.transcripts[id].isProcessing == Present(false)
            && r.transcripts[id].error == Present(Attempt(transcribe(id, url)).error))
      && (r.result.Success? ==> r.transcripts[id] == FinalDoc(r.result.value, now))
  {
  }
}
