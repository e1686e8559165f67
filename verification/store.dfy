/**
 * The document store the functions read and write: the `transcripts` and
 * `videos` collections, keyed by video id, and the append-only `errors`
 * collection. A document is a record of optional fields; `set(data)` replaces
 * a whole document, `set(data, {merge: true})` overwrites only the fields
 * `data` names (nested maps field by field), and `update(data)` does the same
 * as a merge on an existing document and fails on a missing one. Server
 * timestamps are an opaque `Stamp` the caller supplies.
 */
module Store {
  import opened Wrappers
  import opened TranscriptNormalizer

  /** A document field: not written, written as `null`, or holding a value. */
  datatype Field<T> = Absent | Null | Present(value: T)

  /** The value the server fills in for `serverTimestamp()`. */
  type Stamp = nat

  datatype Metadata = Metadata(
    language: Field<string>,
    lastAccessed: Field<Stamp>,
    version: Field<int>,
    startedProcessing: Field<Stamp>,
    errorTimestamp: Field<Stamp>)

  /** A `transcripts/{videoId}` document. */
  datatype TranscriptDoc = TranscriptDoc(
    segments: Field<seq<Segment>>,
    isProcessing: Field<bool>,
    error: Field<string>,
    metadata: Field<Metadata>)

  /** A `videos/{videoId}` document, reduced to the fields the functions read or write. */
  datatype VideoDoc = VideoDoc(
    status: Field<string>,
    videoUrl: Field<string>,
    hasRecipe: Field<bool>,
    description: Field<string>,
    updatedAt: Field<Stamp>)

  /** An `errors` entry written when a recipe could not be made. */
  datatype ErrorRecord = ErrorRecord(
    kind: string,
    videoId: string,
    timestamp: Stamp,
    error: string,
    segmentCount: nat,
    totalText: nat)

  datatype StoreState = StoreState(
    transcripts: map<string, TranscriptDoc>,
    videos: map<string, VideoDoc>,
    errors: seq<ErrorRecord>)

  /** JavaScript truthiness of a stored boolean. */
  predicate IsTrue(f: Field<bool>)
  {
    f == Present(true)
  }

  /** JavaScript truthiness of a stored string. */
  predicate IsSet(f: Field<string>)
  {
    f.Present? && f.value != ""
  }

  // ---------------------------------------------------------------------------
  // Merging writes

  /** A field of a merge: the written value when the patch names the field, the previous one otherwise. */
  function MergeField<T>(prev: Field<T>, patch: Field<T>): Field<T>
  {
    if patch.Absent? then prev else patch
  }

  function MergeMetadata(prev: Metadata, patch: Metadata): Metadata
  {
    Metadata(
      MergeField(prev.language, patch.language),
      MergeField(prev.lastAccessed, patch.lastAccessed),
      MergeField(prev.version, patch.version),
      MergeField(prev.startedProcessing, patch.startedProcessing),
      MergeField(prev.errorTimestamp, patch.errorTimestamp))
  }

  /** A nested map is merged field by field when both sides hold one. */
  function MergeMetadataField(prev: Field<Metadata>, patch: Field<Metadata>): Field<Metadata>
  {
    if prev.Present? && patch.Present? then Present(MergeMetadata(prev.value, patch.value))
    else MergeField(prev, patch)
  }

  /** `set(patch, {merge: true})` on a document that may not exist yet. */
  function MergeTranscript(prev: Option<TranscriptDoc>, patch: TranscriptDoc): TranscriptDoc
  {
    match prev
    case None => patch
    case Some(d) =>
      TranscriptDoc(
        MergeField(d.segments, patch.segments),
        MergeField(d.isProcessing, patch.isProcessing),
        MergeField(d.error, patch.error),
        MergeMetadataField(d.metadata, patch.metadata))
  }

  /** `update(patch)` applied to an existing video document. */
  function UpdateVideoDoc(prev: VideoDoc, patch: VideoDoc): VideoDoc
  {
    VideoDoc(
      MergeField(prev.status, patch.status),
      MergeField(prev.videoUrl, patch.videoUrl),
      MergeField(prev.hasRecipe, patch.hasRecipe),
      MergeField(prev.description, patch.description),
      MergeField(prev.updatedAt, patch.updatedAt))
  }

  function Lookup(m: map<string, TranscriptDoc>, id: string): Option<TranscriptDoc>
  {
    if id in m then Some(m[id]) else None
  }

  const EmptyPatch := TranscriptDoc(Absent, Absent, Absent, Absent)

  /** A patch that names no field leaves an existing document as it was. */
  lemma MergeEmptyPatch(d: TranscriptDoc)
    ensures MergeTranscript(Some(d), EmptyPatch) == d
  {
  }

  /**
   * Two merges in a row are one merge of the second patch over the first:
   * always for the top-level fields, and for the whole document unless the
   * first patch writes `metadata` as `null` (a `null` is then replaced by the
   * second patch's map, where one merge would merge that map into the old one).
   */
  lemma MergeTranscriptCompose(d: Option<TranscriptDoc>, p: TranscriptDoc, q: TranscriptDoc)
    ensures var twice := MergeTranscript(Some(MergeTranscript(d, p)), q);
      var once := MergeTranscript(d, MergeTranscript(Some(p), q));
      && twice.segments == once.segments
      && twice.isProcessing == once.isProcessing
      && twice.error == once.error
      && (p.metadata != Null ==> twice == once)
  {
  }

  /** Merging the same patch twice is merging it once. */
  lemma MergeTranscriptIdempotent(d: Option<TranscriptDoc>, patch: TranscriptDoc)
    ensures MergeTranscript(Some(MergeTranscript(d, patch)), patch) == MergeTranscript(d, patch)
  {
  }

  // ---------------------------------------------------------------------------
  // The store as a mutable object

  /** The three collections; every write is one of the methods below. */
  class Firestore {
    var transcripts: map<string, TranscriptDoc>
    var videos: map<string, VideoDoc>
    var errors: seq<ErrorRecord>

    constructor (state: StoreState)
      ensures State() == state
    {
      transcripts := state.transcripts;
      videos := state.videos;
      errors := state.errors;
    }

    function State(): StoreState
      reads this
    {
      StoreState(transcripts, videos, errors)
    }

    /** `transcripts.doc(id).get()`. */
    method GetTranscript(id: string) returns (r: Option<TranscriptDoc>)
      ensures r == Lookup(transcripts, id)
    {
      r := Lookup(transcripts, id);
    }

    /** `videos.doc(id).get()`. */
    method GetVideo(id: string) returns (r: Option<VideoDoc>)
      ensures r == if id in videos then Some(videos[id]) else None
    {
      r := if id in videos then Some(videos[id]) else None;
    }

    /** `transcripts.doc(id).set(doc)`: the document is replaced. */
    method SetTranscript(id: string, doc: TranscriptDoc)
      modifies this
      ensures transcripts == old(transcripts)[id := doc]
      ensures videos == old(videos) && errors == old(errors)
    {
      transcripts := transcripts[id := doc];
    }

    /** `transcripts.doc(id).set(patch, {merge: true})`. */
    method MergeIntoTranscript(id: string, patch: TranscriptDoc)
      modifies this
      ensures transcripts == old(transcripts)[id := MergeTranscript(Lookup(old(transcripts), id), patch)]
      ensures videos == old(videos) && errors == old(errors)
    {
      transcripts := transcripts[id := MergeTranscript(Lookup(transcripts, id), patch)];
    }

    /** `videos.doc(id).update(patch)`: fails, changing nothing, when the document does not exist. */
    method UpdateVideo(id: string, patch: VideoDoc) returns (ok: bool)
      modifies this
      ensures ok <==> id in old(videos)
      ensures videos == if ok then old(videos)[id := UpdateVideoDoc(old(videos)[id], patch)] else old(videos)
      ensures transcripts == old(transcripts) && errors == old(errors)
    {
      ok := id in videos;
      if ok {
        videos := videos[id := UpdateVideoDoc(videos[id], patch)];
      }
    }

    /** `errors.add(record)`. */
    method AddError(record: ErrorRecord)
      modifies this
      ensures errors == old(errors) + [record]
      ensures transcripts == old(transcripts) && videos == old(videos)
    {
      errors := errors + [record];
    }
  }
}
