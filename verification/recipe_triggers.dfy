/**
 * Recipe generation in functions/src/recipe-generation.ts: turning a stored
 * transcript into a recipe (`generateRecipeFromTranscriptInternal`), the store
 * trigger `onTranscriptComplete` that runs it when a transcript settles, and
 * the callable `generateRecipeFromTranscript`. The language model is the
 * collaborator `complete`: given the joined transcript it yields the reply
 * text ("" when the reply has no content) or fails with a message.
 */
module RecipeTriggers {
  import opened Wrappers
  import opened Strings
  import opened TranscriptNormalizer
  import opened Store
  import opened RecipeText
  import TranscriptTriggers

  const TranscriptNotFound := "Transcript not found"
  const TranscriptNotReady := "Transcript not ready or has error"
  const NoRecipeText := "Failed to generate recipe"
  const VideoIdRequired := "Video ID is required"
  const RecipeFailureKind := "recipe_generation_failure"

  /** The engine's messages for reading `length` off a missing or `null` segment list. */
  const SegmentsUndefined := "Cannot read properties of undefined (reading 'length')"
  const SegmentsNull := "Cannot read properties of null (reading 'length')"

  /** The text of every segment, in order. */
  function Texts(segs: seq<Segment>): (r: seq<string>)
    ensures |r| == |segs| && forall i :: 0 <= i < |segs| ==> r[i] == segs[i].text
  {
    seq(|segs|, i requires 0 <= i < |segs| => segs[i].text)
  }

  /** What the model is sent: the segment texts joined by single spaces. */
  function Prompt(segs: seq<Segment>): string
  {
    Join(Texts(segs), " ")
  }

  /**
   * The prompt keeps every segment text, in order and apart: when no text
   * holds a space, splitting the prompt at spaces gives the texts back.
   */
  lemma PromptSplitsBack(segs: seq<Segment>)
    requires segs != []
    requires forall i :: 0 <= i < |segs| ==> ' ' !in segs[i].text
    ensures Split(Prompt(segs), " ") == Texts(segs)
  {
    SplitJoin(Texts(segs), ' ');
  }

  /** The `totalText` of an error record: the summed lengths of the segment texts. */
  function TotalText(segs: seq<Segment>): nat
    decreases |segs|
  {
    if segs == [] then 0 else |segs[0].text| + TotalText(segs[1..])
  }

  /** The prompt is the segment texts plus one space between each neighbouring pair. */
  lemma {:induction false} PromptLength(segs: seq<Segment>)
    requires segs != []
    ensures |Prompt(segs)| == TotalText(segs) + |segs| - 1
    decreases |segs|
  {
    if |segs| > 1 {
      PromptLength(segs[1..]);
      assert Texts(segs)[1..] == Texts(segs[1..]);
    }
  }

  // ---------------------------------------------------------------------------
  // generateRecipeFromTranscriptInternal

  /** The recipe made from the stored transcript `id`, or the message of what went wrong. */
  function RecipeFromTranscript(ts: map<string, TranscriptDoc>, id: string,
                                complete: string -> Result<string, string>): (r: Result<Recipe, string>)
    ensures id !in ts ==> r == Failure(TranscriptNotFound)
    ensures id in ts && (IsTrue(ts[id].isProcessing) || IsSet(ts[id].error)) ==> r == Failure(TranscriptNotReady)
    ensures r.Success? <==>
      && id in ts && !IsTrue(ts[id].isProcessing) && !IsSet(ts[id].error) && ts[id].segments.Present?
      && complete(Prompt(ts[id].segments.value)).Success?
      && complete(Prompt(ts[id].segments.value)).value != ""
    ensures r.Success? ==> r.value == ParseRecipeText(complete(Prompt(ts[id].segments.value)).value)
  {
    if id !in ts then Failure(TranscriptNotFound)
    else
      var t := ts[id];
      if IsTrue(t.isProcessing) || IsSet(t.error) then Failure(TranscriptNotReady)
      else if t.segments.Absent? then Failure(SegmentsUndefined)
      else if t.segments.Null? then Failure(SegmentsNull)
      else
        match complete(Prompt(t.segments.value))
        case Failure(e) => Failure(e)
        case Success(text) => if text == "" then Failure(NoRecipeText) else Success(ParseRecipeText(text))
  }

  /** `generateRecipeFromTranscriptInternal`: reads the transcript from the store and asks the model. */
  method GenerateRecipeFromTranscriptInternal(db: Firestore, id: string, complete: string -> Result<string, string>)
    returns (r: Result<Recipe, string>)
    ensures r == RecipeFromTranscript(db.transcripts, id, complete)
  {
    var doc := db.GetTranscript(id);
    if doc.None? {
      return Failure(TranscriptNotFound);
    }
    var t := doc.value;
    if IsTrue(t.isProcessing) || IsSet(t.error) {
      return Failure(TranscriptNotReady);
    }
    if t.segments.Absent? {
      return Failure(SegmentsUndefined);
    }
    if t.segments.Null? {
      return Failure(SegmentsNull);
    }
    var reply := complete(Prompt(t.segments.value));
    if reply.Failure? {
      return Failure(reply.error);
    }
    if reply.value == "" {
      return Failure(NoRecipeText);
    }
    r := Success(ParseRecipeText(reply.value));
  }

  /** The video update that saves a recipe. */
  function RecipePatch(markdown: string, now: Stamp): VideoDoc
  {
    VideoDoc(Absent, Absent, Present(true), Present(markdown), Present(now))
  }

  /** The videos collection after `update` has saved `markdown` as the recipe of video `id`. */
  function SaveRecipe(videos: map<string, VideoDoc>, id: string, markdown: string, now: Stamp): map<string, VideoDoc>
    requires id in videos
  {
    videos[id := UpdateVideoDoc(videos[id], RecipePatch(markdown, now))]
  }

  /**
   * Saving a recipe sets the description, `hasRecipe` and the update time of
   * that one video and keeps its other fields and every other video.
   */
  lemma SaveRecipeWrites(videos: map<string, VideoDoc>, id: string, markdown: string, now: Stamp)
    requires id in videos
    ensures var v := SaveRecipe(videos, id, markdown, now);
      && v.Keys == videos.Keys
      && (forall k :: k in videos && k != id ==> v[k] == videos[k])
      && v[id].hasRecipe == Present(true)
      && v[id].description == Present(markdown)
      && v[id].updatedAt == Present(now)
      && v[id].status == videos[id].status
      && v[id].videoUrl == videos[id].videoUrl
  {
  }

  // ---------------------------------------------------------------------------
  // onTranscriptComplete

  /** The `transcripts/{transcriptId}` update, reduced to the snapshot after it. */
  datatype TranscriptChange = TranscriptChange(transcriptId: string, after: Option<TranscriptDoc>)

  /** The snapshot shows a settled transcript with at least one segment. */
  predicate Ready(after: Option<TranscriptDoc>)
  {
    && after.Some?
    && !IsTrue(after.value.isProcessing)
    && !IsSet(after.value.error)
    && after.value.segments.Present?
    && |after.value.segments.value| > 0
  }

  datatype RecipeOutcome = NotReady | NoVideo | HasRecipe | Generated(recipe: Recipe) | Logged(message: string)

  /** The failure entry: the message and the size of the transcript in the event snapshot. */
  function FailureRecord(id: string, message: string, segs: seq<Segment>, now: Stamp): ErrorRecord
  {
    ErrorRecord(RecipeFailureKind, id, now, message, |segs|, TotalText(segs))
  }

  datatype Completion = Completion(state: StoreState, outcome: RecipeOutcome)

  /** The store after the trigger has run on a transcript change, and how the run ended. */
  function CompletionEffect(st: StoreState, e: TranscriptChange, now: Stamp,
                            complete: string -> Result<string, string>): Completion
  {
    var id := e.transcriptId;
    if !Ready(e.after) then Completion(st, NotReady)
    else if id !in st.videos then Completion(st, NoVideo)
    else if IsTrue(st.videos[id].hasRecipe) then Completion(st, HasRecipe)
    else
      match RecipeFromTranscript(st.transcripts, id, complete)
      case Success(recipe) =>
        Completion(st.(videos := SaveRecipe(st.videos, id, FormatRecipeAsMarkdown(recipe), now)), Generated(recipe))
      case Failure(message) =>
        var record := FailureRecord(id, message, e.after.value.segments.value, now);
        Completion(st.(errors := st.errors + [record]), Logged(message))
  }

  /** `onTranscriptComplete`, one sequential invocation against the store. */
  method OnTranscriptComplete(db: Firestore, e: TranscriptChange, now: Stamp,
                              complete: string -> Result<string, string>)
    returns (outcome: RecipeOutcome)
    modifies db
    ensures Completion(db.State(), outcome) == CompletionEffect(old(db.State()), e, now, complete)
  {
    var id := e.transcriptId;
    if !Ready(e.after) {
      return NotReady;
    }
    var video := db.GetVideo(id);
    if video.None? {
      return NoVideo;
    }
    if IsTrue(video.value.hasRecipe) {
      return HasRecipe;
    }
    var r := GenerateRecipeFromTranscriptInternal(db, id, complete);
    if r.Success? {
      var markdown := FormatRecipeAsMarkdown(r.value);
      var ok := db.UpdateVideo(id, RecipePatch(markdown, now));
      outcome := Generated(r.value);
    } else {
      db.AddError(FailureRecord(id, r.error, e.after.value.segments.value, now));
      outcome := Logged(r.error);
    }
  }

  // ---------------------------------------------------------------------------
  // generateRecipeFromTranscript (callable)

  /** `request.data?.videoId`: missing, not a string, or a string. */
  datatype VideoIdArg = Missing | NotAString | Text(value: string)

  /** The callable never throws: it returns the recipe or an error message. */
  datatype RecipeReply = RecipeReply(recipe: Recipe) | ErrorReply(message: string)

  /** What `update` reports for a missing video document. */
  function NoDocumentToUpdate(id: string): string
  {
    "No document to update: videos/" + id
  }

  datatype Answer = Answer(state: StoreState, reply: RecipeReply)

  /** The store after the callable has run, and its reply. */
  function ManualRecipeEffect(st: StoreState, arg: VideoIdArg, now: Stamp,
                              complete: string -> Result<string, string>): Answer
  {
    if !arg.Text? || arg.value == "" then Answer(st, ErrorReply(VideoIdRequired))
    else
      var id := arg.value;
      match RecipeFromTranscript(st.transcripts, id, complete)
      case Failure(message) => Answer(st, ErrorReply(message))
      case Success(recipe) =>
        if id in st.videos then
          Answer(st.(videos := SaveRecipe(st.videos, id, FormatRecipeAsMarkdown(recipe), now)), RecipeReply(recipe))
        else Answer(st, ErrorReply(NoDocumentToUpdate(id)))
  }

  /** `generateRecipeFromTranscript`, one sequential invocation against the store. */
  method GenerateRecipeFromTranscript(db: Firestore, arg: VideoIdArg, now: Stamp,
                                      complete: string -> Result<string, string>)
    returns (reply: RecipeReply)
    modifies db
    ensures Answer(db.State(), reply) == ManualRecipeEffect(old(db.State()), arg, now, complete)
  {
    if !arg.Text? || arg.value == "" {
      return ErrorReply(VideoIdRequired);
    }
    var id := arg.value;
    var r := GenerateRecipeFromTranscriptInternal(db, id, complete);
    if r.Failure? {
      return ErrorReply(r.error);
    }
    var ok := db.UpdateVideo(id, RecipePatch(FormatRecipeAsMarkdown(r.value), now));
    if ok {
      reply := RecipeReply(r.value);
    } else {
      reply := ErrorReply(NoDocumentToUpdate(id));
    }
  }

  // ---------------------------------------------------------------------------
  // Properties

  /** The trigger stops before the model exactly when a guard fails, and then writes nothing. */
  lemma CompletionSkips(st: StoreState, e: TranscriptChange, now: Stamp, complete: string -> Result<string, string>)
    ensures var c := CompletionEffect(st, e, now, complete);
      var id := e.transcriptId;
      && ((c.outcome.NotReady? || c.outcome.NoVideo? || c.outcome.HasRecipe?) <==>
            !Ready(e.after) || id !in st.videos || IsTrue(st.videos[id].hasRecipe))
      && (c.outcome.NotReady? <==> !Ready(e.after))
      && (c.outcome.NotReady? || c.outcome.NoVideo? || c.outcome.HasRecipe? ==> c.state == st)
  {
  }

  /**
   * A recipe is generated exactly when the guards pass and the model yields
   * a reply; it is then saved on the video (see `SaveRecipeWrites`) and
   * nothing else in the store changes.
   */
  lemma CompletionSavesRecipe(st: StoreState, e: TranscriptChange, now: Stamp, complete: string -> Result<string, string>)
    ensures var c := CompletionEffect(st, e, now, complete);
      var id := e.transcriptId;
      && (c.outcome.Generated? <==>
            && Ready(e.after) && id in st.videos && !IsTrue(st.videos[id].hasRecipe)
            && RecipeFromTranscript(st.transcripts, id, complete).Success?)
      && (c.outcome.Generated? ==>
            && RecipeFromTranscript(st.transcripts, id, complete) == Success(c.outcome.recipe)
            && id in st.videos
            && c.state == st.(videos := SaveRecipe(st.videos, id, FormatRecipeAsMarkdown(c.outcome.recipe), now)))
  {
  }

  /** A failed generation appends one error entry, sized from the event snapshot, and changes nothing else. */
  lemma CompletionLogsFailure(st: StoreState, e: TranscriptChange, now: Stamp, complete: string -> Result<string, string>)
    ensures var c := CompletionEffect(st, e, now, complete);
      var id := e.transcriptId;
      c.outcome.Logged? ==>
        && Ready(e.after)
        && RecipeFromTranscript(st.transcripts, id, complete) == Failure(c.outcome.message)
        && c.state.transcripts == st.transcripts
        && c.state.videos == st.videos
        && |c.state.errors| == |st.errors| + 1
        && c.state.errors[..|st.errors|] == st.errors
        && var rec := c.state.errors[|st.errors|];
           && rec.kind == RecipeFailureKind && rec.videoId == id && rec.error == c.outcome.message
           && rec.timestamp == now
           && rec.segmentCount == |e.after.value.segments.value|
           && rec.totalText == TotalText(e.after.value.segments.value)
  {
    var c := CompletionEffect(st, e, now, complete);
    if c.outcome.Logged? {
      assert (st.errors + [c.state.errors[|st.errors|]])[..|st.errors|] == st.errors;
    }
  }

  /** Once a recipe is saved for a video, no later run of the trigger for it calls the model again. */
  lemma CompletionRunsOnce(st: StoreState, e: TranscriptChange, now: Stamp, complete: string -> Result<string, string>,
                           e2: TranscriptChange, now2: Stamp, complete2: string -> Result<string, string>)
    requires e2.transcriptId == e.transcriptId
    ensures var c := CompletionEffect(st, e, now, complete);
      c.outcome.Generated? ==>
        var c2 := CompletionEffect(c.state, e2, now2, complete2);
        && (c2.outcome == NotReady || c2.outcome == HasRecipe)
        && c2.state == c.state
  {
  }

  /**
   * The callable rejects a missing, non-string or empty id, never touches the
   * transcripts or the error log, and, unlike the trigger, regenerates even
   * when the video already has a recipe.
   */
  lemma ManualRecipeReplies(st: StoreState, arg: VideoIdArg, now: Stamp, complete: string -> Result<string, string>)
    ensures var a := ManualRecipeEffect(st, arg, now, complete);
      && (!arg.Text? || arg.value == "" ==> a.reply == ErrorReply(VideoIdRequired))
      && (a.reply.ErrorReply? ==> a.state == st)
      && (a.reply.RecipeReply? <==>
            && arg.Text? && arg.value != ""
            && RecipeFromTranscript(st.transcripts, arg.value, complete).Success?
            && arg.value in st.videos)
      && (a.reply.RecipeReply? ==>
            && arg.value in st.videos
            && a.state == st.(videos := SaveRecipe(st.videos, arg.value, FormatRecipeAsMarkdown(a.reply.recipe), now)))
  {
  }

  // ---------------------------------------------------------------------------
  // How the two pipelines meet

  /** Storing segments keeps their texts, so the prompt is built from the transcribed texts. */
  lemma StoredPrompt(segs: seq<Segment>)
    ensures Prompt(TranscriptTriggers.StoredSegments(segs)) == Prompt(segs)
  {
    assert Texts(TranscriptTriggers.StoredSegments(segs)) == Texts(segs);
  }

  /**
   * A transcript saved by the status trigger is ready for a recipe exactly
   * when it has segments; one that failed with a non-empty message is not.
   */
  lemma SavedTranscriptIsReady(ts: map<string, TranscriptDoc>, e: TranscriptTriggers.VideoChange, now: Stamp,
                               sign: (string, string) -> Result<string, string>,
                               transcribe: (string, string) -> Result<RawResponse, string>)
    ensures var r := TranscriptTriggers.StatusChangeEffect(ts, e, now, sign, transcribe);
      var id := e.videoId;
      && (r.outcome.Saved? ==> (Ready(Some(r.transcripts[id])) <==> |r.outcome.result.segments| > 0))
      && (r.outcome.Failed? && r.outcome.message != "" ==> !Ready(Some(r.transcripts[id])))
  {
    TranscriptTriggers.StatusChangeEndsSettled(ts, e, now, sign, transcribe);
  }
}
