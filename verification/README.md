# SpoonFeed transcript and recipe pipeline in Dafny

SpoonFeed's cloud functions turn an uploaded cooking video into a transcript
and then into a recipe. This project models the core of those functions
(`functions/src/index.ts` and `functions/src/recipe-generation.ts`):

- **Transcript normalisation** (`TranscriptNormalizer`): how the
  speech-to-text response becomes timed segments. A response without text is
  rejected. A response with no segments has segments made from its sentences,
  one second each. Provider segments are converted to rounded milliseconds,
  and word timings are spread evenly over the segment when the provider gave
  none.
- **The transcription triggers** (`TranscriptTriggers`):
  - `generateTranscriptOnStatusChange` fires on a video update. It has four
    guards, writes a processing marker and resolves a `gs://` location into
    a bucket and path for signing. The segments are checked for text before
    the transcript is saved, or else the error is merged into the record.
  - The callable `generateTranscript` does less. It has no status guard, no
    URL-scheme check and no in-progress check. It passes the URL on as given,
    so a `gs://` location is not signed. Its processing marker replaces the
    whole record instead of being merged into it.
- **Recipe text** (`RecipeText`):
  - `parseRecipeText`: title, ingredient and step recovery from the model's
    reply, including the fallback to numbered lines anywhere in the text.
  - `formatRecipeAsMarkdown`: the fixed Markdown template, described line
    by line.
- **The recipe triggers** (`RecipeTriggers`):
  - `generateRecipeFromTranscriptInternal`, which reads a settled transcript
    and asks the model.
  - The `onTranscriptComplete` trigger, with its readiness and
    already-has-a-recipe guards, the video update and the error log entry.
  - The callable `generateRecipeFromTranscript`, which never throws.

The store is a class `Store.Firestore` holding the `transcripts`, `videos` and
`errors` collections. Each write the functions make is one of its methods:
replace, merge, update and append. A document field is absent, `null` or a
value, and merges overwrite only the fields they name. Each entry point is a
method that changes the store. Its `ensures` ties the new store to a function
(`StatusChangeEffect`, `ManualEffect`, `CompletionEffect`,
`ManualRecipeEffect`), and the lemmas state what those functions guarantee.

Collaborators that the functions call but that are not part of this model are
passed in as function values, and their failures become `Failure(message)`:

- `sign(bucket, path)` stands for the URL signing;
- `transcribe(videoId, url)` stands for the download, the audio extraction
  and the speech-to-text call;
- `complete(prompt)` stands for the chat completion.

The server timestamp is a `now` parameter.

Text follows JavaScript's string functions:

- `split` finds separators left to right without overlap (`Strings.Split`);
- `split(/[.!?]+/)` is `TranscriptNormalizer.Fragments`;
- `trim`, `\s` and `toLowerCase` cover ASCII only;
- `Math.round` rounds halves up.

## Model

| member | source | states |
|---|---|---|
| Strings.Trim | functions/src/recipe-generation.ts:298 | the result is the contiguous piece of the input left once whitespace is removed from its two ends, and nothing else: everything before it and after it is whitespace, and it neither starts nor ends with whitespace |
| Strings.TrimEmptyIff | functions/src/index.ts:139 | a string trims to empty exactly when every character is whitespace |
| Strings.TrimIsInfix | functions/src/recipe-generation.ts:298 | the trimmed string is a contiguous part of the original |
| Strings.Split | functions/src/index.ts:309-310 | splitting always yields at least one piece |
| Strings.JoinSplit | functions/src/index.ts:310 | joining the pieces of a split with the same separator gives the string back |
| Strings.SplitAtSeparator | functions/src/index.ts:309-310 | a split at a one-character separator distributes over a concatenation around that character |
| Strings.NatToString | functions/src/recipe-generation.ts:126 | a step number is written as decimal digits with no leading zero: it starts with `0` only for zero |
| Strings.NatToStringRoundTrip | functions/src/index.ts:365 | the decimal rendering of an index reads back as the same number |
| RecipeText.FindIndex | functions/src/recipe-generation.ts:301 | `find` returns the first section that matches, and none matches before it; no result means no section matches |
| RecipeText.CleanLines | functions/src/recipe-generation.ts:302-305 | the cleaned list holds exactly the non-empty cleaned forms of the input lines |
| RecipeText.CleanLinesAppend | functions/src/recipe-generation.ts:302-305 | cleaning goes line by line and keeps the order: the entries of two runs of lines are the entries of the first, then those of the second |
| RecipeText.LeadingDigits | functions/src/recipe-generation.ts:316 | the counted prefix is all digits and is followed by a non-digit or the end |
| RecipeText.StripBullet | functions/src/recipe-generation.ts:303 | an ingredient line loses something exactly when it opens with `-` or `*`. It then loses that one character and the whitespace after it, no more, and what remains does not start with whitespace |
| RecipeText.StripStepNumber | functions/src/recipe-generation.ts:316 | a step line loses something exactly when it opens with one or more digits followed by `.`. It then loses that whole digit run, the dot and the whitespace after them, no more, and what remains does not start with whitespace |
| RecipeText.ParseRecipeText | functions/src/recipe-generation.ts:293-331 | the parsed title is trimmed |
| RecipeText.ParsedTitle | functions/src/recipe-generation.ts:295-298 | the first section is a prefix of the text with no blank line in it, and the trimmed title is a substring of it |
| RecipeText.StripTitlePrefix | functions/src/recipe-generation.ts:298 | the prefix pattern removes characters from the front only, and what remains never starts with whitespace |
| RecipeText.TitleHashDropped | functions/src/recipe-generation.ts:298 | a leading `#` is removed |
| RecipeText.TitleSpaceDropped | functions/src/recipe-generation.ts:298 | a leading whitespace character is removed when the rest does not start with `#` |
| RecipeText.TitleHashAfterSpaceKept | functions/src/recipe-generation.ts:298 | once whitespace has been removed, a `#` after it belongs to the title and is kept |
| RecipeText.TitleLabelDropped | functions/src/recipe-generation.ts:298 | a leading `Title:`, case as written, is removed with the whitespace after it, and only once |
| RecipeText.TitlePlainKept | functions/src/recipe-generation.ts:298 | text opening with none of `#`, whitespace or `Title:` is kept as it is |
| RecipeText.ParseTitleOfPlain | functions/src/recipe-generation.ts:298 | a first section that opens with no `#`, and with no `Title:` after its leading whitespace, is only trimmed |
| RecipeText.SplitAtFirstSectionBreak | functions/src/recipe-generation.ts:295 | the first blank line ends the first section: the split is the text before it, then the split of what follows |
| RecipeText.TitleIgnoresLaterSections | functions/src/recipe-generation.ts:295-298 | the title depends only on the text before the first blank line: anything after it leaves the title unchanged |
| RecipeText.TitleLabelLine | functions/src/recipe-generation.ts:298 | the line `# Title: x` with a trimmed `x` gives the title `x` |
| RecipeText.TitleLabelRemoved | functions/src/recipe-generation.ts:295-298 | a reply that opens with the line `# Title: x`, then a blank line and any text at all, has the title `x`; with `x` empty, an empty title is accepted |
| RecipeText.IngredientsAreClean | functions/src/recipe-generation.ts:301-305 | every ingredient is non-empty and trimmed |
| RecipeText.IngredientsFromFirstMatch | functions/src/recipe-generation.ts:301-305 | ingredients come from the first section mentioning "ingredients", header line skipped. They are the body lines, each cleaned, in their order, with the empty ones dropped (`CleanLines` over the body) |
| RecipeText.NoIngredientsSection | functions/src/recipe-generation.ts:301-305 | with no such section the ingredient list is empty |
| RecipeText.PrimaryStepsFromFirstMatch | functions/src/recipe-generation.ts:308-331 | steps come from the first section mentioning instructions, steps, directions or method. They are the body lines, number-stripped and trimmed, in their order, with the empty ones dropped, and they are used whenever there is one |
| RecipeText.FallbackStepsAreNumberedLines | functions/src/recipe-generation.ts:319-331 | when that section yields no step, the steps are the numbered lines of the whole text in order, whatever section they sit in |
| RecipeText.NumberedEntriesSelect | functions/src/recipe-generation.ts:319-325 | a fallback step is exactly the cleaned form of a line that starts with digits, a dot and a space |
| RecipeText.FallbackStepMayBeEmpty | functions/src/recipe-generation.ts:319-325 | the fallback does not drop empty steps: a numbered line with only whitespace after its dot, such as `1. `, yields an empty step |
| RecipeText.PickAppend | functions/src/recipe-generation.ts:320-324 | picking lines from a concatenation is picking from each part in turn |
| RecipeText.StripHeading | functions/src/recipe-generation.ts:118 | the heading pattern removes from the front only a run of `#` and then a run of whitespace. What remains does not start with whitespace, and starts with `#` only if some whitespace was removed before it |
| RecipeText.StripListMarker | functions/src/recipe-generation.ts:122 | an ingredient loses something exactly when it opens with `-`, `#` or `*`. It then loses that one character and the whitespace after it, no more |
| RecipeText.StripStepMarker | functions/src/recipe-generation.ts:126 | a step loses something exactly when it opens with `-`, `#`, `*`, `.` or a digit. It then loses that one character and the whitespace after it, no more |
| RecipeText.StepMarkerTakesOneDigit | functions/src/recipe-generation.ts:126 | a step opening with a digit loses exactly that digit and the whitespace after it, so "2 eggs" is rendered "1. eggs" and "12 eggs" "1. 2 eggs" |
| RecipeText.MarkdownLines | functions/src/recipe-generation.ts:117-129 | for single-line fields, the rendered document's lines are as follows: the heading, `## Ingredients`, one `- item` line per ingredient, `## Instructions`, and each numbered step followed by a blank line, then the rule and the footer. Blank lines separate the blocks |
| TranscriptNormalizer.Round | functions/src/index.ts:182 | the result is the nearest integer, halves rounding up |
| TranscriptNormalizer.RoundMonotone | functions/src/index.ts:182-187 | rounding preserves order, so converted times keep their order |
| TranscriptNormalizer.Normalize | functions/src/index.ts:129-133 | the normalisation fails exactly when the response has no text, with the missing-text message; on success the text is kept |
| TranscriptNormalizer.FragmentsAvoidTerminators | functions/src/index.ts:139 | no sentence fragment contains `.`, `!` or `?` |
| TranscriptNormalizer.FragmentsCoverText | functions/src/index.ts:139 | the fragments, concatenated, are the text with its terminators deleted |
| TranscriptNormalizer.FragmentsSplitText | functions/src/index.ts:139 | putting the cut runs back between the fragments gives the text back |
| TranscriptNormalizer.RunsAreTerminators | functions/src/index.ts:139 | every cut is a non-empty run of `.`, `!` and `?`; as no fragment holds one, the cuts are the maximal runs |
| TranscriptNormalizer.NonBlankAppend | functions/src/index.ts:139 | the blank filter keeps the order: filtering two runs of fragments gives the sentences of the first, then those of the second |
| TranscriptNormalizer.SentencesAreFragments | functions/src/index.ts:139 | the sentences are the fragments that are not blank, in their order |
| TranscriptNormalizer.SynthesizedSegmentsShape | functions/src/index.ts:135-153 | without provider segments there is one segment per sentence. Segment `i` spans `[i*1000, (i+1)*1000)` and holds the trimmed sentence plus ".", with no words or keywords. The segments are back to back |
| TranscriptNormalizer.SynthesizedTextsEndWithPeriod | functions/src/index.ts:139-146 | a synthesised segment's text is never blank, starts with a non-space and ends with "." |
| TranscriptNormalizer.ProviderSegmentsConverted | functions/src/index.ts:159-193 | each provider segment becomes one segment, in order. Its text is kept, its times are rounded to milliseconds and it has no keywords. The provider's words are kept when present; otherwise there is one word per space-separated piece |
| TranscriptNormalizer.SynthesizedWordsSpans | functions/src/index.ts:169-177 | synthesised word `i` is piece `i` of the text and spans the `i`-th equal share of the segment |
| TranscriptNormalizer.WordsContiguous | functions/src/index.ts:169-177 | synthesised words are back to back |
| TranscriptNormalizer.WordsCoverSegment | functions/src/index.ts:169-177 | the first word starts at the segment start and the last ends at the segment end |
| TranscriptNormalizer.SynthesizedWordsSpellText | functions/src/index.ts:169-177 | the synthesised words joined by spaces spell the segment text |
| TranscriptNormalizer.SynthesizedWordsMillis | functions/src/index.ts:169-189 | after rounding, synthesised word times start and end with the segment and are back to back for every segment, and are non-decreasing when the segment does not end before it starts |
| Store.MergeEmptyPatch | functions/src/index.ts:296-303 | a merge that names no field leaves the record as it was |
| Store.MergeTranscriptCompose | functions/src/index.ts:296-303 | two merges in a row are one merge of the second patch over the first. This holds for the whole record unless the first patch writes `metadata` as `null` |
| Store.MergeTranscriptIdempotent | functions/src/index.ts:296-303 | merging the same patch twice is merging it once |
| Store.Firestore.SetTranscript | functions/src/index.ts:370 | `set` replaces the record and touches nothing else |
| Store.Firestore.MergeIntoTranscript | functions/src/index.ts:296-303 | `set` with merge changes only the named fields of that record |
| Store.Firestore.UpdateVideo | functions/src/recipe-generation.ts:233-237 | `update` fails exactly on a missing document and otherwise merges into it |
| Store.Firestore.AddError | functions/src/recipe-generation.ts:274-284 | `add` appends one entry to the error log |
| TranscriptTriggers.SplitGsUrlOf | functions/src/index.ts:309-310 | for `gs://B/P` with a slash-free bucket, the bucket is `B` and the path is all of `P`; `gs://B` gives an empty path |
| TranscriptTriggers.DownloadUrl | functions/src/index.ts:306-318 | a URL not starting with `gs://` is used unchanged |
| TranscriptTriggers.GsUrlIsSigned | functions/src/index.ts:306-318 | a `gs://B/P` URL is signed with exactly bucket `B` and path `P` |
| TranscriptTriggers.FirstEmptyText | functions/src/index.ts:362-367 | the reported index holds an empty text and every earlier segment has text; no index means every segment has text |
| TranscriptTriggers.ValidateSegments | functions/src/index.ts:362-367 | the validation loop reports the first segment without text |
| TranscriptTriggers.Attempt | functions/src/index.ts:321-367 | a successful attempt is the normalised response, and every segment in it has text |
| TranscriptTriggers.SynthesizedSegmentsPassValidation | functions/src/index.ts:362-367 | a response with text but no segments always passes validation |
| TranscriptTriggers.EmptyProviderSegmentFails | functions/src/index.ts:362-367 | a provider segment without text fails the run with the message naming the first such index |
| TranscriptTriggers.OnVideoStatusChange | functions/src/index.ts:247-389 | the trigger's writes and outcome are those of `StatusChangeEffect`; videos and the error log are untouched |
| TranscriptTriggers.StatusChangeSkips | functions/src/index.ts:255-291 | the trigger skips exactly when the status did not go from uploading to active, the URL is missing or not from an accepted store, or the record is marked processing; a skip writes nothing |
| TranscriptTriggers.SecondTriggerSeesMarker | functions/src/index.ts:284-303 | an invocation reading the record after another's processing marker skips without transcribing |
| TranscriptTriggers.StatusChangeTouchesOneRecord | functions/src/index.ts:294-388 | only the changed video's transcript record is written |
| TranscriptTriggers.StatusChangeEndsSettled | functions/src/index.ts:326-388 | a run past the guards leaves the record not processing. Success saves the stored segments with a `null` error. Failure records the message and the error time and keeps the earlier segments |
| TranscriptTriggers.SavedSegmentsHaveText | functions/src/index.ts:362-370 | a saved transcript never holds a segment without text |
| TranscriptTriggers.ProcessingMergeKeepsError | functions/src/index.ts:296-303 | the processing marker keeps an earlier error message and the earlier segments while it sets the flag |
| TranscriptTriggers.GenerateTranscript | functions/src/index.ts:392-507 | the callable's writes and result are those of `ManualEffect`; videos and the error log are untouched |
| TranscriptTriggers.ManualRejectsBadData | functions/src/index.ts:403-419 | the callable fails with `invalid-argument` exactly when the data is not an object or lacks a video id or URL, and then writes nothing |
| TranscriptTriggers.ManualIgnoresPreviousRecord | functions/src/index.ts:426-434 | the callable's result and final record do not depend on the previous record: it replaces it and does not check for a run in progress |
| TranscriptTriggers.ManualFailureRecord | functions/src/index.ts:488-505 | the callable fails exactly when the attempt fails, with `internal` and the video id. The record then holds the message, is not processing and has no segments. On success the record is the final document |
| RecipeTriggers.PromptSplitsBack | functions/src/recipe-generation.ts:54-56 | when no segment text holds a space, splitting the prompt at spaces gives the texts back, in order |
| RecipeTriggers.PromptLength | functions/src/recipe-generation.ts:54-56 | the prompt is the segment texts plus one separating space between neighbours |
| RecipeTriggers.RecipeFromTranscript | functions/src/recipe-generation.ts:17-114 | a missing transcript and a processing or errored one fail with their messages. Generation succeeds exactly when the transcript is settled, has a segment list and the model's reply is non-empty. The recipe is then the parse of that reply |
| RecipeTriggers.GenerateRecipeFromTranscriptInternal | functions/src/recipe-generation.ts:17-114 | reading the store and asking the model gives `RecipeFromTranscript`'s result |
| RecipeTriggers.SaveRecipeWrites | functions/src/recipe-generation.ts:233-237 | saving a recipe sets that video's description, `hasRecipe` and update time and keeps everything else |
| RecipeTriggers.OnTranscriptComplete | functions/src/recipe-generation.ts:169-290 | the trigger's writes and outcome are those of `CompletionEffect` |
| RecipeTriggers.CompletionSkips | functions/src/recipe-generation.ts:186-207 | the trigger stops before the model exactly when the transcript is not settled with segments, the video is missing or already has a recipe; it then writes nothing |
| RecipeTriggers.CompletionSavesRecipe | functions/src/recipe-generation.ts:209-237 | a recipe is generated exactly when the guards pass and generation succeeds. It is then saved on the video as Markdown, and nothing else changes |
| RecipeTriggers.CompletionLogsFailure | functions/src/recipe-generation.ts:256-288 | a failed generation appends one error entry and changes nothing else. The entry holds the kind, video id, time and message, plus the segment count and total text length from the event snapshot |
| RecipeTriggers.CompletionRunsOnce | functions/src/recipe-generation.ts:203-207 | after a recipe is saved, a later run for the same video never calls the model and writes nothing |
| RecipeTriggers.GenerateRecipeFromTranscript | functions/src/recipe-generation.ts:141-166 | the callable's writes and reply are those of `ManualRecipeEffect` |
| RecipeTriggers.ManualRecipeReplies | functions/src/recipe-generation.ts:141-166 | a missing, non-string or empty id gets "Video ID is required". Any error reply writes nothing. A recipe is returned exactly when generation succeeds and the video exists, even if it already has one, and it is then saved on the video |
| RecipeTriggers.StoredPrompt | functions/src/recipe-generation.ts:54-56 | storing segments keeps their texts, so the prompt is built from the transcribed texts |
| RecipeExample.ThreeSections | functions/src/recipe-generation.ts:293-331 | a title section, a section naming the ingredients and one naming the steps, each with a header and two lines, parse to the title and the two cleaned bodies in order |
| RecipeExample.PancakeRecipe | functions/src/recipe-generation.ts:293-331 | the reply "Pancakes", blank line, "Ingredients / - Flour / - Milk", blank line, "Instructions / 1. Mix / 2. Cook" (one line per `/`) parses to the title "Pancakes", the ingredients "Flour", "Milk" and the steps "Mix", "Cook" |
| RecipeTriggers.SavedTranscriptIsReady | functions/src/recipe-generation.ts:187 | a transcript saved by the status trigger is ready for a recipe exactly when it has segments; one that failed with a non-empty message is not |

Behaviour of the code that a reader might not expect, which the model follows as written:

- **Synthesised segment text.** The text of a synthesised segment always ends
  with "." (`SynthesizedTextsEndWithPeriod`). The `!` or `?` that ended the
  sentence is removed by the split (`FragmentsAvoidTerminators`), so "It was
  fast!" becomes "It was fast.".
- **Empty titles.** An empty title is accepted rather than rejected
  (`TitleLabelRemoved` with an empty `x`).
- **The callable and runs in progress.** The callable does not skip when a
  run is in progress (`ManualIgnoresPreviousRecord`).
- **Empty fallback steps.** Fallback steps may be empty
  (`FallbackStepMayBeEmpty`).

## Left out

- **Collaborators.** The download, the temporary files, the audio extraction,
  the speech-to-text and chat-completion calls and URL signing are
  parameters. Only their results and failure messages are modelled.
- **Logging.** All `console` output is not modelled.
- **Concurrency.** Each entry point runs as one sequential step against the
  store. The read-then-write race on `isProcessing` is described only by
  `SecondTriggerSeesMarker`.
- **The second video read.** `onTranscriptComplete` reads the video again
  before saving (functions/src/recipe-generation.ts:224-230). That read cannot
  fail in a sequential model, so its error path is not modelled.
- **Failing store writes and a throwing skip check.** Store writes never fail,
  except `update` on a missing document. So the trigger's in-progress check
  never throws into the error path (functions/src/index.ts:284-291).
- **The segment-array guard.** The guard that the stored segments form an
  array (functions/src/index.ts:357-360 and 471-474) always passes, so it is
  not modelled.
- **The start and end type checks.** The `typeof` checks on `start` and
  `end` in the validation loop always pass, because converted times are
  numbers.
- **Numbers.** Times are exact reals and integers, not binary floating
  point. `Round` is `Math.round` on every real, halves rounding up.
- **Separate server timestamps.** One invocation of a transcript function
  stamps all its writes with the single `now` it is given, so the model's
  `startedProcessing` equals the later `lastAccessed` or `errorTimestamp`.
  In the source, each write asks for its own server timestamp
  (functions/src/index.ts:299-301, 342, 384-385, 430-432, 456 and 496-497),
  and these can differ.
- **Multi-line titles.** The first section may hold single line breaks, and
  the parsed title then keeps them. `MarkdownLines` describes the rendered
  lines only for a title, ingredients and steps without line breaks.
- **RecipeTriggers.PromptLength:** it and `TotalText`, the error log
  entry's total text length (functions/src/recipe-generation.ts:267 and
  282), count characters. JavaScript's `length` counts UTF-16 code units,
  and the two differ for characters outside the Basic Multilingual Plane.
- **Store.MergeTranscriptCompose:** states that two merges equal one merge
  for the whole record only when the first patch does not write `metadata`
  as `null`. In that case the second patch's metadata map replaces the
  `null` rather than being merged into the older map.
- **Text.** Strings are sequences of characters. Whitespace, trimming and
  lower-casing cover ASCII only, and Unicode case folding and whitespace are
  not modelled.
- **Values of the wrong type.** Values the functions receive are typed: a
  non-string `videoUrl` on a video, a non-string `videoId` or `videoUrl` in
  the transcription callable, non-numeric times and `null` segments inside a
  list are not modelled. The recipe callable's non-string id is modelled
  (`NotAString`).
- **Engine and store error texts.** The failure messages of the JavaScript
  engine and of the store are fixed strings in the model. These are reading
  `length` of a missing or `null` segment list and `update` on a missing
  document. Their exact text in a deployment (error-code prefixes, project
  paths) is not.
- **Error stacks.** The `stack` field of error log entries is not modelled.
- **A missing `error.message`.** The fallback messages "Unknown error" and
  "Unknown error occurred" are not modelled: every failure carries a message.
- **`testOpenAIKey`** (functions/src/index.ts:510-532) is not part of this
  model. It only checks the API key against the provider.
- **`spoonfeed/functions/src/index.ts`** is not part of this model. It
  belongs to another copy of the functions.
- **Worked examples.** One concrete reply is worked through
  (`PancakeRecipe`). Other concrete texts are covered only by the general
  lemmas.
- **No parse-after-render round trip.** Rendering adds "Ingredients" and
  "Instructions" headings with Markdown markers, and it numbers steps, so no
  such round-trip lemma is stated.
- **RecipeText.ParseRecipeText:** its own contract states only that the
  title is trimmed. What it does with ingredients and steps is stated by the
  lemmas listed above.
