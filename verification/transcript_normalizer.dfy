/**
 * The normalisation step of `generateTranscriptInternal` in
 * functions/src/index.ts: once the speech-to-text service has answered, its
 * verbose response becomes the stored transcript. A response without text is
 * rejected; a response without segments gets one-second segments made from
 * its sentence fragments; otherwise every provider segment is converted to
 * millisecond timings, with evenly spaced words made up for a segment that has
 * none. Times in the response are seconds, modelled as `real` (no floating
 * point); stored times are whole milliseconds.
 */
module TranscriptNormalizer {
  import opened Wrappers
  import opened Strings

  /** A word of the service's response; times in seconds. */
  datatype RawWord = RawWord(word: string, start: real, end: real)

  /**
   * A segment of the service's response; times in seconds. A missing `words`
   * array is the empty sequence: the code treats both alike (`words?.length`).
   */
  datatype RawSegment = RawSegment(text: string, start: real, end: real, words: seq<RawWord>)

  /**
   * The service's response. A missing `text` is the empty string and a missing
   * `segments` array the empty sequence: the code tests both for falsiness or
   * emptiness only.
   */
  datatype RawResponse = RawResponse(text: string, segments: seq<RawSegment>)

  /** A stored word; times in milliseconds. */
  datatype Word = Word(word: string, start: int, end: int)

  /** A stored segment; times in milliseconds. */
  datatype Segment = Segment(text: string, start: int, end: int, words: seq<Word>, keywords: seq<string>)

  datatype TranscriptResult = TranscriptResult(segments: seq<Segment>, text: string)

  const MissingText: string := "Invalid OpenAI response: missing text"

  /** `Math.round`: the nearest integer, halves rounded up. */
  function Round(x: real): (r: int)
    ensures r as real - 0.5 <= x < r as real + 0.5
  {
    (x + 0.5).Floor
  }

  lemma RoundMonotone(x: real, y: real)
    requires x <= y
    ensures Round(x) <= Round(y)
  {
  }

  /** Seconds to whole milliseconds, `Math.round(x * 1000)`. */
  function ToMillis(x: real): int
  {
    Round(x * 1000.0)
  }

  // ---------------------------------------------------------------------------
  // Sentence fragments

  predicate IsTerminator(c: char)
  {
    c == '.' || c == '!' || c == '?'
  }

  /** Drops the leading run of terminators. */
  function SkipTerminators(s: string): (r: string)
    ensures |r| <= |s| && r == s[|s| - |r|..]
    ensures r == [] || !IsTerminator(r[0])
    decreases |s|
  {
    if s != [] && IsTerminator(s[0]) then SkipTerminators(s[1..]) else s
  }

  /**
   * `s.split(/[.!?]+/)`: the pieces between maximal runs of terminators, an
   * empty piece before a leading run and after a trailing one.
   */
  function Fragments(s: string): (r: seq<string>)
    ensures |r| >= 1
    decreases |s|
  {
    if s == [] then [""]
    else if IsTerminator(s[0]) then [""] + Fragments(SkipTerminators(s))
    else
      var t := Fragments(s[1..]);
      [[s[0]] + t[0]] + t[1..]
  }

  /** The fragments whose trimmed text is not empty, in order. */
  function NonBlank(xs: seq<string>): (r: seq<string>)
    ensures |r| <= |xs|
    ensures forall x :: x in r <==> x in xs && Trim(x) != ""
    decreases |xs|
  {
    if xs == [] then []
    else
      var rest := NonBlank(xs[1..]);
      assert forall x :: x in xs <==> x == xs[0] || x in xs[1..];
      if Trim(xs[0]) != "" then [xs[0]] + rest else rest
  }

  function Sentences(text: string): seq<string>
  {
    NonBlank(Fragments(text))
  }

  /** Segment `i` made from sentence `i`: one second each, back to back. */
  function SentenceSegment(i: nat, sentence: string): Segment
  {
    Segment(Trim(sentence) + ".", i * 1000, (i + 1) * 1000, [], [])
  }

  function SynthesizedSegments(text: string): (r: seq<Segment>)
    ensures |r| == |Sentences(text)|
  {
    var sentences := Sentences(text);
    seq(|sentences|, i requires 0 <= i < |sentences| => SentenceSegment(i, sentences[i]))
  }

  // ---------------------------------------------------------------------------
  // Provider segments

  /**
   * Words for a segment without any: one per piece of `text.split(' ')`, the
   * segment's span cut into equal parts.
   */
  function SynthesizedWords(seg: RawSegment): (r: seq<RawWord>)
    ensures |r| == |Split(seg.text, " ")|
  {
    var pieces := Split(seg.text, " ");
    var d := PartLength(seg);
    seq(|pieces|, i requires 0 <= i < |pieces| =>
      RawWord(pieces[i], seg.start + (i as real) * d, seg.start + (i as real) * d + d))
  }

  /** The span of each made-up word: the segment's span over the number of pieces. */
  function PartLength(seg: RawSegment): real
  {
    (seg.end - seg.start) / (|Split(seg.text, " ")| as real)
  }

  function WordsOf(seg: RawSegment): seq<RawWord>
  {
    if |seg.words| > 0 then seg.words else SynthesizedWords(seg)
  }

  function ConvertWord(w: RawWord): Word
  {
    Word(w.word, ToMillis(w.start), ToMillis(w.end))
  }

  function ConvertSegment(seg: RawSegment): Segment
  {
    var words := WordsOf(seg);
    Segment(seg.text, ToMillis(seg.start), ToMillis(seg.end),
      seq(|words|, k requires 0 <= k < |words| => ConvertWord(words[k])), [])
  }

  /** The normalisation of `generateTranscriptInternal`, from the response on. */
  function Normalize(response: RawResponse): (r: Result<TranscriptResult, string>)
    ensures r.Failure? <==> response.text == ""
    ensures r.Failure? ==> r.error == MissingText
    ensures r.Success? ==> r.value.text == response.text
  {
    if response.text == "" then Failure(MissingText)
    else if response.segments == [] then
      Success(TranscriptResult(SynthesizedSegments(response.text), response.text))
    else
      var segs := response.segments;
      Success(TranscriptResult(seq(|segs|, i requires 0 <= i < |segs| => ConvertSegment(segs[i])), response.text))
  }

  // ---------------------------------------------------------------------------
  // Properties of the fragments

  /** The text with every terminator deleted. */
  function WithoutTerminators(s: string): string
    decreases |s|
  {
    if s == [] then []
    else (if IsTerminator(s[0]) then [] else [s[0]]) + WithoutTerminators(s[1..])
  }

  function Concat(xs: seq<string>): string
    decreases |xs|
  {
    if xs == [] then [] else xs[0] + Concat(xs[1..])
  }

  predicate NoTerminator(s: string)
  {
    forall k :: 0 <= k < |s| ==> !IsTerminator(s[k])
  }

  lemma {:induction false} SkipTerminatorsDropsOnlyTerminators(s: string)
    ensures WithoutTerminators(SkipTerminators(s)) == WithoutTerminators(s)
    decreases |s|
  {
    if s != [] && IsTerminator(s[0]) {
      SkipTerminatorsDropsOnlyTerminators(s[1..]);
    }
  }

  lemma ConcatCons(x: string, xs: seq<string>)
    ensures Concat([x] + xs) == x + Concat(xs)
  {
    assert ([x] + xs)[1..] == xs;
  }

  /** No fragment holds a terminator. */
  lemma {:induction false} FragmentsAvoidTerminators(s: string)
    ensures forall k :: 0 <= k < |Fragments(s)| ==> NoTerminator(Fragments(s)[k])
    decreases |s|
  {
    if s == [] {
    } else if IsTerminator(s[0]) {
      var rest := SkipTerminators(s);
      FragmentsAvoidTerminators(rest);
      var t := Fragments(rest);
      assert Fragments(s) == [""] + t;
      assert forall k :: 1 <= k < |Fragments(s)| ==> Fragments(s)[k] == t[k - 1];
    } else {
      FragmentsAvoidTerminators(s[1..]);
      var t := Fragments(s[1..]);
      var first := [s[0]] + t[0];
      assert Fragments(s) == [first] + t[1..];
      assert NoTerminator(first) by {
        assert NoTerminator(t[0]);
        forall k | 0 <= k < |first| ensures !IsTerminator(first[k]) {
          if k > 0 {
            assert first[k] == t[0][k - 1];
          }
        }
      }
      assert forall k :: 1 <= k < |Fragments(s)| ==> Fragments(s)[k] == t[k];
    }
  }

  /** Together the fragments are the text with its terminators deleted: nothing else is lost or reordered. */
  lemma {:induction false} FragmentsCoverText(s: string)
    ensures Concat(Fragments(s)) == WithoutTerminators(s)
    decreases |s|
  {
    if s == [] {
    } else if IsTerminator(s[0]) {
      var rest := SkipTerminators(s);
      FragmentsCoverText(rest);
      SkipTerminatorsDropsOnlyTerminators(s);
      ConcatCons("", Fragments(rest));
    } else {
      FragmentsCoverText(s[1..]);
      var t := Fragments(s[1..]);
      var first := [s[0]] + t[0];
      ConcatCons(t[0], t[1..]);
      assert t == [t[0]] + t[1..];
      ConcatCons(first, t[1..]);
    }
  }

  /** The leading run of terminators. */
  function LeadingRun(s: string): string
  {
    s[..|s| - |SkipTerminators(s)|]
  }

  /** The runs of terminators `split` cuts at, in order: one between each two fragments. */
  function Runs(s: string): (r: seq<string>)
    ensures |r| + 1 == |Fragments(s)|
    decreases |s|
  {
    if s == [] then []
    else if IsTerminator(s[0]) then [LeadingRun(s)] + Runs(SkipTerminators(s))
    else Runs(s[1..])
  }

  /** The fragments with the runs put back between them. */
  function Interleave(frags: seq<string>, runs: seq<string>): string
    requires |runs| + 1 == |frags|
    decreases |runs|
  {
    if runs == [] then frags[0] else frags[0] + runs[0] + Interleave(frags[1..], runs[1..])
  }

  predicate AllTerminators(s: string)
  {
    forall k :: 0 <= k < |s| ==> IsTerminator(s[k])
  }

  lemma {:induction false} SkipTerminatorsDropsRun(s: string)
    ensures AllTerminators(LeadingRun(s))
    ensures s != [] && IsTerminator(s[0]) ==> LeadingRun(s) != []
    decreases |s|
  {
    if s != [] && IsTerminator(s[0]) {
      SkipTerminatorsDropsRun(s[1..]);
      var run, tail := LeadingRun(s), LeadingRun(s[1..]);
      assert |run| == |tail| + 1;
      forall k | 0 <= k < |run| ensures IsTerminator(run[k]) {
        if k > 0 {
          assert run[k] == tail[k - 1];
        }
      }
    }
  }

  /** Text before the first fragment stays in front of the whole. */
  lemma InterleaveCons(x: string, frags: seq<string>, runs: seq<string>)
    requires |runs| + 1 == |frags|
    ensures Interleave([x + frags[0]] + frags[1..], runs) == x + Interleave(frags, runs)
  {
    var fs := [x + frags[0]] + frags[1..];
    assert fs[1..] == frags[1..];
  }

  /** A leading run of terminators goes back in front of the rest. */
  lemma InterleaveAfterRun(run: string, frags: seq<string>, runs: seq<string>)
    requires |runs| + 1 == |frags|
    ensures Interleave([""] + frags, [run] + runs) == run + Interleave(frags, runs)
  {
    assert ([""] + frags)[1..] == frags;
    assert ([run] + runs)[1..] == runs;
  }

  /**
   * The split is exact: the text is its fragments with the runs of
   * terminators put back between them.
   */
  lemma {:induction false} FragmentsSplitText(s: string)
    ensures Interleave(Fragments(s), Runs(s)) == s
    decreases |s|
  {
    if s == [] {
    } else if IsTerminator(s[0]) {
      FragmentsSplitText(SkipTerminators(s));
      SplitTextAtRun(s);
    } else {
      FragmentsSplitText(s[1..]);
      SplitTextAtChar(s);
    }
  }

  lemma SplitTextAtRun(s: string)
    requires s != [] && IsTerminator(s[0])
    requires Interleave(Fragments(SkipTerminators(s)), Runs(SkipTerminators(s))) == SkipTerminators(s)
    ensures Interleave(Fragments(s), Runs(s)) == s
  {
    var rest := SkipTerminators(s);
    var run := LeadingRun(s);
    PiecesAtRun(s);
    InterleaveAfterRun(run, Fragments(rest), Runs(rest));
  }

  lemma PiecesAtRun(s: string)
    requires s != [] && IsTerminator(s[0])
    ensures Fragments(s) == [""] + Fragments(SkipTerminators(s))
    ensures Runs(s) == [LeadingRun(s)] + Runs(SkipTerminators(s))
    ensures s == LeadingRun(s) + SkipTerminators(s)
  {
  }

  lemma SplitTextAtChar(s: string)
    requires s != [] && !IsTerminator(s[0])
    requires Interleave(Fragments(s[1..]), Runs(s[1..])) == s[1..]
    ensures Interleave(Fragments(s), Runs(s)) == s
  {
    InterleaveCons([s[0]], Fragments(s[1..]), Runs(s[1..]));
    assert s == [s[0]] + s[1..];
  }

  /** Every cut falls on a maximal run: each run is non-empty and made of terminators only. */
  lemma {:induction false} RunsAreTerminators(s: string)
    ensures forall k :: 0 <= k < |Runs(s)| ==> Runs(s)[k] != [] && AllTerminators(Runs(s)[k])
    decreases |s|
  {
    if s == [] {
    } else if IsTerminator(s[0]) {
      var rest := SkipTerminators(s);
      RunsAreTerminators(rest);
      SkipTerminatorsDropsRun(s);
      assert forall k :: 1 <= k < |Runs(s)| ==> Runs(s)[k] == Runs(rest)[k - 1];
    } else {
      RunsAreTerminators(s[1..]);
    }
  }

  /** Sentences are picked fragment by fragment: two runs of fragments give their sentences one after the other. */
  lemma {:induction false} NonBlankAppend(a: seq<string>, b: seq<string>)
    ensures NonBlank(a + b) == NonBlank(a) + NonBlank(b)
    decreases |a|
  {
    if a == [] {
      assert a + b == b;
    } else {
      assert (a + b)[0] == a[0];
      assert (a + b)[1..] == a[1..] + b;
      NonBlankAppend(a[1..], b);
    }
  }

  /** A single fragment is a sentence exactly when its trimmed text is not empty. */
  lemma NonBlankOne(x: string)
    ensures Trim(x) == "" ==> NonBlank([x]) == []
    ensures Trim(x) != "" ==> NonBlank([x]) == [x]
  {
    assert [x][1..] == [];
  }

  /**
   * The sentences are the fragments, in order, that hold some non-space
   * text; none holds a terminator.
   */
  lemma SentencesAreFragments(text: string)
    ensures Sentences(text) == NonBlank(Fragments(text))
    ensures forall x :: x in Sentences(text) <==> x in Fragments(text) && Trim(x) != ""
    ensures forall x :: x in Sentences(text) ==> NoTerminator(x)
  {
    FragmentsAvoidTerminators(text);
  }

  // ---------------------------------------------------------------------------
  // Properties of the normalisation

  /**
   * Without provider segments, segment `i` comes from sentence `i`: it covers
   * `[i*1000, (i+1)*1000)` milliseconds, its text is the trimmed sentence with
   * "." appended whatever terminator ended it, and it has no words and no
   * keywords; consecutive segments touch.
   */
  lemma SynthesizedSegmentsShape(response: RawResponse)
    requires response.text != "" && response.segments == []
    ensures Normalize(response).Success?
    ensures var out := Normalize(response).value;
      var sentences := Sentences(response.text);
      && out.text == response.text
      && |out.segments| == |sentences|
      && (forall i :: 0 <= i < |out.segments| ==>
            && out.segments[i].start == i * 1000
            && out.segments[i].end == (i + 1) * 1000
            && out.segments[i].text == Trim(sentences[i]) + "."
            && out.segments[i].words == []
            && out.segments[i].keywords == [])
      && (forall i :: 0 <= i < |out.segments| - 1 ==> out.segments[i].end == out.segments[i + 1].start)
  {
  }

  /** A synthesised segment's text is never blank and always ends with ".". */
  lemma SynthesizedTextsEndWithPeriod(text: string)
    ensures forall s :: s in SynthesizedSegments(text) ==>
      |s.text| >= 2 && s.text[|s.text| - 1] == '.' && !IsSpace(s.text[0])
  {
    var segs := SynthesizedSegments(text);
    var sentences := Sentences(text);
    forall s | s in segs
      ensures |s.text| >= 2 && s.text[|s.text| - 1] == '.' && !IsSpace(s.text[0])
    {
      var i :| 0 <= i < |segs| && segs[i] == s;
      assert sentences[i] in sentences;
      PeriodText(Trim(sentences[i]));
    }
  }

  lemma PeriodText(t: string)
    requires t != [] && IsTrimmed(t)
    ensures var u := t + ".";
      |u| >= 2 && u[|u| - 1] == '.' && !IsSpace(u[0])
  {
    assert (t + ".")[0] == t[0];
  }

  /**
   * With provider segments, the output has one segment per input segment, in
   * order: the text kept, the times converted to rounded milliseconds, no
   * keywords, and the provider's words kept in order when it gave any.
   */
  lemma ProviderSegmentsConverted(response: RawResponse)
    requires response.text != "" && response.segments != []
    ensures Normalize(response).Success?
    ensures var out := Normalize(response).value;
      && out.text == response.text
      && |out.segments| == |response.segments|
      && forall i :: 0 <= i < |out.segments| ==>
           var raw := response.segments[i];
           && out.segments[i].text == raw.text
           && out.segments[i].start == ToMillis(raw.start)
           && out.segments[i].end == ToMillis(raw.end)
           && out.segments[i].keywords == []
           && (|raw.words| > 0 ==>
                 && |out.segments[i].words| == |raw.words|
                 && forall k :: 0 <= k < |raw.words| ==> out.segments[i].words[k] == ConvertWord(raw.words[k]))
           && (|raw.words| == 0 ==> |out.segments[i].words| == |Split(raw.text, " ")|)
  {
  }

  /** `n` equal parts of `[s, e]`, laid end to end, reach `e`. */
  lemma EqualParts(s: real, e: real, n: nat)
    requires n >= 1
    ensures s + (n as real) * ((e - s) / (n as real)) == e
  {
  }

  /** Word `i` of a segment without words, straight from the definition. */
  lemma WordAt(seg: RawSegment, i: nat)
    requires i < |SynthesizedWords(seg)|
    ensures var d := PartLength(seg);
      SynthesizedWords(seg)[i] ==
        RawWord(Split(seg.text, " ")[i], seg.start + (i as real) * d, seg.start + (i as real) * d + d)
  {
  }

  /** Words of span `d` each, the first starting at `s`, laid end to end. */
  predicate EvenlySpaced(ws: seq<RawWord>, s: real, d: real)
  {
    forall i :: 0 <= i < |ws| ==> ws[i].start == s + (i as real) * d && ws[i].end == ws[i].start + d
  }

  /** Evenly spaced words are back to back, and word `i` ends at `s + (i+1)*d`. */
  lemma EvenlySpacedEnds(ws: seq<RawWord>, s: real, d: real)
    requires EvenlySpaced(ws, s, d)
    ensures forall i :: 0 <= i < |ws| ==> ws[i].end == s + ((i + 1) as real) * d
    ensures forall i :: 0 <= i < |ws| - 1 ==> ws[i].end == ws[i + 1].start
  {
    forall i | 0 <= i < |ws| ensures ws[i].end == s + ((i + 1) as real) * d {
      NextPart(s, d, i);
    }
  }

  /** One more equal part ends one part further on. */
  lemma NextPart(s: real, d: real, i: nat)
    ensures s + (i as real) * d + d == s + ((i + 1) as real) * d
  {
  }

  lemma SynthesizedWordsEvenlySpaced(seg: RawSegment)
    ensures EvenlySpaced(SynthesizedWords(seg), seg.start, PartLength(seg))
  {
    var ws := SynthesizedWords(seg);
    forall i | 0 <= i < |ws|
      ensures ws[i].start == seg.start + (i as real) * PartLength(seg)
      ensures ws[i].end == ws[i].start + PartLength(seg)
    {
      WordAt(seg, i);
    }
  }

  /**
   * Made-up words: word `i` is piece `i` of the text split on single spaces
   * and spans `[s + i*d, s + (i+1)*d]` with `d = (e - s) / n`.
   */
  lemma SynthesizedWordsSpans(seg: RawSegment)
    ensures var ws := SynthesizedWords(seg);
      var d := PartLength(seg);
      && |ws| >= 1
      && d == (seg.end - seg.start) / (|ws| as real)
      && (forall i :: 0 <= i < |ws| ==> ws[i].word == Split(seg.text, " ")[i])
      && (forall i :: 0 <= i < |ws| ==> ws[i].start == seg.start + (i as real) * d)
      && (forall i :: 0 <= i < |ws| ==> ws[i].end == seg.start + ((i + 1) as real) * d)
  {
    SynthesizedWordTexts(seg);
    SynthesizedWordsEvenlySpaced(seg);
    EvenlySpacedEnds(SynthesizedWords(seg), seg.start, PartLength(seg));
  }

  lemma SynthesizedWordTexts(seg: RawSegment)
    ensures var ws := SynthesizedWords(seg);
      && PartLength(seg) == (seg.end - seg.start) / (|ws| as real)
      && forall i :: 0 <= i < |ws| ==> ws[i].word == Split(seg.text, " ")[i]
  {
    var ws := SynthesizedWords(seg);
    forall i | 0 <= i < |ws| ensures ws[i].word == Split(seg.text, " ")[i] {
      WordAt(seg, i);
    }
  }

  /** Each made-up word starts where the one before it ended. */
  lemma WordsContiguous(seg: RawSegment)
    ensures var ws := SynthesizedWords(seg);
      forall i :: 0 <= i < |ws| - 1 ==> ws[i].end == ws[i + 1].start
  {
    SynthesizedWordsEvenlySpaced(seg);
    EvenlySpacedEnds(SynthesizedWords(seg), seg.start, PartLength(seg));
  }

  /** The first made-up word starts where the segment starts, the last ends where it ends. */
  lemma WordsCoverSegment(seg: RawSegment)
    ensures var ws := SynthesizedWords(seg);
      ws[0].start == seg.start && ws[|ws| - 1].end == seg.end
  {
    var ws := SynthesizedWords(seg);
    SynthesizedWordsEvenlySpaced(seg);
    EvenlySpacedCover(ws, seg.start, seg.end);
  }

  /** Words cutting `[s, e]` into equal parts start at `s` and end at `e`. */
  lemma EvenlySpacedCover(ws: seq<RawWord>, s: real, e: real)
    requires |ws| >= 1 && EvenlySpaced(ws, s, (e - s) / (|ws| as real))
    ensures ws[0].start == s && ws[|ws| - 1].end == e
  {
    var n := |ws|;
    var d := (e - s) / (n as real);
    EvenlySpacedEnds(ws, s, d);
    assert ws[n - 1].end == s + (n as real) * d;
    EqualParts(s, e, n);
  }

  /** The made-up words, joined with single spaces, give the segment text back. */
  lemma SynthesizedWordsSpellText(seg: RawSegment)
    ensures var ws := SynthesizedWords(seg);
      Join(seq(|ws|, i requires 0 <= i < |ws| => ws[i].word), " ") == seg.text
  {
    var ws := SynthesizedWords(seg);
    assert seq(|ws|, i requires 0 <= i < |ws| => ws[i].word) == Split(seg.text, " ");
    JoinSplit(seg.text, " ");
  }

  /**
   * After rounding to milliseconds, the made-up words still start where the
   * segment starts, end where it ends and sit back to back; for a segment
   * whose end is not before its start, each word's times are also in order.
   */
  lemma SynthesizedWordsMillis(seg: RawSegment)
    requires seg.words == []
    ensures var out := ConvertSegment(seg);
      var n := |out.words|;
      && n >= 1
      && out.words[0].start == out.start
      && out.words[n - 1].end == out.end
      && (seg.start <= seg.end ==> forall i :: 0 <= i < n ==> out.words[i].start <= out.words[i].end)
      && (forall i :: 0 <= i < n - 1 ==> out.words[i].end == out.words[i + 1].start)
  {
    var ws := SynthesizedWords(seg);
    SynthesizedWordsSpans(seg);
    WordsContiguous(seg);
    WordsCoverSegment(seg);
    var n := |ws|;
    if seg.start <= seg.end {
      assert PartLength(seg) >= 0.0;
      forall i | 0 <= i < n ensures ToMillis(ws[i].start) <= ToMillis(ws[i].end) {
        RoundMonotone(ws[i].start * 1000.0, ws[i].end * 1000.0);
      }
    }
  }
}
