/**
 * The recipe extractor of functions/src/recipe-generation.ts: the heuristic
 * parser `parseRecipeText`, which recovers `{title, ingredients, steps}` from
 * free-form completion text, and the fixed template `formatRecipeAsMarkdown`.
 */
module RecipeText {
  import opened Wrappers
  import opened Strings

  datatype Recipe = Recipe(title: string, ingredients: seq<string>, steps: seq<string>)

  /** Sections are separated by the literal string "\n\n". */
  function Sections(text: string): (r: seq<string>)
    ensures |r| >= 1
  {
    Split(text, "\n\n")
  }

  function Lines(s: string): (r: seq<string>)
    ensures |r| >= 1
  {
    Split(s, "\n")
  }

  /** Removes the leading run of '#' (the regular expression `^#*`). */
  function DropHashes(s: string): (r: string)
    ensures |r| <= |s| && r == s[|s| - |r|..]
    ensures r == [] || r[0] != '#'
    ensures forall i :: 0 <= i < |s| - |r| ==> s[i] == '#'
    decreases |s|
  {
    if s != [] && s[0] == '#' then DropHashes(s[1..]) else s
  }

  lemma DropHashesKeeps(s: string)
    requires s == [] || s[0] != '#'
    ensures DropHashes(s) == s
  {
  }

  /** An optional `Title:` label and the spaces after it removed. */
  function StripLabel(b: string): (r: string)
    ensures IsSuffix(r, b)
    ensures (b == [] || !IsSpace(b[0])) ==> r == [] || !IsSpace(r[0])
  {
    if IsPrefix("Title:", b) then
      var c := TrimStart(b[6..]);
      DropIsSuffix(b, 6);
      SuffixOfSuffix(c, b[6..], b);
      c
    else b
  }

  /** The title line's prefix `^#*\s*(?:Title:\s*)?` removed. */
  function StripTitlePrefix(s: string): (r: string)
    ensures IsSuffix(r, s)
    ensures r == [] || !IsSpace(r[0])
  {
    var a := DropHashes(s);
    var b := TrimStart(a);
    SuffixOfSuffix(a, s, s);
    SuffixOfSuffix(b, a, s);
    var c := StripLabel(b);
    SuffixTransitive(c, b, s);
    c
  }

  function ParseTitle(firstSection: string): string
  {
    Trim(StripTitlePrefix(firstSection))
  }

  /** The first index whose element satisfies `p` (the element `Array.prototype.find` returns). */
  function FindIndex(xs: seq<string>, p: string -> bool): (r: Option<nat>)
    ensures r.Some? ==> r.value < |xs| && p(xs[r.value])
    ensures r.Some? ==> forall j :: 0 <= j < r.value ==> !p(xs[j])
    ensures r.None? ==> forall j :: 0 <= j < |xs| ==> !p(xs[j])
    decreases |xs|
  {
    if xs == [] then None
    else if p(xs[0]) then Some(0)
    else
      match FindIndex(xs[1..], p)
      case None => None
      case Some(k) => Some(k + 1)
  }

  lemma FindIndexNone(xs: seq<string>, p: string -> bool)
    requires forall j :: 0 <= j < |xs| ==> !p(xs[j])
    ensures FindIndex(xs, p) == None
  {
  }

  predicate MentionsIngredients(section: string)
  {
    Contains(ToLower(section), "ingredients")
  }

  predicate MentionsSteps(section: string)
  {
    var lower := ToLower(section);
    Contains(lower, "instructions") || Contains(lower, "steps")
    || Contains(lower, "directions") || Contains(lower, "method")
  }

  /**
   * An ingredient line's bullet `^[-*]\s*` removed: something goes exactly
   * when the line opens with `-` or `*`, and then that one character and the
   * whitespace after it go, no more.
   */
  function StripBullet(line: string): (r: string)
    ensures IsSuffix(r, line)
    ensures |r| < |line| <==> line != [] && (line[0] == '-' || line[0] == '*')
    ensures forall i :: 1 <= i < |line| - |r| ==> IsSpace(line[i])
    ensures |r| < |line| ==> r == [] || !IsSpace(r[0])
  {
    if line != [] && (line[0] == '-' || line[0] == '*') then
      DropMarker(line);
      TrimStart(line[1..])
    else line
  }

  function CleanIngredient(line: string): string
  {
    Trim(StripBullet(line))
  }

  /** The length of the run of decimal digits that starts `s`. */
  function LeadingDigits(s: string): (n: nat)
    ensures n <= |s|
    ensures forall i :: 0 <= i < n ==> IsDigit(s[i])
    ensures n == |s| || !IsDigit(s[n])
    decreases |s|
  {
    if s != [] && IsDigit(s[0]) then 1 + LeadingDigits(s[1..]) else 0
  }

  /**
   * A step line's number `^\d+\.\s*` removed: something goes exactly when
   * the line opens with a digit run and a dot, and then the whole run, the
   * dot and the whitespace after it go, no more.
   */
  function StripStepNumber(line: string): (r: string)
    ensures IsSuffix(r, line)
    ensures |r| < |line| <==>
      0 < LeadingDigits(line) < |line| && line[LeadingDigits(line)] == '.'
    ensures |r| < |line| ==>
      LeadingDigits(line) < |line| - |r|
      && forall i :: LeadingDigits(line) < i < |line| - |r| ==> IsSpace(line[i])
    ensures |r| < |line| ==> r == [] || !IsSpace(r[0])
  {
    var n := LeadingDigits(line);
    if 0 < n < |line| && line[n] == '.' then
      DropNumber(line, n);
      TrimStart(line[n + 1..])
    else line
  }

  /** A digit run, its dot and the whitespace after them removed. */
  lemma DropNumber(s: string, n: nat)
    requires n < |s|
    ensures var r := TrimStart(s[n + 1..]);
      && IsSuffix(r, s) && n < |s| - |r|
      && forall i :: n < i < |s| - |r| ==> IsSpace(s[i])
  {
    var r := TrimStart(s[n + 1..]);
    DropIsSuffix(s, n + 1);
    SuffixOfSuffix(r, s[n + 1..], s);
    TrimStartDropsSpaces(s[n + 1..]);
    forall i | n < i < |s| - |r| ensures IsSpace(s[i]) {
      assert s[i] == s[n + 1..][i - n - 1];
    }
  }

  function CleanStep(line: string): string
  {
    Trim(StripStepNumber(line))
  }

  /** The line matches `^\d+\.\s`: digits, a dot, then a whitespace character. */
  predicate IsNumberedLine(line: string)
  {
    var n := LeadingDigits(line);
    0 < n && n + 1 < |line| && line[n] == '.' && IsSpace(line[n + 1])
  }

  /** `lines.map(clean).filter(x => x.length > 0)`. */
  function CleanLines(lines: seq<string>, clean: string -> string): (r: seq<string>)
    ensures |r| <= |lines|
    ensures forall x :: x in r <==> x != "" && exists l :: l in lines && clean(l) == x
    decreases |lines|
  {
    if lines == [] then []
    else
      var c := clean(lines[0]);
      var rest := CleanLines(lines[1..], clean);
      assert forall l :: l in lines <==> l == lines[0] || l in lines[1..];
      if c == "" then rest else [c] + rest
  }

  /** Cleaning goes line by line: two runs of lines give their entries one after the other. */
  lemma {:induction false} CleanLinesAppend(a: seq<string>, b: seq<string>, clean: string -> string)
    ensures CleanLines(a + b, clean) == CleanLines(a, clean) + CleanLines(b, clean)
    decreases |a|
  {
    if a == [] {
      assert a + b == b;
    } else {
      assert (a + b)[0] == a[0];
      assert (a + b)[1..] == a[1..] + b;
      CleanLinesAppend(a[1..], b, clean);
    }
  }

  /** A single line gives its cleaned text, or nothing when that is empty. */
  lemma CleanLinesOne(line: string, clean: string -> string)
    ensures clean(line) == "" ==> CleanLines([line], clean) == []
    ensures clean(line) != "" ==> CleanLines([line], clean) == [clean(line)]
  {
    assert [line][1..] == [];
  }

  /** The cleaned body of the first section satisfying `header`, or nothing when none does. */
  function SectionEntries(sections: seq<string>, header: string -> bool, clean: string -> string): seq<string>
  {
    match FindIndex(sections, header)
    case None => []
    case Some(k) => CleanLines(Lines(sections[k])[1..], clean)
  }

  function IngredientsOf(sections: seq<string>): seq<string>
  {
    SectionEntries(sections, MentionsIngredients, CleanIngredient)
  }

  function PrimaryStepsOf(sections: seq<string>): seq<string>
  {
    SectionEntries(sections, MentionsSteps, CleanStep)
  }

  /** `lines.filter(keep).map(clean)`. */
  function Pick(lines: seq<string>, keep: string -> bool, clean: string -> string): (r: seq<string>)
    ensures |r| <= |lines|
    decreases |lines|
  {
    if lines == [] then []
    else (if keep(lines[0]) then [clean(lines[0])] else []) + Pick(lines[1..], keep, clean)
  }

  /** `sections.flatMap(section => Pick(section.split('\n'), keep, clean))`. */
  function PickPerSection(sections: seq<string>, keep: string -> bool, clean: string -> string): seq<string>
    decreases |sections|
  {
    if sections == [] then []
    else Pick(Lines(sections[0]), keep, clean) + PickPerSection(sections[1..], keep, clean)
  }

  /** The lines matching `^\d+\.\s`, each cleaned as a step. */
  function NumberedEntries(lines: seq<string>): seq<string>
  {
    Pick(lines, IsNumberedLine, CleanStep)
  }

  /** The fallback: numbered lines gathered section by section. */
  function NumberedSteps(sections: seq<string>): seq<string>
  {
    PickPerSection(sections, IsNumberedLine, CleanStep)
  }

  /** `parseRecipeText`: total, never reports an error. */
  function ParseRecipeText(text: string): (r: Recipe)
    ensures IsTrimmed(r.title)
  {
    var sections := Sections(text);
    var primary := PrimaryStepsOf(sections);
    Recipe(
      ParseTitle(sections[0]),
      IngredientsOf(sections),
      if |primary| > 0 then primary else NumberedSteps(sections))
  }

  // ---------------------------------------------------------------------------
  // Properties of the parser

  lemma PrefixTransitive(p: string, x: string, s: string)
    requires IsPrefix(p, x) && IsPrefix(x, s)
    ensures IsPrefix(p, s)
  {
    assert s[..|p|] == x[..|p|];
  }

  lemma {:induction false} SplitFirstIsPrefix(s: string, sep: string)
    requires sep != []
    ensures IsPrefix(Split(s, sep)[0], s)
    decreases |s|
  {
    if IsPrefix(sep, s) || s == [] {
    } else {
      SplitFirstIsPrefix(s[1..], sep);
      var t := Split(s[1..], sep);
      assert s[..|t[0]| + 1] == [s[0]] + s[1..][..|t[0]|];
    }
  }

  /** No piece of a split contains the separator. */
  lemma {:induction false} SplitPiecesAvoidSeparator(s: string, sep: string)
    requires sep != []
    ensures forall k :: 0 <= k < |Split(s, sep)| ==> !IsInfix(sep, Split(s, sep)[k])
    decreases |s|
  {
    var r := Split(s, sep);
    if IsPrefix(sep, s) {
      SplitPiecesAvoidSeparator(s[|sep|..], sep);
      assert !IsInfix(sep, "") by {
        forall i, j | 0 <= i <= j <= 0 ensures ""[i..j] != sep { }
      }
      assert forall k :: 1 <= k < |r| ==> r[k] == Split(s[|sep|..], sep)[k - 1];
    } else if s == [] {
      assert !IsInfix(sep, "") by {
        forall i, j | 0 <= i <= j <= 0 ensures ""[i..j] != sep { }
      }
    } else {
      SplitPiecesAvoidSeparator(s[1..], sep);
      var t := Split(s[1..], sep);
      var x := [s[0]] + t[0];
      SplitFirstIsPrefix(s[1..], sep);
      assert IsPrefix(x, s) by {
        assert s[..|x|] == [s[0]] + s[1..][..|t[0]|];
      }
      assert !IsPrefix(sep, x) by {
        if IsPrefix(sep, x) {
          PrefixTransitive(sep, x, s);
        }
      }
      assert x[1..] == t[0];
      InfixCases(sep, x);
      assert forall k :: 1 <= k < |r| ==> r[k] == t[k];
    }
  }

  lemma InfixOfSlice(r: string, s: string, i: int, j: int)
    requires 0 <= i <= j <= |s| && IsInfix(r, s[i..j])
    ensures IsInfix(r, s)
  {
    var a, b :| 0 <= a <= b <= j - i && s[i..j][a..b] == r;
    assert s[i + a..i + b] == s[i..j][a..b] by {
      forall k | 0 <= k < b - a ensures s[i + a..i + b][k] == s[i..j][a..b][k] {
        assert s[i + a..i + b][k] == s[i + a + k];
        assert s[i..j][a..b][k] == s[i..j][a + k] == s[i + a + k];
      }
    }
  }

  lemma InfixOfSuffix(r: string, t: string, s: string)
    requires IsInfix(r, t) && IsSuffix(t, s)
    ensures IsInfix(r, s)
  {
    var i, j :| 0 <= i <= j <= |t| && t[i..j] == r;
    var d := |s| - |t|;
    assert t == s[d..];
    forall k | 0 <= k < j - i
      ensures s[d + i..d + j][k] == t[i..j][k]
    {
      assert s[d + i..d + j][k] == s[d + i + k] == t[i + k];
    }
    assert s[d + i..d + j] == t[i..j];
  }

  lemma TrimOfSuffixIsInfix(t: string, s: string)
    requires IsSuffix(t, s)
    ensures IsInfix(Trim(t), s)
  {
    TrimIsInfix(t);
    InfixOfSuffix(Trim(t), t, s);
  }

  lemma ParseTitleIsInfix(first: string)
    ensures IsInfix(ParseTitle(first), first)
  {
    TrimOfSuffixIsInfix(StripTitlePrefix(first), first);
  }

  /**
   * The title is a trimmed piece of the first section, and the first section is
   * the text up to the first blank-line separator: it never reaches past it.
   */
  lemma ParsedTitle(text: string)
    ensures var first := Sections(text)[0];
      && IsPrefix(first, text)
      && !IsInfix("\n\n", first)
      && IsTrimmed(ParseRecipeText(text).title)
      && IsInfix(ParseRecipeText(text).title, first)
      && IsInfix(ParseRecipeText(text).title, text)
  {
    var first := Sections(text)[0];
    SplitFirstIsPrefix(text, "\n\n");
    SplitPiecesAvoidSeparator(text, "\n\n");
    ParseTitleIsInfix(first);
    InfixOfSlice(ParseTitle(first), text, 0, |first|);
  }

  // The rules of `^#*\s*(?:Title:\s*)?` followed by `trim()`. Together the
  // five rules below fix the title prefix of every string: a leading '#' is
  // dropped; a whitespace character is dropped unless the rest starts with
  // '#', and then that '#' is kept; a leading "Title:" (as written, case
  // included) is dropped with the whitespace after it; anything else is kept.

  lemma TitleHashDropped(s: string)
    ensures StripTitlePrefix("#" + s) == StripTitlePrefix(s)
  {
    assert ("#" + s)[1..] == s;
    assert DropHashes("#" + s) == DropHashes(s);
  }

  lemma TitleSpaceDropped(c: char, s: string)
    requires IsSpace(c) && (s == [] || s[0] != '#')
    ensures StripTitlePrefix([c] + s) == StripTitlePrefix(s)
  {
    assert ([c] + s)[1..] == s;
    DropHashesKeeps([c] + s);
    DropHashesKeeps(s);
    TrimStartSpace(c, s);
  }

  /** Once whitespace has been passed, a '#' is part of the title. */
  lemma TitleHashAfterSpaceKept(c: char, h: string)
    requires IsSpace(c) && h != [] && h[0] == '#'
    ensures StripTitlePrefix([c] + h) == h
  {
    TitlePrefixWithoutHash([c] + h);
    TrimStartPastSpace(c, h);
    NotTitleLabel(h);
  }

  lemma TrimStartPastSpace(c: char, h: string)
    requires IsSpace(c) && (h == [] || !IsSpace(h[0]))
    ensures TrimStart([c] + h) == h
  {
    TrimStartSpace(c, h);
    TrimStartKeeps(h);
  }

  /** Text that does not open with 'T' carries no label. */
  lemma NotTitleLabel(h: string)
    requires h == [] || h[0] != 'T'
    ensures !IsPrefix("Title:", h)
  {
    if |h| >= 6 {
      assert h[..6][0] == h[0];
    }
  }

  /** The label is matched once: a second "Title:" after it is kept. */
  lemma TitleLabelDropped(s: string)
    ensures StripTitlePrefix("Title:" + s) == TrimStart(s)
  {
    var t := "Title:" + s;
    assert t[6..] == s;
    assert t[0] == 'T';
    DropHashesKeeps(t);
    TrimStartKeeps(t);
    assert t[..6] == "Title:";
    assert StripLabel(t) == TrimStart(s);
  }

  lemma TitlePlainKept(s: string)
    requires s == [] || (s[0] != '#' && !IsSpace(s[0]) && !IsPrefix("Title:", s))
    ensures StripTitlePrefix(s) == s
  {
    DropHashesKeeps(s);
    TrimStartKeeps(s);
    assert StripLabel(s) == s;
  }

  /**
   * A first section that opens with no '#' and, after its leading whitespace,
   * with no "Title:" label is simply trimmed.
   */
  lemma ParseTitleOfPlain(s: string)
    requires !IsPrefix("#", s) && !IsPrefix("Title:", TrimStart(s))
    ensures ParseTitle(s) == Trim(s)
  {
    assert s == [] || s[0] != '#';
    TitlePrefixWithoutHash(s);
    StripLabelKeeps(TrimStart(s));
    TrimOfTrimStart(s);
  }

  lemma TitlePrefixWithoutHash(s: string)
    requires s == [] || s[0] != '#'
    ensures StripTitlePrefix(s) == StripLabel(TrimStart(s))
  {
    DropHashesKeeps(s);
  }

  lemma StripLabelKeeps(b: string)
    requires !IsPrefix("Title:", b)
    ensures StripLabel(b) == b
  {
  }

  lemma TrimOfTrimStart(s: string)
    ensures Trim(TrimStart(s)) == Trim(s)
  {
    TrimStartKeeps(TrimStart(s));
  }

  /**
   * A blank-line separator neither inside `a` nor completed by its last
   * character: every line feed in `a` is followed, within `a`, by a character
   * that is not one.
   */
  predicate SingleBreaks(a: string)
  {
    forall i :: 0 <= i < |a| && a[i] == '\n' ==> i + 1 < |a| && a[i + 1] != '\n'
  }

  lemma SingleBreaksOfTail(a: string)
    requires a != [] && SingleBreaks(a)
    ensures SingleBreaks(a[1..])
  {
    forall i | 0 <= i < |a[1..]| && a[1..][i] == '\n'
      ensures i + 1 < |a[1..]| && a[1..][i + 1] != '\n'
    {
      assert a[i + 1] == '\n';
    }
  }

  /** A non-empty string with single breaks does not open with a separator. */
  lemma NoSeparatorAtStart(a: string, s: string)
    requires a != [] && SingleBreaks(a) && IsPrefix(a, s)
    ensures !IsPrefix("\n\n", s)
  {
    assert s[0] == a[0];
    if a[0] == '\n' {
      assert s[1] == a[1] != '\n';
    }
  }

  /** The first separator after `a` is the one that follows it. */
  lemma {:induction false} SplitAtFirstSectionBreak(a: string, rest: string)
    requires SingleBreaks(a)
    ensures Split(a + "\n\n" + rest, "\n\n") == [a] + Split(rest, "\n\n")
    decreases |a|
  {
    var s := a + "\n\n" + rest;
    if a == [] {
      assert s[..2] == "\n\n";
      assert s[2..] == rest;
    } else {
      assert s[..|a|] == a;
      NoSeparatorAtStart(a, s);
      assert s[1..] == a[1..] + "\n\n" + rest;
      SingleBreaksOfTail(a);
      SplitAtFirstSectionBreak(a[1..], rest);
      assert a == [a[0]] + a[1..];
    }
  }

  /** A string with single breaks is one section. */
  lemma {:induction false} SplitSingleSection(a: string)
    requires SingleBreaks(a)
    ensures Split(a, "\n\n") == [a]
    decreases |a|
  {
    if a != [] {
      assert a[..|a|] == a;
      NoSeparatorAtStart(a, a);
      SingleBreaksOfTail(a);
      SplitSingleSection(a[1..]);
      assert a == [a[0]] + a[1..];
    }
  }

  /** Whatever follows the first blank line leaves the title unchanged. */
  lemma TitleIgnoresLaterSections(a: string, rest: string)
    requires SingleBreaks(a)
    ensures ParseRecipeText(a + "\n\n" + rest).title == ParseRecipeText(a).title == ParseTitle(a)
  {
    SplitAtFirstSectionBreak(a, rest);
    SplitSingleSection(a);
  }

  lemma NoLineBreak(x: string)
    requires '\n' !in x
    ensures '\n' !in "# Title: " + x
  {
    forall k | 0 <= k < |"# Title: " + x| ensures ("# Title: " + x)[k] != '\n' {
      if k >= 9 {
        assert ("# Title: " + x)[k] == x[k - 9];
      }
    }
  }

  /** The line "# Title: " followed by a trimmed title gives that title back; an empty title is accepted as it is. */
  lemma TitleLabelLine(x: string)
    requires IsTrimmed(x)
    ensures ParseTitle("# Title: " + x) == x
  {
    var tagged := "Title:" + (" " + x);
    assert "# Title: " + x == "#" + ([' '] + tagged);
    TitleHashDropped([' '] + tagged);
    assert tagged[0] == 'T';
    TitleSpaceDropped(' ', tagged);
    TitleLabelDropped(" " + x);
    TrimStartSpace(' ', x);
    TrimStartKeeps(x);
    TrimmedIsFixpoint(x);
  }

  /**
   * A recipe that opens with the line "# Title: " and a trimmed title, then a
   * blank line and anything at all, is given that title.
   */
  lemma TitleLabelRemoved(x: string, rest: string)
    requires IsTrimmed(x) && '\n' !in x
    ensures ParseRecipeText("# Title: " + x + "\n\n" + rest).title == x
  {
    NoLineBreak(x);
    TitleIgnoresLaterSections("# Title: " + x, rest);
    TitleLabelLine(x);
  }

  /** When section `k` is the first to satisfy `header`, the entries are its cleaned body. */
  lemma SectionEntriesAt(sections: seq<string>, header: string -> bool, clean: string -> string, k: nat)
    requires k < |sections| && header(sections[k])
    requires forall j :: 0 <= j < k ==> !header(sections[j])
    ensures SectionEntries(sections, header, clean) == CleanLines(Lines(sections[k])[1..], clean)
  {
    var r := FindIndex(sections, header);
    assert r == Some(k);
  }

  /** The entries of the first matching section are exactly its non-empty cleaned body lines. */
  lemma SectionEntriesFromFirstMatch(sections: seq<string>, header: string -> bool, clean: string -> string, k: nat)
    requires k < |sections| && header(sections[k])
    requires forall j :: 0 <= j < k ==> !header(sections[j])
    ensures var body := Lines(sections[k])[1..];
      var entries := SectionEntries(sections, header, clean);
      && |entries| <= |body|
      && forall x :: x in entries <==> x != "" && exists l :: l in body && clean(l) == x
  {
    SectionEntriesAt(sections, header, clean, k);
  }

  /** A steps section that yields any step wins over the fallback. */
  lemma StepsPreferPrimary(text: string)
    ensures PrimaryStepsOf(Sections(text)) != [] ==> ParseRecipeText(text).steps == PrimaryStepsOf(Sections(text))
  {
  }

  lemma SectionEntriesAreClean(sections: seq<string>, header: string -> bool, clean: string -> string)
    requires forall l :: IsTrimmed(clean(l))
    ensures forall x :: x in SectionEntries(sections, header, clean) ==> x != "" && IsTrimmed(x)
  {
  }

  /** Every ingredient is non-empty and trimmed. */
  lemma IngredientsAreClean(text: string)
    ensures forall x :: x in ParseRecipeText(text).ingredients ==> x != "" && IsTrimmed(x)
  {
    assert ParseRecipeText(text).ingredients == IngredientsOf(Sections(text));
    SectionEntriesAreClean(Sections(text), MentionsIngredients, CleanIngredient);
  }

  /**
   * The ingredients come from the first section (the title section included)
   * whose lower-case text contains "ingredients": its lines after the first,
   * each without its bullet and trimmed, empties dropped.
   */
  lemma IngredientsFromFirstMatch(text: string, k: nat)
    requires k < |Sections(text)| && MentionsIngredients(Sections(text)[k])
    requires forall j :: 0 <= j < k ==> !MentionsIngredients(Sections(text)[j])
    ensures var body := Lines(Sections(text)[k])[1..];
      && ParseRecipeText(text).ingredients == CleanLines(body, CleanIngredient)
      && |ParseRecipeText(text).ingredients| <= |body|
      && forall x :: x in ParseRecipeText(text).ingredients <==>
           x != "" && exists l :: l in body && CleanIngredient(l) == x
  {
    SectionEntriesAt(Sections(text), MentionsIngredients, CleanIngredient, k);
    SectionEntriesFromFirstMatch(Sections(text), MentionsIngredients, CleanIngredient, k);
  }

  /** No section mentions ingredients: the list is empty, not an error. */
  lemma NoIngredientsSection(text: string)
    requires forall j :: 0 <= j < |Sections(text)| ==> !MentionsIngredients(Sections(text)[j])
    ensures ParseRecipeText(text).ingredients == []
  {
    var sections := Sections(text);
    assert ParseRecipeText(text).ingredients == IngredientsOf(sections);
    FindIndexNone(sections, MentionsIngredients);
  }

  /**
   * The steps come from the first section whose lower-case text contains
   * "instructions", "steps", "directions" or "method", header line skipped,
   * numbers stripped, trimmed, empties dropped; a non-empty list is returned as is.
   */
  lemma PrimaryStepsFromFirstMatch(text: string, k: nat)
    requires k < |Sections(text)| && MentionsSteps(Sections(text)[k])
    requires forall j :: 0 <= j < k ==> !MentionsSteps(Sections(text)[j])
    ensures var body := Lines(Sections(text)[k])[1..];
      var primary := PrimaryStepsOf(Sections(text));
      && primary == CleanLines(body, CleanStep)
      && (forall x :: x in primary <==> x != "" && exists l :: l in body && CleanStep(l) == x)
      && (primary != [] ==> ParseRecipeText(text).steps == primary)
      && (forall x :: x in primary ==> IsTrimmed(x))
  {
    SectionEntriesAt(Sections(text), MentionsSteps, CleanStep, k);
    SectionEntriesFromFirstMatch(Sections(text), MentionsSteps, CleanStep, k);
    StepsPreferPrimary(text);
    SectionEntriesAreClean(Sections(text), MentionsSteps, CleanStep);
  }

  lemma {:induction false} PickAppend(a: seq<string>, b: seq<string>, keep: string -> bool, clean: string -> string)
    ensures Pick(a + b, keep, clean) == Pick(a, keep, clean) + Pick(b, keep, clean)
    decreases |a|
  {
    if a == [] {
      assert a + b == b;
    } else {
      var head := if keep(a[0]) then [clean(a[0])] else [];
      assert (a + b)[0] == a[0];
      assert (a + b)[1..] == a[1..] + b;
      assert Pick(a + b, keep, clean) == head + Pick(a[1..] + b, keep, clean);
      PickAppend(a[1..], b, keep, clean);
      assert Pick(a, keep, clean) == head + Pick(a[1..], keep, clean);
    }
  }

  /** The lines of two sections joined by a blank line: a blank line sits between them. */
  lemma LinesAcrossSectionBreak(a: string, b: string)
    ensures Lines(a + "\n\n" + b) == Lines(a) + ([""] + Lines(b))
  {
    assert a + "\n\n" + b == a + ['\n'] + ([] + ['\n'] + b);
    SplitAtSeparator(a, [] + ['\n'] + b, '\n');
    SplitAtSeparator([], b, '\n');
  }

  /**
   * Picking lines section by section is picking them from the whole text,
   * as long as the blank lines between sections are never kept.
   */
  lemma {:induction false} PickPerSectionOfJoin(xs: seq<string>, keep: string -> bool, clean: string -> string)
    requires |xs| >= 1 && !keep("")
    ensures Pick(Lines(Join(xs, "\n\n")), keep, clean) == PickPerSection(xs, keep, clean)
    decreases |xs|
  {
    if |xs| == 1 {
      assert PickPerSection(xs[1..], keep, clean) == [];
    } else {
      PickPerSectionOfJoin(xs[1..], keep, clean);
      var rest := Join(xs[1..], "\n\n");
      assert Join(xs, "\n\n") == xs[0] + "\n\n" + rest;
      PickAcrossSectionBreak(xs[0], rest, keep, clean);
    }
  }

  /** The blank line between two sections contributes nothing when blank lines are never kept. */
  lemma PickAcrossSectionBreak(a: string, b: string, keep: string -> bool, clean: string -> string)
    requires !keep("")
    ensures Pick(Lines(a + "\n\n" + b), keep, clean) == Pick(Lines(a), keep, clean) + Pick(Lines(b), keep, clean)
  {
    LinesAcrossSectionBreak(a, b);
    PickAppend(Lines(a), [""] + Lines(b), keep, clean);
    PickAppend([""], Lines(b), keep, clean);
    assert Pick([""], keep, clean) == [] by {
      assert ([""])[1..] == [];
    }
  }

  /**
   * When no steps section yields a step, the steps are every line of the whole
   * text that matches `^\d+\.\s`, in document order, each with its number
   * stripped and trimmed (and not filtered for emptiness).
   */
  lemma FallbackStepsAreNumberedLines(text: string)
    requires PrimaryStepsOf(Sections(text)) == []
    ensures ParseRecipeText(text).steps == NumberedEntries(Split(text, "\n"))
  {
    var sections := Sections(text);
    assert ParseRecipeText(text).steps == PickPerSection(sections, IsNumberedLine, CleanStep);
    JoinSplit(text, "\n\n");
    assert !IsNumberedLine("");
    PickPerSectionOfJoin(sections, IsNumberedLine, CleanStep);
  }

  /** Picking keeps exactly the lines `keep` accepts, each as `clean` renders it. */
  lemma {:induction false} PickSelect(lines: seq<string>, keep: string -> bool, clean: string -> string)
    ensures forall x :: x in Pick(lines, keep, clean) <==>
      exists l :: l in lines && keep(l) && clean(l) == x
    decreases |lines|
  {
    if lines != [] {
      PickSelect(lines[1..], keep, clean);
      assert forall l :: l in lines <==> l == lines[0] || l in lines[1..];
    }
  }

  /** The fallback keeps exactly the numbered lines, whatever their cleaned text. */
  lemma NumberedEntriesSelect(lines: seq<string>)
    ensures forall x :: x in NumberedEntries(lines) <==>
      exists l :: l in lines && IsNumberedLine(l) && CleanStep(l) == x
  {
    PickSelect(lines, IsNumberedLine, CleanStep);
  }

  /**
   * A fallback step can be empty: a numbered line with only whitespace after
   * its dot, such as "1. ", is kept and yields "".
   */
  lemma FallbackStepMayBeEmpty(d: char, w: string)
    requires IsDigit(d) && w != [] && forall i :: 0 <= i < |w| ==> IsSpace(w[i])
    ensures IsNumberedLine([d, '.'] + w) && CleanStep([d, '.'] + w) == ""
  {
    var line := [d, '.'] + w;
    OneDigitThenDot(d, w);
    assert line[1] == '.' && line[2] == w[0];
    assert line[2..] == w;
    assert StripStepNumber(line) == TrimStart(w);
    AllSpaceTrimsAway(w);
  }

  lemma OneDigitThenDot(d: char, w: string)
    requires IsDigit(d)
    ensures LeadingDigits([d, '.'] + w) == 1
  {
    var line := [d, '.'] + w;
    assert line[1..] == ['.'] + w;
    assert LeadingDigits(['.'] + w) == 0;
  }

  lemma AllSpaceTrimsAway(w: string)
    requires forall i :: 0 <= i < |w| ==> IsSpace(w[i])
    ensures TrimStart(w) == []
  {
    TrimStartDropsSpaces(w);
  }

  // ---------------------------------------------------------------------------
  // Rendering

  /** The italic footer line, "*This recipe was automatically generated from the video content*". */
  const Footer: string := "*This recipe " + "was automatically " + "generated from " + "the video content*"

  /**
   * The title's `^#*\s*` removed: what goes is a run of '#' and then a run of
   * whitespace, and what stays starts with neither whitespace nor, unless
   * some whitespace went, a '#'.
   */
  function StripHeading(title: string): (r: string)
    ensures IsSuffix(r, title)
    ensures r == [] || !IsSpace(r[0])
    ensures forall i :: 0 <= i < |title| - |r| ==> title[i] == '#' || IsSpace(title[i])
    ensures forall i :: 0 < i < |title| - |r| && title[i] == '#' ==> title[i - 1] == '#'
    ensures r != [] && r[0] == '#' ==> 0 < |title| - |r| && IsSpace(title[|title| - |r| - 1])
  {
    var a := DropHashes(title);
    var b := TrimStart(a);
    SuffixOfSuffix(a, title, title);
    SuffixOfSuffix(b, a, title);
    TrimStartDropsSpaces(a);
    HeadingRuns(title, a, b);
    b
  }

  /** A run of '#' (up to `a`) followed by a run of whitespace (up to `b`) removed from the front of `title`. */
  lemma HeadingRuns(title: string, a: string, b: string)
    requires |a| <= |title| && a == title[|title| - |a|..]
    requires forall i :: 0 <= i < |title| - |a| ==> title[i] == '#'
    requires a == [] || a[0] != '#'
    requires |b| <= |a| && b == a[|a| - |b|..]
    requires forall i :: 0 <= i < |a| - |b| ==> IsSpace(a[i])
    ensures forall i :: 0 <= i < |title| - |b| ==> title[i] == '#' || IsSpace(title[i])
    ensures forall i :: 0 < i < |title| - |b| && title[i] == '#' ==> title[i - 1] == '#'
    ensures b != [] && b[0] == '#' ==> 0 < |title| - |b| && IsSpace(title[|title| - |b| - 1])
  {
    var h := |title| - |a|;
    forall i | h <= i < |title| - |b| ensures IsSpace(title[i]) {
      assert title[i] == a[i - h];
    }
    if b != [] && b[0] == '#' {
      assert |b| < |a|;
      assert title[|title| - |b| - 1] == a[|a| - |b| - 1];
    }
  }

  /** One marker character and the whitespace after it removed. */
  lemma DropMarker(s: string)
    requires s != []
    ensures var r := TrimStart(s[1..]);
      && IsSuffix(r, s) && |r| < |s|
      && forall i :: 1 <= i < |s| - |r| ==> IsSpace(s[i])
  {
    var r := TrimStart(s[1..]);
    DropIsSuffix(s, 1);
    SuffixOfSuffix(r, s[1..], s);
    TrimStartDropsSpaces(s[1..]);
    forall i | 1 <= i < |s| - |r| ensures IsSpace(s[i]) {
      assert s[i] == s[1..][i - 1];
    }
  }

  /**
   * An ingredient's `^[-#*]\s*` removed: something goes exactly when the item
   * opens with one of the three markers, and then that one character and the
   * whitespace after it go, no more.
   */
  function StripListMarker(item: string): (r: string)
    ensures IsSuffix(r, item)
    ensures |r| < |item| <==> item != [] && item[0] in "-#*"
    ensures forall i :: 1 <= i < |item| - |r| ==> IsSpace(item[i])
    ensures |r| < |item| ==> r == [] || !IsSpace(r[0])
  {
    if item != [] && item[0] in "-#*" then
      DropMarker(item);
      TrimStart(item[1..])
    else item
  }

  /**
   * A step's `^[-#*\d.]\s*` removed: something goes exactly when the step
   * opens with a marker or a single digit, and then that one character and
   * the whitespace after it go, no more.
   */
  function StripStepMarker(step: string): (r: string)
    ensures IsSuffix(r, step)
    ensures |r| < |step| <==> step != [] && (step[0] in "-#*." || IsDigit(step[0]))
    ensures forall i :: 1 <= i < |step| - |r| ==> IsSpace(step[i])
    ensures |r| < |step| ==> r == [] || !IsSpace(r[0])
  {
    if step != [] && (step[0] in "-#*." || IsDigit(step[0])) then
      DropMarker(step);
      TrimStart(step[1..])
    else step
  }

  /**
   * The step pattern takes one character, so a step that opens with a
   * quantity loses its first digit: "2 eggs" is rendered as "1. eggs" and
   * "12 eggs" as "1. 2 eggs".
   */
  lemma StepMarkerTakesOneDigit(i: nat, d: char, x: string)
    requires IsDigit(d)
    ensures NumberedStep(i, [d] + x) == NatToString(i + 1) + ". " + TrimStart(x)
  {
    var step := [d] + x;
    assert step[0] == d && step[1..] == x;
    assert StripStepMarker(step) == TrimStart(x);
  }

  function IngredientLine(item: string): string
  {
    "- " + StripListMarker(item)
  }

  /** Step `i` (from 0) is numbered `i + 1`. */
  function NumberedStep(i: nat, step: string): string
  {
    NatToString(i + 1) + ". " + StripStepMarker(step)
  }

  function IngredientLines(items: seq<string>): (r: seq<string>)
    ensures |r| == |items|
  {
    seq(|items|, k requires 0 <= k < |items| => IngredientLine(items[k]))
  }

  /** `steps.map((s, i) => `${i + 1}. ${...}\n`)`: each rendered step ends with a newline. */
  function StepLines(steps: seq<string>): (r: seq<string>)
    ensures |r| == |steps|
  {
    seq(|steps|, i requires 0 <= i < |steps| => NumberedStep(i, steps[i]) + "\n")
  }

  /** `formatRecipeAsMarkdown`. */
  function FormatRecipeAsMarkdown(recipe: Recipe): string
  {
    "# " + StripHeading(recipe.title)
    + "\n\n" + "## Ingredients" + "\n\n" + Join(IngredientLines(recipe.ingredients), "\n")
    + "\n\n" + "## Instructions" + "\n\n" + Join(StepLines(recipe.steps), "\n")
    + "\n\n" + "---" + "\n" + Footer
  }

  // ---------------------------------------------------------------------------
  // Properties of the rendering

  /** The lines of each piece, one piece after another. */
  function FlatLines(xs: seq<string>): seq<string>
    decreases |xs|
  {
    if xs == [] then [] else Lines(xs[0]) + FlatLines(xs[1..])
  }

  /** Each string followed by a blank line. */
  function WithBlankAfterEach(xs: seq<string>): (r: seq<string>)
    ensures |r| == 2 * |xs|
    decreases |xs|
  {
    if xs == [] then [] else [xs[0], ""] + WithBlankAfterEach(xs[1..])
  }

  /** A list rendered by joining with "\n": a single empty line when the list is empty. */
  function Block(xs: seq<string>): seq<string>
  {
    if xs == [] then [""] else xs
  }

  function StepHeads(steps: seq<string>): (r: seq<string>)
    ensures |r| == |steps|
  {
    seq(|steps|, i requires 0 <= i < |steps| => NumberedStep(i, steps[i]))
  }

  /** The lines of a newline-joined list are the lines of its pieces in turn. */
  lemma {:induction false} LinesOfJoin(xs: seq<string>)
    requires |xs| >= 1
    ensures Lines(Join(xs, "\n")) == FlatLines(xs)
    decreases |xs|
  {
    if |xs| == 1 {
      assert FlatLines(xs[1..]) == [];
    } else {
      LinesOfJoin(xs[1..]);
      assert Join(xs, "\n") == xs[0] + ['\n'] + Join(xs[1..], "\n");
      SplitAtSeparator(xs[0], Join(xs[1..], "\n"), '\n');
    }
  }

  lemma {:induction false} FlatLinesOfSingleLines(xs: seq<string>)
    requires forall k :: 0 <= k < |xs| ==> '\n' !in xs[k]
    ensures FlatLines(xs) == xs
    decreases |xs|
  {
    if xs != [] {
      SplitWithout(xs[0], '\n');
      FlatLinesOfSingleLines(xs[1..]);
    }
  }

  lemma {:induction false} FlatLinesOfTerminated(heads: seq<string>, xs: seq<string>)
    requires |xs| == |heads|
    requires forall k :: 0 <= k < |xs| ==> '\n' !in heads[k] && xs[k] == heads[k] + "\n"
    ensures FlatLines(xs) == WithBlankAfterEach(heads)
    decreases |xs|
  {
    if xs != [] {
      SplitAtSeparator(heads[0], "", '\n');
      assert xs[0] == heads[0] + ['\n'] + "";
      SplitWithout(heads[0], '\n');
      FlatLinesOfTerminated(heads[1..], xs[1..]);
    }
  }

  lemma NoLineBreakInSuffix(r: string, s: string)
    requires IsSuffix(r, s) && '\n' !in s
    ensures '\n' !in r
  {
    forall k | 0 <= k < |r| ensures r[k] != '\n' {
      assert r[k] == s[|s| - |r| + k];
    }
  }

  lemma NoLineBreakInConcat(a: string, b: string)
    requires '\n' !in a && '\n' !in b
    ensures '\n' !in a + b
  {
    forall k | 0 <= k < |a + b| ensures (a + b)[k] != '\n' {
      if k >= |a| {
        assert (a + b)[k] == b[k - |a|];
      }
    }
  }

  lemma NumberedStepIsOneLine(i: nat, step: string)
    requires '\n' !in step
    ensures '\n' !in NumberedStep(i, step)
  {
    NoLineBreakInSuffix(StripStepMarker(step), step);
    NoLineBreakInConcat(NatToString(i + 1), ". ");
    NoLineBreakInConcat(NatToString(i + 1) + ". ", StripStepMarker(step));
  }

  lemma IngredientLineIsOneLine(item: string)
    requires '\n' !in item
    ensures '\n' !in IngredientLine(item)
  {
    NoLineBreakInSuffix(StripListMarker(item), item);
    NoLineBreakInConcat("- ", StripListMarker(item));
  }

  /** The ingredient block: one "- " line per ingredient, or one empty line. */
  lemma IngredientBlockLines(items: seq<string>)
    requires forall k :: 0 <= k < |items| ==> '\n' !in items[k]
    ensures Lines(Join(IngredientLines(items), "\n")) == Block(IngredientLines(items))
  {
    var xs := IngredientLines(items);
    if xs == [] {
      assert Join(xs, "\n") == "";
    } else {
      forall k | 0 <= k < |xs| ensures '\n' !in xs[k] {
        IngredientLineIsOneLine(items[k]);
      }
      LinesOfJoin(xs);
      FlatLinesOfSingleLines(xs);
    }
  }

  /**
   * The instruction block: each numbered step followed by a blank line (each
   * rendered step ends in "\n" and the steps are then joined with "\n"), or
   * one empty line when there are no steps.
   */
  lemma StepBlockLines(steps: seq<string>)
    requires forall k :: 0 <= k < |steps| ==> '\n' !in steps[k]
    ensures steps == [] ==> Lines(Join(StepLines(steps), "\n")) == [""]
    ensures steps != [] ==> Lines(Join(StepLines(steps), "\n")) == WithBlankAfterEach(StepHeads(steps))
  {
    var xs := StepLines(steps);
    if xs == [] {
      assert Join(xs, "\n") == "";
    } else {
      var heads := StepHeads(steps);
      forall k | 0 <= k < |xs| ensures '\n' !in heads[k] && xs[k] == heads[k] + "\n" {
        NumberedStepIsOneLine(k, steps[k]);
      }
      LinesOfJoin(xs);
      FlatLinesOfTerminated(heads, xs);
    }
  }

  /** A heading line set off by blank lines on both sides. */
  lemma HeadingBetween(a: string, heading: string, b: string)
    requires '\n' !in heading
    ensures Lines(a + "\n\n" + heading + "\n\n" + b) == Lines(a) + ["", heading, ""] + Lines(b)
  {
    assert a + "\n\n" + heading + "\n\n" + b == a + "\n\n" + (heading + "\n\n" + b);
    LinesAcrossSectionBreak(a, heading + "\n\n" + b);
    LinesAcrossSectionBreak(heading, b);
    SplitWithout(heading, '\n');
  }

  /** A rule line and a last line after a blank line. */
  lemma RuleAndFooter(a: string, rule: string, last: string)
    requires '\n' !in rule && '\n' !in last
    ensures Lines(a + "\n\n" + rule + "\n" + last) == Lines(a) + ["", rule, last]
  {
    assert a + "\n\n" + rule + "\n" + last == a + ['\n'] + ("" + ['\n'] + (rule + ['\n'] + last));
    SplitAtSeparator(a, "" + ['\n'] + (rule + ['\n'] + last), '\n');
    SplitAtSeparator("", rule + ['\n'] + last, '\n');
    SplitAtSeparator(rule, last, '\n');
    SplitWithout("", '\n');
    SplitWithout(rule, '\n');
    SplitWithout(last, '\n');
  }

  lemma FooterIsOneLine()
    ensures '\n' !in Footer
  {
    assert '\n' !in "*This recipe ";
    assert '\n' !in "was automatically ";
    assert '\n' !in "generated from ";
    assert '\n' !in "the video content*";
  }

  /** The lines of the template around the title line and the two rendered lists. */
  lemma TemplateLines(h: string, ing: string, st: string)
    ensures Lines(h + "\n\n" + "## Ingredients" + "\n\n" + ing
                  + "\n\n" + "## Instructions" + "\n\n" + st
                  + "\n\n" + "---" + "\n" + Footer)
      == Lines(h) + ["", "## Ingredients", ""] + Lines(ing)
         + ["", "## Instructions", ""] + Lines(st) + ["", "---", Footer]
  {
    var x := h + "\n\n" + "## Ingredients" + "\n\n" + ing;
    var y := x + "\n\n" + "## Instructions" + "\n\n" + st;
    HeadingBetween(h, "## Ingredients", ing);
    HeadingBetween(x, "## Instructions", st);
    FooterIsOneLine();
    RuleAndFooter(y, "---", Footer);
  }

  /**
   * The rendered document line by line, for a recipe whose title, ingredients
   * and steps are single lines: the "# " title heading, a blank line, the
   * "## Ingredients" heading, a blank line, one "- " line per ingredient, a
   * blank line, the "## Instructions" heading, a blank line, the steps numbered
   * from 1 each followed by a blank line, a blank line, the "---" rule and
   * the footer.
   */
  lemma TemplateLinesOf(h: string, ing: string, st: string, ingLines: seq<string>, stLines: seq<string>)
    requires Lines(h) == [h] && Lines(ing) == ingLines && Lines(st) == stLines
    ensures Lines(h + "\n\n" + "## Ingredients" + "\n\n" + ing
                  + "\n\n" + "## Instructions" + "\n\n" + st
                  + "\n\n" + "---" + "\n" + Footer)
      == [h, "", "## Ingredients", ""] + ingLines + ["", "## Instructions", ""] + stLines + ["", "---", Footer]
  {
    TemplateLines(h, ing, st);
  }

  lemma TitleLineIsOneLine(title: string)
    requires '\n' !in title
    ensures '\n' !in "# " + StripHeading(title)
  {
    NoLineBreakInSuffix(StripHeading(title), title);
    NoLineBreakInConcat("# ", StripHeading(title));
  }

  lemma RenderedLines(h: string, ingredients: seq<string>, steps: seq<string>)
    requires '\n' !in h
    requires forall k :: 0 <= k < |ingredients| ==> '\n' !in ingredients[k]
    requires forall k :: 0 <= k < |steps| ==> '\n' !in steps[k]
    ensures Lines(h + "\n\n" + "## Ingredients" + "\n\n" + Join(IngredientLines(ingredients), "\n")
                  + "\n\n" + "## Instructions" + "\n\n" + Join(StepLines(steps), "\n")
                  + "\n\n" + "---" + "\n" + Footer) ==
      [h, "", "## Ingredients", ""]
      + Block(IngredientLines(ingredients))
      + ["", "## Instructions", ""]
      + (if steps == [] then [""] else WithBlankAfterEach(StepHeads(steps)))
      + ["", "---", Footer]
  {
    var ing := Join(IngredientLines(ingredients), "\n");
    var st := Join(StepLines(steps), "\n");
    var stepBlock := if steps == [] then [""] else WithBlankAfterEach(StepHeads(steps));
    SplitWithout(h, '\n');
    IngredientBlockLines(ingredients);
    StepBlockLines(steps);
    TemplateLinesOf(h, ing, st, Block(IngredientLines(ingredients)), stepBlock);
  }

  lemma MarkdownLines(recipe: Recipe)
    requires '\n' !in recipe.title
    requires forall k :: 0 <= k < |recipe.ingredients| ==> '\n' !in recipe.ingredients[k]
    requires forall k :: 0 <= k < |recipe.steps| ==> '\n' !in recipe.steps[k]
    ensures Lines(FormatRecipeAsMarkdown(recipe)) ==
      ["# " + StripHeading(recipe.title), "", "## Ingredients", ""]
      + Block(IngredientLines(recipe.ingredients))
      + ["", "## Instructions", ""]
      + (if recipe.steps == [] then [""] else WithBlankAfterEach(StepHeads(recipe.steps)))
      + ["", "---", Footer]
  {
    TitleLineIsOneLine(recipe.title);
    RenderedLines("# " + StripHeading(recipe.title), recipe.ingredients, recipe.steps);
  }

}
