/**
 * A worked run of `parseRecipeText` on a small recipe with a title, an
 * ingredients section and an instructions section, derived from the general
 * properties of the parser: the sections are cut at the blank lines, the
 * keyword search picks the second and third sections, and each body line is
 * cleaned of its bullet or number.
 */
module RecipeExample {
  import opened Strings
  import opened RecipeText

  /** "Pancakes\n\nIngredients\n- Flour\n- Milk\n\nInstructions\n1. Mix\n2. Cook" */
  const IngredientsSection := "Ingredients" + "\n" + "- Flour" + "\n" + "- Milk"
  const InstructionsSection := "Instructions" + "\n" + "1. Mix" + "\n" + "2. Cook"
  const PancakeText := "Pancakes" + "\n\n" + (IngredientsSection + "\n\n" + InstructionsSection)

  /** A string without line feeds has single breaks. */
  lemma OneLineHasSingleBreaks(a: string)
    requires '\n' !in a
    ensures SingleBreaks(a)
  {
  }

  /** A further non-empty line keeps the breaks single. */
  lemma SingleBreaksThenLine(a: string, b: string)
    requires SingleBreaks(a) && b != [] && '\n' !in b
    ensures SingleBreaks(a + "\n" + b)
  {
    var s := a + "\n" + b;
    forall i | 0 <= i < |s| && s[i] == '\n' ensures i + 1 < |s| && s[i + 1] != '\n' {
      if i < |a| {
        assert s[i] == a[i] && s[i + 1] == a[i + 1];
      } else if i == |a| {
        assert s[i + 1] == b[0];
      }
    }
  }

  /** Three lines joined by line feeds split back into those lines. */
  lemma LinesOfThree(a: string, b: string, c: string)
    requires '\n' !in a && '\n' !in b && '\n' !in c
    ensures Lines(a + "\n" + b + "\n" + c) == [a, b, c]
  {
    assert a + "\n" + b + "\n" + c == a + ['\n'] + (b + ['\n'] + c);
    SplitAtSeparator(a, b + ['\n'] + c, '\n');
    SplitAtSeparator(b, c, '\n');
    SplitWithout(a, '\n');
    SplitWithout(b, '\n');
    SplitWithout(c, '\n');
  }

  /** Lower-casing works character by character. */
  lemma ToLowerAppend(a: string, b: string)
    ensures ToLower(a + b) == ToLower(a) + ToLower(b)
  {
  }

  /** A lower-case letter is missing from the lower-cased text when both of its cases are missing from the text. */
  lemma LowerAbsent(s: string, c: char)
    requires 'a' <= c <= 'z'
    requires c !in s && (c as int - 32) as char !in s
    ensures c !in ToLower(s)
  {
    forall k | 0 <= k < |s| ensures ToLower(s)[k] != c {
      assert s[k] != c && s[k] != (c as int - 32) as char;
    }
  }

  /** A section that starts with the word names it. */
  lemma SectionStartsWith(word: string, lower: string, rest: string)
    requires ToLower(word) == lower
    ensures Contains(ToLower(word + rest), lower)
  {
    ToLowerAppend(word, rest);
    assert (lower + ToLower(rest))[..|lower|] == lower;
  }

  /** A bulleted line "- w" gives the ingredient `w`. */
  lemma BulletItem(w: string)
    requires w != [] && IsTrimmed(w)
    ensures CleanIngredient("- " + w) == w
  {
    var line := "- " + w;
    assert line[0] == '-' && line[1..] == [' '] + w;
    TrimStartSpace(' ', w);
    TrimStartKeeps(w);
    TrimmedIsFixpoint(w);
  }

  /** A numbered line "d. w" gives the step `w`. */
  lemma NumberedItem(d: char, w: string)
    requires IsDigit(d) && w != [] && IsTrimmed(w)
    ensures CleanStep([d] + ". " + w) == w
  {
    var line := [d] + ". " + w;
    assert line == [d, '.'] + ([' '] + w);
    OneDigitThenDot(d, [' '] + w);
    assert line[2..] == [' '] + w;
    TrimStartSpace(' ', w);
    TrimStartKeeps(w);
    TrimmedIsFixpoint(w);
  }

  /** Two body lines, both cleaned to non-empty entries. */
  lemma CleanTwo(x: string, y: string, clean: string -> string)
    requires clean(x) != "" && clean(y) != ""
    ensures CleanLines([x, y], clean) == [clean(x), clean(y)]
  {
    assert [x, y] == [x] + [y];
    CleanLinesAppend([x], [y], clean);
    CleanLinesOne(x, clean);
    CleanLinesOne(y, clean);
  }

  /** Every section keeps its line breaks single, so the blank lines are the only cuts. */
  predicate SingleBreaksEach(a: string, b: string, c: string)
  {
    SingleBreaks(a) && SingleBreaks(b) && SingleBreaks(c)
  }

  /** Only the second section names the ingredients and only the third the steps. */
  predicate HeadersInOrder(a: string, b: string, c: string)
  {
    !MentionsIngredients(a) && MentionsIngredients(b)
    && !MentionsSteps(a) && !MentionsSteps(b) && MentionsSteps(c)
  }

  /** The section is a header line and two lines that clean to non-empty entries. */
  predicate TwoLineBody(s: string, lines: seq<string>, clean: string -> string)
  {
    Lines(s) == lines && |lines| == 3 && clean(lines[1]) != "" && clean(lines[2]) != ""
  }

  lemma TwoLineBodyOf(s: string, h: string, l1: string, l2: string, clean: string -> string, x1: string, x2: string)
    requires Lines(s) == [h, l1, l2]
    requires clean(l1) == x1 && clean(l2) == x2 && x1 != "" && x2 != ""
    ensures TwoLineBody(s, [h, l1, l2], clean)
  {
  }

  /**
   * A title section, then a section whose header line names the ingredients,
   * then one whose header line names the steps, each body of two lines: the
   * recipe is the title and the two bodies, cleaned, in order.
   */
  lemma ThreeSections(a: string, b: string, c: string, bLines: seq<string>, cLines: seq<string>)
    requires SingleBreaksEach(a, b, c) && HeadersInOrder(a, b, c)
    requires TwoLineBody(b, bLines, CleanIngredient) && TwoLineBody(c, cLines, CleanStep)
    ensures ParseRecipeText(a + "\n\n" + (b + "\n\n" + c)) == Recipe(
      ParseTitle(a),
      [CleanIngredient(bLines[1]), CleanIngredient(bLines[2])],
      [CleanStep(cLines[1]), CleanStep(cLines[2])])
  {
    SectionsOfThree(a, b, c);
    SecondOfThree(a, b, c, MentionsIngredients, CleanIngredient, bLines);
    ThirdOfThree(a, b, c, MentionsSteps, CleanStep, cLines);
    assert |PrimaryStepsOf([a, b, c])| > 0;
  }

  /** Three sections with single line breaks, joined by blank lines, split back into those three. */
  lemma SectionsOfThree(a: string, b: string, c: string)
    requires SingleBreaks(a) && SingleBreaks(b) && SingleBreaks(c)
    ensures Sections(a + "\n\n" + (b + "\n\n" + c)) == [a, b, c]
  {
    SplitAtFirstSectionBreak(a, b + "\n\n" + c);
    SplitAtFirstSectionBreak(b, c);
    SplitSingleSection(c);
  }

  /**
   * When section `k` is the first whose header matches and its body is two
   * lines that clean to non-empty entries, the entries are those two, in order.
   */
  lemma TwoEntriesAt(secs: seq<string>, header: string -> bool, clean: string -> string, k: nat, lines: seq<string>)
    requires k < |secs| && header(secs[k])
    requires forall j :: 0 <= j < k ==> !header(secs[j])
    requires Lines(secs[k]) == lines && |lines| == 3
    requires clean(lines[1]) != "" && clean(lines[2]) != ""
    ensures SectionEntries(secs, header, clean) == [clean(lines[1]), clean(lines[2])]
  {
    SectionEntriesAt(secs, header, clean, k);
    assert lines[1..] == [lines[1], lines[2]];
    CleanTwo(lines[1], lines[2], clean);
  }

  /** Of three sections, the second is the first to match. */
  lemma SecondOfThree(a: string, b: string, c: string, header: string -> bool, clean: string -> string, lines: seq<string>)
    requires !header(a) && header(b)
    requires Lines(b) == lines && |lines| == 3 && clean(lines[1]) != "" && clean(lines[2]) != ""
    ensures SectionEntries([a, b, c], header, clean) == [clean(lines[1]), clean(lines[2])]
  {
    var secs := [a, b, c];
    forall j | 0 <= j < 1 ensures !header(secs[j]) {
      assert secs[j] == a;
    }
    TwoEntriesAt(secs, header, clean, 1, lines);
  }

  /** Of three sections, the third is the first to match. */
  lemma ThirdOfThree(a: string, b: string, c: string, header: string -> bool, clean: string -> string, lines: seq<string>)
    requires !header(a) && !header(b) && header(c)
    requires Lines(c) == lines && |lines| == 3 && clean(lines[1]) != "" && clean(lines[2]) != ""
    ensures SectionEntries([a, b, c], header, clean) == [clean(lines[1]), clean(lines[2])]
  {
    var secs := [a, b, c];
    forall j | 0 <= j < 2 ensures !header(secs[j]) {
      assert secs[j] == a || secs[j] == b;
    }
    TwoEntriesAt(secs, header, clean, 2, lines);
  }

  /** Text without 'i', 't' or 'm', in either case, names no section at all. */
  lemma NoSectionWords(s: string)
    requires 'i' !in s && 'I' !in s && 't' !in s && 'T' !in s && 'm' !in s && 'M' !in s
    ensures !MentionsIngredients(s) && !MentionsSteps(s)
  {
    var lower := ToLower(s);
    LowerAbsent(s, 'i');
    ContainsNeedsChar(lower, "ingredients", 'i');
    ContainsNeedsChar(lower, "instructions", 'i');
    ContainsNeedsChar(lower, "directions", 'i');
    LowerAbsent(s, 't');
    ContainsNeedsChar(lower, "steps", 't');
    LowerAbsent(s, 'm');
    ContainsNeedsChar(lower, "method", 'm');
  }

  /** "Pancakes" names neither kind of section. */
  lemma TitleSectionKeywords()
    ensures !MentionsIngredients("Pancakes") && !MentionsSteps("Pancakes")
  {
    NoSectionWords("Pancakes");
  }

  /** The text holds none of the letters c, p and h, in either case. */
  predicate LacksStepLetters(s: string)
  {
    'c' !in s && 'C' !in s && 'p' !in s && 'P' !in s && 'h' !in s && 'H' !in s
  }

  /** Text without those letters names no steps section. */
  lemma NoStepWords(s: string)
    requires LacksStepLetters(s)
    ensures !MentionsSteps(s)
  {
    var lower := ToLower(s);
    LowerAbsent(s, 'c');
    ContainsNeedsChar(lower, "instructions", 'c');
    ContainsNeedsChar(lower, "directions", 'c');
    LowerAbsent(s, 'p');
    ContainsNeedsChar(lower, "steps", 'p');
    LowerAbsent(s, 'h');
    ContainsNeedsChar(lower, "method", 'h');
  }

  /** Lines without those letters, joined by line feeds, still lack them. */
  lemma LacksStepLettersJoined(a: string, b: string, c: string)
    requires LacksStepLetters(a) && LacksStepLetters(b) && LacksStepLetters(c)
    ensures LacksStepLetters(a + "\n" + b + "\n" + c)
  {
  }

  lemma IngredientsSectionKeywords()
    ensures MentionsIngredients(IngredientsSection) && !MentionsSteps(IngredientsSection)
  {
    IngredientsHeader();
    IngredientsLackStepLetters();
    NoStepWords(IngredientsSection);
  }

  lemma IngredientsHeader()
    ensures MentionsIngredients(IngredientsSection)
  {
    var rest := "\n" + "- Flour" + "\n" + "- Milk";
    SectionStartsWith("Ingredients", "ingredients", rest);
    assert IngredientsSection == "Ingredients" + rest;
  }

  lemma IngredientsLackStepLetters()
    ensures LacksStepLetters(IngredientsSection)
  {
    assert LacksStepLetters("Ingredients");
    assert LacksStepLetters("- Flour");
    assert LacksStepLetters("- Milk");
    LacksStepLettersJoined("Ingredients", "- Flour", "- Milk");
  }

  lemma InstructionsSectionKeywords()
    ensures MentionsSteps(InstructionsSection)
  {
    SectionStartsWith("Instructions", "instructions", "\n" + "1. Mix" + "\n" + "2. Cook");
    assert InstructionsSection == "Instructions" + ("\n" + "1. Mix" + "\n" + "2. Cook");
  }

  lemma PancakeHeaders()
    ensures HeadersInOrder("Pancakes", IngredientsSection, InstructionsSection)
  {
    TitleSectionKeywords();
    IngredientsSectionKeywords();
    InstructionsSectionKeywords();
  }

  /** A trimmed first line that opens with neither '#' nor "Title:" is the title as it stands. */
  lemma PlainTitle(w: string)
    requires IsTrimmed(w) && (w == [] || w[0] != '#') && !IsPrefix("Title:", w)
    ensures ParseTitle(w) == w
  {
    TrimStartKeeps(w);
    ParseTitleOfPlain(w);
    TrimmedIsFixpoint(w);
  }

  lemma PancakeTitle()
    ensures ParseTitle("Pancakes") == "Pancakes"
  {
    var w := "Pancakes";
    assert w[0] == 'P';
    PlainTitle(w);
  }

  lemma PancakeBreaks()
    ensures SingleBreaksEach("Pancakes", IngredientsSection, InstructionsSection)
  {
    OneLineHasSingleBreaks("Pancakes");
    OneLineHasSingleBreaks("Ingredients");
    SingleBreaksThenLine("Ingredients", "- Flour");
    SingleBreaksThenLine("Ingredients" + "\n" + "- Flour", "- Milk");
    OneLineHasSingleBreaks("Instructions");
    SingleBreaksThenLine("Instructions", "1. Mix");
    SingleBreaksThenLine("Instructions" + "\n" + "1. Mix", "2. Cook");
  }

  lemma PancakeIngredients()
    ensures TwoLineBody(IngredientsSection, ["Ingredients", "- Flour", "- Milk"], CleanIngredient)
  {
    IngredientLines();
    FlourLine();
    MilkLine();
    TwoLineBodyOf(IngredientsSection, "Ingredients", "- Flour", "- Milk", CleanIngredient, "Flour", "Milk");
  }

  lemma PancakeSteps()
    ensures TwoLineBody(InstructionsSection, ["Instructions", "1. Mix", "2. Cook"], CleanStep)
  {
    InstructionLines();
    MixLine();
    CookLine();
    TwoLineBodyOf(InstructionsSection, "Instructions", "1. Mix", "2. Cook", CleanStep, "Mix", "Cook");
  }

  lemma IngredientLines()
    ensures Lines(IngredientsSection) == ["Ingredients", "- Flour", "- Milk"]
  {
    LinesOfThree("Ingredients", "- Flour", "- Milk");
  }

  lemma InstructionLines()
    ensures Lines(InstructionsSection) == ["Instructions", "1. Mix", "2. Cook"]
  {
    LinesOfThree("Instructions", "1. Mix", "2. Cook");
  }

  lemma FlourLine()
    ensures CleanIngredient("- Flour") == "Flour"
  {
    var w := "Flour";
    assert w[0] == 'F' && w[|w| - 1] == 'r';
    assert IsTrimmed(w);
    assert "- " + w == "- Flour";
    BulletItem(w);
  }

  lemma MilkLine()
    ensures CleanIngredient("- Milk") == "Milk"
  {
    var w := "Milk";
    assert w[0] == 'M' && w[|w| - 1] == 'k';
    assert IsTrimmed(w);
    assert "- " + w == "- Milk";
    BulletItem(w);
  }

  lemma MixLine()
    ensures CleanStep("1. Mix") == "Mix"
  {
    var w := "Mix";
    assert w[0] == 'M' && w[|w| - 1] == 'x';
    assert IsTrimmed(w);
    assert ['1'] + ". " + w == "1. Mix";
    NumberedItem('1', w);
  }

  lemma CookLine()
    ensures CleanStep("2. Cook") == "Cook"
  {
    var w := "Cook";
    assert w[0] == 'C' && w[|w| - 1] == 'k';
    assert IsTrimmed(w);
    assert ['2'] + ". " + w == "2. Cook";
    NumberedItem('2', w);
  }

  /**
   * The title is the first section as it stands, the ingredients are the
   * bulleted lines of the section headed "Ingredients" and the steps the
   * numbered lines of the section headed "Instructions", in order.
   */
  lemma PancakeRecipe()
    ensures ParseRecipeText(PancakeText) == Recipe("Pancakes", ["Flour", "Milk"], ["Mix", "Cook"])
  {
    PancakeBreaks();
    PancakeHeaders();
    PancakeIngredients();
    PancakeSteps();
    PancakeTitle();
    FlourLine();
    MilkLine();
    MixLine();
    CookLine();
    ThreeSections("Pancakes", IngredientsSection, InstructionsSection,
      ["Ingredients", "- Flour", "- Milk"], ["Instructions", "1. Mix", "2. Cook"]);
  }
}
