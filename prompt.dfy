/**
 * The prompt sent to the language model for one validated request: a fixed
 * opening, a GIVEN INFORMATION block of exactly five lines, and fixed
 * instructions ending in the JSON reply format.
 */
module Prompt {
  import opened Wrappers
  import opened JsText
  import opened Schema

  /** The five fields of a request, in the order the prompt lists them. */
  datatype Field = Name | Identity | Background | WhatYouDo | Motivation

  const Fields: seq<Field> := [Name, Identity, Background, WhatYouDo, Motivation]

  function Label(f: Field): string {
    match f
    case Name => "Name"
    case Identity => "Identity/Role"
    case Background => "Background"
    case WhatYouDo => "What they do"
    case Motivation => "Motivation/Why"
  }

  /** The instruction that stands in for a field the user left blank. */
  function Placeholder(f: Field): string {
    match f
    case Name => "[Create a suitable professional name]"
    case Identity => "[Create a relevant professional identity]"
    case Background => "[Create compelling professional background]"
    case WhatYouDo => "[Create meaningful work description]"
    case Motivation => "[Create authentic personal motivation]"
  }

  /** The field's value as validated; only `background` can be absent (`null`). */
  function FieldValue(data: InsertSpeechRequest, f: Field): Option<string> {
    match f
    case Name => Some(data.name)
    case Identity => Some(data.identity)
    case Background => data.background
    case WhatYouDo => Some(data.whatYouDo)
    case Motivation => Some(data.motivation)
  }

  /** `value?.trim()` is truthy: the value is present and not all whitespace. */
  predicate Provided(value: Option<string>) {
    value.Some? && Trim(value.value) != []
  }

  /** What the prompt passes on for a field: its untrimmed value when provided, else nothing. */
  function GivenValue(data: InsertSpeechRequest, f: Field): Option<string> {
    if Provided(FieldValue(data, f)) then FieldValue(data, f) else None
  }

  /** What the prompt passes on for each field, in prompt order. */
  function GivenValues(data: InsertSpeechRequest): (values: seq<Option<string>>)
    ensures |values| == |Fields|
  {
    seq(|Fields|, i requires 0 <= i < |Fields| => GivenValue(data, Fields[i]))
  }

  function LinePrefix(f: Field): string {
    Label(f) + ": "
  }

  /** One line of the GIVEN INFORMATION block. */
  function GivenLine(f: Field, value: Option<string>): (line: string)
    ensures |line| >= |LinePrefix(f)| && line[..|LinePrefix(f)|] == LinePrefix(f)
    ensures Provided(value) ==> line[|LinePrefix(f)|..] == value.value
    ensures !Provided(value) ==> line[|LinePrefix(f)|..] == Placeholder(f)
  {
    var rest := if Provided(value) then value.value else Placeholder(f);
    AppendSplit(LinePrefix(f), rest);
    LinePrefix(f) + rest
  }

  lemma AppendSplit(a: string, b: string)
    ensures (a + b)[..|a|] == a && (a + b)[|a|..] == b
  {
  }

  function GivenLines(data: InsertSpeechRequest): (lines: seq<string>)
    ensures |lines| == |Fields|
    ensures forall i | 0 <= i < |Fields| :: lines[i] == GivenLine(Fields[i], FieldValue(data, Fields[i]))
  {
    seq(|Fields|, i requires 0 <= i < |Fields| => GivenLine(Fields[i], FieldValue(data, Fields[i])))
  }

  /** The opening sentence, a blank line and the block heading, each ending in a line break. */
  const Head: string := "Create a compelling 300-word self-introduction SPEECH using the Who-What-Why framework. \n\nGIVEN INFORMATION:\n"

  const InstructionCount := 68

  /**
   * The fixed text after the GIVEN INFORMATION block, line by line: a blank
   * line, the instructions and the JSON reply format, ending in `}`.
   */
  function InstructionLine(i: nat): string
    requires i < InstructionCount
  {
    if i == 0 then ""
    else if i == 1 then "INSTRUCTIONS:"
    else if i == 2 then "- For any missing information above, create realistic and authentic details that fit together coherently"
    else if i == 3 then @"- DO NOT use placeholders like ""[Your Name]"" or ""[Insert...]"" in the final speech"
    else if i == 4 then "- Make all created details feel genuine and specific"
    else if i == 5 then "- Ensure all parts work together to tell a cohesive story"
    else if i == 6 then ""
    else if i == 7 then "CRITICAL: This is a SPEECH to be SPOKEN out loud, not an essay to be read. Make it sound natural when spoken aloud."
    else if i == 8 then ""
    else if i == 9 then "Language Requirements:"
    else if i == 10 then "- Use HIGH SCHOOL level language - simple, clear, everyday words"
    else if i == 11 then "- Write SHORT sentences (10-15 words maximum)"
    else if i == 12 then "- Use SHORT paragraphs (2-3 sentences each)"
    else if i == 13 then "- NO jargon, technical terms, or complex vocabulary"
    else if i == 14 then "- Use contractions and casual language"
    else if i == 15 then "- Make it conversational and easy to follow"
    else if i == 16 then ""
    else if i == 17 then "Speech Requirements:"
    else if i == 18 then "- Include pauses, transitions, and speaking rhythms (use punctuation to indicate)"
    else if i == 19 then "- Make it flow naturally when read aloud"
    else if i == 20 then @"- Use ""you"" to directly address the audience"
    else if i == 21 then @"- Include natural speaking connectors like ""Now,"" ""So,"" ""And here's the thing..."""
    else if i == 22 then "- Add light storytelling elements but keep language simple"
    else if i == 23 then "- Use specific examples instead of abstract concepts"
    else if i == 24 then ""
    else if i == 25 then "AVOID These AI Cliche Words/Phrases:"
    else if i == 26 then @"- ""power"" or ""powerful"""
    else if i == 27 then @"- ""unlock"" or ""unlocking"""
    else if i == 28 then @"- ""tapestry"""
    else if i == 29 then @"- ""picture this"""
    else if i == 30 then @"- ""imagine this"""
    else if i == 31 then @"- ""landscape"" (metaphorically)"
    else if i == 32 then @"- ""journey"" (unless literal travel)"
    else if i == 33 then @"- ""passion"" (use ""love"" or ""care about"" instead)"
    else if i == 34 then @"- ""game-changer"""
    else if i == 35 then @"- ""cutting-edge"""
    else if i == 36 then @"- ""revolutionary"""
    else if i == 37 then @"- ""transform"" or ""transformation"" "
    else if i == 38 then @"- ""leverage"""
    else if i == 39 then @"- ""synergy"""
    else if i == 40 then @"- ""paradigm"""
    else if i == 41 then @"- ""ecosystem"""
    else if i == 42 then ""
    else if i == 43 then "Content Guidelines:"
    else if i == 44 then "- Use the provided information exactly as given"
    else if i == 45 then "- For missing information, create realistic details that enhance the story"
    else if i == 46 then "- Add storytelling elements but keep language simple and clear"
    else if i == 47 then "- Make it feel like a genuine personal story"
    else if i == 48 then ""
    else if i == 49 then "Framework guidelines:"
    else if i == 50 then "- WHO: Start with clear identity, add meaningful context, connect with audience"
    else if i == 51 then "- WHAT: Describe who they help and how, use simple specific language, show results not just roles  "
    else if i == 52 then "- WHY: Share belief or turning point, make it relatable and emotional, tie why to what"
    else if i == 53 then ""
    else if i == 54 then "Structure Requirements:"
    else if i == 55 then "- Break into SHORT paragraphs (2-3 sentences each)"
    else if i == 56 then "- Use simple connecting words between paragraphs"
    else if i == 57 then "- Keep each sentence focused on one main idea"
    else if i == 58 then "- Make transitions smooth and natural"
    else if i == 59 then ""
    else if i == 60 then "The speech should be exactly around 300 words, engaging, and follow the Who-What-Why structure naturally. Write it as if the person is speaking directly to a live audience with confidence but using everyday language."
    else if i == 61 then ""
    else if i == 62 then "Please respond with JSON in this exact format:"
    else if i == 63 then "{"
    else if i == 64 then @"  ""speech"": ""The complete 300-word speech text optimized for speaking with storytelling elements"","
    else if i == 65 then @"  ""wordCount"": actual_word_count_number,"
    else if i == 66 then @"  ""readTime"": estimated_read_time_in_minutes"
    else "}"
  }

  function Instructions(): (lines: seq<string>)
    ensures |lines| == InstructionCount
  {
    seq(InstructionCount, i requires 0 <= i < InstructionCount => InstructionLine(i))
  }

  /**
   * `buildPrompt()`: the five field lines between a fixed opening and fixed
   * instructions; only the field lines depend on the request.
   */
  function BuildPrompt(data: InsertSpeechRequest): (prompt: string)
    ensures prompt == Head + (Join(GivenLines(data), "\n") + "\n" + Join(Instructions(), "\n"))
  {
    JoinAppend(GivenLines(data), Instructions(), "\n");
    Head + Join(GivenLines(data) + Instructions(), "\n")
  }

  /**
   * Reads one GIVEN INFORMATION line back: `Some(None)` for the placeholder,
   * `Some(Some(v))` for a supplied value, `None` for a line of another shape.
   */
  function ReadLine(f: Field, line: string): Option<Option<string>> {
    var p := LinePrefix(f);
    if |line| < |p| || line[..|p|] != p then None
    else if line[|p|..] == Placeholder(f) then Some(None)
    else Some(Some(line[|p|..]))
  }

  function ReadLines(fields: seq<Field>, lines: seq<string>): Option<seq<Option<string>>>
    decreases |fields|
  {
    if |fields| != |lines| then None
    else if fields == [] then Some([])
    else
      match (ReadLine(fields[0], lines[0]), ReadLines(fields[1..], lines[1..]))
      case (Some(v), Some(vs)) => Some([v] + vs)
      case _ => None
  }

  /**
   * Recovers, field by field, what a prompt passes on from its request: the
   * five lines after the opening, cut at line breaks.
   */
  function ReadPrompt(prompt: string): Option<seq<Option<string>>> {
    if |prompt| < |Head| || prompt[..|Head|] != Head then None
    else
      var lines := SplitOn(prompt[|Head|..], '\n');
      if |lines| < |Fields| then None else ReadLines(Fields, lines[..|Fields|])
  }

  /** A value that, when provided, fits on one line. */
  predicate SingleLine(value: Option<string>) {
    Provided(value) ==> '\n' !in value.value
  }

  /** A value that, when provided, is not the field's own placeholder text. */
  predicate NotPlaceholder(f: Field, value: Option<string>) {
    Provided(value) ==> value.value != Placeholder(f)
  }

  /**
   * What a reader of the line gets back for a field: the provided value,
   * except that a value spelling the placeholder is taken for a blank field.
   */
  function ReadBack(f: Field, value: Option<string>): Option<string> {
    if Provided(value) && value.value != Placeholder(f) then value else None
  }

  /** What a reader of the GIVEN INFORMATION block gets back, field by field. */
  function RecoveredValues(data: InsertSpeechRequest): (values: seq<Option<string>>)
    ensures |values| == |Fields|
  {
    seq(|Fields|, i requires 0 <= i < |Fields| => ReadBack(Fields[i], FieldValue(data, Fields[i])))
  }

  /** Every line reads back to its field's value, a placeholder-valued one as blank. */
  lemma ReadGivenLine(f: Field, value: Option<string>)
    ensures ReadLine(f, GivenLine(f, value)) == Some(ReadBack(f, value))
  {
  }

  /** What is read back is what was passed on, exactly when no value spells its placeholder. */
  lemma RecoveredIsGiven(data: InsertSpeechRequest)
    ensures RecoveredValues(data) == GivenValues(data)
      <==> forall i | 0 <= i < |Fields| :: NotPlaceholder(Fields[i], FieldValue(data, Fields[i]))
  {
    var r := RecoveredValues(data);
    var g := GivenValues(data);
    forall i | 0 <= i < |Fields| ensures r[i] == g[i] <==> NotPlaceholder(Fields[i], FieldValue(data, Fields[i])) {
      ReadBackIsGiven(data, Fields[i]);
    }
    if r != g {
      var i :| 0 <= i < |Fields| && r[i] != g[i];
    }
  }

  lemma ReadBackIsGiven(data: InsertSpeechRequest, f: Field)
    ensures ReadBack(f, FieldValue(data, f)) == GivenValue(data, f) <==> NotPlaceholder(f, FieldValue(data, f))
  {
  }

  /** No character of `s` is a line break. */
  predicate OneLine(s: string) {
    forall i | 0 <= i < |s| :: s[i] != '\n'
  }

  lemma LinePrefixOneLine(f: Field)
    ensures OneLine(LinePrefix(f))
  {
    LabelOneLine(f);
    assert OneLine(": ");
    OneLineConcat(Label(f), ": ");
  }

  lemma LabelOneLine(f: Field)
    ensures OneLine(Label(f))
  {
    match f
    case Name => assert OneLine("Name");
    case Identity => assert OneLine("Identity/Role");
    case Background => assert OneLine("Background");
    case WhatYouDo => assert OneLine("What they do");
    case Motivation => assert OneLine("Motivation/Why");
  }

  lemma OneLineConcat(a: string, b: string)
    requires OneLine(a) && OneLine(b)
    ensures OneLine(a + b)
  {
    forall i | 0 <= i < |a + b| ensures (a + b)[i] != '\n' {
      if i < |a| { assert (a + b)[i] == a[i]; } else { assert (a + b)[i] == b[i - |a|]; }
    }
  }

  lemma PlaceholderOneLine(f: Field)
    ensures OneLine(Placeholder(f))
  {
    match f
    case Name => NamePlaceholderOneLine();
    case Identity => IdentityPlaceholderOneLine();
    case Background => BackgroundPlaceholderOneLine();
    case WhatYouDo => WhatYouDoPlaceholderOneLine();
    case Motivation => MotivationPlaceholderOneLine();
  }

  // Proof steps, one per placeholder literal: checking all five in one
  // obligation costs far more than checking each on its own.

  lemma NamePlaceholderOneLine()
    ensures OneLine("[Create a suitable professional name]")
  {
  }

  lemma IdentityPlaceholderOneLine()
    ensures OneLine("[Create a relevant professional identity]")
  {
  }

  lemma BackgroundPlaceholderOneLine()
    ensures OneLine("[Create compelling professional background]")
  {
  }

  lemma WhatYouDoPlaceholderOneLine()
    ensures OneLine("[Create meaningful work description]")
  {
  }

  lemma MotivationPlaceholderOneLine()
    ensures OneLine("[Create authentic personal motivation]")
  {
  }

  /** A line holds no line break exactly when its value fits on one line. */
  lemma GivenLineOneLine(f: Field, value: Option<string>)
    ensures '\n' !in GivenLine(f, value) <==> SingleLine(value)
  {
    var line := GivenLine(f, value);
    var p := LinePrefix(f);
    assert line == p + line[|p|..];
    if SingleLine(value) {
      LinePrefixOneLine(f);
      PlaceholderOneLine(f);
      assert OneLine(line[|p|..]);
      OneLineConcat(p, line[|p|..]);
    } else {
      var k :| 0 <= k < |value.value| && value.value[k] == '\n';
      assert line[|p| + k] == '\n';
    }
  }

  /**
   * The GIVEN INFORMATION block holds exactly five lines, Name, Identity/Role,
   * Background, What they do and Motivation/Why in that order, each carrying
   * its field's untrimmed value when that is not blank and the placeholder
   * otherwise, so reading it back recovers every value that fits on one line
   * and is not its placeholder's text.
   */
  lemma {:induction false} PromptRoundTrip(data: InsertSpeechRequest)
    requires forall i | 0 <= i < |Fields| :: SingleLine(FieldValue(data, Fields[i]))
    ensures ReadPrompt(BuildPrompt(data)) == Some(RecoveredValues(data))
    ensures (forall i | 0 <= i < |Fields| :: NotPlaceholder(Fields[i], FieldValue(data, Fields[i])))
      ==> ReadPrompt(BuildPrompt(data)) == Some(GivenValues(data))
  {
    var lines := GivenLines(data);
    var values := RecoveredValues(data);
    var body := Join(lines + Instructions(), "\n");
    assert BuildPrompt(data) == Head + body;
    ReadAfterHead(body);
    forall j | 0 <= j < |lines| ensures '\n' !in lines[j] {
      GivenLineOneLine(Fields[j], FieldValue(data, Fields[j]));
    }
    SplitOnJoinPrefix(lines, Instructions(), '\n');
    forall j | 0 <= j < |Fields| ensures ReadLine(Fields[j], lines[j]) == Some(values[j]) {
      ReadGivenLine(Fields[j], FieldValue(data, Fields[j]));
    }
    ReadLinesAll(Fields, lines, values);
    RecoveredIsGiven(data);
  }

  lemma ReadAfterHead(body: string)
    ensures ReadPrompt(Head + body) ==
      (var lines := SplitOn(body, '\n'); if |lines| < |Fields| then None else ReadLines(Fields, lines[..|Fields|]))
  {
    assert (Head + body)[..|Head|] == Head;
    assert (Head + body)[|Head|..] == body;
  }

  lemma {:induction false} ReadLinesAll(fields: seq<Field>, lines: seq<string>, values: seq<Option<string>>)
    requires |fields| == |lines| == |values|
    requires forall j | 0 <= j < |fields| :: ReadLine(fields[j], lines[j]) == Some(values[j])
    ensures ReadLines(fields, lines) == Some(values)
    decreases |fields|
  {
    if fields != [] {
      ReadLinesAll(fields[1..], lines[1..], values[1..]);
      assert [values[0]] + values[1..] == values;
    }
  }
}
