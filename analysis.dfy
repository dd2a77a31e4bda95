/**
 * `SpeechAnalysisContent`: the commentary the client shows under a generated
 * speech. The speech is normalised; four ordered pattern lists each yield
 * the capture of their first matching pattern; simple structural metrics
 * are taken; and fixed remarks are chosen from these findings.
 */
module Analysis {
  import opened Wrappers
  import opened JsText

  /**
   * One regular expression of a pattern list, applied with `String.prototype.match`:
   * its first capture group at the leftmost match, or `None` when it does not
   * match. The expressions themselves are not modelled.
   */
  type Matcher = string -> Option<string>

  datatype PatternLists = PatternLists(
    name: seq<Matcher>,
    role: seq<Matcher>,
    work: seq<Matcher>,
    motivation: seq<Matcher>)

  /** The position of the first pattern that matches, or `|patterns|` when none does. */
  function FirstMatchIndex(patterns: seq<Matcher>, text: string): (k: nat)
    ensures k <= |patterns|
    ensures forall j | 0 <= j < k :: patterns[j](text).None?
    ensures k < |patterns| ==> patterns[k](text).Some?
  {
    if patterns == [] then 0
    else if patterns[0](text).Some? then 0
    else 1 + FirstMatchIndex(patterns[1..], text)
  }

  function Capture(c: string, trimCapture: bool): string {
    if trimCapture then Trim(c) else c
  }

  /** The (possibly trimmed) capture of the first matching pattern, or `None`. */
  function FirstMatch(patterns: seq<Matcher>, text: string, trimCapture: bool): (found: Option<string>)
    ensures found.None? <==> forall j | 0 <= j < |patterns| :: patterns[j](text).None?
    ensures found.Some? ==>
      exists k | 0 <= k < |patterns| :: MatchesFirstAt(patterns, text, k)
        && found.value == Capture(patterns[k](text).value, trimCapture)
  {
    var k := FirstMatchIndex(patterns, text);
    if k < |patterns| then
      assert MatchesFirstAt(patterns, text, k);
      Some(Capture(patterns[k](text).value, trimCapture))
    else None
  }

  /**
   * One extraction block: try each pattern in list order and stop at the
   * first that matches, keeping its capture (trimmed where the source trims).
   */
  method FirstCapture(patterns: seq<Matcher>, text: string, trimCapture: bool) returns (found: Option<string>)
    ensures found.None? <==> forall j | 0 <= j < |patterns| :: patterns[j](text).None?
    ensures found.Some? ==>
      exists k | 0 <= k < |patterns| :: MatchesFirstAt(patterns, text, k)
        && found.value == Capture(patterns[k](text).value, trimCapture)
    ensures found == FirstMatch(patterns, text, trimCapture)
  {
    found := None;
    var i := 0;
    while i < |patterns|
      invariant 0 <= i <= |patterns|
      invariant forall j | 0 <= j < i :: patterns[j](text).None?
    {
      var m := patterns[i](text);
      if m.Some? {
        found := Some(Capture(m.value, trimCapture));
        FirstMatchAt(patterns, text, i);
        break;
      }
      i := i + 1;
    }
    if found.None? {
      FirstMatchAt(patterns, text, |patterns|);
    }
  }

  /** Pattern `k` matches and none before it does. */
  predicate MatchesFirstAt(patterns: seq<Matcher>, text: string, k: nat)
    requires k < |patterns|
  {
    patterns[k](text).Some? && forall j | 0 <= j < k :: patterns[j](text).None?
  }

  lemma {:induction false} FirstMatchAt(patterns: seq<Matcher>, text: string, k: nat)
    requires k <= |patterns|
    requires forall j | 0 <= j < k :: patterns[j](text).None?
    requires k < |patterns| ==> patterns[k](text).Some?
    ensures FirstMatchIndex(patterns, text) == k
    decreases k
  {
    if k > 0 {
      assert patterns[0](text).None?;
      FirstMatchAt(patterns[1..], text, k - 1);
    }
  }

  /** Patterns after the first match are never consulted: appending more changes nothing. */
  lemma {:induction false} FirstMatchIgnoresLater(patterns: seq<Matcher>, later: seq<Matcher>, text: string, trimCapture: bool)
    requires FirstMatchIndex(patterns, text) < |patterns|
    ensures FirstMatch(patterns + later, text, trimCapture) == FirstMatch(patterns, text, trimCapture)
  {
    var k := FirstMatchIndex(patterns, text);
    var all := patterns + later;
    assert forall j | 0 <= j <= k :: all[j] == patterns[j];
    FirstMatchAt(all, text, k);
  }

  /** The four extractions; only the speaker's name is used untrimmed. */
  datatype Findings = Findings(
    speakerName: Option<string>,
    role: Option<string>,
    workDescription: Option<string>,
    motivation: Option<string>)

  function FindingsOf(patterns: PatternLists, clean: string): (f: Findings)
    ensures f.speakerName == FirstMatch(patterns.name, clean, false)
    ensures f.speakerName.Some? ==> f.speakerName.value == patterns.name[FirstMatchIndex(patterns.name, clean)](clean).value
    ensures f.role == FirstMatch(patterns.role, clean, true) && Trimmed(f.role)
    ensures f.workDescription == FirstMatch(patterns.work, clean, true) && Trimmed(f.workDescription)
    ensures f.motivation == FirstMatch(patterns.motivation, clean, true) && Trimmed(f.motivation)
  {
    CaptureTrimmed(patterns.role, clean);
    CaptureTrimmed(patterns.work, clean);
    CaptureTrimmed(patterns.motivation, clean);
    Findings(
      FirstMatch(patterns.name, clean, false),
      FirstMatch(patterns.role, clean, true),
      FirstMatch(patterns.work, clean, true),
      FirstMatch(patterns.motivation, clean, true))
  }

  /** An extraction that, when present, has no whitespace at either end. */
  predicate Trimmed(o: Option<string>) {
    o.Some? ==> Trim(o.value) == o.value
  }

  /** A trimmed capture is the trim of the first matching pattern's capture, and trimming it again changes nothing. */
  lemma CaptureTrimmed(patterns: seq<Matcher>, text: string)
    ensures FirstMatch(patterns, text, true).Some? ==>
      FirstMatch(patterns, text, true).value == Trim(patterns[FirstMatchIndex(patterns, text)](text).value)
    ensures Trimmed(FirstMatch(patterns, text, true))
  {
    var found := FirstMatch(patterns, text, true);
    if found.Some? {
      TrimUntouched(found.value);
    }
  }

  method ExtractFindings(patterns: PatternLists, clean: string) returns (findings: Findings)
    ensures findings == FindingsOf(patterns, clean)
  {
    var speakerName := FirstCapture(patterns.name, clean, false);
    var role := FirstCapture(patterns.role, clean, true);
    var workDescription := FirstCapture(patterns.work, clean, true);
    var motivation := FirstCapture(patterns.motivation, clean, true);
    findings := Findings(speakerName, role, workDescription, motivation);
  }

  /** The `[.!?]` class whose runs separate sentences. */
  predicate IsSentenceEnd(c: char) {
    c == '.' || c == '!' || c == '?'
  }

  /** `pieces.filter(s => s.trim().length > 0)`. */
  function NonBlankPieces(pieces: seq<string>): (kept: seq<string>)
    ensures |kept| <= |pieces|
    ensures forall s :: s in kept <==> s in pieces && !IsBlank(s)
    ensures forall s :: multiset(kept)[s] == if IsBlank(s) then 0 else multiset(pieces)[s]
  {
    if pieces == [] then []
    else
      var rest := NonBlankPieces(pieces[1..]);
      assert pieces == [pieces[0]] + pieces[1..];
      assert multiset(pieces) == multiset{pieces[0]} + multiset(pieces[1..]);
      if Trim(pieces[0]) != [] then
        assert multiset([pieces[0]] + rest) == multiset{pieces[0]} + multiset(rest);
        [pieces[0]] + rest
      else rest
  }

  /**
   * The non-blank fragments between runs of sentence-ending punctuation:
   * every non-blank fragment is kept, as often as it occurs, and nothing else.
   */
  function Sentences(clean: string): (sentences: seq<string>)
    ensures |sentences| <= |SplitRuns(clean, IsSentenceEnd)|
    ensures forall s | s in sentences :: !IsBlank(s) && NoneSatisfy(s, IsSentenceEnd)
    ensures forall s :: s in sentences <==> s in SplitRuns(clean, IsSentenceEnd) && !IsBlank(s)
    ensures forall s :: multiset(sentences)[s] == if IsBlank(s) then 0 else multiset(SplitRuns(clean, IsSentenceEnd))[s]
  {
    NonBlankPieces(SplitRuns(clean, IsSentenceEnd))
  }

  /** `clean.split(/\s+/).length`: the pieces between whitespace runs. */
  function WordCount(clean: string): (n: nat)
    ensures n >= 1
  {
    |SplitRuns(clean, IsWhitespace)|
  }

  /**
   * On normalised text every counted piece is a word: non-empty and free
   * of whitespace. Empty text still counts one (empty) piece.
   */
  lemma WordCountCountsWords(clean: string)
    requires Normalized(clean)
    ensures clean == [] ==> WordCount(clean) == 1
    ensures clean != [] ==> forall j | 0 <= j < |SplitRuns(clean, IsWhitespace)| ::
      SplitRuns(clean, IsWhitespace)[j] != [] && NoneSatisfy(SplitRuns(clean, IsWhitespace)[j], IsWhitespace)
  {
    if clean != [] {
      NormalizedWordsNonEmpty(clean);
    }
  }

  const TransitionWords: seq<string> :=
    ["now", "so", "here's the thing", "and", "but", "however", "therefore", "what's more", "additionally"]

  /** Some word of `words` occurs in `text` (already lower-cased). */
  function AnyOccurs(text: string, words: seq<string>): (b: bool)
    ensures b <==> exists i | 0 <= i < |words| :: Contains(text, words[i])
  {
    if words == [] then false
    else Contains(text, words[0]) || AnyOccurs(text, words[1..])
  }

  /**
   * The case-insensitive transition test: any listed word anywhere in the
   * text, with no regard for word boundaries.
   */
  function HasTransitions(clean: string): (b: bool)
    ensures b <==> exists i | 0 <= i < |TransitionWords| :: Contains(LowerAscii(clean), TransitionWords[i])
  {
    AnyOccurs(LowerAscii(clean), TransitionWords)
  }

  /** "and" counts wherever it occurs, even inside another word such as "understand". */
  lemma TransitionInsideWord(before: string, after: string)
    ensures HasTransitions(before + "and" + after)
  {
    var text := before + "and" + after;
    var lower := LowerAscii(text);
    assert text[|before|..|before| + 3] == "and";
    assert lower[|before|..|before| + 3] == "and";
    assert OccursAt(lower, "and", |before|);
    assert TransitionWords[3] == "and";
  }

  /** `speech.toLowerCase().includes('you')`, on the speech as received. */
  function MentionsYou(speech: string): (b: bool)
    ensures b <==> exists k | 0 <= k && k + 3 <= |speech| :: YouAt(speech, k)
  {
    var lower := LowerAscii(speech);
    forall k | 0 <= k && k + 3 <= |speech|
      ensures OccursAt(lower, "you", k) <==> YouAt(speech, k)
    {
      LowerYouAt(speech, lower, k);
    }
    Contains(lower, "you")
  }

  /** `t` is `s` with ASCII capitals folded to lower case. */
  predicate Folded(s: string, t: string) {
    |t| == |s| && forall i | 0 <= i < |s| :: t[i] == (if 'A' <= s[i] <= 'Z' then (s[i] as int + 32) as char else s[i])
  }

  lemma LowerYouAt(s: string, t: string, k: nat)
    requires Folded(s, t) && k + 3 <= |s|
    ensures OccursAt(t, "you", k) <==> YouAt(s, k)
  {
    YouSlice(t, k);
    var j := k + 1;
    var m := k + 2;
    LowerLetterAt(s, t, k, 'y', 'Y');
    LowerLetterAt(s, t, j, 'o', 'O');
    LowerLetterAt(s, t, m, 'u', 'U');
  }

  lemma LowerLetterAt(s: string, t: string, i: nat, small: char, big: char)
    requires Folded(s, t) && i < |s| && 'a' <= small <= 'z' && big as int == small as int - 32
    ensures t[i] == small <==> s[i] == small || s[i] == big
  {
    LowerLetter(s[i], t[i], small, big);
  }

  lemma YouSlice(t: string, k: nat)
    requires k + 3 <= |t|
    ensures OccursAt(t, "you", k) <==> t[k] == 'y' && t[k + 1] == 'o' && t[k + 2] == 'u'
  {
    assert t[k..k + 3] == [t[k], t[k + 1], t[k + 2]];
  }

  /** ASCII folding yields the lower-case letter `small` exactly from it and its capital `big`. */
  lemma LowerLetter(c: char, l: char, small: char, big: char)
    requires l == (if 'A' <= c <= 'Z' then (c as int + 32) as char else c)
    requires 'a' <= small <= 'z' && big as int == small as int - 32
    ensures l == small <==> c == small || c == big
  {
    if 'A' <= c <= 'Z' {
      assert l as int == c as int + 32;
    }
  }

  /** "you" in any mix of upper and lower case starts at `k`. */
  predicate YouAt(s: string, k: nat)
    requires k + 3 <= |s|
  {
    (s[k] == 'y' || s[k] == 'Y') && (s[k + 1] == 'o' || s[k + 1] == 'O') && (s[k + 2] == 'u' || s[k + 2] == 'U')
  }

  /** A remark of the commentary; the `...Stated` ones quote an extraction. */
  datatype Remark =
    | NameStated(name: string)
    | NameMissing
    | RoleStated(role: string)
    | RoleMissing
    | StrongWho
    | WorkStated(work: string)
    | WorkMissing
    | HelpingOthers
    | ConcreteExamples
    | MotivationStated(motivation: string)
    | MotivationMissing
    | Authenticity
    | GenuineMotivation
    | ShorterSentences
    | AddTransitions
    | TrimWords
    | AddressAudience
    | Closing

  /** The remarks of the WHO, WHAT and WHY paragraphs and of the suggestions, in order. */
  datatype Commentary = Commentary(who: seq<Remark>, what: seq<Remark>, why: seq<Remark>, suggestions: seq<Remark>)

  /** A JSX condition on an extraction: `null` and the empty string are both falsy. */
  predicate Present(o: Option<string>) {
    o.Some? && o.value != ""
  }

  const SentenceLimit := 15
  const WordLimit := 320

  function Who(f: Findings): (who: seq<Remark>)
    ensures |who| == (if Present(f.speakerName) && Present(f.role) then 3 else 2)
    ensures who[0] == (if Present(f.speakerName) then NameStated(f.speakerName.value) else NameMissing)
    ensures who[1] == (if Present(f.role) then RoleStated(f.role.value) else RoleMissing)
    ensures StrongWho in who <==> Present(f.speakerName) && Present(f.role)
  {
    [if Present(f.speakerName) then NameStated(f.speakerName.value) else NameMissing,
     if Present(f.role) then RoleStated(f.role.value) else RoleMissing]
    + (if Present(f.speakerName) && Present(f.role) then [StrongWho] else [])
  }

  /** Each suggestion appears exactly when its condition holds; the closing advice always ends the list. */
  function Suggestions(sentenceCount: nat, wordCount: nat, hasTransitions: bool, mentionsYou: bool): (s: seq<Remark>)
    ensures ShorterSentences in s <==> sentenceCount > SentenceLimit
    ensures AddTransitions in s <==> !hasTransitions
    ensures TrimWords in s <==> wordCount > WordLimit
    ensures AddressAudience in s <==> !mentionsYou
    ensures |s| >= 1 && s[|s| - 1] == Closing
    ensures Closing !in s[..|s| - 1]
  {
    var optional := OptionalSuggestions(sentenceCount, wordCount, hasTransitions, mentionsYou);
    OptionalMembers(sentenceCount, wordCount, hasTransitions, mentionsYou);
    assert (optional + [Closing])[..|optional|] == optional;
    optional + [Closing]
  }

  lemma OptionalMembers(sentenceCount: nat, wordCount: nat, hasTransitions: bool, mentionsYou: bool)
    ensures var o := OptionalSuggestions(sentenceCount, wordCount, hasTransitions, mentionsYou);
      && (ShorterSentences in o <==> sentenceCount > SentenceLimit)
      && (AddTransitions in o <==> !hasTransitions)
      && (TrimWords in o <==> wordCount > WordLimit)
      && (AddressAudience in o <==> !mentionsYou)
      && Closing !in o
  {
  }

  function OptionalSuggestions(sentenceCount: nat, wordCount: nat, hasTransitions: bool, mentionsYou: bool): seq<Remark> {
    Opt(sentenceCount > SentenceLimit, ShorterSentences) + Opt(!hasTransitions, AddTransitions)
    + Opt(wordCount > WordLimit, TrimWords) + Opt(!mentionsYou, AddressAudience)
  }

  /** `{cond && <p>…</p>}`: the remark when the condition holds, nothing otherwise. */
  function Opt(cond: bool, r: Remark): seq<Remark> {
    if cond then [r] else []
  }

  /** Where a suggestion stands in the list the source writes out. */
  function SuggestionRank(r: Remark): nat {
    match r
    case ShorterSentences => 0
    case AddTransitions => 1
    case TrimWords => 2
    case AddressAudience => 3
    case _ => 4
  }

  predicate RanksIncrease(s: seq<Remark>) {
    forall i, j | 0 <= i < j < |s| :: SuggestionRank(s[i]) < SuggestionRank(s[j])
  }

  /** The suggestions keep the source's order, so none is repeated. */
  lemma SuggestionsInOrder(sentenceCount: nat, wordCount: nat, hasTransitions: bool, mentionsYou: bool)
    ensures RanksIncrease(Suggestions(sentenceCount, wordCount, hasTransitions, mentionsYou))
  {
    OptionalInOrder(sentenceCount, wordCount, hasTransitions, mentionsYou);
    RanksExtend(OptionalSuggestions(sentenceCount, wordCount, hasTransitions, mentionsYou), 4, [Closing]);
  }

  lemma OptionalInOrder(sentenceCount: nat, wordCount: nat, hasTransitions: bool, mentionsYou: bool)
    ensures RanksIncrease(OptionalSuggestions(sentenceCount, wordCount, hasTransitions, mentionsYou))
    ensures forall i | 0 <= i < |OptionalSuggestions(sentenceCount, wordCount, hasTransitions, mentionsYou)| ::
      SuggestionRank(OptionalSuggestions(sentenceCount, wordCount, hasTransitions, mentionsYou)[i]) < 4
  {
    var p0 := Opt(sentenceCount > SentenceLimit, ShorterSentences);
    var p1 := p0 + Opt(!hasTransitions, AddTransitions);
    var p2 := p1 + Opt(wordCount > WordLimit, TrimWords);
    var p3 := p2 + Opt(!mentionsYou, AddressAudience);
    RanksOpt(sentenceCount > SentenceLimit, ShorterSentences);
    RanksExtendOpt(p0, 1, !hasTransitions, AddTransitions);
    RanksExtendOpt(p1, 2, wordCount > WordLimit, TrimWords);
    RanksExtendOpt(p2, 3, !mentionsYou, AddressAudience);
    assert OptionalSuggestions(sentenceCount, wordCount, hasTransitions, mentionsYou) == p3;
  }

  lemma RanksOpt(cond: bool, r: Remark)
    ensures RanksIncrease(Opt(cond, r))
    ensures forall i | 0 <= i < |Opt(cond, r)| :: SuggestionRank(Opt(cond, r)[i]) == SuggestionRank(r)
  {
  }

  lemma RanksExtendOpt(p: seq<Remark>, k: nat, cond: bool, r: Remark)
    requires RanksIncrease(p) && forall i | 0 <= i < |p| :: SuggestionRank(p[i]) < k
    requires SuggestionRank(r) == k
    ensures RanksIncrease(p + Opt(cond, r))
    ensures forall i | 0 <= i < |p + Opt(cond, r)| :: SuggestionRank((p + Opt(cond, r))[i]) < k + 1
  {
    if cond {
      RanksExtend(p, k, [r]);
    } else {
      assert p + Opt(cond, r) == p;
    }
  }

  /** Appending at most one remark of rank `k` after remarks of lower ranks keeps the ranks increasing. */
  lemma RanksExtend(p: seq<Remark>, k: nat, next: seq<Remark>)
    requires RanksIncrease(p) && forall i | 0 <= i < |p| :: SuggestionRank(p[i]) < k
    requires |next| <= 1 && forall i | 0 <= i < |next| :: SuggestionRank(next[i]) == k
    ensures RanksIncrease(p + next)
    ensures forall i | 0 <= i < |p + next| :: SuggestionRank((p + next)[i]) < k + 1
  {
  }

  /**
   * The remarks chosen from the findings and metrics: each paragraph states
   * its extraction when present and gives the hint otherwise.
   */
  function CommentaryFor(f: Findings, sentenceCount: nat, wordCount: nat, hasTransitions: bool, mentionsYou: bool): (c: Commentary)
    ensures c.who == Who(f)
    ensures |c.what| == 2 && |c.why| == 2
    ensures c.what[0].WorkStated? <==> Present(f.workDescription)
    ensures c.what[0].WorkStated? ==> c.what[0].work == f.workDescription.value
    ensures c.what[0] == WorkMissing || c.what[0].WorkStated?
    ensures c.what[1] == (if c.what[0].WorkStated? then HelpingOthers else ConcreteExamples)
    ensures c.why[0].MotivationStated? <==> Present(f.motivation)
    ensures c.why[0].MotivationStated? ==> c.why[0].motivation == f.motivation.value
    ensures c.why[0] == MotivationMissing || c.why[0].MotivationStated?
    ensures c.why[1] == (if c.why[0].MotivationStated? then Authenticity else GenuineMotivation)
    ensures c.suggestions == Suggestions(sentenceCount, wordCount, hasTransitions, mentionsYou)
  {
    Commentary(
      Who(f),
      if Present(f.workDescription) then [WorkStated(f.workDescription.value), HelpingOthers]
      else [WorkMissing, ConcreteExamples],
      if Present(f.motivation) then [MotivationStated(f.motivation.value), Authenticity]
      else [MotivationMissing, GenuineMotivation],
      Suggestions(sentenceCount, wordCount, hasTransitions, mentionsYou))
  }

  /** The openings of the remarks that quote the work description and the motivation. */
  const WorkQuote := @"The speech clearly explains the value provided: """
  const MotivationQuote := @"The emotional driver comes through clearly: """

  /** The text each remark renders as. */
  function RemarkText(r: Remark): string {
    match r
    case NameStated(name) => name + " establishes personal identity immediately, creating trust and memorability."
    case NameMissing => "The speech opens without personal identification, missing an opportunity to build immediate connection."
    case RoleStated(role) => " The professional identity as " + role + @" provides context and credibility, completing the ""who am I"" foundation."
    case RoleMissing => " Adding a clear professional role would strengthen audience understanding of expertise and background."
    case StrongWho => " This strong WHO foundation sets up the framework effectively."
    case WorkStated(work) => WorkQuote + work + @"."" This addresses the critical ""what do I do"" question with specific, audience-focused language."
    case WorkMissing => "The WHAT section needs development - listeners need to understand specific services, skills, or value provided."
    case HelpingOthers => " By focusing on helping others rather than job titles, the speech follows framework best practices for audience engagement."
    case ConcreteExamples => @" Consider adding concrete examples like ""I help restaurant owners reduce food waste by 30%"" or ""I teach public speaking skills to overcome presentation anxiety."""
    case MotivationStated(motivation) => MotivationQuote + motivation + @"."" This personal motivation completes the framework by revealing what truly matters beyond professional obligations."
    case MotivationMissing => "The WHY element - the emotional core that makes speeches memorable - is absent from this version."
    case Authenticity => " This authenticity creates the connection that transforms professional introductions into meaningful conversations."
    case GenuineMotivation => @" Adding genuine motivation like ""I started this work after my own experience with workplace stress"" or ""Teaching became my passion when I saw how education changed my community"" would complete the framework."
    case ShorterSentences => "Consider shorter sentences for easier spoken delivery. "
    case AddTransitions => @"Add smooth transitions between framework sections: ""What I do is..."" followed by ""The reason this matters to me is..."" "
    case TrimWords => "Trim to under 300 words while preserving all three framework elements. "
    case AddressAudience => @"Include direct audience connection with ""you"" language to strengthen engagement. "
    case Closing => ClosingText
  }

  /** The closing advice that ends every list of suggestions. */
  const ClosingText := @"For maximum impact: Add a brief success story like ""Recently, I helped a client achieve their first profitable quarter"" and close with conversation starter like ""What brings you to this event tonight?"""

  /** The remarks of a paragraph rendered one after another, with nothing between them. */
  function RemarksText(remarks: seq<Remark>): string {
    Render(remarks, RemarkText)
  }

  function Render(remarks: seq<Remark>, text: Remark -> string): string {
    if remarks == [] then [] else text(remarks[0]) + Render(remarks[1..], text)
  }

  /**
   * The text of the five paragraphs. JSX drops the whitespace-only text
   * between the expressions, so the remarks of a paragraph abut; one space
   * follows each of the first three headings, none the last.
   */
  function Paragraphs(c: Commentary): seq<string> {
    [Opening,
     WhoHeading + RemarksText(c.who),
     WhatHeading + RemarksText(c.what),
     WhyHeading + RemarksText(c.why),
     SuggestionsHeading + RemarksText(c.suggestions)]
  }

  const Opening := "This speech demonstrates how the Who-What-Why framework creates connection and credibility through structured personal storytelling."
  const WhoHeading := "WHO Framework Component: "
  const WhatHeading := "WHAT Framework Component: "
  const WhyHeading := "WHY Framework Component: "
  const SuggestionsHeading := "Framework Enhancement Suggestions:"

  predicate StartsWith(s: string, p: string) {
    |p| <= |s| && s[..|p|] == p
  }

  predicate EndsWith(s: string, p: string) {
    |p| <= |s| && s[|s| - |p|..] == p
  }

  /**
   * The rendered paragraphs quote what was found: the WHO paragraph opens
   * with the speaker's name, the WHAT and WHY paragraphs with the quoted
   * work description and motivation, and the suggestions end with the
   * closing advice.
   */
  lemma WhoParagraph(c: Commentary)
    ensures c.who != [] && c.who[0].NameStated? ==> StartsWith(Paragraphs(c)[1], WhoHeading + c.who[0].name)
  {
    if c.who != [] && c.who[0].NameStated? {
      NameRemarkStarts(c.who[0].name);
      ParagraphStarts(WhoHeading, c.who, RemarkText, c.who[0].name);
    }
  }

  lemma WhatParagraph(c: Commentary)
    ensures c.what != [] && c.what[0].WorkStated? ==> StartsWith(Paragraphs(c)[2], WhatHeading + (WorkQuote + c.what[0].work))
  {
    if c.what != [] && c.what[0].WorkStated? {
      WorkRemarkStarts(c.what[0].work);
      ParagraphStarts(WhatHeading, c.what, RemarkText, WorkQuote + c.what[0].work);
    }
  }

  lemma WhyParagraph(c: Commentary)
    ensures c.why != [] && c.why[0].MotivationStated? ==> StartsWith(Paragraphs(c)[3], WhyHeading + (MotivationQuote + c.why[0].motivation))
  {
    if c.why != [] && c.why[0].MotivationStated? {
      MotivationRemarkStarts(c.why[0].motivation);
      ParagraphStarts(WhyHeading, c.why, RemarkText, MotivationQuote + c.why[0].motivation);
    }
  }

  lemma SuggestionsParagraph(c: Commentary)
    ensures c.suggestions != [] && c.suggestions[|c.suggestions| - 1] == Closing ==> EndsWith(Paragraphs(c)[4], ClosingText)
  {
    if c.suggestions != [] && c.suggestions[|c.suggestions| - 1] == Closing {
      ParagraphEnds(SuggestionsHeading, c.suggestions, RemarkText);
    }
  }

  lemma NameRemarkStarts(name: string)
    ensures StartsWith(RemarkText(NameStated(name)), name)
  {
  }

  lemma WorkRemarkStarts(work: string)
    ensures StartsWith(RemarkText(WorkStated(work)), WorkQuote + work)
  {
  }

  lemma MotivationRemarkStarts(motivation: string)
    ensures StartsWith(RemarkText(MotivationStated(motivation)), MotivationQuote + motivation)
  {
  }

  /** A paragraph whose first remark opens with `q` opens with its heading and `q`. */
  lemma ParagraphStarts(heading: string, remarks: seq<Remark>, text: Remark -> string, q: string)
    requires remarks != [] && StartsWith(text(remarks[0]), q)
    ensures StartsWith(heading + Render(remarks, text), heading + q)
  {
    var first := text(remarks[0]);
    assert Render(remarks, text) == first + Render(remarks[1..], text);
    assert first == q + first[|q|..];
    PrefixOf(heading, q, first[|q|..], Render(remarks[1..], text));
  }

  lemma PrefixOf(heading: string, p: string, more: string, rest: string)
    ensures StartsWith(heading + ((p + more) + rest), heading + p)
  {
    assert heading + ((p + more) + rest) == (heading + p) + (more + rest);
  }

  /** A paragraph whose last remark is the closing advice ends with its text. */
  lemma ParagraphEnds(heading: string, remarks: seq<Remark>, text: Remark -> string)
    requires remarks != [] && remarks[|remarks| - 1] == Closing
    ensures EndsWith(heading + Render(remarks, text), text(Closing))
  {
    RenderEnds(remarks, text);
    SuffixOf(heading, Render(remarks, text), text(Closing));
  }

  lemma {:induction false} RenderEnds(remarks: seq<Remark>, text: Remark -> string)
    requires remarks != []
    ensures EndsWith(Render(remarks, text), text(remarks[|remarks| - 1]))
  {
    var tail := Render(remarks[1..], text);
    assert Render(remarks, text) == text(remarks[0]) + tail;
    if |remarks| == 1 {
      assert tail == [];
    } else {
      RenderEnds(remarks[1..], text);
      assert remarks[1..][|remarks| - 2] == remarks[|remarks| - 1];
      SuffixOf(text(remarks[0]), tail, text(remarks[|remarks| - 1]));
    }
  }

  lemma SuffixOf(a: string, b: string, p: string)
    requires EndsWith(b, p)
    ensures EndsWith(a + b, p)
  {
    assert (a + b)[|a + b| - |p|..] == b[|b| - |p|..];
  }

  /** The whole analysis of one speech, as a specification. */
  function Analyze(speech: string, patterns: PatternLists): Commentary {
    var clean := Normalize(speech);
    CommentaryFor(FindingsOf(patterns, clean), |Sentences(clean)|, WordCount(clean), HasTransitions(clean), MentionsYou(speech))
  }

  /**
   * `SpeechAnalysisContent`: normalise, run the four extraction blocks, take
   * the metrics (the "you" test on the speech as received, the others on the
   * normalised text) and choose the remarks.
   */
  method AnalyzeSpeech(speech: string, patterns: PatternLists) returns (commentary: Commentary)
    ensures commentary == Analyze(speech, patterns)
    ensures var clean := Normalize(speech);
      && (StrongWho in commentary.who <==>
            Present(FirstMatch(patterns.name, clean, false)) && Present(FirstMatch(patterns.role, clean, true)))
      && (ShorterSentences in commentary.suggestions <==> |Sentences(clean)| > SentenceLimit)
      && (AddTransitions in commentary.suggestions <==> !HasTransitions(clean))
      && (TrimWords in commentary.suggestions <==> WordCount(clean) > WordLimit)
      && (AddressAudience in commentary.suggestions <==> !MentionsYou(speech))
      && commentary.suggestions[|commentary.suggestions| - 1] == Closing
  {
    var clean := Normalize(speech);
    var findings := ExtractFindings(patterns, clean);
    var sentences := Sentences(clean);
    var wordCount := WordCount(clean);
    var hasTransitions := HasTransitions(clean);
    commentary := CommentaryFor(findings, |sentences|, wordCount, hasTransitions, MentionsYou(speech));
  }
}
