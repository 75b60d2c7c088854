/**
 * The canned-reply generator behind `POST /api/chat`.
 *
 * A conversation is scanned from its end for the latest user message; its
 * trimmed text is put into a topic category by keyword, a list of bullet
 * sections is derived from three more keyword groups, and the reply is laid
 * out from fixed phrase pools. The three random pool picks that
 * `generateReply` in route.ts makes are a `Draw` parameter here, which makes
 * every operation deterministic.
 */
module Chat {
  import opened Text

  datatype Option<T> = None | Some(value: T)

  // ---------------------------------------------------------------------
  // Data
  // ---------------------------------------------------------------------

  datatype Role = User | Assistant

  /** One chat turn as the client sends it. */
  datatype Message = Message(role: Role, content: string)

  datatype Category = Travel | Brainstorming | Summary | General

  /** The canned paragraph for each topic other than General. */
  const KnowledgeBase: map<Category, string> := map[
    Travel := "Here is a plan that balances discovery, local food finds, and stress-free pacing. Travel light, reserve ahead, and carve out unstructured time to follow your curiosity.",
    Brainstorming := "Let's break the idea into a problem, a differentiated approach, and the smallest experiment you can run this week to prove value.",
    Summary := "I'll compress the key takeaways, highlight critical numbers, and surface action items in a tidy list."
  ]

  /** The paragraph used when no topic keyword occurs. */
  const GeneralCore := "I’ll think through this with structured reasoning and keep things concise."

  const EmojiPalette: seq<string> := ["✨", "🚀", "🌱", "🧠", "🌟", "🗺️", "🎯"]

  const IntroPhrases: seq<string> := [
    "Here’s a structured way to look at it:",
    "Let’s break this into clear next steps:",
    "Here’s a thoughtful walkthrough:"
  ]

  const OutroPhrases: seq<string> := [
    "Let me know what you want to dive deeper into.",
    "Want to iterate on any part of this?",
    "I can expand any section—just say the word."
  ]

  const ReadyReply := "I’m here and ready whenever you want to start the conversation."
  const MoreDetailReply := "Could you share a bit more detail so I can help more precisely?"
  const ErrorReply := "Something went wrong on my end—mind trying again?"

  const TravelKeywords: seq<string> := ["trip", "travel", "itinerary", "vacation"]
  const BrainstormKeywords: seq<string> := ["brainstorm", "idea", "startup", "concept"]
  const SummaryKeywords: seq<string> := ["summary", "summarize", "recap", "outline"]

  const PlanKeywords: seq<string> := ["plan", "schedule", "timeline"]
  const TipsKeywords: seq<string> := ["tips", "recommend"]
  const ResourceKeywords: seq<string> := ["resources", "tools", "apps"]

  const TimelineSection := "Timeline with milestones and checkpoints."
  const TipsSection := "Actionable tips tailored to your context."
  // The two longest sentences are written in two pieces, which lets the
  // verifier check their characters piece by piece.
  const ResourcesSection := "Tool and resource " + "recommendations worth exploring."
  const KeyIdeasSection := "Key ideas distilled into quick-read bullets."
  const NextStepsSection := "Optional next steps " + "so you can get moving fast."
  const FallbackSections: seq<string> := [KeyIdeasSection, NextStepsSection]

  /** The three pool positions that `Math.random` picks in `generateReply`. */
  datatype Draw = Draw(intro: nat, outro: nat, emoji: nat) {
    predicate InRange() {
      intro < |IntroPhrases| && outro < |OutroPhrases| && emoji < |EmojiPalette|
    }
  }

  // ---------------------------------------------------------------------
  // Keyword matching
  // ---------------------------------------------------------------------

  /** Reference meaning of a case-insensitive, unanchored keyword regex:
      some keyword occurs in the lowercased prompt. */
  predicate Mentions(prompt: string, keywords: seq<string>) {
    exists k :: k in keywords && Contains(Lower(prompt), k)
  }

  /** The regex test as route.ts runs it, alternative after alternative. */
  predicate Matches(prompt: string, keywords: seq<string>) {
    ContainsAny(Lower(prompt), keywords)
  }

  lemma MatchesIff(prompt: string, keywords: seq<string>)
    ensures Matches(prompt, keywords) <==> Mentions(prompt, keywords)
  {
    ContainsAnyIff(Lower(prompt), keywords);
  }

  /** Letter case never changes whether a keyword group matches. */
  lemma MatchesIgnoresCase(p: string, q: string, keywords: seq<string>)
    requires SameIgnoringCase(p, q)
    ensures Matches(p, keywords) <==> Matches(q, keywords)
  {
    LowerEqualIff(p, q);
  }

  // ---------------------------------------------------------------------
  // categorize
  // ---------------------------------------------------------------------

  /** The topic of a prompt: the first keyword group that matches, in the
      order travel, brainstorming, summary. */
  function Categorize(prompt: string): Category {
    if Matches(prompt, TravelKeywords) then Travel
    else if Matches(prompt, BrainstormKeywords) then Brainstorming
    else if Matches(prompt, SummaryKeywords) then Summary
    else General
  }

  /** Each category holds exactly when its keyword group occurs and no group
      of higher priority does. */
  lemma CategorizePriority(prompt: string)
    ensures Categorize(prompt) == Travel <==> Mentions(prompt, TravelKeywords)
    ensures Categorize(prompt) == Brainstorming <==>
      !Mentions(prompt, TravelKeywords) && Mentions(prompt, BrainstormKeywords)
    ensures Categorize(prompt) == Summary <==>
      !Mentions(prompt, TravelKeywords) && !Mentions(prompt, BrainstormKeywords) &&
      Mentions(prompt, SummaryKeywords)
    ensures Categorize(prompt) == General <==>
      !Mentions(prompt, TravelKeywords) && !Mentions(prompt, BrainstormKeywords) &&
      !Mentions(prompt, SummaryKeywords)
  {
    MatchesIff(prompt, TravelKeywords);
    MatchesIff(prompt, BrainstormKeywords);
    MatchesIff(prompt, SummaryKeywords);
  }

  /** A travel keyword anywhere in the prompt makes it travel, whatever else
      the prompt says. */
  lemma TravelKeywordWins(prompt: string, k: string)
    requires k in TravelKeywords && Contains(Lower(prompt), k)
    ensures Categorize(prompt) == Travel
  {
    CategorizePriority(prompt);
  }

  lemma CategorizeIgnoresCase(p: string, q: string)
    requires SameIgnoringCase(p, q)
    ensures Categorize(p) == Categorize(q)
  {
    LowerEqualIff(p, q);
  }

  // ---------------------------------------------------------------------
  // synthesizeSections
  // ---------------------------------------------------------------------

  /** A bullet sentence and the keyword group that asks for it. */
  datatype SectionRule = SectionRule(keywords: seq<string>, sentence: string)

  const SectionRules: seq<SectionRule> := [
    SectionRule(PlanKeywords, TimelineSection),
    SectionRule(TipsKeywords, TipsSection),
    SectionRule(ResourceKeywords, ResourcesSection)
  ]

  /** The sentences of the rules whose keywords the prompt mentions, in rule order. */
  function Selected(rules: seq<SectionRule>, prompt: string): seq<string> {
    if rules == [] then []
    else
      var first := if Mentions(prompt, rules[0].keywords) then [rules[0].sentence] else [];
      first + Selected(rules[1..], prompt)
  }

  /** Reference definition of the bullet sections: the selected sentences,
      or the two fallback sentences when none is selected. */
  function Sections(prompt: string): seq<string> {
    var selected := Selected(SectionRules, prompt);
    if selected == [] then FallbackSections else selected
  }

  lemma SelectedUnfold(prompt: string)
    ensures Selected(SectionRules, prompt) ==
      (if Mentions(prompt, PlanKeywords) then [TimelineSection] else []) +
      (if Mentions(prompt, TipsKeywords) then [TipsSection] else []) +
      (if Mentions(prompt, ResourceKeywords) then [ResourcesSection] else [])
  {
    var rules := SectionRules;
    var tips := [SectionRule(TipsKeywords, TipsSection), SectionRule(ResourceKeywords, ResourcesSection)];
    var resources := [SectionRule(ResourceKeywords, ResourcesSection)];
    assert rules[1..] == tips && tips[1..] == resources && resources[1..] == [];
    assert Selected(resources, prompt) ==
      (if Mentions(prompt, ResourceKeywords) then [ResourcesSection] else []) + Selected([], prompt);
  }

  /** `synthesizeSections`: appends one sentence per matching keyword group,
      then the two fallback sentences if nothing was appended. */
  method SynthesizeSections(prompt: string) returns (segments: seq<string>)
    ensures segments == Sections(prompt)
  {
    segments := [];
    if Matches(prompt, PlanKeywords) {
      segments := segments + [TimelineSection];
    }
    if Matches(prompt, TipsKeywords) {
      segments := segments + [TipsSection];
    }
    if Matches(prompt, ResourceKeywords) {
      segments := segments + [ResourcesSection];
    }
    if |segments| == 0 {
      segments := segments + [KeyIdeasSection];
      segments := segments + [NextStepsSection];
    }
    MatchesIff(prompt, PlanKeywords);
    MatchesIff(prompt, TipsKeywords);
    MatchesIff(prompt, ResourceKeywords);
    SelectedUnfold(prompt);
  }

  /** Position of a matched sentence in the fixed order timeline, tips, resources. */
  function Rank(sentence: string): nat {
    if sentence == TimelineSection then 0 else if sentence == TipsSection then 1 else 2
  }

  /** There is always at least one and never more than three sections. */
  lemma SectionsCount(prompt: string)
    ensures 1 <= |Sections(prompt)| <= 3
  {
    SelectedUnfold(prompt);
  }

  /** The fallback pair is used exactly when no section keyword occurs. */
  lemma SectionsFallback(prompt: string)
    ensures Sections(prompt) == FallbackSections <==>
      !Mentions(prompt, PlanKeywords) && !Mentions(prompt, TipsKeywords) &&
      !Mentions(prompt, ResourceKeywords)
  {
    SelectedUnfold(prompt);
    var selected := Selected(SectionRules, prompt);
    assert selected == [] <==>
      !Mentions(prompt, PlanKeywords) && !Mentions(prompt, TipsKeywords) &&
      !Mentions(prompt, ResourceKeywords);
    assert FallbackSections[0] == KeyIdeasSection && KeyIdeasSection != TimelineSection &&
      KeyIdeasSection != TipsSection && KeyIdeasSection != ResourcesSection;
  }

  /** With some section keyword present, the sections are exactly the matched
      sentences, each once, in the order timeline, tips, resources. */
  lemma SectionsMatched(prompt: string)
    requires Mentions(prompt, PlanKeywords) || Mentions(prompt, TipsKeywords) ||
      Mentions(prompt, ResourceKeywords)
    ensures var r := Sections(prompt);
      (TimelineSection in r <==> Mentions(prompt, PlanKeywords)) &&
      (TipsSection in r <==> Mentions(prompt, TipsKeywords)) &&
      (ResourcesSection in r <==> Mentions(prompt, ResourceKeywords)) &&
      KeyIdeasSection !in r && NextStepsSection !in r &&
      (forall s :: s in r ==> s in [TimelineSection, TipsSection, ResourcesSection]) &&
      (forall i, j :: 0 <= i < j < |r| ==> Rank(r[i]) < Rank(r[j]))
  {
    SelectedUnfold(prompt);
    var a := if Mentions(prompt, PlanKeywords) then [TimelineSection] else [];
    var b := if Mentions(prompt, TipsKeywords) then [TipsSection] else [];
    var c := if Mentions(prompt, ResourceKeywords) then [ResourcesSection] else [];
    assert Sections(prompt) == a + b + c;
    assert forall s :: s in a + b + c ==> s in a || s in b || s in c;
  }

  lemma SectionsIgnoreCase(p: string, q: string)
    requires SameIgnoringCase(p, q)
    ensures Sections(p) == Sections(q)
  {
    LowerEqualIff(p, q);
    assert forall ks :: Mentions(p, ks) == Mentions(q, ks);
    SelectedUnfold(p);
    SelectedUnfold(q);
  }

  // ---------------------------------------------------------------------
  // The numbered section block
  // ---------------------------------------------------------------------

  /** `sections.map((section, index) => `${index + 1}. ${section}`)`. */
  function Numbered(sections: seq<string>): (r: seq<string>)
    ensures |r| == |sections|
  {
    seq(|sections|, i requires 0 <= i < |sections| => Decimal(i + 1) + ". " + sections[i])
  }

  /** The numbered sections joined by line breaks. */
  function SectionsBlock(sections: seq<string>): string {
    Join(Numbered(sections), "\n")
  }

  /** The block read back line by line is the numbered list: line i is
      the numeral of i + 1, a dot, a space and the i-th sentence. */
  lemma SectionsBlockLines(sections: seq<string>)
    requires |sections| > 0
    requires forall i :: 0 <= i < |sections| ==> '\n' !in sections[i]
    ensures var lines := Split(SectionsBlock(sections), '\n');
      |lines| == |sections| &&
      forall i :: 0 <= i < |lines| ==>
        lines[i] == Decimal(i + 1) + ". " + sections[i] &&
        DecimalValue(Decimal(i + 1)) == i + 1
  {
    var lines := Numbered(sections);
    forall i | 0 <= i < |sections|
      ensures '\n' !in Numbered(sections)[i]
    {
      assert '\n' !in Decimal(i + 1);
    }
    SplitJoin(lines, '\n');
    forall n: nat | 1 <= n <= |lines|
      ensures DecimalValue(Decimal(n)) == n
    {
      DecimalRoundTrip(n);
    }
  }

  // None of the five section sentences contains a line break.

  lemma TimelineSingleLine() ensures '\n' !in TimelineSection {
    assert '\n' !in "Timeline with milestones and checkpoints.";
  }

  lemma TipsSingleLine() ensures '\n' !in TipsSection {
    assert '\n' !in "Actionable tips tailored to your context.";
  }

  lemma ResourcesSingleLine() ensures '\n' !in ResourcesSection {
    assert '\n' !in "Tool and resource ";
    assert '\n' !in "recommendations worth exploring.";
  }

  lemma KeyIdeasSingleLine() ensures '\n' !in KeyIdeasSection {
    assert '\n' !in "Key ideas distilled into quick-read bullets.";
  }

  lemma NextStepsSingleLine() ensures '\n' !in NextStepsSection {
    assert '\n' !in "Optional next steps ";
    assert '\n' !in "so you can get moving fast.";
  }

  /** So no section of any prompt contains a line break. */
  lemma SectionsSingleLine(prompt: string)
    ensures forall i :: 0 <= i < |Sections(prompt)| ==> '\n' !in Sections(prompt)[i]
  {
    var all := [TimelineSection, TipsSection, ResourcesSection, KeyIdeasSection, NextStepsSection];
    SelectedUnfold(prompt);
    assert forall s :: s in Sections(prompt) ==> s in all;
    TimelineSingleLine();
    TipsSingleLine();
    ResourcesSingleLine();
    KeyIdeasSingleLine();
    NextStepsSingleLine();
  }

  /** For every prompt, the block in the reply reads back as its numbered
      sections, one per line. */
  lemma PromptBlockLines(prompt: string)
    ensures var sections := Sections(prompt);
      var lines := Split(SectionsBlock(sections), '\n');
      |lines| == |sections| &&
      forall i :: 0 <= i < |lines| ==> lines[i] == Decimal(i + 1) + ". " + sections[i]
  {
    SectionsCount(prompt);
    SectionsSingleLine(prompt);
    SectionsBlockLines(Sections(prompt));
  }

  /** Without any section keyword the block is exactly the two fallback lines. */
  lemma FallbackBlock()
    ensures SectionsBlock(FallbackSections) ==
      "1. " + KeyIdeasSection + "\n" + "2. " + NextStepsSection
  {
    var lines := Numbered(FallbackSections);
    assert Decimal(1) == "1" && Decimal(2) == "2";
    assert lines[0] == "1. " + KeyIdeasSection && lines[1] == "2. " + NextStepsSection;
    assert lines[1..] == [lines[1]];
    assert Join(lines, "\n") == lines[0] + "\n" + Join(lines[1..], "\n");
  }

  // ---------------------------------------------------------------------
  // generateReply
  // ---------------------------------------------------------------------

  /** The first user message of a list. */
  function FindUser(msgs: seq<Message>): (r: Option<Message>)
    ensures r.None? <==> forall i :: 0 <= i < |msgs| ==> msgs[i].role != User
    ensures r.Some? ==> r.value.role == User && r.value in msgs
  {
    if msgs == [] then None
    else if msgs[0].role == User then Some(msgs[0])
    else FindUser(msgs[1..])
  }

  lemma {:induction false} FindUserSkips(pre: seq<Message>, m: Message, rest: seq<Message>)
    requires m.role == User
    requires forall i :: 0 <= i < |pre| ==> pre[i].role != User
    ensures FindUser(pre + [m] + rest) == Some(m)
  {
    if pre != [] {
      FindUserSkips(pre[1..], m, rest);
      assert (pre + [m] + rest)[1..] == pre[1..] + [m] + rest;
    }
  }

  /** `[...conversation].reverse().find((msg) => msg.role === "user")`. */
  function LastUserMessage(conversation: seq<Message>): Option<Message> {
    FindUser(Reversed(conversation))
  }

  /** Nothing is found exactly when no message is from the user. */
  lemma LastUserMessageNone(conversation: seq<Message>)
    ensures LastUserMessage(conversation).None? <==>
      forall i :: 0 <= i < |conversation| ==> conversation[i].role != User
  {
    var r := Reversed(conversation);
    var n := |conversation|;
    if exists i :: 0 <= i < n && conversation[i].role == User {
      var i :| 0 <= i < n && conversation[i].role == User;
      assert r[n - 1 - i] == conversation[i];
    }
  }

  /** The message found is the user message that no later user message follows. */
  lemma LastUserMessageIs(pre: seq<Message>, m: Message, post: seq<Message>)
    requires m.role == User
    requires forall i :: 0 <= i < |post| ==> post[i].role != User
    ensures LastUserMessage(pre + [m] + post) == Some(m)
  {
    ReversedAppend(pre + [m], post);
    ReversedAppend(pre, [m]);
    assert Reversed([m]) == [m];
    assert Reversed(pre + [m] + post) == Reversed(post) + [m] + Reversed(pre);
    FindUserSkips(Reversed(post), m, Reversed(pre));
  }

  /** The paragraph under the intro line. */
  function CoreParagraph(category: Category): string {
    match category
    case General => GeneralCore
    case _ => KnowledgeBase[category]
  }

  /** Every reply built from the template is longer than either fixed reply. */
  lemma LayoutIsLong(e: string, i: string, category: Category, sections: string, o: string)
    ensures |Layout(e, i, CoreParagraph(category), sections, o)| > |ReadyReply|
    ensures |ReadyReply| == |MoreDetailReply|
  {
    assert |GeneralCore| == 74;
  }

  /** The reply template: emoji and intro, then core paragraph, sections and
      outro, separated by blank lines. */
  function Layout(emoji: string, intro: string, core: string, sections: string, outro: string): string {
    emoji + " " + intro + "\n\n" + core + "\n\n" + sections + "\n\n" + outro
  }

  /** `generateReply`, with the random pool picks given by `draw`. */
  function GenerateReply(conversation: seq<Message>, draw: Draw): (r: string)
    requires draw.InRange()
    ensures |r| > 0
  {
    match LastUserMessage(conversation)
    case None => ReadyReply
    case Some(message) =>
      var prompt := Trim(message.content);
      if |prompt| == 0 then MoreDetailReply
      else
        Layout(EmojiPalette[draw.emoji], IntroPhrases[draw.intro],
          CoreParagraph(Categorize(prompt)), SectionsBlock(Sections(prompt)),
          OutroPhrases[draw.outro])
  }

  /** A conversation with no user message, the empty one included, gets the
      "ready" reply, and only such a conversation does. */
  lemma ReplyWithoutUserMessage(conversation: seq<Message>, draw: Draw)
    requires draw.InRange()
    ensures GenerateReply(conversation, draw) == ReadyReply <==>
      forall i :: 0 <= i < |conversation| ==> conversation[i].role != User
  {
    LastUserMessageNone(conversation);
    assert ReadyReply != MoreDetailReply;
    match LastUserMessage(conversation)
    case None =>
    case Some(m) =>
      var prompt := Trim(m.content);
      LayoutIsLong(EmojiPalette[draw.emoji], IntroPhrases[draw.intro], Categorize(prompt),
        SectionsBlock(Sections(prompt)), OutroPhrases[draw.outro]);
  }

  /** Only the latest user message counts: earlier messages and later
      assistant messages do not change the reply. */
  lemma ReplyUsesLastUserMessage(pre: seq<Message>, m: Message, post: seq<Message>, draw: Draw)
    requires draw.InRange()
    requires m.role == User
    requires forall i :: 0 <= i < |post| ==> post[i].role != User
    ensures GenerateReply(pre + [m] + post, draw) == GenerateReply([m], draw)
  {
    LastUserMessageIs(pre, m, post);
    LastUserMessageIs([], m, []);
    assert [] + [m] + [] == [m];
  }

  /** When the latest user message is blank, the reply asks for more detail,
      and that reply comes only from a blank message. */
  lemma ReplyToBlankMessage(pre: seq<Message>, m: Message, post: seq<Message>, draw: Draw)
    requires draw.InRange()
    requires m.role == User
    requires forall i :: 0 <= i < |post| ==> post[i].role != User
    ensures GenerateReply(pre + [m] + post, draw) == MoreDetailReply <==> AllWhitespace(m.content)
  {
    LastUserMessageIs(pre, m, post);
    TrimEmptyIff(m.content);
    var prompt := Trim(m.content);
    LayoutIsLong(EmojiPalette[draw.emoji], IntroPhrases[draw.intro], Categorize(prompt),
      SectionsBlock(Sections(prompt)), OutroPhrases[draw.outro]);
  }

  /** For a message that is not blank, the reply is the template filled with
      the drawn pool phrases, the category's paragraph and the numbered sections. */
  lemma ReplyToPrompt(pre: seq<Message>, m: Message, post: seq<Message>, draw: Draw)
    requires draw.InRange()
    requires m.role == User && !AllWhitespace(m.content)
    requires forall i :: 0 <= i < |post| ==> post[i].role != User
    ensures var prompt := Trim(m.content);
      GenerateReply(pre + [m] + post, draw) ==
        Layout(EmojiPalette[draw.emoji], IntroPhrases[draw.intro],
          CoreParagraph(Categorize(prompt)), SectionsBlock(Sections(prompt)),
          OutroPhrases[draw.outro])
  {
    LastUserMessageIs(pre, m, post);
    TrimEmptyIff(m.content);
  }

  /** Changing the letter case of the latest user message never changes the reply. */
  lemma ReplyIgnoresCase(pre: seq<Message>, m: Message, m': Message, post: seq<Message>, draw: Draw)
    requires draw.InRange()
    requires m.role == User && m'.role == User
    requires SameIgnoringCase(m.content, m'.content)
    requires forall i :: 0 <= i < |post| ==> post[i].role != User
    ensures GenerateReply(pre + [m] + post, draw) == GenerateReply(pre + [m'] + post, draw)
  {
    LastUserMessageIs(pre, m, post);
    LastUserMessageIs(pre, m', post);
    TrimIgnoresCase(m.content, m'.content);
    CategorizeIgnoresCase(Trim(m.content), Trim(m'.content));
    SectionsIgnoreCase(Trim(m.content), Trim(m'.content));
  }

  // ---------------------------------------------------------------------
  // POST /api/chat
  // ---------------------------------------------------------------------

  /** The request body: either it could not be read as the expected JSON, or
      it is an object whose `conversation` field may be missing. */
  datatype Body = Malformed | Payload(conversation: Option<seq<Message>>)

  datatype Response = Response(status: int, reply: string)

  function Post(body: Body, draw: Draw): (r: Response)
    requires draw.InRange()
    ensures r.status == 200 <==> body.Payload?
    ensures r.status == 500 <==> body.Malformed?
    ensures body.Malformed? ==> r.reply == ErrorReply
    ensures body.Payload? ==>
      r.reply == GenerateReply(if body.conversation.Some? then body.conversation.value else [], draw)
    ensures |r.reply| > 0
  {
    match body
    case Malformed => Response(500, ErrorReply)
    case Payload(conversation) =>
      var messages := if conversation.Some? then conversation.value else [];
      Response(200, GenerateReply(messages, draw))
  }

  /** A body without `conversation` is answered as the empty conversation. */
  lemma PostDefaultsToEmpty(draw: Draw)
    requires draw.InRange()
    ensures Post(Payload(None), draw) == Post(Payload(Some([])), draw) == Response(200, ReadyReply)
  {
  }
}
