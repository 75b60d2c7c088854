# Canned chat replies, modelled in Dafny

The application is a single-page chat UI backed by one route, `POST /api/chat`.
The route takes the conversation so far, finds the latest user message, and
returns a reply assembled from fixed text:

- a random emoji and a random intro phrase;
- a paragraph chosen by the message's topic (travel, brainstorming, summary, or
  a general default), where the topic is found by keyword;
- a numbered list of bullet sections chosen by three more keyword groups, with
  a two-item fallback list;
- a random outro phrase.

No model or external service is involved. This project models that route:

- `text.dfy` (module `Text`) holds the JavaScript string operations the route
  relies on: `trim` (`Text.Trim`), `toLowerCase` (`Text.Lower`), unanchored
  keyword search (`Text.Contains`, `Text.ContainsAny`), `reverse`
  (`Text.Reversed`), `join` (`Text.Join`), and the decimal rendering of a list
  index (`Text.Decimal`). Each comes with its partner: trimming is proved to
  drop only whitespace from the two ends, and substring search is proved equal
  to "occurs at some position". Reading a rendered numeral gives the number
  back. The route never splits a string; `Text.Split` exists only as the
  inverse of `join`, to show that the joined section block can be read back
  line by line.
- `chat.dfy` (module `Chat`) holds:
  - the constants of the route: knowledge base, phrase pools, keyword groups,
    section sentences and fixed replies, all spelled exactly as in the source;
  - `categorize`, as `Chat.Categorize`;
  - `synthesizeSections`, as the imperative method `Chat.SynthesizeSections`,
    proved equal to the specification function `Chat.Sections`;
  - the `reverse().find(...)` search for the latest user message, as
    `Chat.LastUserMessage`;
  - the choice of the core paragraph, as `Chat.CoreParagraph`;
  - the numbered, line-joined section list, as `Chat.SectionsBlock`;
  - the reply template literal, as `Chat.Layout`;
  - `generateReply`, as `Chat.GenerateReply`, and `POST`, as `Chat.Post`.
  The random pool picks become a `Draw` of three indices.
- `prompts.dfy` (module `ChatExamples`) works the first starter prompt of the
  chat page through the classification and the section selection. It also
  shows that a keyword is found in the middle of another word.

## Model

| member | source | states |
|---|---|---|
| Text.LowerChar | app/api/chat/route.ts:32 | `toLowerCase` on one character: an ASCII capital moves 32 code points up to its small letter, every other character is kept, and the result is never a capital |
| Text.Lower | app/api/chat/route.ts:32 | lowercasing keeps the length and lowercases every position independently |
| Text.LowerEqualIff | app/api/chat/route.ts:32 | two strings lowercase to the same string exactly when they are equal up to letter case |
| Text.TrimStart | app/api/chat/route.ts:63 | the result is a suffix of the input, everything dropped is whitespace, and the result does not start with whitespace |
| Text.TrimEnd | app/api/chat/route.ts:63 | the result is a prefix of the input, everything dropped is whitespace, and the result does not end with whitespace |
| Text.TrimIsSlice | app/api/chat/route.ts:63 | `trim` returns one contiguous slice of its input |
| Text.TrimDropsWhitespace | app/api/chat/route.ts:63 | every character `trim` drops, before or after the kept slice, is whitespace |
| Text.TrimEnds | app/api/chat/route.ts:63 | a non-empty trimmed string neither starts nor ends with whitespace |
| Text.TrimEmptyIff | app/api/chat/route.ts:63-64 | the trimmed prompt is empty exactly when the message is all whitespace |
| Text.TrimIgnoresCase | app/api/chat/route.ts:63 | changing letter case does not change where `trim` cuts: the trimmed strings are again equal up to case |
| Text.ContainsIff | app/api/chat/route.ts:33 | the unanchored keyword search succeeds exactly when the keyword occurs at some position of the text |
| Text.ContainsAnyIff | app/api/chat/route.ts:33-35 | a regex made of literal alternatives matches exactly when one of its keywords occurs |
| Text.ContainsAcross | app/api/chat/route.ts:33 | a keyword without the separator character occurs in `a + sep + b` exactly when it occurs in `a` or in `b` |
| Text.ContainsInWords | app/api/chat/route.ts:32-33 | in a lowercased text of space-separated words, a keyword without spaces occurs exactly when it occurs in one lowercased word |
| Text.Reversed | app/api/chat/route.ts:58 | `[...conversation].reverse()` keeps the length and puts element i at position n-1-i |
| Text.ReversedAppend | app/api/chat/route.ts:58 | reversing a concatenation reverses the parts and swaps them |
| Text.SplitJoin | app/api/chat/route.ts:76-78 | splitting the joined lines on a separator that no line contains gives the lines back |
| Text.Decimal | app/api/chat/route.ts:77 | the rendered index is a non-empty string of digits, starting with "0" only for zero |
| Text.DecimalRoundTrip | app/api/chat/route.ts:77 | reading the rendered numeral of n gives n back |
| Chat.MatchesIff | app/api/chat/route.ts:33-35 | the regex test, run alternative after alternative, is true exactly when some keyword of the group occurs in the lowercased prompt |
| Chat.MatchesIgnoresCase | app/api/chat/route.ts:41-47 | whether a keyword group matches does not depend on letter case, as with the `i` flag |
| Chat.CategorizePriority | app/api/chat/route.ts:31-37 | each category is returned exactly when its keyword group occurs and no group tested before it does; General exactly when none of the three occurs |
| Chat.TravelKeywordWins | app/api/chat/route.ts:33 | a travel keyword anywhere in the prompt makes it a travel prompt, whatever else it mentions |
| Chat.CategorizeIgnoresCase | app/api/chat/route.ts:32 | prompts equal up to letter case get the same category |
| Chat.SelectedUnfold | app/api/chat/route.ts:41-49 | the selected sentences are timeline, tips and resources, in that order, each present exactly when its keyword group occurs |
| Chat.SynthesizeSections | app/api/chat/route.ts:39-55 | the appended segments equal the specification `Sections`: the selected sentences, or the two fallback sentences when none was selected |
| Chat.SectionsCount | app/api/chat/route.ts:39-55 | there are always between one and three sections |
| Chat.SectionsFallback | app/api/chat/route.ts:50-53 | the fallback pair is returned exactly when no plan, tips or resources keyword occurs |
| Chat.SectionsMatched | app/api/chat/route.ts:41-49 | when some section keyword occurs, each sentence is present exactly when its group occurs, nothing but these three sentences appears, and the order is timeline, tips, resources without repeats |
| Chat.SectionsIgnoreCase | app/api/chat/route.ts:41-47 | prompts equal up to letter case get the same sections |
| Chat.Numbered | app/api/chat/route.ts:77 | numbering produces one line per section |
| Chat.SectionsBlockLines | app/api/chat/route.ts:76-78 | split on line breaks, the section block gives back one line per section; line i is the numeral of i + 1, a dot, a space and section i, and that numeral reads back as i + 1 |
| Chat.TimelineSingleLine | app/api/chat/route.ts:42 | the timeline sentence has no line break |
| Chat.TipsSingleLine | app/api/chat/route.ts:45 | the tips sentence has no line break |
| Chat.ResourcesSingleLine | app/api/chat/route.ts:48 | the resources sentence has no line break |
| Chat.KeyIdeasSingleLine | app/api/chat/route.ts:51 | the first fallback sentence has no line break |
| Chat.NextStepsSingleLine | app/api/chat/route.ts:52 | the second fallback sentence has no line break |
| Chat.SectionsSingleLine | app/api/chat/route.ts:39-55 | no section of any prompt contains a line break |
| Chat.PromptBlockLines | app/api/chat/route.ts:76-78 | for every prompt, the section block in the reply splits back into exactly its sections, line i being the numeral of i + 1, a dot, a space and section i |
| Chat.FallbackBlock | app/api/chat/route.ts:50-53 | with the fallback sections the block is exactly "1. Key ideas…" and "2. Optional next steps…" on two lines |
| Chat.FindUser | app/api/chat/route.ts:58 | `find` returns nothing exactly when no message has role user; otherwise it returns a user message of the list |
| Chat.FindUserSkips | app/api/chat/route.ts:58 | `find` returns the first user message, skipping every earlier non-user message |
| Chat.LastUserMessageNone | app/api/chat/route.ts:58-59 | no message is found exactly when the conversation has no user message |
| Chat.LastUserMessageIs | app/api/chat/route.ts:58 | the message found is the user message that no later user message follows |
| Chat.LayoutIsLong | app/api/chat/route.ts:72-80 | every templated reply is longer than the two fixed replies, so it never equals either of them |
| Chat.GenerateReply | app/api/chat/route.ts:57-81 | the reply is never empty |
| Chat.ReplyWithoutUserMessage | app/api/chat/route.ts:58-61 | the "ready" reply comes back exactly when the conversation holds no user message, the empty conversation included |
| Chat.ReplyUsesLastUserMessage | app/api/chat/route.ts:58 | earlier messages and later assistant messages do not change the reply; only the latest user message counts |
| Chat.ReplyToBlankMessage | app/api/chat/route.ts:63-66 | the "more detail" reply comes back exactly when the latest user message is all whitespace |
| Chat.ReplyToPrompt | app/api/chat/route.ts:68-80 | for a non-blank message the reply is emoji, space and intro, then the category paragraph, the numbered sections and the outro, separated by blank lines; category and sections come from the trimmed message |
| Chat.ReplyIgnoresCase | app/api/chat/route.ts:63-80 | changing the letter case of the latest user message does not change the reply |
| Chat.Post | app/api/chat/route.ts:83-96 | a readable body gets status 200 and the reply that `generateReply` gives for its conversation, or for the empty conversation when the field is missing; a failed read gets status 500 with the error reply; the reply is never empty |
| Chat.PostDefaultsToEmpty | app/api/chat/route.ts:86 | a body without `conversation` is answered like the empty conversation, with status 200 and the "ready" reply |
| ChatExamples.KyotoJoin | app/page.tsx:17 | the starter prompt is its words joined by single spaces |
| ChatExamples.KyotoCategory | app/page.tsx:17 | "Plan a weekend trip to Kyoto" is a travel prompt |
| ChatExamples.KyotoSections | app/page.tsx:17 | "Plan a weekend trip to Kyoto" gets the timeline section only |
| ChatExamples.InsideWords | app/api/chat/route.ts:33-41 | keywords are matched without word boundaries: "stripe" is a travel prompt and "planet" gets the timeline section |

## Left out

- The page (`app/page.tsx`), the layout (`app/layout.tsx`) and the styling (`tailwind.config.ts`) are not part of this model. They only render the conversation and send it to the route.
- Reading the request body (`request.json()`), building `NextResponse` objects and logging with `console.error` are I/O. A body is either `Malformed`, covering any read or parse failure, or a `Payload` whose `conversation` may be missing.
- Chat.Post: any exception inside the `try` block becomes `Malformed`. In the model `generateReply` itself cannot throw.
- `Math.random` is replaced by the `Draw` parameter. Its indices are required to be in range, as `Math.floor(Math.random() * length)` always is.
- Text.LowerChar lowercases ASCII letters only; JavaScript's `toLowerCase` lowercases all of Unicode. The keyword tests do not notice the difference. Two non-ASCII characters do lowercase to an ASCII letter: the dotted capital I (U+0130) lowercases to "i̇" and the Kelvin sign lowercases to "k". No keyword contains a "k". The "i" from U+0130 is always followed by a combining dot, so it could only be the last letter of a match, and no keyword ends in "i". The model does not prove this.
- Chat.GenerateReply: its own contract states only that the reply is not empty. Its three cases are stated by Chat.ReplyWithoutUserMessage, Chat.ReplyToBlankMessage and Chat.ReplyToPrompt.
- The `i` flag of the section regexes folds case in the same ASCII-only way as Text.LowerChar.
- Strings are sequences of Unicode code points. JavaScript strings are UTF-16, so astral characters such as the emoji count as two units there. No contract depends on lengths beyond the comparison in Chat.LayoutIsLong, which holds under either count.
- Messages whose `role` is neither `"user"` nor `"assistant"` would pass through the type cast in the source. The model's `Role` has only these two values. Any non-user role is skipped the same way.
- Of the starter prompts on the chat page (`app/page.tsx:17-20`), only the first is worked through; the other three are not stated as lemmas.
