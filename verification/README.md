# FounderFocus chat core in Dafny

FounderFocus is a chat advisor for solo founders. A signed-in user types a
question; the server picks one of three prompt templates by keyword (idea
validation, strategy advice, founder support), puts the question into the
template, sends the prompt to a generative model, cleans up the reply and
stores the exchange. The client shows an icon for the question, renders the
reply line by line as headings and paragraphs, and guards the message box
while a request is in flight.

This project models that core:

- `strings.dfy` (`module Strings`): the JavaScript string operations the core relies on, each given
  a specification. It covers `toLowerCase`, `includes`/`indexOf` (first occurrence), `trim` over the
  ECMAScript white-space and line-terminator set, `split('\n')` and `join('\n')`.
- `templates.dfy` (`module Templates`): the three prompt templates, character for character.
  Each is split into its preamble (everything before `{message}`) and the placeholder.
- `routes.dfy` (`module Routes`): the server's part.
  - The keyword classifier.
  - `replace("{message}", message)`, including the `$` replacement patterns of ECMAScript's
    GetSubstitution.
  - The reply formatter: delete `#`, `*`, `â`, `€`, `¢`, `-`; split at line feeds; trim each line;
    drop empty lines; join with line feeds.
  - The POST `/api/chat` handler as a function of its outside inputs (session check, body schema,
    model reply, store outcome). It returns the HTTP answer and the ordered list of outside
    effects it performed.
  - The GET `/api/chat-history` handler, with reading the store as its one outside effect.
- `chat_interface.dfy` (`module ChatInterface`): the client's part.
  - `getQueryIcon`.
  - The renderer from reply text to keyed `Header`/`Paragraph` items.
  - A `Composer` class whose fields are the `message` text and the `pending` flag. Its methods
    `Change`, `Submit`, `Succeed` and `Fail` update them as the component does.

Keyword tests are stated against `Mentions(message, k)`: `k` occurs somewhere in the message, ignoring
letter case. The lemmas show that the lower-case-then-`includes` code means exactly that.

Lower-casing is modelled for the characters that can matter to the all-ASCII keywords: `A`–`Z` and
the Kelvin sign U+212A, which JavaScript lower-cases to `k`. Other characters are left unchanged.
The only other character whose lower case holds an ASCII letter is U+0130, which lower-cases to `i`
followed by U+0307. No keyword has an `i` followed by that mark, and no keyword ends in `i`, so that
`i` can neither complete a match nor start one that continues past it; it cannot create or break a
match. The model therefore answers every `includes` test of the source the same way.

`replace` with a string replacement expands `$$`, `$&`, `` $` `` and `$'` in the message. The model
keeps this: a message without `$` goes in verbatim (`Routes.PromptVerbatim`), but a message that
starts with `` $` `` gets the template's preamble in its place (`Routes.PromptBacktickPattern`).

## Model

| member | source | states |
|---|---|---|
| Strings.Lower | NMIMShack/FounderFocus/server/routes.ts:70 | the lower-cased message has the same length and holds no ASCII capital and no Kelvin sign |
| Strings.LowerIdempotent | NMIMShack/FounderFocus/server/routes.ts:70 | lower-casing an already lower-cased message changes nothing |
| Strings.SameIgnoringCaseLower | NMIMShack/FounderFocus/server/routes.ts:70 | two strings lower-case to the same string exactly when they are equal ignoring letter case |
| Strings.IndexOf | NMIMShack/FounderFocus/server/routes.ts:81 | the result is the first position where the pattern occurs, or none when it occurs nowhere |
| Strings.Contains | NMIMShack/FounderFocus/server/routes.ts:73 | `includes` is true exactly when the keyword occurs at some position |
| Strings.ContainsLower | NMIMShack/FounderFocus/server/routes.ts:70-73 | for a lower-case keyword, `includes` on the lower-cased message holds exactly when the keyword occurs in the message ignoring case |
| Strings.Trim | NMIMShack/FounderFocus/server/routes.ts:86 | the trimmed line neither starts nor ends with white space |
| Strings.TrimCuts | NMIMShack/FounderFocus/server/routes.ts:86 | the trimmed line is a slice of the line, and everything cut from either end is white space |
| Strings.TrimOfTrimmed | NMIMShack/FounderFocus/server/routes.ts:86 | trimming a line that is already trimmed changes nothing |
| Strings.TrimChars | NMIMShack/FounderFocus/server/routes.ts:86 | every character of the trimmed line comes from the line |
| Strings.Split | NMIMShack/FounderFocus/server/routes.ts:85 | `split('\n')` yields at least one piece, no piece holds a line feed, and joining the pieces gives back the text |
| Strings.SplitJoin | NMIMShack/FounderFocus/server/routes.ts:85-88 | splitting the join of one or more line-feed-free lines gives back exactly those lines |
| Strings.JoinNoBlankLines | NMIMShack/FounderFocus/server/routes.ts:88 | joining non-empty lines gives text with no leading or trailing line feed and no two line feeds in a row |
| Templates.PreambleHasNoBrace | NMIMShack/FounderFocus/server/routes.ts:16-49 | no template has a `{` before its placeholder |
| Routes.PlaceholderOnce | NMIMShack/FounderFocus/server/routes.ts:16-49 | each template holds `{message}` exactly once, right after its preamble |
| Routes.ClassifyByKeywords | NMIMShack/FounderFocus/server/routes.ts:70-79 | idea validation exactly when "validate", "idea" or "market" is mentioned; strategy advice exactly when none of those but "strategy", "plan" or "growth" is; founder support exactly when none of the six is |
| Routes.ClassifyIgnoresCase | NMIMShack/FounderFocus/server/routes.ts:70-73 | messages that differ only in letter case get the same template |
| Routes.SubstituteLiteral | NMIMShack/FounderFocus/server/routes.ts:81 | a replacement without `$` is inserted literally |
| Routes.ReplaceAtEnd | NMIMShack/FounderFocus/server/routes.ts:81 | replacing the placeholder at the end of brace-free text keeps that text and appends the expanded replacement |
| Routes.PromptShape | NMIMShack/FounderFocus/server/routes.ts:81 | the prompt is the chosen template's preamble followed by the original, not lower-cased, message as expanded by the `$` patterns; nothing follows |
| Routes.PromptVerbatim | NMIMShack/FounderFocus/server/routes.ts:81 | a message without `$` appears verbatim after the preamble |
| Routes.PromptBacktickPattern | NMIMShack/FounderFocus/server/routes.ts:81 | a message starting with `` $` `` yields a prompt in which the preamble appears twice |
| Routes.StripMarkup | NMIMShack/FounderFocus/server/routes.ts:84 | a character is in the result exactly when it is in the input and not in the deleted class |
| Routes.StripMarkupChar | NMIMShack/FounderFocus/server/routes.ts:84 | a single character is kept exactly when it is not in the deleted class |
| Routes.StripMarkupAppend | NMIMShack/FounderFocus/server/routes.ts:84 | deleting distributes over concatenation, so the kept characters keep their order and their number; with the single-character case this makes the deletion a filter |
| Routes.StripMarkupFree | NMIMShack/FounderFocus/server/routes.ts:84 | text without markup is left unchanged |
| Routes.DropEmpty | NMIMShack/FounderFocus/server/routes.ts:87 | no kept line is empty, and the kept lines are the input lines with every empty one removed (as multisets) |
| Routes.DropEmptyAppend | NMIMShack/FounderFocus/server/routes.ts:87 | filtering distributes over concatenation, so the kept lines keep their order |
| Routes.DropEmptyKeeps | NMIMShack/FounderFocus/server/routes.ts:87 | lines that are all non-empty are kept unchanged |
| Routes.LinesAreClean | NMIMShack/FounderFocus/server/routes.ts:84-87 | every kept line is non-empty, trimmed, and free of line feeds and markup |
| Routes.JoinCleanLines | NMIMShack/FounderFocus/server/routes.ts:88 | joining clean lines gives markup-free text with no blank lines, empty only for no lines, whose split is the lines |
| Routes.Format | NMIMShack/FounderFocus/server/routes.ts:83-88 | the formatted reply has no deleted character and no blank line; it is empty exactly when no line survives, and otherwise its lines are exactly the surviving trimmed, non-empty lines in order |
| Routes.FormatIdempotent | NMIMShack/FounderFocus/server/routes.ts:83-88 | formatting a formatted reply changes nothing |
| Routes.Answer | NMIMShack/FounderFocus/server/routes.ts:68-102 | after both checks the model is always asked with the prompt; the answer is 500 or 200, and a chat is created exactly when the model produced text and the store accepted it |
| Routes.HandleChatGating | NMIMShack/FounderFocus/server/routes.ts:60-66 | 401 exactly when unauthenticated, with no other step; 400 exactly when authenticated with a bad body, with nothing beyond parsing the body |
| Routes.HandleChatGenerates | NMIMShack/FounderFocus/server/routes.ts:60-82 | the model is asked exactly when both checks passed, and then with the prompt of the original message |
| Routes.HandleChatCreated | NMIMShack/FounderFocus/server/routes.ts:81-95 | a chat is created exactly when every step succeeds; it holds the original message and the formatted reply, which is a fixed point of the formatter, and is what was stored |
| Routes.HandleHistoryGating | NMIMShack/FounderFocus/server/routes.ts:54-58 | 401 exactly when unauthenticated, and then the store is never read; otherwise the store is read once and its records are the answer |
| Routes.HandlersStayApart | NMIMShack/FounderFocus/server/routes.ts:54-103 | the chat handler never reads the history, and the history handler only reads it |
| ChatInterface.QueryIconByKeywords | NMIMShack/FounderFocus/client/src/components/chat-interface.tsx:33-41 | lightbulb exactly when "validate" or "idea" is mentioned; chart exactly when neither is but "strategy" or "plan" is; heart exactly when none of the four is |
| ChatInterface.QueryIconIgnoresCase | NMIMShack/FounderFocus/client/src/components/chat-interface.tsx:34 | questions that differ only in letter case get the same icon |
| ChatInterface.QueryIconAgreesWithTemplate | NMIMShack/FounderFocus/client/src/components/chat-interface.tsx:35-40 | the lightbulb always goes with the server's idea-validation template; founder support always shows the heart; the chart never goes with founder support |
| ChatInterface.MarketQuestionShowsHeart | NMIMShack/FounderFocus/client/src/components/chat-interface.tsx:35-40 | a question that mentions only "market" gets the idea-validation template but the heart icon |
| ChatInterface.PlanMarketQuestionShowsChart | NMIMShack/FounderFocus/client/src/components/chat-interface.tsx:35-40 | a question mentioning "plan" and "market" but not "validate" or "idea" gets the idea-validation template but the chart icon |
| ChatInterface.GrowthQuestionShowsHeart | NMIMShack/FounderFocus/client/src/components/chat-interface.tsx:35-40 | a question that mentions only "growth" gets the strategy template but the heart icon |
| ChatInterface.RenderLine | NMIMShack/FounderFocus/client/src/components/chat-interface.tsx:62-79 | a blank line renders nothing; any other renders one item keyed by its index, showing the trimmed line, and a heading exactly when it ends with `:` |
| ChatInterface.RenderLinesKeys | NMIMShack/FounderFocus/client/src/components/chat-interface.tsx:61-80 | every item is keyed by the index of a line and shows that line |
| ChatInterface.RenderLinesOrdered | NMIMShack/FounderFocus/client/src/components/chat-interface.tsx:61-80 | keys increase strictly along the items, so they are unique and in line order |
| ChatInterface.RenderLinesComplete | NMIMShack/FounderFocus/client/src/components/chat-interface.tsx:61-63 | every line with text after trimming gets an item keyed by its index |
| ChatInterface.RenderTrimmedLines | NMIMShack/FounderFocus/client/src/components/chat-interface.tsx:61-80 | non-empty trimmed lines render one item each, keyed by position |
| ChatInterface.RenderFormatted | NMIMShack/FounderFocus/client/src/components/chat-interface.tsx:61-80 | a reply from the server renders as exactly the formatter's lines, keyed 0, 1, 2, …, a heading exactly when the line ends with `:` |
| ChatInterface.Composer.constructor | NMIMShack/FounderFocus/client/src/components/chat-interface.tsx:12 | the box starts empty with no request in flight |
| ChatInterface.Composer.Change | NMIMShack/FounderFocus/client/src/components/chat-interface.tsx:94 | editing sets the text and leaves the pending flag alone |
| ChatInterface.Composer.Submit | NMIMShack/FounderFocus/client/src/components/chat-interface.tsx:26-31 | the untrimmed message is sent and the request marked in flight exactly when the trimmed text is non-empty and nothing is pending; otherwise nothing changes |
| ChatInterface.Composer.Succeed | NMIMShack/FounderFocus/client/src/components/chat-interface.tsx:20-23 | on success the box is emptied and the request is no longer in flight |
| ChatInterface.Composer.Fail | NMIMShack/FounderFocus/client/src/components/chat-interface.tsx:15-24 | on failure the box keeps its text and the request is no longer in flight |
| ChatInterface.DisabledExactlyWhenGuarded | NMIMShack/FounderFocus/client/src/components/chat-interface.tsx:101 | the send button is disabled exactly when the submit handler's guard at line 28 fails |
| ChatInterface.SubmitTwice | NMIMShack/FounderFocus/client/src/components/chat-interface.tsx:26-31 | a second submit while the first request is in flight sends nothing |
| ChatInterface.SubmitAfterSuccess | NMIMShack/FounderFocus/client/src/components/chat-interface.tsx:20-31 | after a success, submitting sends nothing until the user types again |

## Left out

- The generative model call and the API-key check at start-up (`routes.ts` lines 8-13 and 82-83). The
  model's text, or the error it raises, is a parameter of the handler.
- `setupAuth`, `req.isAuthenticated` and the schema check `insertChatSchema.safeParse`. They are
  foreign libraries, so the handler takes whether the session is authenticated and the parsed
  message (or its absence) as parameters. The 400 body, which is the schema error object, is not
  modelled.
- `server/storage.ts` is not part of this model. Storing a chat is an effect, and its failure is a
  parameter. The history handler reads the store as an effect and returns the store's records as given. Ownership filtering and
  ordering by creation time are done by the database.
- The stored record's `id`, `userId` and `createdAt` fields. A created chat is modelled as its
  message and response.
- The 500 body's fixed text "Failed to generate response" and the conversion of a thrown value to
  its message are not modelled. The error is an opaque string.
- The history page, the sidebar and the home page, which only lay out data.
- react-query's cache invalidation after success (`chat-interface.tsx` line 21). Also left out is
  the asynchronous life cycle of `isPending`, which is modelled as a flag that `Submit` sets and
  `Succeed` or `Fail` clears. `Fail` stands for the mutation ending in error, which the component
  does not handle beyond clearing `isPending`.
- The display of `chatMutation.data` (lines 46-57) beyond the icon and the reply renderer.
- Strings.Lower: does not produce JavaScript's lower case for non-ASCII letters other than the Kelvin
  sign. It agrees with `toLowerCase` on every `includes` test of the core, as explained above.
- Strings.Trim: white space is the fixed ECMAScript set of WhiteSpace and LineTerminator code
  points (Unicode space separators as of current Unicode). Future Unicode additions are not tracked.
