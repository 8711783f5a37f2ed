# IR email bot: a verified model of its text and list pipeline

The IR email bot writes cold outreach emails from an investor-relations consultant to a public
company. Its server fetches recent Google News articles about the company and ranks them by
preferred publishers. It asks a language model for an email built from a structured prompt or
from the older legacy prompt, and it passes on the model's reply. The client cuts the email it
receives into a subject and a body. It can send the email back with an instruction to refine it,
and it lists the fetched articles other than the one the email cites. A settings panel edits the
list of preferred publishers.

This project models that pipeline in Dafny and proves what it does:

- `wrappers.dfy`:
  - `Option` and `Result`.
- `strings.dfy` (module `Strings`): the JavaScript string operations the code uses.
  - `trim`, over the exact ECMAScript whitespace set;
  - `toLowerCase`, on ASCII letters;
  - `startsWith`, `includes`, `split` and `join`;
  - number-to-text conversion;
  - global `replace` with a string replacement, including its `$` patterns.
- `templates.dfy` (module `Templates`): prompt templates as sequences of literal text and
  placeholders.
  - Its central fact: replacing every occurrence of one `{{name}}` token in the text of a
    template is the same as substituting that placeholder.
  - So the chain of eight `.replace` calls can be reasoned about exactly.
- `prompts.dfy` (module `Prompts`): the fixed texts of `server/services/claude.js`.
  - The three style tables;
  - the structured prompt as a template with eight placeholders;
  - the legacy prompt's opening.
- `claude.dfy` (module `Claude`): the generation service (`server/services/claude.js`).
  - style lookups with their fallbacks;
  - the legacy and the structured prompt;
  - the interpretation of the reply;
  - the news summary;
  - the refinement conversation;
  - `getPromptInfo`.
- `news.dfy` (module `News`): the news service (`server/services/news.js`).
  - headline/publisher split;
  - the first fifteen items;
  - the in-place stable sort that puts preferred publishers first, done on an array;
  - the cap of eight;
  - the numbered list for the prompt.
- `emaildisplay.dfy` (module `EmailDisplay`): the email view (`client/src/components/EmailDisplay.jsx`).
  - `parseEmail`, as the imperative loop it is, proved against a specification function;
  - the refine button;
  - the list of other sources.
- `settings.dfy` (module `Settings`): the settings panel (`client/src/components/Settings.jsx`).
  - adding, removing and resetting preferred sources.
- `emailroute.dfy` (module `EmailRoute`): the `POST /generate-email` handler (`server/routes/email.js`).

Outside services are parameters of the functions that use them:

- the language model: a function from the prompt, or the conversation, to the reply text or
  the error it raised;
- the RSS feed: the parsed items, or the error of fetching or parsing;
- `JSON.parse`: a function to a parse-outcome datatype;
- `toLocaleDateString`: a function from the publication date to its text.

The fixed prompt texts are a `PromptTexts` parameter as well, and `Prompts.SOURCE_TEXTS` holds
the service's own.

Notes on the code as written:

- A reply that parses to an object gives its `citedArticleIndex` as it is. It stays
  `undefined` when the object has no such field. The code does not turn it into `null`.
- The articles carry `pubDate`, not `publishedAt`.

## Model

| member | source | states |
|---|---|---|
| Strings.ReplaceAllIsLiteral | server/services/claude.js:271-278 | a global `replace` whose replacement value has no `$` replaces every occurrence of the token by the value taken literally |
| Strings.JoinSplit | server/services/news.js:30-32 | joining the pieces of a split with the same separator gives back the original title |
| Strings.SplitJoinChar | server/services/news.js:69-71 | splitting lines joined by `\n` gives back the lines, when none of them holds `\n` |
| Templates.Token | server/services/claude.js:271-278 | a placeholder's token is `{{`, its name and `}}` |
| Templates.TokensAreHoles | server/services/claude.js:43-192 | the text of a well-formed template contains a placeholder's token exactly when the template has that placeholder |
| Templates.FillByReplacement | server/services/claude.js:270-278 | a chain of global replacements with plain values fills every listed placeholder with its value; when all eight are listed, no token is left |
| Prompts.SourceTablesComplete | server/services/claude.js:194-210 | each style table has its default key (`conversational`, `iro`, `standard`) and no empty entry |
| Claude.Lookup | server/services/claude.js:241-243 | a key with a non-empty entry gives that entry; any other key gives the fallback's entry when the table has one; the result is an entry of the table, or `undefined` when the fallback is missing |
| Claude.ToneInstructionOf | server/services/claude.js:241 | a given tone with a non-empty entry gives that entry; an omitted tone gives the `conversational` entry; the result is an entry or `undefined` |
| Claude.RoleContextOf | server/services/claude.js:242 | a given role with a non-empty entry gives that entry; an omitted role gives the `iro` entry; the result is an entry or `undefined` |
| Claude.LengthInstructionOf | server/services/claude.js:243 | a given length with a non-empty entry gives that entry; an omitted length gives the `standard` entry; the result is an entry or `undefined` |
| Claude.SourceStyleLookups | server/services/claude.js:241-243 | every lookup gives a non-empty text: the table entry for a known key, the default entry for an omitted or unknown one |
| Claude.FirmNameClauseOf | server/services/claude.js:269 | the clause is ` at ` and the firm name for a non-empty firm name, and empty otherwise |
| Claude.FirmLine | server/services/claude.js:260 | the legacy firm line is `\n- Sender's firm: ` and the firm name for a non-empty firm name, and empty otherwise |
| Claude.LegacyFirmLine | server/services/claude.js:249-265 | the legacy prompt is the text up to the sender line, the firm line, then the news and closing; without a firm name the two texts meet directly |
| Claude.LegacyPrompt | server/services/claude.js:249-265 | the legacy prompt starts with the fixed opening and ends with `\n\nGenerate the email now.` |
| Claude.LegacyPromptOrder | server/services/claude.js:249-265 | the legacy prompt starts with the fixed opening and ends with `Generate the email now.`; tone, role, length, company, recipient, sender and news occur in it in that order |
| Claude.Position | server/services/claude.js:270-278 | each placeholder has its step in the fixed replacement order |
| Claude.OrderNamesEveryPlaceholder | server/services/claude.js:270-278 | the replacement order names each of the eight placeholders exactly once |
| Claude.StructuredPrompt | server/services/claude.js:267-278 | for a well-formed base template and plain values, the replacement chain gives the template with every placeholder filled, and none of the eight tokens remains |
| Claude.Prompt | server/services/claude.js:245-279 | with `useLegacyPrompt` true the prompt is the legacy prompt of the request's resolved values; otherwise it is the structured prompt of those values (the style keys looked up with their defaults) |
| Claude.PromptShape | server/services/claude.js:245-279 | a legacy prompt starts with the fixed opening and ends with the closing instruction; a structured one, for a well-formed template and plain values, is the filled template with none of the eight tokens left |
| Claude.LaterStepRewritesEarlierValue | server/services/claude.js:270-278 | a contact name equal to the `{{companyName}}` token is rewritten by the later company-name step, as if the contact name were the company name |
| Claude.EarlierStepMissesLaterValue | server/services/claude.js:270-278 | a company name equal to the `{{contactName}}` token is put in after the contact step has run, and the token is left in the prompt |
| Claude.OmittedArgumentsAreDefaults | server/services/claude.js:236-239 | omitted tone, role, length and prompt choice give the same prompt as `conversational`, `iro`, `standard` and the structured prompt |
| Claude.InterpretReply | server/services/claude.js:294-309 | a parsed object gives its two fields (possibly undefined); a primitive gives both undefined; a parse or field-read failure gives the raw text and a null index; the prompt is always the prompt sent |
| Claude.GenerateEmail | server/services/claude.js:230-310 | the model is asked once, with the request's prompt; its error is passed on, and its reply is interpreted with that prompt attached |
| Claude.NewsSummaryPrompt | server/services/claude.js:327-340 | the summary prompt starts with the task text and the company name, and ends with the news context followed by the output-format text |
| Claude.NewsSummaryMentions | server/services/claude.js:327-340 | the summary prompt names the company and then holds the news context |
| Claude.GenerateNewsSummary | server/services/claude.js:326-354 | the summary is the model's reply to the summary prompt, trimmed; an error is passed on |
| Claude.RefinementRequest | server/services/claude.js:357-360 | the refinement turn starts with the fixed lead followed by the instruction, verbatim |
| Claude.RefineEmail | server/services/claude.js:356-376 | the conversation grows by exactly the user turn and the assistant turn; the old messages are an unchanged prefix; the email is the trimmed reply and is the last turn's content |
| Claude.RefinementKeepsAlternation | server/services/claude.js:356-376 | a conversation of whole user/assistant exchanges stays one after a refinement |
| Claude.GetPromptInfo | server/services/claude.js:212-228 | the prompt info gives the base prompt text, the legacy opening, the three style tables unchanged, the five dynamic inputs and the version `v2-structured`; each non-empty table entry is what generation uses for that key; each listed input but the firm name names a replaced placeholder |
| Claude.DynamicInputsArePlaceholders | server/services/claude.js:219-225 | every listed dynamic input except `firmName` is the name of a placeholder of the replacement order |
| News.SplitTitle | server/services/news.js:30-32 | the headline is trimmed, and the publisher is trimmed or `Unknown` |
| News.SplitTitleCases | server/services/news.js:30-32 | a title without ` - ` is all headline from `Unknown`; otherwise the publisher is the trimmed part after the last ` - `, and the headline is the trimmed rest with its inner separators |
| News.ToArticle | server/services/news.js:29-40 | an item gives an article exactly when it has a title; the headline and publisher are the split title, the link and date are copied and the snippet is the content snippet or empty |
| News.ToArticles | server/services/news.js:28-41 | mapping the items gives one article per item |
| News.ToArticlesDefined | server/services/news.js:28-41 | the items map to articles exactly when every item has a title; a missing title makes the `split` throw |
| News.ToArticlesAt | server/services/news.js:28-41 | the article at each position comes from the item at that position |
| News.IsPreferred | server/services/news.js:45-50 | with no preferences no source is preferred; an empty preference matches every source, as `includes("")` does |
| News.PreferredIgnoresCase | server/services/news.js:45-50 | whether a source is preferred does not depend on the case of its letters |
| News.GroupsPartition | server/services/news.js:44-55 | the preferred and the other articles together are a permutation of the articles |
| News.Prioritized | server/services/news.js:44-55 | the ranked list has as many articles as the feed |
| News.PrioritizedPermutes | server/services/news.js:44-55 | the ranked articles are a permutation of the articles |
| News.PrioritizedPreferredFirst | server/services/news.js:44-55 | every preferred article comes before every other one |
| News.PrioritizedStable | server/services/news.js:44-55 | within each group the articles keep their feed order |
| News.StableSortIsPrioritized | server/services/news.js:44-55 | any order with preferred articles first and each group in feed order is the ranked order, so every stable sort with this comparator gives it |
| News.NoPreferencesKeepOrder | server/services/news.js:44-55 | with no preferences the feed order is kept |
| News.PrioritizeInPlace | server/services/news.js:44-55 | sorting the array in place leaves it holding the ranked order of its old contents |
| News.Take | server/services/news.js:28 | `slice(0, n)`: the first `n` elements, or all of them when there are fewer |
| News.CompanyNews | server/services/news.js:21-61 | at most eight articles and never more than the feed items; a failed fetch or parse gives none |
| News.FetchCompanyNews | server/services/news.js:21-62 | the imperative fetch, which maps, sorts an array in place and slices, returns the articles of `CompanyNews` |
| News.CompanyNewsFromFeed | server/services/news.js:28-57 | the result has the preferred articles first, takes each of the first fifteen items' articles at most once, and has eight of them or all when fewer |
| News.CompanyNewsWithoutPreferences | server/services/news.js:44-57 | with an empty preference list the result is the first eight articles in feed order |
| News.FormatNewsForPrompt | server/services/news.js:64-67 | no articles give `No recent news articles found.` |
| News.NewsListLines | server/services/news.js:64-72 | the list has one line per article, in order; line `k` is article `k` numbered `k + 1` with its quoted headline, publisher and date |
| EmailDisplay.FindSubject | client/src/components/EmailDisplay.jsx:12-14 | the first line from a position on that, trimmed and lower-cased, starts with `subject:`; or none when no such line exists |
| EmailDisplay.SkipBlankLines | client/src/components/EmailDisplay.jsx:18-20 | the first line from a position on that is not blank, all lines skipped being blank |
| EmailDisplay.ParsedEmail | client/src/components/EmailDisplay.jsx:4-27 | empty text gives an empty subject and body; the subject and the body have no surrounding whitespace |
| EmailDisplay.ParseEmail | client/src/components/EmailDisplay.jsx:4-27 | the line-scanning loop with its `break` and inner skip returns exactly `ParsedEmail` |
| EmailDisplay.NoSubjectLine | client/src/components/EmailDisplay.jsx:12-25 | with no subject line the subject is empty and the body is the whole text, trimmed |
| EmailDisplay.SubjectHasNoBreak | client/src/components/EmailDisplay.jsx:7-15 | a parsed subject never holds a line break |
| EmailDisplay.SubjectLineOf | client/src/components/EmailDisplay.jsx:13-15 | `Subject: ` and a subject is a subject line and gives back the subject, trimmed |
| EmailDisplay.EmailText | client/src/components/EmailDisplay.jsx:56 | the text sent starts with `Subject: ` and the subject and ends with the body |
| EmailDisplay.EmailTextLines | client/src/components/EmailDisplay.jsx:56 | the lines of the text sent are the subject line, one blank line, then the lines of the body |
| EmailDisplay.EmailTextRoundTrip | client/src/components/EmailDisplay.jsx:4-27 | parsing `Subject: s\n\nb` gives the subject `s` and the body `b`, trimmed, for a one-line `s` |
| EmailDisplay.ReparseIsIdentity | client/src/components/EmailDisplay.jsx:37-56 | writing a parsed email back as text and parsing it again gives the same email |
| EmailDisplay.HandleRefineSubmit | client/src/components/EmailDisplay.jsx:54-59 | `onRefine` is called exactly when the trimmed instruction is not empty and no refinement runs; it gets the trimmed instruction and the email as `Subject: ` text, and the field is cleared; otherwise the field is kept |
| EmailDisplay.RefineSubmitText | client/src/components/EmailDisplay.jsx:54-59 | the text passed to `onRefine` parses back to the subject and body shown, trimmed |
| EmailDisplay.RefineSendsParsedEmail | client/src/components/EmailDisplay.jsx:37-59 | refining an email as it was parsed sends a text that parses to that same email |
| EmailDisplay.OtherArticles | client/src/components/EmailDisplay.jsx:68-70 | without `meta` or its articles the list is empty |
| EmailDisplay.OtherArticlesAre | client/src/components/EmailDisplay.jsx:68-70 | with no cited article all articles are listed; otherwise exactly the articles whose `url` differs from the cited one's |
| EmailDisplay.WithoutUrl | client/src/components/EmailDisplay.jsx:68-70 | the filter never lengthens the list and keeps no article with the cited `url` |
| EmailDisplay.WithoutUrlMembers | client/src/components/EmailDisplay.jsx:68-70 | an article is kept exactly when it is one of the articles and its `url` differs |
| EmailDisplay.WithoutUrlConcat | client/src/components/EmailDisplay.jsx:68-70 | the filter keeps order: filtering a concatenation filters each part |
| EmailDisplay.WithoutUrlAbsent | client/src/components/EmailDisplay.jsx:68-70 | when no article has the cited `url` every article is kept |
| Settings.DefaultSources | client/src/components/Settings.jsx:3-13 | the panel's defaults are the news service's nine defaults, each listed once |
| Settings.AddSource | client/src/components/Settings.jsx:19-27 | a blank or already listed trimmed source changes nothing; otherwise the trimmed source is appended, the earlier entries and other settings are kept and the input is cleared |
| Settings.AddTakesNewSources | client/src/components/Settings.jsx:20 | a source is added exactly when it is not all whitespace and its trimmed form is not listed (compared exactly) |
| Settings.AddKeepsDistinct | client/src/components/Settings.jsx:20-24 | adding keeps the list free of duplicates |
| Settings.RemoveSource | client/src/components/Settings.jsx:29-34 | removing keeps the other settings |
| Settings.Without | client/src/components/Settings.jsx:32 | the filter never lengthens the list and leaves no entry equal to the removed source |
| Settings.WithoutMembers | client/src/components/Settings.jsx:32 | after removing, exactly the other sources are listed |
| Settings.WithoutConcat | client/src/components/Settings.jsx:32 | removing keeps the order of what stays |
| Settings.WithoutAbsent | client/src/components/Settings.jsx:32 | removing a source that is not listed changes nothing |
| Settings.WithoutKeepsDistinct | client/src/components/Settings.jsx:29-34 | removing keeps the list free of duplicates |
| Settings.RemoveUndoesAdd | client/src/components/Settings.jsx:19-34 | removing the source just added gives back the settings it was added to |
| Settings.ResetSources | client/src/components/Settings.jsx:36-38 | resetting keeps the other settings |
| Settings.ResetIsDefaults | client/src/components/Settings.jsx:36-38 | after a reset the nine default sources are listed in their order, each once |
| EmailRoute.FirmOf | server/routes/email.js:25 | the firm is the given firm name unless it is missing or empty, then `Rivel Research Group` |
| EmailRoute.SourcesOf | server/routes/email.js:43 | one source per article, in order |
| EmailRoute.GenerationRequest | server/routes/email.js:32-38 | generation gets the three names, the firm with its default and the news context, and no tone, role, length or prompt choice |
| EmailRoute.HandleGenerateEmail | server/routes/email.js:7-52 | a missing or empty required field gives exactly the 400 response; a success reports as many sources as articles, at most eight; a failure is the 500 `Failed to generate email` |
| EmailRoute.MissingFieldsUseNoService | server/routes/email.js:18-22 | an incomplete request gets the same response whatever the feed, the model and the parser do |
| EmailRoute.CompleteRequestOutcome | server/routes/email.js:25-51 | a complete request asks the model once, with the structured default-style prompt. That prompt is built from the names, the firm with its default and the formatted news of exactly the articles fetched. The response is the 500 response with the error, or the whole generation result with the article count and sources |

## Left out

- The language model (`client.messages.create`), the RSS fetch and parser, `JSON.parse` and
  `toLocaleDateString` are parameters; their behaviour is not modelled.
- `generateEmailComparison` is not modelled: it only runs two generations concurrently with
  `Promise.all`.
- Console logging is left out, and so are clipboard copying, `setTimeout`, date display
  formatting and all rendering in the components.
- The three style tables and the prompt texts are proved about as given in `PromptTexts`. The
  base prompt is taken apart by hand into its literal texts and its eight placeholders. That its
  literal texts hold no `{{` and end with no `{` was checked by reading, not proved; the
  verifier does not reason about literals that long. The theorems about the structured prompt
  therefore take `WellFormed(texts.base)` as a precondition.
- Claude.StructuredPrompt: its contract assumes, as `PlainValues`, that no value holds `{{` or `$`
  or ends with `{`. The `$` patterns of `replace` are modelled exactly in `Strings.ReplaceAll`;
  the theorem does not cover values that use them.
- Claude.LegacyFirmLine: it states where the firm line sits and that it vanishes without a firm
  name. It does not state that the text `- Sender's firm:` occurs nowhere else, because the
  opening text and the values are parameters.
- `toLowerCase` lower-cases ASCII letters only; the Unicode case mapping of other letters is not
  modelled.
- News.CompanyNews: `Array.prototype.sort` is taken to be stable, as ECMAScript 2019 requires;
  the model sorts by a stable insertion and proves that every stable sort with the comparator
  gives the same order.
- A `preferredSources` in the request that is `null` or not an array is not modelled: it is
  either a list of strings or omitted.
- Request fields of types other than string are not modelled, and neither are keys inherited
  through an object's prototype when a style table is indexed.
- Fields of the parsed JSON reply are abstracted to strings, integers, `null` and "other".
