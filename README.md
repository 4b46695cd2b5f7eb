# IEP meeting simulator: the verified core

The application lets a parent rehearse an IEP (Individualized Education
Program) meeting. It has four parts:

- fixed scenario catalogs and a branching script;
- a multiple-choice rehearsal page, and a paginated scenario list with a form for suggesting a scenario;
- a glossary parsed from markdown, and an accommodations browser;
- three service endpoints. Each sends a prompt to a chat-completion service and then extracts, checks and normalises the JSON in the reply. Two are Next.js routes, `generateSchoolResponseAndOptions` and `scoreOutcomes`. One is a Python backend.

This project models that logic in Dafny and proves what the pages and endpoints rely on. There is one module per source file:

| module | file | what it is |
|---|---|---|
| `Common` | (shared) | `Option`, a JSON value type, the completion reply shape, JavaScript object lookup including the keys every object inherits from `Object.prototype`, and record literals built from their key/value entries. |
| `Strings` | (shared) | JavaScript `trim`/`\s` whitespace and Python `strip` whitespace, `split`/`join` with their round trips, ASCII lower-casing, substring and subsequence. |
| `BranchingScript` | `scenarios.ts` | The 11-step script as a constant table, with each step's condition as a predicate on the choice history. |
| `SimpleCatalog`, `CustomCatalog` | `SimpleScenarios.ts`, `CustomScenarios.ts` | The two constant catalogs. Prose is a handle naming the source line of the string literal. |
| `SimpleSession` | `scenarios/simple/page.tsx` | The rehearsal page. It is a class whose methods are the click handlers. |
| `ScenarioList` | `scenarios/page.tsx` | The page arithmetic and a class for the pagination and suggestion-form state. |
| `Glossary` | `glossary/page.tsx` | `parseGlossary` as a loop proved against a function of the lines, then the search filter and the grouping loop. |
| `Accommodations` | `AccommodationsUI.tsx` | The accommodation filter and the selection state. |
| `DialogueRoute`, `ScoreRoute` | the two Next.js routes | The key guard, the prompt formatting, the regular-expression extraction and the outcome decision trees. |
| `PythonBackend` | `openai_backend.py` | `safe_json_parse` and the two endpoints' validation and `setdefault` loops. |

`JSON.parse`/`json.loads` is a parameter `string -> Option<Json>`, and so is the completion service's reply. The model states how the code slices the text, in what order it tries the parses and which outcome each failure gives.

## Model

| member | source | states |
|---|---|---|
| BranchingScript.OptionAt | src/data/scenarios.ts:85 | `history[k]?.optionIndex` is defined exactly when `k` is inside the history, and is then that entry's option index |
| BranchingScript.Last | src/data/scenarios.ts:252-258 | `history[history.length - 1]` is defined exactly for a non-empty history, and is then its last entry |
| BranchingScript.CatalogKeysAreIds | src/data/scenarios.ts:29-31 | the catalog key equals the id of the scenario it maps to |
| BranchingScript.StepShape | src/data/scenarios.ts:36-331 | the script has 11 steps, and each has 1 to 3 options; option 0 is the only recommended option of each step |
| BranchingScript.NextStepsAreValid | src/data/scenarios.ts:47-306 | every explicit `nextStep` is an index from 1 to 10 into the 11 steps |
| BranchingScript.ConditionPresence | src/data/scenarios.ts:36-331 | steps 0 and 1 have no condition; steps 2 to 10 each have one |
| BranchingScript.ConditionMeaning | src/data/scenarios.ts:85-312 | each step's condition holds exactly when the history entries it reads exist and have the stated option indices; out-of-range reads count as undefined |
| BranchingScript.ShortHistoryFails | src/data/scenarios.ts:85 | the conditions of steps 2, 3, 4, 6, 7, 9 and 10 are false on a history too short to hold any entry they read |
| BranchingScript.Step5OnShortHistory | src/data/scenarios.ts:173 | because `\|\|` binds looser than `&&`, step 5 holds on a one-entry history with option 0 and fails on the empty history |
| BranchingScript.Step8OnLastChoice | src/data/scenarios.ts:252-258 | step 8 fails on the empty history and holds whenever the last choice is option 2 |
| BranchingScript.NextStepCycle | src/data/scenarios.ts:200 | step 5 option 2 leads to step 8 and step 8 option 0 leads back to 5; following those edges n times lands on 5 or 8 by parity, so following `nextStep` need not end |
| CustomCatalog.KeysAreIds | src/data/CustomScenarios.ts:21-469 | 14 scenarios, each keyed by its own id |
| CustomCatalog.ScenariosInOrder | src/data/CustomScenarios.ts:21-469 | the catalog's scenarios in the order written |
| CustomCatalog.InitialOptionsShape | src/data/CustomScenarios.ts:3-19 | every scenario has exactly three opening options of types interests, rights and power in that order, each with a `textExplanation` |
| CustomCatalog.OptionalFieldsSet | src/data/CustomScenarios.ts:3-19 | every scenario sets the optional `category` and lists exactly four `potentialOutcomes` |
| SimpleCatalog.ScenariosInOrder | src/data/SimpleScenarios.ts:23-873 | the catalog's scenarios in the order written |
| SimpleCatalog.KeysAreIds | src/data/SimpleScenarios.ts:23-873 | every key equals the id of the scenario it maps to |
| SimpleCatalog.ThreeByThree | src/data/SimpleScenarios.ts:3-19 | every scenario has exactly 3 questions, each with exactly 3 answers |
| SimpleCatalog.LastFourMissing | src/data/SimpleScenarios.ts:23-873 | the bullying, transportation, technology-access and mental-health scenarios have a free-form version but no multiple-choice one |
| SimpleCatalog.OnlyLastFourMissing | src/data/SimpleScenarios.ts:23-873 | those four are the only free-form scenarios without a multiple-choice version |
| SimpleCatalog.MirrorsCustomCatalog | src/data/SimpleScenarios.ts:23-873 | the catalog has exactly 10 scenarios; every key is a free-form key, and the free-form keys it lacks are exactly those four |
| SimpleSession.ViewAsWritten | src/app/scenarios/simple/page.tsx:59-78 | a missing id renders not-found, and an id naming an `Object.prototype` member that is not a catalog key crashes the page |
| SimpleSession.Lookup | src/app/scenarios/simple/page.tsx:59-61 | the corrected lookup finds a scenario exactly when the id is a catalog key, and the scenario found carries that id |
| SimpleSession.PrototypeKeyCrashes | src/app/scenarios/simple/page.tsx:59-61 | `?id=constructor` crashes the page as written, while the corrected lookup reports not-found |
| SimpleSession.LookupAgreesOffPrototype | src/app/scenarios/simple/page.tsx:59-78 | for every other id the page as written shows what the corrected lookup gives |
| SimpleSession.SummaryOf | src/app/scenarios/simple/page.tsx:6-56 | the summary carries the scenario's title and one row per question; a row shows the picked answer when the pick is in range and no answer when the pick is missing or out of range; the result text and next steps are constants that do not depend on the picks |
| SimpleSession.SimpleScenarioPage.constructor | src/app/scenarios/simple/page.tsx:63-67 | the page starts at step 0 with nothing selected, no feedback, no picks and no summary |
| SimpleSession.SimpleScenarioPage.Choose | src/app/scenarios/simple/page.tsx:102-106 | a choice is taken only while no feedback shows and only for an answer of the current question; it selects that answer and shows feedback |
| SimpleSession.SimpleScenarioPage.Next | src/app/scenarios/simple/page.tsx:124-132 | Next is taken only while feedback shows before the last question; it appends the pick, advances one question and clears the selection; the invariant linking picks to the step is kept |
| SimpleSession.SimpleScenarioPage.Finish | src/app/scenarios/simple/page.tsx:137-143 | Finish is taken only while feedback shows on the last question; it appends the pick and enters the summary with one valid pick per question |
| SimpleSession.SimpleScenarioPage.SummaryView | src/app/scenarios/simple/page.tsx:28 | in the summary, every row shows the answer that was picked for its question |
| ScenarioList.TotalPages | src/app/scenarios/page.tsx:37 | the page count is the ceiling of n / 6 |
| ScenarioList.SliceIndex | src/app/scenarios/page.tsx:38-41 | `slice` clamps an index into the list, and a non-negative index becomes min(k, n) |
| ScenarioList.PageItems | src/app/scenarios/page.tsx:38-41 | page p shows items (p-1)*6 to p*6 clipped to the list, at most 6 of them, and is non-empty exactly for 1 <= p <= the page count |
| ScenarioList.PagesPrefix | src/app/scenarios/page.tsx:38-41 | the first k pages concatenated are the first min(6k, n) items |
| ScenarioList.PagesCoverList | src/app/scenarios/page.tsx:38-41 | all pages concatenated reproduce the list, in order and without overlap |
| ScenarioList.CatalogPages | src/app/scenarios/page.tsx:6-7 | the 14 free-form scenarios make 3 pages of 6, 6 and 2 |
| ScenarioList.ScenarioListPage.constructor | src/app/scenarios/page.tsx:21-25 | the list starts at page 1 with the form closed and empty |
| ScenarioList.ScenarioListPage.PreviousPage | src/app/scenarios/page.tsx:150-151 | Previous moves back one page only when the controls show and the page is not the first; the page stays within 1 and the page count |
| ScenarioList.ScenarioListPage.NextPage | src/app/scenarios/page.tsx:160-161 | Next moves forward one page only when the controls show and the page is not the last |
| ScenarioList.ScenarioListPage.OpenSuggest | src/app/scenarios/page.tsx:173 | the suggestion button opens the form and changes nothing else |
| ScenarioList.ScenarioListPage.EditText | src/app/scenarios/page.tsx:205-208 | the text can be edited only while the form is open, not sending and not yet sent |
| ScenarioList.ScenarioListPage.StartSend | src/app/scenarios/page.tsx:43-53 | Send starts only with the form open, not sending, not sent, and a text that is not all white space |
| ScenarioList.ScenarioListPage.CompleteSend | src/app/scenarios/page.tsx:43-53 | a finished send clears the text and marks the suggestion sent |
| ScenarioList.ScenarioListPage.Close | src/app/scenarios/page.tsx:184-187 | the close button closes the form and resets the text and the sent flag |
| ScenarioList.ScenarioListPage.Cancel | src/app/scenarios/page.tsx:220-225 | Cancel does the same, but only while the button is enabled |
| Glossary.HeaderBody | src/app/glossary/page.tsx:24 | where the text after `^#…\s+\*\*` starts: the hashes, at least one whitespace character, then `**` |
| Glossary.HeaderBodyComplete | src/app/glossary/page.tsx:24 | every line shaped that way is recognised, at that position |
| Glossary.LetterHeader | src/app/glossary/page.tsx:24-28 | a letter header captures one word character followed by `**` |
| Glossary.LetterHeaderComplete | src/app/glossary/page.tsx:24 | every line of the shape `##`, white space, `**`, one word character and `**` is recognised as a letter header with that character |
| Glossary.LazyEnd | src/app/glossary/page.tsx:30 | the lazy `(.+?)\*\*` stops at the first `**` not preceded by a line terminator, and fails only when every `**` comes after one |
| Glossary.TermHeader | src/app/glossary/page.tsx:30-43 | the term text is the shortest non-empty text after `### **` that a `**` follows |
| Glossary.TermHeaderComplete | src/app/glossary/page.tsx:30 | whenever such a closing `**` exists, the term header matches |
| Glossary.ParseLine | src/app/glossary/page.tsx:22-61 | one pass of the loop body updates the four locals and the term list exactly as one step of the specification run does |
| Glossary.ParseGlossary | src/app/glossary/page.tsx:14-72 | the loop with its four mutable locals returns exactly the specification run over the lines |
| Glossary.ParsedTermsOk | src/app/glossary/page.tsx:32-70 | every emitted term has a non-empty name, a non-empty trimmed definition, and a letter that is empty or one word character |
| Glossary.JoinedLinesTrimmed | src/app/glossary/page.tsx:35 | the final `trim()` of the joined definition lines changes nothing |
| Glossary.ParsedInHeaderOrder | src/app/glossary/page.tsx:30-43 | the emitted term names are a subsequence of the term headers, in header order |
| Glossary.TermBlock | src/app/glossary/page.tsx:39-57 | a term header, then plain lines, then a blank or `---` line emits the term with its trimmed lines joined by single spaces, and stops collecting |
| Glossary.IgnoredUntilHeader | src/app/glossary/page.tsx:45 | once collection has stopped, lines are ignored until the next term header |
| Glossary.LetterKeepsDefinition | src/app/glossary/page.tsx:24-28 | a letter header changes the current letter and nothing else, so it does not end a definition |
| Glossary.FilterTerms | src/app/glossary/page.tsx:77-85 | a blank search returns every term; otherwise the result is the order-preserving subsequence of terms whose lowercased name or definition contains the lowercased search, holding each matching term as many times as the list does, so it is exactly what `filter` keeps |
| Glossary.Group | src/app/glossary/page.tsx:88-95 | a letter's group is the order-preserving subsequence of the terms with that letter, holding each of them as many times as the list does |
| Glossary.GroupOfAbsentLetter | src/app/glossary/page.tsx:88-95 | a letter no term has gets no terms |
| Glossary.GroupByLetter | src/app/glossary/page.tsx:88-95 | the loop builds a map with one key per letter present, mapping each letter to its group |
| Accommodations.Addressing | src/components/AccommodationsUI.tsx:16-18 | the order-preserving subsequence of the accommodations that address the presentation, holding each of them as many times as the list does, so it is exactly what `filter` keeps |
| Accommodations.Filtered | src/components/AccommodationsUI.tsx:15-19 | empty when no disability is selected or the presentation is null or `''`; otherwise, in order and with repeats, exactly the selected disability's accommodations addressing the presentation |
| Accommodations.AccommodationsPage.constructor | src/components/AccommodationsUI.tsx:12-13 | nothing is selected at first |
| Accommodations.AccommodationsPage.SelectDisability | src/components/AccommodationsUI.tsx:42-45 | selecting a disability sets it and resets the presentation |
| Accommodations.AccommodationsPage.SelectPresentation | src/components/AccommodationsUI.tsx:74 | selecting a presentation of the selected disability leaves the disability unchanged |
| Accommodations.AccommodationsPage.Shown | src/components/AccommodationsUI.tsx:89-93 | the list displayed is exactly the filtered list for the current selection; every item in it belongs to the selected disability and addresses the selected presentation |
| Common.JsIndex | src/app/scenarios/simple/page.tsx:59-61 | `obj[key]` finds an own key first, otherwise an `Object.prototype` member, otherwise undefined |
| Common.RecordLookup | src/data/CustomScenarios.ts:21-469 | every key of a record literal maps to the value of one of its entries |
| Common.RecordLastWins | src/data/CustomScenarios.ts:21-469 | a key written more than once in a record literal holds the value of its last entry |
| Common.RecordSize | src/data/SimpleScenarios.ts:23-873 | a record literal with distinct keys has as many keys as entries |
| Common.ContentOf | src/app/api/generateSchoolResponseAndOptions/route.ts:78 | `choices?.[0]?.message?.content \|\| ''` is the first choice's content when every link exists and is non-empty, otherwise `''` |
| DialogueRoute.IrpDescriptionAsWritten | src/app/api/generateSchoolResponseAndOptions/route.ts:15-20 | the lookup as written returns an inherited `Object.prototype` member exactly when the type names one |
| DialogueRoute.IrpDescription | src/app/api/generateSchoolResponseAndOptions/route.ts:15-20 | the corrected lookup gives one fixed description each for interests, rights and power, and none for anything else |
| DialogueRoute.InheritedDescription | src/app/api/generateSchoolResponseAndOptions/route.ts:20 | `irpType` "toString" puts a function into the prompt as written, while the corrected lookup gives no description |
| DialogueRoute.DescriptionAgreesOffPrototype | src/app/api/generateSchoolResponseAndOptions/route.ts:15-20 | for every other type the lookup as written agrees with the corrected one, with `''` when there is no description |
| DialogueRoute.HistoryLines | src/app/api/generateSchoolResponseAndOptions/route.ts:25 | one `Parent: <user>` line per turn, in order |
| DialogueRoute.HistoryRoundTrip | src/app/api/generateSchoolResponseAndOptions/route.ts:25 | splitting the rendered history at newlines gives back the lines, and each turn's user text follows its prefix |
| DialogueRoute.HistoryReadsOnlyUser | src/app/api/generateSchoolResponseAndOptions/route.ts:25 | the rendered history depends only on the `user` fields |
| DialogueRoute.FirstIndex | src/app/api/generateSchoolResponseAndOptions/route.ts:80-85 | the position of the first occurrence, or none |
| DialogueRoute.LastIndex | src/app/api/generateSchoolResponseAndOptions/route.ts:80-85 | the position of the last occurrence, or none |
| DialogueRoute.BracedSpanIff | src/app/api/generateSchoolResponseAndOptions/route.ts:80-85 | the greedy `{[\s\S]*}` matches exactly when some `{` comes before some `}` |
| DialogueRoute.ExtractObject | src/app/api/generateSchoolResponseAndOptions/route.ts:80-85 | with a match, the text from the first `{` to the last `}` inclusive; without one, the whole content |
| DialogueRoute.ExtractIdempotent | src/app/api/generateSchoolResponseAndOptions/route.ts:80-85 | extracting twice gives the same as extracting once |
| DialogueRoute.ExtractRecoversWrapped | src/app/api/generateSchoolResponseAndOptions/route.ts:80-85 | an object with no `{` before it and no `}` after it is recovered exactly |
| DialogueRoute.Status | src/app/api/generateSchoolResponseAndOptions/route.ts:94-96 | 200 exactly for a parsed reply, otherwise 500 |
| DialogueRoute.Generate | src/app/api/generateSchoolResponseAndOptions/route.ts:9-96 | a missing key fails before any request; a failed request is a generation failure; otherwise the extracted text is parsed, and a parse failure reports the original content |
| DialogueRoute.NoRequestWithoutKey | src/app/api/generateSchoolResponseAndOptions/route.ts:9-12 | without a key, the outcome does not depend on the reply |
| ScoreRoute.OutcomeLines | src/app/api/scoreOutcomes/route.ts:22 | one `- <outcome>` line per outcome, in order |
| ScoreRoute.OutcomeTextRoundTrip | src/app/api/scoreOutcomes/route.ts:22 | splitting the rendered outcomes at newlines gives back the lines and the outcomes |
| ScoreRoute.ArrayOpenAt | src/app/api/scoreOutcomes/route.ts:51 | `\[\s*\{` at a position: a `[`, white space, then a `{` |
| ScoreRoute.ArrayCloseAt | src/app/api/scoreOutcomes/route.ts:51 | `\}\s*\]` at a position: a `}`, white space, then a `]` |
| ScoreRoute.LazyClose | src/app/api/scoreOutcomes/route.ts:51 | the lazy `[\s\S]*?` stops at the first later closing `}\s*]`, or finds none |
| ScoreRoute.ArrayMatchAt | src/app/api/scoreOutcomes/route.ts:51 | a match starting at a position runs from its `[` to a `]` |
| ScoreRoute.FindArray | src/app/api/scoreOutcomes/route.ts:51 | the leftmost match: nothing matches before it, and no match exists when it reports none |
| ScoreRoute.ExtractRecoversArray | src/app/api/scoreOutcomes/route.ts:51 | an array literal `[ {…} ]` whose body has no `]`, with no `[` before it, is exactly what the regular expression extracts |
| Strings.Trim | src/app/api/scoreOutcomes/route.ts:43 | `trim()` removes exactly the leading and trailing white space: the input is white space, then the result, then white space, the result has no white space at either end, and it is empty exactly for an all-white-space input |
| ScoreRoute.TrimmedContent | src/app/api/scoreOutcomes/route.ts:43 | the content, defaulting to `''`, with its leading and trailing white space removed: the content is white space, then the result, then white space, and the result has no white space at either end |
| ScoreRoute.ParseExtracted | src/app/api/scoreOutcomes/route.ts:51-60 | no match gives "no valid JSON array" with the content; a match that does not parse gives "failed to parse extracted array"; otherwise the extracted value |
| ScoreRoute.Score | src/app/api/scoreOutcomes/route.ts:25-63 | a failed request is unhandled; a content that parses as a whole is returned unchanged; only otherwise is the array extracted |
| ScoreRoute.WrappedArrayIsScored | src/app/api/scoreOutcomes/route.ts:43-63 | a reply that fails to parse as a whole but wraps a parseable array literal is scored with that array |
| PythonBackend.Cuts | backend_api/openai_backend.py:42-47 | `safe_json_parse` removes 0, 3, 7 or 10 leading characters and 0 or 3 trailing ones, never more than the text has |
| PythonBackend.Unfenced | backend_api/openai_backend.py:40-47 | the cleaned text is the middle of the stripped text, at most 13 characters shorter and never longer |
| PythonBackend.SafeJsonParse | backend_api/openai_backend.py:35-51 | a direct parse that succeeds is returned; otherwise the stripped, unfenced text is parsed once |
| PythonBackend.UnfencedJsonFence | backend_api/openai_backend.py:42-47 | a "```json" fence is removed and gives back the body exactly |
| PythonBackend.UnfencedPlainFence | backend_api/openai_backend.py:44-47 | a plain "```" fence is removed and gives back the body exactly |
| PythonBackend.UnfencedPlain | backend_api/openai_backend.py:42-47 | text with no backtick at either end is left unchanged |
| PythonBackend.FencedReplyParses | backend_api/openai_backend.py:35-51 | a fenced reply is parsed as its body |
| PythonBackend.SetDefault | backend_api/openai_backend.py:94-96 | `setdefault` adds the key with the default only when it is missing, and keeps every existing value |
| PythonBackend.DefaultKeys | backend_api/openai_backend.py:94-96 | the keys the defaults name |
| PythonBackend.WithDefaultsSpec | backend_api/openai_backend.py:94-96 | the defaulted dict has the old keys plus the default keys; old values are kept and each missing key gets its first default |
| PythonBackend.WithDefaultsIdempotent | backend_api/openai_backend.py:94-96 | defaulting twice gives the same as defaulting once |
| PythonBackend.WithDefaultsComplete | backend_api/openai_backend.py:94-96 | a dict that already has every default key is unchanged |
| PythonBackend.Normalised | backend_api/openai_backend.py:93-96 | each dict of the list gets its defaults, and the list keeps its length and order |
| PythonBackend.NormaliseEach | backend_api/openai_backend.py:93-96 | the in-place loop succeeds exactly when every item is a dict, and then gives the normalised list |
| PythonBackend.NormalisedKeeps | backend_api/openai_backend.py:93-96 | normalising keeps the item count and every existing value, and every item ends with all the default keys |
| PythonBackend.Status | backend_api/openai_backend.py:97-99 | 200 exactly for a successful response, otherwise 500 |
| PythonBackend.PyIn | backend_api/openai_backend.py:90 | Python `in` raises on None, booleans and numbers, and tests key membership on a dict |
| PythonBackend.Screen | backend_api/openai_backend.py:89-91 | a parse that fails is rejected as malformed, and a result passes only if it is truthy |
| PythonBackend.GenerateSchoolResponseAndOptions | backend_api/openai_backend.py:53-99 | the dialogue endpoint's decision from the completion reply on: every raised exception is the one 500 failure and never the malformed body; a falsy or incomplete result is malformed with the raw text; a list of options is returned with defaults filled in |
| PythonBackend.ScoreOutcomes | backend_api/openai_backend.py:101-140 | the scoring endpoint rejects any result that is not a list as malformed with the raw text; a list holding a non-dict raises and is the one 500 failure; a list of dicts is returned with defaults filled in, and an empty list is accepted and returned empty |

## Left out

- The completion requests are not modelled: `fetch` in both routes and `openai.ChatCompletion.create` in the backend. A reply, or its absence, is an input.
- `JSON.parse` and `json.loads` are parameters. The model proves only the slicing and decisions around them.
- The prompt prose, and the prose in the catalogs and the script, are not modelled. Each literal is a handle naming its source line. Ids, titles and categories are real strings.
- The logging, suggestion and disability endpoints are not modelled, nor the accommodations loader, the theme toggle, the home and rights pages, `localStorage`, `marked` and all rendering. They are I/O or presentation.
- No code walks the branching script, so the model has no step-selection engine. The script does contain the cycle 5 → 8 → 5 (`NextStepCycle`).
- Strings.Lower: lowercases ASCII letters only. JavaScript's `toLowerCase` also maps other Unicode letters, so `FilterTerms` is exact only for ASCII search text and terms.
- Key order is not modelled. JSON objects are maps, so the order of keys in `Object.entries` output and Python dicts is not captured.
- Common.ContentOf: a completion reply whose body is JSON `null`, or whose `content` is a truthy non-string, is not modelled. In the route either one throws inside the `try` and gives the 500 "Failed to generate response"; the model's reply type holds only objects with string content.
- `req.json()` failures are not modelled, nor a `parentHistory` that is not an array. Both happen outside the routes' `try` blocks.
- PythonBackend.GenerateSchoolResponseAndOptions and PythonBackend.ScoreOutcomes: the reads of `request.json` and `data.get(...)` are not modelled. They sit outside the `try`, so a JSON `null` or non-object request body raises there and gives the framework's own error page. The model starts at the completion reply.
- ScenarioList.ScenarioListPage.StartSend: a rejected suggestion request is not modelled. The `await` then throws before `sending` is reset, so the page stays in `sending`; the model only has the completed send (`CompleteSend`).
- ScoreRoute.Score: the completion request in `scoreOutcomes` sits outside any `try`. The model reports its failure as `Unhandled` and does not model the framework's error page.
- PythonBackend.ScoreOutcomes: the default score is the integer `0`. The model represents it as the JSON number 0.0.
- PythonBackend.GenerateSchoolResponseAndOptions: the message text of an exception is not modelled. Every raised exception is the one outcome `Failed`.
- PythonBackend.UnfencedPlainFence: stated only for bodies that do not start with `j`. A "```" fence around a body starting with "json" is removed as a "```json" fence.
- DialogueRoute.IrpDescriptionAsWritten: an `irpType` that is not a string is not modelled. Only string values and absence are.

## Findings

| source | as written | input that shows it | evidently intended | confidence | as-written member | corrected member |
|---|---|---|---|---|---|---|
| src/app/scenarios/simple/page.tsx:59-61 | the scenario is looked up with `simpleScenarios[id]`, which also finds members inherited from `Object.prototype` | `?id=constructor` selects the `Object` constructor; reading its `steps` then throws while rendering | an id that is not a catalog key shows the not-found view | not executed | SimpleSession.PrototypeKeyCrashes | SimpleSession.Lookup |
| src/app/api/generateSchoolResponseAndOptions/route.ts:20 | the description is `irpDescriptionMap[irpType] \|\| ''`, which also finds inherited members | `irpType: "toString"` puts the source text of a function into the prompt | only interests, rights and power have descriptions; anything else gives `''` | not executed | DialogueRoute.InheritedDescription | DialogueRoute.IrpDescription |
