# Scholarship search: a Dafny model

The application is a scholarship finder. A student types a free-text query
on the home page (`src/app/page.tsx`). Then:

- The page asks the search endpoint (`src/app/api/search/route.ts`) to turn
  the query into structured parameters. The model prompt extracts caste,
  religion, state (or city) and education level.
- If the reply lists missing parameters, the page asks for them in a
  step-by-step dialog (`src/components/SearchQuestionnaire.tsx`). The
  dialog's question table also has entries for income and category.
- It then asks the endpoint for a web search with those parameters.
- Finally it asks the endpoint for generated results. The page reads the
  response body as a stream of server-sent event frames (`scholarship`,
  `summary`, `recommendations`, `resources`). It splits the text into
  frames and dispatches each frame into its state. The endpoint itself
  answers with a single JSON envelope; see "Left out".

The server side (`src/utils/ai-config.ts`) does three things:

- It composes the web-search query and cleans the search results.
- It asks a language model for either the parameters or the result document.
- It strips Markdown code fences from the model's reply before parsing it as
  JSON.

The display components format a scholarship's requirements
(`ScholarshipCard.tsx`), mark search steps as done, in progress or pending
(`SearchAnimation.tsx`), and reveal text one character at a time
(`StreamingText.tsx`).

Modules:

- `Wrappers`: `Option` and `Result`.
- `Js`: the JSON values, thrown values and the error-message fallbacks of the
  language runtime.
- `Text`: the string built-ins the code relies on, as used by the source.
  These are `trim`, the `/\s+/g` replacement, `indexOf`/`includes`,
  `replace` with a string pattern, and `split`/`join`.
- `Types`: the records of `src/types/index.ts`.
- `AiConfig`: fence stripping, validation, result cleaning, the web search
  and the two model calls.
- `Route`: the `POST` handler.
- `EventStream`: the frame decoder and the reducer, as pure functions.
- `Page`: the home page. The class `Home` holds the page state. Its methods
  are proved against pure outcome functions over a `View` snapshot.
- `Questionnaire`: the question table, a pure answer-sequence model, and the
  class `SearchQuestionnaire`.
- `ScholarshipCard`, `SearchAnimation`, `StreamingText`: the display logic.

The model has no network, no model and no JSON parser of its own. These are
function-typed parameters:

- the Custom Search fetch;
- the query model;
- the result model;
- `JSON.parse`;
- the page's three `fetch` calls and the response stream.

Everything is proved for every behaviour of these collaborators.

## Model

| member | source | states |
|---|---|---|
| Text.Trim | src/utils/ai-config.ts:91 | the result has no white space at either end, and is the infix of the input between the leading and trailing white space, which is all that was removed |
| Text.TrimKeepsContent | src/utils/ai-config.ts:91 | trimming removes white space only: the non-space characters are kept, in order |
| Text.TrimOfTrimmed | src/utils/ai-config.ts:179-181 | trimming a text with no white space at its ends gives it back unchanged |
| Text.BlankTrimsToEmpty | src/app/page.tsx:105 | a query or answer trims to the empty string exactly when it is all white space |
| Text.CollapseSpaces | src/utils/ai-config.ts:179 | the `/\s+/g` replacement is never longer than its input, is empty only for the empty input, and starts with white space exactly when the input does |
| Text.CollapseKeepsContent | src/utils/ai-config.ts:179 | collapsing white-space runs keeps every other character, in order |
| Text.CollapseIsSingleSpaced | src/utils/ai-config.ts:179 | after collapsing, white space occurs only as single plain spaces |
| Text.CollapseOfSingleSpaced | src/utils/ai-config.ts:179 | collapsing a text that is already single-spaced changes nothing |
| Text.SingleSpacedInfix | src/utils/ai-config.ts:179-180 | every infix of a single-spaced text is single-spaced, which is why trimming keeps the property |
| Text.NormalizeSpacesSpec | src/utils/ai-config.ts:179-181 | a cleaned title or snippet has no white space at its ends, only single plain spaces inside, and the non-space characters of the original in order; where the single spaces go is stated by NormalizeSpacesAtRun |
| Text.CollapseAppend | src/utils/ai-config.ts:179 | collapsing distributes over a boundary that follows a non-space character |
| Text.CollapseRun | src/utils/ai-config.ts:179 | a whole run of white space followed by a non-space character becomes a single space |
| Text.CollapseSplitsAtRun | src/utils/ai-config.ts:179 | a maximal white-space run between `a` and `b` is replaced by exactly one space, and each side is collapsed on its own |
| Text.CollapseEnds | src/utils/ai-config.ts:179 | the collapsed text is non-empty for a non-empty text, and ends in white space exactly when the text does |
| Text.NormalizeSpacesAtRun | src/utils/ai-config.ts:179-181 | two words separated by any white-space run are cleaned to the two cleaned words joined by exactly one space |
| Text.NormalizeSpacesIdempotent | src/utils/ai-config.ts:179-181 | cleaning a cleaned string changes nothing |
| Text.FindFrom | src/app/page.tsx:197 | the first occurrence of the pattern at or after a position, and no occurrence at all when it answers none |
| Text.IndexOf | src/components/ScholarshipCard.tsx:25 | `indexOf`: the first occurrence of the pattern, with none exactly when it does not occur |
| Text.RemoveFirst | src/app/page.tsx:197-198 | `replace` with a string pattern leaves a text without the pattern unchanged, and removes a leading occurrence |
| Text.Split | src/app/page.tsx:192 | `split` on a non-empty separator gives at least one piece |
| Text.JoinSplit | src/app/page.tsx:192 | joining the pieces with the separator gives back the original text |
| Text.SplitPiecesFree | src/app/page.tsx:192-193 | no piece contains the separator |
| Text.SplitOfFree | src/app/page.tsx:192-193 | a text without the separator is its own single piece |
| Text.IndexOfAppend | src/app/page.tsx:228 | appending text keeps an existing first occurrence in place |
| Text.SplitAppend | src/app/page.tsx:228-229 | the pieces of `buffer + chunk` are the finished pieces of the buffer followed by the pieces of its last piece plus the chunk |
| Text.SplitCount | src/components/ScholarshipCard.tsx:25 | splitting on one character gives exactly one piece more than that character occurs |
| Text.CountAppend | src/components/ScholarshipCard.tsx:25 | occurrence counts add up over concatenation |
| AiConfig.StripFences | src/utils/ai-config.ts:91 | the fence-marker removal never lengthens the reply |
| AiConfig.StripFencesShrinks | src/utils/ai-config.ts:91 | a reply containing three backticks is strictly shortened |
| AiConfig.StripFencesKeepsPlainText | src/utils/ai-config.ts:91 | a reply without three backticks is left unchanged |
| AiConfig.StripFencesUnchangedIff | src/utils/ai-config.ts:91 | the reply is left unchanged exactly when it contains no three backticks |
| AiConfig.StripClosingFence | src/utils/ai-config.ts:91 | a closing newline-and-fence after backtick-free text is removed with its newline |
| AiConfig.ValidateResponse | src/utils/ai-config.ts:88-104 | never throws: the reply is valid exactly when its fence-stripped, trimmed text parses; the data is then the parsed value, and null otherwise |
| AiConfig.ValidateWithoutBackticks | src/utils/ai-config.ts:88-104 | a backtick-free reply is only trimmed before it is parsed |
| AiConfig.ValidateFencedBlock | src/utils/ai-config.ts:88-104 | a reply wrapped as a fenced `json` block is validated as its trimmed body |
| AiConfig.CleanAll | src/utils/ai-config.ts:178-182 | the `map` step yields one result per item |
| AiConfig.CleanItemSpec | src/utils/ai-config.ts:178-182 | a cleaned title and snippet are normalised as in NormalizeSpacesSpec; the link is copied unchanged, or empty when absent |
| AiConfig.CleanSearchItems | src/utils/ai-config.ts:177-187 | the kept results number at most the items, and each has a non-empty title and link |
| AiConfig.CleanSearchItemsInOrder | src/utils/ai-config.ts:177-187 | the kept results are the cleaned items, some left out, the rest in the service's order |
| AiConfig.CleanSearchItemsCounts | src/utils/ai-config.ts:177-187 | the results are exactly the filter of the cleaned items: each kept value occurs as often as among the cleaned items, and no other value occurs |
| AiConfig.CleanItemAtRun | src/utils/ai-config.ts:178-182 | a title or snippet of two words separated by any white-space run is cleaned to the two cleaned words joined by exactly one space |
| AiConfig.CleanSearchItemsComplete | src/utils/ai-config.ts:183-187 | every cleaned item with a non-empty title and link is among the results |
| AiConfig.SearchGoogle | src/utils/ai-config.ts:135-192 | never throws; the result is empty when credentials are missing, the request fails, the answer is not ok or it holds no items, and otherwise it is the cleaned list |
| AiConfig.GenerateScholarshipSearch | src/utils/ai-config.ts:195-295 | the model is asked with the parameters and the web evidence for the composed query; a model failure is rethrown unchanged |
| AiConfig.ParseQueryToJson | src/utils/ai-config.ts:298-344 | succeeds exactly when the model answers and its text parses directly, with no fence stripping, and then returns the parsed object; a model failure or parse failure is rethrown |
| Route.Post | src/app/api/search/route.ts:20-74 | the status is 200, 400 or 500; 200 exactly with a success body; 400 exactly for an unknown search type, with the "Invalid search type" body; every 500 carries "Failed to process request" and details; an unreadable body is a 500 |
| Route.ParseQueryEnvelope | src/app/api/search/route.ts:27-31 | `parseQuery` answers 200 with the parsed document exactly when the model call and the parse succeed, else 500 with the thrown message |
| Route.SearchWebAlwaysSucceeds | src/app/api/search/route.ts:33-38 | `searchWeb` with parameters always answers 200 with the cleaned results for the composed query; without credentials, with an empty list |
| Route.SearchWebWithoutParams | src/app/api/search/route.ts:33-38 | `searchWeb` without parameters answers 500 naming the failed read of `caste` |
| Route.GenerateModelFailureIs500 | src/app/api/search/route.ts:40-72 | an exception thrown by the result model on `generateResults` is caught and answered 500 with its message |
| Route.GenerateUnparsableIs500 | src/app/api/search/route.ts:46-50 | a generated reply that does not validate turns into a 500 whose details are "Failed to parse AI response" |
| Route.GenerateParsedIs200 | src/app/api/search/route.ts:52-55 | a generated reply that validates is answered 200 with the parsed document |
| Route.SearchWebMatchesGenerateEvidence | src/app/api/search/route.ts:33-56 | the `searchWeb` answer is exactly the evidence `generateResults` hands the model for the same parameters |
| EventStream.DispatchAppend | src/app/page.tsx:195-221 | dispatching two runs of frames in turn equals dispatching them together, stopping at the first failure |
| EventStream.Decoded | src/app/page.tsx:195-198 | decoding gives one frame per frame text |
| EventStream.DispatchAllSpec | src/app/page.tsx:191-221 | when every frame decodes there is no failure; the scholarships are the old ones followed by every `scholarship` event's data in order; each other field holds its last event's data, or keeps its value if there was no such event |
| EventStream.DispatchAllStops | src/app/page.tsx:195-221 | the first frame that fails to decode ends the run with its error, and later frames change nothing |
| EventStream.NoNewlineNoMatch | src/app/page.tsx:196 | a text without a newline character contains no newline |
| EventStream.SplitAtOnlyNewline | src/app/page.tsx:196 | a text with one newline splits into the line before and the line after it |
| EventStream.DecodeEncodedFrame | src/app/page.tsx:195-198 | a frame written as `event: <type>\ndata: <payload>` decodes to that type and to the parse of the payload; it fails exactly when the payload does not parse |
| EventStream.OneLineFrameFails | src/app/page.tsx:196-198 | a frame without a second line fails with the error of reading `replace` of `undefined` |
| EventStream.BadDataFrameFails | src/app/page.tsx:198 | a well-formed frame whose data does not parse fails with the parser's message |
| EventStream.FeedAllAfterFailure | src/app/page.tsx:223-239 | once a chunk has failed, later chunks change nothing |
| EventStream.FeedAllIsSplitOfConcat | src/app/page.tsx:190-230 | how the stream is cut into chunks does not matter: the loop's result is the dispatch of the complete frames of the concatenated text, and its buffer is the text after the last separator |
| EventStream.FlushDispatchesNothing | src/app/page.tsx:232 | the flush after the loop never holds a complete frame, so it leaves the results and the failure as they are |
| Page.MergeParams | src/app/page.tsx:251-254 | the merged keys are the answers' keys and the parsed keys; an answer overrides a parsed value; a parsed value is kept where there is no answer; with no parsed parameters the result is the answers |
| Page.BlankQueryDoesNothing | src/app/page.tsx:103-106 | a query that is all white space changes no state and sends no request |
| Page.StreamOutcomeFrame | src/app/page.tsx:172-188 | reading the stream changes only the results and the error |
| Page.AfterGenerateFrame | src/app/page.tsx:172-188 | after its request is sent, generation changes only the results and the error |
| Page.StreamOutcomeSpec | src/app/page.tsx:190-239 | the results are the dispatch of the complete frames of the concatenated chunks; the error comes from the first failing frame, else from a rejected read; otherwise only the results change |
| Page.ProcessAlwaysResets | src/app/page.tsx:154-244 | every exit clears loading and the step; the web-search request is sent with the parameters, then the generation request only if the search answered; query, dialog and parsed parameters are untouched |
| Page.SearchEndsNotLoading | src/app/page.tsx:103-152 | a non-blank search ends with the page no longer loading, whichever way it went |
| Page.MissingParamsStopBeforeSearch | src/app/page.tsx:134-140 | a non-empty missing list stops the search after the parse request: the parsed parameters and the list are stored, the dialog is shown and loading stops |
| Page.AllRoutableAppend | src/app/page.tsx:120-188 | requests that the endpoint can route remain routable when concatenated |
| Page.RequestsAreRoutable | src/app/page.tsx:103-188 | every request the page sends has a search type the endpoint knows, and a web-search request carries parameters |
| Page.CompleteSearchesWithMerged | src/app/page.tsx:246-257 | after the dialog the next request is the web search with the merged parameters; the dialog is closed and loading has stopped |
| Page.FinishDispatch | src/app/page.tsx:195-221 | once a prefix of the frames has failed, the rest change nothing (the loop's early exit) |
| Page.FinishFeed | src/app/page.tsx:223-239 | once a prefix of the chunks has failed, the rest change nothing (the read loop's early exit) |
| Page.Home.constructor | src/app/page.tsx:77-101 | the initial state: not loading, no step, empty query and results, examples shown, dialog hidden, no parsed parameters, no requests |
| Page.Home.SetSearchQuery | src/app/page.tsx:313 | typing or clicking an example changes the query only |
| Page.Home.ApplyFrame | src/app/page.tsx:200-219 | one `switch` case applied to the results, nothing else changes |
| Page.Home.ProcessEvents | src/app/page.tsx:191-221 | the complete frames are dispatched in order until the first failure, and the text after the last separator is returned |
| Page.Home.FeedChunks | src/app/page.tsx:223-230 | the read loop leaves the state the pure chunk fold computes, changing only the results |
| Page.Home.ReadStream | src/app/page.tsx:190-239 | the stream's effect is StreamOutcome |
| Page.Home.Generate | src/app/page.tsx:172-188 | the generation step's effect is AfterGenerate |
| Page.Home.SearchWeb | src/app/page.tsx:157-188 | the web search and what follows it have the effect AfterWeb |
| Page.Home.ProcessSearch | src/app/page.tsx:154-244 | the effect is ProcessOutcome, about which ProcessAlwaysResets holds |
| Page.Home.BeginSearchState | src/app/page.tsx:107-118 | the resets at the start of a search |
| Page.Home.HandleSearch | src/app/page.tsx:103-152 | the effect is SearchOutcome, about which BlankQueryDoesNothing, SearchEndsNotLoading, MissingParamsStopBeforeSearch and RequestsAreRoutable hold |
| Page.Home.CancelQuestionnaire | src/app/page.tsx:618-621 | cancelling closes the dialog and stops loading, nothing else |
| Page.Home.HandleQuestionnaireComplete | src/app/page.tsx:246-257 | the effect is CompleteOutcome, about which CompleteSearchesWithMerged holds |
| Questionnaire.QuestionsWellFormed | src/components/SearchQuestionnaire.tsx:21-83 | the table has exactly the six parameters; each entry is filed under its own id and asks for that parameter; exactly the select questions have options, at least five each |
| Questionnaire.Run | src/components/SearchQuestionnaire.tsx:97-107 | the question index always stays within the missing list |
| Questionnaire.RunSpec | src/components/SearchQuestionnaire.tsx:97-107 | over the first n answers the index counts the answers and then stays on the last question; the completion callback is not called before the n-th answer and is called exactly once after it, with the answers; the answers hold exactly the names asked, each with its latest answer |
| Questionnaire.StepKeepsEarlierAnswers | src/components/SearchQuestionnaire.tsx:97-99 | an answer is recorded under the current name and keeps every other earlier entry |
| Questionnaire.SearchQuestionnaire.constructor | src/components/SearchQuestionnaire.tsx:90-92 | starts at the first question with no answers, an empty input and no completion |
| Questionnaire.SearchQuestionnaire.HandleAnswer | src/components/SearchQuestionnaire.tsx:97-107 | the new state is one Step of the pure model, and the input is cleared |
| Questionnaire.SearchQuestionnaire.ChangeInput | src/components/SearchQuestionnaire.tsx:180 | typing changes only the input |
| Questionnaire.SearchQuestionnaire.HandleSubmitText | src/components/SearchQuestionnaire.tsx:109-114 | a blank input changes nothing; otherwise the trimmed input is the answer |
| Questionnaire.SearchQuestionnaire.ChooseOption | src/components/SearchQuestionnaire.tsx:161-173 | the recorded answer is one of the current question's options |
| ScholarshipCard.FormatList | src/components/ScholarshipCard.tsx:20-30 | nothing and the empty string give no items; an array is used as it is; a string without a comma is the single item |
| ScholarshipCard.FormatCommaSeparated | src/components/ScholarshipCard.tsx:25 | a string with commas gives one item per comma-separated field (one more than the commas, at least two); each item is its field trimmed; the fields joined with commas are the string |
| ScholarshipCard.CountZeroMeansAbsent | src/components/ScholarshipCard.tsx:25 | a character that occurs in a text is counted at least once |
| ScholarshipCard.ShowsRequirementsIff | src/components/ScholarshipCard.tsx:162 | the requirements section is shown exactly when the field is a non-empty array or a non-empty string |
| ScholarshipCard.DisplayTitle | src/components/ScholarshipCard.tsx:45 | the shown title is the title itself when it has one, and "Scholarship Title" for an empty title |
| SearchAnimation.FirstIndex | src/components/SearchAnimation.tsx:53 | `indexOf` gives the first position of the element, and -1 exactly when it is absent |
| SearchAnimation.StatusClassification | src/components/SearchAnimation.tsx:51-58 | a step is in progress exactly when it is the current step, and completed exactly when the current step first occurs later in the list |
| SearchAnimation.UnknownStepAllPending | src/components/SearchAnimation.tsx:51-58 | a current step missing from the list leaves every step pending |
| SearchAnimation.DistinctStepsProgress | src/components/SearchAnimation.tsx:51-58 | with distinct steps, those before the current one are completed, it alone is in progress, and those after it are pending |
| SearchAnimation.BadgeOf | src/components/SearchAnimation.tsx:77-101 | the badge is a check mark exactly for a completed step, otherwise the step's number counted from one |
| StreamingText.Prefixes | src/components/StreamingText.tsx:31-43 | one prefix of each length from empty to the whole text, the last being the text |
| StreamingText.StreamingText.constructor | src/components/StreamingText.tsx:21-22 | nothing is displayed and the text is not complete |
| StreamingText.StreamingText.Tick | src/components/StreamingText.tsx:31-43 | one call shows the next prefix and advances the counter; another call is scheduled exactly while prefixes remain, and after the last one the text is complete and the callback fires once |
| StreamingText.StreamingText.Start | src/components/StreamingText.tsx:25-46 | a new run starts from the empty text, and is complete at once only for the empty text |
| StreamingText.StreamingText.Cancel | src/components/StreamingText.tsx:48-52 | cleanup cancels the scheduled call and clears the text and the complete flag, so the cursor shows again if enabled; the counter, the shown prefixes and the completions are unchanged |
| StreamingText.StreamingText.Play | src/components/StreamingText.tsx:25-53 | a run left alone shows every prefix in order, ends with the whole text, is complete, calls the callback exactly once, and hides the cursor |

## Left out

- Network services: the Gemini models, the Custom Search request (URL,
  `num=10`, the key and engine parameters) and `fetch` are function-typed
  parameters. The model covers what the code does with their answers, not
  what they answer.
- The JSON grammar: `JSON.parse` is a parameter, and JSON values are kept
  abstract. The `ScholarshipResponse` schema of `src/types/index.ts` is not
  checked, because the code never checks it either.
- Prompt texts, the LangChain model setup, the environment check at module
  load and all console logging.
- The text of the runtime's `TypeError` for reading a field of `undefined`
  is taken to be the V8 wording.
- The parse reply's `data` is modelled as a map of strings. A `null` or
  non-object `data` is not modelled.
- Route.Post: the `searchResults` field that `generateResults` spreads into
  the parameters (route.ts:42-45) is not passed on. The result model is given
  the request's `params` without `searchResults`; the prompt reads only
  caste, religion, state and educationLevel (ai-config.ts).
- Wiring inconsistencies are modelled as if they were connected:
  - `searchGoogle` is not exported (ai-config.ts:135) but is imported by
    route.ts:6;
  - page.tsx:399 leaves out the `steps` prop, so `SearchAnimation` takes the
    steps as a parameter;
  - the route never sends `missingParams` (route.ts:30), so the model takes
    it as optional in the reply;
  - the page reads the `generateResults` answer as a stream of event frames
    (page.tsx:190-232). The route answers with one JSON envelope instead
    (route.ts:52-55), which has no blank-line separator. Against that route
    the page dispatches nothing: the whole body stays in the buffer, and
    `EventStream.FlushDispatchesNothing` shows the flush drops it. The model
    states the page's behaviour for any stream, and the route's envelope
    separately.
- Timing and rendering: the `speed` timers, framer-motion animations, React
  batching and re-rendering. State updates are applied in program order. Two
  searches running at once are not modelled.
- Text encoding: `TextDecoder` and UTF-8 sequences split across chunks are
  left out, and the stream arrives as decoded strings. Lengths are counted in
  characters, not UTF-16 code units.
- Page.StreamOutcomeSpec: a rejected read is modelled only after the given
  chunks have been read, not between two of them.
- The `requests` field of `Page.Home` and the `completions`/`shown` fields of
  the components are logs added to the model, so that what was sent and
  shown can be stated. The source has no such fields.
- Questionnaire.RunSpec: it covers only the first n answers. A further answer
  at the last question would call `onComplete` again; the page prevents this
  by closing the dialog.
- The `confirm` question type is declared but no question uses it, and it
  has no behaviour of its own.
- The remaining markup of `ScholarshipCard` (amounts, dates, links) and the
  purely visual components `text-generate-effect`, `background-beams`,
  `sparkles` and `card-hover-effect` have no logic to model.
