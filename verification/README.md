# scrum-pilot core, modelled in Dafny

scrum-pilot turns a problem statement into Scrum artefacts. This project
models the logic at its core and proves properties of the model:

- **JSON extraction** (`json_extraction.dfy`, module `JsonExtraction`). The
  story service asks a local Ollama model for a JSON object, then cuts the
  first brace-balanced `{ ... }` out of the free-text reply.
  `ExtractFirstJsonObject` is written as the source's loop, with a depth
  counter. It is proved equal to a declarative reference, `FirstJsonObject`,
  and the reference is characterised completely. As in the source, the
  scan knows nothing about quotes.
- **Story generation** (`stories.dfy`, `story_service.dfy`). This covers:
  - the configuration check;
  - the ladder that turns each outcome of the Ollama call into an
    exception kind;
  - the parse steps, all of which fail as `InvalidOperation`;
  - how a `Story` and its description are built from the model's reply.
- **Story controller** (`story_controller.dfy`). The input guard of
  `POST api/story/generate`, the ordered `catch` arms that map exception
  kinds to HTTP status codes, and `GET api/story`. Lemmas connect the
  controller to the real service and prove which status codes can actually
  occur.
- **Problem-statement log API** (`problem_statement_log.dfy`, module
  `ProblemStatementLog`, for `UI_InputPS.Api/Program.cs`). It covers:
  - validation (whitespace check first, then trim, then a minimum of 10
    UTF-16 code units);
  - the canned response text;
  - `JsonStore` as a sequence of records (create, read, append);
  - the stable newest-first listing;
  - case-insensitive lookup by id.
- **Discord bot** (`discord_bot.dfy`). The `MessageCreate` handler: it
  ignores bots and answers an exact `!ping`.
- **Shared pieces**. `wrappers.dfy` holds `Option`/`Result`. `text.dfy`
  holds the .NET string operations the core relies on:
  - `char.IsWhiteSpace`, `Trim`, `IsNullOrWhiteSpace` and `IsNullOrEmpty`;
  - the UTF-16 length;
  - ordinal ignore-case comparison;
  - `string.Join`.

  It also holds `Split`, the inverse of `Join`. The source never splits a
  string; `Split` is used only to state the description round trip.

`discord-bot/tests/index.test.js` exercises a message-export command
(`parseTimeRange`, `formatMessagesToJson`, `fetchMessagesInRange`,
`!export`). `discord-bot/index.js` defines none of it: the file has only the
ready log line and the `!ping` handler. The model follows the code, and the
export command is not modelled.

Every effect is a parameter: the HTTP call, the two JSON deserialisations,
`Guid.NewGuid()` and the clock. A store's file is represented by what it
parses to.

## Model

| member | source | states |
|---|---|---|
| JsonExtraction.ExtractFirstJsonObject | ScrumPilot.API/Services/StoryService.cs:185-200 | The loop (first `{`, depth counter, return at depth 0, null at the end) computes exactly the reference extraction `FirstJsonObject` for every input |
| JsonExtraction.FirstJsonObjectNone | ScrumPilot.API/Services/StoryService.cs:187-199 | The extractor returns null exactly when the input has no `{`, or when the depth counted from the first `{` never returns to 0 before the end |
| JsonExtraction.FirstJsonObjectSome | ScrumPilot.API/Services/StoryService.cs:187-197 | A result starts at the first `{` of the input, and nothing before that brace is included. It starts with `{`, ends with `}`, has length at least 2 and equal `{`/`}` counts. Every proper non-empty prefix is strictly open, so it is the shortest balanced stretch |
| JsonExtraction.BalancedEndIsLeast | ScrumPilot.API/Services/StoryService.cs:190-199 | The scan stops at the first position where the depth is back to 0, and at no earlier one. It finds nothing exactly when the depth never returns to 0 |
| JsonExtraction.IndexOf | ScrumPilot.API/Services/StoryService.cs:187-188 | `IndexOf('{')` gives the first occurrence, or -1 (None) when the character does not occur |
| JsonExtraction.DepthIsCountDifference | ScrumPilot.API/Services/StoryService.cs:189-193 | After any prefix, the depth counter equals the number of `{` minus the number of `}` in it |
| JsonExtraction.DepthStep | ScrumPilot.API/Services/StoryService.cs:192-193 | Only `{` and `}` change the depth. A quote or any other character leaves it unchanged |
| JsonExtraction.LeadingTextIgnored | ScrumPilot.API/Services/StoryService.cs:182-196 | Free text without a `{` placed before the reply does not change what is extracted |
| JsonExtraction.QuotesAreNotSpecial | ScrumPilot.API/Services/StoryService.cs:190-197 | A `}` inside a JSON string literal still closes the object: `{"}"}` yields `{"}` |
| Stories.DescriptionRoundTrip | ScrumPilot.API/Services/StoryService.cs:68 | `Stories.Description`, the description text, is the user story, then `\n\nAcceptance Criteria:\n`, then one `• `-bulleted line per criterion. When no criterion contains a newline, splitting that block at newlines and dropping the bullets gives back exactly the criteria, in order; with no criteria the block is empty |
| Text.SplitJoin | ScrumPilot.API/Services/StoryService.cs:68 | Joining a non-empty list of parts with a separator character none of them contains, then splitting at that character, returns the parts |
| StoryService.CallOllamaApi | ScrumPilot.API/Services/StoryService.cs:115-134 | A success status yields the body. A non-success status becomes HttpRequest, naming the status and the body. An HttpRequest exception passes through unchanged. A cancellation becomes Timeout "The request to Ollama timed out". Anything else becomes InvalidOperation with the call-failure prefix |
| StoryService.ParseAiStoryResponse | ScrumPilot.API/Services/StoryService.cs:139-179 | Every failure leaves as InvalidOperation, its message prefixed by the parse-failure text. It succeeds exactly when the envelope yields non-empty text, an object is extracted from it and that object deserializes, and then it returns that deserialized value |
| StoryService.ExtractedObjectNeverEmpty | ScrumPilot.API/Services/StoryService.cs:150-154 | The `IsNullOrEmpty` test on the extracted object fails only when nothing was extracted |
| StoryService.NoObjectIsParseFailure | ScrumPilot.API/Services/StoryService.cs:150-154 | Non-empty reply text without any `{` fails with the wrapped "Failed to find a JSON object" message naming the reply |
| StoryService.GenerateAiStory | ScrumPilot.API/Services/StoryService.cs:50-77 | A null or empty base URL fails with InvalidOperation "OllamaBaseUrl is not configured." and sends no request. Otherwise exactly one request goes to `<base>api/generate`. When the call and the parse both succeed, the story built from the parsed reply is returned: the reply's title, the built description, ToDo, Low priority, no points, AI-generated, the given id and times. When the call fails, its exception passes through unchanged; when the parse fails, the parse's exception passes through unchanged. Failures are never of a kind other than InvalidOperation, HttpRequest or Timeout |
| StoryController.GenerateAiStory | ScrumPilot.API/Controllers/StoryController.cs:25-54 | A null, empty or whitespace-only statement gets 400 "Problem statement is required." and the service is not called. Otherwise the service is called once with the statement as given. Success is 200 with exactly the service's story. Each exception kind is answered with its status (400/502/408/500) and its prefixed message |
| StoryController.StatusIdentifiesKind | ScrumPilot.API/Controllers/StoryController.cs:38-53 | The exception-to-status mapping is total and one-to-one: every kind gets a 4xx/5xx status, and the status alone identifies the kind |
| StoryController.GetStories | ScrumPilot.API/Controllers/StoryController.cs:18-23 | The service's list is returned unchanged with 200 |
| StoryController.EndpointStatuses | ScrumPilot.API/Controllers/StoryController.cs:28-53 | Wired to the real service, the endpoint answers only 200, 400, 408 or 502, so the 500 arm is unreachable. A missing base URL is a 400 carrying the configuration message |
| StoryController.EndpointTransportFailures | ScrumPilot.API/Controllers/StoryController.cs:42-49 | Through the real service, a cancelled Ollama call reaches the client as 408 and a non-success Ollama status as 502 |
| Text.Trim | UI_InputPS.Api/Program.cs:24 | The result is the input with its leading and trailing .NET whitespace removed, and is the only such stretch. It is empty exactly when the input is all whitespace |
| Text.TrimIdempotent | UI_InputPS.Api/Program.cs:24 | Trimming twice is trimming once |
| Text.Utf16Length | UI_InputPS.Api/Program.cs:26 | `string.Length` counts UTF-16 code units: between one and two per character, and exactly one each when no character lies outside the Basic Multilingual Plane |
| Text.Utf16LengthChar | UI_InputPS.Api/Program.cs:26 | A single character counts 1 code unit inside the Basic Multilingual Plane and 2 (a surrogate pair) outside it |
| Text.Utf16LengthAppend | UI_InputPS.Api/Program.cs:26 | The code-unit count of a concatenation is the sum of the parts' counts. Together with the single-character lemma, this determines the count of every string |
| Text.Utf16LengthCountsSurrogates | UI_InputPS.Api/Program.cs:26 | The code-unit count of a string is its number of characters plus the number of its characters outside the Basic Multilingual Plane |
| ProblemStatementLog.Validate | UI_InputPS.Api/Program.cs:21-27 | Null, empty or whitespace gives "Problem statement is required.". Otherwise a trimmed text under 10 code units gives "Please enter at least 10 characters.". Otherwise the trimmed text is accepted |
| ProblemStatementLog.WhiteSpaceCheckedFirst | UI_InputPS.Api/Program.cs:21-27 | An all-whitespace statement, however long, is "required" and never "too short" |
| ProblemStatementLog.ValidateIdempotent | UI_InputPS.Api/Program.cs:21-27 | An accepted text is accepted again unchanged |
| ProblemStatementLog.ResponseText | UI_InputPS.Api/Program.cs:29-38 | The response text is the fixed summary block followed by the trimmed text, so the text is its suffix |
| ProblemStatementLog.PostGenerate | UI_InputPS.Api/Program.cs:19-50 | A rejected statement gets 400 with its message, and the store is unchanged. An accepted one returns a record with the given id and time, the trimmed statement and the summary ending in it, and that same record is appended at the end of the store |
| ProblemStatementLog.OpenStore | UI_InputPS.Api/Program.cs:85-94 | A store created where no file exists reads back as empty. An existing file is kept as it is |
| ProblemStatementLog.Append | UI_InputPS.Api/Program.cs:102-108 | After an append, the store reads as the old records, unchanged and in order, with the new one added at the end |
| ProblemStatementLog.StoreReadsBackAppends | UI_InputPS.Api/Program.cs:92-108 | Through `ReadAll`, which reads a `null` document as the empty list, a fresh store or one whose file holds `null` reads back exactly the records appended to it, in order |
| ProblemStatementLog.OrderByCreatedDescendingSpec | UI_InputPS.Api/Program.cs:55 | The ordering is a permutation of its input, sorted non-increasing by creation time, and stable: records created at the same instant keep their stored order |
| ProblemStatementLog.GetRecords | UI_InputPS.Api/Program.cs:52-56 | The listing holds exactly the stored records (as a multiset), newest first, with ties in stored order |
| ProblemStatementLog.ListingShowsNewRecord | UI_InputPS.Api/Program.cs:47-55 | After an accepted post, the listing contains the new record |
| ProblemStatementLog.FindById | UI_InputPS.Api/Program.cs:61 | `FirstOrDefault` returns the first index whose id equals the key ignoring case, or nothing when no id does |
| ProblemStatementLog.GetRecord | UI_InputPS.Api/Program.cs:58-65 | The lookup returns the first stored record whose id matches ignoring case. It is NotFound "Record not found." exactly when no id matches |
| ProblemStatementLog.GetRecordIgnoresCase | UI_InputPS.Api/Program.cs:61 | Two keys that differ only in letter case find the same record |
| ProblemStatementLog.PostThenGet | UI_InputPS.Api/Program.cs:40-65 | A record posted under a fresh id is what a lookup of that id, in any letter case, returns |
| DiscordBot.OnMessageCreate | discord-bot/index.js:21-29 | At most one reply per message. There is a reply exactly when a non-bot author wrote exactly `!ping`, and it is "Pong! Scrumlord is watching. 👑" |
| DiscordBot.OnePongPerPing | discord-bot/index.js:21-29 | Over any stream of messages, the bot sends one pong per human `!ping` and nothing else |
| DiscordBot.NoReplyLoop | discord-bot/index.js:23-27 | No message whose content is the pong text triggers a reply, whoever posted it, so the bot's own pong cannot start a reply loop |

## Left out

- The Discord export command (`!export`, time-range parsing, message formatting, paginated fetching, permission errors): `discord-bot/index.js` contains none of it, so there is no code to model.
- Discord client construction, intents, login and the ready log line (discord-bot/index.js:1-18, 32): these are external library wiring.
- `BuildPrompt`: it only fills a fixed template. The modelled request carries the problem statement the prompt is built from.
- HTTP and JSON: `HttpClient.PostAsync`, reading the response body and `JsonSerializer` are function parameters returning abstract outcomes. System.Text.Json parsing is not modelled. An exception thrown while reading the body is folded into the call's thrown outcome, and it takes the same catch arms.
- StoryService.GetStories: it returns AutoFixture random data, so it is nondeterministic. The controller's pass-through takes the list as a parameter.
- `Guid.NewGuid()`, `DateTime.UtcNow` and `DateTimeOffset.UtcNow` are parameters. Their text and tick formats are not modelled, including the `"N"` format of the log API's ids.
- StoryController.EndpointStatuses: explicit JSON `null`s inside the reply object are not modelled; the story reader yields a title, a user story and a list of criteria. In the source, `"acceptanceCriteria": null` passes the `required` check, then makes the description's `Select` throw `ArgumentNullException` outside the parse `try`. The controller would answer that with 500, so the "never 500" result holds only for non-null criteria.
- StoryService.GenerateAiStory: for the same reason, the clause "a failure is never of another kind" covers only replies whose deserialized fields are non-null. A `null` `acceptanceCriteria` makes the source throw `ArgumentNullException` while building the description, which the model cannot represent.
- DiscordBot.OnMessageCreate: the model records the reply calls the handler makes, not their delivery. `message.reply(...)` at discord-bot/index.js:27 is neither awaited nor caught, so a failed reply becomes an unhandled promise rejection. Reply failures and that rejection are not modelled.
- `Text.EqualsIgnoreCase` folds ASCII letters only. `StringComparison.OrdinalIgnoreCase` also folds non-ASCII letters, so ids differing in non-ASCII case are treated as different here.
- JsonStore's file-system effects (directory creation, `File.OpenRead`, `File.Create`) and a file that fails to parse are not modelled. The file is its parsed content, `null` or an array.
- The read-modify-write in `AppendAsync` is not atomic. Concurrent posts can lose records; concurrency is not modelled.
- `DateTimeOffset` comparisons use the UTC instant. The model keeps one integer per record for it, and offsets are not modelled.
- The `StoryStatus` and `StoryPriority` enum declarations are not part of this model. Only the members the code assigns (`ToDo`, `Low`) are named; the others are carried by name.
- Hosting, dependency injection, CORS, Swagger and the Blazor front ends, as well as StudentController: these are wiring or pass-through to code that is not part of this model.
