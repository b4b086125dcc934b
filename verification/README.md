# Gemini Slack chatbot — a Dafny model of its core

The chatbot answers Slack mentions, direct messages and the `/bard` command with
replies from Google's Gemini models. `/wf` answers with a WeatherFlow station report.
This project models the parts of the program that make decisions. It uses immutable
datatypes and pure functions, and every stateful class becomes a state-transformer
function over a value:

- `slack_blocks.dfy`: `Slack.format_response`. Replies are laid out as divider-led
  groups of section blocks, each section at most 3000 characters.
- `slack_markdown.dfy`: `Slack.adjust_markdown_for_slack`. Fenced code blocks are set
  aside, then emphasis, headers, table bars and bullets are rewritten line by line, and
  the blocks are put back. Text is a sequence of pieces: a character, or a whole code
  block that no rewrite looks inside.
- `text.dfy`: the string primitives the above need. `Find` is leftmost search.
  `ReplaceAll` is Python's `str.replace`: leftmost, non-overlapping, every occurrence.
- `firestore_query.dfy` and `chat_history.dfy`: `FirestoreHandler`. A collection is a
  sequence of records. `where`, `order_by`, `limit` and `offset` have Firestore's
  meaning, and ties in timestamp are ordered by document id.
- `gemini_ai.dfy`: `GeminiAI`. This covers:
  - the constructor's key guard and defaults;
  - the map from user id to chat session, with sessions kept opaque;
  - how `query_ai` turns the outcome of a request into a reply.
- `weatherflow.dfy`: `WeatherFlow`. This covers the key guard, the wind-direction
  banding, and the station guard and status branch of `get_wf_weather`.
- `installation_store.dfy`: `GCPStorageInstallationStore`. It holds the blob names under
  which bots and installations are saved, and the lookup of a bot. The bucket is a map
  from blob name to blob.
- `handlers.dfy`: the handlers of `main.py`. These are the query gating and reply
  shaping of `bard_say`, the station choice of `/wf`, and the block layout of `/bard`.

Each call into an outside service is a parameter of the function that makes it:
- Gemini's `send_message`;
- `requests.get`;
- the answer of `query_ai` as the handlers see it.

A call that only fetches a value becomes an ordinary argument. Examples are the server
timestamp and the Slack user name.

Where the code and its documentation disagree, the model follows the code. The
evident intent is modelled next to it, as listed under Findings. The program has no
event deduplication and never seeds a chat session from stored history:
`FirestoreHandler` is not called by the handlers, and every new chat session starts
with an empty history.

## Model

| member | source | states |
|---|---|---|
| SlackBlocks.Chunks | libs/slack.py:23 | A response is cut into ceil(len/3000) chunks, each non-empty and at most 3000 characters, all but the last exactly 3000 |
| SlackBlocks.ChunksConcat | libs/slack.py:23 | Joining the chunks gives the response back exactly |
| SlackBlocks.Groups | libs/slack.py:18-32 | Each response contributes one divider followed by its sections, so there are as many dividers as responses, and the first block is a divider |
| SlackBlocks.FormatResponse | libs/slack.py:6-35 | The result has one divider per response plus a closing one, ends with a divider, and every section holds 1 to 3000 characters |
| SlackBlocks.FormatResponseRoundTrip | libs/slack.py:13-35 | Reading the groups back gives exactly the responses, a single non-list response being a one-element list |
| SlackMarkdown.FirstBlock | libs/slack.py:59 | The next fenced block runs from a fence to a later fence, inside the text |
| SlackMarkdown.FirstBlockLeftmost | libs/slack.py:59 | The block found starts at the leftmost fence and ends at the first fence starting after that one; no fence starts in between |
| SlackMarkdown.NoBlockNoFences | libs/slack.py:59 | When no block is found, no two fences of the text stand apart without overlapping |
| SlackMarkdown.FindBlocks | libs/slack.py:59 | Each block found takes at least six characters of the text |
| SlackMarkdown.FindBlocksFenced | libs/slack.py:59 | Every block found starts and ends with a fence, holds no other fence, and occurs in the text |
| SlackMarkdown.StarPair | libs/slack.py:67 | The `**` pair the emphasis rewrite matches: two non-overlapping star pairs, in order, inside the line |
| SlackMarkdown.StarPairLeftmost | libs/slack.py:67 | The pair starts at the leftmost `**` of the line, and no `**` starts between its two halves |
| SlackMarkdown.NoStarPair | libs/slack.py:67 | When no pair is found, no two `**` of the line stand apart without overlapping |
| SlackMarkdown.StarPairAt | libs/slack.py:67 | A `**` with no star before it, and the next `**` with no star between them, are the pair matched |
| SlackMarkdown.EmphasisInside | libs/slack.py:67 | A line whose only stars are one `**b**` has just that pair turned into `*b*` |
| SlackMarkdown.Emphasis | libs/slack.py:67 | The emphasis rewrite adds no new kind of piece and leaves a line without stars alone |
| SlackMarkdown.Header | libs/slack.py:73-75 | A header rewrite only adds stars, and leaves a line without a hash alone; what each level does to a header line is stated by HeaderLine (level 1) and HeaderLevels (levels 2 and 3) |
| SlackMarkdown.Pipes | libs/slack.py:78 | Bar quoting only adds backticks, and leaves text without bars alone |
| SlackMarkdown.Bullet | libs/slack.py:81 | The bullet rewrite only adds the bullet sign, and leaves a line without stars alone |
| SlackMarkdown.RewriteKeepsCodes | libs/slack.py:67-81 | No rewrite changes, drops, reorders or adds a code block |
| SlackMarkdown.RewriteIdentity | libs/slack.py:67-81 | Text without stars, hashes or bars passes through every rewrite unchanged |
| SlackMarkdown.RewriteSingleLine | libs/slack.py:67-81 | On a single line the rewrites run once each, in the code's order |
| SlackMarkdown.Placeholder | libs/slack.py:63 | A placeholder holds no backtick, star, hash, bar or newline, and has the `__CODE_BLOCK_` and `__` ends |
| SlackMarkdown.AdjustMarkdownForSlack | libs/slack.py:55-56 | Empty input gives empty output |
| SlackMarkdown.AdjustMarkdown | libs/slack.py:55-56 | Empty input gives empty output (the corrected function) |
| SlackMarkdown.CodeBlocksSurvive | libs/slack.py:59-85 | Every fenced block of the input appears verbatim in the corrected output |
| SlackMarkdown.MarkupFreeUnchanged | libs/slack.py:66-81 | Text with no stars, hashes or bars comes back unchanged from the corrected function, whatever code blocks it holds |
| SlackMarkdown.FixAgreesWithoutCodeBlocks | libs/slack.py:59-85 | Without a backtick, the code as written and the corrected function give the same result |
| SlackMarkdown.PlainTextUnchanged | libs/slack.py:38-87 | Plain prose comes back unchanged from both versions |
| SlackMarkdown.HeaderLine | libs/slack.py:73 | A `# x` line becomes `*x*` in both versions |
| SlackMarkdown.HeaderLevels | libs/slack.py:73-75 | A `## x` line becomes `**x**` and a `### x` line becomes `***x***`, in both versions: no level matches another level's line, and the stars one level writes are left alone by the later levels and by the bullet pass |
| SlackMarkdown.DocstringExample | libs/slack.py:48-53 | The documented example: `# Hello, world!` becomes `*Hello, world!*` |
| SlackMarkdown.BulletLine | libs/slack.py:81 | A `* x` line becomes `• x` |
| SlackMarkdown.EmphasisLine | libs/slack.py:67 | A `**x**` line becomes `*x*` |
| SlackMarkdown.PipesBecomeCode | libs/slack.py:78 | Without stars, hashes or backticks, both versions only set every bar in code font |
| SlackMarkdown.PlaceholderCollision | libs/slack.py:84-85 | Text spelling the first placeholder, followed by a block, comes back with the block twice (the code as written) |
| SlackMarkdown.PlaceholderKept | libs/slack.py:84-85 | The corrected function returns the same text unchanged |
| SlackMarkdown.BlockAt | libs/slack.py:59 | A fence with no backtick before it, and the next fence with no backtick between them, make the first block |
| SlackMarkdown.BlockTextBlocks | libs/slack.py:59 | In ```` ```a``` ```**x**```a``` ```` the blocks are ```` ```a``` ```` and ```` ```**x**``` ````, the latter ending with the opening fence of the second ```` ```a``` ```` |
| SlackMarkdown.ProtectOverlap | libs/slack.py:62-64 | Protecting ```` ```a``` ```` replaces both its copies with the first placeholder, after which ```` ```**x**``` ```` no longer occurs and stays unprotected |
| SlackMarkdown.BoldBlockGone | libs/slack.py:64 | Once the one-character blocks are placeholders, replacing ```` ```**x**``` ```` changes nothing |
| SlackMarkdown.RewriteProtected | libs/slack.py:67-81 | On the protected text the rewrites only turn the unprotected `**x**` into `*x*` |
| SlackMarkdown.RestoreOverlap | libs/slack.py:84-85 | Restoring gives back both ```` ```a``` ```` and nothing else changes |
| SlackMarkdown.BoldBlockLost | libs/slack.py:59-87 | The returned text does not contain ```` ```**x**``` ```` anywhere |
| SlackMarkdown.BlockTextRepeated | libs/slack.py:59-87 | As written, ```` ```a``` ```**x**```a``` ```` comes back with `*x*` in place of `**x**`, the block ```` ```**x**``` ```` lost; the corrected function keeps it |
| FirestoreQuery.Keep | libs/firestore_handler.py:18 | Filtering keeps exactly the records that pass, and no more than there were |
| FirestoreQuery.Where | libs/firestore_handler.py:18 | `where('user_id', '==', u)` keeps exactly the records of `u` |
| FirestoreQuery.OrderByAsc | libs/firestore_handler.py:50 | The ascending order is sorted and a permutation of its input |
| FirestoreQuery.OrderByDesc | libs/firestore_handler.py:19 | The descending order is sorted the other way and a permutation of its input |
| FirestoreQuery.Limit | libs/firestore_handler.py:20 | `limit(n)` is the first min(n, len) records |
| FirestoreQuery.Offset | libs/firestore_handler.py:51 | `offset(n)` is everything after the first min(n, len) records |
| FirestoreQuery.LimitDesc | libs/firestore_handler.py:17-21 | The first n of the descending order, turned round, are the last n of the ascending order |
| ChatHistory.Retained | libs/firestore_handler.py:17-21 | The loaded turns are the newest min(25, count) of the user's records, in ascending order, all the user's own |
| ChatHistory.FlattenTurns | libs/firestore_handler.py:25-28 | Each turn contributes its user text, then its model text |
| ChatHistory.LoadChatHistory | libs/firestore_handler.py:13-30 | As written: 2 texts per retained turn, at most 50, the turns oldest first but each turn model-then-user |
| ChatHistory.LoadChatHistoryChronological | libs/firestore_handler.py:13-30 | Corrected: the same turns, each user-then-model |
| ChatHistory.LoadSwapsEachTurn | libs/firestore_handler.py:30 | The code as written swaps the two texts of every turn against the corrected order |
| ChatHistory.OneTurnHistory | libs/firestore_handler.py:30 | With one stored turn the history as written is `[model, user]` |
| ChatHistory.EnforceEntryLimit | libs/firestore_handler.py:45-55 | As written: only the user's records are deleted, at most 25 remain, nothing is added, nothing changes at or below the limit, and every kept record sorts before every deleted one |
| ChatHistory.EnforceEntryLimitNewest | libs/firestore_handler.py:45-55 | Corrected: the same, except that every kept record sorts after every deleted one |
| ChatHistory.NewTurn | libs/firestore_handler.py:36-42 | The added record is new to the collection and carries the user id, both texts and the timestamp |
| ChatHistory.AddTurn | libs/firestore_handler.py:42 | Adding a turn gives its user exactly one more record and nobody else any |
| ChatHistory.SaveChatTurn | libs/firestore_handler.py:32-43 | Other users are untouched, the user ends with at most 25 records, only the new turn can appear, and below the limit it is appended |
| ChatHistory.SaveChatTurnNewest | libs/firestore_handler.py:32-43 | The same guarantees for the corrected limit |
| ChatHistory.NewTurnDiscarded | libs/firestore_handler.py:48-55 | As written, at 25 stored turns, saving a newer turn leaves the collection exactly as it was |
| ChatHistory.NewTurnKept | libs/firestore_handler.py:48-55 | With the corrected limit the new turn is always kept |
| FirestoreQuery.KeepUnique | libs/firestore_handler.py:18 | Filtering a collection with unique document ids keeps them unique |
| FirestoreQuery.UniqueCountedOnce | libs/firestore_handler.py:18 | With unique document ids, no record appears twice |
| ChatHistory.EnforceKeepsOldest | libs/firestore_handler.py:45-55 | As written, the user keeps exactly the oldest min(25, count) of their records, as a multiset, and ids stay unique |
| ChatHistory.EnforceKeepsNewest | libs/firestore_handler.py:45-55 | Corrected, the user keeps exactly the newest min(25, count) of their records, as a multiset, and ids stay unique |
| ChatHistory.NewTurnUnique | libs/firestore_handler.py:42 | Adding a document with a fresh id keeps ids unique |
| ChatHistory.SaveKeepsOldest | libs/firestore_handler.py:32-55 | As written, after a save the user holds exactly the oldest min(25, count + 1) of their records and the new turn |
| ChatHistory.SaveKeepsNewest | libs/firestore_handler.py:32-55 | Corrected, after a save the user holds exactly the newest min(25, count + 1) of their records and the new turn |
| ChatHistory.SaveDropsOldest | libs/firestore_handler.py:32-55 | Corrected, at the limit a newer turn is kept, the user still has 25 records, and every record dropped sorts before every record kept |
| GeminiAi.Create | libs/gemini_ai.py:7-45 | Construction fails exactly when the key is `None`; otherwise it has no user sessions and keeps the settings given |
| GeminiAi.DefaultRequest | libs/gemini_ai.py:8-15 | The defaults ask for one candidate, at most 8192 tokens, and all four safety levels unspecified |
| GeminiAi.StartUserChat | libs/gemini_ai.py:47-50 | The user gets a new session with an empty history, different from every existing one, and other users' sessions stay as they were |
| GeminiAi.SafetySettings | libs/gemini_ai.py:72-77 | The safety map has exactly the four categories, each with its configured level |
| GeminiAi.Reply | libs/gemini_ai.py:86-99 | The reply is the response text, the blocked message with the exception text, or the fixed try-again message |
| GeminiAi.QueryAi | libs/gemini_ai.py:52-99 | A user without a session gets one first, one with a session keeps it, and the query goes out on that session with the configured settings |
| GeminiAi.SessionKeptOnFailure | libs/gemini_ai.py:66-70 | The session is registered whatever the outcome of sending |
| GeminiAi.SessionReused | libs/gemini_ai.py:66-70 | A second query by the same user reuses the session of the first |
| GeminiAi.ReplyClassified | libs/gemini_ai.py:90-99 | For every behaviour of the library, `query_ai` returns the text, `Blocked: ` with the message, or the try-again text, according to what sending on the user's session gives; no exception escapes |
| WeatherFlow.Create | libs/weatherflow.py:6-12 | Construction fails exactly when the key is `None` or empty |
| WeatherFlow.ConvertDegreesToCardinal | libs/weatherflow.py:14-42 | The label is one of the eight, and north below 22.5 and from 337.5 |
| WeatherFlow.CardinalByBand | libs/weatherflow.py:25-42 | The chain of comparisons equals 45-degree banding offset by 22.5 |
| WeatherFlow.BoundariesGoUp | libs/weatherflow.py:25-42 | Each boundary belongs to the band above it |
| WeatherFlow.BandMonotone | libs/weatherflow.py:25-42 | A larger angle never gets an earlier label |
| WeatherFlow.StationRequest | libs/weatherflow.py:55-56 | The URL holds the endpoint, the station and the key, and the header is the bearer key |
| WeatherFlow.Report | libs/weatherflow.py:80-83 | The report starts with the station name and carries the wind label |
| WeatherFlow.GetWfWeather | libs/weatherflow.py:44-87 | No station gives the fixed message; otherwise status 200 gives the report and any other status the failure message |
| WeatherFlow.NoRequestWithoutStation | libs/weatherflow.py:52-53 | Without a station the answer does not depend on any request |
| WeatherFlow.ReportShape | libs/weatherflow.py:60-87 | A station's answer is the failure message or carries one of the eight labels |
| WeatherFlow.StationRequestInjective | libs/weatherflow.py:55-56 | Different stations give different requests |
| WeatherFlow.ReportNotFixed | libs/weatherflow.py:80-83 | A report is never one of the two fixed messages |
| WeatherFlow.WeatherCases | libs/weatherflow.py:52-87 | The no-station message comes exactly when there is no station, the failure message exactly when the station's request does not answer 200, and the report otherwise |
| WeatherFlow.OnlyStationRequest | libs/weatherflow.py:55-60 | Two `requests.get` that agree on the station's request give the same answer |
| InstallationStore.OrNone | libs/google_storage.py:43-44 | A missing or empty id becomes `none`; any other id is kept |
| InstallationStore.KeysDistinct | libs/google_storage.py:54-61 | The bot, installer and per-user installer blob names differ |
| InstallationStore.SaveBot | libs/google_storage.py:83-104 | Exactly the `bot-latest` blob of the bot's workspace is written |
| InstallationStore.HistoryFlagIrrelevant | libs/google_storage.py:89-104 | `historical_data_enabled` does not change what `save_bot` writes |
| InstallationStore.Save | libs/google_storage.py:41-81 | Exactly `bot-latest`, `installer-latest` and `installer-{user}-latest` of the workspace are written, with the bot and the installation; every other blob is unchanged |
| InstallationStore.FindBot | libs/google_storage.py:119-140 | A bot is found exactly when the `bot-latest` blob exists and holds one; an enterprise install looks under team `none` |
| InstallationStore.SaveFindRoundTrip | libs/google_storage.py:92-133 | A saved bot is found again under its own ids |
| InstallationStore.SaveInstallationFindsBot | libs/google_storage.py:41-47 | Saving an installation makes its bot findable |
| InstallationStore.EnterpriseIgnoresTeam | libs/google_storage.py:129-131 | A bot saved without a team is found for an enterprise install whatever team is asked for |
| InstallationStore.MissingIsNone | libs/google_storage.py:132-140 | A missing blob gives `None` rather than an error |
| InstallationStore.AsyncSave | libs/google_storage.py:35-36 | `async_save` does what `save` does |
| InstallationStore.AsyncSaveBot | libs/google_storage.py:38-39 | `async_save_bot` does what `save_bot` does |
| InstallationStore.AsyncFindBot | libs/google_storage.py:106-117 | `async_find_bot` returns what `find_bot` returns |
| Handlers.Source | main.py:143-151 | The message is read when it is truthy, otherwise the event, otherwise nothing |
| Handlers.ShapeReply | main.py:168-183 | The fallback text addresses the user and carries the reply adjusted by `adjust_markdown_for_slack` as written; the blocks read back as that text, or as the raw reply when there is no user id |
| Handlers.BardSay | main.py:139-185 | The greeting is sent exactly when there is no payload or the query is missing, empty, `bard` or the bot's mention; otherwise the shaped reply to the query |
| Handlers.BardSayAsWritten | main.py:68-76 | As written, a failed bot lookup raises `NameError` before anything else; with the bot known, the handler raises exactly where it would ask the AI, and otherwise greets |
| Handlers.FailedLookupRaises | main.py:73 | When `auth_test` fails, even an empty call raises as written, while the corrected lookup gives `None` and the handler greets |
| Handlers.BardSayRaisesWhereItAnswers | main.py:158-165 | The code as written and the corrected handler agree wherever the former sends anything |
| Handlers.PlainMessageRaises | main.py:159 | A message such as `bard, hello`, which the `bard` message listener delivers, raises as written and gets the shaped reply when corrected |
| Handlers.GreetingWithoutAi | main.py:158-165 | A greeting does not depend on the AI |
| Handlers.MessageBeforeEvent | main.py:143-147 | A truthy message wins over the event |
| Handlers.MentionOrNameGreeted | main.py:158-165 | A bare bot mention, `bard`, and a payload without text are greeted |
| Handlers.StationFor | main.py:114-120 | The command text names the station unless it is missing or empty |
| Handlers.WfCommand | main.py:111-132 | The fallback is the weather text for the chosen station, and the blocks read back as that text |
| Handlers.WfTextOverrides | main.py:116-118 | Given command text, the configured station plays no part |
| Handlers.WfWithoutStation | main.py:114-122 | With no station anywhere the answer is the no-station message |
| Handlers.WfNoStationExactly | main.py:114-122 | The no-station message comes exactly when neither the text nor the configuration names a station; otherwise the answer is the weather for the station chosen |
| Handlers.BardCommand | main.py:84-106 | The blocks read back as the heading and the reply adjusted by `adjust_markdown_for_slack` as written: two divider-led groups and a closing divider. The fallback ends with the raw reply |
| Handlers.CommandMatchesMention | main.py:93 | `/bard` shows in its second group exactly what a mention with the same query sends after addressing the user |
| Handlers.BardCommandAsWritten | main.py:89 | As written, `/bard` always raises |
| Handlers.BardCommandNeverAnswers | main.py:89-104 | As written, `/bard` never sends the answer the corrected handler builds |
| Handlers.BardCommandPlainReply | main.py:93 | A reply without markup appears word for word in the second group |

## Left out

- Slack Bolt, OAuth settings, Flask and Functions Framework wiring (main.py:6-54,
  188-195), and `handle_message_events`: framework plumbing with no decisions.
- `get_user_info` and `get_bot_user_id`: Slack API calls. The user name and the bot id
  are parameters. When `auth_test` fails, `get_bot_user_id` as written raises
  `NameError`, since `SlackApiError` is never imported (main.py:73); the bot id `None`
  stands for that failure, as the findings describe.
- Network and SDK calls: `requests.get`, Cloud Storage uploads and downloads, the
  Firestore client, `genai.configure`, `start_chat` and `send_message`. Each is a
  parameter, a map or an opaque value. Sessions are opaque: nothing is said about what
  Gemini does to a session's history.
- Failures of those calls outside `query_ai`: the model's fetch, blob writes and
  Firestore updates always succeed. In the source they can raise, and nothing catches
  them: `requests.get` (libs/weatherflow.py:58) has no `try` and no timeout, so it can
  raise or hang and `wf_command` then never responds after `ack()`; a failing
  `upload_from_string` can leave `save` half done, with the bot blob written and the
  installer blobs not (libs/google_storage.py:55-101); and Firestore `add`, `stream` and
  `delete` can raise out of `save_chat_turn` and `load_chat_history`
  (libs/firestore_handler.py:13-55). `WeatherFlow.GetWfWeather`, `Handlers.WfCommand`,
  `InstallationStore.SaveBot`, `InstallationStore.Save` and `ChatHistory.SaveChatTurn`
  therefore describe only runs in which every outside call returns.
- JSON reading of the WeatherFlow answer. A malformed body that raises `KeyError` is
  not modelled, and the report's numbers arrive as already-rendered text, because
  Python's float rendering is not modelled.
- JSON serialisation of `Installation` and `Bot.__dict__`, and `Bot(**data)`. A blob
  holds the object saved into it, or other content that does not read back as a bot.
- `temperature`: a float generation parameter that only travels to Gemini.
- `InstallationStore.FindBot`: `is_enterprise_install` is a `bool`. Python's `None` for
  it behaves as `False`.
- `ChatHistory.NewTurn`: the random Firestore document id is modelled as an id larger
  than every existing one. The server timestamp is a parameter.
- `FirestoreQuery.OrderByDesc`: ties in timestamp are broken by document id, the
  reverse of the ascending order. Firestore's own tie order is not modelled beyond that.
- Concurrency: each call is one sequential step. This covers `user_chat_sessions` and
  the non-atomic add-then-delete of `save_chat_turn`.
- `SlackMarkdown.AdjustMarkdownForSlack`: its contract states only the empty case. Its
  behaviour is described by the lemmas about it (HeaderLine, BulletLine, EmphasisLine,
  PipesBecomeCode, FixAgreesWithoutCodeBlocks, PlaceholderCollision, BlockTextRepeated and
  HeaderLevels).
- `SlackMarkdown.AdjustMarkdownForSlack`: the `None` input, for which libs/slack.py:55-56
  return `""`, is not modelled. The function takes a string, and every caller passes
  the string that `query_ai` returns.
- `ChatHistory.EnforceKeepsOldest`, `EnforceKeepsNewest`, `SaveKeepsOldest`,
  `SaveKeepsNewest` and `SaveDropsOldest` require unique document ids, as Firestore
  guarantees; the other contracts about the limit hold without that.
- The Python regular expressions are modelled only for the patterns the code uses.
  Each is written out as a line-by-line rewrite over pieces. A carriage return is an
  ordinary character.
- gemini_ai_list_models.py, the module-level example instance in
  libs/google_storage.py, and the `logger` property nested inside `__init__`: they are
  not part of the bot's behaviour.

## Findings

| source | as written | input that shows it | evidently intended | confidence | as-written member | corrected member |
|---|---|---|---|---|---|---|
| libs/slack.py:84-85 | Placeholders are plain text, and restoring replaces every occurrence | `__CODE_BLOCK_0__` followed by a fenced block comes back as the block twice | Only the block hidden there is restored; other text is left as it was | high, not executed | SlackMarkdown.PlaceholderCollision | SlackMarkdown.PlaceholderKept |
| libs/slack.py:59-64 | Blocks are protected by replacing their text everywhere, one block after another | ```` ```a``` ```**x**```a``` ````: protecting ```` ```a``` ```` also removes the closing fence of ```` ```**x**``` ````, which is then rewritten to ```` ```*x* ```` | Every block comes back verbatim | high, not executed | SlackMarkdown.BlockTextRepeated | SlackMarkdown.CodeBlocksSurvive |
| libs/firestore_handler.py:48-55 | Ascending order plus `offset(25)` deletes everything after the 25 oldest turns | 25 stored turns, then one newer turn saved: the new turn is deleted at once | "Deletes oldest entries": keep the 25 newest | high, not executed | ChatHistory.NewTurnDiscarded | ChatHistory.NewTurnKept |
| libs/firestore_handler.py:25-30 | `[user, model]` per turn, newest first, reversed as one flat list | one stored turn gives `[model, user]` | chronological: `[user, model]` per turn, oldest turn first | medium, not executed | ChatHistory.OneTurnHistory | ChatHistory.LoadChatHistoryChronological |
| main.py:73 | `except SlackApiError` names a class that main.py never imports | `auth_test` fails: evaluating the `except` clause raises `NameError`, so `bard_say` fails before greeting | import `SlackApiError`: the lookup gives `None` and the handler carries on | high, not executed | Handlers.FailedLookupRaises | Handlers.BardSay |
| main.py:159 | `query_ai(query)` passes one argument to a method taking `user_id, query` | any message whose text passes the greeting test raises `TypeError` | `query_ai(user_id, query)`; nothing else changes, the markdown function included | high, not executed | Handlers.PlainMessageRaises | Handlers.BardSay |
| main.py:89 | `/bard` calls `query_ai(query)` with one argument | every `/bard` command raises `TypeError` after acknowledging | `query_ai(user_id, query)`; nothing else changes, the markdown function included | high, not executed | Handlers.BardCommandAsWritten | Handlers.BardCommand |
