# Avatar Manager core, modelled in Dafny

Avatar Manager runs a set of autonomous "avatars". Each one has a profile with a
personality, an LLM model and options, an activity schedule and a set of
connectors (email, GitHub, Telegram, ...). A scheduler sweeps the avatars
periodically. For each active avatar with an email connector the sweep fetches
unread mail. A strict LLM filter decides whether each email deserves a reply.
The reply is generated from a prompt template, the conversation history and
knowledge-base passages retrieved by vector similarity (RAG). Ignored emails
are announced on an internal publish/subscribe bus. A tool registry, a token
chunker that feeds the knowledge base, and a small database layer complete
the core.

This project models the decision and bookkeeping logic of that core. The LLM,
the embedder, the vector store, the prompt templates, HTML text extraction and
the mail servers are parameters: function values or `Result`/`Option` inputs.
Only the repository's own rules are verified.

| module (file) | models |
|---|---|
| `Wrappers` (wrappers.dfy) | `Option` and `Result`; an exception is an `Err` |
| `Text` (text.dfy) | `str.join`, `in` on strings, `upper`, `strip`, `replace` on ASCII text |
| `Schedule` (schedule.dfy) | `is_avatar_active` |
| `EmailSweep` (email_sweep.dfy) | `scheduled_email_check` |
| `Generator` (generator.dfy) | `_get_rag_context`, `should_reply_to_email`, `_generate_response`, `generate_reply` |
| `Tools` (tools.dfy) | `ToolManager` |
| `Events` (events.dfy) | `InternalMessage`, `InternalEventBus` |
| `Ingest` (ingest.dfy) | `chunk_text`, `ingest_file` |
| `Db` (db.dfy) | `get_db_connection`, `db_operation`, the query built by `search_rag_documents` |
| `BaseConnector` (connector.dfy) | `BaseConnector._get_env_var` |
| `EmailConnector` (email_connector.dfy) | `_extract_email_body`, `mark_emails_as_read` |

Imperative source code is modelled imperatively. The bus, the tool registry,
the connection cache and the caller's context map are classes whose methods
update fields. Loops are `while` loops proved against a specification
function, for example `Drain` against `DispatchAll` and `ProcessEmails`
against `FileEmails`. The facts the source relies on are then lemmas about
those functions.

## Model

| member | source | states |
|---|---|---|
| Schedule.IsAvatarActive | avatar_manager/main.py:35-51 | A missing or empty schedule is active at every time. Otherwise the avatar is active iff some entry's window covers the weekday and hour. A window covers when the day is in `days` and `start_hour <= hour < end_hour`. |
| Schedule.WindowDefaults | avatar_manager/main.py:46-47 | Missing `days` matches no day. Missing hours default to 0 and 24. |
| Schedule.AddingEntryKeepsActive | avatar_manager/main.py:45-51 | Inserting a schedule entry anywhere never turns an active time into an inactive one. |
| Schedule.WorkWeekExample | avatar_manager/main.py:41-51 | A Mon–Fri 9–17 entry is active on Wednesday at 10. It is inactive on Saturday at 10 and on Wednesday at 17 and 20. |
| EmailSweep.ProcessEmails | avatar_manager/main.py:81-102 | The email loop equals `FileEmails`: the processed ids, the ignored ids, the sends and notices in order, and whether an email raised. |
| EmailSweep.RaisedIsFinal | avatar_manager/main.py:83-108 | Once an email raises, the later emails change nothing. |
| EmailSweep.FileEmailsAppend | avatar_manager/main.py:81-92 | Handling `a + b` is handling `a` then `b`. Each id list and the effect list concatenate, so input order is kept. |
| EmailSweep.FiledExactly | avatar_manager/main.py:81-105 | With distinct ids and no exception, an email is processed iff its reply was sent, and ignored iff the filter rejected it. So no id is in both lists, and an email whose send failed is in neither list and is not flagged as read. |
| EmailSweep.FiledIdsFrom | avatar_manager/main.py:81-92 | Every filed id is the id of a fetched email. |
| EmailSweep.IgnoredEvent | avatar_manager/main.py:93-102 | The notice is sent by the avatar with type `email_ignored` and no recipient. Its payload has exactly `from`, `subject` and `body_preview`. The preview is the first min(200, length) characters of the body. |
| EmailSweep.OneNoticePerIgnored | avatar_manager/main.py:90-102 | Exactly one notice is published per ignored email. |
| EmailSweep.NoticesAppend | avatar_manager/main.py:90-102 | Counting notices splits over concatenated effect lists. |
| EmailSweep.CheckAvatar | avatar_manager/main.py:59-108 | One avatar's turn equals `AvatarSweep`. Inactive or connector-less avatars do nothing. A failed fetch stops after the fetch. An empty inbox only logs out. Otherwise the emails are handled, and the ids are flagged unless an email raised. |
| EmailSweep.ScheduledEmailCheck | avatar_manager/main.py:53-108 | The sweep's effects are the avatars' turns concatenated in load order, each avatar judged at the clock reading taken when its turn comes. |
| EmailSweep.OnlyActiveAvatarsFetched | avatar_manager/main.py:60-67 | Every fetch in a sweep belongs to an avatar that is active at its own clock reading and has an email connector. |
| EmailSweep.EffectsFetchFree | avatar_manager/main.py:81-102 | Handling emails never fetches. |
| EmailSweep.MarkedReadAreFiled | avatar_manager/main.py:70-108 | With unread mail, a turn starts with the fetch. Without an exception it ends by flagging `processed_ids + ignored_ids`. With an exception nothing is flagged. |
| EmailSweep.MarkReadFree | avatar_manager/main.py:81-102 | Handling emails never flags anything as read. |
| EmailSweep.SkippedAvatarsAreSilent | avatar_manager/main.py:60-67 | Adding a skipped avatar (inactive at its reading, or without an email connector) leaves the sweep's effects unchanged. |
| EmailSweep.LateReadingSkipsAvatar | avatar_manager/main.py:35-62 | The schedule is checked against the clock at each avatar's turn: a Monday-to-Friday 9-to-17 avatar reached on Wednesday at 16:00 is fetched, and one reached at 17:00 adds nothing, whatever the earlier avatars did. |
| EmailSweep.ReplySubject | avatar_manager/main.py:86 | The reply subject is `"Re: "` followed by the original subject. |
| Generator.Contents | avatar_manager/core/generator.py:37 | The contents of the rows, one per row, in store order. |
| Generator.GetRagContext | avatar_manager/core/generator.py:29-42 | An empty query returns `""` and calls nothing. Otherwise the embedder is called first, and the store is called only if embedding succeeded. The result is `""` or the row contents joined by `"\n---\n"`, and it is that join whenever the store returned rows. |
| Generator.RagContextInStoreOrder | avatar_manager/core/generator.py:36-37 | Splitting the rows splits the context at a separator, so passages appear in store order. |
| Generator.ShouldReplyToEmail | avatar_manager/core/generator.py:44-72 | The filter says reply iff the model answered and `"REPLY"` occurs in the stripped, upper-cased answer. A backend error means do not reply. |
| Generator.FilterAcceptsLowerCaseReply | avatar_manager/core/generator.py:67-69 | An answer `" reply\n"` means reply. |
| Generator.FilterRejectsIgnore | avatar_manager/core/generator.py:67-69 | An answer `"IGNORE"` means do not reply. |
| Generator.ConfigFallback | avatar_manager/core/generator.py:75-76 | Model and options fall back to the defaults independently. A profile's options replace the defaults as a whole: a default key missing from them is not added. |
| Generator.RagSection | avatar_manager/core/generator.py:82-85 | `rag_context` is `""` iff the retrieved text is empty. Otherwise it is the header, the text and a newline. |
| Generator.ResponseTo | avatar_manager/core/generator.py:74-100 | The response fails only when the template cannot be loaded or filled. Otherwise it is the model's answer to the filled prompt, or the fixed apology when the backend fails. |
| Generator.GenerateResponse | avatar_manager/core/generator.py:74-100 | The method returns `ResponseTo` of the caller's original map. It sets `rag_context` in that map in place, unless the template fails to load. |
| Generator.Context.constructor | avatar_manager/core/generator.py:111-119 | A context map holds the entries it is built with. |
| Generator.HistoryLines | avatar_manager/core/generator.py:109 | Line k is `"sender: message"` of the row k-th from the end, so the oldest row comes first. |
| Generator.HistoryNewestLast | avatar_manager/core/generator.py:108-109 | The newest row of the newest-first query result is the last history line. |
| Generator.HistoryOlderFirst | avatar_manager/core/generator.py:108-109 | An older row appended to the query result becomes the first history line. |
| Generator.EmailContext | avatar_manager/core/generator.py:111-119 | The reply context has exactly the seven keys. `rag_query` and `email_body` both equal the email body, and `conversation_history` is the rendered history. |
| Generator.HistoryTextAsWritten | avatar_manager/core/generator.py:108-109 | Rendering the history, with the query's `None` as an error. |
| Generator.GenerateReplyAsWritten | avatar_manager/core/generator.py:102-121 | `generate_reply` as written: a failed history query is an error; otherwise the reply is the response to the email's context with the rendered history. |
| Generator.HistoryQueryFailureAborts | avatar_manager/core/generator.py:102-121 | When the history query raised, the reply as written is an error even though template and prompt would succeed, while the response the corrected version gives is a reply. |
| Generator.GenerateReply | avatar_manager/core/generator.py:102-121 | The reply is `ResponseTo` of the email template and the email context, whose history is read with the profile's (or default) limit. A failed history query counts as an empty history. |
| Tools.Registration | avatar_manager/tools/__init__.py:17-48 | A file whose name starts with `__` contributes nothing, and neither does a module whose import failed. A file contributes a tool if and only if its name does not start with `__`, it imported, both the exec function and `get_tool_definition` exist and are callable, and the definition call did not raise. The registered function is the exec function. The definition's function name is overwritten with the file stem. |
| Tools.LoadedNamesMatchKeys | avatar_manager/tools/__init__.py:39-45 | After loading, every registered definition is named after its registry key. |
| Tools.LoadedKeys | avatar_manager/tools/__init__.py:16-45 | Every registry key was there before or is the stem of a file that registered. |
| Tools.LoadedHasLastRegistration | avatar_manager/tools/__init__.py:16-45 | Conversely, a file that registers a tool, with no later registering file of the same stem, leaves exactly that tool under its stem. |
| Tools.ToolManager.constructor | avatar_manager/tools/__init__.py:9-11 | A new manager holds exactly what loading the files into an empty registry gives. |
| Tools.ToolManager.LoadTools | avatar_manager/tools/__init__.py:13-50 | Loading scans the files in order. A later file with the same stem overwrites the earlier entry. |
| Tools.ToolManager.GetToolDefinitions | avatar_manager/tools/__init__.py:52-60 | The result is the definitions of the registered names, in request order, with unknown names skipped. It has at most as many entries as names, and the registry is unchanged. |
| Tools.DefinitionsAppend | avatar_manager/tools/__init__.py:52-60 | Requesting `a + b` gives the definitions for `a` followed by those for `b`. |
| Tools.DefinitionsLength | avatar_manager/tools/__init__.py:52-60 | There are never more definitions than names. When all names are registered there is exactly one per name, in order. |
| Tools.ToolManager.ExecuteTool | avatar_manager/tools/__init__.py:62-73 | An unknown name gives `"Error: Tool '<name>' not found."`. A tool's result is returned as is. A raising tool gives `"Error: "` and its message. It never raises and changes nothing. |
| Events.RemoveFirst | avatar_manager/internal_events.py:34-37 | Removal shortens the list by one exactly when the callback is in it, and an absent callback leaves the list as it is. |
| Events.RemoveFirstDropsOneCopy | avatar_manager/internal_events.py:34-37 | Exactly one copy of the callback is removed, if there is one, and nothing else: the multiset loses one copy. |
| Events.RemoveFirstSplits | avatar_manager/internal_events.py:36 | Removal cuts the list at the first occurrence and keeps both sides in order. |
| Events.Deliver | avatar_manager/internal_events.py:48-60 | Each callback is called once, in list order, whether or not earlier ones failed. |
| Events.DispatchAllAppend | avatar_manager/internal_events.py:62-68 | Dispatching `a + b` is dispatching `a` then `b` (FIFO). |
| Events.FailuresDoNotStopDelivery | avatar_manager/internal_events.py:43-68 | The same deliveries happen in the same order whichever callbacks fail. |
| Events.InternalEventBus.constructor | avatar_manager/internal_events.py:24-28 | A new bus has no subscribers, an empty queue and no task. |
| Events.InternalEventBus.Subscribe | avatar_manager/internal_events.py:30-31 | The callback is appended to its key's list. Other keys, the queue and the processing task are unchanged. |
| Events.InternalEventBus.Unsubscribe | avatar_manager/internal_events.py:34-37 | The first occurrence is removed from that key's list, and the key is created if it was missing. Nothing else changes. |
| Events.InternalEventBus.Publish | avatar_manager/internal_events.py:39-40 | The message is appended at the tail of the queue. |
| Events.InternalEventBus.ProcessSingleMessage | avatar_manager/internal_events.py:43-60 | The `"to_" + recipient` callbacks run first, only for a non-empty recipient. Then the `message_type` callbacks run, each in subscription order, with failures isolated. |
| Events.InternalEventBus.ProcessNext | avatar_manager/internal_events.py:62-68 | One consumer step takes the head of the queue and dispatches it. An empty queue gives nothing. |
| Events.InternalEventBus.Drain | avatar_manager/internal_events.py:62-68 | Draining empties the queue, dispatching every message in publication order. |
| Events.InternalEventBus.StartProcessing | avatar_manager/internal_events.py:70-73 | Starting creates a task only when none exists. |
| Events.InternalEventBus.StopProcessing | avatar_manager/internal_events.py:75-79 | Stopping cancels and clears the processing task only when one exists. |
| Ingest.WindowAt | ingest_knowledge.py:33-34 | Window k starts at `i + k*step` below n, and is the slice `[start, min(start + size, n))`. |
| Ingest.WindowCount | ingest_knowledge.py:33 | The window count c is ceil((n - i) / step): `c*step >= n - i > (c-1)*step`, and it is 0 iff the input is empty. |
| Ingest.ConsecutiveWindowsOverlap | ingest_knowledge.py:33-34 | Consecutive windows share `min(size - step, tokens left after the second window's start)` tokens: the overlap, cut short at the end of the input. |
| Ingest.TokenCovered | ingest_knowledge.py:33-34 | Token `k*step + p` with `p < step` is at position p of window k. |
| Ingest.EveryTokenCovered | ingest_knowledge.py:33-34 | With `0 <= overlap < size`, every token index lies in some window. |
| Ingest.ChunkText | ingest_knowledge.py:29-36 | The stepped loop returns `Chunking`: the decoded windows for a positive step, nothing for a negative one, and an error for a zero step. |
| Ingest.ChunkingShape | ingest_knowledge.py:32-36 | For a positive step there are ceil(n / step) chunks, none for empty input. Chunk k decodes `tokens[k*step : min(k*step + size, n)]`. |
| Ingest.IngestFile | ingest_knowledge.py:38-70 | Text that is empty after stripping stores nothing, and so does text the tokenizer rejects (a special token such as `<\|endoftext\|>` makes `encode` raise, and the file's handler swallows the error). Otherwise chunk k is stored with its embedding and `chunk_index = k`, until the first embedding that fails. |
| Db.GetDbConnection | avatar_manager/db.py:20-50 | A cached connection is returned with no attempt. After a failure, None is returned with no attempt. From a fresh state, a missing or empty URL, an import error or a connect error set the failed flag and give None, and a successful connect is cached. The flags never say both connected and failed. |
| Db.FirstCallDecides | avatar_manager/db.py:23-26 | Once connected or failed, any series of later calls leaves the state unchanged and never attempts a connection. |
| Db.CallsKeepConsistent | avatar_manager/db.py:20-50 | No series of calls makes the two flags say both connected and failed. |
| Db.ConnectionCache.Get | avatar_manager/db.py:20-50 | The globals are updated exactly as `GetDbConnection` says, and stay consistent. |
| Db.DbOperation | avatar_manager/db.py:52-74 | With no connection, a list-annotated operation gives an empty list and any other gives None. A raising operation is rolled back and gives None, whatever its annotation. Otherwise the operation's own value is returned with no rollback. |
| Db.ConnectionCache.constructor | avatar_manager/db.py:17-18 | The globals start with no connection and no failure. |
| Db.SearchQuery | avatar_manager/db.py:219-240 | Without a threshold, the params are `[vec, limit]`. With one, they are `[vec, vec, threshold, limit]` and the text gains the strict `<` filter. The select clause comes first and the limit clause last. |
| Db.SearchQueryWellFormed | avatar_manager/db.py:225-237 | The query has exactly as many `%s` placeholders as there are params (2 or 4). It always ends with `" ORDER BY distance LIMIT %s"`. |
| Db.PlaceholdersAppend | avatar_manager/db.py:225-234 | Placeholder counts add up over concatenated query pieces. |
| Db.NoPercentNoPlaceholder | avatar_manager/db.py:225-234 | Text without `%` has no placeholder. |
| Db.OnePlaceholderBetween | avatar_manager/db.py:225-234 | One `%s` between texts without `%` adds one placeholder. |
| BaseConnector.EnvVarName | avatar_manager/connectors/base_connector.py:32-33 | The name is the avatar id upper-cased with `-` turned into `_`, then `_`, then the variable name, character by character. |
| BaseConnector.EnvVarPrefixShape | avatar_manager/connectors/base_connector.py:32 | The prefix has no `-` and no lower-case ASCII letter. |
| BaseConnector.EnvVarNameInjective | avatar_manager/connectors/base_connector.py:33 | Different variable names of one avatar give different environment names. |
| BaseConnector.SpellingsShareVariables | avatar_manager/connectors/base_connector.py:32 | The ids `bot-1` and `BOT_1` read the same variables. |
| BaseConnector.GetEnvVar | avatar_manager/connectors/base_connector.py:31-38 | It is an error iff the variable is required and missing or empty, with the message `"Missing environment variable: " + name`. Otherwise the looked-up value is returned unchanged, possibly None. |
| BaseConnector.OnlyOwnVariableMatters | avatar_manager/connectors/base_connector.py:31-38 | The result depends on the environment only through the one derived name. |
| EmailConnector.Preferred | avatar_manager/connectors/email_connector.py:145-150 | A non-empty plain body wins over the HTML body. |
| EmailConnector.ExtractEmailBody | avatar_manager/connectors/email_connector.py:125-153 | A multipart body is the stripped text of the preferred last plain or last HTML non-attachment part, and `""` if both are empty. A single-part message uses its payload. |
| EmailConnector.IneligiblePartIgnored | avatar_manager/connectors/email_connector.py:134-141 | Inserting an attachment, another type, or a part that fails to decode leaves the choice unchanged. |
| EmailConnector.LaterPartWins | avatar_manager/connectors/email_connector.py:131-139 | The last eligible part of a type is the one chosen. |
| EmailConnector.StoreAll | avatar_manager/connectors/email_connector.py:115-117 | One `\Seen` store per id, in order. |
| EmailConnector.MarkEmailsAsRead | avatar_manager/connectors/email_connector.py:109-123 | An empty list only logs out, if connected. Otherwise the ids are stored in order up to the first failing store, and then the connection logs out. |
| Text.Join | avatar_manager/core/generator.py:37 | Joining no parts gives `""`; joining one part gives that part. |
| Text.JoinAppend | avatar_manager/core/generator.py:37 | Joining `a + b` is joining `a`, the separator, then joining `b`. |
| Text.Strip | avatar_manager/core/generator.py:67 | The stripped text is a slice of the original with only whitespace before and after it, and it does not start or end with whitespace. |
| Text.UpperStripContains | avatar_manager/core/generator.py:67-69 | For a word without whitespace, looking for it in the stripped upper-cased text is looking for it in the upper-cased text. |

## Left out

- I/O is left out: IMAP and SMTP sessions, the `psycopg2` driver, SQL execution and pgvector distances, file reading and HTML parsing in `ingest_file`. Each becomes an input value or a function parameter.
- The clock is left out. `is_avatar_active` receives the UTC weekday and hour as parameters, and the sweep receives one reading per avatar, in order.
- asyncio is left out: task creation, cancellation and awaiting. The bus is sequential. `Drain` stands for the consumer loop running until the queue is empty, and `tasksCreated`/`tasksCancelled` count the task operations. Overlapping sweeps are not modelled.
- Callbacks that subscribe or unsubscribe during dispatch are not modelled. A callback is identified by name, and its failure is an input.
- The LLM and embedding backends (`ollama.chat`, `ollama.embeddings`) are function parameters. So are prompt template loading and `str.format` substitution, and BeautifulSoup's `get_text`.
- Tool discovery (`glob`, `importlib`, `getattr`) is represented by a list of module descriptions in directory order. The tool bodies (calculator, web search, page fetch, wikipedia) are not part of this model.
- The GitHub, Telegram, Discord, Slack and Reddit connectors, `generate_github_comment` and the other context builders are not part of this model. The FastAPI endpoints, the scheduler setup, YAML profile and config loading, and `set_log_level` are not part of this model either.
- The database statements other than the search query are left out. They are single SQL statements with no logic of their own beyond `db_operation`.
- The generator does not loop over tool calls and does not retry the backend. The tool registry is never called from it, so none of this is modelled.
- Text.Upper: only ASCII letters are upper-cased. Python's Unicode case mapping is not modelled.
- Text.Strip: only ASCII characters are removed: blank, tab, the line breaks, vertical tab, form feed and the separators 0x1C to 0x1F. The non-ASCII characters Python also counts as whitespace are not modelled.
- Generator.ConfigFallback: a profile key that is present with the value None is treated as missing. Python's `dict.get` would return None for it.
- Schedule.IsAvatarActive: a schedule entry whose `days`, `start_hour` or `end_hour` is present with the value None is read as missing. In Python, `in None` or comparing with None raises a TypeError, and an entry with no body at all raises an AttributeError. Both happen outside the per-avatar error handler, so the sweep would stop there.
- Generator.GenerateReply: an `email_history_limit` present with the value None is read as missing. Python would pass None on to the query's `LIMIT`.
- Message payload values are kept as text. `body_preview` is what the model needs.
- EmailSweep.FiledExactly requires distinct ids, as the IMAP message numbers of one search are. With repeated ids the lists could share a value.
- EmailSweep.ScheduledEmailCheck: `add_email_to_history`, called while fetching, is not modelled. The lookup `GenerateReply` receives stands for the history as stored.
- EmailConnector.MarkEmailsAsRead is modelled apart from the sweep: the sweep records one `MarkRead` effect, and this method says what that call does on the connection.
- Ingest.ChunkText: the chunk size is a natural number. A negative `CHUNK_SIZE`, which Python would slice with ends counted from the back, is not modelled, in `Chunking` and `IngestFile` either.
- Ingest.ChunkText keeps Python's `range` behaviour for a non-positive step. `ChunkingShape` and the window lemmas require a positive step, which the defaults 500 and 50 give.
- Tools.ToolManager.LoadTools: a later file with the same stem overwrites the earlier registration rather than being rejected, as the code does.

## Findings

| source | as written | input that shows it | evidently intended | confidence | as-written member | corrected member |
|---|---|---|---|---|---|---|
| avatar_manager/core/generator.py:108-109 with avatar_manager/db.py:62-73 | When the history query raises, `db_operation` returns None, not the annotated empty list. `reversed(None)` then raises a TypeError, so the reply is never generated and the sweep abandons the avatar's remaining emails. | Any email whose `get_email_history` query raises, for example while the `email_history` table is missing. | A failed history lookup reads as an empty conversation history, as a missing connection already does. | not executed | Generator.HistoryQueryFailureAborts | Generator.GenerateReply |
