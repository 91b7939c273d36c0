# WhatsApp chat relay — verified model of the decision layer

The system is a Flask webhook that receives WhatsApp messages (text or voice
notes) from Twilio. It transcribes voice notes, asks a hosted chat model for
an answer, stores every turn in a PostgreSQL table `conversas (id, user_id,
role, content)`, and replies with text and an optional synthesized audio
link. Two deployments exist:

- `app.py` is a nutrition coach. It guards against a missing AI key and a
  missing database URL.
- `projeton8n/app.py` is an English tutor without those guards. It builds its
  AI client at import time, outside any `try`, so without a key the process
  does not start. Once it is running, download, transcription, completion,
  synthesis and database failures arrive as caught exceptions.

This project models the logic around the external services once. A
`Deployments.Deployment` value gives the persona prompt, the fallback sentence
and whether the guards exist (`NutritionCoach`, `EnglishTutor`). The modules:

- `Text` models Python's `str.strip()` (with the full `str.isspace()` set),
  ASCII `str.lower()` and the substring test `t in s`.
- `Media` holds the content-type → file-extension heuristic and how the
  download and speech-to-text outcomes become the transcript.
- `Conversations` models the table as a value (`Table`) with the three SQL
  operations as functions. It also has the class `ConversationStore`, whose
  methods change the rows in place. `RecentHistory` works the way the source
  does: it runs the newest-first query, reverses the fetched rows in an array
  in place, and appends them one by one after the system entry.
- `Webhook` holds the input resolution, the three-way branch of `bot()`, and
  `chat_with_llama`'s ordered writes. It has both a specification function
  (`Converse`, `Handle`) and a method (`ChatWithLlama`, `Bot`) that runs
  against the store.

The outcomes of the network services are parameters (`Webhook.Services`):
- the download status, or an exception;
- the transcript, or an exception;
- the completion, or an exception;
- whether speech synthesis succeeded.

The availability of a database connection is a flag of the store.
A missing `From` field is a `None` user key. It is stored as SQL NULL, and a
`user_id = NULL` test never matches, so that sender's rows are never read or
deleted. The model keeps this behaviour through `Conversations.Owns`.

One might expect the heuristic to treat every MP3 content type as MP3. The
model follows the code instead: a content type such as `audio/mpeg3` or `audio/mpeg` does
not contain the run `mp3`, so it gets `.ogg` (`Media.MpegThreeIsOgg`,
`Media.ExtensionExamples`).

## Model

| member | source | states |
|---|---|---|
| Text.Strip | app.py:222 | the stripped body sits in the original with only whitespace around it, starts and ends with non-whitespace, and is empty exactly when the body is all whitespace |
| Text.Contains | app.py:163 | the left-to-right scan is true exactly when the pattern occurs at some offset (Python's `in`) |
| Media.Extension | app.py:162-164 | ".m4a" iff the type mentions "mp4" or "m4a"; ".mp3" iff it mentions neither but mentions "mp3"; ".ogg" otherwise (same code at projeton8n/app.py:127-129) |
| Media.ExtensionExamples | projeton8n/app.py:127-129 | iPhone and Android types map to ".m4a" and ".ogg", "audio/mp3" to ".mp3", and the standard MP3 type "audio/mpeg" falls through to ".ogg" |
| Media.MpegThreeIsOgg | app.py:163-164 | "audio/mpeg3" contains m, p and 3 but not "mp3", so it gets ".ogg" |
| Media.Transcribe | app.py:157-187 | the transcript is non-empty only if a client exists, a content type was given, the download answered 200 and the service returned that text; in that case the service's text is returned unchanged (projeton8n/app.py:124-150 has no client guard) |
| Deployments.ClientReady | app.py:25-30 | the guarded deployment has an AI client exactly when the key is set; the unguarded one always has one (projeton8n/app.py:24); this is the guard at app.py:158 and app.py:192 |
| Deployments.ConnectionAvailable | app.py:54-63 | the guarded deployment has no connection without a URL, and with a URL has one exactly when the driver connects; the unguarded one (projeton8n/app.py:36-39) has one exactly when the driver connects |
| Conversations.Owns | app.py:114 | the SQL test `user_id = %s`: a NULL (missing) sender matches no row; a known sender matches exactly the rows stored under that sender (same test in the DELETE at app.py:141) |
| Conversations.Filter | app.py:114 | the kept rows are exactly those on which `user_id = u` has the requested truth value, in table order, and ascending ids stay ascending |
| Conversations.NewestFirst | app.py:111-117 | the query returns min(10, user's row count) rows, all the user's, in strictly descending id order |
| Conversations.Recent | app.py:119-124 | the window has min(10, user's row count) rows, all the user's, in ascending id order |
| Conversations.RecentIsNewest | app.py:111-124 | every row of the user left out of the window is older than every row in it |
| Conversations.Fetch | app.py:103-133 | the history starts with the system prompt; with a connection it has 1 + min(10, user's row count) entries, and after the system entry come the user's recent rows as messages, oldest first; without a connection it is the system entry alone (projeton8n/app.py:75-101) |
| Conversations.Insert | app.py:89-101 | with a connection, exactly one row is appended, carrying user, role and content, with an id above every existing id, and the old rows stay as they were; without one the table is unchanged; well-formedness is kept |
| Conversations.Delete | app.py:135-146 | with a connection, the remaining rows are exactly the old rows not owned by the user; without one the table is unchanged; well-formedness is kept |
| Conversations.ResetScope | app.py:141 | after deleting user u, u has no rows and every other user keeps the same rows in the same order |
| Conversations.ResetIdempotent | projeton8n/app.py:103-112 | deleting the same user twice equals deleting once |
| Conversations.HistoryAfterReset | projeton8n/app.py:107 | after a reset, the user's history is only the system entry |
| Conversations.FetchAfterInsert | projeton8n/app.py:153-154 | the history read right after storing a turn is the system entry, the previous window less its oldest turn once ten are shown, then the new turn |
| Conversations.HistoryAfterInsert | projeton8n/app.py:62-98 | storing a turn slides the history window by one: the new turn is appended last, and the oldest turn is dropped once ten are shown |
| Conversations.ReverseInPlace | app.py:124 | the array afterwards is the reverse of its old contents |
| Conversations.ReversedQueryIsRecent | app.py:119-124 | reversing the newest-first query result gives the chronological window |
| Conversations.ConversationStore.constructor | app.py:65-87 | the store starts well-formed and empty, with the availability that `get_db_connection` decides |
| Conversations.ConversationStore.Save | app.py:89-101 | the new store state is `Insert` of the old one; well-formedness is kept |
| Conversations.ConversationStore.Clear | app.py:135-146 | the new store state is `Delete` of the old one; well-formedness is kept |
| Conversations.ConversationStore.RecentHistory | app.py:103-133 | the query, the in-place reversal and the append loop return exactly `Fetch` of the current table |
| Webhook.Converse | app.py:191-207 | with no client, it answers "System Error: AI Key missing." and writes nothing; otherwise the history sent is the one read after the user turn was stored; on failure it answers the deployment's fallback and keeps the user turn; on success it answers the model's text and stores it as an assistant turn |
| Webhook.SentHistoryEndsWithInput | app.py:194-199 | with a client, a connection and a known sender, the message list sent to the model starts with the system prompt and ends with the user's input |
| Webhook.FailedCallKeepsUserTurn | projeton8n/app.py:153-165 | a failed completion answers the fallback, and the table holds exactly one new row: the sender's input, stored as a user turn under that sender |
| Webhook.ExchangeAddsTwoTurns | app.py:194-204 | a successful exchange adds exactly two rows to the sender's rows: the input as a user turn, then the answer as an assistant turn |
| Webhook.TutorAlwaysCallsModel | projeton8n/app.py:152-165 | the unguarded deployment calls the model whatever the completion outcome, and answers "Error calling AI." on failure |
| Webhook.InputNotSentWithoutStore | app.py:193-195 | as written, with no database connection the model is sent the system prompt alone, without the user's input (app.py:91 and app.py:106 return early) |
| Webhook.NoHistoryWithoutSender | app.py:114 | a request without a sender (NULL key) has no history beyond the system entry, whatever the table holds |
| Webhook.InputNotSentWithoutSender | projeton8n/app.py:153-154 | as written, a request without a sender stores its input under NULL, reads nothing back, and sends the model the system prompt alone |
| Webhook.IntendedHistory | app.py:193-195 | the corrected message list always starts with the system prompt and ends with the user's input; it equals what the code sends whenever the turn can be stored and read back |
| Conversations.NullOwnsNothing | app.py:114 | the `user_id = NULL` test matches no row of any table |
| Text.Lower | app.py:236 | lower-casing keeps the length, maps each ASCII capital to its small letter and leaves every other character unchanged |
| Webhook.IsResetCommand | app.py:236 | the input is a reset exactly when it has six characters and each one lower-cases to the matching character of "/reset" |
| Webhook.HasMedia | app.py:226 | a request has media exactly when a media URL is present and non-empty (Python truthiness) |
| Webhook.ResetCommandSpelling | app.py:236 | the reset test holds exactly for six-character inputs spelling "/reset" in any mix of case |
| Webhook.ResetExamples | projeton8n/app.py:192 | "/reset", "/RESET" and "/ReSeT" reset; " /reset" (a transcript is not stripped) and "reset" do not |
| Webhook.ResolveInput | app.py:222-229 | with a media URL, the input is the transcription outcome: a successful transcript becomes the input, and a non-empty input can only come from one; without one, the input is the stripped body, empty exactly when the body is missing or all whitespace |
| Webhook.MediaIgnoresBody | projeton8n/app.py:183-186 | when a media URL is present, the Body field does not affect the input |
| Webhook.Handle | app.py:234-258 | empty input replies "I couldn't hear you." with no media and an unchanged table; a reset replies "Memory cleared!" with no media, and the only change is the deletion; any other input replies with `Converse`'s answer, and media is attached exactly when synthesis succeeded |
| Webhook.ResetRequestClearsHistory | projeton8n/app.py:192-195 | a reset request leaves the sender only the system entry and leaves every other sender's rows unchanged |
| Webhook.TextMessageScenario | app.py:241-253 | a text message with a working model gets the model's answer, audio exactly when synthesis succeeded, and two new rows for the sender |
| Webhook.ChatWithLlama | projeton8n/app.py:152-165 | saving, reading and saving against the store produce exactly `Converse`'s answer, message list and new table |
| Webhook.Bot | projeton8n/app.py:174-213 | running the route against the store produces exactly `Handle`'s reply and new table |

## Left out

- Flask routing, the home page (`render_template`), `url_for` and TwiML serialisation are not modelled. The reply is a body text plus a flag for an attached audio link.
- The Twilio download (with basic auth), the Groq transcription and chat calls, and `edge_tts` synthesis are foreign network calls. Their outcomes are parameters.
- The per-request asyncio event loop is not modelled. Synthesis finishing before the reply is represented by the `synthesized` flag.
- Temporary files, `uuid` file names, the `static` directory and `os.remove` cleanup are not modelled. The chosen extension only names the uploaded temporary file, and that name is not modelled.
- The psycopg2 connection and cursor lifecycle, `CREATE TABLE` in `init_db`, logging and environment loading are not modelled. A connection is one availability flag.
- ConversationStore.constructor: starts from an empty table. `init_db` on an existing table keeps its rows, so every lemma is stated over any well-formed table.
- The availability flag is fixed for a store's lifetime. The source opens a new connection per call, so one statement failing while the next succeeds is not modelled. A statement that fails on an open connection is folded into "unavailable", since nothing is committed then.
- SERIAL ids are modelled as consecutive. Only their order matters to the code.
- Concurrent requests from the same sender can interleave at the database. The code does not address this.
- Text.Lower: `lower()` is modelled for ASCII letters only. Other characters keep their case, which approximates Python's Unicode case mapping.
- A completion whose message content is null is not modelled: the completion outcome is a string or a failure.
- The English tutor is modelled only once it has started with an AI client. Without a key, its import-time `Groq(...)` construction fails and the process never serves a request. So `ClientReady` is always true for it, and that start-up failure is not modelled.
- The speech voice and locale are fixed in the source and do not affect the logic.

## Findings

| source | as written | input that shows it | evidently intended | confidence | as-written member | corrected member |
|---|---|---|---|---|---|---|
| app.py:193-195 | `chat_with_llama` hands the user's input to the model only by storing it and reading the history back, so when the store cannot keep it the model never sees the message | the nutrition coach with `DATABASE_URL` unset, or any request without a `From` field (stored under NULL, which `user_id = %s` never matches) | without the database the bot answers as a stateless assistant, so the message list still ends with the user's input | high (not executed) | Webhook.InputNotSentWithoutStore | Webhook.IntendedHistory |
| projeton8n/app.py:153-154 | same read-back dependence in the tutor | a request without a `From` field | the model sees the input whatever the sender key | high (not executed) | Webhook.InputNotSentWithoutSender | Webhook.IntendedHistory |

`Webhook.Converse` and `Webhook.ChatWithLlama` keep the code's behaviour, so that
the route stays a faithful model. `Webhook.IntendedHistory` is the corrected
message list, proved to end with the input for every table and sender and to
agree with the code wherever the code already delivers it.
