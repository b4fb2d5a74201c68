# arcabot-flow server core, modelled in Dafny

arcabot-flow is a WhatsApp bot server. Each bot instance holds one WhatsApp socket connection.
Inbound messages get an automatic answer: a static welcome or fallback text, or a reply generated
by an AI model from the recent conversation. A scheduler sends messages a user has scheduled, once
or on a daily, weekly or monthly recurrence. An HTTP API manages bots, scheduled messages, message
templates and file uploads. The socket's authentication state lives in a key/value table.

This project models that core as pure Dafny functions over immutable state, and proves what each
operation promises. The module layout:

| module | models |
|---|---|
| `Wrappers`, `Text`, `Seqs` | `Option`/`Result`, JavaScript string tests (`includes`, `endsWith`, `toLowerCase`, `replace(/\D/g, '')`), and the query steps `.eq`, `.order`, `.limit`, `reverse` |
| `Calendar`, `Recurrence` | calendar dates with JavaScript `Date.setDate`/`setMonth` overflow, and the scheduler's next-occurrence rule |
| `Records` | the `scheduled_messages` table (rows and id counter), row update, insert and the recurrence-type field |
| `BotStore` | the bot and bot-config tables of the store adapter |
| `History` | the conversation-history table and its "last N turns within H hours" query |
| `AuthState` | the socket's authentication state over the key/value table |
| `Sessions` | the connection manager: create, the `connection.update` handler, destroy, lookup |
| `AutoReply` | the inbound-message handler |
| `Dispatch` | one scheduler tick: fetch the due rows, send each, record the result, spawn the next occurrence |
| `SchedulingRoutes`, `BotRoutes`, `Upload` | the HTTP routes for scheduled messages and templates, bots, and file upload |
| `Boot` | the server entry point's `request-qr` socket event and the start-up restore of connections |

Outside effects are parameters. The socket's send, the file system's existence test, the QR
encoder, the AI model, the clock and the store's availability are passed in. Handlers return the
new state together with the effects they perform: socket emits, status persists, scheduled
reconnects, logout and socket end.

The model follows the code where it does something a reader of its names and comments might not
expect:
- Monthly recurrence moves the month first and clamps afterwards. On 31 January, `setMonth`
  overflows into March before the day is clamped, so February is skipped
  (`Recurrence.JanuaryThirtyFirstSkipsFebruary`).
- A send to a bot without a connection fails with the text `Bot <id> not connected`.
- When the AI call fails, the model's apology is stored in the history as a `model` turn.
- The welcome message is chosen when the lower-cased text contains `oi` anywhere, so "Boi" also
  matches.
- Cancelling a scheduled message works from any status. Editing may set any status.
- `getBotById` uses `.single()`. A missing bot is therefore an error, and toggling a missing bot
  answers 500, not 404.
- `getConnection` also returns a connection that is still connecting.
- A close event from a socket the bot has since replaced still deletes the bot's current entry.
- When persisting ONLINE or OFFLINE throws, the status is not published. An open has already
  marked the connection ONLINE by then, because that happens before the store write.
- When socket setup fails while a bot is being created, the bot and its config stay stored and
  the answer is 500.
- Toggling an OFFLINE or SYNCING bot sets it ONLINE without opening a connection.

## Model

| member | source | states |
|---|---|---|
| Text.ContainsIff | pasta_do_git/server/src/routes/upload.ts:29-31 | `includes`/regex-alternative matching is exactly "occurs at some index" |
| Text.DigitsOnly | pasta_do_git/server/src/services/scheduler.ts:85 | stripping non-digits yields only digits, never more characters than the input |
| Text.DigitsOnlyOfDigits | pasta_do_git/server/src/services/scheduler.ts:85 | a string of digits is unchanged by stripping non-digits |
| Text.DigitsOnlyFromInput | pasta_do_git/server/src/services/scheduler.ts:85 | the characters kept are exactly the digits that occur in the input |
| Text.DigitsOnlyChar | pasta_do_git/server/src/services/scheduler.ts:85 | one digit is kept, any other single character is dropped |
| Text.DigitsOnlyAppend | pasta_do_git/server/src/services/scheduler.ts:85 | stripping a concatenation is concatenating the stripped parts, so every digit is kept in order |
| Seqs.Filter | server/src/database/supabase.ts:168-193 | `.eq` filters keep only rows satisfying the predicate, and every such row |
| Seqs.FilterCounts | server/src/database/supabase.ts:168-193 | a row satisfying the predicate is kept as often as it occurs, any other row not at all |
| Seqs.FilterAppend | server/src/database/supabase.ts:168-193 | the kept rows of a concatenation are the kept rows of each part in turn, so the original order is kept |
| Seqs.FilterOne | server/src/database/supabase.ts:168-193 | a single row is kept exactly when it satisfies the predicate |
| Seqs.SortBy | pasta_do_git/server/src/services/scheduler.ts:53 | `.order` gives a permutation of its input that is sorted by the key |
| Seqs.Reverse | server/src/database/supabase.ts:192 | `reverse()` puts element i at position n-1-i |
| Seqs.ReverseMultiset | server/src/database/supabase.ts:192 | reversing keeps every row with its multiplicity |
| Seqs.SelectionExactly | pasta_do_git/server/src/routes/scheduling.ts:12-25 | filtering then ordering a duplicate-free table lists each matching row exactly once and nothing else |
| Calendar.DaysInMonth | pasta_do_git/server/src/services/scheduler.ts:177-181 | month lengths are 28 to 31 days, and only February has fewer than 30 |
| Calendar.NormalizeAdd | pasta_do_git/server/src/services/scheduler.ts:163 | `setDate(d + k)` with overflow is the k-th calendar successor of day d |
| Calendar.SetDate | pasta_do_git/server/src/services/scheduler.ts:183-185 | `setDate(n)` keeps the time of day and sets the day when n lies within the month |
| Records.ParseRecurrence | pasta_do_git/server/src/services/scheduler.ts:160-190 | each of once/daily/weekly/monthly is read as its type exactly when the text is that name; any other text is kept verbatim as unrecognised |
| Records.RecurrenceRoundTrip | pasta_do_git/server/src/services/scheduler.ts:160-190 | reading a `recurrence_type` text loses nothing: the type's name is the text, and a known type reads back as itself |
| Records.UpdateRowThenFind | pasta_do_git/server/src/services/scheduler.ts:129-135 | after `.update(f).eq('id', id)` with an id-keeping `f`, the lookup by `id` finds `f` of the old row and any other lookup finds what it found before |
| Records.UpdateRowWellFormed | pasta_do_git/server/src/routes/scheduling.ts:99-107 | an update that keeps ids keeps ids unique and below the counter |
| Records.FindRow | pasta_do_git/server/src/routes/scheduling.ts:89-93 | the lookup by id returns a stored row with that id, or none exists |
| Records.InsertRow | pasta_do_git/server/src/services/scheduler.ts:194-207 | an insert appends the row under the next id and keeps ids unique and below the counter |
| Recurrence.NextOccurrence | pasta_do_git/server/src/services/scheduler.ts:160-190 | once and unknown types have no next occurrence; the others keep the time of day |
| Recurrence.DailyIsNextCalendarDay | pasta_do_git/server/src/services/scheduler.ts:161-164 | daily moves to the next calendar day across month and year ends |
| Recurrence.WeeklyIsSevenCalendarDays | pasta_do_git/server/src/services/scheduler.ts:166-169 | weekly moves seven calendar days |
| Recurrence.AddOneMonthLanding | pasta_do_git/server/src/services/scheduler.ts:171-173 | moving one month lands on the same day of the next month, or overflows into the month after |
| Recurrence.MonthlyClampsInLandedMonth | pasta_do_git/server/src/services/scheduler.ts:171-187 | with a recurrence day, the day is clamped to the length of the month the move landed in |
| Recurrence.MonthlyWithoutDayIsOneMonthMove | pasta_do_git/server/src/services/scheduler.ts:176 | without a (truthy) recurrence day the monthly step is the plain month move |
| Recurrence.JanuaryThirtyFirstSkipsFebruary | pasta_do_git/server/src/services/scheduler.ts:171-187 | 31 January with day 31 recurs on 31 March (3 March without a day), also in a leap year; 28 January recurs on 28 February |
| Recurrence.NextOccurrenceIsLater | pasta_do_git/server/src/services/scheduler.ts:160-187 | for a non-negative day every recurring step moves strictly forward in time |
| Recurrence.NegativeDayGoesBackwards | pasta_do_git/server/src/services/scheduler.ts:183-185 | a negative recurrence day makes `setDate` count back: 15 January 2025 with day -100 recurs on 23 October 2024 |
| BotStore.GetBotById | server/src/database/supabase.ts:62-71 | succeeds exactly when the store is up and the bot exists; a missing row is the no-rows error |
| BotStore.GetBotConfig | server/src/database/supabase.ts:106-115 | the no-rows error becomes "no config"; only other store errors fail |
| BotStore.GetBotWithConfig | server/src/database/supabase.ts:141-147 | the bot is required, the config optional, each as stored |
| BotStore.UpdateBot | server/src/database/supabase.ts:84-94 | only the patched fields change, `updated_at` is stamped, every other bot is untouched |
| BotStore.UpdateBotConfig | server/src/database/supabase.ts:128-138 | each of the seven config fields takes the patched value when given and keeps its value otherwise, `updated_at` is stamped, other configs are untouched |
| BotStore.ConfigUpdateIsRead | server/src/database/supabase.ts:106-138 | the next `getBotConfig` returns the patched config; an empty patch only stamps the time |
| BotStore.ConfigUpdateIdempotent | server/src/database/supabase.ts:128-138 | the same patch at the same time applied twice is applied once |
| BotStore.CreateBot | server/src/database/supabase.ts:73-82 | an insert with a fresh id adds exactly that bot |
| BotStore.CreateBotConfig | server/src/database/supabase.ts:117-126 | an insert with a fresh bot id adds exactly that config |
| BotStore.DeleteBot | server/src/database/supabase.ts:96-103 | the bot and its config are removed whenever the store is up |
| History.AddMessageHistory | server/src/database/supabase.ts:150-166 | appends exactly one turn stamped now; a store failure changes nothing |
| History.GetConversationHistory | server/src/database/supabase.ts:168-193 | at most `limit` turns; a query error gives the empty history |
| History.HistoryRowsQualify | server/src/database/supabase.ts:172-176 | every returned turn belongs to the bot and chat and is newer than the cutoff, in ascending time |
| History.WindowAscending | server/src/database/supabase.ts:177-192 | newest-first with limit, then reversed, is in ascending time |
| History.WindowKeepsNewest | server/src/database/supabase.ts:177-192 | the window holds min(limit, n) turns, and every turn left out is no newer than any kept |
| History.WindowIsMostRecent | server/src/database/supabase.ts:168-193 | the query returns the most recent qualifying turns, with all others older |
| History.WindowEndsWithNewest | server/src/database/supabase.ts:177-192 | the strictly newest qualifying turn is the last one returned |
| History.QueryErrorGivesNoHistory | server/src/database/supabase.ts:183-186 | a failing query yields an empty history |
| AuthState.StoreKeyInjective | server/src/baileys/useSupabaseAuthState.ts:16 | `${sessionId}:${key}` keys of one session never collide |
| AuthState.ReadData | server/src/baileys/useSupabaseAuthState.ts:27-40 | a read finds a value exactly when the row exists and parses; errors read as null |
| AuthState.WriteData | server/src/baileys/useSupabaseAuthState.ts:11-25 | an upsert replaces exactly the session's key |
| AuthState.RemoveData | server/src/baileys/useSupabaseAuthState.ts:42-51 | a delete removes exactly the session's key |
| AuthState.ReadAfterWrite | server/src/baileys/useSupabaseAuthState.ts:11-51 | a read after a write gives the value, after a remove gives nothing, other keys unaffected |
| AuthState.InitCreds | server/src/baileys/useSupabaseAuthState.ts:53 | stored creds are used when present, fresh creds otherwise |
| AuthState.SavedCredsAreRestored | server/src/baileys/useSupabaseAuthState.ts:53-91 | creds saved by `saveCreds` are the creds the next start loads |
| AuthState.KeysGet | server/src/baileys/useSupabaseAuthState.ts:59-71 | one entry per requested id, each the stored value, or for app-state sync keys its protocol conversion, or null |
| AuthState.KeysSetKeepsOthers | server/src/baileys/useSupabaseAuthState.ts:72-86 | a key set touches no key outside its entries |
| AuthState.KeysSetLastWins | server/src/baileys/useSupabaseAuthState.ts:72-86 | with the writes applied in the listed order, a key holds its last entry's value (or is removed by a null entry) |
| AuthState.KeysSetDistinct | server/src/baileys/useSupabaseAuthState.ts:72-86 | a key named by exactly one entry holds that entry's value (or is removed), whatever order the writes land in |
| AuthState.KeysSetOrderFree | server/src/baileys/useSupabaseAuthState.ts:72-86 | when no two entries name one key, every order of the concurrent writes leaves the same reads |
| AuthState.SetThenGet | server/src/baileys/useSupabaseAuthState.ts:59-86 | a key set then a key get round-trips the value |
| AuthState.SetThenGetAppState | server/src/baileys/useSupabaseAuthState.ts:59-86 | an app-state sync key set then got comes back as the protocol conversion of the value |
| Sessions.Get | server/src/baileys/BaileysManager.ts:237-239 | returns the bot's table entry, whatever its status |
| Sessions.Create | server/src/baileys/BaileysManager.ts:36-83 | no-op when the bot has an entry; otherwise a new CONNECTING entry without QR under a fresh socket, or an error if setup throws |
| Sessions.PhoneFromUser | server/src/baileys/BaileysManager.ts:123 | the phone is the whole prefix of the user id before its first ':' (the whole id without one), and null exactly when there is no user id or that prefix is empty |
| Sessions.PhoneOfDeviceId | server/src/baileys/BaileysManager.ts:123 | `<phone>:<device>` and a bare `<phone>` both give `<phone>` |
| Sessions.OnUpdate | server/src/baileys/BaileysManager.ts:86-132 | an event changes only its own bot's entry and keeps socket numbers distinct |
| Sessions.QrKeepsStatus | server/src/baileys/BaileysManager.ts:90-99 | a QR event stores the data URL, publishes it once, and leaves the status alone |
| Sessions.OpenGoesOnline | server/src/baileys/BaileysManager.ts:117-131 | an open event sets ONLINE and clears the QR, persists ONLINE with the phone, and publishes the status only when that write succeeds |
| Sessions.CloseRemovesEntry | server/src/baileys/BaileysManager.ts:101-116 | a close removes the entry; logged-out persists OFFLINE and publishes it only when that write succeeds, anything else schedules one reconnect after 1000 ms |
| Sessions.StaleSocketEvents | server/src/baileys/BaileysManager.ts:86-132 | events of a replaced socket change nothing except that a close still removes the entry |
| Sessions.Destroy | server/src/baileys/BaileysManager.ts:221-235 | the entry is always gone afterwards; logout is attempted and the socket ended when there was one |
| Sessions.DestroyIgnoresLogoutOutcome | server/src/baileys/BaileysManager.ts:224-232 | a throwing logout ends in the same table as a successful one |
| AutoReply.MessageText | server/src/baileys/BaileysManager.ts:172-175 | the text is the conversation, else the extended text, else empty |
| AutoReply.StaticReply | server/src/baileys/BaileysManager.ts:205-210 | the welcome when it is set and the text contains "oi", otherwise the fallback or the default |
| AutoReply.SystemContext | server/src/baileys/BaileysManager.ts:183 | the configured instruction or the default, never empty |
| AutoReply.AiExchange | server/src/baileys/BaileysManager.ts:181-202 | appends the user turn then the model turn holding the answer |
| AutoReply.HandleIncoming | server/src/baileys/BaileysManager.ts:149-219 | a reply goes to the chat it came from over the bot's current socket; no reply leaves the history alone |
| AutoReply.HandleUpsert | server/src/baileys/BaileysManager.ts:138-146 | only the batch's first message, when it has content and is not our own, can be answered |
| AutoReply.ReplyIffAnswers | server/src/baileys/BaileysManager.ts:138-219 | a reply happens exactly when config, connection, chat id, group rule and text allow it, with the static or AI text as configured |
| AutoReply.AiSeesCurrentMessageLast | server/src/baileys/BaileysManager.ts:186-189 | the history given to the AI ends with the message just received |
| AutoReply.IgnoredGroupGetsNoReply | server/src/baileys/BaileysManager.ts:165-169 | a group chat of a bot that ignores groups gets no reply and no history |
| AutoReply.GreetingIsAnySubstring | server/src/baileys/BaileysManager.ts:208 | "Oi, tudo bem?" and "Boi" get the welcome; "Olá" gets the fallback |
| Dispatch.NormaliseJid | pasta_do_git/server/src/services/scheduler.ts:83-85 | a phone with '@' is kept; otherwise its digits followed by the WhatsApp suffix |
| Dispatch.NormaliseJidIdempotent | pasta_do_git/server/src/services/scheduler.ts:83-85 | normalising a chat id twice equals once |
| Dispatch.NormaliseJidIgnoresSeparators | pasta_do_git/server/src/services/scheduler.ts:85 | a formatted phone and its bare digits reach the same chat |
| Dispatch.Compose | pasta_do_git/server/src/services/scheduler.ts:76-123 | no connection or a missing attachment fails; otherwise a document with caption, base name and mimetype, or a text |
| Dispatch.Attempt | pasta_do_git/server/src/services/scheduler.ts:74-151 | delivered exactly when composing works and the send resolves; a throw records its message or "Unknown error" |
| Dispatch.NotConnectedFails | pasta_do_git/server/src/services/scheduler.ts:76-80 | a bot without a connection fails with "Bot <id> not connected" |
| Dispatch.ApplyEndsSentOrFailed | pasta_do_git/server/src/services/scheduler.ts:128-151 | each attempt ends as sent with `sent_at`, or failed with an error message, all else kept |
| Dispatch.Respawn | pasta_do_git/server/src/services/scheduler.ts:137-140 | only a delivered daily/weekly/monthly record gets a successor: a pending copy at the next occurrence |
| Dispatch.SelectDue | pasta_do_git/server/src/services/scheduler.ts:48-53 | the fetch is the due rows, ascending by `scheduled_for` |
| Dispatch.SelectDueExactly | pasta_do_git/server/src/services/scheduler.ts:48-53 | the snapshot holds every pending row not scheduled after now, each once, and nothing else |
| Dispatch.ProcessIsUpdateThenInsert | pasta_do_git/server/src/services/scheduler.ts:129-140 | one record's step is the status update followed by the insert of its successor |
| Dispatch.ProcessAllRows | pasta_do_git/server/src/services/scheduler.ts:66-68 | after the loop each snapshot row carries its own attempt's update, every other row is unchanged |
| Dispatch.SpawnedArePendingAndNumbered | pasta_do_git/server/src/services/scheduler.ts:194-207 | successors are pending and numbered consecutively |
| Dispatch.TickWellFormed | pasta_do_git/server/src/services/scheduler.ts:43-72 | a tick keeps ids unique and below the counter |
| Dispatch.TickUpdatesDueRows | pasta_do_git/server/src/services/scheduler.ts:43-151 | a tick updates exactly the due rows, each by its own attempt stamped with the tick's clock |
| Dispatch.TickAppendsSuccessors | pasta_do_git/server/src/services/scheduler.ts:137-140 | a tick appends the successors of delivered recurring rows in fetch order, pending and numbered |
| Dispatch.NotDueUntouched | pasta_do_git/server/src/services/scheduler.ts:51-52 | a row that is not pending or is scheduled in the future is never touched |
| Paths.TrimTrailingSlashes | pasta_do_git/server/src/services/scheduler.ts:115 | the trimmed path is a prefix of the path and does not end in '/' |
| Paths.Basename | pasta_do_git/server/src/services/scheduler.ts:115 | the base name has no '/' and ends the path once its trailing '/'s are dropped |
| Paths.TrailingSlashIgnored | pasta_do_git/server/src/services/scheduler.ts:102-115 | a trailing '/' changes neither the base name nor the extension |
| Paths.BasenameOfPlainPath | pasta_do_git/server/src/services/scheduler.ts:115 | without a trailing '/', the base name is the whole path or what follows its last '/', and ends the path |
| Paths.Extname | pasta_do_git/server/src/services/scheduler.ts:102 | the extension is empty or a '.'-suffix of the base name |
| Paths.ExtnameOfStemAndExt | pasta_do_git/server/src/routes/upload.ts:18 | `stem.ext` has extension `.ext` |
| SchedulingRoutes.StatusNameInjective | pasta_do_git/server/src/routes/scheduling.ts:21-23 | status names identify statuses |
| SchedulingRoutes.ListMessages | pasta_do_git/server/src/routes/scheduling.ts:8-34 | 500 on a store error; otherwise matching rows, ascending by `scheduled_for` |
| SchedulingRoutes.ListIsExactlyTheMatches | pasta_do_git/server/src/routes/scheduling.ts:12-25 | the list holds each row matching the bot and status filters exactly once |
| SchedulingRoutes.UnfilteredListIsEverything | pasta_do_git/server/src/routes/scheduling.ts:12-15 | without filters every row is listed |
| SchedulingRoutes.CreateMessage | pasta_do_git/server/src/routes/scheduling.ts:37-80 | 400 without a required field, 500 on a store error, otherwise a pending row inserted and answered 201 |
| SchedulingRoutes.CreateIgnoresBodyStatus | pasta_do_git/server/src/routes/scheduling.ts:56-71 | a status in the body has no effect |
| SchedulingRoutes.CreatedIsListedAndDue | pasta_do_git/server/src/routes/scheduling.ts:56-75 | a created message shows in the pending list and is due once its time has come |
| SchedulingRoutes.MergeTakesPatch | pasta_do_git/server/src/routes/scheduling.ts:99-104 | an edit keeps the id, overwrites each given field (bot, `sent_at` and `error_message` included) and keeps each other one, and stamps `updated_at` |
| SchedulingRoutes.MergeEmptyAndTwice | pasta_do_git/server/src/routes/scheduling.ts:99-104 | an empty body only stamps `updated_at`; the same body merged twice is merged once |
| SchedulingRoutes.RecurrenceOf | pasta_do_git/server/src/routes/scheduling.ts:65 | a missing or empty `recurrence_type` and "once" give once; any other type is stored under the given text |
| SchedulingRoutes.EditMessage | pasta_do_git/server/src/routes/scheduling.ts:83-116 | only a stored pending message is edited; otherwise 400 and the table is unchanged |
| SchedulingRoutes.EditAnswersStoredRow | pasta_do_git/server/src/routes/scheduling.ts:99-111 | the answer is the row now stored |
| SchedulingRoutes.EditCanSetStatus | pasta_do_git/server/src/routes/scheduling.ts:99-107 | an edit may set any status |
| SchedulingRoutes.CancelMessage | pasta_do_git/server/src/routes/scheduling.ts:119-135 | the row becomes cancelled whatever its status; 500 on a store error |
| SchedulingRoutes.CancelIsUnconditional | pasta_do_git/server/src/routes/scheduling.ts:123-126 | even a sent message becomes cancelled |
| SchedulingRoutes.CancelledIsNeverSent | pasta_do_git/server/src/routes/scheduling.ts:119-135 | a cancelled message is not touched by any later tick |
| SchedulingRoutes.CancelledIsNotEditable | pasta_do_git/server/src/routes/scheduling.ts:89-97 | a cancelled message can no longer be edited |
| SchedulingRoutes.ListTemplates | pasta_do_git/server/src/routes/scheduling.ts:138-160 | 500 on a store error, otherwise sorted by creation time |
| SchedulingRoutes.TemplatesListedNewestFirst | pasta_do_git/server/src/routes/scheduling.ts:141-151 | exactly the bot's templates, newest first |
| SchedulingRoutes.CreateTemplate | pasta_do_git/server/src/routes/scheduling.ts:163-190 | 400 without a required field, 500 on a store error, otherwise the new template answered 201 |
| SchedulingRoutes.CreatedTemplateIsListed | pasta_do_git/server/src/routes/scheduling.ts:163-185 | a created template shows in its bot's list |
| SchedulingRoutes.MergeTemplateTakesPatch | pasta_do_git/server/src/routes/scheduling.ts:199-202 | a template edit keeps the id, overwrites each given field (bot and `created_at` included) and keeps each other one, and stamps `updated_at` |
| SchedulingRoutes.EditTemplate | pasta_do_git/server/src/routes/scheduling.ts:193-215 | an existing template takes the patch and the answer is the row now stored; a missing one or a store error answers 500 and changes nothing |
| SchedulingRoutes.EditTemplateAnswersStoredRow | pasta_do_git/server/src/routes/scheduling.ts:197-209 | the answer is a stored row, under the bot the body names |
| SchedulingRoutes.DeleteTemplate | pasta_do_git/server/src/routes/scheduling.ts:218-234 | removes exactly the templates with that id and keeps every other one as often as it occurred |
| SchedulingRoutes.DeleteTemplateSplits | pasta_do_git/server/src/routes/scheduling.ts:218-234 | deleting from a table split in two deletes from each part, the parts kept in order |
| BotRoutes.ListBots | pasta_do_git/server/src/routes/bots.ts:9-26 | every bot with its config, or 500 when the store fails |
| BotRoutes.ListAgreesWithGet | pasta_do_git/server/src/routes/bots.ts:9-73 | the list's entry for a bot is what the single-bot route answers |
| BotRoutes.CreateBot_ | pasta_do_git/server/src/routes/bots.ts:29-61 | 400 without a name; otherwise bot, config and connection in order, a failure answering 500 with earlier writes kept |
| BotRoutes.CreateKeepsRowsWhenSetupFails | pasta_do_git/server/src/routes/bots.ts:38-59 | a connection setup failure leaves the bot and config stored |
| BotRoutes.CreatedBotReadsBack | pasta_do_git/server/src/routes/bots.ts:29-73 | a created bot is found by the single-bot route with the defaults |
| BotRoutes.GetBot | pasta_do_git/server/src/routes/bots.ts:64-73 | the bot with its config, or 404 on any failure |
| BotRoutes.DeleteBot_ | pasta_do_git/server/src/routes/bots.ts:76-91 | the connection is destroyed first; 204 exactly when the store delete works |
| BotRoutes.DeleteAlwaysDisconnects | pasta_do_git/server/src/routes/bots.ts:81 | after delete the bot has no connection, whatever the store did |
| BotRoutes.ResetQr | pasta_do_git/server/src/routes/bots.ts:94-110 | destroy then create; 200 on success, 500 when setup fails |
| BotRoutes.ResetGivesFreshConnection | pasta_do_git/server/src/routes/bots.ts:100-105 | after a reset the bot has a new CONNECTING socket without QR |
| BotRoutes.Toggled | pasta_do_git/server/src/routes/bots.ts:122 | ONLINE becomes PAUSED; every other status becomes ONLINE |
| BotRoutes.Toggle | pasta_do_git/server/src/routes/bots.ts:113-138 | the stored status flips as above and the stored bot is answered; any store failure is 500 |
| BotRoutes.ToggleTwice | pasta_do_git/server/src/routes/bots.ts:113-138 | toggling twice restores ONLINE and PAUSED, and leaves an OFFLINE or SYNCING bot PAUSED |
| Boot.RequestQr | pasta_do_git/server/src/index.ts:56-75 | re-publishes a held QR; creates a connection when there is none; otherwise nothing |
| Boot.RequestQrWaitsForQr | pasta_do_git/server/src/index.ts:56-75 | a repeated request waits for the socket's QR, then re-publishes exactly it |
| Boot.Restore | pasta_do_git/server/src/index.ts:90-106 | exactly the ONLINE and PAUSED bots whose setup works gain a connection; existing ones are kept |
| Upload.AsWrittenRejectsDocAndXls | pasta_do_git/server/src/routes/upload.ts:29-33 | the filter as written refuses .doc and .xls with their standard mimetypes |
| Upload.AcceptsTable | pasta_do_git/server/src/routes/upload.ts:29-33 | the corrected filter accepts every extension the scheduler can send with its mimetype |
| Upload.AcceptsWidens | pasta_do_git/server/src/routes/upload.ts:29-33 | the corrected filter accepts everything the written one does |
| Upload.StoredName | pasta_do_git/server/src/routes/upload.ts:16-18 | the stored name is the unique suffix immediately followed by the original extension |
| Upload.StoredNameStaysInDirectory | pasta_do_git/server/src/routes/upload.ts:16-18 | the stored name has no '/' |
| Upload.UploadFile | pasta_do_git/server/src/routes/upload.ts:22-64 | no file is 400; a refused or oversized file is 500; otherwise url, name, size and mimetype |
| Upload.UploadedUrlKeepsExtension | pasta_do_git/server/src/routes/upload.ts:18-52 | the returned url has the uploaded file's extension, so the scheduler picks its mimetype |

## Left out

- The scheduler's cron timer and concurrency: one tick is a function of the table, with one clock for the whole tick.
- Time zones and daylight saving: dates are local calendar dates, and the time of day is milliseconds since midnight.
- JSON and Buffer (de)serialisation of auth state, and the protobuf conversion of app-state keys: the conversion is a parameter.
- The socket's configuration options (browser, logger, version fetch): only whether setup throws is modelled.
- Lower-casing outside ASCII: `ToLower` maps only 'A'-'Z'.
- `path.join` with the server directory: the attachment url is the path tested for existence.
- The send oracle: it is keyed by the outbound message, so two identical sends in one tick behave alike.
- Store failures of the scheduler's status updates and recurring inserts: the source awaits them but never reads their `error` result, so a failure is silently ignored (the insert is even followed by a "Created recurring message" log line). The model treats them as succeeding.
- `Promise.all` in the bot list: it is read as sequential, and any config failure answers 500.
- The config, AI and health routes, the web UI and the AI model's internals: they are not part of this model.
- The schema default of `ignore_groups`: the schema is not part of this model, so it is a parameter of bot creation.
- A store failure between the two queries of a message edit: the lookup and the update see the same store.
- AuthState.KeysSetLastWins: `keys.set` issues its writes concurrently and awaits them together, so when two entries name one row (`sender-key`/`memory-x` and `sender-key-memory`/`x` both name `sender-key-memory-x`) the source does not decide which lands last. The lemma fixes the listed order; `KeysSetDistinct` and `KeysSetOrderFree` state what holds in every order.
- Sessions.Create: each handler is modelled as running to completion. In the source, `createConnection` tests for an entry (`server/src/baileys/BaileysManager.ts` line 37) and inserts one (line 83) with two awaits in between (lines 43 and 46). Two overlapping calls, such as two `request-qr` events or the start-up restore overlapping one, can both build a socket. The second insert then replaces the first entry, the first socket stays alive with its listeners, and its later close deletes the newer entry. This race is not modelled.
- Unhandled rejections in the socket listeners: nothing catches them, and under Node's default policy an unhandled rejection ends the server process. In `connection.update` they come from a throwing status write (`server/src/baileys/BaileysManager.ts` lines 114 and 124) and from a failing re-create started by the 1000 ms timer (line 112); in `messages.upsert`, an empty batch makes `m.messages[0].message` (lines 139-140) throw a TypeError. The model shows only that the status is not published, that the re-create is a scheduled effect, and that an empty batch gets no reply; the process-level outcome is not modelled.
- SchedulingRoutes.EditTemplate: an edit body's `id` is not patchable in the model (`...updates` would copy it too); a changed `id` would break the table's unique ids.
- SchedulingRoutes.MergeTemplateTakesPatch: keeps the id for the same reason; the source would copy an `id` given in the body.
- SchedulingRoutes.MergeTakesPatch: an edit body's `id` and `created_at` are not patchable in the model (`...updates` would copy them too); a changed `id` would break the table's unique ids, which the store enforces with an error that is not modelled.
- BotRoutes.ListBots: the order by `created_at` is not modelled, because bots are a map keyed by id.
- Http.Response: the text of an error thrown by the store (`error.message`) is not modelled. `Raised` carries only the status code.
- Errors raised by multer (a refused type, a file over the size limit): Express's default handler answers them, shown as `Raised(500)`.
- The unique suffix of an uploaded file name (time and random number): it is a parameter.
- Upload.UploadFile: it uses the corrected filter (see Findings). `Upload.AcceptsAsWritten` is the filter as written.
- The emitted socket events carry the bot id and payload only; Socket.IO delivery is not modelled.

## Findings

| source | as written | input that shows it | evidently intended | confidence | as-written member | corrected member |
|---|---|---|---|---|---|---|
| pasta_do_git/server/src/routes/upload.ts:29-33 | the regex of alternatives pdf, jpg, jpeg, png, doc, docx, xls, xlsx must also match the raw mimetype | a file `a.doc` with mimetype `application/msword`, or `a.xls` with `application/vnd.ms-excel`: no token occurs in either mimetype, so the file is refused | every type the scheduler can send (scheduler.ts:104-110) is accepted, .doc and .xls included | not executed | Upload.AsWrittenRejectsDocAndXls | Upload.AcceptsTable |
