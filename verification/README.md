# Telegram ticket bot for SmartPanel — Dafny model

`ticketbot.php` is one PHP script with two modes.

- **Webhook mode.** When the request body is a Telegram update carrying a `message`, the script handles the admin's reply to an alert. The reply must come from the admin's chat, must reply to a known alert, and must have text. The script then resolves the ticket through the correlation map and writes the reply into the SmartPanel database:
  - an admin message is inserted;
  - the ticket is marked answered;
  - the customer's messages are marked read.
- **Cron mode.** Otherwise, the script selects the tickets that are `pending` or `customer-reply`, each with its newest customer message. It sends one Telegram alert per ticket state whose marker is not set in the map it loaded at start-up. That map holds only what the previous run recorded, so a state alerted two runs ago is alerted again (see "## Findings"). It then writes a fresh correlation map to `telegram_ticket_map.json`.

The correlation map is a PHP array saved with `json_encode`. It is written as a JSON object, except that an empty map is written as `[]`, which reads back as an empty array. It maps each alert's Telegram message id to its ticket id. It also holds one dedup marker, `alerted_<ticket>_<latest message id | initial>`, per ticket state that was alerted.

The model follows the script's structure, one module per concern.

| module | file | what it holds |
|---|---|---|
| `Wrappers` | `wrappers.dfy` | `Option` |
| `Text` | `text.dfy` | PHP `trim()` with its default character list, string truthiness for `?:`, decimal spelling of integers |
| `CorrelationMap` | `correlation_map.dfy` | typed keys and values, the JSON key spelling and its decoding, `Load` with its fallbacks, `Save` |
| `TicketStore` | `ticket_store.dfy` | the three tables, the scan query, the three writes of a reply |
| `ReplyHandler` | `reply_handler.dfy` | the webhook guard and the reply's effects |
| `Notifier` | `notifier.dfy` | the cron loop as a fold over the selected rows and the send outcomes |
| `TicketBot` | `ticketbot.dfy` | one invocation (load, dispatch, persist) and properties across invocations |

Inputs the script reads from the outside world are parameters of the model:

- the map file's decoded content (`MapFile`);
- the decoded request body (`Option<Update>`);
- the database tables (`Db`);
- the answer to each Telegram send, as `outcomes[i]` for the `i`-th selected row. `Some(id)` means the response had `ok` set; a missing entry is a failed send.

The script's own comment on the map file (line 24) says the file is there to prevent duplicate Telegram alerts. The code does not achieve that across runs: it builds `$newMap` from empty (line 163) and overwrites the file with it (line 216). The model follows the code. `Notifier.Notify` and `TicketBot.Scan` are the script as written. The consequence is recorded under "## Findings", next to the corrected pass `Notifier.NotifyAccumulating` and the corrected scan `TicketBot.ScanAccumulating`. The corrected scan never re-alerts a state it delivered (`Notifier.AccumulatingNeverRealerts`). Replies to earlier alerts still resolve after it (`TicketBot.ReplyKeptAfterAccumulatingRun`).

The scan query has an `INNER JOIN` on `general_users`. The model keeps it: a ticket whose owner is missing from `general_users` is not selected, even when its status needs attention.

## Model

| member | source | states |
|---|---|---|
| Text.Trim | ticketbot.php:64 | The trimmed text neither starts nor ends with a space, tab, newline, carriage return, NUL or vertical tab. It is empty exactly when the input consists only of those characters. |
| Text.TrimIsSlice | ticketbot.php:64 | The trimmed text is one contiguous piece of the input. Everything cut off before and after it is trimmable. |
| Text.TrimUntrimmed | ticketbot.php:168 | `trim` leaves a string unchanged when its first and last characters are not whitespace. |
| Text.IntToDecimalFalsy | ticketbot.php:169 | An integer's decimal spelling is falsy for `?:` exactly when the integer is zero. |
| Text.ParseIntToDecimal | ticketbot.php:209 | The decimal spelling PHP writes for an integer key reads back as that integer. |
| Text.ParseIntCanonical | ticketbot.php:43-45 | A key string reads as an integer only in its canonical spelling. "007", "-0" and "+1" are not integer keys. |
| CorrelationMap.Load | ticketbot.php:43-49 | A missing file, or one that does not decode to an array, gives the empty map. Otherwise a key is present exactly when the file has an entry under that key's spelling, with that entry's value. |
| CorrelationMap.Save | ticketbot.php:216 | Every entry of the map is written under its key's spelling, with its value. |
| CorrelationMap.SaveOnlyKeys | ticketbot.php:216 | Every entry of the written file is the spelling of a key of the map. Nothing else is written. |
| CorrelationMap.SaveSize | ticketbot.php:216 | The file has exactly one entry per map entry: no two keys collide. |
| CorrelationMap.LoadSave | ticketbot.php:216 | Loading a saved map gives back exactly that map. |
| CorrelationMap.DecodeEncodeKey | ticketbot.php:209-210 | Message-id keys and `alerted_<ticket>_<ref>` marker keys decode back to the key they were built from. |
| CorrelationMap.EncodeDecodeKey | ticketbot.php:209-210 | Any string that decodes is exactly the spelling of the key it decodes to. |
| CorrelationMap.EncodeKeyInjective | ticketbot.php:209-210 | Distinct keys have distinct spellings, so a message id never clashes with a marker. |
| TicketStore.LatestCustomerMessage | ticketbot.php:135-148 | The result is absent exactly when the ticket has no customer (`support = 0`) message. Otherwise it is one of the ticket's customer messages, with the largest id among them. |
| TicketStore.SelectRows | ticketbot.php:127-153 | Each row comes from a ticket whose status is `pending` or `customer-reply` and whose owner exists in `general_users`. Every such ticket yields a row. There are at most as many rows as tickets. |
| TicketStore.SelectRowsDistinct | ticketbot.php:127-153 | When ticket ids are unique, as the primary key makes them, no two rows are about the same ticket. So no ticket is alerted twice in one run. |
| TicketStore.SelectedRowShape | ticketbot.php:135-151 | A selected row's status needs attention. Its latest message and message id are both present or both absent. Absent means the ticket has no customer message. Present means they come from the newest customer message. |
| TicketStore.NextMessageId | ticketbot.php:74-77 | The id of an inserted message is positive and larger than every existing message id. |
| ReplyHandler.HandleReply | ticketbot.php:60-114 | The answer is always `OK`. A message causes no write and no confirmation exactly when the chat is not the admin's, the reply-to id is missing or zero, the trimmed text is empty, or the reply-to id is not set in the map. Otherwise three writes follow, in order: insert, mark answered, mark read. They target the mapped ticket and carry the trimmed text, and one confirmation goes back to the admin. |
| ReplyHandler.ReplyEffectsOnDb | ticketbot.php:71-103 | After the three writes, tickets with that id are `answered` and read by the admin. That ticket's customer messages are read. One admin message with the text and a fresh id is appended. Nothing else changes. |
| ReplyHandler.AnsweredTicketLeavesScan | ticketbot.php:84-93 | After a reply is written, the next scan no longer selects that ticket. |
| Notifier.RefOfSpelling | ticketbot.php:169 | The reference written into a marker follows PHP's `?:` on the id's decimal spelling: it is `initial` when the id is missing or its spelling is falsy, and otherwise it is that spelling. |
| Notifier.AlertBodyFromDb | ticketbot.php:135-169 | For a selected ticket, the alert's text is the ticket's newest customer message, trimmed. When the ticket has no customer message, or that message is empty or "0", the text is the trimmed description. The dedup key still names the newest message id, or `initial` when there is none. |
| Notifier.AlertIff | ticketbot.php:173-203 | The alerts of a pass are exactly the alerts of the rows whose marker is not set in the loaded map. |
| Notifier.LoginRowAlert | ticketbot.php:167-184 | A first run over pending ticket 42, which has no customer message, sends one alert: ticket 42, Jane Doe, user@example.com, subject "Login", text "Cannot log in". |
| Notifier.NotifyFrom | ticketbot.php:162-214 | Every entry the loop adds either maps a message id to a ticket, or sets to `true` a marker that was not set in the loaded map. The counter never exceeds the number of alerts sent, which never exceeds the number of rows. |
| Notifier.AttemptsInOrder | ticketbot.php:166-203 | The alerts the loop sends are exactly the rows whose marker is not set in the loaded map, in row order, one per such row. |
| Notifier.Notify | ticketbot.php:162-216 | The counter never exceeds the alerts sent, which never exceed the rows. Every saved entry maps a message id to a ticket or sets a marker to `true`. No marker it holds was set in the loaded map. |
| Notifier.SavedFromThisPass | ticketbot.php:163-212 | The saved map holds only what this pass recorded. Every message id in it was returned by a delivered send of this pass, and every marker in it belongs to a row this pass delivered, so nothing of the loaded map is carried over. |
| Notifier.MarkerIff | ticketbot.php:173-211 | A marker is in the built map exactly when it was in the starting map, or some delivered row has that dedup key. A delivered marker is set to `true`. A marker that no delivered row wrote keeps its starting value. |
| Notifier.MsgIdIff | ticketbot.php:207-210 | A message id is in the built map exactly when it was in the starting map, or some delivered row's send returned it. |
| Notifier.MsgIdResolves | ticketbot.php:208-209 | The message id returned for a delivered row maps to that row's ticket, unless a later delivered row got the same id back. |
| Notifier.MsgIdKeeps | ticketbot.php:208-209 | A message id already in the start map keeps its ticket, unless a delivered send returned the same id. |
| Notifier.SentCount | ticketbot.php:162-211 | `$sent` equals the number of delivered rows: rows that were not skipped and whose send succeeded. |
| Notifier.AttemptIff | ticketbot.php:173-203 | An alert is sent for a row exactly when its marker is not set in the loaded map. |
| Notifier.AllSkippedSavesEmpty | ticketbot.php:163-216 | A pass that skips every row sends nothing and saves the empty map. |
| Notifier.SavedMarksDelivered | ticketbot.php:163-216 | The saved map marks a ticket state exactly when this pass delivered a row with that dedup key. |
| Notifier.ThirdRunRealerts | ticketbot.php:163-216 | The same unchanged ticket, with every send succeeding, is alerted on the first cron run, skipped on the second and alerted again on the third. |
| Notifier.NotifyAccumulating | ticketbot.php:163 | The corrected pass starts from the loaded map. It keeps every marker the loaded map had set, and marks every row it delivered. It keeps every earlier message id, with its ticket unless a send of this pass returned the same id. |
| Notifier.AccumulatingNeverRealerts | ticketbot.php:163-175 | With the corrected pass, a ticket state delivered in one run is skipped in every later run. |
| TicketBot.Run | ticketbot.php:43-60 | Webhook mode is taken exactly when the decoded body has a `message`, and then the answer is `OK`. In cron mode, the written file loads back as the map the pass built. |
| TicketBot.Scan | ticketbot.php:162-216 | The written file loads back as the built map. The alerts sent are exactly the selected rows whose marker is not set in the loaded file, in order, one per row. No marker that was already set is recorded again. |
| TicketBot.NextRunSkipsOnlyDelivered | ticketbot.php:173-216 | After a cron run, the next run skips a row exactly when this run delivered a row with the same dedup key. Rows this run skipped are alerted again. |
| TicketBot.NewCustomerMessageRealerts | ticketbot.php:135-173 | A customer message added to a selected ticket after a cron run has a fresh id. The ticket's row then carries that id and is selected, and the next run does not skip it. |
| TicketBot.QuietRunForgets | ticketbot.php:163-216 | A cron run that finds every selected row already marked sends nothing and writes a file that loads as the empty map. Every selected row is then alerted by the next run. |
| TicketBot.ReplyResolvesAfterRun | ticketbot.php:67-71 | Suppose the admin replies, with non-blank text, to the alert a cron run delivered for a row. If the message id is non-zero and unique within the run, the next invocation writes the reply into that row's ticket. |
| TicketBot.ReplyResolvesFrom | ticketbot.php:67-71 | The same holds for any map file that loads as the map the scan built. |
| TicketBot.ReplyLostAfterQuietRun | ticketbot.php:67-69 | After a cron run that skipped every row, any reply is dropped: no write and no confirmation. |
| TicketBot.ScanAccumulating | ticketbot.php:163-216 | With the fix, the written file loads back as the built map. It keeps every marker that was set and marks every delivered row. Earlier message ids keep their tickets, unless a send of this run returned the same id. |
| TicketBot.AccumulatingRunKeepsSkips | ticketbot.php:163-175 | With the fix, any row that was skipped or delivered is skipped by the next run. |
| TicketBot.ReplyKeptAfterAccumulatingRun | ticketbot.php:67-71 | With the fix, a reply with non-blank text to an alert recorded in the loaded map is still written into that alert's ticket after the next cron run, unless a send of that run returned the same message id. |
| TicketBot.ReplyKeptAfterQuietAccumulatingRun | ticketbot.php:67-71 | With the fix, a reply with non-blank text to an alert recorded in the loaded map is still written into that alert's ticket after a cron run that skipped every row. As written, `ReplyLostAfterQuietRun` shows such a reply is dropped. |
| TicketBot.MarkerSpelling | ticketbot.php:171-210 | The marker for ticket 42 without messages is `alerted_42_initial`, and with latest message 1001 it is `alerted_42_1001`. A message-id key is spelled as its plain decimal, so Telegram id -7 is stored under `-7`. |

## Left out

- The MySQL connection, SQL execution and the `die` paths on connection or query failure. Tables are in-memory values, and a write is an `Effect` applied to them.
- Telegram HTTP calls. A send is modelled as its outcome, given as a parameter. The confirmation after a reply is fire-and-forget and is modelled only as its content (chat, ticket, text).
- JSON text. A ticket id is stored in the file as a string and read back with `(int)`. The model stores it as an integer.
- The Markdown layout and emoji of the alert text. `Alert` keeps only the fields that go into it.
- Timestamps (`NOW()`, `date`), `echo` output, headers and `ini_set`.
- `ORDER BY t.changed DESC`. Rows come in table order. Only `Notifier.MsgIdResolves` and the lemmas built on it depend on the order: when two delivered sends return the same message id, the later row's ticket wins. `Notifier.MsgIdResolves` holds for any sequence of rows. `TicketBot.ReplyResolvesAfterRun` and `TicketBot.ReplyResolvesFrom` take `SelectRows(db)` in table order: their premise that no later delivered row got the same id is about that order, not about `ORDER BY t.changed DESC`.
- MySQL collations. `t.status IN ('pending', 'customer-reply')` compares strings under the column's collation, and MySQL's default collations ignore case (`general_ci` also ignores trailing spaces). The model assumes statuses are stored in exactly the spellings `pending`, `customer-reply` and `answered`. It does not model case folding, so a stored `Pending` is an `OtherStatus` and is never selected.
- MySQL's auto-increment is modelled as one more than the largest existing message id.
- Races between overlapping cron runs. The script has no locking, and the model is sequential.
- PHP integers are 64-bit. PHP keeps a numeric key beyond `PHP_INT_MAX` as a string key, and `(int)` saturates, while the model reads any canonical decimal as an unbounded integer (`Text.ParseInt`). Telegram message ids and ticket ids stay far below that bound, and no property here depends on it.
- Notifier.MapBefore: chains each cron run's built map directly into the next run rather than through `Save` and `Load`. `CorrelationMap.LoadSave` shows the two are equal.

## Findings

| source | as written | input that shows it | evidently intended | confidence | as-written member | corrected member |
|---|---|---|---|---|---|---|
| ticketbot.php:163 | `$newMap` starts empty and replaces the loaded map on save. A cron run that skips a ticket drops its marker, and the message ids of earlier alerts. | One `pending` ticket 42 with no messages, and three cron runs in which every send succeeds. Runs 1 and 3 alert it; run 2 saves an empty map. After run 2, replies to the run-1 alert are dropped. | The map keeps earlier entries and adds the new ones, so an unchanged ticket state is alerted once and earlier alerts stay answerable. | not executed | Notifier.ThirdRunRealerts | Notifier.AccumulatingNeverRealerts |
