# Slack send: a model of the scheduling handler

This project models the slash-command and sweep core of `handler.js`. That file is the
Lambda handler of a Slack app that schedules messages.

- A user types `/send <text> <date>` to schedule a message.
- `/slist` or `/send list` lists the user's pending messages. Adding `inline` lists them in
  the channel.
- `/sdelete <id>` or `/send delete <id>` deletes a pending message.

The modelled steps, in the handler's order:

- `slack_command` routes the payload on its command and on the first two words of its
  trimmed text.
- `send_message_helper` runs the schedule path:
  - takes the last date expression the parser finds (`parse_date`);
  - checks that some text remains before that date;
  - checks the payload's verification token (`validate_payload`);
  - checks that the user holds an active access token (`check_token`);
  - only then writes a row, keyed by the UTC day and by `ISO instant,id`
    (`persist_scheduled_message`).
- `list_messages_helper` and `delete_message_helper` read the messages table through the
  owner-scoped queries.
- `scheduled_event` is the sweep. It reads today's bucket and hands every pending, due,
  valid row to `slack_post_message`. That call checks the owner's token again, posts the
  row with it and deletes the row once Slack answers `ok`. What invokes the sweep, and how
  often, is deployment configuration outside `handler.js`; the model describes one run at
  a given instant.

The modules follow the handler's layers:

| module | models |
|---|---|
| `JsText` | the JavaScript string operations the handler relies on: `trim`, `split(' ')`, `toLowerCase`, `substring`, truthiness |
| `Clock` | instants, `toISOString`, the `YYYY-MM-DD` day key, and `new Date(iso)` on the stored form |
| `DateParse` | `parse_date` over the spans the date parser reports |
| `Slack` | payloads, reply bodies, attachments and the fixed reply texts |
| `Credentials` | the tokens table and `check_token` |
| `Messages` | the messages table as the class `MessageTable`, with its writes and its three queries |
| `Routing` | the routing of `slack_command` |
| `Commands` | the schedule, list and delete helpers and `slack_command` itself |
| `Sweep` | `scheduled_event` and `slack_post_message` |

The outside world enters as parameters:

- The date parser's spans, the fresh id and the clock come in an `Externals` record.
- The tokens table is a sequence of rows, or `None` when its query rejects. In the sweep
  every post makes its own token query, so the sweep gets one such answer per row key
  (`Sweep.TokenAnswers`).
- Whether each read or write of the messages table succeeds is a boolean.
- The answer of Slack and of the store for each swept row is an `outcome` function.

A scheduler of this kind could bucket messages by their New York day and mark each row
delivered with a conditional write before posting it. `handler.js` does neither, and the
model follows the code:

- **Day bucket.** The day bucket is the UTC date of the instant. The code formats it with
  `moment.utc`, not in the New York zone.
- **No delivered state.** There is no conditional "mark delivered" step. A row is deleted
  after an `ok` post. When that delete fails, the row is posted again by every later sweep
  of the same day, as long as its token query still grants a token. Delivery is therefore at least once, and
  `Sweep.FailedDeleteRepeats` proves that duplicates happen. At-most-once delivery is
  not claimed.
- **Midnight.** The sweep reads only the bucket of the current UTC day. A message still
  pending when its day ends is never posted (`Sweep.SweptOnlyOnItsDay`). If sweeps run a
  minute apart, a message due in the last seconds of a day can fall between the last sweep
  of that day and the first of the next (`Sweep.MidnightMiss` takes a sweep 30 seconds
  after midnight).
- **Overwrites.** Persisting is an `updateItem` that sets every attribute of the row. A
  row under the same key is replaced, not refused.

## Model

| member | source | states |
|---|---|---|
| `JsText.Trim` | handler.js:834 | the trimmed text has no ECMAScript whitespace at either end, is no longer than the input, and is empty exactly when the input is all whitespace |
| `JsText.TrimOffset` | handler.js:180 | the trimmed text occurs in the input at the returned offset, with only whitespace before and after it |
| `JsText.TrimIdempotent` | handler.js:859 | trimming twice is trimming once, so the handler's second `trim` on the delete path changes nothing |
| `JsText.Split` | handler.js:837 | `split(' ')` yields at least one piece and no piece holds a space |
| `JsText.JoinSplit` | handler.js:837 | joining the pieces with single spaces gives the text back: splitting loses nothing |
| `JsText.SplitJoin` | handler.js:837 | splitting a join of space-free pieces gives back exactly those pieces, empty ones included |
| `JsText.ToLower` | handler.js:838 | `toLowerCase`, character by character, on the first token (also handler.js:852, on the second); only ASCII letters change |
| `JsText.Prefix` | handler.js:180 | `substring(0, n)` is a prefix of the text, clamped to its length |
| `Clock.Ymd` | handler.js:147-156 | the day key `YYYY-MM-DD` of an instant, by its UTC date; `Clock.SameYmd` and `Clock.YmdPrefixOfIso` state its properties |
| `Clock.IsoString` | handler.js:131-142 | `toISOString`: the 24-character `YYYY-MM-DDTHH:mm:ss.SSSZ` form of an instant; `Clock.ParseIsoString` proves it reads back |
| `Clock.ParseIso` | handler.js:579 | `new Date(iso)` on the stored string, as the listing and the sweep call it (also handler.js:776); an invalid date for any other form |
| `Clock.NumberPad` | handler.js:131-157 | a zero-filled decimal field of the ISO or day string reads back as its value |
| `Clock.YmdPrefixOfIso` | handler.js:131-157 | the day key is 10 characters long, the ISO string is 24, and the day key is the ISO string's prefix |
| `Clock.ParseIsoString` | handler.js:131-142 | `new Date` of the stored ISO string recovers the instant |
| `Clock.SameYmd` | handler.js:147-157 | two instants share a day key exactly when they fall on the same UTC date |
| `Clock.AtOrBefore` | handler.js:780 | `iso.getTime() <= now.getTime()` on valid instants: the order of the date and time fields, year first |
| `Clock.AtOrBeforeTransitive` | handler.js:780 | the `getTime() <=` order the sweep uses is transitive |
| `Clock.NoCommaInIso` | handler.js:340 | no comma occurs in an ISO string, so the first comma of a sort key separates the instant from the id |
| `DateParse.ParseDate` | handler.js:173-196 | no span gives no date; otherwise the date is the last span's instant, and the body is the trimmed text before that span, no longer than the span's index, and empty exactly when that prefix is all whitespace |
| `DateParse.BodyBeforeLastSpan` | handler.js:180 | the body occurs in the text and ends at or before the last span's start |
| `DateParse.LastSpanWins` | handler.js:177-178 | earlier date expressions do not change the result: only the last span counts |
| `DateParse.TrailingTextIgnored` | handler.js:180 | text appended after the last span's start does not change the result |
| `DateParse.OneTrailingDate` | handler.js:173-196 | a body followed by one date expression parses to that date and the trimmed body |
| `Slack.ValidatePayload` | handler.js:246-259 | a payload is valid exactly when its verification token equals the app's token |
| `Credentials.QueryToken` | handler.js:270-292 | the query returns exactly the rows of the team and user, and no more rows than the table holds |
| `Credentials.FirstMatch` | handler.js:302-305 | the first row the query returns is the user's first row in the table |
| `Credentials.CheckToken` | handler.js:296-326 | a rejected query gives `QueryFailed`; a token is granted exactly when the user's first row is active (`state == -1`), and the granted token is that of an active row of the user |
| `Credentials.Authorized` | handler.js:509 | the caller's `if(access_token)` (also handler.js:710): a granted token counts only when it is non-empty |
| `Credentials.ActiveFirstRowGrants` | handler.js:304-312 | a user whose first row is active is granted that row's access token |
| `Credentials.InactiveFirstRowDenies` | handler.js:304-316 | a user whose first row is inactive is denied, whatever later rows say |
| `Messages.NewRow` | handler.js:334-365 | the row `persist_scheduled_message` writes; `Messages.NewRowShape` states what it holds |
| `Messages.Matches` | handler.js:439-479 | the key conditions and filters of the three queries: team and id with the user filter (handler.js:439-440), team and user (handler.js:459), and the day with `begins_with(date_id, :ymd)` (handler.js:479) |
| `Messages.Enumerates` | handler.js:427-486 | a query's answer: exactly the matching rows of the table, each key once, in some order |
| `Messages.CommaIndex` | handler.js:340 | the index of the first comma of a string, or its length when it has none |
| `Messages.SplitDateIdOf` | handler.js:340 | a sort key `ISO,id` splits back at its first comma into the ISO string and the id |
| `Messages.NewRowShape` | handler.js:330-373 | the row written is pending, carries the payload and the id, has the owner and channel of the payload, has a sort key that starts with the day key and splits into the ISO string and the id, and has an ISO string that parses back to the date |
| `Messages.DayQueryNeedsOnlyYmd` | handler.js:470-486 | for rows the handler writes, the `begins_with(date_id, :ymd)` condition adds nothing to `ymd = :ymd` |
| `Messages.NewRowIsFound` | handler.js:427-486 | a persisted message is found by its owner's query, by its owner's id lookup and by the query of its day |
| `Messages.IdLookupIsOwnerScoped` | handler.js:427-447 | the id lookup of another user of the team never finds the row |
| `Messages.MessageTable.constructor` | handler.js:25 | the table starts empty and keeps every row under its own key |
| `Messages.MessageTable.Persist` | handler.js:330-373 | a successful write stores the new row under its key and replaces any row there; a rejected write changes nothing; the stored id is echoed exactly when the write succeeds |
| `Messages.MessageTable.Delete` | handler.js:409-424 | a successful delete removes the key (an absent key is no error) and a rejected one changes nothing |
| `Messages.MessageTable.Query` | handler.js:427-486 | a rejected read gives `None`; otherwise the result holds every row of the table that matches the query shape and nothing else, each key once |
| `Routing.CommandText` | handler.js:834 | the payload text trimmed, or empty without text; it has no whitespace at its ends and is empty exactly when the text is absent or all whitespace |
| `Routing.Command2` | handler.js:837-838 | the first token lower-cased: as long as the first piece of the split and free of spaces |
| `Routing.Command3` | handler.js:837-839 | present exactly when the split has a second piece, and then that piece, free of spaces |
| `Routing.DeleteId` | handler.js:864-868 | the id to delete is the whole text, or the non-empty second token after `delete` |
| `Routing.RouteOf` | handler.js:822-884 | `/slist` or `/send list` lists; otherwise `/sdelete` or `/send delete` deletes or asks for the id; otherwise `/send` shows help exactly when its text is empty or its first word is `help`, and schedules otherwise; every other command gets no reply. A listing goes to the channel exactly when the text is `inline` or the first word is `list` and the second `inline` in any case; a delete acts on the second token after `delete` when it is non-empty and on the whole text otherwise; a schedule request carries the trimmed text |
| `Routing.DeleteIdChoice` | handler.js:859-868 | a delete command asks for the id exactly when its text is empty and deletes otherwise; the id is non-empty and is the whole text or the second word after `delete`, and it is that second word whenever the first is `delete` and the second is non-empty |
| `Routing.ScheduleOnlyForOtherText` | handler.js:872-878 | `/send` schedules exactly when its trimmed text is non-empty and its first word is none of `list`, `delete` or `help`, and then it schedules that text |
| `Routing.SplitTwoWords` | handler.js:837-839 | two space-free words joined by a space split back into those words |
| `Routing.TwoWords` | handler.js:834-839 | for such a text, the first token is the first word lower-cased and the second token is the second word as typed |
| `Routing.SendDeleteSelectsId` | handler.js:856-868 | `/send delete <id>`, with `delete` in any letter case, deletes the given id |
| `Routing.SlashDeleteUsesWholeText` | handler.js:856-868 | `/sdelete <text>` deletes the whole text unless its first word is `delete` |
| `Routing.BareSendDelete` | handler.js:856-868 | `/send delete` with nothing after it deletes the id `delete` |
| `Routing.DoubleSpaceDelete` | handler.js:837-868 | `/send delete  abc` with two spaces has an empty, falsy second token, so the whole text is the id |
| `Routing.ListInline` | handler.js:849-855 | `/send list inline`, both words in any letter case, lists in the channel |
| `Routing.SlashListInline` | handler.js:849-855 | `/slist inline` lists in the channel |
| `Routing.SlashListUpper` | handler.js:852 | `/slist INLINE` stays private, because the whole text is compared as typed |
| `Routing.SendWithoutText` | handler.js:872-876 | `/send` without text shows help |
| `Routing.SendHelpWord` | handler.js:872-876 | `/send help <word>`, with `help` in any letter case, shows help instead of scheduling |
| `Routing.SlashDeleteWithoutText` | handler.js:859-862 | `/sdelete` without text asks for the id |
| `Commands.ScheduleReply` | handler.js:497-559 | the reply of each branch of the schedule path: its error text, or the acknowledgement with the stored id; `Commands.SendMessage` and `Commands.OnTokenChecked` are proved to send it |
| `Commands.AckAttachment` | handler.js:514-521 | the acknowledgement attachment: the channel as author, the formatted date as title, the cleaned text, and a footer quoting the stored id |
| `Commands.Decide` | handler.js:494-561 | each branch of the schedule path holds exactly when its condition holds, in the order the handler tests them: no date, no body, bad payload token, rejected credential query, then no usable token; a store decision carries the last span's date and the payload with its cleaned text |
| `Commands.TokenDecision` | handler.js:508-536 | after `check_token`, a rejection is a generic error; a granted, non-empty token stores; anything else is a missing token |
| `Commands.SendMessage` | handler.js:494-561 | the reply and the table change are those of the decision: a row is written only on the store branch and only when the write succeeds; every other branch writes nothing and sends its own error text |
| `Commands.OnTokenChecked` | handler.js:508-536 | the continuation of `check_token` persists and acknowledges with the stored id, or reports the failure, as the decision says |
| `Commands.StoredMessageRoundTrip` | handler.js:505-522 | a stored message is found by its owner's id lookup, is pending and listed, keeps its channel and its non-empty cleaned text, keeps an instant that parses back, and is acknowledged with a footer that quotes its id |
| `Commands.RejectedRequestWritesNothing` | handler.js:501-550 | without a date, a body, a valid payload token or a usable credential, nothing is written and no acknowledgement is sent |
| `Commands.StoredDate` | handler.js:579-580 | the listing title `get_date_formatted(new Date(iso_date))`, or an invalid-date title when the stored string does not read back |
| `Commands.ListAttachment` | handler.js:586-603 | one listed message: the channel as author, its stored date, its cleaned text, a footer quoting its id, its id as callback, and the Delete button |
| `Commands.Listing` | handler.js:573-608 | the attachments of a sequence of rows, in order: one per pending row whose payload validates; `Commands.ListingShowsListed` and `Commands.RenderListing` state its properties |
| `Commands.RenderListing` | handler.js:570-616 | the attachments are the listing of the pending, valid rows, in order; the text is the warning when some pending row fails validation and the heading otherwise |
| `Commands.ListingShowsListed` | handler.js:583-608 | an attachment is in the listing exactly when it is the attachment of a pending, valid row |
| `Commands.ListingOfSet` | handler.js:565-627 | listing any ordering of the owner's rows shows exactly the listed ones and warns exactly when one is invalid |
| `Commands.ListMessages` | handler.js:565-627 | a rejected read replies with the error text; an owner without rows gets the empty text; otherwise the reply warns exactly when one of the owner's rows fails validation, and its attachments are exactly the listing of some ordering of the owner's rows, so they show exactly the owner's pending, valid rows |
| `Commands.DeleteMessage` | handler.js:631-660 | a rejected lookup, a missing message, a successful delete and a rejected delete each give their own reply; the only row removed is one the owner's id lookup finds, and only when the delete succeeds |
| `Commands.DeleteIsOwnerScoped` | handler.js:631-660 | a delete never touches a row of another owner or with another id |
| `Commands.SlackCommand` | handler.js:822-884 | for each route, the reply and the table change are those of the helper the route selects; list, help and missing-id leave the table alone; an unknown command gets no reply; a missing payload gets the bare ephemeral body |
| `Sweep.Due` | handler.js:776-780 | a row is due when it is pending and its stored instant reads back at or before the sweep's instant |
| `Sweep.Sent` | handler.js:780-784 | a row is sent when it is due, its payload validates and its own token query grants a non-empty token |
| `Sweep.PostOf` | handler.js:711-722 | the `chat.postMessage` of a row: its payload's channel and cleaned text, sent with the token its owner's query grants |
| `Sweep.PostMessage` | handler.js:703-749 | a post is made exactly when the owner holds a usable token, with the payload's channel, its cleaned text and that token; the row is deleted only after an `ok` answer and a successful delete |
| `Sweep.SweepRow` | handler.js:766-789 | a row is posted exactly when it is pending, due, valid and authorized, and removed only when it is posted and deleted |
| `Sweep.ScheduledEvent` | handler.js:757-797 | a rejected read posts nothing and changes nothing; otherwise the posts are, in order, those of the sent rows of some ordering of today's bucket, each checked with its own token query, and the table loses exactly the sent rows whose post and delete succeeded |
| `Sweep.SweepItems` | handler.js:766-790 | walking the bucket's rows in order posts exactly for the rows that are sent, in that order, and removes exactly the keys of the sent rows whose post and delete succeeded |
| `Sweep.DeliveriesOf` | handler.js:766-790 | walking a sequence of rows posts exactly for the rows that are sent |
| `Sweep.RemovedOf` | handler.js:766-790 | walking a sequence of rows removes exactly the keys of the sent rows whose post and delete succeeded |
| `Sweep.WalkStep` | handler.js:766-790 | when the walk has handled the first `n` rows, the posts and the table are those of walking those `n` rows: the `n`-th row adds its post when it is sent and drops its key when it is sent and deleted |
| `Sweep.SweptIsRemoved` | handler.js:757-797 | walking the bucket in any order removes exactly the swept keys |
| `Sweep.DeliveriesOfBucket` | handler.js:757-797 | walking the bucket in any order posts exactly for its sent rows |
| `Sweep.StoredMessageIsDelivered` | handler.js:494-797 | across the schedule path (handler.js:494-561) and the sweep (handler.js:757-797): a message the schedule path stored is posted to its channel with its cleaned text and its owner's token, and its row is removed, by any sweep on its UTC day at or after its instant, as long as the token is still usable and Slack and the store answer ok |
| `Sweep.StoredRowIsSent` | handler.js:769-786 | a valid, authorized row is in its day's bucket and is sent by a sweep of that day at or after its instant |
| `Sweep.SweptOnlyOnItsDay` | handler.js:470-486 | a row is swept only by a sweep on its own UTC date, at or after its instant |
| `Sweep.MidnightMiss` | handler.js:760-761 | a message due 30 seconds before UTC midnight that is still pending is due, yet missed by the sweep just after midnight |
| `Sweep.FailedDeleteRepeats` | handler.js:724-734 | when the delete after an ok post fails, the row stays and every later sweep of the same day sends it again, while its token query still grants a token |
| `Sweep.SweepKeepsUnsentRows` | handler.js:780-789 | rows outside today's bucket, not yet due, invalid, without a token, or not posted and deleted, are kept |

## Left out

- The HTTP envelope and `get_payload`. `slack_command` receives a decoded payload or
  `None`, and replies with a body. The `statusCode`, the headers and the JSON encoding of
  `send_response` are not modelled.
- The JSON round trip of the stored payload (`JSON.stringify` in persist, `JSON.parse` in
  list and sweep). The row holds the payload value itself.
- The date parser. Its result for a text is an input: a sequence of spans, each with its
  start index and its instant, already anchored to the canonical offset. The extra
  attributes besides `clean_text` that the payload carries are not modelled.
- The New York offset (`get_tz_offset`) and its DST behaviour. They only shape the
  parser's instants, which are inputs here.
- Display formatting (`get_date_formatted`). A title is `Formatted(instant)` or
  `InvalidDate`; the text moment produces is not modelled.
- `get_date_ymdh`, which nothing in the core uses.
- `shortid`. The fresh id is an input, and no proof relies on it being unique.
- The clock. `created` and `updated` come from one input value. The sweep reads `now`
  once per run, where the handler re-reads it for every row; the model does not capture
  a row falling due during a sweep.
- Instants outside the years 0 to 9999, where `toISOString` changes format. Invalid
  dates are left out too.
- `Clock.ParseIso` reads only the 24-character form the handler stores. For any other
  string it gives an invalid date, where `new Date` would accept more forms.
- `JsText.ToLower` lower-cases the ASCII letters only. `toLowerCase` also maps non-ASCII
  letters.
- `JsText.Prefix` and the span indexes of `DateParse.ParseDate` count characters. The
  date parser and `substring` count UTF-16 code units, so the two differ for text with
  characters outside the Basic Multilingual Plane, such as emoji.
- The order in which DynamoDB returns query results, and its paging limits. Queries
  return every matching row, each once, in an unspecified order, and the proofs hold for
  any order. The first row of the id lookup is whatever comes first.
- Concurrency. Each invocation is modelled as one atomic step on the tables. The
  handler's fire-and-forget posts and deletes, their interleaving with other
  invocations, and overlapping sweeps are not modelled.
- The Slack Web API and DynamoDB themselves. Their answers are the `outcome` function,
  the `readOk` and `writeOk` booleans, and the token answers.
- `update_scheduled_message`, which nothing calls.
- `slack_actions`, `slack_options`, `slack_events` and the OAuth routes, including the
  Delete button's callback POST. They are outside this core; the Delete button is a flag
  on the listing attachment.
- Logging (`console.log`).
