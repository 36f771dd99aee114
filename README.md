# outcomes-coach in Dafny

A model of the sequential logic of outcomes-coach, a Next.js chat coach.

- **The server route** (`pages/api/chat.js`) relays the conversation to a language-model vendor. Before it forwards a request it:
  - derives a client id from the `x-forwarded-for` header or the socket address;
  - counts the request against a fixed five-minute window of twenty requests per client;
  - decides whether the browser wants a stream;
  - reduces the inbound `messages` array to `{role, content}` pairs, answering 400 when none is left.

  When streaming, it reassembles the vendor's server-sent-event stream into lines. This is the `text/event-stream` framing of section 9.2 of the WHATWG HTML Living Standard, read as `data:` lines only. It re-emits `delta` and `error` events, and finally `done`.
- **The page** (`pages/index.js`) keeps the conversation:
  - counter-based message ids (`msg-N`);
  - a message list with insert-after-id and append;
  - a queue of user messages awaiting replies;
  - the request history built for each reply: the prefix up to the message, without the welcome text and the error notices, with consecutive same-role messages merged;
  - hydration from stored JSON;
  - a reset for a new conversation.

Modules:

| file | module | what it holds |
|---|---|---|
| `wrappers.dfy` | `Wrappers` | `Option`, `Result` |
| `text.dfy` | `Text` | `trim` and its whitespace class, `startsWith`, `includes`, decimal rendering, `msg-N` ids |
| `seqs.dfy` | `Seqs` | `filter` and the count of kept elements |
| `js.dfy` | `Js` | JavaScript values, truthiness, optional-chained property reads |
| `rate_limit.dfy` | `RateLimit` | the limiter as a function on the table, and the class `RateLimiter` that owns the table |
| `client_id.dfy` | `ClientIdentity` | `getClientId` |
| `normaliser.dfy` | `Normaliser` | the `messages` filter/map and the 400 |
| `handler.dfy` | `Handler` | `wantsStream` and the handler's decision path up to the vendor call |
| `sse_relay.dfy` | `SseRelay` | the line buffer, the event mapping, the read loop |
| `history.dfy` | `History` | the request history of `processQueue` and its merge loop |
| `session.dfy` | `Session` | the class `ChatSession`: ids, list edits, queue, replies, hydration, reset |

Behaviour of the code that the model keeps, where a reader might expect otherwise:

- **Roles are not checked.** The server and the page keep any truthy `role` value, not only `user`/`assistant`.
- **The rate limit counts every admitted request.** This includes one that is then refused with 400 for having no usable message (`Handler.RejectedRequestStillCounts`).
- **A trailing stream line is dropped.** If the vendor's stream ends without a final newline, its last line is never looked at: `SseRelay.Relay` emits events only for complete lines.
- **Waiting exactly `Retry-After` can be too short.** When the time left in a window is a whole number of seconds, a limited client that waits exactly the reported delay arrives at the reset time itself. The entry has not expired then, so the client is limited once more (`RateLimit.RetryAtResetStillLimited`).
- **Hydration can give two messages the same id.** Ids are handed out to stored entries that lack one before the largest stored `msg-N` is known, so a generated id can repeat a stored one (`Session.HydratedIdsMayCollide`).
- **Hydration can leave no messages at all.** A non-empty stored array with no usable entry leaves an empty list, without the welcome message (`Session.HydrationMayEmpty`).
- **A `null` entry cancels hydration.** A stored array holding `null` or `undefined` makes the property read throw. The error is swallowed and the list is left as it was (`Session.ChatSession.Hydrate`).

## Model

| member | source | states |
|---|---|---|
| `Text.LeadingWhitespace` | pages/api/chat.js:174 | the count of leading characters removed by `trim` is within the string, covers only whitespace, and stops at a non-whitespace character |
| `Text.TrailingStart` | pages/api/chat.js:174 | the trailing cut of `trim` leaves only whitespace after it and a non-whitespace character (or nothing) before it |
| `Text.TrimStart` | pages/api/chat.js:174 | defined by its body: the string after its leading whitespace; its facts are in `Text.LeadingWhitespace` and `Text.TrimShape` |
| `Text.Trim` | pages/api/chat.js:174 | defined by its body: `trim`; its facts are in `Text.TrimShape` |
| `Text.TrimShape` | pages/api/chat.js:43-46 | `trim` returns the text strictly between the leading and the trailing whitespace, and the result neither starts nor ends with whitespace |
| `Text.StartsWith` | pages/api/chat.js:175 | defined by its body: `startsWith`; its facts are in `SseRelay.DataLine` and `SseRelay.BlankLineSkipped` |
| `Text.Includes` | pages/api/chat.js:96 | `includes` is true exactly when the needle occurs at some position of the string |
| `Text.Decimal` | pages/index.js:14 | a counter is rendered as at least one decimal digit, without leading zeros |
| `Text.DigitsValueOfDecimal` | pages/index.js:63-65 | reading back the decimal rendering of a counter gives the counter |
| `Text.ParseMsgId` | pages/index.js:63-66 | an id parses exactly when it is `msg-` followed by one or more decimal digits, as the pattern `^msg-(\d+)$` demands |
| `Text.MsgId` | pages/index.js:14 | defined by its body: the id `msg-` followed by the counter in decimal; its facts are in `Text.MsgIdRoundTrip` and `Text.MsgIdInjective` |
| `Text.MsgIdRoundTrip` | pages/index.js:13-17 | parsing an id rendered by `createId` from counter n gives back n |
| `Text.MsgIdInjective` | pages/index.js:13-17 | different counter values give different ids, so successive `createId` calls never repeat |
| `Seqs.Filter` | pages/api/chat.js:107 | `filter` keeps only elements that satisfy the predicate, all taken from the input, and exactly as many as satisfy it |
| `Seqs.FilterAt` | pages/api/chat.js:107 | a kept element appears in the output at the position counting the kept elements before it, so the output is the kept elements in input order |
| `Seqs.FilterAllKept` | pages/api/chat.js:107 | filtering a list all of whose elements pass returns it unchanged |
| `Js.Get` | pages/api/chat.js:93-96 | an optional-chained property read returns the field when the value is an object holding the key, and `undefined` otherwise |
| `RateLimit.CeilSeconds` | pages/api/chat.js:57 | `Math.ceil(ms / 1000)` on integer milliseconds: the least whole number of seconds covering `ms` |
| `RateLimit.RetryAfter` | pages/api/chat.js:61 | the reported delay is at least 1 second and is the least number of seconds covering the time left in the window |
| `RateLimit.Live` | pages/api/chat.js:55 | defined by its body: the client has an entry whose window has not passed; its facts are in `RateLimit.CheckStartsWindow`, `RateLimit.CheckAtLimit` and `RateLimit.CheckCounts` |
| `RateLimit.Check` | pages/api/chat.js:51-66 | a check reports a delay of at least one second, which for a live window is the time left in it rounded up to whole seconds; it always leaves an entry for the caller, and leaves every other client's entry as it was |
| `RateLimit.CheckStartsWindow` | pages/api/chat.js:55-57 | a missing or expired entry becomes count 1 with reset 300000 ms from now, not limited, retry after 300 s |
| `RateLimit.CheckAtLimit` | pages/api/chat.js:60-62 | a live entry at 20 or more is limited, reports the time left in its window rounded up to whole seconds (at least 1), and the table is unchanged |
| `RateLimit.CheckCounts` | pages/api/chat.js:64-65 | a live entry below 20 gains exactly one request, nothing else changes, and the request is not limited; the reported delay is the time left in its window rounded up to whole seconds (at least 1) |
| `RateLimit.RetryAtResetStillLimited` | pages/api/chat.js:55-61 | when the window has exactly k whole seconds left, a limited client is told to wait k seconds, and coming back after exactly k seconds it is limited again, since the entry expires only after its reset time |
| `RateLimit.CheckKeepsCountsInRange` | pages/api/chat.js:55-65 | every stored count stays between 1 and 20 |
| `RateLimit.RetryAfterWithinWindow` | pages/api/chat.js:55-65 | with a clock that does not run backwards, the delay lies between 1 and 300 seconds, and no window ends more than five minutes ahead |
| `RateLimit.Replay` | pages/api/chat.js:51-66 | replaying calls for one client gives one decision per call |
| `RateLimit.ReplayInWindow` | pages/api/chat.js:60-65 | while calls stay inside a live window with count c, call k (from 0) is limited exactly when c + k reaches 20 |
| `RateLimit.NthCallInWindow` | pages/api/chat.js:55-65 | in a window opened by the first call, call number k is limited exactly when k exceeds 20 |
| `RateLimit.RateLimiter.constructor` | pages/api/chat.js:3 | the table starts empty |
| `RateLimit.RateLimiter.CheckRateLimit` | pages/api/chat.js:51-66 | the in-place update of the table and the decision agree with `Check`, and the count bounds are kept |
| `ClientIdentity.FirstField` | pages/api/chat.js:43 | `split(',')[0]` is the prefix of the header up to, not including, the first comma, or the whole header |
| `ClientIdentity.TrimFirstField` | pages/api/chat.js:43-46 | the client id is the header's text at some position, with only whitespace before it and between it and the first comma, holding no comma and not starting or ending with whitespace |
| `ClientIdentity.HeaderText` | pages/api/chat.js:42-46 | defined by its body: the first element of a non-empty array, or a non-empty string; its facts are in `ClientIdentity.ClientId` and `ClientIdentity.SingleAndArrayAgree` |
| `ClientIdentity.ClientId` | pages/api/chat.js:40-49 | a non-empty header (array or string) gives its trimmed first field; otherwise a non-empty socket address, else `unknown` |
| `ClientIdentity.SingleAndArrayAgree` | pages/api/chat.js:42-47 | the string form of the header and an array starting with that string give the same id |
| `Normaliser.Keep` | pages/api/chat.js:107 | defined by its body: the filter test of the server; its facts are in `Normaliser.NormaliseKeepsInOrder` and `Normaliser.DropsMalformedEntries` |
| `Normaliser.Project` | pages/api/chat.js:108 | defined by its body: the map to `{role, content}`; its facts are in `Normaliser.ProjectAll` |
| `Normaliser.ProjectAll` | pages/api/chat.js:108 | each kept entry becomes exactly its role and its content |
| `Normaliser.NormaliseList` | pages/api/chat.js:107-108 | the output has one entry per kept input, each with a truthy role |
| `Normaliser.MessagesOf` | pages/api/chat.js:105-109 | a body whose `messages` is not an array gives no messages; an array is normalised |
| `Normaliser.NormaliseKeepsInOrder` | pages/api/chat.js:107-108 | a kept input is the output entry at the position counting kept inputs before it, projected to role and content |
| `Normaliser.ToJsList` | pages/index.js:149 | sending a history as JSON gives one object per message, in order |
| `Normaliser.ToJs` | pages/index.js:149 | defined by its body: one message as the JSON object `{role, content}`; its facts are in `Normaliser.ToJsList` and `Normaliser.NormaliseWellFormed` |
| `Normaliser.NormaliseWellFormed` | pages/api/chat.js:107-108 | a list of messages with truthy roles, sent as JSON objects, is returned unchanged |
| `Normaliser.NormaliseIdempotent` | pages/api/chat.js:105-109 | normalising the normalised list changes nothing |
| `Normaliser.ValidateMessages` | pages/api/chat.js:105-113 | the request fails exactly when no message survives, and then with 400 `Messages are required.`; otherwise it carries the surviving messages |
| `Normaliser.MissingMessagesRejected` | pages/api/chat.js:105-112 | a body without a `messages` array is rejected with 400 |
| `Normaliser.DropsMalformedEntries` | pages/api/chat.js:107 | of a good entry, one without a role and one with numeric content, only the good one survives |
| `Handler.KeyConfigured` | pages/api/chat.js:88 | defined by its body: the API key is set and non-empty; `Handler.Handle` states the 500 when it is not |
| `Handler.RateLimitMessage` | pages/api/chat.js:102 | defined by its body: the 429 text with the delay in seconds; `Handler.Handle` states when it is sent |
| `Handler.WantsStream` | pages/api/chat.js:92-96 | streaming is chosen exactly when the query flag is `'1'` or `'true'`, the body flag is the boolean true, or the Accept header contains `text/event-stream` somewhere |
| `Handler.AcceptAnywhere` | pages/api/chat.js:96 | the media type asks for a stream wherever it sits in the Accept header |
| `Handler.BodyFlagIsStrict` | pages/api/chat.js:95 | a body flag other than the boolean true does not ask for a stream |
| `Handler.Handle` | pages/api/chat.js:83-113 | 405 for any method but POST and 500 without a key, both leaving the table untouched; otherwise the request is counted; 429 with the delay in the header and the text when limited; forwarded exactly when a message survives, with the surviving messages and the stream choice; otherwise 400 `Messages are required.` |
| `Handler.RejectedRequestStillCounts` | pages/api/chat.js:98-113 | a request with no usable message is refused with 400 after using up one of its client's requests |
| `Handler.Serve` | pages/api/chat.js:83-113 | the handler run against the process-wide limiter gives the outcome and the table of `Handle`, keeping the count bounds |
| `SseRelay.TerminatedAppend` | pages/api/chat.js:170-171 | writing two runs of lines, each line followed by a newline, gives the runs' texts one after the other |
| `SseRelay.Split` | pages/api/chat.js:170 | `split('\n')` always gives at least one piece |
| `SseRelay.SplitShape` | pages/api/chat.js:170-171 | the pieces hold no newline, and the complete pieces, each followed by a newline, then the last piece, spell the text |
| `SseRelay.SplitWithoutNewline` | pages/api/chat.js:170 | text without a newline splits into itself |
| `SseRelay.SplitAfterLine` | pages/api/chat.js:170 | a line, a newline and more text split into that line followed by the split of the rest |
| `SseRelay.SplitUnique` | pages/api/chat.js:170-171 | newline-free lines, each followed by a newline, then a newline-free remainder, split back into exactly those lines and that remainder |
| `SseRelay.CompleteLines` | pages/api/chat.js:170-171 | defined by its body: every split piece but the last; its facts are in `SseRelay.SplitShape`, `SseRelay.ChunkStep` and `SseRelay.Relay` |
| `SseRelay.DataPayload` | pages/api/chat.js:174-177 | defined by its body: the payload of a `data:` line that is not skipped; its facts are in `SseRelay.DataLine`, `SseRelay.TerminatorSkipped` and `SseRelay.BlankLineSkipped` |
| `SseRelay.PayloadEvents` | pages/api/chat.js:181-188 | a payload gives at most one event: a content delta with text gives a delta with exactly that text, a vendor error gives an error with its message (`Streaming error.` when it has none), anything else gives nothing |
| `SseRelay.LineEvents` | pages/api/chat.js:174-191 | defined by its body: the events of one line; its facts are in `SseRelay.LineEventsAtMostOne`, `SseRelay.MalformedLineSilent` and `SseRelay.DeltaLine` |
| `SseRelay.LinesEvents` | pages/api/chat.js:173-192 | defined by its body: the events of the lines, in line order; its facts are in `SseRelay.LinesEventsAppend`, `SseRelay.LinesEventsBounded` and `SseRelay.EmitLines` |
| `SseRelay.LinesEventsAppend` | pages/api/chat.js:173-192 | the events of two runs of lines are the events of the first run, then of the second |
| `SseRelay.LineEventsAtMostOne` | pages/api/chat.js:173-192 | one line gives at most one event, never `done`, and only a `data:` line with a payload gives one |
| `SseRelay.LinesEventsBounded` | pages/api/chat.js:173-192 | the lines give at most as many events as there are lines, and no `done` |
| `SseRelay.EmitLines` | pages/api/chat.js:173-192 | the loop over the lines of a chunk emits the events of those lines, in line order |
| `SseRelay.MalformedLineSilent` | pages/api/chat.js:189-191 | a `data:` line whose payload does not parse emits nothing |
| `SseRelay.Relay` | pages/api/chat.js:157-196 | with no reader, the single event is `Streaming unavailable. Please try again.`; otherwise the events are those of the complete lines of all chunks joined, in order, so they do not depend on where chunks are cut; `done` comes last and only once |
| `SseRelay.ChunkStep` | pages/api/chat.js:169-171 | after each chunk, the complete lines so far, each followed by a newline, then the buffer, spell every chunk received so far |
| `SseRelay.DataLine` | pages/api/chat.js:174-177 | `data: ` followed by a payload without surrounding whitespace yields that payload, unless it is empty or `[DONE]` |
| `SseRelay.TerminatorSkipped` | pages/api/chat.js:177 | the vendor's `data: [DONE]` line gives no event |
| `SseRelay.BlankLineSkipped` | pages/api/chat.js:175 | the blank line between events gives no event |
| `SseRelay.DeltaLine` | pages/api/chat.js:181-183 | a `data:` line whose payload is a content delta with text gives that one delta |
| `SseRelay.TwoChunkStream` | pages/api/chat.js:163-196 | two chunks holding two delta events and a skipped line give the two deltas in order, then `done` |
| `History.FindIndex` | pages/index.js:100 | `findIndex` gives the first position holding the id, or -1 exactly when none does |
| `History.RequestSlice` | pages/index.js:126-128 | defined by its body: the snapshot up to the target; its facts are in `History.RequestSliceShape` |
| `History.RequestSliceShape` | pages/index.js:126-128 | the slice is a prefix of the snapshot ending at the first message with the target id, or the whole snapshot when no message has it |
| `History.Sendable` | pages/index.js:132 | defined by its body: neither the welcome message nor an error notice; its facts are in `History.SendableChatShape` |
| `History.ToChat` | pages/index.js:133 | each message is reduced to its role and its content |
| `History.SendableChat` | pages/index.js:131-133 | defined by its body: filter, then reduce to role and content; its facts are in `History.SendableChatShape` |
| `History.SendableChatShape` | pages/index.js:131-133 | after filtering, no message is the welcome message or an error notice; every other message is kept, in order |
| `History.Merge` | pages/index.js:136-143 | the merged list is never longer than the input |
| `History.MergeShape` | pages/index.js:136-143 | the merge is empty only for an empty input, ends with the last input's role, and no two neighbours share a role |
| `History.MergeStep` | pages/index.js:138-142 | defined by its body: one turn of the merge loop; its facts are in `History.MergeSnoc`, `History.MergePrefix` and `History.MergeIsCollapse` |
| `History.MergeSnoc` | pages/index.js:137-142 | merging one more message is one more turn of the merge loop |
| `History.MergePrefix` | pages/index.js:137-142 | merging the first i+1 messages is one loop turn applied to the merge of the first i |
| `History.MergeIsCollapse` | pages/index.js:136-143 | the merge has one message per maximal run of same-role messages, with the run's role and its contents joined by blank lines |
| `History.CollapseAt` | pages/index.js:139 | the merged message of a run carries that run's role and joined contents |
| `History.RunsExist` | pages/index.js:136-143 | every message list cuts into maximal same-role runs |
| `History.RequestHistory` | pages/index.js:126-143 | defined by its body: slice, filter, merge; its facts are in `History.BuildRequest`, `History.HistoryNotEmpty` and `History.HistorySurvivesNormaliser` |
| `History.BuildRequest` | pages/index.js:126-143 | slicing, filtering and the merge loop give the request history |
| `History.MergeLoop` | pages/index.js:136-143 | the loop that pushes a copy or extends the last pushed message computes the merge |
| `History.HistorySurvivesNormaliser` | pages/index.js:126-149 | when every role is truthy, the history the page sends passes the server's normaliser unchanged |
| `History.HistoryNotEmpty` | pages/index.js:126-143 | when the message being answered is there and is neither the welcome message nor an error, the history is not empty |
| `Session.InsertAfter` | pages/index.js:98-107 | defined by its body: the list after `insertMessageAfterId`; its facts are in `Session.InsertAfterAbsent` and `Session.InsertAfterFound` |
| `Session.InsertAfterAbsent` | pages/index.js:102-103 | with no message carrying the target id, the new message is appended |
| `Session.InsertAfterFound` | pages/index.js:104-107 | the new message sits right after the first message with the target id, and removing it gives back the list, so all others keep their order |
| `Session.FreshIdUnused` | pages/index.js:13-17 | while all `msg-N` ids are below the counter, the next id is carried by no message |
| `Session.ReadStored` | pages/index.js:48-53 | defined by its body: one stored value read into an entry; its facts are in `Session.ReadAllAt` |
| `Session.ReadAll` | pages/index.js:47-53 | reading the array gives one entry per stored value |
| `Session.ReadAllAt` | pages/index.js:48-53 | each entry is read from the stored value at its own position: a string id or none, role and content as stored, `isError` as truthiness |
| `Session.Usables` | pages/index.js:47-54 | defined by its body: the read entries that pass the filter; its facts are in `Session.HydrationKeepsInOrder` |
| `Session.Usable` | pages/index.js:54 | defined by its body: a truthy role and string content; its facts are in `Session.HydrationKeepsInOrder` |
| `Session.HydrationKeepsInOrder` | pages/index.js:47-54 | hydration keeps exactly the entries with a truthy role and string content, in stored order |
| `Session.HasId` | pages/index.js:58 | defined by its body: the entry carries a non-empty string id; its facts are in `Session.AssignIdsKeeps` |
| `Session.AssignIds` | pages/index.js:56-59 | one message per kept entry, and the counter never goes back |
| `Session.AssignIdsKeeps` | pages/index.js:56-59 | each entry keeps role, content, error flag and any non-empty stored id; the others get counter ids from the range used, and the counter advances once per such entry |
| `Session.MaxMsgId` | pages/index.js:61-70 | defined by its body: the largest `msg-N` value, starting from 1; its facts are in `Session.MaxMsgIdBounds` |
| `Session.MaxMsgIdBounds` | pages/index.js:61-70 | the scan gives at least 1, bounds every `msg-N` id, and is one of them unless it is the starting 1 |
| `Session.HydratedIdsMayCollide` | pages/index.js:56-71 | an entry without an id and a stored `msg-2` both end up `msg-2` when the counter is at 2 |
| `Session.HydrationMayEmpty` | pages/index.js:47-72 | a non-empty stored array without usable entries empties the list |
| `Session.ReplyMessage` | pages/index.js:154-174 | the reply is an assistant message with the new id; a successful reply carries its text; a refused one carries its error text, or the fallback when that is missing or empty, and is an error; a failed request carries the fallback and is an error |
| `Session.SentMessageIsRequested` | pages/index.js:185-194 | a message just sent with a fresh id always yields a non-empty request |
| `Session.ChatSession.constructor` | pages/index.js:12-26 | the session starts with the welcome message, an empty queue and counter 2 |
| `Session.ChatSession.CreateId` | pages/index.js:13-17 | returns `msg-` followed by the counter, increments the counter, and gives an id no message carries |
| `Session.ChatSession.InsertMessageAfterId` | pages/index.js:98-110 | the copy-and-splice update gives the list of `InsertAfter` |
| `Session.ChatSession.AppendMessage` | pages/index.js:112-116 | the message is added at the end and nothing else changes |
| `Session.ChatSession.SendMessage` | pages/index.js:185-194 | blank input changes nothing; otherwise the trimmed text is appended as a user message with a fresh id, which is queued, and the invariant is kept |
| `Session.ChatSession.TakeNext` | pages/index.js:118-121 | the queue loses its first id, which is returned unless it is empty |
| `Session.ChatSession.ReceiveReply` | pages/index.js:145-174 | the reply message, with the next id, is placed right after the message it answers |
| `Session.ChatSession.ProcessNext` | pages/index.js:118-174 | one reply: the next queued id is taken, the request history is built from the list as it stands, and the reply is placed after its message; an empty queue or id changes nothing else |
| `Session.ChatSession.HandleNewConversation` | pages/index.js:203-207 | an empty queue, counter 2, and exactly the welcome message |
| `Session.ChatSession.Hydrate` | pages/index.js:42-79 | no stored array, an empty one or one with `null` entries leaves everything as it was; otherwise the list is the kept entries with their ids and the counter is past every `msg-N` id and past the ids handed out |
| `Session.HydrationApplies` | pages/index.js:44-49 | defined by its body: a stored, parsed, non-empty array with no `null` or `undefined` entry; `Session.ChatSession.Hydrate` states what happens either way |
| `Session.ChatSession.Restore` | pages/index.js:47-72 | the kept entries with their ids become the list, and the counter moves past the largest `msg-N` and the ids handed out |
| `Session.ChatSession.GiveIds` | pages/index.js:56-59 | the loop that takes `createId` for entries without an id computes `AssignIds` |
| `Session.LargestMsgId` | pages/index.js:61-70 | the `forEach` that tracks the largest id computes `MaxMsgId` |
| `Session.WelcomeIdValue` | pages/index.js:4-8 | the welcome message's id reads back as 1, so the initial state meets the session invariant |
| `Session.HydratedInvariant` | pages/index.js:47-71 | after hydration every role is truthy and the counter is above every `msg-N` id and above 1 |
| `Session.BelowLargest` | pages/index.js:71 | a counter past the largest `msg-N` is above every such id |
| `Session.AppendKeepsInvariant` | pages/index.js:189-190 | appending a message with a fresh id and a truthy role keeps the session invariant |
| `Session.InsertKeepsValid` | pages/index.js:155-166 | inserting a reply with a fresh id and a truthy role keeps the session invariant |

## Left out

- The vendor call (`fetch` to the messages API, its status and error handling, the non-streaming reply and its fallback text) and every write to the HTTP response: status codes as sent, headers, `setupSse`, `res.write` and `res.end`. These are I/O. The model returns the handler's decision and the list of events it would write.
- `JSON.parse` of stream payloads is the parameter `parse`, and its result is the datatype `Payload`. The `TextDecoder` is left out: chunks are already-decoded strings.
- `Date.now()` is the parameter `now`, in integer milliseconds.
- `isSendingRef` and the recursive, asynchronous rescheduling of `processQueue` are left out, because their point is interleaving. One turn of the queue is `Session.ChatSession.ProcessNext`, with the server's answer passed as a `Reply`.
- React rendering and effects, `localStorage` (the stored text read back is a parameter of `Hydrate`), clipboard copying, scrolling, focus and the `formatMessage` renderer are out of scope.
- `messagesRef` and the `messages` state are one field. In the code the reference catches up with the state after the next render.
- `Session.ReplyMessage`: a refusal's error is modelled as an optional string, and a successful reply's message as a string. The code would copy whatever JSON value the server put there.
- `Session.ReadAllAt`: a stored `isError` is kept as its truthiness. The code keeps a truthy value itself, which the page only ever tests for truthiness.
- `Js.JsValue`: numbers are integers. The only numeric test in the server route and the page is truthiness, where `NaN` would also be falsy.
- `Session.MaxMsgId`: digit strings are read as exact integers. `Number` would round very long ones as floating point.
- `Session.ChatSession.CreateId`, `Session.HydratedInvariant`, `Session.FreshIdUnused` and `Text.MsgIdInjective`: the id counter is an exact integer. In the code `nextIdRef.current` is a floating-point `Number`. Fresh ids, and a counter above every `msg-N`, hold there only while the counter stays below 2^53. A stored `msg-9007199254740992` leaves the counter at 2^53: `createId` would then repeat that id, and `+= 1` would stop advancing. From 1e21 upward, `${n}` renders in exponent form.
- `SseRelay.Relay`: every `reader.read()` is taken to succeed. A read that rejects mid-stream ends in the handler's catch, which sends the error `Failed to get response` and no `done`. The model does not express that, so "`done` comes last" holds only for streams whose reads all succeed.
- `History.MergeStep`, `History.Merge` and `History.MergeLoop`: roles are compared as values, where the code uses `===`. The two agree on the strings the page writes. Two hydrated entries whose truthy roles are equal objects or arrays would not be merged by the code, but are merged by the model.
- `Handler.WantsStream`: the stream choice, and the `stream` flag of `Handler.Outcome.Forwarded`, are booleans. In the code `wantsStream` is the raw value of the `||` chain, `""` or `undefined` when no test holds and the Accept header is empty or missing, and that value is what is sent to the vendor as `stream`. The model keeps only its truthiness.
