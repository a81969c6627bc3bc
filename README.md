# Server-sent events over a key-value store, in Dafny

This project models the core of an ASP.NET sample service. The service keeps the
latest string value per key. It lets a client publish `key:value` pairs with
`POST /trigger-event`. A client following `GET /events/{key}` receives
server-sent events: first the sentinel `Start`, then every value later published
to that key, in order, each written as one `data:` frame. A value holding a line
break is written as it is, so an event-stream client reads only its first line
as the event's data (see "## Left out").

The model has four files.

- `wrappers.dfy` (module `Wrappers`) defines `Option` and `Result`.
- `key_value_service.dfy` (module `KeyValue`) models `KeyValueService`.
  - The class `KeyValueService` holds the store (`store`) and the live
    subscriptions (`registry`).
  - One subscription is one enumeration of `GetNotificationsAsync`: its filter
    key, its private unbounded FIFO channel (`queue`), and whether `Start` has
    been yielded (`started`).
  - Invoking the multicast `OnChange` event is `Dispatch`. The `Handler` closure
    that enqueues only values published to its own key (ordinal comparison) is
    `Offer`.
  - `Subscribe` is `OnChange += Handler`. `Next` is one `MoveNextAsync`.
    `Unsubscribe` is the `finally` block.
  - Histories of writes are given meaning by specification functions: `ApplyAll`
    for the store, `DispatchAll` for the registry, and `Matching` for the values
    a key receives.
- `payload.dfy` (module `Payload`) holds the pure string logic of `Program.cs`.
  - `Char.IsWhiteSpace` and `string.IsNullOrWhiteSpace`.
  - `string.Split(char)`, with empty parts kept.
  - The validation of the trigger body.
  - The frame `data: <message>\n\n` written for every streamed message.
- `endpoints.dfy` (module `Endpoints`) models the two handlers as methods on a
  `KeyValueService`.
  - `TriggerEvent` is the `POST /trigger-event` handler.
  - `Forward` is the `await foreach` loop of `GET /events/{key}`, run until the
    stream has to wait.
  - `EventsSession` is one whole connection while other clients publish.

The response body is modelled as the list of strings handed to `WriteAsync`, one
per message.

Keys may be empty: the code accepts any text before the colon, so the body `:`
stores the empty value under the empty key (`Payload.LoneColonExample`).

## Model

| member | source | states |
|---|---|---|
| KeyValue.KeyValueService.constructor | Api/KeyValueService.cs:8-10 | The service starts with the store it is given and no subscribers. |
| KeyValue.KeyValueService.Update | Api/KeyValueService.cs:20-24 | The written key takes the new value and every other key keeps its old value. Every live subscription is offered the pair exactly once (its state is `Dispatch` of the old registry). No subscription is added or removed. |
| KeyValue.KeyValueService.GetValue | Api/KeyValueService.cs:31-35 | The result is `Lookup` of the current store (so `HistoryLookup` and `NeverWrittenIsAbsent` apply to it): present exactly when the key is in the store, and then it is the stored value. A missing key gives None (null), never a default string. |
| KeyValue.KeyValueService.Subscribe | Api/KeyValueService.cs:46-58 | Exactly one new subscription is registered, under a handle never issued before (the next value of the handle counter), so a torn-down handle is never revived and its stale consumer keeps reading Ended. It has the caller's key, an empty channel, and `Start` not yet yielded. The other subscriptions are unchanged. |
| KeyValue.KeyValueService.Next | Api/KeyValueService.cs:60-70 | A torn-down or unknown handle gives Ended and changes nothing. Otherwise the step and the new subscription are `Pull` of the old one, and every other subscription is unchanged. |
| KeyValue.KeyValueService.Unsubscribe | Api/KeyValueService.cs:72-76 | Exactly this handle leaves the registry, with its buffered values. Calling it again changes nothing. |
| KeyValue.Dispatch | Api/KeyValueService.cs:49-55 | Invoking the handlers keeps the set of subscriptions. A subscription whose key equals the published key (ordinal) gets the value appended to its queue. Every other subscription is unchanged. |
| KeyValue.Offer | Api/KeyValueService.cs:49-55 | One subscription's handler changes neither its key nor its started flag. Its outstanding stream grows by the published value exactly when the published key equals its own key (ordinal), and is unchanged otherwise. |
| KeyValue.Pull | Api/KeyValueService.cs:63-69 | A stream yields `Start` first and then its channel's values in FIFO order, each exactly once (the rest of what is outstanding is the old outstanding sequence minus its head). It waits (Pending, state unchanged) exactly when nothing is outstanding. It keeps its key and never ends by itself. |
| KeyValue.UpdateLookup | Api/KeyValueService.cs:20-35 | After one write, reading the written key gives the new value and reading any other key gives what it gave before. |
| KeyValue.HistoryLookup | Api/KeyValueService.cs:20-35 | Last write wins: after any history of writes, a key reads the value of the last write to it, or its old value when no write named it. |
| KeyValue.NeverWrittenIsAbsent | Api/KeyValueService.cs:31-35 | Starting from an empty store, a key that no write names reads as absent. |
| KeyValue.HistoryKeys | Api/KeyValueService.cs:20-24 | No operation removes a key. The keys after a history are the old keys plus the keys written. |
| KeyValue.DispatchSeparates | Api/KeyValueService.cs:23-55 | Dispatching to a registry with one more subscription treats that subscription and the others independently. |
| KeyValue.DispatchAllKeys | Api/KeyValueService.cs:20-24 | Writes never add or remove subscriptions. |
| KeyValue.DispatchAllFifo | Api/KeyValueService.cs:46-58 | Exact, ordered fan-out. Over any history, every live subscription's queue grows by exactly the values written to its key, in write order, and by nothing else. Its key and flag are unchanged. |
| KeyValue.TornDownReceivesNothing | Api/KeyValueService.cs:72-76 | After teardown no later write reaches the subscription: it never re-enters the registry. |
| KeyValue.SubscriptionLeavesNoTrace | Api/KeyValueService.cs:58-76 | Subscribing, living through any writes, and tearing down leaves the other subscriptions exactly as if the subscription had never existed. |
| KeyValue.StartThenWritesInOrder | Api/KeyValueService.cs:60-70 | A subscription made before a history of writes has outstanding exactly `Start` followed by the values written to its key, in write order. |
| Payload.IsWhiteSpace | Api/Program.cs:186 | A character is white space exactly when it is one of the 25 characters .NET classifies as white space (U+0009..U+000D, U+0020, U+0085, U+00A0, U+1680, U+2000..U+200A, U+2028, U+2029, U+202F, U+205F, U+3000). |
| Payload.IsNullOrWhiteSpace | Api/Program.cs:186 | A body counts as empty exactly when trimming its leading white space leaves nothing, so the empty body and a body of white space only are both empty. |
| Payload.Split | Api/Program.cs:192 | Splitting keeps empty parts. There is one part more than there are separators, no part contains the separator, and joining the parts with the separator gives back the input. |
| Payload.SplitWithoutSeparator | Api/Program.cs:192 | A string without the separator splits into itself alone. |
| Payload.SplitAtFirstSeparator | Api/Program.cs:192 | The text before the first separator is the first part, and the rest splits as the text after it. |
| Payload.ParseTrigger | Api/Program.cs:186-196 | The body is rejected as empty exactly when it is empty or all white space. It is rejected as malformed exactly when it is not blank and does not hold exactly one ':'. When it is accepted, key and value are colon-free and the body is exactly key, ':' and value, untrimmed. |
| Payload.ColonBodyIsNotBlank | Api/Program.cs:186 | A body holding ':' is never taken for an empty one. |
| Payload.ParseRoundTrip | Api/Program.cs:192-199 | For any key and value without ':', the body `key:value` parses back to exactly that key and value, the empty ones included. |
| Payload.LoneColonExample | Api/Program.cs:192-199 | The body `:` is accepted, as the empty key with the empty value. |
| Payload.NoSeparatorRejected | Api/Program.cs:192-196 | A non-blank body without ':' is rejected as malformed. |
| Payload.ManySeparatorsRejected | Api/Program.cs:192-196 | A body with two or more ':' is rejected as malformed. |
| Payload.LineBreakAccepted | Api/Program.cs:186-216 | The body `k:a\nb` is accepted with the value `a\nb`, and that value is framed with its line break inside the `data:` field, as it is. |
| Payload.TwoSeparatorsExample | Api/Program.cs:192-196 | `a:b:c` is rejected as malformed. |
| Payload.BlankExamples | Api/Program.cs:186-189 | The empty body and a body of spaces, tabs and line breaks are rejected as empty. |
| Payload.Frame | Api/Program.cs:216 | A frame is `data: `, then the message, then a blank line, at those positions. |
| Payload.UnframeFrame | Api/Program.cs:216 | Stripping `data: ` and the closing blank line gives back the message, so distinct messages are written as distinct frames. |
| Payload.FrameUnframe | Api/Program.cs:216 | Every text that reads as a frame is the frame of the message read from it. |
| Payload.Frames | Api/Program.cs:214-218 | A stream of messages is written as one frame per message, in delivery order. |
| Payload.FramesAppend | Api/Program.cs:214-218 | Forwarding two runs of messages one after the other writes their frames one after the other. |
| Endpoints.TriggerEvent | Api/Program.cs:181-202 | An empty or blank body answers 400 `Event data is empty.`. A body without exactly one ':' answers 400 with the format message and the body. In both cases the store and all subscribers are untouched. An accepted body performs exactly `Update(key, value)` and answers 200 `Event triggered for <key>`. |
| Endpoints.Forward | Api/Program.cs:214-218 | Forwarding writes the frame of every outstanding element of the stream, in order, and stops when the channel is empty. The subscription is left started, with an empty channel, and every other subscription is unchanged. |
| Endpoints.WriteThenForward | Api/Program.cs:199-218 | When another client publishes a pair, a caught-up connection writes the value's frame if the key is its own, and nothing otherwise. |
| Endpoints.Relay | Api/Program.cs:214-218 | While other clients publish a history of writes and the connection catches up after each one, it writes exactly the frames of the values written to its key, in write order. The store ends as the history makes it, and the connection's subscription stays caught up. |
| Endpoints.EventsSession | Api/Program.cs:205-219 | One connection, with other clients publishing a history of writes, writes the frame of `Start` and then the frames of exactly the values written to its key, in write order. The store ends as the history makes it. After teardown the registry is what the writes alone would have made of it. |

## Left out

- Concurrency: the source's dictionary is a `ConcurrentDictionary` and handlers run on the publisher's thread while readers await. The model runs every operation atomically, one at a time, so races between a publish and a teardown are not modelled.
- Asynchrony and cancellation tokens: an `await` that would suspend is the step `Pending`. Cancellation, disconnect and errors are all the call to `Unsubscribe`, which is what the `finally` block does.
- KeyValue.KeyValueService.Subscribe: in the source the handler is registered by the first `MoveNextAsync`, in the same step that yields `Start`. The model splits this into `Subscribe` and a first `Next`. A write between them lands after `Start` either way.
- Endpoints.EventsSession: models the schedule in which the connection forwards everything after each write. Other interleavings are covered by `Forward`, `KeyValue.DispatchAllFifo` and `KeyValue.StartThenWritesInOrder`, not by one session method.
- HTTP plumbing is not modelled: routing, dependency injection, response headers, `FlushAsync`, and the encoding of the written text into bytes.
- Reading the request body: `ReadToEndAsync` always yields a string, so the body is a parameter and the null case of `IsNullOrWhiteSpace` does not arise.
- Strings are sequences of Unicode scalar values, while .NET strings are sequences of UTF-16 code units. A character outside the Basic Multilingual Plane is one `char` here and two in .NET, and a lone surrogate cannot be represented. This changes neither splitting on ':' nor the white-space test, because ':' and every white-space character lie in the Basic Multilingual Plane.
- The `/weatherforecast` and `/number` endpoints and the SSE loops at `Api/Program.cs:124` and `Api/Program.cs:172`: they depend on a selector library, random numbers, clocks and delays that are not part of this model. Their per-message framing is the same `Payload.Frame`.
- Payload.Frame: a value holding a line break (`\n` or `\r`) is accepted by `POST /trigger-event` and written inside one frame as it is. An event-stream client splits the frame at that line break and takes only the first line as the event's data. The model has no event-stream parser, so `Payload.UnframeFrame` shows only that framing is injective. It does not show that such a value reaches the client whole.
