# deepstream C++ client: a Dafny model of its core

This project models the logic at the heart of the deepstream C++ client, a
client for the deepstream real-time protocol. It covers both generations of
the client: the older top-level `src/*.cpp` and the newer `src/core/*`.

A deepstream message is a header (topic, action, acknowledgement flag). The
header is followed by arguments. Each argument is preceded by the unit
separator (byte 31), and the message ends with the record separator (byte 30).
The model covers:

- **Connection handshake** (`ConnectionFsm`, `LegacyFsm`): the pure
  `transition(state, message, sender)` functions of the connection state
  machine, in their current form and in the older, stricter form.
  - `ConnectionFsm` models `src/core/state.cpp`, whose logic
    `src/core/client.cpp` repeats.
  - `LegacyFsm` models `src/client.cpp`.
  - The handshake runs as a trace of exchanges.
- **Wire format** (`MessageBuilding`, `MessageProxying`).
  - `MessageBuilder` collects arguments, refuses one holding byte 31, and
    writes the framed bytes into a pre-sized array.
  - `MessageProxy` reads a message in place from the parser's buffer.
- **Parser step** (`Parsing`): the per-token update of
  `deepstream_parser_handle`. It tracks the byte offset, the header/payload
  mode, and the message and error lists.
- **Event registry**.
  - `CoreEvent` models `src/core/event.cpp`: subscribers by name under ids
    drawn from a shared counter, listeners by pattern, an offline queue, and
    the replay when the connection opens. `Order` gives the `std::map`
    iteration order that the replay follows.
  - `LegacyEvent` models the older multimap registry of `src/event.cpp`.
- **Presence registry**.
  - `CorePresence` models `src/core/presence.cpp`: id-keyed subscribers and
    the querents waiting for a user list.
  - `LegacyPresence` models the older list of `SubscribeFnPtr` handles of `src/presence.cpp`.
- **Payload prefix codec** (`PayloadCodec`): the one-byte type prefix of
  `TypeSerializer` and `JSONHandler`.
- **JSON stringifier** (`JsonVariant`): the visitor for `deepstream::Value`
  and its `join` and `quote_str` helpers.
- **Random message generator** (`Random`): the byte remap that keeps both
  separators out of generated arguments.

Some pieces are shared:

- `Protocol` holds the vocabulary: the separators and the `Topic`/`Action`
  enums of `src/core/message.hpp`, headers and messages.
- `CoreClient` holds the send function as a `Transport` object, the shared
  subscription counter, and the `std::find`/`erase` helpers on sequences.

The send function appends each message to a log. Whether a send succeeds is
the websocket state that a fixed reply stream gives for that send. User
callbacks are opaque handles. Every invocation of one is recorded in a `calls`
log.

## Model

| member | source | states |
|---|---|---|
| CoreClient.Transport.Send | src/core/client.cpp:39-46 | The message joins the log, and the send reports success exactly when the websocket state for that send is OPEN |
| CoreClient.Counter.PostIncrement | src/core/event.cpp:70 | Returns the counter's old value and advances it by one |
| CoreClient.Find | src/core/event.cpp:131-132 | `std::find`: the index of the first occurrence, or the length exactly when the element is absent |
| CoreClient.AppendFresh | src/core/event.cpp:83-85 | Appending an id that is not in a list of distinct ids keeps them distinct |
| CoreClient.RemoveFirstContents | src/core/presence.cpp:59-66 | Erasing the found element from a list of distinct elements keeps it distinct, removes exactly that element and shortens the list by one exactly when it was present |
| CoreClient.RemoveFirstUndoesAppend | src/core/presence.cpp:50-66 | Erasing an element that was just appended restores the list |
| CoreClient.Delivered | src/core/event.cpp:307-313 | The number of queued messages sent before the first failed send: all of them went out on OPEN, and the next one did not |
| CoreClient.Attempted | src/core/event.cpp:307-313 | The number of sends attempted while draining: those delivered plus the one failed send, if there was one |
| ConnectionFsm.Transition | src/core/state.cpp:30-119 | CONNECTED is entered from another state only on a server ack of AUTH/REQUEST. DISCONNECTED is produced only by the server. A failed assertion happens only on an ack |
| ConnectionFsm.HeartbeatKeepsState | src/core/state.cpp:50-60 | A server PING or a client PONG leaves every live state unchanged |
| ConnectionFsm.ConnectedIsAbsorbing | src/core/client.cpp:106-116 | From CONNECTED every message leads back to CONNECTED and never to ERROR; the one exception is an acknowledged PING/PONG, which fails an assertion |
| ConnectionFsm.DisconnectedOrigins | src/core/state.cpp:83-113 | DISCONNECTED comes exactly from a server REJECT in CHALLENGING_WAIT or a server too-many-attempts or invalid-auth-message in AUTHENTICATING |
| ConnectionFsm.BackwardTransitions | src/core/state.cpp:77-107 | REDIRECT in CHALLENGING_WAIT returns to AWAIT_CONNECTION; invalid auth data in AUTHENTICATING returns to AWAIT_AUTHENTICATION |
| ConnectionFsm.ClientMessagesBeforeConnected | src/core/state.cpp:63-118 | Before CONNECTED a client message other than PONG moves on only as a non-ack challenge response in CHALLENGING or a non-ack auth request in AWAIT_AUTHENTICATION, and gives ERROR otherwise |
| ConnectionFsm.ChallengeWaitOutcomes | src/core/client.cpp:129-143 | From CHALLENGING_WAIT: an acked challenge response, REDIRECT and REJECT lead to AWAIT_AUTHENTICATION, AWAIT_CONNECTION and DISCONNECTED |
| ConnectionFsm.AuthenticatingOutcomes | src/core/client.cpp:149-169 | From AUTHENTICATING: an acked auth request connects; too many attempts and an invalid auth message disconnect |
| ConnectionFsm.UnlistedIsError | src/core/client.cpp:171-174 | A message of any other topic gives ERROR before CONNECTED and keeps CONNECTED |
| ConnectionFsm.HandshakeConnects | src/core/test/test-client.cpp:27-58 | The challenge, challenge response, ack, auth request and ack sequence leads from AWAIT_CONNECTION to CONNECTED |
| ConnectionFsm.RunStaysConnected | src/core/state.cpp:50-60 | Any trace run from CONNECTED ends in CONNECTED or in a failed assertion |
| ConnectionFsm.ConnectedNeedsAuthAck | src/core/state.cpp:109-113 | A trace that reaches CONNECTED from another state contains a server acknowledgement of an auth request |
| LegacyFsm.LegacyTransition | src/client.cpp:37-137 | Assertions fail only for CONNECTION and AUTH messages; CONNECTED is entered only from AUTHENTICATING on a server ack of AUTH/REQUEST without arguments |
| LegacyFsm.LegacyHandshakeSteps | src/client.cpp:48-101 | Challenge, a challenge response with one argument and an auth request with two arguments move the handshake forward |
| LegacyFsm.LegacyArgumentCountChecked | src/client.cpp:59-68 | A challenge response with an argument count other than one fails an assertion |
| LegacyFsm.LegacyAuthenticatingOutcomes | src/client.cpp:103-134 | From AUTHENTICATING: an ack connects, too many attempts disconnects, and invalid auth data returns to AWAIT_AUTHENTICATION |
| LegacyFsm.LegacyRejectDisconnects | src/client.cpp:81-90 | A REJECT with at most one argument disconnects from CHALLENGING_WAIT; more arguments fail an assertion |
| LegacyFsm.LegacyConnectedIsError | src/client.cpp:136 | In the older machine every message received in CONNECTED gives ERROR |
| LegacyFsm.LegacyHasNoHeartbeat | src/client.cpp:136 | The older machine turns a server PING into ERROR where the current one keeps the state |
| LegacyFsm.LegacyLifetimeConnects | test/client.cpp:27-61 | The lifetime sequence of the older client reaches CONNECTED |
| LegacyFsm.LegacyConnectedOnlyAtEnd | src/client.cpp:103-112 | A trace of the older machine that ends in CONNECTED starts in a live state other than CONNECTED, and its last exchange is the auth acknowledgement |
| Order.SortedKeys | src/core/event.cpp:291-306 | The names of a `std::map` in iteration order: each exactly once, strictly increasing |
| Order.SortKeys | src/core/event.cpp:291-306 | Computes the iteration order of a set of names |
| CoreEvent.Event.constructor | src/core/event.cpp:32-38 | A new registry is empty and satisfies the registry invariant |
| CoreEvent.Event.Emit | src/core/event.cpp:44-62 | An empty name throws and changes nothing. Otherwise EVENT(name, data) is always sent, queued exactly when the send failed, and delivered locally to the name's subscribers, if any |
| CoreEvent.Event.Subscribe | src/core/event.cpp:64-88 | An empty name throws and changes nothing. Otherwise the callback is stored under the counter's old value, which is returned; the id is appended to the name's list; SUBSCRIBE is sent only for a new name; the invariant is kept |
| CoreEvent.Event.UnsubscribeAll | src/core/event.cpp:93-116 | An unknown name changes nothing. Otherwise the name and all its callbacks are dropped, and UNSUBSCRIBE is sent only when no name is left |
| CoreEvent.Event.Unsubscribe | src/core/event.cpp:121-146 | An unknown name or id changes nothing. Otherwise only that id and its callback go, and the name goes when its list empties |
| CoreEvent.Event.EraseAt | src/core/event.cpp:137-141 | Erasing one id from a name's list removes it and its callback and keeps the invariant, except that the list may now be empty |
| CoreEvent.Event.Listen | src/core/event.cpp:148-165 | An empty pattern throws. An existing listener is never replaced, and LISTEN is sent only on the first registration |
| CoreEvent.Event.Unlisten | src/core/event.cpp:167-181 | The pattern is forgotten; UNLISTEN is sent only when it was registered |
| CoreEvent.Event.Notify | src/core/event.cpp:183-211 | EVENT messages go to the subscribers, pattern found/removed messages to the listeners, and acknowledgements change nothing |
| CoreEvent.Event.NotifySubscribers | src/core/event.cpp:213-248 | A non-ack event calls, in order, the callback of every id the name had before the first call; an ack or an unknown name calls nothing |
| CoreEvent.Event.NotifyListeners | src/core/event.cpp:250-286 | The pattern's listener is asked about the match. The answer is sent as LISTEN_ACCEPT or LISTEN_REJECT only for a found subscription |
| CoreEvent.Event.OnConnectionStateChange | src/core/event.cpp:288-315 | On OPEN: SUBSCRIBE per name, then LISTEN per pattern, in key order, each loop stopping at its first failed send; then the queue is drained front first, a message leaving it only once sent |
| CoreEvent.Event.Drain | src/core/event.cpp:307-313 | Sends queued messages front first until one fails; exactly the delivered ones leave the queue |
| CoreEvent.Event.ResendAll | src/core/event.cpp:291-298 | Sends the messages in order and stops after the first failed send |
| CoreEvent.OwnedIdsDistinct | src/core/event.cpp:83-84 | Under the ownership invariant, an id occurs in one list at one position only, and the ids of all lists are the keys of the callback map |
| CoreEvent.OwnedAfterAdd | src/core/event.cpp:70-85 | Appending a fresh id to a name's list keeps the ownership invariant |
| CoreEvent.OwnedAfterErase | src/core/event.cpp:137-141 | Erasing one id from a list keeps the ownership invariant for the remaining ids |
| CoreEvent.OwnedAfterDrop | src/core/event.cpp:104-109 | Dropping a name and the ids of its list keeps the ownership invariant |
| CoreEvent.RegistryAfterAdd | src/core/event.cpp:70-85 | A subscription keeps the registry invariant; the new id is in no list yet |
| CoreEvent.RegistryAfterErase | src/core/event.cpp:137-141 | Erasing one id keeps the registry invariant; only that name's list may become empty |
| CoreEvent.RegistryAfterDrop | src/core/event.cpp:104-109 | Dropping a name with all its callbacks restores the full registry invariant |
| LegacyEvent.AddedContents | src/event.cpp:54-76 | Subscribing adds the name and exactly the (name, callback) pair; no pair is held twice |
| LegacyEvent.AddedIdempotent | src/event.cpp:58-68 | Subscribing the same callback twice is the same as subscribing it once |
| LegacyEvent.RemovedContents | src/event.cpp:95-119 | Removal keeps every other name's callbacks. A name with one entry is dropped whatever the callback. Otherwise only the matching callback goes |
| LegacyEvent.RemovedUndoesAdded | src/event.cpp:95-119 | Removing a callback that was just added restores the registry |
| LegacyEvent.RemovedDropsOtherSingleEntry | src/event.cpp:114-118 | As written, removing a different callback from a name's single entry drops the name |
| LegacyEvent.Event.constructor | src/event.cpp:47-77 | A new registry is empty and well formed |
| LegacyEvent.Event.Subscribe | src/event.cpp:47-77 | An empty name throws and changes nothing. The first subscription to a name sends one SUBSCRIBE; later ones send nothing and skip a pair already held |
| LegacyEvent.Event.SendRequest | src/message_builder.cpp:41-49 | Builds and sends a request for a name; a name holding byte 31 throws and sends nothing |
| LegacyEvent.Event.UnsubscribeAll | src/event.cpp:80-92 | An absent name does nothing; otherwise all its entries go and exactly one UNSUBSCRIBE is sent |
| LegacyEvent.Event.Unsubscribe | src/event.cpp:95-119 | With several entries, only the matching callback goes and nothing is sent. With one entry, the whole name goes and UNSUBSCRIBE is sent |
| LegacyEvent.Event.Listen | src/event.cpp:128-140 | The first listener for a pattern is kept and LISTEN is sent once |
| LegacyEvent.Event.Unlisten | src/event.cpp:143-155 | An unknown pattern is a no-op; otherwise the pattern goes and UNLISTEN is sent |
| CorePresence.AnswersConcat | src/core/presence.cpp:114-115 | Answering a list of querents answers its first part, then the rest, so the loop's calls grow one querent at a time |
| CorePresence.LoginsConcat | src/core/presence.cpp:130-135 | Telling a list of subscribers tells its first part, then the rest, so the loop's calls grow one subscriber at a time |
| CorePresence.Presence.constructor | src/core/presence.cpp:28-34 | A new registry is empty and satisfies its invariant |
| CorePresence.Presence.Subscribe | src/core/presence.cpp:36-53 | Returns the counter's old value and advances the counter; the callback is stored under that id, which is appended; SUBSCRIBE is sent only when there was no subscriber; ids stay distinct and match the callback keys |
| CorePresence.Presence.Unsubscribe | src/core/presence.cpp:55-76 | An unknown id changes nothing. Otherwise the id and its callback go, and UNSUBSCRIBE is sent exactly when the list becomes empty |
| CorePresence.Presence.UnsubscribeAll | src/core/presence.cpp:78-87 | Clears both containers and always sends UNSUBSCRIBE |
| CorePresence.Presence.GetAll | src/core/presence.cpp:89-98 | The callback joins the querents; QUERY("Q") is sent only when it is the only one waiting |
| CorePresence.Presence.Notify | src/core/presence.cpp:100-136 | Acks are ignored. A query answer gives all arguments, in order, to every querent and clears them. A login or logout calls each subscriber with `is_login` true exactly for JOIN |
| CorePresence.Presence.CallSubscribers | src/core/presence.cpp:126-135 | Calls the callbacks of a snapshot of the subscriber list, in order, with the first argument as the user and `is_login` true exactly for JOIN; with no subscriber nothing is called and no argument is read |
| CorePresence.Presence.CollectUsers | src/core/presence.cpp:110-112 | The user list is every argument of the message, in order |
| CorePresence.Presence.AnswerQuerents | src/core/presence.cpp:114-115 | Calls every querent, in order, with the user list |
| CorePresence.SubscribeUnsubscribeRestores | src/core/presence.cpp:36-76 | Subscribing and then unsubscribing the same id restores the list and the callback map |
| LegacyPresence.LoginsConcat | src/presence.cpp:105-111 | Telling a list of subscribers tells its first part, then the rest, so the loop's calls grow one subscriber at a time |
| LegacyPresence.SubscribedContents | src/presence.cpp:47-63 | Subscribing keeps the list free of duplicates, adds exactly the callback, and is idempotent |
| LegacyPresence.UnsubscribeUndoesSubscribe | src/presence.cpp:67-83 | Unsubscribing a callback that was just subscribed restores the list |
| LegacyPresence.Presence.constructor | src/presence.cpp:31-35 | A new registry has no subscriber |
| LegacyPresence.Presence.Subscribe | src/presence.cpp:47-63 | A callback already present changes nothing; otherwise it is appended, and SUBSCRIBE is sent exactly when the list grows from empty |
| LegacyPresence.Presence.Unsubscribe | src/presence.cpp:67-83 | An unknown callback is a no-op; otherwise it is removed, and UNSUBSCRIBE is sent exactly when the list becomes empty |
| LegacyPresence.Presence.Notify | src/presence.cpp:87-112 | Acks are ignored; a login or logout calls every subscriber of a snapshot, with `is_login` true exactly for JOIN |
| MessageBuilding.FrameConcat | src/message_builder.cpp:98-104 | Framing distributes over concatenation of argument lists |
| MessageBuilding.FrameLength | src/message_builder.cpp:53-67 | The framed arguments take one byte per argument plus all argument bytes |
| MessageBuilding.FindAfterArgument | src/message_builder.cpp:43-48 | In an argument free of byte 31 and followed by a separator, the first byte 31 is the one just after it |
| MessageBuilding.FrameRoundTrip | src/message_builder.cpp:88-109 | Splitting the framed arguments at byte 31 gives back the arguments when none of them holds byte 31 |
| MessageBuilding.SeparatorBreaksFraming | src/message_builder.cpp:43-48 | An argument holding byte 31 frames like two arguments, which is why `add_argument` refuses it |
| MessageBuilding.ArgumentsReadBack | src/message_builder.cpp:88-109 | A serialised message starts with the header bytes, ends with byte 30, and its arguments can be read back between them |
| MessageBuilding.FrameOfTwo | src/message_builder.cpp:98-104 | Two arguments frame as byte 31, the first, byte 31, the second |
| MessageBuilding.AuthRequestBytes | test/message.cpp:41-72 | The human-readable form "A\|REQ\|user\|password+" stands for the AUTH/REQUEST header, separators and the two arguments |
| MessageBuilding.AuthRequestExample | test/core/test-message_builder.cpp:31-53 | AUTH/REQUEST with "user" and "password" serialises to the bytes of "A\|REQ\|user\|password+" |
| MessageBuilding.FrameStep | src/message_builder.cpp:98-104 | One more argument adds byte 31 and its bytes to the frame |
| MessageBuilding.Copy | src/message_builder.cpp:95-104 | `std::copy` into the buffer: the bytes before the position stay, the source follows, and the new position is returned |
| MessageBuilding.MessageBuilder.constructor | src/message_builder.cpp:29-37 | A new builder holds its header and no arguments |
| MessageBuilding.MessageBuilder.AddArgument | src/message_builder.cpp:41-49 | An argument holding byte 31 throws and leaves the arguments unchanged; any other is appended at the end. Byte 30 is not checked |
| MessageBuilding.MessageBuilder.Size | src/message_builder.cpp:53-67 | The size is the length of the serialised message |
| MessageBuilding.MessageBuilder.NumArguments | src/message_builder.cpp:76-79 | The count is the number of arguments read back from the frame |
| MessageBuilding.MessageBuilder.Get | src/message_builder.cpp:82-85 | The i-th argument is the i-th one read back from the frame |
| MessageBuilding.MessageBuilder.ToBinary | src/message_builder.cpp:88-109 | Fills a buffer of exactly `size()` bytes with the header, each argument after byte 31, and a final byte 30 |
| MessageProxying.MessageProxy.Get | src/message_proxy.cpp:64-74 | The i-th argument is exactly the bytes of the buffer at its location |
| MessageProxying.MessageProxy.ToBinaryAsWritten | src/message_proxy.cpp:77-80 | As written: the first `size_` bytes of the buffer, whatever the proxy's offset |
| MessageProxying.MessageProxy.ToBinary | src/message_proxy.cpp:77-80 | The `size_` bytes of the buffer from the proxy's own offset |
| MessageProxying.NewProxyIsEmpty | src/message_proxy.cpp:34-42 | A new proxy keeps its buffer, offset and header, has no arguments, and spans its header |
| MessageProxying.LocationAt | src/message_proxy.cpp:64-74 | The i-th argument of a frame starts one byte after the frame of the arguments before it |
| MessageProxying.LocationCovers | src/message_proxy.cpp:64-74 | Each location lies inside the buffer and covers exactly its argument |
| MessageProxying.ProxyReadsMessage | src/message_proxy.cpp:58-80 | A proxy over a serialised message at any offset reads back the argument count, every argument and the message bytes |
| MessageProxying.ToBinaryIgnoresOffset | src/message_proxy.cpp:77-80 | For a second message in the buffer, `to_binary` as written returns the first message |
| Parsing.HeaderTokens | src/parser.cpp:26-31 | A token is a header token exactly when it maps to a header; EOF, UNKNOWN, PAYLOAD and the record separator are not |
| Parsing.CodeInjective | include/parser.h:18-33 | Distinct tokens have distinct codes |
| Parsing.HandledAppends | src/parser.cpp:53-134 | A step advances the offset by the match length; messages and errors only grow, by at most one entry in total |
| Parsing.OutOfPlaceToken | src/parser.cpp:55-60 | A token in the wrong mode adds one UNEXPECTED_TOKEN error at the old offset and changes nothing else |
| Parsing.HeaderStartsMessage | src/parser.cpp:64-133 | A header token in header mode leaves header mode and adds exactly its message; TOKEN_E_L gives EVENT/LISTEN |
| Parsing.PayloadTokens | src/parser.cpp:69-87 | In payload mode: the record separator returns to header mode, payload only advances, EOF adds UNEXPECTED_EOF, and UNKNOWN adds UNEXPECTED_TOKEN |
| Parsing.EndOfFileBetweenMessages | src/parser.cpp:55-60 | As written, EOF in header mode is an out-of-place token: it records UNEXPECTED_TOKEN |
| Parsing.RunConcat | src/parser.cpp:35-137 | Running two token sequences one after the other is running their concatenation |
| Parsing.PayloadRun | src/parser.cpp:81-83 | A run of payload tokens only advances the offset |
| Parsing.RecordParses | src/parser.cpp:35-137 | A header, payload and record separator parse into exactly one message with no error, back in header mode |
| Parsing.ParserState.constructor | include/parser.hpp:43-55 | A new parser starts in header mode at offset 0 with no messages and no errors |
| Parsing.ParserState.Handle | src/parser.cpp:35-137 | One step: returns the token it was given and updates the state as the step function does |
| PayloadCodec.TypeOf | include/deepstream/lib/json-handler.hpp:91 | Reading a prefix byte gives the type whose prefix it is |
| PayloadCodec.PrefixRoundTrip | include/deepstream/lib/json-handler.hpp:60-74 | Each type's prefix reads back as that type, and distinct types have distinct prefixes |
| PayloadCodec.GetType | include/deepstream/lib/type-serializer.hpp:33-48 | Objects and arrays map to OBJECT, strings to STRING, numbers to NUMBER, booleans to TRUE/FALSE by value, null to NULL_; never UNDEFINED |
| PayloadCodec.ToPrefixedBuffer | include/deepstream/lib/json-handler.hpp:50-77 | The buffer starts with the value's prefix. A string follows raw, and an object, array or number follows as its dump. Null and booleans are the prefix alone |
| PayloadCodec.SerializerToJson | include/deepstream/lib/type-serializer.hpp:79-89 | Parses the bytes after the offset; a failure reports one error naming them and gives null |
| PayloadCodec.HandlerToJson | include/deepstream/lib/json-handler.hpp:79-83 | The parse result, with a failure left uncaught |
| PayloadCodec.PrefixedToJson | include/deepstream/lib/json-handler.hpp:85-127 | An empty buffer reports one error and gives null; no buffer reports more than one error |
| PayloadCodec.StringIsVerbatim | include/deepstream/lib/type-serializer.hpp:99-102 | The STRING prefix returns the rest verbatim, even when it looks like JSON |
| PayloadCodec.ConstantsIgnorePayload | include/deepstream/lib/json-handler.hpp:98-112 | NULL_ and UNDEFINED give null and TRUE/FALSE give the boolean, whatever follows the prefix |
| PayloadCodec.ParsedPayload | include/deepstream/lib/json-handler.hpp:114-125 | OBJECT and NUMBER parse the rest. A failure gives null and one error, which names the rest for `TypeSerializer` and the whole buffer for `JSONHandler` |
| PayloadCodec.SerializerDelegates | include/deepstream/lib/type-serializer.hpp:120-124 | `TypeSerializer` hands OBJECT and NUMBER payloads to its `to_json` at offset 1 |
| PayloadCodec.RoundTrip | include/deepstream/lib/type-serializer.hpp:50-126 | Decoding a prefixed buffer gives back the value with no error, for every value whose dump parses back |
| PayloadCodec.HandlerToJsonDoesNotCatch | include/deepstream/lib/json-handler.hpp:79-83 | `to_json` lets a parse failure through, where `prefixed_to_json` reports it and gives null |
| PayloadCodec.SerialTestCases | test/lib/test-serial.cpp:48-228 | The expected results of the serial tests: the empty buffer, "Sfoo", "S[1, 2, 3]", "Tunexpected payload", "O", "N.2.3", and `ps"st` serialised as `Sps"st` |
| JsonVariant.QuoteStr | src/json-variant-visitor.cpp:30-33 | The string between two double quotes, nothing escaped |
| JsonVariant.JoinSnoc | src/json-variant-visitor.cpp:37-49 | One more string adds one delimiter and that string |
| JsonVariant.JoinLength | src/json-variant-visitor.cpp:37-49 | n strings joined hold n - 1 delimiters |
| JsonVariant.JoinSmall | src/json-variant-visitor.cpp:37-49 | Joining nothing gives ""; joining one string gives it back |
| JsonVariant.JoinLoop | src/json-variant-visitor.cpp:37-49 | The index loop builds the elements in order with the delimiter between consecutive ones only |
| JsonVariant.Digits | src/json-variant-visitor.cpp:52-55 | A natural number renders as a non-empty string of decimal digits |
| JsonVariant.DigitsRoundTrip | src/json-variant-visitor.cpp:52-55 | Reading the digits back gives the number |
| JsonVariant.IntToStringInjective | src/json-variant-visitor.cpp:52-55 | The rendering of an `int` determines the `int` |
| JsonVariant.RenderingSign | src/json-variant-visitor.cpp:52-55 | A rendering starts with a minus sign exactly when the number is negative |
| JsonVariant.Elements | src/json-variant-visitor.cpp:77-86 | One rendering per array element |
| JsonVariant.Entries | src/json-variant-visitor.cpp:88-97 | One `"key": value` rendering per object member |
| JsonVariant.ContainerBrackets | src/json-variant-visitor.cpp:77-97 | Arrays render between brackets and objects between braces; empty ones as `[]` and `{}` |
| JsonVariant.SingletonContainers | src/json-variant-visitor.cpp:77-97 | A one-element container renders its element alone, with no delimiter |
| JsonVariant.QuotesAreNotEscaped | src/json-variant-visitor.cpp:30-33 | Two different arrays render alike, so the rendering does not determine the value |
| JsonVariant.Stringify | src/json-variant-visitor.cpp:62-109 | The visitor as written, with its loops into a vector, gives the rendering of the value |
| Random.Engine.Uniform | src/random.cpp:51-54 | A uniform draw lies within its bounds |
| Random.Remap | src/random.cpp:58-70 | The remap never yields byte 30 or 31 |
| Random.RemapInjective | src/random.cpp:62-70 | The remap is injective |
| Random.RemapOnto | src/random.cpp:62-70 | Every byte other than the two separators is the remap of some draw |
| Random.MakeArgument | src/random.cpp:47-76 | The argument's length is within the bounds and it holds neither separator |
| Random.MakeHeader | src/random.cpp:30-44 | The header is one of the given headers |
| Random.MakeMessage | src/random.cpp:90-109 | The message keeps its header, has an argument count within the header's bounds, and every argument has the default length bounds and holds neither separator, so `add_argument` accepts it |
| Random.MakeRandomMessage | src/random.cpp:80-87 | A message with a known header and an argument count within that header's bounds |

## Left out

- The network is not modelled: the websocket clients, the Poco socket and SSL plumbing, the login and redirect loops, and the frame reading. A send is a log entry, and its success comes from a fixed reply stream.
- The builder of `src/core/message_builder.cpp` is not modelled. The core event and presence registries build their messages as values that cannot throw. The older registries use `src/message_builder.cpp` (modelled in `MessageBuilding`) and do throw on byte 31.
- `Message::Header::to_binary`, `Header::size`, `Header::all` and `Message::num_arguments` are not modelled. They are parameters: the header's bytes, a list of headers, and a table of argument bounds. `from_human_readable` follows its tests (`|` is byte 31, `+` is byte 30).
- The flex-generated scanner is not modelled. The parser step takes its tokens and match lengths as input.
- The parser step records each message as the buffer pointer, topic, action and ack flag (`deepstream::Message` of include/message.hpp:47-65) and leaves its argument locations `data_` empty, because the TOKEN_PAYLOAD case at src/parser.cpp:81-83 does nothing yet. The model keeps the header and drops the buffer pointer, which is the same for every message of one parser.
- The error handler only prints to stderr. Those reports (unknown subscriber or listener) are dropped; the state does not change in those branches.
- User callbacks are opaque. A callback that changes the registry while it runs is covered only by the snapshot the loops iterate over. A listener's answer is a parameter of the registry.
- Floating point is left out: `double` values in `deepstream::Value` and numeric payloads such as "N2.3". The JSON library's `parse` and `dump` are parameters. Its numbers are integers here.
- `get_type` throws for a JSON kind that is none of those listed; the JSON values here have no such kind. `to_buffer` is `dump` and is not modelled apart.
- The numeric values of `PayloadType` are not modelled. The prefix letters O S N T F L U come from test/lib/test-serial.cpp.
- Protocol.CChar: `char` is taken as signed and eight bits wide, as on x86 Linux. This fixes the `std::map` order that `Order.LexLess` gives to names holding bytes of 128 or more, and the draw range `[CHAR_MIN, CHAR_MAX - 2]` of `Random.Remap`. A platform where `char` is unsigned (ARM) is not modelled.
- The Mersenne Twister and the uniform distribution's mapping are not modelled. The engine is a stream of draws, and `Uniform` promises only its bounds.
- `size_t` and `SubscriptionId` wrap-around, and the `int` accumulator in `size_impl_`, are not modelled: counts and sizes are unbounded.
- `ConnectionState` changes reach the event registry as a flag that says whether the connection is OPEN.
- The older presence registry's `subscribe(const SubscribeFn&)` wraps the callback in a newly allocated `SubscribeFnPtr`, which can never already be present. Only `subscribe(p_f)` is modelled.
- The older `Event::send_` result is ignored by its callers and is not modelled apart from the log.
- LegacyEvent.Event.Unsubscribe: the single-entry case erases an already-erased iterator. That is undefined behaviour, modelled as removing the name.
- PayloadCodec.PrefixedToJson: a prefix byte of no known type falls off the end of the switch without returning, so it is required to be a known prefix (`Dispatchable`).
- ConnectionFsm.Transition: the entry assertions (the state is neither ERROR nor DISCONNECTED, and the argument count is within the header's bounds) are preconditions. A failed assertion inside a branch is the outcome `AssertionFailure`.
- CoreEvent.Event.Notify: the `assert(0)` for an unexpected action and the assertions on argument counts and ack flags are the precondition `Notifiable`.
- CorePresence.Presence.Notify: the topic assertion and the `assert(0)` for an action other than the listed ones are the precondition `Notifiable`. So is a first argument for a login or logout, demanded only when there is a subscriber to read it.
- LegacyPresence.Presence.Notify: the assertions on the topic, on the action of an ack (SUBSCRIBE or UNSUBSCRIBE) and on the action of anything else (PRESENCE_JOIN or PRESENCE_LEAVE) are the precondition `Notifiable`. So is a first argument for a login or logout, demanded only when there is a subscriber to read it.
- CoreEvent.Event.Unsubscribe: the assertion that an id missing from the name's list has no callback is a precondition.

## Findings

| source | as written | input that shows it | evidently intended | confidence | as-written member | corrected member |
|---|---|---|---|---|---|---|
| src/message_proxy.cpp:77-80 | `to_binary` copies `size_` bytes from the start of the buffer and ignores `offset_` | a buffer holding the header-only messages `[66, 30]` and then `[65, 30]`, with a proxy for the second at offset 2 and size 2: the result is `[66, 30]` | the `size_` bytes from `base_ + offset_`, i.e. the proxy's own message | not executed | MessageProxying.MessageProxy.ToBinaryAsWritten (shown by MessageProxying.ToBinaryIgnoresOffset) | MessageProxying.MessageProxy.ToBinary (used by MessageProxying.ProxyReadsMessage) |
