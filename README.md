# Command handlers and utilities of an MQTT broker, in Dafny

This project models two parts of a small MQTT 3.1.1 broker written in C.

The first part is the per-packet command handlers (`src/handlers.c`). Each
handler takes one decoded packet from a client, updates that client's
`struct client` in place, and returns `REPLY`, `NOREPLY`, a CONNACK return
code, or `-ERRCLIENTDC`. The update touches:

- the write buffer `wbuf` and its fill level `towrite`;
- the in-use flags of the inflight tables `i_msgs`, `i_acks` and `in_i_acks`, indexed by packet identifier;
- the session fields: client identifier, clean-session flag, last will, subscriptions and queued messages;
- the broker's topic table: subscribers and retained messages.

The second part is the helpers of `src/util.c`:

- the string and number helpers `is_integer`, `parse_int`, `number_len`, `remove_occur`, `append_string` and `update_integer_string`;
- the allocation accounting of `xmalloc`, `xcalloc`, `xrealloc`, `xfree` and `xmalloc_size`. It keeps a size header in front of every block and a global byte counter `memory`.

## Layout

- `mqtt.dfy` (module `Mqtt`) holds the fixed-size wire images the handlers write:
  - CONNACK and the four-byte acknowledgements are `MQTT_ACK_LEN` = 4 bytes (sections 3.2, 3.4 to 3.7 and 3.11 of MQTT 3.1.1);
  - PINGRESP is `MQTT_HEADER_LEN` = 2 bytes (section 3.13);
  - CONNACK and the acknowledgements each have a decoder, and round-trip lemmas tie the two together; the two PINGRESP bytes are stated outright;
  - the module also holds the decoded packet datatypes.
- `topics.dfy` (module `Topics`) holds:
  - topic-name normalisation for SUBSCRIBE and for PUBLISH;
  - the topic table as a map from name to subscribers and retained message;
  - adding and removing a subscriber, the wildcard fan-out and unsubscription.
- `sessions.dfy` (module `Sessions`) holds the state of one client as a value (`Session`, where `out` is `wbuf[..towrite]`).
  - Each handler is a pure step function on that value and on the topic table.
  - The protocol properties are lemmas about these functions.
- `handlers.dfy` (module `Handlers`) holds the handlers written as they work.
  - A `Client` class has `wbuf` and the three inflight tables as arrays, and the lists as sequence fields.
  - A `Broker` class has the configuration and the topic table.
  - Each handler method is proved to move the client and the table exactly as the matching step function says.
  - The module also holds the 15-slot dispatch table.
- `strings.dfy` (module `Strings`) holds:
  - `is_integer`, `parse_int` and `number_len` as methods with loops, each proved against a specification function;
  - `remove_occur`, in place on a character array;
  - the decimal rendering of `%d`;
  - `append_string`.
- `alloc.dfy` (module `Alloc`) holds:
  - the accounting as a value with step functions and lemmas;
  - a `Heap` class whose methods follow those steps;
  - `update_integer_string`.

## Modelling choices

The code is followed where it goes beyond the protocol:

- An empty client identifier with a persistent session is refused with return code 5 (not authorized), not 2.
- A client whose QoS 3 PUBLISH slips through is answered with a PUBACK.
- A returning client with a persistent session is sent its queued PUBLISH packets before its CONNACK (`Sessions.ConnectAccepted`). Section 3.2 of MQTT 3.1.1 asks for the CONNACK to be the server's first packet.
- The `wildcard` flag of SUBSCRIBE is never reset, so every tuple after a `/#` tuple is also fanned out (`Sessions.StickyIsAny`).
- `xrealloc` raises `memory` by the new size minus the old size plus one more header on every real resize (`src/util.c:248`).
  - The counter therefore equals the live blocks' sizes plus headers, plus 8 bytes for every such resize so far.
  - `Alloc.ReallocCounts` states this.
  - `Alloc.Heap` keeps the number of resizes in a ghost field, so that its invariant is exact.

Calls whose source is not part of this model become parameters:

- the PUBLISH and SUBACK encoders (`mqtt_pack`/`mqtt_size`) are a function `pack`;
- `check_passwd` is a predicate in the configuration;
- `generate_random_id` and the result of the double-CONNECT `strncmp` are a `ConnectOracle`;
- the identifiers `next_free_mid` hands out are a sequence `mids`;
- what `malloc`/`realloc` return is a parameter `got`.

## Model

| member | source | states |
|---|---|---|
| Mqtt.AckKindOf | src/handlers.c:529-530 | a header byte maps back to the acknowledgement kind that produces it, and to no other |
| Mqtt.IdBytes | src/handlers.c:530 | the packet identifier takes two bytes, most significant first, whose value is the identifier |
| Mqtt.AckBytes | src/handlers.c:559-560 | every acknowledgement is exactly MQTT_ACK_LEN bytes |
| Mqtt.AckRoundTrip | src/handlers.c:559-560 | decoding the four bytes of an acknowledgement gives back its kind and identifier |
| Mqtt.AckDecodeExact | src/handlers.c:575-576 | any four bytes that decode to a kind and identifier are exactly that acknowledgement's encoding |
| Mqtt.ConnackBytes | src/handlers.c:166-179 | a CONNACK is exactly MQTT_ACK_LEN bytes |
| Mqtt.ConnackRoundTrip | src/handlers.c:166-179 | decoding a CONNACK gives back the session-present bit and the return code |
| Mqtt.ConnackDecodeExact | tests/integration/test_connect.py:26-29 | bytes that read as a CONNACK are exactly the encoding of what they read as, so first byte 32 and return code 0 identify the accepting CONNACK |
| Mqtt.PingrespBytes | src/handlers.c:596-598 | PINGRESP is exactly MQTT_HEADER_LEN bytes |
| Topics.SubscribeName | src/handlers.c:385-397 | the stored name ends in '/'; it is the filter, the filter plus '/', or the filter without its final '#'; the last holds exactly when the filter ends in "/#" |
| Topics.SubscribeNameIdempotent | src/handlers.c:385-397 | normalising a stored name again changes nothing |
| Topics.PublishName | src/handlers.c:481-492 | the corrected publish normalisation: the name ends in '/', and it equals the topic exactly when the topic already ended in '/' |
| Topics.PublishNameIdempotent | src/handlers.c:489-492 | normalising a publish name again changes nothing |
| Topics.NamesAgree | src/handlers.c:390-397 | for every filter that is not a "/#" wildcard, SUBSCRIBE and (corrected) PUBLISH normalise to the same name |
| Topics.PublishNameAsWritten | src/handlers.c:481-492 | the code as written: defined only when the uninitialised byte after the copied topic is not '/', and then it always appends '/' |
| Topics.PublishNameAsWrittenDoublesSlash | src/handlers.c:481-492 | for every topic that already ends in '/', the as-written name differs from the name SUBSCRIBE stores |
| Topics.PublishNameAsWrittenExample | src/handlers.c:481-492 | a PUBLISH to "a/" is looked up as "a//", while a subscription to "a/" is stored as "a/" |
| Topics.WithoutClientSpec | src/handlers.c:449-450 | deleting a subscriber leaves no entry for that client, keeps every other entry, adds none, and changes nothing when the client was absent |
| Topics.AddSubscriberSpec | src/handlers.c:410 | after adding, the client is subscribed exactly once, with the new QoS, and the other subscribers are the ones before |
| Topics.FanOutSpec | src/handlers.c:401-407 | the wildcard walk subscribes the client to every existing topic under the prefix and to no other, creates no topic, and keeps retained messages |
| Topics.UnsubscribeSpec | src/handlers.c:446-451 | removing the client from a list of names creates and drops no topic, leaves the client in none of the named topics, and leaves the other topics and all retained messages untouched |
| Sessions.AckCompleted | src/handlers.c:544-553 | PUBACK/PUBCOMP clear i_msgs[id], i_acks[id] and has_inflight, and change no other slot and no other field |
| Sessions.AckRepliesDecode | src/handlers.c:555-581 | PUBREC appends four bytes that decode to PUBREL with the same identifier; PUBREL appends PUBCOMP with the same identifier and clears in_i_acks[id] and has_inflight |
| Sessions.Forwarded | src/handlers.c:97 | the forwarded QoS is the smaller of the publish QoS and the subscriber's QoS |
| Sessions.DeliverRule | src/handlers.c:107-143 | an offline subscriber is written nothing and has the message queued, downgraded and without identifier, only when its session is persistent; an online one is written exactly the downgraded PUBLISH, which carries the free identifier only when its QoS is above 0, and then takes that inflight slot |
| Sessions.PublishOutcome | src/handlers.c:512-541 | the publish handler answers NOREPLY exactly for QoS 0, and REPLY otherwise |
| Sessions.PublishReplyByQos | src/handlers.c:511-533 | QoS 0 changes nothing; QoS 2 appends a PUBREC for the original identifier and marks in_i_acks[id] and has_inflight; every other QoS appends a PUBACK; each reply is MQTT_ACK_LEN bytes after the earlier ones |
| Sessions.PublishTopicsSpec | src/handlers.c:498-507 | after a PUBLISH its topic exists with the subscribers it had; other topics are untouched; with the retain bit the retained message is the packed PUBLISH as received; without it an existing table is unchanged |
| Sessions.ConnectVerdict | src/handlers.c:190-208 | bad credentials exactly when there is no anonymous access and the username or password flag is missing, the username has no stored salt, or the password fails; otherwise not authorized exactly for an empty identifier with a persistent session |
| Sessions.PackAllPrefix | src/handlers.c:223-231 | sending the queued messages one by one only extends the bytes of the whole queue |
| Sessions.Accept | src/handlers.c:258-304 | on the accept path the identifier is the client's own (the generated one when empty), the clean-session flag is stored, a clean session has no subscriptions and no queued messages, a persistent one keeps both, and the will flag is set when a will is sent |
| Sessions.Flushed | src/handlers.c:214-235 | with a non-empty identifier and clean_session clear, the queued messages are appended packed in queue order; otherwise nothing changes; no field but the output ever changes |
| Sessions.ConnectMissingCredentials | src/handlers.c:190-192 | without anonymous access, a CONNECT missing the username or password flag gets one CONNACK with code 4, returns 4, and changes nothing else, whatever its identifier |
| Sessions.ConnectEmptyIdPersistent | src/handlers.c:207-208 | an authenticated CONNECT with an empty identifier and a persistent session gets one CONNACK with code 5, returns 5, and changes nothing else |
| Sessions.ConnectOutcomes | src/handlers.c:181-330 | each return value of connect_handler, with the exact condition for it in both directions |
| Sessions.ConnectEndsWithConnack | src/handlers.c:306-329 | unless the client is dropped, a CONNECT ends with one CONNACK whose session-present bit is 0 and whose code is the one returned (0 on REPLY), and earlier output is kept |
| Sessions.ConnectAccepted | src/handlers.c:258-311 | on REPLY the identifier, clean-session flag, lists and will flag are as the accept path sets them, the identifier is not empty when the generated one is not, the inflight tables are untouched, and the output grows by the packed queue and then CONNACK 0 for a returning persistent client, by CONNACK 0 alone otherwise |
| Sessions.StickyIsAny | src/handlers.c:366-394 | after some tuples, the wildcard flag is set exactly when one of them ended in "/#" |
| Sessions.SubscribeOne | src/handlers.c:399-420 | one tuple adds its requested QoS as the next return code and its stored name to the subscriptions |
| Sessions.SubscribeOneEffect | src/handlers.c:399-420 | one tuple stores the client under its name at exactly the requested QoS, keeps that topic's retained message, and appends that retained message to the output when there is one |
| Sessions.SubscribeOneOther | src/handlers.c:399-411 | a tuple leaves every other topic that its wildcard walk does not reach as it was |
| Sessions.SubscribeQos | src/handlers.c:388-411 | after the whole loop the client holds the requested QoS on the name of every tuple that no later tuple stores again or walks over |
| Sessions.SubackCodes | src/handlers.c:373-420 | there is one return code per tuple, in request order, each equal to the QoS requested |
| Sessions.SubscribeRecordsNames | src/handlers.c:411 | the subscriptions gain the stored name of every tuple, in order |
| Sessions.SubscribeJoins | src/handlers.c:399-411 | after SUBSCRIBE the client subscribes to the stored topic of every tuple, no topic is lost, and the output has only grown |
| Sessions.SubscribeReplies | src/handlers.c:423-436 | SUBSCRIBE returns REPLY, and its last output is the SUBACK for the request identifier carrying the requested QoS levels, after the retained messages |
| Sessions.UnsubscribeLeaves | src/handlers.c:439-461 | UNSUBSCRIBE returns REPLY, writes only an UNSUBACK with the request identifier, and leaves every listed topic; no topic appears or disappears, and the other topics and fields are untouched |
| Sessions.PingreqReplies | src/handlers.c:594-601 | PINGREQ appends exactly the two PINGRESP bytes and changes nothing else |
| Sessions.DisconnectLeaves | src/handlers.c:332-348 | DISCONNECT writes nothing and returns -ERRCLIENTDC; a clean session leaves every topic it recorded, and a persistent one leaves the table as it was |
| Handlers.Client.Write | src/handlers.c:142-143 | bytes go in at towrite, towrite advances by their number, and earlier bytes of wbuf are kept |
| Handlers.Client.SetPayloadConnack | src/handlers.c:166-179 | one CONNACK with session-present 0 and the given code is appended, and nothing else changes |
| Handlers.Client.SendOutgoing | src/handlers.c:223-231 | the loop appends every queued message, packed, in queue order |
| Handlers.Client.FlushQueued | src/handlers.c:214-235 | the client moves as Sessions.Flushed says |
| Handlers.Client.AcceptSession | src/handlers.c:258-311 | the fields move as Sessions.Accept says, then CONNACK 0 is appended |
| Handlers.Client.AnswerPublish | src/handlers.c:511-541 | the publisher's reply and return value are those of Sessions.PublishReply and Sessions.PublishOutcome |
| Handlers.Client.PubackHandler | src/handlers.c:544-553 | the client moves as Sessions.AckCompleted says, and the result is NOREPLY |
| Handlers.Client.PubcompHandler | src/handlers.c:583-592 | the client moves as Sessions.AckCompleted says, and the result is NOREPLY |
| Handlers.Client.PubrecHandler | src/handlers.c:555-569 | a PUBREL is appended, and the result is REPLY |
| Handlers.Client.PubrelHandler | src/handlers.c:571-581 | a PUBCOMP is appended, in_i_acks[id] and has_inflight are cleared, and the result is REPLY |
| Handlers.Client.PingreqHandler | src/handlers.c:594-601 | a PINGRESP is appended, and the result is REPLY |
| Handlers.DeliverTo | src/handlers.c:89-143 | one subscriber moves as Sessions.Deliver says |
| Handlers.PublishMessage | src/handlers.c:74-160 | every subscriber, taken with its own QoS and free identifier, moves as Sessions.Deliver says |
| Handlers.DeliverAt | src/handlers.c:89-143 | the i-th subscriber moves as Sessions.Deliver says and no other subscriber changes |
| Handlers.AnswerPublisher | src/handlers.c:511-541 | the publisher is answered as Sessions.PublishReply says and every other subscriber keeps its state |
| Handlers.DeliverAndAnswer | src/handlers.c:509-541 | every other subscriber is delivered to; the publisher is delivered to when it subscribes to the topic, and is then answered per its QoS |
| Handlers.Broker.RemoveSubscriber | src/handlers.c:446-451 | the loop removes the client from each named topic, as Topics.Unsubscribe says |
| Handlers.Broker.UnsubscribeHandler | src/handlers.c:439-461 | the client and the table move as Sessions.UnsubscribeStep says |
| Handlers.Broker.DisconnectHandler | src/handlers.c:332-348 | the client and the table move as Sessions.DisconnectStep says |
| Handlers.Broker.SubscribeTuple | src/handlers.c:385-420 | one turn of the loop moves the client, the table and the return codes as Sessions.SubscribeOne says |
| Handlers.Broker.SubscribeAll | src/handlers.c:366-421 | the loop, with the never-reset wildcard flag, moves the client and the table as Sessions.SubscribeTuples says, and returns its return codes |
| Handlers.Broker.SubscribeHandler | src/handlers.c:364-437 | the client and the table move as Sessions.SubscribeStep says |
| Handlers.Broker.Authenticate | src/handlers.c:190-201 | the credentials check succeeds exactly when Sessions.Authenticated holds |
| Handlers.Broker.AcceptOrDropClient | src/handlers.c:237-311 | a second CONNECT from an online client is dropped; otherwise the will topic is created and the client is accepted, as Sessions.AcceptOrDrop says |
| Handlers.Broker.AdmitOrDrop | src/handlers.c:214-311 | after both checks the handler flushes and then accepts or drops, as Sessions.Admitted says |
| Handlers.Broker.ConnectHandler | src/handlers.c:181-330 | the client, the table and the return value move as Sessions.ConnectStep says |
| Handlers.Broker.PublishHandler | src/handlers.c:463-542 | the topic is created and its retained message set per Sessions.PublishTopics; every subscriber is delivered to; the publisher is answered per its QoS; the return value is Sessions.PublishOutcome |
| Handlers.HandlerAt | src/handlers.c:56-72 | a slot is empty exactly for types 0, CONNACK, SUBACK, UNSUBACK and PINGRESP, and a filled slot holds the handler of its own type |
| Handlers.HandlerSlotUnique | src/handlers.c:56-72 | each handler sits in exactly one slot, the one numbered by its packet type |
| Handlers.HandleCommand | src/handlers.c:604-606 | for every 4-bit type: type 15 reads past the table, types 0, CONNACK, SUBACK, UNSUBACK and PINGRESP call an empty slot, and every other type calls the handler written for it |
| Handlers.DispatchCoversClientPackets | src/handlers.c:604-606 | among the packets the model decodes, the type indexes inside the table, and the slot is empty exactly for a SUBACK or an UNSUBACK |
| Strings.IsInteger | src/util.c:91-96 | the result is true exactly when every character is a decimal digit, so it is true for the empty string |
| Strings.LeadingDigits | src/util.c:103-106 | the characters parse_int reads are the longest run of digits at the start of the string |
| Strings.ParseInt | src/util.c:100-108 | the result is the value of the leading digit run |
| Strings.ParseValueIgnoresSuffix | src/util.c:100-108 | everything after the first non-digit is ignored |
| Strings.ParseValueNoDigit | src/util.c:100-108 | a string that does not start with a digit parses as 0 |
| Strings.NumberLen | src/util.c:159-166 | the result is 1 plus the number of decimal digits, so it is at least 1, and it is 1 exactly for 0 |
| Strings.RenderNat | src/util.c:133 | the decimal rendering is at least one character long and consists of digits |
| Strings.RenderNatValue | src/util.c:133 | the decimal rendering of n reads back as n |
| Strings.ParseRender | src/util.c:126-133 | a non-negative number rendered by "%d" parses back to itself; a negative one parses as 0 because of its '-' |
| Strings.RenderFits | src/util.c:132-133 | for every int, the "%d" rendering plus its NUL fits the buffer sized with number_len |
| Strings.RemovedSpec | src/util.c:110-122 | no occurrence of c is left, every other character keeps its multiplicity, and the length drops by the number of occurrences |
| Strings.RemovedIdempotent | src/util.c:110-122 | removing the same character twice is the same as removing it once |
| Strings.RemoveOccur | src/util.c:110-122 | in place and returning the same array, the string becomes the old one with every c removed and the others in order, is NUL-terminated, and bytes past the new terminator are untouched |
| Strings.Compact | src/util.c:114-117 | the read/write loop leaves the string without c, in order, at the start of the buffer, and touches nothing past the write index |
| Strings.CStrLen | src/util.c:147 | strlen: the first NUL, with no NUL before it |
| Strings.AppendString | src/util.c:146-153 | the fresh buffer holds strlen(src) + chunklen characters and a final NUL |
| Strings.AppendStringReads | src/util.c:146-153 | the result reads as src followed by the first chunklen characters of dst, and its strlen is their sum |
| Alloc.MallocCounts | src/util.c:190-204 | xmalloc returns NULL exactly when malloc does; otherwise the new block is recorded with the requested size and the counter stays exact; other blocks are untouched |
| Alloc.FreeCounts | src/util.c:260-275 | xfree releases exactly the given block, keeps every other, lowers the counter by its size plus the header, and changes nothing for NULL |
| Alloc.MallocThenFree | src/util.c:260-275 | a block freed right after it was allocated leaves the accounting as it was |
| Alloc.ReallocCounts | src/util.c:227-252 | a real resize moves the block to the new address with the new size, keeps the other blocks, and adds one header of drift to the counter; NULL behaves as xmalloc; an unchanged size returns the same pointer and a failed realloc returns NULL, and neither changes anything |
| Alloc.Heap.XMalloc | src/util.c:190-204 | the heap moves as Alloc.MallocStep says, and the counter keeps its drift from the live blocks |
| Alloc.Heap.XCalloc | src/util.c:210-221 | xcalloc is xmalloc of len * size bytes |
| Alloc.Heap.XRealloc | src/util.c:227-252 | the heap moves as Alloc.ReallocStep says, and the invariant with its resize drift is kept |
| Alloc.Heap.XFree | src/util.c:260-275 | the heap moves as Alloc.FreeStep says, and the counter keeps its drift from the live blocks |
| Alloc.Heap.XMallocSize | src/util.c:282-295 | the stored size of a block, and 0 for NULL |
| Alloc.UpdateIntegerString | src/util.c:124-139 | the new string is the "%d" rendering of parse_int(str) + num, and the block is resized to its length plus the NUL |

## Left out

- Logging (`sol_log*`), statistics counters (`info.*`) and the epoll write scheduling (`enqueue_event_write`) are I/O or bookkeeping outside the handlers' state.
- `unix_time_ns`, `generate_random_id`, `check_passwd` (`crypt`) and `get_fh_soft_limit` are clock, crypto and OS calls. The generated identifier and the password check are parameters.
- The double-CONNECT test compares with `strncmp(...) == 1`, and the magnitude of strncmp's result is unspecified, so its result is a parameter. The truncation of identifiers to `MQTT_CLIENT_ID_LEN` is not modelled.
- The internals of the topic trie, the subscriber hash tables and the memory pool (`sol_topic_*`, `trie_prefix_map`, `hashtable_*`, `memorypool_*`) are not part of this model.
  - The table is a map and subscribers are a sequence, so the iteration order of the hash tables is not captured.
  - `sol_topic_get` is taken as an exact lookup.
- Subscribers are identified by the client object, while the broker's subscriber tables are keyed by `client_id` (`src/handlers.c:358`). Two clients that share an identifier, or a subscribed client whose identifier a later CONNECT rewrites in place (`src/handlers.c:258`), are not modelled: the model keeps one entry per client object where the broker keeps one per name.
- `recursive_sub` also pushes each fanned-out topic onto the subscriptions of a persistent session. The model records only the tuple's own topic.
- The byte encodings of PUBLISH and SUBACK (`mqtt_pack`, `mqtt_size`, `mqtt_suback`) are not part of this model: they are the parameter `pack`.
- The contents and timestamps of inflight packets, and the type rewrite PUBREC makes in `i_acks`, are not modelled; only the in-use flags are.
- Queued messages are values. The source pushes the same shared packet for every offline subscriber and keeps changing it, so that aliasing is not captured.
- The payloads of the last will and of retained messages (`xstrdup`, `bstring_empty`) are abstract. The will topic is looked up as given, without normalisation, as in the source.
- `handle_command` calls through a function-pointer table. The table is modelled as `Handlers.HandlerAt` and the lookup as `Handlers.HandleCommand`, and each handler is its own method.
- The client the handlers read through `sol.clients[fd]` is taken to be the event's client.
- The atomicity of the `memory` counter, calloc's zeroing, and the overflow of `len * size` in `xcalloc` are not modelled: the counter is sequential and integers are unbounded.
- The `!realptr` tests in `xfree` and `xmalloc_size` cannot fail for a non-NULL pointer in this model.
- Handlers.Client.Write: requires the bytes to fit in `wbuf`, and so do the handler methods built on it. The source writes at `wbuf + towrite` without a bound check.
- Handlers.Broker.SubscribeHandler: requires every filter to be non-empty, and so do Sessions.SubscribeStep and Sessions.SubscribeTuples. The source reads `topic[topic_len - 1]`, which is out of bounds for an empty filter.
- Handlers.Client.PubackHandler: requires the identifier to index the inflight tables, and so do the other acknowledgement handlers. The source indexes its tables with the identifier unchecked.
- Handlers.Broker.PublishHandler: uses the corrected publish-topic normalisation (see Findings).
- Topics.SubscribeName: for the one-character filter "#", the source reads `topic[-1]` after seeing the '#' (`src/handlers.c:390-391`). That is out of bounds, and whether "#" then becomes a wildcard on "" depends on a byte nobody wrote. The model takes that byte as not '/' and stores the name "#/".
- Handlers.HandleCommand: `handle_command` (`src/handlers.c:604-606`) indexes the table with the type unchecked and calls the entry without a NULL check. A CONNACK, SUBACK, UNSUBACK, PINGRESP or type-0 packet from a client therefore calls a NULL function pointer, and type 15 reads past the 15 entries. The model names these outcomes (`NullSlot`, `PastTable`) and does not model the crash.
- Handlers.DispatchCoversClientPackets: the decoded packets of the model have no CONNACK, PINGRESP, type-0 or type-15 form, so this lemma covers SUBACK and UNSUBACK only; the other types are covered by `Handlers.HandleCommand`.
- Strings.AppendString: the result is a value. The `xmalloc(srclen + chunklen + 1)` that holds it (`src/util.c:148`) is not routed through `Alloc.Heap`, so the rise of `memory` by that size plus one header is not modelled. Neither is the crash when that allocation fails, since the result is written without a NULL check.
- Strings.ParseInt: integers are unbounded, so the signed overflow of `n * 10 + digit` on long digit runs is not modelled.
- Alloc.UpdateIntegerString: requires a non-NULL block, a successful realloc, and a sum within the range of `int`. The source does not check the realloc result before copying into it, and overflow of the addition is undefined. The bytes stored in the block are not modelled; the rendered string is returned instead.

## Findings

| source | as written | input that shows it | evidently intended | confidence | as-written member | corrected member |
|---|---|---|---|---|---|---|
| src/handlers.c:481-492 | `strncpy` copies exactly `topiclen` bytes, then the code tests `topic[topiclen]`, a byte it never wrote, to decide whether to append '/' | a PUBLISH to "a/" (when the stray byte is not '/') is looked up as "a//", so it misses the subscribers stored under "a/"; a PUBLISH to "a" when the stray byte is '/' leaves the name unterminated | test the last copied character, `topic[topiclen - 1]`, as SUBSCRIBE does, so that both sides normalise to the same name | not executed | Topics.PublishNameAsWritten | Topics.PublishName |
