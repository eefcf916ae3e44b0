# NagaBridge BLE stack: a verified model

NagaBridge connects EcoFlow devices to a home automation bus over Bluetooth Low Energy.  This project
models the part of it that has to be right for anything else to work, and proves what that part is for:

- the **PowerStream Type1 wire stack** — the two checksums, the packet printer and parser, the 5A5A
  handshake frame, the padded CBC transport and the incremental stream decoder;
- the **Delta 2 framing** and its decoder;
- the **BLE connection lifecycle** — retries, backoff, subscription and cleanup with clients that may fail
  at every operation;
- the **event bus**;
- the two **adapters**, as state machines whose steps are the stretches of code between real suspension
  points, and as objects whose methods take those steps.

## How the files fit together

| file | what it holds |
|---|---|
| `Gf2.dfy`, `Registers.dfy`, `ShiftRegister.dfy`, `Crc.dfy` | polynomials over GF(2), bit facts, shift registers in general, the two checksums |
| `Orbits.dfy` | long runs of the CRC-16 register, needed for one question about the handshake frame |
| `Bytes.dfy`, `Lengths.dfy`, `Wrappers.dfy` | octets, little-endian fields, `Option` and `Result` |
| `Packets.dfy`, `SimpleFrames.dfy`, `Cbc.dfy`, `Type1.dfy` | the PowerStream wire formats |
| `WireFormats.dfy` | the wire formats octet by octet: what stands at which offset of what is sent, and where what is received is read from |
| `StreamDecoder.dfy` | greedy incremental decoding in general; both decoders are instances |
| `Delta2Protocol.dfy` | the Delta 2 wire format |
| `Backoff.dfy`, `RadioScript.dfy`, `BleConnection.dfy` | the connection lifecycle: the waits, how a script of outcomes decides a series of attempts, and the connection object |
| `EventBus.dfy`, `Topics.dfy` | the bus and the adapters' topics |
| `Merges.dfy`, `Snapshots.dfy`, `AdapterState.dfy` | running merges of dictionaries, what PowerStream packets publish, and what both adapters share |
| `PowerstreamMachine.dfy`, `PowerstreamGuarantees.dfy`, `PowerstreamRecovery.dfy` | the PowerStream adapter as a machine, and what holds of all its runs |
| `PowerstreamActions.dfy`, `PowerstreamWrites.dfy` | what each action does, spelled out in fields and octets, and which writes an epoch can show |
| `PowerstreamAdapter.dfy`, `PowerstreamSystem.dfy` | the adapter as an object, and on top of its connection object |
| `Delta2Machine.dfy`, `Delta2Guarantees.dfy`, `Delta2Telemetry.dfy`, `Delta2Adapter.dfy` | the Delta 2 adapter: the machine, what holds of all its runs, what it publishes for what it hears, and the object |

`dafny verify dfyconfig.toml` checks everything.

## How the model reads the code

- **Octets** are 8-bit vectors, checksums are 8- and 16-bit vectors, lengths are integers packed explicitly
  into two octets.  Errors are `Option` and `Result` values, and a method that may raise returns whether it
  did.
- **The cipher** is an arbitrary permutation of 16-octet blocks with an initialization vector; chaining and
  zero padding are modelled and the inverse of CBC (section 6.2 of NIST SP 800-38A) is proved.
- **Suspension points.** `EventBus.publish` never suspends, so one notification is one step.  Connecting,
  reconnecting, writing, disconnecting, sleeping and waiting for the authentication reply suspend, and
  notifications, commands, lost peers and the lifecycle calls interleave there in any order.  Lifecycle
  calls themselves are serial: start is not called on a running adapter, nor stop before start has returned.
- **Parsers** of decrypted payloads are arbitrary total functions, because they catch everything.  Values in
  the published dictionaries are strings.
- **Publishing never raises** once an adapter has started: start subscribes to the command topic first, and
  that topic is valid exactly when all the topics the adapter publishes on are (`Topics.CommandTopicDecides`).
- **Backoff** is computed over the reals.
- **The radio** reads the outcome of every client operation from a script, of which it keeps its place: success,
  raising with or without effect, losing the peer.  The script is arbitrary, so the connection is proved against
  every behaviour; its contracts say which outcomes a call uses and how they decide its end, and particular
  scripts exhibit where its guarantees end.

## Where the code does less than one might expect

These are facts about the code, each with the member that proves or exhibits it.

- Packets of version 0 and 1 are written two octets shorter than they are read back, so they are refused, and
  a stream swallows them whole without losing its place.  Version 2 has no routing octets, which come back as
  zero.  `Packets.RoundTripExactly` says exactly which packets survive.
- The parser does not look at octets 5, 10 and 11, so an accepted frame re-serializes to itself exactly when
  those are 0D, 00, 00 and the version is at least 2 (`Packets.ReserializesExactly`).
- The encoder does not mask the payload, the decoder unmasks it: what was encoded comes back as its exclusive
  or with the first sequence octet (`Type1.EncodedIsRecovered`).
- `parse_simple` finds a frame behind mark-free garbage exactly when the garbage does not end with 5A
  (`SimpleFrames.RecoveredExactly`).
- Calling `connect` directly after the peer has silently vanished leaves the new client without a subscription
  exactly when the flag is still set from the old client and the first attempt succeeds: that is the condition in
  the contract of `BleConnection.BleConnection.Connect`, and `BleConnection.UnsubscribedClient` is such a run.
  `reconnect`, which the adapters use, always subscribes once on the new client.
- "At most one client is connected" holds at every point of every history in which no disconnect raised
  (`BleConnection.RunHistory`).  A disconnect that raises may have left the link up, and the connection forgets
  the client; `BleConnection.TwoConnectedClients` is a run that ends with two connected clients.  Whether the
  link was left up is not visible to a caller, so no exact condition is claimed here.
- The PowerStream poll loop never repairs the health by polling.  After a command or an authentication has failed
  on a link that stays up, the health stays away from ok for as long as no poll fails
  (`PowerstreamRecovery.PollingRepairsNothing`).
- When the key or the connection object cannot be made, start logs that the poll loop will retry.  It does not:
  nothing makes a connection object any more, and until a stop the health stays failed
  (`PowerstreamRecovery.FailedSetupIsNeverRepaired`).
- The Delta 2 adapter does not check that it is running before it handles a notification.  After stop its
  health stays failed exactly as long as no late octets complete a status packet and no legacy notification
  arrives (`Delta2Guarantees.StaysFailedExactly`); nothing is published in any case.  The PowerStream adapter
  ignores late notifications.
- A Delta 2 reconnect that fails can leave the state online: exactly when status was heard while it was pending
  (`Delta2Guarantees.ReconnectIsAnnounced`).
- A write that is suspended while its peer is lost may still succeed after the next poll has begun a reconnect.  So
  what an epoch shows as written was issued in it if and only if no write of that command was suspended as it
  began (`PowerstreamWrites.MarksMeanIssuedExactly`); `PowerstreamWrites.StaleWriteIsMarked` is such a run.  The
  packets of the authentication are never written by a command, so an ok health never rests on a stale write
  (`PowerstreamWrites.OkWasWritten`).
- A stop whose disconnect raises stops half way, in both adapters, with the bus still held and the health as it
  was (`PowerstreamGuarantees.StopEndsQuietlyExactly`, `Delta2Guarantees.StopEndsExactly`).
- The repository's README names the battery topic `ecoflow/powerstream/bat_state`; the code publishes on
  `ecoflow/powerstream_battery/state`.  The model follows the code.

## Model

| member | source | states |
|---|---|---|
| Crc.ComputeCrc8 | src/nagabridge/adapters/powerstream/protocol.py:44-58 | the nested bit loops leave in the register what absorbing the octets one by one gives, for any length |
| Crc.ComputeCrc16 | src/nagabridge/adapters/powerstream/protocol.py:61-71 | the same for the reflected loop, and the final mask changes nothing |
| Crc.Crc8IsRemainder | src/nagabridge/adapters/powerstream/protocol.py:44-58 | a register value is the remainder of M(x) x^8 by x^8+x^2+x+1 if and only if it is the crc8 of M, for messages of any length |
| Crc.Crc16IsRemainder | src/nagabridge/adapters/powerstream/protocol.py:61-71 | a register value, read reflected, is the remainder of M(x) x^16 by x^16+x^15+x^2+1 if and only if it is the crc16 of M |
| Crc.Crc8Linear | src/nagabridge/adapters/powerstream/protocol.py:44-58 | crc8 of the exclusive or of two messages of one length is the exclusive or of their crc8 values |
| Crc.Crc16Linear | src/nagabridge/adapters/powerstream/protocol.py:61-71 | the same for crc16 |
| Crc.Crc8DetectsOneOctet | src/nagabridge/adapters/powerstream/protocol.py:50-58 | messages of one length that differ in exactly one octet never share a crc8, however long they are |
| Crc.Crc16DetectsTwoOctets | src/nagabridge/adapters/powerstream/protocol.py:61-71 | messages of one length that differ only within two adjacent octets never share a crc16 |
| Crc.Crc16Residue | src/nagabridge/adapters/powerstream/protocol.py:165-167 | two tail octets match the crc16 of what precedes them if and only if the register, run over everything, ends at zero |
| Packets.ToBytes | src/nagabridge/adapters/powerstream/protocol.py:119-133 | the growing buffer ends as header, check, fixed octets, sequence, addresses, optional routing, command, payload and tail |
| Packets.SerializeCarries | src/nagabridge/adapters/powerstream/protocol.py:119-133 | which octet of a serialized packet carries which field, index by index, for every version |
| Packets.SerializePasses | src/nagabridge/adapters/powerstream/protocol.py:119-167 | a serialized packet of version 2 or more has exactly the length its header announces and passes both checks |
| Packets.ParseDecides | src/nagabridge/adapters/powerstream/protocol.py:139-182 | for each of the five errors, exactly which data is refused for it, and that exactly the complete frames that pass both checks are accepted |
| Packets.ParsePrefix | src/nagabridge/adapters/powerstream/protocol.py:155-167 | octets behind the announced length do not matter, and a frame of that length is accepted if and only if it passes both checks |
| Packets.ParseSerialized | src/nagabridge/adapters/powerstream/protocol.py:119-182 | parsing a serialized packet followed by anything gives the packet back, with routing zeroed for version 2 and the payload unmasked on request, which is the exclusive or octet by octet of WireFormats.UnmaskedPayload |
| Packets.OldVersionsRefused | src/nagabridge/adapters/powerstream/protocol.py:128-160 | serialized packets of version 0 and 1 are refused as truncated |
| Packets.RoundTripExactly | src/nagabridge/adapters/powerstream/protocol.py:119-182 | parsing undoes serialization if and only if the version carries all fields and unmasking has nothing to change |
| Packets.ReserializesExactly | src/nagabridge/adapters/powerstream/protocol.py:119-182 | an accepted frame re-serializes to its own octets if and only if its version is at least 2 and octets 5, 10, 11 are 0D, 00, 00 |
| Packets.ParsedShape | src/nagabridge/adapters/powerstream/protocol.py:155-182 | whatever is accepted has the version and the payload length its header announces |
| WireFormats.SerializedOctets | src/nagabridge/adapters/powerstream/protocol.py:119-133 | the octets of a serialized packet by offset and value: AA, version, length low octet first, crc8 of the first four, 0D, sequence, 00 00, addresses, routing from version 3 on, command, payload, crc16 of the rest low octet first |
| WireFormats.AcceptedOctets | src/nagabridge/adapters/powerstream/protocol.py:155-182 | of every accepted packet, which octet of the data each field and each payload octet is, with the payload masked or not |
| WireFormats.UnmaskedPayload | src/nagabridge/adapters/powerstream/protocol.py:178-180 | with the exclusive or on, the i-th payload octet of any accepted packet is the one at 16 + i (version 2) or 18 + i on the wire, exclusive or octet 6 |
| SimpleFrames.AcceptedIffResidueZero | src/nagabridge/adapters/powerstream/protocol.py:210-220 | a complete frame is accepted if and only if the register over inner octets and tail ends at zero |
| SimpleFrames.FindsFrameExactly | src/nagabridge/adapters/powerstream/protocol.py:203-206 | the search stops at the frame if and only if the garbage holds no mark and does not end with half of one |
| SimpleFrames.ParseEncoded | src/nagabridge/adapters/powerstream/protocol.py:190-220 | every payload of at most 65535 octets comes back from behind such garbage, whatever follows |
| SimpleFrames.ShiftedReadingFails | src/nagabridge/adapters/powerstream/protocol.py:203-220 | read one octet early, no frame gives its own payload back, whatever the payload |
| SimpleFrames.RecoveredExactly | src/nagabridge/adapters/powerstream/protocol.py:190-220 | a payload is encoded if and only if its length fits, and from behind mark-free garbage it comes back if and only if the garbage does not end with 5A |
| WireFormats.SimpleOctets | src/nagabridge/adapters/powerstream/protocol.py:190-193 | the octets of an encoded handshake frame by offset and value: 5A 5A 11 01, length low octet first, payload, crc16 low octet first |
| WireFormats.FoundOctets | src/nagabridge/adapters/powerstream/protocol.py:196-220 | for any data, a payload is found if and only if two marks stand somewhere, nowhere earlier, and from there on the data is long enough, its inner octets are sealed and those at 6 to 6 + n are that payload |
| Orbits.MovedFrameFails | src/nagabridge/adapters/powerstream/protocol.py:61-71 | 262 octets and a last one on which the crc16 register ends at zero do not end at zero when moved behind an octet 5A |
| Cbc.DecryptEncrypt | src/nagabridge/adapters/powerstream/protocol.py:237-254 | decryption gives the plaintext back with its zero padding, for any block permutation, plaintext and vector |
| Cbc.PaddedLength | src/nagabridge/adapters/powerstream/protocol.py:239-240 | the padded length is the least whole number of blocks that holds the data |
| Cbc.PaddingIsZero | src/nagabridge/adapters/powerstream/protocol.py:239-240 | what is added to the plaintext is zeros, fewer than sixteen |
| Cbc.EncryptOctets | src/nagabridge/adapters/powerstream/protocol.py:237-244 | every ciphertext block is the cipher applied to the padded plaintext block exclusive or the ciphertext block before it, the first one with the vector |
| Cbc.DecryptOctets | src/nagabridge/adapters/powerstream/protocol.py:246-254 | data is refused if and only if it is no whole number of blocks; otherwise every block, of any ciphertext, is the inverse cipher of it exclusive or the block before it |
| Type1.EncodedFrame | src/nagabridge/adapters/powerstream/protocol.py:239-292 | an encoded packet starts with its header in the clear and has exactly the length the decoder computes from that header |
| Type1.EncodedIsRecovered | src/nagabridge/adapters/powerstream/protocol.py:256-302 | decrypting, cutting and parsing an encoded packet of version 2 or more gives exactly the packet a receiver should get |
| Type1.DecodePackets | src/nagabridge/adapters/powerstream/protocol.py:261-308 | the loop over shrinking data emits the packets and leaves the buffer that greedy decoding of buffer and chunk gives, and terminates |
| Type1.DecoderIsStable | src/nagabridge/adapters/powerstream/protocol.py:271-306 | every step of the decoder that takes octets takes at least one and is not revised when more octets follow |
| Type1.ChunkInvariant | src/nagabridge/adapters/powerstream/protocol.py:261-308 | for any buffer and any cutting of any octets, packets and final buffer are those of one call on the whole |
| Type1.RestIsBounded | src/nagabridge/adapters/powerstream/protocol.py:280-295 | the buffer never exceeds 65556 octets and nothing can be taken from it |
| Type1.RestBoundIsReached | src/nagabridge/adapters/powerstream/protocol.py:288-295 | a buffer of exactly 65556 octets can be left |
| Type1.OldVersionYieldsNothing | src/nagabridge/adapters/powerstream/protocol.py:288-306 | a frame of version 0 or 1 is consumed and yields nothing, whatever it contains |
| Type1.RecoveredMatchesHeader | src/nagabridge/adapters/powerstream/protocol.py:297-302 | a packet that is emitted is valid and has the version and payload length its header announced |
| Type1.DecodeTransmission | src/nagabridge/adapters/powerstream/protocol.py:271-306 | garbage without a header and frames with any bodies are decoded one by one, whatever came before and follows |
| Type1.ListRoundTrip | src/nagabridge/adapters/powerstream/protocol.py:237-308 | any list of encoded packets, with inert garbage before any of them and cut into chunks anywhere, comes back exactly and in order, with an empty buffer |
| Type1.FaultIsolation | src/nagabridge/adapters/powerstream/protocol.py:283-306 | replacing the body of one frame costs at most that frame's packet; all others come back in order and the buffer ends empty |
| WireFormats.RecoveredOctets | src/nagabridge/adapters/powerstream/protocol.py:288-306 | any whole frame, of any origin, yields a packet if and only if its header is intact, its version at least 2 and the opened packet sealed; then one packet, whose fields and payload octets are those at their offsets, unmasked |
| WireFormats.KeptOctets | src/nagabridge/adapters/powerstream/protocol.py:280-295 | what the decoder keeps is nothing, or starts with AA and is either shorter than a header or an intact header with less than the whole frame it announces |
| WireFormats.ListArrives | src/nagabridge/adapters/powerstream/protocol.py:237-308 | the packets that come back of a list sent, cut anywhere, field by field: each payload octet is the one sent exclusive or the first sequence octet, and packets of version 0 and 1 do not arrive |
| StreamDecoder.ChunkInvariance | src/nagabridge/adapters/powerstream/protocol.py:261-308 | any greedy decoder whose decisions persist gives the same packets and buffer however its input is cut |
| StreamDecoder.RunAppend | src/nagabridge/adapters/delta2/protocol.py:34-53 | decoding a prefix and then its residue with the rest is decoding the whole |
| StreamDecoder.RestIsFixed | src/nagabridge/adapters/delta2/protocol.py:34-53 | decoding a residual buffer with no new data changes nothing |
| StreamDecoder.RestIsSuffix | src/nagabridge/adapters/powerstream/protocol.py:267-308 | the residual buffer is a suffix of the input |
| Delta2Protocol.DecodePackets | src/nagabridge/adapters/delta2/protocol.py:34-53 | the loop that pops and deletes emits the packets and leaves the buffer that greedy decoding gives, and terminates |
| Delta2Protocol.ChunkInvariant | src/nagabridge/adapters/delta2/protocol.py:34-53 | for any buffer and any cutting of any octets, packets and final buffer are those of one call on the whole |
| Delta2Protocol.RestIsBounded | src/nagabridge/adapters/delta2/protocol.py:40-53 | the buffer never exceeds 257 octets and nothing can be taken from it |
| Delta2Protocol.RestBoundIsReached | src/nagabridge/adapters/delta2/protocol.py:40-53 | a buffer of exactly 257 octets can be left |
| Delta2Protocol.DecompositionDecidesPackets | src/nagabridge/adapters/delta2/protocol.py:34-53 | however the octets are read as prefix-free gaps, frames and an incomplete remainder, the packets are the decoder's |
| Delta2Protocol.DecodingIsDecomposition | src/nagabridge/adapters/delta2/protocol.py:25-53 | packets and remainder are the decoder's if and only if the octets decompose into gaps, exactly those packets' encodings and that remainder |
| Delta2Protocol.ListRoundTrip | src/nagabridge/adapters/delta2/protocol.py:25-53 | encoded packets between prefix-free gaps, cut anywhere, come back in order with an empty buffer |
| WireFormats.Delta2Octets | src/nagabridge/adapters/delta2/protocol.py:25-31 | payloads over 255 octets are refused; otherwise AA, the low octet of the kind, also for negative ones, the length, the payload |
| Backoff.WaitClosedForm | src/nagabridge/core/ble/connection.py:91-112 | the k-th wait is min(b 2^k, M) |
| Backoff.TotalWaitBound | src/nagabridge/core/ble/connection.py:91-112 | n waits take at most n M and at most b (2^n - 1) |
| Backoff.WaitSign | src/nagabridge/core/ble/connection.py:110-112 | a retry waits if and only if the first wait is positive, so without backoff there is none |
| Backoff.DefaultWaits | src/nagabridge/core/ble/connection.py:31-32 | with the defaults the waits are 1, 2, 4, 8, 16, 30, 30 |
| RadioScript.TryExactly | src/nagabridge/core/ble/connection.py:94-109 | an attempt succeeds if and only if the factory, the connect and, if due, the subscription do; it is stuck if and only if it does not, there is a client to clean up, and the last outcome it uses, that of the cleanup, is a raise |
| RadioScript.EndsExactly | src/nagabridge/core/ble/connection.py:91-115 | the script alone decides a series of attempts: it returns after k + 1 attempts if and only if the k-th succeeds and all before failed cleanly, raises from a cleanup after k + 1 if and only if that of the k-th does, and while no cleanup raises it returns if and only if one of the allowed attempts succeeds |
| BleConnection.CheckExactly | src/nagabridge/core/ble/connection.py:35-54 | exactly which configurations are accepted, and which complaint the others get |
| BleConnection.BleConnection.ConnectLoop | src/nagabridge/core/ble/connection.py:91-115 | on every script the loop ends as the series of attempts that starts from this state does, after as many attempts, with every wait between them; on success it leaves a client asked for exactly connect and, if due, one subscription, up exactly if no outcome lost the peer; otherwise no client and a cleared flag |
| BleConnection.BleConnection.Connect | src/nagabridge/core/ble/connection.py:79-115 | the handler is remembered even on failure; on a connected client exactly the missing subscription is issued, and the script decides whether it raises; otherwise the series of attempts read from the script at its present place decides the ending, the number of attempts and the waits, the new client is subscribed exactly when due, and no client and a cleared flag are left when it raises |
| BleConnection.BleConnection.Reconnect | src/nagabridge/core/ble/connection.py:117-120 | the script decides whether the disconnect raises, and if not how the attempts end and after how many; whenever it returns, the client was made in this call, connected, and subscribed exactly once; when it raises, no client and a cleared flag are left |
| BleConnection.BleConnection.Disconnect | src/nagabridge/core/ble/connection.py:122-132 | no client and a cleared flag are left even when stop_notify or the disconnect raises; which calls the abandoned client got, how many outcomes were used, whether it raises, and exactly when the client stays connected |
| BleConnection.BleConnection.SafeDisconnect | src/nagabridge/core/ble/connection.py:165-173 | the client is asked for a disconnect, and it and the flag are dropped even when that raises, which the script decides |
| BleConnection.BleConnection.EnsureNotificationsStarted | src/nagabridge/core/ble/connection.py:151-155 | start_notify is issued once, for the configured characteristic, if and only if a client and a handler are there and the flag is clear, and the flag is set if and only if the script lets it return |
| BleConnection.BleConnection.Write | src/nagabridge/core/ble/connection.py:134-143 | a client that is not connected is not asked and the write refused; a connected one gets exactly this data for the configured characteristic, in the configured response mode unless one is given, and the script decides whether the write returns or raises |
| BleConnection.RunHistory | src/nagabridge/core/ble/connection.py:79-173 | after any history of calls and lost peers in which no disconnect raised, and so at every point between two calls, at most one of all clients ever made is connected |
| BleConnection.ReconnectAfterAnyHistory | src/nagabridge/core/ble/connection.py:79-173 | after connect with a handler and any such history, a reconnect that returns ends on a new client subscribed once for that handler |
| BleConnection.TwoConnectedClients | src/nagabridge/core/ble/connection.py:165-173 | a disconnect that raises without taking the link down, then a connect, ends with two connected clients |
| BleConnection.UnsubscribedClient | src/nagabridge/core/ble/connection.py:87-97 | a peer that vanishes, then a direct connect, ends in a connected client with a handler that was asked for nothing but connect |
| EventBus.ValidTopicExactly | src/nagabridge/core/bus.py:28-28 | a topic is valid if and only if it is three non-empty slash-free segments joined by slashes |
| EventBus.EventBus.Subscribe | src/nagabridge/core/bus.py:58-65 | refused exactly for malformed topics; otherwise the lists are those of the history grown by this call |
| EventBus.EventBus.Unsubscribe | src/nagabridge/core/bus.py:67-73 | refused exactly for malformed topics; otherwise the lists are those of the history grown by this call |
| EventBus.EventBus.Publish | src/nagabridge/core/bus.py:75-96 | refused exactly for malformed topics; otherwise one task per handler of the list, in its order, each with this topic and payload, and the spawned tasks are those of the history grown by this call |
| EventBus.EventBus.SpawnAll | src/nagabridge/core/bus.py:93-96 | one task per handler in list order, each held until it is finished |
| EventBus.EventBus.Topics | src/nagabridge/core/bus.py:125-128 | the topics with a subscriber, in the order of their first subscription |
| EventBus.EventBus.SubscriberCount | src/nagabridge/core/bus.py:114-117 | the length of the topic's list, refused exactly for malformed topics |
| EventBus.HandlersInOrder | src/nagabridge/core/bus.py:58-73 | over any history a topic's list holds exactly the handlers whose latest call was subscribe, none twice, in the order of becoming present |
| EventBus.DeliveriesExactly | src/nagabridge/core/bus.py:75-96 | over any history a handler is spawned exactly the payloads published on its topic while it was subscribed, in order |
| EventBus.ListedExactly | src/nagabridge/core/bus.py:125-128 | a topic is listed if and only if some handler's latest call for it was subscribe |
| EventBus.TopicsInTurn | src/nagabridge/core/bus.py:125-128 | the listed topics are in the order of the first subscription each got, so none is listed twice |
| Topics.TopicsDiffer | src/nagabridge/core/topics.py:11-20 | the state topic and the battery topic of a device are never the same |
| Topics.CommandTopicDecides | src/nagabridge/core/topics.py:11-24 | the command topic is valid if and only if the state, battery and health topics all are |
| Topics.TopicsOfOneDevice | src/nagabridge/core/topics.py:11-24 | the four topics of a device spelled out |
| Merges.RunningMergeHolds | src/nagabridge/adapters/powerstream/adapter.py:245-248 | the i-th running merge says of a key what the last of the first i + 1 contents to name it says |
| Snapshots.PacketPublishesExactly | src/nagabridge/adapters/powerstream/adapter.py:216-239 | a packet of command 14/01 publishes its parse merged into the state cache on the state topic, one of 14/04 the same for the battery, every other packet publishes nothing and changes no cache |
| Snapshots.SnapshotsAreRunningMerges | src/nagabridge/adapters/powerstream/adapter.py:215-248 | for any packets the snapshots on each of the two topics are the running right-biased merges of that kind's parsed payloads, and the caches never mix |
| Snapshots.PublishAppend | src/nagabridge/adapters/powerstream/adapter.py:215-248 | publishing two batches in turn is publishing them at once |
| PowerstreamMachine.AlwaysInv | src/nagabridge/adapters/powerstream/adapter.py:141-343 | in every interleaving the lifecycle is consistent, the health is earned, and buffer, caches and snapshots follow from the octets received |
| PowerstreamMachine.TakeInAppend | src/nagabridge/adapters/powerstream/adapter.py:208-248 | taking in a stream in two stretches publishes and leaves what taking it in at once does |
| PowerstreamMachine.StageShows | src/nagabridge/adapters/powerstream/adapter.py:303-331 | a stage counted step by step names the marks that witness it, in order |
| PowerstreamGuarantees.OkIsEarned | src/nagabridge/adapters/powerstream/adapter.py:264-343 | in every interleaving an ok health means that since the last connect or reconnect began the link came up and, with a user, the auth-status and then the auth packet were written |
| PowerstreamGuarantees.WaysIntoOk | src/nagabridge/adapters/powerstream/adapter.py:270-295 | health turns ok only when a connect without a user returns or when the auth packet has been written |
| PowerstreamGuarantees.MarksAreTrue | src/nagabridge/adapters/powerstream/adapter.py:264-331 | the evidence is honest: a mark is set only by the action that achieves it, one at a time, and all are void once a connect or reconnect begins |
| PowerstreamWrites.MarksArePaid | src/nagabridge/adapters/powerstream/adapter.py:264-343 | from any point without marks at which a command is not being written, through any interleaving: as many marks as the epoch shows for it, plus its suspended writes, so many of it were issued since or were suspended then |
| PowerstreamWrites.MarksMeanIssuedExactly | src/nagabridge/adapters/powerstream/adapter.py:194-206 | for every command and every reachable point without marks at which it is not being written, such as the beginning of any epoch: in all continuations a mark means that the command was issued since if and only if no write of it was suspended as the epoch began |
| PowerstreamWrites.StaleWriteIsMarked | src/nagabridge/adapters/powerstream/adapter.py:194-262 | a run in which a write issued before a reconnect began is the only mark of the new epoch |
| PowerstreamWrites.OkWasWritten | src/nagabridge/adapters/powerstream/adapter.py:303-331 | whenever the health of an adapter with a user is ok, 35/89 and 35/86 were both issued since the epoch began |
| PowerstreamWrites.PollWrites | src/nagabridge/adapters/powerstream/adapter.py:250-262 | in every reachable state between polls, a poll on a live link issues exactly 02/22 and changes nothing else but the task; on a lost one it issues nothing, reports failed once, keeps the caches and begins a new epoch |
| PowerstreamActions.NotifyDoes | src/nagabridge/adapters/powerstream/adapter.py:208-226 | a notification that is listened to sets the event authentication waits for if and only if there is one and a packet of command 35/86 is decoded, and changes neither task, link, health, writes nor marks |
| PowerstreamActions.CommandsDo | src/nagabridge/adapters/powerstream/adapter.py:181-206 | a status request is 02/22; a load power is 14/81 if and only if it is a number from 0 to 8000, and otherwise reports failed even without a connection; either is written on a live link, fails on a lost one and is nothing without a connection |
| PowerstreamGuarantees.BytesAreAccountedFor | src/nagabridge/adapters/powerstream/adapter.py:208-214 | every octet listened to is taken in once and in order; any other step leaves the receive path alone or drops the buffer as an epoch begins |
| PowerstreamGuarantees.StopIsFinal | src/nagabridge/adapters/powerstream/adapter.py:165-179 | in every run, once the adapter is without the bus, whatever happens until the next start leaves the health failed and publishes, reports and writes nothing |
| PowerstreamGuarantees.StopEndsQuietlyExactly | src/nagabridge/adapters/powerstream/adapter.py:176-179 | a stop that waits for its disconnect ends quietly, with failed reported last, if and only if the disconnect does not raise |
| PowerstreamGuarantees.StopWithoutConnection | src/nagabridge/adapters/powerstream/adapter.py:165-179 | a stop without a connection ends quietly at once |
| PowerstreamGuarantees.StoppingNeverTurnsOk | src/nagabridge/adapters/powerstream/adapter.py:165-179 | while a stop waits for its disconnect nothing turns the health ok |
| PowerstreamRecovery.RecoveryExactly | src/nagabridge/adapters/powerstream/adapter.py:250-331 | after a poll on a lost link, with a reconnect and two writes that succeed and anything but a stop interleaved, the health ends ok if and only if the peer was not lost between the return of the reconnect and the end of the wait; then exactly auth-status and auth were written, every octet heard meanwhile is in and the caches are kept |
| PowerstreamRecovery.PollingRepairsNothing | src/nagabridge/adapters/powerstream/adapter.py:250-262 | an adapter that is not ok and not connecting stays so, whatever interleaves, for exactly as long as no poll fails with a connection object at hand |
| PowerstreamRecovery.CommandFailureSticks | src/nagabridge/adapters/powerstream/adapter.py:203-206 | after a command has failed between or during polls, the health is not ok again before a poll fails too |
| PowerstreamRecovery.FailedSetupIsNeverRepaired | src/nagabridge/adapters/powerstream/adapter.py:152-163 | after a start that could not make the key or the connection object, until a stop the health stays failed and nothing is written |
| PowerstreamGuarantees.SnapshotsFollowTheStream | src/nagabridge/adapters/powerstream/adapter.py:208-248 | end to end: everything published since the last connect or reconnect began is the running merges of the packets in the concatenated octets, however they were cut, and the buffer stays within 65556 octets |
| PowerstreamGuarantees.SentIsPublished | src/nagabridge/adapters/powerstream/adapter.py:208-248 | when those octets are intact frames among inert garbage, the snapshots are those of exactly the packets sent and the buffer is empty |
| PowerstreamAdapter.PowerstreamAdapter.OnNotification | src/nagabridge/adapters/powerstream/adapter.py:208-240 | one notification decodes, merges, publishes and sets the auth event as the machine's step says, and does nothing without a bus or a key |
| PowerstreamAdapter.PowerstreamAdapter.PublishContent | src/nagabridge/adapters/powerstream/adapter.py:242-248 | one snapshot goes out, a copy of the cache the target chooses, which has gained exactly the new content over its old entries; the other cache is untouched |
| PowerstreamAdapter.PowerstreamAdapter.Start | src/nagabridge/adapters/powerstream/adapter.py:141-163 | the bus is taken in every case and nothing is written or published; a connect begins, on an empty buffer and epoch, exactly when serial number, key and connection object are there, and otherwise the degraded or failed health is reported once |
| PowerstreamAdapter.PowerstreamAdapter.Stop | src/nagabridge/adapters/powerstream/adapter.py:165-176 | the task is gone and nothing is written or published; the bus is released at once, failed and with buffer and caches empty, exactly when there is no connection, and otherwise nothing else changes until the disconnect ends |
| PowerstreamAdapter.PowerstreamAdapter.FailPoll | src/nagabridge/adapters/powerstream/adapter.py:258-292 | failed is reported once, nothing is written and the caches are kept; with a connection object a reconnect begins on an empty buffer and epoch, without one the adapter just sleeps again |
| PowerstreamAdapter.PowerstreamAdapter.BeginAuthentication | src/nagabridge/adapters/powerstream/adapter.py:303-320 | without a user the health is ok with nothing written; with a user on a live link the auth-status write is issued and the health stays; on a lost link failed is reported twice and nothing is written |
| PowerstreamAdapter.PowerstreamAdapter.PollDue | src/nagabridge/adapters/powerstream/adapter.py:250-258 | a poll on a live link issues exactly 02/22 and leaves health, reports, buffer and caches; on a lost link it issues nothing and fails the health |
| PowerstreamAdapter.PowerstreamAdapter.SetLoadPower | src/nagabridge/adapters/powerstream/adapter.py:185-206 | 14/81 is issued if and only if the power is a number from 0 to 8000 and the link is live; the health turns to failed if the power is refused or the link is lost, and is kept otherwise |
| PowerstreamAdapter.PowerstreamAdapter.WriteCommand | src/nagabridge/adapters/powerstream/adapter.py:194-206 | a command is written exactly on a live link, fails the health exactly on a lost one, and never touches link, task or snapshots |
| PowerstreamAdapter.Drive | src/nagabridge/adapters/powerstream/adapter.py:94-343 | an object driven through any interleaving is in the machine's state, so its health is ok only on evidence and its buffer stays within 65556 octets |
| PowerstreamSystem.PowerstreamSystem.EndConnect | src/nagabridge/adapters/powerstream/adapter.py:270-301 | a connect or reconnect ends for the adapter as it does for the connection object: the link is up if and only if the client is connected |
| PowerstreamSystem.Drive | src/nagabridge/adapters/powerstream/adapter.py:141-301 | with the connection object deciding how connects, reconnects and disconnects end, whatever falls due and whatever the radio does: while the adapter's task lives, an ok health means the current client was linked and subscribed exactly once for the adapter's handler, and the authentication packets were written since |
| Delta2Machine.AlwaysInv | src/nagabridge/adapters/delta2/adapter.py:60-155 | at every suspension point of every interleaving, ok means online, every ok on the bus follows an online state, the buffer is the residue of all octets ever received, and task, phase and link agree |
| Delta2Guarantees.OkMeansOnline | src/nagabridge/adapters/delta2/adapter.py:60-165 | an ok health comes with an online state, inside the adapter and on the bus |
| Delta2Guarantees.BufferFollowsTheStream | src/nagabridge/adapters/delta2/adapter.py:122-124 | across all reconnects the buffer is that of one decoding of all octets, however they were cut, and stays within 257 octets |
| Delta2Guarantees.ConnectIsAnnounced | src/nagabridge/adapters/delta2/adapter.py:64-73 | in every reachable state with a connect or reconnect pending, its end publishes one state and one health, ok if and only if it succeeded, online if and only if it succeeded or the state already was |
| Delta2Guarantees.ReconnectIsAnnounced | src/nagabridge/adapters/delta2/adapter.py:137-155 | a poll on a lost link goes offline without a word; whatever interleaves with the pending reconnect, its end is announced as ok if and only if it succeeded, and online if and only if it succeeded or status was heard meanwhile |
| Delta2Guarantees.ActionsDo | src/nagabridge/adapters/delta2/adapter.py:60-165 | what each kind of action does to task, phase, link, state, health, writes and suspended commands, told from the fields alone |
| Delta2Telemetry.PacketsAnnounced | src/nagabridge/adapters/delta2/adapter.py:122-132 | for any packets, the status becomes the merge of what the packets of kind 01 say, each with online set, and while there is a bus every running merge goes out, in order, followed by an ok health, and nothing else |
| Delta2Telemetry.TelemetryFollowsTheStream | src/nagabridge/adapters/delta2/adapter.py:122-132 | from every reachable state, whatever octets come in next and however they are cut: the states published are the running merges of the packets in the kept buffer followed by those octets |
| Delta2Telemetry.SentIsAnnounced | src/nagabridge/adapters/delta2/adapter.py:122-132 | when the buffer was empty and those octets are encoded frames between prefix-free gaps, the states published are those of exactly the packets sent and the buffer is empty again |
| Delta2Telemetry.LegacyAnnounced | src/nagabridge/adapters/delta2/adapter.py:114-120 | a legacy notification is merged and announced as one more content, without a bus only merged |
| Delta2Guarantees.NothingAfterStop | src/nagabridge/adapters/delta2/adapter.py:75-93 | in every run, once the adapter is without the bus, until the next start nothing is published or written, whatever arrives |
| Delta2Guarantees.OffIsResting | src/nagabridge/adapters/delta2/adapter.py:75-93 | in every run, without the bus there is no task and no connection |
| Delta2Guarantees.StaysFailedExactly | src/nagabridge/adapters/delta2/adapter.py:114-132 | after any stop that came to its end, the health stays failed until the next start if and only if no legacy notification arrives and the late octets, behind the kept buffer, complete no status packet |
| Delta2Guarantees.LateNotificationRevives | src/nagabridge/adapters/delta2/adapter.py:122-132 | one empty status packet that arrives after connect and stop sets the health to ok and the state to online |
| Delta2Guarantees.StopEndsExactly | src/nagabridge/adapters/delta2/adapter.py:85-93 | in every run a stop that waits for its disconnect leaves the adapter resting, offline and failed reported last, if and only if the disconnect does not raise |
| Delta2Guarantees.StopWithoutConnection | src/nagabridge/adapters/delta2/adapter.py:75-93 | in every run a stop without a connection rests at once, offline and failed reported last |
| Delta2Adapter.Delta2Adapter.OnNotification | src/nagabridge/adapters/delta2/adapter.py:122-132 | the buffer becomes what decoding leaves, the status the merge of what the decoded packets of kind 01 say with online set, and every running merge is announced with an ok health while there is a bus; packets of other kinds are skipped |
| Delta2Adapter.Delta2Adapter.ConnectReturned | src/nagabridge/adapters/delta2/adapter.py:64-73 | a state and a health go out; ok on success, degraded after a failed start, failed after a failed reconnect; the state has online set on success and is otherwise as it was; the buffer is kept |
| Delta2Adapter.Delta2Adapter.PollDue | src/nagabridge/adapters/delta2/adapter.py:139-155 | the heartbeat is set; on a live link nothing else of state and health changes and both go out, on a lost one the state goes offline and failed without a word and a reconnect is pending |
| Delta2Adapter.Delta2Adapter.FinishStop | src/nagabridge/adapters/delta2/adapter.py:87-93 | the bus and the connection are gone, the last two events are the state with online cleared and failed, and the buffer is kept |
| Delta2Adapter.Delta2Adapter.WriteCommand | src/nagabridge/adapters/delta2/adapter.py:104-112 | a command is written exactly on a live link, fails the health and reports it exactly on a lost one, and touches neither link nor state |
| Delta2Adapter.Drive | src/nagabridge/adapters/delta2/adapter.py:30-165 | an object driven through any interleaving is online whenever its health is ok |

## Left out

- AES and MD5 themselves, key derivation and the 32-octet authentication payload: library calls.  The cipher is an arbitrary block permutation, and authentication writes are identified by their command octets.
- Protobuf parsing, the float rounding of PowerStream values and the Delta 2 payload parsers: arbitrary total functions from octets to dictionaries.
- The octets of each command frame inside the adapters: a PowerStream write is recorded by its command set and id, a Delta 2 write by an already encoded frame.
- Dictionary values other than strings, health details and timestamps: published states map strings to strings, and health is its three-valued state.
- Exceptions inside a notification handler: decoding and parsing are total and publishing does not raise, so that branch is not reachable in the model.
- The bleak and paho clients, JSON, MQTT topic mapping, signal handling, logging, configuration files, the command line and the main program: plumbing around the modelled core.
- The Delta 2 Max adapter, configuration validators other than the connection's, name normalization, health aggregation and the Delta 2 command encoder: easy one-branch facts.
- Concurrent lifecycle calls and cancellation in the middle of a connect of start: lifecycle calls are serial, as the adapters make them.
- What cancelling the poll task leaves inside a connection object: the adapter models keep the link as it was and let it drop at any time.
- Wall-clock time: a sleep or a five-second wait may end at any moment; backoff waits are recorded, not measured.
- The writes of the adapters are not passed to the connection object: in the combined system it decides how connects, reconnects and disconnects end, while a write may return or raise at will.
- The Delta 2 machine is not combined with the connection object: its health does not depend on the subscription.
- Lists of handlers hold handler identities; what a handler does when its task runs is not modelled.
- Type1.DecodePackets: log output for skipped octets and damaged frames is not modelled.
