# A verified model of mqttor

mqttor is a small MQTT 3.1.1 client library in C. This project models two layers of it and the byte trace that
joins them, and proves properties of both.

**The codec.** Remaining Length codes, length-prefixed strings, big-endian ids, the bounded payload buffer with its
write end and read cursor, and the pack and unpack functions. The packers collect segments back to front, sum a
remaining length on the way and copy the segments into one buffer; the unpackers walk an offset over the packet.

**The session.** Every client call (connect, disconnect, publish, subscribe, unsubscribe, pingreq) and the receiving
side, `on_publish`, over a socket whose operations may fail. `Protocol` writes each call as a program of socket
operations (`Enter`, `Wants`, `Next`); `Sessions.Session` is the imperative form, each method proved to do exactly
what that program does; `Outcomes`, `Runs`, `Refinement`, `Invariants`,
`Exchange` and `LateReplies` prove properties of that program.

| file | what it holds |
|---|---|
| Bytes.dfy, Errors.dfy | bytes, 16-bit numbers, C strings, `memcpy`; the error codes |
| RemainingLength.dfy | the length code and the three loops over it |
| Payload.dfy | the payload buffer as a class, and as a bounded queue of items |
| Packet.dfy | wire forms, views, inversion in both directions |
| Packing.dfy | the pack and unpack functions over arrays |
| Stream.dfy | splitting and parsing a stream of packets |
| Layout.dfy | every packet byte by byte, as numbers |
| ClientConfig.dfy, Subscriptions.dfy | CONNECT from a configuration; the filter list of SUBSCRIBE |
| Protocol.dfy, Session.dfy | the calls as programs; the session object |
| Runs.dfy | whole runs: the sent packets, the log, the trace |
| Refinement.dfy | what the trace of a client tells of its calls |
| Outcomes.dfy | what every call comes to, for every outcome of its operations |
| Invariants.dfy | ids, the connection, the QoS 2 exchange |
| Exchange.dfy | a publisher and a receiver joined by two channels |
| Late.dfy | the same exchange when receives fail and replies come late |

## How the environment is modelled

The outcomes of socket operations are a script of return values and delivered bytes; any finite script is allowed, and
an operation beyond its end fails. A receive may deliver fewer bytes than its buffer holds, even none; what arrives
overwrites the front of the buffer, and the rest keeps what was there (zeros, or the PUBREL that was just sent). A send
transmits everything or fails, and fails on a closed descriptor. Each session method requires that the second byte of
what a peer delivers is below 128: the code reads past its fixed reply buffers otherwise, and no packet that a client
waits for has a longer length code. The specification functions, and with them all lemmas, do without that requirement;
for replies whose second byte is 128 or more they speak of the model only, because there the C code reads past its
reply buffer or, for a SUBACK, follows a null payload pointer. Publishing requires a topic of at most 65535 characters,
which the source asserts. That a length code can announce the packet, with the QoS it goes out with, is asked of
`Publish` and where a statement is about parsing what was sent (`Codable`).

## Where code, documentation and standard differ

The model follows the code. Each point below is a proved statement.

- The length check allows 0xFFFFFF7F, but only lengths up to 268435455 fit four code bytes (`EncodeFits`,
  `CheckIsWeaker`).
- `write_string` narrows the length to 16 bits and copies that many characters, so strings survive exactly when they
  have at most 65535 characters (`ReadBackIff`, `SubscribeRoundTripIff`).
- `read_bytes` refuses a read that ends exactly at the end of the contents, and it returns E_NONE where the header
  promises a length (`ReadBackIff`, `ReadBytes`).
- `read_string` compares the cursor and the text with the contents but not the two length bytes, so a malformed payload
  takes the cursor up to one byte behind the contents; and its terminator needs one byte more than the limit it is
  given when the text has exactly that length (`ReadStrEdges`).
- CONNECT strings that do not fit the 1012-byte payload are left out without notice while their flags stay set; the
  server is told the configuration exactly when all strings fit (`ConnectRoundTripIff`).
- If not one of these strings fits by itself, as with a client id of 1011 characters and nothing else, CONNECT goes
  out without a payload, and a reader of the stream refuses it (`ConnectWellFormedIff`, `TraceParses`,
  `LongClientId`).
- A session is marked connected by any reply to CONNECT, also a refusal (`ConnectedWithoutAcceptanceIff`).
- A completed disconnect returns 2, the number of bytes sent, not E_NONE (`DisconnectCloses`).
- `mqttor_session_deinit` clears the socket but not the connected mark; a session reset while connected is stuck for
  good (`ConsistentIff`, `RunConsistent`, `ResetWhileConnectedIsStuck`). No header declares that function and nothing
  in the repository calls it, so this concerns only a program that declares it for itself.
- `on_publish` acknowledges with ids of its own counter: a PUBACK has the id of its PUBLISH only by coincidence, and
  PUBREC and PUBCOMP never both have it (`PubackEchoIff`, `PubrecPubcompNeverEcho`). It also sends PUBCOMP whether or
  not a PUBREL arrived; the second lemma asks nothing of that receive.
- Publish compares the type of a reply and not its id (`PubackIdIgnored`). After a receive that failed, the late reply
  passes for that of the next publish: E_NONE is returned without delivery, possibly, exactly when the first reply on
  its way is of the type expected (`DeceivedIff`). With QoS 0 and 1 that is exactly after some publish failed
  (`DeceivedAfterFailureIff`), and as long as all publishes succeed it does not happen (`SuccessMeansDelivery`).
- A receiver that waits for a PUBREL takes any packet for it, also the next PUBLISH, whose message is then lost for good
  while its sender is told E_NONE (`LostForGood`, `FailureThenLoss`).
- Ids start at 0, which section 2.3.1 of MQTT 3.1.1 forbids (`NEW_SESSION`, `IdsCountUp`).

## Model

| member | source | states |
|---|---|---|
| RemainingLength.EncodeCorrect | mqtt/src/mqtt_fixed_header.c:84-108 | the code of every length ends within its bytes, stands for the length, and has k bytes with 128^(k-1) <= n < 128^k |
| RemainingLength.EncodeFits | mqtt/src/mqtt_fixed_header.c:84-108 | the code fits the four scratch bytes exactly when n <= 268435455 |
| RemainingLength.CheckIsWeaker | mqtt/inc/mqtt_fixed_header.h:159-161 | the asserted bound lets through a length that needs five bytes |
| RemainingLength.RoundTrip | mqtt/src/mqtt_fixed_header.c:65-108 | decoding an encoded length followed by any bytes returns it and the length of its code |
| RemainingLength.ReencodeIff | mqtt/src/mqtt_fixed_header.c:65-108 | re-encoding the value of any complete code gives the same bytes exactly when it has one byte or a nonzero last byte |
| RemainingLength.MalformedIff | mqtt/src/mqtt_fixed_header.c:65-82 | on arbitrary bytes the error value is returned exactly when four bytes do not end the code, and is never a length |
| RemainingLength.DecodersAgree | mqtt/src/mqtt_fixed_header.c:43-82 | both decoders give the same value on every complete code of up to four bytes and both reject four continuation bytes |
| RemainingLength.EncodeRemainingLen | mqtt/src/mqtt_fixed_header.c:84-108 | the encoding loop yields the code within its four scratch bytes |
| RemainingLength.DecodeRemainingLen | mqtt/src/mqtt_fixed_header.c:65-82 | the decoding loop yields the base-128 value up to the first byte without continuation bit, or the error value after four; the multiplier stays within 128^4 |
| RemainingLength.DecodeRemainingLenLow | mqtt/src/mqtt_fixed_header.c:43-64 | the decoder that works on a zero-padded copy |
| PayloadBuffer.Payload.WriteString | mqtt/src/mqtt_payload.c:54-77 | appends length bytes and text and returns their number, or changes nothing and returns -E_MEM_OUT |
| PayloadBuffer.Payload.WriteByte | mqtt/src/mqtt_payload.c:104-115 | appends one byte, or changes nothing |
| PayloadBuffer.Payload.WriteBytes | mqtt/src/mqtt_payload.c:128-140 | appends the bytes, or changes nothing |
| PayloadBuffer.Payload.ReadString | mqtt/src/mqtt_payload.c:79-102 | copies the string at the cursor with a terminator and moves the cursor past it, or changes nothing |
| PayloadBuffer.Payload.ReadByte | mqtt/src/mqtt_payload.c:116-126 | returns the byte at the cursor and moves it, or changes nothing |
| PayloadBuffer.Payload.ReadBytes | mqtt/src/mqtt_payload.c:142-154 | copies bytes at the cursor; refuses a read that ends at the end of the contents |
| PayloadBuffer.Payload.DeepToBuf | mqtt/src/mqtt_payload.c:43-51 | a fresh copy of exactly the contents |
| PayloadBuffer.Payload.ToBuf | mqtt/src/mqtt_payload.c:35-41 | makes the contents the whole buffer, unchanged, so that nothing more can be written |
| PayloadBuffer.WritesAppend | mqtt/src/mqtt_payload.c:54-140 | any sequence of writes leaves the encodings of the taken items in order and never exceeds the capacity; all items are taken exactly when they fit together |
| PayloadBuffer.ReadBackIff | mqtt/src/mqtt_payload.c:54-154 | reading the kinds that were written returns the items and stops at the end of the contents, whatever lies behind them in the buffer, exactly when no string exceeds the limit and the last item is not raw bytes |
| PayloadBuffer.QueueRoundTrip | mqtt/src/mqtt_payload.c:54-154 | whatever is written into an empty buffer, the items taken are read back in order, from the buffer with its spare room or from a copy of the contents, under that same condition |
| PayloadBuffer.ReadStrEdges | mqtt/src/mqtt_payload.c:89-99 | a string read ends at most one byte behind the contents, and exactly when it does; the terminator needs more than the limit exactly for a text of that length |
| Packets.FlagInverse | mqtt/inc/mqtt_fixed_header.h:104-112 | control byte and its four fields determine each other |
| Packets.RoundTrip | mqtt/src/mqtt_packet.c:45-1558 | unpacking a packed packet returns it, for every well-formed CONNECT, PUBLISH, id-only, payload-list and empty packet |
| Packets.PublishRoundTrip | mqtt/src/mqtt_packet.c:330-470 | for any header and topic buffer: same DUP, QoS, RETAIN, topic and payload, the id only when QoS > 0, and the number of bytes after the fixed header |
| Packets.PublishReverseIff | mqtt/src/mqtt_packet.c:330-470 | packing what was unpacked gives the same bytes exactly for the shortest true length code and a NUL-free topic |
| Packets.PublishImage | mqtt/src/mqtt_packet.c:330-470 | bytes are the encoding of some well-formed PUBLISH exactly when they are a canonical frame of type 3 with QoS at most 2 |
| Packets.PacketImage | mqtt/src/mqtt_packet.c:45-1558 | bytes are the encoding of some well-formed packet of any type exactly when length code, control byte and body have the form of that type; unpacking then finds the packet |
| Packets.FrameRebuildIff | mqtt/src/mqtt_packet.c:370-416 | control byte, length code and rest rebuild any packet exactly when the code is shortest and true |
| Layout.LengthBytes | mqtt/src/mqtt_fixed_header.c:84-108 | the code of a length with given base-128 digits, for one to four bytes |
| Layout.LengthLimits | mqtt/inc/mqtt_fixed_header.h:159-161 | the limits as numbers |
| Layout.MalformedNumber | mqtt/src/mqtt_fixed_header.c:65-82 | four continuation bytes give 0xFFFFFFFF |
| Layout.ErrorNumbers | mqtt/inc/mqtt_packet_segment.h:14-24 | the error codes as numbers |
| Layout.TypeNumbers | mqtt/inc/mqtt_fixed_header.h:39-62 | the packet types as numbers |
| Layout.ControlByte | mqtt/inc/mqtt_fixed_header.h:104-112 | type, DUP, QoS and RETAIN as bits 7-4, 3, 2-1 and 0 |
| Layout.AckBytes | mqtt/src/mqtt_packet.c:473-837 | PUBACK, PUBREC, PUBREL, PUBCOMP and UNSUBACK are 40, 50, 62, 70 and B0, then 2, then the id, high byte first |
| Layout.BareBytes | mqtt/src/mqtt_packet.c:1313-1533 | PINGREQ, PINGRESP and DISCONNECT are C0 00, D0 00 and E0 00 |
| Layout.ListedBytes | mqtt/src/mqtt_packet.c:880-1174 | SUBSCRIBE, SUBACK and UNSUBSCRIBE begin with 82, 90 and A2; length, id, payload follow |
| Layout.ConnectBytes | mqtt/src/mqtt_packet.c:95-161 | CONNECT is 10, the length, 00 04 "MQTT" 04, the flags, the keep-alive and the payload |
| Layout.PublishBytes | mqtt/src/mqtt_packet.c:330-416 | PUBLISH is 0x30 with DUP, QoS and RETAIN in their bits, the length, the topic with its length, the id if QoS is positive, and the payload |
| Layout.ReplyFields | mqtt/src/mqtt_packet.c:300-327 | where the unpackers find id, flags, return code and SUBACK code in a reply |
| Layout.ItemBytes | mqtt/src/mqtt_payload.c:54-140 | what each payload writer appends |
| Layout.ConnectFlagBits | mqtt/src/mqttor_client_common.c:87-101 | the connect flags as a number |
| Layout.ConnectPayload | mqtt/src/mqttor_client_common.c:106-128 | the payload of CONNECT byte by byte, if it fits 1012 bytes |
| Layout.DefaultConnect | mqtt/src/mqttor_session.c:16-43 | the 31 bytes of the CONNECT of the default configuration |
| Packing.Assemble | mqtt/src/mqtt_packet.c:391-409 | the copy loop ends with its offset at the total and the output is the segments, last one first |
| Packing.Accounting | mqtt/src/mqtt_packet.c:137-155 | the summed segment lengths are the length of the output |
| Packing.PackConnect | mqtt/src/mqtt_packet.c:45-161 | packs the CONNECT encoding, whose bytes `ConnectBytes` gives |
| Packing.PackPublish | mqtt/src/mqtt_packet.c:330-416 | packs the header given, the topic up to its NUL, the id if QoS > 0, and the payload if any |
| Packing.PackAck | mqtt/src/mqtt_packet.c:473-532 | packs the four bytes of an id-only packet, with the control byte of its type, as numbers in `AckBytes` |
| Packing.PackListed | mqtt/src/mqtt_packet.c:880-946 | packs SUBSCRIBE, SUBACK, UNSUBSCRIBE |
| Packing.PackBare | mqtt/src/mqtt_packet.c:1313-1367 | packs PINGREQ, PINGRESP, DISCONNECT |
| Packing.UnpackPublish | mqtt/src/mqtt_packet.c:418-470 | fills in header, declared length, topic, id and an own copy of the payload |
| Packing.UnpackListed | mqtt/src/mqtt_packet.c:953-988 | fills in header, declared length, id and an own copy of the payload |
| Packing.UnpackConnect | mqtt/src/mqtt_packet.c:163-215 | fills in flags, keep-alive and an own copy of the payload |
| Packing.UnpackAck | mqtt/src/mqtt_packet.c:632-665 | fills in header, declared length and id |
| Packing.UnpackBare | mqtt/src/mqtt_packet.c:1452-1475 | fills in header and declared length |
| Packing.UnpackConnack | mqtt/src/mqtt_packet.c:300-327 | fills in flags and return code |
| Streams.SplitFlatten | mqtt/src/mqtt_packet.c:370-416 | splitting the concatenation of any packets by control byte and decoded length returns exactly the packets |
| Streams.SplitSound | mqtt/src/mqtt_packet.c:370-416 | whatever splits is the concatenation of the packets found, each framed |
| Streams.PrefixFree | mqtt/src/mqtt_packet.c:370-416 | no packet is a proper prefix of another |
| Streams.ParseIff | mqtt/src/mqtt_packet.c:45-1558 | the concatenated encodings of any packets that can go out parse to those packets, except that the stream is refused exactly when a CONNECT without payload is among them |
| Streams.ParseEncodeAll | mqtt/src/mqtt_packet.c:45-1558 | parsing the concatenated encodings of any well-formed packets returns the packets |
| Streams.StreamImage | mqtt/src/mqtt_packet.c:45-1558 | a stream is the concatenated encodings of some well-formed packets exactly when it splits into such frames; parsing and packing again give the same bytes |
| ClientConfig.ConnectRoundTripIff | mqtt/src/mqttor_client_common.c:84-128 | a reader that follows the flags gets client id, will, user and password, each exactly if configured, to the end of the payload, precisely when the strings fit 1012 bytes together |
| ClientConfig.ConnectWellFormedIff | mqtt/src/mqttor_client_common.c:84-128 | the CONNECT has a payload exactly when some configured string fits the 1012 bytes by itself |
| ClientConfig.FlagsTell | mqtt/src/mqttor_client_common.c:87-101 | every configured choice can be read off the connect flags, and the reserved bit is 0 |
| Subscriptions.SubscribeRoundTripIff | mqtt/src/mqtt_packet.c:880-988 | a filter list that fits is read back with its id, first byte 0x82, exactly when no filter is longer than 65535 |
| Subscriptions.FilterListBytes | mqtt/src/mqtt_packet.c:880-946 | the payload of a filter list byte by byte: length, filter, QoS, for each in turn |
| Sessions.Session.Connect | mqtt/src/mqttor_client_common.c:23-174 | session, trace and return value afterwards are those of the call's program, for every outcome of socket, connect, send and receive |
| Sessions.Session.BuildConnect | mqtt/src/mqttor_client_common.c:84-128 | the packet built string by string is the CONNECT packet of the configuration |
| Sessions.Session.Disconnect | mqtt/src/mqttor_client_common.c:176-220 | session, trace and return value afterwards are those of the call's program, for every outcome |
| Sessions.Session.Publish | mqtt/src/mqttor_client_common.c:222-395 | session, trace and return value afterwards are those of the call's program, for every QoS and every outcome |
| Sessions.Session.PublishExactlyOnce | mqtt/src/mqttor_client_common.c:307-376 | the QoS 2 branch, with one buffer reused for PUBREL and PUBCOMP |
| Sessions.Session.Subscribe | mqtt/src/mqttor_client_common.c:397-480 | session, trace and return value afterwards are those of the call's program, for every outcome |
| Sessions.Session.Unsubscribe | mqtt/src/mqttor_client_common.c:482-542 | session, trace and return value afterwards are those of the call's program, for every outcome |
| Sessions.Session.Pingreq | mqtt/src/mqttor_client_common.c:544-611 | session, trace and return value afterwards are those of the call's program, for every outcome |
| Sessions.Session.OnPublish | mqtt/src/mqttor_session.c:63-200 | hands the message on, answers by QoS, always returns E_NONE |
| Sessions.Session.Deinit | mqtt/src/mqttor_session.c:203-213 | resets configuration, socket and counter, and leaves the connected mark |
| Sessions.Session.constructor | mqtt/src/mqttor_session.c:215-228 | a new session: default configuration, no socket, not connected, first id 0 |
| Runs.TraceParses | mqtt/src/mqttor_client_common.c:129-602 | for any calls whose packets a length code can announce, any configuration and any failures, the bytes added to the trace are the encodings of the packets sent; parsing them recovers those packets if no CONNECT went out without payload, and is refused otherwise |
| Runs.FilledBefore | mqtt/src/mqttor_client_common.c:84-128 | no CONNECT goes out without payload in a run without connect, or if some string of the configuration fits |
| Runs.LongClientId | mqtt/src/mqttor_client_common.c:106-131 | a client id of 1011 characters alone: the CONNECT goes out and does not parse |
| Runs.ConnectEnds | mqtt/src/mqttor_client_common.c:66-173 | what an unconnected session sends on connect, when it is marked connected and when E_NONE is returned, with or without a socket left from an earlier attempt |
| Refinement.RunRefines | mqtt/src/mqttor_client_common.c:176-611 | for any client calls against any outcomes, the bytes added to the trace parse, and what they tell is the list of exactly those calls whose packets went out, in order |
| Refinement.CallSends | mqtt/src/mqttor_client_common.c:176-611 | against any outcomes a call sends its packet if that goes out, then the PUBREL with the id of the PUBREC if one came back and that goes out, and nothing else |
| Refinement.ToldTrulyIff | mqtt/src/mqtt_payload.c:54-77 | the packet tells the call as it was made exactly when no filter is longer than 65535 |
| Refinement.RefusedButTold | mqtt/src/mqttor_client_common.c:464-476 | a subscribe refused with 0x80 returns -E_SESS_ACK, and its packet is in the trace all the same |
| Refinement.SuccessfulRun | mqtt/src/mqttor_client_common.c:176-611 | if the client calls of a connected session all succeed, the packets sent are those asked for with the PUBRELs, and the trace tells the whole call list |
| Refinement.SuccessSends | mqtt/src/mqttor_client_common.c:222-611 | a successful call sends exactly its packet and, for QoS 2, one PUBREL with the id of the PUBREC |
| Refinement.PacketsTellCalls | mqtt/src/mqttor_client_common.c:243-425 | the packets of a call list determine the calls, with the QoS made explicit and each filter as far as its length field tells it |
| Outcomes.NewSessionIs | mqtt/src/mqttor_session.c:215-228 | a new session, field by field |
| Outcomes.OverlayBytes | mqtt/src/mqttor_client_common.c:142-143 | what arrives overwrites the front of the receive buffer |
| Outcomes.ReplyBytes | mqtt/src/mqttor_client_common.c:318-334 | type and id of a reply, by their places in the buffer |
| Outcomes.NoSocketComes | mqtt/src/mqttor_client_common.c:233-236 | without a socket: -E_NET_SOCK, nothing sent, session unchanged |
| Outcomes.PublishComes | mqtt/src/mqttor_client_common.c:222-306 | QoS 0 and 1, with QoS by the argument: return value, session and events on every path |
| Outcomes.ExactlyOnceComes | mqtt/src/mqttor_client_common.c:307-376 | QoS 2 likewise; the PUBREL carries the two id bytes of the PUBREC as they came |
| Outcomes.SubscribeComes | mqtt/src/mqttor_client_common.c:397-480 | subscribe likewise, with the QoS as last byte of the payload |
| Outcomes.UnsubscribeComes | mqtt/src/mqttor_client_common.c:482-542 | unsubscribe likewise |
| Outcomes.PingreqComes | mqtt/src/mqttor_client_common.c:544-611 | pingreq likewise |
| Outcomes.ConnectComes | mqtt/src/mqttor_client_common.c:23-174 | connect likewise: socket, dial, send, receive, other type, refusal, acceptance |
| Outcomes.RetryComes | mqtt/src/mqttor_client_common.c:78-174 | the same for a session that kept its socket |
| Outcomes.ConnectedComes | mqtt/src/mqttor_client_common.c:23-60 | connect on a connected session does nothing and returns E_NONE |
| Outcomes.DisconnectComes | mqtt/src/mqttor_client_common.c:176-220 | disconnect likewise |
| Outcomes.DeinitComes | mqtt/src/mqttor_session.c:203-213 | the session after a reset |
| Outcomes.OnPublishComes | mqtt/src/mqttor_session.c:63-200 | the handler for any packet: deliveries, answers byte by byte, ids taken, E_NONE |
| Outcomes.MessageArrives | mqtt/src/mqttor_session.c:73-104 | the message handed on is the one that was packed |
| Outcomes.PublishGoesOut | mqtt/src/mqttor_client_common.c:238-257 | the PUBLISH that goes out: QoS 0, 1 or 2 as asked, any other replaced by the configured one |
| Outcomes.SubscribeGoesOut | mqtt/src/mqttor_client_common.c:405-425 | the SUBSCRIBE that goes out: filter and QoS likewise |
| Outcomes.PubrelEchoes | mqtt/src/mqttor_client_common.c:332-334 | for every id, a PUBREC with that id is answered by a PUBREL with that id |
| Outcomes.ToldIs | mqtt/src/mqttor_client_common.c:238-257 | the call that a packet tells, by the arguments of the call that was made |
| Invariants.IdsCountUp | mqtt/src/mqttor_client_common.c:250 | over any run without a reset, the k-th id taken is the first one plus k modulo 65536 |
| Invariants.IdsDistinct | mqtt/src/mqttor_client_common.c:412-413 | two ids of a run at most 65536 apart are equal exactly when they are 65536 apart |
| Invariants.IdsCarried | mqtt/src/mqttor_session.c:101-188 | every id-bearing packet of a call but PUBREL carries an id taken for that call: PUBCOMP the second, any other the first |
| Invariants.RunIdsCarried | mqtt/src/mqttor_client_common.c:497-498 | over any run, the own ids on the wire are ids taken, in the order taken, each at most once per taking |
| Invariants.RunCounts | mqtt/src/mqttor_session.c:101-188 | a call moves the counter by the ids it takes, on_publish by 0, 1 or 2 for QoS 0, 1 or 2, whatever fails |
| Invariants.ConsistentIff | mqtt/src/mqttor_client_common.c:66-81 | connected implies a socket, kept by every call except a reset of a connected session |
| Invariants.RunConsistent | mqtt/src/mqttor_client_common.c:23-220 | a run stays consistent after every prefix exactly when no reset in it meets a connected session |
| Invariants.SilentUntilOpened | mqtt/src/mqttor_client_common.c:179-186 | without a socket, no calls of any kind send or receive until a socket is obtained |
| Invariants.DisconnectCloses | mqtt/src/mqttor_client_common.c:202-219 | a completed disconnect sends E0 00, closes, and returns 2; a failed one changes nothing |
| Invariants.DisconnectEndsTrace | mqtt/src/mqttor_client_common.c:211-215 | after a completed disconnect its two bytes stay the last of the trace, whatever is called, until a socket is obtained |
| Invariants.RunAllLog | mqtt/src/mqttor_client_common.c:129-602 | the events of a run are exactly what its log gains |
| Invariants.ResetWhileConnectedIsStuck | mqtt/src/mqttor_session.c:203-213 | after a reset while connected every connect returns E_NONE without a socket and nothing is sent or received again |
| Invariants.ExactlyOnceEvents | mqtt/src/mqttor_client_common.c:307-376 | the return value and the exact events of a QoS 2 publish against any peer |
| Invariants.ExactlyOnceSender | mqtt/src/mqttor_client_common.c:307-376 | PUBREL at most once, only after a PUBREC and with its two id bytes; E_NONE exactly if both sends succeed and PUBREC, then PUBCOMP, come back |
| Invariants.AnsweredIff | mqtt/src/mqttor_client_common.c:281-306 | a QoS 1 publish, subscribe, unsubscribe or pingreq returns E_NONE exactly when the request went out and the right reply came back |
| Invariants.ConnectedWithoutAcceptanceIff | mqtt/src/mqttor_client_common.c:66-173 | for every unconnected session, with a socket or without: marked connected without an acceptance exactly when all operations went through and the reply was not an accepting CONNACK |
| Invariants.PubackEchoIff | mqtt/src/mqttor_session.c:105-125 | a PUBACK echoes the id of its PUBLISH exactly when it equals the session's next id |
| Invariants.PubrecPubcompNeverEcho | mqtt/src/mqttor_session.c:126-184 | PUBREC and PUBCOMP never both echo the id of the PUBLISH |
| Exchange.EveryInterleaving | mqtt/src/mqttor_client_common.c:222-395 | any list of publishes, any interleaving with the receiver: deliveries are always the first messages in order, no deadlock, a fixed number of moves, and at the end all delivered once, channels empty, every return E_NONE |
| Exchange.SenderKeeps | mqtt/src/mqttor_client_common.c:262-376 | every move of the sender keeps the invariant of the exchange and uses up one move |
| Exchange.ReceiverKeeps | mqtt/src/mqttor_session.c:73-188 | every move of the receiver keeps the invariant of the exchange and uses up one move |
| Exchange.NoDeadlock | mqtt/src/mqttor_session.c:63-200 | neither side can move exactly when everything is finished |
| Exchange.ActsAreExec | mqtt/src/mqttor_client_common.c:262-376 | a side of the exchange does what its call does alone against the same outcomes |
| Exchange.Projects | mqtt/src/mqttor_client_common.c:222-395 | from any state of the exchange and for any schedule, each side returns what its calls return alone against the outcomes that side met, and ends in the same session |
| Exchange.EachSideRuns | mqtt/src/mqttor_session.c:63-200 | from the start: the results of the sender are the run of the publishes it began, and the session of the receiver is that of the handlers it ran |
| LateReplies.DeceivedIff | mqtt/src/mqttor_client_common.c:281-376 | with receives that may fail on both sides, in every reachable state: a QoS 1 or 2 publish can return E_NONE without its message having been handed on exactly when the first reply on its way is of the type it waits for |
| LateReplies.DeceivedAfterFailureIff | mqtt/src/mqttor_client_common.c:281-306 | with QoS 0 and 1 only, that is possible exactly when an earlier publish failed |
| LateReplies.SuccessMeansDelivery | mqtt/src/mqttor_client_common.c:281-376 | while all publishes so far returned E_NONE, the next E_NONE means that the message was handed on |
| LateReplies.LostForGood | mqtt/src/mqttor_session.c:126-184 | a PUBLISH taken for a PUBREL: E_NONE is returned and no continuation hands the message on |
| LateReplies.FailureThenLoss | mqtt/src/mqttor_client_common.c:307-376 | one failed receive is enough: of two QoS 2 publishes the first fails and is delivered, the second returns E_NONE and never is |
| LateReplies.FateTells | mqtt/src/mqttor_session.c:73-104 | a packet counted as handed on is a PUBLISH, and its topic and payload are what was delivered |
| LateReplies.PubackIdIgnored | mqtt/src/mqttor_client_common.c:281-306 | a QoS 1 publish returns E_NONE on a PUBACK of any id |

## Left out

- Sockets, name resolution, timing and signals: a script of outcomes stands for them; partial sends and the
  reassembly of TCP segments are not modelled, and `on_publish` is given one whole packet.
- The address arguments of connect: they only reach the socket layer.
- `mqtt_pack_connack`: its return-code segment has the size of an enum while one byte is counted; the client never
  packs a CONNACK.
- `mqtt_buf_str_decode` and `mqtt_buf_str_4_buf`: topics are taken as the PUBLISH unpacker takes them.
- An empty payload: no buffer is made for it, and the code that follows uses the missing buffer; publishing and
  receiving require a nonempty payload.
- malloc, free and leaks: allocation succeeds.
- The flag unions as memory layout: the control and connect bytes are modelled arithmetically.
- The one-byte flag packers for SUBACK codes and requested QoS: plain copies of a byte.
- SUBACK, UNSUBSCRIBE, PUBREC, PUBREL, PUBCOMP, UNSUBACK, PINGRESP and DISCONNECT have no separate packers or
  unpackers: one member with the packet type as a parameter stands for each group.
- The command-line clients, the log, UTF-8 and topic rules, and retransmission, which the library does not have.
