# A model of the IOCP chat server's packets, receive path, logger and send queue

The repository is a small chat server for Windows completion ports: a family of packed packets,
a per-session ring buffer with a framer that cuts the received stream into packets, a handler that
answers each packet, a logger shared by all worker threads, and a per-session send queue shared by
the same threads. This project models these parts in Dafny and proves what they guarantee together.

| file | what it holds |
|---|---|
| `Bytes.dfy`, `CStrings.dfy`, `Buffers.dfy` | little-endian integers, block copies, `strncpy`, `strncpy_s`, the C-string scan, (pointer, length) buffers |
| `PacketFormat.dfy` | the wire format: `Encode`, `Accepts`, `Receive`, and the laws between them |
| `NicknamePackets.dfy`, `CountPackets.dfy`, `LoginAckPacket.dfy`, `ChatPackets.dfy` | one class per packet, with its fields as arrays and integers, each method tied to `PacketFormat` |
| `CodecTheorems.dfy` | round trips, runs of operations on one object, canonical encoding |
| `RingBuffers.dfy`, `Framing.dfy` | the circular receive buffer and `PacketFramer::Pop`; unique decoding of packet streams |
| `PacketHandlers.dfy`, `Receiving.dfy` | dispatch and the handlers; the `RecvCompletion` loop |
| `Chunking.dfy`, `Delivery.dfy`, `EndToEnd.dfy` | when receive boundaries matter; from a client's requests to what the other clients read |
| `Replies.dfy`, `Endings.dfy` | what each packet brings about, byte by byte and field by field; how connections end |
| `BrokenRequests.dfy`, `HiddenLogins.dfy` | what the client's broken test packet does to the requests behind it |
| `Loggers.dfy` | the logger's methods and the text of its lines |
| `LoggerProtocol.dfy`, `LoggerTheorems.dfy`, `LoggerCalls.dfy` | the logger as a state machine over every interleaving; the same in terms of its callers |
| `SendQueue.dfy`, `SendWire.dfy` | `EnqueueSend`, `PostSend` and `SendCompletion` as a state machine over every interleaving: what is handed to `WSASend`, and what the client receives |
| `SendProgress.dfy`, `SendScenarios.dfy` | the send queue comes to rest; schedules that go wrong, and exactly when none does |
| `SendClosing.dfy`, `SendReuse.dfy` | closing sessions; session objects that pass to the next client while work for the previous one goes on |

## Main results

1. **Reassembly, exactly.** However the network splits a client's bytes into receives, the server does
   what it would do on the whole stream (`Delivery.ChunksReassemble`), and the overflow branch is
   never taken (`Delivery.FeedWaiting`). In general the split matters: the loop goes on popping
   packets after an Exit has closed the session, so what happens depends on how much shares that
   receive. `Delivery.ChunkingIrrelevant` proves the exact condition as an if-and-only-if,
   `EndToEnd.TalkingAfterLeaving` gives the input. For everything the client's send loop can send,
   its broken test packet included, `BrokenRequests.AnsweredExactly` proves for every split that the
   server answers all other requests as intended and does nothing for broken ones if and only if
   nothing but further broken packets, fewer than 1250 of them in all, follows the first broken one;
   `LostBehindBroken` gives the inputs. From 9999 bytes on, and only then, an Error line follows
   (`ErrorLineExactly`), and what is left is read out of step: the server stays inside its arrays if
   and only if no packet popped there is a login without a NUL in its nickname
   (`StaysInsideExactly`), and `HiddenLogins.ConversationOverreads` is a conversation in which one is.
2. **The logger refines an atomic append-only log** under every interleaving of any number of threads,
   with each insertion, clock reading, flush, lock and unlock a step of its own; from this follow
   whole lines, timestamp order and progress, and for its callers that each Info, Warn and Chat puts
   one line into the info file and each Error one into the error file, up to the first Shutdown, in
   lock order and in each thread's order (`LoggerCalls.OneLinePerCall`, `ProgramOrderKept`). A call
   nobody interferes with does what the method of the class does (`LoggerCalls.CallAlone`).
3. **The send queue, step by step.** For every interleaving, hand-over to `WSASend` is exclusive and in
   the order of queueing (`SendQueue.HandOverIsQueueOrder`). What the client receives is another
   matter: `PostSend` returns, and destroys its buffers, while the send may be pending. On a
   connection that holds, the client receives what was queued, whatever that memory holds and
   however much more is transmitted, if and only if no send was pending when its `PostSend`
   returned (`SendWire.PendingSends`; `SendScenarios.PendingSendReadsFreed` has the
   schedule). Every schedule makes boundedly many moves and can only stop at rest
   (`SendProgress.SendProgress`); at rest a packet can be stranded, which some run does if and only
   if there are two or more workers (`SendScenarios.StrandingNeedsTwoWorkers`), and it goes out first
   once another one is queued (`SendProgress.StrandedGoesFirst`). Session objects pass to the next
   client without waiting for anything. Whatever the threads are going to send, the next client gets
   only its own packets, for every schedule, if and only if the previous one left none in the queue
   and none in a thread's hands (`SendReuse.OnlyOwnPackets`), and its sends exclude one another if
   and only if there is at most one worker, or no old send is outstanding and no thread is inside
   `PostSend` (`SendReuse.ExclusiveExactly`). Once a session is closing, at most one packet per thread
   past the closing test is still queued (`SendClosing.QueuedWhileClosing`).
4. **Every packet's effect, on the wire.** For each packet the server handles, given as bytes, the events
   it causes are listed in order, and what goes out is pinned by what its receiver reads: session id,
   verdict, reason and count of a login answer, the connection count, the names and texts of
   broadcasts (`Replies.LoginReplied`, `CountReplied`, `ChatReplied`, `ExitReplied`); every other
   packet is an Error line and nothing else (`OthersAreErrors`). Any stream in any split, followed by
   its end, closes the session exactly once (`Endings.ClosedExactlyOnce`).
5. **Unique decoding.** Any concatenation of serialised packets is cut and decoded back into the packets
   as their classes receive them. Every packet comes back exactly when none is a `PKUserCountReq`,
   whose validator compares with the id of `UserCount` and so rejects its own bytes; the very same
   sequence comes back exactly when every chat message ends its fields in NUL, too.
6. **Chat end to end.** For strings of any length with NULs anywhere, construct, serialise, deserialise
   and read back gives each string cut at its first NUL and at the field's capacity, and the original
   exactly when it fits.

## Conventions and parameters

* A C string argument is the sequence of its characters, with the terminator implicit behind it; a
  null pointer is `None`. Integers are little-endian and structs packed, as the `#pragma pack` lines
  say. `PacketHeader` is size first, then id (`Common/PacketDef.h:25-31`).
* Bytes the language leaves open (behind the terminator of `strncpy_s`, and the fields the default
  constructor of `PKChatMessage` does not set) are a parameter, `Residue`.
* The connection count other threads change is a parameter of a session: its reading after n events.
  Replies that carry it agree across splits by choice of this parameter.
* The clock is part of the logger's state and moves by `Tick` steps; a single-threaded logger method
  takes the reading as an argument. A timestamp is an integer, not a formatted date.
* Schedules are sequences of choices and a step is a function of state and choice, so a statement for
  every schedule covers every interleaving. `owner` and `past` of the send queue record history and
  are tested by no step.
* What destroyed send buffers hold is a parameter, `mem`; a byte read from them is `None` on the wire
  until `SendWire.Shown` fills it in.
* The number of workers is the number of threads of a send-queue state; each takes its packets to
  send from an arbitrary finite program. A session's start state has an arbitrary queue, because
  neither the pool nor `AcceptCompletion` empties it, and threads may still be queueing packets of
  the previous client, or be about to (a broadcast's snapshot of the sessions); for `SendReuse` they may be anywhere, with old sends outstanding.
* A logger run starts after `Init`; either file may have failed to open. In the server, `Init` comes
  after the worker threads have been started (`IOCP_Basic/IOCP_EchoServer.cpp:50-60`); what happens
  to a line logged before it is not covered.
* On the receive path a session is closed only by its own packets, a malformed header, an overflow or
  the end of the stream. A failing `WSASend` on another worker closes it too
  (`IOCP_Basic/IOCP_EchoServer.cpp:303-304`); that is a choice of the send queue's schedules.
* A connection is received from by one worker at a time, because the next receive is posted only after
  the loop (`IOCP_Basic/IOCP_EchoServer.cpp:254-255`).

## Where the code and its intent part

* `PKUserCountReq::IsValid` tests the id of `UserCount`
  (`PacketFormat.UserCountReqSelfRejection`); the code is modelled as it is.
* Packets behind an Exit packet in the same receive are still handled (result 1).
* A comment in `PostSend` says that its buffers live until the send completes
  (`IOCP_Basic/IOCP_EchoServer.cpp:306`); they are local and are destroyed on return, while
  `WSA_IO_PENDING` counts as success (result 3).
* A packet queued between `PostSend`'s empty look and `sending = false` waits until another one is
  queued; by the next rest it has been sent, ahead of that one, for every interleaving
  (`SendProgress.StrandedGoesFirst`).
* A session object keeps its send queue and its outstanding sends, and threads stay inside their calls
  for the previous client, when it passes to the next one (`SendReuse.PreviousClientsPacket`,
  `PacketInHand`, `SenderInside`).
* The client's command for provoking an error line provokes none by itself: the server waits for the
  announced 9999 bytes, drops what comes next as part of them, and logs the line then (result 1).
* The login handler logs the nickname field as a C string, but a field off the wire need not be
  terminated. The scan leaves the array exactly then (`Delivery.StreamOverreads`). No packet the
  packet class builds does it (`Delivery.BuiltLoginsAreTerminated`), but bytes of other packets read
  out of step can (`HiddenLogins.ConversationOverreads`).
* The broadcast of a chat message carries the timestamp 0, not the client's
  (`EndToEnd.ChatReachesOthers`).

## Model

| member | source | states |
|---|---|---|
| Bytes.IntegersSurvive | Common/PKLoginAck.cpp:10-14 | 16-bit, 64-bit and signed 32-bit fields survive encode then decode, negative values included |
| Bytes.LeEncodeDecode | Common/PKUserCountAck.cpp:26-27 | every byte pattern is the encoding of exactly the integer it decodes to |
| Bytes.FieldsAreLittleEndian | Common/PKUserCountAck.cpp:19-20 | every byte of an integer field is its digit to base 256, the lowest first, negative values modulo 2^32 |
| Bytes.Memcpy | Common/PKExit.cpp:27-28 | the target range becomes the source range, everything around it stays |
| Bytes.Store | Common/PKExit.cpp:19-20 | the struct image lands at its offset, everything around it stays |
| CStrings.Strncpy | Common/PKLoginReq.cpp:10 | copies up to the first NUL or n, pads with NULs, leaves the rest of the array alone |
| CStrings.CopyShort | Common/PKExit.cpp:10-11 | width-minus-one copy and terminator fill the field with the truncated text and NULs |
| CStrings.CopyFull | Common/PKLoginReq.cpp:10-11 | full-width copy and forced terminator fill the field with the same bytes |
| CStrings.TruncationIdiomsAgree | Common/PKExit.cpp:10-11 | for every string both idioms produce the same field |
| CStrings.StrncpyS | Common/PacketDef.cpp:8-9 | leaves the truncated text, a NUL inside the field, and unspecified bytes |
| CStrings.ScanCString | Common/PacketDef.cpp:18-19 | the scan stays in bounds given a NUL and yields the text before the first one |
| CStrings.FieldRoundTrip | Common/PKChatBroadcast.cpp:8-12 | a field always holds a NUL and reads back as the truncated text |
| CStrings.TruncFixedPoints | Common/PKChatBroadcast.cpp:8-12 | truncating twice is truncating once; it changes nothing exactly when the string fits and has no NUL |
| CStrings.FieldInjective | Common/PKChatBroadcast.cpp:8-12 | two fields are equal exactly when their texts are |
| CStrings.CutAfterForcedNul | Common/PKChatMessage.cpp:37-38 | reading a field after overwriting its last byte gives the truncation of the raw bytes |
| NicknamePackets.PKLoginReq.constructor | Common/PKLoginReq.cpp:4-5 | default object: canonical header, zeroed nickname |
| NicknamePackets.PKLoginReq.Named | Common/PKLoginReq.cpp:8-12 | holds the truncated name, null included |
| NicknamePackets.PKLoginReq.Serialize | Common/PKLoginReq.cpp:16-22 | the buffer is exactly header, body and zero padding up to header.size |
| NicknamePackets.PKLoginReq.Deserialize | Common/PKLoginReq.cpp:24-29 | all of the object is replaced from an accepted buffer, nothing otherwise |
| NicknamePackets.PKLoginReq.IsValid | Common/PKLoginReq.cpp:31-41 | accepts exactly a non-null buffer long enough with own id and exact size |
| NicknamePackets.PKExit.constructor | Common/PKExit.cpp:4-5 | default object: canonical header, zeroed nickname |
| NicknamePackets.PKExit.Named | Common/PKExit.cpp:7-12 | holds the truncated nickname, null included |
| NicknamePackets.PKExit.Serialize | Common/PKExit.cpp:16-22 | the buffer is exactly header, body and zero padding up to header.size |
| NicknamePackets.PKExit.Deserialize | Common/PKExit.cpp:24-29 | all of the object is replaced from an accepted buffer, nothing otherwise |
| NicknamePackets.PKExit.IsValid | Common/PKExit.cpp:31-41 | accepts exactly a non-null buffer long enough with own id and exact size |
| NicknamePackets.SameNicknameSameBody | Common/PKExit.cpp:7-12 | PKExit and PKLoginReq built from one nickname have byte-identical bodies |
| CountPackets.PKUserCount.Serialize | Common/PKUserCount.cpp:11-15 | the buffer is exactly the header |
| CountPackets.PKUserCount.Deserialize | Common/PKUserCount.cpp:17-20 | the header is replaced from an accepted buffer, nothing otherwise |
| CountPackets.PKUserCount.IsValid | Common/PKUserCount.cpp:22-31 | accepts exactly a non-null buffer with own id and header-only size |
| CountPackets.PKUserCountReq.Serialize | Common/PKUserCountReq.cpp:10-14 | the buffer is exactly the header |
| CountPackets.PKUserCountReq.Deserialize | Common/PKUserCountReq.cpp:16-19 | the header is replaced from an accepted buffer, nothing otherwise |
| CountPackets.PKUserCountReq.IsValid | Common/PKUserCountReq.cpp:21-30 | accepts exactly header-only buffers with the id of UserCount |
| CountPackets.PKUserCountAck.Of | Common/PKUserCountAck.cpp:8-11 | canonical header and the given signed count |
| CountPackets.PKUserCountAck.Serialize | Common/PKUserCountAck.cpp:15-21 | the buffer is exactly header, count and zero padding up to header.size |
| CountPackets.PKUserCountAck.Deserialize | Common/PKUserCountAck.cpp:23-28 | all of the object is replaced from an accepted buffer, nothing otherwise |
| CountPackets.PKUserCountAck.IsValid | Common/PKUserCountAck.cpp:30-40 | accepts exactly a non-null buffer long enough with own id and exact size |
| LoginAckPacket.PKLoginAck.Of | Common/PKLoginAck.cpp:8-15 | integers, the flag as 0 or 1, and the truncated reason |
| LoginAckPacket.PKLoginAck.Serialize | Common/PKLoginAck.cpp:19-25 | the buffer is exactly header, packed body and zero padding up to header.size |
| LoginAckPacket.PKLoginAck.Deserialize | Common/PKLoginAck.cpp:27-32 | all of the object is replaced from an accepted buffer, nothing otherwise |
| LoginAckPacket.PKLoginAck.IsValid | Common/PKLoginAck.cpp:34-44 | accepts exactly a non-null buffer long enough with own id and exact size |
| ChatPackets.ToPacket | Common/PacketDef.cpp:4-13 | canonical header, both strings cut and terminated, whatever follows the terminators |
| ChatPackets.ToData | Common/PacketDef.cpp:15-23 | both scans stay in bounds and yield the texts; the timestamp is copied |
| ChatPackets.PKChatMessage.constructor | Common/PKChatMessage.cpp:4-9 | sets only the first byte of each text field and establishes the object invariant |
| ChatPackets.PKChatMessage.From | Common/PKChatMessage.cpp:11-15 | the packet built from the data |
| ChatPackets.PKChatMessage.SetData | Common/PKChatMessage.cpp:17-21 | the packet becomes the one built from the data |
| ChatPackets.PKChatMessage.GetData | Common/PKChatMessage.cpp:23-25 | under the invariant the scans are in bounds and give the data of the packet |
| ChatPackets.PKChatMessage.Serialize | Common/PKChatMessage.cpp:27-31 | the buffer is exactly the packed struct |
| ChatPackets.PKChatMessage.Deserialize | Common/PKChatMessage.cpp:33-39 | replaces everything and terminates both fields, or leaves the object alone |
| ChatPackets.PKChatMessage.IsValid | Common/PKChatMessage.cpp:41-50 | accepts exactly a non-null buffer long enough with own id and exact size |
| ChatPackets.PKChatBroadcast.Of | Common/PKChatBroadcast.cpp:6-14 | two truncated strings, null included, and the timestamp |
| ChatPackets.PKChatBroadcast.Serialize | Common/PKChatBroadcast.cpp:16-22 | the buffer is exactly header, 32+256+8 body bytes and zero padding up to header.size |
| ChatPackets.PKChatBroadcast.Deserialize | Common/PKChatBroadcast.cpp:24-29 | all of the object is replaced from an accepted buffer, nothing otherwise |
| ChatPackets.PKChatBroadcast.IsValid | Common/PKChatBroadcast.cpp:31-39 | accepts exactly a non-null buffer long enough with own id and exact size |
| PacketFormat.PrintThenParse | Common/PKLoginAck.cpp:19-32 | every class reads its own serialisation back, whatever follows; it accepts it for every class but PKUserCountReq |
| PacketFormat.Layout | Common/PKLoginAck.cpp:19-25 | where each field of each packet lies on the wire |
| PacketFormat.HeaderOnWire | Common/PKUserCount.cpp:11-15 | the four header bytes: size, then id, each low byte first |
| Replies.LoginAckArrives | Common/PKLoginAck.cpp:8-32 | whoever deserialises a built answer reads the id, the flag, the reason and the count it was built from |
| Replies.CountArrives | Common/PKUserCountAck.cpp:8-28 | whoever deserialises a built answer reads the count it was built from |
| Replies.BroadcastArrives | Common/PKChatBroadcast.cpp:6-29 | whoever deserialises a built broadcast reads its truncated strings and its timestamp |
| PacketFormat.ParseThenPrint | Common/PKChatMessage.cpp:27-39 | printing what was parsed from arbitrary accepted bytes reproduces them, up to PKChatMessage's two terminators |
| PacketFormat.SecondPassIsIdentity | Common/PKChatMessage.cpp:33-39 | a second parse and print changes nothing |
| PacketFormat.ClassInvariantKept | Common/PKChatBroadcast.cpp:24-29 | Deserialize on any bytes keeps own id and size, except for PKUserCountReq on an accepted buffer |
| PacketFormat.TrailingBytesIgnored | Common/PKLoginAck.cpp:27-44 | bytes behind a long-enough buffer change neither acceptance nor the decoded object |
| PacketFormat.TypesAreDistinguished | Common/PKExit.cpp:31-41 | at most one type accepts a buffer, except that PKUserCountReq accepts exactly what PKUserCount does |
| PacketFormat.PrefixFree | Common/PKUserCount.cpp:22-31 | no type accepts a strict prefix of a serialised packet |
| PacketFormat.UserCountReqUnrecognised | Common/PKUserCountReq.cpp:5-30 | no class accepts a serialised PKUserCountReq |
| PacketFormat.UserCountReqSelfRejection | Common/PKUserCountReq.cpp:16-30 | own bytes are rejected and leave a default object equal to the other; an accepted buffer makes the object a UserCount packet |
| CodecTheorems.ConversionNormalises | Common/PacketDef.cpp:4-23 | ToData after ToPacket cuts each string once, whatever bytes follow the terminators |
| CodecTheorems.NormalFormLaws | Common/PacketDef.cpp:4-23 | idempotent; identity exactly on data that fits; equal exactly when truncated strings and timestamps agree |
| CodecTheorems.ChatEndToEnd | Common/PKChatMessage.cpp:11-39 | construct, serialise, deserialise, get data: same timestamp, strings cut at the first NUL and at capacity |
| CodecTheorems.ChatUnchangedExactly | Common/PKChatMessage.cpp:11-39 | that gives the original exactly when both strings are NUL-free and fit |
| CodecTheorems.LastAcceptedWins | Common/PKLoginReq.cpp:24-41 | after any run of Deserialize the last accepted buffer, or the initial state, decides |
| CodecTheorems.RejectedBuffersLeaveNoTrace | Common/PKChatBroadcast.cpp:24-39 | rejected buffers can be deleted from a run |
| CodecTheorems.ReachableChat | Common/PKChatMessage.cpp:4-39 | every reachable PKChatMessage has a canonical header and a NUL in both fields |
| CodecTheorems.ReachableData | Common/PKChatMessage.cpp:4-39 | GetData returns what the run of SetData and Deserialize calls says |
| CodecTheorems.BroadcastsCanonical | Common/PKChatBroadcast.cpp:6-22 | equal bytes exactly when timestamps and truncated strings are equal |
| Framing.FramesOfStream | Common/PKChatMessage.cpp:27-50 | a concatenation of serialised packets, advanced by header.size, is cut into exactly those packets |
| Framing.UniqueDecoding | Common/PKChatMessage.cpp:27-50 | a concatenation of serialised packets, read front by front with the one accepting type, gives the packets as their classes receive them, nothing left over |
| Framing.SameSequenceBack | Common/PKChatBroadcast.cpp:16-39 | every packet comes back exactly when no PKUserCountReq was sent, and the very same sequence exactly when chat messages were terminated too |
| Framing.StreamsInjective | Common/PKLoginAck.cpp:19-44 | two packet sequences have equal concatenated bytes exactly when they are equal |
| EndToEnd.ChatReachesOthers | Common/PKChatBroadcast.cpp:6-29 | a receiver of the broadcast built from a chat message reads its strings cut once, and timestamp 0 |
| Loggers.LinesInjective | Common/Logger.cpp:54 | a file of whole lines determines its records |
| Loggers.DecimalStandsFor | Common/Logger.cpp:76 | a number is written in decimal digits that stand for it, without leading zeros |
| Loggers.ChatTextHolds | Common/Logger.cpp:74-78 | a chat line holds the session id, the sender and the whole message, at these places |
| Loggers.ChatTextNamesSession | Common/Logger.cpp:76 | chat lines of different sessions differ |
| Loggers.Logger.Shutdown | Common/Logger.cpp:25-29 | in one critical section, or not yet while another thread holds the lock: both streams closed, what was open flushed, contents kept |
| Loggers.Logger.WriteLineTo | Common/Logger.cpp:50-56 | under the lock, one whole flushed line if open, nothing otherwise |
| Loggers.Logger.Info | Common/Logger.cpp:58-61 | a flushed Info line in the info file only, in one critical section, or nothing yet while another thread holds the lock |
| Loggers.Logger.Warn | Common/Logger.cpp:63-67 | a flushed Warn line in the info file only, in one critical section, or nothing yet while another thread holds the lock |
| Loggers.Logger.Error | Common/Logger.cpp:69-72 | a flushed Error line in the error file only, in one critical section, or nothing yet while another thread holds the lock |
| Loggers.Logger.Chat | Common/Logger.cpp:74-78 | the chat text as a flushed Info line; the non-recursive lock is taken once, by Info, which may have to wait |
| LoggerProtocol.StepRefines | Common/Logger.cpp:50-78 | every fine-grained step is matched by one whole atomic call at unlock, or by nothing |
| LoggerProtocol.LoggerRefinesAtomicLog | Common/Logger.cpp:50-78 | after every schedule the files correspond to the atomic log of the committed calls |
| LoggerProtocol.WholeLinesWhenUnlocked | Common/Logger.cpp:50-78 | unlocked files are whole flushed lines, those of the atomic log |
| LoggerProtocol.NothingWrittenWhenClosed | Common/Logger.cpp:52-55 | no step touches a closed stream |
| LoggerTheorems.TimestampsInOrder | Common/Logger.cpp:50-72 | with a clock that does not go back, each file's timestamps are non-decreasing |
| LoggerTheorems.StepUsesWork | Common/Logger.cpp:50-78 | every move of an enabled thread lowers the work measure; a blocked thread changes nothing |
| LoggerTheorems.LoggerProgress | Common/Logger.cpp:74-78 | nobody can move exactly when everybody is finished, and moves are bounded |
| LoggerCalls.OneLinePerCall | Common/Logger.cpp:25-78 | exactly one line per Info, Warn and Chat in the info file, and per Error in the error file, up to the first Shutdown in lock order |
| LoggerCalls.ProgramOrderKept | Common/Logger.cpp:58-78 | a thread's finished calls, in lock order, and the others are its program |
| LoggerCalls.QuiescentMeansDone | Common/Logger.cpp:58-78 | a run that cannot go on has done every thread's calls in order |
| LoggerCalls.CallAlone | Common/Logger.cpp:25-78 | each of the five calls, uninterrupted, changes the two streams as the method of that name does |
| LoggerCalls.ClockFollowsTicks | Common/Logger.cpp:54 | the clock a line reads is the last tick's, in every schedule |

## Receive path, handlers and send queue

These members model files that the repository stores in code page 949; the line numbers are those
of the files as stored.

| member | source | states |
|---|---|---|
| RingBuffers.RingBuffer.constructor | IOCP_Basic/RingBuffer.h:17-19 | empty, with at least 1024 bytes |
| RingBuffers.RingBuffer.Append | IOCP_Basic/RingBuffer.h:29-47 | appends as many leading source bytes as there is room for, and returns how many |
| RingBuffers.RingBuffer.Read | IOCP_Basic/RingBuffer.h:50-67 | moves the front of the queue to the target, and returns how many bytes |
| RingBuffers.RingBuffer.Peek | IOCP_Basic/RingBuffer.h:70-89 | copies the front across the wrap without consuming, or nothing if too short |
| RingBuffers.RingBuffer.Discard | IOCP_Basic/RingBuffer.h:92-99 | drops exactly len bytes, or nothing if too short |
| Framing.Pop | IOCP_Basic/PacketFramer.h:20-41 | on Ok exactly the front packet leaves the buffer; otherwise the buffer is untouched |
| Framing.FramesTile | IOCP_Basic/PacketFramer.h:20-41 | popped packets and remainder tile the stream |
| Framing.FramesAreWhole | IOCP_Basic/PacketFramer.h:20-41 | popped packets have 4 to 32768 bytes, as many as their header says; popping stops at a header that says otherwise or an incomplete packet |
| Framing.FramesConcat | IOCP_Basic/PacketFramer.h:20-41 | popping a stream that arrives in two parts gives the packets of the whole |
| Framing.PrefixYieldsPrefix | IOCP_Basic/PacketFramer.h:32-33 | a cut-off stream yields a prefix of the packets, never a wrong one |
| PacketHandlers.Route | IOCP_Basic/PacketHandler.cpp:5-70 | the handler chosen by length, id and exact size |
| Replies.OthersAreErrors | IOCP_Basic/PacketHandler.cpp:5-70 | exactly the packets that do not start with one of four sizes and ids, or are too short, are logged as errors and nothing else |
| Replies.LoginReplied | IOCP_Basic/PacketHandler.cpp:199-215 | an open session is sent an answer its receiver reads as id, verdict, reason and count, then the nickname is logged; a closing one gets the line only |
| Replies.CountReplied | IOCP_Basic/PacketHandler.cpp:189-197 | logged; an open session is sent an answer its receiver reads as the connection count |
| Replies.ChatReplied | IOCP_Basic/PacketHandler.cpp:145-158 | logged with texts, timestamp and session; the broadcast reads as the texts and timestamp 0 |
| Replies.ExitReplied | IOCP_Basic/PacketHandler.cpp:160-187 | logged; the broadcast names the leaver or the placeholder; closed |
| Replies.ShortExit | IOCP_Basic/PacketHandler.cpp:163-167 | too short: a warning, and closed without a notice |
| Replies.RequestServed | EchoClient/EchoClient.cpp:162-217 | the same for each request of the client, in terms of its strings |
| PacketHandlers.Session.ProcessOnePacket | IOCP_Basic/PacketHandler.cpp:5-70 | the effects of one packet on the session |
| PacketHandlers.Session.HandleChatMessage | IOCP_Basic/PacketHandler.cpp:145-158 | logs and broadcasts the terminated texts |
| PacketHandlers.Session.HandleExit | IOCP_Basic/PacketHandler.cpp:160-187 | logs, broadcasts the notice with the name or placeholder, closes |
| PacketHandlers.Session.HandleUserCount | IOCP_Basic/PacketHandler.cpp:189-197 | logs and replies with the current count |
| PacketHandlers.Session.HandleLogin | IOCP_Basic/PacketHandler.cpp:199-215 | replies accepted exactly for a nickname that does not start with NUL, then logs its text, or runs off the field when it holds no NUL |
| CStrings.ScanUnchecked | IOCP_Basic/PacketHandler.cpp:204-214 | the scan stays inside the array if and only if it holds a NUL, and then yields the text |
| Receiving.RecvCompletion | IOCP_Basic/IOCP_EchoServer.cpp:200-256 | one receive: append, then every complete packet handled in order; close on zero bytes, overflow or a malformed header; next receive posted exactly if open |
| Endings.EndOfStream | IOCP_Basic/IOCP_EchoServer.cpp:201-205 | a receive of no bytes closes an open session, and keeps what is buffered |
| Endings.Overflow | IOCP_Basic/IOCP_EchoServer.cpp:230-236 | what fits is kept, nothing is handled, a warning, closed |
| Endings.MalformedCloses | IOCP_Basic/IOCP_EchoServer.cpp:246-252 | the packets before it are handled, a warning, closed |
| Endings.ClosedExactlyOnce | IOCP_Basic/IOCP_EchoServer.cpp:200-256 | any stream in any split, then its end: closed exactly once |
| Delivery.FeedWaiting | IOCP_Basic/IOCP_EchoServer.cpp:230-236 | the overflow branch is unreachable: a waiting session always has room for a receive |
| Delivery.OnPacketEffects | IOCP_Basic/PacketHandler.cpp:5-70 | every packet leaves a trace, and only an Exit packet closes |
| Delivery.SettleConcat | IOCP_Basic/IOCP_EchoServer.cpp:237-252 | handling what arrived so far and then more is handling it all at once |
| Delivery.ChunksReassemble | IOCP_Basic/IOCP_EchoServer.cpp:200-256 | for every split the outcome is that of the bytes received, and an open session received all |
| Delivery.HandledUpToChunkEnd | IOCP_Basic/IOCP_EchoServer.cpp:237-256 | with an Exit in the stream, exactly the bytes up to the end of its receive are handled |
| Delivery.NoExitNoDifference | IOCP_Basic/IOCP_EchoServer.cpp:237-256 | without an Exit the split cannot be observed |
| Delivery.ChunkingIrrelevant | IOCP_Basic/IOCP_EchoServer.cpp:237-256 | the split is irrelevant if and only if no complete packet or malformed header is within one receive behind the first Exit |
| Delivery.OverreadExactly | IOCP_Basic/PacketHandler.cpp:5-70 | handling a packet stays inside every array unless it is an accepted login packet without a NUL in its nickname |
| Delivery.StreamOverreads | IOCP_Basic/IOCP_EchoServer.cpp:200-256 | for every stream and split: no overread if and only if no popped packet is such a login |
| Delivery.UnterminatedLogin | IOCP_Basic/PacketHandler.cpp:199-215 | the packets that do it |
| Delivery.BuiltLoginsAreTerminated | EchoClient/EchoClient.cpp:170-173 | no packet the class builds is one |
| EndToEnd.RequestAnswered | IOCP_Basic/PacketHandler.cpp:145-215 | dispatch gives each client request its intended answer in terms of the client's strings |
| EndToEnd.EveryRequestAnswered | EchoClient/EchoClient.cpp:162-217 | a client that sends no broken packet gets every request answered, once and in order, for every split |
| BrokenRequests.BrokenOnWire | EchoClient/EchoClient.cpp:190-199 | the eight bytes of the test packet |
| BrokenRequests.BrokenSwallows | EchoClient/EchoClient.cpp:190-201 | under 9999 bytes from the first broken packet on, nothing of them is handled, for every split |
| BrokenRequests.AnsweredExactly | EchoClient/EchoClient.cpp:162-217 | for every split: all other requests are answered as intended and nothing is done for broken ones, if and only if only broken packets, fewer than 1250, follow from the first broken one on |
| BrokenRequests.ErrorLineExactly | EchoClient/EchoClient.cpp:190-201 | for every split: an Error line follows the answers to the requests before the first broken packet if and only if 9999 bytes come from it on |
| BrokenRequests.StaysInsideExactly | EchoClient/EchoClient.cpp:162-217 | for every split of a conversation: no overread below 9999 bytes from the first broken packet on; beyond, none if and only if no packet popped behind the swallowed one is an unterminated login |
| HiddenLogins.ConversationOverreads | EchoClient/EchoClient.cpp:190-213 | a broken packet and 34 to 100 of one chat message make the server overread, for every split |
| BrokenRequests.LostBehindBroken | EchoClient/EchoClient.cpp:190-201 | any request behind a broken packet is lost, for every split |
| EndToEnd.TalkingAfterLeaving | IOCP_Basic/IOCP_EchoServer.cpp:237-252 | an Exit followed by a chat message has two splits with different outcomes |
| EndToEnd.ExitNoticeIsWhole | IOCP_Basic/PacketHandler.cpp:172-184 | the exit notice is never cut |
| SendQueue.InvariantStep | IOCP_Basic/IOCP_EchoServer.cpp:258-314 | one sender at a time, order of queueing, and the flag's meaning are kept by every step |
| SendQueue.HandOverIsQueueOrder | IOCP_Basic/IOCP_EchoServer.cpp:271-314 | at most one send outstanding, nobody else on the way to one, and hand-over in the order of queueing, for every interleaving |
| SendQueue.AllSentUnlessOvertaken | IOCP_Basic/IOCP_EchoServer.cpp:285-288 | at rest everything is handed over if and only if nothing is stranded |
| SendQueue.ProgramsQueuedInOrder | IOCP_Basic/IOCP_EchoServer.cpp:258-268 | an open session's queue takes each thread's packets in its order, none lost or repeated |
| SendQueue.EverythingHandedOver | IOCP_Basic/IOCP_EchoServer.cpp:258-314 | without a stranded packet every thread's whole program is handed over in order |
| SendWire.PendingSends | IOCP_Basic/IOCP_EchoServer.cpp:289-307 | the client receives what was queued, whatever destroyed buffers hold, if no send was pending when its PostSend returned, and on an unbroken connection only if |
| SendWire.RightUnlessReadLate | IOCP_Basic/IOCP_EchoServer.cpp:289-307 | the bytes so far are right, whatever destroyed buffers hold, if and only if none was read after the return |
| SendWire.EverythingDelivered | IOCP_Basic/IOCP_EchoServer.cpp:258-314 | at rest, nothing stranded, nothing left pending, connection intact: the client has received every thread's program in order |
| SendProgress.StepUsesWork | IOCP_Basic/IOCP_EchoServer.cpp:258-314 | every move lowers the work left and nothing raises it |
| SendProgress.SendProgress | IOCP_Basic/IOCP_EchoServer.cpp:258-314 | moves are bounded, and nothing can move exactly at rest with every program done |
| SendScenarios.PendingSendReadsFreed | IOCP_Basic/IOCP_EchoServer.cpp:301-307 | for any packet, a schedule whose wire is all bytes of destroyed buffers |
| SendScenarios.StrandedPacket | IOCP_Basic/IOCP_EchoServer.cpp:264-288 | the lost wakeup: the schedule and the state it ends in, for two senders among any number of threads |
| SendScenarios.StrandingNeedsTwoWorkers | IOCP_Basic/IOCP_EchoServer.cpp:5-12 | some run of n workers strands a packet if and only if n is at least two |
| SendProgress.NextSendRecovers | IOCP_Basic/IOCP_EchoServer.cpp:258-307 | from any open rest state one uninterrupted EnqueueSend sends what was stranded, up to 16 packets, ahead of its own |
| SendProgress.StrandedGoesFirst | IOCP_Basic/IOCP_EchoServer.cpp:258-314 | for every interleaving: between two rests of an open session with a packet queued in between, all that was stranded is handed over first, in order |
| SendClosing.QueuedWhileClosing | IOCP_Basic/IOCP_EchoServer.cpp:258-263 | once a session is closing, at most one packet per thread past the closing test is queued, in every interleaving |
| SendClosing.NothingQueuedWhileClosing | IOCP_Basic/IOCP_EchoServer.cpp:258-263 | and none if there is no such thread |
| SendClosing.NothingSentWhileClosing | IOCP_Basic/IOCP_EchoServer.cpp:271-284 | with nobody past PostSend's closing test, nothing more is handed over |
| SendClosing.TakesUpTo16 | IOCP_Basic/IOCP_EchoServer.cpp:275-288 | one look takes up to 16 packets in order and leaves the rest |
| SendReuse.OnlyOwnPackets | IOCP_Basic/IOCP_EchoServer.cpp:140-180 | for every schedule and whatever is going to be sent, the next client is handed only its own packets, if and only if the queue is empty and no thread carries an old packet |
| SendReuse.ExclusiveExactly | IOCP_Basic/IOCP_EchoServer.cpp:140-180 | for every schedule and whatever is going to be sent, sends exclude one another, if and only if at most one worker, or no old send outstanding and nobody inside PostSend |
| SendReuse.PreviousClientsPacket | IOCP_Basic/IOCP_EchoServer.cpp:258-334 | a session closes with a packet queued and the next client is sent it first |
| SendReuse.PacketInHand | IOCP_Basic/IOCP_EchoServer.cpp:258-268 | a session closes behind EnqueueSend's closing test and the next client is sent the packet, though nothing was queued or outstanding |
| SendReuse.SenderInside | IOCP_Basic/IOCP_EchoServer.cpp:271-314 | a session closes while a thread is inside PostSend and two threads end up there, though nothing was queued or outstanding |

## Left out

- Loggers.Logger.Info: a call that has to wait returns false for its caller to try again; what happens while it waits is in `LoggerProtocol`.
- PacketHandlers.Session.EnqueueSend: records the queued bytes as an event; the queue itself, the flag and the sends are in `SendQueue`.
- Receiving.RecvCompletion: a WSARecv that fails when it is posted, and the statistics counters, are not modelled.
- SendQueue.HandOverIsQueueOrder: a critical section under the session mutex is one step. When a session object is handed on, each thread brings at most one packet of the previous client; a worker still handling that client's received packets, and so producing more, is not modelled.
- Constructors that take a `PacketHeader`: they set any header; `Serialize` covers their objects as far as `header.size` makes the copies fit.
- The texts of log lines other than chat and login lines.
- Date formatting, directories and `ofstream` internals (`Common/Logger.cpp:15-23`, `Common/Logger.cpp:31-48`): a stream is a list of insertions with an open flag.
- Accepting, starting and stopping the server, the session table, the session and buffer pools and object lifetimes (`IOCP_Basic/IOCP_EchoServer.cpp:22-180`, `IOCP_Basic/SessionPool.h`, `IOCP_Basic/BufferPool.cpp`).
- The greeting a new connection is sent, which is plain text and not a packet, and the client's receive loop, which does not frame what it receives (`EchoClient/EchoClient.cpp:94-160`).
- Which sessions a broadcast reaches (`IOCP_Basic/IOCP_EchoServer.cpp:341-353`): a broadcast is one event of the session that caused it.
