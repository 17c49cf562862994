# Verified models of the game server's network, login and configuration core

The repository is a small game-server framework in C++: gate and login servers that talk over framed
TCP streams, a reconnecting client connector, and a vendored TOML library for configuration. This
project models its stateful and arithmetic core in Dafny and proves what holds of it for every input
and over every run. `dafny verify dfyconfig.toml` checks all of it.

Code that changes things step by step is modelled by classes and methods with loops; each is proved
equal to a function or a transition system, and the theorems are about those.

| module | what it models |
|---|---|
| `Prelude`, `Bytes`, `Framing`, `Reassembly` | frame codecs, the frame-peeling receive loops, and the reader that feeds them in reads of at most 4096 bytes |
| `SendQueue`, `RecvBuffer` | the two halves of `AsioTcpSession`: queue with one scatter-send in flight, growable compacting buffer |
| `SessionWriter`, `Heartbeat`, `Connector`, `ConnectorRecovery` | the timer-parked write coroutine, the heartbeat loop (alone and two ends against each other), the reconnecting connector, and that it keeps trying |
| `LoginModel`, `LoginTheorems`, `LoginMessages`, `LoginAccounts`, `LoginServer` | the player state machine, the two player indexes and the authentication replies: transition system, theorems over every run, who hears what, the account text, and the objects that refine the system |
| `Utf8`, `Utf8Reader`, `ReplayRing` | the decoder automaton, the block reader with its ASCII shortcut, the 127-entry replay ring |
| `TomlCursor`, `TomlLiteral`, `TomlLiteralTheorems` | the parser's current code point held by pointer into history and block, the integer parser over it, and how long a literal may be |
| `TomlChars`, `TomlInteger`, `TomlPath`, `TomlFlatten` | character classes, the meaning, conversion and printing of integers in four bases, paths, in-place flattening |
| `TomlKey`, `TomlKeyIO`, `TomlKeyPrint` | keys: what the parser reads and the formatter prints, the loops of both, and the round trip through a document |
| `TomlGrammar`, `TomlKeyGrammar`, `TomlPathGrammar` | the grammars of integers, keys and paths, spelled with characters: each text of the grammar is read with its meaning, and nothing else is |

## What the proofs found

Where a promise does not hold of the code as it is, the code is kept and the exact condition proved.

- The client decoder takes the number of available bytes as `uint16_t`, so lengths are seen modulo
  65536. Every complete frame is dispatched after every read, whatever the chunking, exactly when
  payloads stay within 61434 bytes (`Reassembly.DispatchBoundIsExact`; 4294963184 for inner frames). A
  client frame with a payload of 65530 bytes or more is never dispatched, wherever it comes in the
  stream, and blocks its session for good (`Reassembly.OversizedFrameBlocksForever`).
- The record sent to the authentication platform never carries the account name. A success reply that
  echoes the record logs the player in exactly when the player's account name is empty
  (`LoginTheorems.EchoedReplyAdmitsIff`).
- Client ids have 64 bits on the wire, but the login server's request handler and its gate sessions take
  them in 32. Answers and kick-off notices name the right client exactly when its id is below 2^32; a
  wider one is answered to the client named by its low half
  (`LoginTheorems.MessageReachesItsClientIff`, `LoginTheorems.WideClientIsMisaddressed`).
- A logoff ends whoever holds the account, whatever client sends it. It ends only players of the sender
  if and only if the account is held by none or by one of them (`LoginTheorems.LogoffEndsOwnIff`); sent
  by a client for a player it once logged in, it ends no other exactly when that player is still online
  or the account is free (`LoginTheorems.LogoffEndsOnlyItsOwnIff`). The late logoff of a client that was
  kicked off destroys its successor, and nobody is told (`LoginTheorems.LateLogoffEndsSuccessor`,
  `LoginTheorems.LateLogoffRun`).
- An account is printed into 64 bytes. Requests whose full texts fit are for the same account exactly when
  they agree in area group, platform and name (`LoginAccounts.SameAccountIff`); names that agree in their
  first 63 characters are not told apart (`LoginAccounts.LongNamesCollide`).
- Empty messages at the end of the send queue stay there until a later non-empty message has been sent:
  a completion that covers everything empties the queue exactly when the last message is not empty, and
  otherwise zero-byte sends repeat
  (`SendQueue.FullCompletionEmptiesIff`, `SendQueue.ZeroByteSendsRepeat`).
- The receive buffer leaves no room for the next read exactly when it is full, cannot grow and the
  callback took nothing; then nothing changes any more (`RecvBuffer.NoRoomIff`,
  `RecvBuffer.FullBufferStaysFull`).
- The connector's `stop` does not retire a pending connect: a success that is already queued sets
  `connected_` with no session. That can happen exactly when a connect was pending
  (`Connector.StopIsFinalIff`).
- A retry left over from before can replace a live connection: the reconnect timer is not cancelled by
  `asyncConnect`, and a callback that calls it is followed by another retry. A connection lasts until it
  is lost or given up exactly when no retry is armed or expired, or there is no endpoint to retry
  (`Connector.ConnectionLastsIff`, `Connector.RetryReplacesConnection`).
- The heartbeat reads a clock of whole seconds. Twice the interval plus the delivery time within the
  timeout is enough for two ends whose clocks turn over together; otherwise a second more is needed,
  and each bound is exact (`Heartbeat.NeverTimesOutIff`).
- A path survives printing and parsing exactly when it is not empty, its keys contain none of `.`, `[`,
  `]`, and no empty key stands directly before an index (`TomlPath.SurvivesIff`).
- The integer parser remembers the previous character by pointer and reads it after moving on. Past the
  127 code points that are replayed after the look-ahead, the pointer can show a slot of the next block:
  legal literals are refused and illegal ones accepted (`TomlLiteralTheorems.LegalIsRefused`,
  `TomlLiteralTheorems.IllegalIsAccepted`). Literals of up to 127 characters and all decimals are read
  exactly. Longer prefixed ones are seen as they are up to a length that depends on where the literal
  starts in its block of 32 bytes: 127 to 158 characters if what ends it is one byte long, as it is in
  every document that is accepted in the end, and 127 to 156 whatever ends it
  (`TomlLiteralTheorems.SafeIsExact`, `TomlLiteralTheorems.TooLongIsMisread`).
- The parser has room for 128 digits. TOML allows any number of zeroes after a prefix, so a prefix, 128
  zeroes and a one stand for the number one, and are refused
  (`TomlLiteralTheorems.TooManyZeroesRefused`). Prefixed literals of at most n characters are all read
  exactly if and only if n is at most 130 and at most the length up to which they are seen as they are
  (`TomlLiteralTheorems.AlwaysExactIff`).
- The formatter's comment promises that malformed UTF-8 is escaped so that it round-trips. It does not:
  malformed bytes come back as code points of their own and an unfinished sequence at the end is
  dropped. A key comes back exactly when it is well-formed (`TomlKeyPrint.PrintThenRead`).

## Model

| member | source | states |
|---|---|---|
| Bytes.FromToNetwork | src/share/networkEx/packet.cpp:4-36 | network byte order is read back as the number written, for every number that fits the field |
| Bytes.ToFromNetwork | src/share/networkEx/packet.cpp:54-71 | every byte string is the network representation of the number read from it |
| Framing.DecodeEncode | src/share/networkEx/packet.cpp:4-71 | a frame encoded and followed by any bytes is decoded as itself, leaving exactly those bytes, for both wires |
| Framing.EncodeDecode | src/share/networkEx/packet.cpp:20-71 | whatever is decoded, re-encoded and followed by the rest, is the bytes it was decoded from |
| Framing.WireLayout | src/share/networkEx/packet.cpp:4-52 | the bytes of both frames one by one: id, transparent id, payload size, each most significant byte first, then the payload |
| Framing.EncodePacket | src/share/networkEx/packet.cpp:4-18 | the buffer filled in place is the encoding of the frame |
| Framing.EncodeInnerPacket | src/share/networkEx/packet.cpp:38-52 | the same for inner frames, with the transparent id |
| Framing.DecodePacket | src/share/networkEx/packet.cpp:20-36 | succeeds exactly when a whole frame lies within the narrowed length, and then yields the frame at the front |
| Framing.DecodeInnerPacket | src/share/networkEx/packet.cpp:54-71 | the same for inner frames and 32-bit lengths |
| Framing.OnRecvClientData | src/gateserver/packetParser.cpp:96-117 | peels frames under the 16-bit narrowing and reports the length of what is left; answers exactly the frames with id 20000, notes those with id 20001, and hands on all others in order |
| Framing.OnRecvInnerData | src/loginserver/packetParser.cpp:156-177 | the same for inner frames, as in the login server and in the gate server's server-side loop |
| Framing.ActionsHandle | src/gateserver/packetParser.cpp:105-114 | for every sequence of frames: what is handed on is what is no heartbeat, in order, with one answer for each request and one note for each answer |
| Reassembly.Reader.OnRead | src/share/networkEx/session.h:207-230 | one read appends, dispatches and keeps what the stream function says, and over all reads every dispatched frame is handled as its id demands; without a callback everything is dropped |
| Reassembly.PeeledPlusLeft | src/gateserver/packetParser.cpp:96-117 | the frames peeled, re-encoded, and the bytes left make up the buffer |
| Reassembly.FramesOfEncoded | src/share/networkEx/packet.cpp:4-71 | encoded frames standing before other bytes are parsed first, in order, and the rest is parsed as if alone |
| Reassembly.NothingLost | src/share/networkEx/session.h:207-230 | for every run of reads, the dispatched frames re-encoded followed by the kept bytes are the bytes received |
| Reassembly.DispatchedIsPrefix | src/gateserver/packetParser.cpp:96-117 | for every stream and chunking the dispatched frames are a prefix of the true frames, and the kept bytes hold exactly the others |
| Reassembly.SafeRunIsIdeal | src/share/networkEx/session.h:207-230 | with payloads up to the safe size, every complete frame has been dispatched and only the incomplete tail is kept |
| Reassembly.SafeAfterEveryRead | src/share/networkEx/session.h:207-230 | the same after every single read of the run |
| Reassembly.UnsafeRun | src/share/networkEx/packet.cpp:20-36 | above the safe size there is a stream and a chunking that leave a complete frame undispatched |
| Reassembly.DispatchBoundIsExact | src/share/networkEx/packet.cpp:20-36 | every complete frame is always dispatched if and only if payloads stay within the safe size |
| Reassembly.OversizedFrameBlocksForever | src/share/networkEx/packet.cpp:20-36 | behind any number of good frames, a frame whose header and payload reach the modulus is never dispatched: only frames before it are, and it is kept with everything that follows |
| Reassembly.RoundTrip | src/loginserver/packetParser.cpp:156-177 | messages encoded, concatenated and fed in any chunks come out as they went in; after every read exactly the unfinished part of the next one is kept |
| SendQueue.AcknowledgeDrops | src/share/network/session.h:124-135 | acknowledging n bytes drops exactly the first n unsent bytes |
| SendQueue.StepKeeps | src/share/network/session.h:90-135 | every push, trySend and partial completion keeps byte order, one outstanding send and the wake-up of a non-empty queue |
| SendQueue.EveryRunKeepsOrder | src/share/network/session.h:36-135 | in every interleaving, wire bytes followed by unsent bytes are all messages in push order, at most one send is outstanding, and a non-empty queue has a send in flight or a trySend to come |
| SendQueue.QuietMeansSent | src/share/network/session.h:90-122 | with no send outstanding and a trySend run for every message and completion, all messages given to send are on the wire |
| SendQueue.WireIsInOrder | src/share/network/session.h:36-135 | in every run the bytes on the wire and the unsent ones are exactly the messages given to send, in order |
| SendQueue.SendsEverything | src/share/network/session.h:90-122 | in every run a trySend submits all unsent bytes unless a send is in flight, and a completion puts exactly what it reports on the wire |
| SendQueue.FullCompletionEmptiesIff | src/share/network/session.h:124-135 | a completion that covers everything empties the queue if and only if the last message is not empty |
| SendQueue.ZeroByteSendsRepeat | src/share/network/session.h:90-122 | a queue of empty messages is sent again and again, back in the same state |
| SendQueue.Sender.PushBack | src/share/network/session.h:36-42 | takes the push step and keeps the invariant |
| SendQueue.Sender.TrySendNow | src/share/network/session.h:90-110 | takes the trySend step: the gathered buffers are exactly the unsent bytes |
| SendQueue.Sender.OnSendCompleted | src/share/network/session.h:111-122 | takes the completion step; after an error nothing is acknowledged |
| SendQueue.Sender.AdjustSendBuffer | src/share/network/session.h:124-135 | the loop leaves the queue with the bytes acknowledged |
| RecvBuffer.OxBuffer.Write | src/share/network/ox_buffer.h:80-83 | appends the bytes to the unread ones |
| RecvBuffer.OxBuffer.AddReadPos | src/share/network/ox_buffer.h:59-61 | drops bytes from the front of the unread ones |
| RecvBuffer.OxBuffer.AdjustToHead | src/share/network/ox_buffer.h:68-77 | the overlapping move keeps the unread bytes and frees the front |
| RecvBuffer.StepKeeps | src/share/network/session.h:64-89 | a read, growth, consumption and compaction keep received == consumed + unread and the size limit |
| RecvBuffer.EveryRunIsAStream | src/share/network/session.h:64-152 | in every run the buffer holds exactly the bytes received minus the bytes consumed, within the limit |
| RecvBuffer.ReadTakes | src/share/network/session.h:64-89 | what the callback says it took leaves the front of the buffer, and nothing if it says more than there is; the buffer grows by 1 KiB exactly when a read fills it and the limit allows |
| RecvBuffer.ConsumedIsAccepted | src/share/network/session.h:73-82 | in every run as many bytes are consumed as the accepted answers of the callback say |
| RecvBuffer.NoRoomIff | src/share/network/session.h:64-89 | the next read has no room if and only if the buffer is full, cannot grow and the callback took nothing |
| RecvBuffer.FullBufferStaysFull | src/share/network/session.h:64-89 | from then on nothing changes as long as the callback takes nothing |
| RecvBuffer.Receiver.GrowRecvBuffer | src/share/network/session.h:136-152 | keeps the unread bytes, in a larger fresh buffer exactly when the limit allows |
| RecvBuffer.Receiver.Process | src/share/network/session.h:73-86 | takes the callback's answer off the front unless it exceeds what there is, and compacts when full or empty |
| RecvBuffer.Receiver.OnRecvCompleted | src/share/network/session.h:64-89 | the handler takes one step of the stream |
| SessionWriter.StepKeeps | src/share/networkEx/session.h:198-266 | every deliver, resume and partial write keeps byte order and never leaves a parked writer un-notified with messages queued |
| SessionWriter.WritesInOrderAndNeverSleeps | src/share/networkEx/session.h:198-266 | in every run before stop, written bytes followed by queued ones are all delivered messages in order, and a non-empty queue always has a step that writes on |
| SessionWriter.Writer.DeliverMsg | src/share/networkEx/session.h:198-206 | keeps the invariant of the runs; takes the deliver step, or nothing after stop |
| SessionWriter.Writer.Continue | src/share/networkEx/session.h:237-259 | keeps the invariant; parks if there is nothing to write, else starts on the front message |
| SessionWriter.Writer.OnTransferred | src/share/networkEx/session.h:257-264 | keeps the invariant; takes the write step and pops a message written in full |
| Heartbeat.Monitor.OnTimer | src/share/networkEx/session.h:273-297 | a tick of the object, on whole-second readings, is a tick of the run it belongs to and keeps the bounds on silence in both directions |
| Heartbeat.Monitor.OnReceived | src/share/networkEx/session.h:216-217 | a read of the object is a read of the run |
| Heartbeat.Monitor.OnSent | src/share/networkEx/session.h:259-262 | a write of the object is a write of the run and keeps the bounds |
| Heartbeat.SoloBounds | src/share/networkEx/session.h:117-134 | whatever the peer does, a running session wrote less than two intervals ago and heard something less than timeout plus interval ago |
| Heartbeat.StopsIff | src/share/networkEx/session.h:273-297 | in every run of one end: it remembers when it last heard and wrote something, ticks once an interval, and stops exactly at the first tick whose clock shows nothing heard for the timeout |
| Heartbeat.HeardOftenNeverStops | src/share/networkEx/session.h:273-297 | an end that heard something at most a second less than the timeout before each tick never stops |
| Heartbeat.PingIsAnswered | src/gateserver/packetParser.cpp:105-113 | an end that wrote nothing for an interval pings at its tick, and the answer makes both ends hear each other |
| Heartbeat.NeitherTimesOut | src/share/networkEx/session.h:273-297 | two ends that run the loop against each other never time out, whatever else they write and whichever pings they answer, if twice the interval, the delivery time and the slack of their clocks fit in the timeout |
| Heartbeat.ImpatientTimesOut | src/share/networkEx/session.h:273-297 | otherwise there are start times and a run in which one end times out, although every ping that arrives is answered at once |
| Heartbeat.NeverTimesOutIff | src/share/networkEx/session.h:273-297 | for each pair of clocks, no run ever times out if and only if that bound holds |
| Heartbeat.UnevenClocksTimeOut | src/share/networkEx/session.h:280-291 | interval 1, timeout 2, instant delivery: clocks in step are safe, clocks 0.6 s apart are not |
| Connector.StepKeeps | src/share/networkEx/connector.h:63-177 | every event, with callbacks that may re-enter stop or asyncConnect, keeps the invariant |
| Connector.OutcomesAndRetries | src/share/networkEx/connector.h:112-177 | in every run each attempt's outcome is acted on at most once, retries never exceed attempts, and the retry after k consecutive ones waits min(2^k, 30) s |
| Connector.BackoffIsCappedPower | src/share/networkEx/connector.h:163-177 | the doubling delay is min(2^k, 30) |
| Connector.SupersededIsIgnored | src/share/networkEx/connector.h:89-151 | whatever happens to a superseded attempt or its session leaves connected_, session_, delay and retry timer alone |
| Connector.StoppedStartsNothing | src/share/networkEx/connector.h:63-72 | after stop nothing starts an attempt or arms a retry until asyncConnect is called |
| Connector.NothingPendingStaysDown | src/share/networkEx/connector.h:63-72 | if no connect was pending, connected_ stays false after stop |
| Connector.StopIsFinalIff | src/share/networkEx/connector.h:63-110 | connected_ can become true after stop if and only if a connect was pending |
| Connector.ConnectionLastsIff | src/share/networkEx/connector.h:73-177 | in every run a connection that is up lasts until it disconnects or the user calls stop or asyncConnect, if and only if no retry is armed or expired, or there is no endpoint |
| Connector.LeftoverRetry | src/share/networkEx/connector.h:163-177 | otherwise there is a run in which the retry starts another attempt over it |
| Connector.RetryReplacesConnection | src/share/networkEx/connector.h:92-104 | a disconnect callback that calls asyncConnect leaves a live connection with a retry armed |
| ConnectorRecovery.OutcomeSchedules | src/share/networkEx/connector.h:92-177 | in every run a failure, timeout or loss that is acted on lets the session go and schedules exactly one retry, with the delay due, unless the connector was stopped |
| ConnectorRecovery.OthersScheduleNothing | src/share/networkEx/connector.h:92-177 | no other event schedules a retry |
| ConnectorRecovery.OutcomeRaises | src/share/networkEx/connector.h:124-149 | every outcome raises its attempt's flag, and is acted on if and only if it is the first of the current attempt |
| ConnectorRecovery.SuccessConnects | src/share/networkEx/connector.h:88-110 | the first success of the current attempt brings the connection up and resets the delay |
| ConnectorRecovery.LossIsNoticed | src/share/networkEx/connector.h:92-104 | in every run the loss of a connection takes it down and schedules a retry |
| ConnectorRecovery.StopEnds | src/share/networkEx/connector.h:63-72 | a stop lets go of session and retry, and nothing is started or scheduled until asyncConnect is called |
| ConnectorRecovery.EachRetryFiresOnce | src/share/networkEx/connector.h:163-177 | in every run a scheduled retry fires at most once, and attempts are started only by asyncConnect and by retries that fire |
| ConnectorRecovery.EveryRunTries | src/share/networkEx/connector.h:112-177 | in every run a connector that is asked to connect and has endpoints has a connection, an attempt without an outcome, or a retry armed or expired |
| ConnectorRecovery.CanAlwaysConnect | src/share/networkEx/connector.h:112-177 | from every such state it can come up without the user's help |
| Connector.Client.StartConnecting | src/share/networkEx/connector.h:112-151 | starts a new numbered attempt, or nothing when stopped or without endpoints |
| Connector.Client.AsyncConnectTo | src/share/networkEx/connector.h:73-85 | takes the request step: resets the delay, starts an attempt, keeps the invariant |
| Connector.Client.StopNow | src/share/networkEx/connector.h:63-72 | takes the stop step and keeps the invariant |
| Connector.Client.Reschedule | src/share/networkEx/connector.h:163-177 | arms the retry timer and doubles the delay up to the cap, unless stopped |
| Connector.Client.HandleConnectFailure | src/share/networkEx/connector.h:153-161 | lets go of the session, calls back, schedules: the state it leaves is that of a failed attempt |
| Connector.Client.TestAndRaise | src/share/networkEx/connector.h:124-149 | raises the attempt's flag; wins exactly if it was down and the attempt is the current one |
| Connector.Client.OnDialCompleted | src/share/networkEx/connector.h:134-149 | takes the success or failure step, callbacks included, and keeps the invariant |
| Connector.Client.OnConnectTimeout | src/share/networkEx/connector.h:124-131 | takes the timeout step and keeps the invariant |
| Connector.Client.StopOne | src/share/networkEx/connector.h:92-104 | takes the disconnect step and keeps the invariant |
| Connector.Client.OnRetryTimer | src/share/networkEx/connector.h:171-176 | takes the retry step and keeps the invariant |
| LoginModel.KickOffKeeps | src/loginserver/playerMgr.cpp:47-60 | a kick keeps the invariant, leaves nobody holding the account and touches no player that is logging in |
| LoginModel.AdmitKeeps | src/loginserver/playerState.cpp:102-117 | kick, index and answer in this order keep the invariant and put the player online under the account |
| LoginModel.ProcessApKeeps | src/loginserver/apMgr.cpp:21-55 | any reply, stale, repeated or mismatched, keeps the invariant |
| LoginModel.StepKeeps | src/loginserver/playerState.cpp:26-153 | every event keeps the invariant |
| LoginModel.EveryRunKeeps | src/loginserver/playerState.cpp:26-249 | the invariant holds after every run of events |
| LoginTheorems.IndexIsExact | src/loginserver/playerMgr.cpp:15-65 | in every run pTIDMap_ maps P to id if and only if player id is live, online and holds P |
| LoginTheorems.NoTwoOnline | src/loginserver/playerState.cpp:76-117 | no account is ever online twice |
| LoginTheorems.AtMostOneAnswer | src/loginserver/player.cpp:47-69 | each login request is answered at most once, and not while its player waits, whatever stale, repeated or mismatched replies arrive |
| LoginTheorems.EveryRunSources | src/loginserver/packetParser.cpp:80-103 | the record of where a player came from is the full gate session and client id of its login request |
| LoginTheorems.MessageReachesItsClientIff | src/loginserver/gateSession.cpp:13-21 | every answer and notice goes to the request's gate session, and names the request's client if and only if its id is below 2^32 |
| LoginTheorems.WideClientIsMisaddressed | src/loginserver/packetParser.cpp:80-108 | a request of client 2^32 + 5 is answered to client 5 |
| LoginTheorems.LifeNeverGoesBack | src/loginserver/playerState.cpp:161-222 | over any run and continuation a player goes from login to online to destroyed, never back, and its request data never changes |
| LoginTheorems.DestroyedIsUnreachable | src/loginserver/playerMgr.cpp:24-45 | a destroyed player is reached by no lookup, and no reply or event addressed to it changes a player or sends anything |
| LoginTheorems.ReplyDecides | src/loginserver/apMgr.cpp:94-138 | in every run a reply logs a waiting player in if and only if it is a success of the authentication that matches its name and record; any other verdict on it ends it with exactly one refusal that carries the error |
| LoginTheorems.OtherRepliesChangeNothing | src/loginserver/apMgr.cpp:21-55 | in every run any other reply changes no player and sends nothing, and a time-out is queued if and only if the reply is older than ten seconds |
| LoginTheorems.RequestDecides | src/loginserver/packetParser.cpp:80-130 | in every run: nothing for a request that cannot be parsed, one refusal for an old client, otherwise a new player, online at once in local test mode, and a numbered record unless the white list is open |
| LoginTheorems.TakeOver | src/loginserver/playerState.cpp:102-117 | a matching success makes the player the only holder; an earlier holder is destroyed and told so before the new one is answered, and everybody else stays as they are |
| LoginTheorems.LogoffEndsOwnIff | src/loginserver/packetParser.cpp:132-154 | in every run a logoff ends only players of the client that sent it if and only if the account is free or held by one of them |
| LoginTheorems.LogoffEndsOnlyItsOwnIff | src/loginserver/packetParser.cpp:132-154 | the logoff of a client for a player it once logged in ends no other player if and only if that one is still online or the account is free |
| LoginTheorems.LateLogoffEndsSuccessor | src/loginserver/packetParser.cpp:141-153 | after a takeover a logoff of any client, the one kicked off included, destroys the new holder without a notice |
| LoginTheorems.LateLogoffRun | src/loginserver/playerState.cpp:82-99 | in local test mode, after any run, two clients that log in one after another, and a logoff of the first that ends the second |
| LoginTheorems.FirstRequestWaits | src/loginserver/apMgr.cpp:75-92 | the first request, with any account name, leads to a waiting player whose issued record can be echoed, and with a name that changes nothing |
| LoginTheorems.EchoedReplyAdmitsIff | src/loginserver/apMgr.cpp:75-92 | a success that echoes the issued record logs the player in if and only if its account name is empty |
| LoginMessages.OpenGates | src/loginserver/gateSessionMgr.cpp:5-25 | in every run a gate session is registered if and only if the last thing heard of it is that it is up |
| LoginMessages.OnlyOpenGatesHear | src/loginserver/player.cpp:35-45 | in every run each message goes to a gate session that is connected at that moment, and stays sent |
| LoginMessages.KickEndsHolder | src/loginserver/playerMgr.cpp:47-60 | in every run a kick destroys and notifies the holder of the account, frees it, and touches nobody else |
| LoginMessages.GlobalEndsIff | src/loginserver/playerState.cpp:134-149 | in every run a global event ends a player if and only if it is a logout or a kick-off |
| LoginMessages.QueueIsWaiting | src/loginserver/apMgr.cpp:15-68 | in every run the queue holds the replies pushed and the time-outs queued since it was last taken, in order |
| LoginAccounts.SameAccountIff | src/loginserver/playerState.cpp:102-113 | two requests whose full texts fit are for the same account if and only if area group, platform and name agree |
| LoginAccounts.LongNamesCollide | src/loginserver/playerState.cpp:102-113 | names that agree in their first 63 characters give the same account |
| LoginAccounts.DecimalIsTheNumber | src/loginserver/playerState.cpp:110-111 | a printed integer is an optional minus sign and decimal digits that stand for it |
| LoginServer.Server.FetchPlayer | src/loginserver/playerMgr.cpp:15-22 | a fresh player under the next id |
| LoginServer.Server.ReleasePlayer | src/loginserver/playerMgr.cpp:24-28 | erases the player from both indexes |
| LoginServer.Server.KickOffPlayer | src/loginserver/playerMgr.cpp:47-60 | notifies and destroys the holder of an account, if any |
| LoginServer.Server.ChangeState | src/loginserver/playerState.cpp:161-222 | the effect of every target state on the player and the indexes |
| LoginServer.Server.SetPTID | src/loginserver/player.cpp:29-33 | sets the account and adds it to the index unless it is there |
| LoginServer.Server.SendGateLoginFail | src/loginserver/player.cpp:47-56 | answers with the error and destroys the player |
| LoginServer.Server.SendGateLoginSucc | src/loginserver/player.cpp:58-69 | answers with the account and puts the player online |
| LoginServer.Server.CheckApLoginData | src/loginserver/apMgr.cpp:75-92 | issues a numbered record for the player |
| LoginServer.Server.HandleAPLoginReq | src/loginserver/playerState.cpp:76-100 | takes the request step in local-test and normal mode |
| LoginServer.Server.AdmitPlayer | src/loginserver/playerState.cpp:102-117 | takes the admission step |
| LoginServer.Server.RecvGgLoginReq | src/loginserver/packetParser.cpp:80-130 | takes the login request step and keeps the invariant |
| LoginServer.Server.OnLogoffNtf | src/loginserver/packetParser.cpp:132-154 | takes the logoff step, ignoring gate session and client, and keeps the invariant |
| LoginServer.Server.OnAPSucc | src/loginserver/apMgr.cpp:106-121 | takes the success step |
| LoginServer.Server.OnAPError | src/loginserver/apMgr.cpp:123-138 | takes the error step |
| LoginServer.Server.ProcessApMsg | src/loginserver/apMgr.cpp:21-55 | takes the reply step and keeps the invariant; a stale message also queues a time_out |
| LoginServer.Server.OnUpdate | src/loginserver/apMgr.cpp:57-68 | takes the queue, then processes what was taken in order, as a run of the transition system |
| Utf8.AcceptsIffWellFormed | thirdparty/toml/toml.hpp:9078-9145 | for every byte string the automaton ends accepting if and only if the string is well-formed by section 4 of RFC 3629 |
| Utf8.EncodeIsChar | thirdparty/toml/toml.hpp:14013-14042 | the bytes emitted for a scalar value are one RFC 3629 character of that value |
| Utf8.CharIsEncoding | thirdparty/toml/toml.hpp:14020-14041 | every character is the encoding of its value, a scalar value |
| Utf8.CharIsRead | thirdparty/toml/toml.hpp:9121-9132 | from an accepting state the automaton reads one character and yields its value |
| Utf8.EncodedDecodes | thirdparty/toml/toml.hpp:13999-14041 | the bytes emitted for any sequence of scalar values decode back to that sequence |
| Utf8.DecodedEncodes | thirdparty/toml/toml.hpp:9078-9145 | a well-formed string is the encoding of the values decoded from it |
| Utf8.Completed | thirdparty/toml/toml.hpp:9078-9145 | the bytes read between two accepting states are the encoding of the code point completed |
| Utf8.Utf8Decoder.Feed | thirdparty/toml/toml.hpp:9121-9132 | one call of the decoder object is one step of the automaton |
| Utf8Reader.PositionsAreRight | thirdparty/toml/toml.hpp:12847-13000 | the line of a code point is one plus the newlines before it, its column one plus the code points since the last one |
| Utf8Reader.MarkIsSkipped | thirdparty/toml/toml.hpp:12645-12660 | a byte order mark in front of a text is skipped, and nothing else is |
| Utf8Reader.BytesAreTheText | thirdparty/toml/toml.hpp:12847-13000 | the bytes recorded with the code points, and those of an unfinished one, are the text |
| Utf8Reader.ValuesAreEmitted | thirdparty/toml/toml.hpp:12847-13000 | the values are those the automaton emits |
| Utf8Reader.AsciiBlock | thirdparty/toml/toml.hpp:12902-12940 | the ASCII shortcut yields what the automaton would |
| Utf8Reader.IsAscii | thirdparty/toml/toml.hpp:12555-12589 | true exactly when no byte has its top bit set |
| Utf8Reader.Reader.ReadNextBlock | thirdparty/toml/toml.hpp:12847-13000 | a block adds the code points of its bytes, wherever the boundary falls, or the text is malformed |
| Utf8Reader.Reader.ReadNext | thirdparty/toml/toml.hpp:13025-13041 | returns the next code point of the whole text decoded at once; ends exactly at its end |
| Utf8Reader.ReadDocument | thirdparty/toml/toml.hpp:12819-13041 | reading to the end succeeds if and only if the text is well-formed, and then gives the code points and positions of decoding it at once |
| ReplayRing.BufferedReader.ReadNext | thirdparty/toml/toml.hpp:13110-13147 | returns what a plain cursor would, also while replaying and at end of file |
| ReplayRing.BufferedReader.StepBack | thirdparty/toml/toml.hpp:13149-13162 | moves the cursor back and returns the value there |
| ReplayRing.Replay | thirdparty/toml/toml.hpp:13082-13162 | under any interleaving of reads and steps back within the history the values are those of a cursor over the whole sequence |
| ReplayRing.ReadsInOrder | thirdparty/toml/toml.hpp:13110-13147 | reads return the values one after the other, and nothing from the end on |
| ReplayRing.BackIsReplayed | thirdparty/toml/toml.hpp:13149-13162 | after a step back by n within the history the next n reads return the same values again |
| TomlCursor.CountIsFit | thirdparty/toml/toml.hpp:12847-13000 | the code points read from the first bytes of a well-formed text are those whose bytes they contain |
| TomlCursor.IsOverwritten | thirdparty/toml/toml.hpp:12899-12986 | a pointer to the last code point of a block shows, once the next block is loaded, what stands in the same slot, or zero |
| TomlCursor.StaysShown | thirdparty/toml/toml.hpp:13025-13041 | a pointer to any other code point still shows it after the next read |
| TomlCursor.Cursor.Advance | thirdparty/toml/toml.hpp:13714-13735 | moves on by one code point, and the old pointer shows the old code point if it was replayed, else what its slot holds now |
| TomlCursor.Cursor.GoBack | thirdparty/toml/toml.hpp:13705-13712 | moves back within the history |
| TomlLiteral.ScanDigits | thirdparty/toml/toml.hpp:14761-14794 | accepts exactly the tokens whose underscores follow what shows as a digit and whose last character does not show as an underscore, up to 128 digits |
| TomlLiteral.SkipPrefix | thirdparty/toml/toml.hpp:14732-14759 | passes sign or prefix up to the first digit, or refuses |
| TomlLiteral.ParseInteger | thirdparty/toml/toml.hpp:14722-14872 | reads the literal as the pointers show it: the exact value of at most 128 digits if it fits in 64 bits and has no decimal leading zero |
| TomlLiteral.ScanAhead | thirdparty/toml/toml.hpp:15217-15291 | looks ahead to the end of the value or by 127 code points |
| TomlLiteral.ParseNumber | thirdparty/toml/toml.hpp:15335-15465 | looks ahead, steps back, refuses decimals that outgrow the history, and reads the literal there |
| TomlLiteralTheorems.ShortIsExact | thirdparty/toml/toml.hpp:14722-14872 | literals of at most 127 characters are read with exactly their value, or refused, as TOML says, wherever they stand |
| TomlLiteralTheorems.DecimalIsExact | thirdparty/toml/toml.hpp:15444-15456 | decimals of any length are; the cap refuses none that fits in 64 bits |
| TomlLiteralTheorems.SafeIsExact | thirdparty/toml/toml.hpp:14764-14794 | up to the safe length for its place in the block and for what ends it, a literal is read with exactly its value, or refused, as TOML says, if it has at most 128 digits, and refused otherwise |
| TomlLiteralTheorems.TooLongIsMisread | thirdparty/toml/toml.hpp:14789-14794 | one character more, and a literal with a trailing underscore is accepted by the value parser, with a newline after it or a wider end of two or three bytes |
| TomlLiteralTheorems.AlwaysExactIff | thirdparty/toml/toml.hpp:14764-14794 | in every document, literals of at most n characters at an offset in a block are read exactly if and only if they are decimal or n is at most the safe length and at most 130 |
| TomlLiteralTheorems.TooManyZeroesRefused | thirdparty/toml/toml.hpp:14779-14780 | a legal literal for the number one with 128 zeroes or more after its prefix is refused, at any distance from the start of a block |
| TomlLiteralTheorems.LegalIsRefused | thirdparty/toml/toml.hpp:14767-14770 | a legal literal of 130 characters at the start of a block is refused |
| TomlLiteralTheorems.IllegalIsAccepted | thirdparty/toml/toml.hpp:14789-14794 | an illegal literal of 128 characters at the start of a block is accepted |
| TomlLiteralTheorems.PrintedIsRead | thirdparty/toml/toml.hpp:16873-16918 | a printed integer is read back wherever it stands in a document |
| TomlInteger.Accumulate | thirdparty/toml/toml.hpp:14837-14851 | the wrapping multiply-add loop yields the exact positional value |
| TomlInteger.ToInteger | thirdparty/toml/toml.hpp:14796-14871 | up to 128 digits and a sign give their meaning, or an error exactly when it does not fit or is a decimal with a leading zero |
| TomlInteger.MaxDigitsRight | thirdparty/toml/toml.hpp:13200-13243 | the digit limits of the bases admit every 64-bit value and stay within 2^64 |
| TomlInteger.DigitsHaveValue | thirdparty/toml/toml.hpp:10430-10473 | printed digits have the value printed, and no leading zero |
| TomlInteger.PrintThenParse | thirdparty/toml/toml.hpp:16873-16918 | what is printed for any 64-bit integer, the minimum included, in any permitted base, is a literal that stands for it |
| TomlGrammar.IntegerIsRead | thirdparty/toml/toml.hpp:14722-14872 | every integer of the TOML grammar, with any sign, underscores and letter case, means its positional value, or nothing if it does not fit or is a decimal with a leading zero |
| TomlGrammar.OnlyIntegersAreRead | thirdparty/toml/toml.hpp:14722-14872 | nothing else has a meaning |
| TomlGrammar.WrittenIsRead | thirdparty/toml/toml.hpp:14722-14872 | in a document, each such integer of at most 127 characters is read with that value |
| TomlGrammar.PrintedIsWritten | thirdparty/toml/toml.hpp:16873-16918 | an integer is printed as minus sign or prefix and upper-case digits without needless zeroes |
| TomlPath.PrintTo | thirdparty/toml/toml.hpp:11510-11529 | the loop prints the components in order, keys separated by dots and indexes in brackets |
| TomlPath.ReadIndex | thirdparty/toml/toml.hpp:11042-11134 | reads an index with blanks around it and an optional bracket, or fails |
| TomlPath.ParsePathInto | thirdparty/toml/toml.hpp:11026-11202 | the loop gives the components of the path, an empty key for each dot with nothing before it, or fails on a stray bracket or on text after an index |
| TomlPath.PrintThenParse | thirdparty/toml/toml.hpp:11510-11529 | parsing a printed path gives its components back, except empty keys directly before an index |
| TomlPath.SurvivesIff | thirdparty/toml/toml.hpp:11026-11202 | a path survives printing and parsing if and only if it is not empty, its keys are free of separators and no empty key stands before an index |
| TomlPathGrammar.SegmentsAreRead | thirdparty/toml/toml.hpp:11026-11202 | every path of names, dots and bracketed indexes, with blanks where they may stand, is parsed to its components, or refused if an index has more than 64 bits |
| TomlPathGrammar.OnlySegmentsAreRead | thirdparty/toml/toml.hpp:11026-11202 | nothing else is parsed |
| TomlPathGrammar.ComponentIsWritten | thirdparty/toml/toml.hpp:11510-11529 | a key is printed as it is, after a dot unless it comes first; an index in brackets, without blanks or needless zeroes |
| TomlFlatten.TotalLeafCount | thirdparty/toml/toml.hpp:12034-12043 | the recursive count is the length of the depth-first sequence of leaves |
| TomlFlatten.TomlArray.PreinsertionResize | thirdparty/toml/toml.hpp:11909-11922 | opens a gap of empty slots and moves the tail, losing nothing |
| TomlFlatten.TomlArray.FlattenChild | thirdparty/toml/toml.hpp:12046-12060 | fills the slots from a position on with the child's leaves in order and nothing else |
| TomlFlatten.TomlArray.DropHollow | thirdparty/toml/toml.hpp:12068-12087 | removes exactly the arrays without leaves and says whether an array is left |
| TomlFlatten.TomlArray.Flatten | thirdparty/toml/toml.hpp:12063-12109 | the vector ends as the depth-first sequence of the leaves, and the loop terminates although the vector grows |
| TomlFlatten.LeavesAreLeaves | thirdparty/toml/toml.hpp:12063-12109 | no array is left |
| TomlFlatten.SpliceKeepsLeaves | thirdparty/toml/toml.hpp:12063-12109 | putting the elements of a nested array in its place leaves the leaves as they are, in number and order |
| TomlKey.EscapeIsRead | thirdparty/toml/toml.hpp:13941-14050 | the parser reads each escape the formatter writes as the value escaped |
| TomlKey.KeyIsRead | thirdparty/toml/toml.hpp:15621-15693 | a key printed bare, literal or escaped is read back, up to the text that follows |
| TomlKey.KeyPathIsRead | thirdparty/toml/toml.hpp:17306-17315 | a printed key path is read back if and only if it has at most 1024 segments |
| TomlKey.ReadIsScalar | thirdparty/toml/toml.hpp:13920-14310 | whatever text is parsed, the key read consists of scalar values |
| TomlKeyGrammar.BasicIsRead | thirdparty/toml/toml.hpp:13920-14158 | every basic string of the TOML grammar is read with its meaning, its escapes in any letter case |
| TomlKeyGrammar.OnlyBasicIsRead | thirdparty/toml/toml.hpp:13920-14158 | nothing else is read as one |
| TomlKeyGrammar.SimpleIsRead | thirdparty/toml/toml.hpp:14265-14332 | every bare, basic and literal key of the grammar is read with its meaning |
| TomlKeyGrammar.OnlySimpleIsRead | thirdparty/toml/toml.hpp:14265-14332 | nothing else is read as a key |
| TomlKeyGrammar.PathIsRead | thirdparty/toml/toml.hpp:15621-15693 | dotted keys are read with their meaning whatever spaces and tabs stand around the dots, if and only if they have at most 1024 parts |
| TomlKeyGrammar.OnlyPathsAreRead | thirdparty/toml/toml.hpp:15621-15693 | nothing else is read as a dotted key |
| TomlKeyGrammar.PrintedForm | thirdparty/toml/toml.hpp:16622-16864 | a key is printed bare if it can be, literal if that is allowed and nothing needs an escape, else in quotes with an escape only where one is needed, in its shortest form |
| TomlKeyIO.ParseBareKeySegment | thirdparty/toml/toml.hpp:14314-14332 | reads the longest run of bare characters |
| TomlKeyIO.ParseLiteralString | thirdparty/toml/toml.hpp:14162-14261 | reads a one-line literal string |
| TomlKeyIO.ReadScalar | thirdparty/toml/toml.hpp:13991-14043 | the place-value loop gives the value of exactly 4 or 8 hexadecimal digits, if it is a scalar value |
| TomlKeyIO.ParseBasicString | thirdparty/toml/toml.hpp:13920-14158 | reads a one-line basic string with its escapes |
| TomlKeyIO.ParseSegment | thirdparty/toml/toml.hpp:14265-14310 | chooses the form by the first characters; three delimiters are refused |
| TomlKeyIO.ParseKey | thirdparty/toml/toml.hpp:15621-15693 | the loop reads dotted segments with blanks around the dots, up to the depth limit |
| TomlKeyPrint.SeenMeans | thirdparty/toml/toml.hpp:16634-16724 | the traits collected say exactly whether a key can be bare and whether it can be literal |
| TomlKeyPrint.ScanUnicode | thirdparty/toml/toml.hpp:16668-16716 | the scan finds out whether the text is well-formed, and its traits if it is |
| TomlKeyPrint.EscapeUnicode | thirdparty/toml/toml.hpp:16787-16861 | the byte loop writes the encoding of the escaped text, characters copied or escaped, malformed bytes escaped one by one |
| TomlKeyPrint.PrintString | thirdparty/toml/toml.hpp:16622-16864 | for every byte string and setting the bytes printed are the encoding of the key's printed text |
| TomlKeyPrint.PrintedIsRead | thirdparty/toml/toml.hpp:16622-16864 | for every byte string the printed key is read back as what is left of it |
| TomlKeyPrint.NothingLostIff | thirdparty/toml/toml.hpp:16674-16716 | what is left of a key is the key if and only if it is well-formed UTF-8 |
| TomlKeyPrint.WhatIsLeft | thirdparty/toml/toml.hpp:16787-16861 | after well-formed text a malformed sequence is left as its bytes, the rest as if it stood alone, and the start of an unfinished character is dropped |
| TomlKeyPrint.PrintThenRead | thirdparty/toml/toml.hpp:17162-17165 | printed, decoded block by block and parsed, a key comes back if and only if it is well-formed UTF-8 |

## Left out

- Sockets, threads, coroutines and memory orders: handlers are atomic steps on one executor, or critical sections under their lock.
- Logging, configuration files, start-up, signal handling and protobuf: a parsed message is a typed record, a payload is bytes.
- SendQueue.EveryRunKeepsOrder: runs without socket errors only; after an error the code neither acknowledges nor retries.
- SessionWriter.WritesInOrderAndNeverSleeps: runs before `stop` only.
- Heartbeat.SoloBounds: ticks are on time, writes take no time, and the heartbeat starts less than one interval and less than one timeout after the session was created.
- Connector.OutcomesAndRetries: a cancelled connect timer may still fire in the model, which allows more runs than the timer does; attempt numbers do not wrap.
- LoginModel.EveryRunKeeps: player ids do not wrap at 64 bits; the worker threads of the authentication platform are arbitrary replies.
- TomlLiteralTheorems.TooLongIsMisread: it is about the parser of one value; a document in which U+0085 or U+2028 ends a value is refused afterwards, so only the bound for ends of one byte shows in what is accepted.
- TomlLiteral.ParseNumber: the base is given; the scan that tells numbers from dates and floats, and the shortcuts for one digit, are not modelled, nor is text that is not UTF-8.
- TomlCursor.Cursor.Advance: the history keeps every code point, where the ring keeps 127; `ReplayRing` is about the ring.
- ReplayRing.Replay: positions do not wrap at 64 bits; values may be of any type.
- TomlPath.SurvivesIff: indexes are below 2^64, as `size_t` values are.
- TomlKeyPrint.PrintString: the settings for keys only; multi-line strings and literal whitespace belong to values.
- TomlFlatten.TomlArray.Flatten: nodes are values, so parent pointers and source regions are not modelled, nor is aliasing.
- The swap queue between the network and the main thread of the login server, which only adds a delay.
- The gate server's state machine and packet handlers, most of which are empty, and the player managers' `delPlayer` overloads, which call each other.
- TOML floats, dates, multi-line strings, JSON and YAML output, wide strings, stream input and the SSE2 variant of `is_ascii`.
- The example programs, and the world and database servers.
