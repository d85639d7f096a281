# Satellite constellation: model and proofs

One ground control process and any number of satellites exchange heartbeats, log dumps,
acknowledgements and commands over UDP. This project models the parts of that system that keep state
over time and proves what they keep, in every run.

Each class of the program that updates its fields is a class here, with a `View()` that gives its
abstract value; every method is proved against a function on that value. The runs are sequences of
events applied by those functions, and the theorems are about all of them. A failed `assert` is an
outcome of the model (`Crashed`, `SatCrashed`, `Aborted`): the Makefile does not define `NDEBUG`. Clock
reads, socket descriptors, address parsing, the iteration order of the hash maps and uninitialised
bytes are parameters, so the theorems hold for all of their values.

| modules | what they hold |
|---|---|
| `MessageQueues`, `ConsumerLoops` | the queue as a monitor with separate append, notify, block, wake and stop steps; a consumer loop and the quit sequence around it |
| `Messages`, `Serializers` | the four messages, their frames, `decode` over a reused buffer |
| `Numbers`, `TextLines`, `Parsers`, `Loggers` | number printing and `sscanf`, line splitting, the dump parser, the command pattern, the log |
| `Connections`, `GCConnectionHandlers`, `Receivers` | ground control's connections, update pass and listener |
| `FailureDetectors` | timeouts, retries and deaths of one connection over runs |
| `Terminals`, `GroundControls`, `Interleavings` | the terminal's records; listener, update thread and terminal together, with listener iterations whole and split |
| `Projections` | what the failure detector proves of one connection, in every run of ground control |
| `PeerConnections`, `ConnectionHandlers`, `Satellites`, `NetworkManagers` | a satellite |
| `Constellations`, `Handshakes`, `Conducts`, `Acknowledgements`, `LogAccounts`, `Traffics`, `DumpTraffics`, `Commands`, `CommandTraffics` | all nodes and the messages between them |
| `PeerProjections`, `GroundProjections` | what is proved of one peer of a satellite, and of ground control, in every run of the constellation |
| `Pipelines` | log lines to chunks to frames to reassembly to parser to terminal |

## What the proofs found

- Ground control can be brought down by a well-behaved satellite. A timeout closes the socket; a message
  that arrives before the first retry is due marks the connection connected, and the ACK that answers it
  fails the assertion on the socket (`GroundControls.ReturningTooSoonCrashes`; a run that gets there is
  `GroundControls.GapIsReached`). In a run that goes on, a socket is closed exactly in this gap, or when
  the last attempt got no descriptor (`Projections.SocketsAreClosedExactly`). Ground control stays up
  exactly if no message and no order meets a closed socket, `socket()` works for every new sender, and no
  line of its configuration is bad (`Conducts.GroundStaysUpExactly`).
- A satellite fails an assertion only over a configured peer with a negative id or port or an empty address
  (`Conducts.SatellitesFailExactly`), as long as no satellite listens on ground control's port 8000, which
  the model's `Proper` asks; one that does fails on every command (`Commands.CommandFailsExactly`).
- A satellite can fall silent towards a peer it thinks connected: heard again after a timeout and before an
  attempt, the peer is marked connected with a closed socket, is sent nothing, and is not dialled as long
  as it is heard (`PeerConnections.HeardTooSoonStaysMute`, `PeerProjections.MuteForTheRun`). If it is ground
  control, every dump in that time is lost. When the socket is closed, and when such a peer is connected, is
  `PeerConnections.SocketIsClosedExactly`.
- README.md:44 promises exponential backoff. The code waits ten seconds before every attempt
  (src/GroundControl/networking/Connection.cpp:119): whichever attempt it is, it comes at least 10 and less
  than 10 + g seconds after the one before, with passes at most g apart
  (`FailureDetectors.RetryIntervalIsFixed`). For g up to 10 the waits double exactly as long as no second
  retry has been counted (`FailureDetectors.NoBackoff`); with a pass every second they are all 10
  (`FailureDetectors.EveryTenSeconds`).
- The retry counter of a satellite has no bound. It counts the visits that find a retry due, past the limit
  too, and stays within n exactly while no more of them come
  (`PeerConnections.CounterStaysWithin`); a peer that falls silent takes it past any bound
  (`PeerConnections.CounterPassesEveryBound`). Only the attempts are bounded
  (`PeerConnections.AtMostTenAttempts`).
- A datagram cut behind its header is completed by what earlier ones left in the buffer
  (`Serializers.ShortDatagramReplays`). A datagram is the frame of what it decodes to exactly if its flag
  byte is 0 or 1 and its length is the frame's (`Serializers.DatagramIsFrame`).
- A log of 102400 bytes or more is cut, and what was sent of it stays in the reassembly buffer, in front
  of the next dump (`Pipelines.DumpReassembles`).
- Records are lost before they are sent. Nothing is lost exactly if every dump finds at most 102400 bytes
  and, unless the log is empty, a connected, open socket to ground control, and every ACK that finds the
  satellite waiting finds an empty log (`LogAccounts.NothingLostExactly`). The ACK may be older than the
  dump (`Acknowledgements.StaleAckEmptiesLog`), and in a run from the very start it is
  (`LogAccounts.RecordsAreLost`).
- The totals on the terminal leave out the records of a dump that holds no telemetry record
  (`Pipelines.TotalsOfDumps`).
- An accepted command goes to the id its line names exactly if that is below 2^31, or the host's conversion
  happens to give it (`Parsers.AcceptedCommandsParse`).

## Model

| member | source | states |
|---|---|---|
| `MessageQueues.MessageQueue.Shutdown` | src/concurrency/MessageQueue.cpp:14-24 | sets the stop flag and leaves the elements alone |
| `MessageQueues.MessageQueue.Pop` | src/concurrency/MessageQueue.cpp:27-41 | past the wait: once stopped a blank element and no change, whatever is queued, otherwise the front element, removed |
| `MessageQueues.MessageQueue.PushBack` | src/concurrency/MessageQueue.cpp:44-56 | appends at the back, stopped or not |
| `MessageQueues.StepKeepsCover` | src/concurrency/MessageQueue.cpp:14-71 | every step of every thread keeps the counting invariant: queued elements are covered by pending notifies and woken consumers, a stop by a pending notify_all |
| `MessageQueues.NoLostWakeup` | src/concurrency/MessageQueue.cpp:32-56 | in every run of any number of threads with spurious wakes, nobody is blocked while an element or a stop is there and nothing is pending to wake them |
| `MessageQueues.FirstInFirstOut` | src/concurrency/MessageQueue.cpp:34-52 | in every run the elements taken and the elements queued are the elements pushed, in order |
| `MessageQueues.NobodyBlockedAfterNotifyAll` | src/concurrency/MessageQueue.cpp:19-35 | once a notify_all has run, nobody is blocked then or ever after |
| `ConsumerLoops.ActsOnAPrefix` | src/GroundControl/output/Terminal.cpp:38-54 | in every interleaving with producers and the quit sequence, the elements acted on are a prefix of those pushed, at most one is dropped, and the blank element of a stopped queue is never acted on |
| `ConsumerLoops.HoldsTheBlank` | src/concurrency/MessageQueue.cpp:35-35 | in every run what a consumer holds that was never in the queue is the blank element of its pop |
| `ConsumerLoops.NeverStuck` | src/GroundControl/output/Terminal.cpp:121-126 | the quit sequence can always go on, and after it a consumer that has not left its loop always has a step |
| `ConsumerLoops.ExitsInTwoSteps` | src/GroundControl/networking/GCConnectionHandler.cpp:129-132 | after the quit sequence a consumer leaves its loop within two steps of its own, whatever the others do |
| `Messages.ByteBuffer.AppendBytes` | src/protocol/ProtocolUtils.h:10-19 | the bytes go to the end, what was there stays |
| `Messages.Serialize` | src/protocol/Message.h:40-98 | the frame of each of the four types, field by field |
| `Serializers.EnvelopeLayout` | src/protocol/Message.h:23-31 | the type byte stands at 0, the size at 4, sender id at 8 and port at 12, least significant byte first and in two's complement |
| `Serializers.FlagLayout` | src/protocol/Message.h:40-48 | a heartbeat or an ACK is its envelope and one byte, 0 or 1 |
| `Serializers.FileLayout` | src/protocol/Message.h:56-66 | a file message is its envelope, 1024 bytes, the length in two bytes and a flag |
| `Serializers.CommandLayout` | src/protocol/Message.h:85-98 | a command is its envelope and six doubles of 8 bytes in order |
| `Serializers.DecodeBuffer` | src/protocol/Serializer.cpp:11-71 | the offset walk computes `Decode`: rejections, failed assertions and fields |
| `Serializers.DecodeTellsApart` | src/protocol/Serializer.cpp:16-69 | a datagram is rejected exactly if it is not empty and is shorter than a header, of no known type, or with a size field outside 8 to 4096; decoding fails an assertion exactly if it is empty, or its header is proper and its id negative or its port not above zero |
| `Receivers.StraysAreSkipped` | src/GroundControl/networking/Receiver.cpp:166-172 | ground control's loop skips every datagram that is rejected, and nothing changes |
| `NetworkManagers.StraysAreSkipped` | src/Satellite/network/NetworkManager.cpp:99-106 | so does a satellite's |
| `Receivers.DecodingEndsGroundControl` | src/protocol/Serializer.h:17-19 | decoding ends ground control exactly for an empty datagram or a proper header with a negative id or no port above zero |
| `NetworkManagers.DecodingEndsSatellite` | src/protocol/Serializer.h:17-19 | the same for a satellite |
| `Serializers.FrameFits` | src/GroundControl/networking/Receiver.cpp:150-162 | every frame fits the receive buffer |
| `Serializers.DecodeUndoesSerialize` | src/protocol/Serializer.cpp:18-67 | for every message with id >= 0, port > 0 and header size 8 to 4096, its frame over any stale buffer content decodes to the message |
| `Serializers.FramesArePrefixFree` | src/protocol/Message.h:40-98 | serialize is injective; no frame is a prefix of a frame of another message |
| `Serializers.SerializeUndoesDecode` | src/protocol/Serializer.cpp:11-71 | what decodes is sendable, and the buffer starts with the frame of its message exactly when its flag byte, if it has one, is 0 or 1, whatever the length of the datagram |
| `Serializers.DatagramIsFrame` | src/protocol/Serializer.cpp:18-67 | the datagram itself is the frame of its message exactly when moreover its length is the frame's |
| `Serializers.ShortDatagramReplays` | src/protocol/Serializer.cpp:18-67 | every message, of which only the first 8 or more bytes arrive again over its own frame, decodes to itself once more, though they are no frame |
| `Receivers.FrameActsAsMessage` | src/GroundControl/networking/Receiver.cpp:149-178 | the frame of a message, over any stale content, has at ground control the effect of the message |
| `NetworkManagers.FrameActsAsMessage` | src/Satellite/network/NetworkManager.cpp:92-127 | the same at a satellite |
| `Numbers.PrintDoubleReadsBack` | src/Satellite/core/Satellite.cpp:95-96 | a number of millionths, printed with six decimals, is a valid number text of that value |
| `Numbers.SignsAreRead` | src/GroundControl/output/Parser.cpp:52-52 | blanks are skipped and either sign is read, by %d and %lf |
| `Numbers.ExponentMovesPoint` | src/GroundControl/output/Parser.cpp:52-52 | decimal notation with an exponent denotes the number with its point moved; a mark without digits fails |
| `Numbers.HexadecimalReadsText` | src/GroundControl/output/Parser.cpp:52-52 | hexadecimal notation denotes all its digits, scaled by its fraction and its binary exponent |
| `Numbers.InfinityIsRead` | src/GroundControl/output/Parser.cpp:52-52 | inf and infinity in any case are read, and half of the long word fails |
| `Numbers.NaNIsRead` | src/GroundControl/output/Parser.cpp:52-52 | nan is read, with or without a closed name; an open one fails |
| `Numbers.ScanUndoesRender` | src/GroundControl/output/Parser.cpp:52-52 | for every format, sscanf assigns every number of a text rendered for it, each to the value its text denotes |
| `TextLines.LinesPartition` | src/GroundControl/output/Parser.cpp:29-45 | the lines with their newlines and the unterminated tail are the text, and no line holds a newline |
| `TextLines.JoinThenSplit` | src/GroundControl/datastorage/SatelliteData.cpp:86-93 | joined newline-free lines split into themselves |
| `Parsers.DecodeData` | src/GroundControl/output/Parser.cpp:12-66 | the character loop computes `DataDecoder`, a fold over the lines whose last SAT line goes through sscanf, every notation of %lf included |
| `Parsers.ReportsTelemetryExactly` | src/GroundControl/output/Parser.cpp:46-65 | an output reports telemetry exactly if the last SAT line of its dump scans to seven numbers, and then carries the last six in order; otherwise it carries none |
| `Terminals.DamagedDumpOnlyLogs` | src/GroundControl/output/Terminal.cpp:47-52 | a dump without such a line leaves coordinates and totals alone |
| `Parsers.SatLineReadsBack` | src/Satellite/core/Satellite.cpp:95-96 | the telemetry line scans to its id and six coordinates |
| `Parsers.TallyOfLogFile` | src/GroundControl/output/Parser.cpp:29-45 | over a log file: the last SAT record and the numbers of received and sent records, told apart by the body behind the first separator |
| `Parsers.DumpReadsBack` | src/GroundControl/output/Parser.cpp:46-65 | log printer and dump parser undo each other for every list of records with a SAT record in it |
| `Parsers.PatternLanguage` | src/GroundControl/output/Terminal.cpp:65-66 | the command pattern accepts exactly seven blank-separated decimal numbers, the first an unsigned integer |
| `Parsers.AcceptedCommandsParse` | src/GroundControl/output/Parser.cpp:68-90 | every accepted line is scanned completely, each field to the number its text denotes, the id exactly if it is below 2^31 or the host converts it to itself |
| `Parsers.IdIsUnsigned` | src/GroundControl/output/Parser.cpp:79-80 | the id of a command is an unsigned 32-bit number, the one read modulo 2^32 if that fits an int |
| `Loggers.Logger.Log` | src/logging/Logger.cpp:52-70 | an empty message is skipped, any other becomes one stamped record at the end of the file |
| `Loggers.OneMoreRecord` | src/logging/Logger.cpp:63-69 | a file of records stays one |
| `Connections.Connection.Connect` | src/GroundControl/networking/Connection.cpp:14-50 | takes the new descriptor, and sends a heartbeat only if socket and address work |
| `Connections.Connection.Disconnect` | src/GroundControl/networking/Connection.cpp:84-97 | closes the socket, marks the connection and notes the time |
| `Connections.Connection.Reconnect` | src/GroundControl/networking/Connection.cpp:107-129 | not due: nothing; due: one more attempt counted, and dialled unless the limit is passed |
| `Connections.Connection.MarkConnected` | src/GroundControl/networking/Connection.cpp:139-146 | connected and counter at zero, the socket left as it is |
| `GCConnectionHandlers.GCConnectionHandler.AddConnection` | src/GroundControl/networking/GCConnectionHandler.cpp:20-36 | the assertions on its arguments, and otherwise: an unknown satellite gets a new dialled entry, a known one keeps its entry |
| `GCConnectionHandlers.GCConnectionHandler.HeartbeatSat` | src/GroundControl/networking/GCConnectionHandler.cpp:89-100 | one entry heard and connected, all others unchanged |
| `GCConnectionHandlers.GCConnectionHandler.SendMessageToSat` | src/GroundControl/networking/GCConnectionHandler.cpp:102-120 | unknown: dropped; closed socket: the assertion fails; otherwise exactly this message |
| `GCConnectionHandlers.GCConnectionHandler.SendCommand` | src/GroundControl/networking/GCConnectionHandler.cpp:122-146 | pops one command and, while running, sends exactly it to the satellite it names |
| `GCConnectionHandlers.GCConnectionHandler.UpdatePass` | src/GroundControl/networking/GCConnectionHandler.cpp:50-63 | entries, dead notices in order and messages sent, for any iteration order |
| `GCConnectionHandlers.RetrySendsHeartbeat` | src/GroundControl/networking/Connection.cpp:117-128 | an entry's share of a pass sends one heartbeat exactly if it counts a retry up to the tenth and the dial works, told from the entry before and after |
| `GCConnectionHandlers.PassSendsHeartbeats` | src/GroundControl/networking/GCConnectionHandler.cpp:52-62 | a pass sends exactly one such heartbeat to each such entry and no other message, as a multiset, in whatever order |
| `GCConnectionHandlers.NewEntryIsRetried` | src/GroundControl/networking/GCConnectionHandler.cpp:32-35 | a new entry is the satellite given, not connected, greeted exactly if the dial works, and retried exactly from ten seconds after its creation on; other entries stay |
| `GCConnectionHandlers.PassRefinesEntries` | src/GroundControl/networking/GCConnectionHandler.cpp:52-62 | a pass is the same independent step for each entry in whatever order; keys and identities stay; no entry stays connected more than 20 seconds after its last heartbeat |
| `FailureDetectors.NoFalseSuspicion` | src/GroundControl/networking/Connection.cpp:131-146 | a satellite heard from within 20 seconds of every pass stays connected on its socket and is never announced dead |
| `FailureDetectors.DeathIsNeverPremature` | src/GroundControl/networking/Connection.cpp:84-161 | in every run with a monotone clock a dead connection has been silent 110 seconds since its creation and 131 since every message |
| `FailureDetectors.RetriesAreBounded` | src/GroundControl/networking/Connection.cpp:117-122 | whatever the clock does, the counter never passes 11 and is zero while connected |
| `FailureDetectors.DeathIsAnnouncedOnce` | src/GroundControl/networking/GCConnectionHandler.cpp:58-61 | between two messages exactly one dead notice if the connection dies, none otherwise |
| `FailureDetectors.DeathIsBounded` | src/GroundControl/networking/Connection.cpp:115-128 | with passes at most g apart, clock reads within one included, and silence since the disconnect at d, dead by d + 11 * (10 + g) |
| `FailureDetectors.AttemptsAreSpaced` | src/GroundControl/networking/Connection.cpp:115-128 | in every timed run, messages included, two attempts are at least ten seconds apart |
| `FailureDetectors.NoEarlyRetry` | src/GroundControl/networking/Connection.cpp:84-119 | after a drop no visit changes the entry, sends or announces anything before ten seconds have passed |
| `FailureDetectors.RetryIntervalIsFixed` | src/GroundControl/networking/Connection.cpp:115-128 | with passes at most g apart every wait, whichever it is, is at least 10 and less than 10 + g seconds, and the attempts are the counted retries up to ten |
| `FailureDetectors.NoBackoff` | src/GroundControl/networking/Connection.cpp:119-119 | with passes at most ten seconds apart the waits double exactly as long as at most one retry is counted |
| `FailureDetectors.EveryTenSeconds` | src/GroundControl/networking/GCConnectionHandler.cpp:49-66 | with a pass every second the k-th attempt comes 10 k seconds after the disconnect, for all ten |
| `FailureDetectors.SocketIsClosedExactly` | src/GroundControl/networking/Connection.cpp:84-129 | in a run whose messages are answered, the socket is closed exactly if it was closed at the start, by a timeout or by a failed dial, and no attempt has been made since |
| `Projections.RunProjects` | src/GroundControl/networking/GCConnectionHandler.cpp:49-100 | in every run of ground control a connection is that connection alone under the events that touch it, and the dead outputs pushed about it are its death notices |
| `Projections.NobodySuspected` | src/GroundControl/networking/GCConnectionHandler.cpp:52-62 | in every run, a satellite heard from within 20 seconds of every pass stays connected and no dead output is pushed about it |
| `Projections.OneDeathOneNotice` | src/GroundControl/networking/GCConnectionHandler.cpp:58-61 | in every run in which a satellite is silent, exactly one dead output is pushed about it if it dies, none otherwise |
| `Projections.DeadInTime` | src/GroundControl/networking/GCConnectionHandler.cpp:49-66 | in every run, a satellite silent since its disconnect at d is dead and announced by d + 11 * (10 + g) |
| `Projections.SocketsAreClosedExactly` | src/GroundControl/networking/Receiver.cpp:95-103 | in every run of ground control that goes on, when a socket is closed, exactly |
| `GroundProjections.RunProjects` | src/GroundControl/networking/Receiver.cpp:149-178 | in every run of the constellation that ground control survives after its configuration, its connections, buffers and outputs are those of a run of its own, so that everything proved of such runs holds there |
| `GroundControls.ReturningTooSoonCrashes` | src/GroundControl/networking/GCConnectionHandler.cpp:89-119 | a message in that gap finds its connection connected with a closed socket, and answering it fails the assertion |
| `GroundControls.GapIsReached` | src/GroundControl/networking/GCConnectionHandler.cpp:49-119 | a run from a configuration of one satellite, heard at 1, dropped at 30, whose heartbeat at 31 fails the assertion |
| `GroundControls.DeadMeansSilent` | src/GroundControl/networking/Receiver.cpp:51-59 | in every run of ground control a dead satellite's last message is at least 131 seconds old |
| `Receivers.Receiver.HandleFileDump` | src/GroundControl/networking/Receiver.cpp:16-35 | the chunk is appended to its sender's buffer; the last one hands the buffer to the parser and empties it; other buffers stay |
| `Receivers.Receiver.AddConnection` | src/GroundControl/networking/Receiver.cpp:37-64 | unknown sender: added, greeted, heard; known: heard and announced alive |
| `Receivers.Receiver.Ack` | src/GroundControl/networking/Receiver.cpp:66-104 | when it fails, what a file message does, and the one ACK sent |
| `Receivers.ListenFailsExactly` | src/GroundControl/networking/Receiver.cpp:45-103 | of all decoded messages, exactly which end ground control |
| `Receivers.Receiver.ListenToDatagram` | src/GroundControl/networking/Receiver.cpp:149-178 | one loop iteration on the shared buffer: rejected datagrams change nothing but the buffer |
| `GroundControls.TerminalAgrees` | src/GroundControl/output/Terminal.cpp:38-53 | in every run, when the output queue is drained each shown alive flag says exactly whether the connection is dead |
| `Interleavings.TerminalAgreesInterleaved` | src/GroundControl/networking/Receiver.cpp:51-59 | the same with update passes and consumption between a listener's heartbeat and its pushes, if no pass ends 131 seconds or more after the message still being handled |
| `Terminals.SatelliteData.LogData` | src/GroundControl/datastorage/SatelliteData.cpp:81-94 | pushes exactly the lines the dump parser scans, in order |
| `Terminals.Terminal.HandleOutput` | src/GroundControl/output/Terminal.cpp:42-53 | one record updated as the output says, all others unchanged; unknown ids dropped |
| `Terminals.Terminal.Enter` | src/GroundControl/output/Terminal.cpp:119-134 | quit lowers the flag and stops both queues; a command is queued exactly if the pattern accepts it and its satellite exists, and completely parsed |
| `Terminals.TotalsOverARun` | src/GroundControl/output/Terminal.cpp:44-52 | after any sequence of outputs a record's totals are the sums over its own parsed dumps and its log is their lines in order |
| `PeerConnections.PeerConnection.Reconnect` | src/Satellite/network/PeerConnection.cpp:107-127 | not due: nothing; due: counted, and dialled unless the limit is passed |
| `PeerConnections.NoFalseSuspicion` | src/Satellite/network/PeerConnection.cpp:137-153 | a peer heard from within 20 seconds of every pass stays connected and is not dialled again |
| `PeerConnections.AtMostTenAttempts` | src/Satellite/network/PeerConnection.cpp:118-126 | between two messages from a peer at most ten attempts, however long the silence |
| `PeerConnections.CounterStaysWithin` | src/Satellite/network/PeerConnection.cpp:118-121 | between two messages the retry counter stays within n exactly while at most n less its first value visits find a retry due |
| `PeerConnections.CounterPassesEveryBound` | src/Satellite/network/PeerConnection.cpp:118-121 | for every n, a connected peer that falls silent has its counter at n after n + 1 passes |
| `PeerConnections.AttemptsAreSpaced` | src/Satellite/network/PeerConnection.cpp:116-122 | in every run two attempts are at least ten seconds apart |
| `PeerConnections.NoEarlyRetry` | src/Satellite/network/PeerConnection.cpp:73-118 | after a drop the peer is down since that moment, and no visit changes it or sends anything before ten seconds have passed |
| `PeerConnections.DropsAndAttemptsAreSpaced` | src/Satellite/network/PeerConnection.cpp:73-122 | in every timed run drops and attempts are at least ten seconds apart from each other |
| `PeerConnections.RetryIntervalIsFixed` | src/Satellite/network/PeerConnection.cpp:116-126 | with passes at most g apart every wait, the one after the drop included, is at least 10 and less than 10 + g seconds, and the attempts are the counted retries up to ten |
| `PeerConnections.RetrySendsHeartbeat` | src/Satellite/network/PeerConnection.cpp:107-127 | a peer's share of a pass sends one heartbeat exactly if it counts a retry up to the tenth and the dial works; it is connecting then, and down if the dial fails |
| `PeerConnections.RetriedMeansOpen` | src/Satellite/network/PeerConnection.cpp:20-75 | connected implies counter zero; if dialling works, a positive counter implies an open socket |
| `PeerConnections.SocketIsClosedExactly` | src/Satellite/network/PeerConnection.cpp:62-75 | in every run the socket is closed exactly if it was at the start, or by a timeout or a failed dial, and no attempt has been made since; the peer is then connected exactly if it has been heard since |
| `PeerConnections.HeardTooSoonStaysMute` | src/Satellite/network/PeerConnection.cpp:146-153 | a peer dropped and then heard is connected with a closed socket, and while heard regularly stays so, is sent nothing and is never dialled |
| `PeerProjections.RunProjects` | src/Satellite/network/ConnectionHandler.cpp:38-92 | in every run of the constellation a satellite's connection to a peer is that connection alone under the events that touch it |
| `PeerProjections.RetriesInRun` | src/Satellite/network/ConnectionHandler.cpp:45-57 | in every run in which a peer is silent at most ten attempts are made to reach it, and the retry counter counts the passes that found one due |
| `PeerProjections.PeerSocketsAreClosedExactly` | src/Satellite/network/ConnectionHandler.cpp:45-57 | in every run, when a satellite's socket to a peer is closed, and when that peer is connected, exactly |
| `PeerProjections.MuteForTheRun` | src/Satellite/network/ConnectionHandler.cpp:111-114 | in every run a connected peer with a closed socket that is heard regularly is sent nothing and never dialled |
| `ConnectionHandlers.PeerPassRefinesEntries` | src/Satellite/network/ConnectionHandler.cpp:38-58 | a satellite's pass is the same independent step for each peer, keeps keys and identities, and leaves no stale peer connected |
| `ConnectionHandlers.NewPeerCanBeSentTo` | src/Satellite/network/ConnectionHandler.cpp:29-35 | a new peer can be sent to at once exactly if its socket could be opened; other peers are unchanged |
| `ConnectionHandlers.NewPeerStaysConnected` | src/Satellite/network/ConnectionHandler.cpp:29-35 | a new peer is the one given, is greeted exactly if the dial works, and is left connected by passes exactly until 20 seconds after it was dialled, or added if there was no socket |
| `ConnectionHandlers.ConnectionHandler.AddConnection` | src/Satellite/network/ConnectionHandler.cpp:17-36 | the assertions on its arguments, and otherwise: a new peer is dialled and then connected, whether the dial worked or not |
| `ConnectionHandlers.ConnectionHandler.BroadcastMessage` | src/Satellite/network/ConnectionHandler.cpp:117-139 | exactly one message to each connected peer with an open socket except ground control, and none to anybody else, in whatever order |
| `ConnectionHandlers.ConnectionHandler.Update` | src/Satellite/network/ConnectionHandler.cpp:38-58 | entries and messages sent, for any iteration order |
| `ConnectionHandlers.PeerPassSendsHeartbeats` | src/Satellite/network/ConnectionHandler.cpp:45-57 | a pass sends exactly one heartbeat to each peer for which it counts a retry up to the tenth and whose dial works, and no other message, as a multiset |
| `Satellites.Satellite.CreateDataDump` | src/Satellite/core/Satellite.cpp:116-156 | the read loop yields `DumpOf` the file, whatever the unused chunk bytes hold, and truncates it; if it cannot be opened or truncated, the exception, and the file stays |
| `Satellites.ChunkingIsExact` | src/Satellite/core/Satellite.cpp:128-144 | min(100, L/1024 + 1) messages, payloads the first min(L, 102400) bytes, last marked exactly below the cap, an empty last chunk after whole ones |
| `NetworkManagers.NetworkManager.AcceptOnce` | src/Satellite/network/NetworkManager.cpp:108-126 | one decoded message: when it fails, the new state, the messages sent |
| `NetworkManagers.AcceptFailsExactly` | src/Satellite/network/NetworkManager.cpp:114-119 | of all decoded messages, exactly which end a satellite |
| `NetworkManagers.NetworkManager.AcceptDatagram` | src/Satellite/network/NetworkManager.cpp:84-127 | one loop iteration on the shared buffer |
| `Constellations.MoveDecreases` | src/GroundControl/networking/Receiver.cpp:51-103 | every delivery, with its greeting and its answer, and every loss lowers the measure |
| `Constellations.CascadesTerminate` | src/Satellite/network/NetworkManager.cpp:109-123 | for any number of satellites and messages in flight, no sequence of deliveries and losses is longer than the measure of its first state |
| `Handshakes.StepKeepsSymmetry` | src/Satellite/network/PeerConnection.cpp:51-59 | deliveries, passes, broadcasts, dumps, commands and new peers keep: whom I know knows me or has a message of mine coming, failed assertions included |
| `Handshakes.HandshakesComplete` | src/GroundControl/networking/Connection.cpp:42-48 | in every lossless run that holds, and when nothing is in flight to a running node the running nodes know each other symmetrically |
| `Handshakes.OrderIsSent` | src/GroundControl/networking/GCConnectionHandler.cpp:109-120 | an order puts its one command in flight exactly if its satellite is known with an open socket |
| `Handshakes.BroadcastIsSent` | src/Satellite/main.cpp:43-43 | a broadcast puts exactly one heartbeat in flight to each connected peer with an open socket but ground control |
| `Handshakes.GroundPassIsSent` | src/GroundControl/networking/GCConnectionHandler.cpp:52-62 | a pass of ground control puts in flight exactly the heartbeats of its retries |
| `Handshakes.SatPassIsSent` | src/Satellite/network/ConnectionHandler.cpp:45-57 | so does one of a satellite |
| `Conducts.StepIsProper` | src/Satellite/core/Satellite.cpp:101-144 | whatever happens, each message in flight carries its sender's id and port, the size its receiver asserts, and a type its sender may send |
| `Conducts.SatelliteSurvives` | src/Satellite/network/NetworkManager.cpp:114-119 | no such message fails an assertion of a satellite |
| `Conducts.GroundFailsExactly` | src/GroundControl/networking/Receiver.cpp:45-103 | such a message fails an assertion of ground control exactly when its sender's socket is closed, or its sender is new and socket() fails |
| `Conducts.SatellitesFailExactly` | src/Satellite/network/ConnectionHandler.cpp:22-35 | in every run with losses, failing sockets and timers, a satellite stays up exactly if it is given no peer with a negative id or port or an empty address |
| `Conducts.GroundStaysUpExactly` | src/GroundControl/networking/GCConnectionHandler.cpp:20-36 | in every run ground control stays up exactly if no message and no order meets a closed socket, socket() works for new senders, and no configured satellite has a bad id, port or address |
| `Conducts.AnyMessageCanArrive` | src/protocol/Serializer.cpp:11-71 | while all nodes are up every message in flight to one of them can be delivered |
| `Conducts.TrafficDiesDown` | src/GroundControl/networking/Receiver.cpp:95-103 | after any run, deliveries without timers and operator end within the measure of that moment |
| `Acknowledgements.EveryReportIsAcknowledged` | src/GroundControl/networking/Receiver.cpp:95-103 | each satellite message ground control survives causes exactly one ACK to its sender, behind a greeting if the sender is new and can be dialled |
| `Acknowledgements.StepAndWaiting` | src/Satellite/network/NetworkManager.cpp:109-112 | a log is emptied exactly by a dump or by an ACK while waiting, otherwise grows by what is logged, and the flag changes only there |
| `Acknowledgements.OneEmptyingPerDump` | src/Satellite/main.cpp:48-54 | in every run a satellite empties its log for an ACK at most once for each dump |
| `Acknowledgements.StaleAckEmptiesLog` | src/Satellite/network/NetworkManager.cpp:109-112 | any ACK under way before a dump takes the records written after it |
| `LogAccounts.SentIsInFlight` | src/Satellite/main.cpp:48-54 | the messages of a dump carry the first 102400 bytes of the log and are put in flight in order exactly if ground control is connected with an open socket |
| `LogAccounts.LogIsAccountedFor` | src/Satellite/core/Satellite.cpp:128-156 | in every run what the log held and what was written are, in order, what was sent, cut, dumped unsent or emptied, and what it still holds |
| `LogAccounts.NothingLostExactly` | src/Satellite/core/Satellite.cpp:128-156 | what was sent and what is still there are everything exactly if every dump finds at most 102400 bytes and, unless empty, an open connection, and every emptying ACK an empty log |
| `LogAccounts.LostToAckExactly` | src/Satellite/network/NetworkManager.cpp:109-112 | records are lost to an ACK exactly if one finds the satellite waiting and its log not empty |
| `LogAccounts.RecordsAreLost` | src/Satellite/main.cpp:41-54 | a run from a constellation in which nobody knows anybody that loses a record to the ACK of the first greeting, with nothing else going wrong |
| `DumpTraffics.DumpsAreConserved` | src/Satellite/main.cpp:49-52 | in every run a satellite's file messages in flight and dumped are those arrived, those lost and those still in flight, as multisets; from a quiet start each arrival was dumped and arrives at most once |
| `DumpTraffics.ArrivalsAreReassembled` | src/GroundControl/networking/Receiver.cpp:25-33 | in every run of the constellation ground control's buffer of a satellite and the dumps handed to the terminal are the reassembly of these arrivals in order |
| `DumpTraffics.LogReachesTerminal` | src/GroundControl/networking/Receiver.cpp:25-33 | a log below the cap whose dump arrives whole and in order is handed on as it was |
| `Commands.CommandFailsExactly` | src/Satellite/core/Satellite.cpp:171-174 | a command of ground control fails an assertion exactly of a satellite on ground control's port |
| `Commands.CommandMovesSatellite` | src/Satellite/network/NetworkManager.cpp:114-123 | a command decodes to itself; the satellite takes over its motion; of its peers only ground control's entry changes; it answers exactly if ground control is known, connected and its socket open, and greets an unknown one exactly if it can dial it |
| `Commands.LineBecomesMotion` | src/GroundControl/networking/GCConnectionHandler.cpp:133-145 | the six numbers behind the id of an accepted line are the motion commanded, in order |
| `Commands.MotionsComeFromOrders` | src/Satellite/core/Satellite.cpp:167-181 | in every run a satellite's commanded motion is its first one or one ordered in this run for this satellite |
| `CommandTraffics.CommandsAreConserved` | src/GroundControl/networking/GCConnectionHandler.cpp:129-146 | in every run the commands in flight to a satellite and those ordered over an open connection are those obeyed, those lost and those still in flight, as multisets; from a quiet start each is obeyed at most once |
| `CommandTraffics.LastCommandMoves` | src/Satellite/core/Satellite.cpp:167-181 | in every run a satellite moves as the last command it obeyed says |
| `Pipelines.ReassemblyConserves` | src/GroundControl/networking/Receiver.cpp:25-33 | for any sequence of a sender's chunks, buffers handed on and the open buffer are the payloads in order of arrival |
| `Pipelines.RunReassembles` | src/GroundControl/networking/Receiver.cpp:25-33 | in any run, for any sender, with all senders, passes and consumption interleaved, its buffer and the buffers carried by the outputs made of its messages depend only on these messages in order |
| `Pipelines.ParsedIsPushed` | src/GroundControl/networking/Receiver.cpp:51-83 | a received message pushes exactly the status of a known sender and these outputs, in this order |
| `Pipelines.RunAssembles` | src/GroundControl/output/Terminal.cpp:42-53 | so does the record of a satellite on the terminal once the output queue is drained |
| `Pipelines.DumpReassembles` | src/Satellite/core/Satellite.cpp:128-144 | a dump becomes exactly one buffer, the file behind what was left over, if and only if the file is shorter than 102400 bytes; otherwise none |
| `Pipelines.DumpSurvivesTheWire` | src/protocol/Message.h:56-66 | each message of a dump decodes to itself over any stale buffer |
| `Pipelines.DumpCanArrive` | src/GroundControl/networking/Receiver.cpp:37-104 | the dump of any satellite with an open connection can be delivered message by message, so that the end-to-end statement applies to it |
| `Pipelines.DumpsEndToEnd` | src/GroundControl/output/Terminal.cpp:44-52 | any number of logs below the cap, dumped and delivered in order among anything else, are reported on the satellite's record one after the other, whatever was queued before |
| `Pipelines.TotalsOfDumps` | src/GroundControl/datastorage/SatelliteData.cpp:27-35 | the totals are raised by the records of the dumps with telemetry, and only by those; the log by the lines of all |
| `Pipelines.TelemetryEndToEnd` | src/GroundControl/output/Terminal.cpp:44-52 | one such log with telemetry ends as its last coordinates, the raised totals and the extended log on the terminal once the queue is drained |

## Left out

- Real sockets, ncurses, key handling, signals, argument and configuration file reading: system calls and plumbing. An address is a node id, a send adds to the messages in flight.
- Duplication by the network: a message arrives at most once. Loss and reordering are modelled; symmetry and the end-to-end dump state their assumptions (lossless, in order per sender) in the run.
- The log lines the networking classes write about their own work, and removeConnection, which has no caller, and printAllPeers.
- File offsets of the logger's stream after another stream truncated its file: operating system semantics. A logged record is an arbitrary byte sequence, so that a gap in front of it can be part of it.
- The time stamp text: any text without `]` and newline. The 19-byte buffer in Logger.cpp is too small for its format.
- The motion arithmetic of Satellite::update. Motion here is what commands set.
- Memory layout: a header of a type byte, three padding bytes of any content and a 4-byte size, and little-endian integers.
- Floating point: doubles are opaque 8-byte values on the wire, and whole millionths in the text.
- Widths of counters and of clock values: unbounded. Message fields keep their widths, and tags, sizes and lengths are encoded in them.
- Chunk lengths outside 0 to 1024, which make the source read outside the message. No modelled node sends one.
- Steps inside one dump: sending its messages and setting the waiting flag are one event, as are the steps of one received message.
- The unused character input of the terminal: line editing, and that a rejected line stays in the input field.
- Numbers.ScanInt: does not model overflow, since the number of a telemetry line is never used and that of a command is converted afterwards.
- Numbers.ScanDouble: does not model C libraries that read nan with a word in parentheses otherwise than the C standard.
- Parsers.DumpReadsBack: takes coordinates that are finite; infinity and NaN are read, but not printed in the model.
- A dump whose file cannot be opened or truncated: the exception ends the satellite's process. The method models it, the runs take both as working.
- ConsumerLoops.ActsOnAPrefix: one consumer and one queue at a time; the program has one consumer for each queue.
- GroundControls.TerminalAgrees: takes each listener iteration as one step; Interleavings.TerminalAgreesInterleaved splits it, with each update pass still one step.
