# Verified model of the Furen transport and log

Furen is a small C++ server library. This project models its two stateful parts and proves what
they promise.

**Transport.** A message is a frame: a 5-byte right-aligned decimal length and a body. A client and
a session exchange frames over TCP. Each has a read chain (header, body, fresh message, header
again) and a write queue with one outstanding write. The session also has a 10 s heartbeat timer,
and the client writes heartbeats back.

**Log.** A formatter substitutes five placeholders one after the other. Logging threads put the text
into a pipe as 256-byte records, and one thread moves the records into rotating files, whose index
is recovered from the directory at every restart.

## Files

| file | content |
|---|---|
| CText.dfy | C string functions, decimal printing and reading, `find` |
| Framing.dfy | header codec, frames, the one-shot stream parser, heartbeat test |
| ReadChain.dfy, ChunkIndependence.dfy | the read chain on values, and every way of cutting a stream |
| WriteChain.dfy | the write queue on values |
| HeartbeatTimer.dfy | the deadline timer with cancel and expiry |
| SessionModel.dfy, ClientModel.dfy | one function per handler, the events, the invariants |
| Traffic.dfy, Network.dfy | the two endpoints with two channels, and their runs |
| Histories.dfy | what a run does, read off the list of its steps |
| Guarantees.dfy, Delivery.dfy | theorems over all runs |
| Message.dfy, Session.dfy, Client.dfy | the classes, with their arrays and aliasing, proved against the value model |
| FileNames.dfy, LogFileModel.dfy, LogFile.dfy | file names, the rotating writer, the class and its directory |
| Formatter.dfy, Substitution.dfy | the five steps, and the simultaneous substitution |
| Pipe.dfy, PipelineModel.dfy, LogProcessor.dfy | records, all interleavings of the pipeline, the objects |

## How to read it

A C++ `char` is a Dafny `char`; every theorem holds for all of them. Each handler exists twice. On
values it is a function, so that whole runs can be stated; as a method of a class it updates fields
and arrays in place, and its `ensures` says that the abstract value (`View`) changes as that
function says. An application callback is the list of messages that it writes while it runs. The
I/O service, the clock, the scheduler and the contents of uninitialised memory are arbitrary:
they are the events of a run, and a `Supply` of buffer contents.

A run is a list of steps from the initial state. What the applications wrote, how often each thing
happened and which timer deadline is pending is defined on that list; every history that a state
carries is proved to be that (`Histories`). Bytes may be delivered and taken in any pieces, a
completion may be handled at any later time, a read or a write may fail at any time, and a timer
completion that was already queued when `cancel` runs is still delivered.

Some results say where the code does not do what its shape suggests:

- A body that is a proper prefix of `PING` (also the empty body) is classified by leftover bytes of
  uninitialised memory (`Framing.ClassificationIgnoresLeftovers`). Delivery is proved for all
  other bodies; a body that starts with `PING` is never delivered.
- A literal that spells a placeholder name between two placeholders can make `formatMessage` throw
  although all five placeholders are there (`Substitution.FormatIsSubstitution` has the exact
  condition, `Substitution.ConfusingFormat` an input). It never gives a wrong text.
- `cancel` does not stop a timer completion that is already queued, so the session can go on sending
  heartbeats after its read chain has ended and its close callback has run
  (`Guarantees.EndedChainRearms` has the exact condition, `Guarantees.TimerOutlivesChain` a run).
- A restart goes on with the last file even if that file already exceeds the rotation size; each
  such restart lets one more record in (`LogFileModel.RotationBound`).
- `Pipe::read` stores every piece at the start of its buffer, so it is right exactly when the first
  `read()` returns the whole record (`Pipes.ShortReads`). A log whose base name contains `.log`, or
  that shares its directory with a log whose base name ends with its own, cannot be reopened
  (`FileNames.OwnNameParses`, `FileNames.SiblingNameParses`).

## Model

| member | source | states |
|---|---|---|
| CText.AtoiInvertsPadding | Transport/Message.cpp:60-75 | `atoi` inverts right-aligned decimal printing, for every number and every width |
| CText.AtoiReads | Transport/Message.cpp:60-69 | `atoi` skips white space, takes a sign, reads the number and stops behind its digits |
| CText.PrintIsDecimal | Transport/Message.cpp:71-75 | printing is decimal, digit by digit |
| CText.StrncpyExact | Transport/Message.cpp:39 | `strncpy` of a `std::string` gives its bytes up to the first NUL and NULs from there on; it keeps the string exactly when only NULs follow its first NUL |
| Framing.DecodeHeaderTotal | Transport/Message.cpp:60-69 | any five bytes give a length whose body fits the array; the header is rejected exactly when its `atoi` value is negative |
| Framing.HeaderRoundTrip | Transport/Message.cpp:60-75 | every length up to 99999 survives the header |
| Framing.ParsePartitions | Transport/Session.cpp:45-74 | the frames and the rest of a parsed stream are the stream, and every frame announces its own length |
| Framing.ParseFrames | Transport/Message.cpp:33-75 | frames in front of any stream are parsed off one by one and unchanged |
| Framing.FramingRoundTrip | Transport/Message.cpp:33-75 | the frames of any list of bodies parse back to that list with nothing left over |
| Framing.BodiesRoundTrip | Transport/Message.cpp:33-41 | the bodies come back unchanged exactly when no byte but NUL follows a NUL in any of them |
| Framing.PrefixDecodes | Transport/Message.cpp:60-75 | a list of frames whose bytes start another list's bytes is a prefix of that list |
| Framing.UniquelyDecodable | Transport/Message.cpp:60-75 | two lists of frames with the same bytes are the same list |
| Framing.ClassifyFrame | Transport/Message.cpp:81-85 | for a body that is not a proper prefix of "PING", the heartbeat test asks whether the body starts with "PING" |
| Framing.ClassificationIgnoresLeftovers | Transport/Message.cpp:81-85 | the heartbeat test is independent of old array contents exactly for bodies that are not a proper prefix of "PING" |
| ReadChain.ReceiveKeeps | Transport/Session.cpp:45-74 | received bytes go to the next free place of the array and nowhere else, whatever the pieces |
| ReadChain.HeaderDoneKeeps | Transport/Session.cpp:45-55 | handling a header loses and adds no byte, and leaves a body read that fits |
| ReadChain.BodyDoneKeeps | Transport/Session.cpp:57-70 | handling a body records exactly the bytes of one frame and starts the next message empty |
| ChunkIndependence.ReaderIsParser | Transport/Session.cpp:45-74 | a settled reader is the one-shot parser of the bytes it consumed: same frames, same stop, same rest |
| ChunkIndependence.AnyChunking | Transport/Session.cpp:45-74 | two runs that receive the same bytes in any pieces and settle agree on frames, classifications, stop and array, for any stream |
| ChunkIndependence.AnyMemory | Transport/Session.cpp:57-69 | the same holds for any two contents of uninitialised memory, when no body is a proper prefix of "PING" |
| ChunkIndependence.FeedAppend | Transport/Client.cpp:52-77 | feeding a and then b equals feeding a + b |
| ChunkIndependence.FeedIsParse | Transport/Client.cpp:52-77 | a fresh reader delivers the frames of the whole stream and stops exactly where the parser rejects a header |
| WriteChain.WriteAllOnBusy | Transport/Session.cpp:76-89 | writes made while an item is queued only append; none starts a second write |
| WriteChain.WriteKeeps | Transport/Session.cpp:76-89 | `write` keeps the single-writer invariant and puts no byte on the connection |
| WriteChain.WriteDoneIs | Transport/Session.cpp:91-102 | the exact queue, outstanding write and history after a completion whose callback wrote any number of messages |
| WriteChain.WriteDoneKeeps | Transport/Client.cpp:98-109 | a completion pops exactly the front item and keeps the single-writer invariant under re-entrant writes |
| WriteChain.WriteFailedKeeps | Transport/Client.cpp:110-113 | a failed write pops nothing and starts nothing |
| WriteChain.OutAndUnsent | Transport/Session.cpp:76-106 | bytes on the connection and bytes still queued make up all frames ever written |
| HeartbeatTimer.RearmKeeps | Transport/Session.cpp:130-136 | after arming exactly one wait is pending |
| HeartbeatTimer.ExpireKeeps | Transport/Session.cpp:108-119 | a wait that expires was due: ten seconds after arming and with no header accepted in between |
| SessionModel.EventKeeps | Transport/Session.cpp:33-149 | every event keeps the session invariant, adds to the writes exactly what the application and the heartbeat handler give to `write`, and leaves pending exactly the wait that the event calls for |
| SessionModel.EventWrites | Transport/Session.cpp:57-119 | a body hands on what the read callback writes, a failure what the close callback writes, a completed write what its callback writes, a timer completion one "PING" frame, and nothing else writes |
| SessionModel.EventCounts | Transport/Session.cpp:33-149 | `start`, an accepted header and a handled completion arm one wait; a failure of either chain cancels it and runs the close callback; only an accepted header counts as a header, only a body as a frame read |
| SessionModel.EventWriteCounts | Transport/Session.cpp:91-106 | only a completed write leaves the queue, only a failed one is recorded as failed |
| SessionModel.PingFrameIs | Transport/Message.cpp:77-79 | the heartbeat frame is the nine bytes of four spaces, 4 and PING |
| SessionModel.ClosesAtMostTwice | Transport/Session.cpp:138-149 | the close callback runs at most twice |
| SessionModel.BrokenStaysSilent | Transport/Session.cpp:103-105 | after a failed write no event of the session sends a byte |
| SessionModel.EndOfReadsKillsTimer | Transport/Session.cpp:138-149 | when the read chain ends no wait is pending, and the timer is dead exactly when no successful completion was queued |
| SessionModel.DeadTimerStaysDead | Transport/Session.cpp:108-136 | no event arms a dead timer again |
| SessionModel.LateCompletionRearms | Transport/Session.cpp:108-119 | handling a completion that `cancel` came too late for queues one "PING" frame and arms one wait of ten seconds |
| ClientModel.EventKeeps | Transport/Client.cpp:41-114 | every event keeps the client invariant and adds to the writes exactly what the application gives to `write` and the echo |
| ClientModel.EventWrites | Transport/Client.cpp:41-114 | a heartbeat is written back as its own frame, any other body hands on what the read callback writes, an error what the callback told about it writes, and nothing else writes |
| ClientModel.EventCounts | Transport/Client.cpp:41-114 | each failed connect or read is reported once, each failed write to its own callback, and a body is one frame read |
| ClientModel.EventWriteCounts | Transport/Client.cpp:98-114 | only a completed write leaves the queue, only a failed one is recorded as failed |
| ClientModel.BrokenStaysSilent | Transport/Client.cpp:110-113 | after a failed write no event of the client sends a byte |
| Traffic.LinkPreservesFrames | Transport/Session.cpp:45-106 | across one direction, what was read is a prefix of what was written and the bytes in transit are exactly the missing frames |
| Network.SessionReads | Transport/Session.cpp:45-74 | an event of the session consumes stream bytes only when they arrive, and exactly those |
| Network.SessionWrites | Transport/Session.cpp:76-106 | an event of the session sends bytes only when the transport takes them, and exactly those |
| Network.ClientReads | Transport/Client.cpp:41-83 | the same for the reads of the client |
| Network.ClientWrites | Transport/Client.cpp:85-114 | the same for the writes of the client |
| Network.Reachable | Transport/Session.cpp:33-149 | every reachable state of the two endpoints and channels satisfies the invariant |
| Histories.WrittenIsGiven | Transport/Session.cpp:57-119 | in every reachable state everything queued at an endpoint is, in order, what the steps of the run handed to `write`: the calls of the application, those from inside each callback that ran, the heartbeats and the echoes; the application's part is what the application gave |
| Histories.Counted | Transport/Session.cpp:33-149 | accepted headers, frames read, heartbeats sent, expired waits, armed waits, close callbacks, completed and failed writes are the numbers of steps of their kinds, at both endpoints |
| Histories.TimerIsRead | Transport/Session.cpp:108-149 | the pending wait and its deadline follow from the steps: ten seconds after the last header or handled completion, none after an expiry or a failure |
| Histories.ExpiresAfterSilence | Transport/Session.cpp:108-136 | a wait that expires was armed at least ten seconds before, and no header was accepted and no wait armed in between |
| Histories.TimerCanMove | Transport/Session.cpp:108-136 | the next wait can expire exactly when its deadline has passed, and a heartbeat is due exactly when more waits expired than were handled |
| Histories.ReadingIsRead | Transport/Session.cpp:33-74 | an endpoint is reading exactly from its start or connect to its first failed read |
| Guarantees.FifoDelivery | Transport/Session.cpp:45-106 | in every reachable state what an application gave to `write` in the steps of the run, also from inside its callbacks, without bodies that start with "PING", is what the other side's read callback got followed by the data in transit: same order, same bytes, nothing lost, doubled or made up |
| Guarantees.TextsArriveInOrder | Transport/Client.cpp:52-114 | for texts that the applications give with `setData` in the steps of the run, the delivered bodies are a prefix of the texts, and all of them once nothing is in transit; heartbeats and echoes never appear |
| Guarantees.HeartbeatConservation | Transport/Session.cpp:60-62 | timer completions handled in the run plus the applications' own "PING" bodies equal heartbeats in transit both ways plus those the session absorbed |
| Guarantees.EchoesAndBeats | Transport/Client.cpp:67-69 | the client queued one byte-identical echo per heartbeat, in order, and the session one "PING" frame per timer completion handled in the run, and neither queued another |
| Guarantees.HeadersNeverRejected | Transport/Session.cpp:46-54 | neither endpoint ever rejects a header of the other |
| Guarantees.SingleWriterAlways | Transport/Session.cpp:76-106 | in every reachable state at most one write is outstanding, for the front item, exactly when the queue is non-empty unless a write failed; callbacks ran once per completed item in order |
| Guarantees.TimerDiscipline | Transport/Session.cpp:108-136 | in every reachable state the pending wait is the one that the steps call for, at most one, with that deadline; every successful completion was due, counting the headers read in the run; the close callback ran once per failed chain |
| Guarantees.SilentAfterWriteError | Transport/Client.cpp:98-114 | from a failed write on, the outbound stream never grows again in any continuation of the run |
| Guarantees.TimerNeverArmedAgain | Transport/Session.cpp:108-149 | from a dead timer on, no continuation of the run arms it |
| Guarantees.EndedChainRearms | Transport/Session.cpp:108-149 | in every reachable state whose read chain has ended, some continuation of the run arms the timer again exactly when the timer is not dead: a wait is pending or a successful completion is queued |
| Guarantees.TimerOutlivesChain | Transport/Session.cpp:108-149 | a run in which the read chain has ended, the close callback has run and nothing was written, and the next step queues one "PING" frame and arms the timer |
| Delivery.ArrivesAtClient | Transport/Client.cpp:52-83 | from every reachable state in which no read of the client and no write of the session has failed, the run can go on until the client has read every frame and its read callback has got all that the session's application gave |
| Delivery.ArrivesAtSession | Transport/Session.cpp:45-74 | the same from the client to the session |
| Messages.Message.SetData | Transport/Message.cpp:33-41 | the array starts with the frame of the text and keeps its other bytes |
| Messages.Message.EncodeHeader | Transport/Message.cpp:71-75 | the first five bytes become the header of the length, the others stay |
| Messages.Message.CreateHeartbeatMessage | Transport/Message.cpp:77-79 | the message holds the "PING" frame |
| Messages.Message.DecodeHeader | Transport/Message.cpp:60-69 | the in-place method stores and returns what the header codec says |
| Messages.Message.IsHeartbeat | Transport/Message.cpp:81-85 | the method answers whether the four bytes behind the header are "PING" |
| Sessions.Session.Start | Transport/Session.cpp:33-39 | the method does the model's start: a header read into a fresh message, and one wait more |
| Sessions.Session.Receive | Transport/Session.cpp:38-50 | a read into the current message changes no queued message, and every message handed to the application still holds the frame that was delivered |
| Sessions.Session.HandleReadMessageHeader | Transport/Session.cpp:45-55 | the method does the model's header step: an accepted header leaves one wait of ten seconds and a body read, a rejected one no wait, and then what the close callback wrote is queued; the message stays private |
| Sessions.Session.HandleReadMessageBody | Transport/Session.cpp:57-74 | the method does the model's body step: what the read callback wrote is queued, a heartbeat queues nothing; the message handed over holds the frame and is replaced by a fresh one |
| Sessions.Session.HandleReadError | Transport/Session.cpp:71-73 | a read error ends the read chain, cancels the timer, and queues what the close callback wrote |
| Sessions.Session.Write | Transport/Session.cpp:76-89 | the method does the model's write on the frame that the message holds, queues that very object, and keeps the message being read private |
| Sessions.Session.HandleWrite | Transport/Session.cpp:91-102 | the method does the model's completion step: what the callback wrote is queued, then the front item leaves; the message being read stays private |
| Sessions.Session.HandleWriteError | Transport/Session.cpp:103-106 | the method does the model's write error step: no item leaves, the timer is cancelled, what the close callback wrote is queued; the message being read stays private |
| Sessions.Session.HeartbeatHandle | Transport/Session.cpp:108-119 | the method does the model's timer step: one new message that holds the "PING" frame is queued, and one wait of ten seconds is pending |
| Sessions.Session.ResetHeartbeatTimer | Transport/Session.cpp:130-136 | the method does the model's timer reset: afterwards exactly one wait is pending, whatever was pending before, it expires in ten seconds, and a completion that was already queued stays |
| Sessions.Session.HandleError | Transport/Session.cpp:138-149 | the method calls the close callback, whose writes are kept, and cancels the timer |
| Clients.Client.HandleConnect | Transport/Client.cpp:41-45 | the method does the model's connect step: a header read into a fresh message |
| Clients.Client.HandleConnectError | Transport/Client.cpp:46-49 | a failed connect is reported once to the read callback and nothing is read |
| Clients.Client.Receive | Transport/Client.cpp:44-55 | a read into the current message changes no queued echo, and every message handed to the application still holds the frame that was delivered |
| Clients.Client.HandleReadMessageHeader | Transport/Client.cpp:52-62 | the method does the model's header step, also when the read callback writes the rejected message back |
| Clients.Client.HandleReadMessageBody | Transport/Client.cpp:64-83 | the method does the model's body step: a heartbeat is queued as the message object that was read, with the bytes that were read; otherwise what the read callback wrote is queued |
| Clients.Client.HandleReadError | Transport/Client.cpp:78-82 | a read error ends the read chain and is reported once |
| Clients.Client.Write | Transport/Client.cpp:85-96 | the method does the model's write |
| Clients.Client.HandleWrite | Transport/Client.cpp:98-109 | the method does the model's completion step: what the callback wrote is queued, then the front item leaves |
| Clients.Client.HandleWriteError | Transport/Client.cpp:110-114 | the method does the model's write error step: no item leaves, and what the callback of that write wrote is queued |
| FileNames.OwnNameParses | Log/File.cpp:104-116 | the index in a printed file name is read back exactly when the base name does not contain ".log", else the constructor throws |
| FileNames.SiblingNameParses | Log/File.cpp:105-114 | the file of a log whose base name ends with this one makes the constructor throw |
| FileNames.FileNameInjective | Log/File.cpp:75 | different indices have different file names |
| FileNames.FileNameIs | Log/File.cpp:75 | a file name is the base name, an underscore, the index in decimal and ".log" |
| FileNames.CastReads | Log/File.cpp:114 | the cast takes a plus, lets a minus wrap at 64 bits, and rejects what does not fit |
| FileNames.RestartThrows | Log/File.cpp:94-120 | a restart throws exactly when the base name contains ".log" and an own file exists |
| LogFiles.GetLastFileIndex | Log/File.cpp:94-120 | the loop returns the largest index of the directory, 0 if there is none, in any listing order, and throws exactly when an entry makes the cast throw |
| LogFiles.ReadEntry | Log/File.cpp:104-114 | the find and substr arithmetic on one entry does what the name parser says |
| LogFiles.Open | Log/File.cpp:31-33 | the constructor succeeds exactly when no entry makes the cast throw, and continues at the largest index with the given base name and rotation size |
| LogFiles.File.Write | Log/File.cpp:38-48 | the method does the model's write on the directory |
| LogFiles.File.Rotate | Log/File.cpp:50-64 | the method does the model's rotation |
| LogFiles.File.GetFile | Log/File.cpp:66-87 | the method does the model's opening, appending to an existing file |
| LogFileModel.WriteKeeps | Log/File.cpp:38-87 | a record goes to the end of exactly one file, no other file of the directory changes, of this log or not, and the indices stay contiguous |
| LogFileModel.RestartFinds | Log/File.cpp:94-120 | a restart finds the last file of a contiguous directory, whatever other names are in it that it passes over |
| LogFileModel.History | Log/File.cpp:31-120 | over any records and restarts the files gain exactly the records, in order, no record is split, and files of other names keep their contents |
| LogFileModel.LimitInForce | Log/File.cpp:31-33 | over any run the base name stays and the rotation size is that of the last restart |
| LogFileModel.LogIsHistory | Log/File.cpp:31-120 | the existing indices are contiguous from 0 and the files in index order are the records in order |
| LogFileModel.RotationBound | Log/File.cpp:50-87 | with a fixed limit, from any directory, for every file: the records that went to it when it already exceeded the limit grow by at most one for each restart that reopened it in that state; every file that is left behind exceeds the limit |
| LogFileModel.NeverReopened | Log/File.cpp:50-87 | in any run with any restarts, a file that the run made and that no restart reopened when it already exceeded the limit is at most the limit plus its last record |
| Formatter.FormatMessage | Log/MessageProcessor.cpp:32-51 | the method does the five replacements and throws when one finds nothing |
| Substitution.FormatIsSubstitution | Log/MessageProcessor.cpp:32-51 | for '%'-free literals and the five placeholders once each in any order, the result is the simultaneous substitution plus newline exactly when no literal is confusing, else it throws; the text is never expanded again |
| Substitution.SpoiltFails | Log/MessageProcessor.cpp:36-48 | after a replacement in the wrong place a later one always throws |
| Substitution.UsualFormat | Log/test/LogTest.cpp:23 | the format that the programs use gives time, the severity in words, process, thread and text separated by spaces, and a newline, word by word for each of the six severities |
| Substitution.SeverityIsShown | Log/MessageProcessor.cpp:53-68 | different severities show as different words |
| Substitution.ConfusingFormat | Log/MessageProcessor.cpp:36 | a format with all five placeholders for which the method throws |
| Pipes.Pipe.Write | Log/Pipe.cpp:34-39 | a write appends one whole record |
| Pipes.Pipe.Read | Log/Pipe.cpp:41-54 | the loop takes one whole record and returns it up to its first NUL when the pipe holds one; with less it takes what is there and still waits |
| Pipes.RecordCut | Log/Pipe.cpp:34-54 | what comes out of a record is the text cut at 255 bytes and at its first NUL |
| Pipes.CutKeeps | Log/Pipe.cpp:34-54 | a text survives the pipe exactly when it is shorter than 256 bytes and has no NUL |
| Pipes.CutIsLongest | Log/Pipe.cpp:34-54 | otherwise the longest part without a NUL in its first 255 bytes survives |
| Pipes.ShortReads | Log/Pipe.cpp:41-51 | every text comes out right exactly when the first `read()` returns the whole record |
| PipelineModel.WholeRecordPipeline | Log/LogProcessor.cpp:44-78 | under every interleaving of writers with reads that take what is there, the pipe holds whole records; stored records, the one in hand and those in the pipe are the texts in write order, cut; none is dropped |
| PipelineModel.EveryReadIsWhole | Log/Pipe.cpp:41-54 | in every reachable state a read that finds the pipe non-empty gets exactly one whole record with its first piece, whatever the buffer held |
| PipelineModel.AcceptedIsFormatted | Log/LogProcessor.cpp:55-62 | under every interleaving the texts in the pipe and those on their way to it are, thread by thread, exactly the messages that came after the file, in the format given to `init`: each one once, none else, and those of one thread in the order in which it logged them |
| PipelineModel.Configured | Log/LogProcessor.cpp:44-53 | in every reachable state the format is the one given to `init`, and there is a file exactly when `init` has set it |
| PipelineModel.RunsEmpty | Log/LogProcessor.cpp:55-78 | from every reachable state with a file the pipeline can go on, without another message, until every logged message is in the file, cut, those of one thread in their order |
| PipelineModel.LogReachesDisk | Log/LogProcessor.cpp:68-78 | the files in index order hold the earlier records and then a prefix of the cut texts in write order |
| LogProcessors.LogProcessor.Init | Log/LogProcessor.cpp:44-53 | the method keeps the format and does the model's thread start and then its file step with the given base name and rotation size, unless the file's constructor throws; then the file stays unset |
| LogProcessors.LogProcessor.Add | Log/LogProcessor.cpp:55-62 | the method does the model's log step and pipe write: one record of the formatted text, nothing without a file; a formatting error is passed on |
| LogProcessors.LogProcessor.WriteToFile | Log/LogProcessor.cpp:68-71 | the method does the model's file step: a record goes to the file if there is one |
| LogProcessors.LogProcessor.ReadFromPipe | Log/LogProcessor.cpp:73-78 | one round does the model's read and file step on the next record, and waits on an empty pipe |

## Left out

- Boost.Asio, sockets, name resolution: only that a read or write fills its buffer or fails, and the cancel and expiry of a timer.
- `Server`, `SessionManager`, `EventBus`, the event classes, `Daemon`: dispatch and operating-system plumbing; they would add easy members.
- `setData` with more than 99999 bytes: the source has no check there and the array is too small, so `SetData` asks for a length that fits.
- Applications that change a message while it is queued: an item is the frame that its message held when it was written; the classes prove that the endpoints themselves never change it.
- `ClientModel.EventKeeps`: the application writes framed messages, so it leaves out a read callback that writes a rejected message back. `Clients.Client.HandleReadMessageHeader` covers that call, and `Guarantees.HeadersNeverRejected` shows that no run of the two endpoints gets there.
- The error messages and the logging calls inside the handlers.
- A second `start`, and a second `init`, on the same object.
- Data races: the log pipeline interleaves whole steps, with `file_` read and written atomically.
- I/O errors of the log files, and a directory entry of another kind with the name of a log file.
- `convertTimeToString`: the rendered time is a parameter, without '%' and not contained in a placeholder name.
- Formats with a placeholder missing or repeated: `Formatter.FormatMessage` covers them, the substitution theorem does not.
- `LogFileModel.LogIsHistory`: asks for fewer than 2^64 operations, because the file index is an `unsigned long`.
- A record without a NUL: `Pipe::write` always leaves one at the end of the record, so the model does not say what `Pipe::read` would find past its buffer.
- `getLogLevel`: it has no effect.
