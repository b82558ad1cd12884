# Verified model of the PyroMind SDK's streaming, listing and transport code

This Dafny project models the parts of the SDK whose correctness depends on
interleavings, framing or text substitution, and proves what they promise for every
input, every cut of a stream and every schedule. `dafny verify dfyconfig.toml` checks it.

* `MarkerFilter`, `ExecBridge`, `ClientStdin`: the `docker exec` bridge
  (`docker_rt/aio_server.py`). The marker filter is a class with the buffer and the
  acknowledgement flag of the code; its whole output is characterised for every marker and
  every list of frames, with any number of markers in them. The PTY twin `_strip_marker`
  (lines 5071-5093) is the same code and the same class.
* `Handshake`: the acknowledged exit, from the wrapped command (`docker_rt/backend/exec_utils.py`)
  over a lossy wire to the reader and back. A run is any sequence of steps of the parties.
* `ExecStream`, `SyncBridge`, `ExecPath`: the exec-stream client (`exec_stream.py`). The
  consumer loop is a method whose input is a schedule (what arrives, times out, is set or
  fails around each turn); the two threads around the bounded queue interleave at every queue
  operation and are a transition system. `ExecPath` composes decoding, relaying and filtering
  with the runs of the handshake, from what the command writes to what the client reads.
* `Storage`: the depth-limited folder walk (`client/storage.py`).
* `Template`, `HereDoc`: placeholder substitution and here-document transport (`nodes/`).
* `Trace`, `Upload`, `Paging`, `IpLookup`, `Retry`: trace ids, chunked upload, paging,
  batched lookup and the retry loop (`client/`).
* `Sequences`, `TextSplitting`: shared vocabulary.

Sockets, threads, the clock and server replies are parameters: sequences of messages,
schedules, or functions from the request number to the reply. Code between two `await`s is
one atomic step. Every lemma switches automatic induction off, so that no proof depends on it.

## Findings

The model follows the code. Where the code does something its comments do not say, a lemma
gives the exact condition.

* The wrapper prints a line end *before* the marker, and the filter does not remove it: on an
  acknowledged exit the client's stderr is the command's stderr plus one line end, never
  the command's stderr alone, and a second one if and only if the line end printed after the
  marker came in a frame after the one that completes it (`Handshake.NothingLostOnAck`).
* A command whose own stderr contains the marker is acknowledged as soon as that has arrived.
  No acknowledged exit can lose output if and only if the marker does not occur in stderr
  before the last byte the command writes (`Handshake.NothingLostIff`; for every command in
  which it does, a run that loses all the output after it: `Handshake.EarlyAckLosesOutput`).
* When the stream fails, the reason is written before the bytes still held. It comes last if
  and only if the frames after the one that completes the last marker found do not end in
  the beginning of a marker
  (`ExecBridge.FailureReasonComesLastIff`; a run in which it comes first:
  `ExecBridge.ReasonBeforeTailExample`).
* When the server reports a negative exit code, held bytes of stderr count as no output: a
  command whose whole stderr is a proper prefix of the marker is reported as one that
  produced nothing (`ExecBridge.SilentNoticeIff`; a run:
  `ExecPath.FalseSilenceFromServer`). A stream that nobody stopped and that ends by itself
  gets that notice only with a negative code (`ExecPath.SilentMeansNegativeCode`).
* When the platform's terminal cannot be opened, an interactive exec falls back to the
  command channel with its command still wrapped, but without the marker
  (`docker_rt/aio_server.py`, lines 4645-4691). The marker line then reaches the client
  (`ExecPath.FallbackShowsMarker`), nothing is ever acknowledged, and the command can only
  exit by its timeout (`Handshake.NoAckWithoutMarker`). With `-t` no output is counted there,
  so every negative exit code is reported as a command that produced nothing
  (`ExecBridge.StreamTerminal`; a run: `ExecBridge.TerminalFalseSilence`).
* If `_message_tail` could not be cleared, Ctrl-D would be sent although stdin bytes were
  never forwarded (`ClientStdin.CtrlDComesAfterAllBytesIff`; a run:
  `ClientStdin.CtrlDBeforeLostByte`).
* A consumer of `iter_exec_stream` that finds its thread dead, and was not stopped, ends
  without an exception. It has lost the events put after its last poll, and the exception of
  every stream that failed
  (`SyncBridge.DeadThreadLosesLatePuts`; a run: `SyncBridge.LateFinishIsLost`).
* "End" is put with a single attempt. When 64 events wait in the queue at that time it is
  dropped; the consumer can then still yield everything, but it ends by finding its thread
  dead (`SyncBridge.EverythingIsReachable`, `SyncBridge.LostEndIsNeverTaken`; a run:
  `SyncBridge.EndCanBeLost`).
* The "hard deadline" of the exec stream is looked at in idle turns only: the run ends at the
  first idle turn at or past it, and a stream with a message ready at every turn outlives
  any deadline (`ExecStream.IterExecStreamEvents`, `ExecStream.OutlivesDeadline`).
* Replacing placeholders key by key is simultaneous substitution, for every clean template
  and in every order of the keys, if and only if no value contains another key's placeholder
  or ends in the beginning of one, keys whose value is their own placeholder aside
  (`Template.SimultaneousIffIndependent`). The placeholders left are the extracted ones
  minus the keys if and only if no value contains a placeholder of any name or ends in the
  beginning of one (`Template.PlaceholdersLeftIff`).
* In the printed here-documents, where a line end follows every value, only whole
  placeholders matter, and the dictionary holds the paths of the outputs next to the inputs:
  the values arrive unchanged in every order if and only if no value contains the placeholder
  of another input or of an output, entries whose value is their own placeholder aside
  (`HereDoc.ArrivesIffKeptApart`, `HereDoc.BlockIffKeptApart`,
  `HereDoc.OneInputIffKeptApart`, `HereDoc.PairIffKeptApart`, `HereDoc.TransportIffKeptApart`;
  with the inputs first and the outputs after them, as the code builds it:
  `HereDoc.ArrivesInCodeOrderIff`). Cases: `HereDoc.OutputPlaceholderIsReplaced`,
  `HereDoc.PlaceholderAsValueIsReplaced`. An output with the name of an input takes its place
  in the dictionary, and that input arrives as the path (`HereDoc.OutputTakesPlace`).
* A value with a carriage return does not come back unchanged from its here-document
  (`HereDoc.RecoveredIff`).
* `complete` is sent even when the source was longer than announced, and then part of it is
  missing, and so it is when short reads take less than the source in the announced number
  of reads (`Upload.ChunkedWriteFile`; runs: `Upload.TruncatedUpload`,
  `Upload.ShortReadsTruncate`). The docstring of `write_file` speaks of 100 MB chunks; the
  constant is 2 MiB.

## Model

| member | source | states |
|---|---|---|
| `MarkerFilter.MarkerHoldback` | pyromind_sdk/docker_rt/aio_server.py:597-619 | the number of bytes held back is the length of the longest suffix of the buffer that is a proper prefix of the marker |
| `MarkerFilter.StreamFilter.Filter` | pyromind_sdk/docker_rt/aio_server.py:731-761 | one call keeps buffer, acknowledgement and everything sent equal to what the specification says for all frames so far; the acknowledgement is fired by at most one call |
| `MarkerFilter.StreamFilter.Flush` | pyromind_sdk/docker_rt/aio_server.py:836-853 | after the flush the client has the complete output of the frames fed |
| `MarkerFilter.StripNewlinesKeepsSuffix` | pyromind_sdk/docker_rt/aio_server.py:750-750 | the rest of a completing frame loses the carriage returns and line feeds at its beginning, and nothing else |
| `MarkerFilter.HeldIsLongestMarkerPrefix` | pyromind_sdk/docker_rt/aio_server.py:753-761 | until the marker is received: sent plus held is received, held is the longest suffix of everything received that is a proper prefix of the marker, and no acknowledgement is sent |
| `MarkerFilter.MarkerFreeStreamIsUntouched` | pyromind_sdk/docker_rt/aio_server.py:836-853 | without a marker, or with the filter disabled, output plus flush is the input, however it is cut |
| `MarkerFilter.SplitAtMarker` | pyromind_sdk/docker_rt/aio_server.py:736-737 | every stream with a marker has a frame that completes its first occurrence |
| `MarkerFilter.OutputAroundFirstMarker` | pyromind_sdk/docker_rt/aio_server.py:736-752 | for every cut: what precedes the first marker comes out, the marker does not, the rest of its frame comes out without leading newlines, and the later frames are a stream of their own |
| `MarkerFilter.OutputOfAnyStream` | pyromind_sdk/docker_rt/aio_server.py:731-761 | for every marker and every list of frames, without conditions: the output is the stream without the markers the code sees and the newlines that follow each in its frame |
| `MarkerFilter.HeldIff` | pyromind_sdk/docker_rt/aio_server.py:753-761 | for every stream: bytes are held if and only if the frames after the one that completes the last marker found end in the beginning of a marker |
| `MarkerFilter.NothingSentIff` | pyromind_sdk/docker_rt/aio_server.py:736-761 | for every stream: nothing gets through if and only if it is made of markers, newlines after them in their frames, and a proper prefix of a marker |
| `MarkerFilter.OutputWithOneMarker` | pyromind_sdk/docker_rt/aio_server.py:736-752 | for A+marker+B with one marker: the output is A and B minus the newlines right after the marker in its frame, and is A+B if and only if there are none |
| `MarkerFilter.CutInvariance` | pyromind_sdk/docker_rt/aio_server.py:731-761 | when B does not start with a newline, the output is A+B for every cut |
| `MarkerFilter.AckedIffMarkerReceived` | pyromind_sdk/docker_rt/aio_server.py:738-746 | the acknowledgement has been fired if and only if the bytes received contain the marker |
| `MarkerFilter.SentIsSafe` | pyromind_sdk/docker_rt/aio_server.py:597-619 | no continuation of the stream can complete a marker that starts in bytes already sent |
| `MarkerFilter.HoldbackIsNeeded` | pyromind_sdk/docker_rt/aio_server.py:597-619 | under one continuation all the held bytes are removed, so none of them could have been sent |
| `ExecBridge.RelayChunks` | pyromind_sdk/docker_rt/aio_server.py:764-795 | the loop relays stdout verbatim and stderr through the filter, keeps the byte counts and the exit code, and fires the acknowledgement at the chunk that completes the marker |
| `ExecBridge.StreamExec` | pyromind_sdk/docker_rt/aio_server.py:702-863 | for every list of chunks and every ending: the exit code is 1 after a failure, 127 when the client has gone or no code (or a negative one) was received, else the code of the last exit chunk, so it is 0 if and only if the stream ended by itself and that chunk says 0; the bytes of both channels, with the failure reason or the "no output" notice between what was sent of stderr and the held tail; and the writes keep the order of the chunks |
| `ExecBridge.FailureReasonComesLastIff` | pyromind_sdk/docker_rt/aio_server.py:802-853 | for every stream, the failure reason follows all the command's output if and only if the frames after the one that completes the last marker found do not end in the beginning of a marker |
| `ExecBridge.ReasonBeforeTailExample` | pyromind_sdk/docker_rt/aio_server.py:802-853 | a failed stream whose reason comes before the byte the command wrote |
| `ExecBridge.SilentNoticeIff` | pyromind_sdk/docker_rt/aio_server.py:821-835 | for every stream and every ending: the "no output" notice is written if and only if the client had gone or the exit code is negative, stdout is empty, and nothing of stderr got through the filter, read off the frames |
| `ExecBridge.FalseSilenceExample` | pyromind_sdk/docker_rt/aio_server.py:821-835 | a command that wrote one byte of stderr, whose exit code is reported as -1, and that is treated as silent |
| `ExecBridge.StreamTerminal` | pyromind_sdk/docker_rt/aio_server.py:702-863 | for a run with a terminal: the same exit codes; both channels in the order of arrival, then the failure reason or the "no output" notice, which is never held back by a byte count (after a normal end it is written if and only if no exit code was received or it is negative) |
| `ExecBridge.RStripKeepsPrefix` | pyromind_sdk/docker_rt/aio_server.py:585-585 | a message on the stream loses the carriage returns and line feeds at its end, and nothing else |
| `ExecBridge.TerminalFalseSilence` | pyromind_sdk/docker_rt/aio_server.py:782-835 | a terminal run that wrote a byte and gets that notice |
| `Handshake.NothingLostOnAck` | pyromind_sdk/docker_rt/backend/exec_utils.py:116-160 | in every run that exits because of the acknowledgement, both channels of the command arrive completely; stderr gains one line end, and another one if and only if it came in a frame after the one that completes the marker |
| `Handshake.OneCloseAfterMarker` | pyromind_sdk/exec_stream.py:237-241 | in every run at most one stdin_close frame is sent, and only after the whole marker was received |
| `Handshake.RunKeepsInv` | pyromind_sdk/docker_rt/aio_server.py:4588-4615 | the invariant of all runs: bytes are conserved, close frames count acknowledgements, and an acknowledged exit misses at most the final line end |
| `Handshake.MarkerIsLast` | pyromind_sdk/docker_rt/backend/exec_utils.py:153-160 | whoever has received the whole marker has received everything the command wrote |
| `Handshake.AckIsReachable` | pyromind_sdk/docker_rt/backend/exec_utils.py:150-152 | from every state of every run in which the command still runs, whatever it writes, the acknowledged exit can be reached |
| `Handshake.NoAckWithoutMarker` | pyromind_sdk/docker_rt/aio_server.py:4645-4691 | a reader without the marker never acknowledges: in no run is a close frame sent or the acknowledged exit taken |
| `Handshake.TimeoutCanLose` | pyromind_sdk/docker_rt/backend/exec_utils.py:126-139 | a run that exits by timeout and loses the only byte of output |
| `Handshake.NothingLostIff` | pyromind_sdk/docker_rt/backend/exec_utils.py:116-160 | for every command, also one that prints the marker itself: every acknowledged exit leaves its whole output with the reader if and only if the marker does not occur in its stderr before its last byte |
| `Handshake.EarlyAck` | pyromind_sdk/docker_rt/aio_server.py:738-746 | once the reader has that much of the output, the acknowledgement is on its way although the command has more to write |
| `Handshake.EarlyAckLosesOutput` | pyromind_sdk/docker_rt/backend/exec_utils.py:116-160 | for every such command, a run that exits because of the acknowledgement and loses all that was written after the marker |
| `ExecStream.Pump` | pyromind_sdk/exec_stream.py:91-120 | the pump delivers a prefix of what the socket delivers, which ends at the first closing frame, connection error or failed receive, and only there; then it stops |
| `ExecStream.IdleTurn` | pyromind_sdk/exec_stream.py:231-245 | a timed-out wait raises past the deadline, sends the pending close frame, and a ping if and only if one is due |
| `ExecStream.IterExecStreamEvents` | pyromind_sdk/exec_stream.py:209-336 | for every schedule: the events are the sequential decoding of what was taken, taken plus queued is everything received up to the end of the stream; the last message taken alone decides the end: an exit, a bad code, a reported error, each closing frame and a failed receive in its own way (a closing frame is no error if the stop flag is up), any other message leaves the run to a stop request, the deadline or a failing send; a set stop flag is not survived; a wait that times out at or past the deadline ends the run, and nothing else does so; setting stdin_close once sends one close frame or leaves one pending; no ping comes early, and none is overdue after a wait that timed out |
| `ExecStream.OutlivesDeadline` | pyromind_sdk/exec_stream.py:231-236 | a stream with a message ready at every turn is not ended by any deadline |
| `ExecStream.BusyIsNeverIdle` | pyromind_sdk/exec_stream.py:227-231 | in such a schedule no turn is idle |
| `ExecStream.OpenIff` | pyromind_sdk/exec_stream.py:258-330 | the stream stays open exactly as long as no message is an exit, a bad code, a reported error, a closing frame, a connection error or a failed receive |
| `ExecStream.FirstEndingDecides` | pyromind_sdk/exec_stream.py:258-330 | the first of these decides alone how the stream ends, whatever follows |
| `ExecStream.EventsAreTheOutput` | pyromind_sdk/exec_stream.py:75-88 | while the stream is open, the events are the messages that carry output, one for one and in order, with their text or payload; no other message carries any |
| `ExecStream.ExitIsLast` | pyromind_sdk/exec_stream.py:271-278 | an exit event is yielded only if the server sent it, at most once, and last |
| `ExecStream.NoByteIsLost` | pyromind_sdk/exec_stream.py:75-88 | until the stream ends, the binary payload bytes yielded on a channel are exactly those received on it, in order |
| `ExecStream.NoTextIsLost` | pyromind_sdk/exec_stream.py:260-270 | the same for output in JSON text messages |
| `ExecStream.DecodeIsMonotone` | pyromind_sdk/exec_stream.py:209-336 | more messages only extend the events, and nothing after the end of the stream changes them |
| `ExecPath.RelayGetsOutput` | pyromind_sdk/docker_rt/aio_server.py:764-795 | composing decoder and relay: the relay is fed exactly the output bytes of each channel, whether they came in binary frames or as JSON text |
| `ExecPath.ClientSeesCompletedCommand` | pyromind_sdk/docker_rt/aio_server.py:702-863 | for a wrapped command whose exit code arrives, relayed with the wrapper's own marker, with or without the line end after the marker, whatever the framing: stdout and exit code are the command's, stderr is the command's plus one line end and, if and only if it came in a frame after the one that completes the marker, a second one, no notice is added, and the acknowledgement was fired |
| `ExecPath.FallbackShowsMarker` | pyromind_sdk/docker_rt/aio_server.py:4684-4691 | the same wrapped command relayed without the marker: the client's stderr contains the marker line, and nothing is acknowledged |
| `ExecPath.TerminalGetsOutput` | pyromind_sdk/docker_rt/aio_server.py:782-783 | a terminal is fed every output byte of both channels in the order of the messages |
| `ExecPath.NothingLostEndToEnd` | pyromind_sdk/docker_rt/backend/exec_utils.py:116-160 | from the command to the client: in every run of the handshake that exits because of the acknowledgement, however the delivered bytes are framed, the client gets all of stdout, all of stderr with the line ends stated for `NothingLostOnAck`, and the exit code |
| `ExecPath.NormalEndHasExitCode` | pyromind_sdk/exec_stream.py:272-279 | a consumer that nobody stopped ends without raising only after an exit message, and the relay gets its code |
| `ExecPath.SilentMeansNegativeCode` | pyromind_sdk/docker_rt/aio_server.py:822-835 | the "no output" notice in such a stream means that the server sent a negative exit code |
| `ExecPath.FalseSilenceFromServer` | pyromind_sdk/docker_rt/aio_server.py:822-835 | two messages of the server after which a command that wrote to stderr is reported as silent |
| `SyncBridge.RunKeepsInv` | pyromind_sdk/exec_stream.py:352-412 | the invariant of all interleavings: order, bound, and what each way of ending guarantees |
| `SyncBridge.BoundedAndInOrder` | pyromind_sdk/exec_stream.py:352-371 | the queue never holds more than 64 entries, and the events yielded are a prefix of those produced |
| `SyncBridge.EndMeansEverything` | pyromind_sdk/exec_stream.py:373-412 | taking "end" with the stop flag down means that all events were yielded and the stream did not fail; raising means that all events were yielded and it did |
| `SyncBridge.DeadThreadLosesLatePuts` | pyromind_sdk/exec_stream.py:399-404 | for every run in which the consumer stops because the thread is dead: the events yielded are exactly those put before its last poll, so all of them if and only if all were put before it; an exception is swallowed if and only if there was one |
| `SyncBridge.LastPoll` | pyromind_sdk/exec_stream.py:399-405 | that poll exists in the schedule, came back empty, and no other follows it |
| `SyncBridge.LateFinishIsLost` | pyromind_sdk/exec_stream.py:399-404 | a run that ends normally although an event was never yielded and the stream failed |
| `SyncBridge.EndsOnlyForAReason` | pyromind_sdk/exec_stream.py:388-412 | in every run: the generator is abandoned only by its caller, finds the thread dead only when the producer is through, and the stop flag is up if and only if the caller raised it or the generator is over |
| `SyncBridge.EverythingIsReachable` | pyromind_sdk/exec_stream.py:388-412 | from every state of every run in which nobody asked to stop and the generator still waits, it can yield everything; it can then take "end" or raise if and only if "end" was not dropped, and it raises if the stream failed |
| `SyncBridge.LostEndIsNeverTaken` | pyromind_sdk/exec_stream.py:356-365 | once "end" has been dropped, no continuation takes it or raises |
| `SyncBridge.EndCanBeLost` | pyromind_sdk/exec_stream.py:356-365 | a run in which it is dropped: 64 events wait when the stream ends |
| `SyncBridge.StopEndsHanding` | pyromind_sdk/exec_stream.py:363-371 | once the stop flag is up, at most the put under way still hands over an event, in every continuation |
| `SyncBridge.StoppedProducerFinishes` | pyromind_sdk/exec_stream.py:352-386 | and the producer can always finish on its own, even if nobody reads any more |
| `ClientStdin.ClientProtocol.TakeClientStdin` | pyromind_sdk/docker_rt/aio_server.py:4098-4125 | takes and clears the pending bytes, or takes nothing when they cannot be cleared |
| `ClientStdin.PumpIn` | pyromind_sdk/docker_rt/aio_server.py:5222-5244 | the pump loop over a shared protocol object equals the specified pump, for every schedule |
| `ClientStdin.StdinIsForwardedInOrder` | pyromind_sdk/docker_rt/aio_server.py:5222-5244 | for every schedule the PTY gets a prefix of stdin in order and at most one Ctrl-D, as the last packet and only after the half-close |
| `ClientStdin.NothingIsPending` | pyromind_sdk/docker_rt/aio_server.py:5222-5229 | after any turn that does not end the session, every byte received has been forwarded, if the tail can be cleared |
| `ClientStdin.EverythingArrives` | pyromind_sdk/docker_rt/aio_server.py:5222-5241 | in an undisturbed session the PTY has got, after every turn, all that the client sent up to its half-close, and Ctrl-D if and only if a turn after the half-close, or with it, had nothing to forward |
| `ClientStdin.EndsOnlyForAReason` | pyromind_sdk/docker_rt/aio_server.py:5222-5244 | the pump ends if and only if the session is over elsewhere or a send of data failed |
| `ClientStdin.CtrlDComesAfterAllBytesIff` | pyromind_sdk/docker_rt/aio_server.py:4097-4125 | when Ctrl-D went out, all bytes went before it if and only if the tail can be cleared or nothing was sent |
| `ClientStdin.CtrlDBeforeLostByte` | pyromind_sdk/docker_rt/aio_server.py:4112-4125 | a run that sends Ctrl-D and never forwards the byte before it |
| `ClientStdin.TwoTurnsDrain` | pyromind_sdk/docker_rt/aio_server.py:5222-5241 | two iterations after the half-close the Ctrl-D has been tried unless the session ended |
| `Storage.ListFilesWithMaxDepth` | pyromind_sdk/client/storage.py:325-399 | terminates; returns exactly the keys and ancestor folders within max_depth+1 levels, each once, by non-decreasing depth; fails exactly when listing a needed folder fails |
| `Storage.ListFiles` | pyromind_sdk/client/storage.py:285-294 | the same for a folder path, after normalisation |
| `Storage.NormalizeIgnoresTrailingSlashes` | pyromind_sdk/client/storage.py:285-289 | a folder path with any number of slashes at its end is listed with exactly one; the empty path is the whole bucket |
| `Storage.StartGroup` | pyromind_sdk/client/storage.py:362-373 | listing the start yields exactly the entries on level 1, its own marker object included |
| `Storage.FolderGroup` | pyromind_sdk/client/storage.py:362-373 | listing a folder yields, besides its own marker, exactly the entries one level below it |
| `Storage.ParentOf` | pyromind_sdk/client/storage.py:388-392 | every deeper entry is listed by a folder one level up that is itself an entry |
| `Storage.EmitKeepsInv` | pyromind_sdk/client/storage.py:371-392 | emitting an entry keeps the invariant of the walk: depths, coverage and order |
| `Template.ExtractPlaceholders` | pyromind_sdk/nodes/command_executor.py:23-30 | for all texts: exactly the names over [a-zA-Z0-9_-] that occur between double braces in a string part |
| `Template.ReplaceTemplate` | pyromind_sdk/nodes/command_executor.py:33-47 | replaces key by key, skips the excluded keys, and is the simultaneous substitution for clean templates when no entry disturbs a later one |
| `Template.ReplaceFills` | pyromind_sdk/nodes/command_executor.py:46-46 | one text replacement fills exactly the placeholders with that name, also in a partly filled template |
| `Template.KeyByKeyIsSimultaneous` | pyromind_sdk/nodes/command_executor.py:33-47 | replacing key by key equals substituting all keys at once, if no value contains a later key's placeholder or ends in the beginning of one |
| `Template.OrderIsIrrelevant` | pyromind_sdk/nodes/command_executor.py:44-46 | if no entry disturbs another, every order of the dictionary gives the simultaneous substitution |
| `Template.SimultaneousIffIndependent` | pyromind_sdk/nodes/command_executor.py:33-47 | for every clean template and every order it does so, if and only if no entry disturbs another |
| `Template.DisturbedTemplate` | pyromind_sdk/nodes/command_executor.py:44-46 | for every entry that disturbs another one, a clean template and an order in which it shows |
| `Template.QuietIsInert` | pyromind_sdk/nodes/command_executor.py:46-46 | a value in which each opening brace is followed by another character, such as a JSON object, disturbs nothing |
| `Template.ExtractFindsHoles` | pyromind_sdk/nodes/command_executor.py:28-29 | the regular expression finds exactly the placeholders |
| `Template.ExtractIff` | pyromind_sdk/nodes/command_executor.py:28-28 | whatever the text, the scan from left to right finds a name if and only if it occurs between double braces |
| `Template.PlaceholdersLeft` | pyromind_sdk/nodes/command_executor.py:23-47 | after replacement the placeholders left are the extracted ones minus the keys, if no value contributes one |
| `Template.PlaceholdersLeftIff` | pyromind_sdk/nodes/command_executor.py:23-47 | for every clean template and every order the placeholders left are the extracted ones minus the keys, if and only if no value that is filled in contains a placeholder or ends in the beginning of one |
| `Template.IntrudingPlaceholder` | pyromind_sdk/nodes/command_executor.py:44-46 | for every value that does, a clean template and an order that leave a placeholder which was not there |
| `Template.ValueWithBraceDependsOnOrder` | pyromind_sdk/nodes/command_executor.py:44-46 | a value that contains a placeholder makes the result depend on the order of the keys |
| `HereDoc.BuildHeredocs` | pyromind_sdk/nodes/python_function_executor.py:242-257 | the commands built by the loop, joined by newlines, are the script whose values are the placeholders |
| `HereDoc.DocumentIsWholeIff` | pyromind_sdk/nodes/python_function_executor.py:248-257 | the file gets the whole value and a newline if and only if no line of the value is the delimiter |
| `HereDoc.ScriptWritesFiles` | pyromind_sdk/nodes/python_function_executor.py:242-259 | running the script writes every input to its file |
| `HereDoc.TransportRecoversValues` | pyromind_sdk/nodes/function_call_wrapper.py:30-58 | resolving the paths gives the function the recovered values, with one level of indirection only |
| `HereDoc.ResolveAt` | pyromind_sdk/nodes/function_call_wrapper.py:30-58 | resolving changes nothing but strings, at any depth: one that begins with "/tmp/" and is the path of a file becomes the text of that file without the line feeds at its end |
| `HereDoc.UniversalOfParts` | pyromind_sdk/nodes/function_call_wrapper.py:48-49 | reading in text mode turns each of "\r\n" and "\r" into a line feed and changes nothing else |
| `HereDoc.RecoveredIff` | pyromind_sdk/nodes/function_call_wrapper.py:48-49 | the value minus trailing newlines comes back if and only if it has no carriage return, and the value itself if and only if it does not end in a newline either |
| `HereDoc.BlockIsScriptOfArriving` | pyromind_sdk/nodes/python_function_executor.py:242-259 | for every dictionary in every order: replacing in the printed block gives the script in which each value is its placeholder replaced key by key on its own |
| `HereDoc.FilledBlockIsScript` | pyromind_sdk/nodes/python_function_executor.py:242-259 | replacing the placeholders of the printed block by the inputs and the output paths, one by one and in any order, gives the script, if no value contains the placeholder of another input or of an output |
| `HereDoc.ArrivesIffKeptApart` | pyromind_sdk/nodes/python_function_executor.py:242-259 | with the dictionary of inputs and output paths: in every order every value arrives unchanged, if and only if no value contains the placeholder of another input or of an output |
| `HereDoc.ChangedArrival` | pyromind_sdk/nodes/python_function_executor.py:242-259 | for every value that contains one, an order in which it arrives with that placeholder replaced |
| `HereDoc.ArrivesInCodeOrderIff` | pyromind_sdk/nodes/command_executor.py:603-603 | the same equivalence over the orders the code can take, all inputs before all outputs, when the outputs are new absolute paths |
| `HereDoc.ChangedInCodeOrder` | pyromind_sdk/nodes/command_executor.py:603-603 | for every value that contains another entry's placeholder, such an order in which it arrives changed |
| `HereDoc.BlockIffKeptApart` | pyromind_sdk/nodes/python_function_executor.py:242-259 | for any number of inputs with fresh delimiters and any outputs: the script comes out in every order of the dictionary if and only if the values keep apart |
| `HereDoc.OneInputIffKeptApart` | pyromind_sdk/nodes/python_function_executor.py:242-259 | the same for one input and any outputs, without a condition on the delimiters |
| `HereDoc.PairIffKeptApart` | pyromind_sdk/nodes/python_function_executor.py:242-259 | the same for two inputs of a node without outputs, without a condition on the delimiters |
| `HereDoc.PrintedBlockTransports` | pyromind_sdk/nodes/python_function_executor.py:242-259 | from printed block to function argument, for every dictionary and order: the function receives what is recovered of the arriving values |
| `HereDoc.PrintedBlockTransportsValues` | pyromind_sdk/nodes/python_function_executor.py:242-259 | if the values keep apart from the inputs and outputs, substitution, shell and reading back recover them, in any order |
| `HereDoc.TransportIffKeptApart` | pyromind_sdk/nodes/python_function_executor.py:242-259 | for values and paths that reading back does not alter and fresh delimiters: the function receives the values in every order of the dictionary if and only if they keep apart |
| `HereDoc.PlaceholderAsValueIsReplaced` | pyromind_sdk/nodes/python_function_executor.py:242-259 | a value that is a later input's placeholder arrives as that input's value |
| `HereDoc.OutputPlaceholderIsReplaced` | pyromind_sdk/nodes/command_executor.py:603-603 | a value that is the placeholder of an output arrives as the output's temporary path |
| `HereDoc.OutputTakesPlace` | pyromind_sdk/nodes/command_executor.py:603-603 | an input with the name of an output arrives as the output's path, whatever the other entries |
| `Trace.TraceIdGenerator.Next` | pyromind_sdk/client/trace.py:73-85 | the timestamp is the clock, or one past the last one if the clock is not ahead of it; the sequence number goes on by one, from 9999 to 1000; and every field can be read back from the id |
| `Trace.IdsAreDistinct` | pyromind_sdk/client/trace.py:73-85 | over any run and any clock, all ids are different strings |
| `Trace.TimestampsIncrease` | pyromind_sdk/client/trace.py:76-80 | the millisecond values increase strictly, even when the clock goes back |
| `Trace.SequenceCycles` | pyromind_sdk/client/trace.py:81-84 | the sequence number cycles through 1000 to 9999 |
| `Trace.SequenceHasFourDigits` | pyromind_sdk/client/trace.py:81-85 | the sequence field is four digits |
| `Trace.ThirtyCharactersIff` | pyromind_sdk/client/trace.py:57-58 | an id has 30 characters if and only if the millisecond value has 13 digits |
| `Upload.SendParts` | pyromind_sdk/client/sandbox.py:711-735 | parts go out once each in index order and are always a prefix of the source; the loop raises exactly on a rejected part or a failed read |
| `Upload.ChunkedWriteFile` | pyromind_sdk/client/sandbox.py:681-755 | for all replies and reads: a run returns if and only if the init and complete were accepted, no part was rejected and no read failed; complete is sent only after all parts were accepted; a run that fails after an accepted init sends exactly one abort, as its last request, unless the exception that ended it says that the sandbox is gone, and no other run sends one; the parts are always a prefix of the source; a run that returns has uploaded what the announced number of reads took, the whole source if and only if that is its length; with full reads the parts are non-empty, all but the last of 2 MiB, min(ceil(size/2 MiB), ceil(source/2 MiB)) many, and the whole source if and only if it fits in the announced chunks |
| `Upload.CeilingBounds` | pyromind_sdk/client/sandbox.py:688-688 | the announced number of chunks is the smallest that holds the announced size |
| `Upload.TruncatedUpload` | pyromind_sdk/client/sandbox.py:709-747 | every source that does not fit in the announced chunks is cut off and the upload reports success |
| `Upload.ShortReadsTruncate` | pyromind_sdk/client/sandbox.py:709-747 | a source of the announced size, read in short pieces, is cut off and the upload reports success |
| `Paging.ListSandboxes` | pyromind_sdk/client/sandbox.py:144-156 | every item once and in order, in the smallest number of requests |
| `Paging.ListTransfers` | pyromind_sdk/client/storage_api.py:128-141 | exactly the suffix from the starting page; the number of requests, with one empty page when starting later than page 1 |
| `Paging.PageCountIsCeiling` | pyromind_sdk/client/sandbox.py:153-154 | that smallest number is ceil(N/page_size) |
| `IpLookup.GetInternalIps` | pyromind_sdk/client/sandbox.py:286-304 | the result maps exactly the codes in the non-blank ids that have an address to that address, as one lookup per id would; the batches are the ids in order, none empty or above 200 |
| `IpLookup.StripKeepsMiddle` | pyromind_sdk/client/sandbox.py:286-287 | an id loses the white space at both ends, and nothing else |
| `IpLookup.ServerSeesBatchIff` | pyromind_sdk/client/sandbox.py:294-296 | the server is asked for as many codes as the batch has ids if and only if no id contains a comma |
| `Retry.Request` | pyromind_sdk/client/async_base.py:499-552 | the requests are the gateway errors and transport failures up to the first other outcome or the limit (1 without retries); the last one decides the result; the back-off is (2^k-1)/2 seconds; and the code after the loop is not reached |

## Left out

- The notice that stdin is not forwarded, which the fallback writes before it runs the command, and the acknowledgement file of the wrapper there: nobody writes that file, as nobody closes stdin in the model.
- BlockIffKeptApart: delimiters that occur as a line of an arriving value are outside its conditions; they are random in the code. `ArrivesIffKeptApart`, `ArrivesInCodeOrderIff`, `OneInputIffKeptApart` and `PairIffKeptApart` have no such condition.
- PairIffKeptApart: two inputs together with outputs are covered by `BlockIffKeptApart` and `ArrivesIffKeptApart`.
- ArrivesIffKeptApart: outputs with the name of an input are outside its conditions; `OutputTakesPlace` covers them.
- RecoveredIff: a value with a NUL character, or one too long for a single argument, cannot be passed to `bash -c` at all; the model has no such limits.
- TransportIffKeptApart: values that reading back alters (`RecoveredIff`) are outside its conditions, because a change of such a value may be undone by it; `PrintedBlockTransports` covers them exactly.
- Text frames and the CRLF folding of the terminal bridge (`pump_out`, `_pty_output_for_client`): they bypass the filter or depend on framing.
- OutputWithOneMarker: a second marker is outside its conditions, because the code does not search the rest of the frame that completes the first one; `OutputOfAnyStream` covers such streams exactly.
- How the acknowledgement travels on the terminal path (a file written by `write_ack`): the result `ackNow` of the filter stands for it and for the `stdin_close` event.
- Docker's 8-byte stdio frame headers: a write is modelled as one packet per channel.
- The 50 ms and 20 ms polling intervals: a wait may time out at any turn, so every timing is covered but no bound on latency is claimed.
- Closing the asynchronous generator from outside in `IterExecStreamEvents`: a schedule may stop at any turn instead.
- The receive task between queue and consumer in `_iter_exec_stream_events`: a message it holds counts as queued.
- Fairness in `SyncBridge`: that everything is yielded is proved reachable from every state, not that a scheduler gets there.
- Listing metadata (`etag`, `last_modified`) and the listing modes without a depth limit in `Storage`.
- The branches of `_prepare_actual_command` for `--inputs` and `--output-paths`, and non-string values of `replace_template`.
- KeyByKeyIsSimultaneous: templates with a double brace in their literal text, or with a brace directly before a placeholder, and keys with a closing brace are outside its conditions.
- The shell model of `HereDoc` knows only `cat > PATH <<'DELIM'` lines and blank lines; names are over the placeholder alphabet, for which `shlex.quote` changes nothing; UTF-8 coding of the files is the identity on texts.
- White space other than blanks, tabs and line ends in `IpLookup.Strip`.
- Servers whose lists change between pages, or that answer for ids they were not asked for.
- Floating-point rounding of `math.ceil(size / chunk_size)`, which is exact below 2^53 bytes.
- Logging, trace headers and JSON error texts around the retry loop.
- Container lifecycle handlers, CLI, log redaction, workflow conversion and the REST wrappers.
