/** The whole output path of a non-interactive exec: the messages of the WebSocket are
    decoded into events (exec_stream.py), the events are relayed through the marker
    filter (docker_rt/aio_server.py), and the client reads two byte streams. */
module ExecPath {
  import opened Sequences
  import opened MarkerFilter
  import ExecStream
  import ExecBridge
  import Handshake

  /** One event as a chunk of the relay loop. */
  function ToChunk(e: ExecStream.Event, utf8: string -> Bytes): ExecBridge.Chunk {
    match e
    case TextOutput(err, text) => if err then ExecBridge.Stderr(utf8(text)) else ExecBridge.Stdout(utf8(text))
    case BinaryOutput(err, payload) => if err then ExecBridge.Stderr(payload) else ExecBridge.Stdout(payload)
    case Exit(code) => ExecBridge.Exit(Some(code))
  }

  function ToChunks(events: seq<ExecStream.Event>, utf8: string -> Bytes): seq<ExecBridge.Chunk> {
    if events == [] then []
    else ToChunks(events[..|events| - 1], utf8) + [ToChunk(events[|events| - 1], utf8)]
  }

  lemma {:induction false} ToChunksSnoc(events: seq<ExecStream.Event>, e: ExecStream.Event, utf8: string -> Bytes)
    ensures ToChunks(events + [e], utf8) == ToChunks(events, utf8) + [ToChunk(e, utf8)]
  {
    assert (events + [e])[..|events|] == events;
  }

  lemma {:induction false} FramesSnoc(chunks: seq<ExecBridge.Chunk>, c: ExecBridge.Chunk)
    ensures Flatten(ExecBridge.StdoutFrames(chunks + [c]))
         == Flatten(ExecBridge.StdoutFrames(chunks)) + if c.Stdout? then c.data else []
    ensures Flatten(ExecBridge.StderrFrames(chunks + [c]))
         == Flatten(ExecBridge.StderrFrames(chunks)) + if c.Stderr? then c.data else []
  {
    hide Flatten, ExecBridge.StdoutFrames, ExecBridge.StderrFrames;
    ExecBridge.ChunksSnoc(chunks, c);
    if c.Stdout? { FlattenSnoc(ExecBridge.StdoutFrames(chunks), c.data); }
    if c.Stderr? { FlattenSnoc(ExecBridge.StderrFrames(chunks), c.data); }
  }

  // ----- from messages to the two streams -----

  /** The output bytes a message carries on a channel, in a binary frame or as text. */
  function OutputBytes(m: ExecStream.Message, stderr: bool, utf8: string -> Bytes): Bytes {
    var text := ExecStream.TextPayload(m, stderr);
    if text != "" then utf8(text) else ExecStream.Payload(m, if stderr then 2 else 1)
  }

  function Received(messages: seq<ExecStream.Message>, stderr: bool, utf8: string -> Bytes): Bytes {
    if messages == [] then []
    else
      Received(messages[..|messages| - 1], stderr, utf8) + OutputBytes(messages[|messages| - 1], stderr, utf8)
  }

  /** What an event carries on a channel. */
  function ChunkBytes(c: ExecBridge.Chunk, stderr: bool): Bytes {
    if (stderr && c.Stderr?) || (!stderr && c.Stdout?) then c.data else []
  }

  lemma {:induction false} MeaningOutput(m: ExecStream.Message, stderr: bool, utf8: string -> Bytes)
    ensures var v := ExecStream.Meaning(m);
            && (v.Skip? ==> OutputBytes(m, stderr, utf8) == [])
            && (v.Yield? ==> OutputBytes(m, stderr, utf8) == ChunkBytes(ToChunk(v.event, utf8), stderr))
  {
    ExecStream.MeaningPayload(m, stderr);
    ExecStream.MeaningText(m, stderr);
  }

  /** While the stream is open, the relay loop is fed exactly the output bytes of each
      channel, in order, whether they came in binary frames or as text. */
  lemma {:induction false} RelayGetsOutput(messages: seq<ExecStream.Message>, utf8: string -> Bytes)
    requires ExecStream.Decode(messages).end == ExecStream.Open
    ensures var chunks := ToChunks(ExecStream.Decode(messages).events, utf8);
            && Flatten(ExecBridge.StdoutFrames(chunks)) == Received(messages, false, utf8)
            && Flatten(ExecBridge.StderrFrames(chunks)) == Received(messages, true, utf8)
  {
    if messages == [] {
    } else {
      hide ToChunks, ExecBridge.StdoutFrames, ExecBridge.StderrFrames, Flatten;
      var init, m := messages[..|messages| - 1], messages[|messages| - 1];
      RelayGetsOutput(init, utf8);
      MeaningOutput(m, false, utf8);
      MeaningOutput(m, true, utf8);
      if ExecStream.Meaning(m).Yield? {
        var events, e := ExecStream.Decode(init).events, ExecStream.Meaning(m).event;
        ToChunksSnoc(events, e, utf8);
        FramesSnoc(ToChunks(events, utf8), ToChunk(e, utf8));
      }
    }
  }

  // ----- what the client gets -----

  /** What the client reads on stderr when the relay loop ends by itself. */
  function ClientStderr(marker: Bytes, chunks: seq<ExecBridge.Chunk>, silent: Bytes): Bytes {
    var frames := ExecBridge.StderrFrames(chunks);
    Sent(marker, frames) + ExecBridge.Notice(marker, chunks, ExecBridge.Ended, silent) + Held(marker, frames)
  }

  /** The client of a command e, wrapped by the handshake, that wrote `out` on stdout: it
      gets stdout and the exit code (127 stands for a negative one), the command's stderr
      and a line end, and a second one if and only if it came in a frame after the one
      that completes the marker; and the marker has been acknowledged. */
  ghost predicate ClientSees(
    marker: Bytes, chunks: seq<ExecBridge.Chunk>, silent: Bytes, out: Bytes, e: Bytes, code: int)
  {
    && ExecBridge.FinalCode(chunks, ExecBridge.Ended) == (if code < 0 then 127 else code)
    && Flatten(ExecBridge.StdoutFrames(chunks)) == out
    && Handshake.LineEndsAround(marker, ExecBridge.StderrFrames(chunks), e)
    && ClientStderr(marker, chunks, silent) == Output(marker, ExecBridge.StderrFrames(chunks))
    && Acked(marker, ExecBridge.StderrFrames(chunks))
  }

  /** A command wrapped by the handshake whose exit code arrives, with or without the
      line end after the marker, whatever the framing and the schedule. */
  lemma {:induction false} ClientSeesCompletedCommand(
    messages: seq<ExecStream.Message>, code: int, utf8: string -> Bytes,
    marker: Bytes, e: Bytes, b: Bytes, silent: Bytes)
    requires ExecStream.Decode(messages).end == ExecStream.Open
    requires marker != [] && LF !in marker && !Occurs(marker, e)
    requires b in {[], [LF]} && Received(messages, true, utf8) == e + [LF] + marker + b
    ensures var taken := messages + [ExecStream.Text(ExecStream.ExitCode(code))];
            var chunks := ToChunks(ExecStream.Decode(taken).events, utf8);
            ClientSees(marker, chunks, silent, Received(messages, false, utf8), e, code)
  {
    hide ToChunks, ExecBridge.StdoutFrames, ExecBridge.StderrFrames, ExecStream.Decode, Flatten, After, Received;
    var events := ExecStream.Decode(messages).events;
    ExecStream.DecodeSnoc(messages, ExecStream.Text(ExecStream.ExitCode(code)));
    ToChunksSnoc(events, ExecStream.Exit(code), utf8);
    var before, exit := ToChunks(events, utf8), ExecBridge.Exit(Some(code));
    ExecBridge.ChunksSnoc(before, exit);
    FramesSnoc(before, exit);
    RelayGetsOutput(messages, utf8);
    MarkedOutput(marker, ExecBridge.StderrFrames(before + [exit]), e, b);
    ExecBridge.NoNotice(marker, before + [exit], silent);
  }

  lemma {:induction false} MarkedOutput(marker: Bytes, frames: seq<Bytes>, e: Bytes, b: Bytes)
    requires marker != [] && LF !in marker && !Occurs(marker, e) && b in {[], [LF]}
    requires Flatten(frames) == e + [LF] + marker + b
    ensures Handshake.LineEndsAround(marker, frames, e)
    ensures Acked(marker, frames) && Sent(marker, frames) != []
  {
    hide After, Flatten, InLaterFrames;
    Handshake.OutputWithLineEnds(marker, frames, e, b);
    AckedIffMarkerReceived(marker, frames);
    HeldIsMarkerPrefix(marker, frames);
    assert Output(marker, frames)[|e|] == LF;
    assert Sent(marker, frames) == [] ==> Output(marker, frames) == Held(marker, frames);
  }

  /** The same wrapped command, relayed without the marker, as in the fallback from the
      terminal channel: the marker line reaches the client, and nothing is acknowledged. */
  lemma {:induction false} FallbackShowsMarker(
    messages: seq<ExecStream.Message>, code: int, utf8: string -> Bytes,
    wrapperMarker: Bytes, e: Bytes, b: Bytes, silent: Bytes)
    requires ExecStream.Decode(messages).end == ExecStream.Open
    requires Received(messages, true, utf8) == e + [LF] + wrapperMarker + b
    ensures var taken := messages + [ExecStream.Text(ExecStream.ExitCode(code))];
            var chunks := ToChunks(ExecStream.Decode(taken).events, utf8);
            && ClientStderr([], chunks, silent) == e + [LF] + wrapperMarker + b
            && Flatten(ExecBridge.StdoutFrames(chunks)) == Received(messages, false, utf8)
            && !Acked([], ExecBridge.StderrFrames(chunks))
  {
    hide ToChunks, ExecBridge.StdoutFrames, ExecBridge.StderrFrames, ExecStream.Decode, Flatten, After, Received;
    var events := ExecStream.Decode(messages).events;
    ExecStream.DecodeSnoc(messages, ExecStream.Text(ExecStream.ExitCode(code)));
    ToChunksSnoc(events, ExecStream.Exit(code), utf8);
    var before, exit := ToChunks(events, utf8), ExecBridge.Exit(Some(code));
    FramesSnoc(before, exit);
    RelayGetsOutput(messages, utf8);
    DisabledFilter(ExecBridge.StderrFrames(before + [exit]));
    ExecBridge.NoNotice([], before + [exit], silent);
  }

  /** All output bytes, in the order of the messages. */
  function ReceivedInOrder(messages: seq<ExecStream.Message>, utf8: string -> Bytes): Bytes {
    if messages == [] then []
    else
      var m := messages[|messages| - 1];
      ReceivedInOrder(messages[..|messages| - 1], utf8) + OutputBytes(m, false, utf8) + OutputBytes(m, true, utf8)
  }

  /** A terminal gets every output byte of both channels in the order of the messages. */
  lemma {:induction false} TerminalGetsOutput(messages: seq<ExecStream.Message>, utf8: string -> Bytes)
    requires ExecStream.Decode(messages).end == ExecStream.Open
    ensures ExecBridge.Merged(ToChunks(ExecStream.Decode(messages).events, utf8)) == ReceivedInOrder(messages, utf8)
  {
    if messages == [] {
    } else {
      hide ToChunks;
      var init, m := messages[..|messages| - 1], messages[|messages| - 1];
      TerminalGetsOutput(init, utf8);
      MeaningOutput(m, false, utf8);
      MeaningOutput(m, true, utf8);
      var events := ExecStream.Decode(init).events;
      if ExecStream.Meaning(m).Yield? {
        var e := ExecStream.Meaning(m).event;
        ToChunksSnoc(events, e, utf8);
        MergedSnoc(ToChunks(events, utf8), ToChunk(e, utf8));
      }
    }
  }

  lemma {:induction false} MergedSnoc(chunks: seq<ExecBridge.Chunk>, c: ExecBridge.Chunk)
    ensures ExecBridge.Merged(chunks + [c]) == ExecBridge.Merged(chunks) + ChunkBytes(c, false) + ChunkBytes(c, true)
  {
    assert (chunks + [c])[..|chunks|] == chunks;
  }

  /** From the command to the client.  In every run of the handshake in which the command
      exits because of the acknowledgement, and for every list of messages that carries
      what was delivered in it, however framed, and then the exit code: the client gets
      all that the command wrote on stdout, all that it wrote on stderr with the
      line ends of `ClientSees`, and the exit code. */
  lemma {:induction false} NothingLostEndToEnd(
    user: seq<Handshake.Cell>, marker: Bytes, steps: seq<Handshake.Action>,
    messages: seq<ExecStream.Message>, code: int, utf8: string -> Bytes, silent: Bytes)
    requires Handshake.MarkerIsFresh(user, marker)
    requires var s := Handshake.Run(marker, Handshake.Script(user, marker), steps);
             && s.phase == Handshake.ExitedOnEof
             && Received(messages, false, utf8) == Handshake.BytesOf(s.got, Handshake.Out)
             && Received(messages, true, utf8) == Handshake.BytesOf(s.got, Handshake.Err)
    requires ExecStream.Decode(messages).end == ExecStream.Open
    ensures var taken := messages + [ExecStream.Text(ExecStream.ExitCode(code))];
            var chunks := ToChunks(ExecStream.Decode(taken).events, utf8);
            ClientSees(marker, chunks, silent,
                       Handshake.BytesOf(user, Handshake.Out), Handshake.BytesOf(user, Handshake.Err), code)
  {
    hide Handshake.Run, Handshake.BytesOf, ExecStream.Decode, ToChunks, ClientSees, Received, Flatten;
    var s := Handshake.Run(marker, Handshake.Script(user, marker), steps);
    Handshake.RunKeepsInv(user, marker, steps);
    var b := Handshake.SettledErr(user, marker, s);
    ClientSeesCompletedCommand(messages, code, utf8, marker, Handshake.BytesOf(user, Handshake.Err), b, silent);
  }

  // ----- when the client is told that there was no output -----

  /** A consumer without a stop event ends without raising only after an exit message; so
      the relay loop has the server's exit code whenever it ends by itself. */
  lemma {:induction false} NormalEndHasExitCode(
    taken: seq<ExecStream.Message>, turns: seq<ExecStream.Turn>, used: nat, deadline: Option<int>,
    ending: ExecStream.Ending, utf8: string -> Bytes) returns (code: int)
    requires used <= |turns| && ExecStream.EndsAs(ending, taken, turns, used, deadline)
    requires forall k :: 0 <= k < |turns| ==> !turns[k].stop && !turns[k].stopLate
    requires !ending.Running? && !ending.ByRaise?
    ensures ending == ExecStream.ByExit && ExecStream.Text(ExecStream.ExitCode(code)) in taken
    ensures ExecBridge.ExitCode(ToChunks(ExecStream.Decode(taken).events, utf8)) == code
  {
    hide ExecStream.Decode;
    var events := ExecStream.Decode(taken).events;
    ExecStream.ExitIsLast(taken);
    code := events[|events| - 1].code;
  }

  /** Hence the "no output" notice is written, in a stream that nobody stopped, only when
      the server itself sent a negative exit code. */
  lemma {:induction false} SilentMeansNegativeCode(
    taken: seq<ExecStream.Message>, turns: seq<ExecStream.Turn>, used: nat, deadline: Option<int>,
    ending: ExecStream.Ending, utf8: string -> Bytes, marker: Bytes) returns (code: int)
    requires used <= |turns| && ExecStream.EndsAs(ending, taken, turns, used, deadline)
    requires forall k :: 0 <= k < |turns| ==> !turns[k].stop && !turns[k].stopLate
    requires !ending.Running? && !ending.ByRaise?
    requires ExecBridge.LooksSilent(marker, ToChunks(ExecStream.Decode(taken).events, utf8), ExecBridge.Ended)
    ensures code < 0 && ExecStream.Text(ExecStream.ExitCode(code)) in taken
  {
    code := NormalEndHasExitCode(taken, turns, used, deadline, ending, utf8);
  }

  /** The messages of the run in `ExecBridge.FalseSilenceExample`. */
  lemma {:induction false} FalseSilenceFromServer(marker: Bytes, utf8: string -> Bytes)
    requires |marker| > 1
    ensures var messages := [ExecStream.Binary([2] + marker[..1]), ExecStream.Text(ExecStream.ExitCode(-1))];
            var d := ExecStream.Decode(messages);
            && d.end == ExecStream.Exited
            && ToChunks(d.events, utf8) == [ExecBridge.Stderr(marker[..1]), ExecBridge.Exit(Some(-1))]
            && ExecBridge.LooksSilent(marker, ToChunks(d.events, utf8), ExecBridge.Ended)
  {
    hide ExecBridge.LooksSilent, ExecStream.Decode, ToChunks;
    DecodeStderrThenExit(marker[..1], -1);
    TwoChunks(ExecStream.BinaryOutput(true, marker[..1]), ExecStream.Exit(-1), utf8);
    ExecBridge.FalseSilenceExample(marker);
  }

  lemma {:induction false} DecodeStderrThenExit(text: Bytes, code: int)
    requires text != []
    ensures ExecStream.Decode([ExecStream.Binary([2] + text), ExecStream.Text(ExecStream.ExitCode(code))])
         == ExecStream.Decoded([ExecStream.BinaryOutput(true, text), ExecStream.Exit(code)], ExecStream.Exited)
  {
    var output, exit := ExecStream.Binary([2] + text), ExecStream.Text(ExecStream.ExitCode(code));
    assert ExecStream.Decode([]) == ExecStream.Decoded([], ExecStream.Open);
    hide ExecStream.Decode;
    assert ([2] + text)[1..] == text;
    ExecStream.DecodeSnoc([], output);
    assert [] + [output] == [output];
    ExecStream.DecodeSnoc([output], exit);
    assert [output] + [exit] == [output, exit];
  }

  lemma {:induction false} TwoChunks(a: ExecStream.Event, b: ExecStream.Event, utf8: string -> Bytes)
    ensures ToChunks([a, b], utf8) == [ToChunk(a, utf8), ToChunk(b, utf8)]
  {
    assert ToChunks([], utf8) == [];
    hide ToChunks, ToChunk;
    ToChunksSnoc([], a, utf8);
    assert [] + [a] == [a];
    ToChunksSnoc([a], b, utf8);
    assert [a] + [b] == [a, b];
  }
}
