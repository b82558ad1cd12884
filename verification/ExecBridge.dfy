/** `_stream_pyromind_exec` (docker_rt/aio_server.py): the chunks of one exec stream
    are relayed to the Docker client, stderr through the end-marker filter. */
module ExecBridge {
  import opened Sequences
  import opened MarkerFilter

  datatype Chunk = Stdout(data: Bytes) | Stderr(data: Bytes) | Exit(code: Option<int>) | Other

  /** How the loop over the chunks ends: by itself, by a failed write to the client,
      or by any other exception, whose text is reported to the client. */
  datatype Ending = Ended | ClientGone | Failed(reason: Bytes)

  /** One write to the client: a multiplexed stdout or stderr frame. */
  datatype Packet = OutFrame(data: Bytes) | ErrFrame(data: Bytes)

  const CANNOT_START := 127

  function StdoutFrames(chunks: seq<Chunk>): seq<Bytes> {
    if chunks == [] then []
    else
      var before, last := StdoutFrames(chunks[..|chunks| - 1]), chunks[|chunks| - 1];
      if last.Stdout? && last.data != [] then before + [last.data] else before
  }

  function StderrFrames(chunks: seq<Chunk>): seq<Bytes> {
    if chunks == [] then []
    else
      var before, last := StderrFrames(chunks[..|chunks| - 1]), chunks[|chunks| - 1];
      if last.Stderr? && last.data != [] then before + [last.data] else before
  }

  /** The code of the last exit chunk; -1 when there is none or it carries no code. */
  function ExitCode(chunks: seq<Chunk>): int {
    if chunks == [] then -1
    else match chunks[|chunks| - 1]
      case Exit(code) => if code.Some? then code.value else -1
      case _ => ExitCode(chunks[..|chunks| - 1])
  }

  function OutBytes(packets: seq<Packet>): Bytes {
    if packets == [] then []
    else
      var before, last := OutBytes(packets[..|packets| - 1]), packets[|packets| - 1];
      if last.OutFrame? then before + last.data else before
  }

  function ErrBytes(packets: seq<Packet>): Bytes {
    if packets == [] then []
    else
      var before, last := ErrBytes(packets[..|packets| - 1]), packets[|packets| - 1];
      if last.ErrFrame? then before + last.data else before
  }

  /** `rstrip("\r\n")`. */
  function RStripNewlines(s: Bytes): Bytes {
    if s != [] && IsNewline(s[|s| - 1]) then RStripNewlines(s[..|s| - 1]) else s
  }

  /** It takes away the carriage returns and line feeds at the end, and no more. */
  lemma {:induction false} RStripKeepsPrefix(s: Bytes) returns (n: nat)
    ensures n <= |s| && RStripNewlines(s) == s[..n]
    ensures forall k :: n <= k < |s| ==> s[k] == 13 || s[k] == 10
    ensures n > 0 ==> s[n - 1] != 13 && s[n - 1] != 10
  {
    if s != [] && IsNewline(s[|s| - 1]) {
      n := RStripKeepsPrefix(s[..|s| - 1]);
    } else {
      n := |s|;
    }
  }

  /** `_write_exec_error`. */
  function ErrorPacket(message: Bytes): Packet {
    ErrFrame(RStripNewlines(message) + [LF])
  }

  function FinalCode(chunks: seq<Chunk>, ending: Ending): int {
    match ending
    case Failed(_) => 1
    case ClientGone => CANNOT_START
    case Ended => if ExitCode(chunks) < 0 then CANNOT_START else ExitCode(chunks)
  }

  /** Chunk k is the last one that reports an exit. */
  ghost predicate LastExit(chunks: seq<Chunk>, k: int) {
    0 <= k < |chunks| && chunks[k].Exit? && forall j :: k < j < |chunks| ==> !chunks[j].Exit?
  }

  /** No exit code was received, or the last one is negative. */
  ghost predicate NoExitCode(chunks: seq<Chunk>) {
    forall k :: LastExit(chunks, k) ==> chunks[k].code.None? || chunks[k].code.value < 0
  }

  lemma {:induction false} LastExitDecides(chunks: seq<Chunk>)
    ensures forall k :: LastExit(chunks, k) ==>
              ExitCode(chunks) == if chunks[k].code.Some? then chunks[k].code.value else -1
    ensures (forall k :: 0 <= k < |chunks| ==> !chunks[k].Exit?) ==> ExitCode(chunks) == -1
    ensures ExitCode(chunks) != -1 ==> exists k :: LastExit(chunks, k)
  {
    if chunks == [] {
    } else {
      var n, init := |chunks| - 1, chunks[..|chunks| - 1];
      LastExitDecides(init);
      if chunks[n].Exit? {
        assert LastExit(chunks, n);
      } else {
        forall k ensures LastExit(chunks, k) <==> LastExit(init, k) {
          assert forall j :: 0 <= j < n ==> init[j] == chunks[j];
        }
      }
    }
  }

  /** The stream is reported as a command that never started. */
  predicate LooksSilent(marker: Bytes, chunks: seq<Chunk>, ending: Ending) {
    && (ending.ClientGone? || (ending.Ended? && ExitCode(chunks) < 0))
    && Flatten(StdoutFrames(chunks)) == []
    && Sent(marker, StderrFrames(chunks)) == []
  }

  /** The diagnostic text that is put on the client's stderr before the held tail. */
  function Notice(marker: Bytes, chunks: seq<Chunk>, ending: Ending, silent: Bytes): Bytes {
    if ending.Failed? then ErrorPacket(ending.reason).data
    else if LooksSilent(marker, chunks, ending) then ErrorPacket(silent).data
    else []
  }

  ghost predicate AckedAt(marker: Bytes, chunks: seq<Chunk>, k: nat) {
    && k < |chunks|
    && !Acked(marker, StderrFrames(chunks[..k]))
    && Acked(marker, StderrFrames(chunks[..k + 1]))
  }

  /** The local state of the relay loop after some chunks. */
  ghost predicate Relayed(
    chunks: seq<Chunk>, fed: seq<Bytes>, sent: Bytes, packets: seq<Packet>, returncode: int, outN: nat, errN: nat)
  {
    && fed == StderrFrames(chunks)
    && OutBytes(packets) == Flatten(StdoutFrames(chunks)) && outN == |OutBytes(packets)|
    && ErrBytes(packets) == sent && errN == |ErrBytes(packets)|
    && returncode == ExitCode(chunks)
    && (forall p :: p in packets ==> p.data != [])
  }

  lemma {:induction false} ChunksSnoc(chunks: seq<Chunk>, c: Chunk)
    ensures StdoutFrames(chunks + [c])
         == if c.Stdout? && c.data != [] then StdoutFrames(chunks) + [c.data] else StdoutFrames(chunks)
    ensures StderrFrames(chunks + [c])
         == if c.Stderr? && c.data != [] then StderrFrames(chunks) + [c.data] else StderrFrames(chunks)
    ensures ExitCode(chunks + [c])
         == if c.Exit? then (if c.code.Some? then c.code.value else -1) else ExitCode(chunks)
  {
    assert (chunks + [c])[..|chunks|] == chunks;
  }

  lemma {:induction false} PacketsSnoc(packets: seq<Packet>, p: Packet)
    ensures OutBytes(packets + [p]) == OutBytes(packets) + if p.OutFrame? then p.data else []
    ensures ErrBytes(packets + [p]) == ErrBytes(packets) + if p.ErrFrame? then p.data else []
  {
    assert (packets + [p])[..|packets|] == packets;
  }

  /** A chunk that is not written. */
  lemma {:induction false} RelaySilently(
    chunks: seq<Chunk>, c: Chunk, fed: seq<Bytes>, sent: Bytes, packets: seq<Packet>,
    returncode: int, outN: nat, errN: nat)
    requires Relayed(chunks, fed, sent, packets, returncode, outN, errN)
    requires c.Exit? || c.Other? || c.data == []
    ensures Relayed(chunks + [c], fed, sent, packets, ExitCode(chunks + [c]), outN, errN)
  {
    hide OutBytes, ErrBytes, StdoutFrames, StderrFrames, Flatten;
    ChunksSnoc(chunks, c);
  }

  lemma {:induction false} RelayStdout(
    chunks: seq<Chunk>, data: Bytes, fed: seq<Bytes>, sent: Bytes, packets: seq<Packet>,
    returncode: int, outN: nat, errN: nat)
    requires Relayed(chunks, fed, sent, packets, returncode, outN, errN) && data != []
    ensures Relayed(chunks + [Stdout(data)], fed, sent, packets + [OutFrame(data)], returncode, outN + |data|, errN)
  {
    hide OutBytes, ErrBytes, StdoutFrames, StderrFrames, ExitCode, Flatten;
    ChunksSnoc(chunks, Stdout(data));
    PacketsSnoc(packets, OutFrame(data));
    FlattenSnoc(StdoutFrames(chunks), data);
  }

  /** The filter lets `payload` through; an empty one is not written. */
  lemma {:induction false} RelayStderr(
    chunks: seq<Chunk>, data: Bytes, payload: Bytes, fed: seq<Bytes>, sent: Bytes, packets: seq<Packet>,
    returncode: int, outN: nat, errN: nat)
    requires Relayed(chunks, fed, sent, packets, returncode, outN, errN) && data != []
    ensures Relayed(chunks + [Stderr(data)], fed + [data], sent + payload,
                    if payload == [] then packets else packets + [ErrFrame(payload)],
                    returncode, outN, errN + |payload|)
  {
    hide OutBytes, ErrBytes, StdoutFrames, StderrFrames, ExitCode, Flatten;
    ChunksSnoc(chunks, Stderr(data));
    PacketsSnoc(packets, ErrFrame(payload));
  }

  /** The writes keep the order of the chunks: some of the first writes are what the first i
      chunks let through on the two channels. */
  ghost predicate KeepsPace(marker: Bytes, chunks: seq<Chunk>, packets: seq<Packet>, i: nat) {
    i <= |chunks| && exists n :: 0 <= n <= |packets| && LetThrough(marker, chunks[..i], packets[..n])
  }

  ghost predicate LetThrough(marker: Bytes, chunks: seq<Chunk>, packets: seq<Packet>) {
    && OutBytes(packets) == Flatten(StdoutFrames(chunks))
    && ErrBytes(packets) == Sent(marker, StderrFrames(chunks))
  }

  lemma {:induction false} PaceIsKept(
    marker: Bytes, chunks: seq<Chunk>, packets: seq<Packet>, packets': seq<Packet>, i: nat)
    requires KeepsPace(marker, chunks, packets, i) && packets <= packets'
    ensures KeepsPace(marker, chunks, packets', i)
  {
    hide LetThrough;
    var n :| 0 <= n <= |packets| && LetThrough(marker, chunks[..i], packets[..n]);
    assert packets'[..n] == packets[..n];
  }

  /** So do those of the first i chunks, at each of them. */
  ghost predicate Paced(marker: Bytes, chunks: seq<Chunk>, packets: seq<Packet>, i: nat) {
    forall j :: 0 <= j <= i ==> KeepsPace(marker, chunks, packets, j)
  }

  lemma {:induction false} PaceStep(
    marker: Bytes, chunks: seq<Chunk>, before: seq<Packet>, packets: seq<Packet>, i: nat)
    requires i <= |chunks| && before <= packets && LetThrough(marker, chunks[..i], packets)
    requires i > 0 ==> Paced(marker, chunks, before, i - 1)
    ensures Paced(marker, chunks, packets, i)
  {
    hide LetThrough;
    assert packets[..|packets|] == packets;
    forall j | 0 <= j < i ensures KeepsPace(marker, chunks, packets, j) {
      PaceIsKept(marker, chunks, before, packets, j);
    }
  }

  /** The body of the relay loop.  `ackNow` says that `stdin_close` is set. */
  method RelayChunk(
    filter: StreamFilter, ghost chunks: seq<Chunk>, c: Chunk, packets: seq<Packet>,
    returncode: int, outN: nat, errN: nat)
    returns (packets': seq<Packet>, returncode': int, outN': nat, errN': nat, ackNow: bool)
    requires filter.Valid()
    requires Relayed(chunks, filter.fed, filter.sent, packets, returncode, outN, errN)
    modifies filter
    ensures filter.Valid()
    ensures Relayed(chunks + [c], filter.fed, filter.sent, packets', returncode', outN', errN')
    ensures filter.fed == StderrFrames(chunks + [c])
    ensures packets <= packets' && LetThrough(filter.marker, chunks + [c], packets')
    ensures ackNow <==> !old(filter.ackFired) && filter.ackFired
    ensures old(filter.ackFired) ==> filter.ackFired
  {
    hide After, StdoutFrames, StderrFrames, ExitCode, OutBytes, ErrBytes, Flatten;
    ghost var fed, sent := filter.fed, filter.sent;
    packets', returncode', outN', errN', ackNow := packets, returncode, outN, errN, false;
    ChunksSnoc(chunks, c);
    match c {
      case Exit(code) =>
        returncode' := if code.Some? then code.value else -1;
        RelaySilently(chunks, c, fed, sent, packets, returncode, outN, errN);
      case Other =>
        RelaySilently(chunks, c, fed, sent, packets, returncode, outN, errN);
      case Stdout(data) =>
        if data == [] {
          RelaySilently(chunks, c, fed, sent, packets, returncode, outN, errN);
          return;
        }
        outN' := outN + |data|;
        packets' := packets + [OutFrame(data)];
        RelayStdout(chunks, data, fed, sent, packets, returncode, outN, errN);
      case Stderr(data) =>
        if data == [] {
          RelaySilently(chunks, c, fed, sent, packets, returncode, outN, errN);
          return;
        }
        var payload;
        payload, ackNow := filter.Filter(data);
        RelayStderr(chunks, data, payload, fed, sent, packets, returncode, outN, errN);
        if payload == [] {
          return;
        }
        errN' := errN + |payload|;
        packets' := packets + [ErrFrame(payload)];
    }
  }

  /** The relay loop.  `ackAt` is the index of the chunk at which `stdin_close` is set. */
  method RelayChunks(marker: Bytes, chunks: seq<Chunk>)
    returns (filter: StreamFilter, packets: seq<Packet>, returncode: int, outN: nat, errN: nat, ackAt: Option<nat>)
    ensures fresh(filter) && filter.Valid() && filter.marker == marker
    ensures Relayed(chunks, filter.fed, filter.sent, packets, returncode, outN, errN)
    ensures ackAt.Some? <==> filter.ackFired
    ensures ackAt.Some? ==> AckedAt(marker, chunks, ackAt.value)
    ensures Paced(marker, chunks, packets, |chunks|)
  {
    filter := new StreamFilter(marker);
    packets, returncode, outN, errN, ackAt := [], -1, 0, 0, None;
    assert Relayed(chunks[..0], filter.fed, filter.sent, packets, returncode, outN, errN);
    PaceStep(marker, chunks, packets, packets, 0);
    hide After, StderrFrames, StdoutFrames, Relayed, Paced, LetThrough;
    for i := 0 to |chunks|
      invariant fresh(filter) && filter.Valid() && filter.marker == marker
      invariant filter.fed == StderrFrames(chunks[..i])
      invariant Relayed(chunks[..i], filter.fed, filter.sent, packets, returncode, outN, errN)
      invariant ackAt.Some? <==> filter.ackFired
      invariant ackAt.Some? ==> AckedAt(marker, chunks, ackAt.value)
      invariant Paced(marker, chunks, packets, i)
    {
      assert chunks[..i + 1] == chunks[..i] + [chunks[i]];
      ghost var before := packets;
      var ackNow;
      packets, returncode, outN, errN, ackNow :=
        RelayChunk(filter, chunks[..i], chunks[i], packets, returncode, outN, errN);
      PaceStep(marker, chunks, before, packets, i + 1);
      if ackNow {
        ackAt := Some(i);
      }
    }
    assert chunks[..|chunks|] == chunks;
  }

  /** The whole function, for a run without a terminal. */
  method StreamExec(marker: Bytes, chunks: seq<Chunk>, ending: Ending, silent: Bytes)
    returns (code: int, packets: seq<Packet>, ackAt: Option<nat>)
    // the exit code
    ensures code == FinalCode(chunks, ending)
    ensures ending.Failed? ==> code == 1
    ensures ending.ClientGone? || (ending.Ended? && NoExitCode(chunks)) ==> code == 127
    ensures forall k :: ending.Ended? && !NoExitCode(chunks) && LastExit(chunks, k) ==> chunks[k].code == Some(code)
    ensures code == 0 <==> ending.Ended? && exists k :: LastExit(chunks, k) && chunks[k].code == Some(0)
    // the two channels, and the order of the writes to them
    ensures OutBytes(packets) == Flatten(StdoutFrames(chunks))
    ensures var frames := StderrFrames(chunks);
            && ErrBytes(packets) == Sent(marker, frames) + Notice(marker, chunks, ending, silent) + Held(marker, frames)
            && Notice(marker, chunks, ending, silent) ==
               if ending.Failed? then RStripNewlines(ending.reason) + [10]
               else if (ending.ClientGone? || NoExitCode(chunks))
                       && Flatten(StdoutFrames(chunks)) == [] && Swallowed(marker, frames)
               then RStripNewlines(silent) + [10]
               else []
    ensures forall i :: 0 <= i <= |chunks| ==> KeepsPace(marker, chunks, packets, i)
    // the acknowledgement
    ensures ackAt.Some? <==> Acked(marker, StderrFrames(chunks))
    ensures ackAt.Some? ==> AckedAt(marker, chunks, ackAt.value)
  {
    hide After, StdoutFrames, StderrFrames, ExitCode, OutBytes, ErrBytes, Flatten, Swallowed, RStripNewlines,
      KeepsPace;
    var filter, returncode, outN, errN;
    filter, packets, returncode, outN, errN, ackAt := RelayChunks(marker, chunks);
    ghost var sent, held, relayed := filter.sent, filter.buf, packets;
    match ending {
      case Ended =>
      case ClientGone =>
        returncode := -2;
      case Failed(reason) =>
        PacketsSnoc(packets, ErrorPacket(reason));
        packets := packets + [ErrorPacket(reason)];
        returncode := 1;
    }
    if returncode < 0 {
      if outN == 0 && errN == 0 {
        PacketsSnoc(packets, ErrorPacket(silent));
        packets := packets + [ErrorPacket(silent)];
      }
      returncode := CANNOT_START;
    }
    code := returncode;
    assert ErrBytes(packets) == sent + Notice(marker, chunks, ending, silent);
    if marker != [] && filter.buf != [] {
      var pending := filter.Flush();
      PacketsSnoc(packets, ErrFrame(pending));
      packets := packets + [ErrFrame(pending)];
    } else if marker == [] {
      DisabledFilter(StderrFrames(chunks));
    }
    LastExitDecides(chunks);
    SilentNoticeIff(marker, chunks, ending);
    forall i | 0 <= i <= |chunks| ensures KeepsPace(marker, chunks, packets, i) {
      PaceIsKept(marker, chunks, relayed, packets, i);
    }
  }

  /** Without a notice the client's stderr is exactly the filtered stream, and the stream
      itself if it does not contain the marker or the filter is disabled. */
  lemma {:induction false} NoNotice(marker: Bytes, chunks: seq<Chunk>, silent: Bytes)
    requires !LooksSilent(marker, chunks, Ended)
    ensures var frames := StderrFrames(chunks);
            var err := Sent(marker, frames) + Notice(marker, chunks, Ended, silent) + Held(marker, frames);
            && err == Output(marker, frames)
            && (marker == [] || !Occurs(marker, Flatten(frames)) ==> err == Flatten(frames))
  {
    hide After, LooksSilent;
    var frames := StderrFrames(chunks);
    var sent := Sent(marker, frames);
    assert sent + [] == sent;
    if marker == [] || !Occurs(marker, Flatten(frames)) {
      MarkerFreeStreamIsUntouched(marker, frames);
    }
  }

  // ----- where the order of the writes shows -----

  /** A failing stream puts its reason before the bytes still held.  For every stream,
      the reason comes after everything the command wrote if and only if the frames after
      the one that completes the last marker found do not end in the beginning of a
      marker.  (A marker is a single line.) */
  lemma {:induction false} FailureReasonComesLastIff(
    marker: Bytes, chunks: seq<Chunk>, reason: Bytes, silent: Bytes)
    requires LF !in marker
    ensures var frames := StderrFrames(chunks);
            var notice := Notice(marker, chunks, Failed(reason), silent);
            Sent(marker, frames) + notice + Held(marker, frames) == Output(marker, frames) + notice
            <==> !EndsInMarker(marker, Flatten(Residue(marker, frames)))
  {
    hide After, Residue, EndsInMarker;
    var frames := StderrFrames(chunks);
    HeldIff(marker, frames);
    HeldIsMarkerPrefix(marker, frames);
    NoticeEndsALine(marker, chunks, reason, silent);
    SwapIsIdentityIff(Sent(marker, frames), Notice(marker, chunks, Failed(reason), silent), Held(marker, frames));
  }

  lemma {:induction false} NoticeEndsALine(marker: Bytes, chunks: seq<Chunk>, reason: Bytes, silent: Bytes)
    ensures var notice := Notice(marker, chunks, Failed(reason), silent);
            notice != [] && notice[|notice| - 1] == LF
  {
  }

  lemma {:induction false} SwapIsIdentityIff(sent: Bytes, notice: Bytes, held: Bytes)
    requires notice != [] && notice[|notice| - 1] == LF && LF !in held
    ensures sent + notice + held == sent + held + notice <==> held == []
  {
    if held == [] {
      assert sent + notice + [] == sent + [] + notice;
    } else {
      var early, late := sent + notice + held, sent + held + notice;
      assert early[|early| - 1] == held[|held| - 1] && late[|late| - 1] == LF;
    }
  }

  /** A run in which the reason comes first: the command wrote the byte that begins the
      marker, and then the stream failed. */
  lemma {:induction false} ReasonBeforeTailExample(marker: Bytes, reason: Bytes, silent: Bytes)
    requires |marker| > 1 && LF !in marker
    ensures var chunks := [Stderr(marker[..1])];
            var frames := StderrFrames(chunks);
            var notice := Notice(marker, chunks, Failed(reason), silent);
            && Flatten(frames) == marker[..1]
            && Sent(marker, frames) + notice + Held(marker, frames) == notice + marker[..1]
            && notice + marker[..1] != marker[..1] + notice
  {
    hide After, StderrFrames, StdoutFrames, RStripNewlines;
    var text, chunks := marker[..1], [Stderr(marker[..1])];
    SingleStderr(text, None);
    OneByteIsHeld(marker);
    var notice := Notice(marker, chunks, Failed(reason), silent);
    NoticeEndsALine(marker, chunks, reason, silent);
    SwapIsIdentityIff([], notice, text);
    assert [] + notice + text == notice + text && [] + text + notice == text + notice;
  }

  /** The client is told that the command produced nothing if and only if the stream
      ended without an exit code (it was -1, or the client had gone), stdout is empty
      and nothing of stderr got through: the held bytes count as nothing. */
  lemma {:induction false} SilentNoticeIff(marker: Bytes, chunks: seq<Chunk>, ending: Ending)
    ensures LooksSilent(marker, chunks, ending)
       <==> && (ending.ClientGone? || (ending.Ended? && ExitCode(chunks) < 0))
            && Flatten(StdoutFrames(chunks)) == [] && Swallowed(marker, StderrFrames(chunks))
  {
    hide After, Swallowed;
    NothingSentIff(marker, StderrFrames(chunks));
  }

  /** A run in which it did produce something: the command wrote the byte that begins
      the marker, and the server reported the exit code -1. */
  lemma {:induction false} FalseSilenceExample(marker: Bytes)
    requires |marker| > 1
    ensures var chunks := [Stderr(marker[..1]), Exit(Some(-1))];
            LooksSilent(marker, chunks, Ended) && Flatten(StderrFrames(chunks)) == marker[..1]
  {
    hide After, StderrFrames, StdoutFrames;
    SingleStderr(marker[..1], Some(-1));
    OneByteIsHeld(marker);
  }

  lemma {:induction false} OneByteIsHeld(marker: Bytes)
    requires |marker| > 1
    ensures Flatten([marker[..1]]) == marker[..1]
    ensures After(marker, [marker[..1]]) == Outcome(State(marker[..1], false), [])
  {
    var text := marker[..1];
    assert Flatten([text]) == text by { assert [text][1..] == [] && text + [] == text; }
    hide After, Flatten, Occurs, LongestOverlap;
    TooShortForMarker(marker, text);
    HeldIsLongestMarkerPrefix(marker, [text]);
    WholeTextOverlaps(marker, text, |Held(marker, [text])|);
    SplitWhole(Sent(marker, [text]), Held(marker, [text]), text);
  }

  lemma {:induction false} TooShortForMarker(marker: Bytes, text: Bytes)
    requires |text| < |marker|
    ensures !Occurs(marker, text)
  {
  }

  lemma {:induction false} WholeTextOverlaps(marker: Bytes, text: Bytes, h: nat)
    requires |text| < |marker| && text == marker[..|text|] && LongestOverlap(text, marker, h)
    ensures h == |text|
  {
    assert text[|text| - |text|..] == text && Overlap(text, marker, |text|);
  }

  lemma {:induction false} SplitWhole(a: Bytes, b: Bytes, whole: Bytes)
    requires a + b == whole && |b| == |whole|
    ensures a == [] && b == whole
  {
    assert |a| == 0;
  }

  lemma {:induction false} SingleStderr(text: Bytes, code: Option<int>)
    requires text != []
    ensures StderrFrames([Stderr(text)]) == [text] && StdoutFrames([Stderr(text)]) == []
    ensures var chunks := [Stderr(text), Exit(code)];
            StderrFrames(chunks) == [text] && StdoutFrames(chunks) == []
  {
    var one, two := [Stderr(text)], [Stderr(text), Exit(code)];
    assert one[..|one| - 1] == [] && [] + [text] == [text];
    assert two[..|two| - 1] == one;
  }

  // ----- with a terminal: the fallback when the platform's terminal cannot be opened -----

  /** What a raw terminal gets: both channels, in the order of arrival. */
  function Merged(chunks: seq<Chunk>): Bytes {
    if chunks == [] then []
    else
      var before, last := Merged(chunks[..|chunks| - 1]), chunks[|chunks| - 1];
      if last.Stdout? || last.Stderr? then before + last.data else before
  }

  /** `_write_exec_error` on a terminal. */
  function TerminalError(message: Bytes): Bytes { RStripNewlines(message) + [CR, LF] }

  function TerminalNotice(chunks: seq<Chunk>, ending: Ending, silent: Bytes): Bytes {
    if ending.Failed? then TerminalError(ending.reason)
    else if ending.ClientGone? || ExitCode(chunks) < 0 then TerminalError(silent)
    else []
  }

  /** The whole function, for a run with a terminal; there the byte counts stay zero.  The
      only caller that asks for one passes no marker. */
  method StreamTerminal(chunks: seq<Chunk>, ending: Ending, silent: Bytes) returns (code: int, written: Bytes)
    ensures code == FinalCode(chunks, ending)
    ensures ending.Failed? ==> code == 1
    ensures ending.ClientGone? || (ending.Ended? && NoExitCode(chunks)) ==> code == 127
    ensures forall k :: ending.Ended? && !NoExitCode(chunks) && LastExit(chunks, k) ==> chunks[k].code == Some(code)
    ensures code == 0 <==> ending.Ended? && exists k :: LastExit(chunks, k) && chunks[k].code == Some(0)
    ensures written == Merged(chunks) + TerminalNotice(chunks, ending, silent)
    // whatever was written, an end without an exit code is reported as silence
    ensures TerminalNotice(chunks, ending, silent) ==
            if ending.Failed? then RStripNewlines(ending.reason) + [13, 10]
            else if ending.ClientGone? || NoExitCode(chunks) then RStripNewlines(silent) + [13, 10]
            else []
    ensures ending.Ended? ==> (written == Merged(chunks) + TerminalError(silent) <==> ExitCode(chunks) < 0)
  {
    var returncode, outN, errN := -1, 0, 0;
    written := [];
    for i := 0 to |chunks|
      invariant returncode == ExitCode(chunks[..i]) && written == Merged(chunks[..i])
    {
      assert chunks[..i + 1][..i] == chunks[..i];
      match chunks[i] {
        case Exit(c) => returncode := if c.Some? then c.value else -1;
        case Other =>
        case Stdout(data) => if data != [] { written := written + data; }
        case Stderr(data) => if data != [] { written := written + data; }
      }
    }
    assert chunks[..|chunks|] == chunks;
    match ending {
      case Ended =>
      case ClientGone =>
        returncode := -2;
      case Failed(reason) =>
        written := written + TerminalError(reason);
        returncode := 1;
    }
    if returncode < 0 {
      if outN == 0 && errN == 0 {
        written := written + TerminalError(silent);
      }
      returncode := CANNOT_START;
    }
    code := returncode;
    TerminalSilenceIff(chunks, silent);
    LastExitDecides(chunks);
  }

  /** On a terminal the notice that the command produced nothing depends on the exit code
      alone, whatever the command wrote. */
  lemma {:induction false} TerminalSilenceIff(chunks: seq<Chunk>, silent: Bytes)
    ensures Merged(chunks) + TerminalNotice(chunks, Ended, silent) == Merged(chunks) + TerminalError(silent)
       <==> ExitCode(chunks) < 0
  {
    var written := Merged(chunks);
    assert |written + TerminalError(silent)| > |written| == |written + []|;
  }

  /** A terminal run that wrote a byte and is told that it produced nothing. */
  lemma {:induction false} TerminalFalseSilence(v: byte, silent: Bytes)
    ensures var chunks := [Stdout([v]), Exit(Some(-1))];
            Merged(chunks) == [v] && TerminalNotice(chunks, Ended, silent) == TerminalError(silent)
  {
    var one, chunks := [Stdout([v])], [Stdout([v]), Exit(Some(-1))];
    assert one[..0] == [] && [] + [v] == [v] && Merged(one) == [v];
    assert chunks[..1] == one;
  }
}
