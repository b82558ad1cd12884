/** The end-to-end exec handshake.  The wrapped command writes its output, then a
    marker line on stderr, then waits for its stdin to close
    (docker_rt/backend/exec_utils.py); the reader acknowledges the marker by closing
    that stdin (docker_rt/aio_server.py, exec_stream.py).  Whatever is still in flight
    when the command exits may be dropped.  All the parties run concurrently: a run is
    any sequence of their steps. */
module Handshake {
  import opened Sequences
  import opened MarkerFilter

  datatype Channel = Out | Err
  datatype Cell = Cell(chan: Channel, value: byte)

  function BytesOf(cells: seq<Cell>, chan: Channel): Bytes {
    if cells == [] then []
    else if cells[0].chan == chan then [cells[0].value] + BytesOf(cells[1..], chan)
    else BytesOf(cells[1..], chan)
  }

  function Tag(bytes: Bytes, chan: Channel): seq<Cell> {
    seq(|bytes|, i requires 0 <= i < |bytes| => Cell(chan, bytes[i]))
  }

  /** What the wrapped command writes: the user's output in any interleaving of the
      two channels, then the marker line printed by `printf "\n<marker>\n" 1>&2`. */
  function Script(user: seq<Cell>, marker: Bytes): seq<Cell> {
    user + Tag([LF] + marker + [LF], Err)
  }

  datatype Phase = Running | ExitedOnEof | ExitedOnTimeout

  datatype System = System(
    todo: seq<Cell>,         // not yet written by the command
    wire: seq<Cell>,         // in flight, one FIFO for both channels
    got: seq<Cell>,          // delivered to the reader, in order
    errFrames: seq<Bytes>,   // the stderr frames handed to the marker filter
    closeFlag: bool,         // the stdin_close event
    closeSent: nat,          // stdin_close frames sent
    stdinClosed: bool,       // the command sees EOF
    phase: Phase)

  datatype Action =
    | Write(n: nat)          // the command writes its next n bytes
    | Deliver(n: nat)        // n bytes of one channel arrive as one frame
    | Poll                   // an idle turn of the stream client
    | CloseArrives           // the stdin_close frame takes effect
    | ExitOnEof              // `cat` returns: the acknowledgement was received
    | ExitOnTimeout          // 60 seconds without acknowledgement
    | Drop(i: nat)           // after the exit, a byte in flight is lost

  function Init(script: seq<Cell>): System {
    System(script, [], [], [], false, 0, false, Running)
  }

  ghost predicate Uniform(cells: seq<Cell>) {
    forall i, j :: 0 <= i < j < |cells| ==> cells[i].chan == cells[j].chan
  }

  ghost predicate Enabled(s: System, a: Action) {
    match a
    case Write(n) => s.phase.Running? && 0 < n <= |s.todo|
    case Deliver(n) => 0 < n <= |s.wire| && Uniform(s.wire[..n])
    case Poll => s.closeFlag
    case CloseArrives => s.closeSent > 0
    case ExitOnEof => s.phase.Running? && s.todo == [] && s.stdinClosed
    case ExitOnTimeout => s.phase.Running? && s.todo == []
    case Drop(i) => !s.phase.Running? && i < |s.wire|
  }

  ghost function Next(marker: Bytes, s: System, a: Action): System
    requires Enabled(s, a)
  {
    match a
    case Write(n) => s.(todo := s.todo[n..], wire := s.wire + s.todo[..n])
    case Deliver(n) =>
      var frame := s.wire[..n];
      var s' := s.(wire := s.wire[n..], got := s.got + frame);
      if frame[0].chan.Out? then s'
      else
        var frames := s.errFrames + [BytesOf(frame, Err)];
        s'.(errFrames := frames,
            closeFlag := s.closeFlag || (!Acked(marker, s.errFrames) && Acked(marker, frames)))
    case Poll => s.(closeFlag := false, closeSent := s.closeSent + 1)
    case CloseArrives => s.(stdinClosed := true)
    case ExitOnEof => s.(phase := ExitedOnEof)
    case ExitOnTimeout => s.(phase := ExitedOnTimeout)
    case Drop(i) => s.(wire := s.wire[..i] + s.wire[i + 1..])
  }

  /** The state after a sequence of steps; a step that is not enabled does nothing. */
  ghost function Run(marker: Bytes, script: seq<Cell>, steps: seq<Action>): System {
    if steps == [] then Init(script)
    else
      var s := Run(marker, script, steps[..|steps| - 1]);
      var a := steps[|steps| - 1];
      if Enabled(s, a) then Next(marker, s, a) else s
  }

  // ----- byte projections -----

  lemma {:induction false} BytesOfAppend(a: seq<Cell>, b: seq<Cell>, chan: Channel)
    ensures BytesOf(a + b, chan) == BytesOf(a, chan) + BytesOf(b, chan)
  {
    if a == [] {
      assert a + b == b;
    } else {
      BytesOfAppend(a[1..], b, chan);
      assert (a + b)[1..] == a[1..] + b;
    }
  }

  lemma {:induction false} BytesOfUniform(a: seq<Cell>, chan: Channel)
    requires Uniform(a) && a != []
    ensures a[0].chan != chan ==> BytesOf(a, chan) == []
    ensures a[0].chan == chan ==> |BytesOf(a, chan)| == |a|
  {
    if |a| > 1 {
      assert a[1].chan == a[0].chan;
      BytesOfUniform(a[1..], chan);
    } else {
      assert a[1..] == [];
    }
  }

  lemma {:induction false} BytesOfTag(b: Bytes, chan: Channel, other: Channel)
    ensures BytesOf(Tag(b, chan), other) == if chan == other then b else []
  {
    if b == [] {
    } else {
      BytesOfTag(b[1..], chan, other);
      assert Tag(b, chan)[1..] == Tag(b[1..], chan);
    }
  }

  // ----- the marker is the end of the script -----

  /** The marker is one line, and the user's own stderr does not contain it. */
  ghost predicate MarkerIsFresh(user: seq<Cell>, marker: Bytes) {
    marker != [] && LF !in marker && !Occurs(marker, BytesOf(user, Err))
  }

  lemma {:induction false} ScriptErr(user: seq<Cell>, marker: Bytes)
    ensures BytesOf(Script(user, marker), Err) == BytesOf(user, Err) + [LF] + marker + [LF]
    ensures BytesOf(Script(user, marker), Out) == BytesOf(user, Out)
  {
    var tail := [LF] + marker + [LF];
    BytesOfAppend(user, Tag(tail, Err), Err);
    BytesOfAppend(user, Tag(tail, Err), Out);
    BytesOfTag(tail, Err, Err);
    BytesOfTag(tail, Err, Out);
  }

  lemma {:induction false} CoversPosition(marker: Bytes, s: Bytes, i: int, p: int)
    requires OccursAt(marker, s, i)
    ensures i <= p < i + |marker| ==> s[p] in marker
  {
    if i <= p < i + |marker| {
      assert s[p] == s[i..i + |marker|][p - i];
    }
  }

  lemma {:induction false} FirstByteOccurs(marker: Bytes, s: Bytes)
    requires marker != []
    ensures Occurs(marker, s) ==> marker[0] in s
  {
    forall i | OccursAt(marker, s, i) ensures marker[0] in s {
      assert s[i] == s[i..i + |marker|][0];
    }
  }

  /** A pattern without line ends does not straddle one. */
  lemma {:induction false} OccursOnOneSide(marker: Bytes, e: Bytes, t: Bytes, i: int)
    requires LF !in marker && OccursAt(marker, e + [LF] + t, i)
    ensures OccursAt(marker, e, i) || i > |e|
  {
    var s := e + [LF] + t;
    assert s[|e|] == LF;
    CoversPosition(marker, s, i, |e|);
    assert i + |marker| <= |e| ==> s[i..i + |marker|] == e[i..i + |marker|];
  }

  lemma {:induction false} NoMarkerAcrossLine(marker: Bytes, e: Bytes, j: nat)
    requires marker != [] && LF !in marker && !Occurs(marker, e) && j < |marker|
    ensures !Occurs(marker, e + [LF] + marker[..j])
  {
    forall i | OccursAt(marker, e + [LF] + marker[..j], i) ensures OccursAt(marker, e, i) {
      OccursOnOneSide(marker, e, marker[..j], i);
    }
  }

  lemma {:induction false} MarkerStartsTail(marker: Bytes, e: Bytes, b: Bytes)
    requires marker != [] && LF !in marker && !Occurs(marker, e)
    ensures FirstAt(marker, e + [LF] + marker + b, |e| + 1)
  {
    var s := e + [LF] + marker + b;
    assert s == e + [LF] + (marker + b);
    assert s[|e| + 1..|e| + 1 + |marker|] == marker;
    forall i | OccursAt(marker, s, i) ensures OccursAt(marker, e, i) || i > |e| {
      OccursOnOneSide(marker, e, marker + b, i);
    }
  }

  /** Receiving the whole marker means having received all but at most the final byte. */
  lemma {:induction false} MarkerIsLast(user: seq<Cell>, marker: Bytes, k: nat)
    requires MarkerIsFresh(user, marker) && k < |Script(user, marker)| - 1
    ensures !Occurs(marker, BytesOf(Script(user, marker)[..k], Err))
  {
    var script, e := Script(user, marker), BytesOf(user, Err);
    if k <= |user| {
      assert script[..k] == user[..k];
      BytesOfAppend(user[..k], user[k..], Err);
      assert user == user[..k] + user[k..];
      OccursInExtension(marker, BytesOf(user[..k], Err), BytesOf(user[k..], Err));
    } else {
      var j := k - |user| - 1;
      assert script[..k] == user + Tag([LF] + marker[..j], Err);
      BytesOfAppend(user, Tag([LF] + marker[..j], Err), Err);
      BytesOfTag([LF] + marker[..j], Err, Err);
      NoMarkerAcrossLine(marker, e, j);
      assert e + ([LF] + marker[..j]) == e + [LF] + marker[..j];
    }
  }

  // ----- what holds in every reachable state -----

  function Count(b: bool): nat { if b then 1 else 0 }

  /** What holds in every run, whatever the command writes: bytes are conserved while it
      runs, and close frames count acknowledgements. */
  ghost predicate Basic(marker: Bytes, script: seq<Cell>, s: System) {
    && Flatten(s.errFrames) == BytesOf(s.got, Err)
    && s.closeSent + Count(s.closeFlag) == Count(Acked(marker, s.errFrames))
    && (s.stdinClosed ==> s.closeSent > 0)
    && (s.phase.Running? ==> s.got + s.wire + s.todo == script)
  }

  ghost predicate Inv(user: seq<Cell>, marker: Bytes, s: System) {
    && Basic(marker, Script(user, marker), s)
    && (s.phase.ExitedOnEof? ==> Settled(Script(user, marker), s))
  }

  /** At most the line end after the marker is missing. */
  ghost predicate Settled(script: seq<Cell>, s: System) {
    && |s.got| >= |script| - 1 >= 0
    && (s.got + s.wire == script || (s.wire == [] && s.got == script[..|script| - 1]))
  }

  lemma {:induction false} DeliverKeepsFrames(marker: Bytes, s: System, n: nat)
    requires Flatten(s.errFrames) == BytesOf(s.got, Err) && Enabled(s, Deliver(n))
    ensures var s' := Next(marker, s, Deliver(n));
            Flatten(s'.errFrames) == BytesOf(s'.got, Err) && s'.got + s'.wire == s.got + s.wire
  {
    var frame := s.wire[..n];
    var text := BytesOf(frame, Err);
    BytesOfAppend(s.got, frame, Err);
    assert s.wire == frame + s.wire[n..];
    ConcatAssoc(s.got, frame, s.wire[n..]);
    if frame[0].chan.Out? {
      BytesOfUniform(frame, Err);
      assert BytesOf(s.got, Err) + text == BytesOf(s.got, Err);
    } else {
      FlattenSnoc(s.errFrames, text);
    }
  }

  lemma {:induction false} DeliverKeepsCount(marker: Bytes, s: System, n: nat)
    requires marker != [] && Enabled(s, Deliver(n))
    requires s.closeSent + Count(s.closeFlag) == Count(Acked(marker, s.errFrames))
    ensures var s' := Next(marker, s, Deliver(n));
            s'.closeSent + Count(s'.closeFlag) == Count(Acked(marker, s'.errFrames))
  {
    var frame := BytesOf(s.wire[..n], Err);
    AckedIffMarkerReceived(marker, s.errFrames);
    AckedIffMarkerReceived(marker, s.errFrames + [frame]);
    FlattenSnoc(s.errFrames, frame);
    OccursInExtension(marker, Flatten(s.errFrames), frame);
  }

  lemma {:induction false} ExitOnEofSettles(user: seq<Cell>, marker: Bytes, s: System)
    requires MarkerIsFresh(user, marker) && Inv(user, marker, s) && Enabled(s, ExitOnEof)
    ensures Settled(Script(user, marker), Next(marker, s, ExitOnEof))
  {
    var script := Script(user, marker);
    AckedIffMarkerReceived(marker, s.errFrames);
    assert script[..|s.got|] == s.got;
    if |s.got| < |script| - 1 {
      MarkerIsLast(user, marker, |s.got|);
    }
  }

  lemma {:induction false} WriteKeepsAll(got: seq<Cell>, wire: seq<Cell>, todo: seq<Cell>, n: nat)
    requires n <= |todo|
    ensures got + (wire + todo[..n]) + todo[n..] == got + wire + todo
  {
  }

  lemma {:induction false} DropKeepsSettled(script: seq<Cell>, s: System, i: nat)
    requires Settled(script, s) && i < |s.wire|
    ensures Settled(script, s.(wire := s.wire[..i] + s.wire[i + 1..]))
  {
    assert s.got + s.wire == script;
    assert s.wire[..i] + s.wire[i + 1..] == [];
    assert script[..|script| - 1] == s.got;
  }

  lemma {:induction false} StepKeepsBasic(marker: Bytes, script: seq<Cell>, s: System, a: Action)
    requires marker != [] && Basic(marker, script, s) && Enabled(s, a)
    ensures Basic(marker, script, Next(marker, s, a))
  {
    hide BytesOf, Acked, Flatten;
    match a {
      case Write(n) =>
        WriteKeepsAll(s.got, s.wire, s.todo, n);
      case Deliver(n) =>
        DeliverKeepsFrames(marker, s, n);
        DeliverKeepsCount(marker, s, n);
      case _ =>
    }
  }

  lemma {:induction false} RunKeepsBasic(marker: Bytes, script: seq<Cell>, steps: seq<Action>)
    requires marker != []
    ensures Basic(marker, script, Run(marker, script, steps))
  {
    if steps == [] {
      assert Acked(marker, []) == false;
    } else {
      hide Basic;
      var before := steps[..|steps| - 1];
      RunKeepsBasic(marker, script, before);
      var s, a := Run(marker, script, before), steps[|steps| - 1];
      if Enabled(s, a) {
        StepKeepsBasic(marker, script, s, a);
      }
    }
  }

  lemma {:induction false} StepKeepsInv(user: seq<Cell>, marker: Bytes, s: System, a: Action)
    requires MarkerIsFresh(user, marker) && Inv(user, marker, s) && Enabled(s, a)
    ensures Inv(user, marker, Next(marker, s, a))
  {
    StepKeepsBasic(marker, Script(user, marker), s, a);
    if a.ExitOnEof? {
      ExitOnEofSettles(user, marker, s);
    } else if s.phase.ExitedOnEof? {
      StepKeepsSettled(user, marker, s, a);
    }
  }

  lemma {:induction false} StepKeepsSettled(user: seq<Cell>, marker: Bytes, s: System, a: Action)
    requires Basic(marker, Script(user, marker), s) && Settled(Script(user, marker), s)
    requires s.phase.ExitedOnEof? && Enabled(s, a)
    ensures Settled(Script(user, marker), Next(marker, s, a))
  {
    hide BytesOf, Acked, Flatten, Script;
    match a {
      case Deliver(n) => DeliverKeepsFrames(marker, s, n);
      case Drop(i) => DropKeepsSettled(Script(user, marker), s, i);
      case _ =>
    }
  }

  lemma {:induction false} RunKeepsInv(user: seq<Cell>, marker: Bytes, steps: seq<Action>)
    requires MarkerIsFresh(user, marker)
    ensures Inv(user, marker, Run(marker, Script(user, marker), steps))
  {
    if steps == [] {
      assert Acked(marker, []) == false;
    } else {
      var before := steps[..|steps| - 1];
      RunKeepsInv(user, marker, before);
      var s, a := Run(marker, Script(user, marker), before), steps[|steps| - 1];
      if Enabled(s, a) {
        StepKeepsInv(user, marker, s, a);
      }
    }
  }

  /** At most one stdin_close frame is sent, and only after the whole marker arrived. */
  lemma {:induction false} OneCloseAfterMarker(user: seq<Cell>, marker: Bytes, steps: seq<Action>)
    requires MarkerIsFresh(user, marker)
    ensures var s := Run(marker, Script(user, marker), steps);
            s.closeSent <= 1 && (s.closeSent == 1 ==> Occurs(marker, BytesOf(s.got, Err)))
  {
    RunKeepsInv(user, marker, steps);
    AckedIffMarkerReceived(marker, Run(marker, Script(user, marker), steps).errFrames);
  }

  /** In every run in which the command exits because of the acknowledgement, nothing
      the user's command wrote is lost, on either channel.  What the client sees on
      stderr is the user's stderr followed by the line end printed before the marker;
      and by the one after it exactly when that came in a frame of its own. */
  lemma {:induction false} NothingLostOnAck(user: seq<Cell>, marker: Bytes, steps: seq<Action>)
    requires MarkerIsFresh(user, marker)
    requires Run(marker, Script(user, marker), steps).phase == ExitedOnEof
    ensures var s := Run(marker, Script(user, marker), steps);
            && BytesOf(s.got, Out) == BytesOf(user, Out)
            && LineEndsAround(marker, s.errFrames, BytesOf(user, Err))
  {
    var s := Run(marker, Script(user, marker), steps);
    RunKeepsInv(user, marker, steps);
    var b := SettledErr(user, marker, s);
    OutputWithLineEnds(marker, s.errFrames, BytesOf(user, Err), b);
  }

  /** The output is e and a line end, and another one if and only if it came in a frame
      after the one that completes the marker. */
  ghost predicate LineEndsAround(marker: Bytes, frames: seq<Bytes>, e: Bytes) {
    && marker != [] && Occurs(marker, Flatten(frames))
    && InLaterFrames(marker, frames) in {[], [LF]}
    && Output(marker, frames) == e + [LF] + InLaterFrames(marker, frames)
  }

  lemma {:induction false} OutputWithLineEnds(marker: Bytes, frames: seq<Bytes>, e: Bytes, b: Bytes)
    requires marker != [] && LF !in marker && !Occurs(marker, e) && b in {[], [LF]}
    requires Flatten(frames) == e + [LF] + marker + b
    ensures LineEndsAround(marker, frames, e)
  {
    hide After, Flatten, Occurs, FirstAt, OneMarker, LineEndsAround, Completes;
    OneMarkerAfterLine(marker, frames, e, b);
    var c := CutAtMarker(marker, frames);
    OutputAroundCut(marker, c, e + [LF], b);
    assert InLaterFrames(marker, frames) == Flatten(c.post);
    LineEndsHold(marker, frames, e);
  }

  lemma {:induction false} LineEndsHold(marker: Bytes, frames: seq<Bytes>, e: Bytes)
    requires marker != [] && Occurs(marker, Flatten(frames)) && InLaterFrames(marker, frames) in {[], [LF]}
    requires Output(marker, frames) == e + [LF] + InLaterFrames(marker, frames)
    ensures LineEndsAround(marker, frames, e)
  {
  }

  lemma {:induction false} OneMarkerAfterLine(marker: Bytes, frames: seq<Bytes>, e: Bytes, b: Bytes)
    requires marker != [] && LF !in marker && !Occurs(marker, e) && b in {[], [LF]}
    requires Flatten(frames) == e + [LF] + marker + b
    ensures OneMarker(marker, frames, e + [LF], b) && Occurs(marker, Flatten(frames))
  {
    hide Flatten;
    MarkerStartsTail(marker, e, b);
    FirstByteOccurs(marker, b);
  }

  lemma {:induction false} OutputAroundCut(marker: Bytes, c: Cut, a: Bytes, b: Bytes)
    requires OneMarker(marker, c.pre + [c.raw] + c.post, a, b) && Completes(marker, c.pre, c.raw, c.i)
    requires b in {[], [LF]}
    ensures Flatten(c.post) in {[], [LF]}
    ensures Output(marker, c.pre + [c.raw] + c.post) == a + Flatten(c.post)
  {
    hide After, Flatten, Occurs, FirstAt;
    var r := |Flatten(c.pre) + c.raw| - |a| - |marker|;
    OneMarkerParts(marker, c.pre, c.raw, c.post, c.i, a, b);
    OutputWithOneMarker(marker, c.pre, c.raw, c.post, c.i, a, b);
    NewlinesStripped(b, r);
    assert a + [] == a;
  }

  lemma {:induction false} NewlinesStripped(b: Bytes, r: nat)
    requires b in {[], [LF]} && r <= |b|
    ensures StripNewlines(b[..r]) == [] && b[r..] in {[], [LF]}
  {
    if r == 0 {
      assert b[..0] == [] && b[0..] == b;
    } else {
      assert b[..1] == [LF] && b[1..] == [] && [LF][1..] == [];
    }
  }

  lemma {:induction false} SettledErr(user: seq<Cell>, marker: Bytes, s: System) returns (b: Bytes)
    requires Inv(user, marker, s) && s.phase.ExitedOnEof?
    ensures b in {[], [LF]}
    ensures Flatten(s.errFrames) == BytesOf(user, Err) + [LF] + marker + b
    ensures BytesOf(s.got, Out) == BytesOf(user, Out)
  {
    var script, n := Script(user, marker), |Script(user, marker)| - 1;
    ScriptErr(user, marker);
    if |s.got| > n {
      assert s.got == script;
      b := [LF];
    } else {
      assert s.got == script[..n];
      var last := [Cell(Err, LF)];
      assert script == script[..n] + last;
      BytesOfAppend(script[..n], last, Err);
      BytesOfAppend(script[..n], last, Out);
      assert BytesOf(last, Err) == [LF] && BytesOf(last, Out) == [] by { assert last[1..] == []; }
      b := [];
      var e := BytesOf(user, Err);
      var got := BytesOf(script[..n], Err);
      assert got + [LF] == (e + [LF] + marker) + [LF];
      assert got == (got + [LF])[..|got|] == e + [LF] + marker;
      assert e + [LF] + marker + b == e + [LF] + marker;
    }
  }

  // ----- the two exits can both happen -----

  lemma {:induction false} RunSnoc(marker: Bytes, script: seq<Cell>, steps: seq<Action>, a: Action)
    requires Enabled(Run(marker, script, steps), a)
    ensures Run(marker, script, steps + [a]) == Next(marker, Run(marker, script, steps), a)
  {
    assert (steps + [a])[..|steps|] == steps;
  }

  /** The command writes what it has left. */
  lemma {:induction false} WriteRest(marker: Bytes, script: seq<Cell>, steps: seq<Action>) returns (steps': seq<Action>)
    requires Run(marker, script, steps).phase.Running?
    ensures steps <= steps'
    ensures var s := Run(marker, script, steps);
            Run(marker, script, steps') == s.(wire := s.wire + s.todo, todo := [])
  {
    var s := Run(marker, script, steps);
    if s.todo == [] {
      steps' := steps;
      assert s.wire + [] == s.wire;
    } else {
      steps' := steps + [Write(|s.todo|)];
      RunSnoc(marker, script, steps, Write(|s.todo|));
      assert s.todo[..|s.todo|] == s.todo;
    }
  }

  /** What is in flight can arrive, byte by byte, also after the exit. */
  lemma {:induction false} DeliverRest(marker: Bytes, script: seq<Cell>, steps: seq<Action>)
    returns (steps': seq<Action>)
    ensures steps <= steps'
    ensures var s, s' := Run(marker, script, steps), Run(marker, script, steps');
            s' == s.(wire := [], got := s.got + s.wire, errFrames := s'.errFrames, closeFlag := s'.closeFlag)
    decreases |Run(marker, script, steps).wire|
  {
    hide Acked;
    var s := Run(marker, script, steps);
    if s.wire == [] {
      steps' := steps;
      assert s.got + [] == s.got;
    } else {
      RunSnoc(marker, script, steps, Deliver(1));
      steps' := DeliverRest(marker, script, steps + [Deliver(1)]);
      assert s.wire == s.wire[..1] + s.wire[1..];
      ConcatAssoc(s.got, s.wire[..1], s.wire[1..]);
    }
  }

  /** Whoever has received the whole script has acknowledged it, or is about to. */
  lemma {:induction false} WholeScriptIsAcked(user: seq<Cell>, marker: Bytes, s: System)
    requires MarkerIsFresh(user, marker) && Inv(user, marker, s)
    requires s.phase.Running? && s.todo == [] && s.wire == []
    ensures s.closeSent + Count(s.closeFlag) == 1
  {
    var e := BytesOf(user, Err);
    assert s.got + [] + [] == s.got;
    ScriptErr(user, marker);
    MarkerStartsTail(marker, e, [LF]);
    AckedIffMarkerReceived(marker, s.errFrames);
  }

  /** From every state in which the command still runs, the acknowledged exit can be
      reached, whatever the command writes. */
  lemma {:induction false} AckIsReachable(user: seq<Cell>, marker: Bytes, steps: seq<Action>)
    returns (steps': seq<Action>)
    requires MarkerIsFresh(user, marker) && Run(marker, Script(user, marker), steps).phase.Running?
    ensures steps <= steps' && Run(marker, Script(user, marker), steps').phase == ExitedOnEof
  {
    hide Run, Script;
    var script := Script(user, marker);
    steps' := WriteRest(marker, script, steps);
    steps' := DeliverRest(marker, script, steps');
    RunKeepsInv(user, marker, steps');
    WholeScriptIsAcked(user, marker, Run(marker, script, steps'));
    if Run(marker, script, steps').closeFlag {
      RunSnoc(marker, script, steps', Poll);
      steps' := steps' + [Poll];
    }
    RunSnoc(marker, script, steps', CloseArrives);
    steps' := steps' + [CloseArrives];
    RunSnoc(marker, script, steps', ExitOnEof);
    steps' := steps' + [ExitOnEof];
  }

  // ----- a command that prints the marker itself -----

  /** The marker occurs in the command's stderr before its last byte of output. */
  ghost predicate MarkerComesEarly(user: seq<Cell>, marker: Bytes) {
    exists k :: 0 <= k < |user| && Occurs(marker, BytesOf(user[..k], Err))
  }

  /** Once that much has arrived, the acknowledgement is on its way, although the command
      has more to write. */
  lemma {:induction false} EarlyAck(user: seq<Cell>, marker: Bytes, steps: seq<Action>, k: nat)
    requires marker != [] && k <= |user| && Occurs(marker, BytesOf(user[..k], Err))
    requires var s := Run(marker, Script(user, marker), steps); user[..k] <= s.got
    ensures var s := Run(marker, Script(user, marker), steps); s.closeSent + Count(s.closeFlag) == 1
  {
    var s := Run(marker, Script(user, marker), steps);
    RunKeepsBasic(marker, Script(user, marker), steps);
    var rest := s.got[k..];
    assert s.got == user[..k] + rest;
    BytesOfAppend(user[..k], rest, Err);
    OccursInExtension(marker, BytesOf(user[..k], Err), BytesOf(rest, Err));
    AckedIffMarkerReceived(marker, s.errFrames);
  }

  lemma {:induction false} ExitKeepsOutput(user: seq<Cell>, marker: Bytes, steps: seq<Action>)
    requires marker != [] && !MarkerComesEarly(user, marker)
    ensures var s := Run(marker, Script(user, marker), steps);
            s.phase == ExitedOnEof ==> user <= s.got
  {
    if steps == [] {
    } else {
      hide BytesOf, Acked, Script;
      var script, before := Script(user, marker), steps[..|steps| - 1];
      ExitKeepsOutput(user, marker, before);
      RunKeepsBasic(marker, script, before);
      var s, a := Run(marker, script, before), steps[|steps| - 1];
      if Enabled(s, a) && a.ExitOnEof? {
        AckedIffMarkerReceived(marker, s.errFrames);
        ReceivedCoversUser(user, marker, s.got, s.wire + s.todo);
        assert s.got + s.wire + s.todo == s.got + (s.wire + s.todo);
      }
    }
  }

  lemma {:induction false} ReceivedCoversUser(user: seq<Cell>, marker: Bytes, got: seq<Cell>, rest: seq<Cell>)
    requires got + rest == Script(user, marker) && Occurs(marker, BytesOf(got, Err))
    requires !MarkerComesEarly(user, marker)
    ensures user <= got
  {
    hide BytesOf;
    PrefixesOfOne(user, Tag([LF] + marker + [LF], Err), got, rest);
  }

  lemma {:induction false} PrefixesOfOne<T>(a: seq<T>, b: seq<T>, x: seq<T>, y: seq<T>)
    requires a + b == x + y
    ensures |x| < |a| ==> x == a[..|x|]
    ensures |a| <= |x| ==> a <= x
  {
    if |x| < |a| {
      assert a[..|x|] == (a + b)[..|x|] == (x + y)[..|x|] == x;
    } else {
      assert x[..|a|] == (x + y)[..|a|] == (a + b)[..|a|] == a;
    }
  }

  /** What is in flight is lost after the exit. */
  lemma {:induction false} DropRest(marker: Bytes, script: seq<Cell>, steps: seq<Action>) returns (steps': seq<Action>)
    requires !Run(marker, script, steps).phase.Running?
    ensures Run(marker, script, steps') == Run(marker, script, steps).(wire := [])
    decreases |Run(marker, script, steps).wire|
  {
    var s := Run(marker, script, steps);
    if s.wire == [] {
      steps' := steps;
    } else {
      RunSnoc(marker, script, steps, Drop(0));
      steps' := DropRest(marker, script, steps + [Drop(0)]);
    }
  }

  /** Every such command has a run that exits because of the acknowledgement and loses all
      that it wrote after the marker. */
  lemma {:induction false} EarlyAckLosesOutput(user: seq<Cell>, marker: Bytes, k: nat) returns (steps: seq<Action>)
    requires marker != [] && k < |user| && Occurs(marker, BytesOf(user[..k], Err))
    ensures var s := Run(marker, Script(user, marker), steps);
            s.phase == ExitedOnEof && s.got == user[..k] && s.wire == []
  {
    var script := Script(user, marker);
    assert Run(marker, script, []) == Init(script);
    SomethingWritten(user, marker, k);
    steps := [Write(k)];
    assert [] + [Write(k)] == steps && script[..k] == user[..k];
    hide Run, BytesOf, Script, Occurs;
    RunSnoc(marker, script, [], Write(k));
    assert Run(marker, script, steps).wire == user[..k] by {
      assert [] + script[..k] == script[..k];
    }
    steps := DeliverRest(marker, script, steps);
    assert [] + user[..k] == user[..k];
    EarlyAck(user, marker, steps, k);
    if Run(marker, script, steps).closeFlag {
      RunSnoc(marker, script, steps, Poll);
      steps := steps + [Poll];
    }
    RunSnoc(marker, script, steps, CloseArrives);
    steps := WriteRest(marker, script, steps + [CloseArrives]);
    RunSnoc(marker, script, steps, ExitOnEof);
    steps := DropRest(marker, script, steps + [ExitOnEof]);
  }

  lemma {:induction false} SomethingWritten(user: seq<Cell>, marker: Bytes, k: nat)
    requires marker != [] && k <= |user| && Occurs(marker, BytesOf(user[..k], Err))
    ensures k > 0
  {
  }

  /** Exactly when every acknowledged exit leaves the whole output of the command with the
      reader: the marker does not come early. */
  lemma {:induction false} NothingLostIff(user: seq<Cell>, marker: Bytes)
    requires marker != []
    ensures (forall steps :: Run(marker, Script(user, marker), steps).phase == ExitedOnEof ==>
               user <= Run(marker, Script(user, marker), steps).got)
       <==> !MarkerComesEarly(user, marker)
  {
    hide Run, Script, BytesOf, Occurs;
    if MarkerComesEarly(user, marker) {
      var k :| 0 <= k < |user| && Occurs(marker, BytesOf(user[..k], Err));
      var steps := EarlyAckLosesOutput(user, marker, k);
    } else {
      forall steps | Run(marker, Script(user, marker), steps).phase == ExitedOnEof
        ensures user <= Run(marker, Script(user, marker), steps).got
      {
        ExitKeepsOutput(user, marker, steps);
      }
    }
  }

  // ----- a reader without the marker -----

  /** A reader that was not given the marker never acknowledges: whatever the command
      writes and in every run, no close frame is sent and the command exits by timeout or
      not at all. */
  lemma {:induction false} NoAckWithoutMarker(script: seq<Cell>, steps: seq<Action>)
    ensures var s := Run([], script, steps);
            s.phase != ExitedOnEof && s.closeSent == 0 && !s.closeFlag && !s.stdinClosed
  {
    if steps == [] {
    } else {
      var before, a := steps[..|steps| - 1], steps[|steps| - 1];
      NoAckWithoutMarker(script, before);
      var s := Run([], script, before);
      if Enabled(s, a) && a.Deliver? {
        DisabledFilter(s.errFrames);
        DisabledFilter(s.errFrames + [BytesOf(s.wire[..a.n], Err)]);
      }
    }
  }

  lemma {:induction false} TimeoutRun(marker: Bytes, script: seq<Cell>)
    requires script != []
    ensures var s := Run(marker, script, [Write(|script|), ExitOnTimeout, Drop(0)]);
            s.phase == ExitedOnTimeout && s.got == [] && s.wire == script[1..]
  {
    var write, exit, drop := Write(|script|), ExitOnTimeout, Drop(0);
    assert Run(marker, script, []) == Init(script);
    hide Run;
    assert [] + [write] == [write] && [write] + [exit] == [write, exit];
    assert [write, exit] + [drop] == [write, exit, drop];
    assert [] + script[..|script|] == script && script[..0] + script[1..] == script[1..];
    RunSnoc(marker, script, [], write);
    RunSnoc(marker, script, [write], exit);
    RunSnoc(marker, script, [write, exit], drop);
  }

  /** Without the acknowledgement the tail can be lost: a run that times out drops the
      only byte the user's command wrote. */
  lemma {:induction false} TimeoutCanLose(marker: Bytes, v: byte) returns (steps: seq<Action>)
    ensures var user := [Cell(Out, v)];
            var s := Run(marker, Script(user, marker), steps);
            && s.phase == ExitedOnTimeout
            && BytesOf(s.got + s.wire, Out) == [] && BytesOf(user, Out) == [v]
  {
    hide Run;
    var user, line := [Cell(Out, v)], [LF] + marker + [LF];
    var script := Script(user, marker);
    steps := [Write(|script|), ExitOnTimeout, Drop(0)];
    TimeoutRun(marker, script);
    assert BytesOf(user, Out) == [v] by { assert user[1..] == []; }
    assert [] + script[1..] == Tag(line, Err);
    BytesOfTag(line, Err, Out);
  }
}
