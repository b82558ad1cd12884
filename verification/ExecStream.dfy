/** The exec-stream client (exec_stream.py): a resident pump that moves WebSocket
    messages into a queue, and a polling consumer that decodes them while it watches a
    deadline, a stop flag and the stdin_close acknowledgement. */
module ExecStream {
  import opened Sequences

  /** The JSON body of a text message; `NotJson` and `NotObject` are skipped. */
  datatype Body =
    | NotJson | NotObject | Pong | OtherType
    | OutputText(stderr: bool, text: string)
    | ExitCode(code: int)
    | BadExitCode                 // int() of the returncode raises
    | ServerError

  datatype Message =
    | Text(body: Body) | Binary(data: Bytes)
    | Close | Closed | Error
    | Ignored                     // any other WebSocket message type
    | ReceiveFailed               // ws.receive() raised

  datatype Event =
    | TextOutput(stderr: bool, text: string)
    | BinaryOutput(stderr: bool, payload: Bytes)
    | Exit(code: int)

  datatype Cause = ReportedByServer | BadReturnCode | ClosedByServer | ConnectionLost | ConnectionError
                 | ReceiveRaised | DeadlinePassed | SendRaised

  // ----- the pump -----

  predicate EndsPump(m: Message) { m.Close? || m.Closed? || m.Error? || m.ReceiveFailed? }

  /** The messages up to and including the first that ends the stream. */
  function UpToTerminal(messages: seq<Message>): seq<Message> {
    if messages == [] then []
    else if EndsPump(messages[0]) then [messages[0]]
    else [messages[0]] + UpToTerminal(messages[1..])
  }

  predicate PumpEnded(messages: seq<Message>) { exists i :: 0 <= i < |messages| && EndsPump(messages[i]) }

  lemma {:induction false} UpToTerminalAppend(a: seq<Message>, b: seq<Message>)
    ensures UpToTerminal(a + b) == if PumpEnded(a) then UpToTerminal(a) else UpToTerminal(a) + UpToTerminal(b)
  {
    if a == [] {
      assert a + b == b;
    } else {
      assert (a + b)[1..] == a[1..] + b;
      assert a == [a[0]] + a[1..];
      UpToTerminalAppend(a[1..], b);
      if EndsPump(a[0]) {
        assert PumpEnded(a);
      } else {
        assert PumpEnded(a) ==> PumpEnded(a[1..]) by {
          if i :| 0 <= i < |a| && EndsPump(a[i]) { assert EndsPump(a[1..][i - 1]); }
        }
        assert PumpEnded(a[1..]) ==> PumpEnded(a) by {
          if i :| 0 <= i < |a[1..]| && EndsPump(a[1..][i]) { assert EndsPump(a[i + 1]); }
        }
      }
    }
  }

  lemma {:induction false} PumpEndedAppend(a: seq<Message>, b: seq<Message>)
    ensures PumpEnded(a + b) == (PumpEnded(a) || PumpEnded(b))
  {
    forall i | 0 <= i < |a| && EndsPump(a[i]) ensures PumpEnded(a + b) { assert EndsPump((a + b)[i]); }
    forall i | 0 <= i < |b| && EndsPump(b[i]) ensures PumpEnded(a + b) { assert EndsPump((a + b)[|a| + i]); }
    forall i | 0 <= i < |a + b| && EndsPump((a + b)[i]) ensures PumpEnded(a) || PumpEnded(b) {
      if i < |a| { assert EndsPump(a[i]); } else { assert EndsPump(b[i - |a|]); }
    }
  }

  lemma {:induction false} UpToTerminalIsPrefix(messages: seq<Message>)
    ensures var sink := UpToTerminal(messages);
            && sink <= messages && (messages != [] ==> sink != [])
            && (forall k :: 0 <= k < |sink| - 1 ==> !EndsPump(sink[k]))
            && (sink != [] ==> (EndsPump(sink[|sink| - 1]) <==> PumpEnded(messages)))
            && (!PumpEnded(messages) ==> sink == messages)
  {
    if messages == [] {
    } else {
      var first, rest := messages[0], messages[1..];
      UpToTerminalIsPrefix(rest);
      assert messages == [first] + rest;
      assert UpToTerminal([first]) == [first];
      UpToTerminalAppend([first], rest);
      PumpEndedAppend([first], rest);
      assert PumpEnded([first]) <==> EndsPump(first) by { assert [first][0] == first; }
      hide UpToTerminal, PumpEnded, EndsPump;
      if rest == [] {
        assert [first] + [] == [first];
      }
    }
  }

  /** `_pump_ws_messages`, run over what the socket delivers while it is scheduled. */
  method Pump(socket: seq<Message>, running: bool) returns (sink: seq<Message>, running': bool)
    ensures sink == if running then UpToTerminal(socket) else []
    ensures running' == (running && !PumpEnded(socket))
    // a prefix, which ends at a closing frame, an error or a failed receive, and nowhere else
    ensures sink <= socket && (running && sink != socket ==> sink != [])
    ensures forall k :: 0 <= k < |sink| - 1 ==>
              !sink[k].Close? && !sink[k].Closed? && !sink[k].Error? && !sink[k].ReceiveFailed?
    ensures running && sink != [] ==>
              var last := sink[|sink| - 1];
              (last.Close? || last.Closed? || last.Error? || last.ReceiveFailed? <==> !running')
              && (running' ==> sink == socket)
  {
    UpToTerminalIsPrefix(socket);
    assert UpToTerminal(socket[..0]) == [] && !PumpEnded(socket[..0]);
    hide UpToTerminal, PumpEnded;
    sink, running' := [], running;
    var i := 0;
    while running' && i < |socket|
      invariant 0 <= i <= |socket|
      invariant running ==> sink == UpToTerminal(socket[..i])
      invariant running' == (running && !PumpEnded(socket[..i]))
      invariant !running ==> sink == []
    {
      var message := socket[i];
      PumpSnoc(socket[..i], message);
      assert socket[..i + 1] == socket[..i] + [message];
      sink := sink + [message];
      i := i + 1;
      if EndsPump(message) {
        running' := false;
      }
    }
    assert socket == socket[..i] + socket[i..];
    UpToTerminalAppend(socket[..i], socket[i..]);
    PumpEndedAppend(socket[..i], socket[i..]);
    assert i == |socket| ==> socket[..i] == socket;
  }

  lemma {:induction false} PumpSnoc(messages: seq<Message>, m: Message)
    requires !PumpEnded(messages)
    ensures UpToTerminal(messages + [m]) == UpToTerminal(messages) + [m]
    ensures PumpEnded(messages + [m]) <==> EndsPump(m)
  {
    UpToTerminalAppend(messages, [m]);
    PumpEndedAppend(messages, [m]);
    assert UpToTerminal([m]) == [m] && [m][0] == m;
  }

  // ----- decoding one message -----

  /** `_binary_event_from_frame`. */
  function BinaryEvent(data: Bytes): Option<Event> {
    if |data| < 2 || data[0] !in {1, 2} then None else Some(BinaryOutput(data[0] == 2, data[1..]))
  }

  datatype Verdict = Skip | Yield(event: Event) | YieldAndStop(event: Event) | Raise(cause: Cause)

  function Meaning(m: Message): Verdict {
    match m
    case Text(OutputText(err, text)) => if text == "" then Skip else Yield(TextOutput(err, text))
    case Text(ExitCode(code)) => YieldAndStop(Exit(code))
    case Text(BadExitCode) => Raise(BadReturnCode)
    case Text(ServerError) => Raise(ReportedByServer)
    case Text(_) => Skip
    case Binary(data) => if BinaryEvent(data).Some? then Yield(BinaryEvent(data).value) else Skip
    case Close => Raise(ClosedByServer)
    case Closed => Raise(ConnectionLost)
    case Error => Raise(ConnectionError)
    case ReceiveFailed => Raise(ReceiveRaised)
    case Ignored => Skip
  }

  // ----- the sequential reference: decode a list of messages in order -----

  datatype End = Open | Exited | Raised(cause: Cause)
  datatype Decoded = Decoded(events: seq<Event>, end: End)

  function Apply(events: seq<Event>, v: Verdict): Decoded {
    match v
    case Skip => Decoded(events, Open)
    case Yield(e) => Decoded(events + [e], Open)
    case YieldAndStop(e) => Decoded(events + [e], Exited)
    case Raise(c) => Decoded(events, Raised(c))
  }

  function Decode(messages: seq<Message>): Decoded {
    if messages == [] then Decoded([], Open)
    else
      var d := Decode(messages[..|messages| - 1]);
      if d.end != Open then d
      else Apply(d.events, Meaning(messages[|messages| - 1]))
  }

  lemma {:induction false} DecodeSnoc(messages: seq<Message>, m: Message)
    requires Decode(messages).end == Open
    ensures Decode(messages + [m]) == Apply(Decode(messages).events, Meaning(m))
  {
    assert (messages + [m])[..|messages|] == messages;
  }

  lemma {:induction false} DecodeIsMonotone(a: seq<Message>, b: seq<Message>)
    ensures Decode(a).events <= Decode(a + b).events
    ensures Decode(a).end != Open ==> Decode(a + b) == Decode(a)
  {
    if b == [] {
      assert a + b == a;
    } else {
      DecodeIsMonotone(a, b[..|b| - 1]);
      assert (a + b)[..|a + b| - 1] == a + b[..|b| - 1];
    }
  }

  /** The stream stays open exactly as long as no message is an exit, an exit with a bad
      code, an error reported by the server, a closing frame, a connection error or a
      failed receive. */
  lemma {:induction false} OpenIff(messages: seq<Message>)
    ensures Decode(messages).end == Open
       <==> forall k :: 0 <= k < |messages| ==>
              var m := messages[k];
              && !m.Close? && !m.Closed? && !m.Error? && !m.ReceiveFailed?
              && (m.Text? ==> !m.body.ExitCode? && !m.body.BadExitCode? && !m.body.ServerError?)
  {
    if messages == [] {
    } else {
      var n, init := |messages| - 1, messages[..|messages| - 1];
      OpenIff(init);
      assert forall k :: 0 <= k < n ==> init[k] == messages[k];
    }
  }

  /** The first of these decides alone how the stream ends, each in its own way. */
  lemma {:induction false} FirstEndingDecides(messages: seq<Message>, k: nat)
    requires k < |messages| && Decode(messages[..k]).end == Open
    ensures var before := Decode(messages[..k]).events;
            match messages[k]
            case Text(ExitCode(code)) => Decode(messages) == Decoded(before + [Exit(code)], Exited)
            case Text(BadExitCode) => Decode(messages) == Decoded(before, Raised(BadReturnCode))
            case Text(ServerError) => Decode(messages) == Decoded(before, Raised(ReportedByServer))
            case Close => Decode(messages) == Decoded(before, Raised(ClosedByServer))
            case Closed => Decode(messages) == Decoded(before, Raised(ConnectionLost))
            case Error => Decode(messages) == Decoded(before, Raised(ConnectionError))
            case ReceiveFailed => Decode(messages) == Decoded(before, Raised(ReceiveRaised))
            case _ => Decode(messages[..k + 1]).end == Open
  {
    hide Decode;
    assert messages[..k + 1] == messages[..k] + [messages[k]];
    DecodeSnoc(messages[..k], messages[k]);
    assert messages == messages[..k + 1] + messages[k + 1..];
    DecodeIsMonotone(messages[..k + 1], messages[k + 1..]);
  }

  /** The message whose output the event is. */
  ghost predicate CarriedBy(e: Event, m: Message) {
    match e
    case TextOutput(err, text) => m == Text(OutputText(err, text)) && text != ""
    case BinaryOutput(err, payload) => m == Binary([if err then 2 else 1] + payload) && payload != []
    case Exit(code) => m == Text(ExitCode(code))
  }

  /** The message carries no output: an empty text, or a frame that is empty or not on one
      of the two channels, or something else. */
  ghost predicate CarriesNothing(m: Message) {
    && (m.Text? && m.body.OutputText? ==> m.body.text == "")
    && (m.Binary? ==> |m.data| < 2 || (m.data[0] != 1 && m.data[0] != 2))
  }

  /** Event i comes from message at[i], in the order of the messages; no other message
      carries output. */
  ghost predicate Located(at: seq<nat>, events: seq<Event>, messages: seq<Message>) {
    && |at| == |events|
    && (forall i, j :: 0 <= i < j < |at| ==> at[i] < at[j])
    && (forall i :: 0 <= i < |at| ==> at[i] < |messages| && CarriedBy(events[i], messages[at[i]]))
    && (forall k :: 0 <= k < |messages| && !CarriesNothing(messages[k]) ==> k in at)
  }

  lemma {:induction false} LocateNext(at: seq<nat>, events: seq<Event>, messages: seq<Message>, m: Message, e: Event)
    requires Located(at, events, messages) && CarriedBy(e, m)
    ensures Located(at + [|messages|], events + [e], messages + [m])
  {
    hide CarriedBy, CarriesNothing;
    var at', messages' := at + [|messages|], messages + [m];
    assert at'[|at|] == |messages|;
    forall k | 0 <= k < |messages'| && !CarriesNothing(messages'[k]) ensures k in at' {
      assert k < |messages| ==> messages'[k] == messages[k] && k in at;
    }
  }

  lemma {:induction false} LocateNothing(at: seq<nat>, events: seq<Event>, messages: seq<Message>, m: Message)
    requires Located(at, events, messages) && CarriesNothing(m)
    ensures Located(at, events, messages + [m])
  {
    hide CarriedBy, CarriesNothing;
    forall k | 0 <= k < |messages + [m]| && !CarriesNothing((messages + [m])[k]) ensures k in at {
      assert k < |messages| ==> (messages + [m])[k] == messages[k];
    }
  }

  /** While the stream is open, the events are the output messages, one event for each, in
      their order; `at` says which. */
  lemma {:induction false} EventsAreTheOutput(messages: seq<Message>) returns (at: seq<nat>)
    requires Decode(messages).end == Open
    ensures Located(at, Decode(messages).events, messages)
  {
    if messages == [] {
      at := [];
    } else {
      var init, m := messages[..|messages| - 1], messages[|messages| - 1];
      OpenBeforeOpen(messages);
      assert messages == init + [m];
      at := EventsAreTheOutput(init);
      hide Decode, Located, Meaning;
      DecodeSnoc(init, m);
      MeaningCarries(m);
      if Meaning(m).Yield? {
        LocateNext(at, Decode(init).events, init, m, Meaning(m).event);
        at := at + [|init|];
      } else {
        LocateNothing(at, Decode(init).events, init, m);
      }
    }
  }

  lemma {:induction false} OpenBeforeOpen(messages: seq<Message>)
    requires messages != [] && Decode(messages).end == Open
    ensures Decode(messages[..|messages| - 1]).end == Open
    ensures !Meaning(messages[|messages| - 1]).YieldAndStop? && !Meaning(messages[|messages| - 1]).Raise?
  {
  }

  lemma {:induction false} MeaningCarries(m: Message)
    ensures Meaning(m).Yield? ==> CarriedBy(Meaning(m).event, m)
    ensures Meaning(m).Skip? ==> CarriesNothing(m)
  {
    if m.Binary? && Meaning(m).Yield? {
      assert m.data == [m.data[0]] + m.data[1..];
    }
  }

  /** An exit event is the last one, there is at most one, and the server sent it. */
  lemma {:induction false} ExitIsLast(messages: seq<Message>)
    ensures var d := Decode(messages);
            && (forall i :: 0 <= i < |d.events| && d.events[i].Exit? ==> i == |d.events| - 1 && d.end == Exited)
            && (d.end == Exited ==> |d.events| > 0 && d.events[|d.events| - 1].Exit?
                                    && Text(ExitCode(d.events[|d.events| - 1].code)) in messages)
  {
    if messages == [] {
    } else {
      ExitIsLast(messages[..|messages| - 1]);
    }
  }

  function Payload(m: Message, channel: byte): Bytes {
    if m.Binary? && |m.data| > 0 && m.data[0] == channel then m.data[1..] else []
  }

  function Payloads(messages: seq<Message>, channel: byte): Bytes {
    if messages == [] then []
    else Payloads(messages[..|messages| - 1], channel) + Payload(messages[|messages| - 1], channel)
  }

  function BinaryBytes(events: seq<Event>, stderr: bool): Bytes {
    if events == [] then []
    else BinaryBytes(events[..|events| - 1], stderr) + EventBytes(events[|events| - 1], stderr)
  }

  function EventBytes(e: Event, stderr: bool): Bytes {
    if e.BinaryOutput? && e.stderr == stderr then e.payload else []
  }

  lemma {:induction false} MeaningPayload(m: Message, stderr: bool)
    ensures Meaning(m).Skip? ==> Payload(m, if stderr then 2 else 1) == []
    ensures Meaning(m).Yield? ==> Payload(m, if stderr then 2 else 1) == EventBytes(Meaning(m).event, stderr)
  {
    if m.Binary? && |m.data| == 1 {
      assert m.data[1..] == [];
    }
  }

  /** Until the stream ends, every payload byte of a channel is yielded, in order. */
  lemma {:induction false} NoByteIsLost(messages: seq<Message>, stderr: bool)
    requires Decode(messages).end == Open
    ensures BinaryBytes(Decode(messages).events, stderr) == Payloads(messages, if stderr then 2 else 1)
  {
    if messages == [] {
    } else {
      var init, m := messages[..|messages| - 1], messages[|messages| - 1];
      NoByteIsLost(init, stderr);
      MeaningPayload(m, stderr);
    }
  }

  function TextPayload(m: Message, stderr: bool): string {
    if m.Text? && m.body.OutputText? && m.body.stderr == stderr then m.body.text else ""
  }

  function TextPayloads(messages: seq<Message>, stderr: bool): string {
    if messages == [] then ""
    else TextPayloads(messages[..|messages| - 1], stderr) + TextPayload(messages[|messages| - 1], stderr)
  }

  function EventText(e: Event, stderr: bool): string {
    if e.TextOutput? && e.stderr == stderr then e.text else ""
  }

  function Texts(events: seq<Event>, stderr: bool): string {
    if events == [] then "" else Texts(events[..|events| - 1], stderr) + EventText(events[|events| - 1], stderr)
  }

  /** The same for output that arrives as JSON text. */
  lemma {:induction false} NoTextIsLost(messages: seq<Message>, stderr: bool)
    requires Decode(messages).end == Open
    ensures Texts(Decode(messages).events, stderr) == TextPayloads(messages, stderr)
  {
    if messages == [] {
    } else {
      var init, m := messages[..|messages| - 1], messages[|messages| - 1];
      NoTextIsLost(init, stderr);
      MeaningText(m, stderr);
    }
  }

  lemma {:induction false} MeaningText(m: Message, stderr: bool)
    ensures Meaning(m).Skip? ==> TextPayload(m, stderr) == ""
    ensures Meaning(m).Yield? ==> TextPayload(m, stderr) == EventText(Meaning(m).event, stderr)
  {
  }

  // ----- the consumer, for every schedule -----

  /** What happens around one turn of the consumer loop: whether the stop flag is up at
      its top and when a closing message is handled, what the socket delivers before
      the wait returns, whether the wait times out (it may, even if a message has just
      arrived), the clock, whether stdin_close is set, and whether a send raises. */
  datatype Turn = Turn(
    stop: bool, arrived: seq<Message>, timedOut: bool, now: int, setClose: bool,
    closeSendFails: bool, pingSendFails: bool, stopLate: bool)

  datatype Control = StdinClose | Ping(at: int)

  datatype Ending = Running | ByExit | ByStop | ByRaise(cause: Cause)

  function Arrived(turns: seq<Turn>): seq<Message> {
    if turns == [] then [] else Arrived(turns[..|turns| - 1]) + turns[|turns| - 1].arrived
  }

  function Closes(control: seq<Control>): nat {
    if control == [] then 0
    else Closes(control[..|control| - 1]) + if control[|control| - 1].StdinClose? then 1 else 0
  }

  function PingTimes(control: seq<Control>): seq<int> {
    if control == [] then []
    else PingTimes(control[..|control| - 1])
         + if control[|control| - 1].Ping? then [control[|control| - 1].at] else []
  }

  lemma {:induction false} ControlSnoc(control: seq<Control>, c: Control)
    ensures Closes(control + [c]) == Closes(control) + if c.StdinClose? then 1 else 0
    ensures PingTimes(control + [c]) == PingTimes(control) + if c.Ping? then [c.at] else []
  {
    assert (control + [c])[..|control|] == control;
  }

  /** The time of the last ping, or of the start. */
  function LastPing(control: seq<Control>, startedAt: int): int {
    var times := PingTimes(control);
    if times == [] then startedAt else times[|times| - 1]
  }

  ghost predicate Apart(times: seq<int>, startedAt: int, pingInterval: int) {
    && (times != [] ==> times[0] - startedAt >= pingInterval)
    && (forall i :: 0 < i < |times| ==> times[i] - times[i - 1] >= pingInterval)
  }

  /** No ping comes before its time. */
  ghost predicate Spaced(control: seq<Control>, startedAt: int, pingInterval: int) {
    Apart(PingTimes(control), startedAt, pingInterval)
  }

  lemma {:induction false} SpacedSnoc(control: seq<Control>, c: Control, startedAt: int, pingInterval: int)
    requires Spaced(control, startedAt, pingInterval)
    requires c.Ping? ==> c.at - LastPing(control, startedAt) >= pingInterval
    ensures Spaced(control + [c], startedAt, pingInterval)
    ensures LastPing(control + [c], startedAt) == if c.Ping? then c.at else LastPing(control, startedAt)
  {
    hide PingTimes;
    ControlSnoc(control, c);
    assert PingTimes(control) + [] == PingTimes(control);
  }

  /** How often stdin_close was set. */
  function Sets(turns: seq<Turn>): nat {
    if turns == [] then 0
    else Sets(turns[..|turns| - 1]) + if turns[|turns| - 1].setClose then 1 else 0
  }

  /** How many messages were taken from the queue in these turns: one in each turn whose
      wait returns. */
  function TakenCount(turns: seq<Turn>): nat
    decreases |turns|, 1
  {
    if turns == [] then 0
    else TakenCount(turns[..|turns| - 1]) + if LastIsIdle(turns) then 0 else 1
  }

  /** The wait of the last turn times out: it may always, and it does when everything
      received has been taken. */
  predicate LastIsIdle(turns: seq<Turn>)
    requires turns != []
    decreases |turns|, 0
  {
    || turns[|turns| - 1].timedOut
    || |UpToTerminal(Arrived(turns))| <= TakenCount(turns[..|turns| - 1])
  }

  /** The last turn is idle, at or past the deadline. */
  predicate TooLate(turns: seq<Turn>, deadline: Option<int>) {
    turns != [] && LastIsIdle(turns) && deadline.Some? && turns[|turns| - 1].now >= deadline.value
  }

  predicate IsClosing(m: Message) { m.Close? || m.Closed? || m.Error? }

  predicate IsClosingCause(c: Cause) { c.ClosedByServer? || c.ConnectionLost? || c.ConnectionError? }

  /** How the end of a run is related to the sequential decoding of `taken`, after
      `used` complete turns. */
  ghost predicate EndsAs(ending: Ending, taken: seq<Message>, turns: seq<Turn>, used: nat, deadline: Option<int>)
    requires used <= |turns|
  {
    var end := Decode(taken).end;
    match ending
    case Running => end == Open
    case ByExit => end == Exited
    case ByStop =>
      || (used < |turns| && turns[used].stop && end == Open)
      || (used > 0 && turns[used - 1].stopLate && end.Raised? && IsClosingCause(end.cause))
    case ByRaise(DeadlinePassed) => end == Open && TooLate(turns[..used], deadline)
    case ByRaise(SendRaised) =>
      end == Open && used > 0 && (turns[used - 1].closeSendFails || turns[used - 1].pingSendFails)
    case ByRaise(c) =>
      end == Raised(c) && (IsClosingCause(c) ==> used > 0 && !turns[used - 1].stopLate)
  }

  function Pending(flag: bool): nat { if flag then 1 else 0 }

  /** A turn in which the wait times out. */
  method IdleTurn(
    turn: Turn, deadline: Option<int>, pingInterval: int,
    closeFlag: bool, lastPing: int, control: seq<Control>, ghost startedAt: int)
    returns (ending: Ending, closeFlag': bool, lastPing': int, control': seq<Control>)
    requires Spaced(control, startedAt, pingInterval) && lastPing == LastPing(control, startedAt)
    ensures ending.Running? || ending == ByRaise(DeadlinePassed) || ending == ByRaise(SendRaised)
    ensures ending == ByRaise(DeadlinePassed) <==> deadline.Some? && turn.now >= deadline.value
    ensures ending == ByRaise(SendRaised) ==> turn.closeSendFails || turn.pingSendFails
    ensures Closes(control') + Pending(closeFlag') == Closes(control) + Pending(closeFlag)
    ensures Spaced(control', startedAt, pingInterval)
    ensures ending.Running? ==>
              var ping := turn.now - lastPing >= pingInterval;
              && !closeFlag' && lastPing' == (if ping then turn.now else lastPing)
              && lastPing' == LastPing(control', startedAt)
              && control' ==
                 control + (if closeFlag then [StdinClose] else []) + (if ping then [Ping(turn.now)] else [])
  {
    hide Closes, Spaced, LastPing;
    ending, closeFlag', lastPing', control' := Running, closeFlag, lastPing, control;
    if deadline.Some? && turn.now >= deadline.value {
      return ByRaise(DeadlinePassed), closeFlag', lastPing', control';
    }
    if closeFlag' {
      closeFlag' := false;
      ControlSnoc(control', StdinClose);
      SpacedSnoc(control', StdinClose, startedAt, pingInterval);
      control' := control' + [StdinClose];
      if turn.closeSendFails {
        return ByRaise(SendRaised), closeFlag', lastPing', control';
      }
    }
    if turn.now - lastPing' >= pingInterval {
      ControlSnoc(control', Ping(turn.now));
      SpacedSnoc(control', Ping(turn.now), startedAt, pingInterval);
      control' := control' + [Ping(turn.now)];
      if turn.pingSendFails {
        return ByRaise(SendRaised), closeFlag', lastPing', control';
      }
      lastPing' := turn.now;
    }
  }

  /** The local state of the generator, and what it has yielded and sent. */
  datatype Session = Session(
    events: seq<Event>,
    taken: seq<Message>,       // taken from the queue
    incoming: seq<Message>,    // still in the queue
    stdoutBytes: nat, stderrBytes: nat,
    pumpRunning: bool,
    closeFlag: bool, control: seq<Control>, lastPing: int,
    ending: Ending)

  ghost predicate Faithful(s: Session) {
    s.events == Decode(s.taken).events && Counted(s)
  }

  ghost predicate Counted(s: Session) {
    s.stdoutBytes == Size(s.events, false) && s.stderrBytes == Size(s.events, true)
  }

  function EventSize(e: Event, stderr: bool): nat {
    match e
    case TextOutput(err, text) => if err == stderr then |text| else 0
    case BinaryOutput(err, payload) => if err == stderr then |payload| else 0
    case Exit(_) => 0
  }

  /** The characters and bytes of a channel. */
  function Size(events: seq<Event>, stderr: bool): nat {
    |Texts(events, stderr)| + |BinaryBytes(events, stderr)|
  }

  lemma {:induction false} SizeSnoc(events: seq<Event>, e: Event)
    ensures forall stderr :: Size(events + [e], stderr) == Size(events, stderr) + EventSize(e, stderr)
  {
    assert (events + [e])[..|events|] == events;
  }

  /** An event is yielded and its size counted. */
  method AddEvent(s: Session, e: Event) returns (s': Session)
    requires Counted(s)
    ensures Counted(s')
    ensures s' == s.(events := s.events + [e], stdoutBytes := s'.stdoutBytes, stderrBytes := s'.stderrBytes)
  {
    SizeSnoc(s.events, e);
    s' := s.(events := s.events + [e],
             stdoutBytes := s.stdoutBytes + EventSize(e, false), stderrBytes := s.stderrBytes + EventSize(e, true));
  }

  /** The branches over the type of a message. */
  method Handle(s: Session, message: Message, stopLate: bool) returns (s': Session)
    requires s.ending == Running && Counted(s)
    ensures Counted(s') && s'.events == Apply(s.events, Meaning(message)).events
    ensures TakenAs(s'.ending, Apply(s.events, Meaning(message)).end, stopLate)
    ensures s' == s.(events := s'.events, stdoutBytes := s'.stdoutBytes, stderrBytes := s'.stderrBytes,
                     ending := s'.ending)
  {
    RaisedCauses(message);
    s' := s;
    match Meaning(message) {
      case Skip =>
      case Yield(e) =>
        s' := AddEvent(s, e);
      case YieldAndStop(e) =>
        s' := AddEvent(s, e);
        s' := s'.(ending := ByExit);
      case Raise(c) =>
        s' := s'.(ending := if IsClosing(message) && stopLate then ByStop else ByRaise(c));
    }
  }

  /** A message is taken from the queue and handled. */
  method TakeTurn(s: Session, stopLate: bool) returns (s': Session)
    requires s.incoming != [] && s.ending == Running && Faithful(s) && Decode(s.taken).end == Open
    ensures Faithful(s') && s'.taken + s'.incoming == s.taken + s.incoming
    ensures TakenAs(s'.ending, Decode(s'.taken).end, stopLate)
    ensures |s'.taken| == |s.taken| + 1 && OpenBefore(s'.taken)
    ensures s'.(events := s.events, taken := s.taken, incoming := s.incoming, stdoutBytes := s.stdoutBytes,
                stderrBytes := s.stderrBytes, ending := s.ending) == s
  {
    var message := s.incoming[0];
    DecodeSnoc(s.taken, message);
    assert s.taken + [message] + s.incoming[1..] == s.taken + s.incoming;
    assert (s.taken + [message])[..|s.taken|] == s.taken;
    s' := Handle(s.(taken := s.taken + [message], incoming := s.incoming[1..]), message, stopLate);
  }

  /** No message before the last one ends the stream. */
  ghost predicate OpenBefore(taken: seq<Message>) {
    taken != [] ==> Decode(taken[..|taken| - 1]).end == Open
  }

  ghost predicate TakenAs(ending: Ending, end: End, stopLate: bool) {
    match ending
    case Running => end == Open
    case ByExit => end == Exited
    case ByStop => stopLate && end.Raised? && IsClosingCause(end.cause)
    case ByRaise(c) =>
      end == Raised(c) && c != DeadlinePassed && c != SendRaised && (IsClosingCause(c) ==> !stopLate)
  }

  lemma {:induction false} RaisedCauses(m: Message)
    ensures Meaning(m).Raise? ==> Meaning(m).cause != DeadlinePassed && Meaning(m).cause != SendRaised
    ensures Meaning(m).Raise? ==> (IsClosing(m) <==> IsClosingCause(Meaning(m).cause))
  {
  }

  lemma {:induction false} TurnsSnoc(turns: seq<Turn>, n: nat)
    requires n < |turns|
    ensures Arrived(turns[..n + 1]) == Arrived(turns[..n]) + turns[n].arrived
    ensures Sets(turns[..n + 1]) == Sets(turns[..n]) + Pending(turns[n].setClose)
    ensures LastIsIdle(turns[..n + 1])
       <==> turns[n].timedOut || |UpToTerminal(Arrived(turns[..n + 1]))| <= TakenCount(turns[..n])
    ensures TakenCount(turns[..n + 1]) == TakenCount(turns[..n]) + if LastIsIdle(turns[..n + 1]) then 0 else 1
  {
    assert turns[..n + 1][..n] == turns[..n];
  }

  /** Nothing received up to the end of the stream is lost, repeated or reordered. */
  ghost predicate Conserved(s: Session, received: seq<Message>) {
    && s.taken + s.incoming == UpToTerminal(received)
    && s.pumpRunning == !PumpEnded(received)
  }

  /** Setting stdin_close sends a close frame or leaves one to be sent; it is never
      sent more often than it was set. */
  ghost predicate Acknowledged(s: Session, sets: nat) {
    var closes := Closes(s.control) + Pending(s.closeFlag);
    closes <= sets && (sets > 0 ==> closes > 0)
  }

  /** What the socket delivers during a turn reaches the queue. */
  method PumpTurn(s: Session, turn: Turn, ghost received: seq<Message>) returns (s': Session)
    requires Conserved(s, received)
    ensures Conserved(s', received + turn.arrived)
    ensures s' == s.(incoming := s'.incoming, pumpRunning := s'.pumpRunning)
  {
    hide UpToTerminal, PumpEnded;
    var sunk, pumpRunning := Pump(turn.arrived, s.pumpRunning);
    PumpEndedAppend(received, turn.arrived);
    UpToTerminalAppend(received, turn.arrived);
    assert s.taken + (s.incoming + sunk) == s.taken + s.incoming + sunk;
    s' := s.(incoming := s.incoming + sunk, pumpRunning := pumpRunning);
  }

  /** No turn that begins with the stop flag up is survived; the deadline ends the run
      at the first idle turn at or past it, and at no other turn; and an idle turn
      leaves no close frame unsent. */
  ghost predicate Prompt(s: Session, turns: seq<Turn>, used: nat, deadline: Option<int>)
    requires used <= |turns|
  {
    && (forall k :: 0 <= k < used ==> !turns[k].stop)
    && (forall k :: 0 <= k < used ==> !TooLate(turns[..k], deadline))
    && (TooLate(turns[..used], deadline) <==> s.ending == ByRaise(DeadlinePassed))
    && (s.ending.Running? && used > 0 && LastIsIdle(turns[..used]) ==> !s.closeFlag)
  }

  /** No ping comes before its time; and while the run goes on, none is overdue after a
      wait that timed out. */
  ghost predicate Pinged(s: Session, turns: seq<Turn>, used: nat, pingInterval: int, startedAt: int)
    requires used <= |turns|
  {
    && Spaced(s.control, startedAt, pingInterval)
    && (s.ending.Running? ==> s.lastPing == LastPing(s.control, startedAt))
    && (s.ending.Running? && used > 0 && turns[used - 1].timedOut && pingInterval > 0 ==>
          turns[used - 1].now - s.lastPing < pingInterval)
  }

  ghost predicate Inv(
    s: Session, turns: seq<Turn>, used: nat, deadline: Option<int>, pingInterval: int, startedAt: int)
    requires used <= |turns|
  {
    && Faithful(s)
    && Prompt(s, turns, used, deadline)
    && Pinged(s, turns, used, pingInterval, startedAt)
    && |s.taken| == TakenCount(turns[..used]) && OpenBefore(s.taken)
    && Conserved(s, Arrived(turns[..used]))
    && Acknowledged(s, Sets(turns[..used]))
    && EndsAs(s.ending, s.taken, turns, used, deadline)
  }

  /** What holds in the middle of a turn, when what arrived has reached the queue. */
  ghost predicate Waiting(
    s: Session, turns: seq<Turn>, used: nat, deadline: Option<int>, pingInterval: int, startedAt: int)
    requires used < |turns|
  {
    && Faithful(s) && s.ending == Running && Decode(s.taken).end == Open
    && (forall k :: 0 <= k <= used ==> !turns[k].stop && !TooLate(turns[..k], deadline))
    && Spaced(s.control, startedAt, pingInterval) && s.lastPing == LastPing(s.control, startedAt)
    && |s.taken| == TakenCount(turns[..used]) && OpenBefore(s.taken)
    && Conserved(s, Arrived(turns[..used + 1]))
    && Acknowledged(s, Sets(turns[..used + 1]))
  }

  method IdleStep(
    s: Session, turns: seq<Turn>, used: nat, deadline: Option<int>, pingInterval: int, ghost startedAt: int)
    returns (s': Session)
    requires used < |turns| && Waiting(s, turns, used, deadline, pingInterval, startedAt)
    requires LastIsIdle(turns[..used + 1])
    ensures Inv(s', turns, used + 1, deadline, pingInterval, startedAt)
  {
    hide Arrived, Sets, TakenCount, LastIsIdle, Decode, Size, UpToTerminal, PumpEnded, Closes, PingTimes, Spaced,
      LastPing;
    TurnsSnoc(turns, used);
    var ending, closeFlag, lastPing, control :=
      IdleTurn(turns[used], deadline, pingInterval, s.closeFlag, s.lastPing, s.control, startedAt);
    s' := s.(ending := ending, closeFlag := closeFlag, lastPing := lastPing, control := control);
  }

  method TakeStep(
    s: Session, turns: seq<Turn>, used: nat, deadline: Option<int>, ghost pingInterval: int, ghost startedAt: int)
    returns (s': Session)
    requires used < |turns| && Waiting(s, turns, used, deadline, pingInterval, startedAt)
    requires !LastIsIdle(turns[..used + 1]) && s.incoming != []
    ensures Inv(s', turns, used + 1, deadline, pingInterval, startedAt)
  {
    hide Arrived, Sets, TakenCount, LastIsIdle, Decode, Size, UpToTerminal, PumpEnded, Closes, PingTimes, Spaced,
      LastPing;
    TurnsSnoc(turns, used);
    s' := TakeTurn(s, turns[used].stopLate);
  }

  /** One turn of the loop past the check of the stop flag. */
  method RunTurn(
    s: Session, turns: seq<Turn>, used: nat, deadline: Option<int>, pingInterval: int, ghost startedAt: int)
    returns (s': Session)
    requires used < |turns| && Inv(s, turns, used, deadline, pingInterval, startedAt)
    requires s.ending == Running && !turns[used].stop
    ensures Inv(s', turns, used + 1, deadline, pingInterval, startedAt)
  {
    hide Arrived, Sets, TakenCount, LastIsIdle, Decode, Size, UpToTerminal, PumpEnded, Closes, PingTimes, Spaced,
      LastPing;
    var turn := turns[used];
    TurnsSnoc(turns, used);
    s' := PumpTurn(s, turn, Arrived(turns[..used]));
    s' := s'.(closeFlag := s'.closeFlag || turn.setClose);
    assert |s'.taken| + |s'.incoming| == |UpToTerminal(Arrived(turns[..used + 1]))|;
    if turn.timedOut || s'.incoming == [] {
      s' := IdleStep(s', turns, used, deadline, pingInterval, startedAt);
    } else {
      s' := TakeStep(s', turns, used, deadline, pingInterval, startedAt);
    }
  }

  /** How a run ends is read off the last message taken: an exit and each of the failures
      end it in their own way, a closing message only if the stop flag is down; after any
      other message it goes on until it is stopped, is too late, or cannot send. */
  ghost predicate EndedBy(ending: Ending, taken: seq<Message>, stopLate: bool) {
    match if taken == [] then Ignored else taken[|taken| - 1]
    case Text(ExitCode(_)) => ending == ByExit
    case Text(BadExitCode) => ending == ByRaise(BadReturnCode)
    case Text(ServerError) => ending == ByRaise(ReportedByServer)
    case ReceiveFailed => ending == ByRaise(ReceiveRaised)
    case Close => ending == if stopLate then ByStop else ByRaise(ClosedByServer)
    case Closed => ending == if stopLate then ByStop else ByRaise(ConnectionLost)
    case Error => ending == if stopLate then ByStop else ByRaise(ConnectionError)
    case _ => ending in {Running, ByStop, ByRaise(DeadlinePassed), ByRaise(SendRaised)}
  }

  lemma {:induction false} LastMessageDecides(
    ending: Ending, taken: seq<Message>, turns: seq<Turn>, used: nat, deadline: Option<int>)
    requires used <= |turns| && EndsAs(ending, taken, turns, used, deadline) && OpenBefore(taken)
    ensures EndedBy(ending, taken, used > 0 && turns[used - 1].stopLate)
  {
    hide TooLate;
    if taken == [] {
      assert Decode(taken).end == Open;
    } else {
      hide Decode;
      FirstEndingDecides(taken, |taken| - 1);
      assert taken[..|taken|] == taken;
    }
  }

  /** A wait that times out at or past the deadline ends the run. */
  ghost predicate KeepsDeadline(ending: Ending, turns: seq<Turn>, used: nat, deadline: int)
    requires used <= |turns|
  {
    forall k :: 0 <= k < used && turns[k].timedOut && turns[k].now >= deadline ==>
      k == used - 1 && ending == ByRaise(DeadlinePassed)
  }

  lemma {:induction false} PromptKeepsDeadline(s: Session, turns: seq<Turn>, used: nat, deadline: int)
    requires used <= |turns| && Prompt(s, turns, used, Some(deadline))
    ensures KeepsDeadline(s.ending, turns, used, deadline)
  {
    forall k | 0 <= k < used && turns[k].timedOut && turns[k].now >= deadline
      ensures k == used - 1 && s.ending == ByRaise(DeadlinePassed)
    {
      assert turns[..k + 1][k] == turns[k] && TooLate(turns[..k + 1], Some(deadline));
    }
  }

  /** `_iter_exec_stream_events` under an arbitrary schedule.  In every run the events
      are the sequential decoding of a prefix of what the server sent: what was taken
      and what is still queued are together everything received up to the first
      message that ends the stream.  It ends without raising only after an exit or a
      stop request, and by the deadline exactly at the first idle turn at or past it. */
  method IterExecStreamEvents(turns: seq<Turn>, deadline: Option<int>, pingInterval: int, startedAt: int)
    returns (s: Session, used: nat)
    ensures used <= |turns| && (s.ending.Running? ==> used == |turns|)
    // what is yielded
    ensures s.events == Decode(s.taken).events
    ensures s.stdoutBytes == |Texts(s.events, false)| + |BinaryBytes(s.events, false)|
    ensures s.stderrBytes == |Texts(s.events, true)| + |BinaryBytes(s.events, true)|
    ensures s.taken + s.incoming == UpToTerminal(Arrived(turns[..used])) && |s.taken| == TakenCount(turns[..used])
    // how it ends
    ensures OpenBefore(s.taken) && EndedBy(s.ending, s.taken, used > 0 && turns[used - 1].stopLate)
    ensures EndsAs(s.ending, s.taken, turns, used, deadline)
    ensures Prompt(s, turns, used, deadline)
    ensures deadline.Some? ==> KeepsDeadline(s.ending, turns, used, deadline.value)
    // what is sent
    ensures Acknowledged(s, Sets(turns[..used]))
    ensures Pinged(s, turns, used, pingInterval, startedAt)
  {
    hide Arrived, Sets, TakenCount, LastIsIdle, Decode, UpToTerminal, PumpEnded, Closes, Pinged, EndedBy,
      KeepsDeadline, EndsAs, Prompt, Texts, BinaryBytes, OpenBefore, Acknowledged;
    s := Session([], [], [], 0, 0, true, false, [], startedAt, Running);
    used := 0;
    FreshSession(turns, deadline, pingInterval, startedAt);
    while used < |turns| && s.ending == Running
      invariant used <= |turns| && Inv(s, turns, used, deadline, pingInterval, startedAt)
      decreases |turns| - used, s.ending == Running
    {
      if turns[used].stop {
        StopKeepsInv(s, turns, used, deadline, pingInterval, startedAt);
        s := s.(ending := ByStop);
      } else {
        s := RunTurn(s, turns, used, deadline, pingInterval, startedAt);
        used := used + 1;
      }
    }
    LastMessageDecides(s.ending, s.taken, turns, used, deadline);
    if deadline.Some? {
      PromptKeepsDeadline(s, turns, used, deadline.value);
    }
  }

  lemma {:induction false} FreshSession(turns: seq<Turn>, deadline: Option<int>, pingInterval: int, startedAt: int)
    ensures Inv(Session([], [], [], 0, 0, true, false, [], startedAt, Running),
                turns, 0, deadline, pingInterval, startedAt)
  {
  }

  lemma {:induction false} StopKeepsInv(
    s: Session, turns: seq<Turn>, used: nat, deadline: Option<int>, pingInterval: int, startedAt: int)
    requires used < |turns| && Inv(s, turns, used, deadline, pingInterval, startedAt)
    requires s.ending == Running && turns[used].stop
    ensures Inv(s.(ending := ByStop), turns, used, deadline, pingInterval, startedAt)
  {
    hide TooLate, Decode, Size, Spaced, LastPing, UpToTerminal, PumpEnded;
  }

  // ----- the deadline is looked at in idle turns only -----

  /** In every turn a message arrives that does not end the stream, and nothing else
      happens; the clock may show anything. */
  ghost predicate Busy(turns: seq<Turn>) {
    forall k :: 0 <= k < |turns| ==> BusyTurn(turns[k])
  }

  ghost predicate BusyTurn(t: Turn) {
    && !t.stop && !t.stopLate && !t.timedOut && !t.closeSendFails && !t.pingSendFails
    && t.arrived != [] && Continues(t.arrived)
  }

  ghost predicate Continues(messages: seq<Message>) {
    forall i :: 0 <= i < |messages| ==> Meaning(messages[i]).Skip? || Meaning(messages[i]).Yield?
  }

  lemma {:induction false} NothingTerminal(messages: seq<Message>)
    requires Continues(messages)
    ensures UpToTerminal(messages) == messages
  {
    if messages == [] {
    } else {
      NothingTerminal(messages[1..]);
      assert messages == [messages[0]] + messages[1..];
    }
  }

  lemma {:induction false} OpenWhileContinuing(messages: seq<Message>)
    requires Continues(messages)
    ensures Decode(messages).end == Open
  {
    if messages == [] {
    } else {
      OpenWhileContinuing(messages[..|messages| - 1]);
    }
  }

  lemma {:induction false} BusyIsNeverIdle(turns: seq<Turn>)
    requires Busy(turns)
    ensures Continues(Arrived(turns)) && |Arrived(turns)| >= |turns| == TakenCount(turns)
    ensures turns != [] ==> !LastIsIdle(turns)
  {
    if turns == [] {
    } else {
      BusyIsNeverIdle(turns[..|turns| - 1]);
      NothingTerminal(Arrived(turns));
    }
  }

  /** A stream with a message ready at every turn is not ended by any deadline, however
      long it lasts. */
  method OutlivesDeadline(turns: seq<Turn>, deadline: Option<int>, pingInterval: int, startedAt: int)
    returns (s: Session, used: nat)
    requires Busy(turns)
    ensures s.ending.Running? && used == |turns|
  {
    hide Arrived, Sets, TakenCount, LastIsIdle, Decode, Size, UpToTerminal, Closes;
    s, used := IterExecStreamEvents(turns, deadline, pingInterval, startedAt);
    var received := Arrived(turns[..used]);
    BusyIsNeverIdle(turns[..used]);
    NothingTerminal(received);
    assert forall i :: 0 <= i < |s.taken| ==> s.taken[i] == received[i];
    OpenWhileContinuing(s.taken);
  }
}
