/** The stdin side of an interactive exec (docker_rt/aio_server.py): bytes of the Docker
    client pile up in `protocol._message_tail`; `pump_in` forwards them to the PTY and
    stands in for a half-close with one Ctrl-D. */
module ClientStdin {
  import opened Sequences

  /** The slots of the aiohttp protocol the pump looks at.  `clearable` says whether
      `_message_tail` can be assigned. */
  class ClientProtocol {
    var tail: Bytes
    var eof: bool
    const clearable: bool

    constructor (clearable: bool)
      ensures tail == [] && !eof && this.clearable == clearable
    {
      tail, eof, this.clearable := [], false, clearable;
    }

    /** The network side: bytes, then possibly the FIN.  Nothing follows a FIN. */
    method Receive(bytes: Bytes, fin: bool)
      modifies this
      ensures tail == (if old(eof) then old(tail) else old(tail) + bytes) && eof == (old(eof) || fin)
    {
      if !eof {
        tail := tail + bytes;
        eof := fin;
      }
    }

    /** `_take_client_stdin`: a tail that cannot be cleared is never handed out. */
    method TakeClientStdin() returns (data: Bytes)
      modifies this
      ensures eof == old(eof)
      ensures if clearable then data == old(tail) && tail == [] else data == [] && tail == old(tail)
    {
      if tail == [] || !clearable {
        return [];
      }
      data := tail;
      tail := [];
    }
  }

  /** What happens before one iteration of `pump_in`, and whether its send raises. */
  datatype Turn = Turn(bytes: Bytes, fin: bool, over: bool, sendFails: bool)

  datatype Packet = Data(bytes: Bytes) | CtrlD

  /** The pump and the slots it shares with the network: `sent` are the packets whose
      send succeeded, `over` the end of the session, `broken` a failed send of data. */
  datatype Pump = Pump(tail: Bytes, eof: bool, sent: seq<Packet>, eofSent: bool, over: bool, broken: bool)

  function Start(tail: Bytes, eof: bool): Pump { Pump(tail, eof, [], false, false, false) }

  function Receive(p: Pump, turn: Turn): Pump {
    if p.eof then p else p.(tail := p.tail + turn.bytes, eof := turn.fin)
  }

  /** One iteration, with the network input that precedes it. */
  function Iterate(clearable: bool, p: Pump, turn: Turn): Pump {
    Act(clearable, Receive(p, turn), turn)
  }

  function Act(clearable: bool, q: Pump, turn: Turn): Pump {
    if turn.over then q.(over := true)
    else if q.tail != [] && clearable then
      if turn.sendFails then q.(tail := [], over := true, broken := true)
      else q.(tail := [], sent := q.sent + [Data(q.tail)])
    else if !q.eofSent && q.eof then
      q.(eofSent := true, sent := if turn.sendFails then q.sent else q.sent + [CtrlD])
    else q
  }

  function After(clearable: bool, start: Pump, turns: seq<Turn>): Pump {
    if turns == [] then start
    else
      var p := After(clearable, start, turns[..|turns| - 1]);
      if p.over then p else Iterate(clearable, p, turns[|turns| - 1])
  }

  /** `pump_in` under an arbitrary schedule. */
  method PumpIn(protocol: ClientProtocol, turns: seq<Turn>)
    returns (sent: seq<Packet>, eofSent: bool, over: bool, ghost broken: bool)
    modifies protocol
    ensures Pump(protocol.tail, protocol.eof, sent, eofSent, over, broken)
         == After(protocol.clearable, Start(old(protocol.tail), old(protocol.eof)), turns)
  {
    ghost var start := Start(protocol.tail, protocol.eof);
    sent, eofSent, over, broken := [], false, false, false;
    var i := 0;
    while i < |turns| && !over
      invariant 0 <= i <= |turns|
      invariant Pump(protocol.tail, protocol.eof, sent, eofSent, over, broken)
             == After(protocol.clearable, start, turns[..i])
    {
      var turn := turns[i];
      assert turns[..i + 1][..i] == turns[..i];
      i := i + 1;
      protocol.Receive(turn.bytes, turn.fin);
      if turn.over {
        over := true;
        continue;
      }
      var data := protocol.TakeClientStdin();
      if data != [] {
        if turn.sendFails {
          over, broken := true, true;
        } else {
          sent := sent + [Data(data)];
        }
        continue;
      }
      if !eofSent && protocol.eof {
        eofSent := true;
        if !turn.sendFails {
          sent := sent + [CtrlD];
        }
      }
    }
    OverIsFinal(protocol.clearable, start, turns, i);
  }

  lemma {:induction false} OverIsFinal(clearable: bool, start: Pump, turns: seq<Turn>, i: nat)
    requires i <= |turns| && (i == |turns| || After(clearable, start, turns[..i]).over)
    ensures After(clearable, start, turns) == After(clearable, start, turns[..i])
    decreases |turns|
  {
    if i == |turns| {
      assert turns[..i] == turns;
    } else {
      var init := turns[..|turns| - 1];
      assert init[..i] == turns[..i];
      OverIsFinal(clearable, start, init, i);
    }
  }

  // ----- what the client sent -----

  datatype Input = Input(bytes: Bytes, eof: bool)

  /** Everything the client has sent while the session lasted: the FIN ends it. */
  function Received(clearable: bool, start: Pump, turns: seq<Turn>): Input {
    if turns == [] then Input(start.tail, start.eof)
    else
      var init, turn := turns[..|turns| - 1], turns[|turns| - 1];
      var before := Received(clearable, start, init);
      if before.eof || After(clearable, start, init).over then before
      else Input(before.bytes + turn.bytes, turn.fin)
  }

  function Forwarded(packets: seq<Packet>): Bytes {
    if packets == [] then []
    else
      var before, last := Forwarded(packets[..|packets| - 1]), packets[|packets| - 1];
      if last.Data? then before + last.bytes else before
  }

  lemma {:induction false} ForwardedSnoc(packets: seq<Packet>, p: Packet)
    ensures Forwarded(packets + [p]) == if p.Data? then Forwarded(packets) + p.bytes else Forwarded(packets)
  {
    assert (packets + [p])[..|packets|] == packets;
  }

  ghost predicate Inv(clearable: bool, p: Pump, input: Input) {
    && p.eof == input.eof
    && (p.broken ==> p.over && Forwarded(p.sent) <= input.bytes)
    && (!p.broken ==> Forwarded(p.sent) + p.tail == input.bytes)
    && (!clearable ==> Forwarded(p.sent) == [])
    && (forall i :: 0 <= i < |p.sent| && p.sent[i].CtrlD? ==> i == |p.sent| - 1 && p.eofSent)
    && (p.eofSent ==> p.eof && (clearable ==> p.tail == [] && !p.broken))
  }

  lemma {:induction false} ReceiveKeepsInv(clearable: bool, p: Pump, input: Input, turn: Turn)
    requires Inv(clearable, p, input) && !p.over
    ensures Inv(clearable, Receive(p, turn), if input.eof then input else Input(input.bytes + turn.bytes, turn.fin))
  {
    assert Forwarded(p.sent) + (p.tail + turn.bytes) == (Forwarded(p.sent) + p.tail) + turn.bytes;
  }

  lemma {:induction false} ReceiveKeepsOver(p: Pump, turn: Turn)
    ensures Receive(p, turn).over == p.over
  {
  }

  lemma {:induction false} ActKeepsInv(clearable: bool, q: Pump, input: Input, turn: Turn)
    requires Inv(clearable, q, input) && !q.over
    ensures Inv(clearable, Act(clearable, q, turn), input)
  {
    hide Forwarded;
    ForwardedSnoc(q.sent, Data(q.tail));
    ForwardedSnoc(q.sent, CtrlD);
    assert Forwarded(q.sent) + q.tail + [] == Forwarded(q.sent) + q.tail;
  }

  lemma {:induction false} IterateKeepsInv(clearable: bool, p: Pump, input: Input, turn: Turn)
    requires Inv(clearable, p, input) && !p.over
    ensures Inv(clearable, Iterate(clearable, p, turn),
                if input.eof then input else Input(input.bytes + turn.bytes, turn.fin))
  {
    hide Receive, Act;
    ReceiveKeepsInv(clearable, p, input, turn);
    ReceiveKeepsOver(p, turn);
    var input' := if input.eof then input else Input(input.bytes + turn.bytes, turn.fin);
    ActKeepsInv(clearable, Receive(p, turn), input', turn);
  }

  lemma {:induction false} AfterKeepsInv(clearable: bool, tail: Bytes, eof: bool, turns: seq<Turn>)
    ensures Inv(clearable, After(clearable, Start(tail, eof), turns), Received(clearable, Start(tail, eof), turns))
  {
    if turns == [] {
      assert Forwarded([]) + tail == tail;
    } else {
      var init := turns[..|turns| - 1];
      AfterKeepsInv(clearable, tail, eof, init);
      var p := After(clearable, Start(tail, eof), init);
      if !p.over {
        IterateKeepsInv(clearable, p, Received(clearable, Start(tail, eof), init), turns[|turns| - 1]);
      }
    }
  }

  // ----- what every schedule guarantees -----

  /** The PTY gets a prefix of the client's stdin, in order, and at most one Ctrl-D, as
      its last packet and only after the half-close. */
  lemma {:induction false} StdinIsForwardedInOrder(clearable: bool, tail: Bytes, eof: bool, turns: seq<Turn>)
    ensures var p := After(clearable, Start(tail, eof), turns);
            var input := Received(clearable, Start(tail, eof), turns);
            && Forwarded(p.sent) <= input.bytes
            && (forall i :: 0 <= i < |p.sent| && p.sent[i].CtrlD? ==> i == |p.sent| - 1 && input.eof)
  {
    AfterKeepsInv(clearable, tail, eof, turns);
    var p := After(clearable, Start(tail, eof), turns);
    assert Forwarded(p.sent) <= Forwarded(p.sent) + p.tail;
  }

  /** Nothing is left waiting: after any turn that does not end the session, every byte
      received has been forwarded, if the tail can be cleared. */
  lemma {:induction false} NothingIsPending(tail: Bytes, eof: bool, turns: seq<Turn>)
    requires turns != [] && !After(true, Start(tail, eof), turns).over
    ensures var p := After(true, Start(tail, eof), turns);
            p.tail == [] && Forwarded(p.sent) == Received(true, Start(tail, eof), turns).bytes
  {
    hide Forwarded, Received;
    AfterKeepsInv(true, tail, eof, turns);
    var p := After(true, Start(tail, eof), turns);
    assert p.tail == [];
    assert Forwarded(p.sent) + [] == Forwarded(p.sent);
  }

  /** The session is over exactly when it was ended elsewhere or a send of data failed. */
  lemma {:induction false} EndsOnlyForAReason(clearable: bool, start: Pump, turns: seq<Turn>)
    requires !start.over && !start.broken
    ensures var p := After(clearable, start, turns);
            && (p.over <==> p.broken || exists k :: 0 <= k < |turns| && turns[k].over)
            && (p.broken ==> clearable && exists k :: 0 <= k < |turns| && turns[k].sendFails)
  {
    if turns == [] {
    } else {
      var init := turns[..|turns| - 1];
      EndsOnlyForAReason(clearable, start, init);
      assert forall k :: 0 <= k < |init| ==> init[k] == turns[k];
    }
  }

  function InputsOf(turns: seq<Turn>): seq<Bytes> {
    seq(|turns|, i requires 0 <= i < |turns| => turns[i].bytes)
  }

  /** The client half-closes in turn n - 1, or n is the number of turns. */
  ghost predicate ClosesAt(turns: seq<Turn>, n: nat) {
    && n <= |turns|
    && (forall k :: 0 <= k < n - 1 ==> !turns[k].fin)
    && (n < |turns| ==> n > 0 && turns[n - 1].fin)
  }

  ghost predicate Undisturbed(turns: seq<Turn>) {
    forall k :: 0 <= k < |turns| ==> !turns[k].over && !turns[k].sendFails
  }

  /** In an undisturbed session the PTY has got, after every turn, all that the client sent
      up to its half-close; and Ctrl-D has gone out if and only if there was a turn after the
      half-close, or with it, that had nothing to forward. */
  lemma {:induction false} EverythingArrives(tail: Bytes, turns: seq<Turn>, n: nat)
    requires turns != [] && Undisturbed(turns) && ClosesAt(turns, n)
    ensures var sent := After(true, Start(tail, false), turns).sent;
            && Forwarded(sent) == tail + Flatten(InputsOf(turns[..n]))
            && (CtrlD in sent <==> n > 0 && turns[n - 1].fin
                                   && (n < |turns| || (turns[n - 1].bytes == [] && (n > 1 || tail == []))))
  {
    hide Forwarded, Flatten, After;
    SessionIsSteady(tail, turns, n);
    var sent := After(true, Start(tail, false), turns).sent;
    assert Forwarded(sent) + [] == Forwarded(sent);
  }

  /** One undisturbed iteration, after the network input: everything waiting goes out, or
      else Ctrl-D if the client has closed its side. */
  lemma {:induction false} ActDelivers(q: Pump, turn: Turn)
    requires !q.over && !turn.over && !turn.sendFails && (q.eofSent <==> CtrlD in q.sent)
    ensures var r := Act(true, q, turn);
            && !r.over && r.eof == q.eof && r.tail == [] && Forwarded(r.sent) == Forwarded(q.sent) + q.tail
            && (r.eofSent <==> CtrlD in r.sent) && (r.eofSent <==> q.eofSent || (q.tail == [] && q.eof))
  {
    hide Forwarded;
    ForwardedSnoc(q.sent, Data(q.tail));
    ForwardedSnoc(q.sent, CtrlD);
    assert Forwarded(q.sent) + [] == Forwarded(q.sent);
  }

  /** The pump has got these bytes from the client, of which some wait; it knows of the
      half-close, and has sent Ctrl-D when it was due. */
  ghost predicate Steady(p: Pump, got: Bytes, waiting: Bytes, closed: bool, due: bool) {
    && !p.over && (p.eof <==> closed)
    && p.tail == waiting && Forwarded(p.sent) + waiting == got
    && (p.eofSent <==> CtrlD in p.sent) && (p.eofSent <==> due)
  }

  lemma {:induction false} SteadyStep(p: Pump, turn: Turn, got: Bytes, waiting: Bytes, closed: bool, due: bool)
    requires Steady(p, got, waiting, closed, due) && !turn.over && !turn.sendFails
    ensures var bytes := if closed then [] else turn.bytes;
            var closed' := closed || turn.fin;
            Steady(Iterate(true, p, turn), got + bytes, [], closed', due || (closed' && waiting + bytes == []))
  {
    hide Forwarded, Act;
    var q := Receive(p, turn);
    ActDelivers(q, turn);
    if closed {
      assert got + [] == got && waiting + [] == waiting;
    } else {
      ConcatAssoc(Forwarded(p.sent), waiting, turn.bytes);
    }
    var sent := Forwarded(Act(true, q, turn).sent);
    assert sent + [] == sent;
  }

  lemma {:induction false} InputsSnoc(turns: seq<Turn>, turn: Turn)
    ensures Flatten(InputsOf(turns + [turn])) == Flatten(InputsOf(turns)) + turn.bytes
  {
    assert InputsOf(turns + [turn]) == InputsOf(turns) + [turn.bytes];
    FlattenSnoc(InputsOf(turns), turn.bytes);
  }

  /** Whether the client has half-closed. */
  ghost predicate Closed(turns: seq<Turn>, n: nat)
    requires n <= |turns|
  {
    n > 0 && turns[n - 1].fin
  }

  /** Whether a turn after the half-close, or with it, had nothing to forward. */
  ghost predicate CtrlDDue(tail: Bytes, turns: seq<Turn>, n: nat)
    requires n <= |turns|
  {
    Closed(turns, n) && (n < |turns| || (turns[n - 1].bytes == [] && (n > 1 || tail == [])))
  }

  /** How the half-close and Ctrl-D progress with one more turn. */
  lemma {:induction false} OneMoreTurn(tail: Bytes, init: seq<Turn>, turn: Turn, n: nat)
    requires ClosesAt(init + [turn], n)
    ensures var turns := init + [turn];
            var n' := if n == |turns| then |init| else n;
            var waiting := if init == [] then tail else [];
            && ClosesAt(init, n') && (n == |turns| <==> !Closed(init, n'))
            && (Closed(turns, n) <==> Closed(init, n') || turn.fin)
            && (CtrlDDue(tail, turns, n) <==>
                  CtrlDDue(tail, init, n')
                  || (Closed(turns, n) && waiting + (if Closed(init, n') then [] else turn.bytes) == []))
  {
    var turns := init + [turn];
    assert forall k :: 0 <= k < |init| ==> turns[k] == init[k];
    var waiting := if init == [] then tail else [];
    assert waiting + turn.bytes == [] <==> waiting == [] && turn.bytes == [];
  }

  lemma {:induction false} SessionIsSteady(tail: Bytes, turns: seq<Turn>, n: nat)
    requires Undisturbed(turns) && ClosesAt(turns, n)
    ensures Steady(After(true, Start(tail, false), turns), tail + Flatten(InputsOf(turns[..n])),
                   if turns == [] then tail else [], Closed(turns, n), CtrlDDue(tail, turns, n))
  {
    if turns == [] {
      assert InputsOf(turns[..0]) == [] && tail + [] == tail && [] + tail == tail;
    } else {
      var m := |turns| - 1;
      var init, turn, n' := turns[..m], turns[m], if n == |turns| then m else n;
      assert turns == init + [turn];
      OneMoreTurn(tail, init, turn, n);
      SessionIsSteady(tail, init, n');
      var p := After(true, Start(tail, false), init);
      assert !p.over;
      assert After(true, Start(tail, false), turns) == Iterate(true, p, turn);
      hide Iterate, Flatten, InputsOf, Steady, Closed, CtrlDDue, ClosesAt, After;
      var got := tail + Flatten(InputsOf(init[..n']));
      SteadyStep(p, turn, got, if init == [] then tail else [], Closed(init, n'), CtrlDDue(tail, init, n'));
      if n == |turns| {
        assert init[..m] == init && turns[..n] == turns;
        InputsSnoc(init, turn);
        ConcatAssoc(tail, Flatten(InputsOf(init)), turn.bytes);
      } else {
        assert init[..n] == turns[..n] && got + [] == got;
      }
    }
  }

  /** When Ctrl-D has gone out, all the client's bytes have gone out before it, if and
      only if `_message_tail` can be cleared or the client sent nothing. */
  lemma {:induction false} CtrlDComesAfterAllBytesIff(clearable: bool, tail: Bytes, eof: bool, turns: seq<Turn>)
    ensures var p := After(clearable, Start(tail, eof), turns);
            var input := Received(clearable, Start(tail, eof), turns);
            CtrlD in p.sent ==> (Forwarded(p.sent) == input.bytes <==> clearable || input.bytes == [])
  {
    AfterKeepsInv(clearable, tail, eof, turns);
    var p := After(clearable, Start(tail, eof), turns);
    assert Forwarded(p.sent) + [] == Forwarded(p.sent);
  }

  /** A run in which it goes out before them: the tail cannot be cleared, and the client
      sends one byte and closes its side. */
  lemma {:induction false} CtrlDBeforeLostByte(b: byte)
    ensures var turns := [Turn([b], true, false, false)];
            && After(false, Start([], false), turns).sent == [CtrlD]
            && Received(false, Start([], false), turns) == Input([b], true)
  {
  }

  /** Two iterations after the half-close the Ctrl-D has been tried, unless the session
      ended first: one iteration forwards what is left, the next one stands in for EOF. */
  lemma {:induction false} TwoTurnsDrain(clearable: bool, start: Pump, turns: seq<Turn>)
    requires |turns| >= 2 && !After(clearable, start, turns).over
    requires After(clearable, start, turns[..|turns| - 2]).eof
    ensures After(clearable, start, turns).eofSent
  {
    var n := |turns|;
    assert turns[..n - 1][..n - 2] == turns[..n - 2];
    var p := After(clearable, start, turns[..n - 2]);
    var q := After(clearable, start, turns[..n - 1]);
    assert q == if p.over then p else Iterate(clearable, p, turns[n - 2]);
  }
}
