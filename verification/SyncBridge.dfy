/** `iter_exec_stream` (exec_stream.py): a producer thread hands events through a bounded
    queue to a synchronous generator.  Two loops on two threads interleave at every
    queue operation and every look at the stop flag, so the model is a transition
    system and a run is any sequence of its steps. */
module SyncBridge {
  import opened Sequences

  const QUEUE_SIZE := 64

  /** The tagged entries of the queue. */
  datatype Item<E> = Event(event: E) | Error | End

  /** What the producer puts, in order: `put_event` retries an ordinary entry until it
      fits or the stop flag is up; a terminal entry is tried once. */
  datatype Put<E> = Ordinary(item: Item<E>) | Terminal(item: Item<E>)

  /** The events of the inner stream, then its exception if it has one, then "end";
      if tearing down the event loop raises as well, an error and "end" once more. */
  function Script<E>(produced: seq<E>, fails: bool, teardownFails: bool): seq<Put<E>> {
    EventPuts(produced)
    + (if fails then [Ordinary(Error)] else []) + [Terminal(End)]
    + (if teardownFails then [Ordinary(Error), Terminal(End)] else [])
  }

  function EventPuts<E>(produced: seq<E>): seq<Put<E>> {
    seq(|produced|, i requires 0 <= i < |produced| => Ordinary(Event(produced[i])))
  }

  /** Where the consumer is.  `at` is how far the producer was when the last poll came
      back empty; `stopped` is the stop flag when the loop was left. */
  datatype Consumer =
    | Getting | CheckingThread(at: nat)
    | EndTaken(stopped: bool) | RaisedError | ThreadDead(stopped: bool, at: nat) | Abandoned

  datatype State<E> = State(
    pc: nat,                 // next entry of the script
    trying: bool,            // the stop flag was seen down; now blocked in put
    queue: seq<Item<E>>,
    stop: bool,
    consumer: Consumer,
    yielded: seq<E>)

  datatype Action =
    | CheckStop              // the producer looks at the stop flag
    | PutSucceeds            // its put returns
    | PutTimesOut            // its put raises Full
    | SetStop                // the caller's stop event
    | Get                    // the consumer takes an entry
    | GetTimesOut            // its get raises Empty
    | CheckThread            // it asks whether the thread is alive
    | Abandon                // the caller closes the generator

  predicate Enabled<E(==)>(script: seq<Put<E>>, s: State<E>, a: Action) {
    match a
    case CheckStop => s.pc < |script| && script[s.pc].Ordinary? && !s.trying
    case PutSucceeds => s.pc < |script| && (s.trying || script[s.pc].Terminal?) && |s.queue| < QUEUE_SIZE
    case PutTimesOut => s.pc < |script| && (s.trying || script[s.pc].Terminal?) && |s.queue| >= QUEUE_SIZE
    case SetStop => true
    case Get => s.consumer.Getting? && s.queue != []
    case GetTimesOut => s.consumer.Getting? && s.queue == []
    case CheckThread => s.consumer.CheckingThread?
    case Abandon => s.consumer.Getting?
  }

  function Next<E>(script: seq<Put<E>>, s: State<E>, a: Action): State<E>
    requires Enabled(script, s, a)
  {
    match a
    case CheckStop => if s.stop then s.(pc := s.pc + 1) else s.(trying := true)
    case PutSucceeds => s.(pc := s.pc + 1, trying := false, queue := s.queue + [script[s.pc].item])
    case PutTimesOut => if script[s.pc].Terminal? then s.(pc := s.pc + 1) else s.(trying := false)
    case SetStop => s.(stop := true)
    case Get =>
      var rest := s.(queue := s.queue[1..]);
      (match s.queue[0]
       case Event(e) => rest.(yielded := s.yielded + [e])
       case Error => rest.(consumer := RaisedError, stop := true)
       case End => rest.(consumer := EndTaken(s.stop), stop := true))
    case GetTimesOut => s.(consumer := CheckingThread(s.pc))
    case CheckThread =>
      if s.pc == |script| then s.(consumer := ThreadDead(s.stop, s.consumer.at), stop := true)
      else s.(consumer := Getting)
    case Abandon => s.(consumer := Abandoned, stop := true)
  }

  function Init<E>(): State<E> { State(0, false, [], false, Getting, []) }

  /** The state after a sequence of steps; a step that is not enabled does nothing. */
  function Run<E(==)>(script: seq<Put<E>>, steps: seq<Action>): State<E> {
    if steps == [] then Init()
    else
      var s := Run(script, steps[..|steps| - 1]);
      var a := steps[|steps| - 1];
      if Enabled(script, s, a) then Next(script, s, a) else s
  }

  // ----- the invariant -----

  function Events<E>(items: seq<Item<E>>): seq<E> {
    if items == [] then []
    else if items[0].Event? then [items[0].event] + Events(items[1..])
    else Events(items[1..])
  }

  lemma {:induction false} EventsCons<E>(e: E, items: seq<Item<E>>)
    ensures Events([Event(e)] + items) == [e] + Events(items)
  {
    assert ([Event(e)] + items)[1..] == items;
  }

  lemma {:induction false} EventsSnoc<E>(items: seq<Item<E>>, x: Item<E>)
    ensures Events(items + [x]) == Events(items) + if x.Event? then [x.event] else []
  {
    if items == [] {
      assert items + [x] == [x];
    } else {
      EventsSnoc(items[1..], x);
      assert (items + [x])[1..] == items[1..] + [x];
    }
  }

  /** Everything handed over so far: yielded, or still in the queue. */
  function Handed<E>(s: State<E>): seq<E> { s.yielded + Events(s.queue) }

  /** Nothing has been dropped. */
  predicate Complete<E>(produced: seq<E>, s: State<E>) { |Handed(s)| == Min(s.pc, |produced|) }

  /** The producer is past an error entry. */
  predicate ErrorPassed(n: nat, fails: bool, teardownFails: bool, pc: nat) {
    (fails && pc > n) || (teardownFails && pc > n + if fails then 2 else 1)
  }

  ghost predicate Inv<E(!new)>(produced: seq<E>, fails: bool, teardownFails: bool, s: State<E>) {
    && s.pc <= |Script(produced, fails, teardownFails)|
    && |s.queue| <= QUEUE_SIZE
    && InOrder(produced, s)
    && EndsLast(produced, fails, teardownFails, s)
    && Polled(produced, s)
    && Outcome(produced, fails, teardownFails, s)
  }

  /** What was handed over is a prefix; an event is dropped only under the stop flag,
      and then no later one is put. */
  ghost predicate InOrder<E(!new)>(produced: seq<E>, s: State<E>) {
    && Handed(s) <= produced && |Handed(s)| <= Min(s.pc, |produced|)
    && (!Complete(produced, s) ==> s.stop && !s.trying)
  }

  ghost predicate OnlyEvents<E>(items: seq<Item<E>>) { forall i :: 0 <= i < |items| ==> items[i].Event? }

  ghost predicate EventsFirst<E>(items: seq<Item<E>>) {
    forall i, j :: 0 <= i < j < |items| && !items[i].Event? ==> !items[j].Event?
  }

  ghost predicate ErrorBeforeEnd<E>(items: seq<Item<E>>) {
    forall i :: 0 <= i < |items| && items[i] == End ==> Error in items[..i]
  }

  ghost predicate EndsLast<E(!new)>(produced: seq<E>, fails: bool, teardownFails: bool, s: State<E>) {
    var n := |produced|;
    // entries other than events come after all events
    && (s.pc <= n ==> OnlyEvents(s.queue))
    && EventsFirst(s.queue)
    // an error is put only after all the events, and before "end"
    && (Error in s.queue ==> |Handed(s)| == n && (fails || teardownFails))
    && (!s.stop && ErrorPassed(n, fails, teardownFails, s.pc) ==> Error in s.queue)
    && (fails && !s.stop ==> ErrorBeforeEnd(s.queue))
  }

  /** Nothing is yielded between an empty poll and the look at the thread. */
  ghost predicate Polled<E(!new)>(produced: seq<E>, s: State<E>) {
    s.consumer.CheckingThread? ==>
      s.consumer.at <= s.pc && (Complete(produced, s) ==> s.yielded == produced[..Min(s.consumer.at, |produced|)])
  }

  /** What each way of ending guarantees. */
  ghost predicate Outcome<E(!new)>(produced: seq<E>, fails: bool, teardownFails: bool, s: State<E>) {
    match s.consumer
    case EndTaken(stopped) => !stopped ==> s.yielded == produced && !fails
    case RaisedError => s.yielded == produced && (fails || teardownFails)
    case ThreadDead(stopped, at) =>
      && s.pc == |Script(produced, fails, teardownFails)|
      && (!stopped ==>
            && Handed(s) == produced && s.yielded == produced[..Min(at, |produced|)]
            && (Error in s.queue <==> fails || teardownFails))
    case _ => true
  }

  lemma {:induction false} ScriptShape<E>(produced: seq<E>, fails: bool, teardownFails: bool, k: nat)
    requires k < |Script(produced, fails, teardownFails)|
    ensures var p := Script(produced, fails, teardownFails)[k]; var n := |produced|;
            && (k < n ==> p == Ordinary(Event(produced[k])))
            && (k >= n ==> p == Ordinary(Error) || p == Terminal(End))
            && (k == n && fails ==> p == Ordinary(Error))
            && (p == Ordinary(Error) <==> k >= n && ErrorPassed(n, fails, teardownFails, k + 1)
                                          && (k == n || k == n + if fails then 2 else 1))
    ensures ErrorPassed(|produced|, fails, teardownFails, k + 1)
            && Script(produced, fails, teardownFails)[k] != Ordinary(Error)
            ==> ErrorPassed(|produced|, fails, teardownFails, k)
  {
  }

  lemma {:induction false} ScriptLength<E>(produced: seq<E>, fails: bool, teardownFails: bool)
    ensures var size := |Script(produced, fails, teardownFails)|;
            size > |produced| && (ErrorPassed(|produced|, fails, teardownFails, size) <==> fails || teardownFails)
  {
  }

  lemma {:induction false} NoEvents<E>(items: seq<Item<E>>)
    requires forall i :: 0 <= i < |items| ==> !items[i].Event?
    ensures Events(items) == []
  {
    if items == [] {
    } else {
      NoEvents(items[1..]);
    }
  }

  // ----- putting an entry into the queue, and taking one -----

  lemma {:induction false} QueueSnoc<E>(items: seq<Item<E>>, x: Item<E>)
    ensures OnlyEvents(items) && x.Event? ==> OnlyEvents(items + [x])
    ensures EventsFirst(items) && (x.Event? ==> OnlyEvents(items)) ==> EventsFirst(items + [x])
    ensures Error in items + [x] <==> Error in items || x == Error
    ensures OnlyEvents(items) ==> Error !in items
  {
  }

  lemma {:induction false} EndSnoc<E>(items: seq<Item<E>>, x: Item<E>)
    requires ErrorBeforeEnd(items) && (x == End ==> Error in items)
    ensures ErrorBeforeEnd(items + [x])
  {
    forall i | 0 <= i < |items + [x]| && (items + [x])[i] == End ensures Error in (items + [x])[..i] {
      assert (items + [x])[..i] == items[..i];
    }
  }

  lemma {:induction false} QueueCons<E>(x: Item<E>, items: seq<Item<E>>)
    ensures OnlyEvents([x] + items) ==> x.Event? && OnlyEvents(items)
    ensures EventsFirst([x] + items) ==> EventsFirst(items)
    ensures EventsFirst([x] + items) && !x.Event? ==> forall i :: 0 <= i < |items| ==> !items[i].Event?
    ensures Error in [x] + items <==> x == Error || Error in items
  {
    var all := [x] + items;
    assert all[0] == x;
    assert forall i :: 0 <= i < |items| ==> items[i] == all[i + 1];
  }

  lemma {:induction false} EndCons<E>(x: Item<E>, items: seq<Item<E>>)
    requires ErrorBeforeEnd([x] + items)
    ensures x != End && (x.Event? ==> ErrorBeforeEnd(items))
  {
    var all := [x] + items;
    assert all[0] == x && all[..0] == [];
    forall i | x.Event? && 0 <= i < |items| && items[i] == End ensures Error in items[..i] {
      assert all[i + 1] == End && all[..i + 1] == [x] + items[..i];
    }
  }

  // ----- the producer's steps -----

  lemma {:induction false} PutEventKeepsInv<E(!new)>(produced: seq<E>, fails: bool, teardownFails: bool, s: State<E>)
    requires Inv(produced, fails, teardownFails, s)
    requires Enabled(Script(produced, fails, teardownFails), s, PutSucceeds) && s.pc < |produced|
    ensures Inv(produced, fails, teardownFails, Next(Script(produced, fails, teardownFails), s, PutSucceeds))
  {
    hide Script, Events, OnlyEvents, EventsFirst, ErrorBeforeEnd;
    var e, script := produced[s.pc], Script(produced, fails, teardownFails);
    ScriptShape(produced, fails, teardownFails, s.pc);
    ScriptLength(produced, fails, teardownFails);
    EventsSnoc(s.queue, Event(e));
    QueueSnoc(s.queue, Event(e));
    if fails && !s.stop { EndSnoc(s.queue, Event(e)); }
    ConcatAssoc(s.yielded, Events(s.queue), [e]);
    assert Handed(Next(script, s, PutSucceeds)) == Handed(s) + [e];
  }

  lemma {:induction false} PutLastKeepsInv<E(!new)>(produced: seq<E>, fails: bool, teardownFails: bool, s: State<E>)
    requires Inv(produced, fails, teardownFails, s)
    requires Enabled(Script(produced, fails, teardownFails), s, PutSucceeds) && s.pc >= |produced|
    ensures Inv(produced, fails, teardownFails, Next(Script(produced, fails, teardownFails), s, PutSucceeds))
  {
    hide Script, Events, OnlyEvents, EventsFirst, ErrorBeforeEnd;
    var script := Script(produced, fails, teardownFails);
    var s', item := Next(script, s, PutSucceeds), script[s.pc].item;
    ScriptShape(produced, fails, teardownFails, s.pc);
    EventsSnoc(s.queue, item);
    QueueSnoc(s.queue, item);
    if fails && !s.stop { EndSnoc(s.queue, item); }
    assert Handed(s') == Handed(s);
  }

  /** The producer goes on without putting anything, or gives up a turn. */
  lemma {:induction false} SkipKeepsInv<E(!new)>(
    produced: seq<E>, fails: bool, teardownFails: bool, s: State<E>, a: Action)
    requires Inv(produced, fails, teardownFails, s) && (a.CheckStop? || a.PutTimesOut?)
    requires Enabled(Script(produced, fails, teardownFails), s, a)
    ensures Inv(produced, fails, teardownFails, Next(Script(produced, fails, teardownFails), s, a))
  {
    hide Script, Events, OnlyEvents, EventsFirst, ErrorBeforeEnd;
    ScriptShape(produced, fails, teardownFails, s.pc);
    assert Handed(Next(Script(produced, fails, teardownFails), s, a)) == Handed(s);
  }

  // ----- the consumer's steps -----

  lemma {:induction false} GetEventKeepsInv<E(!new)>(produced: seq<E>, fails: bool, teardownFails: bool, s: State<E>)
    requires Inv(produced, fails, teardownFails, s)
    requires Enabled(Script(produced, fails, teardownFails), s, Get) && s.queue[0].Event?
    ensures Inv(produced, fails, teardownFails, Next(Script(produced, fails, teardownFails), s, Get))
  {
    hide Script, Events, OnlyEvents, EventsFirst, ErrorBeforeEnd;
    var s', head, rest := Next(Script(produced, fails, teardownFails), s, Get), s.queue[0], s.queue[1..];
    assert s.queue == [head] + rest;
    EventsCons(head.event, rest);
    QueueCons(head, rest);
    if fails && !s.stop { EndCons(head, rest); }
    ConcatAssoc(s.yielded, [head.event], Events(rest));
    assert Handed(s') == Handed(s);
  }

  lemma {:induction false} GetLastKeepsInv<E(!new)>(produced: seq<E>, fails: bool, teardownFails: bool, s: State<E>)
    requires Inv(produced, fails, teardownFails, s)
    requires Enabled(Script(produced, fails, teardownFails), s, Get) && !s.queue[0].Event?
    ensures Inv(produced, fails, teardownFails, Next(Script(produced, fails, teardownFails), s, Get))
  {
    hide Script, Events, OnlyEvents, EventsFirst, ErrorBeforeEnd;
    var s', head, rest := Next(Script(produced, fails, teardownFails), s, Get), s.queue[0], s.queue[1..];
    assert s.queue == [head] + rest;
    QueueCons(head, rest);
    if fails && !s.stop { EndCons(head, rest); }
    NoEvents(rest);
    NoEvents(s.queue);
    assert Handed(s') == Handed(s) == s.yielded;
  }

  lemma {:induction false} PollKeepsInv<E(!new)>(produced: seq<E>, fails: bool, teardownFails: bool, s: State<E>)
    requires Inv(produced, fails, teardownFails, s)
    requires Enabled(Script(produced, fails, teardownFails), s, GetTimesOut)
    ensures Inv(produced, fails, teardownFails, Next(Script(produced, fails, teardownFails), s, GetTimesOut))
  {
    hide Script, OnlyEvents, EventsFirst, ErrorBeforeEnd;
    assert Handed(s) == s.yielded + [] == s.yielded;
    assert s.yielded == produced[..|s.yielded|];
  }

  lemma {:induction false} CheckKeepsInv<E(!new)>(produced: seq<E>, fails: bool, teardownFails: bool, s: State<E>)
    requires Inv(produced, fails, teardownFails, s)
    requires Enabled(Script(produced, fails, teardownFails), s, CheckThread)
    ensures Inv(produced, fails, teardownFails, Next(Script(produced, fails, teardownFails), s, CheckThread))
  {
    hide Script, Events, OnlyEvents, EventsFirst, ErrorBeforeEnd;
    ScriptLength(produced, fails, teardownFails);
    assert Handed(Next(Script(produced, fails, teardownFails), s, CheckThread)) == Handed(s);
  }

  lemma {:induction false} StepKeepsInv<E(!new)>(
    produced: seq<E>, fails: bool, teardownFails: bool, s: State<E>, a: Action)
    requires Inv(produced, fails, teardownFails, s)
    requires Enabled(Script(produced, fails, teardownFails), s, a)
    ensures Inv(produced, fails, teardownFails, Next(Script(produced, fails, teardownFails), s, a))
  {
    hide Inv;
    match a {
      case PutSucceeds =>
        if s.pc < |produced| {
          PutEventKeepsInv(produced, fails, teardownFails, s);
        } else {
          PutLastKeepsInv(produced, fails, teardownFails, s);
        }
      case Get =>
        if s.queue[0].Event? {
          GetEventKeepsInv(produced, fails, teardownFails, s);
        } else {
          GetLastKeepsInv(produced, fails, teardownFails, s);
        }
      case CheckStop =>
        SkipKeepsInv(produced, fails, teardownFails, s, a);
      case PutTimesOut =>
        SkipKeepsInv(produced, fails, teardownFails, s, a);
      case GetTimesOut =>
        PollKeepsInv(produced, fails, teardownFails, s);
      case CheckThread =>
        CheckKeepsInv(produced, fails, teardownFails, s);
      case _ =>
        StopKeepsInv(produced, fails, teardownFails, s, a);
    }
  }

  lemma {:induction false} StopKeepsInv<E(!new)>(
    produced: seq<E>, fails: bool, teardownFails: bool, s: State<E>, a: Action)
    requires Inv(produced, fails, teardownFails, s) && (a.SetStop? || a.Abandon?)
    requires Enabled(Script(produced, fails, teardownFails), s, a)
    ensures Inv(produced, fails, teardownFails, Next(Script(produced, fails, teardownFails), s, a))
  {
    hide Script, Events, OnlyEvents, EventsFirst, ErrorBeforeEnd;
    assert Handed(Next(Script(produced, fails, teardownFails), s, a)) == Handed(s);
  }

  lemma {:induction false} RunKeepsInv<E(!new)>(
    produced: seq<E>, fails: bool, teardownFails: bool, steps: seq<Action>)
    ensures Inv(produced, fails, teardownFails, Run(Script(produced, fails, teardownFails), steps))
  {
    var script := Script(produced, fails, teardownFails);
    if steps == [] {
    } else {
      var before, a := steps[..|steps| - 1], steps[|steps| - 1];
      RunKeepsInv(produced, fails, teardownFails, before);
      if Enabled(script, Run(script, before), a) {
        StepKeepsInv(produced, fails, teardownFails, Run(script, before), a);
      }
    }
  }

  // ----- what every run guarantees -----

  /** The queue stays within its bound, and the events yielded are a prefix, in order,
      of those produced. */
  lemma {:induction false} BoundedAndInOrder<E(!new)>(
    produced: seq<E>, fails: bool, teardownFails: bool, steps: seq<Action>)
    ensures var s := Run(Script(produced, fails, teardownFails), steps);
            |s.queue| <= 64 && s.yielded <= produced
  {
    RunKeepsInv(produced, fails, teardownFails, steps);
    var s := Run(Script(produced, fails, teardownFails), steps);
    assert s.yielded <= Handed(s);
  }

  /** A consumer that takes "end" while the stop flag is down has yielded every event of
      a stream that did not fail; one that raises has yielded every event of one that did. */
  lemma {:induction false} EndMeansEverything<E(!new)>(
    produced: seq<E>, fails: bool, teardownFails: bool, steps: seq<Action>)
    ensures var s := Run(Script(produced, fails, teardownFails), steps);
            && (s.consumer == EndTaken(false) ==> s.yielded == produced && !fails)
            && (s.consumer == RaisedError ==> s.yielded == produced && (fails || teardownFails))
  {
    RunKeepsInv(produced, fails, teardownFails, steps);
  }

  // ----- why the generator ends, and that it can always end well -----

  ghost predicate Over(c: Consumer) { !c.Getting? && !c.CheckingThread? }

  /** The caller closes the generator at step k. */
  ghost predicate AbandonedAt<E(!new)>(script: seq<Put<E>>, steps: seq<Action>, k: int) {
    0 <= k < |steps| && steps[k] == Abandon && Run(script, steps[..k]).consumer.Getting?
  }

  /** The generator is abandoned only by its caller, gives up on the thread only when the
      producer is through its whole script, and goes on after any other empty poll; and
      the stop flag is up if and only if the caller raised it or the generator is over. */
  lemma {:induction false} EndsOnlyForAReason<E(!new)>(script: seq<Put<E>>, steps: seq<Action>)
    ensures var s := Run(script, steps);
            && (s.consumer.Abandoned? ==> exists k :: AbandonedAt(script, steps, k))
            && (s.consumer.ThreadDead? ==> s.pc >= |script|)
            && (s.stop <==> SetStop in steps || Over(s.consumer))
  {
    if steps == [] {
    } else {
      var n, before := |steps| - 1, steps[..|steps| - 1];
      EndsOnlyForAReason(script, before);
      assert steps == before + [steps[n]];
      var s := Run(script, before);
      if s.consumer.Abandoned? {
        var k :| AbandonedAt(script, before, k);
        assert before[..k] == steps[..k];
        assert AbandonedAt(script, steps, k);
      } else if Enabled(script, s, steps[n]) && steps[n].Abandon? {
        assert AbandonedAt(script, steps, n);
      }
    }
  }

  lemma {:induction false} RunSnoc<E(!new)>(script: seq<Put<E>>, steps: seq<Action>, a: Action)
    requires Enabled(script, Run(script, steps), a)
    ensures Run(script, steps + [a]) == Next(script, Run(script, steps), a)
  {
    assert (steps + [a])[..|steps|] == steps;
  }

  /** The generator is waiting for an entry, or about to: the thread still runs. */
  ghost predicate Alive<E>(script: seq<Put<E>>, s: State<E>) {
    s.consumer.Getting? || (s.consumer.CheckingThread? && s.pc < |script|)
  }

  /** The queue was full when "end" was put, so it was dropped; only events are left. */
  ghost predicate EndLost<E>(script: seq<Put<E>>, s: State<E>) { s.pc >= |script| && OnlyEvents(s.queue) }

  /** A step towards the end of the stream. */
  function Forward<E>(script: seq<Put<E>>, s: State<E>): Action
    requires s.consumer.Getting?
  {
    if s.queue != [] then Get
    else if s.pc >= |script| then GetTimesOut
    else if s.trying || script[s.pc].Terminal? then PutSucceeds
    else CheckStop
  }

  lemma {:induction false} ForwardKeepsEnd<E(!new)>(
    produced: seq<E>, fails: bool, teardownFails: bool, s: State<E>)
    requires s.consumer.Getting? && !s.stop && (s.queue != [] || s.pc < |Script(produced, fails, teardownFails)|)
    requires var script := Script(produced, fails, teardownFails); Enabled(script, s, Forward(script, s))
    ensures var script := Script(produced, fails, teardownFails); var s' := Next(script, s, Forward(script, s));
            !Over(s'.consumer) ==> !s'.stop && (EndLost(script, s') <==> EndLost(script, s))
  {
    var script := Script(produced, fails, teardownFails);
    var s' := Next(script, s, Forward(script, s));
    if s.queue != [] {
      assert s.queue == [s.queue[0]] + s.queue[1..];
      QueueCons(s.queue[0], s.queue[1..]);
      assert s.queue[0].Event? && OnlyEvents(s.queue[1..]) ==> OnlyEvents(s.queue);
    } else if s.pc < |script| {
      LastPutIsEnd(produced, fails, teardownFails);
      if s'.pc >= |script| {
        assert s'.queue == [End];
        assert !s'.queue[0].Event?;
      }
    }
  }

  lemma {:induction false} LastPutIsEnd<E>(produced: seq<E>, fails: bool, teardownFails: bool)
    ensures var script := Script(produced, fails, teardownFails);
            script != [] && script[|script| - 1] == Terminal(End)
  {
  }

  /** From every state of every run in which nobody has asked to stop and the generator
      still waits, it can yield everything that is produced.  It then ends by taking "end"
      or raising, if and only if "end" was not dropped, and raises if the stream failed. */
  lemma {:induction false} EverythingIsReachable<E(!new)>(
    produced: seq<E>, fails: bool, teardownFails: bool, steps: seq<Action>) returns (steps': seq<Action>)
    requires var script := Script(produced, fails, teardownFails); var s := Run(script, steps);
             !s.stop && Alive(script, s)
    ensures steps <= steps'
    ensures var script := Script(produced, fails, teardownFails);
            var s, s' := Run(script, steps), Run(script, steps');
            && s'.yielded == produced
            && (EndLost(script, s) ==> s'.consumer.ThreadDead? && !s'.consumer.stopped)
            && (!EndLost(script, s) ==> s'.consumer in {EndTaken(false), RaisedError})
            && (fails ==> s'.consumer == RaisedError)
  {
    var script := Script(produced, fails, teardownFails);
    var s := Run(script, steps);
    hide Run, Script, OnlyEvents;
    if s.consumer.CheckingThread? {
      RunSnoc(script, steps, CheckThread);
      var next := steps + [CheckThread];
      assert steps <= next;
      steps' := Drain(produced, fails, teardownFails, next);
    } else {
      steps' := Drain(produced, fails, teardownFails, steps);
    }
  }

  /** The same from a state in which the generator waits for an entry. */
  lemma {:induction false} Drain<E(!new)>(
    produced: seq<E>, fails: bool, teardownFails: bool, steps: seq<Action>) returns (steps': seq<Action>)
    requires var s := Run(Script(produced, fails, teardownFails), steps); !s.stop && s.consumer.Getting?
    ensures steps <= steps'
    ensures var script := Script(produced, fails, teardownFails);
            var s, s' := Run(script, steps), Run(script, steps');
            && s'.yielded == produced
            && (EndLost(script, s) ==> s'.consumer.ThreadDead? && !s'.consumer.stopped)
            && (!EndLost(script, s) ==> s'.consumer in {EndTaken(false), RaisedError})
            && (fails ==> s'.consumer == RaisedError)
    decreases
      |Script(produced, fails, teardownFails)| - Run(Script(produced, fails, teardownFails), steps).pc,
      |Run(Script(produced, fails, teardownFails), steps).queue|,
      if Run(Script(produced, fails, teardownFails), steps).trying then 0 else 1
  {
    var script := Script(produced, fails, teardownFails);
    var s := Run(script, steps);
    hide Script, Run, Events;
    OutcomeOfRun(produced, fails, teardownFails, steps);
    var a := Forward(script, s);
    RunSnoc(script, steps, a);
    var next := steps + [a];
    if a.GetTimesOut? {
      RunSnoc(script, next, CheckThread);
      steps' := next + [CheckThread];
      OutcomeOfRun(produced, fails, teardownFails, steps');
      ScriptLength(produced, fails, teardownFails);
      assert produced[..|produced|] == produced;
    } else {
      ForwardKeepsEnd(produced, fails, teardownFails, s);
      hide OnlyEvents, EndLost;
      if Over(Run(script, next).consumer) {
        OutcomeOfRun(produced, fails, teardownFails, next);
        steps' := next;
      } else {
        assert steps <= next;
        steps' := Drain(produced, fails, teardownFails, next);
      }
    }
  }

  lemma {:induction false} OutcomeOfRun<E(!new)>(
    produced: seq<E>, fails: bool, teardownFails: bool, steps: seq<Action>)
    ensures var s := Run(Script(produced, fails, teardownFails), steps);
            && s.pc <= |Script(produced, fails, teardownFails)|
            && Outcome(produced, fails, teardownFails, s)
  {
    RunKeepsInv(produced, fails, teardownFails, steps);
  }

  /** When "end" has been dropped, no continuation takes it or raises. */
  lemma {:induction false} LostEndIsNeverTaken<E(!new)>(script: seq<Put<E>>, steps: seq<Action>, more: seq<Action>)
    requires EndLost(script, Run(script, steps)) && !Over(Run(script, steps).consumer)
    ensures var s := Run(script, steps + more);
            EndLost(script, s) && !s.consumer.EndTaken? && !s.consumer.RaisedError?
  {
    if more == [] {
      assert steps + more == steps;
    } else {
      var init, a := more[..|more| - 1], more[|more| - 1];
      LostEndIsNeverTaken(script, steps, init);
      assert (steps + more)[..|steps + more| - 1] == steps + init;
      var s := Run(script, steps + init);
      if Enabled(script, s, a) && a.Get? {
        assert s.queue == [s.queue[0]] + s.queue[1..];
        QueueCons(s.queue[0], s.queue[1..]);
      }
    }
  }

  /** "End" can be dropped: the producer fills the queue while nobody reads. */
  lemma {:induction false} EndCanBeLost<E(!new)>(produced: seq<E>) returns (steps: seq<Action>)
    requires |produced| == 64
    ensures var script := Script(produced, false, false); var s := Run(script, steps);
            EndLost(script, s) && s.consumer.Getting? && !s.stop && Events(s.queue) == produced
  {
    var script := Script(produced, false, false);
    steps := Fill(produced, 64);
    EventsOfPuts(produced);
    assert produced[..64] == produced;
    assert script[64] == Terminal(End);
    RunSnoc(script, steps, PutTimesOut);
    steps := steps + [PutTimesOut];
  }

  function EventItems<E>(events: seq<E>): seq<Item<E>> {
    seq(|events|, i requires 0 <= i < |events| => Event(events[i]))
  }

  lemma {:induction false} EventsOfPuts<E>(events: seq<E>)
    ensures Events(EventItems(events)) == events
  {
    if events == [] {
    } else {
      EventsOfPuts(events[1..]);
      assert EventItems(events)[1..] == EventItems(events[1..]);
    }
  }

  lemma {:induction false} Fill<E(!new)>(produced: seq<E>, k: nat) returns (steps: seq<Action>)
    requires k <= |produced| == 64
    ensures Run(Script(produced, false, false), steps)
         == State(k, false, EventItems(produced[..k]), false, Getting, [])
  {
    var script := Script(produced, false, false);
    if k == 0 {
      steps := [];
      assert EventItems(produced[..0]) == [];
    } else {
      steps := Fill(produced, k - 1);
      assert script[k - 1] == Ordinary(Event(produced[k - 1]));
      assert |script| == 65;
      hide Script, Run, EventItems;
      RunSnoc(script, steps, CheckStop);
      RunSnoc(script, steps + [CheckStop], PutSucceeds);
      steps := steps + [CheckStop] + [PutSucceeds];
      assert EventItems(produced[..k]) == EventItems(produced[..k - 1]) + [Event(produced[k - 1])];
    }
  }

  // ----- what the stop flag does to the producer -----

  /** Once the stop flag is up, at most the put that is under way still hands over an
      event; nothing else does, in any continuation. */
  lemma {:induction false} StopEndsHanding<E(!new)>(
    produced: seq<E>, fails: bool, teardownFails: bool, steps: seq<Action>, more: seq<Action>)
    requires Run(Script(produced, fails, teardownFails), steps).stop
    ensures var script := Script(produced, fails, teardownFails);
            var s, s' := Run(script, steps), Run(script, steps + more);
            && s'.stop && (s'.trying ==> s.trying && s'.pc == s.pc)
            && |Handed(s')| <= |Handed(s)| + (if s.trying && !s'.trying then 1 else 0)
  {
    var script := Script(produced, fails, teardownFails);
    if more == [] {
      assert steps + more == steps;
    } else {
      var init, a := more[..|more| - 1], more[|more| - 1];
      StopEndsHanding(produced, fails, teardownFails, steps, init);
      assert (steps + more)[..|steps + more| - 1] == steps + init;
      TriesOrdinary(script, steps + init);
      var s := Run(script, steps + init);
      if Enabled(script, s, a) {
        StoppedStep(produced, fails, teardownFails, s, a);
      }
    }
  }

  /** Only an ordinary entry is put after a look at the stop flag. */
  ghost predicate Tries<E>(script: seq<Put<E>>, s: State<E>) {
    s.trying ==> s.pc < |script| && script[s.pc].Ordinary?
  }

  lemma {:induction false} TriesOrdinary<E(!new)>(script: seq<Put<E>>, steps: seq<Action>)
    ensures Tries(script, Run(script, steps))
  {
    if steps == [] {
    } else {
      TriesOrdinary(script, steps[..|steps| - 1]);
    }
  }

  lemma {:induction false} StoppedStep<E(!new)>(
    produced: seq<E>, fails: bool, teardownFails: bool, s: State<E>, a: Action)
    requires s.stop && Enabled(Script(produced, fails, teardownFails), s, a)
    requires Tries(Script(produced, fails, teardownFails), s)
    ensures var s' := Next(Script(produced, fails, teardownFails), s, a);
            && s'.stop && (s'.trying ==> s.trying && s'.pc == s.pc)
            && |Handed(s')| <= |Handed(s)| + (if s.trying && !s'.trying then 1 else 0)
  {
    var script := Script(produced, fails, teardownFails);
    if a.PutSucceeds? {
      ScriptShape(produced, fails, teardownFails, s.pc);
      EventsSnoc(s.queue, script[s.pc].item);
    } else if a.Get? {
      assert s.queue == [s.queue[0]] + s.queue[1..];
    }
  }

  /** And the producer can always finish on its own, even if nobody reads any more. */
  lemma {:induction false} StoppedProducerFinishes<E(!new)>(
    produced: seq<E>, fails: bool, teardownFails: bool, steps: seq<Action>) returns (steps': seq<Action>)
    requires Run(Script(produced, fails, teardownFails), steps).stop
    ensures steps <= steps'
    ensures forall k :: |steps| <= k < |steps'| ==> steps'[k] in {CheckStop, PutSucceeds, PutTimesOut}
    ensures Run(Script(produced, fails, teardownFails), steps').pc == |Script(produced, fails, teardownFails)|
    decreases
      |Script(produced, fails, teardownFails)| - Run(Script(produced, fails, teardownFails), steps).pc,
      if Run(Script(produced, fails, teardownFails), steps).trying then 1 else 0
  {
    var script := Script(produced, fails, teardownFails);
    var s := Run(script, steps);
    OutcomeOfRun(produced, fails, teardownFails, steps);
    if s.pc == |script| {
      steps' := steps;
    } else {
      var a := if !s.trying && script[s.pc].Ordinary? then CheckStop
               else if |s.queue| < QUEUE_SIZE then PutSucceeds
               else PutTimesOut;
      hide Script, Run;
      RunSnoc(script, steps, a);
      var next := steps + [a];
      assert steps <= next && next[|steps|] == a;
      steps' := StoppedProducerFinishes(produced, fails, teardownFails, next);
      forall k | |steps| <= k < |steps'| ensures steps'[k] in {CheckStop, PutSucceeds, PutTimesOut} {
        assert k == |steps| ==> steps'[k] == next[k];
      }
    }
  }

  /** The schedule behind `at`: the last poll, which came back empty. */
  lemma {:induction false} LastPoll<E>(script: seq<Put<E>>, steps: seq<Action>) returns (k: nat)
    requires PastPoll(Run(script, steps))
    ensures IsLastPoll(script, steps, k) && Run(script, steps[..k]).pc == Run(script, steps).consumer.at
  {
    hide Next, Enabled;
    var before := steps[..|steps| - 1];
    var s, a := Run(script, before), steps[|steps| - 1];
    if PastPoll(s) {
      k := LastPoll(script, before);
      assert before[..k] == steps[..k];
      if Enabled(script, s, a) { StaysPastPoll(script, s, a); }
      forall j | k < j <= |steps| ensures PastPoll(Run(script, steps[..j])) {
        assert j < |steps| ==> before[..j] == steps[..j];
        assert j == |steps| ==> steps[..j] == steps;
      }
    } else {
      k := |steps| - 1;
      OnlyPollsPass(script, s, a);
      assert steps[..|steps|] == steps;
    }
  }

  predicate PastPoll<E>(s: State<E>) { s.consumer.CheckingThread? || s.consumer.ThreadDead? }

  /** Step k is an empty poll, and the consumer does not poll again. */
  ghost predicate IsLastPoll<E>(script: seq<Put<E>>, steps: seq<Action>, k: nat) {
    && k < |steps| && steps[k] == GetTimesOut && Enabled(script, Run(script, steps[..k]), GetTimesOut)
    && (forall j :: k < j <= |steps| ==> PastPoll(Run(script, steps[..j])))
  }

  lemma {:induction false} StaysPastPoll<E>(script: seq<Put<E>>, s: State<E>, a: Action)
    requires PastPoll(s) && Enabled(script, s, a) && PastPoll(Next(script, s, a))
    ensures Next(script, s, a).consumer.at == s.consumer.at
  {
  }

  lemma {:induction false} OnlyPollsPass<E>(script: seq<Put<E>>, s: State<E>, a: Action)
    requires !PastPoll(s) && Enabled(script, s, a) && PastPoll(Next(script, s, a))
    ensures a == GetTimesOut && Next(script, s, a).consumer.at == s.pc
  {
  }

  /** A consumer that stops because the thread is dead ends without an exception, and:
      it has yielded exactly the events put before its last poll, so all of them if and
      only if every event was put before that poll came back empty; and an exception is
      left in the queue, never to be raised, if and only if there was one. */
  lemma {:induction false} DeadThreadLosesLatePuts<E(!new)>(
    produced: seq<E>, fails: bool, teardownFails: bool, steps: seq<Action>) returns (k: nat)
    requires var s := Run(Script(produced, fails, teardownFails), steps);
             s.consumer.ThreadDead? && !s.consumer.stopped
    ensures IsLastPoll(Script(produced, fails, teardownFails), steps, k)
    ensures var script := Script(produced, fails, teardownFails);
            var s, polled := Run(script, steps), Run(script, steps[..k]);
            && s.yielded == produced[..Min(polled.pc, |produced|)]
            && (s.yielded == produced <==> polled.pc >= |produced|)
            && (Error in s.queue <==> fails || teardownFails)
  {
    hide Script, Run, Events;
    RunKeepsInv(produced, fails, teardownFails, steps);
    k := LastPoll(Script(produced, fails, teardownFails), steps);
  }

  ghost predicate Reachable<E(!new)>(script: seq<Put<E>>, s: State<E>) { exists steps :: Run(script, steps) == s }

  lemma {:induction false} ReachableNext<E(!new)>(script: seq<Put<E>>, s: State<E>, a: Action, s': State<E>)
    requires Reachable(script, s) && Enabled(script, s, a) && s' == Next(script, s, a)
    ensures Reachable(script, s')
  {
    var steps :| Run(script, steps) == s;
    assert (steps + [a])[..|steps|] == steps;
    assert Run(script, steps + [a]) == s';
  }

  /** Such a loss happens when the producer finishes between the empty poll and the look
      at the thread: the generator then ends normally although the only event was never
      yielded and the stream failed. */
  lemma {:induction false} LateFinishIsLost<E(!new)>(e: E) returns (s: State<E>)
    ensures Reachable(Script([e], true, false), s)
    ensures s.consumer == ThreadDead(false, 0) && s.yielded == [] && s.queue == [Event(e), Error, End]
  {
    var script := Script([e], true, false);
    assert script == [Ordinary(Event(e)), Ordinary(Error), Terminal(End)];
    assert Run(script, []) == Init();
    var steps := [GetTimesOut, CheckStop, PutSucceeds, CheckStop, PutSucceeds, PutSucceeds, CheckThread];
    s := Init();
    var i := 0;
    while i < |steps|
      invariant 0 <= i <= |steps| && Reachable(script, s)
      invariant s == LateFinish(e)[i]
    {
      var s' := Next(script, s, steps[i]);
      ReachableNext(script, s, steps[i], s');
      s, i := s', i + 1;
    }
  }

  /** The states of that run. */
  function LateFinish<E>(e: E): (r: seq<State<E>>)
    ensures |r| == 8
  {
    var q1, q2, q3 := [Event(e)], [Event(e), Error], [Event(e), Error, End];
    [Init(),
     State(0, false, [], false, CheckingThread(0), []),
     State(0, true, [], false, CheckingThread(0), []),
     State(1, false, q1, false, CheckingThread(0), []),
     State(1, true, q1, false, CheckingThread(0), []),
     State(2, false, q2, false, CheckingThread(0), []),
     State(3, false, q3, false, CheckingThread(0), []),
     State(3, false, q3, true, ThreadDead(false, 0), [])]
  }
}
