/** The end-marker filter of the `docker exec` bridge: `_marker_holdback`,
    `_filter_stderr` and its PTY twin `_strip_marker`
    (docker_rt/aio_server.py).  The filter sees a byte stream cut into arbitrary
    frames.  Each call removes the first occurrence of the marker from what it has
    buffered, together with the newlines after it, and does not search the rest of that
    frame again; it may hold back only bytes that could still turn out to be the start
    of the marker. */
module MarkerFilter {
  import opened Sequences

  const CR: byte := 13
  const LF: byte := 10

  predicate IsNewline(b: byte) { b == CR || b == LF }

  /** `lstrip(b"\r\n")`. */
  function StripNewlines(s: Bytes): Bytes {
    if s != [] && IsNewline(s[0]) then StripNewlines(s[1..]) else s
  }

  /** It takes away the carriage returns and line feeds at the beginning, and no more. */
  lemma {:induction false} StripNewlinesKeepsSuffix(s: Bytes) returns (n: nat)
    ensures n <= |s| && StripNewlines(s) == s[n..]
    ensures forall k :: 0 <= k < n ==> s[k] == 13 || s[k] == 10
    ensures n < |s| ==> s[n] != 13 && s[n] != 10
  {
    if s != [] && IsNewline(s[0]) {
      var m := StripNewlinesKeepsSuffix(s[1..]);
      n := m + 1;
      forall k | 0 <= k < n ensures s[k] == 13 || s[k] == 10 {
        if k > 0 { assert s[k] == s[1..][k - 1]; }
      }
    } else {
      n := 0;
    }
  }

  // ----- the holdback -----

  /** The last k bytes of s are the first k bytes of the marker. */
  predicate Overlap(s: Bytes, marker: Bytes, k: int) {
    0 <= k <= |s| && k <= |marker| && s[|s| - k..] == marker[..k]
  }

  /** h is the length of the longest suffix of s that is a proper prefix of the marker. */
  ghost predicate LongestOverlap(s: Bytes, marker: Bytes, h: int) {
    && Overlap(s, marker, h)
    && (marker == [] || h < |marker|)
    && forall k :: h < k < |marker| ==> !Overlap(s, marker, k)
  }

  function Holdback(s: Bytes, marker: Bytes): (h: nat)
    ensures LongestOverlap(s, marker, h)
  {
    if marker == [] then 0 else HoldbackFrom(s, marker, |marker| - 1)
  }

  function HoldbackFrom(s: Bytes, marker: Bytes, size: nat): (h: nat)
    requires size < |marker|
    requires forall k :: size < k < |marker| ==> !Overlap(s, marker, k)
    ensures LongestOverlap(s, marker, h)
  {
    if Overlap(s, marker, size) then size else HoldbackFrom(s, marker, size - 1)
  }

  /** `_marker_holdback`: the downward search over candidate sizes. */
  method MarkerHoldback(buf: Bytes, marker: Bytes) returns (h: nat)
    ensures LongestOverlap(buf, marker, h) && h == Holdback(buf, marker)
  {
    if marker == [] {
      return 0;
    }
    var size := if |marker| - 1 < |buf| then |marker| - 1 else |buf|;
    while size > 0
      invariant 0 <= size < |marker| && size <= |buf|
      invariant forall k :: size < k < |marker| ==> !Overlap(buf, marker, k)
    {
      if buf[|buf| - size..] == marker[..size] {
        LongestOverlapIsUnique(buf, marker, size, Holdback(buf, marker));
        return size;
      }
      size := size - 1;
    }
    LongestOverlapIsUnique(buf, marker, 0, Holdback(buf, marker));
    return 0;
  }

  lemma {:induction false} LongestOverlapIsUnique(s: Bytes, marker: Bytes, h: int, k: int)
    requires LongestOverlap(s, marker, h) && LongestOverlap(s, marker, k)
    ensures h == k
  {
  }

  // ----- one filter call as a function of the state -----

  datatype State = State(held: Bytes, acked: bool)
  datatype Outcome = Outcome(state: State, payload: Bytes)

  function Step(marker: Bytes, st: State, raw: Bytes): Outcome {
    if marker == [] then Outcome(st, raw)
    else
      var buf := st.held + raw;
      match Find(marker, buf)
      case Some(i) => Outcome(State([], true), buf[..i] + StripNewlines(buf[i + |marker|..]))
      case None =>
        var h := Holdback(buf, marker);
        Outcome(State(buf[|buf| - h..], st.acked), buf[..|buf| - h])
  }

  const START := State([], false)

  /** The filter after a list of frames: its state and everything it let through. */
  function After(marker: Bytes, frames: seq<Bytes>): Outcome {
    if frames == [] then Outcome(START, [])
    else
      var before := After(marker, frames[..|frames| - 1]);
      var now := Step(marker, before.state, frames[|frames| - 1]);
      Outcome(now.state, before.payload + now.payload)
  }

  function Sent(marker: Bytes, frames: seq<Bytes>): Bytes { After(marker, frames).payload }
  function Held(marker: Bytes, frames: seq<Bytes>): Bytes { After(marker, frames).state.held }
  function Acked(marker: Bytes, frames: seq<Bytes>): bool { After(marker, frames).state.acked }

  /** What the client has received once the stream has ended and the tail was flushed. */
  function Output(marker: Bytes, frames: seq<Bytes>): Bytes {
    Sent(marker, frames) + Held(marker, frames)
  }

  lemma {:induction false} AfterSnoc(marker: Bytes, frames: seq<Bytes>, raw: Bytes)
    ensures var before := After(marker, frames);
            var now := Step(marker, before.state, raw);
            After(marker, frames + [raw]) == Outcome(now.state, before.payload + now.payload)
  {
    assert (frames + [raw])[..|frames|] == frames;
  }

  /** The mutable filter: `err_buf`/`filter_buf` and `ack_fired`, with the history
      of frames fed and bytes let through kept as ghost state. */
  class StreamFilter {
    const marker: Bytes
    var buf: Bytes
    var ackFired: bool
    ghost var fed: seq<Bytes>
    ghost var sent: Bytes

    ghost predicate Valid()
      reads this
    {
      After(marker, fed) == Outcome(State(buf, ackFired), sent)
    }

    constructor (marker: Bytes)
      ensures Valid() && this.marker == marker && fed == [] && sent == []
    {
      this.marker := marker;
      buf, ackFired, fed, sent := [], false, [], [];
    }

    /** `_filter_stderr` / `_strip_marker`.  `ackNow` says that this very call
        fires the acknowledgement. */
    method Filter(raw: Bytes) returns (payload: Bytes, ackNow: bool)
      requires Valid()
      modifies this
      ensures Valid()
      ensures fed == old(fed) + [raw] && sent == old(sent) + payload
      ensures ackNow <==> !old(ackFired) && ackFired
      ensures old(ackFired) ==> ackFired
    {
      hide After;
      ackNow := false;
      ghost var before := State(buf, ackFired);
      if marker == [] {
        payload := raw;
      } else {
        buf := buf + raw;
        ghost var all := buf;
        var idx := Find(marker, buf);
        if idx.Some? {
          if !ackFired {
            ackFired, ackNow := true, true;
          }
          payload := buf[..idx.value];
          buf := buf[idx.value + |marker|..];
          payload := payload + StripNewlines(buf);
          buf := [];
        } else {
          var hold := MarkerHoldback(buf, marker);
          if |buf| <= hold {
            payload := [];
            assert all[|all| - hold..] == all && all[..|all| - hold] == [];
          } else {
            payload := buf[..|buf| - hold];
            buf := buf[|buf| - hold..];
          }
        }
      }
      assert Step(marker, before, raw) == Outcome(State(buf, ackFired), payload);
      AfterSnoc(marker, fed, raw);
      fed, sent := fed + [raw], sent + payload;
    }

    /** The flush after the stream has ended. */
    method Flush() returns (pending: Bytes)
      requires Valid()
      modifies this
      ensures pending == old(buf) && buf == [] && ackFired == old(ackFired)
      ensures fed == old(fed) && sent == old(sent) + pending
      ensures sent == Output(marker, fed)
    {
      pending := buf;
      buf := [];
      sent := sent + pending;
    }
  }

  // ----- before the marker: nothing is lost, nothing of the marker leaks -----

  ghost predicate HeldOf(marker: Bytes, r: Bytes, held: Bytes) {
    |held| <= |r| && held == r[|r| - |held|..] && LongestOverlap(r, marker, |held|)
  }

  lemma {:induction false} StraddlingOccurrence(marker: Bytes, r: Bytes, x: Bytes, i: int)
    requires OccursAt(marker, r + x, i)
    ensures i + |marker| <= |r| ==> OccursAt(marker, r, i)
    ensures i <= |r| < i + |marker| ==> Overlap(r, marker, |r| - i)
  {
    var s, k := r + x, |r| - i;
    if i + |marker| <= |r| {
      assert s[i..i + |marker|] == r[i..i + |marker|];
    } else if i <= |r| {
      assert r[|r| - k..] == s[i..i + |marker|][..k] == marker[..k];
    }
  }

  /** A marker occurrence in `r + x` that starts inside r and does not end there
      is an overlap of r, so it starts within the held bytes. */
  lemma {:induction false} OccurrenceStartsInHeld(marker: Bytes, r: Bytes, x: Bytes, held: Bytes, i: int)
    requires marker != [] && !Occurs(marker, r) && HeldOf(marker, r, held)
    requires OccursAt(marker, r + x, i)
    ensures OccursAt(marker, held + x, i - (|r| - |held|))
  {
    var s, d := r + x, |r| - |held|;
    StraddlingOccurrence(marker, r, x, i);
    assert (held + x)[i - d..i - d + |marker|] == s[i..i + |marker|];
  }

  lemma {:induction false} OccurrenceInHeldIsReal(marker: Bytes, r: Bytes, x: Bytes, held: Bytes, i: int)
    requires HeldOf(marker, r, held) && OccursAt(marker, held + x, i)
    ensures OccursAt(marker, r + x, |r| - |held| + i)
  {
    var d := |r| - |held|;
    assert (r + x)[d + i..d + i + |marker|] == (held + x)[i..i + |marker|];
  }

  /** An overlap of `r + x` that reaches back into r leaves an overlap of r. */
  lemma {:induction false} OverlapShrinks(marker: Bytes, r: Bytes, x: Bytes, l: nat)
    requires |x| <= l && Overlap(r + x, marker, l)
    ensures Overlap(r, marker, l - |x|)
  {
    var s, m := r + x, l - |x|;
    assert r[|r| - m..] == s[|s| - l..][..m] == marker[..l][..m] == marker[..m];
  }

  /** Searching the held bytes finds exactly what searching everything would find. */
  lemma {:induction false} FirstInHeld(marker: Bytes, r: Bytes, x: Bytes, held: Bytes, i: int)
    requires marker != [] && !Occurs(marker, r) && HeldOf(marker, r, held)
    requires FirstAt(marker, r + x, i)
    ensures FirstAt(marker, held + x, i - (|r| - |held|))
  {
    var d := |r| - |held|;
    OccurrenceStartsInHeld(marker, r, x, held, i);
    forall j | 0 <= j < i - d ensures !OccursAt(marker, held + x, j) {
      if OccursAt(marker, held + x, j) {
        OccurrenceInHeldIsReal(marker, r, x, held, j);
      }
    }
  }

  lemma {:induction false} NoneInHeld(marker: Bytes, r: Bytes, x: Bytes, held: Bytes)
    requires HeldOf(marker, r, held) && !Occurs(marker, r + x)
    ensures !Occurs(marker, held + x)
  {
    forall j | OccursAt(marker, held + x, j) ensures OccursAt(marker, r + x, |r| - |held| + j) {
      OccurrenceInHeldIsReal(marker, r, x, held, j);
    }
  }

  /** The holdback computed on the held bytes is the one of the whole stream. */
  lemma {:induction false} HeldGivesHoldback(marker: Bytes, r: Bytes, x: Bytes, held: Bytes, k: nat)
    requires marker != [] && HeldOf(marker, r, held)
    requires LongestOverlap(held + x, marker, k)
    ensures LongestOverlap(r + x, marker, k)
  {
    var buf, s := held + x, r + x;
    assert s[|s| - k..] == buf[|buf| - k..];
    forall l | k < l < |marker| ensures !Overlap(s, marker, l) {
      assert l <= |buf| ==> s[|s| - l..] == buf[|buf| - l..] && (Overlap(s, marker, l) <==> Overlap(buf, marker, l));
      if Overlap(s, marker, l) && |buf| < l {
        OverlapShrinks(marker, r, x, l);
      }
    }
  }

  lemma {:induction false} StepHolds(marker: Bytes, st: State, raw: Bytes) returns (h: nat)
    requires marker != [] && !Occurs(marker, st.held + raw)
    ensures LongestOverlap(st.held + raw, marker, h)
    ensures var buf := st.held + raw;
            Step(marker, st, raw) == Outcome(State(buf[|buf| - h..], st.acked), buf[..|buf| - h])
  {
    h := Holdback(st.held + raw, marker);
  }

  lemma {:induction false} StepFinds(marker: Bytes, st: State, raw: Bytes, k: nat)
    requires marker != [] && FirstAt(marker, st.held + raw, k)
    ensures var buf := st.held + raw;
            Step(marker, st, raw) == Outcome(State([], true), buf[..k] + StripNewlines(buf[k + |marker|..]))
  {
    FirstIsUnique(marker, st.held + raw, k, Find(marker, st.held + raw).value);
  }

  lemma {:induction false} StepWithoutMarker(marker: Bytes, r: Bytes, before: Outcome, raw: Bytes)
    requires marker != [] && !Occurs(marker, r) && !Occurs(marker, r + raw)
    requires before.payload + before.state.held == r && HeldOf(marker, r, before.state.held)
    ensures var now := Step(marker, before.state, raw);
            && before.payload + now.payload + now.state.held == r + raw
            && LongestOverlap(r + raw, marker, |now.state.held|)
            && now.state.acked == before.state.acked
  {
    hide Step, Holdback, Occurs, OccursAt;
    var held := before.state.held;
    NoneInHeld(marker, r, raw, held);
    var h := StepHolds(marker, before.state, raw);
    HeldGivesHoldback(marker, r, raw, held, h);
    CutIsWhole(before.payload, held, raw, h);
  }

  lemma {:induction false} CutIsWhole(sent: Bytes, held: Bytes, raw: Bytes, h: nat)
    requires h <= |held + raw|
    ensures var buf := held + raw;
            sent + buf[..|buf| - h] + buf[|buf| - h..] == sent + held + raw
  {
    var buf := held + raw;
    assert buf[..|buf| - h] + buf[|buf| - h..] == buf;
  }

  lemma {:induction false} HeldOfStream(marker: Bytes, r: Bytes, o: Outcome)
    requires o.payload + o.state.held == r && LongestOverlap(r, marker, |o.state.held|)
    ensures HeldOf(marker, r, o.state.held)
  {
    assert r[|r| - |o.state.held|..] == o.state.held;
  }

  /** Until the marker has been received: what was sent plus what is held is what
      was received, and what is held is the longest suffix of everything received
      that is a proper prefix of the marker. */
  lemma {:induction false} HeldIsLongestMarkerPrefix(marker: Bytes, frames: seq<Bytes>)
    requires marker != [] && !Occurs(marker, Flatten(frames))
    ensures Sent(marker, frames) + Held(marker, frames) == Flatten(frames)
    ensures LongestOverlap(Flatten(frames), marker, |Held(marker, frames)|)
    ensures |Held(marker, frames)| < |marker|
    ensures !Acked(marker, frames)
  {
    if frames == [] {
    } else {
      var pre, raw := frames[..|frames| - 1], frames[|frames| - 1];
      assert frames == pre + [raw];
      FlattenSnoc(pre, raw);
      var r := Flatten(pre);
      OccursInExtension(marker, r, raw);
      HeldIsLongestMarkerPrefix(marker, pre);
      HeldOfStream(marker, r, After(marker, pre));
      AfterSnoc(marker, pre, raw);
      StepWithoutMarker(marker, r, After(marker, pre), raw);
    }
  }

  // ----- the whole stream, for every framing -----

  /** `pre` is free of the marker and `raw` completes its first occurrence, at i. */
  ghost predicate Completes(marker: Bytes, pre: seq<Bytes>, raw: Bytes, i: int) {
    !Occurs(marker, Flatten(pre)) && FirstAt(marker, Flatten(pre) + raw, i)
  }

  /** A stream around its first marker: the frames before, the frame that completes it,
      where it starts in those, and the later frames. */
  datatype Cut = Cut(pre: seq<Bytes>, raw: Bytes, i: nat, post: seq<Bytes>)

  ghost predicate CutsAtMarker(marker: Bytes, frames: seq<Bytes>, c: Cut) {
    frames == c.pre + [c.raw] + c.post && Completes(marker, c.pre, c.raw, c.i)
  }

  ghost function CutAtMarker(marker: Bytes, frames: seq<Bytes>): (c: Cut)
    requires marker != [] && Occurs(marker, Flatten(frames))
    ensures CutsAtMarker(marker, frames, c)
  {
    var init, raw := frames[..|frames| - 1], frames[|frames| - 1];
    assert frames == init + [raw];
    FlattenSnoc(init, raw);
    if !Occurs(marker, Flatten(init)) then Cut(init, raw, Find(marker, Flatten(init) + raw).value, [])
    else
      var c := CutAtMarker(marker, init);
      assert c.pre + [c.raw] + (c.post + [raw]) == init + [raw];
      c.(post := c.post + [raw])
  }

  /** What comes in frames after the one that completes the first marker. */
  ghost function InLaterFrames(marker: Bytes, frames: seq<Bytes>): Bytes
    requires marker != [] && Occurs(marker, Flatten(frames))
  {
    Flatten(CutAtMarker(marker, frames).post)
  }

  /** Every stream with a marker in it has a frame that completes the first one. */
  lemma {:induction false} SplitAtMarker(marker: Bytes, frames: seq<Bytes>)
    returns (pre: seq<Bytes>, raw: Bytes, post: seq<Bytes>, i: nat)
    requires marker != [] && Occurs(marker, Flatten(frames))
    ensures frames == pre + [raw] + post
    ensures Completes(marker, pre, raw, i)
  {
    var c := CutAtMarker(marker, frames);
    pre, raw, post, i := c.pre, c.raw, c.post, c.i;
  }

  /** Only the acknowledgement depends on whether one has been sent before. */
  lemma {:induction false} StepIgnoresAck(marker: Bytes, held: Bytes, acked: bool, raw: Bytes)
    ensures var now := Step(marker, State(held, acked), raw); var clean := Step(marker, State(held, false), raw);
            && now.payload == clean.payload && now.state.held == clean.state.held
            && now.state.acked == (acked || clean.state.acked)
  {
  }

  /** `whole` continues `pre` as `part` continues the empty stream. */
  ghost predicate Resumes(pre: Outcome, part: Outcome, whole: Outcome) {
    && whole.payload == pre.payload + part.payload
    && whole.state.held == part.state.held
    && whole.state.acked == (pre.state.acked || part.state.acked)
  }

  lemma {:induction false} ResumeStep(marker: Bytes, pre: Outcome, part: Outcome, whole: Outcome, raw: Bytes)
    requires Resumes(pre, part, whole)
    ensures var p := Step(marker, part.state, raw);
            var w := Step(marker, whole.state, raw);
            Resumes(pre, Outcome(p.state, part.payload + p.payload), Outcome(w.state, whole.payload + w.payload))
  {
    StepIgnoresAck(marker, part.state.held, part.state.acked, raw);
    StepIgnoresAck(marker, part.state.held, whole.state.acked, raw);
  }

  /** A filter that holds nothing treats the frames that follow as a new stream. */
  lemma {:induction false} ResumesFresh(marker: Bytes, pre: seq<Bytes>, post: seq<Bytes>)
    requires Held(marker, pre) == []
    ensures Resumes(After(marker, pre), After(marker, post), After(marker, pre + post))
  {
    if post == [] {
      assert pre + post == pre;
      assert Sent(marker, pre) + [] == Sent(marker, pre);
    } else {
      hide After, Step, Resumes;
      var init, raw := post[..|post| - 1], post[|post| - 1];
      assert post == init + [raw] && pre + (init + [raw]) == (pre + init) + [raw];
      ResumesFresh(marker, pre, init);
      AfterSnoc(marker, pre + init, raw);
      AfterSnoc(marker, init, raw);
      ResumeStep(marker, After(marker, pre), After(marker, init), After(marker, pre + init), raw);
    }
  }

  lemma {:induction false} StepWithMarker(marker: Bytes, r: Bytes, before: Outcome, raw: Bytes, i: nat)
    requires marker != [] && !Occurs(marker, r) && FirstAt(marker, r + raw, i)
    requires before.payload + before.state.held == r && HeldOf(marker, r, before.state.held)
    ensures var now := Step(marker, before.state, raw);
            && now.state == State([], true)
            && before.payload + now.payload == (r + raw)[..i] + StripNewlines((r + raw)[i + |marker|..])
  {
    hide Step, After, Holdback;
    var held, s := before.state.held, r + raw;
    FirstInHeld(marker, r, raw, held, i);
    var k := i - (|r| - |held|);
    StepFinds(marker, before.state, raw, k);
    ShiftedCut(before.payload, held + raw, s, k, |marker|);
    ConcatAssoc(before.payload, (held + raw)[..k], StripNewlines((held + raw)[k + |marker|..]));
  }

  lemma {:induction false} ShiftedCut(p: Bytes, buf: Bytes, s: Bytes, k: nat, m: nat)
    requires s == p + buf && k + m <= |buf|
    ensures s[..|p| + k] == p + buf[..k] && s[|p| + k + m..] == buf[k + m..]
  {
  }

  lemma {:induction false} CompletingStep(marker: Bytes, pre: seq<Bytes>, raw: Bytes, i: int)
    requires marker != [] && Completes(marker, pre, raw, i)
    ensures var s := Flatten(pre) + raw;
            After(marker, pre + [raw]) == Outcome(State([], true), s[..i] + StripNewlines(s[i + |marker|..]))
    ensures i + |marker| > |Flatten(pre)|
  {
    hide After;
    HeldIsLongestMarkerPrefix(marker, pre);
    HeldOfStream(marker, Flatten(pre), After(marker, pre));
    AfterSnoc(marker, pre, raw);
    StepWithMarker(marker, Flatten(pre), After(marker, pre), raw, i);
    StraddlingOccurrence(marker, Flatten(pre), raw, i);
  }

  lemma {:induction false} MarkerFreeStreamIsUntouched(marker: Bytes, frames: seq<Bytes>)
    requires marker != [] ==> !Occurs(marker, Flatten(frames))
    ensures Output(marker, frames) == Flatten(frames)
  {
    if marker == [] {
      DisabledFilter(frames);
    } else {
      HeldIsLongestMarkerPrefix(marker, frames);
    }
  }

  lemma {:induction false} DisabledFilter(frames: seq<Bytes>)
    ensures After([], frames) == Outcome(START, Flatten(frames))
  {
    if frames == [] {
    } else {
      var pre, raw := frames[..|frames| - 1], frames[|frames| - 1];
      DisabledFilter(pre);
      FlattenSnoc(pre, raw);
      assert frames == pre + [raw];
    }
  }

  /** What a cut lets through: the marker goes, and with it the newlines that follow it
      in its frame. */
  ghost function Passed(marker: Bytes, c: Cut): Bytes
    requires Completes(marker, c.pre, c.raw, c.i)
  {
    var s := Flatten(c.pre) + c.raw;
    s[..c.i] + StripNewlines(s[c.i + |marker|..])
  }

  lemma {:induction false} SentAroundMarker(marker: Bytes, frames: seq<Bytes>, c: Cut)
    requires marker != [] && CutsAtMarker(marker, frames, c)
    ensures Sent(marker, frames) == Passed(marker, c) + Sent(marker, c.post)
    ensures Held(marker, frames) == Held(marker, c.post)
  {
    hide After;
    var begin := c.pre + [c.raw];
    CompletingStep(marker, c.pre, c.raw, c.i);
    ResumesFresh(marker, begin, c.post);
  }

  /** Whatever the stream and however it is cut: everything before the first marker
      comes out, the marker does not, the rest of the completing frame comes out
      without its leading newlines, and the later frames are a stream of their own.
      With SplitAtMarker and MarkerFreeStreamIsUntouched this determines the output
      of every list of frames. */
  lemma {:induction false} OutputAroundFirstMarker(marker: Bytes, pre: seq<Bytes>, raw: Bytes, post: seq<Bytes>, i: int)
    requires marker != [] && Completes(marker, pre, raw, i)
    ensures var s := Flatten(pre) + raw;
            Output(marker, pre + [raw] + post) == s[..i] + StripNewlines(s[i + |marker|..]) + Output(marker, post)
  {
    hide After;
    var s := Flatten(pre) + raw;
    SentAroundMarker(marker, pre + [raw] + post, Cut(pre, raw, i, post));
    ConcatAssoc(s[..i] + StripNewlines(s[i + |marker|..]), Sent(marker, post), Held(marker, post));
  }

  // ----- every stream, with any number of markers -----

  /** What the client is to receive, read off the frames. */
  ghost function Expected(marker: Bytes, frames: seq<Bytes>): Bytes
    decreases |frames|
  {
    if marker == [] || !Occurs(marker, Flatten(frames)) then Flatten(frames)
    else
      var c := CutAtMarker(marker, frames);
      Passed(marker, c) + Expected(marker, c.post)
  }

  /** The frames after the one that completes the last marker found; the rest of that
      frame is not part of them. */
  ghost function Residue(marker: Bytes, frames: seq<Bytes>): (rest: seq<Bytes>)
    ensures marker == [] || !Occurs(marker, Flatten(rest))
    decreases |frames|
  {
    if marker == [] || !Occurs(marker, Flatten(frames)) then frames
    else Residue(marker, CutAtMarker(marker, frames).post)
  }

  /** For every marker and every list of frames, without any condition, the output is
      the expected one. */
  lemma {:induction false} OutputOfAnyStream(marker: Bytes, frames: seq<Bytes>)
    ensures Output(marker, frames) == Expected(marker, frames)
    decreases |frames|
  {
    hide After;
    if marker == [] || !Occurs(marker, Flatten(frames)) {
      MarkerFreeStreamIsUntouched(marker, frames);
    } else {
      var c := CutAtMarker(marker, frames);
      SentAroundMarker(marker, frames, c);
      OutputOfAnyStream(marker, c.post);
      ConcatAssoc(Passed(marker, c), Sent(marker, c.post), Held(marker, c.post));
    }
  }

  lemma {:induction false} HeldOfResidue(marker: Bytes, frames: seq<Bytes>)
    ensures Held(marker, frames) == Held(marker, Residue(marker, frames))
    decreases |frames|
  {
    hide After;
    if marker != [] && Occurs(marker, Flatten(frames)) {
      var c := CutAtMarker(marker, frames);
      SentAroundMarker(marker, frames, c);
      HeldOfResidue(marker, c.post);
    }
  }

  /** The stream ends in the beginning of a marker. */
  ghost predicate EndsInMarker(marker: Bytes, s: Bytes) {
    exists k :: 0 < k < |marker| && Overlap(s, marker, k)
  }

  /** For every stream: something is held if and only if the frames after the one that
      completes the last marker found end in the beginning of a marker. */
  lemma {:induction false} HeldIff(marker: Bytes, frames: seq<Bytes>)
    ensures Held(marker, frames) != [] <==> EndsInMarker(marker, Flatten(Residue(marker, frames)))
  {
    hide After;
    var rest := Residue(marker, frames);
    HeldOfResidue(marker, frames);
    if marker == [] {
      DisabledFilter(rest);
    } else {
      HeldIsLongestMarkerPrefix(marker, rest);
      assert Overlap(Flatten(rest), marker, |Held(marker, rest)|);
    }
  }

  ghost predicate AllNewlines(s: Bytes) { forall k :: 0 <= k < |s| ==> IsNewline(s[k]) }

  /** Nothing of the stream gets through before the flush, read off the frames: markers
      with nothing before them and only newlines after them, each in its own frames, and
      then a proper prefix of a marker. */
  ghost predicate Swallowed(marker: Bytes, frames: seq<Bytes>)
    decreases |frames|
  {
    if marker == [] then Flatten(frames) == []
    else if !Occurs(marker, Flatten(frames)) then Flatten(frames) < marker
    else
      var c := CutAtMarker(marker, frames);
      && c.i == 0 && AllNewlines((Flatten(c.pre) + c.raw)[|marker|..])
      && Swallowed(marker, c.post)
  }

  lemma {:induction false} NothingSentIff(marker: Bytes, frames: seq<Bytes>)
    ensures Sent(marker, frames) == [] <==> Swallowed(marker, frames)
    decreases |frames|
  {
    hide After;
    if marker == [] {
      DisabledFilter(frames);
    } else if !Occurs(marker, Flatten(frames)) {
      NothingSentWithoutMarker(marker, frames);
    } else {
      var c := CutAtMarker(marker, frames);
      SentAroundMarker(marker, frames, c);
      NothingSentIff(marker, c.post);
      StripsToNothingIff((Flatten(c.pre) + c.raw)[c.i + |marker|..]);
    }
  }

  lemma {:induction false} NothingSentWithoutMarker(marker: Bytes, frames: seq<Bytes>)
    requires marker != [] && !Occurs(marker, Flatten(frames))
    ensures Sent(marker, frames) == [] <==> Flatten(frames) < marker
  {
    hide After;
    var err := Flatten(frames);
    HeldIsLongestMarkerPrefix(marker, frames);
    if err < marker {
      assert err == marker[..|err|] && Overlap(err, marker, |err|);
    }
  }

  lemma {:induction false} StripsToNothingIff(s: Bytes)
    ensures StripNewlines(s) == [] <==> AllNewlines(s)
  {
    var n := StripNewlinesKeepsSuffix(s);
    assert StripNewlines(s) == [] <==> n == |s|;
  }

  /** The acknowledgement fires exactly when the stream so far contains the marker. */
  lemma {:induction false} AckedIffMarkerReceived(marker: Bytes, frames: seq<Bytes>)
    requires marker != []
    ensures Acked(marker, frames) <==> Occurs(marker, Flatten(frames))
  {
    hide After;
    if Occurs(marker, Flatten(frames)) {
      var pre, raw, post, i := SplitAtMarker(marker, frames);
      CompletingStep(marker, pre, raw, i);
      ResumesFresh(marker, pre + [raw], post);
    } else {
      HeldIsLongestMarkerPrefix(marker, frames);
    }
  }

  // ----- a stream with exactly one marker: a + marker + b -----

  ghost predicate OneMarker(marker: Bytes, frames: seq<Bytes>, a: Bytes, b: Bytes) {
    && marker != []
    && Flatten(frames) == a + marker + b
    && FirstAt(marker, a + marker + b, |a|)
    && !Occurs(marker, b)
  }

  lemma {:induction false} FlattenAround(pre: seq<Bytes>, raw: Bytes, post: seq<Bytes>)
    ensures Flatten(pre + [raw] + post) == Flatten(pre) + raw + Flatten(post)
  {
    FlattenAppend(pre + [raw], post);
    FlattenSnoc(pre, raw);
  }

  /** Where the completing frame ends: r bytes of b are still in it. */
  lemma {:induction false} SplitAfterMarker(marker: Bytes, s: Bytes, t: Bytes, i: int, a: Bytes, b: Bytes)
    requires marker != [] && s + t == a + marker + b
    requires FirstAt(marker, s, i) && FirstAt(marker, a + marker + b, |a|)
    ensures var r := |s| - |a| - |marker|;
            && 0 <= r <= |b| && s[..i] == a && s[i + |marker|..] == b[..r] && t == b[r..]
  {
    FirstInPrefix(marker, s, t, i);
    FirstIsUnique(marker, s + t, i, |a|);
    CutAfterMarker(s, t, a, marker, b);
  }

  lemma {:induction false} CutAfterMarker(s: Bytes, t: Bytes, a: Bytes, marker: Bytes, b: Bytes)
    requires s + t == a + marker + b && |a| + |marker| <= |s|
    ensures var r := |s| - |a| - |marker|;
            r <= |b| && s[..|a|] == a && s[|a| + |marker|..] == b[..r] && t == b[r..]
  {
    var w, r := a + marker + b, |s| - |a| - |marker|;
    assert |s| + |t| == |w|;
    assert s == w[..|s|] && t == w[|s|..];
    assert s[|a| + |marker|..] == w[|a| + |marker|..|s|] == b[..r];
  }

  lemma {:induction false} OccursInSuffix(pat: Bytes, s: Bytes, d: nat)
    requires d <= |s|
    ensures Occurs(pat, s[d..]) ==> Occurs(pat, s)
  {
    forall k | OccursAt(pat, s[d..], k) ensures OccursAt(pat, s, d + k) {
      assert s[d + k..d + k + |pat|] == s[d..][k..k + |pat|];
    }
  }

  lemma {:induction false} FirstInPrefix(pat: Bytes, s: Bytes, t: Bytes, i: int)
    requires pat != [] && FirstAt(pat, s, i)
    ensures FirstAt(pat, s + t, i)
  {
    OccursInExtension(pat, s, t);
    forall k | 0 <= k < i ensures !OccursAt(pat, s + t, k) {
      assert !OccursAt(pat, s, k);
      assert (s + t)[k..k + |pat|] == s[k..k + |pat|];
    }
  }

  lemma {:induction false} OneMarkerParts(
    marker: Bytes, pre: seq<Bytes>, raw: Bytes, post: seq<Bytes>, i: int, a: Bytes, b: Bytes)
    requires OneMarker(marker, pre + [raw] + post, a, b) && Completes(marker, pre, raw, i)
    ensures var s := Flatten(pre) + raw; var r := |s| - |a| - |marker|;
            && 0 <= r <= |b| && s[..i] == a && s[i + |marker|..] == b[..r]
            && Flatten(post) == b[r..] && Output(marker, post) == b[r..]
  {
    hide After;
    var s := Flatten(pre) + raw;
    FlattenAround(pre, raw, post);
    SplitAfterMarker(marker, s, Flatten(post), i, a, b);
    OccursInSuffix(marker, b, |s| - |a| - |marker|);
    MarkerFreeStreamIsUntouched(marker, post);
  }

  /** The client gets a, and b minus the newlines that directly follow the marker in
      its own frame; it gets exactly a + b if and only if there are none. */
  lemma {:induction false} OutputWithOneMarker(
    marker: Bytes, pre: seq<Bytes>, raw: Bytes, post: seq<Bytes>, i: int, a: Bytes, b: Bytes)
    requires OneMarker(marker, pre + [raw] + post, a, b) && Completes(marker, pre, raw, i)
    ensures var r := |Flatten(pre) + raw| - |a| - |marker|;
            && 0 <= r <= |b|
            && Output(marker, pre + [raw] + post) == a + StripNewlines(b[..r]) + b[r..]
            && (Output(marker, pre + [raw] + post) == a + b <==> r == 0 || !IsNewline(b[0]))
  {
    hide After, Output, StripNewlines, Completes;
    OneMarkerParts(marker, pre, raw, post, i, a, b);
    OutputAroundFirstMarker(marker, pre, raw, post, i);
    StripIsIdentityIff(a, b, |Flatten(pre) + raw| - |a| - |marker|);
  }

  lemma {:induction false} StripIsIdentityIff(a: Bytes, b: Bytes, r: nat)
    requires r <= |b|
    ensures a + StripNewlines(b[..r]) + b[r..] == a + b <==> r == 0 || !IsNewline(b[0])
  {
    var n := StripNewlinesKeepsSuffix(b[..r]);
    assert |a + StripNewlines(b[..r]) + b[r..]| == |a + b| - n;
    if n == 0 {
      assert a + b[..r] + b[r..] == a + b;
    }
  }

  /** When nothing that looks like a line end follows the marker, the output does
      not depend on how the stream was cut. */
  lemma {:induction false} CutInvariance(marker: Bytes, frames: seq<Bytes>, a: Bytes, b: Bytes)
    requires OneMarker(marker, frames, a, b)
    requires b == [] || !IsNewline(b[0])
    ensures Output(marker, frames) == a + b
  {
    var pre, raw, post, i := SplitAtMarker(marker, frames);
    OutputWithOneMarker(marker, pre, raw, post, i, a, b);
  }

  /** The holdback is not too small: no continuation of a marker-free stream can place
      a marker that starts among the bytes already sent. */
  lemma {:induction false} SentIsSafe(marker: Bytes, frames: seq<Bytes>, rest: Bytes, i: int)
    requires marker != [] && !Occurs(marker, Flatten(frames))
    requires OccursAt(marker, Flatten(frames) + rest, i)
    ensures i >= |Sent(marker, frames)|
  {
    HeldIsLongestMarkerPrefix(marker, frames);
    HeldOfStream(marker, Flatten(frames), After(marker, frames));
    OccurrenceStartsInHeld(marker, Flatten(frames), rest, Held(marker, frames), i);
  }

  /** The holdback is not too large: under one continuation the held bytes do begin a
      marker, and all of them are removed from the output. */
  lemma {:induction false} HoldbackIsNeeded(marker: Bytes, frames: seq<Bytes>)
    requires marker != [] && !Occurs(marker, Flatten(frames))
    ensures Output(marker, frames + [marker[|Held(marker, frames)|..]]) == Sent(marker, frames)
  {
    var held := Held(marker, frames);
    assert held <= marker by { HeldIsMarkerPrefix(marker, frames); }
    AfterSnoc(marker, frames, marker[|held|..]);
    StepCompletes(marker, After(marker, frames).state);
  }

  lemma {:induction false} StepCompletes(marker: Bytes, st: State)
    requires marker != [] && st.held <= marker
    ensures Step(marker, st, marker[|st.held|..]) == Outcome(State([], true), [])
  {
    assert st.held + marker[|st.held|..] == marker;
    StepFinds(marker, st, marker[|st.held|..], 0);
    assert marker[..0] + StripNewlines(marker[|marker|..]) == [];
  }

  lemma {:induction false} HeldIsMarkerPrefix(marker: Bytes, frames: seq<Bytes>)
    ensures Held(marker, frames) <= marker
  {
    if frames == [] {
    } else {
      HeldIsMarkerPrefix(marker, frames[..|frames| - 1]);
    }
  }
}
