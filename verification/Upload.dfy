/** `_chunked_write_file` (client/sandbox.py): init, parts, complete, with an abort on
    failure, against every behaviour of the server and of the source. */
module Upload {
  import opened Sequences

  const CHUNK := 2 * 1024 * 1024

  /** How the server answers one request.  `gone` says whether the resulting exception
      makes the client believe that the sandbox no longer exists. */
  datatype Reply = Accepted | AcceptedBadBody(gone: bool) | Refused(gone: bool) | TransportFails(gone: bool)

  /** How a `read(CHUNK)` of the source behaves: it returns as much as there is, or at
      most n bytes (at least one, unless the source is exhausted), or it raises. */
  datatype Read = Full | Short(n: nat) | ReadFails(gone: bool)

  datatype Request =
    | Init(size: nat, totalChunks: nat)
    | Part(index: nat, data: Bytes)
    | Complete(totalChunks: nat)
    | Abort

  datatype Outcome = Returned | Raised

  function TotalChunks(size: nat): nat { (size + CHUNK - 1) / CHUNK }

  /** The length of the chunk read at a position. */
  function ChunkLength(available: nat, read: Read): (len: nat)
    ensures len <= available && len <= 2_097_152
    ensures len == 0 <==> available == 0
    ensures read.Full? ==> len == available || len == 2_097_152
    ensures read.Short? ==> len <= read.n || len <= 1
  {
    match read
    case Short(n) => Min(available, Min(CHUNK, if n == 0 then 1 else n))
    case _ => Min(available, CHUNK)
  }

  /** How many of n bytes the first `count` reads take. */
  function Consumed(n: nat, readAt: nat -> Read, count: nat): (pos: nat)
    ensures pos <= n
  {
    if count == 0 then 0
    else
      var pos := Consumed(n, readAt, count - 1);
      pos + ChunkLength(n - pos, readAt(count - 1))
  }

  lemma {:induction false} ConsumedStays(n: nat, readAt: nat -> Read, i: nat, count: nat)
    requires i <= count && Consumed(n, readAt, i) == n
    ensures Consumed(n, readAt, count) == n
  {
    if count == i {
    } else {
      ConsumedStays(n, readAt, i, count - 1);
    }
  }

  /** The bytes of the parts, in index order. */
  function PartData(log: seq<Request>): seq<Bytes> {
    if log == [] then []
    else
      var before, last := PartData(log[..|log| - 1]), log[|log| - 1];
      if last.Part? then before + [last.data] else before
  }

  /** The log is the init request and then parts 0, 1, 2, ..., none of them empty. */
  ghost predicate InitAndParts(log: seq<Request>, size: nat) {
    && |log| > 0 && log[0] == Init(size, TotalChunks(size))
    && (forall k :: 1 <= k < |log| ==> log[k].Part? && log[k].index == k - 1 && 0 < |log[k].data| <= CHUNK)
  }

  predicate PartAccepted(r: Reply) { r.Accepted? || r.AcceptedBadBody? }

  /** A run that got through: complete came last, and every request was accepted. */
  ghost predicate Completed(log: seq<Request>, size: nat, replyTo: nat -> Reply) {
    && |log| >= 2 && log[|log| - 1] == Complete(TotalChunks(size)) && InitAndParts(log[..|log| - 1], size)
    && replyTo(0).Accepted? && replyTo(|log| - 1).Accepted?
    && (forall k: nat :: 0 < k < |log| - 1 ==> PartAccepted(replyTo(k)))
  }

  /** A run that failed after n requests that are an init and parts.  A failed init is
      the only request.  Otherwise the run ended with a rejected part, a failed read, or
      a complete that was not accepted, and one abort follows unless that exception
      says that the sandbox is gone. */
  ghost predicate FailedAfter(log: seq<Request>, size: nat, n: nat, readAt: nat -> Read, replyTo: nat -> Reply) {
    && 0 < n <= |log| && InitAndParts(log[..n], size)
    && (forall k: nat :: 0 < k < n - 1 ==> PartAccepted(replyTo(k)))
    && if !replyTo(0).Accepted? then n == 1 && log[n..] == []
       else if PartRejected(n, replyTo) then log[n..] == Cleanup(replyTo(n - 1).gone)
       else if ReadRaises(n, size, readAt) then log[n..] == Cleanup(readAt(n - 1).gone)
       else !replyTo(n).Accepted? && log[n..] == [Complete(TotalChunks(size))] + Cleanup(replyTo(n).gone)
  }

  predicate PartRejected(n: nat, replyTo: nat -> Reply) { n > 1 && !PartAccepted(replyTo(n - 1)) }

  predicate ReadRaises(n: nat, size: nat, readAt: nat -> Read) {
    0 < n <= TotalChunks(size) && readAt(n - 1).ReadFails?
  }

  function Cleanup(gone: bool): seq<Request> { if gone then [] else [Abort] }

  lemma {:induction false} PartDataAppend(log: seq<Request>, tail: seq<Request>)
    ensures PartData(log + tail) == PartData(log) + PartData(tail)
  {
    if tail == [] {
      assert log + tail == log;
    } else {
      var init := tail[..|tail| - 1];
      PartDataAppend(log, init);
      assert (log + tail)[..|log + tail| - 1] == log + init;
    }
  }

  lemma {:induction false} PartDataOne(r: Request)
    ensures PartData([r]) == if r.Part? then [r.data] else []
  {
    assert [r][..0] == [];
  }

  /** What has been uploaded: the parts are the first bytes of the source. */
  ghost predicate Sent(log: seq<Request>, data: Bytes, size: nat, pos: nat) {
    InitAndParts(log, size) && pos <= |data| && Flatten(PartData(log)) == data[..pos]
  }

  /** With full reads every part but the last is a full chunk. */
  ghost predicate FullChunks(log: seq<Request>, data: Bytes, pos: nat) {
    && |log| > 0 && pos == Min(|data|, (|log| - 1) * CHUNK)
    && (forall k :: 1 <= k < |log| && (k < |log| - 1 || pos < |data|) ==> log[k].Part? && |log[k].data| == CHUNK)
  }

  lemma {:induction false} SendPart(log: seq<Request>, data: Bytes, size: nat, pos: nat, len: nat)
    requires Sent(log, data, size, pos) && 0 < len <= CHUNK && pos + len <= |data|
    ensures Sent(log + [Part(|log| - 1, data[pos..pos + len])], data, size, pos + len)
  {
    var part := Part(|log| - 1, data[pos..pos + len]);
    PartDataAppend(log, [part]);
    PartDataOne(part);
    FlattenSnoc(PartData(log), part.data);
    assert data[..pos] + data[pos..pos + len] == data[..pos + len];
  }

  /** What holds after i parts; `full` says that no read was short. */
  ghost predicate Progress(log: seq<Request>, data: Bytes, size: nat, pos: nat, full: bool) {
    && Sent(log, data, size, pos)
    && (full ==> FullChunks(log, data, pos) && |log| - 1 <= TotalChunks(|data|))
  }

  /** No part comes from a short read. */
  ghost predicate FullReads(readAt: nat -> Read, count: int) {
    forall k: nat :: k < count ==> readAt(k).Full?
  }

  ghost predicate AllAccepted(replyTo: nat -> Reply, count: int) {
    forall k: nat :: 0 < k < count ==> PartAccepted(replyTo(k))
  }

  lemma {:induction false} Begin(data: Bytes, size: nat, full: bool)
    ensures Progress([Init(size, TotalChunks(size))], data, size, 0, full)
  {
    PartDataOne(Init(size, TotalChunks(size)));
  }

  lemma {:induction false} Advance(
    log: seq<Request>, data: Bytes, size: nat, pos: nat, readAt: nat -> Read, i: nat, len: nat, log': seq<Request>)
    requires Progress(log, data, size, pos, FullReads(readAt, i)) && |log| == i + 1
    requires len == ChunkLength(|data| - pos, readAt(i)) > 0
    requires log' == log + [Part(i, data[pos..pos + len])]
    ensures Progress(log', data, size, pos + len, FullReads(readAt, i + 1))
  {
    SendPart(log, data, size, pos, len);
  }

  /** The loop over the chunks.  `gone` describes the exception if it raises. */
  method SendParts(data: Bytes, size: nat, readAt: nat -> Read, replyTo: nat -> Reply)
    returns (raised: bool, gone: bool, log: seq<Request>, pos: nat)
    ensures Progress(log, data, size, pos, FullReads(readAt, |log| - 1))
    ensures AllAccepted(replyTo, |log| - 1)
    ensures raised <==> PartRejected(|log|, replyTo) || ReadRaises(|log|, size, readAt)
    ensures raised ==> gone == if PartRejected(|log|, replyTo) then replyTo(|log| - 1).gone else readAt(|log| - 1).gone
    ensures |log| - 1 <= TotalChunks(size) && (!raised ==> |log| - 1 == TotalChunks(size) || pos == |data|)
    ensures pos == Consumed(|data|, readAt, |log| - 1)
  {
    hide PartData, Flatten, TotalChunks, Progress, ChunkLength;
    var total: nat, i: nat, at: nat := TotalChunks(size), 0, 0;
    log := [Init(size, total)];
    Begin(data, size, FullReads(readAt, 0));
    while i < total
      invariant i <= total && |log| == i + 1 && at == Consumed(|data|, readAt, i)
      invariant Progress(log, data, size, at, FullReads(readAt, i))
      invariant AllAccepted(replyTo, i + 1)
    {
      var read := readAt(i);
      if read.ReadFails? {
        return true, read.gone, log, at;
      }
      var len := ChunkLength(|data| - at, read);
      if len == 0 {
        break;
      }
      ghost var before := log;
      log := log + [Part(i, data[at..at + len])];
      Advance(before, data, size, at, readAt, i, len, log);
      at, i := at + len, i + 1;
      var reply := replyTo(i);
      if !PartAccepted(reply) {
        return true, reply.gone, log, at;
      }
    }
    return false, false, log, at;
  }

  lemma {:induction false} CountParts(log: seq<Request>, size: nat)
    requires InitAndParts(log, size)
    ensures |PartData(log)| == |log| - 1
  {
    var init := log[..|log| - 1];
    if |log| > 1 {
      CountParts(init, size);
    } else {
      assert init == [];
    }
  }

  /** How many requests were an init and parts. */
  function Sends(log: seq<Request>): nat { 1 + |PartData(log)| }

  /** What follows the parts does not change what was uploaded. */
  lemma {:induction false} TailKeepsParts(parts: seq<Request>, tail: seq<Request>, size: nat)
    requires InitAndParts(parts, size) && |tail| <= 2 && forall k :: 0 <= k < |tail| ==> !tail[k].Part?
    ensures PartData(parts + tail) == PartData(parts) && Sends(parts + tail) == |parts|
    ensures (parts + tail)[..|parts|] == parts && (parts + tail)[|parts|..] == tail
  {
    PartDataAppend(parts, tail);
    if |tail| == 2 {
      assert tail == [tail[0]] + [tail[1]];
      PartDataAppend([tail[0]], [tail[1]]);
      PartDataOne(tail[0]);
      PartDataOne(tail[1]);
    } else if |tail| == 1 {
      assert tail == [tail[0]];
      PartDataOne(tail[0]);
    }
    CountParts(parts, size);
  }

  /** After n requests that are an init and parts: all went well so far, nothing is left to
      read, and complete is accepted.  The body of the reply to a part does not matter. */
  ghost predicate GetsThrough(n: nat, total: nat, readAt: nat -> Read, replyTo: nat -> Reply) {
    && n > 0 && replyTo(0).Accepted? && replyTo(n).Accepted?
    && (forall k: nat :: 0 < k < n ==> replyTo(k).Accepted? || replyTo(k).AcceptedBadBody?)
    && (n <= total ==> readAt(n - 1).Full? || readAt(n - 1).Short?)
  }

  /** One abort, at the end, or none if the sandbox is gone. */
  ghost predicate AbortsUnless(log: seq<Request>, gone: bool) {
    && (forall k :: 0 <= k < |log| - 1 ==> !log[k].Abort?)
    && (log != [] && log[|log| - 1].Abort? <==> !gone)
  }

  /** The abort is the last request of a run that fails after an accepted init, unless the
      exception that ended it, of a rejected part, a failed read or a complete that was not
      accepted, says that the sandbox is gone.  No other run sends one. */
  ghost predicate CleansUp(
    outcome: Outcome, log: seq<Request>, n: nat, total: nat, readAt: nat -> Read, replyTo: nat -> Reply)
  {
    if outcome.Returned? || !replyTo(0).Accepted? then Abort !in log
    else if n > 1 && replyTo(n - 1).Refused? then AbortsUnless(log, replyTo(n - 1).gone)
    else if n > 1 && replyTo(n - 1).TransportFails? then AbortsUnless(log, replyTo(n - 1).gone)
    else if 0 < n <= total && readAt(n - 1).ReadFails? then AbortsUnless(log, readAt(n - 1).gone)
    else !replyTo(n).Accepted? && AbortsUnless(log, replyTo(n).gone)
  }

  lemma {:induction false} FailureAborts(
    log: seq<Request>, size: nat, n: nat, readAt: nat -> Read, replyTo: nat -> Reply)
    requires FailedAfter(log, size, n, readAt, replyTo)
    ensures !GetsThrough(n, TotalChunks(size), readAt, replyTo)
    ensures CleansUp(Raised, log, n, TotalChunks(size), readAt, replyTo)
  {
    hide TotalChunks;
    assert log == log[..n] + log[n..];
    assert forall k :: 0 <= k < n ==> log[k] == log[..n][k] && !log[k].Abort?;
  }

  lemma {:induction false} SuccessDoesNotAbort(
    log: seq<Request>, size: nat, n: nat, readAt: nat -> Read, replyTo: nat -> Reply)
    requires Completed(log, size, replyTo) && n == |log| - 1 && !ReadRaises(n, size, readAt)
    ensures GetsThrough(n, TotalChunks(size), readAt, replyTo)
    ensures CleansUp(Returned, log, n, TotalChunks(size), readAt, replyTo)
  {
    hide TotalChunks;
    assert forall k :: 0 <= k < n ==> log[k] == log[..n][k];
  }

  method ChunkedWriteFile(data: Bytes, size: nat, readAt: nat -> Read, replyTo: nat -> Reply)
    returns (outcome: Outcome, log: seq<Request>)
    // the protocol
    ensures outcome.Returned? ==> Completed(log, size, replyTo)
    ensures outcome.Raised? ==> FailedAfter(log, size, Sends(log), readAt, replyTo)
    ensures outcome.Returned? <==> GetsThrough(Sends(log), TotalChunks(size), readAt, replyTo)
    ensures CleansUp(outcome, log, Sends(log), TotalChunks(size), readAt, replyTo)
    // what was uploaded is always a prefix of the source; a run that returns has uploaded
    // what the announced number of reads took, which may be less than the source
    ensures Flatten(PartData(log)) <= data
    ensures outcome.Returned? ==>
              var taken := Consumed(|data|, readAt, TotalChunks(size));
              Flatten(PartData(log)) == data[..taken] && (Flatten(PartData(log)) == data <==> taken == |data|)
    ensures outcome.Returned? && FullReads(readAt, |log| - 2) ==> FullUpload(log, data, size)
  {
    var total := TotalChunks(size);
    if !replyTo(0).Accepted? {
      log := [Init(size, total)];
      PartDataOne(log[0]);
      assert log[..1] == log;
      FailureAborts(log, size, 1, readAt, replyTo);
      return Raised, log;
    }
    hide PartData, Flatten, TotalChunks, Consumed, FullChunks, FullUpload, GetsThrough, CleansUp, InitAndParts;
    var raised, gone, pos;
    raised, gone, log, pos := SendParts(data, size, readAt, replyTo);
    PrefixIsWholeIff(data, pos);
    if raised {
      TailKeepsParts(log, Cleanup(gone), size);
      FailureAborts(log + Cleanup(gone), size, |log|, readAt, replyTo);
      return Raised, log + Cleanup(gone);
    }
    hide FailedAfter, Completed;
    if pos == |data| {
      ConsumedStays(|data|, readAt, |log| - 1, TotalChunks(size));
    }
    ghost var parts := log;
    outcome, log := CompleteUpload(log, size, readAt, replyTo);
    if outcome.Raised? {
      FailureAborts(log, size, Sends(log), readAt, replyTo);
      return;
    }
    SuccessDoesNotAbort(log, size, |parts|, readAt, replyTo);
    if FullReads(readAt, |parts| - 1) {
      AllFull(parts, log, data, size, pos);
    }
  }

  /** A finished upload with full reads: as many chunks as were announced or as the source
      has, none empty and all but the last full; what they hold, and when that is the
      whole source. */
  ghost predicate FullUpload(log: seq<Request>, data: Bytes, size: nat) {
    && |log| >= 2 && |log| - 2 == Min(TotalChunks(size), TotalChunks(|data|))
    && (forall k :: 0 < k < |log| - 1 ==> log[k].Part? && 0 < |log[k].data| <= 2_097_152)
    && (forall k :: 0 < k < |log| - 2 ==> |log[k].data| == 2_097_152)
    && Flatten(PartData(log)) == data[..Min(|data|, TotalChunks(size) * 2_097_152)]
    && (Flatten(PartData(log)) == data <==> |data| <= TotalChunks(size) * 2_097_152)
    && (size == |data| ==> Flatten(PartData(log)) == data && |log| - 2 == TotalChunks(size))
  }

  lemma {:induction false} AllFull(parts: seq<Request>, log: seq<Request>, data: Bytes, size: nat, pos: nat)
    requires Progress(parts, data, size, pos, true) && PartData(log) == PartData(parts)
    requires |parts| - 1 <= TotalChunks(size) && (|parts| - 1 == TotalChunks(size) || pos == |data|)
    requires |log| == |parts| + 1 && log[..|parts|] == parts
    ensures FullUpload(log, data, size)
  {
    hide PartData, Flatten, TotalChunks;
    WholeIff(parts, data, size, pos);
    assert forall k :: 0 < k < |parts| ==> log[k] == parts[k];
  }

  /** As many chunks of 2 MiB as are needed, and no more. */
  lemma {:induction false} CeilingBounds(n: nat)
    ensures n <= TotalChunks(n) * 2_097_152 < n + 2_097_152
  {
  }

  /** With full reads, the source is used up or as many chunks as announced were read. */
  lemma {:induction false} WholeIff(parts: seq<Request>, data: Bytes, size: nat, pos: nat)
    requires Progress(parts, data, size, pos, true)
    requires |parts| - 1 <= TotalChunks(size) && (|parts| - 1 == TotalChunks(size) || pos == |data|)
    ensures |parts| - 1 == Min(TotalChunks(size), TotalChunks(|data|))
    ensures pos == Min(|data|, TotalChunks(size) * CHUNK)
    ensures Flatten(PartData(parts)) == data <==> |data| <= TotalChunks(size) * CHUNK
    ensures size == |data| ==> Flatten(PartData(parts)) == data && |parts| - 1 == TotalChunks(size)
  {
    CeilingBounds(|data|);
    CeilingBounds(size);
    PrefixIsWholeIff(data, pos);
  }

  /** A source that does not fit in the announced chunks is cut off, and the upload
      reports success all the same. */
  method TruncatedUpload(data: Bytes, size: nat) returns (outcome: Outcome, log: seq<Request>)
    requires |data| > TotalChunks(size) * CHUNK
    ensures outcome == Returned && log != [] && log[|log| - 1] == Complete(TotalChunks(size))
    ensures Flatten(PartData(log)) == data[..TotalChunks(size) * CHUNK] != data
  {
    outcome, log := ChunkedWriteFile(data, size, _ => Full, _ => Accepted);
  }

  /** A source of the announced size, read in short pieces, is cut off as well. */
  method ShortReadsTruncate(data: Bytes) returns (outcome: Outcome, log: seq<Request>)
    requires 1 < |data| <= CHUNK
    ensures outcome == Returned && log != [] && log[|log| - 1] == Complete(1)
    ensures Flatten(PartData(log)) == data[..1] != data
  {
    var readAt: nat -> Read := _ => Short(1);
    assert TotalChunks(|data|) == 1 && Consumed(|data|, readAt, 0) == 0 && Consumed(|data|, readAt, 1) == 1;
    outcome, log := ChunkedWriteFile(data, |data|, readAt, _ => Accepted);
  }

  /** Step 3, after a loop that did not raise. */
  method CompleteUpload(parts: seq<Request>, size: nat, readAt: nat -> Read, replyTo: nat -> Reply)
    returns (outcome: Outcome, log: seq<Request>)
    requires InitAndParts(parts, size) && replyTo(0).Accepted? && AllAccepted(replyTo, |parts| - 1)
    requires !PartRejected(|parts|, replyTo) && !ReadRaises(|parts|, size, readAt)
    ensures outcome.Returned? ==> Completed(log, size, replyTo) && |log| == |parts| + 1 == Sends(log) + 1
    ensures outcome.Raised? ==> FailedAfter(log, size, Sends(log), readAt, replyTo)
    ensures PartData(log) == PartData(parts) && |log| > |parts| && log[..|parts|] == parts
  {
    var complete := Complete(TotalChunks(size));
    var reply := replyTo(|parts|);
    if !reply.Accepted? {
      TailKeepsParts(parts, [complete] + Cleanup(reply.gone), size);
      return Raised, parts + ([complete] + Cleanup(reply.gone));
    }
    TailKeepsParts(parts, [complete], size);
    return Returned, parts + [complete];
  }

  lemma {:induction false} PrefixIsWholeIff(data: Bytes, pos: nat)
    requires pos <= |data|
    ensures data[..pos] == data <==> pos == |data|
  {
    assert |data[..pos]| == pos;
  }
}
