/** `get_internal_ips` (client/sandbox.py): looking up many sandboxes in batches, against
    a server that answers for exactly the ids it is asked for. */
module IpLookup {
  import opened Sequences
  import opened TextSplitting

  const BATCH := 200

  predicate IsSpace(c: char) { c == ' ' || c == '\t' || c == '\n' || c == '\r' }

  function Strip(s: string): string
    decreases |s|
  {
    if s != "" && IsSpace(s[0]) then Strip(s[1..])
    else if s != "" && IsSpace(s[|s| - 1]) then Strip(s[..|s| - 1])
    else s
  }

  ghost predicate Blank(s: string) {
    forall k :: 0 <= k < |s| ==> s[k] == ' ' || s[k] == '\t' || s[k] == '\n' || s[k] == '\r'
  }

  /** Stripping takes away white space at both ends, and as much as there is. */
  lemma {:induction false} StripKeepsMiddle(s: string) returns (before: string, after: string)
    ensures s == before + Strip(s) + after && Blank(before) && Blank(after)
    ensures Strip(s) != "" ==> !Blank([Strip(s)[0]]) && !Blank([Strip(s)[|Strip(s)| - 1]])
    decreases |s|
  {
    var middle := Strip(s);
    if s != "" && IsSpace(s[0]) {
      before, after := StripKeepsMiddle(s[1..]);
      hide Strip;
      assert s == [s[0]] + s[1..] == ([s[0]] + before) + middle + after;
      before := [s[0]] + before;
    } else if s != "" && IsSpace(s[|s| - 1]) {
      before, after := StripKeepsMiddle(s[..|s| - 1]);
      hide Strip;
      assert s == s[..|s| - 1] + [s[|s| - 1]] == before + middle + (after + [s[|s| - 1]]);
      after := after + [s[|s| - 1]];
    } else {
      before, after := "", "";
      hide Strip;
      assert "" + s + "" == s;
      assert s != "" ==> !IsSpace([s[0]][0]) && !IsSpace([s[|s| - 1]][0]);
    }
  }

  /** The ids that are looked up: stripped, without blanks. */
  function Wanted(ids: seq<string>): seq<string> {
    if ids == [] then []
    else
      var before, id := Wanted(ids[..|ids| - 1]), Strip(ids[|ids| - 1]);
      if id == "" then before else before + [id]
  }

  type Ips = map<string, string>

  /** The server's mapping for a `codes` parameter: it splits it at commas and knows
      `ips`, in which a sandbox without an address may have an empty one. */
  function Answer(codes: string, ips: Ips): Ips { Known(Split(codes, ','), ips) }

  function Known(codes: seq<string>, ips: Ips): Ips { map c | c in codes && c in ips :: ips[c] }

  function Nonempty(m: Ips): Ips { map c | c in m && m[c] != "" :: m[c] }

  /** The reference: one request per id. */
  function OneByOne(wanted: seq<string>, ips: Ips): Ips {
    if wanted == [] then map[]
    else OneByOne(wanted[..|wanted| - 1], ips) + Nonempty(Answer(wanted[|wanted| - 1], ips))
  }

  method CleanIds(ids: seq<string>) returns (wanted: seq<string>)
    ensures wanted == Wanted(ids)
  {
    wanted := [];
    for i := 0 to |ids|
      invariant wanted == Wanted(ids[..i])
    {
      assert ids[..i + 1][..i] == ids[..i];
      var id := Strip(ids[i]);
      if id != "" {
        wanted := wanted + [id];
      }
    }
    assert ids[..|ids|] == ids;
  }

  /** The batched lookup equals looking up the ids one at a time; the requests are the
      ids in order, in batches of 200, the last one possibly smaller but not empty. */
  method GetInternalIps(ids: seq<string>, ips: Ips) returns (resolved: Ips, requests: seq<seq<string>>)
    ensures resolved == OneByOne(Wanted(ids), ips)
    // exactly the codes in the ids that have an address, with that address
    ensures forall c :: c in resolved <==>
              c in ips && ips[c] != "" && exists i :: 0 <= i < |ids| && AsksFor(ids[i], c)
    ensures forall c :: c in resolved ==> resolved[c] == ips[c]
    ensures Flatten(requests) == Wanted(ids)
    ensures forall i :: 0 <= i < |requests| ==>
              0 < |requests[i]| <= 200 && (i < |requests| - 1 ==> |requests[i]| == 200)
  {
    var wanted := CleanIds(ids);
    resolved, requests := map[], [];
    assert OneByOne(wanted[..0], ips) == map[] && Flatten(requests) == wanted[..0];
    hide OneByOne, Answer, Nonempty, Flatten, Wanted;
    var start := 0;
    while start < |wanted|
      invariant 0 <= start && (start <= |wanted| || start - BATCH < |wanted|)
      invariant resolved == OneByOne(wanted[..Min(start, |wanted|)], ips)
      invariant Flatten(requests) == wanted[..Min(start, |wanted|)]
      invariant forall i :: 0 <= i < |requests| ==>
                  0 < |requests[i]| <= BATCH && (i < |requests| - 1 || start <= |wanted| ==> |requests[i]| == BATCH)
    {
      var end := Min(start + BATCH, |wanted|);
      var batch := wanted[start..end];
      var mapping := Answer(Join(batch, ","), ips);
      BatchStep(wanted, start, end, requests, ips);
      resolved := resolved + Nonempty(mapping);
      requests := requests + [batch];
      start := start + BATCH;
    }
    assert wanted[..|wanted|] == wanted;
    ResolvedIff(ids, ips);
  }

  /** All the codes in a list of ids. */
  function Codes(ids: seq<string>): seq<string> {
    if ids == [] then [] else Split(ids[0], ',') + Codes(ids[1..])
  }

  lemma {:induction false} CodesAppend(a: seq<string>, b: seq<string>)
    ensures Codes(a + b) == Codes(a) + Codes(b)
  {
    if a == [] {
      assert a + b == b;
    } else {
      CodesAppend(a[1..], b);
      assert (a + b)[0] == a[0] && (a + b)[1..] == a[1..] + b;
      ConcatAssoc(Split(a[0], ','), Codes(a[1..]), Codes(b));
    }
  }

  lemma {:induction false} SplitOfJoined(batch: seq<string>)
    requires batch != []
    ensures Split(Join(batch, ","), ',') == Codes(batch)
  {
    if |batch| > 1 {
      SplitOfJoined(batch[1..]);
      SplitOfJoin(batch[0], Join(batch[1..], ","), ',');
    } else {
      assert batch[1..] == [];
    }
  }

  lemma {:induction false} KnownAppend(a: seq<string>, b: seq<string>, ips: Ips)
    ensures Nonempty(Known(a + b, ips)) == Nonempty(Known(a, ips)) + Nonempty(Known(b, ips))
  {
  }

  lemma {:induction false} OneByOneIsKnown(wanted: seq<string>, ips: Ips)
    ensures OneByOne(wanted, ips) == Nonempty(Known(Codes(wanted), ips))
  {
    if wanted == [] {
    } else {
      var init, last := wanted[..|wanted| - 1], wanted[|wanted| - 1];
      OneByOneIsKnown(init, ips);
      assert wanted == init + [last];
      CodesAppend(init, [last]);
      assert Codes([last]) == Split(last, ',') by { assert [last][1..] == []; }
      KnownAppend(Codes(init), Split(last, ','), ips);
    }
  }

  /** The id, stripped, is not blank and has this code in it. */
  ghost predicate AsksFor(id: string, c: string) { Strip(id) != "" && c in Split(Strip(id), ',') }

  lemma {:induction false} ResolvedIff(ids: seq<string>, ips: Ips)
    ensures var resolved := OneByOne(Wanted(ids), ips);
            && (forall c :: c in resolved <==>
                  c in ips && ips[c] != "" && exists i :: 0 <= i < |ids| && AsksFor(ids[i], c))
            && (forall c :: c in resolved ==> resolved[c] == ips[c])
  {
    hide OneByOne, Wanted, Codes;
    OneByOneIsKnown(Wanted(ids), ips);
    forall c ensures c in Codes(Wanted(ids)) <==> exists i :: 0 <= i < |ids| && AsksFor(ids[i], c) {
      CodeIsWantedIff(ids, c);
    }
  }

  lemma {:induction false} CodeIsWantedIff(ids: seq<string>, c: string)
    ensures c in Codes(Wanted(ids)) <==> exists i :: 0 <= i < |ids| && AsksFor(ids[i], c)
  {
    if ids == [] {
    } else {
      var n, init := |ids| - 1, ids[..|ids| - 1];
      CodeIsWantedIff(init, c);
      var id := Strip(ids[n]);
      CodesAppend(Wanted(init), [id]);
      assert Codes([id]) == Split(id, ',') by { assert [id][1..] == []; }
      assert forall i :: 0 <= i < n ==> init[i] == ids[i];
      assert AsksFor(ids[n], c) <==> id != "" && c in Split(id, ',');
    }
  }

  /** Merging the answer for a batch is merging the answers for its ids. */
  lemma {:induction false} BatchIsOneByOne(before: seq<string>, batch: seq<string>, ips: Ips)
    requires batch != []
    ensures OneByOne(before, ips) + Nonempty(Answer(Join(batch, ","), ips)) == OneByOne(before + batch, ips)
  {
    OneByOneIsKnown(before, ips);
    OneByOneIsKnown(before + batch, ips);
    SplitOfJoined(batch);
    CodesAppend(before, batch);
    KnownAppend(Codes(before), Codes(batch), ips);
  }

  lemma {:induction false} BatchStep(
    wanted: seq<string>, start: nat, end: nat, requests: seq<seq<string>>, ips: Ips)
    requires start < end <= |wanted| && Flatten(requests) == wanted[..start]
    ensures OneByOne(wanted[..start], ips) + Nonempty(Answer(Join(wanted[start..end], ","), ips))
         == OneByOne(wanted[..end], ips)
    ensures Flatten(requests + [wanted[start..end]]) == wanted[..end]
  {
    hide OneByOne, Answer, Nonempty, Flatten;
    var batch := wanted[start..end];
    BatchIsOneByOne(wanted[..start], batch, ips);
    assert wanted[..start] + batch == wanted[..end];
    FlattenSnoc(requests, batch);
  }

  ghost predicate CommaFree(ids: seq<string>) { forall i :: 0 <= i < |ids| ==> ',' !in ids[i] }

  /** The server is asked for as many codes as the batch has ids, hence for at most 200,
      if and only if no id contains a comma; then the codes are the ids. */
  lemma {:induction false} ServerSeesBatchIff(batch: seq<string>)
    requires batch != []
    ensures |Split(Join(batch, ","), ',')| == |batch| <==> CommaFree(batch)
    ensures CommaFree(batch) ==> Split(Join(batch, ","), ',') == batch
  {
    SplitOfJoined(batch);
    CodesOfIds(batch);
  }

  lemma {:induction false} CodesOfIds(ids: seq<string>)
    ensures |Codes(ids)| >= |ids|
    ensures |Codes(ids)| == |ids| <==> CommaFree(ids)
    ensures CommaFree(ids) ==> Codes(ids) == ids
  {
    if ids == [] {
    } else {
      var rest := ids[1..];
      CodesOfIds(rest);
      SplitLength(ids[0]);
      assert CommaFree(ids) <==> ',' !in ids[0] && CommaFree(rest) by {
        assert forall i :: 1 <= i < |ids| ==> ids[i] == rest[i - 1];
      }
      if ',' !in ids[0] {
        SplitOfPiece(ids[0], ',');
        assert ids == [ids[0]] + rest;
      }
    }
  }

  lemma {:induction false} SplitLength(s: string)
    ensures |Split(s, ',')| > 1 <==> ',' in s
  {
    if s == "" {
    } else {
      SplitLength(s[1..]);
      assert s == [s[0]] + s[1..];
    }
  }
}
