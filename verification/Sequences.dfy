/** Sequence vocabulary shared by the models: flattening a list of frames and
    searching for the first occurrence of a pattern. */
module Sequences {

  datatype Option<+T> = None | Some(value: T)

  newtype byte = x: int | 0 <= x < 256
  type Bytes = seq<byte>

  function Min(a: int, b: int): int { if a < b then a else b }

  function Flatten<T>(parts: seq<seq<T>>): seq<T> {
    if parts == [] then [] else parts[0] + Flatten(parts[1..])
  }

  lemma {:induction false} ConcatAssoc<T>(a: seq<T>, b: seq<T>, c: seq<T>)
    ensures a + (b + c) == (a + b) + c
  {
  }

  lemma {:induction false} FlattenAppend<T>(a: seq<seq<T>>, b: seq<seq<T>>)
    ensures Flatten(a + b) == Flatten(a) + Flatten(b)
  {
    if a == [] {
      assert a + b == b;
    } else {
      FlattenAppend(a[1..], b);
      assert (a + b)[0] == a[0] && (a + b)[1..] == a[1..] + b;
      ConcatAssoc(a[0], Flatten(a[1..]), Flatten(b));
    }
  }

  lemma {:induction false} FlattenSnoc<T>(a: seq<seq<T>>, x: seq<T>)
    ensures Flatten(a + [x]) == Flatten(a) + x
  {
    FlattenAppend(a, [x]);
    assert Flatten([x]) == x + Flatten<T>([]);
  }

  predicate OccursAt<T(==)>(pat: seq<T>, s: seq<T>, i: int) {
    0 <= i <= |s| - |pat| && s[i..i + |pat|] == pat
  }

  ghost predicate Occurs<T>(pat: seq<T>, s: seq<T>) {
    exists i :: OccursAt(pat, s, i)
  }

  ghost predicate FirstAt<T>(pat: seq<T>, s: seq<T>, i: int) {
    OccursAt(pat, s, i) && forall j :: 0 <= j < i ==> !OccursAt(pat, s, j)
  }

  /** The position of the first occurrence, as `find` of bytes and str returns it. */
  function Find<T(==)>(pat: seq<T>, s: seq<T>): (r: Option<nat>)
    ensures r.None? <==> !Occurs(pat, s)
    ensures r.Some? ==> FirstAt(pat, s, r.value)
  {
    FindFrom(pat, s, 0)
  }

  function FindFrom<T(==)>(pat: seq<T>, s: seq<T>, from: nat): (r: Option<nat>)
    requires from <= |s| + 1
    requires forall j :: 0 <= j < from ==> !OccursAt(pat, s, j)
    ensures r.None? <==> !Occurs(pat, s)
    ensures r.Some? ==> FirstAt(pat, s, r.value)
    decreases |s| + 1 - from
  {
    if from + |pat| > |s| then None
    else if OccursAt(pat, s, from) then Some(from)
    else FindFrom(pat, s, from + 1)
  }

  lemma {:induction false} FirstIsUnique<T>(pat: seq<T>, s: seq<T>, i: int, j: int)
    requires FirstAt(pat, s, i) && FirstAt(pat, s, j)
    ensures i == j
  {
  }

  lemma {:induction false} OccursInExtension<T>(pat: seq<T>, a: seq<T>, b: seq<T>)
    ensures forall i :: OccursAt(pat, a, i) ==> OccursAt(pat, a + b, i)
    ensures Occurs(pat, a) ==> Occurs(pat, a + b)
  {
    forall i | OccursAt(pat, a, i) ensures OccursAt(pat, a + b, i) {
      assert (a + b)[i..i + |pat|] == a[i..i + |pat|];
    }
  }
}
