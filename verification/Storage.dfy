/** `_list_files_with_max_depth` (client/storage.py): a layered walk over the folders
    of an object store, compared with filtering all keys and folders by depth. */
module Storage {
  import opened Sequences

  /** One object as the store lists it; for a common prefix the size is meaningless. */
  datatype Listed = Listed(name: string, size: nat)
  datatype Item = Item(name: string, size: nat, isFolder: bool)

  /** The bucket (key to size), what the store answers when asked to list one folder
      (None is an S3Error), and the arguments of the call. */
  datatype Query = Query(
    objects: map<string, nat>,
    listing: string -> Option<seq<Listed>>,
    start: string,
    maxDepth: int)

  predicate IsFolder(n: string) { n != "" && n[|n| - 1] == '/' }

  function Slashes(s: string): nat {
    if s == "" then 0 else (if s[0] == '/' then 1 else 0) + Slashes(s[1..])
  }

  lemma {:induction false} SlashesAppend(a: string, b: string)
    ensures Slashes(a + b) == Slashes(a) + Slashes(b)
  {
    if a == "" {
      assert a + b == b;
    } else {
      SlashesAppend(a[1..], b);
      assert (a + b)[1..] == a[1..] + b;
    }
  }

  lemma {:induction false} NoSlashesIff(s: string)
    ensures Slashes(s) == 0 <==> '/' !in s
  {
    if s == "" {
    } else {
      NoSlashesIff(s[1..]);
      assert s == [s[0]] + s[1..];
    }
  }

  // ----- what the store promises about listing one folder -----

  ghost predicate HasKeyBelow(objects: map<string, nat>, n: string) {
    exists k :: k in objects && n <= k
  }

  /** A delimiter listing of prefix p: the keys without a further '/', and every longer
      key rolled up to its next '/'. */
  ghost predicate InGroup(objects: map<string, nat>, p: string, n: string) {
    p <= n &&
    if '/' !in n[|p|..] then n in objects
    else IsFolder(n) && '/' !in n[|p|..|n| - 1] && HasKeyBelow(objects, n)
  }

  ghost predicate Names(l: seq<Listed>, n: string) {
    exists i :: 0 <= i < |l| && l[i].name == n
  }

  /** The answer names the group of p, in any order and possibly with repetitions. */
  ghost predicate IsListing(objects: map<string, nat>, p: string, l: seq<Listed>) {
    && (forall n :: InGroup(objects, p, n) <==> Names(l, n))
    && (forall i :: 0 <= i < |l| && !IsFolder(l[i].name) ==> l[i].name in objects && l[i].size == objects[l[i].name])
  }

  /** The bucket does not change during the call. */
  ghost predicate StableStore(objects: map<string, nat>, listing: string -> Option<seq<Listed>>) {
    forall p :: listing(p).Some? ==> IsListing(objects, p, listing(p).value)
  }

  ghost predicate Stable(q: Query) {
    (q.start == "" || IsFolder(q.start)) && StableStore(q.objects, q.listing)
  }

  // ----- the specification: keys and ancestor folders, filtered by depth -----

  ghost predicate Entry(q: Query, n: string) {
    q.start <= n && (n in q.objects || (q.start < n && IsFolder(n) && HasKeyBelow(q.objects, n)))
  }

  /** The level below the start; a marker object for the start itself is on level 1. */
  function Depth(start: string, n: string): nat
    requires start <= n
  {
    if n == start then 1 else Slashes(n[|start|..|n| - 1]) + 1
  }

  /** The folders the walk has to list. */
  ghost predicate Visited(q: Query, f: string) {
    && q.maxDepth >= 0
    && (f == q.start || (q.start < f && IsFolder(f) && Entry(q, f) && Depth(q.start, f) <= q.maxDepth))
  }

  lemma {:induction false} ProperPrefix(a: string, b: string)
    requires a <= b && a != b
    ensures a < b
  {
    assert b == b[..|b|];
  }

  // ----- one level down -----

  lemma {:induction false} SuffixSplit(n: string, k: nat)
    requires k < |n|
    ensures n[k..] == n[k..|n| - 1] + [n[|n| - 1]]
  {
  }

  lemma {:induction false} StartGroup(q: Query, n: string)
    requires Stable(q) && q.start <= n
    ensures InGroup(q.objects, q.start, n) <==> Entry(q, n) && Depth(q.start, n) == 1
  {
    var p, rest := q.start, n[|q.start|..];
    if n == p {
      assert rest == "";
    } else {
      NoSlashesIff(n[|p|..|n| - 1]);
      SuffixSplit(n, |p|);
      if n in q.objects { assert HasKeyBelow(q.objects, n); }
    }
  }

  lemma {:induction false} ChildDepth(start: string, f: string, n: string)
    requires start < f < n && IsFolder(f)
    ensures Depth(start, n) == Depth(start, f) + 1 + Slashes(n[|f|..|n| - 1])
  {
    var a, b := f[|start|..|f| - 1], n[|f|..|n| - 1];
    assert n[|start|..|n| - 1] == a + "/" + b;
    SlashesAppend(a + "/", b);
    SlashesAppend(a, "/");
    assert Slashes("/") == 1 + Slashes("");
  }

  lemma {:induction false} FolderGroup(q: Query, f: string, n: string)
    requires Stable(q) && q.start < f < n && IsFolder(f)
    ensures InGroup(q.objects, f, n) <==> Entry(q, n) && Depth(q.start, n) == Depth(q.start, f) + 1
  {
    ChildDepth(q.start, f, n);
    NoSlashesIff(n[|f|..|n| - 1]);
    SuffixSplit(n, |f|);
    if n in q.objects { assert HasKeyBelow(q.objects, n); }
  }

  /** The last slash in n[a..b] is at m - 1. */
  lemma {:induction false} LastSlash(n: string, a: nat, b: nat) returns (m: nat)
    requires a <= b <= |n| && '/' in n[a..b]
    ensures a < m <= b && n[m - 1] == '/' && '/' !in n[m..b]
  {
    if n[b - 1] == '/' {
      m := b;
    } else {
      assert n[a..b] == n[a..b - 1] + [n[b - 1]];
      m := LastSlash(n, a, b - 1);
      assert n[m..b] == n[m..b - 1] + [n[b - 1]];
    }
  }

  lemma {:induction false} DeepHasSlash(start: string, n: string)
    requires start <= n && Depth(start, n) > 1
    ensures start < n && '/' in n[|start|..|n| - 1]
  {
    ProperPrefix(start, n);
    NoSlashesIff(n[|start|..|n| - 1]);
  }

  lemma {:induction false} PrefixOfPrefix(n: string, m: nat, k: string)
    requires m <= |n| && n <= k
    ensures n[..m] <= k
  {
    assert k[..m] == n[..m];
  }

  /** Below level 1, every entry lies in the group of a folder one level up. */
  lemma {:induction false} ParentOf(q: Query, n: string) returns (f: string)
    requires Stable(q) && Entry(q, n) && Depth(q.start, n) > 1
    ensures q.start < f < n && IsFolder(f) && Entry(q, f)
    ensures Depth(q.start, f) == Depth(q.start, n) - 1 && InGroup(q.objects, f, n)
  {
    hide Slashes, InGroup, Depth;
    DeepHasSlash(q.start, n);
    var m := LastSlash(n, |q.start|, |n| - 1);
    f := n[..m];
    NoSlashesIff(n[m..|n| - 1]);
    PrefixOfPrefix(n, |q.start|, n);
    assert q.start == n[..|q.start|] == f[..|q.start|];
    ChildDepth(q.start, f, n);
    FolderGroup(q, f, n);
    EntryHasKeyBelow(q, n);
    var k :| k in q.objects && n <= k;
    PrefixOfPrefix(n, m, k);
    assert HasKeyBelow(q.objects, f);
  }

  lemma {:induction false} EntryHasKeyBelow(q: Query, n: string)
    requires Entry(q, n)
    ensures HasKeyBelow(q.objects, n)
  {
    if n in q.objects { assert n <= n; }
  }

  // ----- the walk -----

  /** `items`, `seen_paths` and `queue`. */
  datatype Walk = Walk(items: seq<Item>, seen: set<string>, queue: seq<(string, int)>)

  /** The group of f has been emitted. */
  ghost predicate Drained(q: Query, seen: set<string>, f: string) {
    q.listing(f).Some? && forall n :: InGroup(q.objects, f, n) ==> n in seen
  }

  ghost predicate GoodItem(q: Query, item: Item) {
    && Entry(q, item.name) && Depth(q.start, item.name) <= q.maxDepth + 1
    && item.isFolder == IsFolder(item.name)
    && (if item.isFolder then item.size == 0
        else item.name in q.objects && item.size == q.objects[item.name])
  }

  ghost predicate Recorded(q: Query, w: Walk) {
    && (forall i :: 0 <= i < |w.items| ==> GoodItem(q, w.items[i]) && w.items[i].name in w.seen)
    && (forall n :: n in w.seen ==> exists i :: 0 <= i < |w.items| && w.items[i].name == n)
    && (forall i, j :: 0 <= i < j < |w.items| ==> w.items[i].name != w.items[j].name)
  }

  /** A queued folder carries its depth.  The start is queued at depth 0, and once more
      at depth 1 when it is its own marker object; then its group has been emitted, or
      is being emitted right now. */
  ghost predicate GoodTask(q: Query, seen: set<string>, current: Option<string>, task: (string, int)) {
    || task == (q.start, 0)
    || (task == (q.start, 1) && (current == Some(q.start) || Drained(q, seen, q.start)))
    || (q.start < task.0 && task.0 in seen && IsFolder(task.0) && Depth(q.start, task.0) == task.1 <= q.maxDepth)
  }

  ghost predicate Known(q: Query, seen: set<string>, f: string) {
    f == q.start || (q.start < f && f in seen && IsFolder(f))
  }

  function Level(start: string, f: string): int
    requires start <= f
  {
    if f == start then 0 else Depth(start, f)
  }

  /** Every known folder the walk must list is queued, being listed, or drained. */
  ghost predicate Covered(q: Query, w: Walk, current: Option<string>) {
    forall f :: Known(q, w.seen, f) && Level(q.start, f) <= q.maxDepth ==>
      (f, Level(q.start, f)) in w.queue || current == Some(f) || Drained(q, w.seen, f)
  }

  ghost predicate SortedByDepth(q: Query, items: seq<Item>) {
    && (forall i :: 0 <= i < |items| ==> q.start <= items[i].name)
    && (forall i, j :: 0 <= i < j < |items| ==> Depth(q.start, items[i].name) <= Depth(q.start, items[j].name))
  }

  /** The queue is sorted and spans at most two levels; so are the emitted items. */
  ghost predicate Layered(q: Query, w: Walk, level: int) {
    && (forall i :: 0 <= i < |w.queue| ==> level <= w.queue[i].1 <= level + 1)
    && (forall i, j :: 0 <= i < j < |w.queue| ==> w.queue[i].1 <= w.queue[j].1)
    && SortedByDepth(q, w.items)
    && (forall i :: 0 <= i < |w.items| ==> Depth(q.start, w.items[i].name) <= level + 1)
  }

  /** The invariant of the walk; `current` is the folder whose listing is being read. */
  ghost predicate Inv(q: Query, w: Walk, current: Option<string>, level: int) {
    && Recorded(q, w)
    && (forall i :: 0 <= i < |w.queue| ==> GoodTask(q, w.seen, current, w.queue[i]))
    && Covered(q, w, current)
    && Layered(q, w, level)
  }

  lemma {:induction false} NewNameDepth(q: Query, seen: set<string>, task: (string, int), n: string)
    requires Stable(q) && GoodTask(q, seen, None, task)
    requires InGroup(q.objects, task.0, n) && n !in seen
    ensures Entry(q, n) && Depth(q.start, n) == task.1 + 1
    ensures n == q.start ==> task == (q.start, 0)
  {
    if task.0 == q.start {
      StartGroup(q, n);
    } else {
      ProperPrefix(task.0, n);
      FolderGroup(q, task.0, n);
    }
  }

  function Emit(q: Query, w: Walk, level: int, obj: Listed): Walk {
    var folder := IsFolder(obj.name);
    Walk(w.items + [Item(obj.name, if folder then 0 else obj.size, folder)],
         w.seen + {obj.name},
         if folder && level + 1 <= q.maxDepth then w.queue + [(obj.name, level + 1)] else w.queue)
  }

  lemma {:induction false} EmitKeepsRecorded(q: Query, w: Walk, level: int, obj: Listed)
    requires Recorded(q, w) && obj.name !in w.seen
    requires Entry(q, obj.name) && Depth(q.start, obj.name) == level + 1 <= q.maxDepth + 1
    requires !IsFolder(obj.name) ==> obj.name in q.objects && obj.size == q.objects[obj.name]
    ensures Recorded(q, Emit(q, w, level, obj))
  {
    hide Entry, Depth, IsFolder;
    var w' := Emit(q, w, level, obj);
    assert w'.items[|w.items|].name == obj.name;
    forall n | n in w'.seen ensures exists i :: 0 <= i < |w'.items| && w'.items[i].name == n {
      if n in w.seen {
        var i :| 0 <= i < |w.items| && w.items[i].name == n;
        assert w'.items[i].name == n;
      }
    }
  }

  lemma {:induction false} EmitKeepsCovered(q: Query, w: Walk, task: (string, int), obj: Listed)
    requires Covered(q, w, Some(task.0)) && Entry(q, obj.name) && Depth(q.start, obj.name) == task.1 + 1
    ensures Covered(q, Emit(q, w, task.1, obj), Some(task.0))
  {
    var w' := Emit(q, w, task.1, obj);
    forall f | Known(q, w'.seen, f) && Level(q.start, f) <= q.maxDepth
      ensures (f, Level(q.start, f)) in w'.queue || task.0 == f || Drained(q, w'.seen, f)
    {
      if Known(q, w.seen, f) {
        assert Drained(q, w.seen, f) ==> Drained(q, w'.seen, f);
      } else {
        assert w'.queue[|w.queue|] == (f, Level(q.start, f));
      }
    }
  }

  lemma {:induction false} EmitKeepsLayered(q: Query, w: Walk, level: int, obj: Listed)
    requires Layered(q, w, level) && Entry(q, obj.name) && Depth(q.start, obj.name) == level + 1
    ensures Layered(q, Emit(q, w, level, obj), level)
  {
    hide Depth, IsFolder, HasKeyBelow;
  }

  lemma {:induction false} EmitKeepsTasks(q: Query, w: Walk, task: (string, int), obj: Listed)
    requires GoodTask(q, w.seen, None, task)
    requires forall i :: 0 <= i < |w.queue| ==> GoodTask(q, w.seen, Some(task.0), w.queue[i])
    requires Entry(q, obj.name) && Depth(q.start, obj.name) == task.1 + 1
    requires obj.name == q.start ==> task == (q.start, 0)
    ensures var w' := Emit(q, w, task.1, obj);
            && GoodTask(q, w'.seen, None, task)
            && forall i :: 0 <= i < |w'.queue| ==> GoodTask(q, w'.seen, Some(task.0), w'.queue[i])
  {
    var w' := Emit(q, w, task.1, obj);
    assert forall f :: Drained(q, w.seen, f) ==> Drained(q, w'.seen, f);
    if w'.queue != w.queue && obj.name != q.start {
      ProperPrefix(q.start, obj.name);
    }
  }

  lemma {:induction false} EmitKeepsInv(q: Query, w: Walk, task: (string, int), obj: Listed)
    requires Stable(q) && Inv(q, w, Some(task.0), task.1) && GoodTask(q, w.seen, None, task) && task.1 <= q.maxDepth
    requires InGroup(q.objects, task.0, obj.name) && obj.name !in w.seen
    requires !IsFolder(obj.name) ==> obj.name in q.objects && obj.size == q.objects[obj.name]
    ensures Inv(q, Emit(q, w, task.1, obj), Some(task.0), task.1)
    ensures GoodTask(q, Emit(q, w, task.1, obj).seen, None, task)
  {
    NewNameDepth(q, w.seen, task, obj.name);
    EmitKeepsRecorded(q, w, task.1, obj);
    EmitKeepsCovered(q, w, task, obj);
    EmitKeepsLayered(q, w, task.1, obj);
    EmitKeepsTasks(q, w, task, obj);
  }

  /** The inner loop over one listing. */
  method ScanListing(q: Query, w: Walk, task: (string, int), objects: seq<Listed>) returns (w': Walk)
    requires Stable(q) && IsListing(q.objects, task.0, objects)
    requires Inv(q, w, Some(task.0), task.1) && GoodTask(q, w.seen, None, task) && task.1 <= q.maxDepth
    ensures Inv(q, w', Some(task.0), task.1)
    ensures forall n :: InGroup(q.objects, task.0, n) ==> n in w'.seen
    ensures w.seen <= w'.seen && (w'.seen == w.seen ==> w'.queue == w.queue)
  {
    hide Inv, InGroup, GoodTask, Depth;
    var items, seen, queue := w.items, w.seen, w.queue;
    var i := 0;
    while i < |objects|
      invariant 0 <= i <= |objects|
      invariant Inv(q, Walk(items, seen, queue), Some(task.0), task.1) && GoodTask(q, seen, None, task)
      invariant forall j :: 0 <= j < i ==> objects[j].name in seen
      invariant w.seen <= seen && (seen == w.seen ==> queue == w.queue)
    {
      var obj := objects[i];
      i := i + 1;
      if obj.name in seen {
        continue;
      }
      assert Names(objects, obj.name);
      EmitKeepsInv(q, Walk(items, seen, queue), task, obj);
      seen := seen + {obj.name};
      var isFolder := IsFolder(obj.name);
      items := items + [Item(obj.name, if isFolder then 0 else obj.size, isFolder)];
      if isFolder && task.1 + 1 <= q.maxDepth {
        queue := queue + [(obj.name, task.1 + 1)];
      }
    }
    w' := Walk(items, seen, queue);
  }

  lemma {:induction false} PopKeepsCovered(q: Query, w: Walk)
    requires Covered(q, w, None) && w.queue != []
    ensures var task := w.queue[0]; var rest := w.(queue := w.queue[1..]);
            && Covered(q, rest, Some(task.0))
            && (task.1 > q.maxDepth ==> Covered(q, rest, None))
  {
    hide Known, Level, Drained;
    var task, rest := w.queue[0], w.(queue := w.queue[1..]);
    forall t | t in w.queue ensures t in rest.queue || t == task {
      var i :| 0 <= i < |w.queue| && w.queue[i] == t;
      if i > 0 { assert rest.queue[i - 1] == t; }
    }
  }

  lemma {:induction false} PopKeepsInv(q: Query, w: Walk, level: int)
    requires Inv(q, w, None, level) && w.queue != []
    ensures var task := w.queue[0]; var rest := w.(queue := w.queue[1..]);
            && Inv(q, rest, Some(task.0), task.1)
            && (task.1 > q.maxDepth ==> Inv(q, rest, None, task.1))
  {
    hide Depth, GoodItem, Drained, IsFolder, Covered;
    PopKeepsCovered(q, w);
  }

  lemma {:induction false} FinishKeepsInv(q: Query, w: Walk, f: string, level: int)
    requires Inv(q, w, Some(f), level) && Drained(q, w.seen, f)
    ensures Inv(q, w, None, level)
  {
  }

  /** With nothing queued, every entry within the depth has been emitted. */
  lemma {:induction false} EmptyQueueIsComplete(q: Query, w: Walk, level: int, n: string)
    requires Stable(q) && Inv(q, w, None, level) && w.queue == []
    requires Entry(q, n) && Depth(q.start, n) <= q.maxDepth + 1
    ensures n in w.seen
    decreases Depth(q.start, n)
  {
    if Depth(q.start, n) == 1 {
      StartGroup(q, n);
      assert Known(q, w.seen, q.start);
    } else {
      var f := ParentOf(q, n);
      EmptyQueueIsComplete(q, w, level, f);
      assert Known(q, w.seen, f);
    }
  }

  /** All prefixes of all keys: bounds what the walk can ever see. */
  ghost function Universe(q: Query): set<string> {
    set k, i | k in q.objects && 0 <= i <= |k| :: k[..i]
  }

  lemma {:induction false} SeenInUniverse(q: Query, w: Walk)
    requires Recorded(q, w)
    ensures w.seen <= Universe(q)
  {
    forall n | n in w.seen ensures n in Universe(q) {
      var i :| 0 <= i < |w.items| && w.items[i].name == n;
      assert GoodItem(q, w.items[i]);
      if n in q.objects {
        assert n == n[..|n|];
      } else {
        var k :| k in q.objects && n <= k;
        assert n == k[..|n|];
      }
    }
  }

  datatype Result = Ok(items: seq<Item>) | Failed

  /** The items are exactly the entries within maxDepth + 1 levels, each once, level by
      level; the call fails exactly when listing one of the folders it needs fails. */
  ghost predicate DepthFilter(q: Query, items: seq<Item>) {
    && (forall n :: (exists i :: 0 <= i < |items| && items[i].name == n)
                    <==> Entry(q, n) && Depth(q.start, n) <= q.maxDepth + 1)
    && (forall i, j :: 0 <= i < j < |items| ==> items[i].name != items[j].name)
    && (forall i :: 0 <= i < |items| ==> GoodItem(q, items[i]))
    && SortedByDepth(q, items)
  }

  method ListFilesWithMaxDepth(q: Query) returns (r: Result)
    requires Stable(q)
    ensures r.Ok? ==> DepthFilter(q, r.items)
    ensures r.Failed? <==> exists f :: Visited(q, f) && q.listing(f).None?
  {
    var w := Walk([], {}, [(q.start, 0)]);
    ghost var level := 0;
    assert Inv(q, w, None, level);
    hide Inv, Visited, DepthFilter, InGroup, Depth;
    while w.queue != []
      invariant Inv(q, w, None, level)
      decreases Universe(q) - w.seen, |w.queue|
    {
      var task := w.queue[0];
      PopKeepsInv(q, w, level);
      ghost var before := w;
      level := task.1;
      w := w.(queue := w.queue[1..]);
      if task.1 + 1 > q.maxDepth + 1 {
        continue;
      }
      var objects := q.listing(task.0);
      if objects.None? {
        VisitedTask(q, before, task);
        return Failed;
      }
      w := ScanListing(q, w, task, objects.value);
      FinishKeepsInv(q, w, task.0, task.1);
      SeenInUniverse(q, w);
      assert w.seen == before.seen || Universe(q) - w.seen < Universe(q) - before.seen;
    }
    WalkIsComplete(q, w, level);
    AllListed(q, w, level);
    r := Ok(w.items);
  }

  lemma {:induction false} WalkIsComplete(q: Query, w: Walk, level: int)
    requires Stable(q) && Inv(q, w, None, level) && w.queue == []
    ensures DepthFilter(q, w.items)
  {
    hide Depth, Covered;
    forall n | Entry(q, n) && Depth(q.start, n) <= q.maxDepth + 1 ensures n in w.seen {
      EmptyQueueIsComplete(q, w, level, n);
    }
  }

  lemma {:induction false} VisitedTask(q: Query, w: Walk, task: (string, int))
    requires Recorded(q, w) && GoodTask(q, w.seen, None, task) && task.1 <= q.maxDepth
    ensures Visited(q, task.0)
  {
    if task.0 != q.start {
      var i :| 0 <= i < |w.items| && w.items[i].name == task.0;
      assert GoodItem(q, w.items[i]);
    }
  }

  lemma {:induction false} AllListed(q: Query, w: Walk, level: int)
    requires Stable(q) && Inv(q, w, None, level) && w.queue == []
    ensures forall f :: Visited(q, f) ==> q.listing(f).Some?
  {
    forall f | Visited(q, f) ensures q.listing(f).Some? {
      if f != q.start {
        EmptyQueueIsComplete(q, w, level, f);
      }
      assert Known(q, w.seen, f);
    }
  }

  // ----- list_files with a depth limit -----

  function RStripSlashes(s: string): string {
    if s != "" && s[|s| - 1] == '/' then RStripSlashes(s[..|s| - 1]) else s
  }

  /** The prefix normalisation of `list_files`. */
  function NormalizePrefix(folderPath: string): string {
    if folderPath == "" then "" else RStripSlashes(folderPath) + "/"
  }

  /** However many slashes the caller appends, the folder with one slash is listed; the
      empty path is the whole bucket. */
  lemma {:induction false} NormalizeIgnoresTrailingSlashes(folder: string, n: nat)
    requires folder == "" || folder[|folder| - 1] != '/'
    ensures NormalizePrefix(folder + seq(n, _ => '/')) == if folder == "" && n == 0 then "" else folder + "/"
  {
    RStripPadded(folder, n);
    assert n > 0 ==> |folder + seq(n, _ => '/')| > 0;
    assert folder + seq(0, _ => '/') == folder;
  }

  lemma {:induction false} RStripPadded(folder: string, n: nat)
    requires folder == "" || folder[|folder| - 1] != '/'
    ensures RStripSlashes(folder + seq(n, _ => '/')) == folder
  {
    var padded := folder + seq(n, _ => '/');
    if n == 0 {
      assert padded == folder;
    } else {
      RStripPadded(folder, n - 1);
      assert padded[..|padded| - 1] == folder + seq(n - 1, _ => '/');
    }
  }

  method ListFiles(objects: map<string, nat>, listing: string -> Option<seq<Listed>>, folderPath: string, maxDepth: int)
    returns (r: Result)
    requires StableStore(objects, listing)
    ensures var q := Query(objects, listing, NormalizePrefix(folderPath), maxDepth);
            && (r.Ok? ==> DepthFilter(q, r.items))
            && (r.Failed? <==> exists f :: Visited(q, f) && listing(f).None?)
  {
    r := ListFilesWithMaxDepth(Query(objects, listing, NormalizePrefix(folderPath), maxDepth));
  }
}
