/**
 Turning a drop into a list of uploads: directories are read batch by batch until an empty batch, and walked down to
 a fixed depth. The file system is a graph, so a folder may well contain itself.
 */
module DropTree {
  import opened Wrappers
  import opened Sequences

  const DROP_MAX_DEPTH := 24

  type Id = nat

  datatype File = File(name: string, size: nat, mime: string)

  /** What one `readEntries` brings. */
  datatype Answer = Batch(entries: seq<Id>) | Unreadable

  /** A file may have become unreadable; `answers` are what a directory's reader will say, in turn, then nothing more. */
  datatype Node =
    | FileNode(file: Option<File>)
    | DirNode(name: string, answers: seq<Answer>)
    | OtherNode

  type Fs = Id -> Node

  datatype Upload = Upload(file: File, segments: seq<string>)

  datatype Item = Entry(id: Id) | Plain(file: File)

  /** Every entry of a directory: the batches up to the first empty one, or up to the first error. */
  function ReadAll(answers: seq<Answer>): seq<Id> {
    if answers == [] || answers[0].Unreadable? || answers[0].entries == [] then []
    else answers[0].entries + ReadAll(answers[1..])
  }

  function Walk(fs: Fs, id: Id, segments: seq<string>): seq<Upload>
    decreases DROP_MAX_DEPTH - |segments|, 0
  {
    match fs(id)
    case FileNode(file) => if file.Some? then [Upload(file.value, segments)] else []
    case OtherNode => []
    case DirNode(name, answers) =>
      if |segments| >= DROP_MAX_DEPTH then [] else WalkAll(fs, ReadAll(answers), segments + [name])
  }

  function WalkAll(fs: Fs, ids: seq<Id>, segments: seq<string>): seq<Upload>
    decreases DROP_MAX_DEPTH - |segments|, |ids| + 1
  {
    if ids == [] then [] else Walk(fs, ids[0], segments) + WalkAll(fs, ids[1..], segments)
  }

  predicate Blind(item: Item) {
    item.Plain? && item.file.size == 0 && item.file.mime == ""
  }

  function FromItem(fs: Fs, item: Item): seq<Upload> {
    match item
    case Entry(id) => Walk(fs, id, [])
    case Plain(file) => if Blind(item) then [] else [Upload(file, [])]
  }

  function FromItems(fs: Fs, items: seq<Item>): seq<Upload> {
    if items == [] then [] else FromItem(fs, items[0]) + FromItems(fs, items[1..])
  }

  method ReadAllEntries(answers: seq<Answer>) returns (all: seq<Id>)
    ensures all == ReadAll(answers)
  {
    all := [];
    for k := 0 to |answers|
      invariant all + ReadAll(answers[k..]) == ReadAll(answers)
    {
      assert answers[k..][0] == answers[k] && answers[k..][1..] == answers[k + 1..];
      if answers[k].Unreadable? || answers[k].entries == [] {
        return;
      }
      all := all + answers[k].entries;
    }
  }

  lemma NextChild(fs: Fs, ids: seq<Id>, k: nat, segments: seq<string>)
    requires k < |ids|
    ensures WalkAll(fs, ids[k..], segments) == Walk(fs, ids[k], segments) + WalkAll(fs, ids[k + 1..], segments)
  {
    assert ids[k..][0] == ids[k] && ids[k..][1..] == ids[k + 1..];
  }

  lemma NoChildren(fs: Fs, ids: seq<Id>, segments: seq<string>)
    ensures WalkAll(fs, ids[|ids|..], segments) == [] && ids[0..] == ids
  {
  }

  method WalkEntry(fs: Fs, id: Id, segments: seq<string>, into: seq<Upload>) returns (all: seq<Upload>)
    ensures all == into + Walk(fs, id, segments)
    decreases DROP_MAX_DEPTH - |segments|
  {
    hide WalkAll, ReadAll;
    all := into;
    var node := fs(id);
    if node.FileNode? {
      if node.file.Some? {
        all := all + [Upload(node.file.value, segments)];
      }
      return;
    }
    if !node.DirNode? || |segments| >= DROP_MAX_DEPTH {
      return;
    }
    var children := ReadAllEntries(node.answers);
    var below := segments + [node.name];
    NoChildren(fs, children, below);
    for k := 0 to |children|
      invariant all + WalkAll(fs, children[k..], below) == into + Walk(fs, id, segments)
    {
      NextChild(fs, children, k, below);
      all := WalkEntry(fs, children[k], below, all);
    }
  }

  lemma NextItem(fs: Fs, items: seq<Item>, k: nat)
    requires k < |items|
    ensures FromItems(fs, items[k..]) == FromItem(fs, items[k]) + FromItems(fs, items[k + 1..])
    ensures |Filter(items[k..], Blind)| == (if Blind(items[k]) then 1 else 0) + |Filter(items[k + 1..], Blind)|
  {
    assert items[k..][0] == items[k] && items[k..][1..] == items[k + 1..];
  }

  lemma NoItemsLeft(fs: Fs, items: seq<Item>)
    ensures items[0..] == items
    ensures FromItems(fs, items[|items|..]) == [] && Filter(items[|items|..], Blind) == []
  {
  }

  /** Items whose nature cannot be told are counted, not uploaded. */
  method CollectDrop(fs: Fs, items: seq<Item>) returns (uploads: seq<Upload>, blind: nat)
    ensures uploads == FromItems(fs, items)
    ensures blind == |Filter(items, Blind)|
  {
    hide Walk, Filter, FromItems;
    uploads, blind := [], 0;
    NoItemsLeft(fs, items);
    for k := 0 to |items|
      invariant uploads + FromItems(fs, items[k..]) == FromItems(fs, items)
      invariant blind + |Filter(items[k..], Blind)| == |Filter(items, Blind)|
    {
      var item := items[k];
      NextItem(fs, items, k);
      if item.Plain? {
        if item.file.size == 0 && item.file.mime == "" {
          blind := blind + 1;
        } else {
          uploads := uploads + [Upload(item.file, [])];
        }
        continue;
      }
      uploads := WalkEntry(fs, item.id, [], uploads);
    }
  }

  // ---- what the walk yields --------------------------------------------------------------------

  /** The way down to an entry: which child to take in each folder. */
  type Route = seq<nat>

  function Children(node: Node): seq<Id> {
    if node.DirNode? then ReadAll(node.answers) else []
  }

  /** The readable file at the end of a route, with the names of the folders passed. */
  function FileAt(fs: Fs, id: Id, route: Route): Option<Upload>
    decreases |route|
  {
    var node := fs(id);
    if route == [] then
      if node.FileNode? && node.file.Some? then Some(Upload(node.file.value, [])) else None
    else if route[0] < |Children(node)| then
      var below := FileAt(fs, Children(node)[route[0]], route[1..]);
      if below.Some? then Some(Upload(below.value.file, [node.name] + below.value.segments)) else None
    else None
  }

  /** Tree order: the entries of a folder in the order read, each with all that is below it. */
  predicate Before(a: Route, b: Route) {
    b != [] && (a == [] || a[0] < b[0] || (a[0] == b[0] && Before(a[1..], b[1..])))
  }

  lemma {:induction false} NotBeforeItself(route: Route)
    ensures !Before(route, route)
  {
    if route != [] {
      NotBeforeItself(route[1..]);
    }
  }

  ghost predicate InTreeOrder(routes: seq<Route>) {
    forall i, j :: 0 <= i < j < |routes| ==> Before(routes[i], routes[j])
  }

  /** The routes to files at most so many folders down. */
  ghost function Routes(fs: Fs, id: Id, depth: nat): seq<Route>
    decreases depth, 0
  {
    var node := fs(id);
    if node.FileNode? then (if node.file.Some? then [[]] else [])
    else if !node.DirNode? || depth == 0 then []
    else RoutesFrom(fs, Children(node), 0, depth - 1)
  }

  ghost function RoutesFrom(fs: Fs, ids: seq<Id>, k: nat, depth: nat): seq<Route>
    requires k <= |ids|
    decreases depth, |ids| - k + 1
  {
    if k == |ids| then [] else Prefixed(k, Routes(fs, ids[k], depth)) + RoutesFrom(fs, ids, k + 1, depth)
  }

  ghost function Prefixed(k: nat, routes: seq<Route>): (r: seq<Route>)
    ensures |r| == |routes| && forall i :: 0 <= i < |r| ==> r[i] == [k] + routes[i]
  {
    seq(|routes|, i requires 0 <= i < |routes| => [k] + routes[i])
  }

  lemma PrefixedInOrder(k: nat, routes: seq<Route>, more: seq<Route>)
    requires InTreeOrder(routes) && InTreeOrder(more)
    requires forall i :: 0 <= i < |more| ==> more[i] != [] && more[i][0] > k
    ensures InTreeOrder(Prefixed(k, routes) + more)
  {
    var first := Prefixed(k, routes);
    forall i, j | 0 <= i < j < |first + more| ensures Before((first + more)[i], (first + more)[j]) {
      if j < |first| {
        assert first[i][1..] == routes[i] && first[j][1..] == routes[j];
      }
    }
  }

  /** Routes leads to exactly the files within the depth, each once, in tree order. */
  lemma {:induction false} RoutesHold(fs: Fs, id: Id, depth: nat)
    ensures InTreeOrder(Routes(fs, id, depth))
    ensures forall r :: r in Routes(fs, id, depth) <==> |r| <= depth && FileAt(fs, id, r).Some?
    decreases depth, 0
  {
    var node := fs(id);
    forall r: Route
      ensures FileAt(fs, id, r).Some? <==>
                if r == [] then node.FileNode? && node.file.Some?
                else r[0] < |Children(node)| && FileAt(fs, Children(node)[r[0]], r[1..]).Some?
    {
      FileAtUnfolds(fs, id, r);
    }
    if node.DirNode? && depth > 0 {
      RoutesFromHold(fs, Children(node), 0, depth - 1);
      assert Routes(fs, id, depth) == RoutesFrom(fs, Children(node), 0, depth - 1);
    }
    hide FileAt, RoutesFrom, ReadAll;
  }

  lemma FileAtUnfolds(fs: Fs, id: Id, r: Route)
    ensures FileAt(fs, id, r).Some? <==>
              if r == [] then fs(id).FileNode? && fs(id).file.Some?
              else r[0] < |Children(fs(id))| && FileAt(fs, Children(fs(id))[r[0]], r[1..]).Some?
  {
  }

  lemma {:induction false} RoutesFromHold(fs: Fs, ids: seq<Id>, k: nat, depth: nat)
    requires k <= |ids|
    ensures InTreeOrder(RoutesFrom(fs, ids, k, depth))
    ensures forall r :: r in RoutesFrom(fs, ids, k, depth)
                        <==> r != [] && k <= r[0] < |ids| && |r| <= depth + 1 && FileAt(fs, ids[r[0]], r[1..]).Some?
    decreases depth, |ids| - k + 1
  {
    if k < |ids| {
      var here, more := Routes(fs, ids[k], depth), RoutesFrom(fs, ids, k + 1, depth);
      RoutesHold(fs, ids[k], depth);
      RoutesFromHold(fs, ids, k + 1, depth);
      hide FileAt, Routes, RoutesFrom;
      assert RoutesFrom(fs, ids, k, depth) == Prefixed(k, here) + more by {
        RoutesFromUnfolds(fs, ids, k, depth);
      }
      assert forall i :: 0 <= i < |more| ==> more[i] in more;
      PrefixedInOrder(k, here, more);
      forall r: Route ensures r in Prefixed(k, here) <==> r != [] && r[0] == k && r[1..] in here {
        PrefixedHas(k, here, r);
      }
    } else {
      assert RoutesFrom(fs, ids, k, depth) == [];
    }
  }

  lemma RoutesFromUnfolds(fs: Fs, ids: seq<Id>, k: nat, depth: nat)
    requires k < |ids|
    ensures RoutesFrom(fs, ids, k, depth) == Prefixed(k, Routes(fs, ids[k], depth)) + RoutesFrom(fs, ids, k + 1, depth)
  {
  }

  lemma PrefixedHas(k: nat, routes: seq<Route>, r: Route)
    ensures r in Prefixed(k, routes) <==> r != [] && r[0] == k && r[1..] in routes
  {
    var all := Prefixed(k, routes);
    if r in all {
      var i :| 0 <= i < |all| && all[i] == r;
      assert r[1..] == routes[i];
    }
    if r != [] && r[0] == k && r[1..] in routes {
      var i :| 0 <= i < |routes| && routes[i] == r[1..];
      assert all[i] == r;
    }
  }

  /** An upload found below, told from above. */
  function Under(segments: seq<string>, u: Upload): Upload {
    Upload(u.file, segments + u.segments)
  }

  ghost predicate Yields(fs: Fs, id: Id, routes: seq<Route>, segments: seq<string>, uploads: seq<Upload>) {
    && |uploads| == |routes|
    && forall i :: 0 <= i < |routes| ==>
         FileAt(fs, id, routes[i]).Some? && uploads[i] == Under(segments, FileAt(fs, id, routes[i]).value)
  }

  lemma {:induction false} WalkYields(fs: Fs, id: Id, segments: seq<string>)
    requires |segments| <= DROP_MAX_DEPTH
    ensures Yields(fs, id, Routes(fs, id, DROP_MAX_DEPTH - |segments|), segments, Walk(fs, id, segments))
    decreases DROP_MAX_DEPTH - |segments|, 0
  {
    var node := fs(id);
    if node.DirNode? && |segments| < DROP_MAX_DEPTH {
      WalkAllYields(fs, id, 0, segments);
      assert Children(node)[0..] == Children(node);
    }
  }

  lemma {:induction false} WalkAllYields(fs: Fs, id: Id, k: nat, segments: seq<string>)
    requires |segments| < DROP_MAX_DEPTH && fs(id).DirNode? && k <= |Children(fs(id))|
    ensures Yields(fs, id, RoutesFrom(fs, Children(fs(id)), k, DROP_MAX_DEPTH - |segments| - 1), segments,
                   WalkAll(fs, Children(fs(id))[k..], segments + [fs(id).name]))
    decreases DROP_MAX_DEPTH - |segments| - 1, |Children(fs(id))| - k + 1
  {
    var ids, below, depth := Children(fs(id)), segments + [fs(id).name], DROP_MAX_DEPTH - |segments| - 1;
    if k < |ids| {
      var here, first := Routes(fs, ids[k], depth), Walk(fs, ids[k], below);
      WalkYields(fs, ids[k], below);
      WalkAllYields(fs, id, k + 1, segments);
      assert ids[k..][0] == ids[k] && ids[k..][1..] == ids[k + 1..];
      RoutesFromUnfolds(fs, ids, k, depth);
      assert WalkAll(fs, ids[k..], below) == first + WalkAll(fs, ids[k + 1..], below);
      PrefixedYields(fs, id, k, here, segments, first);
      YieldsBoth(fs, id, Prefixed(k, here), RoutesFrom(fs, ids, k + 1, depth), segments, first,
                 WalkAll(fs, ids[k + 1..], below));
    }
  }

  lemma PrefixedYields(fs: Fs, id: Id, k: nat, routes: seq<Route>, segments: seq<string>, uploads: seq<Upload>)
    requires fs(id).DirNode? && k < |Children(fs(id))|
    requires Yields(fs, Children(fs(id))[k], routes, segments + [fs(id).name], uploads)
    ensures Yields(fs, id, Prefixed(k, routes), segments, uploads)
  {
    var all, name := Prefixed(k, routes), fs(id).name;
    forall i | 0 <= i < |all|
      ensures FileAt(fs, id, all[i]).Some? && uploads[i] == Under(segments, FileAt(fs, id, all[i]).value)
    {
      assert all[i][0] == k && all[i][1..] == routes[i];
      var u := FileAt(fs, Children(fs(id))[k], routes[i]).value;
      assert segments + [name] + u.segments == segments + ([name] + u.segments);
    }
  }

  lemma YieldsBoth(fs: Fs, id: Id, a: seq<Route>, b: seq<Route>, segments: seq<string>, x: seq<Upload>, y: seq<Upload>)
    requires Yields(fs, id, a, segments, x) && Yields(fs, id, b, segments, y)
    ensures Yields(fs, id, a + b, segments, x + y)
  {
    hide FileAt;
  }

  /**
   A dropped entry yields, in tree order, one upload for every readable file with at most 24 folders above it, tagged
   with exactly their names, and nothing else.
   */
  lemma DropIsExact(fs: Fs, id: Id) returns (routes: seq<Route>)
    ensures InTreeOrder(routes)
    ensures forall i, j :: 0 <= i < j < |routes| ==> routes[i] != routes[j]
    ensures forall r :: r in routes <==> |r| <= 24 && FileAt(fs, id, r).Some?
    ensures |Walk(fs, id, [])| == |routes|
    ensures forall i :: 0 <= i < |routes| && FileAt(fs, id, routes[i]).Some? ==>
              Walk(fs, id, [])[i] == FileAt(fs, id, routes[i]).value
  {
    hide FileAt, Walk, Routes;
    routes := Routes(fs, id, DROP_MAX_DEPTH);
    RoutesHold(fs, id, DROP_MAX_DEPTH);
    WalkYields(fs, id, []);
    forall i, j | 0 <= i < j < |routes| ensures routes[i] != routes[j] {
      NotBeforeItself(routes[i]);
    }
  }

  /** A route has as many steps as the file has folders above it. */
  lemma {:induction false} RouteCountsFolders(fs: Fs, id: Id, route: Route)
    ensures FileAt(fs, id, route).Some? ==> |FileAt(fs, id, route).value.segments| == |route|
    decreases |route|
  {
    if route != [] && route[0] < |Children(fs(id))| {
      RouteCountsFolders(fs, Children(fs(id))[route[0]], route[1..]);
    }
  }

  // ---- batches ---------------------------------------------------------------------------------

  /** Any way of cutting a directory into batches reads the same, whether an empty batch ends it or an error. */
  lemma {:induction false} BatchesDoNotMatter(batches: seq<seq<Id>>, end: Answer, after: seq<Answer>)
    requires forall i :: 0 <= i < |batches| ==> batches[i] != []
    requires end == Batch([]) || end == Unreadable
    ensures ReadAll(seq(|batches|, i requires 0 <= i < |batches| => Batch(batches[i])) + [end] + after) == Concat(batches)
  {
    var answers := seq(|batches|, i requires 0 <= i < |batches| => Batch(batches[i])) + [end] + after;
    if batches != [] {
      var rest := batches[1..];
      BatchesDoNotMatter(rest, end, after);
      assert answers[1..] == seq(|rest|, i requires 0 <= i < |rest| => Batch(rest[i])) + [end] + after;
    }
  }

  /** Of plain files exactly those with bytes or a type are uploaded, to the folder itself; the others are the blind ones. */
  lemma {:induction false} PlainFilesIff(fs: Fs, items: seq<Item>, file: File)
    requires forall i :: 0 <= i < |items| ==> items[i].Plain?
    ensures |FromItems(fs, items)| + |Filter(items, Blind)| == |items|
    ensures Upload(file, []) in FromItems(fs, items) <==> Plain(file) in items && (file.size > 0 || file.mime != "")
    ensures forall u :: u in FromItems(fs, items) ==> u.segments == []
  {
    if items != [] {
      PlainFilesIff(fs, items[1..], file);
    }
  }

  /** Two file systems that differ only in how their readers cut the batches. */
  ghost predicate SameTree(a: Fs, b: Fs) {
    forall id :: if a(id).DirNode?
                 then b(id).DirNode? && b(id).name == a(id).name && Children(b(id)) == Children(a(id))
                 else b(id) == a(id)
  }

  lemma {:induction false} SameTreeSameWalk(a: Fs, b: Fs, id: Id, segments: seq<string>)
    requires SameTree(a, b)
    ensures Walk(a, id, segments) == Walk(b, id, segments)
    decreases DROP_MAX_DEPTH - |segments|, 0
  {
    hide ReadAll;
    if a(id).DirNode? && |segments| < DROP_MAX_DEPTH {
      SameTreeSameWalkAll(a, b, Children(a(id)), segments + [a(id).name]);
    }
  }

  lemma {:induction false} SameTreeSameWalkAll(a: Fs, b: Fs, ids: seq<Id>, segments: seq<string>)
    requires SameTree(a, b)
    ensures WalkAll(a, ids, segments) == WalkAll(b, ids, segments)
    decreases DROP_MAX_DEPTH - |segments|, |ids| + 1
  {
    hide SameTree;
    if ids != [] {
      SameTreeSameWalk(a, b, ids[0], segments);
      SameTreeSameWalkAll(a, b, ids[1..], segments);
    }
  }
}
