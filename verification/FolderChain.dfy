/**
 Making the folders an upload goes into. One cache per run maps a joined path to a folder's id; the server keeps at most
 one folder of a (folded) name in a folder, and only grows while the run lasts.
 */
module FolderChain {
  import opened Wrappers
  import opened Sequences
  import opened Strings

  type Id = nat

  /** Where a folder stands: in which folder (None is the top of the share), under which folded name. */
  datatype Slot = Slot(parent: Option<Id>, name: string)

  datatype Server = Server(folders: map<Slot, Id>, next: Id)

  type Fold = string -> string

  /**
   How one `ensureFolder` fares. `others` were made by someone else just before it; the POST may be refused or its
   answer lost; the search and the listing each show one page, which may not hold the folder.
   */
  datatype Fate = Fate(others: seq<Slot>, refused: bool, lost: bool, searchShows: bool, listingShows: bool)

  /** `asked` counts calls of `ensureFolder`; `made` is the history of keys created or adopted. */
  datatype Desk = Desk(server: Server, cache: map<string, Id>, asked: nat, made: seq<string>)

  function Make(s: Server, at: Slot): Server {
    if at in s.folders then s else Server(s.folders[at := s.next], s.next + 1)
  }

  function MakeAll(s: Server, slots: seq<Slot>): Server
    decreases |slots|
  {
    if slots == [] then s else MakeAll(Make(s, slots[0]), slots[1..])
  }

  /** The POST: a new folder's id, or nothing when the name is taken, refused, or the answer did not come. */
  function Post(s: Server, at: Slot, fate: Fate): (Server, Option<Id>) {
    if at in s.folders || fate.refused then (s, None)
    else (Make(s, at), if fate.lost then None else Some(s.next))
  }

  /** `findFolder`: the folder of this name in this folder, if the search or else the listing shows it. */
  function Find(s: Server, at: Slot, blank: bool, fate: Fate): Option<Id> {
    if at in s.folders && ((!blank && fate.searchShows) || fate.listingShows) then Some(s.folders[at]) else None
  }

  predicate Blank(name: string) {
    forall i :: 0 <= i < |name| ==> IsSpace(name[i])
  }

  function EnsureFolder(s: Server, name: string, parent: Option<Id>, fold: Fold, fate: Fate): (Server, Option<Id>) {
    var at := Slot(parent, fold(name));
    var (after, made) := Post(MakeAll(s, fate.others), at, fate);
    (after, if made.Some? then made else Find(after, at, Blank(name), fate))
  }

  function Key(key: string, segment: string): string {
    if key == "" then segment else key + "/" + segment
  }

  /** `ensureChain` from some segment on. The outer None is a failure; the inner one the top of the share. */
  function Chain(d: Desk, current: Option<Id>, key: string, segments: seq<string>, fold: Fold, net: nat -> Fate)
    : (Desk, Option<Option<Id>>)
    decreases |segments|
  {
    if segments == [] then (d, Some(current))
    else
      var next := Key(key, segments[0]);
      if next in d.cache then Chain(d, Some(d.cache[next]), next, segments[1..], fold, net)
      else
        var (server, id) := EnsureFolder(d.server, segments[0], current, fold, net(d.asked));
        if id.None? then (d.(server := server, asked := d.asked + 1), None)
        else
          Chain(Desk(server, d.cache[next := id.value], d.asked + 1, d.made + [next]), id, next, segments[1..], fold, net)
  }

  /** The chains of a whole run, and where each led. */
  function Chains(d: Desk, root: Option<Id>, paths: seq<seq<string>>, fold: Fold, net: nat -> Fate)
    : (Desk, seq<Option<Option<Id>>>)
    decreases |paths|
  {
    if paths == [] then (d, [])
    else
      var (one, led) := Chain(d, root, "", paths[0], fold, net);
      var (all, rest) := Chains(one, root, paths[1..], fold, net);
      (all, [led] + rest)
  }

  // ---- without a cache -------------------------------------------------------------------------

  /** The folder at a path, found by walking the server's tree. */
  function Resolve(s: Server, root: Option<Id>, path: seq<string>, fold: Fold): Option<Option<Id>> {
    if path == [] then Some(root)
    else
      var above := Resolve(s, root, path[..|path| - 1], fold);
      if above.None? then None
      else
        var at := Slot(above.value, fold(path[|path| - 1]));
        if at in s.folders then Some(Some(s.folders[at])) else None
  }

  /** Names a path may hold: not empty, no slash. */
  predicate Clean(path: seq<string>) {
    forall i :: 0 <= i < |path| ==> path[i] != "" && '/' !in path[i]
  }

  ghost predicate Grown(a: Server, b: Server) {
    forall at :: at in a.folders ==> at in b.folders && b.folders[at] == a.folders[at]
  }

  /** Every cached key is a path, and its id is the folder at that path. */
  ghost predicate Truthful(d: Desk, root: Option<Id>, fold: Fold) {
    forall key :: key in d.cache ==>
      Clean(Split(key, '/')) && Resolve(d.server, root, Split(key, '/'), fold) == Some(Some(d.cache[key]))
  }

  /** The keys made in this run are the cached ones, each once. */
  ghost predicate OnceEach(d: Desk) {
    && (forall i, j :: 0 <= i < j < |d.made| ==> d.made[i] != d.made[j])
    && (forall key :: key in d.cache <==> key in d.made)
  }

  lemma {:induction false} ResolveStays(a: Server, b: Server, root: Option<Id>, path: seq<string>, fold: Fold)
    requires Grown(a, b)
    ensures Resolve(a, root, path, fold).Some? ==> Resolve(b, root, path, fold) == Resolve(a, root, path, fold)
  {
    if path != [] {
      ResolveStays(a, b, root, path[..|path| - 1], fold);
    }
  }

  lemma {:induction false} MakeAllGrows(s: Server, slots: seq<Slot>)
    ensures Grown(s, MakeAll(s, slots))
    decreases |slots|
  {
    if slots != [] {
      MakeAllGrows(Make(s, slots[0]), slots[1..]);
    }
  }

  /** Whatever happens on the way, a folder returned is the one at that name; nothing that was there is lost. */
  lemma EnsureFolderHolds(s: Server, name: string, parent: Option<Id>, fold: Fold, fate: Fate)
    ensures var (after, id) := EnsureFolder(s, name, parent, fold, fate);
            var at := Slot(parent, fold(name));
            && Grown(s, after)
            && (id.Some? ==> at in after.folders && after.folders[at] == id.value)
            && (fate.listingShows && (!fate.refused || at in s.folders) ==> id.Some?)
  {
    MakeAllGrows(s, fate.others);
  }

  lemma {:induction false} MakeAllMakes(s: Server, slots: seq<Slot>)
    ensures MakeAll(s, slots).folders.Keys == s.folders.Keys + set i | 0 <= i < |slots| :: slots[i]
    decreases |slots|
  {
    if slots != [] {
      MakeAllMakes(Make(s, slots[0]), slots[1..]);
      assert forall at :: at in slots <==> at == slots[0] || at in slots[1..];
      assert (set i | 0 <= i < |slots| :: slots[i]) == {slots[0]} + set i | 0 <= i < |slots[1..]| :: slots[1..][i];
    }
  }

  /** Every folder has its own id, and ids to come are new. */
  ghost predicate OwnIds(s: Server) {
    && (forall at :: at in s.folders ==> s.folders[at] < s.next)
    && (forall a, b :: a in s.folders && b in s.folders && a != b ==> s.folders[a] != s.folders[b])
  }

  lemma {:induction false} MakeAllOwns(s: Server, slots: seq<Slot>)
    requires OwnIds(s)
    ensures OwnIds(MakeAll(s, slots))
    decreases |slots|
  {
    if slots != [] {
      MakeAllOwns(Make(s, slots[0]), slots[1..]);
    }
  }

  /**
   Exactly when `ensureFolder` gives a folder: it made one and heard so, or the search (asked for a name that is not
   blank) or else the listing shows one. It makes one exactly when the name was free and nobody refused; with an id no other
   folder has.
   */
  lemma EnsureFolderIff(s: Server, name: string, parent: Option<Id>, fold: Fold, fate: Fate)
    ensures var (after, id) := EnsureFolder(s, name, parent, fold, fate);
            var before, at := MakeAll(s, fate.others), Slot(parent, fold(name));
            && after.folders.Keys == before.folders.Keys + (if fate.refused then {} else {at})
            && (id.Some? <==>
                  || (at !in before.folders && !fate.refused && !fate.lost)
                  || (at in after.folders && ((fate.searchShows && exists i :: 0 <= i < |name| && !IsSpace(name[i]))
                                              || fate.listingShows)))
            && (OwnIds(s) ==> OwnIds(after))
  {
    MakeAllMakes(s, fate.others);
    if OwnIds(s) {
      MakeAllOwns(s, fate.others);
    }
  }

  lemma {:induction false} JoinOneMore(path: seq<string>, segment: string)
    requires path != []
    ensures Join(path + [segment], '/') == Join(path, '/') + "/" + segment
  {
    if |path| == 1 {
      assert (path + [segment])[1..] == [segment];
    } else {
      assert (path + [segment])[1..] == path[1..] + [segment];
      JoinOneMore(path[1..], segment);
    }
  }

  /** A clean path's key is its segments joined, and splits back into them. */
  lemma KeyHolds(path: seq<string>, segment: string)
    requires Clean(path + [segment])
    ensures Key(Join(path, '/'), segment) == Join(path + [segment], '/') != ""
    ensures Split(Join(path + [segment], '/'), '/') == path + [segment]
  {
    assert (path + [segment])[|path|] == segment;
    assert forall i :: 0 <= i < |path| ==> (path + [segment])[i] == path[i];
    if path == [] {
      assert path + [segment] == [segment];
      assert Join(path, '/') == "";
    } else {
      assert Clean(path);
      JoinIsNotEmpty(path);
      JoinOneMore(path, segment);
    }
    SplitOfJoin(path + [segment], '/');
  }

  lemma JoinIsNotEmpty(path: seq<string>)
    requires Clean(path) && path != []
    ensures Join(path, '/') != ""
  {
    assert path[0] != "";
  }

  lemma CacheGrows(d: Desk, server: Server, id: Id, path: seq<string>, root: Option<Id>, fold: Fold, asked: nat, made: seq<string>)
    requires Truthful(d, root, fold) && Grown(d.server, server)
    requires Clean(path) && path != [] && Resolve(server, root, path, fold) == Some(Some(id))
    ensures Truthful(Desk(server, d.cache[Join(path, '/') := id], asked, made), root, fold)
  {
    hide Split, Join, Resolve;
    SplitOfJoin(path, '/');
    forall key | key in d.cache
      ensures Resolve(server, root, Split(key, '/'), fold) == Some(Some(d.cache[key]))
    {
      ResolveStays(d.server, server, root, Split(key, '/'), fold);
    }
  }

  lemma Onward(path: seq<string>, segments: seq<string>)
    requires segments != []
    ensures path + segments == path + [segments[0]] + segments[1..]
    ensures Clean(path + segments) ==> Clean(path + [segments[0]])
    ensures (path + [segments[0]])[..|path|] == path && (path + [segments[0]])[|path|] == segments[0]
  {
    var whole, one := path + segments, path + [segments[0]];
    assert forall i :: 0 <= i < |one| ==> one[i] == whole[i];
  }

  lemma {:induction false} ChainHolds(
    d: Desk, root: Option<Id>, path: seq<string>, current: Option<Id>, segments: seq<string>, fold: Fold, net: nat -> Fate)
    requires Truthful(d, root, fold) && OnceEach(d)
    requires Clean(path + segments) && Resolve(d.server, root, path, fold) == Some(current)
    ensures var (after, led) := Chain(d, current, Join(path, '/'), segments, fold, net);
            && Truthful(after, root, fold) && OnceEach(after) && Grown(d.server, after.server)
            && (led.Some? ==> Resolve(after.server, root, path + segments, fold) == led)
    decreases |segments|
  {
    hide Split, Join, EnsureFolder, Truthful;
    if segments == [] {
      assert path + segments == path;
    } else {
      var on := path + [segments[0]];
      Onward(path, segments);
      KeyHolds(path, segments[0]);
      var next := Join(on, '/');
      if next in d.cache {
        assert Resolve(d.server, root, on, fold) == Some(Some(d.cache[next])) by {
          CacheKnows(d, root, on, fold);
        }
        ChainHolds(d, root, on, Some(d.cache[next]), segments[1..], fold, net);
      } else {
        var (server, id) := EnsureFolder(d.server, segments[0], current, fold, net(d.asked));
        EnsureFolderHolds(d.server, segments[0], current, fold, net(d.asked));
        ResolveStays(d.server, server, root, path, fold);
        if id.None? {
          TruthStays(d, d.(server := server, asked := d.asked + 1), root, fold);
        } else {
          var kept := Desk(server, d.cache[next := id.value], d.asked + 1, d.made + [next]);
          CacheGrows(d, server, id.value, on, root, fold, d.asked + 1, d.made + [next]);
          OnceMore(d, kept, next);
          ChainHolds(kept, root, on, id, segments[1..], fold, net);
        }
      }
    }
  }

  /** A request that is not refused and whose listing shows the folder. */
  predicate Kind(fate: Fate) {
    !fate.refused && fate.listingShows
  }

  /**
   What a chain costs and when it leads somewhere: one request for every folder not in the cache, one more for the folder
   it fails at; and it fails at none when every request is kind.
   */
  lemma {:induction false} ChainCosts(
    d: Desk, current: Option<Id>, key: string, segments: seq<string>, fold: Fold, net: nat -> Fate)
    ensures var (after, led) := Chain(d, current, key, segments, fold, net);
            && d.made <= after.made
            && after.asked - d.asked == |after.made| - |d.made| + (if led.None? then 1 else 0)
            && after.asked - d.asked <= |segments|
            && ((forall n :: Kind(net(n))) ==> led.Some?)
    decreases |segments|
  {
    hide EnsureFolder;
    if segments != [] {
      var next := Key(key, segments[0]);
      if next in d.cache {
        ChainCosts(d, Some(d.cache[next]), next, segments[1..], fold, net);
      } else {
        var fate := net(d.asked);
        var (server, id) := EnsureFolder(d.server, segments[0], current, fold, fate);
        EnsureFolderIff(d.server, segments[0], current, fold, fate);
        assert Kind(fate) ==> id.Some?;
        if id.Some? {
          ChainCosts(Desk(server, d.cache[next := id.value], d.asked + 1, d.made + [next]), id, next, segments[1..], fold, net);
        }
      }
    }
  }

  lemma OnceMore(d: Desk, kept: Desk, next: string)
    requires OnceEach(d) && next !in d.cache
    requires kept.made == d.made + [next] && kept.cache.Keys == d.cache.Keys + {next}
    ensures OnceEach(kept)
  {
    assert forall key :: key in kept.cache <==> key in d.cache || key == next;
    assert forall i :: 0 <= i < |d.made| ==> d.made[i] in d.made;
  }

  lemma CacheKnows(d: Desk, root: Option<Id>, path: seq<string>, fold: Fold)
    requires Truthful(d, root, fold) && Clean(path) && path != [] && Join(path, '/') in d.cache
    ensures Resolve(d.server, root, path, fold) == Some(Some(d.cache[Join(path, '/')]))
  {
    SplitOfJoin(path, '/');
  }

  lemma TruthStays(d: Desk, after: Desk, root: Option<Id>, fold: Fold)
    requires Truthful(d, root, fold) && after.cache == d.cache && Grown(d.server, after.server)
    ensures Truthful(after, root, fold)
  {
    hide Split, Resolve;
    forall key | key in d.cache
      ensures Resolve(after.server, root, Split(key, '/'), fold) == Some(Some(d.cache[key]))
    {
      ResolveStays(d.server, after.server, root, Split(key, '/'), fold);
    }
  }

  /**
   Over a whole run, whoever else makes folders meanwhile and whatever fails: the cache agrees with walking the tree,
   every chain that led somewhere led to the folder at its path, and no path was created or adopted twice.
   */
  lemma {:induction false} ChainsHold(d: Desk, root: Option<Id>, paths: seq<seq<string>>, fold: Fold, net: nat -> Fate)
    requires Truthful(d, root, fold) && OnceEach(d)
    requires forall i :: 0 <= i < |paths| ==> Clean(paths[i])
    ensures var (after, led) := Chains(d, root, paths, fold, net);
            && Truthful(after, root, fold) && OnceEach(after) && Grown(d.server, after.server)
            && |led| == |paths|
            && forall i :: 0 <= i < |paths| && led[i].Some? ==> Resolve(after.server, root, paths[i], fold) == led[i]
    decreases |paths|
  {
    hide Truthful, OnceEach, Chain, Resolve, Clean;
    if paths != [] {
      assert [] + paths[0] == paths[0];
      NothingResolved(d.server, root, fold);
      ChainHolds(d, root, [], root, paths[0], fold, net);
      var (one, led) := Chain(d, root, "", paths[0], fold, net);
      var (after, _) := Chains(one, root, paths[1..], fold, net);
      ChainsHold(one, root, paths[1..], fold, net);
      ResolveStays(one.server, after.server, root, paths[0], fold);
    }
  }

  lemma NothingResolved(s: Server, root: Option<Id>, fold: Fold)
    ensures Resolve(s, root, [], fold) == Some(root) && Join([], '/') == ""
  {
  }

  /** The run from its start, where the cache is empty. */
  lemma RunHolds(server: Server, root: Option<Id>, paths: seq<seq<string>>, fold: Fold, net: nat -> Fate)
    requires forall i :: 0 <= i < |paths| ==> Clean(paths[i])
    ensures var (after, led) := Chains(Desk(server, map[], 0, []), root, paths, fold, net);
            && |led| == |paths|
            && (forall key :: key in after.cache ==>
                  Resolve(after.server, root, Split(key, '/'), fold) == Some(Some(after.cache[key])))
            && (forall i :: 0 <= i < |paths| && led[i].Some? ==> Resolve(after.server, root, paths[i], fold) == led[i])
            && (forall i, j :: 0 <= i < j < |after.made| ==> after.made[i] != after.made[j])
  {
    hide Chains, Resolve, Split, Clean;
    ChainsHold(Desk(server, map[], 0, []), root, paths, fold, net);
  }

  /** All the prefixes of a path are in the cache, each at the id that walking on from it gives. */
  lemma {:induction false} ChainAgain(
    d: Desk, root: Option<Id>, path: seq<string>, current: Option<Id>, segments: seq<string>, fold: Fold, net: nat -> Fate)
    requires Clean(path + segments)
    ensures var (after, led) := Chain(d, current, Join(path, '/'), segments, fold, net);
            && (forall key :: key in d.cache ==> key in after.cache && after.cache[key] == d.cache[key])
            && (led.Some? ==> forall more: Desk ::
                  (forall key :: key in after.cache ==> key in more.cache && more.cache[key] == after.cache[key]) ==>
                  Chain(more, current, Join(path, '/'), segments, fold, net) == (more, led))
    decreases |segments|
  {
    hide Split, Join, EnsureFolder;
    if segments != [] {
      var on := path + [segments[0]];
      Onward(path, segments);
      KeyHolds(path, segments[0]);
      var next := Join(on, '/');
      if next in d.cache {
        ChainAgain(d, root, on, Some(d.cache[next]), segments[1..], fold, net);
      } else {
        var (server, id) := EnsureFolder(d.server, segments[0], current, fold, net(d.asked));
        if id.Some? {
          var kept := Desk(server, d.cache[next := id.value], d.asked + 1, d.made + [next]);
          ChainAgain(kept, root, on, id, segments[1..], fold, net);
        }
      }
    }
  }

  /** The next file of the same folder costs no request and goes to the same place. */
  lemma SecondFileIsFree(d: Desk, root: Option<Id>, segments: seq<string>, fold: Fold, net: nat -> Fate)
    requires Clean(segments) && Chain(d, root, "", segments, fold, net).1.Some?
    ensures var (after, led) := Chain(d, root, "", segments, fold, net);
            Chain(after, root, "", segments, fold, net) == (after, led)
  {
    hide Chain;
    assert [] + segments == segments;
    assert Join([], '/') == "";
    ChainAgain(d, root, [], root, segments, fold, net);
  }

  // ---- the methods -----------------------------------------------------------------------------

  /** One run of uploads: the server it talks to, and the cache it fills. */
  class FolderMaker {
    var server: Server
    var cache: map<string, Id>
    var asked: nat
    ghost var made: seq<string>

    ghost function View(): Desk reads this {
      Desk(server, cache, asked, made)
    }

    constructor (at: Server)
      ensures View() == Desk(at, map[], 0, [])
    {
      server, cache, asked, made := at, map[], 0, [];
    }

    method EnsureChain(root: Option<Id>, segments: seq<string>, fold: Fold, net: nat -> Fate)
      returns (led: Option<Option<Id>>)
      modifies this
      ensures (View(), led) == Chain(old(View()), root, "", segments, fold, net)
    {
      hide EnsureFolder;
      var key, current := "", root;
      for k := 0 to |segments|
        invariant Chain(View(), current, key, segments[k..], fold, net) == Chain(old(View()), root, "", segments, fold, net)
      {
        assert segments[k..][0] == segments[k] && segments[k..][1..] == segments[k + 1..];
        key := Key(key, segments[k]);
        if key in cache {
          current := Some(cache[key]);
          continue;
        }
        var (after, id) := EnsureFolder(server, segments[k], current, fold, net(asked));
        server, asked := after, asked + 1;
        if id.None? {
          return None;
        }
        cache := cache[key := id.value];
        made := made + [key];
        current := id;
      }
      led := Some(current);
    }
  }

  // ---- paths from the folder picker ------------------------------------------------------------

  /** `pathSegments`: the folders above a file in its relative path. */
  function PathSegments(relative: string): seq<string> {
    var parts := Split(relative, '/');
    Filter(parts[..|parts| - 1], part => part != "")
  }

  lemma {:induction false} NothingFiltered(path: seq<string>)
    requires Clean(path)
    ensures Filter(path, part => part != "") == path
  {
    if path != [] {
      NothingFiltered(path[1..]);
    }
  }

  /** They are always clean, and for a path of clean names they are exactly the names above the file. */
  lemma PathSegmentsHold(relative: string, path: seq<string>, file: string)
    requires Clean(path) && '/' !in file
    ensures Clean(PathSegments(relative))
    ensures PathSegments(Join(path + [file], '/')) == path
  {
    var parts := Split(relative, '/');
    var segments := PathSegments(relative);
    forall i | 0 <= i < |segments| ensures segments[i] != "" && '/' !in segments[i] {
      assert segments[i] in segments;
      var k :| 0 <= k < |parts| - 1 && parts[..|parts| - 1][k] == segments[i];
      assert parts[k] == segments[i];
    }
    SplitOfJoin(path + [file], '/');
    assert (path + [file])[..|path|] == path;
    NothingFiltered(path);
  }
}
