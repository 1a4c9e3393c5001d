/**
 The service worker's cache. Entries stand in insertion order; putting an entry that is there moves it to the end.
 Stores of assets run side by side, each in steps: put, read the keys, delete the stale ones one by one.
 */
module ServiceWorker {
  import opened Wrappers
  import opened Sequences

  /** What a cache entry is filed under: the URL's path and query, this origin understood. */
  datatype Key = Key(path: string, query: string)

  const SHELL_URLS := ["/", "/index.html", "/manifest.webmanifest", "/logo-32.png", "/logo-64.png", "/logo-192.png"]

  const ASSET_BUDGET := 40

  predicate StartsWith(s: string, prefix: string) {
    |prefix| <= |s| && s[..|prefix|] == prefix
  }

  predicate IsAsset(k: Key) {
    StartsWith(k.path, "/assets/")
  }

  predicate IsShell(k: Key) {
    k.path in SHELL_URLS
  }

  lemma StartsAlike(s: string, prefix: string, i: nat)
    requires i < |prefix|
    ensures StartsWith(s, prefix) ==> i < |s| && s[i] == prefix[i]
  {
    assert StartsWith(s, prefix) ==> s[..|prefix|][i] == prefix[i];
  }

  lemma ShellIsNoAsset(k: Key)
    ensures !(IsShell(k) && IsAsset(k))
    ensures IsShell(k) || IsAsset(k) ==> !StartsWith(k.path, "/api/")
  {
    StartsAlike(k.path, "/assets/", 1);
    StartsAlike(k.path, "/assets/", 2);
    StartsAlike(k.path, "/api/", 1);
    StartsAlike(k.path, "/api/", 2);
    assert IsShell(k) ==> |k.path| == 1 || (|k.path| > 1 && k.path[1] != 'a');
  }

  // ---- the cache -------------------------------------------------------------------------------

  type Cache = seq<Key>

  function Delete(cache: Cache, k: Key): Cache {
    Filter(cache, c => c != k)
  }

  function Put(cache: Cache, k: Key): Cache {
    Delete(cache, k) + [k]
  }

  function Assets(cache: Cache): seq<Key> {
    Filter(cache, IsAsset)
  }

  /** The oldest assets over the budget. */
  function Stale(cache: Cache): seq<Key> {
    var assets := Assets(cache);
    if |assets| > ASSET_BUDGET then assets[..|assets| - ASSET_BUDGET] else []
  }

  ghost predicate NoRepeats(cache: Cache) {
    forall i, j :: 0 <= i < j < |cache| ==> cache[i] != cache[j]
  }

  // ---- the worker ------------------------------------------------------------------------------

  datatype Request = Request(get: bool, ownOrigin: bool, key: Key, navigate: bool)

  /** Where one store stands: about to put, about to read the keys, or with these still to delete. */
  datatype Task =
    | ToShell(key: Key)
    | ToPut(key: Key)
    | ToCount
    | ToEvict(stale: seq<Key>)

  datatype Worker = Worker(cache: Cache, tasks: seq<Task>)

  /** An answer came from the network, or a store in progress makes its next step. */
  datatype Event = Answered(request: Request, ok: bool) | Advance(index: nat)

  predicate Handles(r: Request) {
    !StartsWith(r.key.path, "/api/") && r.get && r.ownOrigin
  }

  function Started(r: Request, ok: bool): seq<Task> {
    if !Handles(r) || !ok then []
    else if IsShell(r.key) then [ToShell(r.key)]
    else if IsAsset(r.key) then [ToPut(r.key)]
    else []
  }

  function Evicting(stale: seq<Key>): seq<Task> {
    if stale == [] then [] else [ToEvict(stale)]
  }

  /** One step of one store: the cache after it, and what is left of the store. */
  function Advanced(cache: Cache, t: Task): (Cache, seq<Task>) {
    match t
    case ToShell(k) => (Put(cache, k), [])
    case ToPut(k) => (Put(cache, k), [ToCount])
    case ToCount => (cache, Evicting(Stale(cache)))
    case ToEvict(stale) => if stale == [] then (cache, []) else (Delete(cache, stale[0]), Evicting(stale[1..]))
  }

  function Step(w: Worker, e: Event): Worker {
    match e
    case Answered(r, ok) => w.(tasks := w.tasks + Started(r, ok))
    case Advance(i) =>
      if i >= |w.tasks| then w
      else
        var (cache, left) := Advanced(w.cache, w.tasks[i]);
        Worker(cache, w.tasks[..i] + left + w.tasks[i + 1..])
  }

  function Play(w: Worker, events: seq<Event>): Worker
    decreases |events|
  {
    if events == [] then w else Play(Step(w, events[0]), events[1..])
  }

  /** After `install`: the fixed paths, and nothing going on. */
  function Installed(): Worker {
    Worker(seq(|SHELL_URLS|, i requires 0 <= i < |SHELL_URLS| => Key(SHELL_URLS[i], "")), [])
  }

  // ---- what every interleaving keeps -----------------------------------------------------------

  predicate TaskHolds(t: Task) {
    match t
    case ToShell(k) => IsShell(k)
    case ToPut(k) => IsAsset(k)
    case ToCount => true
    case ToEvict(stale) => forall k :: k in stale ==> IsAsset(k)
  }

  ghost predicate Holds(w: Worker) {
    && NoRepeats(w.cache)
    && (forall k :: k in w.cache ==> IsShell(k) || IsAsset(k))
    && (forall i :: 0 <= i < |w.tasks| ==> TaskHolds(w.tasks[i]))
  }

  ghost function AssetSet(cache: Cache): set<Key> {
    set k | k in cache && IsAsset(k)
  }

  ghost function KeySet(keys: seq<Key>): set<Key> {
    set k | k in keys
  }

  /** Of the assets cached, at most the budget would be left once this store is through. */
  ghost predicate WillFit(cache: Cache, t: Task) {
    t.ToCount? || (t.ToEvict? && |AssetSet(cache) - KeySet(t.stale)| <= ASSET_BUDGET)
  }

  /** The cache is within its budget, or some store under way will bring it there. */
  ghost predicate Bounded(w: Worker) {
    |AssetSet(w.cache)| <= ASSET_BUDGET || exists i :: 0 <= i < |w.tasks| && WillFit(w.cache, w.tasks[i])
  }

  lemma {:induction false} KeySetSize(keys: seq<Key>)
    ensures |KeySet(keys)| <= |keys|
    ensures NoRepeats(keys) ==> |KeySet(keys)| == |keys|
  {
    if keys == [] {
      assert KeySet(keys) == {};
    } else {
      KeySetSize(keys[1..]);
      assert KeySet(keys) == {keys[0]} + KeySet(keys[1..]);
      assert NoRepeats(keys) ==> keys[0] !in keys[1..];
    }
  }

  lemma {:induction false} FilterKeepsDistinct(cache: Cache, keep: Key -> bool)
    requires NoRepeats(cache)
    ensures NoRepeats(Filter(cache, keep))
  {
    if cache != [] {
      var rest := Filter(cache[1..], keep);
      FilterKeepsDistinct(cache[1..], keep);
      assert forall i :: 0 <= i < |rest| ==> rest[i] in rest && rest[i] in cache[1..];
      assert cache[0] !in cache[1..];
    }
  }

  lemma PutHolds(cache: Cache, k: Key)
    requires NoRepeats(cache)
    ensures NoRepeats(Put(cache, k)) && NoRepeats(Delete(cache, k))
    ensures forall c :: c in Put(cache, k) <==> c in cache || c == k
    ensures forall c :: c in Delete(cache, k) <==> c in cache && c != k
  {
    FilterKeepsDistinct(cache, c => c != k);
    var rest := Delete(cache, k);
    assert forall i :: 0 <= i < |rest| ==> rest[i] in rest;
  }

  lemma StaleHolds(cache: Cache)
    ensures forall k :: k in Stale(cache) ==> IsAsset(k)
    ensures |AssetSet(cache) - KeySet(Stale(cache))| <= ASSET_BUDGET
  {
    hide Filter;
    var assets, stale := Assets(cache), Stale(cache);
    var kept := assets[|stale|..];
    assert assets == stale + kept;
    KeySetSize(kept);
    assert AssetSet(cache) - KeySet(stale) <= KeySet(kept);
    SubsetSize(AssetSet(cache) - KeySet(stale), KeySet(kept));
  }

  /** One step of one store, seen from the cache: sound entries, and no shell entry lost. */
  lemma AdvancedHolds(cache: Cache, t: Task)
    requires NoRepeats(cache) && TaskHolds(t) && forall k :: k in cache ==> IsShell(k) || IsAsset(k)
    ensures var (after, left) := Advanced(cache, t);
            && NoRepeats(after)
            && (forall k :: k in after ==> IsShell(k) || IsAsset(k))
            && (forall k :: k in cache && IsShell(k) ==> k in after)
            && |left| <= 1
            && (left != [] ==> TaskHolds(left[0]))
  {
    hide Filter, IsShell, IsAsset, Stale;
    match t
    case ToShell(k) => PutHolds(cache, k);
    case ToPut(k) => PutHolds(cache, k);
    case ToCount => StaleHolds(cache);
    case ToEvict(stale) =>
      if stale != [] {
        assert stale[0] in stale;
        PutHolds(cache, stale[0]);
        ShellIsNoAsset(stale[0]);
      }
  }

  lemma StepHolds(w: Worker, e: Event)
    requires Holds(w)
    ensures Holds(Step(w, e))
    ensures forall k :: k in w.cache && IsShell(k) ==> k in Step(w, e).cache
  {
    hide IsShell, IsAsset, Advanced, NoRepeats;
    if e.Advance? && e.index < |w.tasks| {
      AdvancedHolds(w.cache, w.tasks[e.index]);
    }
  }

  /** Deletions and the like keep a promise that a store will fit; only a new asset can break it. */
  lemma FitsOn(cache: Cache, after: Cache, t: Task)
    requires WillFit(cache, t) && AssetSet(after) <= AssetSet(cache)
    ensures WillFit(after, t)
  {
    if t.ToEvict? {
      SubsetSize(AssetSet(after) - KeySet(t.stale), AssetSet(cache) - KeySet(t.stale));
    }
  }

  lemma EvictFits(cache: Cache, stale: seq<Key>)
    requires NoRepeats(cache) && stale != []
    ensures var after := Delete(cache, stale[0]);
            && AssetSet(after) <= AssetSet(cache)
            && (WillFit(cache, ToEvict(stale)) ==>
                  if stale[1..] == [] then |AssetSet(after)| <= ASSET_BUDGET else WillFit(after, ToEvict(stale[1..])))
  {
    hide Filter, IsAsset, NoRepeats;
    var after := Delete(cache, stale[0]);
    PutHolds(cache, stale[0]);
    var left, before := AssetSet(after) - KeySet(stale[1..]), AssetSet(cache) - KeySet(stale);
    assert stale == [stale[0]] + stale[1..];
    assert KeySet(stale) <= {stale[0]} + KeySet(stale[1..]);
    assert left <= before;
    SubsetSize(left, before);
    assert stale[1..] == [] ==> left == AssetSet(after);
  }

  lemma AdvancedFits(cache: Cache, t: Task)
    requires NoRepeats(cache) && TaskHolds(t)
    ensures var (after, left) := Advanced(cache, t);
            && (t.ToPut? || AssetSet(after) <= AssetSet(cache))
            && (t.ToPut? || WillFit(cache, t) ==>
                  |AssetSet(after)| <= ASSET_BUDGET || (left != [] && WillFit(after, left[0])))
  {
    hide Filter, Stale, NoRepeats, Put, Delete;
    match t
    case ToShell(k) =>
      PutHolds(cache, k);
      ShellIsNoAsset(k);
    case ToPut(k) =>
    case ToCount =>
      StaleHolds(cache);
      assert Stale(cache) == [] ==> AssetSet(cache) - KeySet(Stale(cache)) == AssetSet(cache);
    case ToEvict(stale) =>
      if stale == [] {
        assert AssetSet(cache) - KeySet(stale) == AssetSet(cache);
      } else {
        EvictFits(cache, stale);
      }
  }

  lemma StepBounded(w: Worker, e: Event)
    requires Holds(w) && Bounded(w)
    ensures Bounded(Step(w, e))
  {
    hide IsShell, IsAsset, Advanced, NoRepeats, WillFit, AssetSet;
    var after := Step(w, e);
    match e
    case Answered(r, ok) =>
      if i :| 0 <= i < |w.tasks| && WillFit(w.cache, w.tasks[i]) {
        assert after.tasks[i] == w.tasks[i];
      }
    case Advance(index) =>
      if index < |w.tasks| {
        var t := w.tasks[index];
        var (cache, left) := Advanced(w.cache, t);
        AdvancedHolds(w.cache, t);
        AdvancedFits(w.cache, t);
        if left != [] {
          assert after.tasks[index] == left[0];
        }
        if !t.ToPut? {
          if i :| 0 <= i < |w.tasks| && WillFit(w.cache, w.tasks[i]) {
            if i != index {
              FitsOn(w.cache, cache, w.tasks[i]);
              assert after.tasks[if i < index then i else i - 1 + |left|] == w.tasks[i];
            }
          } else {
            SubsetSize(AssetSet(cache), AssetSet(w.cache));
          }
        }
      }
  }

  lemma {:induction false} PlayHolds(w: Worker, events: seq<Event>)
    requires Holds(w) && Bounded(w)
    ensures Holds(Play(w, events)) && Bounded(Play(w, events))
    ensures forall k :: k in w.cache && IsShell(k) ==> k in Play(w, events).cache
    decreases |events|
  {
    hide Holds, Bounded, Step, IsShell;
    if events != [] {
      StepHolds(w, events[0]);
      StepBounded(w, events[0]);
      PlayHolds(Step(w, events[0]), events[1..]);
    }
  }

  lemma ShellPathsDiffer()
    ensures forall i, j :: 0 <= i < j < |SHELL_URLS| ==> SHELL_URLS[i] != SHELL_URLS[j]
  {
    assert |SHELL_URLS[0]| == 1 && |SHELL_URLS[1]| == 11 && |SHELL_URLS[2]| == 21 && |SHELL_URLS[3]| == 12;
    assert SHELL_URLS[3][6] == '3' && SHELL_URLS[4][6] == '6' && |SHELL_URLS[4]| == 12 && |SHELL_URLS[5]| == 13;
  }

  lemma InstalledHolds()
    ensures Holds(Installed()) && Bounded(Installed())
    ensures forall path :: path in SHELL_URLS ==> Key(path, "") in Installed().cache
  {
    var cache := Installed().cache;
    assert forall i :: 0 <= i < |cache| ==> cache[i].path == SHELL_URLS[i] && cache[i].path in SHELL_URLS;
    ShellPathsDiffer();
    hide SHELL_URLS, StartsWith;
    assert NoRepeats(cache);
    forall k ensures k !in AssetSet(cache) {
      ShellIsNoAsset(k);
    }
    assert AssetSet(cache) == {};
  }

  /**
   Over every interleaving from install on: whenever no store is between its put and its last deletion, at most the
   budget of assets is cached; every entry is a shell path or an asset, so never an API answer; and every shell entry
   of the install is still there, so a navigation without a network always finds something to show.
   */
  lemma CacheStaysSound(events: seq<Event>)
    ensures var w := Play(Installed(), events);
            && ((forall i :: 0 <= i < |w.tasks| ==> w.tasks[i].ToPut? || w.tasks[i].ToShell?) ==>
                  |Assets(w.cache)| <= 40)
            && (forall k :: k in w.cache ==> (IsShell(k) || IsAsset(k)) && !StartsWith(k.path, "/api/"))
            && (forall path :: path in SHELL_URLS ==> Key(path, "") in w.cache)
            && forall r: Request :: r.navigate && Handles(r) ==> Offline(w.cache, r).FromCache?
  {
    hide Play, IsAsset, StartsWith, Filter;
    var w := Play(Installed(), events);
    InstalledHolds();
    PlayHolds(Installed(), events);
    forall k | k in w.cache ensures !StartsWith(k.path, "/api/") {
      ShellIsNoAsset(k);
    }
    forall path | path in SHELL_URLS ensures Key(path, "") in w.cache {
      assert IsShell(Key(path, ""));
    }
    assert SHELL_URLS[1] == "/index.html";
    assert AssetSet(w.cache) == KeySet(Assets(w.cache));
    FilterKeepsDistinct(w.cache, IsAsset);
    KeySetSize(Assets(w.cache));
  }

  /** What becomes of a request when the network fails: left alone, answered from the cache, or answered 503. */
  datatype Fallback = NotOurs | FromCache(key: Key) | Unavailable

  function Offline(cache: Cache, r: Request): Fallback {
    if !Handles(r) then NotOurs
    else if r.key in cache then FromCache(r.key)
    else if r.navigate && Key("/index.html", "") in cache then FromCache(Key("/index.html", ""))
    else Unavailable
  }

  /**
   The worker leaves alone the API, anything but a GET and other origins, on a miss too. Of the rest, the entry itself is
   answered when there is one; else a navigation gets the shell's page and anything else nothing.
   */
  lemma OfflineIs(cache: Cache, r: Request, k: Key)
    ensures Offline(cache, r).NotOurs? <==>
              (|r.key.path| >= 5 && r.key.path[..5] == "/api/") || !r.get || !r.ownOrigin
    ensures Offline(cache, r) == FromCache(k) <==>
              && !Offline(cache, r).NotOurs? && k in cache
              && (k == r.key || (r.key !in cache && r.navigate && k == Key("/index.html", "")))
  {
  }

  // ---- where entries come from -----------------------------------------------------------------

  /**
   An answer starts a store of its key exactly when it is an OK to a GET of this origin for one of the fixed paths or
   something under `/assets/`; otherwise it changes nothing.
   */
  lemma StartsIff(w: Worker, r: Request, ok: bool)
    ensures var shell, asset := r.key.path in SHELL_URLS, |r.key.path| >= 8 && r.key.path[..8] == "/assets/";
            Step(w, Answered(r, ok)) ==
              if ok && r.get && r.ownOrigin && shell then w.(tasks := w.tasks + [ToShell(r.key)])
              else if ok && r.get && r.ownOrigin && asset then w.(tasks := w.tasks + [ToPut(r.key)])
              else w
  {
    ShellIsNoAsset(r.key);
    assert w.tasks + [] == w.tasks;
  }

  /** A store's put leaves its key last in the cache, and takes no other entry out. */
  lemma PutLands(w: Worker, i: nat)
    requires i < |w.tasks| && (w.tasks[i].ToShell? || w.tasks[i].ToPut?)
    ensures var after, k := Step(w, Advance(i)).cache, w.tasks[i].key;
            && after != [] && after[|after| - 1] == k
            && forall c :: c in after <==> c in w.cache || c == k
  {
  }

  /** What an event makes cachable: the key of an OK to a GET of this origin. */
  function Granted(e: Event): set<Key> {
    match e
    case Answered(r, ok) => if ok && r.get && r.ownOrigin then {r.key} else {}
    case Advance(_) => {}
  }

  function AllGranted(events: seq<Event>): (keys: set<Key>)
    ensures forall k :: k in keys <==> exists i :: 0 <= i < |events| && k in Granted(events[i])
  {
    if events == [] then {} else Granted(events[0]) + AllGranted(events[1..])
  }

  /** Everything cached, or on its way into the cache, was granted. */
  ghost predicate Covered(w: Worker, granted: set<Key>) {
    && (forall k :: k in w.cache ==> k in granted)
    && (forall i :: 0 <= i < |w.tasks| ==> (w.tasks[i].ToShell? || w.tasks[i].ToPut? ==> w.tasks[i].key in granted))
  }

  lemma StepCovers(w: Worker, e: Event, granted: set<Key>)
    requires Covered(w, granted)
    ensures Covered(Step(w, e), granted + Granted(e))
  {
    match e
    case Answered(r, ok) => StartsIff(w, r, ok);
    case Advance(i) =>
      if i < |w.tasks| {
        AdvancedCovers(w.cache, w.tasks[i], granted);
        hide Advanced;
      }
  }

  lemma AdvancedCovers(cache: Cache, t: Task, granted: set<Key>)
    requires (forall k :: k in cache ==> k in granted) && (t.ToShell? || t.ToPut? ==> t.key in granted)
    ensures var (after, left) := Advanced(cache, t);
            && (forall k :: k in after ==> k in granted)
            && (forall j :: 0 <= j < |left| ==> !left[j].ToShell? && !left[j].ToPut?)
  {
    hide Stale;
  }

  lemma {:induction false} PlayCovers(w: Worker, events: seq<Event>, granted: set<Key>)
    requires Covered(w, granted)
    ensures Covered(Play(w, events), granted + AllGranted(events))
    decreases |events|
  {
    hide Covered, Step, Granted;
    if events == [] {
      assert granted + {} == granted;
    } else {
      StepCovers(w, events[0], granted);
      PlayCovers(Step(w, events[0]), events[1..], granted + Granted(events[0]));
      assert granted + AllGranted(events) == granted + Granted(events[0]) + AllGranted(events[1..]);
    }
  }

  /**
   Over every interleaving from install on, an entry was either installed or is the key of an OK, earlier in the run, to a
   GET of this origin: no error page, no answer to anything else, and nothing of another origin is ever kept.
   */
  lemma EntriesWereAnswered(events: seq<Event>, k: Key)
    requires k in Play(Installed(), events).cache
    ensures k in Installed().cache
            || exists i :: 0 <= i < |events| && events[i].Answered? && events[i].ok
                           && events[i].request.get && events[i].request.ownOrigin && events[i].request.key == k
  {
    hide Play, Installed;
    var installed := set c | c in Installed().cache;
    NothingStarted();
    PlayCovers(Installed(), events, installed);
    if k !in installed {
      var i :| 0 <= i < |events| && k in Granted(events[i]);
      assert events[i].Answered?;
    }
  }

  lemma NothingStarted()
    ensures Installed().tasks == []
  {
  }
}
