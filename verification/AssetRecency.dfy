/**
 Which assets the service worker's cache is left with: the most recently put ones when stores do not overlap, and exactly
 when when they do.
 */
module AssetRecency {
  import opened Sequences
  import opened ServiceWorker

  // ---- one store at a time ---------------------------------------------------------------------

  function DeleteAll(cache: Cache, keys: seq<Key>): Cache
    decreases |keys|
  {
    if keys == [] then cache else DeleteAll(Delete(cache, keys[0]), keys[1..])
  }

  /** `keepAsset` with nothing else going on. */
  function Kept(cache: Cache, k: Key): Cache {
    DeleteAll(Put(cache, k), Stale(Put(cache, k)))
  }

  class ShellCache {
    var entries: Cache

    constructor ()
      ensures entries == Installed().cache
    {
      entries := Installed().cache;
    }

    method KeepAsset(k: Key)
      modifies this
      ensures entries == Kept(old(entries), k)
    {
      hide Filter;
      entries := Put(entries, k);
      var assets := Assets(entries);
      var stale := if |assets| > ASSET_BUDGET then assets[..|assets| - ASSET_BUDGET] else [];
      ghost var all := DeleteAll(entries, stale);
      for j := 0 to |stale|
        invariant DeleteAll(entries, stale[j..]) == all
      {
        assert stale[j..][0] == stale[j] && stale[j..][1..] == stale[j + 1..];
        entries := Delete(entries, stale[j]);
      }
    }
  }

  /** The n-fold step of one store. */
  function Advances(i: nat, n: nat): seq<Event> {
    if n == 0 then [] else [Advance(i)] + Advances(i, n - 1)
  }

  lemma {:induction false} EvictsAlone(w: Worker, i: nat, stale: seq<Key>)
    requires i < |w.tasks| && w.tasks[i] == ToEvict(stale) && stale != []
    ensures Play(w, Advances(i, |stale|)) == Worker(DeleteAll(w.cache, stale), w.tasks[..i] + w.tasks[i + 1..])
    decreases |stale|
  {
    hide Delete;
    var next := Step(w, Advance(i));
    assert Advances(i, |stale|)[1..] == Advances(i, |stale| - 1);
    if |stale| > 1 {
      EvictsAlone(next, i, stale[1..]);
      assert next.tasks[..i] == w.tasks[..i] && next.tasks[i + 1..] == w.tasks[i + 1..];
    } else {
      assert Advances(i, 0) == [];
      assert DeleteAll(w.cache, stale) == DeleteAll(Delete(w.cache, stale[0]), []);
    }
  }

  /** A store that is not interrupted does to the cache what `Kept` says. */
  lemma StoreAlone(w: Worker, i: nat, k: Key)
    requires i < |w.tasks| && w.tasks[i] == ToPut(k)
    ensures Play(w, Advances(i, 2 + |Stale(Put(w.cache, k))|))
            == Worker(Kept(w.cache, k), w.tasks[..i] + w.tasks[i + 1..])
  {
    hide Delete, Stale;
    var stale := Stale(Put(w.cache, k));
    var one := Step(w, Advance(i));
    var two := Step(one, Advance(i));
    assert one.tasks[..i] == w.tasks[..i] && one.tasks[i + 1..] == w.tasks[i + 1..];
    assert Advances(i, 2 + |stale|)[1..] == Advances(i, 1 + |stale|);
    assert Advances(i, 1 + |stale|)[1..] == Advances(i, |stale|);
    assert two.tasks == w.tasks[..i] + Evicting(stale) + w.tasks[i + 1..];
    if stale != [] {
      EvictsAlone(two, i, stale);
      assert two.tasks[..i] == w.tasks[..i] && two.tasks[i + 1..] == w.tasks[i + 1..];
    } else {
      assert w.tasks[..i] + [] == w.tasks[..i];
      assert Advances(i, 0) == [] && Play(two, []) == two;
      assert DeleteAll(two.cache, []) == two.cache;
    }
  }

  // ---- which assets survive --------------------------------------------------------------------

  function LastOnes(keys: seq<Key>, n: nat): seq<Key> {
    if |keys| <= n then keys else keys[|keys| - n..]
  }

  lemma {:induction false} DeleteAbsent(keys: seq<Key>, k: Key)
    requires k !in keys
    ensures Delete(keys, k) == keys
  {
    if keys != [] {
      DeleteAbsent(keys[1..], k);
    }
  }

  lemma {:induction false} DeletePresent(keys: seq<Key>, k: Key)
    requires k in keys && NoRepeats(keys)
    ensures |Delete(keys, k)| == |keys| - 1
    ensures keys[0] == k ==> Delete(keys, k) == keys[1..]
  {
    if keys[0] == k {
      DeleteAbsent(keys[1..], k);
    } else {
      DeletePresent(keys[1..], k);
    }
  }

  lemma {:induction false} DeleteThenAssets(cache: Cache, k: Key)
    ensures Assets(Delete(cache, k)) == Delete(Assets(cache), k)
  {
    hide IsAsset;
    if cache != [] {
      DeleteThenAssets(cache[1..], k);
      var head := if cache[0] != k then [cache[0]] else [];
      FilterConcat(head, Delete(cache[1..], k), IsAsset);
      var asset := if IsAsset(cache[0]) then [cache[0]] else [];
      FilterConcat(asset, Assets(cache[1..]), c => c != k);
    }
  }

  lemma {:induction false} EvictingDropsOldest(cache: Cache, n: nat)
    requires NoRepeats(cache) && n <= |Assets(cache)|
    ensures Assets(DeleteAll(cache, Assets(cache)[..n])) == Assets(cache)[n..]
    decreases n
  {
    hide Filter, IsAsset;
    var assets := Assets(cache);
    if n > 0 {
      FilterKeepsDistinct(cache, IsAsset);
      DeletePresent(assets, assets[0]);
      DeleteThenAssets(cache, assets[0]);
      PutHolds(cache, assets[0]);
      EvictingDropsOldest(Delete(cache, assets[0]), n - 1);
      assert assets[..n][1..] == assets[1..][..n - 1];
    }
  }

  lemma KeptAssets(cache: Cache, k: Key)
    requires NoRepeats(cache) && IsAsset(k)
    ensures Assets(Kept(cache, k)) == LastOnes(Put(Assets(cache), k), ASSET_BUDGET)
  {
    hide Filter, IsAsset;
    var put := Put(cache, k);
    PutHolds(cache, k);
    DeleteThenAssets(cache, k);
    FilterConcat(Delete(cache, k), [k], IsAsset);
    assert Assets([k]) == [k] by {
      OnlyAsset(k);
    }
    EvictingDropsOldest(put, |Stale(put)|);
  }

  lemma OnlyAsset(k: Key)
    ensures Assets([k]) == if IsAsset(k) then [k] else []
  {
    assert [k][1..] == [];
  }

  lemma {:induction false} DeleteAllHolds(cache: Cache, keys: seq<Key>)
    requires NoRepeats(cache)
    ensures NoRepeats(DeleteAll(cache, keys))
    decreases |keys|
  {
    if keys != [] {
      PutHolds(cache, keys[0]);
      DeleteAllHolds(Delete(cache, keys[0]), keys[1..]);
    }
  }

  lemma DeleteFromBoth(first: seq<Key>, last: seq<Key>, k: Key)
    requires NoRepeats(first + last)
    ensures Put(first + last, k) == Delete(first, k) + Put(last, k)
    ensures k in last ==> Delete(first, k) == first && |Put(last, k)| == |last|
    ensures k !in last ==> Put(last, k) == last + [k]
    ensures first == [] ==> Delete(first, k) == []
  {
    hide Filter;
    FilterConcat(first, last, c => c != k);
    if k in last {
      assert k !in first by {
        var j :| 0 <= j < |last| && last[j] == k;
        assert (first + last)[|first| + j] == k;
        assert forall i :: 0 <= i < |first| ==> (first + last)[i] == first[i];
      }
      assert forall i :: 0 <= i < |last| ==> last[i] == (first + last)[|first| + i];
      DeletePresent(last, k);
    } else {
      DeleteAbsent(last, k);
    }
    if k !in first {
      DeleteAbsent(first, k);
    }
  }

  /** Keeping only the last n before a put changes nothing about the last n after it. */
  lemma LastOnesOfPut(keys: seq<Key>, k: Key, n: nat)
    requires NoRepeats(keys) && n > 0
    ensures LastOnes(Put(LastOnes(keys, n), k), n) == LastOnes(Put(keys, k), n)
  {
    hide Put, Delete, NoRepeats;
    var last := LastOnes(keys, n);
    var first := keys[..|keys| - |last|];
    assert keys == first + last;
    DeleteFromBoth(first, last, k);
  }

  /** Assets fetched one after another, each store through before the next begins. */
  function KeepAll(cache: Cache, keys: seq<Key>): Cache {
    if keys == [] then cache else Kept(KeepAll(cache, keys[..|keys| - 1]), keys[|keys| - 1])
  }

  /** The keys ever put, each once, in the order of their last put. */
  function Recent(keys: seq<Key>): seq<Key> {
    if keys == [] then [] else Put(Recent(keys[..|keys| - 1]), keys[|keys| - 1])
  }

  /** When a key was last put; -1 for never. */
  function LastPut(keys: seq<Key>, k: Key): (i: int)
    ensures -1 <= i < |keys|
    ensures i >= 0 ==> keys[i] == k
    ensures forall j :: i < j < |keys| ==> keys[j] != k
  {
    var last := |keys| - 1;
    if keys == [] then -1 else if keys[last] == k then last else LastPut(keys[..last], k)
  }

  lemma {:induction false} DeleteAscends(keys: seq<Key>, k: Key, rank: Key -> int)
    requires Ascends(keys, rank)
    ensures Ascends(Delete(keys, k), rank)
  {
    if keys != [] {
      var rest := Delete(keys[1..], k);
      DeleteAscends(keys[1..], k, rank);
      forall j | 0 <= j < |rest| ensures rank(keys[0]) < rank(rest[j]) {
        assert rest[j] in rest;
        var q :| 0 <= q < |keys[1..]| && keys[1..][q] == rest[j];
        assert keys[q + 1] == rest[j];
      }
    }
  }

  lemma {:induction false} RecentHolds(keys: seq<Key>)
    ensures NoRepeats(Recent(keys))
    ensures forall k :: k in Recent(keys) <==> k in keys
    ensures Ascends(Recent(keys), k => LastPut(keys, k))
  {
    hide Filter;
    if keys != [] {
      var before, k := keys[..|keys| - 1], keys[|keys| - 1];
      var was, now := Recent(before), Recent(keys);
      var kept := Delete(was, k);
      RecentHolds(before);
      PutHolds(was, k);
      assert keys == before + [k];
      DeleteAscends(was, k, c => LastPut(before, c));
      forall i, j | 0 <= i < j < |now| ensures LastPut(keys, now[i]) < LastPut(keys, now[j]) {
        assert now[i] in kept;
        assert j < |kept| ==> now[j] in kept;
      }
    }
  }

  /** Without overlap the assets left are the most recently put ones, as many as the budget allows. */
  lemma {:induction false} SurvivorsAreMostRecent(cache: Cache, keys: seq<Key>)
    requires NoRepeats(cache) && Assets(cache) == [] && forall k :: k in keys ==> IsAsset(k)
    ensures NoRepeats(KeepAll(cache, keys))
    ensures Assets(KeepAll(cache, keys)) == LastOnes(Recent(keys), ASSET_BUDGET)
  {
    hide Filter, IsAsset;
    if keys != [] {
      var before, k := keys[..|keys| - 1], keys[|keys| - 1];
      var was := KeepAll(cache, before);
      SurvivorsAreMostRecent(cache, before);
      RecentHolds(before);
      PutHolds(was, k);
      DeleteAllHolds(Put(was, k), Stale(Put(was, k)));
      KeptAssets(was, k);
      LastOnesOfPut(Recent(before), k, ASSET_BUDGET);
    }
  }

  // ---- which assets survive an overlap ---------------------------------------------------------

  lemma LastOnesAreIn(keys: seq<Key>, n: nat)
    ensures forall k :: k in LastOnes(keys, n) ==> k in keys
  {
    var last := LastOnes(keys, n);
    assert keys == keys[..|keys| - |last|] + last;
  }

  lemma DeleteKeepsLast(first: seq<Key>, last: seq<Key>, k: Key, n: nat)
    requires k !in last && |last| <= n && (first != [] ==> |last| == n)
    ensures LastOnes(Delete(first + last, k), n) == last
  {
    FilterConcat(first, last, c => c != k);
    DeleteAbsent(last, k);
    assert first == [] ==> Delete(first, k) == [];
    hide Delete, Filter;
  }

  lemma DeleteOutsideLast(keys: seq<Key>, k: Key, n: nat)
    ensures LastOnes(Delete(keys, k), n) == LastOnes(keys, n) <==> k !in LastOnes(keys, n)
  {
    var last := LastOnes(keys, n);
    if k in last {
      LastOnesAreIn(Delete(keys, k), n);
      hide LastOnes, Filter;
    } else {
      assert keys == keys[..|keys| - |last|] + last;
      DeleteKeepsLast(keys[..|keys| - |last|], last, k, n);
    }
  }

  /** One deletion costs one of the most recent assets exactly when it is one of them it deletes. */
  lemma EvictionLosesRecentIff(w: Worker, i: nat)
    requires Holds(w) && i < |w.tasks| && w.tasks[i].ToEvict? && w.tasks[i].stale != []
    ensures LastOnes(Assets(Step(w, Advance(i)).cache), ASSET_BUDGET) == LastOnes(Assets(w.cache), ASSET_BUDGET)
            <==> w.tasks[i].stale[0] !in LastOnes(Assets(w.cache), ASSET_BUDGET)
  {
    hide Filter, IsAsset;
    var k := w.tasks[i].stale[0];
    DeleteThenAssets(w.cache, k);
    FilterKeepsDistinct(w.cache, IsAsset);
    DeleteOutsideLast(Assets(w.cache), k, ASSET_BUDGET);
  }

  /** The asset this step puts, if it puts one. */
  function Putting(w: Worker, e: Event): seq<Key> {
    if e.Advance? && e.index < |w.tasks| && w.tasks[e.index].ToPut? then [w.tasks[e.index].key] else []
  }

  function PutsOf(w: Worker, events: seq<Event>): seq<Key>
    decreases |events|
  {
    if events == [] then [] else Putting(w, events[0]) + PutsOf(Step(w, events[0]), events[1..])
  }

  /** This step puts no key that a store under way is still going to delete. */
  predicate Spares(w: Worker, e: Event) {
    forall i :: 0 <= i < |w.tasks| && w.tasks[i].ToEvict? ==>
      forall k :: k in Putting(w, e) ==> k !in w.tasks[i].stale
  }

  predicate AllSpare(w: Worker, events: seq<Event>)
    decreases |events|
  {
    events != [] ==> Spares(w, events[0]) && AllSpare(Step(w, events[0]), events[1..])
  }

  /** What a store is still going to delete is not among the most recent. */
  ghost predicate EvictsOld(cache: Cache, t: Task) {
    t.ToEvict? ==> forall k :: k in t.stale ==> k !in LastOnes(Assets(cache), ASSET_BUDGET)
  }

  /** The most recent assets cached are the most recent ones put, and no store under way is after one of them. */
  ghost predicate KeepsRecent(w: Worker, puts: seq<Key>) {
    && LastOnes(Assets(w.cache), ASSET_BUDGET) == LastOnes(Recent(puts), ASSET_BUDGET)
    && forall i :: 0 <= i < |w.tasks| ==> EvictsOld(w.cache, w.tasks[i])
  }

  lemma StaleIsOld(cache: Cache)
    requires NoRepeats(cache)
    ensures EvictsOld(cache, ToEvict(Stale(cache)))
  {
    hide Filter;
    var assets := Assets(cache);
    FilterKeepsDistinct(cache, IsAsset);
    forall k | k in Stale(cache) ensures k !in LastOnes(assets, ASSET_BUDGET) {
      var i :| 0 <= i < |Stale(cache)| && Stale(cache)[i] == k;
      assert assets[i] == k;
    }
  }

  lemma ShellPutsNoAsset(cache: Cache, k: Key)
    requires IsShell(k)
    ensures Assets(Put(cache, k)) == Assets(cache)
  {
    hide Filter;
    ShellIsNoAsset(k);
    DeleteThenAssets(cache, k);
    DeleteAbsent(Assets(cache), k);
    FilterConcat(Delete(cache, k), [k], IsAsset);
    OnlyAsset(k);
  }

  lemma AssetsOfPut(cache: Cache, k: Key)
    requires IsAsset(k)
    ensures Assets(Put(cache, k)) == Put(Assets(cache), k)
  {
    hide Filter;
    DeleteThenAssets(cache, k);
    FilterConcat(Delete(cache, k), [k], IsAsset);
    OnlyAsset(k);
  }

  /** One step of a store that is after no recent asset. */
  lemma AdvancedKeepsRecent(cache: Cache, t: Task)
    requires NoRepeats(cache) && TaskHolds(t) && EvictsOld(cache, t)
    ensures var (after, left) := Advanced(cache, t);
            && (t.ToPut? ==> Assets(after) == Put(Assets(cache), t.key))
            && (!t.ToPut? ==> LastOnes(Assets(after), ASSET_BUDGET) == LastOnes(Assets(cache), ASSET_BUDGET))
            && (left != [] ==> EvictsOld(after, left[0]))
  {
    hide Filter, Stale, IsAsset, LastOnes;
    match t
    case ToShell(k) => ShellPutsNoAsset(cache, k);
    case ToPut(k) => AssetsOfPut(cache, k);
    case ToCount => StaleIsOld(cache);
    case ToEvict(stale) =>
      if stale != [] {
        DeleteThenAssets(cache, stale[0]);
        FilterKeepsDistinct(cache, IsAsset);
        assert stale[0] in stale;
        DeleteOutsideLast(Assets(cache), stale[0], ASSET_BUDGET);
      }
  }

  /** A put adds nothing to the most recent but the key put. */
  lemma PutAddsOne(keys: seq<Key>, k: Key, n: nat)
    requires NoRepeats(keys) && n > 0
    ensures forall c :: c in LastOnes(Put(keys, k), n) ==> c == k || c in LastOnes(keys, n)
  {
    var last := LastOnes(keys, n);
    LastOnesOfPut(keys, k, n);
    LastOnesAreIn(Put(last, k), n);
    hide LastOnes, Filter, NoRepeats;
  }

  lemma StepKeepsRecent(w: Worker, e: Event, puts: seq<Key>)
    requires Holds(w) && KeepsRecent(w, puts) && Spares(w, e)
    ensures KeepsRecent(Step(w, e), puts + Putting(w, e))
  {
    hide Advanced, LastOnes, IsShell, IsAsset, Put, Assets;
    if e.Advance? && e.index < |w.tasks| {
      var t := w.tasks[e.index];
      var (after, left) := Advanced(w.cache, t);
      AdvancedHolds(w.cache, t);
      AdvancedKeepsRecent(w.cache, t);
      if t.ToPut? {
        assert (puts + [t.key])[..|puts|] == puts;
        FilterKeepsDistinct(w.cache, IsAsset);
        assert NoRepeats(Assets(w.cache)) by {
          AssetsAreDistinct(w.cache);
        }
        RecentHolds(puts);
        LastOnesOfPut(Assets(w.cache), t.key, ASSET_BUDGET);
        LastOnesOfPut(Recent(puts), t.key, ASSET_BUDGET);
        PutAddsOne(Assets(w.cache), t.key, ASSET_BUDGET);
        assert t.key in Putting(w, e);
      } else {
        assert puts + Putting(w, e) == puts;
      }
    } else {
      assert puts + Putting(w, e) == puts;
    }
  }

  lemma AssetsAreDistinct(cache: Cache)
    requires NoRepeats(cache)
    ensures NoRepeats(Assets(cache))
  {
    FilterKeepsDistinct(cache, IsAsset);
  }

  lemma {:induction false} PlayKeepsRecent(w: Worker, events: seq<Event>, puts: seq<Key>)
    requires Holds(w) && KeepsRecent(w, puts) && AllSpare(w, events)
    ensures KeepsRecent(Play(w, events), puts + PutsOf(w, events))
    decreases |events|
  {
    hide Holds, KeepsRecent, Step, Spares;
    if events == [] {
      assert puts + [] == puts;
    } else {
      StepHolds(w, events[0]);
      StepKeepsRecent(w, events[0], puts);
      PlayKeepsRecent(Step(w, events[0]), events[1..], puts + Putting(w, events[0]));
      assert puts + Putting(w, events[0]) + PutsOf(Step(w, events[0]), events[1..])
             == puts + (Putting(w, events[0]) + PutsOf(Step(w, events[0]), events[1..]));
    }
  }

  /** This step deletes one of the most recent assets. */
  predicate EvictsRecent(w: Worker, e: Event) {
    && e.Advance? && e.index < |w.tasks| && w.tasks[e.index].ToEvict? && w.tasks[e.index].stale != []
    && w.tasks[e.index].stale[0] in LastOnes(Assets(w.cache), ASSET_BUDGET)
  }

  predicate NoneEvictsRecent(w: Worker, events: seq<Event>)
    decreases |events|
  {
    events != [] ==> !EvictsRecent(w, events[0]) && NoneEvictsRecent(Step(w, events[0]), events[1..])
  }

  /** At every moment of the run the most recent assets cached are the most recent ones put. */
  ghost predicate AlwaysRecent(w: Worker, puts: seq<Key>, events: seq<Event>)
    decreases |events|
  {
    && LastOnes(Assets(w.cache), ASSET_BUDGET) == LastOnes(Recent(puts), ASSET_BUDGET)
    && (events != [] ==> AlwaysRecent(Step(w, events[0]), puts + Putting(w, events[0]), events[1..]))
  }

  /** One step keeps the promise exactly when it deletes none of the most recent. */
  lemma StepKeepsRecentIff(w: Worker, e: Event, puts: seq<Key>)
    requires Holds(w) && LastOnes(Assets(w.cache), ASSET_BUDGET) == LastOnes(Recent(puts), ASSET_BUDGET)
    ensures LastOnes(Assets(Step(w, e).cache), ASSET_BUDGET) == LastOnes(Recent(puts + Putting(w, e)), ASSET_BUDGET)
            <==> !EvictsRecent(w, e)
  {
    hide LastOnes, IsShell, IsAsset, Put, Assets, Filter, Stale;
    if e.Advance? && e.index < |w.tasks| {
      var t := w.tasks[e.index];
      match t
      case ToShell(k) =>
        ShellPutsNoAsset(w.cache, k);
        assert puts + Putting(w, e) == puts;
      case ToPut(k) =>
        assert (puts + [k])[..|puts|] == puts;
        AssetsOfPut(w.cache, k);
        AssetsAreDistinct(w.cache);
        RecentHolds(puts);
        LastOnesOfPut(Assets(w.cache), k, ASSET_BUDGET);
        LastOnesOfPut(Recent(puts), k, ASSET_BUDGET);
      case ToCount => assert puts + Putting(w, e) == puts;
      case ToEvict(stale) =>
        assert puts + Putting(w, e) == puts;
        if stale != [] {
          EvictionLosesRecentIff(w, e.index);
        }
    } else {
      assert puts + Putting(w, e) == puts;
    }
  }

  lemma {:induction false} PlayKeepsRecentIff(w: Worker, puts: seq<Key>, events: seq<Event>)
    requires Holds(w) && LastOnes(Assets(w.cache), ASSET_BUDGET) == LastOnes(Recent(puts), ASSET_BUDGET)
    ensures AlwaysRecent(w, puts, events) <==> NoneEvictsRecent(w, events)
    decreases |events|
  {
    hide Holds, LastOnes, Assets, Recent, Step, EvictsRecent;
    if events != [] {
      StepHolds(w, events[0]);
      StepKeepsRecentIff(w, events[0], puts);
      if !EvictsRecent(w, events[0]) {
        PlayKeepsRecentIff(Step(w, events[0]), puts + Putting(w, events[0]), events[1..]);
      }
    }
  }

  /**
   Over every interleaving from install on: the most recent assets cached are at every moment the most recent ones put
   exactly when no step deletes one of them.
   */
  lemma OverlapKeepsMostRecentIff(events: seq<Event>)
    ensures AlwaysRecent(Installed(), [], events) <==> NoneEvictsRecent(Installed(), events)
  {
    hide AlwaysRecent, NoneEvictsRecent;
    InstalledHolds();
    NothingPutYet();
    PlayKeepsRecentIff(Installed(), [], events);
  }

  lemma NothingPutYet()
    ensures KeepsRecent(Installed(), [])
  {
    NothingInstalled();
  }

  lemma InstalledIsShell(k: Key)
    ensures k in Installed().cache ==> IsShell(k)
  {
  }

  /**
   Stores may overlap as they please: as long as no key is put while another store is still going to delete it, then
   whenever no store is between its put and its last deletion, the assets cached are the most recently put ones.
   */
  lemma SparingOverlapKeepsMostRecent(events: seq<Event>)
    requires AllSpare(Installed(), events)
    ensures var w := Play(Installed(), events);
            (forall i :: 0 <= i < |w.tasks| ==> w.tasks[i].ToPut? || w.tasks[i].ToShell?) ==>
              Assets(w.cache) == LastOnes(Recent(PutsOf(Installed(), events)), 40)
  {
    hide Play, AllSpare, Installed, PutsOf, Recent, Assets;
    CacheStaysSound(events);
    InstalledHolds();
    NothingPutYet();
    PlayKeepsRecent(Installed(), events, []);
    assert [] + PutsOf(Installed(), events) == PutsOf(Installed(), events);
  }

  /** Two stores about to put: the first puts and reads the keys, the second does, the first deletes, the second does. */
  function OverlapSteps(): seq<Event> {
    [Advance(0), Advance(0), Advance(1), Advance(1), Advance(0), Advance(0)]
  }

  /**
   With overlap the promise can fail. The cache holds its forty assets, whatever else it holds; the oldest of them is put
   again while another store, which has already read the keys, is about to delete it. It goes, though just put, and so
   does one more than needed.
   */
  lemma OverlapLosesTheNewest(cache: Cache, oldest: Key, others: seq<Key>, novel: Key)
    requires Assets(cache) == [oldest] + others && |others| == ASSET_BUDGET - 1
    requires IsAsset(novel) && NoRepeats([oldest] + others + [novel])
    ensures var w := Worker(cache, [ToPut(novel), ToPut(oldest)]);
            var after := Play(w, OverlapSteps());
            && after.tasks == [] && Assets(after.cache) == others[1..] + [novel]
            && !NoneEvictsRecent(w, OverlapSteps())
  {
    hide Put, Delete, Filter, NoRepeats, IsAsset;
    var one := Put(cache, novel);
    var two := Put(one, oldest);
    assert oldest in Assets(cache);
    AssetsOfPut(cache, novel);
    AssetsOfPut(one, oldest);
    OverlapPuts(oldest, others, novel);
    assert Stale(one) == [oldest] && Stale(two) == [others[0]];
    DeleteThenAssets(two, oldest);
    DeleteThenAssets(Delete(two, oldest), others[0]);
    OverlapDeletes(oldest, others, novel);
    OverlapSchedule(cache, oldest, others[0], novel);
    var last := LastOnes(Assets(two), ASSET_BUDGET);
    assert last[ASSET_BUDGET - 1] == oldest;
  }

  lemma OverlapPuts(oldest: Key, others: seq<Key>, novel: Key)
    requires NoRepeats([oldest] + others + [novel])
    ensures Put([oldest] + others, novel) == [oldest] + others + [novel]
    ensures Put([oldest] + others + [novel], oldest) == others + [novel, oldest]
  {
    hide Filter;
    var cache := [oldest] + others;
    var all := cache + [novel];
    assert novel !in cache by {
      assert forall i :: 0 <= i < |cache| ==> all[i] == cache[i] && all[i] != all[|cache|];
    }
    DeleteAbsent(cache, novel);
    DeletePresent(all, oldest);
    assert all[1..] == others + [novel];
    assert others + [novel] + [oldest] == others + [novel, oldest];
  }

  lemma OverlapDeletes(oldest: Key, others: seq<Key>, novel: Key)
    requires others != [] && NoRepeats([oldest] + others + [novel])
    ensures Delete(others + [novel, oldest], oldest) == others + [novel]
    ensures Delete(others + [novel], others[0]) == others[1..] + [novel]
  {
    hide Filter;
    var all, rest := [oldest] + others + [novel], others + [novel];
    assert forall i :: 0 <= i < |rest| ==> rest[i] == all[i + 1] && all[i + 1] != all[0];
    DeleteLast(rest, oldest);
    assert rest + [oldest] == others + [novel, oldest];
    DeletePresent(rest, others[0]);
  }

  lemma DeleteLast(cache: Cache, k: Key)
    requires k !in cache
    ensures Delete(cache + [k], k) == cache
  {
    FilterConcat(cache, [k], c => c != k);
    DeleteAbsent(cache, k);
    assert [k][1..] == [];
  }

  lemma OverlapSchedule(cache: Cache, oldest: Key, second: Key, novel: Key)
    requires var one := Put(cache, novel); Stale(one) == [oldest] && Stale(Put(one, oldest)) == [second]
    ensures var w, two := Worker(cache, [ToPut(novel), ToPut(oldest)]), Put(Put(cache, novel), oldest);
            && Play(w, OverlapSteps()) == Worker(Delete(Delete(two, oldest), second), [])
            && (NoneEvictsRecent(w, OverlapSteps()) ==> oldest !in LastOnes(Assets(two), ASSET_BUDGET))
  {
    hide Filter, Put, Delete, Stale, Assets, LastOnes;
    var one := Put(cache, novel);
    var two := Put(one, oldest);
    var w0 := Worker(cache, [ToPut(novel), ToPut(oldest)]);
    var w1 := Worker(one, [ToCount, ToPut(oldest)]);
    var w2 := Worker(one, [ToEvict([oldest]), ToPut(oldest)]);
    var w3 := Worker(two, [ToEvict([oldest]), ToCount]);
    var w4 := Worker(two, [ToEvict([oldest]), ToEvict([second])]);
    var w5 := Worker(Delete(two, oldest), [ToEvict([second])]);
    assert Step(w0, Advance(0)) == w1 && Step(w1, Advance(0)) == w2 && Step(w2, Advance(1)) == w3;
    assert Step(w3, Advance(1)) == w4 && Step(w4, Advance(0)) == w5;
    assert Step(w5, Advance(0)) == Worker(Delete(Delete(two, oldest), second), []);
    assert EvictsRecent(w4, Advance(0)) <==> oldest in LastOnes(Assets(two), ASSET_BUDGET);
    hide Step, EvictsRecent;
    var e0, e1 := Advance(0), Advance(1);
    assert [e0, e0, e1, e1, e0, e0][1..] == [e0, e1, e1, e0, e0];
    assert [e0, e1, e1, e0, e0][1..] == [e1, e1, e0, e0];
    assert [e1, e1, e0, e0][1..] == [e1, e0, e0];
    assert [e1, e0, e0][1..] == [e0, e0];
    assert [e0, e0][1..] == [e0] && [e0][1..] == [];
  }

  // ---- the same from install on ----------------------------------------------------------------

  /** The network answered a plain request for this asset. */
  function Fetched(k: Key): Event {
    Answered(Request(true, true, k, false), true)
  }

  /** One asset after another fetched and stored, while there is room. */
  function FillingUp(keys: seq<Key>): seq<Event> {
    if keys == [] then [] else [Fetched(keys[0])] + Advances(0, 2) + FillingUp(keys[1..])
  }

  lemma {:induction false} PlayBoth(w: Worker, a: seq<Event>, b: seq<Event>)
    ensures Play(w, a + b) == Play(Play(w, a), b)
    ensures NoneEvictsRecent(w, a + b) ==> NoneEvictsRecent(Play(w, a), b)
    decreases |a|
  {
    if a == [] {
      assert a + b == b;
    } else {
      assert (a + b)[0] == a[0] && (a + b)[1..] == a[1..] + b;
      PlayBoth(Step(w, a[0]), a[1..], b);
    }
  }

  /** A fetched asset starts a store, and nothing else. */
  lemma FetchStarts(w: Worker, k: Key)
    requires IsAsset(k)
    ensures Step(w, Fetched(k)) == w.(tasks := w.tasks + [ToPut(k)])
  {
    ShellIsNoAsset(k);
  }

  lemma FillsOne(w: Worker, k: Key)
    requires w.tasks == [] && IsAsset(k) && k !in Assets(w.cache) && |Assets(w.cache)| < ASSET_BUDGET
    ensures var after := Play(w, [Fetched(k)] + Advances(0, 2));
            after.tasks == [] && Assets(after.cache) == Assets(w.cache) + [k]
  {
    hide Filter, IsAsset, Put, Delete;
    var started := Worker(w.cache, [ToPut(k)]);
    FetchStarts(w, k);
    assert w.tasks + [ToPut(k)] == [ToPut(k)];
    AssetsOfPut(w.cache, k);
    assert Put(Assets(w.cache), k) == Assets(w.cache) + [k] by {
      PutAbsent(Assets(w.cache), k);
    }
    assert Stale(Put(w.cache, k)) == [];
    StoreAlone(started, 0, k);
    assert ([Fetched(k)] + Advances(0, 2))[1..] == Advances(0, 2);
  }

  lemma PutAbsent(keys: seq<Key>, k: Key)
    requires k !in keys
    ensures Put(keys, k) == keys + [k]
  {
    DeleteAbsent(keys, k);
  }

  lemma {:induction false} FillsUp(w: Worker, keys: seq<Key>)
    requires w.tasks == [] && NoRepeats(Assets(w.cache) + keys) && |Assets(w.cache) + keys| <= ASSET_BUDGET
    requires forall k :: k in keys ==> IsAsset(k)
    ensures var after := Play(w, FillingUp(keys));
            after.tasks == [] && Assets(after.cache) == Assets(w.cache) + keys
    decreases |keys|
  {
    hide Assets, IsAsset, Step, Advances, Fetched;
    var assets := Assets(w.cache);
    if keys == [] {
      assert assets + keys == assets;
    } else {
      var first := [Fetched(keys[0])] + Advances(0, 2);
      assert keys[0] !in assets by {
        assert forall i :: 0 <= i < |assets| ==> (assets + keys)[i] == assets[i] && (assets + keys)[|assets|] == keys[0];
      }
      FillsOne(w, keys[0]);
      PlayBoth(w, first, FillingUp(keys[1..]));
      assert assets + [keys[0]] + keys[1..] == assets + keys;
      FillsUp(Play(w, first), keys[1..]);
    }
  }

  /** Forty assets fetched one after another, then a new one and the oldest of them at once. */
  function Rush(oldest: Key, others: seq<Key>, novel: Key): seq<Event> {
    FillingUp([oldest] + others) + ([Fetched(novel), Fetched(oldest)] + OverlapSteps())
  }

  /** So a worker just installed can come to delete an asset it has just put, and to keep 39 where 40 fit. */
  lemma RushLosesTheNewest(oldest: Key, others: seq<Key>, novel: Key)
    requires |others| == ASSET_BUDGET - 1 && NoRepeats([oldest] + others + [novel])
    requires forall k :: k in [oldest] + others + [novel] ==> IsAsset(k)
    ensures var after := Play(Installed(), Rush(oldest, others, novel));
            && after.tasks == [] && Assets(after.cache) == others[1..] + [novel]
            && !NoneEvictsRecent(Installed(), Rush(oldest, others, novel))
            && !AlwaysRecent(Installed(), [], Rush(oldest, others, novel))
  {
    hide Assets, IsAsset, NoneEvictsRecent, AlwaysRecent, FillingUp, OverlapSteps, Fetched, Step, Installed;
    var keys := [oldest] + others;
    var all := keys + [novel];
    assert forall i :: 0 <= i < |keys| ==> keys[i] == all[i];
    assert forall k :: k in keys ==> k in all;
    assert novel in all && oldest in all;
    NothingInstalled();
    assert Assets(Installed().cache) + keys == keys;
    FillsUp(Installed(), keys);
    var full := Play(Installed(), FillingUp(keys));
    var rush := [Fetched(novel), Fetched(oldest)];
    PlayBoth(Installed(), FillingUp(keys), rush + OverlapSteps());
    PlayBoth(full, rush, OverlapSteps());
    BothStart(full, novel, oldest);
    OverlapLosesTheNewest(full.cache, oldest, others, novel);
    OverlapKeepsMostRecentIff(Rush(oldest, others, novel));
  }

  lemma BothStart(w: Worker, a: Key, b: Key)
    requires w.tasks == [] && IsAsset(a) && IsAsset(b)
    ensures Play(w, [Fetched(a), Fetched(b)]) == Worker(w.cache, [ToPut(a), ToPut(b)])
  {
    hide IsAsset, Step, Fetched;
    FetchStarts(w, a);
    assert w.tasks + [ToPut(a)] == [ToPut(a)];
    var one, two := Worker(w.cache, [ToPut(a)]), Worker(w.cache, [ToPut(a), ToPut(b)]);
    assert Step(w, Fetched(a)) == one;
    FetchStarts(one, b);
    assert [ToPut(a)] + [ToPut(b)] == [ToPut(a), ToPut(b)];
    assert Step(one, Fetched(b)) == two;
    assert [Fetched(a), Fetched(b)][1..] == [Fetched(b)] && [Fetched(b)][1..] == [];
    assert Play(one, [Fetched(b)]) == Play(two, []) == two;
  }

  lemma NothingInstalled()
    ensures Assets(Installed().cache) == [] && Installed().tasks == []
  {
    AssetsAreDistinct(Installed().cache) by {
      InstalledHolds();
    }
    var assets := Assets(Installed().cache);
    KeySetSize(assets);
    forall k ensures k !in KeySet(assets) {
      ShellIsNoAsset(k);
      InstalledIsShell(k);
    }
    assert KeySet(assets) == {};
  }
}
