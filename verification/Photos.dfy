/**
 The photo timeline: a breadth-first walk over folders and their cursor pages, on a budget of reads and photos, then
 newest first and month by month. `depth`, `log` and `stopped` are history variables; the program does not keep them.
 */
module Photos {
  import opened Wrappers
  import opened Sequences
  import opened ListingOrder

  /** A page to read: of which folder, from which cursor, how many folders down. */
  datatype Spot = Spot(folder: Option<string>, cursor: Option<string>, depth: nat)

  datatype Budget = Budget(folders: nat, photos: nat)

  /** Whoever answers the n-th read may answer anything, and may change its mind. None is an unreadable folder. */
  type Reader = (Option<string>, Option<string>, nat) -> Option<Page>

  /** `stopped` is the page the walk would have read next in a folder when the budget ran out inside it. */
  datatype Walk = Walk(
    photos: seq<Entry>, queue: seq<Spot>, spent: nat, truncated: bool,
    log: seq<nat>, stopped: Option<Spot>)

  const ROOT := Spot(None, None, 0)

  predicate Shot(e: Entry, image: Entry -> bool) {
    e.kind.File? && image(e)
  }

  function Shots(items: seq<Entry>, image: Entry -> bool): seq<Entry> {
    Filter(items, (e: Entry) => Shot(e, image))
  }

  function Subfolders(items: seq<Entry>, depth: nat): (r: seq<Spot>)
    ensures forall i :: 0 <= i < |r| ==> r[i].depth == depth && r[i].cursor.None?
  {
    if items == [] then []
    else (if items[0].kind.Folder? then [Spot(Some(items[0].id), None, depth)] else []) + Subfolders(items[1..], depth)
  }

  predicate IsFolder(e: Entry) {
    e.kind.Folder?
  }

  /** Of a page's rows the images are photos, each as often as it stands there, and nothing else is. */
  lemma {:induction false} ShotsAre(items: seq<Entry>, image: Entry -> bool, e: Entry)
    ensures multiset(Shots(items, image))[e] == if e.kind.File? && image(e) then multiset(items)[e] else 0
  {
    if items != [] {
      ShotsAre(items[1..], image, e);
      assert items == [items[0]] + items[1..];
    }
  }

  /** Every folder of a page is queued, in order, from its first page on. */
  lemma {:induction false} SubfoldersAre(items: seq<Entry>, depth: nat)
    ensures var folders, spots := Filter(items, IsFolder), Subfolders(items, depth);
            && |spots| == |folders|
            && forall i :: 0 <= i < |spots| ==> spots[i] == Spot(Some(folders[i].id), None, depth)
  {
    if items != [] {
      SubfoldersAre(items[1..], depth);
    }
  }

  predicate Within(w: Walk, budget: Budget) {
    w.spent < budget.folders && |w.photos| < budget.photos
  }

  function TakePage(w: Walk, at: Spot, page: Page, image: Entry -> bool): Walk {
    w.(photos := w.photos + Shots(page.items, image),
       queue := w.queue + Subfolders(page.items, at.depth + 1),
       truncated := w.truncated || (page.hasMore && page.nextCursor.None?))
  }

  /** One folder: page after page, until it ends, cannot be read, or the budget is spent. */
  function ReadFolder(read: Reader, budget: Budget, image: Entry -> bool, w: Walk, at: Spot): (r: Walk)
    ensures r.spent > w.spent
    ensures w.truncated ==> r.truncated
    decreases budget.folders - w.spent
  {
    var answer := read(at.folder, at.cursor, w.spent);
    var counted := w.(spent := w.spent + 1, log := w.log + [at.depth]);
    if answer.None? then counted.(truncated := true)
    else
      var page := answer.value;
      var taken := TakePage(counted, at, page, image);
      var next := at.(cursor := if page.hasMore then page.nextCursor else None);
      if next.cursor.None? then taken
      else if !Within(taken, budget) then taken.(stopped := Some(next))
      else ReadFolder(read, budget, image, taken, next)
  }

  /** The whole walk, folder after folder. */
  function Stroll(read: Reader, budget: Budget, image: Entry -> bool, w: Walk): Walk
    decreases budget.folders - w.spent
  {
    if w.queue == [] then w
    else if !Within(w, budget) then w.(truncated := true)
    else Stroll(read, budget, image, ReadFolder(read, budget, image, w.(queue := w.queue[1..]), w.queue[0]))
  }

  const SETOUT := Walk([], [ROOT], 0, false, [], None)

  function Walked(read: Reader, budget: Budget, image: Entry -> bool): Walk {
    Stroll(read, budget, image, SETOUT)
  }

  /** Newest first, by the stamps' collation. */
  function Newest(collate: Collation): (Entry, Entry) -> bool {
    (a: Entry, b: Entry) => collate(b.modifiedAt, a.modifiedAt)
  }

  function Shown(photos: seq<Entry>, budget: Budget, collate: Collation): seq<Entry> {
    var all := Sort(photos, Newest(collate));
    if |all| <= budget.photos then all else all[..budget.photos]
  }

  method WalkPhotos(read: Reader, budget: Budget, image: Entry -> bool, collate: Collation)
    returns (photos: seq<Entry>, truncated: bool)
    ensures var w := Walked(read, budget, image);
            photos == Shown(w.photos, budget, collate) && truncated == w.truncated
    ensures |photos| <= budget.photos
  {
    hide Shots, Subfolders, Sort, Newest;
    photos, truncated := [], false;
    var queue: seq<Spot>, spent: nat := [ROOT], 0;
    ghost var log, stopped := [], None;
    ghost var walked := Walked(read, budget, image);
    while queue != []
      invariant Stroll(read, budget, image, Walk(photos, queue, spent, truncated, log, stopped)) == walked
      decreases queue != [], budget.folders - spent
    {
      if spent >= budget.folders || |photos| >= budget.photos {
        truncated := true;
        break;
      }
      photos, queue, spent, truncated, log, stopped :=
        WalkFolder(read, budget, image, photos, queue[1..], spent, truncated, queue[0], log, stopped);
    }
    photos := Shown(photos, budget, collate);
  }

  /** The inner loop: one folder, page after page. */
  method WalkFolder(
    read: Reader, budget: Budget, image: Entry -> bool, photos0: seq<Entry>, queue0: seq<Spot>, spent0: nat,
    truncated0: bool, folder: Spot, ghost log0: seq<nat>, ghost stopped0: Option<Spot>)
    returns (photos: seq<Entry>, queue: seq<Spot>, spent: nat, truncated: bool, ghost log: seq<nat>, ghost stopped: Option<Spot>)
    requires spent0 < budget.folders
    ensures var r := ReadFolder(read, budget, image, Walk(photos0, queue0, spent0, truncated0, log0, stopped0), folder);
            photos == r.photos && queue == r.queue && spent == r.spent && truncated == r.truncated
    ensures var r := ReadFolder(read, budget, image, Walk(photos0, queue0, spent0, truncated0, log0, stopped0), folder);
            log == r.log && stopped == r.stopped
  {
    hide Shots, Subfolders;
    photos, queue, spent, truncated, log, stopped := photos0, queue0, spent0, truncated0, log0, stopped0;
    ghost var walked := ReadFolder(read, budget, image, Walk(photos, queue, spent, truncated, log, stopped), folder);
    var at, going := folder, true;
    while going
      invariant going ==> spent < budget.folders
      invariant var now := Walk(photos, queue, spent, truncated, log, stopped);
                walked == if going then ReadFolder(read, budget, image, now, at) else now
      decreases going, budget.folders - spent
    {
      var answer := read(at.folder, at.cursor, spent);
      log := log + [at.depth];
      spent := spent + 1;
      if answer.None? {
        truncated := true;
        break;
      }
      var page := answer.value;
      photos, queue := TakeItems(page.items, at.depth + 1, image, photos, queue);
      truncated := truncated || (page.hasMore && page.nextCursor.None?);
      at := at.(cursor := if page.hasMore then page.nextCursor else None);
      going := at.cursor.Some? && spent < budget.folders && |photos| < budget.photos;
      stopped := if at.cursor.Some? && !going then Some(at) else stopped;
    }
  }

  lemma NextRow(items: seq<Entry>, k: nat, depth: nat, image: Entry -> bool)
    requires k < |items|
    ensures Shots(items[k..], image) == (if Shot(items[k], image) then [items[k]] else []) + Shots(items[k + 1..], image)
    ensures Subfolders(items[k..], depth)
            == (if items[k].kind.Folder? then [Spot(Some(items[k].id), None, depth)] else []) + Subfolders(items[k + 1..], depth)
  {
    assert items[k..][0] == items[k] && items[k..][1..] == items[k + 1..];
  }

  lemma NoRows(items: seq<Entry>, depth: nat, image: Entry -> bool)
    ensures items[0..] == items
    ensures Shots(items[|items|..], image) == [] && Subfolders(items[|items|..], depth) == []
  {
  }

  /** The rows of one page: folders to the end of the queue, images to the end of the photos. */
  method TakeItems(items: seq<Entry>, depth: nat, image: Entry -> bool, photos: seq<Entry>, queue: seq<Spot>)
    returns (shots: seq<Entry>, spots: seq<Spot>)
    ensures shots == photos + Shots(items, image)
    ensures spots == queue + Subfolders(items, depth)
  {
    hide Shots, Subfolders;
    shots, spots := photos, queue;
    NoRows(items, depth, image);
    for k := 0 to |items|
      invariant shots + Shots(items[k..], image) == photos + Shots(items, image)
      invariant spots + Subfolders(items[k..], depth) == queue + Subfolders(items, depth)
    {
      var e := items[k];
      NextRow(items, k, depth, image);
      if e.kind.Folder? {
        spots := spots + [Spot(Some(e.id), None, depth)];
      } else if image(e) {
        shots := shots + [e];
      }
    }
  }

  // ---- the budget ------------------------------------------------------------------------------

  lemma {:induction false} FolderStaysInBudget(read: Reader, budget: Budget, image: Entry -> bool, w: Walk, at: Spot)
    requires w.spent < budget.folders
    ensures ReadFolder(read, budget, image, w, at).spent <= budget.folders
    decreases budget.folders - w.spent
  {
    hide Shots, Subfolders;
    var answer := read(at.folder, at.cursor, w.spent);
    if answer.Some? {
      var taken := TakePage(w.(spent := w.spent + 1, log := w.log + [at.depth]), at, answer.value, image);
      var next := at.(cursor := if answer.value.hasMore then answer.value.nextCursor else None);
      if next.cursor.Some? && Within(taken, budget) {
        FolderStaysInBudget(read, budget, image, taken, next);
      }
    }
  }

  /** Never more reads than the budget, whoever answers, even when the folders go round in a circle. */
  lemma {:induction false} WalkStaysInBudget(read: Reader, budget: Budget, image: Entry -> bool, w: Walk)
    requires w.spent <= budget.folders
    ensures Stroll(read, budget, image, w).spent <= budget.folders
    decreases budget.folders - w.spent
  {
    hide ReadFolder;
    if w.queue != [] && Within(w, budget) {
      var on := w.(queue := w.queue[1..]);
      FolderStaysInBudget(read, budget, image, on, w.queue[0]);
      WalkStaysInBudget(read, budget, image, ReadFolder(read, budget, image, on, w.queue[0]));
    }
  }

  // ---- breadth first ---------------------------------------------------------------------------

  ghost predicate Ascending(depths: seq<nat>) {
    forall i, j :: 0 <= i < j < |depths| ==> depths[i] <= depths[j]
  }

  ghost predicate QueueAscends(queue: seq<Spot>, least: nat) {
    && (forall i, j :: 0 <= i < j < |queue| ==> queue[i].depth <= queue[j].depth)
    && (forall i :: 0 <= i < |queue| ==> least <= queue[i].depth <= least + 1)
  }

  /** While a folder at this depth is read: nothing deeper was read before it, nothing shallower is waiting. */
  ghost predicate Level(w: Walk, depth: nat) {
    && |w.log| == w.spent
    && Ascending(w.log)
    && (forall i :: 0 <= i < |w.log| ==> w.log[i] <= depth)
    && QueueAscends(w.queue, depth)
    && (w.stopped.Some? ==> w.stopped.value.depth >= depth)
  }

  lemma {:induction false} FolderKeepsLevel(read: Reader, budget: Budget, image: Entry -> bool, w: Walk, at: Spot)
    requires Level(w, at.depth)
    ensures Level(ReadFolder(read, budget, image, w, at), at.depth)
    decreases budget.folders - w.spent
  {
    hide Shots;
    var answer := read(at.folder, at.cursor, w.spent);
    if answer.Some? {
      var taken := TakePage(w.(spent := w.spent + 1, log := w.log + [at.depth]), at, answer.value, image);
      var next := at.(cursor := if answer.value.hasMore then answer.value.nextCursor else None);
      assert Level(taken, at.depth);
      if next.cursor.Some? && Within(taken, budget) {
        FolderKeepsLevel(read, budget, image, taken, next);
      }
    }
  }

  /** Between folders: every read so far was at most as deep as anything waiting, or half read. */
  ghost predicate BreadthFirst(w: Walk) {
    && |w.log| == w.spent
    && Ascending(w.log)
    && (forall i, j :: 0 <= i < |w.log| && 0 <= j < |w.queue| ==> w.log[i] <= w.queue[j].depth)
    && (w.queue != [] ==> QueueAscends(w.queue, w.queue[0].depth))
    && (w.stopped.Some? ==> forall i :: 0 <= i < |w.log| ==> w.log[i] <= w.stopped.value.depth)
  }

  /**
   Folders are read shallowest first: at the end the depths read never went down, and whatever is still in the queue,
   or was left half read, is at least as deep as everything read.
   */
  lemma {:induction false} WalkIsBreadthFirst(read: Reader, budget: Budget, image: Entry -> bool, w: Walk)
    requires BreadthFirst(w) && (w.stopped.Some? ==> !Within(w, budget))
    ensures BreadthFirst(Stroll(read, budget, image, w))
    decreases budget.folders - w.spent
  {
    hide ReadFolder;
    if w.queue != [] && Within(w, budget) {
      var on, at := w.(queue := w.queue[1..]), w.queue[0];
      var after := ReadFolder(read, budget, image, on, at);
      FolderKeepsLevel(read, budget, image, on, at);
      StopsOnlyOverBudget(read, budget, image, on, at);
      WalkIsBreadthFirst(read, budget, image, after);
    }
  }

  /** The whole walk, from its first step: on budget, and shallowest first. */
  lemma WalkedHolds(read: Reader, budget: Budget, image: Entry -> bool)
    ensures var w := Walked(read, budget, image);
            w.spent <= budget.folders && |w.log| == w.spent && BreadthFirst(w)
  {
    hide Stroll;
    WalkStaysInBudget(read, budget, image, SETOUT);
    WalkIsBreadthFirst(read, budget, image, SETOUT);
  }

  lemma {:induction false} StopsOnlyOverBudget(read: Reader, budget: Budget, image: Entry -> bool, w: Walk, at: Spot)
    requires w.stopped.None?
    ensures var r := ReadFolder(read, budget, image, w, at); r.stopped.Some? ==> !Within(r, budget)
    decreases budget.folders - w.spent
  {
    hide Shots, Subfolders;
    var answer := read(at.folder, at.cursor, w.spent);
    if answer.Some? {
      var taken := TakePage(w.(spent := w.spent + 1, log := w.log + [at.depth]), at, answer.value, image);
      var next := at.(cursor := if answer.value.hasMore then answer.value.nextCursor else None);
      if next.cursor.Some? && Within(taken, budget) {
        StopsOnlyOverBudget(read, budget, image, taken, next);
      }
    }
  }

  // ---- completeness against a tree -------------------------------------------------------------

  /** A folder from some page on: that page's rows, the folders among them in order, and the pages after it. */
  datatype Tree = Tree(items: seq<Entry>, below: seq<Tree>, next: Next)

  datatype Next = End | Then(cursor: string, rest: Tree)

  /** A read either fails or shows this page; a page that has more may forget its cursor. A sure reader does neither. */
  predicate Shows(answer: Option<Page>, sure: bool, t: Tree) {
    && (sure ==> answer.Some? && (answer.value.hasMore ==> answer.value.nextCursor.Some?))
    && (answer.Some? ==>
          && answer.value.items == t.items
          && (answer.value.hasMore <==> t.next.Then?)
          && (t.next.Then? && answer.value.nextCursor.Some? ==> answer.value.nextCursor.value == t.next.cursor))
  }

  /** The reader shows this tree, at every moment, whenever it shows anything; a sure one always does. */
  ghost predicate Presents(read: Reader, sure: bool, at: Spot, t: Tree)
    decreases t
  {
    && (forall n: nat :: Shows(read(at.folder, at.cursor, n), sure, t))
    && (t.next.Then? ==> Presents(read, sure, at.(cursor := Some(t.next.cursor)), t.next.rest))
    && var subs := Subfolders(t.items, at.depth + 1);
       |t.below| == |subs| && forall i :: 0 <= i < |subs| ==> Presents(read, sure, subs[i], t.below[i])
  }

  /** How many pages there are to read. */
  ghost function Pages(t: Tree): (n: nat)
    ensures n > 0
    decreases t
  {
    1 + PagesOfAll(t.below) + if t.next.Then? then Pages(t.next.rest) else 0
  }

  ghost function PagesOfAll(trees: seq<Tree>): (n: nat)
    ensures trees != [] ==> n > 0
    decreases trees
  {
    if trees == [] then 0 else Pages(trees[0]) + PagesOfAll(trees[1..])
  }

  ghost predicate AllPresent(read: Reader, sure: bool, spots: seq<Spot>, trees: seq<Tree>) {
    |spots| == |trees| && forall i :: 0 <= i < |spots| ==> Presents(read, sure, spots[i], trees[i])
  }

  /** Every image of the tree, on all pages and in all folders, as often as it stands there. */
  ghost function Images(t: Tree, image: Entry -> bool): multiset<Entry>
    decreases t
  {
    multiset(Shots(t.items, image)) + ImagesOfAll(t.below, image)
    + (if t.next.Then? then Images(t.next.rest, image) else multiset{})
  }

  ghost function ImagesOfAll(trees: seq<Tree>, image: Entry -> bool): multiset<Entry>
    decreases trees
  {
    if trees == [] then multiset{} else Images(trees[0], image) + ImagesOfAll(trees[1..], image)
  }

  lemma {:induction false} BothHold(a: seq<Tree>, b: seq<Tree>, image: Entry -> bool)
    ensures ImagesOfAll(a + b, image) == ImagesOfAll(a, image) + ImagesOfAll(b, image)
    ensures PagesOfAll(a + b) == PagesOfAll(a) + PagesOfAll(b)
    decreases a
  {
    if a == [] {
      assert a + b == b;
    } else {
      assert (a + b)[1..] == a[1..] + b;
      BothHold(a[1..], b, image);
    }
  }

  /** What a folder left half read still holds. */
  ghost function Owed(stopped: Option<Spot>, rest: Tree, image: Entry -> bool): multiset<Entry> {
    if stopped.Some? then Images(rest, image) else multiset{}
  }

  ghost function OwedPages(stopped: Option<Spot>, rest: Tree): nat {
    if stopped.Some? then Pages(rest) else 0
  }

  /** What lies under a page that was not read, or after a page that forgot its cursor. */
  ghost predicate Breaks(read: Reader, sure: bool, at: Spot, n: nat, whole: Tree, t: Tree) {
    && Presents(read, sure, at, whole)
    && var answer := read(at.folder, at.cursor, n);
       if answer.None? then t == whole
       else answer.value.hasMore && answer.value.nextCursor.None? && whole.next.Then? && t == whole.next.rest
  }

  ghost predicate LostUnder(read: Reader, sure: bool, t: Tree) {
    exists at, n, whole :: Breaks(read, sure, at, n, whole, t)
  }

  /**
   Everything is somewhere: collected, waiting in the queue, in the folder left half read, or lost under a page that
   failed; and when nothing is lost so is every page: read, waiting, or left.
   */
  ghost predicate Accounts(
    read: Reader, sure: bool, w: Walk, trees: seq<Tree>, rest: Tree, lost: seq<Tree>, all: multiset<Entry>, pages: nat,
    image: Entry -> bool)
  {
    && AllPresent(read, sure, w.queue, trees)
    && (w.stopped.Some? ==> Presents(read, sure, w.stopped.value, rest))
    && (forall i :: 0 <= i < |lost| ==> LostUnder(read, sure, lost[i]))
    && multiset(w.photos) + ImagesOfAll(trees, image) + Owed(w.stopped, rest, image) + ImagesOfAll(lost, image) == all
    && (lost == [] ==> w.spent + PagesOfAll(trees) + OwedPages(w.stopped, rest) == pages)
  }

  lemma TakePageShows(read: Reader, sure: bool, w: Walk, at: Spot, page: Page, t: Tree, trees: seq<Tree>, image: Entry -> bool)
    requires AllPresent(read, sure, w.queue, trees) && Presents(read, sure, at, t) && page.items == t.items
    ensures AllPresent(read, sure, TakePage(w, at, page, image).queue, trees + t.below)
  {
    hide Shots, Subfolders;
    var subs := Subfolders(t.items, at.depth + 1);
    assert forall i :: 0 <= i < |subs| ==> Presents(read, sure, subs[i], t.below[i]);
    hide Presents;
  }

  lemma TakePageAccounts(w: Walk, at: Spot, page: Page, t: Tree, trees: seq<Tree>, image: Entry -> bool)
    requires page.items == t.items
    ensures var taken := TakePage(w, at, page, image);
            && multiset(taken.photos) + ImagesOfAll(trees + t.below, image)
               + (if t.next.Then? then Images(t.next.rest, image) else multiset{})
               == multiset(w.photos) + ImagesOfAll(trees, image) + Images(t, image)
            && 1 + PagesOfAll(trees + t.below) + (if t.next.Then? then Pages(t.next.rest) else 0)
               == PagesOfAll(trees) + Pages(t)
  {
    hide Shots, Subfolders, ImagesOfAll, PagesOfAll;
    BothHold(trees, t.below, image);
    var shots := Shots(page.items, image);
    assert multiset(w.photos + shots) == multiset(w.photos) + multiset(shots);
  }

  /** A folder takes nothing away from what was collected or was waiting before it, whether it can be read or not. */
  lemma {:induction false} FolderTakesNothing(read: Reader, budget: Budget, image: Entry -> bool, w: Walk, at: Spot)
    ensures var r := ReadFolder(read, budget, image, w, at); w.photos <= r.photos && w.queue <= r.queue
    decreases budget.folders - w.spent
  {
    hide Shots, Subfolders;
    var answer := read(at.folder, at.cursor, w.spent);
    if answer.Some? {
      var taken := TakePage(w.(spent := w.spent + 1, log := w.log + [at.depth]), at, answer.value, image);
      var next := at.(cursor := if answer.value.hasMore then answer.value.nextCursor else None);
      if next.cursor.Some? && Within(taken, budget) {
        FolderTakesNothing(read, budget, image, taken, next);
      }
    }
  }

  lemma OneMoreLost(read: Reader, sure: bool, lost: seq<Tree>, t: Tree, at: Spot, n: nat, whole: Tree, image: Entry -> bool)
    requires forall i :: 0 <= i < |lost| ==> LostUnder(read, sure, lost[i])
    requires Breaks(read, sure, at, n, whole, t)
    ensures forall i :: 0 <= i < |lost + [t]| ==> LostUnder(read, sure, (lost + [t])[i])
    ensures ImagesOfAll(lost + [t], image) == ImagesOfAll(lost, image) + Images(t, image)
  {
    hide Breaks, Images;
    BothHold(lost, [t], image);
    assert [t][1..] == [];
    assert LostUnder(read, sure, t);
  }

  lemma PageIsLost(read: Reader, sure: bool, lost: seq<Tree>, at: Spot, n: nat, t: Tree, image: Entry -> bool)
    returns (gone: seq<Tree>)
    requires forall i :: 0 <= i < |lost| ==> LostUnder(read, sure, lost[i])
    requires Presents(read, sure, at, t)
    requires var answer := read(at.folder, at.cursor, n);
             answer.Some? ==> answer.value.hasMore && answer.value.nextCursor.None? && t.next.Then?
    ensures forall i :: 0 <= i < |gone| ==> LostUnder(read, sure, gone[i])
    ensures gone == lost + [if read(at.folder, at.cursor, n).None? then t else t.next.rest]
    ensures ImagesOfAll(gone, image) ==
            ImagesOfAll(lost, image) + Images(if read(at.folder, at.cursor, n).None? then t else t.next.rest, image)
  {
    hide Presents, Images, ImagesOfAll, LostUnder;
    var under := if read(at.folder, at.cursor, n).None? then t else t.next.rest;
    gone := lost + [under];
    OneMoreLost(read, sure, lost, under, at, n, t, image);
  }

  /** The folder goes on to another page. */
  predicate ReadsOn(read: Reader, budget: Budget, image: Entry -> bool, w: Walk, at: Spot) {
    var answer := read(at.folder, at.cursor, w.spent);
    && answer.Some? && answer.value.hasMore && answer.value.nextCursor.Some?
    && Within(TakePage(w.(spent := w.spent + 1), at, answer.value, image), budget)
  }

  lemma LastPageAccounts(
    read: Reader, sure: bool, budget: Budget, image: Entry -> bool, w: Walk, at: Spot, t: Tree, trees: seq<Tree>,
    lost: seq<Tree>, all: multiset<Entry>, pages: nat)
    returns (after: seq<Tree>, rest: Tree, gone: seq<Tree>)
    requires AllPresent(read, sure, w.queue, trees) && Presents(read, sure, at, t) && w.stopped.None?
    requires forall i :: 0 <= i < |lost| ==> LostUnder(read, sure, lost[i])
    requires all == multiset(w.photos) + ImagesOfAll(trees, image) + Images(t, image) + ImagesOfAll(lost, image)
    requires pages == w.spent + PagesOfAll(trees) + Pages(t)
    requires !ReadsOn(read, budget, image, w, at)
    ensures var r := ReadFolder(read, budget, image, w, at);
            && lost <= gone && (sure ==> gone == lost)
            && (r.truncated <==> w.truncated || gone != lost)
            && Accounts(read, sure, r, after, rest, gone, all, pages, image)
  {
    hide Shots, Subfolders, Images, ImagesOfAll, Pages, PagesOfAll, LostUnder, AllPresent;
    after, rest, gone := trees, t, lost;
    var answer, r := read(at.folder, at.cursor, w.spent), ReadFolder(read, budget, image, w, at);
    var counted := w.(spent := w.spent + 1, log := w.log + [at.depth]);
    assert Shows(answer, sure, t);
    if answer.None? {
      gone := PageIsLost(read, sure, lost, at, w.spent, t, image);
      assert r == counted.(truncated := true);
    } else {
      var page := answer.value;
      var taken := TakePage(counted, at, page, image);
      TakePageShows(read, sure, counted, at, page, t, trees, image);
      TakePageAccounts(counted, at, page, t, trees, image);
      after := trees + t.below;
      if !page.hasMore {
        assert r == taken;
      } else if page.nextCursor.None? {
        rest := t.next.rest;
        gone := PageIsLost(read, sure, lost, at, w.spent, t, image);
        assert r == taken;
      } else {
        rest := t.next.rest;
        var next := at.(cursor := page.nextCursor);
        assert Presents(read, sure, next, rest);
        assert r == taken.(stopped := Some(next));
      }
    }
    hide ReadFolder, Presents;
  }

  /** One folder: nothing is lost from the accounts, and the flag goes up exactly when something is lost under a page. */
  lemma {:induction false} FolderAccounts(
    read: Reader, sure: bool, budget: Budget, image: Entry -> bool, w: Walk, at: Spot, t: Tree, trees: seq<Tree>,
    lost: seq<Tree>, all: multiset<Entry>, pages: nat)
    returns (after: seq<Tree>, rest: Tree, gone: seq<Tree>)
    requires AllPresent(read, sure, w.queue, trees) && Presents(read, sure, at, t) && w.stopped.None?
    requires forall i :: 0 <= i < |lost| ==> LostUnder(read, sure, lost[i])
    requires all == multiset(w.photos) + ImagesOfAll(trees, image) + Images(t, image) + ImagesOfAll(lost, image)
    requires pages == w.spent + PagesOfAll(trees) + Pages(t)
    ensures var r := ReadFolder(read, budget, image, w, at);
            && lost <= gone && (sure ==> gone == lost)
            && (r.truncated <==> w.truncated || gone != lost)
            && Accounts(read, sure, r, after, rest, gone, all, pages, image)
    decreases budget.folders - w.spent
  {
    hide Shots, Subfolders, Images, ImagesOfAll, Pages, PagesOfAll, LostUnder, Accounts;
    if ReadsOn(read, budget, image, w, at) {
      var page := read(at.folder, at.cursor, w.spent).value;
      var counted := w.(spent := w.spent + 1, log := w.log + [at.depth]);
      var taken, next := TakePage(counted, at, page, image), at.(cursor := page.nextCursor);
      assert Shows(Some(page), sure, t);
      TakePageShows(read, sure, counted, at, page, t, trees, image);
      TakePageAccounts(counted, at, page, t, trees, image);
      assert Presents(read, sure, next, t.next.rest);
      after, rest, gone :=
        FolderAccounts(read, sure, budget, image, taken, next, t.next.rest, trees + t.below, lost, all, pages);
    } else {
      after, rest, gone := LastPageAccounts(read, sure, budget, image, w, at, t, trees, lost, all, pages);
    }
  }

  /** The walk: the flag is raised by what is lost under pages, and over folders left waiting by a spent budget. */
  lemma {:induction false} WalkAccounts(
    read: Reader, sure: bool, budget: Budget, image: Entry -> bool, w: Walk, trees: seq<Tree>, rest: Tree,
    lost: seq<Tree>, all: multiset<Entry>, pages: nat)
    returns (unread: seq<Tree>, last: Tree, gone: seq<Tree>)
    requires Accounts(read, sure, w, trees, rest, lost, all, pages, image)
    requires w.stopped.Some? ==> !Within(w, budget)
    ensures var r := Stroll(read, budget, image, w);
            && (r.stopped.Some? || r.queue != [] ==> !Within(r, budget))
            && lost <= gone && (sure ==> gone == lost)
            && (r.truncated <==> w.truncated || gone != lost || r.queue != [])
            && Accounts(read, sure, r, unread, last, gone, all, pages, image)
    decreases budget.folders - w.spent
  {
    hide ReadFolder, Images, Presents, Pages, LostUnder;
    unread, last, gone := trees, rest, lost;
    if w.queue != [] && Within(w, budget) {
      var on, at := w.(queue := w.queue[1..]), w.queue[0];
      var after := ReadFolder(read, budget, image, on, at);
      StopsOnlyOverBudget(read, budget, image, on, at);
      assert ImagesOfAll(trees, image) == Images(trees[0], image) + ImagesOfAll(trees[1..], image);
      assert PagesOfAll(trees) == Pages(trees[0]) + PagesOfAll(trees[1..]);
      hide ImagesOfAll, PagesOfAll;
      assert w.stopped.None? && Owed(w.stopped, rest, image) == multiset{};
      var now := multiset(w.photos) + ImagesOfAll(trees, image) + ImagesOfAll(lost, image);
      var count := w.spent + PagesOfAll(trees);
      var more, half, less := FolderAccounts(read, sure, budget, image, on, at, trees[0], trees[1..], lost, now, count);
      unread, last, gone := WalkAccounts(read, sure, budget, image, after, more, half, less, all, pages);
    }
  }

  /** The accounts of the whole walk. */
  lemma WalkedAccounts(read: Reader, sure: bool, budget: Budget, image: Entry -> bool, root: Tree)
    returns (unread: seq<Tree>, rest: Tree, gone: seq<Tree>)
    requires Presents(read, sure, ROOT, root)
    ensures var w := Walked(read, budget, image);
            && w.spent <= budget.folders
            && (w.stopped.Some? || w.queue != [] ==> !Within(w, budget))
            && (sure ==> gone == [])
            && (w.truncated <==> gone != [] || w.queue != [])
            && Accounts(read, sure, w, unread, rest, gone, Images(root, image), Pages(root), image)
  {
    hide Stroll, Images, Presents, Pages, LostUnder;
    assert ImagesOfAll([root], image) == Images(root, image);
    assert PagesOfAll([root]) == Pages(root);
    WalkedHolds(read, budget, image);
    unread, rest, gone := WalkAccounts(read, sure, budget, image, SETOUT, [root], root, [], Images(root, image), Pages(root));
  }

  /**
   A folder that cannot be read costs what lies under it and no more: with both counters below the budget, every other
   image of the tree is shown, and the flag is up exactly when a page failed or forgot its cursor.
   */
  lemma FailuresCostTheirOwn(read: Reader, budget: Budget, image: Entry -> bool, collate: Collation, root: Tree)
    returns (gone: seq<Tree>)
    requires Presents(read, false, ROOT, root)
    ensures forall i :: 0 <= i < |gone| ==> LostUnder(read, false, gone[i])
    ensures var w := Walked(read, budget, image);
            && (w.truncated <==> gone != [] || w.queue != [])
            && (Within(w, budget) ==>
                  && w.queue == []
                  && multiset(Shown(w.photos, budget, collate)) + ImagesOfAll(gone, image) == Images(root, image))
  {
    hide Stroll, Images, Presents, Pages, Sort, LostUnder;
    var w := Walked(read, budget, image);
    var unread, rest;
    unread, rest, gone := WalkedAccounts(read, false, budget, image, root);
    ShownIsWhole(w.photos, budget, collate);
    assert unread == [] ==> ImagesOfAll(unread, image) == multiset{};
  }

  /**
   With the flag down, what was collected and what the one half-read folder still holds make up every image of the
   tree. So the timeline is whole exactly when that folder holds no more images and the final cut drops none.
   */
  lemma WalkMisses(read: Reader, budget: Budget, image: Entry -> bool, collate: Collation, root: Tree) returns (rest: Tree)
    requires Presents(read, false, ROOT, root)
    ensures var w := Walked(read, budget, image);
            !w.truncated ==>
              && w.queue == []
              && (w.stopped.Some? ==> !Within(w, budget) && Presents(read, false, w.stopped.value, rest))
              && multiset(w.photos) + Owed(w.stopped, rest, image) == Images(root, image)
              && w.spent + OwedPages(w.stopped, rest) == Pages(root)
              && (multiset(Shown(w.photos, budget, collate)) == Images(root, image)
                  <==> |w.photos| <= budget.photos && Owed(w.stopped, rest, image) == multiset{})
  {
    hide Stroll, Images, Presents, Pages, Sort;
    var w := Walked(read, budget, image);
    var unread, gone;
    unread, rest, gone := WalkedAccounts(read, false, budget, image, root);
    if !w.truncated {
      var shown := Shown(w.photos, budget, collate);
      assert unread == [];
      assert |multiset(shown)| == |shown|;
      assert |Images(root, image)| == |w.photos| + |Owed(w.stopped, rest, image)|;
    }
  }

  /** With the flag down and both counters below the budget, every image of the tree is shown, as often as it stands there. */
  lemma WalkIsComplete(read: Reader, budget: Budget, image: Entry -> bool, collate: Collation, root: Tree)
    requires Presents(read, false, ROOT, root)
    ensures var w := Walked(read, budget, image);
            !w.truncated && Within(w, budget) ==> multiset(Shown(w.photos, budget, collate)) == Images(root, image)
  {
    hide Stroll, Images, Presents, Sort;
    var rest := WalkMisses(read, budget, image, collate, root);
  }

  /** More pages than reads allowed always show: in the flag, or in a folder left half read. */
  lemma TooManyPages(read: Reader, budget: Budget, image: Entry -> bool, collate: Collation, root: Tree)
    requires Presents(read, false, ROOT, root) && Pages(root) > budget.folders
    ensures var w := Walked(read, budget, image); w.truncated || w.stopped.Some?
  {
    hide Stroll, Images, Presents, Sort, Pages;
    var rest := WalkMisses(read, budget, image, collate, root);
    WalkedHolds(read, budget, image);
  }

  /** The flag has a cause: a read that failed, a cursor forgotten, or a budget spent with folders still waiting. */
  lemma FlagHasACause(read: Reader, budget: Budget, image: Entry -> bool, root: Tree)
    requires Presents(read, true, ROOT, root)
    ensures var w := Walked(read, budget, image); w.truncated <==> w.queue != []
    ensures var w := Walked(read, budget, image); w.truncated ==> !Within(w, budget)
  {
    hide Stroll, Images, Presents, Pages;
    var unread, rest, gone := WalkedAccounts(read, true, budget, image, root);
  }

  /**
   What tree and budget alone decide, when no read fails, no cursor is forgotten and there are fewer images than the
   budget allows: the walk reads the whole tree exactly when it has no more pages than reads allowed. Then the flag
   stays down and every image is shown; otherwise the whole budget is spent, and the flag is up or a folder half read.
   */
  lemma WalkIsWholeIff(read: Reader, budget: Budget, image: Entry -> bool, collate: Collation, root: Tree)
    requires Presents(read, true, ROOT, root) && |Images(root, image)| < budget.photos
    ensures var w := Walked(read, budget, image);
            && (w.spent == Pages(root) <==> Pages(root) <= budget.folders)
            && (!w.truncated && w.stopped.None? <==> Pages(root) <= budget.folders)
            && (Pages(root) <= budget.folders ==> multiset(Shown(w.photos, budget, collate)) == Images(root, image))
            && (Pages(root) > budget.folders ==> w.spent == budget.folders)
  {
    hide Stroll, Images, Presents, Pages, Sort;
    var w := Walked(read, budget, image);
    var unread, rest, gone := WalkedAccounts(read, true, budget, image, root);
    assert |Images(root, image)| == |w.photos| + |ImagesOfAll(unread, image)| + |Owed(w.stopped, rest, image)|;
    assert unread == [] ==> PagesOfAll(unread) == 0 && ImagesOfAll(unread, image) == multiset{};
    ShownIsWhole(w.photos, budget, collate);
  }

  lemma ShownIsWhole(photos: seq<Entry>, budget: Budget, collate: Collation)
    ensures |photos| <= budget.photos ==> multiset(Shown(photos, budget, collate)) == multiset(photos)
  {
  }

  /** One folder of two pages, a photo on each. */
  function TwoPages(a: Entry, b: Entry): Reader {
    (folder: Option<string>, cursor: Option<string>, n: nat) =>
      Some(if cursor.None? then Page([a], true, Some("2")) else Page([b], false, None))
  }

  /** The flag alone promises nothing: a budget spent inside the last folder leaves it down. */
  lemma FlagAloneIsNotEnough(a: Entry, b: Entry, image: Entry -> bool)
    requires Shot(a, image) && Shot(b, image)
    ensures var tree := Tree([a], [], Then("2", Tree([b], [], End)));
            var w := Walked(TwoPages(a, b), Budget(1, 10), image);
            && Presents(TwoPages(a, b), true, ROOT, tree)
            && !w.truncated && w.photos == [a] && Images(tree, image) == multiset{a, b}
  {
    hide Shots, Subfolders;
    var read, last := TwoPages(a, b), Tree([b], [], End);
    var tree := Tree([a], [], Then("2", last));
    OneShot(a, image);
    OneShot(b, image);
    assert Presents(read, true, Spot(None, Some("2"), 0), last);
    assert Presents(read, true, ROOT, tree);
    assert Images(last, image) == multiset{b};
    assert Images(tree, image) == multiset{a} + multiset{b};
    var on := SETOUT.(queue := []);
    var one := ReadFolder(read, Budget(1, 10), image, on, ROOT);
    assert one == Walk([a], [], 1, false, [0], Some(Spot(None, Some("2"), 0)));
    assert Stroll(read, Budget(1, 10), image, SETOUT) == Stroll(read, Budget(1, 10), image, one);
  }

  function OnePage(items: seq<Entry>): Reader {
    (folder: Option<string>, cursor: Option<string>, n: nat) => Some(Page(items, false, None))
  }

  lemma {:induction false} NoSubfolders(items: seq<Entry>, depth: nat)
    requires forall e :: e in items ==> e.kind.File?
    ensures Subfolders(items, depth) == []
  {
    if items != [] {
      NoSubfolders(items[1..], depth);
    }
  }

  /** Nor does the final cut raise it: a single page of more photos than the budget is read whole and cut, flag down. */
  lemma FinalCutIsSilent(items: seq<Entry>, photos: nat, image: Entry -> bool, collate: Collation)
    requires (forall e :: e in items ==> e.kind.File?) && 0 < photos < |Shots(items, image)|
    ensures var budget := Budget(1, photos);
            var w := Walked(OnePage(items), budget, image);
            && Presents(OnePage(items), true, ROOT, Tree(items, [], End))
            && !w.truncated && w.photos == Shots(items, image) && |Shown(w.photos, budget, collate)| == photos
  {
    hide Shots, Subfolders;
    var read, budget := OnePage(items), Budget(1, photos);
    NoSubfolders(items, 1);
    var on := SETOUT.(queue := []);
    var one := ReadFolder(read, budget, image, on, ROOT);
    assert one == Walk(Shots(items, image), [], 1, false, [0], None);
    assert Stroll(read, budget, image, SETOUT) == Stroll(read, budget, image, one);
  }

  lemma OneShot(e: Entry, image: Entry -> bool)
    requires e.kind.File? && image(e)
    ensures Shots([e], image) == [e]
    ensures forall depth :: Subfolders([e], depth) == []
  {
    assert [e][1..] == [];
  }

  // ---- newest first ----------------------------------------------------------------------------

  lemma NewestCompares(collate: Collation)
    requires TotalPreorder(collate)
    ensures TotalPreorder(Newest(collate))
  {
    var newest := Newest(collate);
    forall a, b, c | newest(a, b) && newest(b, c) ensures newest(a, c) {
      assert collate(c.modifiedAt, b.modifiedAt) && collate(b.modifiedAt, a.modifiedAt);
    }
    forall a, b ensures newest(a, b) || newest(b, a) {
      assert collate(b.modifiedAt, a.modifiedAt) || collate(a.modifiedAt, b.modifiedAt);
    }
  }

  /** What is shown is newest first, and nothing cut off is newer than anything shown. */
  lemma ShownAreNewest(photos: seq<Entry>, budget: Budget, collate: Collation) returns (cut: seq<Entry>)
    requires TotalPreorder(collate)
    ensures var shown := Shown(photos, budget, collate);
            && multiset(photos) == multiset(shown) + multiset(cut)
            && Ordered(shown, Newest(collate))
            && (cut != [] ==> |shown| == budget.photos)
            && forall a, b :: a in shown && b in cut ==> collate(b.modifiedAt, a.modifiedAt)
  {
    hide Sort, Newest, TotalPreorder;
    var all, shown := Sort(photos, Newest(collate)), Shown(photos, budget, collate);
    NewestCompares(collate);
    SortIsStable(photos, Newest(collate));
    cut := all[|shown|..];
    assert all == shown + cut;
    OrderedParts(shown, cut, Newest(collate));
    forall a, b | a in shown && b in cut ensures collate(b.modifiedAt, a.modifiedAt) {
      NewestIs(a, b, collate);
    }
  }

  lemma NewestIs(a: Entry, b: Entry, collate: Collation)
    ensures Newest(collate)(a, b) <==> collate(b.modifiedAt, a.modifiedAt)
  {
  }

  // ---- month by month --------------------------------------------------------------------------

  datatype Group = Group(key: string, items: seq<Entry>)

  /** Which month a photo belongs to, read off its stamp; stamps that cannot be read share one key. */
  type Calendar = Entry -> string

  function OfMonth(photos: seq<Entry>, month: Calendar, key: string): seq<Entry> {
    Filter(photos, (e: Entry) => month(e) == key)
  }

  /** Where a month first occurs. */
  function FirstIn(photos: seq<Entry>, month: Calendar, key: string): (r: nat)
    ensures r <= |photos|
  {
    if photos == [] || month(photos[0]) == key then 0 else 1 + FirstIn(photos[1..], month, key)
  }

  lemma {:induction false} FirstInHolds(photos: seq<Entry>, month: Calendar, key: string)
    ensures var r := FirstIn(photos, month, key);
            && (r < |photos| ==> month(photos[r]) == key)
            && forall i :: 0 <= i < r ==> month(photos[i]) != key
  {
    if photos != [] && month(photos[0]) != key {
      FirstInHolds(photos[1..], month, key);
    }
  }

  ghost predicate HasHeading(groups: seq<Group>, key: string) {
    exists i :: 0 <= i < |groups| && groups[i].key == key
  }

  /**
   The photos split by month: each heading once, in the order the months first occur, and under it all the photos of
   that month in the order they had.
   */
  ghost predicate IsTimeline(groups: seq<Group>, photos: seq<Entry>, month: Calendar) {
    && (forall i, j :: 0 <= i < j < |groups| ==>
          FirstIn(photos, month, groups[i].key) < FirstIn(photos, month, groups[j].key))
    && (forall i :: 0 <= i < |groups| ==>
          groups[i].items != [] && groups[i].items == OfMonth(photos, month, groups[i].key))
    && (forall k :: 0 <= k < |photos| ==> HasHeading(groups, month(photos[k])))
  }

  /** The months met so far, in the order they were first met. */
  ghost predicate OrderHolds(order: seq<string>, photos: seq<Entry>, month: Calendar) {
    && (forall i :: 0 <= i < |order| ==> FirstIn(photos, month, order[i]) < |photos|)
    && (forall i, j :: 0 <= i < j < |order| ==> FirstIn(photos, month, order[i]) < FirstIn(photos, month, order[j]))
  }

  ghost predicate GroupsHold(groups: map<string, seq<Entry>>, photos: seq<Entry>, month: Calendar) {
    && (forall key :: key in groups ==> groups[key] == OfMonth(photos, month, key))
    && (forall key :: key in groups <==> FirstIn(photos, month, key) < |photos|)
  }

  /** The state of the loop: `order` is the map's insertion order. */
  ghost predicate Filed(order: seq<string>, groups: map<string, seq<Entry>>, photos: seq<Entry>, month: Calendar) {
    OrderHolds(order, photos, month) && GroupsHold(groups, photos, month) && forall key :: key in groups <==> key in order
  }

  lemma OneMoreOfMonth(photos: seq<Entry>, photo: Entry, month: Calendar, key: string)
    ensures OfMonth(photos + [photo], month, key)
            == if month(photo) == key then OfMonth(photos, month, key) + [photo] else OfMonth(photos, month, key)
  {
    FilterConcat(photos, [photo], (e: Entry) => month(e) == key);
    assert [photo][1..] == [];
  }

  lemma {:induction false} FirstInStays(photos: seq<Entry>, photo: Entry, month: Calendar, key: string)
    ensures FirstIn(photos + [photo], month, key)
            == if FirstIn(photos, month, key) < |photos| then FirstIn(photos, month, key)
               else if month(photo) == key then |photos|
               else |photos| + 1
  {
    if photos == [] {
      assert ([] + [photo])[1..] == [];
    } else {
      assert (photos + [photo])[0] == photos[0] && (photos + [photo])[1..] == photos[1..] + [photo];
      FirstInStays(photos[1..], photo, month, key);
    }
  }

  lemma GroupsGrow(groups: map<string, seq<Entry>>, photos: seq<Entry>, photo: Entry, month: Calendar)
    requires GroupsHold(groups, photos, month)
    ensures var key := month(photo);
            GroupsHold(groups[key := (if key in groups then groups[key] else []) + [photo]], photos + [photo], month)
  {
    hide OfMonth, FirstIn;
    forall k
      ensures OfMonth(photos + [photo], month, k)
              == if month(photo) == k then OfMonth(photos, month, k) + [photo] else OfMonth(photos, month, k)
      ensures FirstIn(photos + [photo], month, k) < |photos| + 1
              <==> FirstIn(photos, month, k) < |photos| || month(photo) == k
    {
      OneMoreOfMonth(photos, photo, month, k);
      FirstInStays(photos, photo, month, k);
    }
    MonthOccurs(photos, month, month(photo));
  }

  lemma OrderGrows(order: seq<string>, photos: seq<Entry>, photo: Entry, month: Calendar)
    requires OrderHolds(order, photos, month)
    ensures var key := month(photo);
            OrderHolds(if FirstIn(photos, month, key) < |photos| then order else order + [key], photos + [photo], month)
  {
    hide FirstIn;
    forall k ensures FirstIn(photos + [photo], month, k)
                     == if FirstIn(photos, month, k) < |photos| then FirstIn(photos, month, k)
                        else if month(photo) == k then |photos|
                        else |photos| + 1 {
      FirstInStays(photos, photo, month, k);
    }
  }

  lemma OneMoreIsFiled(order: seq<string>, groups: map<string, seq<Entry>>, photos: seq<Entry>, photo: Entry, month: Calendar)
    requires Filed(order, groups, photos, month)
    ensures var key := month(photo);
            var group := if key in groups then groups[key] else [];
            Filed(if key in groups then order else order + [key], groups[key := group + [photo]], photos + [photo], month)
  {
    GroupsGrow(groups, photos, photo, month);
    OrderGrows(order, photos, photo, month);
    assert month(photo) in groups <==> FirstIn(photos, month, month(photo)) < |photos|;
    hide OrderHolds, GroupsHold, FirstIn;
  }

  lemma MonthOccurs(photos: seq<Entry>, month: Calendar, key: string)
    ensures OfMonth(photos, month, key) != [] <==> FirstIn(photos, month, key) < |photos|
  {
    var all, first := OfMonth(photos, month, key), FirstIn(photos, month, key);
    FirstInHolds(photos, month, key);
    if all != [] {
      assert all[0] in all;
      assert all[0] in photos && month(all[0]) == key;
    }
    if first < |photos| {
      assert photos[first] in all;
    }
  }

  lemma NothingIsFiled(photos: seq<Entry>, month: Calendar)
    ensures Filed([], map[], photos[..0], month)
  {
  }

  lemma NextIsFiled(order: seq<string>, groups: map<string, seq<Entry>>, photos: seq<Entry>, k: nat, month: Calendar)
    requires k < |photos| && Filed(order, groups, photos[..k], month)
    ensures var key := month(photos[k]);
            var group := if key in groups then groups[key] else [];
            Filed(if key in groups then order else order + [key], groups[key := group + [photos[k]]], photos[..k + 1], month)
  {
    hide Filed;
    assert photos[..k] + [photos[k]] == photos[..k + 1];
    OneMoreIsFiled(order, groups, photos[..k], photos[k], month);
  }

  function Headed(order: seq<string>, groups: map<string, seq<Entry>>): seq<Group>
    requires forall i :: 0 <= i < |order| ==> order[i] in groups
  {
    seq(|order|, i requires 0 <= i < |order| => Group(order[i], groups[order[i]]))
  }

  lemma FiledIsTimeline(order: seq<string>, groups: map<string, seq<Entry>>, photos: seq<Entry>, month: Calendar)
    requires Filed(order, groups, photos[..|photos|], month)
    ensures (forall i :: 0 <= i < |order| ==> order[i] in groups) && IsTimeline(Headed(order, groups), photos, month)
  {
    hide OfMonth, FirstIn;
    assert photos[..|photos|] == photos;
    var timeline := Headed(order, groups);
    forall i, j | 0 <= i < j < |timeline|
      ensures FirstIn(photos, month, timeline[i].key) < FirstIn(photos, month, timeline[j].key)
    {
      assert timeline[i].key == order[i] && timeline[j].key == order[j];
    }
    forall i | 0 <= i < |order|
      ensures timeline[i].items != [] && timeline[i].items == OfMonth(photos, month, timeline[i].key)
    {
      assert order[i] in groups;
      MonthOccurs(photos, month, order[i]);
    }
    forall k | 0 <= k < |photos| ensures HasHeading(timeline, month(photos[k])) {
      FirstInHolds(photos, month, month(photos[k]));
      assert FirstIn(photos, month, month(photos[k])) < |photos|;
      var i :| 0 <= i < |order| && order[i] == month(photos[k]);
      assert timeline[i].key == month(photos[k]);
    }
  }

  method ByMonth(photos: seq<Entry>, month: Calendar) returns (timeline: seq<Group>)
    ensures IsTimeline(timeline, photos, month)
  {
    hide *;
    var order: seq<string>, groups: map<string, seq<Entry>> := [], map[];
    NothingIsFiled(photos, month);
    for k := 0 to |photos|
      invariant Filed(order, groups, photos[..k], month)
    {
      var photo := photos[k];
      var key := month(photo);
      NextIsFiled(order, groups, photos, k, month);
      var group := if key in groups then groups[key] else [];
      if key !in groups {
        order := order + [key];
      }
      groups := groups[key := group + [photo]];
    }
    FiledIsTimeline(order, groups, photos, month);
    timeline := Headed(order, groups);
  }

  /** Under each heading stand exactly the photos of its month; each heading stands once, and each photo's month has one. */
  lemma TimelineTells(groups: seq<Group>, photos: seq<Entry>, month: Calendar)
    requires IsTimeline(groups, photos, month)
    ensures forall i, e :: 0 <= i < |groups| ==> (e in groups[i].items <==> e in photos && month(e) == groups[i].key)
    ensures forall i, j :: 0 <= i < j < |groups| ==> groups[i].key != groups[j].key
    ensures forall e :: e in photos ==> exists i :: 0 <= i < |groups| && groups[i].key == month(e)
    ensures forall i :: 0 <= i < |groups| ==> groups[i].items != []
  {
    forall i, e | 0 <= i < |groups| ensures e in groups[i].items <==> e in photos && month(e) == groups[i].key {
      assert groups[i].items == OfMonth(photos, month, groups[i].key);
    }
    forall e | e in photos ensures exists i :: 0 <= i < |groups| && groups[i].key == month(e) {
      var k :| 0 <= k < |photos| && photos[k] == e;
      assert HasHeading(groups, month(photos[k]));
    }
    forall i, j | 0 <= i < j < |groups| ensures groups[i].key != groups[j].key {
      assert FirstIn(photos, month, groups[i].key) < FirstIn(photos, month, groups[j].key);
    }
  }

  /** When later stamps never fall in earlier months, a timeline of photos newest first has its months newest first. */
  lemma MonthsDescend(groups: seq<Group>, photos: seq<Entry>, month: Calendar, rank: string -> int, collate: Collation)
    requires IsTimeline(groups, photos, month) && Ordered(photos, Newest(collate))
    requires forall a, b :: a in photos && b in photos && collate(b.modifiedAt, a.modifiedAt) ==>
               rank(month(b)) <= rank(month(a))
    ensures forall i, j :: 0 <= i < j < |groups| ==> rank(groups[j].key) <= rank(groups[i].key)
  {
    forall i, j | 0 <= i < j < |groups| ensures rank(groups[j].key) <= rank(groups[i].key) {
      MonthOccurs(photos, month, groups[i].key);
      MonthOccurs(photos, month, groups[j].key);
      FirstInHolds(photos, month, groups[i].key);
      FirstInHolds(photos, month, groups[j].key);
      var p, q := FirstIn(photos, month, groups[i].key), FirstIn(photos, month, groups[j].key);
      assert Newest(collate)(photos[p], photos[q]);
    }
  }
}
