/**
 How pages of rows become one list on screen: `merged` and `sorted` in the file manager, `appendPage` in the
 wallpaper picker. Names are compared by an abstract collation, any total preorder on names.
 */
module ListingOrder {
  import opened Sequences
  import opened Wrappers

  datatype Kind = Folder | File

  datatype Entry = Entry(id: string, kind: Kind, name: string, modifiedAt: string)

  datatype SortKey = ByName | ByType | ByModified | BySize

  datatype Direction = Up | Down

  type Collation = (string, string) -> bool

  /** Folders first in both directions; then names, either way. */
  predicate NotAfter(a: Entry, b: Entry, collate: Collation, descending: bool) {
    if a.kind != b.kind then a.kind.Folder?
    else if descending then collate(b.name, a.name)
    else collate(a.name, b.name)
  }

  function FoldersFirst(collate: Collation, descending: bool): (Entry, Entry) -> bool {
    (a: Entry, b: Entry) => NotAfter(a, b, collate, descending)
  }

  lemma FoldersFirstCompares(collate: Collation, descending: bool)
    requires TotalPreorder(collate)
    ensures TotalPreorder(FoldersFirst(collate, descending))
  {
    var le := FoldersFirst(collate, descending);
    forall a, b ensures le(a, b) || le(b, a) {
      assert collate(a.name, b.name) || collate(b.name, a.name);
    }
    forall a, b, c | le(a, b) && le(b, c) ensures le(a, c) {
      assert NotAfter(a, b, collate, descending) && NotAfter(b, c, collate, descending);
    }
  }

  /** Turning the direction ties the same rows. */
  lemma TiesIgnoreDirection(collate: Collation, one: bool, other: bool)
    ensures forall a, b :: Alike(a, b, FoldersFirst(collate, one)) ==> Alike(a, b, FoldersFirst(collate, other))
  {
  }

  function Sorted(items: seq<Entry>, collate: Collation, descending: bool): seq<Entry> {
    Sort(items, FoldersFirst(collate, descending))
  }

  function Descending(direction: Option<Direction>): bool {
    direction == Some(Down)
  }

  function Merged(current: seq<Entry>, page: seq<Entry>, key: SortKey, direction: Option<Direction>, collate: Collation): seq<Entry> {
    if key.ByName? then Sorted(current + page, collate, Descending(direction)) else current + page
  }

  /** The first page is drawn without looking at the direction. */
  function FirstDrawn(page: seq<Entry>, key: SortKey, collate: Collation): seq<Entry> {
    if key.ByName? then Sorted(page, collate, false) else page
  }

  /** What is on screen after these pages arrived one by one. */
  function Screen(pages: seq<seq<Entry>>, key: SortKey, direction: Option<Direction>, collate: Collation): seq<Entry>
    requires pages != []
  {
    var last := |pages| - 1;
    if last == 0 then FirstDrawn(pages[0], key, collate)
    else Merged(Screen(pages[..last], key, direction, collate), pages[last], key, direction, collate)
  }

  /**
   Merging page by page is one stable sort of everything received, in the chosen direction, although the first page
   was drawn without it; under any other key it is plain concatenation.
   */
  lemma {:induction false} MergingIsOneSort(pages: seq<seq<Entry>>, key: SortKey, direction: Option<Direction>, collate: Collation)
    requires TotalPreorder(collate) && pages != []
    ensures !key.ByName? ==> Screen(pages, key, direction, collate) == Concat(pages)
    ensures key.ByName? && (|pages| > 1 || !Descending(direction)) ==>
              Screen(pages, key, direction, collate) == Sorted(Concat(pages), collate, Descending(direction))
  {
    var last := |pages| - 1;
    if last == 0 {
      ConcatOne(pages[0]);
      assert pages == [pages[0]];
    } else {
      var before, page := pages[..last], pages[last];
      ConcatOne(pages[0]);
      assert last == 1 ==> before == [pages[0]];
      assert pages == before + [page];
      ConcatSnoc(before, page);
      MergingIsOneSort(before, key, direction, collate);
      if key.ByName? {
        var drawn := last > 1 && Descending(direction);
        assert Screen(before, key, direction, collate) == Sorted(Concat(before), collate, drawn);
        MergeOnce(Concat(before), page, drawn, Descending(direction), collate);
      }
    }
  }

  lemma ConcatOne<T>(xs: seq<T>)
    ensures Concat([xs]) == xs
  {
    assert [xs][1..] == [];
  }

  lemma MergeOnce(before: seq<Entry>, page: seq<Entry>, drawn: bool, descending: bool, collate: Collation)
    requires TotalPreorder(collate)
    ensures Sorted(Sorted(before, collate, drawn) + page, collate, descending) == Sorted(before + page, collate, descending)
  {
    FoldersFirstCompares(collate, drawn);
    FoldersFirstCompares(collate, descending);
    TiesIgnoreDirection(collate, descending, drawn);
    SortAgain(before, page, FoldersFirst(collate, drawn), FoldersFirst(collate, descending));
  }

  /** In either direction no file stands before a folder. */
  lemma FoldersComeFirst(items: seq<Entry>, collate: Collation, descending: bool, i: nat, j: nat)
    requires TotalPreorder(collate)
    requires i < |items| && j < |items|
    requires Sorted(items, collate, descending)[i].kind.Folder? && Sorted(items, collate, descending)[j].kind.File?
    ensures i < j
  {
    FoldersFirstCompares(collate, descending);
    SortIsStable(items, FoldersFirst(collate, descending));
  }

  /**
   Under the name key, once a second page is in: rows of one kind stand in the direction asked for, which is upward
   when none was.
   */
  lemma RowsFollowDirection(pages: seq<seq<Entry>>, direction: Option<Direction>, collate: Collation, i: nat, j: nat)
    requires TotalPreorder(collate) && |pages| > 1
    requires i < j < |Screen(pages, ByName, direction, collate)|
    ensures var rows := Screen(pages, ByName, direction, collate);
            && (rows[i].kind != rows[j].kind ==> rows[i].kind.Folder?)
            && (rows[i].kind == rows[j].kind ==>
                  if direction == Some(Down) then collate(rows[j].name, rows[i].name)
                  else collate(rows[i].name, rows[j].name))
  {
    hide Screen, Sort;
    var down := Descending(direction);
    MergingIsOneSort(pages, ByName, direction, collate);
    FoldersFirstCompares(collate, down);
    SortIsStable(Concat(pages), FoldersFirst(collate, down));
    assert FoldersFirst(collate, down)(Screen(pages, ByName, direction, collate)[i], Screen(pages, ByName, direction, collate)[j]);
  }

  /** Two rows of one kind whose names the collation puts strictly in order. */
  ghost predicate StrictPair(a: Entry, b: Entry, collate: Collation) {
    a.kind == b.kind && collate(a.name, b.name) && !collate(b.name, a.name)
  }

  lemma SameRows(items: seq<Entry>, le: (Entry, Entry) -> bool)
    ensures forall e :: e in Sort(items, le) <==> e in items
  {
    forall e ensures e in Sort(items, le) <==> e in items {
      assert e in multiset(Sort(items, le)) <==> e in multiset(items);
    }
  }

  lemma StrictPairShows(page: seq<Entry>, a: Entry, b: Entry, collate: Collation)
    requires TotalPreorder(collate) && a in page && b in page && StrictPair(a, b, collate)
    ensures Sorted(page, collate, false) != Sorted(page, collate, true)
  {
    var up, down := FoldersFirst(collate, false), FoldersFirst(collate, true);
    var drawn := Sort(page, up);
    FoldersFirstCompares(collate, false);
    FoldersFirstCompares(collate, true);
    SortIsStable(page, up);
    SortIsStable(page, down);
    SameRows(page, up);
    hide Sort, Class;
    var p :| 0 <= p < |drawn| && drawn[p] == a;
    var q :| 0 <= q < |drawn| && drawn[q] == b;
    assert !down(a, b) && !up(b, a);
    assert p < q;
  }

  lemma NoStrictPairNoMatter(page: seq<Entry>, collate: Collation)
    requires TotalPreorder(collate)
    requires forall a, b :: a in page && b in page ==> !StrictPair(a, b, collate)
    ensures Sorted(page, collate, false) == Sorted(page, collate, true)
  {
    var up, down := FoldersFirst(collate, false), FoldersFirst(collate, true);
    var drawn := Sort(page, up);
    FoldersFirstCompares(collate, false);
    FoldersFirstCompares(collate, true);
    SortIsStable(page, up);
    SortIsStable(page, down);
    SameRows(page, up);
    hide Sort, Class;
    forall p, q | 0 <= p < q < |drawn| ensures down(drawn[p], drawn[q]) {
      assert up(drawn[p], drawn[q]);
      assert drawn[p] in page && drawn[q] in page;
      assert !StrictPair(drawn[p], drawn[q], collate);
    }
    TiesIgnoreDirection(collate, true, false);
    forall e ensures Class(Sort(page, down), e, down) == Class(drawn, e, down) {
      FinerClass(page, e, up, down);
      FinerClass(drawn, e, up, down);
      assert Class(drawn, e, up) == Class(page, e, up);
    }
    StableSortIsUnique(drawn, Sort(page, down), down);
  }

  /** A single page is shown in the downward order that was asked for only when there is nothing to put in order. */
  lemma FirstPageIgnoresDirection(page: seq<Entry>, collate: Collation)
    requires TotalPreorder(collate)
    ensures Screen([page], ByName, Some(Down), collate) == Sorted(page, collate, true)
            <==> forall a, b :: a in page && b in page ==> !StrictPair(a, b, collate)
  {
    hide Sort, StrictPair;
    if a, b :| a in page && b in page && StrictPair(a, b, collate) {
      StrictPairShows(page, a, b, collate);
    } else {
      NoStrictPairNoMatter(page, collate);
    }
  }

  /** Two files in their upward order, asked for downward: shown upward all the same. */
  lemma FirstPageUpsideDown(a: Entry, b: Entry, collate: Collation)
    requires TotalPreorder(collate) && a.kind.File? && StrictPair(a, b, collate)
    ensures Screen([[a, b]], ByName, Some(Down), collate) == [a, b]
    ensures Sorted([a, b], collate, true) == [b, a]
  {
    assert [a, b][1..] == [b] && [b][1..] == [];
    var up, down := FoldersFirst(collate, false), FoldersFirst(collate, true);
    assert up(a, b) && !down(a, b);
    assert Sort([b], up) == [b] && Sort([b], down) == [b];
    assert Insert(a, [], down) == [a];
    assert Insert(a, [b], down) == [b, a] && Insert(a, [b], up) == [a, b];
  }

  // ---- the wallpaper picker --------------------------------------------------------------------

  datatype Page = Page(items: seq<Entry>, hasMore: bool, nextCursor: Option<string>)

  datatype Appended = Appended(entries: seq<Entry>, hiddenAdded: nat, cursor: Option<string>, more: bool)

  function Pickable(media: Entry -> bool): Entry -> bool {
    (e: Entry) => e.kind.Folder? || media(e)
  }

  function AppendPage(current: seq<Entry>, page: Page, media: Entry -> bool, collate: Collation): Appended {
    var shown := Filter(page.items, Pickable(media));
    Appended(Sorted(current + shown, collate, false), |page.items| - |shown|, page.nextCursor,
             page.hasMore && page.nextCursor.Some?)
  }

  datatype Picker = Picker(entries: seq<Entry>, hidden: nat)

  /** The picker after these pages: rows merged, hidden rows counted up. */
  function Picked(pages: seq<Page>, media: Entry -> bool, collate: Collation): Picker {
    if pages == [] then Picker([], 0)
    else
      var before := Picked(pages[..|pages| - 1], media, collate);
      var added := AppendPage(before.entries, pages[|pages| - 1], media, collate);
      Picker(added.entries, before.hidden + added.hiddenAdded)
  }

  function ItemsOf(pages: seq<Page>): seq<seq<Entry>> {
    seq(|pages|, i requires 0 <= i < |pages| => pages[i].items)
  }

  /** One more page keeps the picker one sort of everything pickable received, and every row shown or counted hidden. */
  lemma PickerTakesPage(earlier: seq<Entry>, before: Picker, page: Page, media: Entry -> bool, collate: Collation)
    requires TotalPreorder(collate)
    requires before.entries == Sorted(Filter(earlier, Pickable(media)), collate, false)
    requires |before.entries| + before.hidden == |earlier|
    ensures var added := AppendPage(before.entries, page, media, collate);
            && added.entries == Sorted(Filter(earlier + page.items, Pickable(media)), collate, false)
            && |added.entries| + before.hidden + added.hiddenAdded == |earlier + page.items|
  {
    hide Filter, Sort, Concat, Pickable, FoldersFirst;
    var shown := Filter(page.items, Pickable(media));
    FilterConcat(earlier, page.items, Pickable(media));
    MergeOnce(Filter(earlier, Pickable(media)), shown, false, false, collate);
  }

  /** The picker shows one sort of everything pickable it received, and every row received is shown or counted hidden. */
  lemma {:induction false} PickerAddsUp(pages: seq<Page>, media: Entry -> bool, collate: Collation)
    requires TotalPreorder(collate)
    ensures var received := Concat(ItemsOf(pages));
            var picker := Picked(pages, media, collate);
            && picker.entries == Sorted(Filter(received, Pickable(media)), collate, false)
            && |picker.entries| + picker.hidden == |received|
  {
    hide Filter, Sorted, Pickable, FoldersFirst;
    if pages == [] {
      NothingPicked(media, collate);
    } else {
      hide Concat;
      var before, page := pages[..|pages| - 1], pages[|pages| - 1];
      var earlier := Concat(ItemsOf(before));
      PickerAddsUp(before, media, collate);
      assert ItemsOf(pages) == ItemsOf(before) + [page.items];
      ConcatSnoc(ItemsOf(before), page.items);
      PickerTakesPage(earlier, Picked(before, media, collate), page, media, collate);
    }
  }

  /** What one page adds: its folders and media and no other row; the button comes only with a cursor to follow. */
  lemma PageAddsPickable(current: seq<Entry>, page: Page, media: Entry -> bool, collate: Collation)
    requires TotalPreorder(collate)
    ensures var added := AppendPage(current, page, media, collate);
            && (forall e :: e in added.entries <==> e in current || (e in page.items && (e.kind.Folder? || media(e))))
            && added.cursor == page.nextCursor
            && (added.more <==> page.hasMore && page.nextCursor.Some?)
            && (forall i, j :: 0 <= i < j < |added.entries| ==>
                  NotAfter(added.entries[i], added.entries[j], collate, false))
            && added.hiddenAdded + |added.entries| == |current| + |page.items|
  {
    hide Sort;
    var shown := Filter(page.items, Pickable(media));
    SameRows(current + shown, FoldersFirst(collate, false));
    FoldersFirstCompares(collate, false);
    SortIsStable(current + shown, FoldersFirst(collate, false));
    assert forall a, b :: FoldersFirst(collate, false)(a, b) == NotAfter(a, b, collate, false);
  }

  lemma NothingPicked(media: Entry -> bool, collate: Collation)
    ensures Sorted(Filter([], Pickable(media)), collate, false) == []
  {
  }
}
