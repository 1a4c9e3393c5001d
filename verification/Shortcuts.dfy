/**
 The shortcut field: a layout saved as cell numbers, folded onto whatever grid the screen has. The layout is
 never rewritten by folding, so what is saved and what is seen are two different things; this module says how
 they hang together. Positions in the saved layout stand for icons.
 */
module Shortcuts {
  import opened Arithmetic
  import opened Sequences

  datatype Placed = Placed(id: string, cell: int)

  ghost predicate DistinctIds(layout: seq<Placed>) {
    forall i, j :: 0 <= i < j < |layout| ==> layout[i].id != layout[j].id
  }

  // ---- reading and writing the saved layout ----------------------------------------------------

  function Ids(layout: seq<Placed>): set<string> {
    set item | item in layout :: item.id
  }

  /** Each id once, where it first stands. */
  function FirstOfEach(stored: seq<Placed>): seq<Placed> {
    if stored == [] then []
    else
      var before := FirstOfEach(stored[..|stored| - 1]);
      var entry := stored[|stored| - 1];
      if entry.id in Ids(before) then before else before + [entry]
  }

  method ReadLayout(stored: seq<Placed>) returns (layout: seq<Placed>)
    ensures layout == FirstOfEach(stored)
  {
    var seen: set<string> := {};
    layout := [];
    for i := 0 to |stored|
      invariant layout == FirstOfEach(stored[..i])
      invariant seen == Ids(layout)
    {
      assert stored[..i + 1][..i] == stored[..i];
      if stored[i].id !in seen {
        seen := seen + {stored[i].id};
        layout := layout + [stored[i]];
      }
    }
    assert stored[..|stored|] == stored;
  }

  /** Where an id first occurs. */
  function FirstWith(stored: seq<Placed>, id: string): (k: nat)
    ensures k <= |stored|
    ensures k < |stored| ==> stored[k].id == id
    ensures forall j :: 0 <= j < k ==> stored[j].id != id
  {
    if stored == [] || stored[0].id == id then 0 else 1 + FirstWith(stored[1..], id)
  }

  /** Of entries with one id the first wins, and those that win stand in the order they stood. */
  lemma {:induction false} FirstEntriesWin(stored: seq<Placed>)
    ensures var layout := FirstOfEach(stored);
            && (forall i :: 0 <= i < |layout| ==>
                  FirstWith(stored, layout[i].id) < |stored| && stored[FirstWith(stored, layout[i].id)] == layout[i])
            && (forall i, j :: 0 <= i < j < |layout| ==>
                  FirstWith(stored, layout[i].id) < FirstWith(stored, layout[j].id))
  {
    if stored != [] {
      var init, entry := stored[..|stored| - 1], stored[|stored| - 1];
      var layout := FirstOfEach(init);
      FirstEntriesWin(init);
      ReadingKeepsIds(init);
      assert stored == init + [entry];
      assert FirstOfEach(stored) == if entry.id in Ids(layout) then layout else layout + [entry];
      assert entry.id !in Ids(layout) ==> FirstWith(init, entry.id) == |init| by {
        assert forall j :: 0 <= j < |init| ==> init[j].id in Ids(init);
      }
      hide FirstOfEach, Ids, FirstWith, DistinctIds;
      FirstWithStays(init, entry, entry.id);
      forall i | 0 <= i < |layout| ensures FirstWith(stored, layout[i].id) == FirstWith(init, layout[i].id) {
        FirstWithStays(init, entry, layout[i].id);
      }
    }
  }

  lemma FirstWithStays(stored: seq<Placed>, entry: Placed, id: string)
    ensures FirstWith(stored, id) < |stored| ==> FirstWith(stored + [entry], id) == FirstWith(stored, id)
    ensures FirstWith(stored, id) == |stored| && entry.id == id ==> FirstWith(stored + [entry], id) == |stored|
  {
    hide FirstWith;
    var was, now, all := FirstWith(stored, id), FirstWith(stored + [entry], id), stored + [entry];
    assert was < |stored| ==> all[was].id == id;
    assert entry.id == id ==> all[|stored|].id == id;
    assert forall j :: 0 <= j < |stored| ==> all[j] == stored[j];
  }

  /** Reading keeps every id, once. */
  lemma {:induction false} ReadingKeepsIds(stored: seq<Placed>)
    ensures DistinctIds(FirstOfEach(stored)) && Ids(FirstOfEach(stored)) == Ids(stored)
  {
    if stored != [] {
      var init, entry := stored[..|stored| - 1], stored[|stored| - 1];
      ReadingKeepsIds(init);
      assert stored == init + [entry];
      assert Ids(stored) == Ids(init) + {entry.id};
      var before := FirstOfEach(init);
      assert Ids(before + [entry]) == Ids(before) + {entry.id};
      assert forall item :: item in before ==> item.id in Ids(before);
    }
  }

  /** A layout without repeated ids, such as the program writes, is read back as it was written. */
  lemma {:induction false} WrittenLayoutReadsBack(layout: seq<Placed>)
    requires DistinctIds(layout)
    ensures FirstOfEach(layout) == layout
  {
    if layout != [] {
      var init, entry := layout[..|layout| - 1], layout[|layout| - 1];
      WrittenLayoutReadsBack(init);
      assert layout == init + [entry];
      assert entry.id !in Ids(init) by {
        assert forall i :: 0 <= i < |init| ==> init[i] == layout[i];
      }
      hide DistinctIds, Ids;
    }
  }

  // ---- the fold --------------------------------------------------------------------------------

  predicate InGrid(cell: int, capacity: nat) {
    0 <= cell < capacity
  }

  /** Icon `i` is drawn where it was saved: its cell is on the grid and no earlier icon claims it. */
  ghost predicate Keeps(layout: seq<Placed>, capacity: nat, i: nat)
    requires i < |layout|
  {
    InGrid(layout[i].cell, capacity) && forall j :: 0 <= j < i ==> layout[j].cell != layout[i].cell
  }

  /** The order the folded icons keep among themselves: by saved cell, ties by place in the layout. */
  predicate Before(layout: seq<Placed>, j: nat, i: nat)
    requires j < |layout| && i < |layout|
  {
    layout[j].cell < layout[i].cell || (layout[j].cell == layout[i].cell && j < i)
  }

  /** Cell `c` is taken, as far as folded icon `i` is concerned: by an icon that keeps it, or one folded before `i`. */
  ghost predicate TakenFor(layout: seq<Placed>, capacity: nat, cells: seq<int>, c: int, i: nat)
    requires |cells| == |layout| && i < |layout|
  {
    exists k: nat :: k < |cells| && cells[k] == c && (Keeps(layout, capacity, k) || Before(layout, k, i))
  }

  /**
   What folding promises, without saying how: icons that keep their cell stay; the folded ones avoid those cells,
   keep their order, and leave no smaller free cell empty.
   */
  ghost predicate IsFold(layout: seq<Placed>, capacity: nat, cells: seq<int>) {
    && |cells| == |layout|
    && (forall i: nat :: i < |layout| && Keeps(layout, capacity, i) ==> cells[i] == layout[i].cell)
    && (forall i: nat, k: nat | i < |layout| && k < |layout| ::
          !Keeps(layout, capacity, i) && Keeps(layout, capacity, k) ==> cells[i] != cells[k])
    && (forall i: nat, j: nat | i < |layout| && j < |layout| && Before(layout, j, i) ::
          !Keeps(layout, capacity, i) && !Keeps(layout, capacity, j) ==> cells[j] < cells[i])
    && (forall i: nat, c | i < |layout| && 0 <= c < cells[i] ::
          !Keeps(layout, capacity, i) ==> TakenFor(layout, capacity, cells, c, i))
    && (forall i: nat :: i < |layout| ==> cells[i] >= 0)
  }

  lemma {:induction false} NoFoldIsLower(layout: seq<Placed>, capacity: nat, a: seq<int>, b: seq<int>, i: nat)
    requires IsFold(layout, capacity, a) && IsFold(layout, capacity, b) && i < |layout|
    ensures a[i] >= b[i]
    decreases a[i]
  {
    if !Keeps(layout, capacity, i) && a[i] < b[i] {
      assert TakenFor(layout, capacity, b, a[i], i);
      var k: nat :| k < |b| && b[k] == a[i] && (Keeps(layout, capacity, k) || Before(layout, k, i));
      if !Keeps(layout, capacity, k) {
        NoFoldIsLower(layout, capacity, a, b, k);
      }
    }
  }

  /** A layout has one fold on a given grid. */
  lemma FoldIsUnique(layout: seq<Placed>, capacity: nat, a: seq<int>, b: seq<int>)
    requires IsFold(layout, capacity, a) && IsFold(layout, capacity, b)
    ensures a == b
  {
    forall i: nat | i < |layout| ensures a[i] == b[i] {
      NoFoldIsLower(layout, capacity, a, b, i);
      NoFoldIsLower(layout, capacity, b, a, i);
    }
  }

  /** No two icons are drawn on the same cell. */
  lemma FoldIsInjective(layout: seq<Placed>, capacity: nat, cells: seq<int>, i: nat, j: nat)
    requires IsFold(layout, capacity, cells) && i < |layout| && j < |layout| && i != j
    ensures cells[i] != cells[j]
  {
    assert Before(layout, i, j) || Before(layout, j, i);
  }

  /** When the icons do not outnumber the cells, every one of them is drawn on the grid. */
  lemma FoldStaysOnGrid(layout: seq<Placed>, capacity: nat, cells: seq<int>, i: nat)
    requires IsFold(layout, capacity, cells) && |layout| <= capacity && i < |layout|
    ensures InGrid(cells[i], capacity)
  {
    if cells[i] >= capacity {
      var drawn := set c | c in cells;
      forall c | c in Range(capacity) ensures c in drawn {
        assert TakenFor(layout, capacity, cells, c, i);
      }
      MembersAtMost(cells);
      SubsetSize(Range(capacity) + {cells[i]}, drawn);
    }
  }

  function Range(n: nat): (r: set<int>)
    ensures forall c :: c in r <==> 0 <= c < n
    ensures |r| == n
  {
    if n == 0 then {} else Range(n - 1) + {n - 1}
  }

  lemma {:induction false} MembersAtMost(cells: seq<int>)
    ensures |set c | c in cells| <= |cells|
  {
    if cells != [] {
      var init := cells[..|cells| - 1];
      MembersAtMost(init);
      assert cells == init + [cells[|cells| - 1]];
      assert (set c | c in cells) == (set c | c in init) + {cells[|cells| - 1]};
    }
  }

  // ---- the program's way of folding ------------------------------------------------------------

  /** An icon set aside because its cell is off the grid or claimed, with its place in the layout. */
  datatype Spilled = Spilled(at: nat, item: Placed)

  function BySavedCell(): (Spilled, Spilled) -> bool {
    (a: Spilled, b: Spilled) => a.item.cell <= b.item.cell
  }

  function PlaceInLayout(): Spilled -> int {
    (s: Spilled) => s.at
  }

  ghost predicate Listed(spill: seq<Spilled>, i: nat) {
    exists q: nat :: q < |spill| && spill[q].at == i
  }

  /** Exactly the icons among the first `n` that lose their cell. */
  ghost predicate SpillsFirst(layout: seq<Placed>, capacity: nat, n: nat, spill: seq<Spilled>)
    requires n <= |layout|
  {
    && (forall q: nat :: q < |spill| ==>
          spill[q].at < n && spill[q].item == layout[spill[q].at] && !Keeps(layout, capacity, spill[q].at))
    && (forall i: nat :: i < n && !Keeps(layout, capacity, i) ==> Listed(spill, i))
  }

  /** The folded icons stand in the order they are to be placed. */
  ghost predicate InOrder(layout: seq<Placed>, sorted: seq<Spilled>)
    requires forall q: nat :: q < |sorted| ==> sorted[q].at < |layout|
  {
    forall p: nat, q: nat :: p < q < |sorted| ==> Before(layout, sorted[p].at, sorted[q].at)
  }

  lemma SameMembers(a: seq<Spilled>, b: seq<Spilled>)
    requires multiset(a) == multiset(b)
    ensures forall q: nat :: q < |a| ==> a[q] in b
  {
    forall q: nat | q < |a| ensures a[q] in b {
      assert a[q] in multiset(a);
    }
  }

  lemma SortedSpill(layout: seq<Placed>, capacity: nat, spill: seq<Spilled>)
    requires SpillsFirst(layout, capacity, |layout|, spill) && Ascends(spill, PlaceInLayout())
    ensures var sorted := Sort(spill, BySavedCell());
            SpillsFirst(layout, capacity, |layout|, sorted) && InOrder(layout, sorted)
  {
    var sorted := Sort(spill, BySavedCell());
    SortIsStable(spill, BySavedCell());
    SameMembers(sorted, spill);
    SameMembers(spill, sorted);
    forall i: nat | i < |layout| && !Keeps(layout, capacity, i) ensures Listed(sorted, i) {
      assert Listed(spill, i);
      var q: nat :| q < |spill| && spill[q].at == i;
      assert spill[q] in sorted;
    }
    forall p: nat, q: nat | p < q < |sorted| ensures Before(layout, sorted[p].at, sorted[q].at) {
      assert sorted[p] in spill && sorted[q] in spill;
      if sorted[p].item.cell == sorted[q].item.cell {
        SortKeepsTies(spill, BySavedCell(), PlaceInLayout(), p, q);
      }
    }
  }

  /** What is on screen: each icon at its cell. */
  ghost predicate Draws(shown: map<string, int>, layout: seq<Placed>, cells: seq<int>)
    requires |cells| == |layout|
  {
    shown.Keys == Ids(layout) && forall i :: 0 <= i < |layout| ==> layout[i].id in shown && shown[layout[i].id] == cells[i]
  }

  /** What is on screen is the layout folded, every icon at its cell (each id standing for one icon). */
  ghost predicate DrawsFold(shown: map<string, int>, layout: seq<Placed>, capacity: nat) {
    exists cells :: IsFold(layout, capacity, cells) && (DistinctIds(layout) ==> Draws(shown, layout, cells))
  }

  function Capacity(cols: nat, rows: nat): nat {
    if cols * rows < 1 then 1 else cols * rows
  }

  /** Cell `c` is the one in this row and column of the field. */
  predicate StandsAt(c: int, row: nat, col: nat, cols: nat, rows: nat) {
    row < rows && col < cols && c == row * cols + col
  }

  ghost predicate OnField(c: int, cols: nat, rows: nat) {
    exists row: nat, col: nat :: StandsAt(c, row, col, cols, rows)
  }

  lemma CellOnGrid(col: nat, row: nat, cols: nat, rows: nat)
    requires col < cols && row < rows
    ensures 0 <= row * cols + col < cols * rows
  {
    assert (rows - row) * cols >= cols by {
      assert (rows - row) * cols == (rows - row - 1) * cols + cols;
    }
    assert cols * rows == row * cols + (rows - row) * cols;
  }

  lemma RowIsOnGrid(cell: nat, cols: nat, rows: nat)
    requires cols > 0 && cell < cols * rows
    ensures cell / cols < rows && (cell / cols) * cols + cell % cols == cell
  {
    var row := cell / cols;
    Scale(rows, row + 1, cols);
    assert cell == row * cols + cell % cols && (row + 1) * cols == row * cols + cols;
  }

  /** The cells counted as the grid's are exactly those of the field's rows and columns; a field of none counts as one cell. */
  lemma GridIsField(c: int, cols: nat, rows: nat)
    ensures cols > 0 && rows > 0 ==> (InGrid(c, Capacity(cols, rows)) <==> OnField(c, cols, rows))
    ensures cols == 0 || rows == 0 ==> (InGrid(c, Capacity(cols, rows)) <==> c == 0)
  {
    if cols > 0 && rows > 0 {
      if 0 <= c < cols * rows {
        RowIsOnGrid(c, cols, rows);
        assert StandsAt(c, c / cols, c % cols, cols, rows);
      }
      forall row: nat, col: nat | StandsAt(c, row, col, cols, rows) ensures 0 <= c < cols * rows {
        CellOnGrid(col, row, cols, rows);
      }
      hide StandsAt;
    }
  }

  /** Some icon among the first `n` was saved to cell `c`. */
  ghost predicate Claimed(layout: seq<Placed>, n: nat, c: int)
    requires n <= |layout|
  {
    exists i: nat :: i < n && layout[i].cell == c
  }

  lemma ClaimsGrow(layout: seq<Placed>, capacity: nat, n: nat)
    requires n < |layout|
    ensures forall c :: Claimed(layout, n + 1, c) <==> Claimed(layout, n, c) || c == layout[n].cell
    ensures Keeps(layout, capacity, n) <==> InGrid(layout[n].cell, capacity) && !Claimed(layout, n, layout[n].cell)
    ensures layout[n].id in Ids(layout)
  {
    assert Claimed(layout, n + 1, layout[n].cell);
    forall c | Claimed(layout, n, c) ensures Claimed(layout, n + 1, c) {
      var i: nat :| i < n && layout[i].cell == c;
    }
  }

  /** Every claimed cell of the grid is kept by its first claimant. */
  lemma {:induction false} FirstClaimant(layout: seq<Placed>, capacity: nat, i: nat) returns (k: nat)
    requires i < |layout| && InGrid(layout[i].cell, capacity)
    ensures k <= i && Keeps(layout, capacity, k) && layout[k].cell == layout[i].cell
  {
    if Keeps(layout, capacity, i) {
      k := i;
    } else {
      var j :| 0 <= j < i && layout[j].cell == layout[i].cell;
      k := FirstClaimant(layout, capacity, j);
    }
  }

  lemma SpillGrows(layout: seq<Placed>, capacity: nat, n: nat, spill: seq<Spilled>)
    requires n < |layout| && SpillsFirst(layout, capacity, n, spill) && Ascends(spill, PlaceInLayout())
    ensures Keeps(layout, capacity, n) ==> SpillsFirst(layout, capacity, n + 1, spill)
    ensures !Keeps(layout, capacity, n) ==> SpillsFirst(layout, capacity, n + 1, spill + [Spilled(n, layout[n])])
    ensures Ascends(spill + [Spilled(n, layout[n])], PlaceInLayout())
  {
    var grown := spill + [Spilled(n, layout[n])];
    assert grown[|spill|].at == n;
    forall i: nat | i < n && !Keeps(layout, capacity, i) ensures Listed(grown, i) {
      assert Listed(spill, i);
      var q: nat :| q < |spill| && spill[q].at == i;
      assert grown[q].at == i;
    }
  }

  /** The first pass of `visiblePlacement`: whoever can keep its cell does. */
  method SettleKept(layout: seq<Placed>, capacity: nat)
    returns (shown: map<string, int>, taken: set<int>, spill: seq<Spilled>)
    ensures SpillsFirst(layout, capacity, |layout|, spill) && Ascends(spill, PlaceInLayout())
    ensures forall c :: c in taken <==> InGrid(c, capacity) && Claimed(layout, |layout|, c)
    ensures shown.Keys <= Ids(layout)
    ensures DistinctIds(layout) ==>
              forall i: nat :: i < |layout| && Keeps(layout, capacity, i) ==>
                layout[i].id in shown && shown[layout[i].id] == layout[i].cell
  {
    shown, taken, spill := map[], {}, [];
    for n := 0 to |layout|
      invariant SpillsFirst(layout, capacity, n, spill) && Ascends(spill, PlaceInLayout())
      invariant forall c :: c in taken <==> InGrid(c, capacity) && Claimed(layout, n, c)
      invariant shown.Keys <= Ids(layout)
      invariant DistinctIds(layout) ==>
                  forall i: nat :: i < n && Keeps(layout, capacity, i) ==>
                    layout[i].id in shown && shown[layout[i].id] == layout[i].cell
    {
      var item := layout[n];
      ClaimsGrow(layout, capacity, n);
      SpillGrows(layout, capacity, n, spill);
      hide Claimed, Keeps, SpillsFirst;
      if InGrid(item.cell, capacity) && item.cell !in taken {
        taken := taken + {item.cell};
        shown := shown[item.id := item.cell];
      } else {
        spill := spill + [Spilled(n, item)];
      }
    }
  }

  /** The cells given out to the first `p` folded icons, with those that are kept, are the taken ones. */
  ghost predicate GivenOut(layout: seq<Placed>, capacity: nat, cells: seq<int>, taken: set<int>, next: nat,
                           sorted: seq<Spilled>, p: nat)
    requires |cells| == |layout| && p <= |sorted|
    requires forall q: nat :: q < |sorted| ==> sorted[q].at < |layout|
  {
    && (forall i: nat :: i < |layout| && Keeps(layout, capacity, i) ==> cells[i] == layout[i].cell && cells[i] in taken)
    && (forall q: nat :: q < p ==> 0 <= cells[sorted[q].at] <= next && cells[sorted[q].at] in taken)
    && (forall q: nat, r: nat :: q < r < p ==> cells[sorted[q].at] < cells[sorted[r].at])
    && (forall q: nat, k: nat :: q < p && k < |layout| && Keeps(layout, capacity, k) ==> cells[sorted[q].at] != cells[k])
    && (forall c :: 0 <= c < next ==> c in taken)
    && (forall c :: c in taken ==> Accounted(layout, capacity, cells, sorted, p, c))
  }

  /** Cell `c` is taken by an icon that keeps it or by one of the first `p` folded ones. */
  ghost predicate Accounted(layout: seq<Placed>, capacity: nat, cells: seq<int>, sorted: seq<Spilled>, p: nat, c: int)
    requires |cells| == |layout| && p <= |sorted|
    requires forall q: nat :: q < |sorted| ==> sorted[q].at < |layout|
  {
    || (exists k: nat :: k < |layout| && Keeps(layout, capacity, k) && cells[k] == c)
    || (exists q: nat :: q < p && cells[sorted[q].at] == c)
  }

  /** No smaller free cell was passed over for the first `p` folded icons. */
  ghost predicate NonePassedOver(layout: seq<Placed>, capacity: nat, cells: seq<int>, sorted: seq<Spilled>, p: nat)
    requires |cells| == |layout| && p <= |sorted|
    requires forall q: nat :: q < |sorted| ==> sorted[q].at < |layout|
  {
    forall q: nat, c :: q < p && 0 <= c < cells[sorted[q].at] ==> TakenFor(layout, capacity, cells, c, sorted[q].at)
  }

  lemma FoldedIsFold(layout: seq<Placed>, capacity: nat, cells: seq<int>, taken: set<int>, next: nat, sorted: seq<Spilled>)
    requires |cells| == |layout|
    requires SpillsFirst(layout, capacity, |layout|, sorted) && InOrder(layout, sorted)
    requires GivenOut(layout, capacity, cells, taken, next, sorted, |sorted|)
    requires NonePassedOver(layout, capacity, cells, sorted, |sorted|)
    ensures IsFold(layout, capacity, cells)
  {
    forall i: nat | i < |layout| && !Keeps(layout, capacity, i) ensures Listed(sorted, i) {
    }
  }

  /** The cells of icons that keep theirs; the others are still to be placed. */
  ghost function KeptCells(layout: seq<Placed>): seq<int> {
    seq(|layout|, i requires 0 <= i < |layout| => layout[i].cell)
  }

  lemma NothingFoldedYet(layout: seq<Placed>, capacity: nat, taken: set<int>, sorted: seq<Spilled>)
    requires forall c :: c in taken <==> InGrid(c, capacity) && Claimed(layout, |layout|, c)
    requires SpillsFirst(layout, capacity, |layout|, sorted)
    ensures GivenOut(layout, capacity, KeptCells(layout), taken, 0, sorted, 0)
    ensures NonePassedOver(layout, capacity, KeptCells(layout), sorted, 0)
  {
    forall c | c in taken ensures Accounted(layout, capacity, KeptCells(layout), sorted, 0, c) {
      var i: nat :| i < |layout| && layout[i].cell == c;
      var k := FirstClaimant(layout, capacity, i);
      assert KeptCells(layout)[k] == c;
    }
  }

  /** Each folded icon is placed once, and placing it moves no other icon. */
  lemma PlacesOnlyOne(layout: seq<Placed>, capacity: nat, cells: seq<int>, sorted: seq<Spilled>, p: nat, free: int)
    requires |cells| == |layout| && p < |sorted|
    requires SpillsFirst(layout, capacity, |layout|, sorted) && InOrder(layout, sorted)
    ensures var after := cells[sorted[p].at := free];
            && (forall q: nat :: q < |sorted| && q != p ==> sorted[q].at != sorted[p].at && after[sorted[q].at] == cells[sorted[q].at])
            && (forall k: nat :: k < |layout| && Keeps(layout, capacity, k) ==> after[k] == cells[k])
            && after[sorted[p].at] == free
  {
    forall q: nat | q < |sorted| && q != p ensures sorted[q].at != sorted[p].at {
      if p < q {
        assert Before(layout, sorted[p].at, sorted[q].at);
      } else {
        assert Before(layout, sorted[q].at, sorted[p].at);
      }
    }
  }

  lemma StaysAccounted(layout: seq<Placed>, capacity: nat, cells: seq<int>, sorted: seq<Spilled>, p: nat, free: int, c: int)
    requires |cells| == |layout| && p < |sorted|
    requires SpillsFirst(layout, capacity, |layout|, sorted) && InOrder(layout, sorted)
    requires c == free || Accounted(layout, capacity, cells, sorted, p, c)
    ensures Accounted(layout, capacity, cells[sorted[p].at := free], sorted, p + 1, c)
  {
    var after := cells[sorted[p].at := free];
    PlacesOnlyOne(layout, capacity, cells, sorted, p, free);
    if k: nat :| k < |layout| && Keeps(layout, capacity, k) && cells[k] == c {
      assert after[k] == c;
    } else if q: nat :| q < p && cells[sorted[q].at] == c {
      assert after[sorted[q].at] == c;
    } else {
      assert after[sorted[p].at] == c;
    }
  }

  lemma GivesOutNext(layout: seq<Placed>, capacity: nat, cells: seq<int>, taken: set<int>, next: nat, sorted: seq<Spilled>,
                     p: nat, free: nat)
    requires |cells| == |layout| && p < |sorted|
    requires SpillsFirst(layout, capacity, |layout|, sorted) && InOrder(layout, sorted)
    requires GivenOut(layout, capacity, cells, taken, next, sorted, p)
    requires next <= free && free !in taken && forall c :: next <= c < free ==> c in taken
    ensures GivenOut(layout, capacity, cells[sorted[p].at := free], taken + {free}, free, sorted, p + 1)
  {
    hide Accounted, Keeps, Before, InOrder;
    PlacesOnlyOne(layout, capacity, cells, sorted, p, free);
    forall c | c in taken + {free} ensures Accounted(layout, capacity, cells[sorted[p].at := free], sorted, p + 1, c) {
      StaysAccounted(layout, capacity, cells, sorted, p, free, c);
    }
  }

  /** The next folded icon gets the first free cell, and the cells owed to earlier ones stay taken. */
  lemma PassesNoneOver(layout: seq<Placed>, capacity: nat, cells: seq<int>, taken: set<int>, next: nat, sorted: seq<Spilled>,
                       p: nat, free: nat)
    requires |cells| == |layout| && p < |sorted|
    requires SpillsFirst(layout, capacity, |layout|, sorted) && InOrder(layout, sorted)
    requires GivenOut(layout, capacity, cells, taken, next, sorted, p)
    requires NonePassedOver(layout, capacity, cells, sorted, p)
    requires next <= free && free !in taken && forall c :: next <= c < free ==> c in taken
    ensures NonePassedOver(layout, capacity, cells[sorted[p].at := free], sorted, p + 1)
  {
    var after := cells[sorted[p].at := free];
    PlacesOnlyOne(layout, capacity, cells, sorted, p, free);
    forall q: nat, c | q < p + 1 && 0 <= c < after[sorted[q].at]
      ensures TakenFor(layout, capacity, after, c, sorted[q].at)
    {
      if q < p {
        StillTaken(layout, capacity, cells, sorted, q, p, free, c);
      } else {
        assert c in taken;
        FreeCellIsOwed(layout, capacity, cells, sorted, p, free, c);
      }
    }
  }

  lemma FreeCellIsOwed(layout: seq<Placed>, capacity: nat, cells: seq<int>, sorted: seq<Spilled>, p: nat, free: int, c: int)
    requires |cells| == |layout| && p < |sorted|
    requires SpillsFirst(layout, capacity, |layout|, sorted) && InOrder(layout, sorted)
    requires Accounted(layout, capacity, cells, sorted, p, c)
    ensures TakenFor(layout, capacity, cells[sorted[p].at := free], c, sorted[p].at)
  {
    var after := cells[sorted[p].at := free];
    PlacesOnlyOne(layout, capacity, cells, sorted, p, free);
    if k: nat :| k < |layout| && Keeps(layout, capacity, k) && cells[k] == c {
      assert after[k] == c;
    } else {
      var r: nat :| r < p && cells[sorted[r].at] == c;
      assert after[sorted[r].at] == c && Before(layout, sorted[r].at, sorted[p].at);
    }
  }

  lemma StillTaken(layout: seq<Placed>, capacity: nat, cells: seq<int>, sorted: seq<Spilled>, q: nat, p: nat, free: int, c: int)
    requires |cells| == |layout| && q < p < |sorted|
    requires SpillsFirst(layout, capacity, |layout|, sorted) && InOrder(layout, sorted)
    requires TakenFor(layout, capacity, cells, c, sorted[q].at)
    ensures TakenFor(layout, capacity, cells[sorted[p].at := free], c, sorted[q].at)
  {
    var k: nat :| k < |cells| && cells[k] == c && (Keeps(layout, capacity, k) || Before(layout, k, sorted[q].at));
    assert Before(layout, sorted[q].at, sorted[p].at);
    assert k != sorted[p].at;
    assert cells[sorted[p].at := free][k] == c;
  }

  /** The icons in `done` are on screen at their cells. */
  ghost predicate DrawsPart(shown: map<string, int>, layout: seq<Placed>, cells: seq<int>, done: set<nat>)
    requires |cells| == |layout|
  {
    forall i :: i in done ==> i < |layout| && layout[i].id in shown && shown[layout[i].id] == cells[i]
  }

  /** The icons that keep their cell and the first `p` folded ones. */
  ghost function PlacedBy(layout: seq<Placed>, capacity: nat, sorted: seq<Spilled>, p: nat): set<nat>
    requires p <= |sorted|
  {
    if p == 0 then set i: nat | i < |layout| && Keeps(layout, capacity, i)
    else PlacedBy(layout, capacity, sorted, p - 1) + {sorted[p - 1].at}
  }

  lemma {:induction false} PlacedByHolds(layout: seq<Placed>, capacity: nat, sorted: seq<Spilled>, p: nat, i: nat)
    requires i < |layout| && p <= |sorted|
    ensures i in PlacedBy(layout, capacity, sorted, p) <==>
              Keeps(layout, capacity, i) || exists q: nat :: q < p && sorted[q].at == i
  {
    if p > 0 {
      PlacedByHolds(layout, capacity, sorted, p - 1, i);
    }
  }

  lemma DrawsMore(layout: seq<Placed>, capacity: nat, sorted: seq<Spilled>, p: nat, shown: map<string, int>,
                  cells: seq<int>, free: int)
    requires |cells| == |layout| && p < |sorted|
    requires SpillsFirst(layout, capacity, |layout|, sorted) && InOrder(layout, sorted)
    requires DistinctIds(layout) && DrawsPart(shown, layout, cells, PlacedBy(layout, capacity, sorted, p))
    ensures DrawsPart(shown[sorted[p].item.id := free], layout, cells[sorted[p].at := free],
                      PlacedBy(layout, capacity, sorted, p + 1))
  {
    var at := sorted[p].at;
    PlacesOnlyOne(layout, capacity, cells, sorted, p, free);
    PlacedByHolds(layout, capacity, sorted, p, at);
  }

  /**
   On the field, told by rows and columns: the first icon saved to a cell of the field is drawn there; no two icons are
   drawn on one cell; and when there are no more icons than cells, all are drawn on the field.
   */
  ghost predicate StaysOnField(shown: map<string, int>, layout: seq<Placed>, cols: nat, rows: nat) {
    && shown.Keys == Ids(layout)
    && (forall i: nat :: i < |layout| && OnField(layout[i].cell, cols, rows)
                         && (forall j: nat :: j < i ==> layout[j].cell != layout[i].cell) ==>
          layout[i].id in shown && shown[layout[i].id] == layout[i].cell)
    && (forall i: nat, j: nat :: i < j < |layout| && layout[i].id in shown && layout[j].id in shown ==>
          shown[layout[i].id] != shown[layout[j].id])
    && (|layout| <= cols * rows ==>
          forall i: nat :: i < |layout| && layout[i].id in shown ==> OnField(shown[layout[i].id], cols, rows))
  }

  lemma FoldStaysOnField(layout: seq<Placed>, cols: nat, rows: nat, cells: seq<int>, shown: map<string, int>)
    requires cols > 0 && rows > 0 && IsFold(layout, Capacity(cols, rows), cells) && Draws(shown, layout, cells)
    ensures StaysOnField(shown, layout, cols, rows)
  {
    var capacity := Capacity(cols, rows);
    hide TakenFor, Before, OnField;
    forall i: nat | i < |layout|
      ensures OnField(layout[i].cell, cols, rows) && (forall j: nat :: j < i ==> layout[j].cell != layout[i].cell) ==>
                cells[i] == layout[i].cell
    {
      GridIsField(layout[i].cell, cols, rows);
    }
    forall i: nat, j: nat | i < j < |layout| ensures cells[i] != cells[j] {
      FoldIsInjective(layout, capacity, cells, i, j);
    }
    if |layout| <= cols * rows {
      forall i: nat | i < |layout| ensures OnField(cells[i], cols, rows) {
        FoldStaysOnGrid(layout, capacity, cells, i);
        GridIsField(cells[i], cols, rows);
      }
    }
  }

  /** `visiblePlacement`: the saved layout folded onto the grid. */
  method VisiblePlacement(layout: seq<Placed>, cols: nat, rows: nat) returns (shown: map<string, int>)
    ensures DrawsFold(shown, layout, Capacity(cols, rows))
    ensures DistinctIds(layout) && cols > 0 && rows > 0 ==> StaysOnField(shown, layout, cols, rows)
  {
    var capacity := Capacity(cols, rows);
    var taken, kept, spill;
    kept, taken, spill := SettleKept(layout, capacity);
    SortedSpill(layout, capacity, spill);
    spill := Sort(spill, BySavedCell());
    NothingFoldedYet(layout, capacity, taken, spill);
    ghost var cells;
    shown, cells := PlaceFolded(layout, capacity, kept, taken, spill);
    if DistinctIds(layout) && cols > 0 && rows > 0 {
      FoldStaysOnField(layout, cols, rows, cells, shown);
    }
  }

  /** The second pass of `visiblePlacement`: the folded icons take the free cells in turn. */
  method PlaceFolded(layout: seq<Placed>, capacity: nat, kept: map<string, int>, claimed: set<int>, sorted: seq<Spilled>)
    returns (shown: map<string, int>, ghost cells: seq<int>)
    requires SpillsFirst(layout, capacity, |layout|, sorted) && InOrder(layout, sorted)
    requires GivenOut(layout, capacity, KeptCells(layout), claimed, 0, sorted, 0)
    requires NonePassedOver(layout, capacity, KeptCells(layout), sorted, 0)
    requires kept.Keys <= Ids(layout)
    requires DistinctIds(layout) ==> DrawsPart(kept, layout, KeptCells(layout), PlacedBy(layout, capacity, sorted, 0))
    ensures IsFold(layout, capacity, cells)
    ensures DistinctIds(layout) ==> Draws(shown, layout, cells)
  {
    hide Accounted, TakenFor, Before;
    shown, cells := kept, KeptCells(layout);
    var taken, next: nat := claimed, 0;
    for p := 0 to |sorted|
      invariant |cells| == |layout|
      invariant GivenOut(layout, capacity, cells, taken, next, sorted, p)
      invariant NonePassedOver(layout, capacity, cells, sorted, p)
      invariant shown.Keys <= Ids(layout)
      invariant DistinctIds(layout) ==> DrawsPart(shown, layout, cells, PlacedBy(layout, capacity, sorted, p))
    {
      var free := FirstFree(taken, next);
      PassesNoneOver(layout, capacity, cells, taken, next, sorted, p, free);
      GivesOutNext(layout, capacity, cells, taken, next, sorted, p, free);
      if DistinctIds(layout) {
        DrawsMore(layout, capacity, sorted, p, shown, cells, free);
      }
      assert layout[sorted[p].at] in layout;
      hide GivenOut, NonePassedOver, DrawsPart, PlacedBy;
      next, taken := free, taken + {free};
      shown := shown[sorted[p].item.id := free];
      cells := cells[sorted[p].at := free];
    }
    FoldedIsFold(layout, capacity, cells, taken, next, sorted);
    if DistinctIds(layout) {
      AllAreDrawn(layout, capacity, shown, cells, sorted);
    }
  }

  /** Once every folded icon has its cell, the whole layout is drawn. */
  lemma AllAreDrawn(layout: seq<Placed>, capacity: nat, shown: map<string, int>, cells: seq<int>, sorted: seq<Spilled>)
    requires SpillsFirst(layout, capacity, |layout|, sorted) && |cells| == |layout|
    requires shown.Keys <= Ids(layout)
    requires DrawsPart(shown, layout, cells, PlacedBy(layout, capacity, sorted, |sorted|))
    ensures Draws(shown, layout, cells)
  {
    forall i: nat | i < |layout| ensures i in PlacedBy(layout, capacity, sorted, |sorted|) {
      PlacedByHolds(layout, capacity, sorted, |sorted|, i);
      assert Keeps(layout, capacity, i) || Listed(sorted, i);
    }
    assert forall i: nat :: i < |layout| ==> layout[i] in layout;
  }

  /** `while (taken.has(next)) next += 1`. */
  method FirstFree(taken: set<int>, start: nat) returns (free: nat)
    ensures start <= free && free !in taken
    ensures forall c :: start <= c < free ==> c in taken
  {
    free := start;
    ghost var ahead := taken;
    while free in taken
      invariant start <= free
      invariant forall c :: start <= c < free ==> c in taken
      invariant forall c :: c in taken && c >= free ==> c in ahead
      decreases ahead
    {
      ahead := ahead - {free};
      free := free + 1;
    }
  }
}
