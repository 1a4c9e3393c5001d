/**
 Dragging, dropping and adding shortcuts. Each gesture rewrites the SAVED layout from what is on SCREEN; the
 theorems say what the next fold then shows.
 */
module ShortcutMoves {
  import opened Arithmetic
  import opened Wrappers
  import opened Shortcuts

  // ---- pixels and cells ------------------------------------------------------------------------

  /** A tile of 78 pixels and a gutter of 12. */
  const STEP := 90

  function Clamp(value: int, low: int, high: int): int {
    var floored := if value < low then low else value;
    if floored > high then high else floored
  }

  /** `Math.round`, halves up. */
  function Round(x: real): int {
    (x + 0.5).Floor
  }

  function CellUnderCorner(x: real, y: real, cols: nat, rows: nat): int
    requires cols > 0 && rows > 0
  {
    var col := Clamp(Round(x / STEP as real), 0, cols - 1);
    var row := Clamp(Round(y / STEP as real), 0, rows - 1);
    row * cols + col
  }

  function PositionOf(cell: nat, cols: nat): (int, int)
    requires cols > 0
  {
    ((cell % cols) * STEP, (cell / cols) * STEP)
  }

  /** Wherever an icon is let go, it lands on the grid. */
  lemma DropsOnGrid(x: real, y: real, cols: nat, rows: nat)
    requires cols > 0 && rows > 0
    ensures InGrid(CellUnderCorner(x, y, cols, rows), Capacity(cols, rows))
  {
    var col := Clamp(Round(x / STEP as real), 0, cols - 1);
    var row := Clamp(Round(y / STEP as real), 0, rows - 1);
    CellOnGrid(col, row, cols, rows);
  }

  /** How far a pixel is from where column (or row) `n` is drawn. */
  function Distance(x: real, n: int): real {
    var d := x - (n * 90) as real;
    if d < 0.0 then -d else d
  }

  predicate Nearest(x: real, n: nat, size: nat) {
    n < size && forall c :: 0 <= c < size ==> Distance(x, n) <= Distance(x, c)
  }

  lemma ClampsToNearest(x: real, size: nat)
    requires size > 0
    ensures Clamp(Round(x / STEP as real), 0, size - 1) >= 0
    ensures Nearest(x, Clamp(Round(x / STEP as real), 0, size - 1), size)
  {
    var n := Round(x / STEP as real);
    var q := x / 90.0;
    assert n as real <= q + 0.5 < n as real + 1.0;
    assert 90.0 * n as real - 45.0 <= x < 90.0 * n as real + 45.0;
    hide Round;
    var col := Clamp(n, 0, size - 1);
    forall c | 0 <= c < size ensures Distance(x, col) <= Distance(x, c) {
      NoneIsNearer(x, n, col, c, size);
    }
  }

  lemma NoneIsNearer(x: real, n: int, col: nat, c: nat, size: nat)
    requires 90.0 * n as real - 45.0 <= x < 90.0 * n as real + 45.0
    requires c < size && col == Clamp(n, 0, size - 1)
    ensures Distance(x, col) <= Distance(x, c)
  {
    assert (col * 90) as real == 90.0 * col as real && (c * 90) as real == 90.0 * c as real;
    assert c < n ==> c as real <= n as real - 1.0;
    assert c > n ==> c as real >= n as real + 1.0;
  }

  /** Wherever an icon is let go, beyond the edges too, it lands on the nearest column of the nearest row. */
  lemma DropsOnNearest(x: real, y: real, cols: nat, rows: nat) returns (col: nat, row: nat)
    requires cols > 0 && rows > 0
    ensures StandsAt(CellUnderCorner(x, y, cols, rows), row, col, cols, rows)
    ensures Nearest(x, col, cols) && Nearest(y, row, rows)
  {
    ClampsToNearest(x, cols);
    ClampsToNearest(y, rows);
    col, row := Clamp(Round(x / STEP as real), 0, cols - 1), Clamp(Round(y / STEP as real), 0, rows - 1);
  }

  /** An icon let go less than half a step from where a cell is drawn lands on that cell. */
  lemma DropsWhereDrawn(cell: nat, dx: real, dy: real, cols: nat, rows: nat)
    requires cols > 0 && rows > 0 && cell < cols * rows
    requires -45.0 <= dx < 45.0 && -45.0 <= dy < 45.0
    ensures var (left, top) := PositionOf(cell, cols);
            CellUnderCorner(left as real + dx, top as real + dy, cols, rows) == cell
  {
    var col, row := cell % cols, cell / cols;
    RowIsOnGrid(cell, cols, rows);
    ClampsBack(col, dx, cols);
    ClampsBack(row, dy, rows);
    hide Clamp, Round;
  }

  lemma ClampsBack(n: nat, d: real, size: nat)
    requires -45.0 <= d < 45.0 && n < size
    ensures Clamp(Round(((n * STEP) as real + d) / STEP as real), 0, size - 1) == n
  {
    RoundsBack(n, d);
  }

  lemma RoundsBack(n: nat, d: real)
    requires -45.0 <= d < 45.0
    ensures Round(((n * STEP) as real + d) / STEP as real) == n
  {
    var x := ((n * STEP) as real + d) / STEP as real;
    assert x == n as real + d / 90.0;
    assert n as real <= x + 0.5 < (n + 1) as real;
  }

  // ---- dropping an icon ------------------------------------------------------------------------

  /** The first other icon, in layout order, drawn on `target`. */
  function Occupant(layout: seq<Placed>, shown: map<string, int>, grabbed: string, target: int): Option<string> {
    if layout == [] then None
    else if layout[0].id != grabbed && layout[0].id in shown && shown[layout[0].id] == target then Some(layout[0].id)
    else Occupant(layout[1..], shown, grabbed, target)
  }

  /** The layout after `grabbed` is let go on `target`: an occupant takes the cell the grabbed icon was seen on. */
  function Moved(layout: seq<Placed>, grabbed: string, occupant: Option<string>, from: int, target: int): seq<Placed> {
    seq(|layout|, i requires 0 <= i < |layout| =>
      if layout[i].id == grabbed then Placed(grabbed, target)
      else if occupant == Some(layout[i].id) then Placed(layout[i].id, from)
      else layout[i])
  }

  /** `onPointerUp`: nothing when the icon is not on screen or has not left its cell. */
  function Drop(layout: seq<Placed>, shown: map<string, int>, grabbed: string, target: int): Option<seq<Placed>> {
    if grabbed !in shown || shown[grabbed] == target then None
    else Some(Moved(layout, grabbed, Occupant(layout, shown, grabbed, target), shown[grabbed], target))
  }

  /** An icon that is not on screen, or is let go where it is, changes nothing; any other drop writes a layout. */
  lemma DropsIff(layout: seq<Placed>, shown: map<string, int>, grabbed: string, target: int)
    ensures Drop(layout, shown, grabbed, target).Some? <==> grabbed in shown && shown[grabbed] != target
  {
  }

  /** No two saved icons share a cell of the grid. */
  ghost predicate DistinctOnGrid(layout: seq<Placed>, capacity: nat) {
    forall i, j | 0 <= i < j < |layout| :: InGrid(layout[i].cell, capacity) ==> layout[i].cell != layout[j].cell
  }

  lemma OccupantIsSeen(layout: seq<Placed>, shown: map<string, int>, cells: seq<int>, g: nat, target: int)
    requires DistinctIds(layout) && |cells| == |layout| && g < |layout|
    requires forall i :: 0 <= i < |layout| ==> layout[i].id in shown && shown[layout[i].id] == cells[i]
    ensures var who := Occupant(layout, shown, layout[g].id, target);
            && (who.None? ==> forall i :: 0 <= i < |layout| && i != g ==> cells[i] != target)
            && (who.Some? ==> exists o :: 0 <= o < |layout| && o != g && layout[o].id == who.value && cells[o] == target)
  {
    OccupantHolds(layout, shown, layout[g].id, target);
    var who := Occupant(layout, shown, layout[g].id, target);
    if who.Some? {
      var o :| 0 <= o < |layout| && layout[o].id == who.value;
      assert o != g && cells[o] == target;
    }
  }

  lemma {:induction false} OccupantHolds(layout: seq<Placed>, shown: map<string, int>, grabbed: string, target: int)
    ensures var who := Occupant(layout, shown, grabbed, target);
            && (who.None? ==> forall i :: 0 <= i < |layout| && layout[i].id != grabbed && layout[i].id in shown ==>
                                shown[layout[i].id] != target)
            && (who.Some? ==> who.value != grabbed && who.value in shown && shown[who.value] == target
                              && exists o :: 0 <= o < |layout| && layout[o].id == who.value)
  {
    if layout != [] {
      OccupantHolds(layout[1..], shown, grabbed, target);
    }
  }

  /** Dropping on an occupied cell writes a layout in which just these two saved cells changed. */
  lemma SwapWrites(layout: seq<Placed>, shown: map<string, int>, g: nat, o: nat, target: int)
    requires DistinctIds(layout) && g < |layout| && o < |layout| && g != o
    requires layout[g].id in shown && shown[layout[g].id] != target
    requires Occupant(layout, shown, layout[g].id, target) == Some(layout[o].id)
    ensures Drop(layout, shown, layout[g].id, target) ==
            Some(layout[g := Placed(layout[g].id, target)][o := Placed(layout[o].id, shown[layout[g].id])])
  {
    forall i, j | 0 <= i < |layout| && 0 <= j < |layout| && i != j ensures layout[i].id != layout[j].id {
      assert i < j || j < i;
    }
    assert Moved(layout, layout[g].id, Some(layout[o].id), shown[layout[g].id], target) ==
           layout[g := Placed(layout[g].id, target)][o := Placed(layout[o].id, shown[layout[g].id])];
  }

  /** With distinct cells on the grid, an icon is folded exactly when it was saved off the grid. */
  lemma KeepsIffOnGrid(layout: seq<Placed>, capacity: nat)
    requires DistinctOnGrid(layout, capacity)
    ensures forall i: nat :: i < |layout| ==> (Keeps(layout, capacity, i) <==> InGrid(layout[i].cell, capacity))
  {
  }

  /** Another icon, earlier in the layout than `g`, was saved to the cell `o` is seen on; or the other way round. */
  predicate Disputes(layout: seq<Placed>, a: seq<int>, g: nat, o: nat, j: nat)
    requires |a| == |layout| && g < |layout| && o < |layout|
  {
    && j < |layout| && j != g && j != o
    && ((j < g && layout[j].cell == a[o]) || (j < o && layout[j].cell == a[g]))
  }

  ghost predicate Disputed(layout: seq<Placed>, a: seq<int>, g: nat, o: nat)
    requires |a| == |layout| && g < |layout| && o < |layout|
  {
    exists j: nat :: Disputes(layout, a, g, o, j)
  }

  function Exchanged(layout: seq<Placed>, a: seq<int>, g: nat, o: nat): seq<Placed>
    requires |a| == |layout| && g < |layout| && o < |layout|
  {
    layout[g := Placed(layout[g].id, a[o])][o := Placed(layout[o].id, a[g])]
  }

  /** Undisputed, the two keep their new cells, and every other icon keeps or loses its own as before. */
  lemma ExchangeKeeps(layout: seq<Placed>, capacity: nat, a: seq<int>, g: nat, o: nat)
    requires IsFold(layout, capacity, a) && |layout| <= capacity
    requires g < |layout| && o < |layout| && g != o && !Disputed(layout, a, g, o)
    ensures var next := Exchanged(layout, a, g, o);
            && Keeps(next, capacity, g) && Keeps(next, capacity, o)
            && forall i: nat :: i < |layout| && i != g && i != o ==> (Keeps(next, capacity, i) <==> Keeps(layout, capacity, i))
  {
    var next := Exchanged(layout, a, g, o);
    FoldStaysOnGrid(layout, capacity, a, g);
    FoldStaysOnGrid(layout, capacity, a, o);
    FoldIsInjective(layout, capacity, a, g, o);
    forall j: nat ensures !Disputes(layout, a, g, o, j) {
    }
    hide IsFold, Disputed;
    PairKeeps(layout, capacity, a, g, o);
    forall i: nat | i < |layout| && i != g && i != o ensures Keeps(next, capacity, i) <==> Keeps(layout, capacity, i) {
      BystanderKeeps(layout, capacity, a, g, o, i);
    }
  }

  lemma PairKeeps(layout: seq<Placed>, capacity: nat, a: seq<int>, g: nat, o: nat)
    requires |a| == |layout| && g < |layout| && o < |layout| && g != o && a[g] != a[o]
    requires InGrid(a[g], capacity) && InGrid(a[o], capacity)
    requires forall j: nat :: !Disputes(layout, a, g, o, j)
    ensures var next := Exchanged(layout, a, g, o); Keeps(next, capacity, g) && Keeps(next, capacity, o)
  {
    var next := Exchanged(layout, a, g, o);
    forall j: nat | j < |layout| && j != g && j != o
      ensures (j < g ==> next[j].cell != a[o]) && (j < o ==> next[j].cell != a[g])
    {
      assert !Disputes(layout, a, g, o, j);
    }
  }

  lemma BystanderKeeps(layout: seq<Placed>, capacity: nat, a: seq<int>, g: nat, o: nat, i: nat)
    requires IsFold(layout, capacity, a) && g < |layout| && o < |layout| && g != o
    requires i < |layout| && i != g && i != o && !Disputes(layout, a, g, o, i)
    ensures Keeps(Exchanged(layout, a, g, o), capacity, i) <==> Keeps(layout, capacity, i)
  {
    var next := Exchanged(layout, a, g, o);
    FoldIsInjective(layout, capacity, a, i, g);
    FoldIsInjective(layout, capacity, a, i, o);
    if InGrid(layout[i].cell, capacity) {
      var f := FirstClaimant(layout, capacity, i);
      assert a[f] == layout[i].cell;
      if Keeps(layout, capacity, i) {
        assert forall j: nat :: j < i && j != g && j != o ==> next[j] == layout[j];
      }
      assert next[i] == layout[i] && next[g].cell == a[o] && next[o].cell == a[g];
      assert f != g && f != o ==> next[f] == layout[f];
    }
  }

  /**
   Exchanging the saved cells of two icons for the cells they were seen on: undisputed, the fold of the new layout is
   the old picture with those two icons exchanged, wherever either of them had been saved.
   */
  lemma ExchangeIsFold(layout: seq<Placed>, capacity: nat, a: seq<int>, g: nat, o: nat)
    requires IsFold(layout, capacity, a) && |layout| <= capacity
    requires g < |layout| && o < |layout| && g != o && !Disputed(layout, a, g, o)
    ensures IsFold(Exchanged(layout, a, g, o), capacity, a[g := a[o]][o := a[g]])
  {
    var next := Exchanged(layout, a, g, o);
    var b := a[g := a[o]][o := a[g]];
    var seats := seq(|layout|, (k: nat) => k)[g := o][o := g];
    ExchangeKeeps(layout, capacity, a, g, o);
    KeptWhereSaved(layout, capacity, a);
    SeatsStayApart(layout, capacity, a, g, o);
    hide IsFold, Keeps, Disputed, InGrid;
    Reseated(layout, capacity, a, next, b, seats);
  }

  /**
   Another layout whose folded icons are folded icons of this one, unchanged, and every cell below them still taken: by
   the icon that took it, or by one that keeps it. Then they stay where they are.
   */
  lemma Reseated(layout: seq<Placed>, capacity: nat, a: seq<int>, next: seq<Placed>, b: seq<int>, seats: seq<nat>)
    requires IsFold(layout, capacity, a) && |next| == |layout| == |b| == |seats|
    requires forall i: nat, j: nat :: i < |b| && j < |b| && i != j ==> b[i] != b[j]
    requires forall i: nat :: i < |next| && Keeps(next, capacity, i) ==> b[i] == next[i].cell
    requires forall i: nat :: i < |next| && !Keeps(next, capacity, i) ==>
               !Keeps(layout, capacity, i) && next[i] == layout[i] && b[i] == a[i]
    requires forall k: nat, i: nat :: k < |next| && i < |next| && !Keeps(next, capacity, i) && a[k] < a[i] ==>
               && seats[k] < |next| && b[seats[k]] == a[k]
               && (Keeps(next, capacity, seats[k]) || (seats[k] == k && !Keeps(next, capacity, k)))
    ensures IsFold(next, capacity, b)
  {
    assert forall i: nat :: i < |next| && Keeps(next, capacity, i) ==> InGrid(next[i].cell, capacity);
    hide Keeps;
    forall i: nat, c | i < |next| && 0 <= c < b[i] && !Keeps(next, capacity, i) ensures TakenFor(next, capacity, b, c, i) {
      assert TakenFor(layout, capacity, a, c, i);
      var k: nat :| k < |a| && a[k] == c && (Keeps(layout, capacity, k) || Before(layout, k, i));
      var seat := seats[k];
      assert b[seat] == c && (Keeps(next, capacity, seat) || Before(next, seat, i));
    }
    hide TakenFor;
  }

  lemma KeptWhereSaved(layout: seq<Placed>, capacity: nat, a: seq<int>)
    requires IsFold(layout, capacity, a)
    ensures forall i: nat :: i < |layout| && Keeps(layout, capacity, i) ==> a[i] == layout[i].cell
  {
  }

  /** Disputed, the first to have claimed the cell takes it back, and is seen somewhere new. */
  lemma DisputeMoves(layout: seq<Placed>, capacity: nat, a: seq<int>, b: seq<int>, g: nat, o: nat)
    requires IsFold(layout, capacity, a) && |layout| <= capacity
    requires g < |layout| && o < |layout| && g != o && Disputed(layout, a, g, o)
    requires IsFold(Exchanged(layout, a, g, o), capacity, b)
    ensures exists f: nat :: f < |layout| && f != g && f != o && b[f] != a[f]
  {
    var next := Exchanged(layout, a, g, o);
    FoldStaysOnGrid(layout, capacity, a, g);
    FoldStaysOnGrid(layout, capacity, a, o);
    FoldIsInjective(layout, capacity, a, g, o);
    var j: nat :| Disputes(layout, a, g, o, j);
    var f := FirstClaimant(next, capacity, j);
    hide TakenFor, Before;
    assert b[f] == layout[j].cell;
    assert f != g && f != o;
    FoldIsInjective(layout, capacity, a, f, g);
    FoldIsInjective(layout, capacity, a, f, o);
  }

  lemma SeatsAreApart(layout: seq<Placed>, capacity: nat, a: seq<int>)
    requires IsFold(layout, capacity, a)
    ensures forall i: nat, j: nat :: i < |a| && j < |a| && i != j ==> a[i] != a[j]
  {
    forall i: nat, j: nat | i < |layout| && j < |layout| && i != j ensures a[i] != a[j] {
      FoldIsInjective(layout, capacity, a, i, j);
    }
  }

  lemma SeatsStayApart(layout: seq<Placed>, capacity: nat, a: seq<int>, g: nat, o: nat)
    requires IsFold(layout, capacity, a) && g < |layout| && o < |layout| && g != o
    ensures var b := a[g := a[o]][o := a[g]];
            forall i: nat, j: nat :: i < |b| && j < |b| && i != j ==> b[i] != b[j]
  {
    SeatsAreApart(layout, capacity, a);
  }

  lemma ExchangeStaysDistinct(layout: seq<Placed>, capacity: nat, a: seq<int>, g: nat, o: nat)
    requires IsFold(layout, capacity, a) && DistinctOnGrid(layout, capacity)
    requires g < |layout| && o < |layout| && g != o
    ensures DistinctOnGrid(layout[g := Placed(layout[g].id, a[o])][o := Placed(layout[o].id, a[g])], capacity)
  {
    var next := layout[g := Placed(layout[g].id, a[o])][o := Placed(layout[o].id, a[g])];
    forall i, j | 0 <= i < j < |layout| && InGrid(next[i].cell, capacity) ensures next[i].cell != next[j].cell {
      FoldIsInjective(layout, capacity, a, g, o);
      SeenApart(layout, capacity, a, i, j);
      SeenApart(layout, capacity, a, i, g);
      SeenApart(layout, capacity, a, i, o);
      SeenApart(layout, capacity, a, j, g);
      SeenApart(layout, capacity, a, j, o);
    }
  }

  /** No icon is seen on the grid cell another was saved to. */
  lemma SeenApart(layout: seq<Placed>, capacity: nat, a: seq<int>, i: nat, k: nat)
    requires IsFold(layout, capacity, a) && DistinctOnGrid(layout, capacity) && i < |layout| && k < |layout|
    ensures i != k && InGrid(layout[i].cell, capacity) ==> a[k] != layout[i].cell
  {
    KeepsIffOnGrid(layout, capacity);
    if i != k {
      FoldIsInjective(layout, capacity, a, i, k);
    }
  }

  /**
   The gesture on screen: dropping an icon on an occupied cell exchanges the two icons and moves no other, folded icons
   included, exactly when no other icon disputes their cells.
   */
  lemma DropExchangesIff(layout: seq<Placed>, capacity: nat, shown: map<string, int>, a: seq<int>, b: seq<int>, g: nat, o: nat)
    requires DistinctIds(layout) && |layout| <= capacity
    requires IsFold(layout, capacity, a) && Draws(shown, layout, a)
    requires g < |layout| && o < |layout| && g != o
    ensures Drop(layout, shown, layout[g].id, a[o]) == Some(Exchanged(layout, a, g, o))
    ensures DistinctIds(Exchanged(layout, a, g, o))
    ensures IsFold(Exchanged(layout, a, g, o), capacity, b) ==>
              (b == a[g := a[o]][o := a[g]] <==> !Disputed(layout, a, g, o))
  {
    hide Keeps, Before, TakenFor, InGrid, Moved, Occupant, Disputed;
    FoldIsInjective(layout, capacity, a, g, o);
    OccupantIsSeen(layout, shown, a, g, a[o]);
    var who := Occupant(layout, shown, layout[g].id, a[o]);
    assert who.Some?;
    var seen :| 0 <= seen < |layout| && seen != g && layout[seen].id == who.value && a[seen] == a[o];
    if seen != o {
      FoldIsInjective(layout, capacity, a, seen, o);
    }
    SwapWrites(layout, shown, g, o, a[o]);
    var next := Exchanged(layout, a, g, o);
    if IsFold(next, capacity, b) {
      if Disputed(layout, a, g, o) {
        DisputeMoves(layout, capacity, a, b, g, o);
      } else {
        ExchangeIsFold(layout, capacity, a, g, o);
        FoldIsUnique(next, capacity, b, a[g := a[o]][o := a[g]]);
      }
    }
  }

  /** With no two saved icons on one grid cell nothing is disputed, and the layout written is again such a one. */
  lemma DropExchanges(layout: seq<Placed>, capacity: nat, shown: map<string, int>, a: seq<int>, b: seq<int>, g: nat, o: nat)
    requires DistinctIds(layout) && DistinctOnGrid(layout, capacity) && |layout| <= capacity
    requires IsFold(layout, capacity, a) && Draws(shown, layout, a)
    requires g < |layout| && o < |layout| && g != o
    ensures var drop := Drop(layout, shown, layout[g].id, a[o]);
            && drop.Some?
            && DistinctIds(drop.value) && DistinctOnGrid(drop.value, capacity) && |drop.value| == |layout|
            && (IsFold(drop.value, capacity, b) ==> b == a[g := a[o]][o := a[g]])
  {
    hide Keeps, Before, TakenFor, Drop;
    DropExchangesIff(layout, capacity, shown, a, b, g, o);
    ExchangeStaysDistinct(layout, capacity, a, g, o);
    FoldStaysOnGrid(layout, capacity, a, g);
    FoldStaysOnGrid(layout, capacity, a, o);
    forall j: nat ensures !Disputes(layout, a, g, o, j) {
      if j < |layout| && j != g && j != o {
        SeenApart(layout, capacity, a, j, g);
        SeenApart(layout, capacity, a, j, o);
      }
    }
  }

  /** Three icons on three cells, the second folded off the first one's cell: exchanging the outer two moves it too. */
  lemma DisputedDropMovesAThird(one: string, two: string, three: string)
    ensures var layout, next := [Placed(one, 0), Placed(two, 0), Placed(three, 2)],
                                [Placed(one, 2), Placed(two, 0), Placed(three, 0)];
            && IsFold(layout, 3, [0, 1, 2]) && Exchanged(layout, [0, 1, 2], 0, 2) == next
            && IsFold(next, 3, [2, 0, 1])
  {
    var layout, next := [Placed(one, 0), Placed(two, 0), Placed(three, 2)], [Placed(one, 2), Placed(two, 0), Placed(three, 0)];
    assert layout[0].cell == layout[1].cell && next[1].cell == next[2].cell;
    assert Keeps(layout, 3, 0) && !Keeps(layout, 3, 1) && Keeps(layout, 3, 2);
    assert Keeps(next, 3, 0) && Keeps(next, 3, 1) && !Keeps(next, 3, 2);
    OneFolded(layout, [0, 1, 2], 1, 0);
    OneFolded(next, [2, 0, 1], 2, 1);
  }

  /** Two icons keeping their cells and a third folded onto cell 1, cell 0 being taken. */
  lemma OneFolded(layout: seq<Placed>, cells: seq<int>, folded: nat, first: nat)
    requires |layout| == 3 && |cells| == 3 && folded < 3 && first < 3 && cells[folded] == 1 && cells[first] == 0
    requires forall i: nat :: i < 3 ==> (Keeps(layout, 3, i) <==> i != folded)
    requires forall i: nat :: i < 3 && i != folded ==> cells[i] == layout[i].cell && cells[i] != 1
    ensures IsFold(layout, 3, cells)
  {
    assert forall i: nat :: i < 3 && Keeps(layout, 3, i) ==> InGrid(layout[i].cell, 3);
    hide Keeps;
    forall i: nat, c | i < 3 && 0 <= c < cells[i] && !Keeps(layout, 3, i) ensures TakenFor(layout, 3, cells, c, i) {
      assert i == folded && c == 0 && cells[first] == c && Keeps(layout, 3, first);
    }
    hide TakenFor;
    assert forall i: nat, j: nat | i < 3 && j < 3 && Before(layout, j, i) :: i != j;
  }

  /** Dropping on a free cell writes a layout in which just the dragged icon's cell changed. */
  lemma MoveWrites(layout: seq<Placed>, shown: map<string, int>, g: nat, target: int)
    requires DistinctIds(layout) && g < |layout|
    requires layout[g].id in shown && shown[layout[g].id] != target
    requires Occupant(layout, shown, layout[g].id, target) == None
    ensures Drop(layout, shown, layout[g].id, target) == Some(layout[g := Placed(layout[g].id, target)])
  {
    forall i | 0 <= i < |layout| && i != g ensures layout[i].id != layout[g].id {
      assert i < g || g < i;
    }
    assert Moved(layout, layout[g].id, None, shown[layout[g].id], target) == layout[g := Placed(layout[g].id, target)];
  }

  /** A folded icon other than `g` is seen beyond the cell `g` leaves. */
  ghost predicate FoldedBeyond(layout: seq<Placed>, capacity: nat, a: seq<int>, g: nat, i: nat)
    requires |a| == |layout| && g < |layout|
  {
    i < |layout| && i != g && !Keeps(layout, capacity, i) && a[i] > a[g]
  }

  /** Nobody sits on a free cell, so the drop only moves the dragged icon. */
  lemma FreeDropWrites(layout: seq<Placed>, shown: map<string, int>, a: seq<int>, g: nat, target: int)
    requires DistinctIds(layout) && |a| == |layout| && Draws(shown, layout, a)
    requires g < |layout| && target !in a
    ensures Drop(layout, shown, layout[g].id, target) == Some(layout[g := Placed(layout[g].id, target)])
  {
    assert forall i :: 0 <= i < |a| ==> a[i] in a;
    OccupantIsSeen(layout, shown, a, g, target);
    MoveWrites(layout, shown, g, target);
  }

  /** Another icon was saved to the cell `g` is seen on, and will have it when `g` leaves. */
  predicate Inherits(layout: seq<Placed>, a: seq<int>, g: nat, j: nat)
    requires |a| == |layout| && g < |layout|
  {
    j < |layout| && j != g && layout[j].cell == a[g]
  }

  /**
   The gesture on screen: dropping on a free cell always puts the icon there; the others stay where they were seen
   exactly when none of the folded ones stands beyond the cell that was left, for those close the gap, and none was
   saved to it, for that one takes it. With no two saved icons on one grid cell, none was.
   */
  lemma FreeMoveIff(layout: seq<Placed>, capacity: nat, shown: map<string, int>, a: seq<int>, b: seq<int>, g: nat, target: int)
    requires DistinctIds(layout) && |layout| <= capacity
    requires IsFold(layout, capacity, a) && Draws(shown, layout, a)
    requires g < |layout| && InGrid(target, capacity) && target !in a
    ensures var drop := Drop(layout, shown, layout[g].id, target);
            && drop.Some?
            && DistinctIds(drop.value) && |drop.value| == |layout|
            && (DistinctOnGrid(layout, capacity) ==>
                  DistinctOnGrid(drop.value, capacity) && forall j: nat :: !Inherits(layout, a, g, j))
            && (IsFold(drop.value, capacity, b) ==>
                  && b[g] == target
                  && ((forall i: nat :: i < |layout| && i != g ==> b[i] == a[i])
                      <==> (forall i: nat :: !FoldedBeyond(layout, capacity, a, g, i) && !Inherits(layout, a, g, i))))
  {
    hide Keeps, TakenFor, Before, Draws, FoldedBeyond, Drop;
    FreeDropWrites(layout, shown, a, g, target);
    var next := layout[g := Placed(layout[g].id, target)];
    assert DistinctIds(next) by {
      assert forall i :: 0 <= i < |layout| ==> next[i].id == layout[i].id;
    }
    if DistinctOnGrid(layout, capacity) {
      MoveStaysDistinct(layout, capacity, a, g, target);
      FoldStaysOnGrid(layout, capacity, a, g);
      forall j: nat ensures !Inherits(layout, a, g, j) {
        if j < |layout| {
          SeenApart(layout, capacity, a, j, g);
        }
      }
    }
    if IsFold(next, capacity, b) {
      GapClosesIff(layout, capacity, a, b, g, target);
    }
  }

  /** Two icons on three cells, the second folded in from outside: moving the first away moves the second. */
  lemma FreeMoveClosesTheGap()
    ensures var layout, shown := [Placed("a", 0), Placed("b", 9)], map["a" := 0, "b" := 1];
            && IsFold(layout, 3, [0, 1]) && Draws(shown, layout, [0, 1])
            && Drop(layout, shown, "a", 2) == Some([Placed("a", 2), Placed("b", 9)])
            && IsFold([Placed("a", 2), Placed("b", 9)], 3, [2, 0])
  {
    var layout, shown, next := [Placed("a", 0), Placed("b", 9)], map["a" := 0, "b" := 1], [Placed("a", 2), Placed("b", 9)];
    FoldsBeside("a", "b", 0);
    FoldsBeside("a", "b", 2);
    hide IsFold;
    assert "a" != "b" by {
      assert "a"[0] != "b"[0];
    }
    assert Draws(shown, layout, [0, 1]);
    FreeDropWrites(layout, shown, [0, 1], 0, 2);
    assert layout[0 := Placed("a", 2)] == next;
  }

  lemma FoldsBeside(one: string, other: string, cell: nat)
    requires cell < 3
    ensures IsFold([Placed(one, cell), Placed(other, 9)], 3, [cell, if cell == 0 then 1 else 0])
  {
    var layout, cells := [Placed(one, cell), Placed(other, 9)], [cell, if cell == 0 then 1 else 0];
    assert Keeps(layout, 3, 0);
    assert !InGrid(layout[1].cell, 3);
    hide Keeps;
    forall i: nat, c | i < |layout| && 0 <= c < cells[i] && !Keeps(layout, 3, i) ensures TakenFor(layout, 3, cells, c, i) {
      assert i == 1 && c == 0 && cells[0] == 0;
    }
  }

  /** The same of the layouts. */
  lemma GapClosesIff(layout: seq<Placed>, capacity: nat, a: seq<int>, b: seq<int>, g: nat, target: int)
    requires IsFold(layout, capacity, a) && |layout| <= capacity
    requires g < |layout| && InGrid(target, capacity) && target !in a
    requires IsFold(layout[g := Placed(layout[g].id, target)], capacity, b)
    ensures b[g] == target
    ensures (forall i: nat :: i < |layout| && i != g ==> b[i] == a[i])
            <==> (forall i: nat :: !FoldedBeyond(layout, capacity, a, g, i) && !Inherits(layout, a, g, i))
  {
    var next := layout[g := Placed(layout[g].id, target)];
    TargetIsKept(layout, capacity, a, g, target);
    if i: nat :| Inherits(layout, a, g, i) {
      HeirMoves(layout, capacity, a, b, g, target, i);
    } else {
      MoveKeeps(layout, capacity, a, g, target);
      hide Keeps, Inherits;
      if i: nat :| FoldedBeyond(layout, capacity, a, g, i) {
        if b[i] == a[i] {
          assert TakenFor(next, capacity, b, a[g], i);
          var k: nat :| k < |b| && b[k] == a[g] && (Keeps(next, capacity, k) || Before(next, k, i));
          assert k != g;
          FoldIsInjective(layout, capacity, a, k, g);
          assert b[k] != a[k];
        }
      } else {
        MoveIsFold(layout, capacity, a, g, target);
        FoldIsUnique(next, capacity, b, a[g := target]);
      }
    }
  }

  /** A free cell is nobody's saved cell: whoever claimed it first would be seen there. */
  lemma TargetIsKept(layout: seq<Placed>, capacity: nat, a: seq<int>, g: nat, target: int)
    requires IsFold(layout, capacity, a) && g < |layout| && InGrid(target, capacity) && target !in a
    ensures Keeps(layout[g := Placed(layout[g].id, target)], capacity, g)
  {
    forall j: nat | j < |layout| ensures layout[j].cell != target {
      if InGrid(layout[j].cell, capacity) {
        var f := FirstClaimant(layout, capacity, j);
        assert a[f] in a && a[f] == layout[j].cell;
      }
    }
  }

  /** With no heir to the cell left, every other icon keeps or loses its own as before. */
  lemma MoveKeeps(layout: seq<Placed>, capacity: nat, a: seq<int>, g: nat, target: int)
    requires IsFold(layout, capacity, a) && g < |layout| && InGrid(target, capacity) && target !in a
    requires forall j: nat :: !Inherits(layout, a, g, j)
    ensures var next := layout[g := Placed(layout[g].id, target)];
            forall i: nat :: i < |layout| && i != g ==> (Keeps(next, capacity, i) <==> Keeps(layout, capacity, i))
  {
    var next := layout[g := Placed(layout[g].id, target)];
    hide TakenFor, Before;
    forall i: nat | i < |layout| && i != g ensures Keeps(next, capacity, i) <==> Keeps(layout, capacity, i) {
      assert !Inherits(layout, a, g, i);
      if InGrid(layout[i].cell, capacity) {
        var f := FirstClaimant(layout, capacity, i);
        assert a[f] == layout[i].cell && a[f] in a;
        assert f != i && f != g ==> next[f] == layout[f];
        if Keeps(layout, capacity, i) {
          assert forall j: nat :: j < i && j != g ==> next[j] == layout[j];
        }
      }
    }
  }

  lemma HeirMoves(layout: seq<Placed>, capacity: nat, a: seq<int>, b: seq<int>, g: nat, target: int, j: nat)
    requires IsFold(layout, capacity, a) && |layout| <= capacity
    requires g < |layout| && InGrid(target, capacity) && target !in a && Inherits(layout, a, g, j)
    requires IsFold(layout[g := Placed(layout[g].id, target)], capacity, b)
    ensures exists f: nat :: f < |layout| && f != g && b[f] != a[f]
  {
    var next := layout[g := Placed(layout[g].id, target)];
    FoldStaysOnGrid(layout, capacity, a, g);
    var f := FirstClaimant(next, capacity, j);
    hide TakenFor, Before;
    assert a[g] in a;
    assert b[f] == a[g] && f != g;
    FoldIsInjective(layout, capacity, a, f, g);
  }

  lemma MoveStaysDistinct(layout: seq<Placed>, capacity: nat, a: seq<int>, g: nat, target: int)
    requires IsFold(layout, capacity, a) && DistinctOnGrid(layout, capacity)
    requires g < |layout| && target !in a
    ensures DistinctOnGrid(layout[g := Placed(layout[g].id, target)], capacity)
  {
    var next := layout[g := Placed(layout[g].id, target)];
    KeepsIffOnGrid(layout, capacity);
    forall i, j | 0 <= i < j < |layout| && InGrid(next[i].cell, capacity) ensures next[i].cell != next[j].cell {
      assert a[i] in a && a[j] in a;
    }
  }

  lemma MoveIsFold(layout: seq<Placed>, capacity: nat, a: seq<int>, g: nat, target: int)
    requires IsFold(layout, capacity, a)
    requires g < |layout| && InGrid(target, capacity) && target !in a
    requires !exists i: nat :: FoldedBeyond(layout, capacity, a, g, i)
    requires !exists i: nat :: Inherits(layout, a, g, i)
    ensures IsFold(layout[g := Placed(layout[g].id, target)], capacity, a[g := target])
  {
    var next := layout[g := Placed(layout[g].id, target)];
    var b := a[g := target];
    var seats := seq(|layout|, (k: nat) => k);
    assert forall i: nat :: i < |layout| ==> a[i] in a;
    TargetIsKept(layout, capacity, a, g, target);
    MoveKeeps(layout, capacity, a, g, target);
    KeptWhereSaved(layout, capacity, a);
    SeatsAreApart(layout, capacity, a);
    forall i: nat | i < |layout| && !Keeps(next, capacity, i) ensures a[i] <= a[g] {
      assert !FoldedBeyond(layout, capacity, a, g, i);
    }
    hide IsFold, Keeps, Inherits, InGrid, FoldedBeyond;
    Reseated(layout, capacity, a, next, b, seats);
  }

  // ---- adding an icon --------------------------------------------------------------------------

  /** The cell met after `step` steps from the wanted one, going round the grid. */
  function Around(wanted: nat, step: nat, capacity: nat): nat
    requires capacity > 0
  {
    (wanted + step) % capacity
  }

  /** Around starts at the wanted cell and goes on to the next, from the last to the first. */
  lemma AroundGoesOn(wanted: nat, step: nat, capacity: nat)
    requires capacity > 0
    ensures wanted < capacity ==> Around(wanted, 0, capacity) == wanted
    ensures var cell := Around(wanted, step, capacity);
            Around(wanted, step + 1, capacity) == if cell == capacity - 1 then 0 else cell + 1
  {
    var n := wanted + step;
    var laps, cell := n / capacity, n % capacity;
    assert n == laps * capacity + cell;
    if cell == capacity - 1 {
      assert (laps + 1) * capacity == laps * capacity + capacity;
      QuotientIs(n + 1, capacity, laps + 1, 0);
    } else {
      QuotientIs(n + 1, capacity, laps, cell + 1);
    }
    assert wanted + (step + 1) == n + 1;
    if wanted < capacity {
      QuotientIs(wanted, capacity, 0, wanted);
    }
  }

  /**
   `nextFreeCell`: the first free cell going round the grid from the wanted one, and off the grid, as near as
   possible, only when every cell of it is taken. The ghost result counts the steps taken.
   */
  method NextFreeCell(taken: set<int>, wanted: nat, capacity: nat) returns (cell: int, ghost steps: nat)
    requires capacity > 0
    ensures cell !in taken && steps <= capacity
    ensures forall s: nat :: s < steps ==> Around(wanted, s, capacity) in taken
    ensures steps < capacity ==> cell == Around(wanted, steps, capacity) && InGrid(cell, capacity)
    ensures steps == capacity ==>
              && (forall c :: InGrid(c, capacity) ==> c in taken)
              && cell >= capacity && forall c :: capacity <= c < cell ==> c in taken
  {
    for step := 0 to capacity
      invariant forall s: nat :: s < step ==> Around(wanted, s, capacity) in taken
    {
      cell := Around(wanted, step, capacity);
      if cell !in taken {
        return cell, step;
      }
    }
    forall c | InGrid(c, capacity) ensures c in taken {
      var step := RoundTheGrid(wanted, capacity, c);
    }
    cell := FirstFree(taken, capacity);
    steps := capacity;
  }

  /** Going round the grid from any cell meets every cell. */
  lemma RoundTheGrid(wanted: nat, capacity: nat, cell: nat) returns (step: nat)
    requires cell < capacity
    ensures step < capacity && Around(wanted, step, capacity) == cell
  {
    var start, laps := wanted % capacity, wanted / capacity;
    assert wanted == laps * capacity + start;
    if cell >= start {
      step := cell - start;
      QuotientIs(wanted + step, capacity, laps, cell);
    } else {
      step := cell + capacity - start;
      assert (laps + 1) * capacity == laps * capacity + capacity;
      QuotientIs(wanted + step, capacity, laps + 1, cell);
    }
  }

  /** `add`: the new icon is saved on the first free cell of the screen, and is seen there; no other icon moves. */
  method Add(layout: seq<Placed>, shown: map<string, int>, id: string, wanted: nat, cols: nat, rows: nat)
    returns (next: seq<Placed>, ghost steps: nat)
    ensures |next| == |layout| + 1 && next == layout + [Placed(id, next[|layout|].cell)]
    ensures next[|layout|].cell !in shown.Values
    ensures forall s: nat :: s < steps ==> Around(wanted, s, Capacity(cols, rows)) in shown.Values
    ensures (exists c :: InGrid(c, Capacity(cols, rows)) && c !in shown.Values) ==>
              && InGrid(next[|layout|].cell, Capacity(cols, rows))
              && next[|layout|].cell == Around(wanted, steps, Capacity(cols, rows))
              && AddedIsSeen(layout, Capacity(cols, rows), shown, next)
    ensures AddedStaysDistinct(layout, Capacity(cols, rows), shown, next)
    ensures cols > 0 && rows > 0 && (exists c :: OnField(c, cols, rows) && c !in shown.Values) ==>
              OnField(next[|layout|].cell, cols, rows)
  {
    hide AddedIsSeen, AddedStaysDistinct;
    var free;
    free, steps := NextFreeCell(shown.Values, wanted, Capacity(cols, rows));
    next := layout + [Placed(id, free)];
    if InGrid(free, Capacity(cols, rows)) {
      AddedShowsIt(layout, Capacity(cols, rows), shown, Placed(id, free));
    }
    AddedIsDistinct(layout, Capacity(cols, rows), shown, Placed(id, free));
    forall c ensures cols > 0 && rows > 0 ==> (InGrid(c, Capacity(cols, rows)) <==> OnField(c, cols, rows)) {
      GridIsField(c, cols, rows);
    }
  }

  /** A layout with no two saved icons on one cell of this grid stays so. */
  ghost predicate AddedStaysDistinct(layout: seq<Placed>, capacity: nat, shown: map<string, int>, next: seq<Placed>) {
    forall a | IsFold(layout, capacity, a) ::
      Draws(shown, layout, a) && DistinctOnGrid(layout, capacity) ==> DistinctOnGrid(next, capacity)
  }

  lemma AddedIsDistinct(layout: seq<Placed>, capacity: nat, shown: map<string, int>, added: Placed)
    requires added.cell !in shown.Values
    ensures AddedStaysDistinct(layout, capacity, shown, layout + [added])
  {
    var next := layout + [added];
    forall a | IsFold(layout, capacity, a) && Draws(shown, layout, a) && DistinctOnGrid(layout, capacity)
      ensures DistinctOnGrid(next, capacity)
    {
      KeepsIffOnGrid(layout, capacity);
      hide Keeps, TakenFor, Before;
      forall i, j | 0 <= i < j < |next| && InGrid(next[i].cell, capacity) ensures next[i].cell != next[j].cell {
        assert a[i] == layout[i].cell == shown[layout[i].id];
      }
    }
  }

  /** Whatever was seen is seen where it was, and the icon added is seen on the cell it was saved to. */
  ghost predicate AddedIsSeen(layout: seq<Placed>, capacity: nat, shown: map<string, int>, next: seq<Placed>) {
    forall a, b | IsFold(layout, capacity, a) && IsFold(next, capacity, b) ::
      Draws(shown, layout, a) && |next| == |layout| + 1 ==> b == a + [next[|layout|].cell]
  }

  lemma AddedShowsIt(layout: seq<Placed>, capacity: nat, shown: map<string, int>, added: Placed)
    requires InGrid(added.cell, capacity) && added.cell !in shown.Values
    ensures AddedIsSeen(layout, capacity, shown, layout + [added])
  {
    hide Keeps, TakenFor, Before, InGrid;
    forall a, b | IsFold(layout, capacity, a) && IsFold(layout + [added], capacity, b) && Draws(shown, layout, a)
      ensures b == a + [added.cell]
    {
      assert added.cell !in a by {
        assert forall i :: 0 <= i < |a| ==> shown[layout[i].id] == a[i];
      }
      AddingMovesNone(layout, capacity, a, added, b);
    }
  }

  lemma AddingKeeps(layout: seq<Placed>, capacity: nat, a: seq<int>, added: Placed)
    requires IsFold(layout, capacity, a) && InGrid(added.cell, capacity) && added.cell !in a
    ensures forall i: nat :: i < |layout| ==> (Keeps(layout + [added], capacity, i) <==> Keeps(layout, capacity, i))
    ensures Keeps(layout + [added], capacity, |layout|)
  {
    var next := layout + [added];
    forall i: nat | i < |layout| ensures Keeps(next, capacity, i) <==> Keeps(layout, capacity, i) {
      assert next[..i] == layout[..i] && next[i] == layout[i];
      assert forall j :: 0 <= j < i ==> next[j] == next[..i][j] && layout[j] == layout[..i][j];
    }
    forall j: nat | j < |layout| ensures next[j].cell != added.cell {
      if InGrid(layout[j].cell, capacity) {
        var k := FirstClaimant(layout, capacity, j);
        assert a[k] in a;
      }
    }
  }

  lemma AddedIsFold(layout: seq<Placed>, capacity: nat, a: seq<int>, added: Placed)
    requires IsFold(layout, capacity, a) && InGrid(added.cell, capacity) && added.cell !in a
    ensures IsFold(layout + [added], capacity, a + [added.cell])
  {
    var next := layout + [added];
    var drawn := a + [added.cell];
    AddingKeeps(layout, capacity, a, added);
    hide Keeps, InGrid;
    forall i: nat | i < |layout| ensures next[i] == layout[i] && drawn[i] == a[i] && a[i] in a {
    }
    forall i: nat, j: nat | i < |layout| && j < |layout| ensures Before(next, i, j) <==> Before(layout, i, j) {
    }
    hide Before;
    forall i: nat, c | i < |next| && 0 <= c < drawn[i] && !Keeps(next, capacity, i) ensures TakenFor(next, capacity, drawn, c, i) {
      assert TakenFor(layout, capacity, a, c, i);
      var k: nat :| k < |a| && a[k] == c && (Keeps(layout, capacity, k) || Before(layout, k, i));
      assert drawn[k] == c && (Keeps(next, capacity, k) || Before(next, k, i));
    }
    hide TakenFor;
    assert drawn[|layout|] == added.cell == next[|layout|].cell >= 0 by {
      GridStartsAtZero(added.cell, capacity);
    }
  }

  lemma GridStartsAtZero(cell: int, capacity: nat)
    requires InGrid(cell, capacity)
    ensures cell >= 0
  {
  }

  /** An icon added on a free cell of the grid is seen exactly there, and no other icon moves, folded ones included. */
  lemma AddingMovesNone(layout: seq<Placed>, capacity: nat, a: seq<int>, added: Placed, b: seq<int>)
    requires IsFold(layout, capacity, a) && InGrid(added.cell, capacity) && added.cell !in a
    requires IsFold(layout + [added], capacity, b)
    ensures b == a + [added.cell]
  {
    hide Keeps, TakenFor, Before;
    AddedIsFold(layout, capacity, a, added);
    FoldIsUnique(layout + [added], capacity, b, a + [added.cell]);
  }

  /** Saving what is seen would change nothing that is seen: a folded layout folds to itself. */
  lemma FoldAgainIsSame(layout: seq<Placed>, capacity: nat, a: seq<int>, seen: seq<Placed>, b: seq<int>)
    requires IsFold(layout, capacity, a) && |layout| <= capacity
    requires |seen| == |layout| && forall i: nat :: i < |seen| ==> seen[i].cell == a[i]
    requires IsFold(seen, capacity, b)
    ensures b == a
  {
    forall i: nat | i < |seen| ensures Keeps(seen, capacity, i) {
      FoldStaysOnGrid(layout, capacity, a, i);
      forall j: nat | j < i ensures seen[j].cell != seen[i].cell {
        FoldIsInjective(layout, capacity, a, i, j);
      }
    }
  }
}
