/**
 Lists as the program uses them: `filter`, and `sort` with a comparator. Since ECMAScript 2019 the built-in
 sort is stable, and a stable sort is pinned down by two facts alone: the result is ordered, and rows the
 comparator calls equal stand as they stood before.
 */
module Sequences {

  function Filter<T(!new)>(xs: seq<T>, keep: T -> bool): (r: seq<T>)
    ensures forall x :: x in r <==> x in xs && keep(x)
    ensures |r| <= |xs|
  {
    if xs == [] then []
    else (if keep(xs[0]) then [xs[0]] else []) + Filter(xs[1..], keep)
  }

  lemma {:induction false} FilterConcat<T(!new)>(xs: seq<T>, ys: seq<T>, keep: T -> bool)
    ensures Filter(xs + ys, keep) == Filter(xs, keep) + Filter(ys, keep)
  {
    if xs == [] {
      assert xs + ys == ys;
    } else {
      assert (xs + ys)[1..] == xs[1..] + ys;
      FilterConcat(xs[1..], ys, keep);
    }
  }

  function Concat<T>(xss: seq<seq<T>>): seq<T> {
    if xss == [] then [] else xss[0] + Concat(xss[1..])
  }

  lemma {:induction false} ConcatSnoc<T>(xss: seq<seq<T>>, xs: seq<T>)
    ensures Concat(xss + [xs]) == Concat(xss) + xs
  {
    if xss == [] {
      assert [xs][1..] == [];
    } else {
      assert (xss + [xs])[1..] == xss[1..] + [xs];
      ConcatSnoc(xss[1..], xs);
    }
  }

  lemma SubsetSize<T>(small: set<T>, large: set<T>)
    requires small <= large
    ensures |small| <= |large|
  {
    assert large == small + (large - small);
  }

  // ---- sorting ---------------------------------------------------------------------------------

  /** What a comparator must be for a sort to mean anything: any two rows compare, and consistently. */
  ghost predicate TotalPreorder<T(!new)>(le: (T, T) -> bool) {
    && (forall a, b :: le(a, b) || le(b, a))
    && (forall a, b, c :: le(a, b) && le(b, c) ==> le(a, c))
  }

  predicate Alike<T>(a: T, b: T, le: (T, T) -> bool) {
    le(a, b) && le(b, a)
  }

  ghost predicate Ordered<T>(xs: seq<T>, le: (T, T) -> bool) {
    forall i, j :: 0 <= i < j < |xs| ==> le(xs[i], xs[j])
  }

  /** The rows the comparator cannot tell from `e`, in the order they stand. */
  function Class<T>(xs: seq<T>, e: T, le: (T, T) -> bool): seq<T> {
    if xs == [] then []
    else (if Alike(xs[0], e, le) then [xs[0]] else []) + Class(xs[1..], e, le)
  }

  ghost predicate IsStableSort<T(!new)>(sorted: seq<T>, xs: seq<T>, le: (T, T) -> bool) {
    Ordered(sorted, le) && forall e :: Class(sorted, e, le) == Class(xs, e, le)
  }

  function Insert<T>(x: T, xs: seq<T>, le: (T, T) -> bool): (r: seq<T>)
    ensures multiset(r) == multiset{x} + multiset(xs)
  {
    if xs == [] || le(x, xs[0]) then [x] + xs
    else
      assert xs == [xs[0]] + xs[1..];
      [xs[0]] + Insert(x, xs[1..], le)
  }

  function Sort<T>(xs: seq<T>, le: (T, T) -> bool): (r: seq<T>)
    ensures multiset(r) == multiset(xs)
    ensures |r| == |xs|
  {
    if xs == [] then []
    else
      assert xs == [xs[0]] + xs[1..];
      var r := Insert(xs[0], Sort(xs[1..], le), le);
      assert |r| == |multiset(r)|;
      r
  }

  lemma {:induction false} ClassConcat<T>(xs: seq<T>, ys: seq<T>, e: T, le: (T, T) -> bool)
    ensures Class(xs + ys, e, le) == Class(xs, e, le) + Class(ys, e, le)
  {
    if xs == [] {
      assert xs + ys == ys;
    } else {
      var head := if Alike(xs[0], e, le) then [xs[0]] else [];
      var rest, tail := Class(xs[1..], e, le), Class(ys, e, le);
      ClassConcat(xs[1..], ys, e, le);
      assert (xs + ys)[0] == xs[0] && (xs + ys)[1..] == xs[1..] + ys;
      assert Class(xs + ys, e, le) == head + Class((xs + ys)[1..], e, le);
      assert head + (rest + tail) == (head + rest) + tail;
    }
  }

  lemma {:induction false} InsertIsOrdered<T(!new)>(x: T, xs: seq<T>, le: (T, T) -> bool)
    requires TotalPreorder(le) && Ordered(xs, le)
    ensures Ordered(Insert(x, xs, le), le)
  {
    if xs != [] && !le(x, xs[0]) {
      var rest := Insert(x, xs[1..], le);
      InsertIsOrdered(x, xs[1..], le);
      forall j | 0 <= j < |rest| ensures le(xs[0], rest[j]) {
        assert rest[j] in multiset(rest);
        assert rest[j] == x || rest[j] in xs[1..];
      }
    }
  }

  /** A row is put before the rows it ties with, so inserting from the back keeps ties in order. */
  lemma {:induction false} InsertKeepsClass<T(!new)>(x: T, xs: seq<T>, e: T, le: (T, T) -> bool)
    requires TotalPreorder(le)
    ensures Class(Insert(x, xs, le), e, le) == Class([x] + xs, e, le)
  {
    if xs != [] && !le(x, xs[0]) {
      var rest := Insert(x, xs[1..], le);
      InsertKeepsClass(x, xs[1..], e, le);
      assert ([x] + xs[1..])[1..] == xs[1..] && ([x] + xs)[1..] == xs && ([xs[0]] + rest)[1..] == rest;
      assert !(Alike(x, e, le) && Alike(xs[0], e, le));
    }
  }

  lemma {:induction false} SortIsStable<T(!new)>(xs: seq<T>, le: (T, T) -> bool)
    requires TotalPreorder(le)
    ensures IsStableSort(Sort(xs, le), xs, le)
  {
    if xs != [] {
      SortIsStable(xs[1..], le);
      InsertIsOrdered(xs[0], Sort(xs[1..], le), le);
      forall e ensures Class(Sort(xs, le), e, le) == Class(xs, e, le) {
        InsertKeepsClass(xs[0], Sort(xs[1..], le), e, le);
        assert ([xs[0]] + Sort(xs[1..], le))[1..] == Sort(xs[1..], le);
      }
    }
  }

  lemma {:induction false} ClassHolds<T(!new)>(xs: seq<T>, e: T, le: (T, T) -> bool)
    ensures forall x :: x in Class(xs, e, le) <==> x in xs && Alike(x, e, le)
  {
    if xs != [] {
      ClassHolds(xs[1..], e, le);
    }
  }

  lemma FirstIsInItsClass<T(!new)>(xs: seq<T>, le: (T, T) -> bool)
    requires TotalPreorder(le)
    ensures xs != [] ==> Class(xs, xs[0], le) != []
  {
  }

  /** There is only one stable sort of a list. */
  lemma {:induction false} StableSortIsUnique<T(!new)>(a: seq<T>, b: seq<T>, le: (T, T) -> bool)
    requires TotalPreorder(le) && Ordered(a, le) && IsStableSort(b, a, le)
    ensures a == b
  {
    if a == [] {
      FirstIsInItsClass(b, le);
    } else {
      HeadsAgree(a, b, le);
      forall e ensures Class(b[1..], e, le) == Class(a[1..], e, le) {
        assert Class(b, e, le) == Class(a, e, le);
        var head := if Alike(a[0], e, le) then [a[0]] else [];
        assert Class(a, e, le)[|head|..] == Class(a[1..], e, le);
        assert Class(b, e, le)[|head|..] == Class(b[1..], e, le);
      }
      StableSortIsUnique(a[1..], b[1..], le);
    }
  }

  lemma HeadsAgree<T(!new)>(a: seq<T>, b: seq<T>, le: (T, T) -> bool)
    requires TotalPreorder(le) && Ordered(a, le) && IsStableSort(b, a, le) && a != []
    ensures b != [] && a[0] == b[0]
  {
    assert Class(b, a[0], le) == Class(a, a[0], le);
    ClassHolds(b, a[0], le);
    assert a[0] in Class(a, a[0], le);
    assert Class(b, b[0], le) == Class(a, b[0], le);
    ClassHolds(a, b[0], le);
    assert b[0] in Class(b, b[0], le);
    assert le(b[0], a[0]) by {
      var i :| 0 <= i < |b| && b[i] == a[0];
    }
    assert le(a[0], b[0]) by {
      var i :| 0 <= i < |a| && a[i] == b[0];
    }
    assert Class(a, a[0], le)[0] == a[0] && Class(b, a[0], le)[0] == b[0];
  }

  /** Rows that a finer comparator calls equal keep their order under a coarser sort. */
  lemma {:induction false} FinerClass<T(!new)>(xs: seq<T>, e: T, coarse: (T, T) -> bool, fine: (T, T) -> bool)
    requires forall a, b :: Alike(a, b, fine) ==> Alike(a, b, coarse)
    ensures Class(Class(xs, e, coarse), e, fine) == Class(xs, e, fine)
  {
    if xs != [] {
      FinerClass(xs[1..], e, coarse, fine);
      var head := if Alike(xs[0], e, coarse) then [xs[0]] else [];
      ClassConcat(head, Class(xs[1..], e, coarse), e, fine);
    }
  }

  /**
   Sorting a list that was already sorted, by this order or by any that ties the same rows, and then grown, is the
   same as sorting everything once.
   */
  lemma SortAgain<T(!new)>(xs: seq<T>, ys: seq<T>, first: (T, T) -> bool, le: (T, T) -> bool)
    requires TotalPreorder(first) && TotalPreorder(le)
    requires forall a, b :: Alike(a, b, le) ==> Alike(a, b, first)
    ensures Sort(Sort(xs, first) + ys, le) == Sort(xs + ys, le)
  {
    var once := Sort(xs + ys, le);
    var again := Sort(Sort(xs, first) + ys, le);
    SortIsStable(xs, first);
    SortIsStable(xs + ys, le);
    SortIsStable(Sort(xs, first) + ys, le);
    forall e ensures Class(again, e, le) == Class(once, e, le) {
      ClassConcat(xs, ys, e, le);
      ClassConcat(Sort(xs, first), ys, e, le);
      FinerClass(xs, e, first, le);
      FinerClass(Sort(xs, first), e, first, le);
      assert Class(Sort(xs, first), e, first) == Class(xs, e, first);
    }
    StableSortIsUnique(once, again, le);
  }

  lemma OrderedParts<T(!new)>(xs: seq<T>, ys: seq<T>, le: (T, T) -> bool)
    requires Ordered(xs + ys, le)
    ensures Ordered(xs, le)
    ensures forall x, y :: x in xs && y in ys ==> le(x, y)
  {
    var all := xs + ys;
    assert forall i :: 0 <= i < |xs| ==> all[i] == xs[i];
    forall x, y | x in xs && y in ys ensures le(x, y) {
      var i :| 0 <= i < |xs| && xs[i] == x;
      var j :| 0 <= j < |ys| && ys[j] == y;
      assert le(all[i], all[|xs| + j]);
    }
  }

  // ---- ties ------------------------------------------------------------------------------------

  ghost predicate Ascends<T(!new)>(xs: seq<T>, rank: T -> int) {
    forall i, j :: 0 <= i < j < |xs| ==> rank(xs[i]) < rank(xs[j])
  }

  lemma {:induction false} ClassAscends<T(!new)>(xs: seq<T>, e: T, le: (T, T) -> bool, rank: T -> int)
    requires Ascends(xs, rank)
    ensures Ascends(Class(xs, e, le), rank)
  {
    if xs != [] {
      var tail := Class(xs[1..], e, le);
      ClassAscends(xs[1..], e, le, rank);
      ClassHolds(xs[1..], e, le);
      forall j | 0 <= j < |tail| ensures rank(xs[0]) < rank(tail[j]) {
        assert tail[j] in xs[1..];
      }
    }
  }

  lemma {:induction false} TiesAscend<T(!new)>(xs: seq<T>, i: nat, j: nat, e: T, le: (T, T) -> bool, rank: T -> int)
    requires i < j < |xs| && Alike(xs[i], e, le) && Alike(xs[j], e, le)
    requires Ascends(Class(xs, e, le), rank)
    ensures rank(xs[i]) < rank(xs[j])
  {
    var all, tail := Class(xs, e, le), Class(xs[1..], e, le);
    if i > 0 {
      assert forall k :: 0 <= k < |tail| ==> tail[k] == all[|all| - |tail| + k];
      TiesAscend(xs[1..], i - 1, j - 1, e, le, rank);
    } else {
      ClassHolds(xs[1..], e, le);
      assert xs[1..][j - 1] in tail;
      var k :| 0 <= k < |tail| && tail[k] == xs[j];
      assert all[0] == xs[0] && all[k + 1] == xs[j];
    }
  }

  /** After a stable sort, rows the comparator ties still stand in the order they came in. */
  lemma SortKeepsTies<T(!new)>(xs: seq<T>, le: (T, T) -> bool, rank: T -> int, i: nat, j: nat)
    requires TotalPreorder(le) && Ascends(xs, rank)
    requires i < j < |xs| && Alike(Sort(xs, le)[i], Sort(xs, le)[j], le)
    ensures rank(Sort(xs, le)[i]) < rank(Sort(xs, le)[j])
  {
    var e := Sort(xs, le)[i];
    SortIsStable(xs, le);
    assert Class(Sort(xs, le), e, le) == Class(xs, e, le);
    ClassAscends(xs, e, le, rank);
    TiesAscend(Sort(xs, le), i, j, e, le, rank);
  }
}
