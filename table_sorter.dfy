// TableSorter: an index array over a table model, sorted by the model's
// columns with the stable shuttle merge sort, shuttling row indexes between
// two arrays. Every method is proved against TableSortSpec.
module TableSort {
  import opened TableSortSpec

  class TableSorter {
    var model: TableModel
    var sortingColumns: seq<nat>
    var ascending: bool
    var compares: nat
    var reallocateIndexesOnUpdate: bool
    var indexes: array<int>

    /** What compare reads: the model, the sorting columns and the direction. */
    function Spec(): Sorting
      reads this`model, this`sortingColumns, this`ascending
    {
      Sorting(model, sortingColumns, ascending)
    }

    predicate Valid()
      reads this`model, this`sortingColumns, this`ascending
    {
      ValidSorting(Spec())
    }

    /** The sorter without a model: no rows, no sorting columns, ascending. */
    constructor()
      ensures model == TableModel([], []) && sortingColumns == [] && ascending
      ensures compares == 0 && reallocateIndexesOnUpdate && indexes.Length == 0
      ensures Valid()
    {
      model := TableModel([], []);
      sortingColumns := [];
      ascending := true;
      compares := 0;
      reallocateIndexesOnUpdate := true;
      indexes := new int[0];
    }

    /** The sorter over a model starts from the identity mapping. */
    constructor WithModel(m: TableModel)
      ensures model == m && sortingColumns == [] && ascending
      ensures compares == 0 && reallocateIndexesOnUpdate
      ensures fresh(indexes) && indexes[..] == Identity(|m.rows|)
    {
      model := m;
      sortingColumns := [];
      ascending := true;
      compares := 0;
      reallocateIndexesOnUpdate := true;
      indexes := new int[0];
      new;
      ReallocateIndexes();
    }

    method SetModel(m: TableModel)
      modifies this`model, this`indexes
      ensures model == m && fresh(indexes) && indexes[..] == Identity(|m.rows|)
    {
      model := m;
      ReallocateIndexes();
    }

    /** A fresh index array holding the identity mapping over the model's rows. */
    method ReallocateIndexes()
      modifies this`indexes
      ensures fresh(indexes) && indexes[..] == Identity(|model.rows|)
      ensures AllRows(Spec(), indexes[..])
    {
      var rowCount := |model.rows|;
      var a := new int[rowCount];
      for row := 0 to rowCount
        invariant forall i | 0 <= i < row :: a[i] == i
      {
        a[row] := row;
      }
      indexes := a;
    }

    /** compare: counts the call and answers the first non-zero column result, negated when descending. */
    method Compare(row1: int, row2: int) returns (r: int)
      requires Valid()
      modifies this`compares
      ensures r == TableSortSpec.Compare(Spec(), row1, row2)
      ensures compares == old(compares) + 1
    {
      compares := compares + 1;
      var level := 0;
      while level < |sortingColumns|
        invariant 0 <= level <= |sortingColumns|
        invariant CompareFrom(Spec(), row1, row2, 0) == CompareFrom(Spec(), row1, row2, level)
      {
        var result := CompareCells(model.classes[sortingColumns[level]], CellAt(Spec(), row1, level), CellAt(Spec(), row2, level));
        if result != 0 {
          return if ascending then result else -result;
        }
        level := level + 1;
      }
      return 0;
    }

    /** The shortcut of shuttlesort: copy a run unchanged. */
    method CopyRun(from: array<int>, to: array<int>, low: int, high: int)
      requires from != to && from.Length == to.Length && 0 <= low <= high <= from.Length
      modifies to
      ensures to[low..high] == old(from[low..high])
      ensures forall k | 0 <= k < to.Length && !(low <= k < high) :: to[k] == old(to[k])
    {
      for i := low to high
        invariant to[low..i] == from[low..i]
        invariant forall k | 0 <= k < to.Length && !(low <= k < i) :: to[k] == old(to[k])
      {
        to[i] := from[i];
        assert to[low..i + 1] == to[low..i] + [to[i]];
      }
    }

    /**
     * One pass of the merge loop: with p rows of the left run and q rows of
     * the right run already out, the next row goes to to[low + p + q].
     */
    method MergeStep(from: array<int>, to: array<int>, low: int, middle: int, high: int,
                     ghost st: Sorting, ghost a: seq<int>, ghost b: seq<int>, ghost whole: seq<int>, p: nat, q: nat)
        returns (p': nat, q': nat)
      requires Valid() && st == Spec() && from != to && from.Length == to.Length
      requires 0 <= low <= middle <= high <= from.Length
      requires |a| == middle - low && |b| == high - middle && p <= |a| && q <= |b| && p + q < high - low
      requires forall k | 0 <= k < |a| :: from[low + k] == a[k]
      requires forall k | 0 <= k < |b| :: from[middle + k] == b[k]
      requires to[low..low + p + q] + MergeFrom(st, a, b, p, q) == whole
      modifies to, this`compares
      ensures p' <= |a| && q' <= |b| && p' + q' == p + q + 1
      ensures to[low..low + p' + q'] + MergeFrom(st, a, b, p', q') == whole
      ensures forall k | 0 <= k < to.Length && k != low + p + q :: to[k] == old(to[k])
    {
      ghost var done := to[low..low + p + q];
      var i := low + p + q;
      var takeLeft := q == high - middle;
      if !takeLeft && p < middle - low {
        var c := Compare(from[low + p], from[middle + q]);
        takeLeft := c <= 0;
      }
      if takeLeft {
        to[i] := from[low + p];
        p', q' := p + 1, q;
      } else {
        to[i] := from[middle + q];
        p', q' := p, q + 1;
      }
      assert to[low..low + p' + q'] == done + [to[i]];
      AppendAssociative(done, [to[i]], MergeFrom(st, a, b, p', q'));
    }

    /** The normal merge of shuttlesort: the runs [low, middle) and [middle, high) of from into to. */
    method MergeRuns(from: array<int>, to: array<int>, low: int, middle: int, high: int,
                     ghost a: seq<int>, ghost b: seq<int>)
      requires Valid() && from != to && from.Length == to.Length
      requires 0 <= low <= middle <= high <= from.Length
      requires from[low..middle] == a && from[middle..high] == b
      modifies to, this`compares
      ensures to[low..high] == Merge(Spec(), a, b)
      ensures forall k | 0 <= k < to.Length && !(low <= k < high) :: to[k] == old(to[k])
    {
      ghost var st := Spec();
      ghost var whole := MergeFrom(st, a, b, 0, 0);
      var p: nat, q: nat := 0, 0;
      while p + q < high - low
        invariant |a| == middle - low && |b| == high - middle && p <= |a| && q <= |b|
        invariant forall k | 0 <= k < |a| :: from[low + k] == a[k]
        invariant forall k | 0 <= k < |b| :: from[middle + k] == b[k]
        invariant to[low..low + p + q] + MergeFrom(st, a, b, p, q) == whole
        invariant forall k | 0 <= k < to.Length && !(low <= k < low + p + q) :: to[k] == old(to[k])
        decreases high - low - p - q
      {
        p, q := MergeStep(from, to, low, middle, high, st, a, b, whole, p, q);
      }
      assert to[low..high] + [] == to[low..high];
      MergeFromIsMerge(st, a, b, 0, 0);
      assert a[0..] == a && b[0..] == b;
    }

    /**
     * The end of shuttlesort once both halves of from are sorted: the
     * shortcut copy when there are at least four rows and the halves are
     * already in order, the normal merge otherwise.
     */
    method MergeOrCopy(from: array<int>, to: array<int>, low: int, middle: int, high: int)
      requires Valid() && from != to && from.Length == to.Length
      requires 0 <= low < middle < high <= from.Length
      modifies to, this`compares
      ensures to[low..high] == ShuttleStep(Spec(), old(from[low..middle]), old(from[middle..high]))
      ensures forall k | 0 <= k < to.Length && !(low <= k < high) :: to[k] == old(to[k])
    {
      ghost var st := Spec();
      ghost var a, b := from[low..middle], from[middle..high];
      assert from[low..high] == a + b;
      ShuttleStepCases(st, a, b);
      var shortcut := false;
      if high - low >= 4 {
        assert from[middle - 1] == a[|a| - 1] && from[middle] == b[0];
        var c := Compare(from[middle - 1], from[middle]);
        shortcut := c <= 0;
      }
      if shortcut {
        CopyRun(from, to, low, high);
      } else {
        assert from[low..middle] == a && from[middle..high] == b;
        MergeRuns(from, to, low, middle, high, a, b);
      }
    }

    /**
     * shuttlesort: from and to hold the same run [low, high); afterwards to
     * holds ShuttleSorted of it, and neither array changes outside the run.
     */
    method Shuttlesort(from: array<int>, to: array<int>, low: int, high: int)
      requires Valid() && from != to && from.Length == to.Length && 0 <= low <= high <= from.Length
      requires from[low..high] == to[low..high]
      modifies from, to, this`compares
      ensures to[low..high] == ShuttleSorted(Spec(), old(from[low..high]))
      ensures forall k | 0 <= k < from.Length && !(low <= k < high) :: from[k] == old(from[k])
      ensures forall k | 0 <= k < to.Length && !(low <= k < high) :: to[k] == old(to[k])
      decreases high - low
    {
      if high - low < 2 {
        return;
      }
      var middle := (low + high) / 2;
      ghost var run := from[low..high];
      ghost var m := middle - low;
      assert m == (high - low) / 2;
      assert run[..m] == from[low..middle] == to[low..middle];
      assert run[m..] == from[middle..high] == to[middle..high];
      ghost var from0, to0 := from[..], to[..];
      Shuttlesort(to, from, low, middle);
      SliceKept(to0, to[..], low, middle, middle, high);
      SliceKept(from0, from[..], low, middle, middle, high);
      ghost var from1 := from[..];
      Shuttlesort(to, from, middle, high);
      SliceKept(from1, from[..], middle, high, low, middle);
      MergeOrCopy(from, to, low, middle, high);
    }

    /** sort: resets the compare count and sorts the index mapping stably. */
    method Sort()
      requires Valid() && AllRows(Spec(), indexes[..])
      modifies indexes, this`compares
      ensures indexes[..] == ShuttleSorted(Spec(), old(indexes[..]))
      ensures SortsStably(Spec(), indexes[..], old(indexes[..]))
    {
      compares := 0;
      var n := indexes.Length;
      var copy := new int[n];
      for i := 0 to n
        invariant copy[..i] == indexes[..i]
        invariant indexes[..] == old(indexes[..])
      {
        copy[i] := indexes[i];
      }
      assert copy[0..n] == indexes[0..n] == indexes[..];
      Shuttlesort(copy, indexes, 0, n);
      assert indexes[0..n] == indexes[..];
      ShuttleSortedSortsStably(Spec(), old(indexes[..]));
    }

    /** swap: exchanges two entries of the mapping. */
    method Swap(i: int, j: int)
      requires 0 <= i < indexes.Length && 0 <= j < indexes.Length
      modifies indexes
      ensures indexes[..] == Swapped(old(indexes[..]), i, j)
    {
      var tmp := indexes[i];
      indexes[i] := indexes[j];
      indexes[j] := tmp;
    }
  }
}
