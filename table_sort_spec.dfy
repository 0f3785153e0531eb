// What TableSorter sorts by: the cells of a table model, compared column
// by column (compareRowsByColumn, compare), and the stable merge its
// shuttlesort performs. The sorter class in TableSort is proved against
// the functions here.
module TableSortSpec {
  import opened JavaLang

  /**
   * A cell value of a table model. Numbers are their exact integer values
   * (compared through DoubleValue), dates their milliseconds, and any
   * other object its toString text. Texts are Java strings, sequences of
   * UTF-16 code units, as String.compareTo compares them.
   */
  datatype Cell = Null | Num(n: int) | Date(millis: int) | Str(s: JavaString) | Bool(b: bool) | Obj(text: JavaString)

  /** What getColumnClass reports for a column. */
  datatype ColumnClass = NumberClass | DateClass | StringClass | BooleanClass | OtherClass

  /** A cell the casts in compareRowsByColumn accept for a column of class t. */
  predicate Fits(t: ColumnClass, c: Cell)
  {
    c.Null? ||
    match t
    case NumberClass => c.Num?
    case DateClass => c.Date?
    case StringClass => c.Str?
    case BooleanClass => c.Bool?
    case OtherClass => c.Obj?
  }

  datatype TableModel = TableModel(rows: seq<seq<Cell>>, classes: seq<ColumnClass>)

  predicate WellFormed(m: TableModel)
  {
    forall r | 0 <= r < |m.rows| ::
      |m.rows[r]| == |m.classes| && forall c | 0 <= c < |m.classes| :: Fits(m.classes[c], m.rows[r][c])
  }

  function Sign(x: int): (r: int)
    ensures -1 <= r <= 1 && (r == 0 <==> x == 0) && (r < 0 <==> x < 0)
  {
    if x < 0 then -1 else if x > 0 then 1 else 0
  }

  /** The sign of String.compareTo: the first differing code unit decides, else the length. */
  function StringCompare(a: JavaString, b: JavaString): (r: int)
    ensures -1 <= r <= 1
    decreases |a|
  {
    if |a| == 0 || |b| == 0 then Sign(|a| - |b|)
    else if a[0] != b[0] then Sign(a[0] as int - b[0] as int)
    else StringCompare(a[1..], b[1..])
  }

  lemma {:induction false} StringCompareZero(a: JavaString, b: JavaString)
    ensures StringCompare(a, b) == 0 <==> a == b
    decreases |a|
  {
    if |a| > 0 && |b| > 0 && a[0] == b[0] {
      StringCompareZero(a[1..], b[1..]);
      assert a == [a[0]] + a[1..] && b == [b[0]] + b[1..];
    }
  }

  lemma {:induction false} StringCompareAntisymmetric(a: JavaString, b: JavaString)
    ensures StringCompare(a, b) == -StringCompare(b, a)
    decreases |a|
  {
    if |a| > 0 && |b| > 0 && a[0] == b[0] {
      StringCompareAntisymmetric(a[1..], b[1..]);
    }
  }

  lemma {:induction false} StringCompareTransitive(a: JavaString, b: JavaString, c: JavaString)
    requires StringCompare(a, b) <= 0 && StringCompare(b, c) <= 0
    ensures StringCompare(a, c) <= 0
    decreases |a|
  {
    if |a| > 0 && |b| > 0 && |c| > 0 && a[0] == b[0] && b[0] == c[0] {
      StringCompareTransitive(a[1..], b[1..], c[1..]);
    }
  }

  /**
   * The order is by code unit, not by code point: U+FF61 is one unit
   * above the high surrogate D83D that starts U+1F600, so it sorts after
   * that character although its code point is lower.
   */
  lemma StringCompareByCodeUnit()
    ensures StringCompare([0xFF61], [0xD83D, 0xDE00]) == 1
    ensures StringCompare([0xD83D, 0xDE00], [0xFF61]) == -1
  {
    StringCompareAntisymmetric([0xFF61], [0xD83D, 0xDE00]);
  }

  /** The binary exponent that brings a magnitude below 2^53: 0 for magnitudes a double holds exactly. */
  function DoubleScale(m: nat): nat
    decreases m
  {
    if m < 0x20_0000_0000_0000 then 0 else 1 + DoubleScale(m / 2)
  }

  function Pow2(k: nat): (r: nat)
    ensures r > 0
  {
    if k == 0 then 1 else 2 * Pow2(k - 1)
  }

  /**
   * Number.doubleValue of an integer, as the integer the double denotes:
   * the magnitude rounded to 53 significant bits, half to even, the sign kept.
   */
  function DoubleValue(n: int): int
  {
    var m := Abs(n);
    var u := Pow2(DoubleScale(m));
    var q, r := m / u, m % u;
    var rounded := if 2 * r > u || (2 * r == u && q % 2 == 1) then (q + 1) * u else q * u;
    if n < 0 then -rounded else rounded
  }

  /** Integers up to 2^53 in magnitude are doubles already. */
  lemma DoubleValueExact(n: int)
    requires -0x20_0000_0000_0000 < n < 0x20_0000_0000_0000
    ensures DoubleValue(n) == n
  {
  }

  /** 2^53 + 1 is no double: it rounds to the even neighbour 2^53. */
  lemma DoubleValueRounds()
    ensures DoubleValue(0x20_0000_0000_0001) == 0x20_0000_0000_0000
  {
    assert DoubleScale(0x10_0000_0000_0000) == 0;
    assert DoubleScale(0x20_0000_0000_0001) == 1;
  }

  /** compareRowsByColumn on two cells of a column of class t: -1, 0 or 1. */
  function CompareCells(t: ColumnClass, a: Cell, b: Cell): (r: int)
    requires Fits(t, a) && Fits(t, b)
    ensures -1 <= r <= 1
  {
    if a.Null? && b.Null? then 0
    else if a.Null? then -1
    else if b.Null? then 1
    else
      match t
      case NumberClass => Sign(DoubleValue(a.n) - DoubleValue(b.n))
      case DateClass => Sign(a.millis - b.millis)
      case StringClass => StringCompare(a.s, b.s)
      case BooleanClass => if a.b == b.b then 0 else if a.b then 1 else -1
      case OtherClass => StringCompare(a.text, b.text)
  }

  /** Two nulls are equal, null is below any value, and false is below true. */
  lemma NullsAndBooleans(t: ColumnClass, v: Cell)
    requires Fits(t, v) && !v.Null?
    ensures CompareCells(t, Null, Null) == 0
    ensures CompareCells(t, Null, v) == -1 && CompareCells(t, v, Null) == 1
    ensures CompareCells(BooleanClass, Bool(false), Bool(true)) == -1
    ensures CompareCells(BooleanClass, Bool(true), Bool(false)) == 1
  {
  }

  /** Cells compareRowsByColumn cannot tell apart: the same value, or two numbers with the same double. */
  predicate SameCell(a: Cell, b: Cell)
  {
    a == b || (a.Num? && b.Num? && DoubleValue(a.n) == DoubleValue(b.n))
  }

  /** Numbers below 2^53 in magnitude are the same cell only when they are the same number. */
  lemma SameCellExact(a: Cell, b: Cell)
    requires a.Num? && -0x20_0000_0000_0000 < a.n < 0x20_0000_0000_0000
    requires b.Num? && -0x20_0000_0000_0000 < b.n < 0x20_0000_0000_0000
    ensures SameCell(a, b) <==> a == b
  {
    DoubleValueExact(a.n);
    DoubleValueExact(b.n);
  }

  /** The longs 2^53 and 2^53 + 1 are distinct but compare equal, as their doubles do. */
  lemma CompareCellsRoundsLongs()
    ensures CompareCells(NumberClass, Num(0x20_0000_0000_0000), Num(0x20_0000_0000_0001)) == 0
  {
    DoubleValueExact(0x1F_FFFF_FFFF_FFFF);
    assert DoubleScale(0x20_0000_0000_0000) == 1;
    DoubleValueRounds();
  }

  /** Cells compare equal exactly when they are the same cell: equal, or numbers with equal doubles. */
  lemma CompareCellsZero(t: ColumnClass, a: Cell, b: Cell)
    requires Fits(t, a) && Fits(t, b)
    ensures CompareCells(t, a, b) == 0 <==> SameCell(a, b)
  {
    if !a.Null? && !b.Null? {
      match t
      case StringClass => StringCompareZero(a.s, b.s);
      case OtherClass => StringCompareZero(a.text, b.text);
      case _ =>
    }
  }

  lemma CompareCellsAntisymmetric(t: ColumnClass, a: Cell, b: Cell)
    requires Fits(t, a) && Fits(t, b)
    ensures CompareCells(t, a, b) == -CompareCells(t, b, a)
  {
    if !a.Null? && !b.Null? {
      match t
      case StringClass => StringCompareAntisymmetric(a.s, b.s);
      case OtherClass => StringCompareAntisymmetric(a.text, b.text);
      case _ =>
    }
  }

  lemma CompareCellsTransitive(t: ColumnClass, a: Cell, b: Cell, c: Cell)
    requires Fits(t, a) && Fits(t, b) && Fits(t, c)
    requires CompareCells(t, a, b) <= 0 && CompareCells(t, b, c) <= 0
    ensures CompareCells(t, a, c) <= 0
  {
    if !a.Null? && !b.Null? && !c.Null? {
      match t
      case StringClass => StringCompareTransitive(a.s, b.s, c.s);
      case OtherClass => StringCompareTransitive(a.text, b.text, c.text);
      case _ =>
    }
  }

  // ---------------------------------------------------------------------
  // Comparing rows

  /** The model, the sorting columns in priority order, and the direction. */
  datatype Sorting = Sorting(model: TableModel, columns: seq<nat>, ascending: bool)

  predicate ValidSorting(st: Sorting)
  {
    WellFormed(st.model) && forall l | 0 <= l < |st.columns| :: st.columns[l] < |st.model.classes|
  }

  predicate IsRow(st: Sorting, r: int) { 0 <= r < |st.model.rows| }

  /** The cell of a row in the column of a sorting level; an index that is not a row reads as null. */
  function CellAt(st: Sorting, row: int, level: nat): (c: Cell)
    requires ValidSorting(st) && level < |st.columns|
    ensures Fits(ColumnAt(st, level), c)
  {
    if IsRow(st, row) then st.model.rows[row][st.columns[level]] else Null
  }

  function ColumnAt(st: Sorting, level: nat): ColumnClass
    requires ValidSorting(st) && level < |st.columns|
  {
    st.model.classes[st.columns[level]]
  }

  /** compareRowsByColumn for the column of the given sorting level. */
  function CompareAtLevel(st: Sorting, row1: int, row2: int, level: nat): int
    requires ValidSorting(st) && level < |st.columns|
  {
    CompareCells(ColumnAt(st, level), CellAt(st, row1, level), CellAt(st, row2, level))
  }

  /** The first non-zero column result from the given level on, or 0. */
  function CompareFrom(st: Sorting, row1: int, row2: int, level: nat): (r: int)
    requires ValidSorting(st) && level <= |st.columns|
    ensures -1 <= r <= 1
    decreases |st.columns| - level
  {
    if level == |st.columns| then 0
    else
      var r := CompareAtLevel(st, row1, row2, level);
      if r != 0 then r else CompareFrom(st, row1, row2, level + 1)
  }

  /** compare: the first non-zero column result, negated when descending. */
  function Compare(st: Sorting, row1: int, row2: int): int
    requires ValidSorting(st)
  {
    if st.ascending then CompareFrom(st, row1, row2, 0) else -CompareFrom(st, row1, row2, 0)
  }

  /** Two rows hold the same cells, as SameCell sees them, in every sorting column from level on. */
  predicate Agree(st: Sorting, row1: int, row2: int, level: nat)
    requires ValidSorting(st)
  {
    forall l | level <= l < |st.columns| :: SameCell(CellAt(st, row1, l), CellAt(st, row2, l))
  }

  lemma {:induction false} CompareFromZero(st: Sorting, x: int, y: int, level: nat)
    requires ValidSorting(st) && level <= |st.columns|
    ensures CompareFrom(st, x, y, level) == 0 <==> Agree(st, x, y, level)
    decreases |st.columns| - level
  {
    if level < |st.columns| {
      CompareCellsZero(ColumnAt(st, level), CellAt(st, x, level), CellAt(st, y, level));
      CompareFromZero(st, x, y, level + 1);
    }
  }

  lemma {:induction false} CompareFromAntisymmetric(st: Sorting, x: int, y: int, level: nat)
    requires ValidSorting(st) && level <= |st.columns|
    ensures CompareFrom(st, x, y, level) == -CompareFrom(st, y, x, level)
    decreases |st.columns| - level
  {
    if level < |st.columns| {
      CompareCellsAntisymmetric(ColumnAt(st, level), CellAt(st, x, level), CellAt(st, y, level));
      CompareFromAntisymmetric(st, x, y, level + 1);
    }
  }

  lemma {:induction false} CompareFromSubstitute(st: Sorting, x: int, y: int, z: int, level: nat)
    requires ValidSorting(st) && level <= |st.columns|
    requires Agree(st, x, y, level)
    ensures CompareFrom(st, x, z, level) == CompareFrom(st, y, z, level)
    decreases |st.columns| - level
  {
    if level < |st.columns| {
      CompareFromSubstitute(st, x, y, z, level + 1);
    }
  }

  lemma {:induction false} CompareFromTransitive(st: Sorting, x: int, y: int, z: int, level: nat)
    requires ValidSorting(st) && level <= |st.columns|
    requires CompareFrom(st, x, y, level) <= 0 && CompareFrom(st, y, z, level) <= 0
    ensures CompareFrom(st, x, z, level) <= 0
    decreases |st.columns| - level
  {
    if level < |st.columns| {
      var t := ColumnAt(st, level);
      var a, b, c := CellAt(st, x, level), CellAt(st, y, level), CellAt(st, z, level);
      CompareCellsZero(t, a, b);
      CompareCellsZero(t, b, c);
      if CompareCells(t, a, b) == 0 && CompareCells(t, b, c) == 0 {
        CompareFromTransitive(st, x, y, z, level + 1);
      } else {
        CompareCellsTransitive(t, a, b, c);
        CompareCellsZero(t, a, c);
        if CompareCells(t, a, c) == 0 {
          CompareCellsAntisymmetric(t, a, b);
        }
      }
    }
  }

  /** compare is antisymmetric. */
  lemma CompareAntisymmetric(st: Sorting, x: int, y: int)
    requires ValidSorting(st)
    ensures Compare(st, x, y) == -Compare(st, y, x)
  {
    CompareFromAntisymmetric(st, x, y, 0);
  }

  /** compare is transitive, in either direction. */
  lemma CompareTransitive(st: Sorting, x: int, y: int, z: int)
    requires ValidSorting(st)
    requires Compare(st, x, y) <= 0 && Compare(st, y, z) <= 0
    ensures Compare(st, x, z) <= 0
  {
    if st.ascending {
      CompareFromTransitive(st, x, y, z, 0);
    } else {
      CompareFromAntisymmetric(st, x, y, 0);
      CompareFromAntisymmetric(st, y, z, 0);
      CompareFromAntisymmetric(st, x, z, 0);
      CompareFromTransitive(st, z, y, x, 0);
    }
  }

  /** Rows that compare equal compare the same way with every other row. */
  lemma CompareSubstitute(st: Sorting, x: int, y: int, z: int)
    requires ValidSorting(st)
    requires Compare(st, x, y) == 0
    ensures Compare(st, x, z) == Compare(st, y, z)
  {
    CompareFromZero(st, x, y, 0);
    CompareFromSubstitute(st, x, y, z, 0);
  }

  /** Rows equal in every sorting column compare equal, and only those. */
  lemma CompareZero(st: Sorting, x: int, y: int)
    requires ValidSorting(st)
    ensures Compare(st, x, y) == 0 <==> Agree(st, x, y, 0)
  {
    CompareFromZero(st, x, y, 0);
  }

  /** Strictly below, then at most: strictly below. */
  lemma CompareStrict(st: Sorting, x: int, y: int, z: int)
    requires ValidSorting(st)
    requires Compare(st, x, y) < 0 && Compare(st, y, z) <= 0
    ensures Compare(st, x, z) < 0
  {
    CompareTransitive(st, x, y, z);
    if Compare(st, x, z) == 0 {
      CompareSubstitute(st, x, z, y);
      CompareAntisymmetric(st, z, y);
    }
  }

  // ---------------------------------------------------------------------
  // Sequences of row indexes

  predicate AllRows(st: Sorting, s: seq<int>)
  {
    forall x | x in s :: IsRow(st, x)
  }

  predicate Sorted(st: Sorting, s: seq<int>)
    requires ValidSorting(st)
  {
    forall i, j | 0 <= i < j < |s| :: Compare(st, s[i], s[j]) <= 0
  }

  /** The rows of s that compare equal to k, in their order in s. */
  function Equivalents(st: Sorting, s: seq<int>, k: int): seq<int>
    requires ValidSorting(st)
    decreases |s|
  {
    if s == [] then []
    else (if Compare(st, s[0], k) == 0 then [s[0]] else []) + Equivalents(st, s[1..], k)
  }

  /**
   * out is a stable rearrangement of input: for every row, the rows that
   * compare equal to it appear in out in the same order as in input.
   */
  ghost predicate Stable(st: Sorting, out: seq<int>, input: seq<int>)
    requires ValidSorting(st)
  {
    forall k :: Equivalents(st, out, k) == Equivalents(st, input, k)
  }

  /** Equivalents of a sequence with a given head. */
  lemma EquivalentsCons(st: Sorting, h: int, s: seq<int>, k: int)
    requires ValidSorting(st)
    ensures Equivalents(st, [h] + s, k) == (if Compare(st, h, k) == 0 then [h] else []) + Equivalents(st, s, k)
  {
    var hs := [h] + s;
    assert hs[0] == h && hs[1..] == s;
  }

  lemma {:induction false} EquivalentsAppend(st: Sorting, a: seq<int>, b: seq<int>, k: int)
    requires ValidSorting(st)
    ensures Equivalents(st, a + b, k) == Equivalents(st, a, k) + Equivalents(st, b, k)
    decreases |a|
  {
    if a != [] {
      var head := if Compare(st, a[0], k) == 0 then [a[0]] else [];
      assert a + b == [a[0]] + (a[1..] + b);
      EquivalentsAppend(st, a[1..], b, k);
      EquivalentsCons(st, a[0], a[1..] + b, k);
      assert Equivalents(st, a, k) == head + Equivalents(st, a[1..], k);
      assert Equivalents(st, a + b, k) == head + (Equivalents(st, a[1..], k) + Equivalents(st, b, k));
    } else {
      assert a + b == b;
    }
  }

  /** A row above every row of s has no equivalent among them. */
  lemma {:induction false} EquivalentsNone(st: Sorting, s: seq<int>, k: int)
    requires ValidSorting(st)
    requires forall x | x in s :: Compare(st, k, x) < 0
    ensures Equivalents(st, s, k) == []
    decreases |s|
  {
    if s != [] {
      CompareAntisymmetric(st, k, s[0]);
      EquivalentsNone(st, s[1..], k);
    }
  }

  /** Stability composes, so the runs of a merge sort can be chained. */
  lemma StableTransitive(st: Sorting, a: seq<int>, b: seq<int>, c: seq<int>)
    requires ValidSorting(st)
    requires Stable(st, a, b) && Stable(st, b, c)
    ensures Stable(st, a, c)
  {
  }

  /** Stable rearrangements of two halves give a stable rearrangement of the whole. */
  lemma StableAppend(st: Sorting, a: seq<int>, b: seq<int>, a': seq<int>, b': seq<int>)
    requires ValidSorting(st)
    requires Stable(st, a, a') && Stable(st, b, b')
        ensures Stable(st, a + b, a' + b')
  {
    forall k
      ensures Equivalents(st, a + b, k) == Equivalents(st, a' + b', k)
    {
      EquivalentsAppend(st, a, b, k);
      EquivalentsAppend(st, a', b', k);
    }
  }

  /** The merge of shuttlesort: on a tie the left run goes first. */
  function Merge(st: Sorting, a: seq<int>, b: seq<int>): (r: seq<int>)
    requires ValidSorting(st)
    ensures |r| == |a| + |b|
    decreases |a| + |b|
  {
    if a == [] then b
    else if b == [] then a
    else if Compare(st, a[0], b[0]) <= 0 then [a[0]] + Merge(st, a[1..], b)
    else [b[0]] + Merge(st, a, b[1..])
  }

  /** The merge is a permutation of its two runs. */
  lemma {:induction false} MergePermutes(st: Sorting, a: seq<int>, b: seq<int>)
    requires ValidSorting(st)
    ensures multiset(Merge(st, a, b)) == multiset(a) + multiset(b)
    decreases |a| + |b|
  {
    if a != [] && b != [] {
      if Compare(st, a[0], b[0]) <= 0 {
        MergeTakesLeft(st, a, b);
        MergePermutes(st, a[1..], b);
        assert a == [a[0]] + a[1..];
      } else {
        MergeTakesRight(st, a, b);
        MergePermutes(st, a, b[1..]);
        assert b == [b[0]] + b[1..];
      }
    }
  }

  /** A row at most every row of a sorted sequence can lead it. */
  lemma SortedCons(st: Sorting, h: int, s: seq<int>)
    requires ValidSorting(st) && Sorted(st, s)
    requires forall y | y in s :: Compare(st, h, y) <= 0
    ensures Sorted(st, [h] + s)
  {
    var r := [h] + s;
    forall i, j | 0 <= i < j < |r|
      ensures Compare(st, r[i], r[j]) <= 0
    {
      if i == 0 {
        assert r[j] == s[j - 1];
      } else {
        assert r[i] == s[i - 1] && r[j] == s[j - 1];
      }
    }
  }

  /** Every row of a sorted sequence is at least its head. */
  lemma SortedHead(st: Sorting, s: seq<int>, y: int)
    requires ValidSorting(st) && Sorted(st, s) && s != [] && y in s
    ensures Compare(st, s[0], y) <= 0
  {
    var i :| 0 <= i < |s| && s[i] == y;
    if i == 0 {
      CompareFromZero(st, y, y, 0);
      CompareZero(st, y, y);
    }
  }

  /** Merging two sorted runs gives a sorted run. */
  lemma {:induction false} MergeSorted(st: Sorting, a: seq<int>, b: seq<int>)
    requires ValidSorting(st)
    requires Sorted(st, a) && Sorted(st, b)
    ensures Sorted(st, Merge(st, a, b))
    decreases |a| + |b|
  {
    if a != [] && b != [] {
      if Compare(st, a[0], b[0]) <= 0 {
        var rest := Merge(st, a[1..], b);
        MergeTakesLeft(st, a, b);
        MergeSorted(st, a[1..], b);
        MergePermutes(st, a[1..], b);
        forall y | y in rest
          ensures Compare(st, a[0], y) <= 0
        {
          assert y in multiset(rest);
          if y in a[1..] {
            SortedHead(st, a, y);
          } else {
            SortedHead(st, b, y);
            CompareTransitive(st, a[0], b[0], y);
          }
        }
        SortedCons(st, a[0], rest);
      } else {
        var rest := Merge(st, a, b[1..]);
        MergeTakesRight(st, a, b);
        MergeSorted(st, a, b[1..]);
        MergePermutes(st, a, b[1..]);
        CompareAntisymmetric(st, a[0], b[0]);
        forall y | y in rest
          ensures Compare(st, b[0], y) <= 0
        {
          assert y in multiset(rest);
          if y in b[1..] {
            SortedHead(st, b, y);
          } else {
            SortedHead(st, a, y);
            CompareTransitive(st, b[0], a[0], y);
          }
        }
        SortedCons(st, b[0], rest);
      }
    }
  }

  /** Merging sorted runs keeps, for every row, its equivalents of the left run before those of the right. */
  lemma {:induction false} MergeEquivalents(st: Sorting, a: seq<int>, b: seq<int>, k: int)
    requires ValidSorting(st)
    requires Sorted(st, a) && Sorted(st, b)
    ensures Equivalents(st, Merge(st, a, b), k) == Equivalents(st, a, k) + Equivalents(st, b, k)
    decreases |a| + |b|
  {
    if a == [] {
      assert Equivalents(st, a, k) == [];
    } else if b == [] {
      assert Equivalents(st, b, k) == [];
    } else if Compare(st, a[0], b[0]) <= 0 {
      MergeTakesLeft(st, a, b);
      MergeEquivalents(st, a[1..], b, k);
      MergeLeftStep(st, a, Merge(st, a[1..], b), Equivalents(st, b, k), k);
    } else {
      MergeTakesRight(st, a, b);
      MergeEquivalents(st, a, b[1..], k);
      MergeRightStep(st, a, b, Merge(st, a, b[1..]), k);
    }
  }

  lemma AppendAssociative(x: seq<int>, y: seq<int>, z: seq<int>)
    ensures x + (y + z) == (x + y) + z
  {
  }

  /** The step of MergeEquivalents that takes the head of the left run. */
  lemma {:induction false} MergeLeftStep(st: Sorting, a: seq<int>, rest: seq<int>, eb: seq<int>, k: int)
    requires ValidSorting(st) && a != []
    requires Equivalents(st, rest, k) == Equivalents(st, a[1..], k) + eb
    ensures Equivalents(st, [a[0]] + rest, k) == Equivalents(st, a, k) + eb
  {
    var head := if Compare(st, a[0], k) == 0 then [a[0]] else [];
    var ea := Equivalents(st, a[1..], k);
    EquivalentsCons(st, a[0], rest, k);
    assert Equivalents(st, a, k) == head + ea;
    AppendAssociative(head, ea, eb);
  }

  /** The step of MergeEquivalents that takes the head of the right run, which no tie of the left run precedes. */
  lemma {:induction false} MergeRightStep(st: Sorting, a: seq<int>, b: seq<int>, rest: seq<int>, k: int)
    requires ValidSorting(st)
    requires Sorted(st, a)
    requires a != [] && b != [] && Compare(st, a[0], b[0]) > 0
    requires Equivalents(st, rest, k) == Equivalents(st, a, k) + Equivalents(st, b[1..], k)
    ensures Equivalents(st, [b[0]] + rest, k) == Equivalents(st, a, k) + Equivalents(st, b, k)
  {
    var head := if Compare(st, b[0], k) == 0 then [b[0]] else [];
    var ea, eb := Equivalents(st, a, k), Equivalents(st, b[1..], k);
    EquivalentsCons(st, b[0], rest, k);
    assert Equivalents(st, b, k) == head + eb;
    if Compare(st, b[0], k) == 0 {
      AboveTiedHead(st, a, b[0], k);
      EquivalentsNone(st, a, k);
      assert ea + eb == eb && ea + (head + eb) == head + eb;
    } else {
      assert head + (ea + eb) == ea + eb && ea + (head + eb) == ea + eb;
    }
  }

  /** When b0 is strictly below the head of sorted a and k ties with b0, k is strictly below all of a. */
  lemma {:induction false} AboveTiedHead(st: Sorting, a: seq<int>, b0: int, k: int)
    requires ValidSorting(st)
    requires Sorted(st, a) && a != [] && Compare(st, a[0], b0) > 0 && Compare(st, b0, k) == 0
    ensures forall x | x in a :: Compare(st, k, x) < 0
  {
    CompareAntisymmetric(st, a[0], b0);
    CompareAntisymmetric(st, b0, k);
    CompareSubstitute(st, k, b0, a[0]);
    forall x | x in a
      ensures Compare(st, k, x) < 0
    {
      SortedHead(st, a, x);
      CompareStrict(st, k, a[0], x);
    }
  }

  /** The merge is a stable rearrangement of its two runs laid end to end. */
  lemma MergeStable(st: Sorting, a: seq<int>, b: seq<int>)
    requires ValidSorting(st)
    requires Sorted(st, a) && Sorted(st, b)
        ensures Stable(st, Merge(st, a, b), a + b)
  {
    forall k
      ensures Equivalents(st, Merge(st, a, b), k) == Equivalents(st, a + b, k)
    {
      MergeEquivalents(st, a, b, k);
      EquivalentsAppend(st, a, b, k);
    }
  }

  /** Two sorted runs, the last of the first at most the first of the second, are sorted together. */
  lemma ConcatSorted(st: Sorting, a: seq<int>, b: seq<int>)
    requires ValidSorting(st) && a != [] && b != []
    requires Sorted(st, a) && Sorted(st, b) && Compare(st, a[|a| - 1], b[0]) <= 0
    ensures Sorted(st, a + b)
  {
    var r := a + b;
    forall i, j | 0 <= i < j < |r|
      ensures Compare(st, r[i], r[j]) <= 0
    {
      if i < |a| && j >= |a| {
        assert r[i] == a[i] && r[j] == b[j - |a|];
        if i < |a| - 1 {
          CompareTransitive(st, a[i], a[|a| - 1], b[0]);
        }
        if j > |a| {
          CompareTransitive(st, a[i], b[0], b[j - |a|]);
        }
      } else if i >= |a| {
        assert r[i] == b[i - |a|] && r[j] == b[j - |a|];
      } else {
        assert r[i] == a[i] && r[j] == a[j];
      }
    }
  }

  /** out is input sorted by Compare, as a stable permutation. */
  ghost predicate SortsStably(st: Sorting, out: seq<int>, input: seq<int>)
    requires ValidSorting(st)
  {
    multiset(out) == multiset(input) && Sorted(st, out) && Stable(st, out, input)
  }

  /** A run of at most one row is already sorted. */
  lemma ShortRunSortsStably(st: Sorting, s: seq<int>)
    requires ValidSorting(st) && |s| <= 1
    ensures SortsStably(st, s, s)
  {
  }

  /** Merging two stably sorted runs stably sorts their concatenation. */
  lemma MergeSortsStably(st: Sorting, a: seq<int>, b: seq<int>, xa: seq<int>, xb: seq<int>)
    requires ValidSorting(st) && SortsStably(st, a, xa) && SortsStably(st, b, xb)
    ensures SortsStably(st, Merge(st, a, b), xa + xb)
  {
    MergePermutes(st, a, b);
    MergeSorted(st, a, b);
    MergeStable(st, a, b);
    StableAppend(st, a, b, xa, xb);
    StableTransitive(st, Merge(st, a, b), a + b, xa + xb);
  }

  /** Two stably sorted runs already in order stably sort their concatenation. */
  lemma ConcatSortsStably(st: Sorting, a: seq<int>, b: seq<int>, xa: seq<int>, xb: seq<int>)
    requires ValidSorting(st) && SortsStably(st, a, xa) && SortsStably(st, b, xb)
    requires a != [] && b != [] && Compare(st, a[|a| - 1], b[0]) <= 0
    ensures SortsStably(st, a + b, xa + xb)
  {
    ConcatSorted(st, a, b);
    StableAppend(st, a, b, xa, xb);
  }

  /** The merge takes the head of the left run when the right one is empty or not smaller. */
  lemma {:induction false} MergeTakesLeft(st: Sorting, a: seq<int>, b: seq<int>)
    requires ValidSorting(st) && a != []
    requires b == [] || Compare(st, a[0], b[0]) <= 0
    ensures Merge(st, a, b) == [a[0]] + Merge(st, a[1..], b)
  {
    if b == [] {
      assert a == [a[0]] + a[1..];
    }
  }

  /** The merge takes the head of the right run when the left one is empty or bigger. */
  lemma {:induction false} MergeTakesRight(st: Sorting, a: seq<int>, b: seq<int>)
    requires ValidSorting(st) && b != []
    requires a == [] || Compare(st, a[0], b[0]) > 0
    ensures Merge(st, a, b) == [b[0]] + Merge(st, a, b[1..])
  {
    if a == [] {
      assert Merge(st, a, b[1..]) == b[1..];
      assert b == [b[0]] + b[1..];
    } else {
      assert Compare(st, a[0], b[0]) > 0;
    }
  }

  /**
   * One level of shuttlesort over its two sorted halves: when there are at
   * least four rows and the halves are already in order they are copied,
   * otherwise merged.
   */
  function ShuttleStep(st: Sorting, a: seq<int>, b: seq<int>): (r: seq<int>)
    requires ValidSorting(st)
    ensures |r| == |a| + |b|
  {
    if |a| + |b| >= 4 && a != [] && b != [] && Compare(st, a[|a| - 1], b[0]) <= 0 then a + b
    else Merge(st, a, b)
  }

  /** The two cases of ShuttleStep. */
  lemma ShuttleStepCases(st: Sorting, a: seq<int>, b: seq<int>)
    requires ValidSorting(st)
    ensures |a| + |b| >= 4 && a != [] && b != [] && Compare(st, a[|a| - 1], b[0]) <= 0 ==> ShuttleStep(st, a, b) == a + b
    ensures !(|a| + |b| >= 4 && a != [] && b != [] && Compare(st, a[|a| - 1], b[0]) <= 0) ==> ShuttleStep(st, a, b) == Merge(st, a, b)
  {
  }

  /** What shuttlesort leaves in its target: both halves sorted recursively, then one step. */
  function ShuttleSorted(st: Sorting, s: seq<int>): (r: seq<int>)
    requires ValidSorting(st)
    ensures |r| == |s|
    decreases |s|
  {
    if |s| < 2 then s
    else
      var m := |s| / 2;
      var a := ShuttleSorted(st, s[..m]);
      var b := ShuttleSorted(st, s[m..]);
      ShuttleStep(st, a, b)
  }

  /** Shuttlesort is a stable sort: a sorted permutation keeping equal rows in order. */
  lemma {:induction false} ShuttleSortedSortsStably(st: Sorting, s: seq<int>)
    requires ValidSorting(st)
    ensures SortsStably(st, ShuttleSorted(st, s), s)
    decreases |s|
  {
    if |s| < 2 {
      ShortRunSortsStably(st, s);
    } else {
      var m := |s| / 2;
      ShuttleSortedSortsStably(st, s[..m]);
      ShuttleSortedSortsStably(st, s[m..]);
      var a, b := ShuttleSorted(st, s[..m]), ShuttleSorted(st, s[m..]);
      assert s == s[..m] + s[m..];
      assert ShuttleSorted(st, s) == ShuttleStep(st, a, b);
      ShuttleStepSortsStably(st, a, b, s[..m], s[m..]);
    }
  }

  /** One shuttlesort step on two stably sorted halves stably sorts their concatenation. */
  lemma ShuttleStepSortsStably(st: Sorting, a: seq<int>, b: seq<int>, xa: seq<int>, xb: seq<int>)
    requires ValidSorting(st) && SortsStably(st, a, xa) && SortsStably(st, b, xb)
    ensures SortsStably(st, ShuttleStep(st, a, b), xa + xb)
  {
    ShuttleStepCases(st, a, b);
    if |a| + |b| >= 4 && a != [] && b != [] && Compare(st, a[|a| - 1], b[0]) <= 0 {
      ConcatSortsStably(st, a, b, xa, xb);
    } else {
      MergeSortsStably(st, a, b, xa, xb);
    }
  }

  /** When every row of a is at most the head of b, merging appends b to a. */
  lemma {:induction false} MergeAllBelow(st: Sorting, a: seq<int>, b: seq<int>)
    requires ValidSorting(st) && b != []
    requires forall x | x in a :: Compare(st, x, b[0]) <= 0
    ensures Merge(st, a, b) == a + b
    decreases |a|
  {
    if a != [] {
      var tail := a[1..];
      MergeTakesLeft(st, a, b);
      MergeAllBelow(st, tail, b);
      assert a + b == [a[0]] + (tail + b);
    }
  }

  /** The shortcut copy gives what the merge would: it only saves comparisons. */
  lemma ShortcutIsMerge(st: Sorting, a: seq<int>, b: seq<int>)
    requires ValidSorting(st) && Sorted(st, a)
    requires a != [] && b != [] && Compare(st, a[|a| - 1], b[0]) <= 0
    ensures Merge(st, a, b) == a + b
  {
    forall x | x in a
      ensures Compare(st, x, b[0]) <= 0
    {
      var i :| 0 <= i < |a| && a[i] == x;
      if i < |a| - 1 {
        CompareTransitive(st, x, a[|a| - 1], b[0]);
      }
    }
    MergeAllBelow(st, a, b);
  }

  /**
   * The merge loop of shuttlesort read as a function: p rows of a and q rows
   * of b are already out; the next row comes from a while b is used up or
   * a's next row is not bigger than b's.
   */
  function MergeFrom(st: Sorting, a: seq<int>, b: seq<int>, p: nat, q: nat): (r: seq<int>)
    requires ValidSorting(st) && p <= |a| && q <= |b|
    ensures |r| == |a| - p + |b| - q
    decreases |a| - p + |b| - q
  {
    if p == |a| && q == |b| then []
    else if q == |b| || (p < |a| && Compare(st, a[p], b[q]) <= 0) then [a[p]] + MergeFrom(st, a, b, p + 1, q)
    else [b[q]] + MergeFrom(st, a, b, p, q + 1)
  }

  /** The loop's merge is the recursive Merge of what is left of both runs. */
  lemma {:induction false} MergeFromIsMerge(st: Sorting, a: seq<int>, b: seq<int>, p: nat, q: nat)
    requires ValidSorting(st) && p <= |a| && q <= |b|
    ensures MergeFrom(st, a, b, p, q) == Merge(st, a[p..], b[q..])
    decreases |a| - p + |b| - q
  {
    if p == |a| && q == |b| {
      assert a[p..] == [] && b[q..] == [];
    } else if q == |b| || (p < |a| && Compare(st, a[p], b[q]) <= 0) {
      MergeFromIsMerge(st, a, b, p + 1, q);
      MergeTakesLeft(st, a[p..], b[q..]);
      assert a[p..][1..] == a[p + 1..];
    } else {
      MergeFromIsMerge(st, a, b, p, q + 1);
      MergeTakesRight(st, a[p..], b[q..]);
      assert b[q..][1..] == b[q + 1..];
    }
  }

  /** A run of s that an update outside [low, high) did not touch is kept whole. */
  lemma SliceKept(before: seq<int>, after: seq<int>, low: int, high: int, x: int, y: int)
    requires |before| == |after| && 0 <= x <= y <= |before| && (y <= low || high <= x)
    requires forall k | 0 <= k < |after| && !(low <= k < high) :: after[k] == before[k]
    ensures after[x..y] == before[x..y]
  {
    assert forall k | 0 <= k < y - x :: after[x..y][k] == after[x + k];
  }

  /** s with the entries at i and j exchanged: a permutation that changes nothing else. */
  function Swapped(s: seq<int>, i: int, j: int): (r: seq<int>)
    requires 0 <= i < |s| && 0 <= j < |s|
    ensures |r| == |s| && r[i] == s[j] && r[j] == s[i]
    ensures forall k | 0 <= k < |s| && k != i && k != j :: r[k] == s[k]
    ensures multiset(r) == multiset(s)
  {
    s[i := s[j]][j := s[i]]
  }

  /** Swapping the same pair twice restores the sequence. */
  lemma SwappedTwice(s: seq<int>, i: int, j: int)
    requires 0 <= i < |s| && 0 <= j < |s|
    ensures Swapped(Swapped(s, i, j), i, j) == s
  {
  }

  /** The index mapping reallocateIndexes builds. */
  function Identity(n: nat): (r: seq<int>)
    ensures |r| == n && forall i | 0 <= i < n :: r[i] == i
  {
    seq(n, i => i)
  }
}
