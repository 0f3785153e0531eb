// Form: the layout rules a form derives from its parts (header, body,
// footer, ...), each part being a horizontal band that ends at its height
// measured from the top of the form, and the form's encapsulation flags.
module Form {
  import opened Wrappers
  import opened JavaLang

  /** A form part: its element id, its part type and the y position where it ends. */
  datatype Part = Part(id: int, partType: int, height: int)

  datatype Dimension = Dimension(width: int, height: int)

  /** Width given to a form that has no stored size. */
  const DEFAULT_FORM_WIDTH := 640
  /** End position reported when a part is not followed by a taller one. */
  const DEFAULT_PART_END := 50000
  /** Scale used when no paper print scale is stored. */
  const DEFAULT_PAPER_PRINT_SCALE := 100

  /** The encapsulation flags, single bits of a Java int. */
  const PRIVATE := 1
  const MODULE_PRIVATE := 2

  // ---------------------------------------------------------------------
  // PartComparator

  /** PartComparator.compare: the type difference, or the height difference for equal types, in int arithmetic. */
  function Compare(p1: Part, p2: Part): int
  {
    var diff := Int32(p1.partType - p2.partType);
    if diff == 0 then Int32(p1.height - p2.height) else diff
  }

  /** The intended order: by part type, then by height. */
  predicate PartBefore(p1: Part, p2: Part)
  {
    p1.partType < p2.partType || (p1.partType == p2.partType && p1.height < p2.height)
  }

  predicate InInt32(x: int) { 0 <= x < 0x8000_0000 }

  /** For parts with non-negative types and heights the comparator orders by type, then by height. */
  lemma CompareOrders(p1: Part, p2: Part)
    requires InInt32(p1.partType) && InInt32(p2.partType) && InInt32(p1.height) && InInt32(p2.height)
    ensures Compare(p1, p2) < 0 <==> PartBefore(p1, p2)
    ensures Compare(p1, p2) > 0 <==> PartBefore(p2, p1)
    ensures Compare(p1, p2) == 0 <==> p1.partType == p2.partType && p1.height == p2.height
  {
  }

  /** Heights further apart than the int range overflow the subtraction and invert the order. */
  lemma CompareOverflows()
    ensures PartBefore(Part(1, 0, -0x8000_0000), Part(2, 0, 1))
    ensures Compare(Part(1, 0, -0x8000_0000), Part(2, 0, 1)) > 0
  {
  }

  // ---------------------------------------------------------------------
  // checkParts

  /** The largest part height, 0 when there are no parts or none is positive. */
  function TotalHeight(ps: seq<Part>): (r: int)
    ensures r >= 0
    ensures forall i | 0 <= i < |ps| :: ps[i].height <= r
    ensures r == 0 || exists i | 0 <= i < |ps| :: ps[i].height == r
  {
    if ps == [] then 0 else Max(TotalHeight(ps[..|ps| - 1]), ps[|ps| - 1].height)
  }

  /** The size checkParts gives a form whose stored size is `size` (None for null). */
  function CheckedSize(ps: seq<Part>, size: Option<Dimension>): Dimension
  {
    var total := TotalHeight(ps);
    if size.None? then Dimension(DEFAULT_FORM_WIDTH, total)
    else if size.value.height != total && total > 0 then Dimension(size.value.width, total)
    else size.value
  }

  /** checkParts, with its scan for the largest height. */
  method CheckParts(ps: seq<Part>, size: Option<Dimension>) returns (r: Dimension)
    ensures r == CheckedSize(ps, size)
  {
    var total := 0;
    for i := 0 to |ps|
      invariant total == TotalHeight(ps[..i])
    {
      assert ps[..i + 1][..i] == ps[..i];
      total := Max(total, ps[i].height);
    }
    assert ps[..|ps|] == ps;
    if size.None? {
      return Dimension(DEFAULT_FORM_WIDTH, total);
    }
    if size.value.height != total && total > 0 {
      return Dimension(size.value.width, total);
    }
    return size.value;
  }

  /**
   * The checked size reaches down to the lowest part: without a stored size
   * it is the default width by the largest height; with one, the width is
   * kept and the height becomes the largest part height when there is a
   * positive one, the stored height otherwise.
   */
  lemma CheckedSizeFits(ps: seq<Part>, size: Option<Dimension>)
    ensures var r := CheckedSize(ps, size);
      (size.None? ==> r.width == DEFAULT_FORM_WIDTH) &&
      (size.Some? ==> r.width == size.value.width) &&
      (forall i | 0 <= i < |ps| :: ps[i].height <= r.height || (size.Some? && ps[i].height <= 0)) &&
      (size.Some? && (forall i | 0 <= i < |ps| :: ps[i].height <= 0) ==> r == size.value) &&
      (TotalHeight(ps) > 0 ==> r.height == TotalHeight(ps)) &&
      (size.None? ==> r.height == TotalHeight(ps))
  {
  }

  /** getSize stores what checkParts returns, so asking again changes nothing. */
  lemma CheckedSizeIdempotent(ps: seq<Part>, size: Option<Dimension>)
    ensures CheckedSize(ps, Some(CheckedSize(ps, size))) == CheckedSize(ps, size)
  {
  }

  // ---------------------------------------------------------------------
  // getPartStartYPos

  /** The position of the first part with the element id, |ps| when there is none. */
  function IndexOfPart(ps: seq<Part>, id: int): (k: nat)
    ensures k <= |ps|
    ensures forall i | 0 <= i < k :: ps[i].id != id
    ensures k < |ps| ==> ps[k].id == id
  {
    if ps == [] then 0
    else if ps[0].id == id then 0
    else 1 + IndexOfPart(ps[1..], id)
  }

  /** getPartStartYPos: where the part starts, the end of the part before it (0 for the first). */
  function PartStartYPos(ps: seq<Part>, id: int): int
  {
    var k := IndexOfPart(ps, id);
    if k == 0 then 0 else ps[k - 1].height
  }

  /** getPartStartYPos, with its scan that stops at the part. */
  method FindPartStartYPos(ps: seq<Part>, id: int) returns (r: int)
    ensures r == PartStartYPos(ps, id)
  {
    r := 0;
    var i := 0;
    while i < |ps| && ps[i].id != id
      invariant i <= |ps|
      invariant forall m | 0 <= m < i :: ps[m].id != id
      invariant r == if i == 0 then 0 else ps[i - 1].height
    {
      r := ps[i].height;
      i := i + 1;
    }
    assert i == IndexOfPart(ps, id);
  }

  /**
   * A part starts where the part before it ends and the first part starts
   * at 0.
   */
  lemma PartStartYPosCases(ps: seq<Part>, id: int, k: nat)
    requires k < |ps| && ps[k].id == id && forall i | 0 <= i < k :: ps[i].id != id
    ensures PartStartYPos(ps, id) == if k == 0 then 0 else ps[k - 1].height
  {
  }

  /** For an id that no part has, the result is the end of the last part. */
  lemma PartStartYPosMissing(ps: seq<Part>, id: int)
    requires |ps| > 0 && forall i | 0 <= i < |ps| :: ps[i].id != id
    ensures PartStartYPos(ps, id) == ps[|ps| - 1].height
  {
  }

  // ---------------------------------------------------------------------
  // getPartEndYPos

  /**
   * The scan of getPartEndYPos from position i with running value total:
   * the matching part sets total to its height, the first part taller than
   * total is the answer, and the last part resets total to the default.
   */
  function EndScan(ps: seq<Part>, id: int, i: nat, total: int): int
    requires i <= |ps|
    decreases |ps| - i
  {
    if i == |ps| then total
    else
      var t := if ps[i].id == id then ps[i].height else total;
      if ps[i].height > t then ps[i].height
      else if i == |ps| - 1 then DEFAULT_PART_END
      else EndScan(ps, id, i + 1, t)
  }

  /** getPartEndYPos: where the part ends. */
  function PartEndYPos(ps: seq<Part>, id: int): int
  {
    EndScan(ps, id, 0, DEFAULT_PART_END)
  }

  /** getPartEndYPos, with its scan. */
  method FindPartEndYPos(ps: seq<Part>, id: int) returns (r: int)
    ensures r == PartEndYPos(ps, id)
  {
    var total := DEFAULT_PART_END;
    for i := 0 to |ps|
      invariant EndScan(ps, id, i, total) == PartEndYPos(ps, id)
    {
      if ps[i].id == id {
        total := ps[i].height;
      }
      var h := ps[i].height;
      if h > total {
        return h;
      }
      if i == |ps| - 1 {
        total := DEFAULT_PART_END;
      }
    }
    return total;
  }

  /** Before the part with the id, no part reaching at most the default end changes the scan. */
  lemma {:induction false} EndScanBefore(ps: seq<Part>, id: int, i: nat, k: nat)
    requires i <= k < |ps|
    requires forall m | i <= m < k :: ps[m].id != id && ps[m].height <= DEFAULT_PART_END
    ensures EndScan(ps, id, i, DEFAULT_PART_END) == EndScan(ps, id, k, DEFAULT_PART_END)
    decreases k - i
  {
    if i < k {
      EndScanBefore(ps, id, i + 1, k);
    }
  }

  /** After the part with the id, the scan finds the first part taller than h, or gives the default. */
  lemma {:induction false} EndScanAfter(ps: seq<Part>, id: int, i: nat, h: int)
    requires i < |ps|
    requires forall m | i <= m < |ps| :: ps[m].id != id
    ensures var r := EndScan(ps, id, i, h);
      (r == DEFAULT_PART_END && forall j | i <= j < |ps| :: ps[j].height <= h) ||
      (exists j | i <= j < |ps| :: r == ps[j].height > h && forall m | i <= m < j :: ps[m].height <= h)
    decreases |ps| - i
  {
    if ps[i].height <= h && i < |ps| - 1 {
      EndScanAfter(ps, id, i + 1, h);
      var r := EndScan(ps, id, i + 1, h);
      if exists j | i + 1 <= j < |ps| :: r == ps[j].height > h && forall m | i + 1 <= m < j :: ps[m].height <= h {
        var j :| i + 1 <= j < |ps| && r == ps[j].height > h && forall m | i + 1 <= m < j :: ps[m].height <= h;
        assert forall m | i <= m < j :: ps[m].height <= h;
      }
    }
  }

  /**
   * For a part whose id is unique, on a form whose parts end no lower than
   * the default end: the part ends where the first later part taller than
   * it ends, or at the default end when no later part is taller.
   */
  lemma PartEndYPosOfPart(ps: seq<Part>, id: int, k: nat)
    requires k < |ps| && ps[k].id == id
    requires forall i | 0 <= i < |ps| && i != k :: ps[i].id != id
    requires forall i | 0 <= i < |ps| :: ps[i].height <= DEFAULT_PART_END
    ensures var r := PartEndYPos(ps, id);
      (r == DEFAULT_PART_END && forall j | k < j < |ps| :: ps[j].height <= ps[k].height) ||
      (exists j | k < j < |ps| :: r == ps[j].height > ps[k].height && forall m | k < m < j :: ps[m].height <= ps[k].height)
  {
    EndScanBefore(ps, id, 0, k);
    if k < |ps| - 1 {
      EndScanAfter(ps, id, k + 1, ps[k].height);
    }
  }

  // ---------------------------------------------------------------------
  // getPartAt

  /** The position of the first part reaching down to y, |ps| when there is none. */
  function IndexOfPartAt(ps: seq<Part>, y: int): (k: nat)
    ensures k <= |ps|
    ensures forall i | 0 <= i < k :: ps[i].height < y
    ensures k < |ps| ==> ps[k].height >= y
  {
    if ps == [] then 0
    else if ps[0].height >= y then 0
    else 1 + IndexOfPartAt(ps[1..], y)
  }

  /** getPartAt: the first part whose height is at least y, None (null) when there is none. */
  function PartAt(ps: seq<Part>, y: int): Option<Part>
  {
    var k := IndexOfPartAt(ps, y);
    if k < |ps| then Some(ps[k]) else None
  }

  /** getPartAt, with its scan. */
  method FindPartAt(ps: seq<Part>, y: int) returns (r: Option<Part>)
    ensures r == PartAt(ps, y)
  {
    for i := 0 to |ps|
      invariant forall m | 0 <= m < i :: ps[m].height < y
    {
      if ps[i].height >= y {
        assert i == IndexOfPartAt(ps, y);
        return Some(ps[i]);
      }
    }
    assert IndexOfPartAt(ps, y) == |ps|;
    return None;
  }

  /** getPartAt finds a part reaching y exactly when one exists, and no earlier part reaches y. */
  lemma PartAtFinds(ps: seq<Part>, y: int)
    ensures PartAt(ps, y).None? <==> forall i | 0 <= i < |ps| :: ps[i].height < y
    ensures PartAt(ps, y).Some? ==> exists k | 0 <= k < |ps| ::
      ps[k] == PartAt(ps, y).value && ps[k].height >= y && forall i | 0 <= i < k :: ps[i].height < y
  {
    var k := IndexOfPartAt(ps, y);
    if k < |ps| {
      assert ps[k] == PartAt(ps, y).value;
    }
  }

  /** A lower position is never in an earlier part than a higher one. */
  lemma PartAtMonotone(ps: seq<Part>, y1: int, y2: int)
    requires y1 <= y2
    ensures IndexOfPartAt(ps, y1) <= IndexOfPartAt(ps, y2)
  {
  }

  // ---------------------------------------------------------------------
  // Encapsulation and paper print scale

  /** The flag (a power of two) is set in the int: its bit of the two's complement form is 1. */
  predicate HasFlag(access: int, flag: int)
    requires flag == PRIVATE || flag == MODULE_PRIVATE
  {
    (access / flag) % 2 == 1
  }

  /** The two encapsulation bits are those of the value modulo 4, the other bits those of the value divided by 4. */
  lemma LowFlags(x: int)
    ensures HasFlag(x, PRIVATE) <==> x % 4 == 1 || x % 4 == 3
    ensures HasFlag(x, MODULE_PRIVATE) <==> x % 4 >= 2
  {
    var q, m := x / 4, x % 4;
    DivMod(x, 2, 2 * q + m / 2, m % 2);
    DivMod(2 * q + m / 2, 2, q, m / 2);
  }

  /**
   * setEncapsulation: a value asking for both PRIVATE and MODULE_PRIVATE
   * keeps only the one the current value does not have yet (PRIVATE when
   * the form is module private, MODULE_PRIVATE otherwise); the exclusive or
   * of a set flag clears it, which takes the flag's value off the int.
   */
  function EncapsulationAfter(current: int, arg: int): int
  {
    if HasFlag(arg, MODULE_PRIVATE) && HasFlag(arg, PRIVATE) then
      if HasFlag(current, MODULE_PRIVATE) then arg - MODULE_PRIVATE else arg - PRIVATE
    else arg
  }

  /**
   * The stored value is never both private and module private, and every
   * other flag (the bits above the two) is stored as given. A value
   * without both flags is stored as given; with both, the newly asked flag
   * wins.
   */
  lemma EncapsulationExclusive(current: int, arg: int)
    ensures var r := EncapsulationAfter(current, arg);
      !(HasFlag(r, PRIVATE) && HasFlag(r, MODULE_PRIVATE)) &&
      r / 4 == arg / 4 &&
      (!(HasFlag(arg, PRIVATE) && HasFlag(arg, MODULE_PRIVATE)) ==> r == arg) &&
      (HasFlag(arg, PRIVATE) && HasFlag(arg, MODULE_PRIVATE) ==>
        (HasFlag(r, PRIVATE) <==> HasFlag(current, MODULE_PRIVATE)) &&
        (HasFlag(r, MODULE_PRIVATE) <==> !HasFlag(current, MODULE_PRIVATE)))
  {
    var r := EncapsulationAfter(current, arg);
    LowFlags(arg);
    LowFlags(r);
    if r != arg {
      DivMod(r, 4, arg / 4, arg % 4 - (arg - r));
    }
  }

  /** getPaperPrintScale: the stored scale, 100 when none (0) is stored. */
  function PaperPrintScale(stored: int): (r: int)
    ensures r != 0
    ensures stored != 0 ==> r == stored
  {
    if stored == 0 then DEFAULT_PAPER_PRINT_SCALE else stored
  }

  // ---------------------------------------------------------------------
  // The form's stored properties

  class Form {
    /** The parts, in getParts order. */
    var parts: seq<Part>
    /** The stored size; None when the property is not set. */
    var size: Option<Dimension>
    var encapsulation: int
    var paperPrintScale: int

    constructor(parts: seq<Part>)
      ensures this.parts == parts && size.None? && encapsulation == 0 && paperPrintScale == 0
    {
      this.parts := parts;
      size := None;
      encapsulation := 0;
      paperPrintScale := 0;
    }

    /** getSize: the checked size, which is also stored. */
    method GetSize() returns (r: Dimension)
      modifies this`size
      ensures r == CheckedSize(parts, old(size)) && size == Some(r)
    {
      r := CheckParts(parts, size);
      size := Some(r);
    }

    method SetEncapsulation(arg: int)
      modifies this`encapsulation
      ensures encapsulation == EncapsulationAfter(old(encapsulation), arg)
      ensures !(HasFlag(encapsulation, PRIVATE) && HasFlag(encapsulation, MODULE_PRIVATE))
    {
      EncapsulationExclusive(encapsulation, arg);
      encapsulation := EncapsulationAfter(encapsulation, arg);
    }

    function GetPaperPrintScale(): int
      reads this
    {
      PaperPrintScale(paperPrintScale)
    }

    function GetPartStartYPos(id: int): int
      reads this
    {
      PartStartYPos(parts, id)
    }

    function GetPartEndYPos(id: int): int
      reads this
    {
      PartEndYPos(parts, id)
    }

    function GetPartAt(y: int): Option<Part>
      reads this
    {
      PartAt(parts, y)
    }
  }
}
