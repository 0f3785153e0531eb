// QueryJoin: a join from a primary table to a foreign table reference
// under a condition that is an and of compares. It can be inverted in
// place, compared with another join, and written to and read back from
// its serialised form, which packs the permanent flag into the join type.
module QueryJoin {
  import opened Wrappers
  import opened JavaLang
  import RelationItem

  // ---------------------------------------------------------------------
  // Query elements

  /** A table of the query, as the join sees it: compared by value. */
  datatype Table = Table(name: string, alias: string)

  /** A foreign table reference: a plain table expression, or a derived table the join does not look into. */
  datatype TableReference = TableExpression(table: Table) | DerivedTable(id: string)

  /** An operand of a compare: a query column, or any other value. */
  datatype Operand = Column(table: Table, column: string) | Value(text: string)

  /**
   * The conditions a join can be handed. An and-condition holds its
   * subconditions in named groups; here the groups are a sequence in the
   * order the map hands them out.
   */
  datatype Condition =
    | Compare(operator: int, operand1: Operand, operand2: Operand)
    | And(groups: seq<seq<Condition>>)
    | OtherCondition(kind: string)

  /** The and-condition a join keeps. */
  datatype AndCondition = AndCondition(groups: seq<seq<Condition>>)

  /** The join types (ISQLJoin). */
  const INNER_JOIN := 0
  const LEFT_OUTER_JOIN := 1
  const RIGHT_OUTER_JOIN := 2
  const FULL_JOIN := 3

  /** 1 << 16: the bit that marks a permanent join in the serialised join type. */
  const PERMANENT_MASK := 0x1_0000

  // ---------------------------------------------------------------------
  // getAndCondition

  /** getAllConditions: every subcondition, group after group. */
  function AllConditions(groups: seq<seq<Condition>>): (r: seq<Condition>)
    ensures forall g, c | 0 <= g < |groups| && c in groups[g] :: c in r
    ensures forall c | c in r :: exists g | 0 <= g < |groups| :: c in groups[g]
  {
    if groups == [] then [] else groups[0] + AllConditions(groups[1..])
  }

  /** The index of the first condition that is not a compare; the length when all are. */
  function FirstNonCompare(cs: seq<Condition>): (r: nat)
    ensures r <= |cs|
    ensures forall i | 0 <= i < r :: cs[i].Compare?
    ensures r < |cs| ==> !cs[r].Compare?
  {
    if cs == [] then 0 else if cs[0].Compare? then 1 + FirstNonCompare(cs[1..]) else 0
  }

  /**
   * getAndCondition: a compare is wrapped in a fresh and-condition; an
   * and-condition is kept when all its subconditions are compares. Any
   * other condition throws IllegalArgumentException, which here is an
   * error naming the offending condition.
   */
  function GetAndCondition(c: Condition): Result<AndCondition, Condition>
  {
    match c
    case Compare(_, _, _) => Ok(AndCondition([[c]]))
    case And(groups) =>
      var all := AllConditions(groups);
      var bad := FirstNonCompare(all);
      if bad < |all| then Err(all[bad]) else Ok(AndCondition(groups))
    case OtherCondition(_) => Err(c)
  }

  /** A join condition is accepted exactly when it is a compare or an and of compares only. */
  lemma GetAndConditionAccepts(c: Condition)
    ensures GetAndCondition(c).Ok? <==>
      c.Compare? || (c.And? && forall s | s in AllConditions(c.groups) :: s.Compare?)
    ensures GetAndCondition(c).Ok? ==> forall s | s in AllConditions(GetAndCondition(c).value.groups) :: s.Compare?
    ensures GetAndCondition(c).Ok? && c.And? ==> GetAndCondition(c).value.groups == c.groups
    ensures GetAndCondition(c).Err? ==> !GetAndCondition(c).error.Compare?
  {
    if c.And? {
      var all := AllConditions(c.groups);
      var bad := FirstNonCompare(all);
      if bad == |all| {
        forall s | s in all
          ensures s.Compare?
        {
          var i :| 0 <= i < |all| && all[i] == s;
        }
      }
    } else if c.Compare? {
      assert AllConditions([[c]]) == [c];
    }
  }

  // ---------------------------------------------------------------------
  // The join's state

  /** The fields of a join: name, tables, condition, join type, permanence and comment. */
  datatype JoinState = JoinState(
    name: Option<string>,
    primaryTable: Table,
    foreignTableReference: TableReference,
    condition: Option<AndCondition>,
    joinType: int,
    permanent: bool,
    comment: Option<string>)

  // ---------------------------------------------------------------------
  // invert

  /** An equals compare of two columns gets its operands swapped, modifiers kept; any other condition stays. */
  function SwapColumnEquals(c: Condition): Condition
  {
    if c.Compare? && RelationItem.Base(c.operator) == RelationItem.EQUALS && c.operand1.Column? && c.operand2.Column?
    then Compare(c.operator, c.operand2, c.operand1)
    else c
  }

  /** One group of subconditions with its column equalities swapped. */
  function InvertedGroup(conditions: seq<Condition>): (r: seq<Condition>)
    ensures |r| == |conditions|
    ensures forall i | 0 <= i < |r| :: r[i] == SwapColumnEquals(conditions[i])
  {
    seq(|conditions|, i requires 0 <= i < |conditions| => SwapColumnEquals(conditions[i]))
  }

  /** Every group with its column equalities swapped. */
  function InvertedGroups(groups: seq<seq<Condition>>): (r: seq<seq<Condition>>)
    ensures |r| == |groups|
    ensures forall g | 0 <= g < |r| :: r[g] == InvertedGroup(groups[g])
  {
    seq(|groups|, g requires 0 <= g < |groups| => InvertedGroup(groups[g]))
  }

  /** Left outer becomes right outer and back; other join types stay. */
  function InvertedJoinType(joinType: int): int
  {
    if joinType == LEFT_OUTER_JOIN then RIGHT_OUTER_JOIN
    else if joinType == RIGHT_OUTER_JOIN then LEFT_OUTER_JOIN
    else joinType
  }

  /**
   * The state after invert(newName): the tables change places, the
   * column equalities of the condition are swapped, left and right outer
   * trade places and the join takes the new name. The foreign reference
   * is cast to a table expression, so it must be one.
   */
  function Inverted(st: JoinState, newName: Option<string>): JoinState
    requires st.foreignTableReference.TableExpression?
  {
    st.(
      name := newName,
      primaryTable := st.foreignTableReference.table,
      foreignTableReference := TableExpression(st.primaryTable),
      condition := if st.condition.None? then None else Some(AndCondition(InvertedGroups(st.condition.value.groups))),
      joinType := InvertedJoinType(st.joinType))
  }

  /** Only equals compares between two columns are swapped, and swapping them twice restores them. */
  lemma SwapColumnEqualsCases(c: Condition)
    ensures SwapColumnEquals(c) != c ==> c.Compare? && RelationItem.Base(c.operator) == RelationItem.EQUALS
    ensures c.Compare? && RelationItem.Base(c.operator) == RelationItem.EQUALS && c.operand1.Column? && c.operand2.Column? ==>
      SwapColumnEquals(c) == Compare(c.operator, c.operand2, c.operand1)
    ensures SwapColumnEquals(SwapColumnEquals(c)) == c
  {
  }

  /** Inverting the join type twice restores it; only the two outer joins change. */
  lemma InvertedJoinTypeInvolution(joinType: int)
    ensures InvertedJoinType(InvertedJoinType(joinType)) == joinType
    ensures InvertedJoinType(joinType) != joinType <==> joinType in {LEFT_OUTER_JOIN, RIGHT_OUTER_JOIN}
  {
  }

  /** Inverting twice, the second time back to the old name, restores the join. */
  lemma InvertTwice(st: JoinState, newName: Option<string>)
    requires st.foreignTableReference.TableExpression?
    ensures Inverted(Inverted(st, newName), st.name) == st
  {
    if st.condition.Some? {
      var groups := st.condition.value.groups;
      var twice := InvertedGroups(InvertedGroups(groups));
      forall g | 0 <= g < |groups|
        ensures twice[g] == groups[g]
      {
        forall i | 0 <= i < |groups[g]|
          ensures twice[g][i] == groups[g][i]
        {
          SwapColumnEqualsCases(groups[g][i]);
        }
        assert twice[g] == groups[g];
      }
      assert twice == groups;
    }
  }

  // ---------------------------------------------------------------------
  // equals and hashCode

  /** equals: condition, foreign reference, join type, name and primary table agree; permanence and comment are not compared. */
  predicate JoinEquals(a: JoinState, b: JoinState)
  {
    a.condition == b.condition && a.foreignTableReference == b.foreignTableReference &&
    a.joinType == b.joinType && a.name == b.name && a.primaryTable == b.primaryTable
  }

  /** Two joins are equal exactly when they differ at most in permanence and comment. */
  lemma JoinEqualsIgnoresPermanentAndComment(a: JoinState, b: JoinState)
    ensures JoinEquals(a, b) <==> a.(permanent := b.permanent, comment := b.comment) == b
  {
  }

  /** The hash codes of the parts, which their own classes define. */
  datatype PartHashes = PartHashes(
    condition: AndCondition -> int,
    reference: TableReference -> int,
    name: string -> int,
    table: Table -> int)

  /** hashCode: 31 times the running result plus each compared part, null parts counting 0. */
  function HashCode(st: JoinState, h: PartHashes): (r: int)
    ensures -0x8000_0000 <= r < 0x8000_0000
  {
    var r1 := Int32(31 * 1 + (if st.condition.None? then 0 else h.condition(st.condition.value)));
    var r2 := Int32(31 * r1 + h.reference(st.foreignTableReference));
    var r3 := Int32(31 * r2 + st.joinType);
    var r4 := Int32(31 * r3 + (if st.name.None? then 0 else h.name(st.name.value)));
    Int32(31 * r4 + h.table(st.primaryTable))
  }

  /** equals and hashCode agree: equal joins hash alike, whatever their permanence and comment. */
  lemma EqualJoinsHashAlike(a: JoinState, b: JoinState, h: PartHashes)
    requires JoinEquals(a, b)
    ensures HashCode(a, h) == HashCode(b, h)
  {
  }

  // ---------------------------------------------------------------------
  // Serialisation

  /** (x & PERMANENT_MASK) != 0. */
  predicate HasPermanentBit(x: int)
  {
    (x / PERMANENT_MASK) % 2 == 1
  }

  /** joinType | (permanent ? PERMANENT_MASK : 0). */
  function PackJoinType(joinType: int, permanent: bool): int
  {
    if permanent && !HasPermanentBit(joinType) then joinType + PERMANENT_MASK else joinType
  }

  /** The join type (packed & ~PERMANENT_MASK) and the permanence read back from the packed value. */
  function UnpackJoinType(packed: int): (int, bool)
  {
    (if HasPermanentBit(packed) then packed - PERMANENT_MASK else packed, HasPermanentBit(packed))
  }

  /** The known join types leave the permanent bit free. */
  lemma JoinTypesLeavePermanentBitFree(joinType: int)
    requires INNER_JOIN <= joinType <= FULL_JOIN
    ensures !HasPermanentBit(joinType)
  {
  }

  /** Packing then unpacking gives back the join type and the permanence, for a join type without the permanent bit. */
  lemma PackRoundTrip(joinType: int, permanent: bool)
    requires !HasPermanentBit(joinType)
    ensures UnpackJoinType(PackJoinType(joinType, permanent)) == (joinType, permanent)
  {
    if permanent {
      var q := joinType / PERMANENT_MASK;
      DivMod(joinType, PERMANENT_MASK, q, joinType % PERMANENT_MASK);
      DivMod(joinType + PERMANENT_MASK, PERMANENT_MASK, q + 1, joinType % PERMANENT_MASK);
      DivMod(q, 2, q / 2, 0);
      DivMod(q + 1, 2, q / 2, 1);
    }
  }

  /** A join type that already has the permanent bit reads back as permanent and without the bit, even when the join was not permanent. */
  lemma PackLosesPermanentBit(joinType: int)
    requires !HasPermanentBit(joinType)
    ensures UnpackJoinType(PackJoinType(joinType + PERMANENT_MASK, false)) == (joinType, true)
  {
    var q := joinType / PERMANENT_MASK;
    DivMod(joinType, PERMANENT_MASK, q, joinType % PERMANENT_MASK);
    DivMod(joinType + PERMANENT_MASK, PERMANENT_MASK, q + 1, joinType % PERMANENT_MASK);
    DivMod(q, 2, q / 2, 0);
    DivMod(q + 1, 2, q / 2, 1);
  }

  /** The foreign member of the serialised form: a table in legacy data, a reference otherwise. */
  datatype ForeignMember = LegacyTable(table: Table) | Reference(reference: TableReference)

  /**
   * The member array of the serialised form: name, primary table, foreign
   * member, condition, packed join type and, when present, the comment
   * (older data has no comment member).
   */
  datatype Replaced = Replaced(
    name: Option<string>,
    primaryTable: Table,
    foreign: ForeignMember,
    condition: Option<AndCondition>,
    joinTypeAndPermanent: int,
    comment: Option<Option<string>>)

  /** writeReplace. */
  function Serialize(st: JoinState): Replaced
  {
    Replaced(st.name, st.primaryTable, Reference(st.foreignTableReference), st.condition,
      PackJoinType(st.joinType, st.permanent), Some(st.comment))
  }

  /** The deserialising constructor: legacy tables become table expressions and a missing comment is null. */
  function Restore(s: Replaced): JoinState
  {
    var (joinType, permanent) := UnpackJoinType(s.joinTypeAndPermanent);
    JoinState(
      s.name, s.primaryTable,
      match s.foreign
      case LegacyTable(t) => TableExpression(t)
      case Reference(r) => r,
      s.condition, joinType, permanent,
      if s.comment.None? then None else s.comment.value)
  }

  /** A join whose type leaves the permanent bit free is restored exactly from its serialised form. */
  lemma SerializeRoundTrip(st: JoinState)
    requires !HasPermanentBit(st.joinType)
    ensures Restore(Serialize(st)) == st
  {
    PackRoundTrip(st.joinType, st.permanent);
  }

  /** Legacy data without a comment member restores a join without comment, its table as a table expression. */
  lemma RestoreLegacy(s: Replaced)
    requires s.foreign.LegacyTable? && s.comment.None?
    ensures Restore(s).foreignTableReference == TableExpression(s.foreign.table)
    ensures Restore(s).comment.None?
  {
  }

  // ---------------------------------------------------------------------
  // The join object

  class Join {
    var name: Option<string>
    var primaryTable: Table
    var foreignTableReference: TableReference
    var condition: Option<AndCondition>
    var joinType: int
    const permanent: bool
    var comment: Option<string>

    function State(): JoinState
      reads this
    {
      JoinState(name, primaryTable, foreignTableReference, condition, joinType, permanent, comment)
    }

    /** The constructor: the condition must be accepted by getAndCondition (else it throws). */
    constructor(name: Option<string>, primaryTable: Table, foreignTableReference: TableReference,
                c: Condition, joinType: int, permanent: bool)
      requires GetAndCondition(c).Ok?
      ensures State() == JoinState(name, primaryTable, foreignTableReference,
        Some(GetAndCondition(c).value), joinType, permanent, None)
    {
      this.name := name;
      this.primaryTable := primaryTable;
      this.foreignTableReference := foreignTableReference;
      this.joinType := joinType;
      this.permanent := permanent;
      this.condition := Some(GetAndCondition(c).value);
      this.comment := None;
    }

    /** The deserialising constructor. */
    constructor FromReplaced(s: Replaced)
      ensures State() == Restore(s)
    {
      name := s.name;
      primaryTable := s.primaryTable;
      match s.foreign {
        case LegacyTable(t) => foreignTableReference := TableExpression(t);
        case Reference(r) => foreignTableReference := r;
      }
      condition := s.condition;
      joinType := s.joinTypeAndPermanent - (if HasPermanentBit(s.joinTypeAndPermanent) then PERMANENT_MASK else 0);
      permanent := HasPermanentBit(s.joinTypeAndPermanent);
      comment := if s.comment.Some? then s.comment.value else None;
    }

    /**
     * invert: the condition's groups are rewritten one subcondition at a
     * time. The condition is a value here, so the caller's AndCondition and
     * the clones that share it in Java are not changed with it.
     */
    method Invert(newName: Option<string>)
      requires foreignTableReference.TableExpression?
      modifies this`name, this`primaryTable, this`foreignTableReference, this`condition, this`joinType
      ensures State() == Inverted(old(State()), newName)
    {
      var tmp := primaryTable;
      primaryTable := foreignTableReference.table;
      foreignTableReference := TableExpression(tmp);

      if condition.Some? {
        var groups := InvertGroups(condition.value.groups);
        condition := Some(AndCondition(groups));
      }

      if joinType == LEFT_OUTER_JOIN {
        joinType := RIGHT_OUTER_JOIN;
      } else if joinType == RIGHT_OUTER_JOIN {
        joinType := LEFT_OUTER_JOIN;
      }
      name := newName;
    }

    /** The outer loop of invert, over the condition's groups. */
    static method InvertGroups(original: seq<seq<Condition>>) returns (groups: seq<seq<Condition>>)
      ensures groups == InvertedGroups(original)
    {
      groups := original;
      for g := 0 to |groups|
        invariant |groups| == |original|
        invariant forall k | 0 <= k < g :: groups[k] == InvertedGroup(original[k])
        invariant forall k | g <= k < |groups| :: groups[k] == original[k]
      {
        var conditions := InvertConditions(groups[g]);
        groups := groups[g := conditions];
      }
      assert groups == InvertedGroups(original);
    }

    /** The inner loop of invert over one group: each column equality is replaced by its swapped compare. */
    static method InvertConditions(group: seq<Condition>) returns (conditions: seq<Condition>)
      ensures conditions == InvertedGroup(group)
    {
      conditions := group;
      for i := 0 to |conditions|
        invariant |conditions| == |group|
        invariant forall k | 0 <= k < i :: conditions[k] == SwapColumnEquals(group[k])
        invariant forall k | i <= k < |conditions| :: conditions[k] == group[k]
      {
        var c := conditions[i];
        if c.Compare? {
          if RelationItem.Base(c.operator) == RelationItem.EQUALS && c.operand1.Column? && c.operand2.Column? {
            conditions := conditions[i := Compare(c.operator, c.operand2, c.operand1)];
          }
        }
      }
      assert conditions == InvertedGroup(group);
    }
  }
}
