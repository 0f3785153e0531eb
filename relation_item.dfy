// RelationItem: the operator of one relation item, a 32-bit code whose low
// byte is the base operator and whose higher bits are modifiers; swapping
// its sides, printing it and parsing it back. The ISQLCondition constants
// are not part of this model's sources; their values are stated below.
module RelationItem {
  import opened Wrappers
  import opened JavaLang

  /**
   * An operator code, a Java int. Its bits are read arithmetically: the
   * low byte (op & 0xFF) is op % 256, which for a Euclidean remainder is
   * the two's-complement low byte also of a negative op.
   */
  type Op = int

  const EQUALS: Op := 0
  const GT: Op := 1
  const LT: Op := 2
  const GTE: Op := 3
  const LTE: Op := 4
  const NOT: Op := 5
  const IN: Op := 6
  const LIKE: Op := 7
  const NOT_LIKE: Op := 8

  const OPERATOR_MASK: Op := 0xFF
  const CASE_INSENSITIVE: Op := 0x100
  const OR_NULL: Op := 0x200

  /** -1: no (valid) operator. */
  const INVALID: Op := -1

  const ALL_MODIFIERS: seq<Op> := [CASE_INSENSITIVE, OR_NULL]
  const MODIFIER_STRINGS: seq<string> := ["#", "^||"]
  const ALL_DEFINED_OPERATORS: seq<Op> := [EQUALS, GT, LT, GTE, LTE, NOT, IN, LIKE, NOT_LIKE]
  const OPERATOR_STRINGS: seq<string> := ["=", ">", "<", ">=", "<=", "!=", "in", "like", "not like"]

  /** The operators a relation accepts, modifiers included (a base operator plus modifier bits). */
  const RELATION_OPERATORS: seq<Op> := [
    EQUALS, GT, LT, GTE, LTE, NOT, IN, LIKE, NOT_LIKE,
    EQUALS + CASE_INSENSITIVE, NOT + CASE_INSENSITIVE, LIKE + CASE_INSENSITIVE, NOT_LIKE + CASE_INSENSITIVE,
    EQUALS + OR_NULL, GT + OR_NULL, LT + OR_NULL, GTE + OR_NULL, LTE + OR_NULL, NOT + OR_NULL, IN + OR_NULL,
    LIKE + OR_NULL, NOT_LIKE + OR_NULL,
    EQUALS + CASE_INSENSITIVE + OR_NULL, NOT + CASE_INSENSITIVE + OR_NULL]

  /** op & OPERATOR_MASK: the base operator. */
  function Base(op: Op): Op { op % 256 }

  /** op & ~OPERATOR_MASK: the modifier bits. */
  function Modifiers(op: Op): Op { op - op % 256 }

  /** op & m != 0 for a one-bit modifier m. */
  predicate HasModifier(op: Op, m: Op)
    requires m in ALL_MODIFIERS
  {
    (op / m) % 2 == 1
  }

  /** op | m for a one-bit modifier m. */
  function WithModifier(op: Op, m: Op): Op
    requires m in ALL_MODIFIERS
  {
    if HasModifier(op, m) then op else op + m
  }

  /** op & ~m for a one-bit modifier m. */
  function WithoutModifier(op: Op, m: Op): Op
    requires m in ALL_MODIFIERS
  {
    if HasModifier(op, m) then op - m else op
  }

  // ---------------------------------------------------------------------
  // swapOperator

  /** The base operator with its sides exchanged, for the operators that have one. */
  function SwappedBase(base: Op): Option<Op>
  {
    if base == GT then Some(LT)
    else if base == LT then Some(GT)
    else if base == GTE then Some(LTE)
    else if base == LTE then Some(GTE)
    else if base == NOT || base == EQUALS || base == LIKE || base == NOT_LIKE then Some(base)
    else None
  }

  /** swapOperator: the swapped base operator with the modifiers left in place, or -1. */
  function SwapOperator(op: Op): Op
  {
    match SwappedBase(Base(op))
    case None => INVALID
    case Some(swapped) => swapped + Modifiers(op)
  }

  /** A base operator below 256 with the modifier bits of op added has them as its modifiers. */
  lemma BaseOfSum(b: Op, op: Op)
    requires 0 <= b < 256
    ensures Base(b + Modifiers(op)) == b && Modifiers(b + Modifiers(op)) == Modifiers(op)
  {
    var q := op / 256;
    assert Modifiers(op) == q * 256;
    DivMod(b + Modifiers(op), 256, q, b);
  }

  /**
   * GT and LT trade places, GTE and LTE trade places, EQUALS, NOT, LIKE and
   * NOT_LIKE stay, and the modifier bits are kept.
   */
  lemma SwapOperatorCases(op: Op)
    ensures Base(op) == GT ==> SwapOperator(op) == LT + Modifiers(op)
    ensures Base(op) == LT ==> SwapOperator(op) == GT + Modifiers(op)
    ensures Base(op) == GTE ==> SwapOperator(op) == LTE + Modifiers(op)
    ensures Base(op) == LTE ==> SwapOperator(op) == GTE + Modifiers(op)
    ensures Base(op) in {EQUALS, NOT, LIKE, NOT_LIKE} ==> SwapOperator(op) == op
    ensures SwapOperator(op) != INVALID ==> Modifiers(SwapOperator(op)) == Modifiers(op)
  {
    if SwappedBase(Base(op)).Some? {
      BaseOfSum(SwappedBase(Base(op)).value, op);
    }
  }

  /** Every other base operator, IN among them, gives -1. */
  lemma SwapOperatorUnsupported(op: Op)
    ensures SwapOperator(op) == INVALID <==> Base(op) !in {EQUALS, GT, LT, GTE, LTE, NOT, LIKE, NOT_LIKE}
  {
    if SwappedBase(Base(op)).Some? {
      BaseOfSum(SwappedBase(Base(op)).value, op);
      assert Base(INVALID) == 255;
    }
  }

  /** On the operators it supports, swapping is an involution. */
  lemma SwapOperatorInvolution(op: Op)
    requires SwapOperator(op) != INVALID
    ensures SwapOperator(SwapOperator(op)) == op
  {
    var sb := SwappedBase(Base(op)).value;
    BaseOfSum(sb, op);
    var s := SwapOperator(op);
    assert Base(s) == sb && Modifiers(s) == Modifiers(op);
    BaseOfSum(SwappedBase(sb).value, s);
  }

  // ---------------------------------------------------------------------
  // Modifier bits

  /** The modifier parts made of known modifiers only: none, either or both. */
  const KNOWN_MODIFIERS: set<Op> := {0, CASE_INSENSITIVE, OR_NULL, CASE_INSENSITIVE + OR_NULL}

  /** The bits of a base operator plus known modifiers, read back one by one. */
  lemma ModifierBits(b: Op, mods: Op)
    requires 0 <= b < 256 && mods in KNOWN_MODIFIERS
    ensures Base(b + mods) == b && Modifiers(b + mods) == mods
    ensures HasModifier(b + mods, CASE_INSENSITIVE) <==> mods in {CASE_INSENSITIVE, CASE_INSENSITIVE + OR_NULL}
    ensures HasModifier(b + mods, OR_NULL) <==> mods in {OR_NULL, CASE_INSENSITIVE + OR_NULL}
  {
    var n := b + mods;
    DivMod(n, 256, mods / 256, b);
    DivMod(n / 256, 2, if mods in {CASE_INSENSITIVE, CASE_INSENSITIVE + OR_NULL} then mods / 512 else mods / 256 / 2,
      if mods in {CASE_INSENSITIVE, CASE_INSENSITIVE + OR_NULL} then 1 else 0);
    DivMod(n, 512, mods / 512, n - mods / 512 * 512);
    DivMod(mods / 512, 2, 0, mods / 512);
  }

  /** Adding a known modifier to known modifiers stays known. */
  lemma WithModifierKnown(mods: Op, m: Op)
    requires mods in KNOWN_MODIFIERS && m in ALL_MODIFIERS
    ensures WithModifier(mods, m) in KNOWN_MODIFIERS
    ensures WithModifier(mods, m) == mods + (if HasModifier(mods, m) then 0 else m)
  {
    if mods == 0 {
    } else if mods == CASE_INSENSITIVE {
    } else if mods == OR_NULL {
    } else {
    }
  }

  /** The modifier strings getOperatorAsString prints for known modifiers. */
  function PrefixOf(mods: Op): string
    requires mods in KNOWN_MODIFIERS
  {
    if mods == 0 then ""
    else if mods == CASE_INSENSITIVE then "#"
    else if mods == OR_NULL then "^||"
    else "#^||"
  }

  // ---------------------------------------------------------------------
  // getOperatorAsString

  /** The strings of the modifiers set in op, from the i-th on, in table order. */
  function ModifierPrefix(op: Op, i: nat): string
    requires i <= |ALL_MODIFIERS|
    decreases |ALL_MODIFIERS| - i
  {
    if i == |ALL_MODIFIERS| then ""
    else (if HasModifier(op, ALL_MODIFIERS[i]) then MODIFIER_STRINGS[i] else "") + ModifierPrefix(op, i + 1)
  }

  /**
   * getOperatorAsString: the operator's string when there are no
   * modifiers, else the modifiers' strings and then the base operator's.
   * An operator beyond the table is an ArrayIndexOutOfBoundsException
   * (None).
   */
  function OperatorAsString(op: Op): Option<string>
  {
    if Base(op) == op then
      if op < |OPERATOR_STRINGS| then Some(OPERATOR_STRINGS[op]) else None
    else if Base(op) < |OPERATOR_STRINGS| then Some(ModifierPrefix(op, 0) + OPERATOR_STRINGS[Base(op)])
    else None
  }

  /** Without modifiers the text is the operator's own string. */
  lemma OperatorAsStringPlain(op: Op)
    requires 0 <= op < |OPERATOR_STRINGS|
    ensures OperatorAsString(op) == Some(OPERATOR_STRINGS[op])
  {
    DivMod(op, 256, 0, op);
    assert Base(op) == op;
  }

  // ---------------------------------------------------------------------
  // parseOperatorString

  /** The first modifier, from the m-th on, whose string starts s; the table size when none does. */
  function FirstModifierPrefix(s: string, m: nat): (r: nat)
    requires m <= |MODIFIER_STRINGS|
    ensures m <= r <= |MODIFIER_STRINGS|
    ensures r < |MODIFIER_STRINGS| ==> StartsWith(s, MODIFIER_STRINGS[r])
    decreases |MODIFIER_STRINGS| - m
  {
    if m == |MODIFIER_STRINGS| then m
    else if StartsWith(s, MODIFIER_STRINGS[m]) then m
    else FirstModifierPrefix(s, m + 1)
  }

  /** Strips modifier strings off the front, one at a time, collecting their bits. */
  function StripModifiers(s: string, mod: Op): (string, Op)
    decreases |s|
  {
    var m := FirstModifierPrefix(s, 0);
    if m < |MODIFIER_STRINGS| then StripModifiers(s[|MODIFIER_STRINGS[m]|..], WithModifier(mod, ALL_MODIFIERS[m]))
    else (s, mod)
  }

  /** Stripping from known modifiers collects known modifiers only. */
  lemma {:induction false} StripModifiersKnown(s: string, mod: Op)
    requires mod in KNOWN_MODIFIERS
    ensures StripModifiers(s, mod).1 in KNOWN_MODIFIERS
    decreases |s|
  {
    var m := FirstModifierPrefix(s, 0);
    if m < |MODIFIER_STRINGS| {
      WithModifierKnown(mod, ALL_MODIFIERS[m]);
      StripModifiersKnown(s[|MODIFIER_STRINGS[m]|..], WithModifier(mod, ALL_MODIFIERS[m]));
    }
  }

  /** The operator strings are ASCII text. */
  lemma OperatorStringsAscii()
    ensures forall i | 0 <= i < |OPERATOR_STRINGS| :: IsAscii(OPERATOR_STRINGS[i])
  {
  }

  /** The first operator, from the i-th on, whose string equals s ignoring case; the table size when none does. */
  function FirstOperatorMatch(s: string, i: nat): (r: nat)
    requires i <= |OPERATOR_STRINGS|
    ensures i <= r <= |OPERATOR_STRINGS|
    ensures r < |OPERATOR_STRINGS| ==> IsAscii(OPERATOR_STRINGS[r]) && EqualsIgnoreCaseAscii(OPERATOR_STRINGS[r], s)
    decreases |OPERATOR_STRINGS| - i
  {
    OperatorStringsAscii();
    if i == |OPERATOR_STRINGS| then i
    else if EqualsIgnoreCaseAscii(OPERATOR_STRINGS[i], s) then i
    else FirstOperatorMatch(s, i + 1)
  }

  /**
   * What parseOperatorString computes: modifiers stripped, then the
   * operator looked up; -1 for null or unknown. The collected modifiers
   * have no bit in the low byte, so `ALL_DEFINED_OPERATORS[i] | mod` is a sum.
   */
  function ParseOperator(operatorString: Option<string>): Op
  {
    match operatorString
    case None => INVALID
    case Some(s) =>
      var (rest, mod) := StripModifiers(s, 0);
      var i := FirstOperatorMatch(rest, 0);
      if i < |OPERATOR_STRINGS| then ALL_DEFINED_OPERATORS[i] + mod else INVALID
  }

  /** A parsed operator is -1 or a defined base operator with known modifiers. */
  lemma ParseOperatorWellFormed(operatorString: Option<string>)
    ensures var op := ParseOperator(operatorString);
      op == INVALID || (Base(op) < |OPERATOR_STRINGS| && Modifiers(op) in KNOWN_MODIFIERS)
  {
    if operatorString.Some? {
      var (rest, mod) := StripModifiers(operatorString.value, 0);
      StripModifiersKnown(operatorString.value, 0);
      var i := FirstOperatorMatch(rest, 0);
      if i < |OPERATOR_STRINGS| {
        ModifierBits(ALL_DEFINED_OPERATORS[i], mod);
      }
    }
  }

  /** parseOperatorString, with its two loops. */
  method ParseOperatorString(operatorString: Option<string>) returns (r: Op)
    ensures r == ParseOperator(operatorString)
  {
    if operatorString.None? {
      return INVALID;
    }
    var opString := operatorString.value;
    var mod: Op := 0;
    var foundModifiers := true;
    while foundModifiers
      invariant StripModifiers(opString, mod) == StripModifiers(operatorString.value, 0)
      invariant !foundModifiers ==> FirstModifierPrefix(opString, 0) == |MODIFIER_STRINGS|
      decreases |opString| + (if foundModifiers then 1 else 0)
    {
      foundModifiers := false;
      ghost var before := opString;
      var m := 0;
      while m < |ALL_MODIFIERS|
        invariant 0 <= m <= |ALL_MODIFIERS|
        invariant !foundModifiers && opString == before
        invariant FirstModifierPrefix(before, 0) == FirstModifierPrefix(before, m)
      {
        if StartsWith(opString, MODIFIER_STRINGS[m]) {
          foundModifiers := true;
          opString := opString[|MODIFIER_STRINGS[m]|..];
          mod := WithModifier(mod, ALL_MODIFIERS[m]);
          break;
        }
        m := m + 1;
      }
    }
    var i := FindOperator(opString);
    if i < |OPERATOR_STRINGS| {
      return ALL_DEFINED_OPERATORS[i] + mod;
    }
    return INVALID;
  }

  /** The second loop of parseOperatorString: the first operator string equal to s ignoring case. */
  method FindOperator(s: string) returns (i: nat)
    ensures i == FirstOperatorMatch(s, 0)
  {
    OperatorStringsAscii();
    i := 0;
    while i < |OPERATOR_STRINGS|
      invariant 0 <= i <= |OPERATOR_STRINGS|
      invariant FirstOperatorMatch(s, 0) == FirstOperatorMatch(s, i)
    {
      if EqualsIgnoreCaseAscii(OPERATOR_STRINGS[i], s) {
        return;
      }
      i := i + 1;
    }
  }

  /** A modifier string in front is stripped and its bit collected. */
  lemma StripModifierString(m: nat, rest: string, mod: Op)
    requires m < |MODIFIER_STRINGS|
    ensures StripModifiers(MODIFIER_STRINGS[m] + rest, mod) == StripModifiers(rest, WithModifier(mod, ALL_MODIFIERS[m]))
  {
    var s := MODIFIER_STRINGS[m] + rest;
    assert s[..|MODIFIER_STRINGS[m]|] == MODIFIER_STRINGS[m];
    assert s[|MODIFIER_STRINGS[m]|..] == rest;
    if m == 1 {
      assert s[0] == '^';
      assert !StartsWith(s, MODIFIER_STRINGS[0]);
    }
  }

  /** No operator string starts with a modifier string. */
  lemma OperatorStringsHaveNoModifierPrefix(k: nat, mod: Op)
    requires k < |OPERATOR_STRINGS|
    ensures StripModifiers(OPERATOR_STRINGS[k], mod) == (OPERATOR_STRINGS[k], mod)
  {
    var s := OPERATOR_STRINGS[k];
    assert s[0] != '#' && s[0] != '^';
    assert !StartsWith(s, MODIFIER_STRINGS[0]);
    if |s| >= 3 {
      assert s[..3][0] == s[0];
    }
    assert !StartsWith(s, MODIFIER_STRINGS[1]);
  }

  /** The operator strings differ even ignoring case, so each is found at its own index. */
  lemma OperatorStringFound(k: nat)
    requires k < |OPERATOR_STRINGS|
    ensures FirstOperatorMatch(OPERATOR_STRINGS[k], 0) == k
  {
    var s := OPERATOR_STRINGS[k];
    forall j | 0 <= j < k
      ensures !EqualsIgnoreCaseAscii(OPERATOR_STRINGS[j], s)
    {
      OperatorStringsDistinct(j, k);
    }
    FirstOperatorMatchSkips(s, 0, k);
  }

  /** Two different operator strings differ in length or in the case-folded first character. */
  lemma OperatorStringsDistinct(j: nat, k: nat)
    requires j < k < |OPERATOR_STRINGS|
    ensures !EqualsIgnoreCaseAscii(OPERATOR_STRINGS[j], OPERATOR_STRINGS[k])
  {
    var t, s := OPERATOR_STRINGS[j], OPERATOR_STRINGS[k];
    if |t| == |s| {
      assert FoldToAscii(t[0]) != FoldToAscii(s[0]);
    }
  }

  lemma {:induction false} FirstOperatorMatchSkips(s: string, i: nat, k: nat)
    requires i <= k < |OPERATOR_STRINGS| && EqualsIgnoreCaseAscii(OPERATOR_STRINGS[k], s)
    requires forall j | i <= j < k :: !EqualsIgnoreCaseAscii(OPERATOR_STRINGS[j], s)
    ensures FirstOperatorMatch(s, i) == k
    decreases k - i
  {
    if i < k {
      FirstOperatorMatchSkips(s, i + 1, k);
    }
  }

  /** getOperatorAsString prints the known modifiers of a base operator as PrefixOf says. */
  lemma ModifierPrefixOf(b: Op, mods: Op)
    requires 0 <= b < 256 && mods in KNOWN_MODIFIERS
    ensures ModifierPrefix(b + mods, 0) == PrefixOf(mods)
  {
    ModifierBits(b, mods);
    assert ModifierPrefix(b + mods, 2) == "";
  }

  /** The modifier strings of PrefixOf are stripped again, giving back their bits. */
  lemma {:induction false} StripPrefixOf(mods: Op, rest: string)
    requires mods in KNOWN_MODIFIERS
    requires |rest| > 0 && rest[0] != '#' && rest[0] != '^'
    ensures StripModifiers(PrefixOf(mods) + rest, 0) == (rest, mods)
  {
    NoModifierPrefix(rest, mods);
    if mods == CASE_INSENSITIVE {
      assert PrefixOf(mods) + rest == MODIFIER_STRINGS[0] + rest;
      StripModifierString(0, rest, 0);
      assert WithModifier(0, CASE_INSENSITIVE) == mods;
    } else if mods == OR_NULL {
      assert PrefixOf(mods) + rest == MODIFIER_STRINGS[1] + rest;
      StripModifierString(1, rest, 0);
      assert WithModifier(0, OR_NULL) == mods;
    } else if mods == CASE_INSENSITIVE + OR_NULL {
      assert PrefixOf(mods) + rest == MODIFIER_STRINGS[0] + (MODIFIER_STRINGS[1] + rest);
      StripModifierString(0, MODIFIER_STRINGS[1] + rest, 0);
      assert WithModifier(0, CASE_INSENSITIVE) == CASE_INSENSITIVE;
      StripModifierString(1, rest, CASE_INSENSITIVE);
      assert WithModifier(CASE_INSENSITIVE, OR_NULL) == mods;
    } else {
      assert PrefixOf(mods) + rest == rest;
    }
  }

  /** parseOperatorString reads back every defined operator with known modifiers that getOperatorAsString prints. */
  lemma ParseOperatorAsString(b: Op, mods: Op)
    requires 0 <= b < |OPERATOR_STRINGS| && mods in KNOWN_MODIFIERS
    ensures OperatorAsString(b + mods) == Some(PrefixOf(mods) + OPERATOR_STRINGS[b])
    ensures ParseOperator(OperatorAsString(b + mods)) == b + mods
  {
    ModifierBits(b, mods);
    ModifierPrefixOf(b, mods);
    if mods == 0 {
      assert PrefixOf(mods) + OPERATOR_STRINGS[b] == OPERATOR_STRINGS[b];
    }
    var opStr := OPERATOR_STRINGS[b];
    assert opStr[0] != '#' && opStr[0] != '^';
    StripPrefixOf(mods, opStr);
    OperatorStringFound(b);
    assert ALL_DEFINED_OPERATORS[b] == b;
  }

  /** Null and a text that names no operator give -1. */
  lemma ParseOperatorInvalidExamples()
    ensures ParseOperator(None) == INVALID
    ensures ParseOperator(Some("between")) == INVALID
  {
    NoModifierPrefix("between", 0);
    NoOperatorMatch("between");
  }

  /**
   * The operator is matched ignoring case: every text equal to an operator
   * string up to case, behind the modifier strings of any known modifiers,
   * parses to that operator with those modifiers.
   */
  lemma {:induction false} ParseOperatorIgnoresCase(b: nat, mods: Op, s: string)
    requires b < |OPERATOR_STRINGS| && mods in KNOWN_MODIFIERS
    requires IsAscii(OPERATOR_STRINGS[b]) && EqualsIgnoreCaseAscii(OPERATOR_STRINGS[b], s)
    ensures ParseOperator(Some(PrefixOf(mods) + s)) == b + mods
  {
    var op := OPERATOR_STRINGS[b];
    assert op[0] != '#' && op[0] != '^' && FoldToAscii(op[0]) == op[0];
    assert FoldToAscii(s[0]) == op[0];
    StripPrefixOf(mods, s);
    forall j | 0 <= j < b
      ensures !EqualsIgnoreCaseAscii(OPERATOR_STRINGS[j], s)
    {
      OperatorStringsDistinct(j, b);
    }
    FirstOperatorMatchSkips(s, 0, b);
    assert ALL_DEFINED_OPERATORS[b] == b;
  }

  /** "LIKE" is LIKE. */
  lemma ParseOperatorUpperCase()
    ensures ParseOperator(Some("LIKE")) == LIKE
  {
    LikeIgnoringCase("LIKE");
    ParseOperatorIgnoresCase(7, 0, "LIKE");
    assert PrefixOf(0) + "LIKE" == "LIKE";
  }

  /** "#lIkE" is LIKE with the case-insensitive modifier. */
  lemma ParseOperatorMixedCase()
    ensures ParseOperator(Some("#lIkE")) == LIKE + CASE_INSENSITIVE
  {
    LikeIgnoringCase("lIkE");
    ParseOperatorIgnoresCase(7, CASE_INSENSITIVE, "lIkE");
    assert PrefixOf(CASE_INSENSITIVE) + "lIkE" == "#lIkE";
  }

  lemma LikeIgnoringCase(s: string)
    requires |s| == 4 && s[0] in "lL" && s[1] in "iI" && s[2] in "kK" && s[3] in "eE"
    ensures IsAscii(OPERATOR_STRINGS[7]) && EqualsIgnoreCaseAscii(OPERATOR_STRINGS[7], s)
  {
    assert OPERATOR_STRINGS[7] == "like";
  }

  /**
   * Java's per-character case comparison also accepts characters outside
   * ASCII whose case mapping reaches the operator's letters: a dotless i
   * (upper case I) in "like", a dotted capital I (lower case i) in "IN".
   */
  lemma ParseOperatorFoldsBeyondAscii()
    ensures ParseOperator(Some("l\U{131}ke")) == LIKE
    ensures ParseOperator(Some("\U{130}N")) == IN
  {
    DotlessLike();
    DottedIn();
  }

  lemma DotlessLike()
    ensures FirstOperatorMatch("l\U{131}ke", 0) == LIKE
    ensures StripModifiers("l\U{131}ke", 0) == ("l\U{131}ke", 0)
  {
    NoModifierPrefix("l\U{131}ke", 0);
    FirstOperatorMatchSkips("l\U{131}ke", 0, 7);
  }

  lemma DottedIn()
    ensures FirstOperatorMatch("\U{130}N", 0) == IN
    ensures StripModifiers("\U{130}N", 0) == ("\U{130}N", 0)
  {
    NoModifierPrefix("\U{130}N", 0);
    FirstOperatorMatchSkips("\U{130}N", 0, 6);
  }

  /** Both modifiers are stripped in front of an operator matched ignoring case. */
  lemma ParseOperatorBothModifiers()
    ensures ParseOperator(Some("#^||Like")) == LIKE + CASE_INSENSITIVE + OR_NULL
  {
    StripPrefixOf(CASE_INSENSITIVE + OR_NULL, "Like");
    assert PrefixOf(CASE_INSENSITIVE + OR_NULL) + "Like" == "#^||Like";
    FirstOperatorMatchSkips("Like", 0, 7);
  }

  lemma NoModifierPrefix(s: string, mod: Op)
    requires |s| > 0 && s[0] != '#' && s[0] != '^'
    ensures StripModifiers(s, mod) == (s, mod)
  {
    assert !StartsWith(s, MODIFIER_STRINGS[0]);
    if |s| >= 3 {
      assert s[..3][0] == s[0];
    }
  }

  lemma NoOperatorMatch(s: string)
    requires forall j | 0 <= j < |OPERATOR_STRINGS| :: !EqualsIgnoreCaseAscii(OPERATOR_STRINGS[j], s)
    ensures FirstOperatorMatch(s, 0) == |OPERATOR_STRINGS|
  {
  }

  // ---------------------------------------------------------------------
  // getValidOperator

  /** mod with every bit of the given one-bit masks cleared, one mask after the other. */
  function ClearBits(mod: Op, masks: seq<Op>): Op
    requires forall x | x in masks :: x in ALL_MODIFIERS
    decreases |masks|
  {
    if masks == [] then mod else WithoutModifier(ClearBits(mod, masks[..|masks| - 1]), masks[|masks| - 1])
  }

  /**
   * What getValidOperator computes. Without modifiers the parsed operator
   * must be one of the list, modifiers included; with them, its modifier
   * bits must all be known ones and its base operator one of the list. The
   * contents of the modifiers list are not consulted, only whether it is
   * there.
   */
  function ValidOperator(str: Option<string>, operators: seq<Op>, modifiers: Option<seq<Op>>): Op
  {
    var operator := ParseOperator(str);
    if operator == INVALID then INVALID
    else if modifiers.None? then (if operator in operators then operator else INVALID)
    else if ClearBits(Modifiers(operator), ALL_MODIFIERS) != 0 then INVALID
    else if Base(operator) in operators then operator
    else INVALID
  }

  /** getValidOperator, with its loops. */
  method GetValidOperator(str: Option<string>, operators: seq<Op>, modifiers: Option<seq<Op>>) returns (r: Op)
    ensures r == ValidOperator(str, operators, modifiers)
  {
    var operator := ParseOperatorString(str);
    if operator == INVALID {
      return INVALID;
    }
    if modifiers.None? {
      r := FindIn(operators, operator, operator);
      return;
    }
    var mod := Modifiers(operator);
    for x := 0 to |ALL_MODIFIERS|
      invariant mod == ClearBits(Modifiers(operator), ALL_MODIFIERS[..x])
    {
      assert ALL_MODIFIERS[..x + 1][..x] == ALL_MODIFIERS[..x];
      mod := WithoutModifier(mod, ALL_MODIFIERS[x]);
    }
    assert ALL_MODIFIERS[..|ALL_MODIFIERS|] == ALL_MODIFIERS;
    if mod != 0 {
      return INVALID;
    }
    r := FindIn(operators, Base(operator), operator);
  }

  /** The loop over the allowed operators: the answer when the key is among them, else -1. */
  method FindIn(operators: seq<Op>, key: Op, answer: Op) returns (r: Op)
    ensures r == if key in operators then answer else INVALID
  {
    for k := 0 to |operators|
      invariant key !in operators[..k]
    {
      if operators[k] == key {
        return answer;
      }
      assert operators[..k + 1] == operators[..k] + [operators[k]];
    }
    assert operators[..|operators|] == operators;
    return INVALID;
  }

  /** Without modifiers, a result other than -1 is the parsed operator and one of the list, and every such operator is accepted. */
  lemma ValidOperatorExact(str: Option<string>, operators: seq<Op>)
    ensures var r := ValidOperator(str, operators, None);
      r != INVALID ==> r == ParseOperator(str) && r in operators
    ensures ParseOperator(str) != INVALID && ParseOperator(str) in operators ==> ValidOperator(str, operators, None) == ParseOperator(str)
  {
  }

  lemma ClearKnownModifiers(mods: Op)
    requires mods in KNOWN_MODIFIERS
    ensures ClearBits(mods, ALL_MODIFIERS) == 0
  {
    assert ALL_MODIFIERS[..1][..0] == [];
    assert ClearBits(mods, ALL_MODIFIERS[..1]) == WithoutModifier(mods, CASE_INSENSITIVE);
    assert ALL_MODIFIERS[..2][..1] == ALL_MODIFIERS[..1];
    assert ALL_MODIFIERS[..2] == ALL_MODIFIERS;
    assert ClearBits(mods, ALL_MODIFIERS) == WithoutModifier(WithoutModifier(mods, CASE_INSENSITIVE), OR_NULL);
    if mods == 0 {
    } else if mods == CASE_INSENSITIVE {
    } else if mods == OR_NULL {
    } else {
    }
  }

  /**
   * With modifiers, every parsed operator has only known modifier bits, so
   * it is accepted exactly when its base operator is one of the list.
   */
  lemma ValidOperatorSeparate(str: Option<string>, operators: seq<Op>, modifiers: seq<Op>)
    ensures var op := ParseOperator(str);
      ValidOperator(str, operators, Some(modifiers)) == if op != INVALID && Base(op) in operators then op else INVALID
  {
    var op := ParseOperator(str);
    ParseOperatorWellFormed(str);
    if op != INVALID {
      ClearKnownModifiers(Modifiers(op));
    }
  }

  /** checkIfValidOperator: the text names one of the relation operators. */
  predicate CheckIfValidOperator(op: Option<string>)
  {
    ValidOperator(op, RELATION_OPERATORS, None) != INVALID
  }

  /** Case-insensitive equals is a relation operator. */
  lemma CheckIfValidOperatorAcceptsEquals()
    ensures CheckIfValidOperator(Some("#="))
  {
    ParseEqualsCaseInsensitive();
    assert ParseOperator(Some("#=")) == RELATION_OPERATORS[9];
  }

  /** "#=" parses as case-insensitive equals. */
  lemma ParseEqualsCaseInsensitive()
    ensures ParseOperator(Some("#=")) == EQUALS + CASE_INSENSITIVE
  {
    ParseOperatorAsString(EQUALS, CASE_INSENSITIVE);
    assert PrefixOf(CASE_INSENSITIVE) + OPERATOR_STRINGS[EQUALS] == "#=";
  }

  /** Case-insensitive greater-than is not a relation operator. */
  lemma CheckIfValidOperatorRejectsGreater()
    ensures !CheckIfValidOperator(Some("#>"))
  {
    ParseGreaterCaseInsensitive();
    assert 0x101 !in RELATION_OPERATORS;
  }

  /** "#>" parses as case-insensitive greater-than. */
  lemma ParseGreaterCaseInsensitive()
    ensures ParseOperator(Some("#>")) == GT + CASE_INSENSITIVE
  {
    ParseOperatorAsString(GT, CASE_INSENSITIVE);
    assert PrefixOf(CASE_INSENSITIVE) + OPERATOR_STRINGS[GT] == "#>";
  }
}
