// ColumnInfo: the repository's extra information about a table column.
// It holds the auto-enter settings, normalised text properties and a flag
// word, and tracks whether it is stored and changed.
module ColumnInfo {
  import opened Wrappers
  import opened JavaLang

  // ---------------------------------------------------------------------
  // Constants

  /** auto_enter_type values. */
  const NO_AUTO_ENTER := 0
  const SYSTEM_VALUE_AUTO_ENTER := 1
  const SEQUENCE_AUTO_ENTER := 2
  const CUSTOM_VALUE_AUTO_ENTER := 3
  const CALCULATION_VALUE_AUTO_ENTER := 4
  const LOOKUP_VALUE_AUTO_ENTER := 5

  /** auto_enter_sub_type values for system values. */
  const NO_SYSTEM_VALUE := 0
  const DATABASE_MANAGED := 5

  /** auto_enter_sub_type values for sequences. */
  const NO_SEQUENCE_SELECTED := -1
  const SERVOY_SEQUENCE := 0
  const DATABASE_SEQUENCE := 1
  const DATABASE_IDENTITY := 2
  const UUID_GENERATOR := 3

  /** The longest database sequence name that is kept. */
  const MAX_SEQUENCE_NAME_LENGTH := 50

  // ---------------------------------------------------------------------
  // Text normalisation

  /** getNonEmptyValue: null and blank texts become null; every other text is kept as it is. */
  function NonEmptyValue(s: Option<string>): (r: Option<string>)
    ensures r.None? || r == s
  {
    if s.None? || |Trim(s.value)| == 0 then None else s
  }

  /** Exactly the null and the blank texts are dropped. */
  lemma NonEmptyValueDropsBlank(s: Option<string>)
    ensures NonEmptyValue(s).None? <==> s.None? || IsBlank(s.value)
    ensures NonEmptyValue(NonEmptyValue(s)) == NonEmptyValue(s)
  {
    if s.Some? {
      TrimBlank(s.value);
    }
  }

  /** setDatabaseSequenceName: trimmed, blank becomes null, and longer names are cut to 50 characters. */
  function SequenceName(s: Option<string>): Option<string>
  {
    if s.None? then None
    else
      var t := Trim(s.value);
      if |t| == 0 then None
      else if |t| > MAX_SEQUENCE_NAME_LENGTH then Some(t[..MAX_SEQUENCE_NAME_LENGTH])
      else Some(t)
  }

  /**
   * A stored name is a non-empty prefix of the trimmed text, at most 50
   * characters long and without leading blanks; null and blank texts
   * store null, and a trimmed text of 50 characters or fewer is stored whole.
   */
  lemma SequenceNameNormalises(s: Option<string>)
    ensures SequenceName(s).None? <==> s.None? || IsBlank(s.value)
    ensures SequenceName(s).Some? ==>
      var r := SequenceName(s).value;
      0 < |r| <= MAX_SEQUENCE_NAME_LENGTH && r == Trim(s.value)[..|r|] && !IsTrimmed(r[0])
    ensures s.Some? && |Trim(s.value)| <= MAX_SEQUENCE_NAME_LENGTH ==> SequenceName(s) == NonEmptyValue(Some(Trim(s.value)))
  {
    if s.Some? {
      TrimBlank(s.value);
      TrimEnds(s.value);
      TrimEnds(Trim(s.value));
      var t := Trim(s.value);
      if |t| > 0 {
        assert Trim(t) == t by {
          TrimNoop(t);
        }
      }
    }
  }

  /** A name that is already stored is stored again unchanged when it does not end in blanks. */
  lemma SequenceNameStable(s: Option<string>)
    requires SequenceName(s).Some?
    requires !IsTrimmed(SequenceName(s).value[|SequenceName(s).value| - 1])
    ensures SequenceName(SequenceName(s)) == SequenceName(s)
  {
    var r := SequenceName(s).value;
    SequenceNameNormalises(s);
    TrimNoop(r);
  }

  // ---------------------------------------------------------------------
  // Flags

  /** hasFlag: the flag word and the flag share a bit. */
  predicate HasFlag(flags: bv32, flag: bv32)
  {
    flags & flag != 0
  }

  /** setFlag: the bits of the flag set (getFlags() | flag) or cleared (getFlags() & ~flag). */
  function FlagsAfter(flags: bv32, flag: bv32, on: bool): bv32
  {
    if on then flags | flag else flags & !flag
  }

  /** After setting, the word has every bit of the flag; after clearing, none of them; other bits stay. */
  lemma FlagsAfterSetsOrClears(flags: bv32, flag: bv32, on: bool)
    ensures on ==> FlagsAfter(flags, flag, on) & flag == flag
    ensures !on ==> FlagsAfter(flags, flag, on) & flag == 0
    ensures FlagsAfter(flags, flag, on) & !flag == flags & !flag
  {
  }

  /** The flag is then reported as set exactly when it was set and has a bit. */
  lemma HasFlagAfter(flags: bv32, flag: bv32, on: bool)
    ensures HasFlag(FlagsAfter(flags, flag, on), flag) <==> on && flag != 0
  {
    FlagsAfterSetsOrClears(flags, flag, on);
  }

  /** A flag sharing no bit with the one set or cleared is reported as before. */
  lemma HasOtherFlagAfter(flags: bv32, flag: bv32, on: bool, other: bv32)
    requires other & flag == 0
    ensures HasFlag(FlagsAfter(flags, flag, on), other) <==> HasFlag(flags, other)
  {
  }

  // ---------------------------------------------------------------------
  // Auto-enter settings

  /** An auto-enter setting: type, sub type and, for database sequences, the sequence name. */
  datatype AutoEnter = AutoEnter(autoEnterType: int, autoEnterSubType: int, databaseSequenceName: Option<string>)

  /** The setting of a fresh column info: no auto-enter, no sequence selected, no name. */
  const DEFAULT_AUTO_ENTER := AutoEnter(NO_AUTO_ENTER, NO_SEQUENCE_SELECTED, None)

  /** hasSequence: a sequence auto-enter with a sequence selected. */
  predicate HasSequence(a: AutoEnter)
  {
    a.autoEnterType == SEQUENCE_AUTO_ENTER && a.autoEnterSubType != NO_SEQUENCE_SELECTED
  }

  /** hasSystemValue: a system-value auto-enter with a system value selected. */
  predicate HasSystemValue(a: AutoEnter)
  {
    a.autoEnterType == SYSTEM_VALUE_AUTO_ENTER && a.autoEnterSubType != NO_SYSTEM_VALUE
  }

  predicate IsDBManaged(a: AutoEnter)
  {
    a.autoEnterType == SYSTEM_VALUE_AUTO_ENTER && a.autoEnterSubType == DATABASE_MANAGED
  }

  predicate IsDBSequence(a: AutoEnter)
  {
    a.autoEnterType == SEQUENCE_AUTO_ENTER && a.autoEnterSubType == DATABASE_SEQUENCE
  }

  predicate IsDBIdentity(a: AutoEnter)
  {
    a.autoEnterType == SEQUENCE_AUTO_ENTER && a.autoEnterSubType == DATABASE_IDENTITY
  }

  /**
   * A column has at most one of a sequence and a system value; database
   * sequences and identities are sequences, database-managed values are
   * system values, and the fresh setting has neither.
   */
  lemma AutoEnterKinds(a: AutoEnter)
    ensures !(HasSequence(a) && HasSystemValue(a))
    ensures IsDBSequence(a) || IsDBIdentity(a) ==> HasSequence(a)
    ensures IsDBManaged(a) ==> HasSystemValue(a)
    ensures !HasSequence(DEFAULT_AUTO_ENTER) && !HasSystemValue(DEFAULT_AUTO_ENTER)
  {
  }

  /**
   * hasSameAutoEnterType as written. When this info has no auto-enter and
   * the other type is neither a sequence nor a system value, it compares
   * the other SUB type with NO_AUTO_ENTER.
   */
  predicate SameAutoEnterTypeAsWritten(a: AutoEnter, b: AutoEnter)
  {
    if a.autoEnterType == NO_AUTO_ENTER then
      if b.autoEnterType == SEQUENCE_AUTO_ENTER then b.autoEnterSubType == NO_SEQUENCE_SELECTED
      else if b.autoEnterType == SYSTEM_VALUE_AUTO_ENTER then b.autoEnterSubType == NO_SYSTEM_VALUE
      else b.autoEnterSubType == NO_AUTO_ENTER
    else if b.autoEnterType == NO_AUTO_ENTER then
      if a.autoEnterType == SEQUENCE_AUTO_ENTER then a.autoEnterSubType == NO_SEQUENCE_SELECTED
      else if a.autoEnterType == SYSTEM_VALUE_AUTO_ENTER then a.autoEnterSubType == NO_SYSTEM_VALUE
      else a.autoEnterType == NO_AUTO_ENTER
    else if a.autoEnterType == SEQUENCE_AUTO_ENTER && b.autoEnterType == SEQUENCE_AUTO_ENTER &&
            a.autoEnterSubType == DATABASE_SEQUENCE && b.autoEnterSubType == DATABASE_SEQUENCE then
      a.databaseSequenceName == b.databaseSequenceName
    else b.autoEnterType == a.autoEnterType && b.autoEnterSubType == a.autoEnterSubType
  }

  /**
   * As written, a fresh column info (no auto-enter, sub type
   * NO_SEQUENCE_SELECTED) does not have the same auto-enter type as its own
   * setting, and no auto-enter matches a custom value with sub type 0 in
   * one direction only.
   */
  lemma SameAutoEnterTypeAsWrittenFails()
    ensures !SameAutoEnterTypeAsWritten(DEFAULT_AUTO_ENTER, DEFAULT_AUTO_ENTER)
    ensures SameAutoEnterTypeAsWritten(AutoEnter(NO_AUTO_ENTER, 0, None), AutoEnter(CUSTOM_VALUE_AUTO_ENTER, 0, None))
    ensures !SameAutoEnterTypeAsWritten(AutoEnter(CUSTOM_VALUE_AUTO_ENTER, 0, None), AutoEnter(NO_AUTO_ENTER, 0, None))
  {
  }

  /**
   * hasSameAutoEnterType as evidently intended: with no auto-enter on this
   * side, a type other than sequence or system value matches only no
   * auto-enter, mirroring the other direction.
   */
  predicate SameAutoEnterType(a: AutoEnter, b: AutoEnter)
  {
    if a.autoEnterType == NO_AUTO_ENTER then
      if b.autoEnterType == SEQUENCE_AUTO_ENTER then b.autoEnterSubType == NO_SEQUENCE_SELECTED
      else if b.autoEnterType == SYSTEM_VALUE_AUTO_ENTER then b.autoEnterSubType == NO_SYSTEM_VALUE
      else b.autoEnterType == NO_AUTO_ENTER
    else if b.autoEnterType == NO_AUTO_ENTER then
      if a.autoEnterType == SEQUENCE_AUTO_ENTER then a.autoEnterSubType == NO_SEQUENCE_SELECTED
      else if a.autoEnterType == SYSTEM_VALUE_AUTO_ENTER then a.autoEnterSubType == NO_SYSTEM_VALUE
      else a.autoEnterType == NO_AUTO_ENTER
    else if a.autoEnterType == SEQUENCE_AUTO_ENTER && b.autoEnterType == SEQUENCE_AUTO_ENTER &&
            a.autoEnterSubType == DATABASE_SEQUENCE && b.autoEnterSubType == DATABASE_SEQUENCE then
      a.databaseSequenceName == b.databaseSequenceName
    else b.autoEnterType == a.autoEnterType && b.autoEnterSubType == a.autoEnterSubType
  }

  /** The corrected comparison is reflexive and symmetric. */
  lemma SameAutoEnterTypeReflexiveSymmetric(a: AutoEnter, b: AutoEnter)
    ensures SameAutoEnterType(a, a)
    ensures SameAutoEnterType(a, b) <==> SameAutoEnterType(b, a)
  {
  }

  /**
   * The cases of the comparison: two database sequences compare their
   * names; two other settings with a type compare type and sub type; no
   * auto-enter matches a sequence without one selected, a system value
   * without one selected, and no auto-enter.
   */
  lemma SameAutoEnterTypeCases(a: AutoEnter, b: AutoEnter)
    ensures IsDBSequence(a) && IsDBSequence(b) ==>
      (SameAutoEnterType(a, b) <==> a.databaseSequenceName == b.databaseSequenceName)
    ensures a.autoEnterType != NO_AUTO_ENTER && b.autoEnterType != NO_AUTO_ENTER && !(IsDBSequence(a) && IsDBSequence(b)) ==>
      (SameAutoEnterType(a, b) <==> a.autoEnterType == b.autoEnterType && a.autoEnterSubType == b.autoEnterSubType)
    ensures a.autoEnterType == NO_AUTO_ENTER ==>
      (SameAutoEnterType(a, b) <==>
        (!HasSequence(b) && !HasSystemValue(b) && b.autoEnterType in {NO_AUTO_ENTER, SEQUENCE_AUTO_ENTER, SYSTEM_VALUE_AUTO_ENTER}))
  {
  }

  /** The corrected comparison differs from the written one only where this side has no auto-enter and the other an unrelated type. */
  lemma SameAutoEnterTypeCorrection(a: AutoEnter, b: AutoEnter)
    ensures SameAutoEnterType(a, b) != SameAutoEnterTypeAsWritten(a, b) ==>
      a.autoEnterType == NO_AUTO_ENTER && b.autoEnterType !in {SEQUENCE_AUTO_ENTER, SYSTEM_VALUE_AUTO_ENTER}
  {
  }

  // ---------------------------------------------------------------------
  // The column info

  /** The text properties set through getNonEmptyValue. */
  datatype TextProperty =
    | PreSequenceChars | PostSequenceChars | DefaultValue | LookupValue | TitleText | Description
    | ConverterProperties | ConverterName | ForeignType | ValidatorProperties | ValidatorName
    | DefaultFormat | ElementTemplateProperties

  class ColumnInfo {
    var id: int
    var storedPersistently: bool
    var changed: bool
    var autoEnter: AutoEnter
    var nextSequence: int
    var sequenceStepSize: int
    /** The text properties that are not null; a missing key is a null property. */
    var texts: map<TextProperty, string>
    var flags: bv32

    /** A new info that is not stored persistently starts out changed. */
    constructor(id: int, storedPersistently: bool)
      ensures this.id == id && this.storedPersistently == storedPersistently
      ensures changed == !storedPersistently
      ensures autoEnter == DEFAULT_AUTO_ENTER && texts == map[] && flags == 0
      ensures nextSequence == 1 && sequenceStepSize == 1
    {
      this.id := id;
      this.storedPersistently := storedPersistently;
      changed := !storedPersistently;
      autoEnter := DEFAULT_AUTO_ENTER;
      texts := map[];
      flags := 0;
      nextSequence := 1;
      sequenceStepSize := 1;
    }

    method FlagChanged()
      modifies this`changed
      ensures changed
    {
      changed := true;
    }

    /** flagStored: no longer changed, and stored. */
    method FlagStored()
      modifies this`changed, this`storedPersistently
      ensures !changed && storedPersistently
    {
      changed := false;
      storedPersistently := true;
    }

    /** setDatabaseSequenceName. */
    method SetDatabaseSequenceName(name: Option<string>)
      modifies this`autoEnter
      ensures autoEnter == old(autoEnter).(databaseSequenceName := SequenceName(name))
    {
      var n := name;
      if n.Some? {
        var t := Trim(n.value);
        if |t| == 0 {
          n := None;
        } else if |t| > MAX_SEQUENCE_NAME_LENGTH {
          n := Some(t[..MAX_SEQUENCE_NAME_LENGTH]);
        } else {
          n := Some(t);
        }
      }
      autoEnter := autoEnter.(databaseSequenceName := n);
    }

    /** The thirteen text setters: the value passes through getNonEmptyValue. */
    method SetText(p: TextProperty, s: Option<string>)
      modifies this`texts
      ensures NonEmptyValue(s).None? ==> texts == old(texts) - {p}
      ensures NonEmptyValue(s).Some? ==> texts == old(texts)[p := s.value]
    {
      var v := NonEmptyValue(s);
      if v.None? {
        texts := texts - {p};
      } else {
        texts := texts[p := v.value];
      }
    }

    /** The getter of a text property: null when it was never set or set blank. */
    function Text(p: TextProperty): Option<string>
      reads this
    {
      if p in texts then Some(texts[p]) else None
    }

    method SetFlag(flag: bv32, on: bool)
      modifies this`flags
      ensures flags == FlagsAfter(old(flags), flag, on)
    {
      if on {
        flags := flags | flag;
      } else {
        flags := flags & !flag;
      }
    }

    /** hasSameAutoEnterType, as corrected (see SameAutoEnterTypeAsWritten). */
    method HasSameAutoEnterType(autoEnterType2: int, autoEnterSubType2: int, databaseSequenceName2: Option<string>) returns (r: bool)
      ensures r == SameAutoEnterType(autoEnter, AutoEnter(autoEnterType2, autoEnterSubType2, databaseSequenceName2))
    {
      var t := autoEnter.autoEnterType;
      var sub := autoEnter.autoEnterSubType;
      if t == NO_AUTO_ENTER {
        if autoEnterType2 == SEQUENCE_AUTO_ENTER {
          return autoEnterSubType2 == NO_SEQUENCE_SELECTED;
        }
        if autoEnterType2 == SYSTEM_VALUE_AUTO_ENTER {
          return autoEnterSubType2 == NO_SYSTEM_VALUE;
        }
        return autoEnterType2 == NO_AUTO_ENTER;
      }
      if autoEnterType2 == NO_AUTO_ENTER {
        if t == SEQUENCE_AUTO_ENTER {
          return sub == NO_SEQUENCE_SELECTED;
        }
        if t == SYSTEM_VALUE_AUTO_ENTER {
          return sub == NO_SYSTEM_VALUE;
        }
        return t == NO_AUTO_ENTER;
      }
      if t == SEQUENCE_AUTO_ENTER && autoEnterType2 == SEQUENCE_AUTO_ENTER && sub == DATABASE_SEQUENCE && autoEnterSubType2 == DATABASE_SEQUENCE {
        return autoEnter.databaseSequenceName == databaseSequenceName2;
      }
      return autoEnterType2 == t && autoEnterSubType2 == sub;
    }
  }

  /** A text property reads back what was set, or null when the value was null or blank; other properties keep their values. */
  lemma SetTextReadsBack(before: map<TextProperty, string>, p: TextProperty, s: Option<string>, q: TextProperty)
    ensures var after := if NonEmptyValue(s).None? then before - {p} else before[p := s.value];
      (p in after <==> s.Some? && !IsBlank(s.value)) &&
      (p in after ==> after[p] == s.value) &&
      (q != p ==> (q in after <==> q in before) && (q in before ==> after[q] == before[q]))
  {
    NonEmptyValueDropsBlank(s);
  }
}
