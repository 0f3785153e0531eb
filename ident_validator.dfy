// IdentDocumentValidator: keeps a text field's content a legal identifier
// by checking every insert and replace against Java's identifier rules,
// with SQL identifiers also refusing a leading underscore.
module IdentValidator {
  import opened Wrappers

  /** The identifier kinds. */
  const TYPE_SERVOY := 1
  const TYPE_SQL := 2

  // ---------------------------------------------------------------------
  // Character classes (the ASCII range of Character.isJavaIdentifierStart/Part)

  predicate IsAsciiLetter(c: char) { 'a' <= c <= 'z' || 'A' <= c <= 'Z' }

  /** Character.isJavaIdentifierStart: a letter, '$' or '_'. */
  predicate IsIdentifierStart(c: char)
  {
    IsAsciiLetter(c) || c == '$' || c == '_'
  }

  /** Character.isJavaIdentifierPart: a start character, a digit, or an ignorable control character. */
  predicate IsIdentifierPart(c: char)
  {
    IsIdentifierStart(c) || '0' <= c <= '9' ||
    c <= '\U{8}' || '\U{e}' <= c <= '\U{1b}' || c == '\U{7f}'
  }

  // ---------------------------------------------------------------------
  // validateIdentifier

  /**
   * What validateIdentifier accepts: at the start of the document the text
   * must be non-empty and begin with an identifier start (not '_' for SQL);
   * everywhere every character must be an identifier part.
   */
  predicate ValidIdentifier(s: string, kind: int, isStart: bool)
  {
    (isStart ==> |s| > 0 && IsIdentifierStart(s[0]) && !(kind == TYPE_SQL && s[0] == '_')) &&
    forall i | 0 <= i < |s| :: IsIdentifierPart(s[i])
  }

  /** validateIdentifier, with its scan over the characters. */
  method ValidateIdentifier(s: string, kind: int, isStart: bool) returns (r: bool)
    ensures r == ValidIdentifier(s, kind, isStart)
  {
    if isStart {
      if |s| == 0 {
        return false;
      }
      if !IsIdentifierStart(s[0]) {
        return false;
      }
      if kind == TYPE_SQL && s[0] == '_' {
        return false;
      }
    }
    for i := 0 to |s|
      invariant forall k | 0 <= k < i :: IsIdentifierPart(s[k])
    {
      if !IsIdentifierPart(s[i]) {
        return false;
      }
    }
    return true;
  }

  /** isJavaIdentifier. */
  predicate IsJavaIdentifier(s: string) { ValidIdentifier(s, TYPE_SERVOY, true) }

  /** isSQLIdentifier. */
  predicate IsSQLIdentifier(s: string) { ValidIdentifier(s, TYPE_SQL, true) }

  /** An SQL identifier is a Java identifier that does not start with '_'. */
  lemma SqlIdentifiers(s: string)
    ensures IsSQLIdentifier(s) <==> IsJavaIdentifier(s) && s[0] != '_'
  {
  }

  /** At the start the empty text is refused; elsewhere it is accepted. */
  lemma EmptyText(kind: int)
    ensures !ValidIdentifier("", kind, true)
    ensures ValidIdentifier("", kind, false)
  {
  }

  /** A text accepted at the start is accepted elsewhere too. */
  lemma StartIsStricter(s: string, kind: int)
    requires ValidIdentifier(s, kind, true)
    ensures ValidIdentifier(s, kind, false)
  {
  }

  /** Text accepted in the middle, put after a non-empty identifier and before identifier parts, gives an identifier. */
  lemma InsertKeepsIdentifier(pre: string, mid: string, post: string, kind: int)
    requires ValidIdentifier(pre, kind, true)
    requires ValidIdentifier(mid, kind, false) && ValidIdentifier(post, kind, false)
    ensures ValidIdentifier(pre + mid + post, kind, true)
  {
    var s := pre + mid + post;
    assert s[0] == pre[0];
    forall i | 0 <= i < |s|
      ensures IsIdentifierPart(s[i])
    {
      if i < |pre| {
        assert s[i] == pre[i];
      } else if i < |pre| + |mid| {
        assert s[i] == mid[i - |pre|];
      } else {
        assert s[i] == post[i - |pre| - |mid|];
      }
    }
  }

  // ---------------------------------------------------------------------
  // The document hooks

  /** validateInsertString: the text when valid at its offset (the start when the offset is 0), else null. */
  method ValidateInsertString(kind: int, offset: int, text: string) returns (r: Option<string>)
    ensures r == if ValidIdentifier(text, kind, offset == 0) then Some(text) else None
  {
    var ok := ValidateIdentifier(text, kind, offset == 0);
    r := if ok then Some(text) else None;
  }

  /**
   * validateReplace on a document holding doc, replacing length characters
   * at offset by text: an empty replace on an empty document passes; at
   * the start of a non-empty document, clearing it all passes and
   * otherwise the text followed by the rest of the document must be an
   * identifier; anywhere else the text is checked alone.
   */
  function ReplaceResult(kind: int, doc: string, offset: int, length: int, text: string): Option<string>
    requires offset == 0 && |doc| > 0 ==> 0 <= length <= |doc|
  {
    if |doc| == 0 && |text| == 0 then Some(text)
    else if offset == 0 && |doc| > 0 then
      if (|text| == 0 && length == |doc|) || ValidIdentifier(text + doc[length..], kind, true) then Some(text) else None
    else if ValidIdentifier(text, kind, |doc| == 0) then Some(text)
    else None
  }

  /** validateReplace. */
  method ValidateReplace(kind: int, doc: string, offset: int, length: int, text: string) returns (r: Option<string>)
    requires offset == 0 && |doc| > 0 ==> 0 <= length <= |doc|
    ensures r == ReplaceResult(kind, doc, offset, length, text)
  {
    if |doc| == 0 && |text| == 0 {
      return Some(text);
    }
    if offset == 0 && |doc| > 0 {
      if |text| == 0 && length == |doc| {
        return Some(text);
      }
      var ok := ValidateIdentifier(text + doc[length..], kind, true);
      if ok {
        return Some(text);
      }
    } else {
      var ok := ValidateIdentifier(text, kind, |doc| == 0);
      if ok {
        return Some(text);
      }
    }
    return None;
  }

  /**
   * A replace at the start is accepted exactly when it clears the whole
   * document or leaves an identifier; what is accepted is the text itself.
   */
  lemma ReplaceAtStart(kind: int, doc: string, length: int, text: string)
    requires 0 <= length <= |doc| && |doc| > 0
    ensures ReplaceResult(kind, doc, 0, length, text).Some? <==>
      (text == "" && length == |doc|) || ValidIdentifier(text + doc[length..], kind, true)
    ensures ReplaceResult(kind, doc, 0, length, text).Some? ==> ReplaceResult(kind, doc, 0, length, text).value == text
  {
  }

  /** Clearing the whole document is always accepted. */
  lemma ReplaceMayClear(kind: int, doc: string)
    ensures ReplaceResult(kind, doc, 0, |doc|, "") == Some("")
  {
  }

  /** An identifier with the part before offset kept and identifier parts put in after it stays an identifier. */
  lemma ReplaceInsideKeepsIdentifier(kind: int, doc: string, offset: int, length: int, text: string)
    requires 0 < offset && 0 <= length && offset + length <= |doc|
    requires ValidIdentifier(doc, kind, true)
    requires ReplaceResult(kind, doc, offset, length, text).Some?
    ensures ValidIdentifier(doc[..offset] + text + doc[offset + length..], kind, true)
  {
    var pre := doc[..offset];
    var post := doc[offset + length..];
    assert pre[0] == doc[0];
    forall i | 0 <= i < |pre|
      ensures IsIdentifierPart(pre[i])
    {
      assert pre[i] == doc[i];
    }
    forall i | 0 <= i < |post|
      ensures IsIdentifierPart(post[i])
    {
      assert post[i] == doc[offset + length + i];
    }
    InsertKeepsIdentifier(pre, text, post, kind);
  }
}
