// The parts of java.lang and java.util that the modelled classes rely on:
// decimal and hexadecimal rendering of integers, Integer.parseInt-style
// parsing, String.trim, StringTokenizer with one delimiter, ASCII case
// mapping, replace-all and Java's truncating integer division.
module JavaLang {
  import opened Wrappers

  /** A Java char: one UTF-16 code unit. */
  newtype CodeUnit = x: int | 0 <= x < 0x1_0000

  /** A Java String as String.compareTo sees it: its UTF-16 code units. */
  type JavaString = seq<CodeUnit>

  function Min(a: int, b: int): int { if a <= b then a else b }
  function Max(a: int, b: int): int { if a >= b then a else b }
  function Abs(a: int): nat { if a < 0 then -a else a }

  /** Java's `/` on int and long: the quotient is truncated toward zero. */
  function JavaDiv(a: int, b: int): int
    requires b != 0
  {
    if (a >= 0) == (b > 0) then Abs(a) / Abs(b) else -(Abs(a) / Abs(b))
  }

  /** Java int arithmetic: the value wrapped into 32-bit two's complement. */
  function Int32(x: int): (r: int)
    ensures -0x8000_0000 <= r < 0x8000_0000
    ensures (r - x) % 0x1_0000_0000 == 0
    ensures -0x8000_0000 <= x < 0x8000_0000 ==> r == x
  {
    var m := x % 0x1_0000_0000;
    if m >= 0x8000_0000 then m - 0x1_0000_0000 else m
  }

  /** A value of Java's int type. */
  predicate IsInt32(x: int)
  {
    -0x8000_0000 <= x < 0x8000_0000
  }

  /** A sum just past the largest int wraps to the negative end. */
  lemma Int32WrapsUp(x: int)
    ensures 0x8000_0000 <= x < 0x1_0000_0000 ==> Int32(x) == x - 0x1_0000_0000
  {
    if 0x8000_0000 <= x < 0x1_0000_0000 {
      DivMod(x, 0x1_0000_0000, 0, x);
    }
  }

  lemma MulAtLeast(k: int, d: int)
    requires k >= 1 && d > 0
    ensures k * d >= d
  {
  }

  /** Euclidean division is unique: a quotient and remainder in range are n / d and n % d. */
  lemma DivMod(n: int, d: int, q: int, m: int)
    requires d > 0 && n == q * d + m && 0 <= m < d
    ensures n / d == q && n % d == m
  {
    var q', m' := n / d, n % d;
    assert n == q' * d + m';
    if q' < q {
      assert (q - q') * d >= d by { MulAtLeast(q - q', d); }
      assert false;
    } else if q < q' {
      assert (q' - q) * d >= d by { MulAtLeast(q' - q, d); }
      assert false;
    }
  }

  // ---------------------------------------------------------------------
  // Decimal digits

  predicate IsDigit(c: char) { '0' <= c <= '9' }

  predicate AllDigits(s: string)
  {
    forall i :: 0 <= i < |s| ==> IsDigit(s[i])
  }

  function DigitChar(d: nat): (c: char)
    requires d < 10
    ensures IsDigit(c)
  {
    (('0' as int) + d) as char
  }

  function DigitValue(c: char): nat
    requires IsDigit(c)
  {
    (c as int) - ('0' as int)
  }

  /** The decimal digits of n, most significant first, without leading zeros. */
  function NatToString(n: nat): (s: string)
    ensures |s| > 0 && AllDigits(s)
    decreases n
  {
    if n < 10 then [DigitChar(n)] else NatToString(n / 10) + [DigitChar(n % 10)]
  }

  /** Integer.toString / StringBuffer.append(int). */
  function IntToString(n: int): string
  {
    if n < 0 then "-" + NatToString(-n) else NatToString(n)
  }

  /** The value of a non-empty run of decimal digits. */
  function DigitsValue(s: string): nat
    requires AllDigits(s)
    decreases |s|
  {
    if s == [] then 0 else DigitsValue(s[..|s| - 1]) * 10 + DigitValue(s[|s| - 1])
  }

  lemma {:induction false} DigitsValueOfNatToString(n: nat)
    ensures DigitsValue(NatToString(n)) == n
    decreases n
  {
    if n >= 10 {
      var s := NatToString(n);
      assert s[..|s| - 1] == NatToString(n / 10);
      DigitsValueOfNatToString(n / 10);
    }
  }

  /**
   * Integer.parseInt without the 32-bit range check: an optional sign
   * followed by at least one decimal digit; anything else is None.
   */
  function ParseInt(s: string): Option<int>
  {
    if |s| >= 2 && s[0] == '-' && AllDigits(s[1..]) then Some(0 - DigitsValue(s[1..]))
    else if |s| >= 2 && s[0] == '+' && AllDigits(s[1..]) then Some(DigitsValue(s[1..]))
    else if |s| >= 1 && AllDigits(s) then Some(DigitsValue(s))
    else None
  }

  lemma ParseIntOfIntToString(n: int)
    ensures ParseInt(IntToString(n)) == Some(n)
  {
    if n < 0 {
      var s := IntToString(n);
      assert s[1..] == NatToString(-n);
      assert s[0] == '-' && |s| >= 2;
      DigitsValueOfNatToString(-n);
    } else {
      DigitsValueOfNatToString(n);
    }
  }

  // ---------------------------------------------------------------------
  // String.trim: strips every character up to U+0020 from both ends

  predicate IsTrimmed(c: char) { c <= ' ' }

  function TrimStart(s: string): string
    decreases |s|
  {
    if |s| > 0 && IsTrimmed(s[0]) then TrimStart(s[1..]) else s
  }

  function TrimEnd(s: string): string
    decreases |s|
  {
    if |s| > 0 && IsTrimmed(s[|s| - 1]) then TrimEnd(s[..|s| - 1]) else s
  }

  function Trim(s: string): string
  {
    TrimEnd(TrimStart(s))
  }

  /** A trimmed string is empty or starts and ends with a character above U+0020. */
  lemma {:induction false} TrimEnds(s: string)
    ensures var t := Trim(s); |t| == 0 || (!IsTrimmed(t[0]) && !IsTrimmed(t[|t| - 1]))
    ensures |Trim(s)| <= |s|
  {
    TrimStartEnds(s);
    TrimEndEnds(TrimStart(s));
  }

  lemma {:induction false} TrimStartEnds(s: string)
    ensures var t := TrimStart(s); |t| <= |s| && (|t| == 0 || !IsTrimmed(t[0]))
    ensures |TrimStart(s)| > 0 ==> TrimStart(s)[|TrimStart(s)| - 1] == s[|s| - 1]
    decreases |s|
  {
    if |s| > 0 && IsTrimmed(s[0]) {
      TrimStartEnds(s[1..]);
    }
  }

  lemma {:induction false} TrimEndEnds(s: string)
    ensures var t := TrimEnd(s); |t| <= |s| && (|t| == 0 || !IsTrimmed(t[|t| - 1]))
    ensures |TrimEnd(s)| > 0 ==> TrimEnd(s)[0] == s[0]
    decreases |s|
  {
    if |s| > 0 && IsTrimmed(s[|s| - 1]) {
      TrimEndEnds(s[..|s| - 1]);
    }
  }

  /** Only characters up to U+0020: what trim reduces to the empty string. */
  predicate IsBlank(s: string)
  {
    forall i | 0 <= i < |s| :: IsTrimmed(s[i])
  }

  lemma {:induction false} TrimStartSuffix(s: string)
    ensures |TrimStart(s)| <= |s| && TrimStart(s) == s[|s| - |TrimStart(s)|..]
    ensures forall i | 0 <= i < |s| - |TrimStart(s)| :: IsTrimmed(s[i])
    decreases |s|
  {
    if |s| > 0 && IsTrimmed(s[0]) {
      TrimStartSuffix(s[1..]);
    }
  }

  lemma {:induction false} TrimEndBlank(s: string)
    ensures TrimEnd(s) == [] <==> IsBlank(s)
    decreases |s|
  {
    if |s| > 0 {
      TrimEndBlank(s[..|s| - 1]);
      if IsTrimmed(s[|s| - 1]) {
        assert IsBlank(s) <==> IsBlank(s[..|s| - 1]) by {
          if IsBlank(s[..|s| - 1]) {
            forall i | 0 <= i < |s|
              ensures IsTrimmed(s[i])
            {
              if i < |s| - 1 {
                assert s[i] == s[..|s| - 1][i];
              }
            }
          }
        }
      }
    }
  }

  /** trim gives the empty string exactly for blank text. */
  lemma TrimBlank(s: string)
    ensures Trim(s) == [] <==> IsBlank(s)
  {
    var t := TrimStart(s);
    TrimStartSuffix(s);
    TrimEndBlank(t);
    if IsBlank(t) {
      forall i | 0 <= i < |s|
        ensures IsTrimmed(s[i])
      {
        if i >= |s| - |t| {
          assert s[i] == t[i - (|s| - |t|)];
        }
      }
    }
  }

  lemma TrimNoop(s: string)
    requires |s| > 0 ==> !IsTrimmed(s[0]) && !IsTrimmed(s[|s| - 1])
    ensures Trim(s) == s
  {
  }

  /**
   * Utils.getAsInteger on a String: the trimmed text read as a decimal
   * integer, and 0 when it is not one.
   */
  function GetAsInteger(s: string): int
  {
    match ParseInt(Trim(s))
    case Some(v) => v
    case None => 0
  }

  lemma GetAsIntegerOfIntToString(n: int)
    ensures GetAsInteger(IntToString(n)) == n
  {
    var s := IntToString(n);
    assert !IsTrimmed(s[0]) && !IsTrimmed(s[|s| - 1]);
    TrimNoop(s);
    ParseIntOfIntToString(n);
  }

  // ---------------------------------------------------------------------
  // Hexadecimal digits (Integer.toHexString, Character.digit(c, 16))

  function HexDigitChar(d: nat): char
    requires d < 16
  {
    if d < 10 then DigitChar(d) else (('a' as int) + d - 10) as char
  }

  /** Integer.toHexString on a non-negative value: lowercase, no leading zeros. */
  function NatToHex(n: nat): (s: string)
    ensures |s| > 0
    decreases n
  {
    if n < 16 then [HexDigitChar(n)] else NatToHex(n / 16) + [HexDigitChar(n % 16)]
  }

  predicate IsHexDigit(c: char)
  {
    IsDigit(c) || 'a' <= c <= 'f' || 'A' <= c <= 'F'
  }

  function HexDigitValue(c: char): nat
    requires IsHexDigit(c)
  {
    if IsDigit(c) then DigitValue(c)
    else if 'a' <= c <= 'f' then (c as int) - ('a' as int) + 10
    else (c as int) - ('A' as int) + 10
  }

  lemma HexDigitRoundTrip(d: nat)
    requires d < 16
    ensures IsHexDigit(HexDigitChar(d)) && HexDigitValue(HexDigitChar(d)) == d
  {
  }

  // ---------------------------------------------------------------------
  // java.util.StringTokenizer with a single delimiter character: the
  // tokens are the maximal non-empty runs without the delimiter.

  /** The index of the first delimiter at or after i, or |s|. */
  function RunEnd(s: string, d: char, i: nat): (k: nat)
    requires i <= |s|
    ensures i <= k <= |s|
    ensures k < |s| ==> s[k] == d
    ensures forall j :: i <= j < k ==> s[j] != d
    decreases |s| - i
  {
    if i == |s| || s[i] == d then i else RunEnd(s, d, i + 1)
  }

  function Tokens(s: string, d: char): (r: seq<string>)
    ensures forall t | t in r :: |t| > 0 && d !in t
    decreases |s|
  {
    if |s| == 0 then []
    else if s[0] == d then Tokens(s[1..], d)
    else
      var k := RunEnd(s, d, 0);
      [s[..k]] + Tokens(s[k..], d)
  }

  /** A non-empty text without the delimiter is one token. */
  lemma TokensSingle(a: string, d: char)
    requires |a| > 0 && d !in a
    ensures Tokens(a, d) == [a]
  {
    assert forall j :: 0 <= j < |a| ==> a[j] in a;
    var k := RunEnd(a, d, 0);
    assert k == |a|;
    assert a[..k] == a;
    assert a[k..] == [];
  }

  /** A non-empty token followed by the delimiter is the first token. */
  lemma TokensCons(a: string, d: char, b: string)
    requires |a| > 0 && d !in a
    ensures Tokens(a + [d] + b, d) == [a] + Tokens(b, d)
  {
    var s := a + [d] + b;
    assert s[0] == a[0];
    assert a[0] in a;
    var k := RunEnd(s, d, 0);
    assert forall j :: 0 <= j < |a| ==> s[j] == a[j] && a[j] in a;
    assert s[|a|] == d;
    assert k == |a|;
    assert s[..k] == a;
    assert s[k..] == [d] + b;
    assert ([d] + b)[1..] == b;
  }

  /** The parts joined by the delimiter, as a StringBuffer appending part, delimiter, part, ... builds them. */
  function Join(parts: seq<string>, d: char): string
    requires |parts| > 0
    decreases |parts|
  {
    if |parts| == 1 then parts[0] else parts[0] + [d] + Join(parts[1..], d)
  }

  /** Joining two lists with a delimiter between them joins their concatenation. */
  lemma {:induction false} JoinAppend(p: seq<string>, q: seq<string>, d: char)
    requires |p| > 0 && |q| > 0
    ensures Join(p, d) + [d] + Join(q, d) == Join(p + q, d)
    decreases |p|
  {
    if |p| == 1 {
      assert (p + q)[1..] == q;
    } else {
      JoinAppend(p[1..], q, d);
      assert (p + q)[1..] == p[1..] + q;
      calc {
        Join(p, d) + [d] + Join(q, d);
        (p[0] + [d] + Join(p[1..], d)) + [d] + Join(q, d);
        p[0] + [d] + (Join(p[1..], d) + [d] + Join(q, d));
      }
    }
  }

  /** Tokenizing joined non-empty parts without the delimiter gives the parts back. */
  lemma {:induction false} TokensOfJoin(parts: seq<string>, d: char)
    requires |parts| > 0
    requires forall t | t in parts :: |t| > 0 && d !in t
    ensures Tokens(Join(parts, d), d) == parts
    decreases |parts|
  {
    assert parts[0] in parts;
    if |parts| == 1 {
      TokensSingle(parts[0], d);
    } else {
      assert forall t | t in parts[1..] :: t in parts;
      TokensOfJoin(parts[1..], d);
      TokensCons(parts[0], d, Join(parts[1..], d));
    }
  }

  lemma IntToStringHasNoDelimiter(n: int, d: char)
    requires !IsDigit(d) && d != '-'
    ensures |IntToString(n)| > 0 && d !in IntToString(n)
  {
    var s := IntToString(n);
    if n < 0 {
      var t := NatToString(-n);
      assert forall i :: 1 <= i < |s| ==> s[i] == t[i - 1];
    }
    assert forall i :: 0 <= i < |s| ==> s[i] != d;
  }

  // ---------------------------------------------------------------------
  // Case mapping: ASCII toLowerCase/toUpperCase, and equalsIgnoreCase
  // against an ASCII text

  function ToLowerChar(c: char): char
  {
    if 'A' <= c <= 'Z' then ((c as int) + 32) as char else c
  }

  function ToLower(s: string): (r: string)
    ensures |r| == |s|
    ensures forall i :: 0 <= i < |s| ==> r[i] == ToLowerChar(s[i])
  {
    seq(|s|, i requires 0 <= i < |s| => ToLowerChar(s[i]))
  }

  function ToUpperChar(c: char): char
  {
    if 'a' <= c <= 'z' then ((c as int) - 32) as char else c
  }

  function ToUpper(s: string): (r: string)
    ensures |r| == |s|
    ensures forall i :: 0 <= i < |s| ==> r[i] == ToUpperChar(s[i])
  {
    seq(|s|, i requires 0 <= i < |s| => ToUpperChar(s[i]))
  }

  /**
   * The ASCII lower-case letter whose case class Java's Character case
   * mapping puts c in, or c itself. Besides the ASCII letters exactly four
   * characters map onto an ASCII letter: dotless i (U+0131, upper case I),
   * long s (U+017F, upper case S), dotted capital I (U+0130, lower case i)
   * and the Kelvin sign (U+212A, lower case k).
   */
  function FoldToAscii(c: char): char
  {
    if 'A' <= c <= 'Z' then ((c as int) + 32) as char
    else if c == '\U{131}' || c == '\U{130}' then 'i'
    else if c == '\U{17F}' then 's'
    else if c == '\U{212A}' then 'k'
    else c
  }

  predicate IsAscii(a: string)
  {
    forall i | 0 <= i < |a| :: a[i] < '\U{80}'
  }

  /**
   * a.equalsIgnoreCase(b) for an ASCII text a. Java compares unit by unit:
   * equal, or equal after Character.toUpperCase, or equal after
   * toUpperCase and then toLowerCase. For an ASCII character of a that
   * accepts the character itself, its other case when it is a letter, and
   * the four characters FoldToAscii maps onto it.
   */
  predicate EqualsIgnoreCaseAscii(a: string, b: string)
    requires IsAscii(a)
  {
    |a| == |b| && forall i | 0 <= i < |a| :: FoldToAscii(a[i]) == FoldToAscii(b[i])
  }

  // ---------------------------------------------------------------------
  // Searching

  predicate StartsWith(s: string, p: string)
  {
    |p| <= |s| && s[..|p|] == p
  }

  predicate EndsWith(s: string, p: string)
  {
    |p| <= |s| && s[|s| - |p|..] == p
  }

  /** String.lastIndexOf(char): the last index holding c, or -1. */
  function LastIndexOf(s: string, c: char): (k: int)
    ensures -1 <= k < |s|
    ensures k >= 0 ==> s[k] == c
    ensures forall j :: k < j < |s| ==> s[j] != c
    decreases |s|
  {
    if |s| == 0 then -1
    else if s[|s| - 1] == c then |s| - 1
    else LastIndexOf(s[..|s| - 1], c)
  }

  /** Replaces every occurrence of a non-empty pattern, left to right, without overlap. */
  function ReplaceAll(s: string, pat: string, rep: string): string
    requires |pat| > 0
    decreases |s|
  {
    if |s| < |pat| then s
    else if s[..|pat|] == pat then rep + ReplaceAll(s[|pat|..], pat, rep)
    else [s[0]] + ReplaceAll(s[1..], pat, rep)
  }

  /** Replacing one character by a different one leaves none of it behind. */
  lemma {:induction false} ReplaceCharRemovesIt(s: string, a: char, b: char)
    requires a != b
    ensures a !in ReplaceAll(s, [a], [b])
    ensures |ReplaceAll(s, [a], [b])| == |s|
    decreases |s|
  {
    if |s| >= 1 {
      ReplaceCharRemovesIt(s[|[a]|..], a, b);
      if s[..1] != [a] {
        assert s[0] != a;
      }
    }
  }
}
