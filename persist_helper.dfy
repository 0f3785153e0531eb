// PersistHelper: the comma-separated text forms in which a solution stores
// sizes, positions, insets, rectangles, locales, colours and fonts, and
// the parsers that read them back. Java's null is None; every encoder of
// None gives None and every parser of None gives None.
module PersistHelper {
  import opened Wrappers
  import opened JavaLang

  datatype Dimension = Dimension(width: int, height: int)
  datatype Point = Point(x: int, y: int)
  datatype Insets = Insets(top: int, left: int, bottom: int, right: int)
  datatype Rectangle = Rectangle(x: int, y: int, width: int, height: int)
  datatype Locale = Locale(language: string, country: string, variant: string)
  datatype Color = Color(red: int, green: int, blue: int)
  datatype Font = Font(name: string, style: int, size: int)
  datatype Pair = Pair(left: string, right: string)

  predicate ValidColor(c: Color)
  {
    0 <= c.red < 256 && 0 <= c.green < 256 && 0 <= c.blue < 256
  }

  /** The i-th token, or the default when there are fewer tokens. */
  function TokenOr(tokens: seq<string>, i: nat, default: string): string
  {
    if i < |tokens| then tokens[i] else default
  }

  /** The i-th token read by Utils.getAsInteger, or 0 when there are fewer tokens. */
  function IntTokenOr(tokens: seq<string>, i: nat): int
  {
    if i < |tokens| then GetAsInteger(tokens[i]) else 0
  }

  /** The decimal form of each integer. */
  function IntStrings(xs: seq<int>): (r: seq<string>)
    ensures |r| == |xs| && forall i | 0 <= i < |xs| :: r[i] == IntToString(xs[i])
  {
    if xs == [] then [] else [IntToString(xs[0])] + IntStrings(xs[1..])
  }

  /** The decimal forms of the integers, joined by commas. */
  function IntList(xs: seq<int>): string
    requires |xs| > 0
  {
    Join(IntStrings(xs), ',')
  }

  /** The tokens of integers joined by commas are their decimal forms, in order. */
  lemma TokensOfIntList(xs: seq<int>)
    requires |xs| > 0
    ensures Tokens(IntList(xs), ',') == IntStrings(xs)
  {
    var parts := IntStrings(xs);
    forall t | t in parts
      ensures |t| > 0 && ',' !in t
    {
      var i :| 0 <= i < |parts| && parts[i] == t;
      IntToStringHasNoDelimiter(xs[i], ',');
    }
    TokensOfJoin(parts, ',');
  }

  /** Reading the tokens of an integer list back with Utils.getAsInteger gives the list. */
  lemma IntTokensOfIntList(xs: seq<int>)
    requires |xs| > 0
    ensures forall i | 0 <= i < |xs| :: IntTokenOr(Tokens(IntList(xs), ','), i) == xs[i]
    ensures |Tokens(IntList(xs), ',')| == |xs|
  {
    TokensOfIntList(xs);
    forall i | 0 <= i < |xs|
      ensures IntTokenOr(Tokens(IntList(xs), ','), i) == xs[i]
    {
      GetAsIntegerOfIntToString(xs[i]);
    }
  }

  // ---------------------------------------------------------------------
  // Dimension, Point, Insets, Rectangle

  function CreateDimensionString(d: Option<Dimension>): Option<string>
  {
    match d
    case None => None
    case Some(v) => Some(IntList([v.width, v.height]))
  }

  /** Up to two comma-separated integers; a missing one is 0. */
  function CreateDimension(s: Option<string>): Option<Dimension>
  {
    match s
    case None => None
    case Some(text) =>
      var tk := Tokens(text, ',');
      Some(Dimension(IntTokenOr(tk, 0), IntTokenOr(tk, 1)))
  }

  function CreatePointString(p: Option<Point>): Option<string>
  {
    match p
    case None => None
    case Some(v) => Some(IntList([v.x, v.y]))
  }

  function CreatePoint(s: Option<string>): Option<Point>
  {
    match s
    case None => None
    case Some(text) =>
      var tk := Tokens(text, ',');
      Some(Point(IntTokenOr(tk, 0), IntTokenOr(tk, 1)))
  }

  /** Insets are written top, left, bottom, right. */
  function CreateInsetsString(i: Option<Insets>): Option<string>
  {
    match i
    case None => None
    case Some(v) => Some(IntList([v.top, v.left, v.bottom, v.right]))
  }

  function CreateInsets(s: Option<string>): Option<Insets>
  {
    match s
    case None => None
    case Some(text) =>
      var tk := Tokens(text, ',');
      Some(Insets(IntTokenOr(tk, 0), IntTokenOr(tk, 1), IntTokenOr(tk, 2), IntTokenOr(tk, 3)))
  }

  /** A rectangle is its location's point string, a comma and its size's dimension string. */
  function CreateRectangleString(r: Option<Rectangle>): Option<string>
  {
    match r
    case None => None
    case Some(v) =>
      Some(CreatePointString(Some(Point(v.x, v.y))).value + "," + CreateDimensionString(Some(Dimension(v.width, v.height))).value)
  }

  function CreateRectangle(s: Option<string>): Option<Rectangle>
  {
    match s
    case None => None
    case Some(text) =>
      var tk := Tokens(text, ',');
      Some(Rectangle(IntTokenOr(tk, 0), IntTokenOr(tk, 1), IntTokenOr(tk, 2), IntTokenOr(tk, 3)))
  }

  /** createDimension reads back what createDimensionString wrote, null included. */
  lemma DimensionRoundTrip(d: Option<Dimension>)
    ensures CreateDimension(CreateDimensionString(d)) == d
  {
    if d.Some? {
      IntTokensOfIntList([d.value.width, d.value.height]);
    }
  }

  /** createPoint reads back what createPointString wrote, null included. */
  lemma PointRoundTrip(p: Option<Point>)
    ensures CreatePoint(CreatePointString(p)) == p
  {
    if p.Some? {
      IntTokensOfIntList([p.value.x, p.value.y]);
    }
  }

  /** createInsets reads back top, left, bottom, right in the order they were written. */
  lemma InsetsRoundTrip(i: Option<Insets>)
    ensures CreateInsets(CreateInsetsString(i)) == i
  {
    if i.Some? {
      var v := i.value;
      IntTokensOfIntList([v.top, v.left, v.bottom, v.right]);
    }
  }

  /** createRectangle reads back x, y, width, height. */
  lemma RectangleRoundTrip(r: Option<Rectangle>)
    ensures CreateRectangle(CreateRectangleString(r)) == r
  {
    if r.Some? {
      var v := r.value;
      var p, q := IntStrings([v.x, v.y]), IntStrings([v.width, v.height]);
      JoinAppend(p, q, ',');
      assert IntStrings([v.x, v.y, v.width, v.height]) == p + q;
      IntTokensOfIntList([v.x, v.y, v.width, v.height]);
    }
  }

  /** Missing numbers read as 0: a text without any token gives the zero dimension. */
  lemma DimensionOfNoTokens(s: string)
    requires Tokens(s, ',') == []
    ensures CreateDimension(Some(s)) == Some(Dimension(0, 0))
  {
  }

  // ---------------------------------------------------------------------
  // Locale

  /**
   * new Locale(language, country, variant): the language is kept in lower
   * case and the country in upper case, both by ASCII case mapping; the
   * variant is kept as given.
   */
  function NewLocale(language: string, country: string, variant: string): (l: Locale)
    ensures Normalized(l) && l.variant == variant
    ensures |l.language| == |language| && |l.country| == |country|
  {
    ToLowerIdempotent(language);
    ToUpperIdempotent(country);
    Locale(ToLower(language), ToUpper(country), variant)
  }

  /** The form every Java Locale has: lower-case language, upper-case country. */
  predicate Normalized(l: Locale)
  {
    ToLower(l.language) == l.language && ToUpper(l.country) == l.country
  }

  lemma ToLowerIdempotent(s: string)
    ensures ToLower(ToLower(s)) == ToLower(s)
  {
  }

  lemma ToUpperIdempotent(s: string)
    ensures ToUpper(ToUpper(s)) == ToUpper(s)
  {
  }

  /** Constructing a locale from the parts of a Java Locale gives that locale back. */
  lemma NewLocaleOfNormalized(l: Locale)
    requires Normalized(l)
    ensures NewLocale(l.language, l.country, l.variant) == l
  {
  }

  /** A text without capitals is its own lower case; one without small letters its own upper case. */
  lemma CaseFixed(s: string)
    ensures (forall i | 0 <= i < |s| :: !('A' <= s[i] <= 'Z')) ==> ToLower(s) == s
    ensures (forall i | 0 <= i < |s| :: !('a' <= s[i] <= 'z')) ==> ToUpper(s) == s
  {
  }

  function CreateLocaleString(loc: Option<Locale>): Option<string>
  {
    match loc
    case None => None
    case Some(l) => Some(Join([l.language, l.country, l.variant], ','))
  }

  /**
   * createLocale as written: the first three tokens are language, country
   * and variant, given to the Locale constructor. The tokenizer skips
   * empty fields, so an empty field moves the later ones forward.
   */
  function CreateLocale(s: Option<string>): Option<Locale>
  {
    match s
    case None => None
    case Some(text) =>
      var tk := Tokens(text, ',');
      Some(NewLocale(TokenOr(tk, 0, ""), TokenOr(tk, 1, ""), TokenOr(tk, 2, "")))
  }

  /** The Locale constructor normalises the case of what it reads: "EN,us" gives en_US. */
  lemma CreateLocaleNormalisesCase()
    ensures CreateLocale(Some("EN,us")) == Some(Locale("en", "US", ""))
  {
    TokensCons("EN", ',', "us");
    TokensSingle("us", ',');
    assert "EN" + [','] + "us" == "EN,us";
    EnUsCase();
  }

  lemma EnUsCase()
    ensures NewLocale("EN", "us", "") == Locale("en", "US", "")
  {
    assert ToLower("EN") == "en";
    assert ToUpper("us") == "US";
  }

  /** The round trip of createLocale fails for a locale with a variant but no country. */
  lemma LocaleRoundTripFails()
    ensures CreateLocale(CreateLocaleString(Some(Locale("en", "", "POSIX")))) == Some(Locale("en", "POSIX", ""))
  {
    var text := "en" + [','] + ",POSIX";
    PosixLocaleString(text);
    PosixTokens(text);
    EnPosixCase();
  }

  lemma EnPosixCase()
    ensures NewLocale("en", "POSIX", "") == Locale("en", "POSIX", "")
  {
    CaseFixed("en");
    CaseFixed("POSIX");
  }

  /** The string written for the locale with an empty country: the empty field stays between two commas. */
  lemma PosixLocaleString(text: string)
    requires text == "en" + [','] + ",POSIX"
    ensures CreateLocaleString(Some(Locale("en", "", "POSIX"))) == Some(text)
  {
    var parts: seq<string> := ["en", "", "POSIX"];
    assert parts[1..][1..] == ["POSIX"];
    assert Join(parts[1..], ',') == ",POSIX";
  }

  /** The tokenizer skips the empty field of that string. */
  lemma PosixTokens(text: string)
    requires text == "en" + [','] + ",POSIX"
    ensures Tokens(text, ',') == ["en", "POSIX"]
  {
    assert ',' !in "en" && ',' !in "POSIX";
    TokensCons("en", ',', ",POSIX");
    assert ",POSIX"[0] == ',' && ",POSIX"[1..] == "POSIX";
    TokensSingle("POSIX", ',');
  }

  /** String.split(",", -1): the fields between commas, empty ones included. */
  function Fields(s: string, d: char): (r: seq<string>)
    ensures |r| > 0
    ensures forall f | f in r :: d !in f
    decreases |s|
  {
    var k := RunEnd(s, d, 0);
    assert forall j :: 0 <= j < k ==> s[..k][j] == s[j];
    if k == |s| then [s] else [s[..k]] + Fields(s[k + 1..], d)
  }

  /** Fields of a text without the delimiter: the text itself. */
  lemma FieldsSingle(a: string, d: char)
    requires d !in a
    ensures Fields(a, d) == [a]
  {
    var k := RunEnd(a, d, 0);
    assert a[..k] == a;
  }

  /** A field before a delimiter is split off whole, even when empty. */
  lemma FieldsCons(a: string, d: char, b: string)
    requires d !in a
    ensures Fields(a + [d] + b, d) == [a] + Fields(b, d)
  {
    var s := a + [d] + b;
    assert forall j :: 0 <= j < |a| ==> s[j] == a[j] && a[j] in a;
    var k := RunEnd(s, d, 0);
    assert s[|a|] == d;
    assert k == |a|;
    assert s[..k] == a;
    assert s[k + 1..] == b;
  }

  /** The intended createLocale: the three comma-separated fields, empty ones kept. */
  function CreateLocaleFields(s: Option<string>): Option<Locale>
  {
    match s
    case None => None
    case Some(text) =>
      var f := Fields(text, ',');
      Some(NewLocale(f[0], TokenOr(f, 1, ""), TokenOr(f, 2, "")))
  }

  /** A three-part join is the first part, the delimiter and the join of the other two. */
  lemma JoinThree(x: string, y: string, z: string, d: char)
    ensures Join([x, y, z], d) == x + [d] + (y + [d] + z)
  {
    assert [x, y, z][1..] == [y, z];
    assert [y, z][1..] == [z];
    assert Join([y, z], d) == y + [d] + z;
  }

  /** Reading the fields back restores every Java locale whose parts hold no comma. */
  lemma LocaleFieldsRoundTrip(loc: Option<Locale>)
    requires loc.Some? ==> Normalized(loc.value)
    requires loc.Some? ==> ',' !in loc.value.language && ',' !in loc.value.country && ',' !in loc.value.variant
    ensures CreateLocaleFields(CreateLocaleString(loc)) == loc
  {
    if loc.Some? {
      var l := loc.value;
      NewLocaleOfNormalized(l);
      JoinThree(l.language, l.country, l.variant, ',');
      FieldsCons(l.language, ',', l.country + [','] + l.variant);
      FieldsCons(l.country, ',', l.variant);
      FieldsSingle(l.variant, ',');
    }
  }

  /** Where no part is empty, the tokenizer and the fields agree, so createLocale round-trips too. */
  lemma LocaleRoundTripWithoutEmptyParts(l: Locale)
    requires Normalized(l)
    requires |l.language| > 0 && |l.country| > 0 && |l.variant| > 0
    requires ',' !in l.language && ',' !in l.country && ',' !in l.variant
    ensures CreateLocale(CreateLocaleString(Some(l))) == Some(l)
  {
    NewLocaleOfNormalized(l);
    TokensOfJoin([l.language, l.country, l.variant], ',');
  }

  // ---------------------------------------------------------------------
  // Color

  /** Integer.toHexString of a channel, padded to two digits. */
  function HexByte(v: nat): (r: string)
    requires v < 256
    ensures |r| == 2
  {
    var h := NatToHex(v);
    if v < 16 then "0" + h
    else
      assert NatToHex(v / 16) == [HexDigitChar(v / 16)];
      h
  }

  /** "#" and three two-digit lowercase hexadecimal channels. */
  function CreateColorString(c: Option<Color>): (r: Option<string>)
    requires c.Some? ==> ValidColor(c.value)
  {
    match c
    case None => None
    case Some(v) => Some("#" + HexByte(v.red) + HexByte(v.green) + HexByte(v.blue))
  }

  /**
   * The digit values Integer.decode's parser reads with Character.digit: the
   * value of a character, or a negative number when it is no digit. Besides
   * '0'-'9', 'a'-'z' and 'A'-'Z', Java gives values to every Unicode decimal
   * digit and to the fullwidth Latin letters, and none to a surrogate unit.
   * The Unicode character database is not part of this model, so the table
   * is a parameter.
   */
  type DigitValues = char -> int

  /** What the proofs need of the table: the ASCII hexadecimal digits have their usual values. */
  predicate AsciiHexDigits(digit: DigitValues)
  {
    forall c | IsHexDigit(c) :: digit(c) == HexDigitValue(c)
  }

  /** The table restricted to ASCII: '0'-'9', 'a'-'f' and 'A'-'F' with their values, nothing else a digit. */
  function AsciiDigit(c: char): int
  {
    if IsHexDigit(c) then HexDigitValue(c) else -1
  }

  /** Character.digit(c, radix) != -1: a digit whose value is below the radix. */
  predicate IsDigitIn(digit: DigitValues, c: char, radix: nat)
  {
    0 <= digit(c) < radix
  }

  predicate AllDigitsIn(digit: DigitValues, s: string, radix: nat)
  {
    forall i | 0 <= i < |s| :: IsDigitIn(digit, s[i], radix)
  }

  function RadixValue(digit: DigitValues, s: string, radix: nat): nat
    requires AllDigitsIn(digit, s, radix)
    decreases |s|
  {
    if s == [] then 0 else RadixValue(digit, s[..|s| - 1], radix) * radix + digit(s[|s| - 1])
  }

  function Pow(b: nat, e: nat): (r: nat)
    ensures b > 0 ==> r > 0
  {
    if e == 0 then 1 else b * Pow(b, e - 1)
  }

  lemma AllDigitsInAppend(digit: DigitValues, x: string, y: string, radix: nat)
    requires AllDigitsIn(digit, x, radix) && AllDigitsIn(digit, y, radix)
    ensures AllDigitsIn(digit, x + y, radix)
  {
    var s := x + y;
    assert forall i | |x| <= i < |s| :: s[i] == y[i - |x|];
  }

  lemma Distribute(x: int, p: int, b: int, r: int)
    ensures (x * p + b) * r == x * (r * p) + b * r
  {
  }

  /** Appending digits shifts the value left by their count and adds theirs. */
  lemma {:induction false} RadixValueAppend(digit: DigitValues, x: string, y: string, radix: nat)
    requires AllDigitsIn(digit, x, radix) && AllDigitsIn(digit, y, radix)
    ensures AllDigitsIn(digit, x + y, radix)
    ensures RadixValue(digit, x + y, radix) == RadixValue(digit, x, radix) * Pow(radix, |y|) + RadixValue(digit, y, radix)
    decreases |y|
  {
    AllDigitsInAppend(digit, x, y, radix);
    if y == [] {
      assert x + y == x;
    } else {
      var y', c := y[..|y| - 1], y[|y| - 1];
      assert AllDigitsIn(digit, y', radix);
      assert (x + y)[..|x + y| - 1] == x + y';
      assert (x + y)[|x + y| - 1] == c;
      RadixValueAppend(digit, x, y', radix);
      var X, P, B := RadixValue(digit, x, radix), Pow(radix, |y'|), RadixValue(digit, y', radix);
      assert RadixValue(digit, x + y, radix) == (X * P + B) * radix + digit(c);
      assert RadixValue(digit, y, radix) == B * radix + digit(c);
      assert Pow(radix, |y|) == radix * P;
      Distribute(X, P, B, radix);
    }
  }

  predicate InIntRange(v: int) { -0x8000_0000 <= v < 0x8000_0000 }

  /**
   * Integer.decode: an optional sign, then "0x", "0X" or "#" for
   * hexadecimal, a leading "0" for octal, or decimal; a sign after the
   * prefix, no digits, a digit outside the radix or a value outside the
   * 32-bit range is a NumberFormatException (None).
   */
  function IntegerDecode(digit: DigitValues, s: string): Option<int>
  {
    if |s| == 0 then None
    else
      var negative := s[0] == '-';
      var i := if s[0] == '-' || s[0] == '+' then 1 else 0;
      var rest := s[i..];
      var (radix, digits) :=
        if StartsWith(rest, "0x") || StartsWith(rest, "0X") then (16, rest[2..])
        else if StartsWith(rest, "#") then (16, rest[1..])
        else if StartsWith(rest, "0") && |rest| > 1 then (8, rest[1..])
        else (10, rest);
      if |digits| == 0 || !AllDigitsIn(digit, digits, radix) then None
      else
        var v: int := if negative then 0 - RadixValue(digit, digits, radix) else RadixValue(digit, digits, radix);
        if InIntRange(v) then Some(v) else None
  }

  /** The public Color constants of java.awt.Color, looked up by field name. */
  function NamedColor(s: string): Option<Color>
  {
    if s == "white" || s == "WHITE" then Some(Color(255, 255, 255))
    else if s == "lightGray" || s == "LIGHT_GRAY" then Some(Color(192, 192, 192))
    else if s == "gray" || s == "GRAY" then Some(Color(128, 128, 128))
    else if s == "darkGray" || s == "DARK_GRAY" then Some(Color(64, 64, 64))
    else if s == "black" || s == "BLACK" then Some(Color(0, 0, 0))
    else if s == "red" || s == "RED" then Some(Color(255, 0, 0))
    else if s == "pink" || s == "PINK" then Some(Color(255, 175, 175))
    else if s == "orange" || s == "ORANGE" then Some(Color(255, 200, 0))
    else if s == "yellow" || s == "YELLOW" then Some(Color(255, 255, 0))
    else if s == "green" || s == "GREEN" then Some(Color(0, 255, 0))
    else if s == "magenta" || s == "MAGENTA" then Some(Color(255, 0, 255))
    else if s == "cyan" || s == "CYAN" then Some(Color(0, 255, 255))
    else if s == "blue" || s == "BLUE" then Some(Color(0, 0, 255))
    else None
  }

  /** Color.decode: the channels are bits 16-23, 8-15 and 0-7 of the decoded number. */
  function DecodeColor(digit: DigitValues, s: string): (r: Option<Color>)
    ensures r.Some? ==> ValidColor(r.value)
  {
    match IntegerDecode(digit, s)
    case None => None
    case Some(v) => Some(Color((v / 0x1_0000) % 256, (v / 256) % 256, v % 256))
  }

  /**
   * createColor: a seven-character text is decoded as a number; when that
   * gives nothing, the text is looked up as a Color constant's name.
   */
  function CreateColor(digit: DigitValues, s: Option<string>): (r: Option<Color>)
    ensures r.Some? ==> ValidColor(r.value)
  {
    match s
    case None => None
    case Some(text) =>
      var decoded := if |text| == 7 then DecodeColor(digit, text) else None;
      if decoded.Some? then decoded else NamedColor(text)
  }

  lemma HexByteDigits(digit: DigitValues, v: nat)
    requires AsciiHexDigits(digit) && v < 256
    ensures AllDigitsIn(digit, HexByte(v), 16) && RadixValue(digit, HexByte(v), 16) == v
  {
    var r := HexByte(v);
    HexDigitRoundTrip(v % 16);
    HexDigitRoundTrip(v / 16);
    if v < 16 {
      assert r == [DigitChar(0), HexDigitChar(v)];
    } else {
      assert NatToHex(v / 16) == [HexDigitChar(v / 16)];
      assert r == [HexDigitChar(v / 16), HexDigitChar(v % 16)];
    }
    assert r[..1] == [r[0]];
    assert r[..1][..0] == [];
    assert RadixValue(digit, r[..1], 16) == HexDigitValue(r[0]);
  }

  /** The six digits of createColorString's output. */
  function ColorDigits(c: Color): string
    requires ValidColor(c)
  {
    HexByte(c.red) + HexByte(c.green) + HexByte(c.blue)
  }

  /** The six digits hold the channels as bits 16-23, 8-15 and 0-7. */
  lemma ColorDigitsValue(digit: DigitValues, c: Color)
    requires AsciiHexDigits(digit) && ValidColor(c)
    ensures AllDigitsIn(digit, ColorDigits(c), 16)
    ensures RadixValue(digit, ColorDigits(c), 16) == c.red * 0x1_0000 + c.green * 256 + c.blue
  {
    var r, g, b := HexByte(c.red), HexByte(c.green), HexByte(c.blue);
    HexByteDigits(digit, c.red);
    HexByteDigits(digit, c.green);
    HexByteDigits(digit, c.blue);
    assert Pow(16, 2) == 256;
    RadixValueAppend(digit, r, g, 16);
    RadixValueAppend(digit, r + g, b, 16);
  }

  /** Integer.decode of "#" and hexadecimal digits is their value, when it fits. */
  lemma DecodeHash(digit: DigitValues, digits: string)
    requires |digits| > 0 && AllDigitsIn(digit, digits, 16) && RadixValue(digit, digits, 16) < 0x8000_0000
    ensures IntegerDecode(digit, "#" + digits) == Some(RadixValue(digit, digits, 16))
  {
    var s := "#" + digits;
    assert s[0] == '#';
    assert s[0..] == s;
    assert !StartsWith(s, "0x") && !StartsWith(s, "0X");
    assert s[..1] == "#";
    assert s[1..] == digits;
  }

  /** The channels of a number built from three bytes are those bytes. */
  lemma ChannelsOf(c: Color)
    requires ValidColor(c)
    ensures var n := c.red * 0x1_0000 + c.green * 256 + c.blue;
      (n / 0x1_0000) % 256 == c.red && (n / 256) % 256 == c.green && n % 256 == c.blue
  {
    var n := c.red * 0x1_0000 + c.green * 256 + c.blue;
    DivMod(n, 0x1_0000, c.red, c.green * 256 + c.blue);
    DivMod(c.red, 256, 0, c.red);
    DivMod(n, 256, c.red * 256 + c.green, c.blue);
    DivMod(c.red * 256 + c.green, 256, c.red, c.green);
  }

  /** The colour string is "#" and six lowercase hexadecimal digits. */
  lemma ColorStringShape(c: Color)
    requires ValidColor(c)
    ensures var s := CreateColorString(Some(c)).value;
      |s| == 7 && s[0] == '#' && (forall i | 1 <= i < 7 :: IsHexDigit(s[i]))
  {
    ColorDigitsValue(AsciiDigit, c);
    var s := CreateColorString(Some(c)).value;
    assert s == "#" + ColorDigits(c);
    assert s[1..] == ColorDigits(c);
  }

  /**
   * Integer.decode reads more than ASCII digits: with the fullwidth digits
   * U+FF11-U+FF16 valued 1-6, as Character.digit values them,
   * "#\U{FF11}\U{FF12}\U{FF13}\U{FF14}\U{FF15}\U{FF16}" is Color(0x12, 0x34, 0x56).
   */
  lemma CreateColorFullwidth(digit: DigitValues)
    requires digit('\U{FF11}') == 1 && digit('\U{FF12}') == 2 && digit('\U{FF13}') == 3
    requires digit('\U{FF14}') == 4 && digit('\U{FF15}') == 5 && digit('\U{FF16}') == 6
    ensures CreateColor(digit, Some("#\U{FF11}\U{FF12}\U{FF13}\U{FF14}\U{FF15}\U{FF16}")) == Some(Color(0x12, 0x34, 0x56))
  {
    var digits := "\U{FF11}\U{FF12}\U{FF13}\U{FF14}\U{FF15}\U{FF16}";
    assert AllDigitsIn(digit, digits, 16);
    assert RadixValue(digit, digits[..1], 16) == 1 by { assert digits[..1][..0] == []; }
    assert RadixValue(digit, digits[..2], 16) == 0x12 by { assert digits[..2][..1] == digits[..1]; }
    assert RadixValue(digit, digits[..3], 16) == 0x123 by { assert digits[..3][..2] == digits[..2]; }
    assert RadixValue(digit, digits[..4], 16) == 0x1234 by { assert digits[..4][..3] == digits[..3]; }
    assert RadixValue(digit, digits[..5], 16) == 0x12345 by { assert digits[..5][..4] == digits[..4]; }
    assert RadixValue(digit, digits, 16) == 0x123456 by { assert digits[..5] == digits[..|digits| - 1]; }
    DecodeHash(digit, digits);
    assert "#" + digits == "#\U{FF11}\U{FF12}\U{FF13}\U{FF14}\U{FF15}\U{FF16}";
  }

  /** createColor reads back every colour createColorString writes. */
  lemma ColorRoundTrip(digit: DigitValues, c: Option<Color>)
    requires AsciiHexDigits(digit)
    requires c.Some? ==> ValidColor(c.value)
    ensures CreateColor(digit, CreateColorString(c)) == c
  {
    if c.Some? {
      var v := c.value;
      ColorDigitsValue(digit, v);
      var s := CreateColorString(c).value;
      assert s == "#" + ColorDigits(v);
      DecodeHash(digit, ColorDigits(v));
      ChannelsOf(v);
    }
  }

  // ---------------------------------------------------------------------
  // Fonts: the text form, the CSS shorthand and the CSS property list.
  // Font.PLAIN is 0, Font.BOLD is 1 and Font.ITALIC is 2.

  const PLAIN := 0
  const BOLD := 1
  const ITALIC := 2

  /** Bit 0 (Font.BOLD) of a style in two's complement, as Java's `&` sees it. */
  predicate IsBold(style: int)
  {
    style % 2 == 1
  }

  /** Bit 1 (Font.ITALIC) of a style in two's complement. */
  predicate IsItalic(style: int)
  {
    (style / 2) % 2 == 1
  }

  function CreateFontString(f: Option<Font>): Option<string>
  {
    match f
    case None => None
    case Some(v) => Some(Join([v.name, IntToString(v.style), IntToString(v.size)], ','))
  }

  /** createFontCssString: "bold ", "italic ", the size in points and the quoted name. */
  function CreateFontCssString(f: Option<Font>): Option<string>
  {
    match f
    case None => None
    case Some(v) =>
      Some((if IsBold(v.style) then "bold " else "") + (if IsItalic(v.style) then "italic " else "")
        + IntToString(v.size) + "pt " + "\"" + v.name + "\"")
  }

  /** The font-style entry: "normal" for a plain font, else "italic" when the italic bit is set. */
  function FontStyleEntry(style: int): Option<Pair>
  {
    if style == PLAIN then Some(Pair("font-style", "normal"))
    else if IsItalic(style) then Some(Pair("font-style", "italic")) else None
  }

  /** The font-weight entry: "normal" for a plain font, else "bold" when the bold bit is set. */
  function FontWeightEntry(style: int): Option<Pair>
  {
    if style == PLAIN then Some(Pair("font-weight", "normal"))
    else if IsBold(style) then Some(Pair("font-weight", "bold")) else None
  }

  /**
   * createFontCSSProperties: with at least three tokens, the family (with
   * two fallbacks), the size in pixels, then the italic and bold entries;
   * a plain style gives "normal" for both, otherwise each entry is there
   * only when its bit is set.
   */
  function CreateFontCssProperties(fontType: Option<string>): Option<seq<Option<Pair>>>
  {
    match fontType
    case None => None
    case Some(text) =>
      var tk := Tokens(text, ',');
      if |tk| < 3 then None
      else
        var style := GetAsInteger(tk[1]);
        var size := GetAsInteger(tk[2]);
        var family := Pair("font-family", tk[0] + ", Verdana, Arial");
        var px := Pair("font-size", IntToString(size) + "px");
        Some([Some(family), Some(px), FontStyleEntry(style), FontWeightEntry(style)])
  }

  /** Null and texts with fewer than three tokens give null. */
  lemma FontCssPropertiesNeedThreeTokens(fontType: Option<string>)
    ensures CreateFontCssProperties(fontType).None? <==> fontType.None? || |Tokens(fontType.value, ',')| < 3
  {
  }

  /** The tokens of a font's text form: its name, style and size. */
  lemma FontStringTokens(f: Font)
    requires |f.name| > 0 && ',' !in f.name
    ensures Tokens(CreateFontString(Some(f)).value, ',') == [f.name, IntToString(f.style), IntToString(f.size)]
  {
    IntToStringHasNoDelimiter(f.style, ',');
    IntToStringHasNoDelimiter(f.size, ',');
    TokensOfJoin([f.name, IntToString(f.style), IntToString(f.size)], ',');
  }

  /** Three tokens name, style and size give the family, the size in pixels and the style entries. */
  lemma FontCssPropertiesOfTokens(text: string, name: string, style: int, size: int)
    requires Tokens(text, ',') == [name, IntToString(style), IntToString(size)]
    ensures CreateFontCssProperties(Some(text)) == Some([Some(Pair("font-family", name + ", Verdana, Arial")),
      Some(Pair("font-size", IntToString(size) + "px")), FontStyleEntry(style), FontWeightEntry(style)])
  {
    GetAsIntegerOfIntToString(style);
    GetAsIntegerOfIntToString(size);
  }

  /**
   * The properties of a font's own text form: the family is its name, the
   * size its size, and the style entries follow its style.
   */
  lemma FontCssPropertiesOfFontString(f: Font)
    requires |f.name| > 0 && ',' !in f.name
    ensures CreateFontCssProperties(CreateFontString(Some(f))) == Some([Some(Pair("font-family", f.name + ", Verdana, Arial")),
      Some(Pair("font-size", IntToString(f.size) + "px")), FontStyleEntry(f.style), FontWeightEntry(f.style)])
  {
    var text := CreateFontString(Some(f)).value;
    FontStringTokens(f);
    FontCssPropertiesOfTokens(text, f.name, f.style, f.size);
  }

  /** A plain style gives "normal" for both entries; otherwise each entry is there exactly when its bit is set. */
  lemma FontStyleEntries(style: int)
    ensures style == PLAIN ==> FontStyleEntry(style) == Some(Pair("font-style", "normal")) && FontWeightEntry(style) == Some(Pair("font-weight", "normal"))
    ensures style != PLAIN ==> (FontStyleEntry(style).Some? <==> IsItalic(style)) && (FontWeightEntry(style).Some? <==> IsBold(style))
    ensures style == BOLD + ITALIC ==> FontStyleEntry(style) == Some(Pair("font-style", "italic")) && FontWeightEntry(style) == Some(Pair("font-weight", "bold"))
  {
  }

  /** The CSS shorthand starts with "bold " exactly for bold fonts. */
  lemma FontCssStringBold(f: Font)
    ensures StartsWith(CreateFontCssString(Some(f)).value, "bold ") <==> IsBold(f.style)
  {
    var s := CreateFontCssString(Some(f)).value;
    if !IsBold(f.style) {
      if IsItalic(f.style) {
        assert s[0] == 'i';
      } else {
        var n := IntToString(f.size);
        assert s[0] == n[0];
        if f.size >= 0 {
          assert IsDigit(n[0]);
        }
      }
    }
  }

  // ---------------------------------------------------------------------
  // stringFormat: the normalisation guessFont applies to font names.

  /**
   * The two classes of Character.getType that stringFormat tests:
   * LOWERCASE_LETTER and UPPERCASE_LETTER. The Unicode character database
   * is not part of this model, so the classes are a parameter. Java tests
   * each UTF-16 unit, and a surrogate is in neither class.
   */
  datatype LetterClasses = LetterClasses(isLower: char -> bool, isUpper: char -> bool)

  /** What the proofs need of the classes: the space (SPACE_SEPARATOR) is in neither. */
  predicate SpaceIsNoLetter(lc: LetterClasses)
  {
    !lc.isLower(' ') && !lc.isUpper(' ')
  }

  /** The camel-case test of stringFormat: a lowercase letter followed by an uppercase one. */
  predicate CamelPair(lc: LetterClasses, a: char, b: char)
  {
    lc.isLower(a) && lc.isUpper(b)
  }

  /** A space after every lowercase letter that a capital follows. */
  function SplitCamel(lc: LetterClasses, s: string): (r: string)
    decreases |s|
  {
    if |s| == 0 then []
    else if |s| >= 2 && CamelPair(lc, s[0], s[1]) then [s[0], ' '] + SplitCamel(lc, s[1..])
    else [s[0]] + SplitCamel(lc, s[1..])
  }

  /**
   * stringFormat: drops "MT", "MS", "LT" and "PS" (in that order), turns
   * '-' into ' ', then separates camel case with spaces.
   */
  function StringFormat(lc: LetterClasses, fn: Option<string>): Option<string>
  {
    match fn
    case None => None
    case Some(s) =>
      if |s| == 0 then Some(s)
      else
        var t := ReplaceAll(ReplaceAll(ReplaceAll(ReplaceAll(s, "MT", ""), "MS", ""), "LT", ""), "PS", "");
        Some(SplitCamel(lc, ReplaceAll(t, "-", " ")))
  }

  /** The text without its spaces. */
  function NoSpaces(s: string): string
    decreases |s|
  {
    if |s| == 0 then [] else (if s[0] == ' ' then [] else [s[0]]) + NoSpaces(s[1..])
  }

  /** Splitting camel case only adds spaces: without spaces the text is unchanged. */
  lemma {:induction false} SplitCamelOnlyAddsSpaces(lc: LetterClasses, s: string)
    ensures NoSpaces(SplitCamel(lc, s)) == NoSpaces(s)
    decreases |s|
  {
    if |s| > 0 {
      SplitCamelOnlyAddsSpaces(lc, s[1..]);
      var r := SplitCamel(lc, s);
      if |s| >= 2 && CamelPair(lc, s[0], s[1]) {
        assert r[1..] == [' '] + SplitCamel(lc, s[1..]);
        assert r[1..][1..] == SplitCamel(lc, s[1..]);
      } else {
        assert r[1..] == SplitCamel(lc, s[1..]);
      }
    }
  }

  /** SplitCamel of s starts with s's first character. */
  lemma SplitCamelHead(lc: LetterClasses, s: string)
    requires |s| > 0
    ensures |SplitCamel(lc, s)| > 0 && SplitCamel(lc, s)[0] == s[0]
  {
  }

  /** No lowercase letter is directly followed by a capital. */
  predicate Separated(lc: LetterClasses, r: string)
  {
    forall i | 0 <= i < |r| - 1 :: !CamelPair(lc, r[i], r[i + 1])
  }

  /** After splitting, no lowercase letter is directly followed by a capital, whatever the letter classes. */
  lemma {:induction false} SplitCamelSeparates(lc: LetterClasses, s: string)
    requires SpaceIsNoLetter(lc)
    ensures Separated(lc, SplitCamel(lc, s))
    decreases |s|
  {
    if |s| > 0 {
      SplitCamelSeparates(lc, s[1..]);
      var r := SplitCamel(lc, s);
      var tail := SplitCamel(lc, s[1..]);
      assert Separated(lc, tail);
      if |s| >= 2 && CamelPair(lc, s[0], s[1]) {
        assert r == [s[0], ' '] + tail;
        forall i | 0 <= i < |r| - 1
          ensures !CamelPair(lc, r[i], r[i + 1])
        {
          if i >= 2 {
            assert r[i] == tail[i - 2] && r[i + 1] == tail[i - 1];
            assert !CamelPair(lc, tail[i - 2], tail[i - 1]);
          } else {
            assert r[1] == ' ';
          }
        }
      } else {
        assert r == [s[0]] + tail;
        if |s| >= 2 {
          SplitCamelHead(lc, s[1..]);
        }
        forall i | 0 <= i < |r| - 1
          ensures !CamelPair(lc, r[i], r[i + 1])
        {
          if i >= 1 {
            assert r[i] == tail[i - 1] && r[i + 1] == tail[i];
            assert !CamelPair(lc, tail[i - 1], tail[i]);
          }
        }
      }
    }
  }

  /** A lowercase letter that a capital follows gets its space, accented or not: "éA" becomes "é A". */
  lemma SplitCamelNonAscii(lc: LetterClasses)
    requires lc.isLower('\U{E9}') && lc.isUpper('A')
    ensures SplitCamel(lc, "\U{E9}A") == "\U{E9} A"
  {
    assert "\U{E9}A"[1..] == "A";
    assert SplitCamel(lc, "A") == "A";
  }

  lemma {:induction false} SplitCamelKeepsOut(lc: LetterClasses, s: string, c: char)
    requires c != ' ' && c !in s
    ensures c !in SplitCamel(lc, s)
    decreases |s|
  {
    if |s| > 0 {
      assert c !in s[1..] by {
        assert forall x | x in s[1..] :: x in s;
      }
      SplitCamelKeepsOut(lc, s[1..], c);
    }
  }

  /** stringFormat leaves no '-', no lowercase letter directly followed by a capital, and keeps null and "". */
  lemma StringFormatProperties(lc: LetterClasses, fn: Option<string>)
    requires SpaceIsNoLetter(lc)
    ensures fn.None? ==> StringFormat(lc, fn).None?
    ensures fn == Some("") ==> StringFormat(lc, fn) == Some("")
    ensures fn.Some? ==> StringFormat(lc, fn).Some? && '-' !in StringFormat(lc, fn).value
    ensures fn.Some? ==> Separated(lc, StringFormat(lc, fn).value)
  {
    if fn.Some? && |fn.value| > 0 {
      var s := fn.value;
      var t := ReplaceAll(ReplaceAll(ReplaceAll(ReplaceAll(s, "MT", ""), "MS", ""), "LT", ""), "PS", "");
      ReplaceCharRemovesIt(t, '-', ' ');
      SplitCamelKeepsOut(lc, ReplaceAll(t, "-", " "), '-');
      SplitCamelSeparates(lc, ReplaceAll(t, "-", " "));
    }
  }

}
