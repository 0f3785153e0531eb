// ImageLoader: the content type guessed from the first bytes of a file
// (and, for container formats, from its name), and the arithmetic that
// places a CSS background image in its container.
module ImageLoader {
  import opened Wrappers
  import opened JavaLang

  /** A byte as `b & 0xff` reads it: 0..255. */
  newtype byte = b: int | 0 <= b < 256

  /** The number of bytes getContentType inspects. */
  const HeaderLength := 11

  /** The first eleven bytes, zero-padded when the data is shorter (a fresh byte[11] filled by arraycopy). */
  function Header(data: seq<byte>): (h: seq<byte>)
    ensures |h| == HeaderLength
  {
    seq(HeaderLength, i requires 0 <= i < HeaderLength => if i < |data| then data[i] else 0)
  }

  /**
   * contentTypeByName: the type registered for the lower-cased text after
   * the last '.' of the name. The registry is loaded from a properties
   * resource, so here it is a parameter.
   */
  function ContentTypeByName(name: Option<string>, mimeTypes: map<string, string>): (r: Option<string>)
    ensures r.Some? ==> name.Some? && LastIndexOf(name.value, '.') >= 0
  {
    match name
    case None => None
    case Some(n) =>
      var k := LastIndexOf(n, '.');
      if k == -1 then None
      else
        var ext := ToLower(n[k + 1..]);
        if ext in mimeTypes then Some(mimeTypes[ext]) else None
  }

  /** The name-based type when there is one, else the fallback. */
  function ByNameOr(name: Option<string>, mimeTypes: map<string, string>, fallback: string): string
  {
    var byName := ContentTypeByName(name, mimeTypes);
    if byName.Some? then byName.value else fallback
  }

  /**
   * The content type of the header's signature, checked in the source's
   * order on the bytes c1..c11; None when none matches.
   */
  function SignatureType(h: seq<byte>, name: Option<string>, mimeTypes: map<string, string>): Option<string>
    requires |h| == HeaderLength
  {
    var c1, c2, c3, c4, c5, c6 := h[0], h[1], h[2], h[3], h[4], h[5];
    var c7, c8, c9, c10, c11 := h[6], h[7], h[8], h[9], h[10];
    if c1 == 0xCA && c2 == 0xFE && c3 == 0xBA && c4 == 0xBE then Some("application/java-vm")
    else if c1 == 0xD0 && c2 == 0xCF && c3 == 0x11 && c4 == 0xE0 && c5 == 0xA1 && c6 == 0xB1 && c7 == 0x1A && c8 == 0xE1 then
      Some(ByNameOr(name, mimeTypes, "application/msword"))
    // "%PDF-1."
    else if c1 == 0x25 && c2 == 0x50 && c3 == 0x44 && c4 == 0x46 && c5 == 0x2D && c6 == 0x31 && c7 == 0x2E then Some("application/pdf")
    else if c1 == 0x38 && c2 == 0x42 && c3 == 0x50 && c4 == 0x53 && c5 == 0x00 && c6 == 0x01 then Some("image/photoshop")
    // "%!PS"
    else if c1 == 0x25 && c2 == 0x21 && c3 == 0x50 && c4 == 0x53 then Some("application/postscript")
    else if c1 == 0xFF && c2 == 0xFB && c3 == 0x30 then Some("audio/mp3")
    // "ID3"
    else if c1 == 0x49 && c2 == 0x44 && c3 == 0x33 then Some("audio/mp3")
    else if c1 == 0xAC && c2 == 0xED then Some("application/x-java-serialized-object")
    // '<' then '!', "html", "head", "body" in either case
    else if c1 == 0x3C && (c2 == 0x21
      || (c2 == 0x68 && ((c3 == 0x74 && c4 == 0x6D && c5 == 0x6C) || (c3 == 0x65 && c4 == 0x61 && c5 == 0x64)))
      || (c2 == 0x62 && c3 == 0x6F && c4 == 0x64 && c5 == 0x79)
      || (c2 == 0x48 && ((c3 == 0x54 && c4 == 0x4D && c5 == 0x4C) || (c3 == 0x45 && c4 == 0x41 && c5 == 0x44)))
      || (c2 == 0x42 && c3 == 0x4F && c4 == 0x44 && c5 == 0x59))
    then Some("text/html")
    // "<?xml "
    else if c1 == 0x3C && c2 == 0x3F && c3 == 0x78 && c4 == 0x6D && c5 == 0x6C && c6 == 0x20 then Some("application/xml")
    // UTF-16 "<?x", big and little endian, after a byte order mark
    else if c1 == 0xFE && c2 == 0xFF && c3 == 0 && c4 == 0x3C && c5 == 0 && c6 == 0x3F && c7 == 0 && c8 == 0x78 then Some("application/xml")
    else if c1 == 0xFF && c2 == 0xFE && c3 == 0x3C && c4 == 0 && c5 == 0x3F && c6 == 0 && c7 == 0x78 && c8 == 0 then Some("application/xml")
    // "BM"
    else if c1 == 0x42 && c2 == 0x4D then Some("image/bmp")
    else if c1 == 0x49 && c2 == 0x49 && c3 == 0x2A && c4 == 0x00 then Some("image/tiff")
    else if c1 == 0x4D && c2 == 0x4D && c3 == 0x00 && c4 == 0x2A then Some("image/tiff")
    // "GIF8"
    else if c1 == 0x47 && c2 == 0x49 && c3 == 0x46 && c4 == 0x38 then Some("image/gif")
    // "#def"
    else if c1 == 0x23 && c2 == 0x64 && c3 == 0x65 && c4 == 0x66 then Some("image/x-bitmap")
    // "! XPM2"
    else if c1 == 0x21 && c2 == 0x20 && c3 == 0x58 && c4 == 0x50 && c5 == 0x4D && c6 == 0x32 then Some("image/x-pixmap")
    else if c1 == 137 && c2 == 80 && c3 == 78 && c4 == 71 && c5 == 13 && c6 == 10 && c7 == 26 && c8 == 10 then Some("image/png")
    else if c1 == 0xFF && c2 == 0xD8 && c3 == 0xFF && c4 == 0xE0 then Some("image/jpeg")
    // Exif: "Exif" and a zero byte from the seventh byte on
    else if c1 == 0xFF && c2 == 0xD8 && c3 == 0xFF && c4 == 0xE1 && c7 == 0x45 && c8 == 0x78 && c9 == 0x69 && c10 == 0x66 && c11 == 0 then
      Some("image/jpeg")
    else if c1 == 0xFF && c2 == 0xD8 && c3 == 0xFF && c4 == 0xEE then Some("image/jpg")
    // "AC" and five zero bytes from the seventh byte on
    else if c1 == 0x41 && c2 == 0x43 && c7 == 0 && c8 == 0 && c9 == 0 && c10 == 0 && c11 == 0 then Some("application/acad")
    else if c1 == 0x2E && c2 == 0x73 && c3 == 0x6E && c4 == 0x64 then Some("audio/basic")
    else if c1 == 0x64 && c2 == 0x6E && c3 == 0x73 && c4 == 0x2E then Some("audio/basic")
    // "RIFF"
    else if c1 == 0x52 && c2 == 0x49 && c3 == 0x46 && c4 == 0x46 then Some("audio/x-wav")
    // "PK"
    else if c1 == 0x50 && c2 == 0x4B then Some(ByNameOr(name, mimeTypes, "application/zip"))
    else None
  }

  /** getContentType: null data gives null; otherwise the signature's type, else the name's type. */
  function ContentType(data: Option<seq<byte>>, name: Option<string>, mimeTypes: map<string, string>): (r: Option<string>)
    ensures data.None? ==> r.None?
  {
    match data
    case None => None
    case Some(d) =>
      var t := SignatureType(Header(d), name, mimeTypes);
      if t.Some? then t else ContentTypeByName(name, mimeTypes)
  }

  /** Only the first eleven bytes count: what follows them changes nothing. */
  lemma ContentTypeReadsElevenBytes(data: seq<byte>, rest: seq<byte>, name: Option<string>, mimeTypes: map<string, string>)
    requires |data| >= HeaderLength
    ensures ContentType(Some(data + rest), name, mimeTypes) == ContentType(Some(data), name, mimeTypes)
  {
    assert Header(data + rest) == Header(data);
  }

  /** Shorter data reads as if padded with zero bytes to eleven. */
  lemma ContentTypeZeroPadded(data: seq<byte>, name: Option<string>, mimeTypes: map<string, string>)
    requires |data| < HeaderLength
    ensures ContentType(Some(data), name, mimeTypes) == ContentType(Some(data + seq(HeaderLength - |data|, _ => 0)), name, mimeTypes)
  {
    var padded := data + seq(HeaderLength - |data|, _ => 0);
    assert forall i | 0 <= i < HeaderLength :: Header(padded)[i] == Header(data)[i];
    assert Header(padded) == Header(data);
  }

  /** CAFEBABE is checked first: a class file is application/java-vm whatever its name. */
  lemma JavaClassFirst(data: seq<byte>, name: Option<string>, mimeTypes: map<string, string>)
    requires |data| >= 4 && data[0] == 0xCA && data[1] == 0xFE && data[2] == 0xBA && data[3] == 0xBE
    ensures ContentType(Some(data), name, mimeTypes) == Some("application/java-vm")
  {
    var h := Header(data);
    assert h[0] == 0xCA && h[1] == 0xFE && h[2] == 0xBA && h[3] == 0xBE;
  }

  /** "%PDF-1." is application/pdf. */
  lemma PdfSignature(data: seq<byte>, name: Option<string>, mimeTypes: map<string, string>)
    requires |data| >= 7 && data[..7] == [0x25, 0x50, 0x44, 0x46, 0x2D, 0x31, 0x2E] // "%PDF-1."
    ensures ContentType(Some(data), name, mimeTypes) == Some("application/pdf")
  {
    var h := Header(data);
    assert forall i | 0 <= i < 7 :: h[i] == data[..7][i];
    assert h[0] == 0x25 && h[1] == 0x50;
  }

  /** "GIF8" is image/gif. */
  lemma GifSignature(data: seq<byte>, name: Option<string>, mimeTypes: map<string, string>)
    requires |data| >= 4 && data[..4] == [0x47, 0x49, 0x46, 0x38] // "GIF8"
    ensures ContentType(Some(data), name, mimeTypes) == Some("image/gif")
  {
    var h := Header(data);
    assert forall i | 0 <= i < 4 :: h[i] == data[..4][i];
    assert h[0] == 0x47 && h[1] == 0x49;
  }

  /** The eight-byte PNG signature is image/png. */
  lemma PngSignature(data: seq<byte>, name: Option<string>, mimeTypes: map<string, string>)
    requires |data| >= 8 && data[..8] == [137, 80, 78, 71, 13, 10, 26, 10]
    ensures ContentType(Some(data), name, mimeTypes) == Some("image/png")
  {
    var h := Header(data);
    assert forall i | 0 <= i < 8 :: h[i] == data[..8][i];
    assert h[0] == 137;
  }

  /** "PK" is the type the name gives when it gives one, else application/zip. */
  lemma ZipSignature(data: seq<byte>, name: Option<string>, mimeTypes: map<string, string>)
    requires |data| >= 2 && data[0] == 0x50 && data[1] == 0x4B // "PK"
    ensures var byName := ContentTypeByName(name, mimeTypes);
      ContentType(Some(data), name, mimeTypes) == if byName.Some? then byName else Some("application/zip")
  {
    var h := Header(data);
    assert h[0] == 0x50 && h[1] == 0x4B;
  }

  /** A name is recognised by its last extension, whatever its case. */
  lemma ContentTypeByExtension(base: string, ext: string, mimeTypes: map<string, string>)
    requires '.' !in ext && ToLower(ext) in mimeTypes
    ensures ContentTypeByName(Some(base + "." + ext), mimeTypes) == Some(mimeTypes[ToLower(ext)])
  {
    var n := base + "." + ext;
    assert n[|base|] == '.';
    assert forall j | |base| < j < |n| :: n[j] == ext[j - |base| - 1];
    var k := LastIndexOf(n, '.');
    assert k == |base|;
    assert n[k + 1..] == ext;
  }

  // ---------------------------------------------------------------------
  // CSS background size and position

  /**
   * getImageSize: "Npx" is N, "P%" is P percent of the container, anything
   * else -1. The product is a Java int product, so it wraps around, and the
   * division truncates toward zero.
   */
  function ImageSize(containerSize: int, cssText: Option<string>): int
  {
    match cssText
    case None => -1
    case Some(t) =>
      if EndsWith(t, "px") then GetAsInteger(t[..|t| - 2])
      else if EndsWith(t, "%") then JavaDiv(Int32(GetAsInteger(t[..|t| - 1]) * containerSize), 100)
      else -1
  }

  /**
   * getImagePosition: pixels, a percentage of the free space, or a keyword;
   * anything else 0. The free space and the product are Java int arithmetic.
   */
  function ImagePosition(containerSize: int, imageSize: int, cssText: Option<string>): int
  {
    match cssText
    case None => 0
    case Some(t) =>
      if EndsWith(t, "px") then GetAsInteger(t[..|t| - 2])
      else if EndsWith(t, "%") then JavaDiv(Int32(GetAsInteger(t[..|t| - 1]) * Int32(containerSize - imageSize)), 100)
      else if t == "left" || t == "top" then 0
      else if t == "right" || t == "bottom" then Int32(containerSize - imageSize)
      else if t == "center" then JavaDiv(Int32(containerSize - imageSize), 2)
      else 0
  }

  lemma SuffixStripped(s: string, suffix: string)
    ensures EndsWith(s + suffix, suffix) && (s + suffix)[..|s|] == s
  {
    assert (s + suffix)[|s|..] == suffix;
  }

  /** A size in pixels, an int as Utils.getAsInteger returns, reads back as that number. */
  lemma ImageSizePixels(containerSize: int, n: int)
    requires IsInt32(n)
    ensures ImageSize(containerSize, Some(IntToString(n) + "px")) == n
  {
    SuffixStripped(IntToString(n), "px");
    GetAsIntegerOfIntToString(n);
  }

  /**
   * A percentage is that share of the container, truncated toward zero;
   * within the int range it is exact, beyond it the product wraps.
   */
  lemma ImageSizePercent(containerSize: int, p: int)
    requires IsInt32(p)
    ensures ImageSize(containerSize, Some(IntToString(p) + "%")) == JavaDiv(Int32(p * containerSize), 100)
    ensures IsInt32(p * containerSize) ==> ImageSize(containerSize, Some(IntToString(p) + "%")) == JavaDiv(p * containerSize, 100)
  {
    var t := IntToString(p) + "%";
    SuffixStripped(IntToString(p), "%");
    GetAsIntegerOfIntToString(p);
    assert !EndsWith(t, "px") by {
      assert t[|t| - 1] == '%';
    }
  }

  /** Null and texts that end neither in "px" nor in "%" give -1. */
  lemma ImageSizeUnknown(containerSize: int, cssText: Option<string>)
    requires cssText.Some? ==> !EndsWith(cssText.value, "px") && !EndsWith(cssText.value, "%")
    ensures ImageSize(containerSize, cssText) == -1
  {
  }

  /** left and top align at 0, right and bottom at the far edge, center halfway between. */
  lemma ImagePositionKeywords(containerSize: int, imageSize: int)
    ensures ImagePosition(containerSize, imageSize, Some("left")) == 0
    ensures ImagePosition(containerSize, imageSize, Some("top")) == 0
    ensures ImagePosition(containerSize, imageSize, Some("right")) == Int32(containerSize - imageSize)
    ensures ImagePosition(containerSize, imageSize, Some("bottom")) == Int32(containerSize - imageSize)
    ensures ImagePosition(containerSize, imageSize, Some("center")) == JavaDiv(Int32(containerSize - imageSize), 2)
    ensures IsInt32(containerSize - imageSize) ==>
      ImagePosition(containerSize, imageSize, Some("right")) == containerSize - imageSize &&
      ImagePosition(containerSize, imageSize, Some("center")) == JavaDiv(containerSize - imageSize, 2)
    ensures ImagePosition(containerSize, imageSize, None) == 0
  {
    assert !EndsWith("left", "px") && !EndsWith("left", "%");
    assert !EndsWith("top", "px") && !EndsWith("top", "%");
    assert !EndsWith("right", "px") && !EndsWith("right", "%");
    assert !EndsWith("bottom", "px") && !EndsWith("bottom", "%");
    assert !EndsWith("center", "px") && !EndsWith("center", "%");
  }

  /** A percentage position is that share of the free space, exact while the product stays an int. */
  lemma ImagePositionPercent(containerSize: int, imageSize: int, p: int)
    requires IsInt32(p)
    ensures ImagePosition(containerSize, imageSize, Some(IntToString(p) + "%"))
            == JavaDiv(Int32(p * Int32(containerSize - imageSize)), 100)
    ensures IsInt32(containerSize - imageSize) && IsInt32(p * (containerSize - imageSize)) ==>
      ImagePosition(containerSize, imageSize, Some(IntToString(p) + "%")) == JavaDiv(p * (containerSize - imageSize), 100)
  {
    var t := IntToString(p) + "%";
    SuffixStripped(IntToString(p), "%");
    GetAsIntegerOfIntToString(p);
    assert !EndsWith(t, "px") by {
      assert t[|t| - 1] == '%';
    }
  }

  /**
   * "99999999%" of a 100-pixel container is not 99999999 pixels: the int
   * product 9999999900 wraps to 1410065308, which gives 14100653.
   */
  lemma ImageSizePercentWraps()
    ensures ImageSize(100, Some(IntToString(99999999) + "%")) == 14100653
  {
    ImageSizePercent(100, 99999999);
    DivMod(9999999900, 0x1_0000_0000, 2, 1410065308);
  }

  // ---------------------------------------------------------------------
  // Repeated backgrounds

  /**
   * What the tiling loop counts down: the start itself while the tiles step
   * back, the distance to the largest int while a negative size steps it
   * forward, and 0 once the start is at most 0.
   */
  function RepeatMeasure(start: int, imageSize: int): nat
    requires IsInt32(start)
  {
    if start <= 0 then 0 else if imageSize > 0 then start else 0x8000_0000 - start
  }

  /**
   * The start of the first tile: the start stepped back one image size at a
   * time, in Java int arithmetic, until it is at most 0.
   */
  function RepeatStart(start: int, imageSize: int): int
    requires IsInt32(start) && IsInt32(imageSize)
    requires start <= 0 || imageSize != 0
    decreases RepeatMeasure(start, imageSize)
  {
    if start <= 0 then start
    else
      Int32WrapsUp(start - imageSize);
      RepeatStart(Int32(start - imageSize), imageSize)
  }

  /**
   * A start at most 0 is kept. With a positive size a positive start lands
   * in (-imageSize, 0], a whole number of tiles back. With a negative size
   * (an image not yet loaded reports -1) the start climbs until the int
   * wraps, and lands in [-2^31, -2^31 - imageSize).
   */
  lemma {:induction false} RepeatStartBounds(start: int, imageSize: int)
    requires IsInt32(start) && IsInt32(imageSize)
    requires start <= 0 || imageSize != 0
    ensures start <= 0 ==> RepeatStart(start, imageSize) == start
    ensures start > 0 && imageSize > 0 ==> -imageSize < RepeatStart(start, imageSize) <= 0
    ensures start > 0 && imageSize > 0 ==> (start - RepeatStart(start, imageSize)) % imageSize == 0
    ensures start > 0 && imageSize < 0 ==> -0x8000_0000 <= RepeatStart(start, imageSize) < -0x8000_0000 - imageSize
  {
    if start > 0 && imageSize > 0 {
      RepeatStartBack(start, imageSize);
    } else if start > 0 {
      RepeatStartWraps(start, imageSize);
    }
  }

  /** One step of the tiling loop. */
  lemma RepeatStartStep(start: int, imageSize: int)
    requires IsInt32(start) && IsInt32(imageSize) && start > 0 && imageSize != 0
    ensures IsInt32(Int32(start - imageSize))
    ensures RepeatStart(start, imageSize) == RepeatStart(Int32(start - imageSize), imageSize)
  {
  }

  /** With a positive size the start steps back whole tiles into (-imageSize, 0]. */
  lemma {:induction false} RepeatStartBack(start: int, imageSize: int)
    requires IsInt32(start) && 0 < imageSize < 0x8000_0000 && start > 0
    ensures -imageSize < RepeatStart(start, imageSize) <= 0
    ensures (start - RepeatStart(start, imageSize)) % imageSize == 0
    decreases start
  {
    var r := RepeatStart(start, imageSize);
    var next := start - imageSize;
    RepeatStartStep(start, imageSize);
    assert Int32(start - imageSize) == next;
    if next > 0 {
      RepeatStartBack(next, imageSize);
      ModShift(next - r, imageSize);
      assert (start - r) == (next - r) + imageSize;
    } else {
      assert r == next;
      DivMod(imageSize, imageSize, 1, 0);
      assert start - r == imageSize;
    }
  }

  /** With a negative size the start climbs until the int wraps, into [-2^31, -2^31 - imageSize). */
  lemma {:induction false} RepeatStartWraps(start: int, imageSize: int)
    requires 0 < start < 0x8000_0000 && -0x8000_0000 <= imageSize < 0
    ensures -0x8000_0000 <= RepeatStart(start, imageSize) < -0x8000_0000 - imageSize
    decreases 0x8000_0000 - start
  {
    RepeatStartStep(start, imageSize);
    if start - imageSize < 0x8000_0000 {
      assert Int32(start - imageSize) == start - imageSize;
      RepeatStartWraps(start - imageSize, imageSize);
    } else {
      Int32WrapsUp(start - imageSize);
      assert RepeatStart(start, imageSize) == start - imageSize - 0x1_0000_0000;
    }
  }

  /** An image that is not loaded yet reports size -1: every positive start ends at the smallest int. */
  lemma UnloadedImageRepeatStart(start: int)
    requires 0 < start < 0x8000_0000
    ensures RepeatStart(start, -1) == -0x8000_0000
  {
    RepeatStartBounds(start, -1);
  }

  lemma ModShift(a: int, m: int)
    requires m > 0 && a % m == 0
    ensures (a + m) % m == 0
  {
    var q := a / m;
    assert a == q * m;
    assert a + m == (q + 1) * m;
    DivMod(a + m, m, q + 1, 0);
  }

  /**
   * adjustRepeatCoordinate, in Java int arithmetic. The source loops
   * forever for a positive start and a size of 0; the precondition
   * excludes exactly that.
   */
  method AdjustRepeatCoordinate(startPosition: int, imageSize: int) returns (result: int)
    requires IsInt32(startPosition) && IsInt32(imageSize)
    requires startPosition <= 0 || imageSize != 0
    ensures result == RepeatStart(startPosition, imageSize)
  {
    result := startPosition;
    while result > 0
      invariant IsInt32(result) && (result <= 0 || imageSize != 0)
      invariant RepeatStart(result, imageSize) == RepeatStart(startPosition, imageSize)
      decreases RepeatMeasure(result, imageSize)
    {
      Int32WrapsUp(result - imageSize);
      result := Int32(result - imageSize);
    }
  }
}
