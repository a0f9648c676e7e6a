/** Everything that can be drawn: the 3x5 digits, the 4x8 letters, the number and text
    groups built from them, and plain pictures. */
module PaintSources {
  import opened Arithmetic

  type LedColor = c: nat | c < 0x1_0000_0000

  const BLACK: LedColor := 0x000000
  const WHITE: LedColor := 0xffffff

  /** Font words; bit y*3 + 2-x of a digit's word is its pixel (x, y). */
  const DIGIT_FONT: seq<nat> :=
    [0x7B6F, 0x2492, 0x73E7, 0x73CF, 0x5BC9, 0x79CF, 0x79EF, 0x7249, 0x7BEF, 0x7BCF]

  /** The 128-word ASCII font; bit y*4 + 3-x of a letter's word is its pixel (x, y). */
  type AsciiFont = f: seq<nat> | |f| == 128 && forall i :: 0 <= i < 128 ==> f[i] < 0x1_0000_0000
    witness seq(128, _ => 0)

  type AsciiCode = c: nat | c < 128

  /** A picture with its pixels row by row. */
  type Bitmap = b: BitmapData | |b.pixels| == b.columns * b.rows witness BitmapData(0, 0, [])
  datatype BitmapData = BitmapData(columns: nat, rows: nat, pixels: seq<LedColor>)

  /** What reading a pixel gives: a colour, or the source's out_of_range exception. */
  datatype LedResult = Shown(color: LedColor) | OutOfRange

  /** Bit k of a word, `word & (1 << k)`. */
  predicate Bit(word: nat, k: nat) {
    Dropped(2, word, k) % 2 == 1
  }

  /** The number of decimal digits; zero has none. */
  function DigitCount(n: nat): nat {
    if n == 0 then 0 else 1 + DigitCount(n / 10)
  }

  datatype PaintSource =
    | DigitGlyph(digit: int, color: LedColor, back: LedColor)
    | DigitGroup(digits: nat, digitsWidth: nat, color: LedColor, back: LedColor)
    | AsciiGlyph(font: AsciiFont, code: int, color: LedColor, back: LedColor)
    | Text(font: AsciiFont, text: seq<AsciiCode>, color: LedColor, back: LedColor)
    | Image(bitmap: Bitmap)
  {
    function Width(): nat {
      match this
      case DigitGlyph(_, _, _) => 3
      case DigitGroup(_, digitsWidth, _, _) => digitsWidth * 3
      case AsciiGlyph(_, _, _, _) => 4
      case Text(_, text, _, _) => |text| * 4
      case Image(bitmap) => bitmap.columns
    }

    function Height(): nat {
      match this
      case DigitGlyph(_, _, _) => 5
      case DigitGroup(_, _, _, _) => 5
      case AsciiGlyph(_, _, _, _) => 8
      case Text(_, _, _, _) => 8
      case Image(bitmap) => bitmap.rows
    }

    predicate Covers(x: int, y: int) {
      0 <= x < Width() && 0 <= y < Height()
    }

    /** A single glyph outside its font throws at every pixel; nothing else ever does. */
    predicate Printable() {
      match this
      case DigitGlyph(digit, _, _) => 0 <= digit < 10
      case AsciiGlyph(_, code, _, _) => 0 <= code < 128
      case _ => true
    }

    function Led(x: int, y: int): (r: LedResult)
      ensures r.Shown? <==> Covers(x, y) && Printable()
    {
      if !Covers(x, y) then OutOfRange
      else match this
        case DigitGlyph(digit, color, back) =>
          if 0 <= digit < 10 then Shown(if Bit(DIGIT_FONT[digit], y * 3 + 2 - x) then color else back)
          else OutOfRange
        case DigitGroup(digits, digitsWidth, color, back) =>
          var digit := Dropped(10, digits, digitsWidth - x / 3 - 1) % 10;
          Shown(if Bit(DIGIT_FONT[digit], y * 3 + 2 - x % 3) then color else back)
        case AsciiGlyph(font, code, color, back) =>
          if 0 <= code < 128 then Shown(if Bit(font[code], y * 4 + 3 - x) then color else back)
          else OutOfRange
        case Text(font, text, color, back) =>
          Shown(if Bit(font[text[x / 4]], y * 4 + 3 - x % 4) then color else back)
        case Image(bitmap) =>
          BitmapBounds(bitmap, x, y);
          Shown(bitmap.pixels[y * bitmap.columns + x])
    }

    /** The colour of a pixel of a printable source. */
    function At(x: int, y: int): LedColor
      requires Covers(x, y) && Printable()
    {
      Led(x, y).color
    }
  }

  lemma BitmapBounds(b: Bitmap, x: int, y: int)
    requires 0 <= x < b.columns && 0 <= y < b.rows
    ensures 0 <= y * b.columns + x < |b.pixels|
  {
    MonotoneProduct(y + 1, b.rows, b.columns);
  }

  /** The width loop counts the digits of n: the largest power it allows is at most n,
      and the next one exceeds n. */
  lemma {:induction false} DigitCountBounds(n: nat)
    ensures n < Power(10, DigitCount(n))
    ensures n > 0 ==> DigitCount(n) > 0 && Power(10, DigitCount(n) - 1) <= n
  {
    if n == 0 {
    } else {
      DigitCountBounds(n / 10);
    }
  }

  /** A number display shows, cell by cell, the glyphs of its digits, and a text the glyphs
      of its letters. */
  lemma GroupsShowGlyphs(digits: nat, width: nat, font: AsciiFont, text: seq<AsciiCode>,
                         color: LedColor, back: LedColor, cell: nat, u: int, v: int)
    ensures cell < width && 0 <= u < 3 ==>
      DigitGroup(digits, width, color, back).Led(3 * cell + u, v)
        == DigitGlyph(Dropped(10, digits, width - cell - 1) % 10, color, back).Led(u, v)
    ensures cell < |text| && 0 <= u < 4 ==>
      Text(font, text, color, back).Led(4 * cell + u, v) == AsciiGlyph(font, text[cell], color, back).Led(u, v)
  {
    hide Bit, Dropped;
    if 0 <= u < 3 {
      DivisionIsUnique(3 * cell + u, 3, cell, u);
    }
    if 0 <= u < 4 {
      DivisionIsUnique(4 * cell + u, 4, cell, u);
    }
  }

  /** The number display, whose width follows the number it shows. */
  class DigitGroup3x5 {
    var digits: int
    var digitsWidth: nat
    var color: LedColor
    var back: LedColor

    predicate Valid()
      reads this
    {
      digits >= 0 && digitsWidth == DigitCount(digits)
    }

    function Picture(): PaintSource
      reads this
      requires Valid()
    {
      DigitGroup(digits, digitsWidth, color, back)
    }

    /** The smallest int has no absolute value and is excluded. */
    constructor (number: int, color: LedColor, back: LedColor)
      requires -0x8000_0000 < number < 0x8000_0000
      ensures Valid() && digits == (if number < 0 then -number else number)
      ensures this.color == color && this.back == back
    {
      this.color, this.back := color, back;
      digits, digitsWidth := 0, 0;
      new;
      SetDigits(number);
    }

    /** The width becomes the digit count: the leading digit is not zero, and every
        power of ten that reading a pixel divides by fits an int. */
    method SetDigits(number: int)
      requires -0x8000_0000 < number < 0x8000_0000
      modifies this`digits, this`digitsWidth
      ensures Valid() && digits == (if number < 0 then -number else number)
      ensures number == 0 <==> digitsWidth == 0
      ensures digits < Power(10, digitsWidth)
      ensures forall k: nat :: k < digitsWidth ==> Power(10, k) <= digits < 0x8000_0000
      ensures digitsWidth > 0 ==> 1 <= digits / Power(10, digitsWidth - 1) <= 9
    {
      var rest := number;
      if rest < 0 {
        rest := -rest;
      }
      digits := rest;
      digitsWidth := 0;
      while rest != 0
        invariant rest >= 0 && digits == (if number < 0 then -number else number)
        invariant digitsWidth + DigitCount(rest) == DigitCount(digits)
        decreases rest
      {
        digitsWidth := digitsWidth + 1;
        rest := rest / 10;
      }
      DigitCountBounds(digits);
      forall k: nat | k < digitsWidth
        ensures Power(10, k) <= digits
      {
        PowerIsMonotone(10, k, digitsWidth - 1);
      }
      if digitsWidth > 0 {
        LeadingDigit(digits, Power(10, digitsWidth - 1));
      }
    }
  }

  lemma LeadingDigit(n: nat, p: nat)
    requires 0 < p <= n < 10 * p
    ensures 1 <= n / p <= 9
  {
    assert n == n / p * p + n % p;
    if n / p >= 10 {
      MonotoneProduct(10, n / p, p);
    }
  }
}
