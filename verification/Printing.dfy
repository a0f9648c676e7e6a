/** Reading printed glyphs back: the pixels of a glyph spell its font word, so numbers and
    texts can be recovered from their own picture and from a device they are drawn on. */
module Printing {
  import opened Arithmetic
  import opened Options
  import opened StripIndex
  import opened PaintSources
  import opened Screens

  predicate HoldsArea(s: Screen, x: int, y: int, w: int, h: int) {
    0 <= x && x + w <= s.layout.LogicalWidth() && 0 <= y && y + h <= s.layout.LogicalHeight()
  }

  /** Drawing colour `color` on `back` leaves exactly the glyph's bits in that colour: the
      device is opaque, or the colour is not the transparent one and, where the
      background is transparent, nothing in that colour was there before. */
  ghost predicate Legible(s: Screen, x: int, y: int, w: int, h: int, color: LedColor, back: LedColor)
    requires s.Valid() && HoldsArea(s, x, y, w, h)
  {
    && color != back
    && (s.transparent ==>
          && color != s.back
          && (back == s.back ==> forall i, j :: x <= i < x + w && y <= j < y + h ==> s.Pixel(i, j) != color))
  }

  // ---------------------------------------------------------------- glyphs spell their words

  /** Point (u, v) of the area at (x, y) has the colour. */
  predicate Lit(p: PaintSource, x: int, y: int, u: int, v: int, color: LedColor) {
    p.Led(x + u, y + v) == Shown(color)
  }

  /** The bits k, k+1, ... that the glyph cell at (x, y) spells, from its right column to its
      left and row by row. */
  function CellWord(p: PaintSource, x: int, y: int, cols: nat, rows: nat, color: LedColor, k: nat): nat
    requires k <= cols * rows
    decreases cols * rows - k
  {
    if k == cols * rows then 0
    else
      CellPoint(cols, rows, k);
      (if Lit(p, x, y, cols - k % cols - 1, k / cols, color) then 1 else 0)
      + 2 * CellWord(p, x, y, cols, rows, color, k + 1)
  }

  lemma CellPoint(cols: nat, rows: nat, k: nat)
    requires k < cols * rows
    ensures cols > 0 && k / cols < rows
  {
    if k / cols >= rows {
      MonotoneProduct(rows, k / cols, cols);
    }
  }

  /** The cell at (x, y) shows exactly the bits of word. */
  ghost predicate ShowsWord(p: PaintSource, x: int, y: int, cols: nat, rows: nat, color: LedColor, word: nat) {
    forall u, v :: 0 <= u < cols && 0 <= v < rows ==>
      (Lit(p, x, y, u, v, color) <==> Bit(word, WordBit(cols, u, v)))
  }

  function WordBit(cols: nat, u: nat, v: nat): nat
    requires u < cols
  {
    v * cols + (cols - 1 - u)
  }

  lemma PointBit(cols: nat, k: nat)
    requires cols > 0
    ensures WordBit(cols, cols - k % cols - 1, k / cols) == k
  {
  }

  lemma {:induction false} CellWordIsWord(p: PaintSource, x: int, y: int, cols: nat, rows: nat, color: LedColor,
                                          word: nat, k: nat)
    requires ShowsWord(p, x, y, cols, rows, color, word)
    requires word < Power(2, cols * rows) && k <= cols * rows
    ensures CellWord(p, x, y, cols, rows, color, k) == Dropped(2, word, k)
    decreases cols * rows - k
  {
    hide Lit, Dropped, Power, WordBit;
    if k == cols * rows {
      AllDropped(2, word, k);
    } else {
      CellPoint(cols, rows, k);
      PointBit(cols, k);
      CellWordIsWord(p, x, y, cols, rows, color, word, k + 1);
      NextDigit(2, word, k);
    }
  }

  lemma AllDropped(b: nat, n: nat, k: nat)
    requires b > 0 && n < Power(b, k)
    ensures Dropped(b, n, k) == 0
  {
    DivisionIsUnique(n, Power(b, k), 0, n);
  }

  lemma NothingDropped(b: nat, n: nat)
    requires b > 0
    ensures Dropped(b, n, 0) == n
  {
  }

  /** The lit pixels of a digit spell its word in the font. */
  lemma DigitSpellsWord(digit: nat, color: LedColor, back: LedColor)
    requires digit < 10 && color != back
    ensures CellWord(DigitGlyph(digit, color, back), 0, 0, 3, 5, color, 0) == DIGIT_FONT[digit]
  {
    hide Bit, CellWord, Dropped;
    FontWords(digit);
    CellWordIsWord(DigitGlyph(digit, color, back), 0, 0, 3, 5, color, DIGIT_FONT[digit], 0);
    NothingDropped(2, DIGIT_FONT[digit]);
  }

  // ---------------------------------------------------------------- the shapes of the digits

  /** The bars that digits are made of: seven round the two halves of the cell, whose foot is
      row 0, and the upright in the middle that only the digit 1 lights. */
  datatype Bar = Top | Middle | Bottom | UpperLeft | UpperRight | LowerLeft | LowerRight | Centre

  predicate LightsBar(digit: nat, bar: Bar) {
    match bar
    case Top => digit == 0 || digit == 2 || digit == 3 || digit >= 5
    case Middle => digit != 0 && digit != 1 && digit != 7
    case Bottom => digit != 1 && digit != 4 && digit != 7
    case UpperLeft => digit == 0 || digit == 4 || digit == 5 || digit == 6 || digit == 8 || digit == 9
    case UpperRight => digit != 1 && digit != 5 && digit != 6
    case LowerLeft => digit == 0 || digit == 2 || digit == 6 || digit == 8
    case LowerRight => digit != 1 && digit != 2
    case Centre => digit == 1
  }

  /** The digit is made of its bars. */
  predicate OnDigit(digit: nat, x: int, y: int) {
    || (y == 4 && LightsBar(digit, Top))
    || (y == 2 && LightsBar(digit, Middle))
    || (y == 0 && LightsBar(digit, Bottom))
    || (x == 0 && y >= 2 && LightsBar(digit, UpperLeft))
    || (x == 2 && y >= 2 && LightsBar(digit, UpperRight))
    || (x == 0 && y <= 2 && LightsBar(digit, LowerLeft))
    || (x == 2 && y <= 2 && LightsBar(digit, LowerRight))
    || (x == 1 && LightsBar(digit, Centre))
  }

  /** The word that the bars of a digit make, from bit k on. */
  function BarWord(digit: nat, k: nat): nat
    decreases 15 - k
  {
    if k >= 15 then 0 else (if OnDigit(digit, 2 - k % 3, k / 3) then 1 else 0) + 2 * BarWord(digit, k + 1)
  }

  /** Row y of the cell, as three bits. */
  function BarRow(digit: nat, y: nat): nat {
    (if OnDigit(digit, 2, y) then 1 else 0) + (if OnDigit(digit, 1, y) then 2 else 0)
    + (if OnDigit(digit, 0, y) then 4 else 0)
  }

  lemma BarWordByRows(digit: nat, y: nat)
    requires y < 5
    ensures BarWord(digit, 3 * y) == BarRow(digit, y) + 8 * BarWord(digit, 3 * y + 3)
  {
    hide OnDigit, BarWord;
    BarWordStep(digit, 2, y);
    BarWordStep(digit, 1, y);
    BarWordStep(digit, 0, y);
  }

  lemma BarWordStep(digit: nat, x: nat, y: nat)
    requires x < 3 && y < 5
    ensures BarWord(digit, 3 * y + 2 - x) == (if OnDigit(digit, x, y) then 1 else 0) + 2 * BarWord(digit, 3 * y + 3 - x)
  {
    hide OnDigit;
    var k := 3 * y + 2 - x;
    assert k / 3 == y && 2 - k % 3 == x;
  }

  lemma BarWordIsFontWord(digit: nat)
    requires digit < 10
    ensures BarWord(digit, 0) == DIGIT_FONT[digit]
  {
    hide OnDigit, BarWord, BarRow;
    BarWordByRows(digit, 0);
    BarWordByRows(digit, 1);
    BarWordByRows(digit, 2);
    BarWordByRows(digit, 3);
    BarWordByRows(digit, 4);
    NoMoreBars(digit);
    FontRows(digit);
  }

  lemma NoMoreBars(digit: nat)
    ensures BarWord(digit, 15) == 0
  {
  }

  predicate HasRows(digit: nat, top: nat, upper: nat, middle: nat, lower: nat, foot: nat) {
    && BarRow(digit, 4) == top && BarRow(digit, 3) == upper && BarRow(digit, 2) == middle
    && BarRow(digit, 1) == lower && BarRow(digit, 0) == foot
  }

  lemma RowsOfDigit(digit: nat)
    requires digit < 10
    ensures digit == 0 ==> HasRows(digit, 7, 5, 5, 5, 7)
    ensures digit == 1 ==> HasRows(digit, 2, 2, 2, 2, 2)
    ensures digit == 2 ==> HasRows(digit, 7, 1, 7, 4, 7)
    ensures digit == 3 ==> HasRows(digit, 7, 1, 7, 1, 7)
    ensures digit == 4 ==> HasRows(digit, 5, 5, 7, 1, 1)
    ensures digit == 5 ==> HasRows(digit, 7, 4, 7, 1, 7)
    ensures digit == 6 ==> HasRows(digit, 7, 4, 7, 5, 7)
    ensures digit == 7 ==> HasRows(digit, 7, 1, 1, 1, 1)
    ensures digit == 8 ==> HasRows(digit, 7, 5, 7, 5, 7)
    ensures digit == 9 ==> HasRows(digit, 7, 5, 7, 1, 7)
  {
  }

  lemma FontRows(digit: nat)
    requires digit < 10
    ensures BarRow(digit, 0)
      + 8 * (BarRow(digit, 1) + 8 * (BarRow(digit, 2) + 8 * (BarRow(digit, 3) + 8 * BarRow(digit, 4))))
      == DIGIT_FONT[digit]
  {
    hide OnDigit, BarRow;
    RowsOfDigit(digit);
    match digit {
      case 0 => case 1 => case 2 => case 3 => case 4 =>
      case 5 => case 6 => case 7 => case 8 => case 9 =>
    }
  }

  lemma {:induction false} BarWordDropped(digit: nat, k: nat)
    requires k <= 15
    ensures Dropped(2, BarWord(digit, 0), k) == BarWord(digit, k)
  {
    hide OnDigit, Dropped;
    if k == 0 {
      NothingDropped(2, BarWord(digit, 0));
    } else {
      BarWordDropped(digit, k - 1);
      NextDigit(2, BarWord(digit, 0), k - 1);
    }
  }

  /** A digit shows its bars in its colour, on a cell of three by five pixels. */
  lemma DigitShowsBars(digit: int, color: LedColor, back: LedColor, x: int, y: int)
    ensures DigitGlyph(digit, color, back).Led(x, y) ==
      if 0 <= digit < 10 && 0 <= x < 3 && 0 <= y < 5 then Shown(if OnDigit(digit, x, y) then color else back)
      else OutOfRange
  {
    hide OnDigit, Dropped, BarWord;
    if 0 <= digit < 10 && 0 <= x < 3 && 0 <= y < 5 {
      var k := y * 3 + 2 - x;
      BarWordIsFontWord(digit);
      BarWordDropped(digit, k);
      BarBit(digit, k);
    }
  }

  lemma BarBit(digit: nat, k: nat)
    requires k < 15
    ensures BarWord(digit, k) % 2 == 1 <==> OnDigit(digit, 2 - k % 3, k / 3)
  {
    hide OnDigit;
  }

  /** The lit pixels of a letter spell its word in the font, on a cell of four by eight; a
      code outside the font shows nothing. */
  lemma LetterSpellsWord(font: AsciiFont, code: int, color: LedColor, back: LedColor)
    requires color != back
    ensures 0 <= code < 128 ==> CellWord(AsciiGlyph(font, code, color, back), 0, 0, 4, 8, color, 0) == font[code]
    ensures forall x, y ::
      AsciiGlyph(font, code, color, back).Led(x, y).Shown? <==> 0 <= code < 128 && 0 <= x < 4 && 0 <= y < 8
  {
    hide Bit, CellWord, Dropped, Power;
    if 0 <= code < 128 {
      LetterWordFits(font, code);
      CellWordIsWord(AsciiGlyph(font, code, color, back), 0, 0, 4, 8, color, font[code], 0);
      NothingDropped(2, font[code]);
    }
  }

  // ---------------------------------------------------------------- rows of cells

  /** The font words spelt by n glyph cells in a row. */
  function ReadWords(p: PaintSource, x: int, y: int, cols: nat, rows: nat, n: nat, color: LedColor): seq<nat> {
    if n == 0 then []
    else ReadWords(p, x, y, cols, rows, n - 1, color) + [CellWord(p, x + cols * (n - 1), y, cols, rows, color, 0)]
  }

  /** The same points of two areas are lit. */
  ghost predicate LitAlike(p: PaintSource, x: int, y: int, q: PaintSource, x': int, y': int, w: int, h: int,
                           color: LedColor)
  {
    forall u, v :: 0 <= u < w && 0 <= v < h ==> (Lit(p, x, y, u, v, color) <==> Lit(q, x', y', u, v, color))
  }

  lemma {:induction false} CellsAlike(p: PaintSource, x: int, y: int, q: PaintSource, x': int, y': int,
                                      cols: nat, rows: nat, color: LedColor, k: nat)
    requires LitAlike(p, x, y, q, x', y', cols, rows, color) && k <= cols * rows
    ensures CellWord(p, x, y, cols, rows, color, k) == CellWord(q, x', y', cols, rows, color, k)
    decreases cols * rows - k
  {
    hide Lit;
    if k == cols * rows {
    } else {
      CellPoint(cols, rows, k);
      CellsAlike(p, x, y, q, x', y', cols, rows, color, k + 1);
    }
  }

  lemma LitShifted(p: PaintSource, x: int, y: int, left: int, u: int, v: int, color: LedColor)
    ensures Lit(p, x + left, y, u, v, color) == Lit(p, x, y, left + u, v, color)
  {
    assert x + left + u == x + (left + u);
  }

  lemma CellAlikeInRow(p: PaintSource, x: int, y: int, q: PaintSource, x': int, y': int,
                       cols: nat, rows: nat, n: nat, color: LedColor, cell: nat)
    requires LitAlike(p, x, y, q, x', y', cols * n, rows, color) && cell < n
    ensures LitAlike(p, x + cols * cell, y, q, x' + cols * cell, y', cols, rows, color)
  {
    hide Lit;
    MonotoneProduct(cell + 1, n, cols);
    var left, left' := x + cols * cell, x' + cols * cell;
    forall u, v | 0 <= u < cols && 0 <= v < rows
      ensures Lit(p, left, y, u, v, color) <==> Lit(q, left', y', u, v, color)
    {
      LitShifted(p, x, y, cols * cell, u, v, color);
      LitShifted(q, x', y', cols * cell, u, v, color);
    }
  }

  lemma {:induction false} RowsAlike(p: PaintSource, x: int, y: int, q: PaintSource, x': int, y': int,
                                     cols: nat, rows: nat, n: nat, m: nat, color: LedColor)
    requires LitAlike(p, x, y, q, x', y', cols * n, rows, color) && m <= n
    ensures ReadWords(p, x, y, cols, rows, m, color) == ReadWords(q, x', y', cols, rows, m, color)
    decreases m
  {
    hide LitAlike, CellWord;
    if m == 0 {
    } else {
      RowsAlike(p, x, y, q, x', y', cols, rows, n, m - 1, color);
      CellAlikeInRow(p, x, y, q, x', y', cols, rows, n, color, m - 1);
      CellsAlike(p, x + cols * (m - 1), y, q, x' + cols * (m - 1), y', cols, rows, color, 0);
    }
  }

  // ---------------------------------------------------------------- numbers

  /** The position of a word in a font. */
  function Lookup(font: seq<nat>, word: nat, i: nat): Option<nat>
    requires i <= |font|
    decreases |font| - i
  {
    if i == |font| then None else if font[i] == word then Some(i) else Lookup(font, word, i + 1)
  }

  /** Matching each word against the ten digits and folding base ten. */
  function NumberOf(words: seq<nat>): Option<nat> {
    if words == [] then Some(0)
    else
      var front, last := NumberOf(words[..|words| - 1]), Lookup(DIGIT_FONT, words[|words| - 1], 0);
      if front.Some? && last.Some? then Some(front.value * 10 + last.value) else None
  }

  /** The number shown by n digit cells at (x, y), if every cell is a digit. */
  function ReadNumber(p: PaintSource, x: int, y: int, n: nat, color: LedColor): Option<nat> {
    NumberOf(ReadWords(p, x, y, 3, 5, n, color))
  }

  lemma FontWords(digit: nat)
    requires digit < 10
    ensures DIGIT_FONT[digit] < Power(2, 15)
    ensures Lookup(DIGIT_FONT, DIGIT_FONT[digit], 0) == Some(digit)
  {
    assert Power(2, 15) == 0x8000;
    LookupFinds(DIGIT_FONT, digit, 0);
  }

  lemma {:induction false} LookupFinds(font: seq<nat>, k: nat, i: nat)
    requires i <= k < |font|
    requires forall j :: 0 <= j < |font| && j != k ==> font[j] != font[k]
    ensures Lookup(font, font[k], i) == Some(k)
    decreases k - i
  {
    if i == k {
    } else {
      LookupFinds(font, k, i + 1);
    }
  }

  /** The digit that a number display shows in a cell, counted from the left. */
  function DigitAt(digits: nat, cell: nat): (digit: nat)
    requires cell < DigitCount(digits)
    ensures digit < 10
  {
    Dropped(10, digits, DigitCount(digits) - cell - 1) % 10
  }

  function DigitWords(digits: nat): (words: seq<nat>)
    ensures |words| == DigitCount(digits)
  {
    seq(DigitCount(digits), cell requires 0 <= cell < DigitCount(digits) => DIGIT_FONT[DigitAt(digits, cell)])
  }

  lemma {:induction false} DigitWordsFold(digits: nat, n: nat)
    requires n <= DigitCount(digits)
    ensures NumberOf(DigitWords(digits)[..n]) == Some(Dropped(10, digits, DigitCount(digits) - n))
  {
    hide NumberOf, DigitWords, DigitAt, Dropped;
    if n == 0 {
      NoDigits(digits);
    } else {
      DigitWordsFold(digits, n - 1);
      DigitWordAt(digits, n - 1);
      NumberOfSnoc(DigitWords(digits), n, DigitAt(digits, n - 1), Dropped(10, digits, DigitCount(digits) - n + 1));
      LastDigit(digits, n);
    }
  }

  lemma NoDigits(digits: nat)
    ensures NumberOf(DigitWords(digits)[..0]) == Some(0) && Dropped(10, digits, DigitCount(digits)) == 0
  {
    DigitCountBounds(digits);
    AllDropped(10, digits, DigitCount(digits));
  }

  lemma DigitWordAt(digits: nat, cell: nat)
    requires cell < DigitCount(digits)
    ensures DigitWords(digits)[cell] == DIGIT_FONT[DigitAt(digits, cell)]
  {
  }

  lemma LastDigit(digits: nat, n: nat)
    requires 0 < n <= DigitCount(digits)
    ensures Dropped(10, digits, DigitCount(digits) - n)
      == Dropped(10, digits, DigitCount(digits) - n + 1) * 10 + DigitAt(digits, n - 1)
  {
    NextDigit(10, digits, DigitCount(digits) - n);
  }

  lemma NumberOfSnoc(words: seq<nat>, n: nat, digit: nat, front: nat)
    requires 0 < n <= |words| && digit < 10 && words[n - 1] == DIGIT_FONT[digit]
    requires NumberOf(words[..n - 1]) == Some(front)
    ensures NumberOf(words[..n]) == Some(front * 10 + digit)
  {
    assert words[..n][..n - 1] == words[..n - 1];
    FontWords(digit);
  }

  lemma DigitCellSpells(digits: nat, color: LedColor, back: LedColor, cell: nat)
    requires cell < DigitCount(digits) && color != back
    ensures CellWord(DigitGroup(digits, DigitCount(digits), color, back), 3 * cell, 0, 3, 5, color, 0)
      == DIGIT_FONT[DigitAt(digits, cell)]
  {
    hide PaintSource.Led, CellWord, DigitCount;
    var group, glyph := DigitGroup(digits, DigitCount(digits), color, back),
                        DigitGlyph(DigitAt(digits, cell), color, back);
    forall u, v | 0 <= u < 3 && 0 <= v < 5
      ensures Lit(group, 3 * cell, 0, u, v, color) <==> Lit(glyph, 0, 0, u, v, color)
    {
      GroupsShowGlyphs(digits, DigitCount(digits), seq(128, _ => 0), [], color, back, cell, u, v);
    }
    CellsAlike(group, 3 * cell, 0, glyph, 0, 0, 3, 5, color, 0);
    DigitSpellsWord(DigitAt(digits, cell), color, back);
  }

  lemma {:induction false} NumberSpells(digits: nat, color: LedColor, back: LedColor, n: nat)
    requires n <= DigitCount(digits) && color != back
    ensures ReadWords(DigitGroup(digits, DigitCount(digits), color, back), 0, 0, 3, 5, n, color)
      == DigitWords(digits)[..n]
  {
    hide CellWord, DigitAt, DigitWords, DigitCount;
    if n == 0 {
    } else {
      NumberSpells(digits, color, back, n - 1);
      DigitCellSpells(digits, color, back, n - 1);
      DigitWordAt(digits, n - 1);
      assert DigitWords(digits)[..n] == DigitWords(digits)[..n - 1] + [DigitWords(digits)[n - 1]];
    }
  }

  /** The picture of a number reads as that number. */
  lemma NumberReads(digits: nat, color: LedColor, back: LedColor)
    requires color != back
    ensures ReadNumber(DigitGroup(digits, DigitCount(digits), color, back), 0, 0, DigitCount(digits), color)
      == Some(digits)
  {
    hide NumberOf, DigitWords, DigitCount, ReadWords, Dropped;
    NumberSpells(digits, color, back, DigitCount(digits));
    DigitWordsFold(digits, DigitCount(digits));
    NothingDropped(10, digits);
  }

  /** Number displays that look the same show the same number. */
  lemma EqualPicturesEqualNumbers(m: nat, n: nat, color: LedColor, back: LedColor)
    requires color != back
    requires forall x, y :: DigitGroup(m, DigitCount(m), color, back).Led(x, y)
                         == DigitGroup(n, DigitCount(n), color, back).Led(x, y)
    ensures m == n
  {
    hide ReadWords, NumberOf, PaintSource.Led, DigitCount;
    var left, right := DigitGroup(m, DigitCount(m), color, back), DigitGroup(n, DigitCount(n), color, back);
    SameWidth(left, right);
    NumberReads(m, color, back);
    NumberReads(n, color, back);
    RowsAlike(left, 0, 0, right, 0, 0, 3, 5, DigitCount(m), DigitCount(m), color);
  }

  lemma SameWidth(left: PaintSource, right: PaintSource)
    requires left.Printable() && right.Printable() && left.Height() > 0 && right.Height() > 0
    requires forall x, y :: left.Led(x, y) == right.Led(x, y)
    ensures left.Width() == right.Width()
  {
    assert left.Led(left.Width() - 1, 0) == right.Led(left.Width() - 1, 0);
    assert left.Led(right.Width() - 1, 0) == right.Led(right.Width() - 1, 0);
  }

  // ---------------------------------------------------------------- texts

  function TextWords(font: AsciiFont, text: seq<AsciiCode>): seq<nat> {
    seq(|text|, i requires 0 <= i < |text| => font[text[i]])
  }

  lemma LetterWordFits(font: AsciiFont, letter: AsciiCode)
    ensures font[letter] < Power(2, 32)
  {
    assert Power(2, 8) == 0x100;
    PowerOfSum(2, 8, 8);
    PowerOfSum(2, 16, 16);
  }

  lemma LetterCellSpells(font: AsciiFont, text: seq<AsciiCode>, color: LedColor, back: LedColor, cell: nat)
    requires cell < |text| && color != back
    ensures CellWord(Text(font, text, color, back), 4 * cell, 0, 4, 8, color, 0) == font[text[cell]]
  {
    hide PaintSource.Led, CellWord;
    var group, glyph := Text(font, text, color, back), AsciiGlyph(font, text[cell], color, back);
    forall u, v | 0 <= u < 4 && 0 <= v < 8
      ensures Lit(group, 4 * cell, 0, u, v, color) <==> Lit(glyph, 0, 0, u, v, color)
    {
      GroupsShowGlyphs(0, 0, font, text, color, back, cell, u, v);
    }
    CellsAlike(group, 4 * cell, 0, glyph, 0, 0, 4, 8, color, 0);
    LetterSpellsWord(font, text[cell], color, back);
  }

  lemma {:induction false} TextSpells(font: AsciiFont, text: seq<AsciiCode>, color: LedColor, back: LedColor, n: nat)
    requires n <= |text| && color != back
    ensures ReadWords(Text(font, text, color, back), 0, 0, 4, 8, n, color) == TextWords(font, text)[..n]
  {
    hide CellWord;
    if n == 0 {
    } else {
      TextSpells(font, text, color, back, n - 1);
      LetterCellSpells(font, text, color, back, n - 1);
    }
  }

  // ---------------------------------------------------------------- on a device

  /** Drawn legibly, a source of two colours lights on the device what is lit in it. */
  lemma DrawnLitAlike(s: Screen, src: PaintSource, x: int, y: int, color: LedColor, back: LedColor)
    requires s.Valid() && HoldsArea(s, x, y, src.Width(), src.Height())
    requires Legible(s, x, y, src.Width(), src.Height(), color, back)
    requires forall u, v :: src.Covers(u, v) ==> src.Led(u, v) == Shown(color) || src.Led(u, v) == Shown(back)
    ensures LitAlike(Picture(Drawn(s, src, Placement(x, y, false, false))), x, y, src, 0, 0,
                     src.Width(), src.Height(), color)
  {
    hide Screen.Pixel, Drawn, PaintSource.Led, Picture;
    var t := Drawn(s, src, Placement(x, y, false, false));
    DrawnPixels(s, src, Placement(x, y, false, false));
    forall u, v | 0 <= u < src.Width() && 0 <= v < src.Height()
      ensures Lit(Picture(t), x, y, u, v, color) <==> Lit(src, 0, 0, u, v, color)
    {
      PictureShows(t, x + u, y + v);
      assert t.layout.Holds(x + u, y + v);
      assert src.Covers(u, v);
    }
  }

  lemma NumberHasTwoColors(digits: nat, color: LedColor, back: LedColor)
    ensures var src := DigitGroup(digits, DigitCount(digits), color, back);
      forall u, v :: src.Covers(u, v) ==> src.Led(u, v) == Shown(color) || src.Led(u, v) == Shown(back)
  {
    hide Bit, Dropped, DigitCount;
  }

  /** A printed number reads back from the device: under any wiring, rotation and position
      that fits. */
  lemma PrintedNumberReadsBack(s: Screen, digits: nat, color: LedColor, back: LedColor, x: int, y: int)
    requires s.Valid()
    requires var w := 3 * DigitCount(digits); HoldsArea(s, x, y, w, 5) && Legible(s, x, y, w, 5, color, back)
    ensures var t := Drawn(s, DigitGroup(digits, DigitCount(digits), color, back), Placement(x, y, false, false));
      ReadNumber(Picture(t), x, y, DigitCount(digits), color) == Some(digits)
  {
    hide Drawn, ReadWords, NumberOf, DigitCount, Picture, PaintSource.Led, LitAlike;
    var src := DigitGroup(digits, DigitCount(digits), color, back);
    var t := Drawn(s, src, Placement(x, y, false, false));
    NumberHasTwoColors(digits, color, back);
    DrawnLitAlike(s, src, x, y, color, back);
    RowsAlike(Picture(t), x, y, src, 0, 0, 3, 5, DigitCount(digits), DigitCount(digits), color);
    NumberReads(digits, color, back);
  }

  lemma TextHasTwoColors(font: AsciiFont, text: seq<AsciiCode>, color: LedColor, back: LedColor)
    ensures var src := Text(font, text, color, back);
      forall u, v :: src.Covers(u, v) ==> src.Led(u, v) == Shown(color) || src.Led(u, v) == Shown(back)
  {
    hide Bit;
  }

  /** A printed text reads back letter by letter, as far as the font tells letters apart. */
  lemma PrintedTextReadsBack(s: Screen, font: AsciiFont, text: seq<AsciiCode>, color: LedColor, back: LedColor,
                             x: int, y: int)
    requires s.Valid()
    requires HoldsArea(s, x, y, 4 * |text|, 8) && Legible(s, x, y, 4 * |text|, 8, color, back)
    ensures var t := Drawn(s, Text(font, text, color, back), Placement(x, y, false, false));
      ReadWords(Picture(t), x, y, 4, 8, |text|, color) == TextWords(font, text)
  {
    hide Drawn, ReadWords, Picture, PaintSource.Led, LitAlike;
    var src := Text(font, text, color, back);
    var t := Drawn(s, src, Placement(x, y, false, false));
    TextHasTwoColors(font, text, color, back);
    DrawnLitAlike(s, src, x, y, color, back);
    RowsAlike(Picture(t), x, y, src, 0, 0, 4, 8, |text|, |text|, color);
    TextSpells(font, text, color, back, |text|);
    assert TextWords(font, text)[..|text|] == TextWords(font, text);
  }
}
