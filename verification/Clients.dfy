/** The server as its clients see it: what the replies to short runs of commands say about
    sizes, pixels, colours and turns, in plain numbers. */
module Clients {
  import opened Arithmetic
  import opened StripIndex
  import opened PaintSources
  import opened Screens
  import opened Drawing
  import opened Turning
  import opened Printing
  import opened Rpc

  /** A run answers its first command and then the rest. */
  lemma FirstThenRest(s: Screen, font: AsciiFont, c: Command, rest: seq<Command>)
    requires s.Valid() && Legal(s, font, c) && LegalRun(After(s, font, c), font, rest)
    ensures LegalRun(s, font, [c] + rest)
    ensures Replies(s, font, [c] + rest) == [Answer(s, font, c)] + Replies(After(s, font, c), font, rest)
    ensures Final(s, font, [c] + rest) == Final(After(s, font, c), font, rest)
  {
    hide Legal, After, Answer;
    assert ([c] + rest)[1..] == rest;
  }

  lemma OneReply(s: Screen, font: AsciiFont, c: Command)
    requires s.Valid() && Legal(s, font, c)
    ensures LegalRun(s, font, [c]) && Replies(s, font, [c]) == [Answer(s, font, c)]
  {
    hide Legal, After, Answer;
  }

  lemma TwoReplies(s: Screen, font: AsciiFont, c: Command, d: Command)
    requires s.Valid() && Legal(s, font, c) && Legal(After(s, font, c), font, d)
    ensures LegalRun(s, font, [c, d])
    ensures Replies(s, font, [c, d]) == [Answer(s, font, c), Answer(After(s, font, c), font, d)]
  {
    hide Legal, After, Answer;
    OneReply(After(s, font, c), font, d);
    FirstThenRest(s, font, c, [d]);
    assert [c, d] == [c] + [d];
  }

  // ---------------------------------------------------------------- sizes

  /** The replies to width and height are the size of the rectangle in which pixels lie. */
  lemma SizesBoundPixels(s: Screen, font: AsciiFont, x: int, y: int)
    requires s.Valid()
    ensures LegalRun(s, font, [Width, Height])
    ensures var r := Replies(s, font, [Width, Height]);
      && |r| == 2 && r[0].Value? && r[1].Value?
      && (s.layout.Holds(x, y) <==> 0 <= x < r[0].n && 0 <= y < r[1].n)
  {
    TwoReplies(s, font, Width, Height);
  }

  /** An accepted turn sets the size to the strip's own or, for a quarter turn, exchanges its
      sides. */
  lemma TurnSetsSizes(s: Screen, font: AsciiFont, degree: int, flipX: bool, flipY: bool)
    requires s.Valid() && (degree == 0 || degree == 90 || degree == 180 || degree == 270)
    ensures var run := [SetRotate(degree, flipX, flipY), Width, Height];
      var upright := degree == 0 || degree == 180;
      && LegalRun(s, font, run)
      && Replies(s, font, run) ==
           [Done,
            Value(if upright then s.layout.width else s.layout.height),
            Value(if upright then s.layout.height else s.layout.width)]
  {
    var c := SetRotate(degree, flipX, flipY);
    TwoReplies(After(s, font, c), font, Width, Height);
    FirstThenRest(s, font, c, [Width, Height]);
    assert [c, Width, Height] == [c] + [Width, Height];
  }

  /** Any other degree is rejected, and the run goes on as if it had not been asked for. */
  lemma OtherTurnIsRejected(s: Screen, font: AsciiFont, degree: int, flipX: bool, flipY: bool, run: seq<Command>)
    requires s.Valid() && LegalRun(s, font, run)
    requires degree != 0 && degree != 90 && degree != 180 && degree != 270
    ensures var c := SetRotate(degree, flipX, flipY);
      && LegalRun(s, font, [c] + run)
      && Replies(s, font, [c] + run) == [Rejected] + Replies(s, font, run)
      && Final(s, font, [c] + run) == Final(s, font, run)
  {
    FirstThenRest(s, font, SetRotate(degree, flipX, flipY), run);
  }

  // ---------------------------------------------------------------- pixels

  lemma PixelReply(s: Screen, font: AsciiFont, x: int, y: int)
    requires s.Valid() && s.layout.Holds(x, y)
    ensures Legal(s, font, Pixel(x, y)) && Answer(s, font, Pixel(x, y)) == Value(s.Pixel(x, y))
    ensures LegalRun(s, font, [Pixel(x, y)]) && Replies(s, font, [Pixel(x, y)]) == [Value(s.Pixel(x, y))]
  {
    ReachesItselfIff(s.layout, x, y);
    OneReply(s, font, Pixel(x, y));
  }

  lemma DrawPixelPuts(s: Screen, font: AsciiFont, x: int, y: int, color: LedColor)
    requires s.Valid() && s.layout.Holds(x, y)
    ensures Legal(s, font, DrawPixel(x, y, color))
    ensures After(s, font, DrawPixel(x, y, color)) == s.Put(x, y, color)
  {
    ReachesItselfIff(s.layout, x, y);
  }

  /** A pixel that was drawn is replied, and every other pixel is replied as before. */
  lemma DrawnPixelIsReplied(s: Screen, font: AsciiFont, x: int, y: int, color: LedColor, i: int, j: int)
    requires s.Valid() && s.layout.Holds(x, y) && s.layout.Holds(i, j)
    ensures LegalRun(s, font, [Pixel(i, j)]) && LegalRun(s, font, [DrawPixel(x, y, color), Pixel(i, j)])
    ensures Replies(s, font, [DrawPixel(x, y, color), Pixel(i, j)])
      == [Done] + if i == x && j == y then [Value(color)] else Replies(s, font, [Pixel(i, j)])
  {
    hide Screen.Put, Screen.Pixel;
    var c := DrawPixel(x, y, color);
    DrawPixelPuts(s, font, x, y, color);
    PutChangesOnePixel(s, x, y, color);
    PixelReply(s, font, i, j);
    PixelReply(s.Put(x, y, color), font, i, j);
    TwoReplies(s, font, c, Pixel(i, j));
  }

  /** After clear every pixel on the device is the background that was set. */
  lemma ClearedPixelIsReplied(s: Screen, font: AsciiFont, color: LedColor, i: int, j: int)
    requires s.Valid() && s.layout.Holds(i, j)
    ensures var run := [SetBackground(color), Clear, Pixel(i, j)];
      LegalRun(s, font, run) && Replies(s, font, run) == [Done, Done, Value(color)]
  {
    hide Screen.Pixel;
    var first := After(s, font, SetBackground(color));
    ClearedPixels(first);
    PixelReply(Cleared(first), font, i, j);
    TwoReplies(first, font, Clear, Pixel(i, j));
    FirstThenRest(s, font, SetBackground(color), [Clear, Pixel(i, j)]);
    assert [SetBackground(color), Clear, Pixel(i, j)] == [SetBackground(color)] + [Clear, Pixel(i, j)];
  }

  /** The pixel that is seen at (u, v) of the upright strip is seen, after an accepted turn,
      where mirroring and then turning the picture takes it. */
  lemma TurnedPixelIsReplied(s: Screen, font: AsciiFont, degree: Degree, flipX: bool, flipY: bool, u: int, v: int)
    requires s.Valid() && s.layout.rotation == UPRIGHT && s.layout.Holds(u, v)
    ensures var q := SeenAt(s.layout.(rotation := Rotation(degree, flipX, flipY)), Point(u, v));
      var run := [SetRotate(degree, flipX, flipY), Pixel(q.x, q.y)];
      && LegalRun(s, font, [Pixel(u, v)]) && LegalRun(s, font, run)
      && Replies(s, font, run) == [Done] + Replies(s, font, [Pixel(u, v)])
  {
    hide Screen.Pixel, SeenAt, Layout.Unrotate, Legal;
    var t := Turned(s, Rotation(degree, flipX, flipY));
    var q := SeenAt(t.layout, Point(u, v));
    TurnedSeen(s, degree, flipX, flipY, Point(u, v));
    AcceptedTurn(s, font, degree, flipX, flipY);
    hide After, Answer, Turned;
    PixelReply(s, font, u, v);
    PixelReply(t, font, q.x, q.y);
    TwoReplies(s, font, SetRotate(degree, flipX, flipY), Pixel(q.x, q.y));
  }

  lemma TurnedSeen(s: Screen, degree: Degree, flipX: bool, flipY: bool, p: Point)
    requires s.Valid() && s.layout.rotation == UPRIGHT && s.layout.Holds(p.x, p.y)
    ensures var t := Turned(s, Rotation(degree, flipX, flipY)); PixelAtIs(t, SeenAt(t.layout, p), s.Pixel(p.x, p.y))
  {
    hide Screen.Pixel, SeenAt, PixelAtIs;
    TurnedShowsTurned(s, degree, flipX, flipY);
    assert Upright(s) == s;
  }

  lemma AcceptedTurn(s: Screen, font: AsciiFont, degree: Degree, flipX: bool, flipY: bool)
    requires s.Valid()
    ensures var c := SetRotate(degree, flipX, flipY);
      && Legal(s, font, c) && Answer(s, font, c) == Done
      && After(s, font, c) == Turned(s, Rotation(degree, flipX, flipY))
  {
    assert IsDegree(degree);
  }

  // ---------------------------------------------------------------- texts and numbers

  /** A pixel of that colour, drawn with this transparency and background over the old
      colour. */
  function Over(transparent: bool, back: LedColor, color: LedColor, before: LedColor): LedColor {
    if transparent && color == back then before else color
  }

  /** What is seen at (i, j) after a text was drawn at (x, y): eight rows of the letters' font
      words, each four columns wide with its highest bit on the left. */
  function TextColor(font: AsciiFont, c: Command, i: int, j: int, transparent: bool, back: LedColor, before: LedColor)
    : LedColor
    requires c.DrawText?
  {
    var u, v := i - c.x, j - c.y;
    if 0 <= u < 4 * |c.text| && 0 <= v < 8 then
      Over(transparent, back, if Bit(font[c.text[u / 4]], 4 * v + 3 - u % 4) then c.color else c.background, before)
    else before
  }

  /** What is seen at (i, j) after a number was drawn at (x, y): its decimal digits from the
      highest to the lowest, each three columns wide and five rows high, on black. */
  function NumberColor(c: Command, i: int, j: int, transparent: bool, back: LedColor, before: LedColor): LedColor
    requires c.DrawNumber?
  {
    var n, u, v := Abs(c.number), i - c.x, j - c.y;
    if 0 <= u < 3 * DigitCount(n) && 0 <= v < 5 then
      var digit := n / Power(10, DigitCount(n) - 1 - u / 3) % 10;
      Over(transparent, back, if OnDigit(digit, u % 3, v) then c.color else 0, before)
    else before
  }

  lemma DrawnPixelIs(s: Screen, src: PaintSource, x: int, y: int, i: int, j: int)
    requires s.Valid() && WritesInside(s, src, Plain(x, y)) && s.layout.Holds(i, j)
    ensures var r := src.Led(i - x, j - y);
      Written(s, src, Plain(x, y)).Pixel(i, j)
        == if r.Shown? then Over(s.transparent, s.back, r.color, s.Pixel(i, j)) else s.Pixel(i, j)
  {
    hide Screen.Pixel, PaintSource.Led, Drawn, Written, WritesInside;
    InsideWritesDrawn(s, src, Plain(x, y));
    DrawnPixels(s, src, Plain(x, y));
  }

  lemma TextPixelIs(s: Screen, font: AsciiFont, c: Command, i: int, j: int)
    requires s.Valid() && c.DrawText? && Inside(s, font, c) && s.layout.Holds(i, j)
    ensures Legal(s, font, c)
    ensures After(s, font, c).Pixel(i, j) == TextColor(font, c, i, j, s.transparent, s.back, s.Pixel(i, j))
  {
    hide Screen.Pixel, Bit, Written, WritesInside, WritesInBuffer;
    InsideIsLegal(s, font, c);
    DrawnPixelIs(s, Text(font, c.text, c.color, c.background), c.x, c.y, i, j);
  }

  lemma NumberLed(n: nat, color: LedColor, u: int, v: int)
    ensures DigitGroup(n, DigitCount(n), color, 0).Led(u, v) ==
      if 0 <= u < 3 * DigitCount(n) && 0 <= v < 5 then
        Shown(if OnDigit(n / Power(10, DigitCount(n) - 1 - u / 3) % 10, u % 3, v) then color else 0)
      else OutOfRange
  {
    hide Bit, OnDigit, DigitCount, Power;
    if 0 <= u < 3 * DigitCount(n) && 0 <= v < 5 {
      var digit := n / Power(10, DigitCount(n) - 1 - u / 3) % 10;
      assert Dropped(10, n, DigitCount(n) - u / 3 - 1) % 10 == digit;
      DigitShowsBars(digit, color, 0, u % 3, v);
    }
  }

  lemma NumberPixelIs(s: Screen, font: AsciiFont, c: Command, i: int, j: int)
    requires s.Valid() && c.DrawNumber? && Inside(s, font, c) && s.layout.Holds(i, j)
    ensures Legal(s, font, c)
    ensures After(s, font, c).Pixel(i, j) == NumberColor(c, i, j, s.transparent, s.back, s.Pixel(i, j))
  {
    hide Screen.Pixel, PaintSource.Led, Written, WritesInside, WritesInBuffer, OnDigit, DigitCount, Power;
    InsideIsLegal(s, font, c);
    NumberLed(Abs(c.number), c.color, i - c.x, j - c.y);
    DrawnPixelIs(s, NumberPicture(c.number, c.color), c.x, c.y, i, j);
  }

  lemma RepliesAfterSettings(s: Screen, font: AsciiFont, on: bool, back: LedColor, c: Command, i: int, j: int)
    requires s.Valid()
    requires var after := s.(transparent := on, back := back);
      Legal(after, font, c) && After(after, font, c).layout == s.layout && s.layout.Holds(i, j)
    requires Answer(s.(transparent := on, back := back), font, c) == Done
    ensures var run := [SetTransparent(on), SetBackground(back), c, Pixel(i, j)];
      && LegalRun(s, font, run)
      && Replies(s, font, run)
           == [Done, Done, Done, Value(After(s.(transparent := on, back := back), font, c).Pixel(i, j))]
  {
    hide Screen.Pixel;
    var first := After(s, font, SetTransparent(on));
    var second := After(first, font, SetBackground(back));
    assert second == s.(transparent := on, back := back);
    hide After, Legal;
    PixelReply(After(second, font, c), font, i, j);
    TwoReplies(second, font, c, Pixel(i, j));
    FirstThenRest(first, font, SetBackground(back), [c, Pixel(i, j)]);
    FirstThenRest(s, font, SetTransparent(on), [SetBackground(back)] + [c, Pixel(i, j)]);
    assert [SetTransparent(on), SetBackground(back), c, Pixel(i, j)]
      == [SetTransparent(on)] + ([SetBackground(back)] + [c, Pixel(i, j)]);
  }

  /** What a client reads after drawing a text with a transparency and a background set: the
      letters' bits in the two colours, and what was there before outside the text and,
      with transparency on, in place of the background colour. */
  lemma DrawnTextIsReplied(s: Screen, font: AsciiFont, on: bool, back: LedColor, c: Command, i: int, j: int)
    requires s.Valid() && s.layout.Holds(i, j)
    requires c.DrawText? && Inside(s.(transparent := on, back := back), font, c)
    ensures var run := [SetTransparent(on), SetBackground(back), c, Pixel(i, j)];
      && LegalRun(s, font, run)
      && Replies(s, font, run) == [Done, Done, Done, Value(TextColor(font, c, i, j, on, back, s.Pixel(i, j)))]
  {
    hide Screen.Pixel, Written, WritesInside, WritesInBuffer, TextColor, Bit;
    TextPixelIs(s.(transparent := on, back := back), font, c, i, j);
    SamePixel(s, on, back, i, j);
    RepliesAfterSettings(s, font, on, back, c, i, j);
  }

  lemma SamePixel(s: Screen, on: bool, back: LedColor, i: int, j: int)
    requires s.Valid() && s.layout.Holds(i, j)
    ensures s.(transparent := on, back := back).Pixel(i, j) == s.Pixel(i, j)
  {
  }

  /** What a client reads after drawing a number. */
  lemma DrawnNumberIsReplied(s: Screen, font: AsciiFont, on: bool, back: LedColor, c: Command, i: int, j: int)
    requires s.Valid() && s.layout.Holds(i, j)
    requires c.DrawNumber? && Inside(s.(transparent := on, back := back), font, c)
    ensures var run := [SetTransparent(on), SetBackground(back), c, Pixel(i, j)];
      && LegalRun(s, font, run)
      && Replies(s, font, run) == [Done, Done, Done, Value(NumberColor(c, i, j, on, back, s.Pixel(i, j)))]
  {
    hide Screen.Pixel, Written, WritesInside, WritesInBuffer, NumberColor, NumberPicture;
    NumberPixelIs(s.(transparent := on, back := back), font, c, i, j);
    SamePixel(s, on, back, i, j);
    RepliesAfterSettings(s, font, on, back, c, i, j);
  }

  // ---------------------------------------------------------------- whole runs

  /** The command neither draws at (i, j) nor turns the view. */
  predicate Avoids(c: Command, i: int, j: int) {
    match c
    case DrawPixel(x, y, _) => x != i || y != j
    case DrawText(x, y, text, _, _) => !(x <= i < x + 4 * |text| && y <= j < y + 8)
    case DrawNumber(x, y, number, _, _) => !(x <= i < x + 3 * DigitCount(Abs(number)) && y <= j < y + 5)
    case Clear => false
    case SetRotate(_, _, _) => false
    case _ => true
  }

  lemma AvoidedPixelStays(s: Screen, font: AsciiFont, c: Command, i: int, j: int)
    requires s.Valid() && s.layout.Holds(i, j) && Inside(s, font, c) && Avoids(c, i, j)
    ensures Legal(s, font, c) && After(s, font, c).layout == s.layout
    ensures After(s, font, c).Pixel(i, j) == s.Pixel(i, j)
  {
    hide Screen.Pixel, Screen.Put, Written, WritesInside, WritesInBuffer, DigitCount, Bit, OnDigit;
    InsideIsLegal(s, font, c);
    match c
    case DrawPixel(x, y, color) =>
      DrawPixelPuts(s, font, x, y, color);
      PutChangesOnePixel(s, x, y, color);
    case DrawText(_, _, _, _, _) => TextPixelIs(s, font, c, i, j);
    case DrawNumber(_, _, _, _, _) => NumberPixelIs(s, font, c, i, j);
    case SetTransparent(on) => SamePixel(s, on, s.back, i, j);
    case SetBackground(color) => SamePixel(s, s.transparent, color, i, j);
    case _ =>
  }

  /** A drawn pixel stays until something is drawn over it: over every run that stays on the
      device, keeps the view and draws only elsewhere, it is replied as before. */
  lemma {:induction false} AvoidedPixelStaysOverRuns(s: Screen, font: AsciiFont, run: seq<Command>, i: int, j: int)
    requires s.Valid() && s.layout.Holds(i, j) && LegalRun(s, font, run) && InsideRun(s, font, run)
    requires forall c :: c in run ==> Avoids(c, i, j)
    ensures Final(s, font, run).layout == s.layout && Final(s, font, run).Pixel(i, j) == s.Pixel(i, j)
    decreases run
  {
    hide After, Legal, Inside, Avoids, Screen.Pixel;
    if run == [] {
    } else {
      assert run[0] in run && forall c :: c in run[1..] ==> c in run;
      AvoidedPixelStays(s, font, run[0], i, j);
      AvoidedPixelStaysOverRuns(After(s, font, run[0]), font, run[1..], i, j);
    }
  }
}
