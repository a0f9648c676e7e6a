/** The display server: remote commands against one device, and what holds over whole
    runs of them. */
module Rpc {
  import opened Arithmetic
  import opened Options
  import opened StripIndex
  import opened PaintSources
  import opened Screens
  import opened Drawing
  import opened Turning
  import opened PaintDevices
  import opened Printing

  datatype Command =
    | DrawPixel(x: int, y: int, color: LedColor)
    | DrawText(x: int, y: int, text: seq<AsciiCode>, color: LedColor, background: LedColor)
    | DrawNumber(x: int, y: int, number: int, color: LedColor, background: LedColor)
    | Clear
    | Width
    | Height
    | Pixel(x: int, y: int)
    | SetRotate(degree: int, flipX: bool, flipY: bool)
    | SetTransparent(on: bool)
    | SetBackground(color: LedColor)

  /** What a call returns; a rejected degree surfaces as an error. */
  datatype Reply = Done | Value(n: nat) | Rejected

  function Plain(x: int, y: int): Placement {
    Placement(x, y, false, false)
  }

  function Abs(n: int): nat {
    if n < 0 then -n else n
  }

  /** The number display's picture; the command's background is not passed on. */
  function NumberPicture(number: int, color: LedColor): PaintSource {
    DigitGroup(Abs(number), DigitCount(Abs(number)), color, BLACK)
  }

  /** The calls whose positions all have LEDs in the buffer. */
  ghost predicate Legal(s: Screen, font: AsciiFont, c: Command) {
    match c
    case DrawPixel(x, y, _) => InBuffer(s.layout, x, y)
    case Pixel(x, y) => InBuffer(s.layout, x, y)
    case DrawText(x, y, text, color, background) =>
      WritesInBuffer(s, Text(font, text, color, background), Plain(x, y))
    case DrawNumber(x, y, number, color, _) =>
      -0x8000_0000 < number < 0x8000_0000 && WritesInBuffer(s, NumberPicture(number, color), Plain(x, y))
    case _ => true
  }

  /** The calls that stay on the device. */
  ghost predicate Inside(s: Screen, font: AsciiFont, c: Command) {
    match c
    case DrawPixel(x, y, _) => s.layout.Holds(x, y)
    case Pixel(x, y) => s.layout.Holds(x, y)
    case DrawText(x, y, text, color, background) =>
      WritesInside(s, Text(font, text, color, background), Plain(x, y))
    case DrawNumber(x, y, number, color, _) =>
      -0x8000_0000 < number < 0x8000_0000 && WritesInside(s, NumberPicture(number, color), Plain(x, y))
    case _ => true
  }

  lemma InsideIsLegal(s: Screen, font: AsciiFont, c: Command)
    requires s.Valid() && Inside(s, font, c)
    ensures Legal(s, font, c)
  {
    hide WritesInside, WritesInBuffer, Written, Drawn, NumberPicture;
    match c
    case DrawPixel(x, y, _) => ReachesItselfIff(s.layout, x, y);
    case Pixel(x, y) => ReachesItselfIff(s.layout, x, y);
    case DrawText(x, y, text, color, background) =>
      WrittenInsideIsDrawn(s, Text(font, text, color, background), Plain(x, y));
    case DrawNumber(x, y, number, color, _) => WrittenInsideIsDrawn(s, NumberPicture(number, color), Plain(x, y));
    case _ =>
  }

  ghost function After(s: Screen, font: AsciiFont, c: Command): (t: Screen)
    requires s.Valid() && Legal(s, font, c)
    ensures t.Valid() && t.layout.width == s.layout.width && t.layout.height == s.layout.height
    ensures t.layout.order == s.layout.order
  {
    match c
    case DrawPixel(x, y, color) => var p := Reaches(s.layout, x, y); s.Put(p.x, p.y, color)
    case DrawText(x, y, text, color, background) => Written(s, Text(font, text, color, background), Plain(x, y))
    case DrawNumber(x, y, number, color, _) => Written(s, NumberPicture(number, color), Plain(x, y))
    case Clear => Cleared(s)
    case SetRotate(degree, flipX, flipY) =>
      if IsDegree(degree) then Turned(s, Rotation(degree, flipX, flipY)) else s
    case SetTransparent(on) => s.(transparent := on)
    case SetBackground(color) => s.(back := color)
    case _ => s
  }

  function Answer(s: Screen, font: AsciiFont, c: Command): Reply
    requires s.Valid() && Legal(s, font, c)
  {
    match c
    case Width => Value(s.layout.LogicalWidth())
    case Height => Value(s.layout.LogicalHeight())
    case Pixel(x, y) => var p := Reaches(s.layout, x, y); Value(s.Pixel(p.x, p.y))
    case SetRotate(degree, _, _) => if IsDegree(degree) then Done else Rejected
    case _ => Done
  }

  /** Dispatches one command to the device. */
  method Serve(device: PaintDevice, font: AsciiFont, c: Command) returns (reply: Reply)
    requires device.Valid() && Legal(device.View(), font, c)
    modifies device, device.leds
    ensures device.Valid()
    ensures device.View() == After(old(device.View()), font, c)
    ensures reply == Answer(old(device.View()), font, c)
  {
    reply := Done;
    match c {
      case DrawPixel(x, y, color) =>
        device.SetLed(x, y, color);
      case DrawText(x, y, text, color, background) =>
        var _ := device.Draw(Text(font, text, color, background), Plain(x, y));
      case DrawNumber(x, y, number, color, _) =>
        var group := new DigitGroup3x5(number, WHITE, BLACK);
        group.color := color;
        var _ := device.Draw(group.Picture(), Plain(x, y));
      case Clear =>
        device.Clear();
      case Width =>
        reply := Value(device.logicWidth);
      case Height =>
        reply := Value(device.logicHeight);
      case Pixel(x, y) =>
        reply := Value(device.Led(x, y));
      case SetRotate(degree, flipX, flipY) =>
        var accepted := device.SetRotate(degree, flipX, flipY);
        if !accepted {
          reply := Rejected;
        }
      case SetTransparent(on) =>
        device.SetTransparent(on);
      case SetBackground(color) =>
        device.SetBackground(color);
    }
  }

  // ---------------------------------------------------------------- whole runs

  ghost predicate LegalRun(s: Screen, font: AsciiFont, run: seq<Command>)
    requires s.Valid()
    decreases run
  {
    run == [] || (Legal(s, font, run[0]) && LegalRun(After(s, font, run[0]), font, run[1..]))
  }

  ghost predicate InsideRun(s: Screen, font: AsciiFont, run: seq<Command>)
    requires s.Valid() && LegalRun(s, font, run)
    decreases run
  {
    run == [] || (Inside(s, font, run[0]) && InsideRun(After(s, font, run[0]), font, run[1..]))
  }

  ghost function Final(s: Screen, font: AsciiFont, run: seq<Command>): (t: Screen)
    requires s.Valid() && LegalRun(s, font, run)
    ensures t.Valid()
    decreases run
  {
    if run == [] then s else Final(After(s, font, run[0]), font, run[1..])
  }

  ghost function Replies(s: Screen, font: AsciiFont, run: seq<Command>): seq<Reply>
    requires s.Valid() && LegalRun(s, font, run)
    decreases run
  {
    if run == [] then [] else [Answer(s, font, run[0])] + Replies(After(s, font, run[0]), font, run[1..])
  }

  /** Two devices that differ at most in their wiring and in the LEDs that wiring
      permutes. */
  ghost predicate LooksLike(s: Screen, t: Screen)
    requires s.Valid() && t.Valid()
  {
    && s.layout == t.layout.(order := s.layout.order)
    && s.transparent == t.transparent
    && s.back == t.back
    && SamePixels(s, t)
  }

  lemma TurningKeepsLook(s: Screen, t: Screen, r: Rotation)
    requires s.Valid() && t.Valid() && LooksLike(s, t)
    ensures LooksLike(Turned(s, r), Turned(t, r))
  {
    hide Screen.Pixel, Layout.Rotate, Layout.Unrotate;
    forall x, y | Turned(s, r).layout.Holds(x, y)
      ensures Turned(s, r).Pixel(x, y) == Turned(t, r).Pixel(x, y)
    {
      TurnedPixel(s, r, x, y);
      TurnedPixel(t, r, x, y);
      SamePoint(s.layout, t.layout, r, x, y);
    }
  }

  lemma SamePoint(l: Layout, m: Layout, r: Rotation, x: int, y: int)
    requires l == m.(order := l.order)
    ensures l.Rotate(l.(rotation := r).Unrotate(x, y)) == m.Rotate(m.(rotation := r).Unrotate(x, y))
  {
  }

  lemma SettingsKeepPixels(s: Screen, transparent: bool, back: LedColor)
    requires s.Valid()
    ensures SamePixels(s, s.(transparent := transparent, back := back))
  {
  }

  lemma DrawingKeepsLook(s: Screen, t: Screen, src: PaintSource, at: Placement)
    requires s.Valid() && t.Valid() && LooksLike(s, t)
    ensures LooksLike(Drawn(s, src, at), Drawn(t, src, at))
  {
    hide Screen.Pixel, Drawn;
    DrawnPixels(s, src, at);
    DrawnPixels(t, src, at);
  }

  lemma WritingKeepsLook(s: Screen, t: Screen, src: PaintSource, at: Placement)
    requires s.Valid() && t.Valid() && LooksLike(s, t) && WritesInside(s, src, at) && WritesInside(t, src, at)
    ensures LooksLike(Written(s, src, at), Written(t, src, at))
  {
    hide LooksLike, Written, Drawn, WritesInside;
    InsideWritesDrawn(s, src, at);
    InsideWritesDrawn(t, src, at);
    DrawingKeepsLook(s, t, src, at);
  }

  lemma WritesInsideAlike(s: Screen, t: Screen, src: PaintSource, at: Placement)
    requires s.Valid() && t.Valid() && LooksLike(s, t) && WritesInside(s, src, at)
    ensures WritesInside(t, src, at)
  {
    hide PaintSource.Led, SamePixels;
    forall u, v | Writes(t, src, at, u, v)
      ensures t.layout.Holds(Target(src, at, u, v).x, Target(src, at, u, v).y)
    {
      assert Writes(s, src, at, u, v);
    }
  }

  lemma InsideAlike(s: Screen, t: Screen, font: AsciiFont, c: Command)
    requires s.Valid() && t.Valid() && LooksLike(s, t) && Inside(s, font, c)
    ensures Inside(t, font, c)
  {
    hide SamePixels, WritesInside, NumberPicture;
    match c
    case DrawText(x, y, text, color, background) =>
      WritesInsideAlike(s, t, Text(font, text, color, background), Plain(x, y));
    case DrawNumber(x, y, number, color, _) => WritesInsideAlike(s, t, NumberPicture(number, color), Plain(x, y));
    case _ =>
  }

  lemma PuttingKeepsLook(s: Screen, t: Screen, x: int, y: int, c: LedColor)
    requires s.Valid() && t.Valid() && LooksLike(s, t) && s.layout.Holds(x, y)
    ensures LooksLike(s.Put(x, y, c), t.Put(x, y, c))
  {
    hide Screen.Pixel, Screen.Put;
    PutChangesOnePixel(s, x, y, c);
    PutChangesOnePixel(t, x, y, c);
  }

  lemma CommandKeepsLook(s: Screen, t: Screen, font: AsciiFont, c: Command)
    requires s.Valid() && t.Valid() && LooksLike(s, t) && Inside(s, font, c)
    ensures Inside(t, font, c) && Legal(s, font, c) && Legal(t, font, c)
    ensures LooksLike(After(s, font, c), After(t, font, c))
    ensures Answer(s, font, c) == Answer(t, font, c)
  {
    hide Screen.Pixel, Screen.Put, Drawn, Written, Cleared, NumberPicture, WritesInside, WritesInBuffer;
    InsideAlike(s, t, font, c);
    InsideIsLegal(s, font, c);
    InsideIsLegal(t, font, c);
    match c
    case DrawPixel(x, y, color) =>
      ReachesItselfIff(s.layout, x, y);
      ReachesItselfIff(t.layout, x, y);
      PuttingKeepsLook(s, t, x, y, color);
    case Pixel(x, y) =>
      ReachesItselfIff(s.layout, x, y);
      ReachesItselfIff(t.layout, x, y);
    case DrawText(x, y, text, color, background) =>
      WritingKeepsLook(s, t, Text(font, text, color, background), Plain(x, y));
    case DrawNumber(x, y, number, color, _) => WritingKeepsLook(s, t, NumberPicture(number, color), Plain(x, y));
    case Clear =>
      ClearedPixels(s);
      ClearedPixels(t);
    case SetRotate(degree, flipX, flipY) =>
      if IsDegree(degree) {
        TurningKeepsLook(s, t, Rotation(degree, flipX, flipY));
      }
    case SetTransparent(on) =>
      SettingsKeepPixels(s, on, s.back);
      SettingsKeepPixels(t, on, t.back);
    case SetBackground(color) =>
      SettingsKeepPixels(s, s.transparent, color);
      SettingsKeepPixels(t, t.transparent, color);
    case _ =>
  }

  /** The wiring is invisible: over every run that stays on the device, a snake strip and a
      plain row-by-row grid that start with the same picture give the same replies and show
      the same picture. */
  lemma {:induction false} WiringIsInvisible(s: Screen, t: Screen, font: AsciiFont, run: seq<Command>)
    requires s.Valid() && t.Valid() && LooksLike(s, t)
    requires LegalRun(s, font, run) && InsideRun(s, font, run)
    ensures LegalRun(t, font, run)
    ensures Replies(s, font, run) == Replies(t, font, run)
    ensures LooksLike(Final(s, font, run), Final(t, font, run))
    decreases run
  {
    hide LooksLike, After, Answer, Legal, Inside;
    if run == [] {
    } else {
      CommandKeepsLook(s, t, font, run[0]);
      WiringIsInvisible(After(s, font, run[0]), After(t, font, run[0]), font, run[1..]);
    }
  }

  /** Off the device the wiring shows: the position left of the second row is the end of the
      first row on straight rows, and the start of the third row on a snake. */
  lemma WiringShowsOutside(width: nat, height: nat)
    requires width >= 1 && height >= 3
    ensures var straight, snake := Layout(Vector, width, height, UPRIGHT), Layout(Snake, width, height, UPRIGHT);
      && InBuffer(straight, -1, 1) && Reaches(straight, -1, 1) == Point(width - 1, 0)
      && InBuffer(snake, -1, 1) && Reaches(snake, -1, 1) == Point(0, 2)
  {
    var straight, snake := Layout(Vector, width, height, UPRIGHT), Layout(Snake, width, height, UPRIGHT);
    IndexIsInjective(straight, width - 1, 0);
    IndexIsInjective(snake, 0, 2);
  }

  /** A number sent to a cleared or opaque display is read back from its pixels. */
  lemma SentNumberReadsBack(s: Screen, font: AsciiFont, x: int, y: int, number: int, color: LedColor,
                            background: LedColor)
    requires s.Valid() && Legal(s, font, DrawNumber(x, y, number, color, background))
    requires var w := 3 * DigitCount(Abs(number)); HoldsArea(s, x, y, w, 5) && Legible(s, x, y, w, 5, color, BLACK)
    ensures var t := After(s, font, DrawNumber(x, y, number, color, background));
      ReadNumber(Picture(t), x, y, DigitCount(Abs(number)), color) == Some(Abs(number))
  {
    hide Written, Drawn, ReadNumber, Picture, DigitCount;
    var src := NumberPicture(number, color);
    WritesInsideIff(s, src, Plain(x, y));
    InsideWritesDrawn(s, src, Plain(x, y));
    PrintedNumberReadsBack(s, Abs(number), color, BLACK, x, y);
  }

  /** The rotation asked for last among the accepted ones, or r if none was. */
  function LastAccepted(run: seq<Command>, r: Rotation): Rotation {
    if run == [] then r
    else match run[|run| - 1]
      case SetRotate(degree, flipX, flipY) =>
        if IsDegree(degree) then Rotation(degree, flipX, flipY) else LastAccepted(run[..|run| - 1], r)
      case _ => LastAccepted(run[..|run| - 1], r)
  }

  lemma {:induction false} LastAcceptedAfterFirst(s: Screen, font: AsciiFont, run: seq<Command>)
    requires s.Valid() && run != [] && Legal(s, font, run[0])
    ensures LastAccepted(run, s.layout.rotation)
      == LastAccepted(run[1..], After(s, font, run[0]).layout.rotation)
  {
    if |run| == 1 {
    } else {
      LastAcceptedAfterFirst(s, font, run[..|run| - 1]);
      assert run[1..][..|run| - 2] == run[..|run| - 1][1..];
    }
  }

  predicate Draws(c: Command) {
    c.DrawPixel? || c.DrawText? || c.DrawNumber? || c.Clear?
  }

  /** Over every run the device keeps its size and wiring and is seen in the rotation last
      accepted; as long as nothing is drawn, no LED changes. */
  lemma {:induction false} ViewFollowsLastRotation(s: Screen, font: AsciiFont, run: seq<Command>)
    requires s.Valid() && LegalRun(s, font, run)
    ensures Final(s, font, run).layout == s.layout.(rotation := LastAccepted(run, s.layout.rotation))
    ensures (forall c :: c in run ==> !Draws(c)) ==> Final(s, font, run).cells == s.cells
    decreases run
  {
    if run == [] {
    } else {
      LastAcceptedAfterFirst(s, font, run);
      assert run[0] in run && forall c :: c in run[1..] ==> c in run;
      ViewFollowsLastRotation(After(s, font, run[0]), font, run[1..]);
    }
  }

  // ---------------------------------------------------------------- the background of draw_number

  /** What a caller of draw_number asks for. */
  function AskedPicture(number: int, color: LedColor, background: LedColor): PaintSource {
    DigitGroup(Abs(number), DigitCount(Abs(number)), color, background)
  }

  /** Some pixel of the number that is not lit lies on the device. */
  ghost predicate UnlitOnDevice(l: Layout, x: int, y: int, number: int) {
    exists i, j :: l.Holds(i, j) && AskedPicture(number, WHITE, BLACK).Led(i - x, j - y) == Shown(BLACK)
  }

  /** The colours of a number do not decide which of its pixels are lit. */
  lemma LitWhateverColors(number: int, color: LedColor, back: LedColor, u: int, v: int)
    ensures AskedPicture(number, color, back).Led(u, v) ==
      match AskedPicture(number, WHITE, BLACK).Led(u, v)
      case OutOfRange => OutOfRange
      case Shown(c) => Shown(if c == WHITE then color else back)
  {
    hide Bit, DigitCount, Dropped;
  }

  lemma NumberHasNoThirdColor(number: int, u: int, v: int)
    ensures var r := AskedPicture(number, WHITE, BLACK).Led(u, v); r.OutOfRange? || r.color == WHITE || r.color == BLACK
  {
    hide Bit, DigitCount, Dropped;
  }

  /** What the command draws is what was asked for. */
  predicate DrawnAsAsked(s: Screen, x: int, y: int, number: int, color: LedColor, background: LedColor)
    requires s.Valid()
  {
    Drawn(s, NumberPicture(number, color), Plain(x, y))
      == Drawn(s, AskedPicture(number, color, background), Plain(x, y))
  }

  /** The background asked for is dropped.  What is drawn is what was asked for, on every
      device of this layout, exactly if black was asked for or no unlit pixel of the number
      lies on the device. */
  lemma BackgroundAsAskedIff(l: Layout, x: int, y: int, number: int, color: LedColor, background: LedColor)
    ensures (forall s: Screen :: s.Valid() && s.layout == l ==> DrawnAsAsked(s, x, y, number, color, background))
      <==> background == BLACK || !UnlitOnDevice(l, x, y, number)
  {
    hide DrawnAsAsked;
    if background == BLACK || !UnlitOnDevice(l, x, y, number) {
      forall s: Screen | s.Valid() && s.layout == l
        ensures DrawnAsAsked(s, x, y, number, color, background)
      {
        NothingUnlit(s, x, y, number, color, background);
      }
    } else {
      BackgroundMissing(l, x, y, number, color, background);
    }
  }

  lemma NothingUnlit(s: Screen, x: int, y: int, number: int, color: LedColor, background: LedColor)
    requires s.Valid() && (background == BLACK || !UnlitOnDevice(s.layout, x, y, number))
    ensures DrawnAsAsked(s, x, y, number, color, background)
  {
    hide Drawn, PaintSource.Led, DigitCount;
    forall i, j | s.layout.Holds(i, j)
      ensures Landing(NumberPicture(number, color), Plain(x, y), i, j)
        == Landing(AskedPicture(number, color, background), Plain(x, y), i, j)
    {
      LitWhateverColors(number, color, BLACK, i - x, j - y);
      LitWhateverColors(number, color, background, i - x, j - y);
      NumberHasNoThirdColor(number, i - x, j - y);
    }
    SameLandingSameDrawing(s, NumberPicture(number, color), Plain(x, y),
                           AskedPicture(number, color, background), Plain(x, y));
  }

  lemma BackgroundMissing(l: Layout, x: int, y: int, number: int, color: LedColor, background: LedColor)
    requires background != BLACK && UnlitOnDevice(l, x, y, number)
    ensures exists s: Screen :: s.Valid() && s.layout == l && !DrawnAsAsked(s, x, y, number, color, background)
  {
    hide Drawn, PaintSource.Led, Screen.Pixel, DigitCount;
    var i, j :| l.Holds(i, j) && AskedPicture(number, WHITE, BLACK).Led(i - x, j - y) == Shown(BLACK);
    var s := Screen(l, false, BLACK, seq(l.width * l.height, _ => BLACK));
    LitWhateverColors(number, color, BLACK, i - x, j - y);
    LitWhateverColors(number, color, background, i - x, j - y);
    DrawnPixels(s, NumberPicture(number, color), Plain(x, y));
    DrawnPixels(s, AskedPicture(number, color, background), Plain(x, y));
    assert Drawn(s, NumberPicture(number, color), Plain(x, y)).Pixel(i, j) == BLACK;
    assert Drawn(s, AskedPicture(number, color, background), Plain(x, y)).Pixel(i, j) == background;
    assert !DrawnAsAsked(s, x, y, number, color, background);
  }

  /** The command draw_number(0, 0, 1) on another background, sent to any opaque device of
      at least one LED, leaves its corner black. */
  lemma BackgroundIsDropped(s: Screen, font: AsciiFont, color: LedColor, background: LedColor)
    requires s.Valid() && s.layout.Holds(0, 0) && !s.transparent && background != BLACK
    ensures var c := DrawNumber(0, 0, 1, color, background);
      && Legal(s, font, c)
      && After(s, font, c).Pixel(0, 0) == BLACK
      && Drawn(s, AskedPicture(1, color, background), Plain(0, 0)).Pixel(0, 0) == background
  {
    hide Drawn, Written, Screen.Pixel;
    var c := DrawNumber(0, 0, 1, color, background);
    WritesInsideIff(s, NumberPicture(1, color), Plain(0, 0));
    InsideIsLegal(s, font, c);
    InsideWritesDrawn(s, NumberPicture(1, color), Plain(0, 0));
    DrawnPixels(s, NumberPicture(1, color), Plain(0, 0));
    DrawnPixels(s, AskedPicture(1, color, background), Plain(0, 0));
    CornerOfOne(color, BLACK);
    CornerOfOne(color, background);
  }

  lemma CornerOfOne(color: LedColor, back: LedColor)
    ensures AskedPicture(1, color, back).Led(0, 0) == Shown(back)
  {
    assert DigitCount(1) == 1;
    assert Dropped(10, 1, 0) == 1;
    assert DIGIT_FONT[1] == 0x2492 && !Bit(0x2492, 2);
  }
}
