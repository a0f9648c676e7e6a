/** The rotatable paint device: LEDs in wire order, drawn on in place through the
    index map. */
module PaintDevices {
  import opened StripIndex
  import opened PaintSources
  import opened Screens
  import opened Drawing
  import opened Turning

  /** t is s with the pixels before (x, y) set to the background. */
  ghost predicate ClearedUpTo(s: Screen, t: Screen, x: int, y: int)
    requires s.Valid() && t.Valid()
  {
    && t == s.(cells := t.cells)
    && forall i, j :: s.layout.Holds(i, j) && Before(i, j, x, y) ==> t.Pixel(i, j) == s.back
  }

  /** The flip loop has already exchanged (i, j) with its partner. */
  predicate Visited(l: Layout, i: int, j: int, x: int, y: int) {
    i < l.LogicalWidth() / 2 && Before(i, j, x, y)
  }

  /** t is s with the exchanges before (x, y) made; a pair met from both sides is back
      where it was. */
  ghost predicate FlippedUpTo(s: Screen, t: Screen, flipX: bool, flipY: bool, x: int, y: int)
    requires s.Valid() && t.Valid()
  {
    && t == s.(cells := t.cells)
    && forall i, j :: s.layout.Holds(i, j) ==>
         var oi, oj := Opposite(flipX, s.layout.LogicalWidth(), i), Opposite(flipY, s.layout.LogicalHeight(), j);
         t.Pixel(i, j) ==
           if Visited(s.layout, i, j, x, y) != Visited(s.layout, oi, oj, x, y) then s.Pixel(oi, oj) else s.Pixel(i, j)
  }

  function Exchanged(s: Screen, x: int, y: int, dx: int, dy: int): (t: Screen)
    requires s.Valid() && s.layout.Holds(x, y) && s.layout.Holds(dx, dy)
    ensures t.Valid() && t == s.(cells := t.cells)
  {
    s.Put(x, y, s.Pixel(dx, dy)).Put(dx, dy, s.Pixel(x, y))
  }

  lemma ExchangeShows(s: Screen, x: int, y: int, dx: int, dy: int)
    requires s.Valid() && s.layout.Holds(x, y) && s.layout.Holds(dx, dy)
    ensures forall i, j :: s.layout.Holds(i, j) ==>
      Exchanged(s, x, y, dx, dy).Pixel(i, j) ==
        if i == x && j == y then s.Pixel(dx, dy)
        else if i == dx && j == dy then s.Pixel(x, y)
        else s.Pixel(i, j)
  {
    PutChangesOnePixel(s, x, y, s.Pixel(dx, dy));
    PutChangesOnePixel(s.Put(x, y, s.Pixel(dx, dy)), dx, dy, s.Pixel(x, y));
  }

  lemma FlipStart(s: Screen, flipX: bool, flipY: bool)
    requires s.Valid()
    ensures FlippedUpTo(s, s, flipX, flipY, 0, 0)
  {
  }

  lemma FlipRowEnd(s: Screen, t: Screen, flipX: bool, flipY: bool, y: int)
    requires s.Valid() && t.Valid() && FlippedUpTo(s, t, flipX, flipY, s.layout.LogicalWidth() / 2, y)
    ensures FlippedUpTo(s, t, flipX, flipY, 0, y + 1)
  {
    hide Screen.Pixel;
  }

  lemma FlipStep(s: Screen, t: Screen, flipX: bool, flipY: bool, x: int, y: int)
    requires s.Valid() && t.Valid() && FlippedUpTo(s, t, flipX, flipY, x, y) && t.layout == s.layout
    requires 0 <= x < s.layout.LogicalWidth() / 2 && 0 <= y < s.layout.LogicalHeight()
    ensures var dx, dy := Opposite(flipX, s.layout.LogicalWidth(), x), Opposite(flipY, s.layout.LogicalHeight(), y);
      FlippedUpTo(s, Exchanged(t, x, y, dx, dy), flipX, flipY, x + 1, y)
  {
    hide Screen.Pixel, Screen.Put;
    ExchangeShows(t, x, y, Opposite(flipX, s.layout.LogicalWidth(), x), Opposite(flipY, s.layout.LogicalHeight(), y));
  }

  lemma FlipEnd(s: Screen, t: Screen, flipX: bool, flipY: bool)
    requires s.Valid() && t.Valid() && FlippedUpTo(s, t, flipX, flipY, 0, s.layout.LogicalHeight())
    ensures t == Flipped(s, flipX, flipY)
  {
    hide Screen.Pixel, Flipped;
    FlippedPixels(s, flipX, flipY);
    PixelsDetermineCells(t, Flipped(s, flipX, flipY));
  }

  lemma ExchangeKeepsMultiset(s: seq<LedColor>, a: int, b: int)
    requires 0 <= a < |s| && 0 <= b < |s|
    ensures multiset(s[a := s[b]][b := s[a]]) == multiset(s)
  {
  }

  class PaintDevice {
    const order: StripOrder
    const width: nat
    const height: nat
    const leds: array<LedColor>
    var rotation: Rotation
    var logicWidth: nat
    var logicHeight: nat
    var transparent: bool
    var back: LedColor

    function Layout(): Layout
      reads this
    {
      StripIndex.Layout(order, width, height, rotation)
    }

    ghost predicate Valid()
      reads this
    {
      && leds.Length == width * height
      && logicWidth == Layout().LogicalWidth()
      && logicHeight == Layout().LogicalHeight()
    }

    function View(): (s: Screen)
      reads this, leds
      requires Valid()
      ensures s.Valid()
    {
      Screen(Layout(), transparent, back, leds[..])
    }

    constructor (order: StripOrder, width: nat, height: nat, back: LedColor)
      ensures Valid() && fresh(leds)
      ensures View() == Screen(StripIndex.Layout(order, width, height, UPRIGHT), false, back,
                               seq(width * height, _ => BLACK))
    {
      this.order, this.width, this.height, this.back := order, width, height, back;
      logicWidth, logicHeight := width, height;
      rotation := UPRIGHT;
      transparent := false;
      leds := new LedColor[width * height](_ => BLACK);
      new;
      assert leds[..] == seq(width * height, _ => BLACK);
    }

    method SetTransparent(transparent: bool)
      requires Valid()
      modifies this`transparent
      ensures Valid() && View() == old(View()).(transparent := transparent)
    {
      this.transparent := transparent;
    }

    method SetBackground(color: LedColor)
      requires Valid()
      modifies this`back
      ensures Valid() && View() == old(View()).(back := color)
    {
      back := color;
    }

    /** A degree other than the four right angles is rejected and changes nothing. */
    method SetRotate(degree: int, flipX: bool, flipY: bool) returns (accepted: bool)
      requires Valid()
      modifies this`rotation, this`logicWidth, this`logicHeight
      ensures Valid() && accepted == IsDegree(degree)
      ensures View() == if IsDegree(degree) then Turned(old(View()), Rotation(degree, flipX, flipY)) else old(View())
      ensures IsDegree(degree) ==> ShowsTurned(old(View()), View(), degree, flipX, flipY)
    {
      hide ShowsTurned;
      if IsDegree(degree) {
        TurnedShowsTurned(View(), degree, flipX, flipY);
      }
      match degree {
        case 0 =>
          rotation := Rotation(0, flipX, flipY);
          logicWidth, logicHeight := width, height;
        case 90 =>
          rotation := Rotation(90, flipX, flipY);
          logicWidth, logicHeight := height, width;
        case 180 =>
          rotation := Rotation(180, flipX, flipY);
          logicWidth, logicHeight := width, height;
        case 270 =>
          rotation := Rotation(270, flipX, flipY);
          logicWidth, logicHeight := height, width;
        case _ =>
          return false;
      }
      return true;
    }

    /** Reads the LED of a position: that of the pixel it reaches, which is the position
        itself on the device. */
    function Led(x: int, y: int): LedColor
      reads this, leds
      requires Valid() && InBuffer(Layout(), x, y)
      ensures var p := Reaches(Layout(), x, y); Led(x, y) == View().Pixel(p.x, p.y)
      ensures Layout().Holds(x, y) ==> Led(x, y) == View().Pixel(x, y)
    {
      ReachesItselfIff(Layout(), x, y);
      leds[Layout().Index(x, y)]
    }

    /** Assignment through led_ref. */
    method SetLed(x: int, y: int, color: LedColor)
      requires Valid() && InBuffer(Layout(), x, y)
      modifies leds
      ensures leds[..] == old(leds[..])[Layout().Index(x, y) := color]
      ensures var p := Reaches(Layout(), x, y); View() == old(View()).Put(p.x, p.y, color)
      ensures Layout().Holds(x, y) ==> View() == old(View()).Put(x, y, color)
    {
      ReachesItselfIff(Layout(), x, y);
      leds[Layout().Index(x, y)] := color;
    }

    /** Every LED gets the background colour, although the loops run over logical
        positions. */
    method Clear()
      requires Valid()
      modifies leds
      ensures View() == Cleared(old(View()))
    {
      hide Screen.Pixel, Screen.Put, Cleared;
      ghost var s := View();
      for y := 0 to logicHeight
        invariant ClearedUpTo(s, View(), 0, y)
      {
        for x := 0 to logicWidth
          invariant ClearedUpTo(s, View(), x, y)
        {
          PutChangesOnePixel(View(), x, y, back);
          ReachesItselfIff(Layout(), x, y);
          SetLed(x, y, back);
        }
      }
      ClearedPixels(s);
      PixelsDetermineCells(View(), Cleared(s));
    }

    /** Draws the source pixel by pixel.  Throws when it reaches a pixel of a glyph that is
        outside its font; nothing has been drawn then. */
    method Draw(src: PaintSource, at: Placement) returns (thrown: bool)
      requires Valid() && WritesInBuffer(View(), src, at)
      modifies leds
      ensures View() == Written(old(View()), src, at)
      ensures WritesInside(old(View()), src, at) ==> View() == Drawn(old(View()), src, at)
      ensures thrown <==> !src.Printable() && at.x < logicWidth && at.y < logicHeight
    {
      hide Drawn, Written, WrittenUpTo, WritesInside, WritesInBuffer, PaintSource.Led, Screen.Pixel, Screen.Put;
      hide StripIndex.Layout.Index, InBuffer;
      ghost var s := View();
      InsideWritesDrawn(s, src, at);
      WriteStart(s, src, at);
      for sy := 0 to src.Height()
        invariant View() == s.(cells := leds[..]) && WrittenUpTo(s, View(), src, at, 0, sy)
        invariant !src.Printable() && at.x < logicWidth ==>
          forall v :: 0 <= v < sy ==> at.y + Opposite(at.flipY, src.Height(), v) >= logicHeight
      {
        var dy := Opposite(at.flipY, src.Height(), sy);
        if at.y + dy >= logicHeight {
          ClippedRow(s, View(), src, at, sy);
          continue;
        }
        for sx := 0 to src.Width()
          invariant View() == s.(cells := leds[..]) && WrittenUpTo(s, View(), src, at, sx, sy)
          invariant !src.Printable() ==>
            forall u :: 0 <= u < sx ==> at.x + Opposite(at.flipX, src.Width(), u) >= logicWidth
        {
          var dx := Opposite(at.flipX, src.Width(), sx);
          if at.x + dx >= logicWidth {
            PixelSkipped(s, View(), src, at, sx, sy);
            continue;
          }
          var led := src.Led(sx, sy);
          if led.OutOfRange? {
            WriteEnd(s, View(), src, at, sx, sy);
            return true;
          }
          if transparent && led.color == back {
            PixelSkipped(s, View(), src, at, sx, sy);
            continue;
          }
          PixelWritten(s, View(), src, at, sx, sy, led.color);
          SetLed(at.x + dx, at.y + dy, led.color);
        }
        assert Opposite(at.flipX, src.Width(), Opposite(at.flipX, src.Width(), 0)) == 0;
        FullRow(s, View(), src, at, sy);
      }
      assert Opposite(at.flipY, src.Height(), Opposite(at.flipY, src.Height(), 0)) == 0;
      WriteEnd(s, View(), src, at, 0, src.Height());
      return false;
    }

    /** The two LEDs change places. */
    method Exchange(x: int, y: int, dx: int, dy: int)
      requires Valid() && Layout().Holds(x, y) && Layout().Holds(dx, dy)
      modifies leds
      ensures View() == Exchanged(old(View()), x, y, dx, dy)
      ensures multiset(leds[..]) == multiset(old(leds[..]))
    {
      IndexIsInjective(Layout(), x, y);
      IndexIsInjective(Layout(), dx, dy);
      assert InBuffer(Layout(), x, y) && InBuffer(Layout(), dx, dy);
      ExchangeKeepsMultiset(leds[..], Layout().Index(x, y), Layout().Index(dx, dy));
      var tmp := Led(x, y);
      SetLed(x, y, Led(dx, dy));
      SetLed(dx, dy, tmp);
    }

    /** Exchanges pixels in place; every colour keeps its number of LEDs. */
    method Flip(flipX: bool, flipY: bool)
      requires Valid()
      modifies leds
      ensures View() == Flipped(old(View()), flipX, flipY)
      ensures multiset(leds[..]) == multiset(old(leds[..]))
    {
      hide Screen.Pixel, Screen.Put, Exchanged, Flipped, FlippedUpTo;
      ghost var s := View();
      FlipStart(s, flipX, flipY);
      for y := 0 to logicHeight
        invariant View().layout == s.layout && FlippedUpTo(s, View(), flipX, flipY, 0, y)
        invariant multiset(leds[..]) == multiset(old(leds[..]))
      {
        for x := 0 to logicWidth / 2
          invariant View().layout == s.layout && FlippedUpTo(s, View(), flipX, flipY, x, y)
          invariant multiset(leds[..]) == multiset(old(leds[..]))
        {
          var dx, dy := Opposite(flipX, logicWidth, x), Opposite(flipY, logicHeight, y);
          FlipStep(s, View(), flipX, flipY, x, y);
          Exchange(x, y, dx, dy);
        }
        FlipRowEnd(s, View(), flipX, flipY, y);
      }
      FlipEnd(s, View(), flipX, flipY);
    }
  }
}
