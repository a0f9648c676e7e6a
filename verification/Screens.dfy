/** The state of a paint device as a value, what each drawing operation should make of
    it pixel by pixel, and the laws of those operations. */
module Screens {
  import opened Arithmetic
  import opened StripIndex
  import opened PaintSources

  /** A device: its geometry, the transparency setting, the background colour and the
      colours of the LEDs in wire order. */
  datatype Screen = Screen(layout: Layout, transparent: bool, back: LedColor, cells: seq<LedColor>) {

    predicate Valid() {
      |cells| == layout.width * layout.height
    }

    /** What is seen at logical position (x, y). */
    function Pixel(x: int, y: int): LedColor
      requires Valid() && layout.Holds(x, y)
    {
      IndexIsInjective(layout, x, y);
      cells[layout.Index(x, y)]
    }

    function Put(x: int, y: int, c: LedColor): (s: Screen)
      requires Valid() && layout.Holds(x, y)
      ensures s.Valid() && s == this.(cells := s.cells)
    {
      IndexIsInjective(layout, x, y);
      this.(cells := cells[layout.Index(x, y) := c])
    }

    /** The same device showing picture f. */
    function Repaint(f: (int, int) --> LedColor): (s: Screen)
      requires Valid()
      requires forall x, y :: layout.Holds(x, y) ==> f.requires(x, y)
      ensures s.Valid() && s == this.(cells := s.cells)
    {
      this.(cells := seq(|cells|, k requires 0 <= k < |cells| =>
        var p := layout.Locate(k); IndexIsSurjective(layout, k); f(p.x, p.y)))
    }
  }

  lemma PutChangesOnePixel(s: Screen, x: int, y: int, c: LedColor)
    requires s.Valid() && s.layout.Holds(x, y)
    ensures forall i, j :: s.layout.Holds(i, j) ==>
      s.Put(x, y, c).Pixel(i, j) == if i == x && j == y then c else s.Pixel(i, j)
  {
    IndexIsInjective(s.layout, x, y);
    forall i, j | s.layout.Holds(i, j)
      ensures s.Put(x, y, c).Pixel(i, j) == if i == x && j == y then c else s.Pixel(i, j)
    {
      IndexIsInjective(s.layout, i, j);
    }
  }

  lemma RepaintShows(s: Screen, f: (int, int) --> LedColor)
    requires s.Valid()
    requires forall x, y :: s.layout.Holds(x, y) ==> f.requires(x, y)
    ensures forall x, y :: s.layout.Holds(x, y) ==> s.Repaint(f).Pixel(x, y) == f(x, y)
  {
    forall x, y | s.layout.Holds(x, y)
      ensures s.Repaint(f).Pixel(x, y) == f(x, y)
    {
      IndexIsInjective(s.layout, x, y);
    }
  }

  ghost predicate SamePixels(s: Screen, t: Screen)
    requires s.Valid() && t.Valid()
  {
    && s.layout.LogicalWidth() == t.layout.LogicalWidth()
    && s.layout.LogicalHeight() == t.layout.LogicalHeight()
    && forall x, y :: s.layout.Holds(x, y) ==> s.Pixel(x, y) == t.Pixel(x, y)
  }

  /** The logical pixels determine every LED of the device. */
  lemma PixelsDetermineCells(s: Screen, t: Screen)
    requires s.Valid() && t.Valid() && s.layout == t.layout && SamePixels(s, t)
    ensures s.cells == t.cells
  {
    forall k | 0 <= k < |s.cells|
      ensures s.cells[k] == t.cells[k]
    {
      IndexIsSurjective(s.layout, k);
      var p := s.layout.Locate(k);
      assert s.Pixel(p.x, p.y) == t.Pixel(p.x, p.y);
    }
  }

  // ---------------------------------------------------------------- clear

  function Cleared(s: Screen): (t: Screen)
    requires s.Valid()
    ensures t.Valid() && t == s.(cells := t.cells)
  {
    s.(cells := seq(|s.cells|, _ => s.back))
  }

  lemma ClearedPixels(s: Screen)
    requires s.Valid()
    ensures forall x, y :: s.layout.Holds(x, y) ==> Cleared(s).Pixel(x, y) == s.back
  {
    forall x, y | s.layout.Holds(x, y)
      ensures Cleared(s).Pixel(x, y) == s.back
    {
      IndexIsInjective(s.layout, x, y);
    }
  }

  // ---------------------------------------------------------------- draw

  /** Column or row i counted from the other end when flipped. */
  function Opposite(flip: bool, length: nat, i: int): int {
    if flip then length - i - 1 else i
  }

  /** Where a source is drawn: its offset and mirroring. */
  datatype Placement = Placement(x: int, y: int, flipX: bool, flipY: bool) {

    function SourceX(src: PaintSource, i: int): int {
      Opposite(flipX, src.Width(), i - x)
    }

    function SourceY(src: PaintSource, j: int): int {
      Opposite(flipY, src.Height(), j - y)
    }
  }

  /** The source pixel that lands on (i, j), or OutOfRange if none does. */
  function Landing(src: PaintSource, at: Placement, i: int, j: int): LedResult {
    src.Led(at.SourceX(src, i), at.SourceY(src, j))
  }

  /** The colour at (i, j) after a source pixel has landed there: the transparent colour
      leaves what was seen before. */
  function Blend(s: Screen, landing: LedResult, i: int, j: int): LedColor
    requires s.Valid() && s.layout.Holds(i, j)
  {
    if landing.OutOfRange? || (s.transparent && landing.color == s.back) then s.Pixel(i, j)
    else landing.color
  }

  /** The device after drawing.  A glyph outside its font draws nothing. */
  function Drawn(s: Screen, src: PaintSource, at: Placement): (t: Screen)
    requires s.Valid()
    ensures t.Valid() && t == s.(cells := t.cells)
  {
    s.Repaint((i, j) requires s.layout.Holds(i, j) => Blend(s, Landing(src, at, i, j), i, j))
  }

  lemma DrawnPixels(s: Screen, src: PaintSource, at: Placement)
    requires s.Valid()
    ensures forall i, j :: s.layout.Holds(i, j) ==>
      Drawn(s, src, at).Pixel(i, j) == Blend(s, Landing(src, at, i, j), i, j)
  {
    RepaintShows(s, (i, j) requires s.layout.Holds(i, j) => Blend(s, Landing(src, at, i, j), i, j));
  }

  lemma SameLandingSameDrawing(s: Screen, src: PaintSource, at: Placement, src': PaintSource, at': Placement)
    requires s.Valid()
    requires forall i, j :: s.layout.Holds(i, j) ==> Landing(src, at, i, j) == Landing(src', at', i, j)
    ensures Drawn(s, src, at) == Drawn(s, src', at')
  {
    DrawnPixels(s, src, at);
    DrawnPixels(s, src', at');
    PixelsDetermineCells(Drawn(s, src, at), Drawn(s, src', at'));
  }

  /** Drawing twice is drawing once. */
  lemma DrawIsIdempotent(s: Screen, src: PaintSource, at: Placement)
    requires s.Valid()
    ensures Drawn(Drawn(s, src, at), src, at) == Drawn(s, src, at)
  {
    hide Screen.Pixel, Drawn, PaintSource.Led;
    var once := Drawn(s, src, at);
    DrawnPixels(s, src, at);
    DrawnPixels(once, src, at);
    PixelsDetermineCells(Drawn(once, src, at), once);
  }

  /** Printing a text is printing its parts side by side, whatever is clipped, rotated or
      transparent. */
  lemma DrawTextInParts(s: Screen, font: AsciiFont, a: seq<AsciiCode>, b: seq<AsciiCode>,
                        color: LedColor, back: LedColor, x: int, y: int)
    requires s.Valid()
    ensures Drawn(s, Text(font, a + b, color, back), Placement(x, y, false, false))
         == Drawn(Drawn(s, Text(font, a, color, back), Placement(x, y, false, false)),
                  Text(font, b, color, back), Placement(x + 4 * |a|, y, false, false))
  {
    hide Screen.Pixel, Drawn, PaintSource.Led;
    var whole, left, right := Text(font, a + b, color, back), Text(font, a, color, back), Text(font, b, color, back);
    var at, next := Placement(x, y, false, false), Placement(x + 4 * |a|, y, false, false);
    var first := Drawn(s, left, at);
    DrawnPixels(s, whole, at);
    DrawnPixels(s, left, at);
    DrawnPixels(first, right, next);
    forall i, j | s.layout.Holds(i, j)
      ensures Drawn(s, whole, at).Pixel(i, j) == Drawn(first, right, next).Pixel(i, j)
    {
      TextPixel(font, a, b, color, back, i - x, j - y);
    }
    PixelsDetermineCells(Drawn(s, whole, at), Drawn(first, right, next));
  }

  lemma TextPixel(font: AsciiFont, a: seq<AsciiCode>, b: seq<AsciiCode>,
                  color: LedColor, back: LedColor, u: int, v: int)
    ensures Text(font, a + b, color, back).Led(u, v)
      == if u < 4 * |a| then Text(font, a, color, back).Led(u, v)
         else Text(font, b, color, back).Led(u - 4 * |a|, v)
  {
    if u >= 4 * |a| {
      DivisionIsUnique(u - 4 * |a|, 4, u / 4 - |a|, u % 4);
    }
  }

  // ---------------------------------------------------------------- flip

  /** The colour at (x, y) after the in-place flip, as its loops leave it: they run over
      every row but only the left half of the columns. */
  function FlippedPixel(s: Screen, flipX: bool, flipY: bool, x: int, y: int): LedColor
    requires s.Valid() && s.layout.Holds(x, y)
  {
    var w, h := s.layout.LogicalWidth(), s.layout.LogicalHeight();
    if flipX && !flipY then s.Pixel(w - x - 1, y)
    else if flipX && flipY && !(w % 2 == 1 && x == w / 2) then s.Pixel(w - x - 1, h - y - 1)
    else s.Pixel(x, y)
  }

  function Flipped(s: Screen, flipX: bool, flipY: bool): (t: Screen)
    requires s.Valid()
    ensures t.Valid() && t == s.(cells := t.cells)
  {
    s.Repaint((x, y) requires s.layout.Holds(x, y) => FlippedPixel(s, flipX, flipY, x, y))
  }

  lemma FlippedPixels(s: Screen, flipX: bool, flipY: bool)
    requires s.Valid()
    ensures forall x, y :: s.layout.Holds(x, y) ==>
      Flipped(s, flipX, flipY).Pixel(x, y) == FlippedPixel(s, flipX, flipY, x, y)
  {
    RepaintShows(s, (x, y) requires s.layout.Holds(x, y) => FlippedPixel(s, flipX, flipY, x, y));
  }

  /** The mirror image the flags ask for. */
  function MirroredPixel(s: Screen, flipX: bool, flipY: bool, x: int, y: int): LedColor
    requires s.Valid() && s.layout.Holds(x, y)
  {
    s.Pixel(Opposite(flipX, s.layout.LogicalWidth(), x), Opposite(flipY, s.layout.LogicalHeight(), y))
  }

  ghost predicate FlipMirrors(s: Screen, flipX: bool, flipY: bool)
    requires s.Valid()
  {
    forall x, y :: s.layout.Holds(x, y) ==>
      Flipped(s, flipX, flipY).Pixel(x, y) == MirroredPixel(s, flipX, flipY, x, y)
  }

  /** The sizes and flags for which the half-width loop is right: no vertical flip, or a
      combined flip of an even number of columns, or nothing to exchange. */
  predicate FlipWorks(l: Layout, flipX: bool, flipY: bool) {
    || !flipY
    || (flipX && l.LogicalWidth() % 2 == 0)
    || l.LogicalHeight() <= 1
    || l.LogicalWidth() == 0
  }

  lemma FlippedShows(s: Screen, flipX: bool, flipY: bool, u: int, v: int)
    requires s.Valid() && s.layout.Holds(u, v) && FlipWorks(s.layout, flipX, flipY)
    ensures Flipped(s, flipX, flipY).Pixel(u, v)
      == s.Pixel(Opposite(flipX, s.layout.LogicalWidth(), u), Opposite(flipY, s.layout.LogicalHeight(), v))
  {
    hide Screen.Pixel, Flipped;
    FlippedPixels(s, flipX, flipY);
  }

  /** In-place flip mirrors every picture of a device exactly when FlipWorks. */
  lemma FlipMirrorsIff(l: Layout, flipX: bool, flipY: bool)
    ensures (forall s: Screen :: s.Valid() && s.layout == l ==> FlipMirrors(s, flipX, flipY))
      <==> FlipWorks(l, flipX, flipY)
  {
    hide Screen.Pixel, Flipped, FlipWorks;
    if FlipWorks(l, flipX, flipY) {
      forall s: Screen | s.Valid() && s.layout == l
        ensures FlipMirrors(s, flipX, flipY)
      {
        forall x, y | s.layout.Holds(x, y)
          ensures Flipped(s, flipX, flipY).Pixel(x, y) == MirroredPixel(s, flipX, flipY, x, y)
        {
          FlippedShows(s, flipX, flipY, x, y);
        }
      }
    } else {
      FlipCounterexample(l, flipX, flipY);
    }
  }

  lemma DarkPixel(s: Screen, x: int, y: int)
    requires s.Valid() && s.layout.Holds(x, y) && s.cells == seq(|s.cells|, _ => BLACK)
    ensures s.Pixel(x, y) == BLACK
  {
    IndexIsInjective(s.layout, x, y);
  }

  /** A device dark but for one white pixel. */
  function OneLit(l: Layout, x: int, y: int): (s: Screen)
    requires l.Holds(x, y)
    ensures s.Valid() && s.layout == l
  {
    Screen(l, false, BLACK, seq(l.width * l.height, _ => BLACK)).Put(x, y, WHITE)
  }

  /** Where flip does not mirror, one lit LED in the middle of the top row stays there,
      although it should have gone to the bottom row. */
  lemma FlipCounterexample(l: Layout, flipX: bool, flipY: bool)
    requires !FlipWorks(l, flipX, flipY)
    ensures var mid := l.LogicalWidth() / 2;
      && l.Holds(mid, 0)
      && Flipped(OneLit(l, mid, 0), flipX, flipY).Pixel(mid, 0) == WHITE
      && MirroredPixel(OneLit(l, mid, 0), flipX, flipY, mid, 0) == BLACK
      && !FlipMirrors(OneLit(l, mid, 0), flipX, flipY)
  {
    hide Screen.Pixel, Screen.Put, Flipped;
    var mid := l.LogicalWidth() / 2;
    assert l.Holds(mid, 0);
    var dark := Screen(l, false, BLACK, seq(l.width * l.height, _ => BLACK));
    var lit := dark.Put(mid, 0, WHITE);
    PutChangesOnePixel(dark, mid, 0, WHITE);
    FlippedPixels(lit, flipX, flipY);
    var opposite := l.LogicalHeight() - 1;
    var seen := if flipX then l.LogicalWidth() - mid - 1 else mid;
    DarkPixel(dark, seen, opposite);
  }

  /** What the half-width loop leaves, pixel by pixel: a flip without flip_x changes
      nothing, and a combined one every pixel but the middle column of an odd width. */
  lemma EachPixelMirrorsOrStays(s: Screen, flipX: bool, flipY: bool, x: int, y: int)
    requires s.Valid() && s.layout.Holds(x, y)
    ensures Flipped(s, flipX, flipY).Pixel(x, y) ==
      if flipX && (flipY ==> 2 * x + 1 != s.layout.LogicalWidth()) then MirroredPixel(s, flipX, flipY, x, y)
      else s.Pixel(x, y)
  {
    hide Screen.Pixel, Flipped;
    FlippedPixels(s, flipX, flipY);
  }

  /** Flipping twice with the same flags restores the picture, also where a single flip
      is not the mirror image. */
  lemma FlipIsAnInvolution(s: Screen, flipX: bool, flipY: bool)
    requires s.Valid()
    ensures Flipped(Flipped(s, flipX, flipY), flipX, flipY) == s
  {
    hide Screen.Pixel, Flipped;
    var once := Flipped(s, flipX, flipY);
    FlippedPixels(s, flipX, flipY);
    FlippedPixels(once, flipX, flipY);
    PixelsDetermineCells(Flipped(once, flipX, flipY), s);
  }

  // ---------------------------------------------------------------- set_rotate

  /** Turning re-indexes: the LEDs keep their colours. */
  function Turned(s: Screen, rotation: Rotation): (t: Screen)
    requires s.Valid()
    ensures t.Valid()
  {
    s.(layout := s.layout.(rotation := rotation))
  }

  lemma TurnedShowsMirrored(s: Screen, flipX: bool, flipY: bool, x: int, y: int)
    requires s.Valid() && s.layout.rotation == UPRIGHT && s.layout.Holds(x, y)
    ensures Turned(s, Rotation(0, flipX, flipY)).Pixel(x, y) == MirroredPixel(s, flipX, flipY, x, y)
  {
  }

  lemma FlipLooksTurnedIffItMirrors(s: Screen, flipX: bool, flipY: bool)
    requires s.Valid() && s.layout.rotation == UPRIGHT
    ensures SamePixels(Flipped(s, flipX, flipY), Turned(s, Rotation(0, flipX, flipY))) <==> FlipMirrors(s, flipX, flipY)
  {
    hide Screen.Pixel, Flipped, MirroredPixel;
    forall x, y | s.layout.Holds(x, y)
      ensures Turned(s, Rotation(0, flipX, flipY)).layout.Holds(x, y)
      ensures Turned(s, Rotation(0, flipX, flipY)).Pixel(x, y) == MirroredPixel(s, flipX, flipY, x, y)
    {
      TurnedShowsMirrored(s, flipX, flipY, x, y);
    }
  }

  /** Flipping an upright device in place looks like leaving the LEDs alone and turning the
      view, for every picture, exactly when FlipWorks. */
  lemma FlipLooksLikeTurningIff(l: Layout, flipX: bool, flipY: bool)
    requires l.rotation == UPRIGHT
    ensures (forall s: Screen :: s.Valid() && s.layout == l ==>
        SamePixels(Flipped(s, flipX, flipY), Turned(s, Rotation(0, flipX, flipY))))
      <==> FlipWorks(l, flipX, flipY)
  {
    hide Flipped, Turned, FlipMirrors, FlipWorks, SamePixels;
    FlipMirrorsIff(l, flipX, flipY);
    forall s: Screen | s.Valid() && s.layout == l
      ensures SamePixels(Flipped(s, flipX, flipY), Turned(s, Rotation(0, flipX, flipY)))
        <==> FlipMirrors(s, flipX, flipY)
    {
      FlipLooksTurnedIffItMirrors(s, flipX, flipY);
    }
  }

  /** A device that stores source pixels: a Pixmap of the source's size. */
  function Copied(src: PaintSource): (t: Screen)
    requires src.Printable()
    ensures t.Valid()
  {
    var l := Layout(Vector, src.Width(), src.Height(), UPRIGHT);
    Drawn(Screen(l, false, BLACK, seq(src.Width() * src.Height(), _ => BLACK)), src, Placement(0, 0, false, false))
  }

  /** What a device shows, as a source to draw from. */
  function Picture(s: Screen): (src: PaintSource)
    requires s.Valid()
    ensures src.Printable() && src.Width() == s.layout.LogicalWidth() && src.Height() == s.layout.LogicalHeight()
  {
    var w, h := s.layout.LogicalWidth(), s.layout.LogicalHeight();
    Image(BitmapData(w, h, seq(w * h, k requires 0 <= k < w * h => PictureCell(s, k))))
  }

  function PictureCell(s: Screen, k: nat): LedColor
    requires s.Valid() && k < s.layout.LogicalWidth() * s.layout.LogicalHeight()
  {
    var w, h := s.layout.LogicalWidth(), s.layout.LogicalHeight();
    WirePointBounds(Vector, w, h, k);
    var p := WirePoint(Vector, w, k);
    s.Pixel(p.x, p.y)
  }

  lemma PictureShows(s: Screen, u: int, v: int)
    requires s.Valid()
    ensures Picture(s).Led(u, v) == if s.layout.Holds(u, v) then Shown(s.Pixel(u, v)) else OutOfRange
  {
    hide Screen.Pixel;
    if s.layout.Holds(u, v) {
      WireBijection(Vector, s.layout.LogicalWidth(), s.layout.LogicalHeight(), Point(u, v));
    }
  }

  lemma CopyShape(src: PaintSource)
    requires src.Printable()
    ensures Copied(src) == Screen(Layout(Vector, src.Width(), src.Height(), UPRIGHT), false, BLACK, Copied(src).cells)
  {
  }

  /** The source's picture after copying it into a Pixmap and flipping that in place. */
  function FlippedCopy(src: PaintSource, flipX: bool, flipY: bool): PaintSource
    requires src.Printable()
  {
    Picture(Flipped(Copied(src), flipX, flipY))
  }

  lemma CopyShowsSource(src: PaintSource, u: int, v: int)
    requires src.Printable() && src.Covers(u, v)
    ensures Copied(src).layout.Holds(u, v) && Copied(src).Pixel(u, v) == src.At(u, v)
  {
    var l := Layout(Vector, src.Width(), src.Height(), UPRIGHT);
    var blank := Screen(l, false, BLACK, seq(src.Width() * src.Height(), _ => BLACK));
    DrawnPixels(blank, src, Placement(0, 0, false, false));
  }

  lemma FlippedCopyLed(src: PaintSource, flipX: bool, flipY: bool, u: int, v: int)
    requires src.Printable() && FlipWorks(Layout(Vector, src.Width(), src.Height(), UPRIGHT), flipX, flipY)
    ensures FlippedCopy(src, flipX, flipY).Led(u, v)
      == src.Led(Opposite(flipX, src.Width(), u), Opposite(flipY, src.Height(), v))
  {
    hide Screen.Pixel, Picture, PaintSource.Led, Flipped;
    var copy := Copied(src);
    PictureShows(Flipped(copy, flipX, flipY), u, v);
    if src.Covers(u, v) {
      FlippedShows(copy, flipX, flipY, u, v);
      CopyShowsSource(src, Opposite(flipX, src.Width(), u), Opposite(flipY, src.Height(), v));
    }
  }

  lemma DrawMirror(s: Screen, src: PaintSource, image: PaintSource, x: int, y: int, flipX: bool, flipY: bool)
    requires s.Valid()
    requires forall u, v ::
      image.Led(u, v) == src.Led(Opposite(flipX, src.Width(), u), Opposite(flipY, src.Height(), v))
    ensures Drawn(s, src, Placement(x, y, flipX, flipY)) == Drawn(s, image, Placement(x, y, false, false))
  {
    hide Drawn, PaintSource.Led;
    SameLandingSameDrawing(s, src, Placement(x, y, flipX, flipY), image, Placement(x, y, false, false));
  }

  ghost predicate CopyMirrors(s: Screen, src: PaintSource, x: int, y: int, flipX: bool, flipY: bool)
    requires s.Valid() && src.Printable()
  {
    Drawn(s, src, Placement(x, y, flipX, flipY))
      == Drawn(s, FlippedCopy(src, flipX, flipY), Placement(x, y, false, false))
  }

  lemma DrawMirroredIsDrawFlippedCopy(s: Screen, src: PaintSource, x: int, y: int, flipX: bool, flipY: bool)
    requires s.Valid() && src.Printable()
    requires FlipWorks(Layout(Vector, src.Width(), src.Height(), UPRIGHT), flipX, flipY)
    ensures CopyMirrors(s, src, x, y, flipX, flipY)
  {
    forall u, v
      ensures FlippedCopy(src, flipX, flipY).Led(u, v)
        == src.Led(Opposite(flipX, src.Width(), u), Opposite(flipY, src.Height(), v))
    {
      FlippedCopyLed(src, flipX, flipY, u, v);
    }
    DrawMirror(s, src, FlippedCopy(src, flipX, flipY), x, y, flipX, flipY);
  }

  /** Copying the picture of an upright Pixmap gives the Pixmap back. */
  lemma CopyOfPicture(s: Screen)
    requires s.Valid() && s.layout == Layout(Vector, s.layout.width, s.layout.height, UPRIGHT)
    requires !s.transparent && s.back == BLACK
    ensures Copied(Picture(s)) == s
  {
    hide Screen.Pixel, Copied, Picture, PaintSource.Led;
    CopyShape(Picture(s));
    forall x, y | s.layout.Holds(x, y)
      ensures Copied(Picture(s)).Pixel(x, y) == s.Pixel(x, y)
    {
      PictureShows(s, x, y);
      CopyShowsSource(Picture(s), x, y);
    }
    PixelsDetermineCells(Copied(Picture(s)), s);
  }

  /** Drawing mirrored is drawing the flipped copy, for every source of the given size and
      on every device, exactly when flipping a copy of that size mirrors. */
  lemma DrawMirroredIsDrawFlippedCopyIff(width: nat, height: nat, flipX: bool, flipY: bool)
    ensures (forall s: Screen, src: PaintSource, x, y ::
        s.Valid() && src.Printable() && src.Width() == width && src.Height() == height ==>
          CopyMirrors(s, src, x, y, flipX, flipY))
      <==> FlipWorks(Layout(Vector, width, height, UPRIGHT), flipX, flipY)
  {
    hide CopyMirrors, FlipWorks, PaintSource.Width, PaintSource.Height, PaintSource.Printable;
    var l := Layout(Vector, width, height, UPRIGHT);
    if FlipWorks(l, flipX, flipY) {
      forall s: Screen, src: PaintSource, x, y |
        s.Valid() && src.Printable() && src.Width() == width && src.Height() == height
        ensures CopyMirrors(s, src, x, y, flipX, flipY)
      {
        DrawMirroredIsDrawFlippedCopy(s, src, x, y, flipX, flipY);
      }
    } else {
      MirroredLitPicture(l, flipX, flipY);
    }
  }

  /** Otherwise it fails for the picture of one lit pixel in the middle of the top row, on a
      device like it. */
  lemma MirroredLitPicture(l: Layout, flipX: bool, flipY: bool)
    requires l == Layout(Vector, l.width, l.height, UPRIGHT) && !FlipWorks(l, flipX, flipY)
    ensures var mid := l.LogicalWidth() / 2;
      && l.Holds(mid, 0)
      && Picture(OneLit(l, mid, 0)).Width() == l.width && Picture(OneLit(l, mid, 0)).Height() == l.height
      && !CopyMirrors(OneLit(l, mid, 0), Picture(OneLit(l, mid, 0)), 0, 0, flipX, flipY)
  {
    hide Screen.Pixel, Screen.Put, Flipped, Picture, Copied, Drawn, PaintSource.Led;
    var mid := l.LogicalWidth() / 2;
    FlipCounterexample(l, flipX, flipY);
    var lit := OneLit(l, mid, 0);
    var src := Picture(lit);
    CopyOfPicture(lit);
    CopyShape(src);
    DrawnPixels(lit, src, Placement(0, 0, flipX, flipY));
    DrawnPixels(lit, Picture(Flipped(lit, flipX, flipY)), Placement(0, 0, false, false));
    PictureShows(lit, Opposite(flipX, l.width, mid), Opposite(flipY, l.height, 0));
    PictureShows(Flipped(lit, flipX, flipY), mid, 0);
  }
}
