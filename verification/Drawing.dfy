/** What the drawing loops write: to which LED, in which order, and that inside the device
    it is the picture the drawing should give. */
module Drawing {
  import opened StripIndex
  import opened PaintSources
  import opened Screens

  /** Where source pixel (u, v) lands. */
  function Target(src: PaintSource, at: Placement, u: int, v: int): Point {
    Point(at.x + Opposite(at.flipX, src.Width(), u), at.y + Opposite(at.flipY, src.Height(), v))
  }

  /** The clipping tests, on the right and at the bottom only, let p pass. */
  predicate Unclipped(l: Layout, p: Point) {
    p.x < l.LogicalWidth() && p.y < l.LogicalHeight()
  }

  /** The loops write source pixel (u, v) to its target: it can be read, is not clipped and
      is not see-through. */
  predicate Writes(s: Screen, src: PaintSource, at: Placement, u: int, v: int) {
    && src.Covers(u, v) && src.Printable()
    && Unclipped(s.layout, Target(src, at, u, v))
    && !(s.transparent && src.At(u, v) == s.back)
  }

  /** Drawing writes to no position outside the device. */
  ghost predicate WritesInside(s: Screen, src: PaintSource, at: Placement) {
    forall u, v :: Writes(s, src, at, u, v) ==> s.layout.Holds(Target(src, at, u, v).x, Target(src, at, u, v).y)
  }

  predicate Overhangs(l: Layout, p: Point) {
    Unclipped(l, p) && (p.x < 0 || p.y < 0)
  }

  /** Every source pixel that hangs over the left or upper edge has the background
      colour. */
  ghost predicate OverhangSeeThrough(s: Screen, src: PaintSource, at: Placement)
    requires src.Printable()
  {
    forall u, v :: src.Covers(u, v) && Overhangs(s.layout, Target(src, at, u, v)) ==> src.At(u, v) == s.back
  }

  /** The exact offsets for which the code draws inside the device: a glyph outside its font
      is never written, an opaque device needs offsets that are not negative or a source
      that is clipped altogether, and a transparent one only that what hangs over the left
      or upper edge is see-through. */
  lemma WritesInsideIff(s: Screen, src: PaintSource, at: Placement)
    ensures WritesInside(s, src, at) <==>
      || !src.Printable()
      || src.Width() == 0 || at.x >= s.layout.LogicalWidth() || src.Height() == 0 || at.y >= s.layout.LogicalHeight()
      || (at.x >= 0 && at.y >= 0)
      || (s.transparent && OverhangSeeThrough(s, src, at))
  {
    hide PaintSource.Led;
    var u, v := Opposite(at.flipX, src.Width(), 0), Opposite(at.flipY, src.Height(), 0);
    assert Target(src, at, u, v) == Point(at.x, at.y);
    assert src.Printable() && src.Covers(u, v) && !s.transparent && Unclipped(s.layout, Point(at.x, at.y))
      ==> Writes(s, src, at, u, v);
  }

  /** Both happen: on any opaque upright device with straight rows, the digit 0 drawn one
      column to the left of the edge is written before the first LED, or one row down, to
      the last LED of the row above. */
  lemma DigitOverLeftEdge(s: Screen, color: LedColor, back: LedColor)
    requires s.layout.order == Vector && s.layout.rotation == UPRIGHT && !s.transparent
    requires s.layout.width >= 1 && s.layout.height >= 2
    ensures var src := DigitGlyph(0, color, back);
      && Writes(s, src, Placement(-1, 0, false, false), 0, 0)
      && Target(src, Placement(-1, 0, false, false), 0, 0) == Point(-1, 0)
      && s.layout.Index(-1, 0) == -1
      && Writes(s, src, Placement(-1, 1, false, false), 0, 0)
      && Target(src, Placement(-1, 1, false, false), 0, 0) == Point(-1, 1)
      && s.layout.Index(-1, 1) == s.layout.Index(s.layout.width - 1, 0)
  {
  }

  /** A see-through overhang is drawn inside: the digit 1, whose left column is empty, one
      column over the left edge of a transparent device with its background. */
  lemma DigitOneOverLeftEdge(s: Screen, color: LedColor)
    requires s.transparent
    ensures WritesInside(s, DigitGlyph(1, color, s.back), Placement(-1, 0, false, false))
  {
    assert DIGIT_FONT[1] == 0x2492;
    assert !Bit(0x2492, 2) && !Bit(0x2492, 5) && !Bit(0x2492, 8) && !Bit(0x2492, 11) && !Bit(0x2492, 14);
  }

  // ---------------------------------------------------------------- the LEDs written

  /** Source pixel (u, v) comes before (sx, sy) in drawing order. */
  predicate Before(u: int, v: int, sx: int, sy: int) {
    v < sy || (v == sy && u < sx)
  }

  /** Every LED that the loops write is in the buffer. */
  ghost predicate WritesInBuffer(s: Screen, src: PaintSource, at: Placement) {
    forall u, v :: Writes(s, src, at, u, v) ==> InBuffer(s.layout, Target(src, at, u, v).x, Target(src, at, u, v).y)
  }

  /** Source pixel (u, v) is written to LED k. */
  predicate Hits(s: Screen, src: PaintSource, at: Placement, u: int, v: int, k: int) {
    Writes(s, src, at, u, v) && s.layout.Index(Target(src, at, u, v).x, Target(src, at, u, v).y) == k
  }

  /** Of the pixels before (sx, sy), (u, v) is the last one that hits k. */
  ghost predicate LastHit(s: Screen, src: PaintSource, at: Placement, k: int, u: int, v: int, sx: int, sy: int) {
    && Hits(s, src, at, u, v, k) && Before(u, v, sx, sy)
    && forall u', v' :: Hits(s, src, at, u', v', k) && Before(u', v', sx, sy) ==> !Before(u, v, u', v')
  }

  /** The colour of LED k after the pixels before (sx, sy): that of the last one that hits it,
      or what it was if none does. */
  ghost predicate CellIs(s: Screen, src: PaintSource, at: Placement, k: int, sx: int, sy: int, c: LedColor)
    requires s.Valid() && 0 <= k < |s.cells|
  {
    || (exists u, v :: LastHit(s, src, at, k, u, v, sx, sy) && src.Led(u, v) == Shown(c))
    || (c == s.cells[k] && forall u, v :: Hits(s, src, at, u, v, k) ==> !Before(u, v, sx, sy))
  }

  /** t is s after the source pixels before (sx, sy). */
  ghost predicate WrittenUpTo(s: Screen, t: Screen, src: PaintSource, at: Placement, sx: int, sy: int)
    requires s.Valid() && t.Valid()
  {
    && t == s.(cells := t.cells)
    && forall k :: 0 <= k < |s.cells| ==> CellIs(s, src, at, k, sx, sy, t.cells[k])
  }

  lemma CellIsUnique(s: Screen, src: PaintSource, at: Placement, k: int, sx: int, sy: int, c: LedColor, d: LedColor)
    requires s.Valid() && 0 <= k < |s.cells|
    requires CellIs(s, src, at, k, sx, sy, c) && CellIs(s, src, at, k, sx, sy, d)
    ensures c == d
  {
    hide Hits, PaintSource.Led;
  }

  ghost function CellAfter(s: Screen, src: PaintSource, at: Placement, k: int): LedColor
    requires s.Valid() && 0 <= k < |s.cells|
  {
    if c :| CellIs(s, src, at, k, 0, src.Height(), c) then c else s.cells[k]
  }

  /** The device after the drawing loops, wherever they write in the buffer. */
  ghost function Written(s: Screen, src: PaintSource, at: Placement): (t: Screen)
    requires s.Valid()
    ensures t.Valid() && t == s.(cells := t.cells)
  {
    s.(cells := seq(|s.cells|, k requires 0 <= k < |s.cells| => CellAfter(s, src, at, k)))
  }

  lemma WriteStart(s: Screen, src: PaintSource, at: Placement)
    requires s.Valid()
    ensures WrittenUpTo(s, s, src, at, 0, 0)
  {
    hide PaintSource.Led;
  }

  lemma WriteStep(s: Screen, t: Screen, src: PaintSource, at: Placement, sx: int, sy: int, k: int, c: LedColor)
    requires s.Valid() && t.Valid() && WrittenUpTo(s, t, src, at, sx, sy)
    requires 0 <= k < |s.cells| && Hits(s, src, at, sx, sy, k) && src.Led(sx, sy) == Shown(c)
    ensures WrittenUpTo(s, t.(cells := t.cells[k := c]), src, at, sx + 1, sy)
  {
    hide Hits, PaintSource.Led, CellIs;
    var t' := t.(cells := t.cells[k := c]);
    forall j | 0 <= j < |s.cells|
      ensures CellIs(s, src, at, j, sx + 1, sy, t'.cells[j])
    {
      if j == k {
        HitCell(s, src, at, k, sx, sy, c);
      } else {
        OneIndex(s, src, at, sx, sy, k, j);
        MissedCell(s, src, at, j, sx, sy, t.cells[j]);
      }
    }
  }

  /** The body of the inner loop on a pixel that is neither clipped nor see-through. */
  lemma PixelWritten(s: Screen, t: Screen, src: PaintSource, at: Placement, sx: int, sy: int, c: LedColor)
    requires s.Valid() && t.Valid() && WrittenUpTo(s, t, src, at, sx, sy) && WritesInBuffer(s, src, at)
    requires src.Led(sx, sy) == Shown(c) && Unclipped(s.layout, Target(src, at, sx, sy))
    requires !(s.transparent && c == s.back)
    ensures var p := Target(src, at, sx, sy);
      InBuffer(s.layout, p.x, p.y)
      && WrittenUpTo(s, t.(cells := t.cells[s.layout.Index(p.x, p.y) := c]), src, at, sx + 1, sy)
  {
    hide WrittenUpTo, Target, PaintSource.Led;
    var p := Target(src, at, sx, sy);
    assert Writes(s, src, at, sx, sy);
    WriteStep(s, t, src, at, sx, sy, s.layout.Index(p.x, p.y), c);
  }

  lemma ClippedRow(s: Screen, t: Screen, src: PaintSource, at: Placement, sy: int)
    requires s.Valid() && t.Valid() && WrittenUpTo(s, t, src, at, 0, sy)
    requires at.y + Opposite(at.flipY, src.Height(), sy) >= s.layout.LogicalHeight()
    ensures WrittenUpTo(s, t, src, at, 0, sy + 1)
  {
    hide WrittenUpTo, PaintSource.Led;
    RowEnd(s, t, src, at, 0, sy);
  }

  lemma FullRow(s: Screen, t: Screen, src: PaintSource, at: Placement, sy: int)
    requires s.Valid() && t.Valid() && WrittenUpTo(s, t, src, at, src.Width(), sy)
    ensures WrittenUpTo(s, t, src, at, 0, sy + 1)
  {
    hide WrittenUpTo, PaintSource.Led;
    RowEnd(s, t, src, at, src.Width(), sy);
  }

  lemma PixelSkipped(s: Screen, t: Screen, src: PaintSource, at: Placement, sx: int, sy: int)
    requires s.Valid() && t.Valid() && WrittenUpTo(s, t, src, at, sx, sy)
    requires !Unclipped(s.layout, Target(src, at, sx, sy)) || (s.transparent && src.Led(sx, sy) == Shown(s.back))
    ensures WrittenUpTo(s, t, src, at, sx + 1, sy)
  {
    hide WrittenUpTo, PaintSource.Led;
    SkipStep(s, t, src, at, sx, sy);
  }

  lemma OneIndex(s: Screen, src: PaintSource, at: Placement, u: int, v: int, k: int, j: int)
    requires Hits(s, src, at, u, v, k) && j != k
    ensures !Hits(s, src, at, u, v, j)
  {
  }

  lemma HitCell(s: Screen, src: PaintSource, at: Placement, k: int, sx: int, sy: int, c: LedColor)
    requires s.Valid() && 0 <= k < |s.cells| && Hits(s, src, at, sx, sy, k) && src.Led(sx, sy) == Shown(c)
    ensures CellIs(s, src, at, k, sx + 1, sy, c)
  {
    hide Hits, PaintSource.Led;
    assert LastHit(s, src, at, k, sx, sy, sx + 1, sy);
  }

  lemma MissedCell(s: Screen, src: PaintSource, at: Placement, k: int, sx: int, sy: int, c: LedColor)
    requires s.Valid() && 0 <= k < |s.cells| && !Hits(s, src, at, sx, sy, k)
    requires CellIs(s, src, at, k, sx, sy, c)
    ensures CellIs(s, src, at, k, sx + 1, sy, c)
  {
    hide Hits, PaintSource.Led;
    if u, v :| LastHit(s, src, at, k, u, v, sx, sy) && src.Led(u, v) == Shown(c) {
      assert LastHit(s, src, at, k, u, v, sx + 1, sy);
    }
  }

  lemma SkipStep(s: Screen, t: Screen, src: PaintSource, at: Placement, sx: int, sy: int)
    requires s.Valid() && t.Valid() && WrittenUpTo(s, t, src, at, sx, sy) && !Writes(s, src, at, sx, sy)
    ensures WrittenUpTo(s, t, src, at, sx + 1, sy)
  {
    hide PaintSource.Led, CellIs;
    forall j | 0 <= j < |s.cells|
      ensures CellIs(s, src, at, j, sx + 1, sy, t.cells[j])
    {
      MissedCell(s, src, at, j, sx, sy, t.cells[j]);
    }
  }

  /** Nothing is left to write in row sy from column sx on. */
  lemma RowEnd(s: Screen, t: Screen, src: PaintSource, at: Placement, sx: int, sy: int)
    requires s.Valid() && t.Valid() && WrittenUpTo(s, t, src, at, sx, sy)
    requires forall u :: sx <= u ==> !Writes(s, src, at, u, sy)
    ensures WrittenUpTo(s, t, src, at, 0, sy + 1)
  {
    hide PaintSource.Led, CellIs;
    forall k | 0 <= k < |s.cells|
      ensures CellIs(s, src, at, k, 0, sy + 1, t.cells[k])
    {
      CellRowEnd(s, src, at, k, sx, sy, t.cells[k]);
    }
  }

  lemma CellRowEnd(s: Screen, src: PaintSource, at: Placement, k: int, sx: int, sy: int, c: LedColor)
    requires s.Valid() && 0 <= k < |s.cells| && CellIs(s, src, at, k, sx, sy, c)
    requires forall u :: sx <= u ==> !Writes(s, src, at, u, sy)
    ensures CellIs(s, src, at, k, 0, sy + 1, c)
  {
    hide Writes, PaintSource.Led, Target;
    forall u, v | Hits(s, src, at, u, v, k)
      ensures Before(u, v, 0, sy + 1) <==> Before(u, v, sx, sy)
    {
      ColumnsCount(s, src, at, u, v);
    }
    if u, v :| LastHit(s, src, at, k, u, v, sx, sy) && src.Led(u, v) == Shown(c) {
      assert LastHit(s, src, at, k, u, v, 0, sy + 1);
    }
  }

  lemma ColumnsCount(s: Screen, src: PaintSource, at: Placement, u: int, v: int)
    requires Writes(s, src, at, u, v)
    ensures u >= 0
  {
  }

  lemma WriteEnd(s: Screen, t: Screen, src: PaintSource, at: Placement, sx: int, sy: int)
    requires s.Valid() && t.Valid() && WrittenUpTo(s, t, src, at, sx, sy)
    requires !src.Printable() || (sx == 0 && sy == src.Height())
    ensures t == Written(s, src, at)
  {
    hide PaintSource.Led, CellIs;
    forall k | 0 <= k < |s.cells|
      ensures t.cells[k] == Written(s, src, at).cells[k]
    {
      if !src.Printable() {
        NothingHits(s, src, at, k, sx, sy, t.cells[k]);
      }
      CellIsUnique(s, src, at, k, 0, src.Height(), t.cells[k], CellAfter(s, src, at, k));
    }
  }

  lemma NothingHits(s: Screen, src: PaintSource, at: Placement, k: int, sx: int, sy: int, c: LedColor)
    requires s.Valid() && 0 <= k < |s.cells| && !src.Printable() && CellIs(s, src, at, k, sx, sy, c)
    ensures CellIs(s, src, at, k, 0, src.Height(), c)
  {
    hide PaintSource.Led;
  }

  // ---------------------------------------------------------------- inside the device

  /** Where the loops write inside the device, each LED is hit once and the result is the
      picture that drawing should give. */
  lemma WrittenInsideIsDrawn(s: Screen, src: PaintSource, at: Placement)
    requires s.Valid() && WritesInside(s, src, at)
    ensures WritesInBuffer(s, src, at)
    ensures Written(s, src, at) == Drawn(s, src, at)
  {
    hide PaintSource.Led, CellIs, Drawn, Written, Writes;
    forall u, v | Writes(s, src, at, u, v)
      ensures InBuffer(s.layout, Target(src, at, u, v).x, Target(src, at, u, v).y)
    {
      IndexIsInjective(s.layout, Target(src, at, u, v).x, Target(src, at, u, v).y);
    }
    var t := Drawn(s, src, at);
    forall k | 0 <= k < |s.cells|
      ensures CellIs(s, src, at, k, 0, src.Height(), t.cells[k])
    {
      DrawnCell(s, src, at, k);
    }
    WriteEnd(s, t, src, at, 0, src.Height());
  }

  lemma InsideWritesDrawn(s: Screen, src: PaintSource, at: Placement)
    requires s.Valid()
    ensures WritesInside(s, src, at) ==> Written(s, src, at) == Drawn(s, src, at)
  {
    hide Written, Drawn, WritesInside;
    if WritesInside(s, src, at) {
      WrittenInsideIsDrawn(s, src, at);
    }
  }

  lemma DrawnCell(s: Screen, src: PaintSource, at: Placement, k: int)
    requires s.Valid() && WritesInside(s, src, at) && 0 <= k < |s.cells|
    ensures CellIs(s, src, at, k, 0, src.Height(), Drawn(s, src, at).cells[k])
  {
    hide PaintSource.Led, Drawn, Target;
    var p := s.layout.Locate(k);
    var u, v := at.SourceX(src, p.x), at.SourceY(src, p.y);
    IndexIsSurjective(s.layout, k);
    DrawnPixels(s, src, at);
    PixelIsCell(s, k);
    PixelIsCell(Drawn(s, src, at), k);
    TargetOfSource(src, at, p.x, p.y);
    forall u', v' | Hits(s, src, at, u', v', k)
      ensures u' == u && v' == v
    {
      OnlyHit(s, src, at, u', v', k);
    }
    if Writes(s, src, at, u, v) {
      assert LastHit(s, src, at, k, u, v, 0, src.Height());
    }
  }

  lemma PixelIsCell(s: Screen, k: int)
    requires s.Valid() && 0 <= k < |s.cells|
    ensures var p := s.layout.Locate(k); s.layout.Holds(p.x, p.y) && s.Pixel(p.x, p.y) == s.cells[k]
  {
    IndexIsSurjective(s.layout, k);
  }

  lemma TargetOfSource(src: PaintSource, at: Placement, x: int, y: int)
    ensures Target(src, at, at.SourceX(src, x), at.SourceY(src, y)) == Point(x, y)
  {
  }

  lemma OnlyHit(s: Screen, src: PaintSource, at: Placement, u: int, v: int, k: int)
    requires s.Valid() && WritesInside(s, src, at) && 0 <= k < |s.cells| && Hits(s, src, at, u, v, k)
    ensures var p := s.layout.Locate(k); u == at.SourceX(src, p.x) && v == at.SourceY(src, p.y)
  {
    var q := Target(src, at, u, v);
    IndexIsInjective(s.layout, q.x, q.y);
  }
}
