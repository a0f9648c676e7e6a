/** What set_rotate means for the picture: it re-indexes the LEDs, and the turns of a device
    and of what is drawn on it cancel. */
module Turning {
  import opened StripIndex
  import opened PaintSources
  import opened Screens

  /** The picture in the device's own upright coordinates. */
  function Upright(s: Screen): Screen
    requires s.Valid()
  {
    Turned(s, UPRIGHT)
  }

  /** Turning only re-indexes: every rotation shows the same upright picture, through the
      coordinates of that rotation. */
  lemma TurnedShowsUprightPicture(s: Screen, r: Rotation, x: int, y: int)
    requires s.Valid() && Turned(s, r).layout.Holds(x, y)
    ensures var p := Turned(s, r).layout.Unrotate(x, y);
      0 <= p.x < s.layout.width && 0 <= p.y < s.layout.height && Turned(s, r).Pixel(x, y) == Upright(s).Pixel(p.x, p.y)
  {
  }

  lemma RotateInverse(l: Layout, p: Point)
    requires 0 <= p.x < l.width && 0 <= p.y < l.height
    ensures var q := l.Rotate(p); l.Holds(q.x, q.y) && l.Unrotate(q.x, q.y) == p
  {
  }

  /** Where a pixel of the turned device was seen before turning. */
  lemma TurnedPixel(s: Screen, r: Rotation, x: int, y: int)
    requires s.Valid() && Turned(s, r).layout.Holds(x, y)
    ensures var q := s.layout.Rotate(Turned(s, r).layout.Unrotate(x, y));
      s.layout.Holds(q.x, q.y) && Turned(s, r).Pixel(x, y) == s.Pixel(q.x, q.y)
  {
    hide Screen.Pixel, Layout.Rotate, Layout.Unrotate;
    var p := Turned(s, r).layout.Unrotate(x, y);
    var q := s.layout.Rotate(p);
    TurnedShowsUprightPicture(s, r, x, y);
    RotateInverse(s.layout, p);
    assert s == Turned(s, s.layout.rotation);
    TurnedShowsUprightPicture(s, s.layout.rotation, q.x, q.y);
  }

  /** t shows the upright picture of s mirrored as asked and then turned by the degree, on the
      same LEDs. */
  ghost predicate ShowsTurned(s: Screen, t: Screen, degree: Degree, flipX: bool, flipY: bool)
    requires s.Valid() && t.Valid()
  {
    && t == s.(layout := t.layout)
    && t.layout == s.layout.(rotation := Rotation(degree, flipX, flipY))
    && forall p: Point :: 0 <= p.x < s.layout.width && 0 <= p.y < s.layout.height ==>
         PixelAtIs(t, SeenAt(t.layout, p), Upright(s).Pixel(p.x, p.y))
  }

  predicate PixelAtIs(s: Screen, p: Point, c: LedColor)
    requires s.Valid()
  {
    s.layout.Holds(p.x, p.y) && s.Pixel(p.x, p.y) == c
  }

  /** Which way set_rotate turns, and that it mirrors first. */
  lemma TurnedShowsTurned(s: Screen, degree: Degree, flipX: bool, flipY: bool)
    requires s.Valid()
    ensures ShowsTurned(s, Turned(s, Rotation(degree, flipX, flipY)), degree, flipX, flipY)
  {
    var t := Turned(s, Rotation(degree, flipX, flipY));
    forall p: Point | 0 <= p.x < s.layout.width && 0 <= p.y < s.layout.height
      ensures PixelAtIs(t, SeenAt(t.layout, p), Upright(s).Pixel(p.x, p.y))
    {
      hide Layout.Unrotate, SeenAt;
      SettingTurnsPicture(t.layout, p);
    }
  }

  lemma DrawnTurnedPixel(dest: Screen, p: Screen, k: Degree, d: Degree, i: int, j: int)
    requires dest.Valid() && p.Valid() && !dest.transparent && dest.layout.rotation == Turn(d)
    requires dest.layout.width == Turned(p, Turn(k)).layout.LogicalWidth()
    requires dest.layout.height == Turned(p, Turn(k)).layout.LogicalHeight()
    requires dest.layout.Holds(i, j)
    ensures var q := dest.layout.Unrotate(i, j);
      && Turned(p, Turn(k)).layout.Holds(q.x, q.y)
      && Drawn(dest, Picture(Turned(p, Turn(TurnSum(k, d)))), Placement(0, 0, false, false)).Pixel(i, j)
         == Turned(p, Turn(k)).Pixel(q.x, q.y)
  {
    hide Screen.Pixel, Drawn, Picture, Layout.Unrotate;
    var src := Turned(p, Turn(TurnSum(k, d)));
    var q := dest.layout.Unrotate(i, j);
    TurnsAdd(p.layout, k, d, i, j);
    SameUnrotate(dest.layout, dest.layout.(order := p.layout.order), i, j);
    UnrotateInside(dest.layout, i, j);
    DrawnPixels(dest, Picture(src), Placement(0, 0, false, false));
    PictureShows(src, i, j);
    TurnedShowsUprightPicture(p, Turn(TurnSum(k, d)), i, j);
    TurnedShowsUprightPicture(p, Turn(k), q.x, q.y);
  }

  lemma SameUnrotate(l: Layout, m: Layout, x: int, y: int)
    requires l == m.(order := l.order)
    ensures l.Unrotate(x, y) == m.Unrotate(x, y)
  {
  }

  lemma UnrotateInside(l: Layout, x: int, y: int)
    requires l.Holds(x, y)
    ensures var p := l.Unrotate(x, y); 0 <= p.x < l.width && 0 <= p.y < l.height
  {
  }

  /** Drawing a Pixmap that is turned by k more than the device leaves, on the device's own
      LEDs, the Pixmap's picture turned by k: equal turns of both cancel. */
  lemma DrawingCancelsTurns(dest: Screen, p: Screen, k: Degree, d: Degree)
    requires dest.Valid() && p.Valid() && !dest.transparent && dest.layout.rotation == Turn(d)
    requires dest.layout.width == Turned(p, Turn(k)).layout.LogicalWidth()
    requires dest.layout.height == Turned(p, Turn(k)).layout.LogicalHeight()
    ensures SamePixels(
      Upright(Drawn(dest, Picture(Turned(p, Turn(TurnSum(k, d)))), Placement(0, 0, false, false))),
      Turned(p, Turn(k)))
  {
    hide Screen.Pixel, Drawn, Picture, Layout.Unrotate, Layout.Rotate;
    var drawn := Drawn(dest, Picture(Turned(p, Turn(TurnSum(k, d)))), Placement(0, 0, false, false));
    forall x, y | Upright(drawn).layout.Holds(x, y)
      ensures Turned(p, Turn(k)).layout.Holds(x, y)
      ensures Upright(drawn).Pixel(x, y) == Turned(p, Turn(k)).Pixel(x, y)
    {
      RotateInverse(dest.layout, Point(x, y));
      var at := dest.layout.Rotate(Point(x, y));
      DrawnTurnedPixel(dest, p, k, d, at.x, at.y);
      assert drawn == Turned(drawn, Turn(d));
      TurnedShowsUprightPicture(drawn, Turn(d), at.x, at.y);
    }
  }
}
