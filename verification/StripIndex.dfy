/** How a logical pixel finds its LED: the strip's wiring order under a layer of
    rotation and mirroring.  The main results are that the map is a bijection from
    the logical rectangle onto the LED numbers in every setting, that consecutive
    LEDs of a snake strip are always neighbours, and which of the sixteen settings
    are the same map: there are eight different maps on a device of at least two
    LEDs each way, four on a longer single row or column and one on a single LED. */
module StripIndex {
  import opened Arithmetic

  /** The two wirings: serpentine rows, or every row in the same direction. */
  datatype StripOrder = Snake | Vector

  predicate IsDegree(degree: int) {
    degree == 0 || degree == 90 || degree == 180 || degree == 270
  }

  type Degree = d: int | IsDegree(d)

  datatype Rotation = Rotation(degree: Degree, flipX: bool, flipY: bool)

  /** The rotation swaps width and height. */
  predicate Sideways(r: Rotation) {
    r.degree == 90 || r.degree == 270
  }

  const UPRIGHT := Rotation(0, false, false)

  datatype Point = Point(x: int, y: int)

  /** Physical position of a pixel given in physical coordinates. */
  function WirePosition(order: StripOrder, width: int, p: Point): int
  {
    if order.Vector? || p.y % 2 == 0 then p.y * width + p.x else p.y * width + (width - p.x - 1)
  }

  /** The physical coordinates of the LED with number k. */
  function WirePoint(order: StripOrder, width: int, k: int): Point
    requires width > 0
  {
    var y := k / width;
    Point(if order.Vector? || y % 2 == 0 then k % width else width - k % width - 1, y)
  }

  /** A device's geometry: physical size, wiring and the current rotation. */
  datatype Layout = Layout(order: StripOrder, width: nat, height: nat, rotation: Rotation) {

    function LogicalWidth(): nat {
      if Sideways(rotation) then height else width
    }

    function LogicalHeight(): nat {
      if Sideways(rotation) then width else height
    }

    predicate Holds(x: int, y: int) {
      0 <= x < LogicalWidth() && 0 <= y < LogicalHeight()
    }

    /** From logical to physical coordinates. */
    function Unrotate(x: int, y: int): Point {
      var ur := if rotation.degree == 0 then Point(x, y)
                else if rotation.degree == 90 then Point(y, height - x - 1)
                else if rotation.degree == 180 then Point(width - x - 1, height - y - 1)
                else Point(width - y - 1, x);
      Point(if rotation.flipX then width - ur.x - 1 else ur.x,
            if rotation.flipY then height - ur.y - 1 else ur.y)
    }

    /** From physical back to logical coordinates. */
    function Rotate(p: Point): Point {
      var x := if rotation.flipX then width - p.x - 1 else p.x;
      var y := if rotation.flipY then height - p.y - 1 else p.y;
      if rotation.degree == 0 then Point(x, y)
      else if rotation.degree == 90 then Point(height - y - 1, x)
      else if rotation.degree == 180 then Point(width - x - 1, height - y - 1)
      else Point(y, width - x - 1)
    }

    function Index(x: int, y: int): int {
      WirePosition(order, width, Unrotate(x, y))
    }

    /** The logical pixel lit by LED k: the inverse of Index, by division. */
    function Locate(k: int): Point
      requires 0 <= k < width * height
    {
      Rotate(WirePoint(order, width, k))
    }
  }

  lemma RowFits(w: nat, h: nat, y: int, r: int)
    requires 0 <= r < w && 0 <= y < h
    ensures 0 <= y * w + r < w * h
  {
    MonotoneProduct(y + 1, h, w);
  }

  lemma WireBijection(order: StripOrder, w: nat, h: nat, p: Point)
    requires 0 <= p.x < w && 0 <= p.y < h
    ensures 0 <= WirePosition(order, w, p) < w * h
    ensures WirePoint(order, w, WirePosition(order, w, p)) == p
  {
    var r := if order.Vector? || p.y % 2 == 0 then p.x else w - p.x - 1;
    RowFits(w, h, p.y, r);
    DivisionIsUnique(p.y * w + r, w, p.y, r);
  }

  lemma WirePointBounds(order: StripOrder, w: nat, h: nat, k: int)
    requires 0 <= k < w * h
    ensures w > 0
    ensures var p := WirePoint(order, w, k); 0 <= p.x < w && 0 <= p.y < h && WirePosition(order, w, p) == k
  {
    assert k == (k / w) * w + k % w;
    if k / w >= h {
      MonotoneProduct(h, k / w, w);
    }
  }

  /** Every logical pixel has its own LED number below width * height, and dividing
      that number back gives the pixel. */
  lemma IndexIsInjective(l: Layout, x: int, y: int)
    requires l.Holds(x, y)
    ensures 0 <= l.Index(x, y) < l.width * l.height
    ensures l.Locate(l.Index(x, y)) == Point(x, y)
  {
    WireBijection(l.order, l.width, l.height, l.Unrotate(x, y));
  }

  /** The position, inside or outside the device, has an LED of the buffer. */
  predicate InBuffer(l: Layout, x: int, y: int) {
    0 <= l.Index(x, y) < l.width * l.height
  }

  /** The logical pixel whose LED the position has. */
  function Reaches(l: Layout, x: int, y: int): (p: Point)
    requires InBuffer(l, x, y)
    ensures l.Holds(p.x, p.y) && l.Index(p.x, p.y) == l.Index(x, y)
  {
    IndexIsSurjective(l, l.Index(x, y));
    l.Locate(l.Index(x, y))
  }

  /** A position in the buffer reaches itself exactly if it is on the device; one outside
      has the LED of another pixel. */
  lemma ReachesItselfIff(l: Layout, x: int, y: int)
    ensures l.Holds(x, y) <==> InBuffer(l, x, y) && Reaches(l, x, y) == Point(x, y)
  {
    if l.Holds(x, y) {
      IndexIsInjective(l, x, y);
    }
  }

  /** Every LED is the image of a logical pixel. */
  lemma IndexIsSurjective(l: Layout, k: int)
    requires 0 <= k < l.width * l.height
    ensures var p := l.Locate(k); l.Holds(p.x, p.y) && l.Index(p.x, p.y) == k
  {
    WirePointBounds(l.order, l.width, l.height, k);
  }

  function Distance(p: Point, q: Point): nat {
    (if p.x < q.x then q.x - p.x else p.x - q.x) + (if p.y < q.y then q.y - p.y else p.y - q.y)
  }

  lemma NextWirePoint(w: nat, h: nat, k: nat)
    requires k + 1 < w * h
    ensures w > 0
    ensures (k + 1) / w == (if k % w == w - 1 then k / w + 1 else k / w)
    ensures (k + 1) % w == (if k % w == w - 1 then 0 else k % w + 1)
  {
    var q, r := k / w, k % w;
    assert k == q * w + r;
    if r == w - 1 {
      DivisionIsUnique(k + 1, w, q + 1, 0);
    } else {
      DivisionIsUnique(k + 1, w, q, r + 1);
    }
  }

  lemma ConsecutiveWirePoints(order: StripOrder, w: nat, h: nat, k: nat)
    requires k + 1 < w * h
    ensures w > 0
    ensures Distance(WirePoint(order, w, k), WirePoint(order, w, k + 1)) == 1
      <==> order.Snake? || w == 1 || (k + 1) % w != 0
  {
    NextWirePoint(w, h, k);
  }

  lemma RotationKeepsDistance(l: Layout, p: Point, q: Point)
    ensures Distance(l.Rotate(p), l.Rotate(q)) == Distance(p, q)
  {
    if l.rotation.flipX {
      if l.rotation.flipY {
        assert Distance(l.Rotate(p), l.Rotate(q)) == Distance(p, q);
      }
    }
  }

  /** On a snake strip, consecutive LEDs are logical neighbours in every setting,
      also where the wire turns.  With straight rows the wire jumps exactly at the
      row ends of a strip more than one LED wide. */
  lemma ConsecutiveLedsAreNeighbours(l: Layout, k: nat)
    requires k + 1 < l.width * l.height
    ensures l.width > 0
    ensures Distance(l.Locate(k), l.Locate(k + 1)) == 1
      <==> l.order.Snake? || l.width == 1 || (k + 1) % l.width != 0
  {
    ConsecutiveWirePoints(l.order, l.width, l.height, k);
    RotationKeepsDistance(l, WirePoint(l.order, l.width, k), WirePoint(l.order, l.width, k + 1));
  }

  // ---------------------------------------------------------------- which way it goes

  /** Where the wire runs on an upright device: from the upper left corner to the right, on
      a snake strip back in every other row, and down at the end of a row. */
  lemma UprightWiring(l: Layout, x: int, y: int)
    requires l.rotation == UPRIGHT && l.Holds(x, y)
    ensures l.Index(0, 0) == 0
    ensures l.Holds(x + 1, y) ==>
      l.Index(x + 1, y) == l.Index(x, y) + (if l.order == Snake && y % 2 == 1 then -1 else 1)
    ensures l.Holds(x, y + 1) && l.order == Vector ==> l.Index(x, y + 1) == l.Index(x, y) + l.width
    ensures l.Holds(x, y + 1) && l.order == Snake && x == (if y % 2 == 0 then l.width - 1 else 0) ==>
      l.Index(x, y + 1) == l.Index(x, y) + 1
  {
    Distribute(y, 1, 1, l.width);
  }

  /** Where p goes when a picture of this size is given k quarter turns.  Each takes its
      right edge to where y is largest: counterclockwise if y counts upwards, as it does in
      the fonts. */
  function QuarterTurned(width: int, height: int, p: Point, k: nat): Point
    decreases k
  {
    if k == 0 then p else QuarterTurned(height, width, Point(height - 1 - p.y, p.x), k - 1)
  }

  /** Where the pixel that was seen at p on the upright device is seen: its picture is
      mirrored first and then turned. */
  function SeenAt(l: Layout, p: Point): Point {
    QuarterTurned(l.width, l.height,
              Point(if l.rotation.flipX then l.width - 1 - p.x else p.x,
                    if l.rotation.flipY then l.height - 1 - p.y else p.y),
              l.rotation.degree / 90)
  }

  /** Every setting shows the upright picture mirrored and then turned by its degree. */
  lemma SettingTurnsPicture(l: Layout, p: Point)
    requires 0 <= p.x < l.width && 0 <= p.y < l.height
    ensures var q := SeenAt(l, p);
      l.Holds(q.x, q.y) && l.Index(q.x, q.y) == l.(rotation := UPRIGHT).Index(p.x, p.y)
  {
    var m := Point(if l.rotation.flipX then l.width - 1 - p.x else p.x,
                   if l.rotation.flipY then l.height - 1 - p.y else p.y);
    assert IsDegree(l.rotation.degree);
    QuarterTurns(l.width, l.height, m);
    assert l.Unrotate(SeenAt(l, p).x, SeenAt(l, p).y) == p;
  }

  lemma QuarterTurns(width: int, height: int, p: Point)
    ensures QuarterTurned(width, height, p, 0) == p
    ensures QuarterTurned(width, height, p, 1) == Point(height - 1 - p.y, p.x)
    ensures QuarterTurned(width, height, p, 2) == Point(width - 1 - p.x, height - 1 - p.y)
    ensures QuarterTurned(width, height, p, 3) == Point(p.y, width - 1 - p.x)
  {
    var once := Point(height - 1 - p.y, p.x);
    var twice := Point(width - 1 - p.x, height - 1 - p.y);
    assert QuarterTurned(width, height, p, 1) == QuarterTurned(height, width, once, 0);
    assert QuarterTurned(height, width, once, 1) == QuarterTurned(width, height, twice, 0);
    assert QuarterTurned(height, width, once, 2) == QuarterTurned(width, height, twice, 1);
    assert QuarterTurned(width, height, p, 3) == QuarterTurned(height, width, once, 2);
  }

  /** The upper left pixel of the server's strip: its last LED after a quarter turn, and the
      right end of its first row after three. */
  lemma ServerStripTurned()
    ensures Layout(Snake, 16, 32, Turn(90)).Index(0, 0) == 511
    ensures Layout(Snake, 16, 32, Turn(270)).Index(0, 0) == 15
  {
  }

  /** The setting without a horizontal flip that looks the same. */
  function Normal(r: Rotation): Rotation {
    if r.flipX
    then Rotation(if r.degree < 180 then r.degree + 180 else r.degree - 180, false, !r.flipY)
    else r
  }

  function Turn(degree: Degree): Rotation {
    Rotation(degree, false, false)
  }

  function TurnSum(d: Degree, e: Degree): (sum: Degree) {
    assert IsDegree(d) && IsDegree(e);
    if d + e < 360 then d + e else d + e - 360
  }

  /** Quarter turns add up: the coordinates of a view turned by e of a device turned by d
      are those of the device turned by the sum. */
  lemma TurnsAdd(l: Layout, d: Degree, e: Degree, x: int, y: int)
    ensures var first := l.(rotation := Turn(d));
      var second := Layout(l.order, first.LogicalWidth(), first.LogicalHeight(), Turn(e));
      var sum := l.(rotation := Turn(TurnSum(d, e)));
      && second.LogicalWidth() == sum.LogicalWidth() && second.LogicalHeight() == sum.LogicalHeight()
      && var p := second.Unrotate(x, y);
      first.Unrotate(p.x, p.y) == sum.Unrotate(x, y)
  {
    assert IsDegree(d) && IsDegree(e);
  }

  ghost predicate SameMap(a: Layout, b: Layout) {
    && a.LogicalWidth() == b.LogicalWidth()
    && a.LogicalHeight() == b.LogicalHeight()
    && forall x, y :: a.Holds(x, y) ==> a.Index(x, y) == b.Index(x, y)
  }

  lemma NormalLooksTheSame(l: Layout)
    ensures SameMap(l, l.(rotation := Normal(l.rotation)))
  {
    var m := l.(rotation := Normal(l.rotation));
    forall x, y | l.Holds(x, y)
      ensures l.Index(x, y) == m.Index(x, y)
    {
      assert l.Unrotate(x, y) == m.Unrotate(x, y);
    }
  }

  lemma SameMapSameUnrotate(a: Layout, b: Layout, x: int, y: int)
    requires a.order == b.order && a.width == b.width && a.height == b.height
    requires SameMap(a, b) && a.Holds(x, y)
    ensures a.Unrotate(x, y) == b.Unrotate(x, y)
  {
    WireBijection(a.order, a.width, a.height, a.Unrotate(x, y));
    WireBijection(a.order, a.width, a.height, b.Unrotate(x, y));
  }

  /** The physical column runs against the logical axis it follows. */
  predicate ColumnsReversed(r: Rotation) {
    (r.degree == 180 || r.degree == 270) != r.flipX
  }

  predicate RowsReversed(r: Rotation) {
    (r.degree == 90 || r.degree == 180) != r.flipY
  }

  /** What can be seen of a setting on a device of this size: whether it lies sideways, and
      the direction of each axis that is longer than one LED. */
  predicate LooksSame(width: nat, height: nat, r: Rotation, s: Rotation) {
    && (Sideways(r) == Sideways(s) || (width == height && width <= 1))
    && (width <= 1 || height == 0 || ColumnsReversed(r) == ColumnsReversed(s))
    && (height <= 1 || width == 0 || RowsReversed(r) == RowsReversed(s))
  }

  lemma LooksSameSameMap(l: Layout, r: Rotation, s: Rotation)
    requires LooksSame(l.width, l.height, r, s)
    ensures SameMap(l.(rotation := r), l.(rotation := s))
  {
    var a, b := l.(rotation := r), l.(rotation := s);
    forall x, y | a.Holds(x, y)
      ensures a.Index(x, y) == b.Index(x, y)
    {
      assert a.Unrotate(x, y) == b.Unrotate(x, y);
    }
  }

  lemma SameMapLooksSame(l: Layout, r: Rotation, s: Rotation)
    requires SameMap(l.(rotation := r), l.(rotation := s))
    ensures LooksSame(l.width, l.height, r, s)
  {
    var a, b := l.(rotation := r), l.(rotation := s);
    if a.Holds(0, 0) {
      SameMapSameUnrotate(a, b, 0, 0);
      if a.Holds(1, 0) {
        SameMapSameUnrotate(a, b, 1, 0);
      }
    }
  }

  /** Two settings are the same map exactly if they look the same on a device of this size:
      on one at least two LEDs wide and high the sixteen settings are eight maps, one for
      each normal form; on a single row or column they are four, two each way round; on a
      single LED they are all one. */
  lemma SameMapIff(l: Layout, r: Rotation, s: Rotation)
    ensures SameMap(l.(rotation := r), l.(rotation := s)) <==> LooksSame(l.width, l.height, r, s)
    ensures l.width >= 2 && l.height >= 2 ==> (LooksSame(l.width, l.height, r, s) <==> Normal(r) == Normal(s))
  {
    hide SameMap;
    if LooksSame(l.width, l.height, r, s) {
      LooksSameSameMap(l, r, s);
    }
    if SameMap(l.(rotation := r), l.(rotation := s)) {
      SameMapLooksSame(l, r, s);
    }
  }
}
