/** When the visiting order matters: a pair of overlapping children that reads differently,
    and the geometries for which no content does. */
module Overlaps {
  import opened Options
  import opened StripIndex
  import opened PaintSources
  import opened Screens
  import opened Forests
  import opened Compositing
  import opened VisitingOrders

  /** A picture of one colour. */
  function Plane(columns: nat, rows: nat, color: LedColor): PaintSource {
    Image(BitmapData(columns, rows, seq(columns * rows, _ => color)))
  }

  lemma PlaneShows(columns: nat, rows: nat, color: LedColor, x: int, y: int)
    requires 0 <= x < columns && 0 <= y < rows
    ensures Plane(columns, rows, color).Led(x, y) == Shown(color)
  {
    BitmapBounds(Plane(columns, rows, color).bitmap, x, y);
  }

  // ---------------------------------------------------------------- an example

  /** One window, and two sources added to it at the same place. */
  function TwoAdded<W, G>(w: W, g: G, h: G): seq<Step<W, G>> {
    [Create(w, None, Position(0, 0)),
     Add(w, SourceChild(g), Position(0, 0)),
     Add(w, SourceChild(h), Position(0, 0))]
  }

  ghost function Stacked<W, G>(w: W, g: G, h: G): Forest<W, G>
    requires g != h
  {
    Forest(map[w := None],
           map[w := map[SourceChild(g) := Position(0, 0), SourceChild(h) := Position(0, 0)]])
  }

  lemma OneStep<W, G>(f: Forest<W, G>, run: seq<Step<W, G>>, g: Forest<W, G>)
    requires run != [] && Inv(f) && Possible(f, run[0]) && Safe(f, run[0]) && g == Next(f, run[0])
    requires Inv(g) && SafeRun(g, run[1..])
    ensures SafeRun(f, run) && Reached(f, run) == Reached(g, run[1..])
  {
  }

  lemma TwoAddedReachesStacked<W, G>(w: W, g: G, h: G)
    requires g != h
    ensures SafeRun(NoWindows<W, G>(), TwoAdded(w, g, h))
    ensures Reached(NoWindows<W, G>(), TwoAdded(w, g, h)) == Stacked(w, g, h)
  {
    var run := TwoAdded(w, g, h);
    var f0 := NoWindows<W, G>();
    StepKeepsInvIff(f0, run[0]);
    var f1 := Next(f0, run[0]);
    assert f1 == Forest(map[w := None], map[w := map[]]);
    StepKeepsInvIff(f1, run[1]);
    var f2 := Next(f1, run[1]);
    assert f2 == Forest(map[w := None], map[w := map[SourceChild(g) := Position(0, 0)]]);
    StepKeepsInvIff(f2, run[2]);
    var f3 := Next(f2, run[2]);
    assert f3.children[w] == Stacked(w, g, h).children[w];
    assert f3 == Stacked(w, g, h);
    assert run[1..][1..] == run[2..] && run[2..][1..] == [];
    OneStep(f2, run[2..], f3);
    OneStep(f1, run[1..], f2);
    OneStep(f0, run, f1);
  }

  /** On an opaque window of one LED, a white and a black dot on top of each other. */
  ghost function Dots<W, G>(w: W, g: G, h: G): Scene<W, G>
    requires g != h
  {
    Scene(Stacked(w, g, h),
          map[w := Screen(Layout(Vector, 1, 1, UPRIGHT), false, BLACK, [BLACK])],
          map[g := Plane(1, 1, WHITE), h := Plane(1, 1, BLACK)])
  }

  /** The order decides: the source visited first is the one that is seen. */
  lemma OrderDecides<W, G>(w: W, g: G, h: G)
    requires g != h
    ensures SafeRun(NoWindows<W, G>(), TwoAdded(w, g, h))
    ensures Dots(w, g, h).forest == Reached(NoWindows<W, G>(), TwoAdded(w, g, h))
    ensures var sc := Dots(w, g, h);
      var o: Order<W, G> := map[w := [SourceChild(g), SourceChild(h)]];
      var p: Order<W, G> := map[w := [SourceChild(h), SourceChild(g)]];
      && SceneInv(sc) && IsOrder(sc, o) && IsOrder(sc, p)
      && Read(sc, o, w, 0, 0) == Shown(WHITE)
      && Read(sc, p, w, 0, 0) == Shown(BLACK)
  {
    TwoAddedReachesStacked(w, g, h);
    var sc := Dots(w, g, h);
    var o: Order<W, G> := map[w := [SourceChild(g), SourceChild(h)]];
    var p: Order<W, G> := map[w := [SourceChild(h), SourceChild(g)]];
    assert SceneInv(sc);
    hide SafeRun, Reached, Inv, PaintSource.Led, Plane;
    PlaneShows(1, 1, WHITE, 0, 0);
    PlaneShows(1, 1, BLACK, 0, 0);
    assert IsOrder(sc, o) && IsOrder(sc, p);
    assert ChildRead(sc, o, w, SourceChild(g), 0, 0) == Shown(WHITE);
    assert ChildRead(sc, p, w, SourceChild(h), 0, 0) == Shown(BLACK);
  }

  // ---------------------------------------------------------------- geometries

  /** The same windows, places and sizes, whatever is drawn, transparent or background. */
  ghost predicate SameGeometry<W, G>(sc: Scene<W, G>, t: Scene<W, G>)
    requires SceneInv(sc) && SceneInv(t)
  {
    && t.forest == sc.forest
    && (forall w :: w in sc.screens ==> t.screens[w].layout == sc.screens[w].layout)
    && t.pictures.Keys == sc.pictures.Keys
    && (forall g :: g in sc.pictures ==>
          t.pictures[g].Width() == sc.pictures[g].Width() && t.pictures[g].Height() == sc.pictures[g].Height())
  }

  /** At (x, y) of w at most one child covers, and so on down through that child. */
  ghost predicate NoOverlap<W, G>(sc: Scene<W, G>, w: W, x: int, y: int)
    requires SceneInv(sc) && w in sc.screens && sc.screens[w].layout.Holds(x, y)
    decreases Below(sc.forest, w), 1
  {
    && Alone(sc, w, x, y)
    && forall c :: c in sc.forest.children[w] && Covering(sc, w, c, x, y) ==> ChildNoOverlap(sc, w, c, x, y)
  }

  ghost predicate ChildNoOverlap<W, G>(sc: Scene<W, G>, w: W, c: Child<W, G>, x: int, y: int)
    requires SceneInv(sc) && Covering(sc, w, c, x, y)
    decreases Below(sc.forest, w), 0
  {
    var at := sc.forest.children[w][c];
    match c
    case SourceChild(_) => true
    case WindowChild(v) => StepDown(sc, w, v, x, y); NoOverlap(sc, v, x - at.x, y - at.y)
  }

  ghost predicate Alone<W, G>(sc: Scene<W, G>, w: W, x: int, y: int)
    requires SceneInv(sc) && w in sc.screens
  {
    Children(sc, w);
    forall c, d :: c in sc.forest.children[w] && d in sc.forest.children[w] ==>
      (Covering(sc, w, c, x, y) && Covering(sc, w, d, x, y) ==> c == d)
  }

  lemma ListedWindowIsThere<W, G>(f: Forest<W, G>, w: W, c: Child<W, G>)
    requires Inv(f) && Lists(f, w, c)
    ensures c.WindowChild? ==> c.window in f.parent
  {
    hide ChainEnds;
  }

  lemma ListedIsThere<W, G>(sc: Scene<W, G>, w: W, c: Child<W, G>)
    requires SceneInv(sc) && Lists(sc.forest, w, c)
    ensures if c.WindowChild? then c.window in sc.screens else c.source in sc.pictures
  {
    ListedWindowIsThere(sc.forest, w, c);
    hide Inv;
  }

  lemma SameSize<W, G>(sc: Scene<W, G>, t: Scene<W, G>, c: Child<W, G>)
    requires SceneInv(sc) && SceneInv(t) && SameGeometry(sc, t)
    requires if c.WindowChild? then c.window in sc.screens && c.window in t.screens
             else c.source in sc.pictures && c.source in t.pictures
    ensures ChildWidth(sc, c) == ChildWidth(t, c) && ChildHeight(sc, c) == ChildHeight(t, c)
  {
    hide SceneInv;
  }

  lemma SameCovering<W, G>(sc: Scene<W, G>, t: Scene<W, G>, w: W, c: Child<W, G>, x: int, y: int)
    requires SceneInv(sc) && SceneInv(t) && SameGeometry(sc, t)
    ensures Covering(sc, w, c, x, y) <==> Covering(t, w, c, x, y)
  {
    hide SceneInv, ChildWidth, ChildHeight;
    if w in sc.forest.children && c in sc.forest.children[w] {
      ListedIsThere(sc, w, c);
      ListedIsThere(t, w, c);
      SameSize(sc, t, c);
    }
  }

  // ---------------------------------------------------------------- no overlap: no content depends on the order

  lemma {:induction false} NoOverlapShowsOne<W, G>(sc: Scene<W, G>, t: Scene<W, G>, w: W, x: int, y: int,
                                                   q: LedResult, r: LedResult)
    requires SceneInv(sc) && SceneInv(t) && SameGeometry(sc, t)
    requires w in sc.screens && w in t.screens && sc.screens[w].layout.Holds(x, y) && t.screens[w].layout.Holds(x, y)
    requires NoOverlap(sc, w, x, y) && CanShow(t, w, x, y, q) && CanShow(t, w, x, y, r)
    ensures q == r
    decreases Below(sc.forest, w), 1
  {
    hide CanShow, Covering, ChildCanShow, ChildNoOverlap, SceneInv, Below, OneColor;
    Children(sc, w);
    forall c | c in sc.forest.children[w] && Covering(t, w, c, x, y)
      ensures Settled(t, w, c, x, y)
    {
      SameCovering(sc, t, w, c, x, y);
      forall a, b | ChildCanShow(t, w, c, x, y, a) && ChildCanShow(t, w, c, x, y, b)
        ensures a == b
      {
        ChildShowsOne(sc, t, w, c, x, y, a, b);
      }
    }
    forall c, d | c in sc.forest.children[w] && d in sc.forest.children[w]
      ensures Covering(t, w, c, x, y) && Covering(t, w, d, x, y) ==> c == d
    {
      SameCovering(sc, t, w, c, x, y);
      SameCovering(sc, t, w, d, x, y);
    }
    AloneIsOneColor(t, w, x, y);
    OneColorShowsOne(t, w, x, y, q, r);
  }

  lemma AloneIsOneColor<W, G>(t: Scene<W, G>, w: W, x: int, y: int)
    requires SceneInv(t) && w in t.screens && t.screens[w].layout.Holds(x, y) && w in t.forest.children
    requires Alone(t, w, x, y)
    requires forall c :: c in t.forest.children[w] && Covering(t, w, c, x, y) ==> Settled(t, w, c, x, y)
    ensures OneColor(t, w, x, y)
  {
    hide Covering, ChildCanShow, Inv, Screen.Pixel;
    if SeenThrough(t, w, x, y) {
      forall c, r | c in t.forest.children[w]
        ensures !Offers(t, w, c, x, y, r)
      {
        if Covering(t, w, c, x, y) {
          SettledSeenThrough(t, w, c, x, y, r);
        }
      }
    }
  }

  lemma {:induction false} ChildShowsOne<W, G>(sc: Scene<W, G>, t: Scene<W, G>, w: W, c: Child<W, G>, x: int, y: int,
                                               q: LedResult, r: LedResult)
    requires SceneInv(sc) && SceneInv(t) && SameGeometry(sc, t)
    requires Covering(sc, w, c, x, y) && Covering(t, w, c, x, y) && ChildNoOverlap(sc, w, c, x, y)
    requires ChildCanShow(t, w, c, x, y, q) && ChildCanShow(t, w, c, x, y, r)
    ensures q == r
    decreases Below(sc.forest, w), 0
  {
    hide CanShow, ChildCanShow, Covering, NoOverlap, SceneInv, Below, PaintSource.Led;
    CoveringIsListed(sc, w, c, x, y);
    match c
    case SourceChild(g) =>
      ShowsPicture(t, w, g, x, y, q);
      ShowsPicture(t, w, g, x, y, r);
    case WindowChild(v) =>
      var at := sc.forest.children[w][c];
      StepDown(sc, w, v, x, y);
      StepDown(t, w, v, x, y);
      ShowsWindow(t, w, v, x, y, q);
      ShowsWindow(t, w, v, x, y, r);
      NoOverlapShowsOne(sc, t, v, x - at.x, y - at.y, q, r);
  }

  // ---------------------------------------------------------------- overlap: some content depends on the order

  /** Everything white and opaque but for the one child d, which is black: a window is black
      by itself and lets white through. */
  ghost function Marked<W, G>(sc: Scene<W, G>, d: Child<W, G>): (t: Scene<W, G>)
    requires SceneInv(sc)
    ensures SceneInv(t) && SameGeometry(sc, t)
  {
    MarkedInv(sc, d);
    Repainted(sc, d)
  }

  ghost function Repainted<W, G>(sc: Scene<W, G>, d: Child<W, G>): (t: Scene<W, G>)
  {
    Scene(sc.forest,
          map w | w in sc.screens :: MarkedScreen(sc.screens[w].layout, d == WindowChild(w)),
          map g | g in sc.pictures ::
            Plane(sc.pictures[g].Width(), sc.pictures[g].Height(), if d == SourceChild(g) then BLACK else WHITE))
  }

  function MarkedScreen(l: Layout, marked: bool): (s: Screen)
    ensures s.Valid() && s.layout == l
  {
    Screen(l, marked, if marked then WHITE else BLACK,
           seq(l.width * l.height, _ => if marked then BLACK else WHITE))
  }

  lemma MarkedInv<W, G>(sc: Scene<W, G>, d: Child<W, G>)
    requires SceneInv(sc)
    ensures SceneInv(Repainted(sc, d)) && SameGeometry(sc, Repainted(sc, d))
  {
    hide MarkedScreen, Inv;
  }

  lemma MarkedPixel(l: Layout, marked: bool, x: int, y: int)
    requires l.Holds(x, y)
    ensures MarkedScreen(l, marked).Pixel(x, y) == if marked then BLACK else WHITE
  {
    IndexIsInjective(l, x, y);
  }

  lemma MarkedWindow<W, G>(sc: Scene<W, G>, d: Child<W, G>, w: W, x: int, y: int)
    requires SceneInv(sc) && w in sc.screens && sc.screens[w].layout.Holds(x, y)
    ensures var t := Marked(sc, d);
      && w in t.screens && w in t.forest.children && t.screens[w].layout == sc.screens[w].layout
      && if d == WindowChild(w)
         then t.screens[w].transparent && t.screens[w].back == WHITE && t.screens[w].Pixel(x, y) == BLACK
         else !t.screens[w].transparent && t.screens[w].Pixel(x, y) == WHITE
  {
    hide SceneInv, SameGeometry, Marked, MarkedScreen, Screen.Pixel;
    var l := sc.screens[w].layout;
    MarkedScreens(sc, d, w);
    Children(Marked(sc, d), w);
    MarkedPixel(l, d == WindowChild(w), x, y);
    MarkedSettings(l, d == WindowChild(w));
  }

  lemma MarkedScreens<W, G>(sc: Scene<W, G>, d: Child<W, G>, w: W)
    requires SceneInv(sc) && w in sc.screens
    ensures w in Marked(sc, d).screens
    ensures Marked(sc, d).screens[w] == MarkedScreen(sc.screens[w].layout, d == WindowChild(w))
  {
    hide SceneInv, SameGeometry, MarkedScreen;
  }

  lemma MarkedSettings(l: Layout, marked: bool)
    ensures var s := MarkedScreen(l, marked); s.transparent == marked && (marked ==> s.back == WHITE)
  {
  }

  lemma MarkedPicture<W, G>(sc: Scene<W, G>, d: Child<W, G>, w: W, g: G, x: int, y: int)
    requires SceneInv(sc) && Covering(Marked(sc, d), w, SourceChild(g), x, y)
    ensures ChildCanShow(Marked(sc, d), w, SourceChild(g), x, y, Shown(if d == SourceChild(g) then BLACK else WHITE))
  {
    hide SceneInv, Covering, CanShow, ChildCanShow, PaintSource.Led, Plane;
    var t := Marked(sc, d);
    var color := if d == SourceChild(g) then BLACK else WHITE;
    CoveringIsListed(t, w, SourceChild(g), x, y);
    var at := t.forest.children[w][SourceChild(g)];
    ShowsPicture(t, w, g, x, y, Shown(color));
    CoversPicture(t, w, g, x, y);
    PlaneSize(sc.pictures[g].Width(), sc.pictures[g].Height(), color);
    PlaneShows(sc.pictures[g].Width(), sc.pictures[g].Height(), color, x - at.x, y - at.y);
  }

  lemma PlaneSize(columns: nat, rows: nat, color: LedColor)
    ensures Plane(columns, rows, color).Width() == columns && Plane(columns, rows, color).Height() == rows
  {
  }

  lemma CoversPicture<W, G>(t: Scene<W, G>, w: W, g: G, x: int, y: int)
    requires SceneInv(t) && Covering(t, w, SourceChild(g), x, y)
    ensures w in t.forest.children && SourceChild(g) in t.forest.children[w] && g in t.pictures
    ensures var at := t.forest.children[w][SourceChild(g)]; t.pictures[g].Covers(x - at.x, y - at.y)
  {
    hide Inv;
  }

  /** Away from d, everything can be read white. */
  lemma {:induction false} WhiteShows<W, G>(sc: Scene<W, G>, d: W, w: W, x: int, y: int)
    requires SceneInv(sc) && w in sc.screens && sc.screens[w].layout.Holds(x, y) && !OnChain(sc.forest, d, w)
    ensures var t := Marked(sc, WindowChild(d));
      w in t.screens && t.screens[w].layout.Holds(x, y) && CanShow(t, w, x, y, Shown(WHITE))
    decreases Below(sc.forest, w), 1
  {
    hide SceneInv, CanShow, ChildCanShow, Covering, Below, OnChain, Marked, SameGeometry, Screen.Pixel;
    var t := Marked(sc, WindowChild(d));
    OnOwnChain(sc.forest, w);
    MarkedWindow(sc, WindowChild(d), w, x, y);
    SameForest(sc, t);
    if c :| c in t.forest.children[w] && Covering(t, w, c, x, y) {
      if c.WindowChild? {
        StepDown(t, w, c.window, x, y);
        ParentOnChain(sc.forest, c.window, w);
      }
      WhiteChild(sc, WindowChild(d), w, c, x, y);
      ShowsChild(t, w, c, x, y, Shown(WHITE));
    } else {
      ShowsItself(t, w, x, y);
    }
  }

  /** A child other than the marked one can be read white, if the marked one is no window
      below it. */
  lemma {:induction false} WhiteChild<W, G>(sc: Scene<W, G>, d: Child<W, G>, w: W, c: Child<W, G>, x: int, y: int)
    requires SceneInv(sc) && Covering(Marked(sc, d), w, c, x, y) && c != d
    requires c.WindowChild? ==> d.WindowChild?
    requires c.WindowChild? ==> !OnChain(sc.forest, d.window, w) || !OnChain(sc.forest, d.window, c.window)
    ensures ChildCanShow(Marked(sc, d), w, c, x, y, Shown(WHITE))
    decreases Below(sc.forest, w), 0
  {
    hide SceneInv, CanShow, ChildCanShow, Covering, Below, OnChain, Marked, SameGeometry;
    var t := Marked(sc, d);
    CoveringIsListed(t, w, c, x, y);
    match c
    case SourceChild(g) => MarkedPicture(sc, d, w, g, x, y);
    case WindowChild(v) =>
      var at := t.forest.children[w][c];
      StepDown(t, w, v, x, y);
      SameForest(sc, t);
      SameLayouts(sc, t, v);
      ChildOffChain(sc.forest, d.window, w, v);
      WhiteShows(sc, d.window, v, x - at.x, y - at.y);
      ShowsWindow(t, w, v, x, y, Shown(WHITE));
  }

  lemma ParentOnChain<W, G>(f: Forest<W, G>, v: W, w: W)
    requires v in f.parent && f.parent[v] == Some(w)
    ensures OnChain(f, v, w)
  {
    assert Up(f, Some(v), 1) == Up(f, Some(w), 0) == Some(w);
  }

  lemma OnOwnChain<W, G>(f: Forest<W, G>, w: W)
    ensures OnChain(f, w, w)
  {
    assert Up(f, Some(w), 0) == Some(w);
  }

  lemma SameForest<W, G>(sc: Scene<W, G>, t: Scene<W, G>)
    requires SceneInv(sc) && SceneInv(t) && SameGeometry(sc, t)
    ensures t.forest == sc.forest && t.screens.Keys == sc.screens.Keys
  {
  }

  lemma SameLayouts<W, G>(sc: Scene<W, G>, t: Scene<W, G>, w: W)
    requires SceneInv(sc) && SceneInv(t) && SameGeometry(sc, t) && w in sc.screens && w in t.screens
    ensures t.screens[w].layout == sc.screens[w].layout
  {
    hide SceneInv;
  }

  /** The marked child itself can be read black. */
  lemma BlackShows<W, G>(sc: Scene<W, G>, d: Child<W, G>, w: W, x: int, y: int)
    requires SceneInv(sc) && Covering(Marked(sc, d), w, d, x, y)
    ensures ChildCanShow(Marked(sc, d), w, d, x, y, Shown(BLACK))
  {
    hide SceneInv, CanShow, ChildCanShow, Covering, Below, OnChain, Marked, SameGeometry, Screen.Pixel;
    var t := Marked(sc, d);
    CoveringIsListed(t, w, d, x, y);
    match d
    case SourceChild(g) => MarkedPicture(sc, d, w, g, x, y);
    case WindowChild(v) =>
      var at := t.forest.children[w][d];
      StepDown(t, w, v, x, y);
      SameForest(sc, t);
      SameLayouts(sc, t, v);
      MarkedWindow(sc, d, v, x - at.x, y - at.y);
      forall e | e in t.forest.children[v] && Covering(t, v, e, x - at.x, y - at.y)
        ensures ChildCanShow(t, v, e, x - at.x, y - at.y, Shown(WHITE))
      {
        if e.WindowChild? {
          StepDown(t, v, e.window, x - at.x, y - at.y);
          InvOf(sc);
          ParentOffChild(sc.forest, v, e.window);
          OnOwnChain(sc.forest, v);
        }
        WhiteChild(sc, d, v, e, x - at.x, y - at.y);
      }
      ShowsItself(t, v, x - at.x, y - at.y);
      ShowsWindow(t, w, v, x, y, Shown(BLACK));
  }

  /** Two overlapping children, one of them marked: the window can be read white and
      black. */
  lemma OverlapShowsBoth<W, G>(sc: Scene<W, G>, w: W, c: Child<W, G>, d: Child<W, G>, x: int, y: int)
    requires SceneInv(sc) && w in sc.screens && sc.screens[w].layout.Holds(x, y)
    requires c != d && Covering(sc, w, c, x, y) && Covering(sc, w, d, x, y) && (c.WindowChild? ==> d.WindowChild?)
    ensures ShowsBoth(sc, d, w, x, y)
  {
    hide SceneInv, CanShow, ChildCanShow, Covering, Below, OnChain, Marked, SameGeometry, Screen.Pixel;
    var t := Marked(sc, d);
    SameForest(sc, t);
    SameCovering(sc, t, w, c, x, y);
    SameCovering(sc, t, w, d, x, y);
    if c.WindowChild? {
      StepDown(sc, w, c.window, x, y);
      StepDown(sc, w, d.window, x, y);
      InvOf(sc);
      SiblingsShareNothing(sc.forest, d.window, c.window, d.window);
      OnOwnChain(sc.forest, d.window);
    }
    if d.WindowChild? {
      StepDown(sc, w, d.window, x, y);
      InvOf(sc);
      ParentOnChain(sc.forest, d.window, w);
      ParentOffChild(sc.forest, w, d.window);
      OnOwnChain(sc.forest, w);
    }
    WhiteChild(sc, d, w, c, x, y);
    BlackShows(sc, d, w, x, y);
    MarkedWindow(sc, d, w, x, y);
    ShowsChild(t, w, c, x, y, Shown(WHITE));
    ShowsChild(t, w, d, x, y, Shown(BLACK));
  }

  /** With d marked, the point can be read white and black, and d is strictly below w. */
  ghost predicate ShowsBoth<W, G>(sc: Scene<W, G>, d: Child<W, G>, w: W, x: int, y: int)
    requires SceneInv(sc) && w in sc.screens && sc.screens[w].layout.Holds(x, y)
  {
    SameForest(sc, Marked(sc, d));
    SameLayouts(sc, Marked(sc, d), w);
    && CanShow(Marked(sc, d), w, x, y, Shown(WHITE))
    && CanShow(Marked(sc, d), w, x, y, Shown(BLACK))
    && (d.WindowChild? ==> d.window != w && OnChain(sc.forest, d.window, w))
  }

  /** Overlap at some level below: with a child marked there, both colours come through. */
  lemma {:induction false} OverlapBelowShowsBoth<W, G>(sc: Scene<W, G>, w: W, x: int, y: int) returns (d: Child<W, G>)
    requires SceneInv(sc) && w in sc.screens && sc.screens[w].layout.Holds(x, y) && !NoOverlap(sc, w, x, y)
    ensures ShowsBoth(sc, d, w, x, y)
    decreases Below(sc.forest, w)
  {
    hide SceneInv, Covering, ChildNoOverlap, Below, ShowsBoth;
    Children(sc, w);
    if Alone(sc, w, x, y) {
      var c :| c in sc.forest.children[w] && Covering(sc, w, c, x, y) && !ChildNoOverlap(sc, w, c, x, y);
      var v, at := OverlappingChild(sc, w, c, x, y);
      StepDown(sc, w, v, x, y);
      d := OverlapBelowShowsBoth(sc, v, x - at.x, y - at.y);
      BothComeThrough(sc, d, w, v, at, x, y);
    } else {
      var c, e :| c in sc.forest.children[w] && e in sc.forest.children[w]
        && Covering(sc, w, c, x, y) && Covering(sc, w, e, x, y) && c != e;
      if c.WindowChild? && e.SourceChild? {
        OverlapShowsBoth(sc, w, e, c, x, y);
        d := c;
      } else {
        OverlapShowsBoth(sc, w, c, e, x, y);
        d := e;
      }
    }
  }

  lemma OverlappingChild<W, G>(sc: Scene<W, G>, w: W, c: Child<W, G>, x: int, y: int) returns (v: W, at: Position)
    requires SceneInv(sc) && Covering(sc, w, c, x, y) && !ChildNoOverlap(sc, w, c, x, y)
    ensures c == WindowChild(v) && w in sc.forest.children && c in sc.forest.children[w]
    ensures at == sc.forest.children[w][c]
    ensures v in sc.screens && sc.screens[v].layout.Holds(x - at.x, y - at.y)
    ensures !NoOverlap(sc, v, x - at.x, y - at.y)
  {
    hide SceneInv, Covering, NoOverlap, Below;
    CoveringIsListed(sc, w, c, x, y);
    at := sc.forest.children[w][c];
    v := c.window;
    StepDown(sc, w, v, x, y);
  }

  /** An opaque window passes on what a covering child window shows. */
  lemma OpaquePassesOn<W, G>(t: Scene<W, G>, w: W, v: W, at: Position, x: int, y: int, r: LedResult)
    requires SceneInv(t) && w in t.screens && t.screens[w].layout.Holds(x, y) && !t.screens[w].transparent
    requires Covering(t, w, WindowChild(v), x, y) && v in t.screens
    requires Lists(t.forest, w, WindowChild(v)) && t.forest.children[w][WindowChild(v)] == at
    requires t.screens[v].layout.Holds(x - at.x, y - at.y) && CanShow(t, v, x - at.x, y - at.y, r)
    ensures CanShow(t, w, x, y, r)
  {
    hide SceneInv, Covering, CanShow, ChildCanShow, Below;
    ShowsWindow(t, w, v, x, y, r);
    ShowsChild(t, w, WindowChild(v), x, y, r);
  }

  lemma StrictlyBelowParent<W, G>(f: Forest<W, G>, d: W, v: W, w: W)
    requires Inv(f) && v in f.parent && f.parent[v] == Some(w) && OnChain(f, d, v)
    ensures d != w && OnChain(f, d, w)
  {
    hide Inv, Up;
    ParentOffChild(f, w, v);
    ChildOffChain(f, d, w, v);
  }

  lemma BothComeThrough<W, G>(sc: Scene<W, G>, d: Child<W, G>, w: W, v: W, at: Position, x: int, y: int)
    requires SceneInv(sc) && w in sc.screens && sc.screens[w].layout.Holds(x, y)
    requires Covering(sc, w, WindowChild(v), x, y) && v in sc.screens
    requires Lists(sc.forest, w, WindowChild(v)) && sc.forest.children[w][WindowChild(v)] == at
    requires sc.screens[v].layout.Holds(x - at.x, y - at.y) && ShowsBoth(sc, d, v, x - at.x, y - at.y)
    ensures ShowsBoth(sc, d, w, x, y)
  {
    hide SceneInv, Covering, CanShow, Below, OnChain, Marked, SameGeometry, Screen.Pixel;
    var t := Marked(sc, d);
    SameForest(sc, t);
    SameLayouts(sc, t, v);
    SameCovering(sc, t, w, WindowChild(v), x, y);
    StepDown(sc, w, v, x, y);
    if d.WindowChild? {
      InvOf(sc);
      StrictlyBelowParent(sc.forest, d.window, v, w);
    }
    MarkedWindow(sc, d, w, x, y);
    OpaquePassesOn(t, w, v, at, x, y, Shown(WHITE));
    OpaquePassesOn(t, w, v, at, x, y, Shown(BLACK));
  }

  /** Only one colour can be read, whatever the order. */
  ghost predicate OneReading<W, G>(t: Scene<W, G>, w: W, x: int, y: int)
    requires SceneInv(t)
  {
    && w in t.screens && t.screens[w].layout.Holds(x, y)
    && forall q, r :: CanShow(t, w, x, y, q) && CanShow(t, w, x, y, r) ==> q == r
  }

  lemma OneReadingIff<W, G>(t: Scene<W, G>, w: W, x: int, y: int)
    requires SceneInv(t) && w in t.screens && t.screens[w].layout.Holds(x, y)
    ensures OneReading(t, w, x, y) <==>
      forall o, p :: IsOrder(t, o) && IsOrder(t, p) ==> Read(t, o, w, x, y) == Read(t, p, w, x, y)
  {
    hide SceneInv, CanShow, IsOrder, Read, OneColor;
    Children(t, w);
    OrdersAgreeIff(t, w, x, y);
    if OneColor(t, w, x, y) {
      forall q, r | CanShow(t, w, x, y, q) && CanShow(t, w, x, y, r)
        ensures q == r
      {
        OneColorShowsOne(t, w, x, y, q, r);
      }
    }
    if OneReading(t, w, x, y) {
      OneShownIsOneColor(t, w, x, y);
    }
  }

  lemma OneReadingForAllContentsIff<W, G>(sc: Scene<W, G>, w: W, x: int, y: int)
    requires SceneInv(sc) && w in sc.screens && sc.screens[w].layout.Holds(x, y)
    ensures (forall t :: SceneInv(t) && SameGeometry(sc, t) ==> OneReading(t, w, x, y)) <==> NoOverlap(sc, w, x, y)
  {
    hide SceneInv, CanShow, SameGeometry, NoOverlap;
    if NoOverlap(sc, w, x, y) {
      forall t | SceneInv(t) && SameGeometry(sc, t)
        ensures OneReading(t, w, x, y)
      {
        SameForest(sc, t);
        SameLayouts(sc, t, w);
        forall q, r | CanShow(t, w, x, y, q) && CanShow(t, w, x, y, r)
          ensures q == r
        {
          NoOverlapShowsOne(sc, t, w, x, y, q, r);
        }
      }
    } else {
      var d := OverlapBelowShowsBoth(sc, w, x, y);
      assert !OneReading(Marked(sc, d), w, x, y);
    }
  }

  /** For fixed windows, places and sizes, all visiting orders read the same for every
      content exactly if no two children overlap at any level that reading reaches. */
  lemma OrdersAgreeForAllContentsIff<W, G>(sc: Scene<W, G>, w: W, x: int, y: int)
    requires SceneInv(sc) && w in sc.screens && sc.screens[w].layout.Holds(x, y)
    ensures (forall t, o, p ::
        SceneInv(t) && SameGeometry(sc, t) && IsOrder(t, o) && IsOrder(t, p) ==> ReadAlike(t, o, p, w, x, y))
      <==> NoOverlap(sc, w, x, y)
  {
    hide SceneInv, CanShow, SameGeometry, NoOverlap, IsOrder, OneReading;
    OneReadingForAllContentsIff(sc, w, x, y);
    forall t | SceneInv(t) && SameGeometry(sc, t)
      ensures OneReading(t, w, x, y) <==> forall o, p :: IsOrder(t, o) && IsOrder(t, p) ==> ReadAlike(t, o, p, w, x, y)
    {
      SameForest(sc, t);
      SameLayouts(sc, t, w);
      OneReadingIff(t, w, x, y);
    }
  }

  ghost predicate ReadAlike<W, G>(t: Scene<W, G>, o: Order<W, G>, p: Order<W, G>, w: W, x: int, y: int)
    requires SceneInv(t) && IsOrder(t, o) && IsOrder(t, p)
  {
    w in t.screens && t.screens[w].layout.Holds(x, y) && Read(t, o, w, x, y) == Read(t, p, w, x, y)
  }
}
