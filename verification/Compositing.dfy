/** What a window shows: its children in front of its own LEDs, at every level. */
module Compositing {
  import opened Arithmetic
  import opened Options
  import opened StripIndex
  import opened PaintSources
  import opened Screens
  import opened Forests

  /** The windows' links, their own devices, and the pictures of the other sources. */
  datatype Scene<W, G(==)> = Scene(forest: Forest<W, G>, screens: map<W, Screen>, pictures: map<G, PaintSource>)

  ghost predicate SceneInv<W, G>(sc: Scene<W, G>) {
    && Inv(sc.forest)
    && sc.screens.Keys == sc.forest.parent.Keys
    && (forall w :: w in sc.screens ==> sc.screens[w].Valid())
    && (forall w, c :: w in sc.forest.children && c in sc.forest.children[w] && c.SourceChild? ==>
          c.source in sc.pictures)
  }

  ghost function Ancestors<W, G>(f: Forest<W, G>, w: W): set<W> {
    set a | a in f.parent && OnChain(f, w, a)
  }

  ghost function Below<W, G>(f: Forest<W, G>, w: W): set<W> {
    f.parent.Keys - Ancestors(f, w)
  }

  /** Going down to a listed window leaves strictly fewer windows off its chain: the
      measure that makes reading the tree terminate. */
  lemma ChildHasLongerChain<W, G>(f: Forest<W, G>, p: W, c: W)
    requires Inv(f) && Lists(f, p, WindowChild(c))
    ensures Below(f, c) < Below(f, p)
  {
    assert f.parent[c] == Some(p);
    forall a | a in Ancestors(f, p)
      ensures a in Ancestors(f, c)
    {
      var k: nat :| Up(f, Some(p), k) == Some(a);
      assert Up(f, Some(c), k + 1) == Some(a);
    }
    assert c in Ancestors(f, c) by {
      assert Up(f, Some(c), 0) == Some(c);
    }
    if c in Ancestors(f, p) {
      var k: nat :| Up(f, Some(p), k) == Some(c);
      assert Up(f, Some(c), k + 1) == Some(c);
      NoWindowAboveItself(f, c, k + 1);
    }
  }

  ghost function ChildWidth<W, G>(sc: Scene<W, G>, c: Child<W, G>): nat
    requires if c.WindowChild? then c.window in sc.screens else c.source in sc.pictures
  {
    match c
    case WindowChild(w) => sc.screens[w].layout.LogicalWidth()
    case SourceChild(g) => sc.pictures[g].Width()
  }

  ghost function ChildHeight<W, G>(sc: Scene<W, G>, c: Child<W, G>): nat
    requires if c.WindowChild? then c.window in sc.screens else c.source in sc.pictures
  {
    match c
    case WindowChild(w) => sc.screens[w].layout.LogicalHeight()
    case SourceChild(g) => sc.pictures[g].Height()
  }

  /** Child c of w covers the point (x, y) of w. */
  ghost predicate Covering<W, G>(sc: Scene<W, G>, w: W, c: Child<W, G>, x: int, y: int)
    requires SceneInv(sc)
  {
    && w in sc.forest.children && c in sc.forest.children[w]
    && var at := sc.forest.children[w][c];
    && at.x <= x < at.x + ChildWidth(sc, c)
    && at.y <= y < at.y + ChildHeight(sc, c)
  }

  /** A window passes on what a child shows, unless it is the transparent colour.  An
      exception passes through. */
  predicate Accepts(s: Screen, r: LedResult) {
    r.OutOfRange? || !s.transparent || r.color != s.back
  }

  /** Some visiting order of the children, here and below, makes (x, y) of w read r. */
  ghost predicate CanShow<W, G>(sc: Scene<W, G>, w: W, x: int, y: int, r: LedResult)
    requires SceneInv(sc) && w in sc.screens && sc.screens[w].layout.Holds(x, y)
    decreases Below(sc.forest, w), 1
  {
    || (Accepts(sc.screens[w], r) &&
        exists c :: c in sc.forest.children[w] && Covering(sc, w, c, x, y) && ChildCanShow(sc, w, c, x, y, r))
    || (r == Shown(sc.screens[w].Pixel(x, y)) &&
        forall c :: c in sc.forest.children[w] && Covering(sc, w, c, x, y) ==>
          !Accepts(sc.screens[w], Shown(sc.screens[w].back)) && ChildCanShow(sc, w, c, x, y, Shown(sc.screens[w].back)))
  }

  ghost predicate ChildCanShow<W, G>(sc: Scene<W, G>, w: W, c: Child<W, G>, x: int, y: int, r: LedResult)
    requires SceneInv(sc) && Covering(sc, w, c, x, y)
    decreases Below(sc.forest, w), 0
  {
    var at := sc.forest.children[w][c];
    match c
    case SourceChild(g) => r == sc.pictures[g].Led(x - at.x, y - at.y)
    case WindowChild(v) => ChildHasLongerChain(sc.forest, w, v); CanShow(sc, v, x - at.x, y - at.y, r)
  }

  lemma ShowsPicture<W, G>(sc: Scene<W, G>, w: W, g: G, x: int, y: int, r: LedResult)
    requires SceneInv(sc) && Covering(sc, w, SourceChild(g), x, y)
    ensures g in sc.pictures
    ensures var at := sc.forest.children[w][SourceChild(g)];
      ChildCanShow(sc, w, SourceChild(g), x, y, r) <==> r == sc.pictures[g].Led(x - at.x, y - at.y)
  {
    hide CanShow, Below, Inv, PaintSource.Led;
  }

  /** A covering child window is live, has the point it is asked for, and is lower in the
      tree. */
  lemma StepDown<W, G>(sc: Scene<W, G>, w: W, v: W, x: int, y: int)
    requires SceneInv(sc) && Covering(sc, w, WindowChild(v), x, y)
    ensures v in sc.screens && v in sc.forest.parent && sc.forest.parent[v] == Some(w)
    ensures Below(sc.forest, v) < Below(sc.forest, w)
    ensures var at := sc.forest.children[w][WindowChild(v)]; sc.screens[v].layout.Holds(x - at.x, y - at.y)
  {
    hide Below, ChainEnds;
    assert sc.forest.parent[v] == Some(w);
    ChildHasLongerChain(sc.forest, w, v);
  }

  lemma ShowsWindow<W, G>(sc: Scene<W, G>, w: W, v: W, x: int, y: int, r: LedResult)
    requires SceneInv(sc) && Covering(sc, w, WindowChild(v), x, y) && v in sc.screens
    requires var at := sc.forest.children[w][WindowChild(v)]; sc.screens[v].layout.Holds(x - at.x, y - at.y)
    ensures var at := sc.forest.children[w][WindowChild(v)];
      ChildCanShow(sc, w, WindowChild(v), x, y, r) <==> CanShow(sc, v, x - at.x, y - at.y, r)
  {
    hide CanShow, SceneInv, Covering, Below;
  }

  lemma ShowsChild<W, G>(sc: Scene<W, G>, w: W, c: Child<W, G>, x: int, y: int, r: LedResult)
    requires SceneInv(sc) && w in sc.screens && sc.screens[w].layout.Holds(x, y)
    requires Covering(sc, w, c, x, y) && ChildCanShow(sc, w, c, x, y, r) && Accepts(sc.screens[w], r)
    ensures CanShow(sc, w, x, y, r)
  {
  }

  lemma ShowsItself<W, G>(sc: Scene<W, G>, w: W, x: int, y: int)
    requires SceneInv(sc) && w in sc.screens && sc.screens[w].layout.Holds(x, y)
    requires forall c :: c in sc.forest.children[w] && Covering(sc, w, c, x, y) ==>
      sc.screens[w].transparent && ChildCanShow(sc, w, c, x, y, Shown(sc.screens[w].back))
    ensures CanShow(sc, w, x, y, Shown(sc.screens[w].Pixel(x, y)))
  {
  }

  /** At w and below, no two children of a window overlap. */
  ghost predicate ChildrenApart<W, G>(sc: Scene<W, G>, w: W)
    requires SceneInv(sc)
  {
    forall v, c, d, x, y | v in sc.forest.children && OnChain(sc.forest, v, w)
      && c in sc.forest.children[v] && d in sc.forest.children[v] ::
      Covering(sc, v, c, x, y) && Covering(sc, v, d, x, y) ==> c == d
  }

  lemma ChildrenApartBelow<W, G>(sc: Scene<W, G>, w: W, v: W)
    requires SceneInv(sc) && ChildrenApart(sc, w) && v in sc.forest.parent && sc.forest.parent[v] == Some(w)
    ensures ChildrenApart(sc, v)
  {
    forall u | OnChain(sc.forest, u, v)
      ensures OnChain(sc.forest, u, w)
    {
      ChildOffChain(sc.forest, u, w, v);
    }
  }

  /** The painter's picture: the covering child in front, unless it is see-through
      there. */
  ghost function Painted<W, G>(sc: Scene<W, G>, w: W, x: int, y: int): LedResult
    requires SceneInv(sc) && w in sc.screens && sc.screens[w].layout.Holds(x, y)
    decreases Below(sc.forest, w), 1
  {
    if c :|
      && c in sc.forest.children[w] && Covering(sc, w, c, x, y)
      && Accepts(sc.screens[w], ChildPainted(sc, w, c, x, y))
    then ChildPainted(sc, w, c, x, y)
    else Shown(sc.screens[w].Pixel(x, y))
  }

  ghost function ChildPainted<W, G>(sc: Scene<W, G>, w: W, c: Child<W, G>, x: int, y: int): LedResult
    requires SceneInv(sc) && Covering(sc, w, c, x, y)
    decreases Below(sc.forest, w), 0
  {
    var at := sc.forest.children[w][c];
    match c
    case SourceChild(g) => sc.pictures[g].Led(x - at.x, y - at.y)
    case WindowChild(v) => ChildHasLongerChain(sc.forest, w, v); Painted(sc, v, x - at.x, y - at.y)
  }

  lemma Apart<W, G>(sc: Scene<W, G>, w: W, x: int, y: int)
    requires SceneInv(sc) && ChildrenApart(sc, w) && w in sc.screens
    ensures w in sc.forest.children
    ensures forall c, d :: c in sc.forest.children[w] && d in sc.forest.children[w] ==>
      (Covering(sc, w, c, x, y) && Covering(sc, w, d, x, y) ==> c == d)
  {
    assert Up(sc.forest, Some(w), 0) == Some(w);
    assert OnChain(sc.forest, w, w);
  }

  /** When children do not overlap, every visiting order at every level shows the
      painter's picture, and only that. */
  lemma {:induction false} EveryOrderShowsPainted<W, G>(sc: Scene<W, G>, w: W, x: int, y: int, r: LedResult)
    requires SceneInv(sc) && w in sc.screens && sc.screens[w].layout.Holds(x, y) && ChildrenApart(sc, w)
    ensures CanShow(sc, w, x, y, r) <==> r == Painted(sc, w, x, y)
    decreases Below(sc.forest, w), 1
  {
    hide ChildCanShow, ChildPainted, SceneInv, Covering, Below;
    Apart(sc, w, x, y);
    forall c, q | c in sc.forest.children[w] && Covering(sc, w, c, x, y)
      ensures ChildCanShow(sc, w, c, x, y, q) <==> q == ChildPainted(sc, w, c, x, y)
    {
      EveryOrderShowsChildPainted(sc, w, c, x, y, q);
    }
  }

  lemma {:induction false} EveryOrderShowsChildPainted<W, G>(sc: Scene<W, G>, w: W, c: Child<W, G>, x: int, y: int,
                                                             r: LedResult)
    requires SceneInv(sc) && Covering(sc, w, c, x, y) && ChildrenApart(sc, w)
    ensures ChildCanShow(sc, w, c, x, y, r) <==> r == ChildPainted(sc, w, c, x, y)
    decreases Below(sc.forest, w), 0
  {
    hide CanShow, Painted, Inv;
    if c.SourceChild? {
    } else {
      var at := sc.forest.children[w][c];
      StepDown(sc, w, c.window, x, y);
      ChildrenApartBelow(sc, w, c.window);
      EveryOrderShowsPainted(sc, c.window, x - at.x, y - at.y, r);
    }
  }

  /** Some covering child, or a covering child of a covering child window and so on down, is
      a glyph outside its font. */
  ghost predicate MayThrow<W, G>(sc: Scene<W, G>, w: W, x: int, y: int)
    requires SceneInv(sc) && w in sc.screens && sc.screens[w].layout.Holds(x, y)
    decreases Below(sc.forest, w), 1
  {
    exists c :: c in sc.forest.children[w] && Covering(sc, w, c, x, y) && ChildMayThrow(sc, w, c, x, y)
  }

  ghost predicate ChildMayThrow<W, G>(sc: Scene<W, G>, w: W, c: Child<W, G>, x: int, y: int)
    requires SceneInv(sc) && Covering(sc, w, c, x, y)
    decreases Below(sc.forest, w), 0
  {
    var at := sc.forest.children[w][c];
    match c
    case SourceChild(g) => !sc.pictures[g].Printable()
    case WindowChild(v) => StepDown(sc, w, v, x, y); MayThrow(sc, v, x - at.x, y - at.y)
  }

  /** Every child is asked only for points it has, so reading a window can throw exactly if a
      covering glyph, at whatever level, is outside its font. */
  lemma {:induction false} MayThrowIff<W, G>(sc: Scene<W, G>, w: W, x: int, y: int)
    requires SceneInv(sc) && w in sc.screens && sc.screens[w].layout.Holds(x, y)
    ensures CanShow(sc, w, x, y, OutOfRange) <==> MayThrow(sc, w, x, y)
    decreases Below(sc.forest, w), 1
  {
    hide ChildCanShow, ChildMayThrow, SceneInv, Covering, Below;
    Children(sc, w);
    forall c | c in sc.forest.children[w] && Covering(sc, w, c, x, y)
      ensures ChildCanShow(sc, w, c, x, y, OutOfRange) <==> ChildMayThrow(sc, w, c, x, y)
    {
      ChildMayThrowIff(sc, w, c, x, y);
    }
  }

  lemma {:induction false} ChildMayThrowIff<W, G>(sc: Scene<W, G>, w: W, c: Child<W, G>, x: int, y: int)
    requires SceneInv(sc) && Covering(sc, w, c, x, y)
    ensures ChildCanShow(sc, w, c, x, y, OutOfRange) <==> ChildMayThrow(sc, w, c, x, y)
    decreases Below(sc.forest, w), 0
  {
    hide CanShow, MayThrow, ChildCanShow, Inv, Below, PaintSource.Led;
    match c
    case SourceChild(g) =>
      ShowsPicture(sc, w, g, x, y, OutOfRange);
    case WindowChild(v) =>
      var at := sc.forest.children[w][c];
      StepDown(sc, w, v, x, y);
      ShowsWindow(sc, w, v, x, y, OutOfRange);
      MayThrowIff(sc, v, x - at.x, y - at.y);
  }

  lemma Children<W, G>(sc: Scene<W, G>, w: W)
    requires SceneInv(sc) && w in sc.screens
    ensures w in sc.forest.children && w in sc.forest.parent
  {
  }

  ghost predicate AllPrintable<W, G>(sc: Scene<W, G>) {
    forall g :: g in sc.pictures ==> sc.pictures[g].Printable()
  }

  lemma {:induction false} NothingMayThrow<W, G>(sc: Scene<W, G>, w: W, x: int, y: int)
    requires SceneInv(sc) && AllPrintable(sc) && w in sc.screens && sc.screens[w].layout.Holds(x, y)
    ensures !MayThrow(sc, w, x, y)
    decreases Below(sc.forest, w)
  {
    hide SceneInv, Covering, Below;
    Children(sc, w);
    forall c | c in sc.forest.children[w] && Covering(sc, w, c, x, y)
      ensures !ChildMayThrow(sc, w, c, x, y)
    {
      match c
      case SourceChild(g) =>
        ShowsPicture(sc, w, g, x, y, OutOfRange);
      case WindowChild(v) =>
        var at := sc.forest.children[w][c];
        StepDown(sc, w, v, x, y);
        NothingMayThrow(sc, v, x - at.x, y - at.y);
    }
  }

  /** With every glyph in its font, no order reads out_of_range. */
  lemma NeverThrows<W, G>(sc: Scene<W, G>, w: W, x: int, y: int)
    requires SceneInv(sc) && AllPrintable(sc) && w in sc.screens && sc.screens[w].layout.Holds(x, y)
    ensures !CanShow(sc, w, x, y, OutOfRange)
  {
    hide CanShow, MayThrow, SceneInv;
    MayThrowIff(sc, w, x, y);
    NothingMayThrow(sc, w, x, y);
  }

  /** A window's own pixel is seen exactly where no covering child shows an accepted
      colour; elsewhere the covering child is seen. */
  lemma PaintedFront<W, G>(sc: Scene<W, G>, w: W, x: int, y: int)
    requires SceneInv(sc) && w in sc.screens && sc.screens[w].layout.Holds(x, y) && ChildrenApart(sc, w)
    ensures forall c :: Covering(sc, w, c, x, y) ==>
      Painted(sc, w, x, y) == if Accepts(sc.screens[w], ChildPainted(sc, w, c, x, y)) then ChildPainted(sc, w, c, x, y)
                              else Shown(sc.screens[w].Pixel(x, y))
    ensures (forall c :: !Covering(sc, w, c, x, y)) ==> Painted(sc, w, x, y) == Shown(sc.screens[w].Pixel(x, y))
  {
    hide ChildPainted, SceneInv, Covering;
    Apart(sc, w, x, y);
    forall c | Covering(sc, w, c, x, y)
      ensures c in sc.forest.children[w]
    {
      CoveringIsListed(sc, w, c, x, y);
    }
  }

  lemma CoveringIsListed<W, G>(sc: Scene<W, G>, w: W, c: Child<W, G>, x: int, y: int)
    requires SceneInv(sc) && Covering(sc, w, c, x, y)
    ensures w in sc.forest.children && c in sc.forest.children[w]
  {
  }

  // ---------------------------------------------------------------- moving a window

  /** The scene after w.move(to). */
  ghost function MovedScene<W, G>(sc: Scene<W, G>, w: W, to: Position): (t: Scene<W, G>)
    requires SceneInv(sc) && w in sc.forest.parent
    ensures SceneInv(t)
  {
    MoveKeepsInv(sc.forest, w, to);
    sc.(forest := Moved(sc.forest, w, to))
  }

  /** Two scenes with the same windows and pictures, where only p has other children. */
  ghost predicate DifferAt<W, G>(sc: Scene<W, G>, t: Scene<W, G>, p: W)
    requires SceneInv(sc) && SceneInv(t)
  {
    && t.screens == sc.screens && t.pictures == sc.pictures && t.forest.parent.Keys == sc.forest.parent.Keys
    && forall w :: w in sc.forest.children && w != p ==> t.forest.children[w] == sc.forest.children[w]
  }

  lemma ChildOffChain<W, G>(f: Forest<W, G>, p: W, w: W, v: W)
    requires v in f.parent && f.parent[v] == Some(w)
    ensures OnChain(f, p, v) ==> OnChain(f, p, w)
  {
    if k: nat :| Up(f, Some(p), k) == Some(v) {
      UpSum(f, Some(p), k, 1);
      assert Up(f, Some(v), 1) == Up(f, Some(w), 0);
      assert Up(f, Some(p), k + 1) == Some(w);
    }
  }

  lemma SameCover<W, G>(sc: Scene<W, G>, t: Scene<W, G>, p: W, w: W)
    requires SceneInv(sc) && SceneInv(t) && DifferAt(sc, t, p) && w in sc.screens && w != p
    ensures w in sc.forest.children && w in t.forest.children && t.forest.children[w] == sc.forest.children[w]
    ensures forall c, x, y :: Covering(sc, w, c, x, y) <==> Covering(t, w, c, x, y)
  {
    hide Inv;
    assert t.forest.children.Keys == t.forest.parent.Keys by { ChildrenKeys(t.forest); }
    assert sc.forest.children.Keys == sc.forest.parent.Keys by { ChildrenKeys(sc.forest); }
  }

  lemma ChildrenKeys<W, G>(f: Forest<W, G>)
    requires Inv(f)
    ensures f.children.Keys == f.parent.Keys
  {
  }

  /** What a window shows does not depend on the children of windows above or beside it. */
  lemma {:induction false} ShowsFromBelow<W, G>(sc: Scene<W, G>, t: Scene<W, G>, p: W, w: W, x: int, y: int,
                                                r: LedResult)
    requires SceneInv(sc) && SceneInv(t) && DifferAt(sc, t, p)
    requires w in sc.screens && !OnChain(sc.forest, p, w) && sc.screens[w].layout.Holds(x, y)
    ensures CanShow(sc, w, x, y, r) <==> CanShow(t, w, x, y, r)
    decreases Below(sc.forest, w), 1
  {
    hide ChildCanShow, SceneInv, Covering, Below;
    assert w != p by { assert Up(sc.forest, Some(p), 0) == Some(p); }
    SameCover(sc, t, p, w);
    forall c, q | c in sc.forest.children[w] && Covering(sc, w, c, x, y)
      ensures ChildCanShow(sc, w, c, x, y, q) <==> ChildCanShow(t, w, c, x, y, q)
    {
      ChildShowsFromBelow(sc, t, p, w, c, x, y, q);
    }
  }

  lemma {:induction false} ChildShowsFromBelow<W, G>(sc: Scene<W, G>, t: Scene<W, G>, p: W, w: W, c: Child<W, G>,
                                                     x: int, y: int, r: LedResult)
    requires SceneInv(sc) && SceneInv(t) && DifferAt(sc, t, p)
    requires w in sc.screens && w != p && !OnChain(sc.forest, p, w)
    requires w in sc.forest.children && c in sc.forest.children[w]
    requires Covering(sc, w, c, x, y) && Covering(t, w, c, x, y)
    ensures ChildCanShow(sc, w, c, x, y, r) <==> ChildCanShow(t, w, c, x, y, r)
    decreases Below(sc.forest, w), 0
  {
    hide CanShow, ChildCanShow, Below, OnChain, Covering, SceneInv;
    SameCover(sc, t, p, w);
    match c
    case WindowChild(v) =>
      var at := sc.forest.children[w][c];
      StepDown(sc, w, v, x, y);
      ChildOffChain(sc.forest, p, w, v);
      ShowsFromBelow(sc, t, p, v, x - at.x, y - at.y, r);
      ShowsWindow(sc, w, v, x, y, r);
      ShowsWindow(t, w, v, x, y, r);
    case SourceChild(g) =>
      ShowsPicture(sc, w, g, x, y, r);
      ShowsPicture(t, w, g, x, y, r);
  }

  lemma MovedCovers<W, G>(sc: Scene<W, G>, p: W, v: W, to: Position, x: int, y: int)
    requires SceneInv(sc) && Covering(sc, p, WindowChild(v), x, y)
    requires v in sc.forest.parent && sc.forest.parent[v] == Some(p)
    ensures var at := sc.forest.children[p][WindowChild(v)];
      var t := MovedScene(sc, v, to);
      && DifferAt(sc, t, p)
      && Covering(t, p, WindowChild(v), x - at.x + to.x, y - at.y + to.y)
      && t.forest.children[p][WindowChild(v)] == to
  {
    hide Inv;
  }

  /** Moving a listed window carries its whole picture along, children included: what its
      parent could read through it at (x, y) it can read at the shifted point. */
  lemma MoveCarriesPicture<W, G>(sc: Scene<W, G>, p: W, v: W, to: Position, x: int, y: int, r: LedResult)
    requires SceneInv(sc) && Covering(sc, p, WindowChild(v), x, y)
    ensures v in sc.forest.parent
    ensures var at := sc.forest.children[p][WindowChild(v)];
      var t := MovedScene(sc, v, to);
      var x', y' := x - at.x + to.x, y - at.y + to.y;
      && Covering(t, p, WindowChild(v), x', y')
      && (ChildCanShow(sc, p, WindowChild(v), x, y, r) <==> ChildCanShow(t, p, WindowChild(v), x', y', r))
  {
    hide CanShow, ChildCanShow, Below, OnChain, Inv, MovedScene, DifferAt;
    StepDown(sc, p, v, x, y);
    MovedCovers(sc, p, v, to, x, y);
    CarriesPicture(sc, MovedScene(sc, v, to), p, v, sc.forest.children[p][WindowChild(v)], to, x, y, r);
  }

  lemma CarriesPicture<W, G>(sc: Scene<W, G>, t: Scene<W, G>, p: W, v: W, at: Position, to: Position, x: int, y: int,
                             r: LedResult)
    requires SceneInv(sc) && SceneInv(t) && DifferAt(sc, t, p)
    requires Covering(sc, p, WindowChild(v), x, y) && sc.forest.children[p][WindowChild(v)] == at
    requires Covering(t, p, WindowChild(v), x - at.x + to.x, y - at.y + to.y)
    requires t.forest.children[p][WindowChild(v)] == to
    ensures ChildCanShow(sc, p, WindowChild(v), x, y, r)
      <==> ChildCanShow(t, p, WindowChild(v), x - at.x + to.x, y - at.y + to.y, r)
  {
    hide CanShow, ChildCanShow, Below, OnChain, Inv, Covering, SceneInv;
    StepDown(sc, p, v, x, y);
    InvOf(sc);
    ParentOffChild(sc.forest, p, v);
    ShowsFromBelow(sc, t, p, v, x - at.x, y - at.y, r);
    ShowsWindow(sc, p, v, x, y, r);
    ShowsWindow(t, p, v, x - at.x + to.x, y - at.y + to.y, r);
  }

  lemma InvOf<W, G>(sc: Scene<W, G>)
    requires SceneInv(sc)
    ensures Inv(sc.forest)
  {
  }

  lemma ParentOffChild<W, G>(f: Forest<W, G>, p: W, v: W)
    requires Inv(f) && v in f.parent && f.parent[v] == Some(p)
    ensures !OnChain(f, p, v)
  {
    if k: nat :| Up(f, Some(p), k) == Some(v) {
      assert Up(f, Some(v), k + 1) == Some(v);
      NoWindowAboveItself(f, v, k + 1);
    }
  }

  // ---------------------------------------------------------------- what covers after a step

  /** Child c has a pixel at (u, v). */
  ghost predicate Has<W, G>(sc: Scene<W, G>, c: Child<W, G>, u: int, v: int) {
    match c
    case WindowChild(w) => w in sc.screens && sc.screens[w].layout.Holds(u, v)
    case SourceChild(g) => g in sc.pictures && sc.pictures[g].Covers(u, v)
  }

  lemma ListedIsThere<W, G>(sc: Scene<W, G>, q: W, c: Child<W, G>)
    requires SceneInv(sc) && Lists(sc.forest, q, c)
    ensures if c.WindowChild? then c.window in sc.screens else c.source in sc.pictures
  {
    hide ChainEnds;
  }

  lemma CoversIff<W, G>(sc: Scene<W, G>, q: W, c: Child<W, G>, x: int, y: int)
    requires SceneInv(sc)
    ensures Covering(sc, q, c, x, y) <==> EntryCovers(sc, Entry(sc.forest, q, c), c, x, y)
  {
    hide SceneInv, Inv;
    if Lists(sc.forest, q, c) {
      ListedIsThere(sc, q, c);
    }
  }

  /** Listed at this place, if at all, child c has the point. */
  ghost predicate EntryCovers<W, G>(sc: Scene<W, G>, entry: Option<Position>, c: Child<W, G>, x: int, y: int) {
    entry.Some? && Has(sc, c, x - entry.value.x, y - entry.value.y)
  }

  /** After any step a child covers exactly its own rectangle at the place where it is then
      listed. */
  lemma CoversAfterStep<W, G>(sc: Scene<W, G>, t: Scene<W, G>, step: Step<W, G>, q: W, c: Child<W, G>, x: int, y: int)
    requires SceneInv(sc) && Possible(sc.forest, step)
    requires SceneInv(t) && t.forest == Next(sc.forest, step)
    ensures Covering(t, q, c, x, y) <==> EntryCovers(t, EntryAfter(sc.forest, step, q, c), c, x, y)
  {
    hide Inv, Next, EntryAfter, Entry, Covering;
    CoversIff(t, q, c, x, y);
    EntriesAfterStep(sc.forest, step, q, c);
  }

  /** The child that a step names, or the window that it creates or destroys. */
  function Named<W, G>(step: Step<W, G>): Child<W, G> {
    match step
    case Create(w, _, _) => WindowChild(w)
    case Add(_, c, _) => c
    case Remove(_, c) => c
    case Move(w, _) => WindowChild(w)
    case Destroy(w) => WindowChild(w)
  }

  /** A step leaves every other child where it covers. */
  lemma OthersCoverTheSame<W, G>(sc: Scene<W, G>, t: Scene<W, G>, step: Step<W, G>, q: W, c: Child<W, G>,
                                 x: int, y: int)
    requires SceneInv(sc) && Possible(sc.forest, step)
    requires SceneInv(t) && t.forest == Next(sc.forest, step)
    requires c != Named(step) && step != Destroy(q)
    requires forall u, v :: Has(t, c, u, v) <==> Has(sc, c, u, v)
    ensures Covering(t, q, c, x, y) <==> Covering(sc, q, c, x, y)
  {
    hide Inv, Next, Entry, Covering, Has;
    CoversAfterStep(sc, t, step, q, c, x, y);
    CoversIff(sc, q, c, x, y);
  }

  /** The scene after a step that neither creates nor destroys a window. */
  ghost function Stepped<W, G>(sc: Scene<W, G>, step: Step<W, G>): (t: Scene<W, G>)
    requires SceneInv(sc) && Possible(sc.forest, step) && Safe(sc.forest, step)
    requires !step.Create? && !step.Destroy?
    requires step.Add? && step.child.SourceChild? ==> step.child.source in sc.pictures
    ensures SceneInv(t)
  {
    StepInv(sc, step);
    sc.(forest := Next(sc.forest, step))
  }

  lemma SameWindows<W, G>(f: Forest<W, G>, step: Step<W, G>)
    requires Inv(f) && Possible(f, step) && !step.Create? && !step.Destroy?
    ensures Next(f, step).parent.Keys == f.parent.Keys
  {
    hide ChainEnds;
  }

  lemma StepInv<W, G>(sc: Scene<W, G>, step: Step<W, G>)
    requires SceneInv(sc) && Possible(sc.forest, step) && Safe(sc.forest, step)
    requires !step.Create? && !step.Destroy?
    requires step.Add? && step.child.SourceChild? ==> step.child.source in sc.pictures
    ensures SceneInv(sc.(forest := Next(sc.forest, step)))
  {
    hide Inv, Next, Safe;
    var g := Next(sc.forest, step);
    StepKeepsInvIff(sc.forest, step);
    SameWindows(sc.forest, step);
    forall w, c | w in g.children && c in g.children[w] && c.SourceChild?
      ensures c.source in sc.pictures
    {
      EntriesAfterStep(sc.forest, step, w, c);
      assert Entry(g, w, c).Some?;
    }
  }

  /** An added child covers exactly its own rectangle at the given place, also when it was
      listed elsewhere before; a window added to its own parent again covers nothing. */
  lemma AddCovers<W, G>(sc: Scene<W, G>, p: W, c: Child<W, G>, at: Position, x: int, y: int)
    requires SceneInv(sc) && Possible(sc.forest, Add(p, c, at)) && Safe(sc.forest, Add(p, c, at))
    requires c.SourceChild? ==> c.source in sc.pictures
    ensures Covering(Stepped(sc, Add(p, c, at)), p, c, x, y)
      <==> Has(sc, c, x - at.x, y - at.y) && (c.WindowChild? ==> sc.forest.parent[c.window] != Some(p))
  {
    hide Inv, Next, Entry, Covering, Safe;
    CoversAfterStep(sc, Stepped(sc, Add(p, c, at)), Add(p, c, at), p, c, x, y);
  }

  /** A removed child covers nothing of that window any more. */
  lemma RemoveUncovers<W, G>(sc: Scene<W, G>, p: W, c: Child<W, G>, x: int, y: int)
    requires SceneInv(sc) && Possible(sc.forest, Remove(p, c)) && Safe(sc.forest, Remove(p, c))
    ensures !Covering(Stepped(sc, Remove(p, c)), p, c, x, y)
  {
    hide Inv, Next, Entry, Covering, Safe;
    CoversAfterStep(sc, Stepped(sc, Remove(p, c)), Remove(p, c), p, c, x, y);
  }

  // ---------------------------------------------------------------- what a step leaves as it was

  /** The step changes the children of p only. */
  ghost predicate Touches<W, G>(f: Forest<W, G>, step: Step<W, G>, p: W)
    requires Possible(f, step)
  {
    match step
    case Add(q, c, _) => q == p && (c.WindowChild? ==> f.parent[c.window] == None)
    case Remove(q, _) => q == p
    case Move(w, _) => f.parent[w] == Some(p)
    case _ => false
  }

  /** Child d covers (x, y) of p in both scenes, at the same place, or in neither. */
  ghost predicate SameAt<W, G>(sc: Scene<W, G>, t: Scene<W, G>, p: W, d: Child<W, G>, x: int, y: int)
    requires SceneInv(sc) && SceneInv(t)
  {
    && (Covering(sc, p, d, x, y) <==> Covering(t, p, d, x, y))
    && (Covering(sc, p, d, x, y) ==> Entry(sc.forest, p, d) == Entry(t.forest, p, d))
  }

  lemma SameEntrySameAt<W, G>(sc: Scene<W, G>, t: Scene<W, G>, p: W, d: Child<W, G>, x: int, y: int)
    requires SceneInv(sc) && SceneInv(t) && t.screens == sc.screens && t.pictures == sc.pictures
    requires Entry(sc.forest, p, d) == Entry(t.forest, p, d)
    ensures SameAt(sc, t, p, d, x, y)
  {
    hide Inv, Entry, Covering;
    CoversIff(sc, p, d, x, y);
    CoversIff(t, p, d, x, y);
  }

  lemma TouchedDiffers<W, G>(sc: Scene<W, G>, step: Step<W, G>, p: W)
    requires SceneInv(sc) && Possible(sc.forest, step) && Safe(sc.forest, step) && Touches(sc.forest, step, p)
    requires step.Add? && step.child.SourceChild? ==> step.child.source in sc.pictures
    ensures DifferAt(sc, Stepped(sc, step), p)
  {
    hide ChainEnds, OnChain;
  }

  /** What a child shows through a window is the same where the child is. */
  lemma SameAtShows<W, G>(sc: Scene<W, G>, t: Scene<W, G>, p: W, c: Child<W, G>, x: int, y: int, r: LedResult)
    requires SceneInv(sc) && SceneInv(t) && DifferAt(sc, t, p)
    requires Covering(sc, p, c, x, y) && Covering(t, p, c, x, y) && SameAt(sc, t, p, c, x, y)
    ensures ChildCanShow(sc, p, c, x, y, r) <==> ChildCanShow(t, p, c, x, y, r)
  {
    hide CanShow, ChildCanShow, Below, OnChain, Covering, SceneInv, Inv;
    CoveringIsListed(sc, p, c, x, y);
    CoveringIsListed(t, p, c, x, y);
    assert sc.forest.children[p][c] == t.forest.children[p][c];
    match c
    case SourceChild(g) =>
      ShowsPicture(sc, p, g, x, y, r);
      ShowsPicture(t, p, g, x, y, r);
    case WindowChild(v) =>
      var at := sc.forest.children[p][c];
      StepDown(sc, p, v, x, y);
      InvOf(sc);
      ParentOffChild(sc.forest, p, v);
      ShowsFromBelow(sc, t, p, v, x - at.x, y - at.y, r);
      ShowsWindow(sc, p, v, x, y, r);
      ShowsWindow(t, p, v, x, y, r);
  }

  lemma ShowsWhereSame<W, G>(sc: Scene<W, G>, t: Scene<W, G>, p: W, x: int, y: int, r: LedResult)
    requires SceneInv(sc) && SceneInv(t) && DifferAt(sc, t, p)
    requires p in sc.screens && sc.screens[p].layout.Holds(x, y)
    requires forall d :: SameAt(sc, t, p, d, x, y)
    ensures CanShow(sc, p, x, y, r) <==> CanShow(t, p, x, y, r)
  {
    hide ChildCanShow, Below, OnChain, Covering, SceneInv, Inv, Entry;
    Children(sc, p);
    Children(t, p);
    forall c | Covering(sc, p, c, x, y) || Covering(t, p, c, x, y)
      ensures c in sc.forest.children[p] && c in t.forest.children[p]
      ensures Covering(sc, p, c, x, y) && Covering(t, p, c, x, y)
      ensures forall q :: ChildCanShow(sc, p, c, x, y, q) <==> ChildCanShow(t, p, c, x, y, q)
    {
      assert SameAt(sc, t, p, c, x, y);
      CoveringIsListed(sc, p, c, x, y);
      CoveringIsListed(t, p, c, x, y);
      forall q
        ensures ChildCanShow(sc, p, c, x, y, q) <==> ChildCanShow(t, p, c, x, y, q)
      {
        SameAtShows(sc, t, p, c, x, y, q);
      }
    }
  }

  /** A step changes what its window shows only where the child it names was or is: all
      other points can be read as before, under every order. */
  lemma StepShowsElsewhere<W, G>(sc: Scene<W, G>, step: Step<W, G>, p: W, x: int, y: int, r: LedResult)
    requires SceneInv(sc) && Possible(sc.forest, step) && Safe(sc.forest, step) && Touches(sc.forest, step, p)
    requires step.Add? && step.child.SourceChild? ==> step.child.source in sc.pictures
    requires p in sc.screens && sc.screens[p].layout.Holds(x, y)
    requires !Covering(sc, p, Named(step), x, y) && !Covering(Stepped(sc, step), p, Named(step), x, y)
    ensures CanShow(sc, p, x, y, r) <==> CanShow(Stepped(sc, step), p, x, y, r)
  {
    hide Inv, Next, Entry, Covering, Safe, CanShow, DifferAt, SceneInv;
    var t := Stepped(sc, step);
    InvOf(sc);
    TouchedDiffers(sc, step, p);
    forall d
      ensures SameAt(sc, t, p, d, x, y)
    {
      EntriesAfterStep(sc.forest, step, p, d);
      if d != Named(step) {
        SameEntrySameAt(sc, t, p, d, x, y);
      }
    }
    ShowsWhereSame(sc, t, p, x, y, r);
  }

  // ---------------------------------------------------------------- one child in front

  /** The child can be read q at the point, and a window that reads q there reads r: it shows
      what the child shows or, if it is transparent and that is its background colour, its
      own LED. */
  ghost predicate ShowsThrough<W, G>(sc: Scene<W, G>, w: W, c: Child<W, G>, x: int, y: int, q: LedResult, r: LedResult)
    requires SceneInv(sc) && w in sc.screens && sc.screens[w].layout.Holds(x, y) && Covering(sc, w, c, x, y)
  {
    var s := sc.screens[w];
    && ChildCanShow(sc, w, c, x, y, q)
    && r == if s.transparent && q == Shown(s.back) then Shown(s.Pixel(x, y)) else q
  }

  /** The loop's rule at a point with one covering child, in the colours themselves. */
  lemma LoneChildShows<W, G>(sc: Scene<W, G>, w: W, c: Child<W, G>, x: int, y: int, r: LedResult)
    requires SceneInv(sc) && w in sc.screens && sc.screens[w].layout.Holds(x, y)
    requires forall d :: Covering(sc, w, d, x, y) <==> d == c
    ensures CanShow(sc, w, x, y, r) <==> exists q :: ShowsThrough(sc, w, c, x, y, q, r)
  {
    hide ChildCanShow, Covering, Inv, Screen.Pixel, Below;
    Children(sc, w);
    assert Covering(sc, w, c, x, y);
    CoveringIsListed(sc, w, c, x, y);
    var s := sc.screens[w];
    assert CanShow(sc, w, x, y, r) <==>
      || (Accepts(s, r) && ChildCanShow(sc, w, c, x, y, r))
      || (r == Shown(s.Pixel(x, y)) && !Accepts(s, Shown(s.back)) && ChildCanShow(sc, w, c, x, y, Shown(s.back)));
    assert Accepts(s, r) && ChildCanShow(sc, w, c, x, y, r) ==> ShowsThrough(sc, w, c, x, y, r, r);
    assert !Accepts(s, Shown(s.back)) && ChildCanShow(sc, w, c, x, y, Shown(s.back))
      ==> ShowsThrough(sc, w, c, x, y, Shown(s.back), Shown(s.Pixel(x, y)));
  }

  lemma BareWindowShows<W, G>(sc: Scene<W, G>, w: W, x: int, y: int, r: LedResult)
    requires SceneInv(sc) && w in sc.screens && sc.screens[w].layout.Holds(x, y)
    requires forall d :: !Covering(sc, w, d, x, y)
    ensures CanShow(sc, w, x, y, r) <==> r == Shown(sc.screens[w].Pixel(x, y))
  {
    hide ChildCanShow, Covering, Inv, Screen.Pixel, Below;
    Children(sc, w);
  }

  // ---------------------------------------------------------------- drawing a window

  /** Every pixel of w can be read, whatever the order. */
  ghost predicate Readable<W, G>(sc: Scene<W, G>, w: W)
    requires SceneInv(sc) && w in sc.screens
  {
    forall x, y :: sc.screens[w].layout.Holds(x, y) ==> !MayThrow(sc, w, x, y)
  }

  /** Children do not overlap at w and below, and no glyph seen there is outside its font. */
  ghost predicate Composable<W, G>(sc: Scene<W, G>, w: W)
    requires w in sc.screens
  {
    SceneInv(sc) && ChildrenApart(sc, w) && Readable(sc, w)
  }

  lemma ComposableScene<W, G>(sc: Scene<W, G>, w: W)
    requires w in sc.screens && Composable(sc, w)
    ensures SceneInv(sc)
  {
  }

  lemma ComposableShows<W, G>(sc: Scene<W, G>, w: W, x: int, y: int)
    requires w in sc.screens && Composable(sc, w) && sc.screens[w].layout.Holds(x, y)
    ensures Painted(sc, w, x, y).Shown?
  {
    hide CanShow, Painted, ChildrenApart, MayThrow, SceneInv;
    MayThrowIff(sc, w, x, y);
    EveryOrderShowsPainted(sc, w, x, y, OutOfRange);
  }

  ghost function ComposedCell<W, G>(sc: Scene<W, G>, w: W, k: int): LedColor
    requires w in sc.screens && Composable(sc, w)
    requires 0 <= k < sc.screens[w].layout.LogicalWidth() * sc.screens[w].layout.LogicalHeight()
  {
    var l := sc.screens[w].layout;
    WirePointBounds(Vector, l.LogicalWidth(), l.LogicalHeight(), k);
    var p := WirePoint(Vector, l.LogicalWidth(), k);
    ComposableShows(sc, w, p.x, p.y);
    Painted(sc, w, p.x, p.y).color
  }

  /** What a window shows with its children, as a source to draw from. */
  ghost function Composed<W, G>(sc: Scene<W, G>, w: W): PaintSource
    requires w in sc.screens && Composable(sc, w)
  {
    hide Composable, ComposedCell;
    var l := sc.screens[w].layout;
    MonotoneProduct(0, l.LogicalWidth(), l.LogicalHeight());
    var cells := seq(l.LogicalWidth() * l.LogicalHeight(),
                     k requires 0 <= k < l.LogicalWidth() * l.LogicalHeight() => ComposedCell(sc, w, k));
    Image(BitmapData(l.LogicalWidth(), l.LogicalHeight(), cells))
  }

  lemma ComposedLed<W, G>(sc: Scene<W, G>, w: W, u: int, v: int)
    requires w in sc.screens && Composable(sc, w)
    ensures Composed(sc, w).Led(u, v)
      == if sc.screens[w].layout.Holds(u, v) then Painted(sc, w, u, v) else OutOfRange
  {
    hide Painted, Composable, SceneInv;
    if sc.screens[w].layout.Holds(u, v) {
      ComposableShows(sc, w, u, v);
      WireBijection(Vector, sc.screens[w].layout.LogicalWidth(), sc.screens[w].layout.LogicalHeight(), Point(u, v));
    }
  }

  /** Drawing a window leaves on the device what the window shows with its children, blended
      like any other source. */
  lemma DrawnWindowShowsPainted<W, G>(s: Screen, sc: Scene<W, G>, w: W, at: Placement, i: int, j: int)
    requires w in sc.screens && Composable(sc, w) && s.Valid() && s.layout.Holds(i, j)
    ensures var u, v := at.SourceX(Composed(sc, w), i), at.SourceY(Composed(sc, w), j);
      Drawn(s, Composed(sc, w), at).Pixel(i, j)
        == Blend(s, if sc.screens[w].layout.Holds(u, v) then Painted(sc, w, u, v) else OutOfRange, i, j)
  {
    hide Painted, Composable, SceneInv, Composed, Drawn, Screen.Pixel;
    DrawnPixels(s, Composed(sc, w), at);
    ComposedLed(sc, w, at.SourceX(Composed(sc, w), i), at.SourceY(Composed(sc, w), j));
  }
}
