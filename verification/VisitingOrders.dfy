/** The visiting orders behind what a window shows.  An order fixes, for every window, the
    sequence in which its children are visited; reading under it is a function.  The main
    results are that CanShow is exactly what the orders read, and when all orders agree. */
module VisitingOrders {
  import opened Options
  import opened StripIndex
  import opened PaintSources
  import opened Screens
  import opened Forests
  import opened Compositing

  /** For every window, its children in the order in which they are visited. */
  type Order<W, G> = map<W, seq<Child<W, G>>>

  ghost predicate Enumerates<T>(s: seq<T>, t: set<T>) {
    && (forall x :: x in s ==> x in t)
    && (forall x :: x in t ==> x in s)
    && forall i, j :: 0 <= i < j < |s| ==> s[i] != s[j]
  }

  ghost predicate IsOrder<W, G>(sc: Scene<W, G>, o: Order<W, G>) {
    && o.Keys == sc.forest.children.Keys
    && forall w :: w in o ==> Enumerates(o[w], sc.forest.children[w].Keys)
  }

  /** The loop of led at (x, y) of w from the i-th child on, under an order. */
  ghost function ReadFrom<W, G>(sc: Scene<W, G>, o: Order<W, G>, w: W, x: int, y: int, i: nat): LedResult
    requires SceneInv(sc) && IsOrder(sc, o) && w in o && w in sc.screens && sc.screens[w].layout.Holds(x, y)
    requires i <= |o[w]|
    decreases Below(sc.forest, w), 1, |o[w]| - i
  {
    if i == |o[w]| then Shown(sc.screens[w].Pixel(x, y))
    else if Covering(sc, w, o[w][i], x, y) && Accepts(sc.screens[w], ChildRead(sc, o, w, o[w][i], x, y))
    then ChildRead(sc, o, w, o[w][i], x, y)
    else ReadFrom(sc, o, w, x, y, i + 1)
  }

  ghost function ChildRead<W, G>(sc: Scene<W, G>, o: Order<W, G>, w: W, c: Child<W, G>, x: int, y: int): LedResult
    requires SceneInv(sc) && IsOrder(sc, o) && Covering(sc, w, c, x, y)
    decreases Below(sc.forest, w), 0
  {
    var at := sc.forest.children[w][c];
    match c
    case SourceChild(g) => sc.pictures[g].Led(x - at.x, y - at.y)
    case WindowChild(v) => StepDown(sc, w, v, x, y); ReadFrom(sc, o, v, x - at.x, y - at.y, 0)
  }

  /** What led reads at (x, y) of w under an order. */
  ghost function Read<W, G>(sc: Scene<W, G>, o: Order<W, G>, w: W, x: int, y: int): LedResult
    requires SceneInv(sc) && IsOrder(sc, o) && w in sc.screens && sc.screens[w].layout.Holds(x, y)
  {
    ReadFrom(sc, o, w, x, y, 0)
  }

  // ---------------------------------------------------------------- orders read what can be shown

  /** Child c covers the point, and r is read from it and passed on. */
  ghost predicate Finds<W, G>(sc: Scene<W, G>, o: Order<W, G>, w: W, c: Child<W, G>, x: int, y: int,
                              r: LedResult)
    requires SceneInv(sc) && IsOrder(sc, o) && w in sc.screens
  {
    Covering(sc, w, c, x, y) && r == ChildRead(sc, o, w, c, x, y) && Accepts(sc.screens[w], r)
  }

  /** The loop ends at the first accepted child, or at the window's own pixel. */
  lemma {:induction false} ReadEnds<W, G>(sc: Scene<W, G>, o: Order<W, G>, w: W, x: int, y: int, i: nat)
    requires SceneInv(sc) && IsOrder(sc, o) && w in o && w in sc.screens && sc.screens[w].layout.Holds(x, y)
    requires i <= |o[w]|
    ensures var r := ReadFrom(sc, o, w, x, y, i);
      || (exists j :: i <= j < |o[w]| && Finds(sc, o, w, o[w][j], x, y, r))
      || (r == Shown(sc.screens[w].Pixel(x, y)) &&
          forall j :: i <= j < |o[w]| && Covering(sc, w, o[w][j], x, y) ==>
            !Accepts(sc.screens[w], ChildRead(sc, o, w, o[w][j], x, y)))
    decreases |o[w]| - i
  {
    hide ChildRead, Covering, SceneInv, IsOrder, Below, Screen.Pixel;
    if i == |o[w]| {
    } else {
      ReadEnds(sc, o, w, x, y, i + 1);
    }
  }

  lemma {:induction false} ReadCanShow<W, G>(sc: Scene<W, G>, o: Order<W, G>, w: W, x: int, y: int)
    requires SceneInv(sc) && IsOrder(sc, o) && w in sc.screens && sc.screens[w].layout.Holds(x, y)
    ensures CanShow(sc, w, x, y, Read(sc, o, w, x, y))
    decreases Below(sc.forest, w), 1
  {
    hide ChildRead, ReadFrom, Covering, SceneInv, ChildCanShow, Below, Screen.Pixel, CanShow;
    OrderOf(sc, o, w);
    ReadEnds(sc, o, w, x, y, 0);
    forall c | c in sc.forest.children[w] && Covering(sc, w, c, x, y)
      ensures ChildCanShow(sc, w, c, x, y, ChildRead(sc, o, w, c, x, y))
    {
      ChildReadCanShow(sc, o, w, c, x, y);
    }
    var r := Read(sc, o, w, x, y);
    if j :| 0 <= j < |o[w]| && Finds(sc, o, w, o[w][j], x, y, r) {
      ShowsChild(sc, w, o[w][j], x, y, r);
    } else {
      ShowsItself(sc, w, x, y);
    }
  }

  lemma OrderOf<W, G>(sc: Scene<W, G>, o: Order<W, G>, w: W)
    requires SceneInv(sc) && IsOrder(sc, o) && w in sc.screens
    ensures w in o && w in sc.forest.children
    ensures forall c :: c in sc.forest.children[w] <==> c in o[w]
  {
  }

  lemma {:induction false} ChildReadCanShow<W, G>(sc: Scene<W, G>, o: Order<W, G>, w: W, c: Child<W, G>, x: int, y: int)
    requires SceneInv(sc) && IsOrder(sc, o) && Covering(sc, w, c, x, y)
    ensures ChildCanShow(sc, w, c, x, y, ChildRead(sc, o, w, c, x, y))
    decreases Below(sc.forest, w), 0
  {
    hide CanShow, Read, ReadFrom, ChildCanShow, SceneInv, Covering, Below, IsOrder, PaintSource.Led;
    CoveringIsListed(sc, w, c, x, y);
    var at := sc.forest.children[w][c];
    var r := ChildRead(sc, o, w, c, x, y);
    match c
    case WindowChild(v) =>
      StepDown(sc, w, v, x, y);
      ReadCanShow(sc, o, v, x - at.x, y - at.y);
      ReadIsFrom(sc, o, v, x - at.x, y - at.y);
      ShowsWindow(sc, w, v, x, y, r);
    case SourceChild(g) =>
      ShowsPicture(sc, w, g, x, y, r);
  }

  lemma ReadIsFrom<W, G>(sc: Scene<W, G>, o: Order<W, G>, w: W, x: int, y: int)
    requires SceneInv(sc) && IsOrder(sc, o) && w in sc.screens && sc.screens[w].layout.Holds(x, y)
    ensures w in o && Read(sc, o, w, x, y) == ReadFrom(sc, o, w, x, y, 0)
  {
  }

  // ---------------------------------------------------------------- what can be shown is read

  ghost function Enumeration<T>(t: set<T>): (s: seq<T>)
    ensures Enumerates(s, t)
  {
    if t == {} then []
    else
      var x :| x in t;
      [x] + Enumeration(t - {x})
  }

  ghost function AnyOrder<W, G>(sc: Scene<W, G>): (o: Order<W, G>)
    ensures IsOrder(sc, o)
  {
    map w | w in sc.forest.children :: Enumeration(sc.forest.children[w].Keys)
  }

  /** The orders agree at w and below. */
  ghost predicate AgreeBelow<W, G>(sc: Scene<W, G>, o: Order<W, G>, p: Order<W, G>, w: W)
    requires IsOrder(sc, o) && IsOrder(sc, p)
  {
    forall v :: v in o && OnChain(sc.forest, v, w) ==> o[v] == p[v]
  }

  lemma SameKeys<W, G>(sc: Scene<W, G>, o: Order<W, G>, p: Order<W, G>)
    requires IsOrder(sc, o) && IsOrder(sc, p)
    ensures o.Keys == p.Keys
  {
  }

  /** Reading a window depends only on the orders at it and below. */
  lemma {:induction false} ReadFromBelow<W, G>(sc: Scene<W, G>, o: Order<W, G>, p: Order<W, G>, w: W, x: int, y: int,
                                               i: nat)
    requires SceneInv(sc) && IsOrder(sc, o) && IsOrder(sc, p) && AgreeBelow(sc, o, p, w)
    requires w in o && w in sc.screens && sc.screens[w].layout.Holds(x, y) && i <= |o[w]|
    ensures o[w] == p[w] && ReadFrom(sc, o, w, x, y, i) == ReadFrom(sc, p, w, x, y, i)
    decreases Below(sc.forest, w), 1, |o[w]| - i
  {
    hide ChildRead, Covering, SceneInv, IsOrder, Below, Screen.Pixel;
    assert OnChain(sc.forest, w, w) by { assert Up(sc.forest, Some(w), 0) == Some(w); }
    OrderOf(sc, p, w);
    assert o[w] == p[w];
    if i == |o[w]| {
    } else {
      ReadFromBelow(sc, o, p, w, x, y, i + 1);
      if Covering(sc, w, o[w][i], x, y) {
        ChildReadBelow(sc, o, p, w, o[w][i], x, y);
      }
    }
  }

  lemma {:induction false} ChildReadBelow<W, G>(sc: Scene<W, G>, o: Order<W, G>, p: Order<W, G>, w: W,
                                                c: Child<W, G>, x: int, y: int)
    requires SceneInv(sc) && IsOrder(sc, o) && IsOrder(sc, p) && Covering(sc, w, c, x, y)
    requires c.WindowChild? ==> AgreeBelow(sc, o, p, c.window) || AgreeBelow(sc, o, p, w)
    ensures ChildRead(sc, o, w, c, x, y) == ChildRead(sc, p, w, c, x, y)
    decreases Below(sc.forest, w), 0
  {
    hide ReadFrom, Covering, SceneInv, Below, IsOrder, OnChain, PaintSource.Led;
    CoveringIsListed(sc, w, c, x, y);
    if c.WindowChild? {
      var at := sc.forest.children[w][c];
      StepDown(sc, w, c.window, x, y);
      OrderOf(sc, o, c.window);
      SameKeys(sc, o, p);
      forall u | u in o && OnChain(sc.forest, u, c.window)
        ensures o[u] == p[u]
      {
        ChildOffChain(sc.forest, u, w, c.window);
      }
      ReadFromBelow(sc, o, p, c.window, x - at.x, y - at.y, 0);
    }
  }

  /** No window is below two children of the same window. */
  lemma SiblingsShareNothing<W, G>(f: Forest<W, G>, u: W, v: W, v': W)
    requires Inv(f) && v in f.parent && v' in f.parent && v != v' && f.parent[v].Some? && f.parent[v] == f.parent[v']
    ensures !(OnChain(f, u, v) && OnChain(f, u, v'))
  {
    if OnChain(f, u, v) && OnChain(f, u, v') {
      var j: nat :| Up(f, Some(u), j) == Some(v);
      var k: nat :| Up(f, Some(u), k) == Some(v');
      if j < k {
        LaterSibling(f, u, v, v', j, k);
      } else {
        LaterSibling(f, u, v', v, k, j);
      }
    }
  }

  lemma LaterSibling<W, G>(f: Forest<W, G>, u: W, v: W, v': W, j: nat, k: nat)
    requires Inv(f) && v in f.parent && v' in f.parent && f.parent[v].Some? && f.parent[v] == f.parent[v']
    requires Up(f, Some(u), j) == Some(v) && Up(f, Some(u), k) == Some(v') && j <= k
    ensures v == v'
  {
    hide Inv;
    UpSum(f, Some(u), j, k - j);
    if k > j {
      assert Up(f, Some(v'), k - j) == Up(f, f.parent[v'], k - j - 1);
      assert Up(f, Some(v), k - j) == Up(f, f.parent[v], k - j - 1);
      NoWindowAboveItself(f, v', k - j);
    }
  }

  /** Order o, except at window v and below, where it is q. */
  ghost function Merged<W, G>(sc: Scene<W, G>, o: Order<W, G>, q: Order<W, G>, v: W)
    : (m: Order<W, G>)
    requires IsOrder(sc, o) && IsOrder(sc, q)
    ensures IsOrder(sc, m) && AgreeBelow(sc, m, q, v)
  {
    map u | u in o :: if OnChain(sc.forest, u, v) then q[u] else o[u]
  }

  /** An order that visits c first at w. */
  ghost function Visiting<W, G>(sc: Scene<W, G>, o: Order<W, G>, w: W, c: Child<W, G>)
    : (m: Order<W, G>)
    requires IsOrder(sc, o) && Lists(sc.forest, w, c)
    ensures IsOrder(sc, m) && m[w][0] == c && |m[w]| > 0
  {
    o[w := [c] + Enumeration(sc.forest.children[w].Keys - {c})]
  }

  /** Child c covers the point and can be read as r, which is passed on. */
  ghost predicate Offers<W, G>(sc: Scene<W, G>, w: W, c: Child<W, G>, x: int, y: int, r: LedResult)
    requires SceneInv(sc) && w in sc.screens
  {
    Covering(sc, w, c, x, y) && ChildCanShow(sc, w, c, x, y, r) && Accepts(sc.screens[w], r)
  }

  /** Whatever can be shown is read under some order. */
  lemma {:induction false} Realize<W, G>(sc: Scene<W, G>, w: W, x: int, y: int, r: LedResult)
    returns (o: Order<W, G>)
    requires SceneInv(sc) && w in sc.screens && sc.screens[w].layout.Holds(x, y) && CanShow(sc, w, x, y, r)
    ensures IsOrder(sc, o) && Read(sc, o, w, x, y) == r
    decreases Below(sc.forest, w), 1
  {
    hide ChildRead, ReadFrom, Covering, SceneInv, ChildCanShow, Below, IsOrder, Screen.Pixel, Visiting;
    OrderOf(sc, AnyOrder(sc), w);
    if c :| c in sc.forest.children[w] && Offers(sc, w, c, x, y, r) {
      var p := RealizeChild(sc, w, c, x, y, r);
      o := Visiting(sc, p, w, c);
      VisitingReads(sc, p, w, c, x, y, r);
    } else {
      var back := Shown(sc.screens[w].back);
      var covering := set c | c in sc.forest.children[w] && Covering(sc, w, c, x, y);
      o := RealizeAll(sc, w, x, y, covering, back);
      OrderOf(sc, o, w);
      ReadEnds(sc, o, w, x, y, 0);
      ReadIsFrom(sc, o, w, x, y);
    }
  }

  lemma VisitingReads<W, G>(sc: Scene<W, G>, p: Order<W, G>, w: W, c: Child<W, G>, x: int, y: int,
                            r: LedResult)
    requires SceneInv(sc) && IsOrder(sc, p) && w in sc.screens && sc.screens[w].layout.Holds(x, y)
    requires Covering(sc, w, c, x, y) && Lists(sc.forest, w, c)
    requires ChildRead(sc, p, w, c, x, y) == r && Accepts(sc.screens[w], r)
    ensures Read(sc, Visiting(sc, p, w, c), w, x, y) == r
  {
    hide ChildRead, Covering, SceneInv, Below, IsOrder;
    var o := Visiting(sc, p, w, c);
    if c.WindowChild? {
      StepDown(sc, w, c.window, x, y);
      InvOf(sc);
      ParentOffChild(sc.forest, w, c.window);
      forall u | u in o && OnChain(sc.forest, u, c.window)
        ensures o[u] == p[u]
      {
      }
    }
    ChildReadBelow(sc, o, p, w, c, x, y);
    ReadIsFrom(sc, o, w, x, y);
  }

  lemma {:induction false} RealizeChild<W, G>(sc: Scene<W, G>, w: W, c: Child<W, G>, x: int, y: int, r: LedResult)
    returns (o: Order<W, G>)
    requires SceneInv(sc) && Covering(sc, w, c, x, y) && ChildCanShow(sc, w, c, x, y, r)
    ensures IsOrder(sc, o) && ChildRead(sc, o, w, c, x, y) == r
    decreases Below(sc.forest, w), 0, 0
  {
    hide CanShow, ReadFrom, Read, Covering, SceneInv, ChildCanShow, Below, IsOrder, PaintSource.Led;
    CoveringIsListed(sc, w, c, x, y);
    var at := sc.forest.children[w][c];
    match c
    case WindowChild(v) =>
      StepDown(sc, w, v, x, y);
      ShowsWindow(sc, w, v, x, y, r);
      o := Realize(sc, v, x - at.x, y - at.y, r);
      ReadIsFrom(sc, o, v, x - at.x, y - at.y);
    case SourceChild(g) =>
      ShowsPicture(sc, w, g, x, y, r);
      o := AnyOrder(sc);
  }

  /** Children that can each be read as r can be so under one order. */
  lemma {:induction false} RealizeAll<W, G>(sc: Scene<W, G>, w: W, x: int, y: int, cs: set<Child<W, G>>, r: LedResult)
    returns (o: Order<W, G>)
    requires SceneInv(sc)
    requires forall c :: c in cs ==> Covering(sc, w, c, x, y) && ChildCanShow(sc, w, c, x, y, r)
    ensures IsOrder(sc, o)
    ensures forall c :: c in cs ==> ChildRead(sc, o, w, c, x, y) == r
    decreases Below(sc.forest, w), 0, |cs| + 1
  {
    hide ChildRead, Covering, SceneInv, ChildCanShow, Below, IsOrder, Merged;
    if cs == {} {
      o := AnyOrder(sc);
    } else {
      var c :| c in cs;
      var p := RealizeAll(sc, w, x, y, cs - {c}, r);
      var q := RealizeChild(sc, w, c, x, y, r);
      o := if c.WindowChild? then Merged(sc, p, q, c.window) else p;
      forall d | d in cs
        ensures ChildRead(sc, o, w, d, x, y) == r
      {
        MergedReads(sc, p, q, w, c, d, x, y);
      }
    }
  }

  lemma MergedReads<W, G>(sc: Scene<W, G>, p: Order<W, G>, q: Order<W, G>, w: W,
                          c: Child<W, G>, d: Child<W, G>, x: int, y: int)
    requires SceneInv(sc) && IsOrder(sc, p) && IsOrder(sc, q) && Covering(sc, w, c, x, y) && Covering(sc, w, d, x, y)
    ensures var o := if c.WindowChild? then Merged(sc, p, q, c.window) else p;
      ChildRead(sc, o, w, d, x, y) == ChildRead(sc, if d == c then q else p, w, d, x, y)
  {
    hide ReadFrom, Covering, SceneInv, Below, IsOrder, OnChain, PaintSource.Led;
    if c.WindowChild? {
      var o := Merged(sc, p, q, c.window);
      StepDown(sc, w, c.window, x, y);
      if d.WindowChild? && d != c {
        StepDown(sc, w, d.window, x, y);
        InvOf(sc);
        forall u | u in o && OnChain(sc.forest, u, d.window)
          ensures o[u] == p[u]
        {
          SiblingsShareNothing(sc.forest, u, c.window, d.window);
        }
      }
      ChildReadBelow(sc, o, if d == c then q else p, w, d, x, y);
    }
  }

  /** CanShow is exactly what the visiting orders read. */
  lemma OrdersReadExactly<W, G>(sc: Scene<W, G>, w: W, x: int, y: int, r: LedResult)
    requires SceneInv(sc) && w in sc.screens && sc.screens[w].layout.Holds(x, y)
    ensures CanShow(sc, w, x, y, r) <==> exists o :: IsOrder(sc, o) && Read(sc, o, w, x, y) == r
  {
    hide CanShow, IsOrder, Read, SceneInv;
    if CanShow(sc, w, x, y, r) {
      var o := Realize(sc, w, x, y, r);
      assert IsOrder(sc, o) && Read(sc, o, w, x, y) == r;
    }
    forall o | IsOrder(sc, o)
      ensures CanShow(sc, w, x, y, Read(sc, o, w, x, y))
    {
      ReadCanShow(sc, o, w, x, y);
    }
  }

  /** When children do not overlap at w and below, every order reads the painter's
      picture. */
  lemma EveryOrderReadsPainted<W, G>(sc: Scene<W, G>, o: Order<W, G>, w: W, x: int, y: int)
    requires SceneInv(sc) && w in sc.screens && sc.screens[w].layout.Holds(x, y) && ChildrenApart(sc, w)
    requires IsOrder(sc, o)
    ensures Read(sc, o, w, x, y) == Painted(sc, w, x, y)
  {
    hide CanShow, IsOrder, Read, SceneInv, Painted, ChildrenApart;
    ReadCanShow(sc, o, w, x, y);
    EveryOrderShowsPainted(sc, w, x, y, Read(sc, o, w, x, y));
  }

  /** Some order throws exactly if a covering glyph, at whatever level, is outside its
      font. */
  lemma OrdersThrowIff<W, G>(sc: Scene<W, G>, w: W, x: int, y: int)
    requires SceneInv(sc) && w in sc.screens && sc.screens[w].layout.Holds(x, y)
    ensures (exists o :: IsOrder(sc, o) && Read(sc, o, w, x, y) == OutOfRange) <==> MayThrow(sc, w, x, y)
  {
    hide CanShow, IsOrder, Read, SceneInv, MayThrow;
    OrdersReadExactly(sc, w, x, y, OutOfRange);
    MayThrowIff(sc, w, x, y);
  }

  /** Child c covers the point and its colour is accepted. */
  ghost predicate Passes<W, G>(sc: Scene<W, G>, o: Order<W, G>, w: W, c: Child<W, G>, x: int, y: int)
    requires SceneInv(sc) && IsOrder(sc, o) && w in sc.screens
  {
    Covering(sc, w, c, x, y) && Accepts(sc.screens[w], ChildRead(sc, o, w, c, x, y))
  }

  lemma ReadOnce<W, G>(sc: Scene<W, G>, o: Order<W, G>, w: W, x: int, y: int, i: nat)
    requires SceneInv(sc) && IsOrder(sc, o) && w in o && w in sc.screens && sc.screens[w].layout.Holds(x, y)
    requires i <= |o[w]|
    ensures ReadFrom(sc, o, w, x, y, i) ==
      if i == |o[w]| then Shown(sc.screens[w].Pixel(x, y))
      else if Passes(sc, o, w, o[w][i], x, y) then ChildRead(sc, o, w, o[w][i], x, y)
      else ReadFrom(sc, o, w, x, y, i + 1)
  {
    hide SceneInv, IsOrder, ChildRead, Covering, Screen.Pixel;
  }

  /** The i-th child is the first one that passes, or i is the end and none does. */
  ghost predicate FirstPass<W, G>(sc: Scene<W, G>, o: Order<W, G>, w: W, x: int, y: int, i: nat)
    requires SceneInv(sc) && IsOrder(sc, o) && w in o && w in sc.screens
  {
    && i <= |o[w]|
    && (forall j :: 0 <= j < i ==> !Passes(sc, o, w, o[w][j], x, y))
    && (i < |o[w]| ==> Passes(sc, o, w, o[w][i], x, y))
  }

  lemma {:induction false} FrontFrom<W, G>(sc: Scene<W, G>, o: Order<W, G>, w: W, x: int, y: int, i: nat)
    returns (f: nat)
    requires SceneInv(sc) && IsOrder(sc, o) && w in o && w in sc.screens && sc.screens[w].layout.Holds(x, y)
    requires i <= |o[w]| && forall j :: 0 <= j < i ==> !Passes(sc, o, w, o[w][j], x, y)
    ensures FirstPass(sc, o, w, x, y, f)
    ensures ReadFrom(sc, o, w, x, y, i)
      == if f == |o[w]| then Shown(sc.screens[w].Pixel(x, y)) else ChildRead(sc, o, w, o[w][f], x, y)
    decreases |o[w]| - i
  {
    hide Inv, IsOrder, ReadFrom, ChildRead, Passes, Screen.Pixel;
    ReadOnce(sc, o, w, x, y, i);
    if i == |o[w]| || Passes(sc, o, w, o[w][i], x, y) {
      f := i;
    } else {
      f := FrontFrom(sc, o, w, x, y, i + 1);
    }
  }

  /** The loop's rule, also where children overlap: the first covering child whose colour is
      accepted is what is read, and the window's own pixel exactly when there is none. */
  lemma ReadFront<W, G>(sc: Scene<W, G>, o: Order<W, G>, w: W, x: int, y: int) returns (f: nat)
    requires SceneInv(sc) && IsOrder(sc, o) && w in sc.screens && sc.screens[w].layout.Holds(x, y)
    ensures w in o && FirstPass(sc, o, w, x, y, f)
    ensures Read(sc, o, w, x, y)
      == if f == |o[w]| then Shown(sc.screens[w].Pixel(x, y)) else ChildRead(sc, o, w, o[w][f], x, y)
  {
    hide Inv, IsOrder, ReadFrom, ChildRead, Passes, Screen.Pixel;
    ReadIsFrom(sc, o, w, x, y);
    f := FrontFrom(sc, o, w, x, y, 0);
  }

  // ---------------------------------------------------------------- when all orders agree

  /** All accepted colours of the covering children are the same one. */
  ghost predicate AcceptedAgree<W, G>(sc: Scene<W, G>, w: W, x: int, y: int)
    requires SceneInv(sc) && w in sc.screens && w in sc.forest.children
  {
    forall c, d, q, r :: c in sc.forest.children[w] && d in sc.forest.children[w] ==>
      (Offers(sc, w, c, x, y, q) && Offers(sc, w, d, x, y, r) ==> q == r)
  }

  /** Under some order below, each covering child alone is seen through. */
  ghost predicate SeenThrough<W, G>(sc: Scene<W, G>, w: W, x: int, y: int)
    requires SceneInv(sc) && w in sc.screens && w in sc.forest.children
  {
    var back := Shown(sc.screens[w].back);
    forall c :: c in sc.forest.children[w] && Covering(sc, w, c, x, y) ==>
      !Accepts(sc.screens[w], back) && ChildCanShow(sc, w, c, x, y, back)
  }

  /** r is the only colour that a covering child passes on. */
  ghost predicate OffersOnly<W, G>(sc: Scene<W, G>, w: W, x: int, y: int, r: LedResult)
    requires SceneInv(sc) && w in sc.screens && w in sc.forest.children
  {
    forall c, q :: c in sc.forest.children[w] ==> (Offers(sc, w, c, x, y, q) ==> q == r)
  }

  lemma CanShowCases<W, G>(sc: Scene<W, G>, w: W, x: int, y: int, r: LedResult)
    requires SceneInv(sc) && w in sc.screens && sc.screens[w].layout.Holds(x, y) && w in sc.forest.children
    ensures CanShow(sc, w, x, y, r) <==>
      || (exists c :: c in sc.forest.children[w] && Offers(sc, w, c, x, y, r))
      || (r == Shown(sc.screens[w].Pixel(x, y)) && SeenThrough(sc, w, x, y))
  {
    hide SceneInv, Covering, ChildCanShow, Screen.Pixel, Below;
  }

  /** One accepted colour at most, and the window's own if it can show through. */
  ghost predicate OneColor<W, G>(sc: Scene<W, G>, w: W, x: int, y: int)
    requires SceneInv(sc) && w in sc.screens && sc.screens[w].layout.Holds(x, y) && w in sc.forest.children
  {
    && AcceptedAgree(sc, w, x, y)
    && (SeenThrough(sc, w, x, y) ==> OffersOnly(sc, w, x, y, Shown(sc.screens[w].Pixel(x, y))))
  }

  lemma OneColorShowsOne<W, G>(sc: Scene<W, G>, w: W, x: int, y: int, q: LedResult, r: LedResult)
    requires SceneInv(sc) && w in sc.screens && sc.screens[w].layout.Holds(x, y) && w in sc.forest.children
    requires OneColor(sc, w, x, y) && CanShow(sc, w, x, y, q) && CanShow(sc, w, x, y, r)
    ensures q == r
  {
    hide CanShow, Inv, Covering, Offers, SeenThrough, Screen.Pixel;
    CanShowCases(sc, w, x, y, q);
    CanShowCases(sc, w, x, y, r);
  }

  lemma OneShownIsOneColor<W, G>(sc: Scene<W, G>, w: W, x: int, y: int)
    requires SceneInv(sc) && w in sc.screens && sc.screens[w].layout.Holds(x, y) && w in sc.forest.children
    requires forall q, r :: CanShow(sc, w, x, y, q) && CanShow(sc, w, x, y, r) ==> q == r
    ensures OneColor(sc, w, x, y)
  {
    hide CanShow, Inv, Covering, Offers, SeenThrough, Screen.Pixel;
    var own := Shown(sc.screens[w].Pixel(x, y));
    CanShowCases(sc, w, x, y, own);
    forall c, r | c in sc.forest.children[w] && Offers(sc, w, c, x, y, r)
      ensures CanShow(sc, w, x, y, r)
    {
      CanShowCases(sc, w, x, y, r);
    }
  }

  /** All visiting orders read the same at (x, y) of w exactly if the covering children have
      at most one accepted colour among them and, where all of them can also be seen
      through, it is the window's own. */
  lemma OrdersAgreeIff<W, G>(sc: Scene<W, G>, w: W, x: int, y: int)
    requires SceneInv(sc) && w in sc.screens && sc.screens[w].layout.Holds(x, y) && w in sc.forest.children
    ensures (forall o, p :: IsOrder(sc, o) && IsOrder(sc, p) ==> Read(sc, o, w, x, y) == Read(sc, p, w, x, y))
      <==> OneColor(sc, w, x, y)
  {
    hide CanShow, IsOrder, Read, SceneInv, OneColor;
    if OneColor(sc, w, x, y) {
      forall o, p | IsOrder(sc, o) && IsOrder(sc, p)
        ensures Read(sc, o, w, x, y) == Read(sc, p, w, x, y)
      {
        ReadCanShow(sc, o, w, x, y);
        ReadCanShow(sc, p, w, x, y);
        OneColorShowsOne(sc, w, x, y, Read(sc, o, w, x, y), Read(sc, p, w, x, y));
      }
    }
    if forall o, p :: IsOrder(sc, o) && IsOrder(sc, p) ==> Read(sc, o, w, x, y) == Read(sc, p, w, x, y) {
      forall q, r | CanShow(sc, w, x, y, q) && CanShow(sc, w, x, y, r)
        ensures q == r
      {
        var o := Realize(sc, w, x, y, q);
        var p := Realize(sc, w, x, y, r);
        assert Read(sc, o, w, x, y) == Read(sc, p, w, x, y);
      }
      OneShownIsOneColor(sc, w, x, y);
    }
  }

  /** Child c can be read as one colour only, whatever the order below it. */
  ghost predicate Settled<W, G>(sc: Scene<W, G>, w: W, c: Child<W, G>, x: int, y: int)
    requires SceneInv(sc) && Covering(sc, w, c, x, y)
  {
    forall q, r :: ChildCanShow(sc, w, c, x, y, q) && ChildCanShow(sc, w, c, x, y, r) ==> q == r
  }

  lemma SettledSeenThrough<W, G>(sc: Scene<W, G>, w: W, c: Child<W, G>, x: int, y: int, r: LedResult)
    requires SceneInv(sc) && w in sc.screens && Covering(sc, w, c, x, y) && Settled(sc, w, c, x, y)
    requires var back := Shown(sc.screens[w].back);
      !Accepts(sc.screens[w], back) && ChildCanShow(sc, w, c, x, y, back)
    ensures !Offers(sc, w, c, x, y, r)
  {
    hide SceneInv, Covering, ChildCanShow;
  }

  /** Where no covering child depends on the order itself, all orders read the same exactly
      if the covering children with an accepted colour show the same one. */
  lemma OrdersAgreeIffAccepted<W, G>(sc: Scene<W, G>, w: W, x: int, y: int)
    requires SceneInv(sc) && w in sc.screens && sc.screens[w].layout.Holds(x, y) && w in sc.forest.children
    requires forall c :: c in sc.forest.children[w] && Covering(sc, w, c, x, y) ==> Settled(sc, w, c, x, y)
    ensures (forall o, p :: IsOrder(sc, o) && IsOrder(sc, p) ==> Read(sc, o, w, x, y) == Read(sc, p, w, x, y))
      <==> AcceptedAgree(sc, w, x, y)
  {
    hide CanShow, IsOrder, Read, SceneInv, AcceptedAgree, Covering, ChildCanShow, Screen.Pixel;
    OrdersAgreeIff(sc, w, x, y);
    if SeenThrough(sc, w, x, y) {
      forall c, r | c in sc.forest.children[w]
        ensures !Offers(sc, w, c, x, y, r)
      {
        if Covering(sc, w, c, x, y) {
          SettledSeenThrough(sc, w, c, x, y, r);
        }
      }
    }
  }
}
