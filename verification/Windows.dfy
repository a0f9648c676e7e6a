/** Windows: paint devices with a parent pointer and a map of children, linked and
    unlinked in place. */
module Windows {
  import opened Arithmetic
  import opened Options
  import opened StripIndex
  import opened PaintSources
  import opened Screens
  import opened Drawing
  import opened PaintDevices
  import opened Forests
  import opened Compositing

  /** A paint source other than a window that can be put into one. */
  class Source {
    var picture: PaintSource

    constructor (picture: PaintSource)
      ensures this.picture == picture
    {
      this.picture := picture;
    }
  }

  function ToOption(w: Window?): Option<Window> {
    if w == null then None else Some(w)
  }

  /** The links of a set of windows. */
  ghost function ForestOf(S: set<Window>): Forest<Window, Source>
    reads S
  {
    Forest(map w | w in S :: ToOption(w.parent), map w | w in S :: w.children)
  }

  lemma SameForest(f: Forest<Window, Source>, g: Forest<Window, Source>)
    requires f.parent.Keys == g.parent.Keys && f.children.Keys == g.children.Keys
    requires forall w :: w in f.parent ==> f.parent[w] == g.parent[w]
    requires forall w :: w in f.children ==> f.children[w] == g.children[w]
    ensures f == g
  {
    assert f.parent == g.parent;
    assert f.children == g.children;
  }

  lemma NewbornLinks(S: set<Window>, w: Window)
    requires w !in S && w.parent == null && w.children == map[]
    ensures ForestOf(S).parent.Keys == S && ForestOf(S).children.Keys == S
    ensures var f := ForestOf(S); ForestOf(S + {w}) == Forest(f.parent[w := None], f.children[w := map[]])
  {
    var f := ForestOf(S);
    SameForest(ForestOf(S + {w}), Forest(f.parent[w := None], f.children[w := map[]]));
  }

  /** Parent pointers stay within S. */
  ghost predicate ParentsIn(S: set<Window>)
    reads S
  {
    forall w :: w in S && w.parent != null ==> w.parent in S
  }

  ghost predicate DevicesValid(S: set<Window>)
    reads set w | w in S :: w.device
  {
    forall w :: w in S ==> w.device.Valid()
  }

  ghost function SceneOf(S: set<Window>, sources: set<Source>): Scene<Window, Source>
    reads S, (set w | w in S :: w.device), (set w | w in S :: w.device.leds), sources
    requires DevicesValid(S)
  {
    Scene(ForestOf(S), map w | w in S :: w.device.View(), map g | g in sources :: g.picture)
  }

  lemma SceneAt(S: set<Window>, sources: set<Source>, w: Window)
    requires w in S && DevicesValid(S)
    ensures var sc := SceneOf(S, sources);
      && sc.forest == ForestOf(S) && sc.screens.Keys == S
      && w in sc.forest.children && sc.forest.children[w] == w.children
      && w in sc.screens && sc.screens[w] == w.device.View()
  {
  }

  class Window {
    const device: PaintDevice
    var parent: Window?
    var children: map<Child<Window, Source>, Position>

    /** S holds the windows alive before this one. */
    constructor (width: nat, height: nat, parent: Window?, x: int, y: int, ghost S: set<Window>)
      requires ParentsIn(S) && (parent != null ==> parent in S)
      modifies S
      ensures this !in S && fresh(device) && fresh(device.leds) && device.Valid()
      ensures device.View()
        == Screen(Layout(Vector, width, height, UPRIGHT), false, BLACK, seq(width * height, _ => BLACK))
      ensures ForestOf(S + {this}) == Created(old(ForestOf(S)), this, ToOption(parent), Position(x, y))
    {
      device := new PaintDevice(Vector, width, height, BLACK);
      this.parent := null;
      children := map[];
      new;
      Join(parent, x, y, S);
    }

    /** The end of the constructor: a window without links enters its parent, if it has
        one. */
    method Join(parent: Window?, x: int, y: int, ghost S: set<Window>)
      requires ParentsIn(S) && (parent != null ==> parent in S)
      requires this !in S && this.parent == null && children == map[]
      modifies S + {this}
      ensures ForestOf(S + {this}) == Created(old(ForestOf(S)), this, ToOption(parent), Position(x, y))
    {
      hide Added, ForestOf, Created;
      NewbornLinks(S, this);
      CreatedParts(ForestOf(S), this, Position(x, y));
      if parent != null {
        parent.Add(WindowChild(this), x, y, S + {this});
      }
    }

    /** The entry is written before the window leaves its old parent. */
    method Add(child: Child<Window, Source>, x: int, y: int, ghost S: set<Window>)
      requires this in S && ParentsIn(S) && (child.WindowChild? ==> child.window in S)
      modifies S
      ensures ForestOf(S) == Added(old(ForestOf(S)), this, child, Position(x, y))
    {
      Enter(child, x, y, S);
      if child.WindowChild? {
        var window := child.window;
        if window.parent != null {
          window.parent.Remove(child, S);
        }
        window.SetParent(this, S);
      }
    }

    method Enter(child: Child<Window, Source>, x: int, y: int, ghost S: set<Window>)
      requires this in S
      modifies this`children
      ensures ForestOf(S) == Entered(old(ForestOf(S)), this, child, Position(x, y))
    {
      ghost var f := ForestOf(S);
      children := children[child := Position(x, y)];
      SameForest(ForestOf(S), Entered(f, this, child, Position(x, y)));
    }

    method SetParent(p: Window?, ghost S: set<Window>)
      requires this in S
      modifies this`parent
      ensures ForestOf(S) == old(ForestOf(S)).(parent := old(ForestOf(S)).parent[this := ToOption(p)])
    {
      ghost var f := ForestOf(S);
      parent := p;
      SameForest(ForestOf(S), f.(parent := f.parent[this := ToOption(p)]));
    }

    method Remove(child: Child<Window, Source>, ghost S: set<Window>)
      requires this in S && (child.WindowChild? ==> child.window in S)
      modifies S
      ensures ForestOf(S) == Removed(old(ForestOf(S)), this, child)
    {
      ghost var f := ForestOf(S);
      children := children - {child};
      SameForest(ForestOf(S), f.(children := f.children[this := f.children[this] - {child}]));
      if child.WindowChild? {
        child.window.SetParent(null, S);
      }
    }

    method Move(x: int, y: int, ghost S: set<Window>)
      requires this in S && ParentsIn(S)
      modifies S
      ensures ForestOf(S) == Moved(old(ForestOf(S)), this, Position(x, y))
    {
      if parent != null {
        parent.Enter(WindowChild(this), x, y, S);
      }
    }

    /** The destructor: S - {this} is what remains. */
    method Destroy(ghost S: set<Window>)
      requires this in S && ParentsIn(S)
      modifies S
      ensures ForestOf(S - {this}) == Destroyed(old(ForestOf(S)), this)
    {
      if parent != null {
        parent.Remove(WindowChild(this), S);
      }
    }

    /** The position in the parent, or (0, 0) for a window that is not listed. */
    method Place(ghost S: set<Window>) returns (x: int, y: int)
      requires this in S && ParentsIn(S)
      ensures Position(x, y) == Where(ForestOf(S), this)
    {
      if parent != null {
        if WindowChild(this) in parent.children {
          var at := parent.children[WindowChild(this)];
          return at.x, at.y;
        }
      }
      return 0, 0;
    }

    /** Reads a pixel through the children, in any order.  Ends because each step down
        leaves fewer windows off the parent chain, and asks every child only for a point
        it has. */
    method Led(x: int, y: int, ghost S: set<Window>, ghost sources: set<Source>) returns (r: LedResult)
      requires this in S && DevicesValid(S) && SceneInv(SceneOf(S, sources)) && device.Layout().Holds(x, y)
      ensures CanShow(SceneOf(S, sources), this, x, y, r)
      decreases Below(ForestOf(S), this), 1
    {
      hide SceneInv, Covering, CanShow, ChildCanShow, Screen.Pixel, SceneOf, ForestOf, Below;
      ghost var sc := SceneOf(S, sources);
      SceneAt(S, sources, this);
      var todo := children.Keys;
      while todo != {}
        invariant todo <= children.Keys
        invariant forall c :: c in children.Keys - todo && Covering(sc, this, c, x, y) ==>
          device.transparent && ChildCanShow(sc, this, c, x, y, Shown(device.back))
        decreases todo
      {
        var c :| c in todo;
        var covering := IsCovering(c, x, y, S, sources);
        if covering {
          r := ChildLed(c, x, y, S, sources, sc);
          if r.OutOfRange? || !(device.transparent && r.color == device.back) {
            ShowsChild(sc, this, c, x, y, r);
            return r;
          }
        }
        todo := todo - {c};
      }
      ShowsItself(sc, this, x, y);
      r := OwnLed(x, y);
    }

    /** Reads every pixel through the children. */
    method Compose(ghost S: set<Window>, ghost sources: set<Source>, ghost sc: Scene<Window, Source>)
      returns (bitmap: Bitmap)
      requires this in S && DevicesValid(S) && sc == SceneOf(S, sources) && this in sc.screens && Composable(sc, this)
      ensures Image(bitmap) == Composed(sc, this)
    {
      hide SceneInv, Composable, SceneOf, ForestOf, CanShow, ComposedCell;
      SceneAt(S, sources, this);
      ComposableScene(sc, this);
      var width, height := device.logicWidth, device.logicHeight;
      MonotoneProduct(0, width, height);
      var pixels: seq<LedColor> := [];
      for k := 0 to width * height
        invariant |pixels| == k
        invariant forall j :: 0 <= j < k ==> pixels[j] == ComposedCell(sc, this, j)
      {
        WirePointBounds(Vector, width, height, k);
        var p := WirePoint(Vector, width, k);
        var r := Led(p.x, p.y, S, sources);
        ReadsComposed(sc, this, k, p, r);
        pixels := pixels + [r.color];
      }
      bitmap := BitmapData(width, height, pixels);
    }

    /** Draws this window, as it looks with its children, onto a device outside the tree. */
    method DrawOnto(target: PaintDevice, at: Placement,
                    ghost S: set<Window>, ghost sources: set<Source>, ghost sc: Scene<Window, Source>)
      requires this in S && DevicesValid(S) && sc == SceneOf(S, sources) && this in sc.screens && Composable(sc, this)
      requires target.Valid() && (forall w :: w in S ==> w.device.leds != target.leds)
      requires WritesInside(target.View(), Composed(sc, this), at)
      modifies target.leds
      ensures target.View() == Drawn(old(target.View()), Composed(sc, this), at)
    {
      hide SceneInv, Composable, SceneOf, ForestOf, Composed, Drawn, Written, WritesInside;
      var bitmap := Compose(S, sources, sc);
      WrittenInsideIsDrawn(target.View(), Image(bitmap), at);
      var _ := target.Draw(Image(bitmap), at);
    }

    method OwnLed(x: int, y: int) returns (r: LedResult)
      requires device.Valid() && device.Layout().Holds(x, y)
      ensures r == Shown(device.View().Pixel(x, y))
    {
      ReachesItselfIff(device.Layout(), x, y);
      r := Shown(device.Led(x, y));
    }

    /** The bounds test, against the size the child reports. */
    method IsCovering(c: Child<Window, Source>, x: int, y: int, ghost S: set<Window>, ghost sources: set<Source>)
      returns (covering: bool)
      requires this in S && c in children && DevicesValid(S) && SceneInv(SceneOf(S, sources))
      ensures covering <==> Covering(SceneOf(S, sources), this, c, x, y)
    {
      hide SceneOf, ForestOf;
      ghost var sc := SceneOf(S, sources);
      SceneAt(S, sources, this);
      var at := children[c];
      match c {
        case WindowChild(v) =>
          assert sc.forest.parent[v] == Some(this);
          SceneAt(S, sources, v);
          return at.x <= x < at.x + v.device.logicWidth && at.y <= y < at.y + v.device.logicHeight;
        case SourceChild(g) =>
          assert g in sc.pictures;
          PictureAt(S, sources, g);
          return at.x <= x < at.x + g.picture.Width() && at.y <= y < at.y + g.picture.Height();
      }
    }

    method ChildLed(c: Child<Window, Source>, x: int, y: int,
                    ghost S: set<Window>, ghost sources: set<Source>, ghost sc: Scene<Window, Source>)
      returns (r: LedResult)
      requires this in S && c in children && DevicesValid(S) && sc == SceneOf(S, sources)
      requires SceneInv(sc) && Covering(sc, this, c, x, y)
      ensures ChildCanShow(sc, this, c, x, y, r)
      decreases Below(ForestOf(S), this), 0
    {
      hide SceneInv, Covering, CanShow, ChildCanShow, SceneOf, ForestOf, Below;
      SceneAt(S, sources, this);
      var at := children[c];
      match c {
        case WindowChild(v) =>
          StepDown(sc, this, v, x, y);
          SceneAt(S, sources, v);
          r := v.Led(x - at.x, y - at.y, S, sources);
          ShowsWindow(sc, this, v, x, y, r);
        case SourceChild(g) =>
          r := g.picture.Led(x - at.x, y - at.y);
          ShowsPicture(sc, this, g, x, y, r);
          PictureAt(S, sources, g);
      }
    }
  }

  lemma ReadsComposed(sc: Scene<Window, Source>, w: Window, k: int, p: Point, r: LedResult)
    requires SceneInv(sc) && w in sc.screens && sc.screens[w].layout.Holds(p.x, p.y) && CanShow(sc, w, p.x, p.y, r)
    requires p == WirePoint(Vector, sc.screens[w].layout.LogicalWidth(), k) && Composable(sc, w)
    requires 0 <= k < sc.screens[w].layout.LogicalWidth() * sc.screens[w].layout.LogicalHeight()
    ensures r == Shown(ComposedCell(sc, w, k))
  {
    hide CanShow, Painted, SceneInv, ChildrenApart, Readable;
    ComposableShows(sc, w, p.x, p.y);
    EveryOrderShowsPainted(sc, w, p.x, p.y, r);
  }

  lemma PictureAt(S: set<Window>, sources: set<Source>, g: Source)
    requires DevicesValid(S) && g in SceneOf(S, sources).pictures
    ensures g in sources && SceneOf(S, sources).pictures[g] == g.picture
  {
  }
}
