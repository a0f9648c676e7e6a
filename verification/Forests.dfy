/** The links between windows as values: each window's parent pointer and its map of
    children, and what construction, add, remove, move and destruction do to them.
    The windows themselves are identities of type W, other sources of type G. */
module Forests {
  import opened Options

  datatype Child<W, G> = WindowChild(window: W) | SourceChild(source: G)

  datatype Position = Position(x: int, y: int)

  datatype Forest<W, G(==)> = Forest(parent: map<W, Option<W>>, children: map<W, map<Child<W, G>, Position>>)

  /** The k-th window up the parent chain of w, if the chain is that long. */
  ghost function Up<W, G>(f: Forest<W, G>, w: Option<W>, k: nat): Option<W>
    decreases k
  {
    if w.None? || k == 0 then w
    else if w.value !in f.parent then None
    else Up(f, f.parent[w.value], k - 1)
  }

  /** a is w itself or an ancestor of w. */
  ghost predicate OnChain<W, G>(f: Forest<W, G>, w: W, a: W) {
    exists k: nat :: Up(f, Some(w), k) == Some(a)
  }

  ghost predicate ChainEnds<W, G>(f: Forest<W, G>, w: W) {
    exists k: nat :: Up(f, Some(w), k) == None
  }

  ghost predicate Lists<W, G>(f: Forest<W, G>, p: W, c: Child<W, G>) {
    p in f.children && c in f.children[p]
  }

  /** A listed window has the lister as its parent, and parents are live. */
  ghost predicate LinksAgree<W, G>(f: Forest<W, G>) {
    && f.children.Keys == f.parent.Keys
    && (forall w :: w in f.parent && f.parent[w].Some? ==> f.parent[w].value in f.parent)
    && (forall p, c :: p in f.children && c in f.children[p] && c.WindowChild? ==>
          c.window in f.parent && f.parent[c.window] == Some(p))
  }

  /** The tree invariant: the links agree and every parent chain ends. */
  ghost predicate Inv<W, G>(f: Forest<W, G>) {
    LinksAgree(f) && forall w :: w in f.parent ==> ChainEnds(f, w)
  }

  // ---------------------------------------------------------------- the operations

  ghost function Entered<W, G>(f: Forest<W, G>, p: W, c: Child<W, G>, at: Position): Forest<W, G>
    requires p in f.children
  {
    f.(children := f.children[p := f.children[p][c := at]])
  }

  /** p.remove(c): the entry goes, and a window loses its parent whoever that was. */
  ghost function Removed<W, G>(f: Forest<W, G>, p: W, c: Child<W, G>): Forest<W, G>
    requires p in f.children
  {
    f.(children := f.children[p := f.children[p] - {c}],
       parent := if c.WindowChild? then f.parent[c.window := None] else f.parent)
  }

  /** p.add(c, at): the entry is written first, then a window is removed from its old
      parent, which may be p itself. */
  ghost function Added<W, G>(f: Forest<W, G>, p: W, c: Child<W, G>, at: Position): Forest<W, G>
    requires p in f.children
    requires c.WindowChild? && c.window in f.parent && f.parent[c.window].Some?
      ==> f.parent[c.window].value in f.children
  {
    var entered := Entered(f, p, c, at);
    if c.SourceChild? then entered
    else
      var detached := if c.window in f.parent && f.parent[c.window].Some?
                      then Removed(entered, f.parent[c.window].value, c) else entered;
      detached.(parent := detached.parent[c.window := Some(p)])
  }

  /** w.move(at): writes w's entry in its parent, if it has one. */
  ghost function Moved<W, G>(f: Forest<W, G>, w: W, at: Position): Forest<W, G>
    requires w in f.parent && (f.parent[w].Some? ==> f.parent[w].value in f.children)
  {
    if f.parent[w].Some? then Entered(f, f.parent[w].value, WindowChild(w), at) else f
  }

  /** Construction, with the optional add to a parent. */
  ghost function Created<W, G>(f: Forest<W, G>, w: W, parent: Option<W>, at: Position): Forest<W, G>
    requires w !in f.parent && (parent.Some? ==> parent.value in f.children)
  {
    var born := Forest(f.parent[w := None], f.children[w := map[]]);
    if parent.Some? then Added(born, parent.value, WindowChild(w), at) else born
  }

  lemma CreatedParts<W, G>(f: Forest<W, G>, w: W, at: Position)
    requires w !in f.parent
    ensures var born := Forest(f.parent[w := None], f.children[w := map[]]);
      && Created(f, w, None, at) == born
      && forall p :: p in f.children ==> Created(f, w, Some(p), at) == Added(born, p, WindowChild(w), at)
  {
    hide Added;
  }

  /** Destruction: the window leaves its parent, and its own map goes with it. */
  ghost function Destroyed<W, G>(f: Forest<W, G>, w: W): Forest<W, G>
    requires w in f.parent && (f.parent[w].Some? ==> f.parent[w].value in f.children)
  {
    var detached := if f.parent[w].Some? then Removed(f, f.parent[w].value, WindowChild(w)) else f;
    Forest(detached.parent - {w}, detached.children - {w})
  }

  datatype Step<W, G> =
    | Create(window: W, parent: Option<W>, at: Position)
    | Add(window: W, child: Child<W, G>, at: Position)
    | Remove(window: W, child: Child<W, G>)
    | Move(window: W, at: Position)
    | Destroy(window: W)

  /** The windows a step names are live, or new when it creates one. */
  ghost predicate Possible<W, G>(f: Forest<W, G>, step: Step<W, G>) {
    match step
    case Create(w, parent, _) => w !in f.parent && (parent.Some? ==> parent.value in f.parent)
    case Add(p, c, _) => p in f.parent && (c.WindowChild? ==> c.window in f.parent)
    case Remove(p, c) => p in f.parent && (c.WindowChild? ==> c.window in f.parent)
    case Move(w, _) => w in f.parent
    case Destroy(w) => w in f.parent
  }

  ghost function Next<W, G>(f: Forest<W, G>, step: Step<W, G>): Forest<W, G>
    requires Inv(f) && Possible(f, step)
  {
    match step
    case Create(w, parent, at) => Created(f, w, parent, at)
    case Add(p, c, at) => Added(f, p, c, at)
    case Remove(p, c) => Removed(f, p, c)
    case Move(w, at) => Moved(f, w, at)
    case Destroy(w) => Destroyed(f, w)
  }

  /** What a caller has to check: no window is added under itself or a descendant, only
      an own, unparented or unlisted window is removed, and no window still points at
      the one destroyed. */
  ghost predicate Safe<W, G>(f: Forest<W, G>, step: Step<W, G>)
    requires Inv(f) && Possible(f, step)
  {
    match step
    case Create(_, _, _) => true
    case Add(p, c, _) => c.WindowChild? ==> !OnChain(f, p, c.window)
    case Remove(p, c) => c.WindowChild? && f.parent[c.window].Some? && f.parent[c.window] != Some(p)
      ==> !Lists(f, f.parent[c.window].value, c)
    case Move(_, _) => true
    case Destroy(w) => forall v :: v in f.parent && v != w ==> f.parent[v] != Some(w)
  }

  // ---------------------------------------------------------------- parent chains

  /** Windows whose chain avoids c keep it when c gets another parent. */
  lemma {:induction false} SameChain<W, G>(f: Forest<W, G>, g: Forest<W, G>, c: W, w: Option<W>, k: nat)
    requires f.parent.Keys == g.parent.Keys
    requires forall v :: v in f.parent && v != c ==> g.parent[v] == f.parent[v]
    requires forall j: nat :: j < k ==> Up(f, w, j) != Some(c)
    ensures Up(g, w, k) == Up(f, w, k)
    decreases k
  {
    if k == 0 || w.None? || w.value !in f.parent {
    } else {
      assert Up(f, w, 0) == w;
      forall j: nat | j < k - 1
        ensures Up(f, f.parent[w.value], j) != Some(c)
      {
        assert Up(f, w, j + 1) == Up(f, f.parent[w.value], j);
      }
      SameChain(f, g, c, f.parent[w.value], k - 1);
    }
  }

  /** A chain that ends still ends after c got another parent whose own chain ends. */
  lemma {:induction false} ChainStillEnds<W, G>(f: Forest<W, G>, g: Forest<W, G>, c: W, n: nat, w: W, k: nat)
    requires f.parent.Keys == g.parent.Keys && c in f.parent
    requires forall v :: v in f.parent && v != c ==> g.parent[v] == f.parent[v]
    requires Up(g, g.parent[c], n) == None
    requires Up(f, Some(w), k) == None
    ensures ChainEnds(g, w)
    decreases k
  {
    if w == c {
      assert Up(g, Some(w), n + 1) == None;
    } else if w !in f.parent || f.parent[w].None? {
      assert Up(g, Some(w), 1) == None;
    } else {
      ChainStillEnds(f, g, c, n, f.parent[w].value, k - 1);
      var m: nat :| Up(g, f.parent[w], m) == None;
      assert Up(g, Some(w), m + 1) == None;
    }
  }

  lemma AllChainsStillEnd<W, G>(f: Forest<W, G>, g: Forest<W, G>, c: W, n: nat)
    requires Inv(f) && f.parent.Keys == g.parent.Keys && c in f.parent
    requires forall v :: v in f.parent && v != c ==> g.parent[v] == f.parent[v]
    requires Up(g, g.parent[c], n) == None
    ensures forall w :: w in g.parent ==> ChainEnds(g, w)
  {
    forall w | w in g.parent
      ensures ChainEnds(g, w)
    {
      var k: nat :| Up(f, Some(w), k) == None;
      ChainStillEnds(f, g, c, n, w, k);
    }
  }

  lemma {:induction false} UpSum<W, G>(f: Forest<W, G>, w: Option<W>, j: nat, k: nat)
    ensures Up(f, w, j + k) == Up(f, Up(f, w, j), k)
    decreases j
  {
    if j == 0 || w.None? || w.value !in f.parent {
    } else {
      UpSum(f, f.parent[w.value], j - 1, k);
    }
  }

  /** A chain that ends never comes back to where it started. */
  lemma {:induction false} EndingChainHasNoCycle<W, G>(f: Forest<W, G>, w: W, m: nat, k: nat)
    requires m > 0 && Up(f, Some(w), m) == Some(w)
    ensures Up(f, Some(w), k) != None
  {
    if k < m {
      UpSum(f, Some(w), k, m - k);
    } else {
      EndingChainHasNoCycle(f, w, m, k - m);
      UpSum(f, Some(w), m, k - m);
    }
  }

  /** No window is its own proper ancestor. */
  lemma NoWindowAboveItself<W, G>(f: Forest<W, G>, w: W, m: nat)
    requires Inv(f) && w in f.parent && m > 0
    ensures Up(f, Some(w), m) != Some(w)
  {
    if Up(f, Some(w), m) == Some(w) {
      var k: nat :| Up(f, Some(w), k) == None;
      EndingChainHasNoCycle(f, w, m, k);
    }
  }

  /** The first time the chain of w meets a. */
  lemma {:induction false} FirstMeeting<W, G>(f: Forest<W, G>, w: W, a: W, k: nat) returns (j: nat)
    requires Up(f, Some(w), k) == Some(a)
    ensures Up(f, Some(w), j) == Some(a) && forall i: nat :: i < j ==> Up(f, Some(w), i) != Some(a)
  {
    if i: nat :| i < k && Up(f, Some(w), i) == Some(a) {
      j := FirstMeeting(f, w, a, i);
    } else {
      j := k;
    }
  }

  lemma {:induction false} ChainStaysLive<W, G>(f: Forest<W, G>, w: W, k: nat)
    requires w in f.parent
    requires forall v :: v in f.parent && f.parent[v].Some? ==> f.parent[v].value in f.parent
    ensures var a := Up(f, Some(w), k); a.Some? ==> a.value in f.parent
    decreases k
  {
    if k == 0 || f.parent[w].None? {
    } else {
      ChainStaysLive(f, f.parent[w].value, k - 1);
    }
  }

  // ---------------------------------------------------------------- one step

  lemma AddedLinks<W, G>(f: Forest<W, G>, p: W, c: W, at: Position)
    requires LinksAgree(f) && p in f.parent && c in f.parent
    ensures var g := Added(f, p, WindowChild(c), at);
      && g.parent == f.parent[c := Some(p)]
      && g.children.Keys == f.children.Keys
      && (forall q :: q in g.children && WindowChild(c) in g.children[q] ==> q == p)
      && (forall q, x :: q in g.children && x in g.children[q] && x != WindowChild(c) ==> x in f.children[q])
  {
  }

  lemma AddKeepsInv<W, G>(f: Forest<W, G>, p: W, c: Child<W, G>, at: Position)
    requires Inv(f) && p in f.parent && (c.WindowChild? ==> c.window in f.parent && !OnChain(f, p, c.window))
    ensures Inv(Added(f, p, c, at))
  {
    if c.WindowChild? {
      AddWindowKeepsInv(f, p, c.window, at);
    } else {
      SameParents(f, Added(f, p, c, at));
    }
  }

  lemma AddKeepsLinks<W, G>(f: Forest<W, G>, p: W, c: W, at: Position)
    requires LinksAgree(f) && p in f.parent && c in f.parent
    ensures LinksAgree(Added(f, p, WindowChild(c), at))
  {
    hide Added;
    AddedLinks(f, p, c, at);
  }

  lemma AddWindowKeepsInv<W, G>(f: Forest<W, G>, p: W, c: W, at: Position)
    requires Inv(f) && p in f.parent && c in f.parent && !OnChain(f, p, c)
    ensures Inv(Added(f, p, WindowChild(c), at))
  {
    hide Added;
    var g := Added(f, p, WindowChild(c), at);
    AddKeepsLinks(f, p, c, at);
    AddedLinks(f, p, c, at);
    var n: nat :| Up(f, Some(p), n) == None;
    SameChain(f, g, c, Some(p), n);
    AllChainsStillEnd(f, g, c, n);
  }

  lemma SameParents<W, G>(f: Forest<W, G>, g: Forest<W, G>)
    requires Inv(f) && g.parent == f.parent
    ensures forall w :: w in g.parent ==> ChainEnds(g, w)
  {
    forall w | w in g.parent
      ensures ChainEnds(g, w)
    {
      var k: nat :| Up(f, Some(w), k) == None;
      SameUp(f, g, Some(w), k);
    }
  }

  lemma {:induction false} SameUp<W, G>(f: Forest<W, G>, g: Forest<W, G>, w: Option<W>, k: nat)
    requires g.parent == f.parent
    ensures Up(g, w, k) == Up(f, w, k)
    decreases k
  {
    if k == 0 || w.None? || w.value !in f.parent {
    } else {
      SameUp(f, g, f.parent[w.value], k - 1);
    }
  }

  /** Adding a window under itself or a descendant closes a cycle. */
  lemma AddBreaksInv<W, G>(f: Forest<W, G>, p: W, c: W, at: Position)
    requires Inv(f) && p in f.parent && c in f.parent && OnChain(f, p, c)
    ensures !Inv(Added(f, p, WindowChild(c), at))
  {
    var g := Added(f, p, WindowChild(c), at);
    var k: nat :| Up(f, Some(p), k) == Some(c);
    var j := FirstMeeting(f, p, c, k);
    SameChain(f, g, c, Some(p), j);
    assert Up(g, Some(c), j + 1) == Up(g, Some(p), j) == Some(c);
    if Inv(g) {
      NoWindowAboveItself(g, c, j + 1);
    }
  }

  lemma RemoveKeepsInv<W, G>(f: Forest<W, G>, p: W, c: Child<W, G>)
    requires Inv(f) && Possible(f, Remove(p, c)) && Safe(f, Remove(p, c))
    ensures Inv(Removed(f, p, c))
  {
    var g := Removed(f, p, c);
    if c.WindowChild? {
      assert Up(g, g.parent[c.window], 0) == None;
      AllChainsStillEnd(f, g, c.window, 0);
    } else {
      SameParents(f, g);
    }
  }

  lemma RemoveBreaksInv<W, G>(f: Forest<W, G>, p: W, c: Child<W, G>)
    requires Inv(f) && Possible(f, Remove(p, c)) && !Safe(f, Remove(p, c))
    ensures !Inv(Removed(f, p, c))
  {
    assert Lists(Removed(f, p, c), f.parent[c.window].value, c);
  }

  lemma MoveKeepsInv<W, G>(f: Forest<W, G>, w: W, at: Position)
    requires Inv(f) && w in f.parent
    ensures Inv(Moved(f, w, at))
  {
    SameParents(f, Moved(f, w, at));
  }

  lemma CreateKeepsInv<W, G>(f: Forest<W, G>, w: W, parent: Option<W>, at: Position)
    requires Inv(f) && Possible(f, Create(w, parent, at))
    ensures Inv(Created(f, w, parent, at))
  {
    var born := Forest(f.parent[w := None], f.children[w := map[]]);
    forall v | v in born.parent
      ensures ChainEnds(born, v)
    {
      if v == w {
        assert Up(born, Some(v), 1) == None;
      } else {
        var k: nat :| Up(f, Some(v), k) == None;
        ChainAvoids(f, born, w, v, k);
      }
    }
    assert Inv(born);
    if parent.Some? {
      forall k: nat
        ensures Up(born, parent, k) != Some(w)
      {
        ChainAvoids(f, born, w, parent.value, k);
        ChainStaysLive(f, parent.value, k);
      }
      AddKeepsInv(born, parent.value, WindowChild(w), at);
    }
  }

  /** A window that nobody points at is on no other window's chain, whether or not it is
      there. */
  lemma {:induction false} ChainAvoids<W, G>(f: Forest<W, G>, g: Forest<W, G>, w: W, v: W, k: nat)
    requires v != w && v in f.parent && v in g.parent
    requires forall u :: u in f.parent && u != w ==>
      u in g.parent && g.parent[u] == f.parent[u]
      && (f.parent[u].Some? ==> f.parent[u].value in f.parent && f.parent[u].value != w)
    ensures Up(g, Some(v), k) == Up(f, Some(v), k)
    decreases k
  {
    if k == 0 || f.parent[v].None? {
    } else {
      ChainAvoids(f, g, w, f.parent[v].value, k - 1);
    }
  }

  lemma DestroyKeepsInv<W, G>(f: Forest<W, G>, w: W)
    requires Inv(f) && w in f.parent && Safe(f, Destroy(w))
    ensures Inv(Destroyed(f, w))
  {
    var g := Destroyed(f, w);
    forall v | v in g.parent
      ensures ChainEnds(g, v)
    {
      var k: nat :| Up(f, Some(v), k) == None;
      ChainAvoids(f, g, w, v, k);
    }
  }

  lemma DestroyBreaksInv<W, G>(f: Forest<W, G>, w: W)
    requires Inv(f) && w in f.parent && !Safe(f, Destroy(w))
    ensures !Inv(Destroyed(f, w))
  {
    var v :| v in f.parent && v != w && f.parent[v] == Some(w);
    assert Destroyed(f, w).parent[v] == Some(w);
  }

  /** Safe is exactly the condition under which a step keeps the tree invariant. */
  lemma StepKeepsInvIff<W, G>(f: Forest<W, G>, step: Step<W, G>)
    requires Inv(f) && Possible(f, step)
    ensures Inv(Next(f, step)) <==> Safe(f, step)
  {
    hide Inv, Added, Removed, Moved, Created, Destroyed;
    match step
    case Create(w, parent, at) => CreateKeepsInv(f, w, parent, at);
    case Add(p, c, at) =>
      if Safe(f, step) {
        AddKeepsInv(f, p, c, at);
      } else {
        AddBreaksInv(f, p, c.window, at);
      }
    case Remove(p, c) =>
      if Safe(f, step) {
        RemoveKeepsInv(f, p, c);
      } else {
        RemoveBreaksInv(f, p, c);
      }
    case Move(w, at) => MoveKeepsInv(f, w, at);
    case Destroy(w) =>
      if Safe(f, step) {
        DestroyKeepsInv(f, w);
      } else {
        DestroyBreaksInv(f, w);
      }
  }

  // ---------------------------------------------------------------- every entry and every parent

  /** Where q lists c, if it does. */
  ghost function Entry<W, G>(f: Forest<W, G>, q: W, c: Child<W, G>): Option<Position> {
    if Lists(f, q, c) then Some(f.children[q][c]) else None
  }

  /** What one step makes of where q lists c.  A step writes or erases the entries of the
      child it names and leaves every other one alone. */
  ghost function EntryAfter<W, G>(f: Forest<W, G>, step: Step<W, G>, q: W, c: Child<W, G>): Option<Position>
    requires Possible(f, step)
  {
    match step
    case Create(w, parent, at) => if c == WindowChild(w) && parent == Some(q) then Some(at) else Entry(f, q, c)
    case Add(p, d, at) =>
      if c != d then Entry(f, q, c)
      else if c.SourceChild? then if q == p then Some(at) else Entry(f, q, c)
      else if q == p && f.parent[c.window] != Some(p) then Some(at)
      else None
    case Remove(p, d) => if c == d && q == p then None else Entry(f, q, c)
    case Move(w, at) => if c == WindowChild(w) && f.parent[w] == Some(q) then Some(at) else Entry(f, q, c)
    case Destroy(w) => if c == WindowChild(w) || q == w then None else Entry(f, q, c)
  }

  lemma EntriesAfterEnter<W, G>(f: Forest<W, G>, p: W, c: Child<W, G>, at: Position, q: W, d: Child<W, G>)
    requires p in f.children
    ensures Entry(Entered(f, p, c, at), q, d) == if q == p && d == c then Some(at) else Entry(f, q, d)
  {
  }

  lemma EntriesAfterRemove<W, G>(f: Forest<W, G>, p: W, c: Child<W, G>, q: W, d: Child<W, G>)
    requires p in f.children
    ensures Entry(Removed(f, p, c), q, d) == if q == p && d == c then None else Entry(f, q, d)
  {
  }

  lemma EntriesAfterAdd<W, G>(f: Forest<W, G>, p: W, c: W, at: Position, q: W, d: Child<W, G>)
    requires LinksAgree(f) && p in f.parent && c in f.parent
    ensures Entry(Added(f, p, WindowChild(c), at), q, d) ==
      if d != WindowChild(c) then Entry(f, q, d)
      else if q == p && f.parent[c] != Some(p) then Some(at)
      else None
  {
    hide Entered, Removed, Entry;
    var entered := Entered(f, p, WindowChild(c), at);
    EntriesAfterEnter(f, p, WindowChild(c), at, q, d);
    EntryNeedsParent(f, q, d);
    assert entered.children.Keys == f.children.Keys by { EnteredKeys(f, p, WindowChild(c), at); }
    if f.parent[c].Some? {
      EntriesAfterRemove(entered, f.parent[c].value, WindowChild(c), q, d);
      SameEntries(Removed(entered, f.parent[c].value, WindowChild(c)), Added(f, p, WindowChild(c), at), q, d);
    } else {
      SameEntries(entered, Added(f, p, WindowChild(c), at), q, d);
    }
  }

  lemma EnteredKeys<W, G>(f: Forest<W, G>, p: W, c: Child<W, G>, at: Position)
    requires p in f.children
    ensures Entered(f, p, c, at).children.Keys == f.children.Keys && Entered(f, p, c, at).parent == f.parent
  {
  }

  lemma SameEntries<W, G>(f: Forest<W, G>, g: Forest<W, G>, q: W, d: Child<W, G>)
    requires f.children == g.children
    ensures Entry(f, q, d) == Entry(g, q, d)
  {
  }

  lemma EntryNeedsParent<W, G>(f: Forest<W, G>, q: W, d: Child<W, G>)
    requires LinksAgree(f)
    ensures Entry(f, q, d).Some? && d.WindowChild? ==> d.window in f.parent && f.parent[d.window] == Some(q)
  {
  }

  lemma BornLinks<W, G>(f: Forest<W, G>, born: Forest<W, G>, w: W)
    requires LinksAgree(f) && w !in f.parent && born == Forest(f.parent[w := None], f.children[w := map[]])
    ensures LinksAgree(born)
  {
    assert born.children.Keys == born.parent.Keys;
    forall p, c | p in born.children && c in born.children[p] && c.WindowChild?
      ensures c.window in born.parent && born.parent[c.window] == Some(p)
    {
      assert p != w && c in f.children[p];
    }
  }

  lemma BornEntries<W, G>(f: Forest<W, G>, born: Forest<W, G>, w: W, q: W, d: Child<W, G>)
    requires w !in f.children && born.children == f.children[w := map[]]
    ensures Entry(born, q, d) == Entry(f, q, d)
  {
  }

  lemma EntriesAfterCreate<W, G>(f: Forest<W, G>, w: W, parent: Option<W>, at: Position, q: W, d: Child<W, G>)
    requires LinksAgree(f) && Possible(f, Create(w, parent, at))
    ensures Entry(Created(f, w, parent, at), q, d)
      == if d == WindowChild(w) && parent == Some(q) then Some(at) else Entry(f, q, d)
  {
    hide Added, Entry;
    var born := Forest(f.parent[w := None], f.children[w := map[]]);
    CreatedParts(f, w, at);
    BornLinks(f, born, w);
    BornEntries(f, born, w, q, d);
    EntryNeedsParent(f, q, d);
    if parent.Some? {
      hide LinksAgree;
      EntriesAfterAdd(born, parent.value, w, at, q, d);
    }
  }

  lemma EntriesAfterDestroy<W, G>(f: Forest<W, G>, w: W, q: W, d: Child<W, G>)
    requires LinksAgree(f) && w in f.parent
    ensures Entry(Destroyed(f, w), q, d) == if d == WindowChild(w) || q == w then None else Entry(f, q, d)
  {
    hide Removed, Entry;
    EntryNeedsParent(f, q, d);
    if f.parent[w].Some? {
      var detached := Removed(f, f.parent[w].value, WindowChild(w));
      EntriesAfterRemove(f, f.parent[w].value, WindowChild(w), q, d);
      WithoutWindow(detached, Destroyed(f, w), w, q, d);
    } else {
      WithoutWindow(f, Destroyed(f, w), w, q, d);
    }
  }

  lemma WithoutWindow<W, G>(f: Forest<W, G>, g: Forest<W, G>, w: W, q: W, d: Child<W, G>)
    requires g.children == f.children - {w}
    ensures Entry(g, q, d) == if q == w then None else Entry(f, q, d)
  {
  }

  lemma EntriesAfterStep<W, G>(f: Forest<W, G>, step: Step<W, G>, q: W, c: Child<W, G>)
    requires Inv(f) && Possible(f, step)
    ensures Entry(Next(f, step), q, c) == EntryAfter(f, step, q, c)
  {
    hide ChainEnds, Entry, Added, Removed, Created, Destroyed;
    match step
    case Create(w, parent, at) => EntriesAfterCreate(f, w, parent, at, q, c);
    case Add(p, d, at) =>
      if d.WindowChild? {
        EntriesAfterAdd(f, p, d.window, at, q, c);
      } else {
        AddedSource(f, p, d, at);
        EntriesAfterEnter(f, p, d, at, q, c);
      }
    case Remove(p, d) => EntriesAfterRemove(f, p, d, q, c);
    case Move(w, at) =>
      if f.parent[w].Some? {
        EntriesAfterEnter(f, f.parent[w].value, WindowChild(w), at, q, c);
      }
    case Destroy(w) => EntriesAfterDestroy(f, w, q, c);
  }

  lemma AddedSource<W, G>(f: Forest<W, G>, p: W, c: Child<W, G>, at: Position)
    requires p in f.children && c.SourceChild?
    ensures Added(f, p, c, at) == Entered(f, p, c, at)
  {
  }

  /** Of the windows there are, a step changes at most the parent of the one it names. */
  lemma ParentsAfterStep<W, G>(f: Forest<W, G>, step: Step<W, G>, v: W)
    requires Inv(f) && Possible(f, step)
    ensures v in Next(f, step).parent <==> (step.Create? && v == step.window) || (v in f.parent && step != Destroy(v))
    ensures step.Create? && v == step.window ==> Next(f, step).parent[v] == step.parent
    ensures v in f.parent && step != Destroy(v) ==>
      Next(f, step).parent[v] == (if step.Add? && step.child == WindowChild(v) then Some(step.window)
                                  else if step.Remove? && step.child == WindowChild(v) then None
                                  else f.parent[v])
  {
    hide ChainEnds;
    if step.Create? {
      CreatedParts(f, step.window, step.at);
    }
  }

  // ---------------------------------------------------------------- whole runs

  ghost predicate SafeRun<W, G>(f: Forest<W, G>, run: seq<Step<W, G>>)
    requires Inv(f)
    decreases run
  {
    run == [] ||
    (Possible(f, run[0]) && Safe(f, run[0]) &&
     (StepKeepsInvIff(f, run[0]); SafeRun(Next(f, run[0]), run[1..])))
  }

  ghost function Reached<W, G>(f: Forest<W, G>, run: seq<Step<W, G>>): (g: Forest<W, G>)
    requires Inv(f) && SafeRun(f, run)
    ensures Inv(g)
    decreases run
  {
    if run == [] then f
    else StepKeepsInvIff(f, run[0]); Reached(Next(f, run[0]), run[1..])
  }

  ghost function NoWindows<W, G>(): Forest<W, G> {
    Forest(map[], map[])
  }

  /** Over every safe run from nothing, a window is listed by at most one window, which is
      its parent, and no window is its own ancestor. */
  lemma ReachedForestIsATree<W, G>(run: seq<Step<W, G>>, w: W)
    requires SafeRun(NoWindows<W, G>(), run)
    ensures var f := Reached(NoWindows<W, G>(), run);
      && (forall p :: p in f.children && WindowChild(w) in f.children[p] ==> w in f.parent && f.parent[w] == Some(p))
      && (forall p, q :: p in f.children && q in f.children ==>
            (WindowChild(w) in f.children[p] && WindowChild(w) in f.children[q] ==> p == q))
      && (w in f.parent ==> forall m: nat :: m > 0 ==> Up(f, Some(w), m) != Some(w))
  {
    var f := Reached(NoWindows<W, G>(), run);
    forall m: nat | w in f.parent && m > 0
      ensures Up(f, Some(w), m) != Some(w)
    {
      NoWindowAboveItself(f, w, m);
    }
  }

  // ---------------------------------------------------------------- positions

  /** Where x() and y() say that w is. */
  ghost function Where<W, G>(f: Forest<W, G>, w: W): Position
    requires w in f.parent && (f.parent[w].Some? ==> f.parent[w].value in f.children)
  {
    if f.parent[w].Some? && WindowChild(w) in f.children[f.parent[w].value]
    then f.children[f.parent[w].value][WindowChild(w)]
    else Position(0, 0)
  }

  /** A window is where its parent lists it, and at the origin without a parent or an
      entry. */
  lemma WhereIsEntry<W, G>(f: Forest<W, G>, w: W)
    requires Inv(f) && w in f.parent
    ensures f.parent[w] == None ==> Where(f, w) == Position(0, 0)
    ensures forall p :: f.parent[w] == Some(p) ==>
      Where(f, w) == match Entry(f, p, WindowChild(w)) case None => Position(0, 0) case Some(at) => at
  {
    hide ChainEnds;
  }

  /** Adding a window shows it at the given place exactly when it comes from elsewhere:
      adding it again to its own parent takes it out of the picture. */
  lemma AddPlacesIff<W, G>(f: Forest<W, G>, p: W, c: W, at: Position)
    requires Inv(f) && p in f.parent && c in f.parent && !OnChain(f, p, c)
    ensures var g := Added(f, p, WindowChild(c), at);
      && Inv(g) && g.parent[c] == Some(p)
      && (Lists(g, p, WindowChild(c)) <==> f.parent[c] != Some(p))
      && Where(g, c) == if f.parent[c] != Some(p) then at else Position(0, 0)
  {
    AddKeepsInv(f, p, WindowChild(c), at);
  }

  /** Moving a window that has a parent shows it at the given place, also when it was not
      listed before; without a parent nothing happens. */
  lemma MovePlaces<W, G>(f: Forest<W, G>, w: W, at: Position)
    requires Inv(f) && w in f.parent
    ensures var g := Moved(f, w, at);
      && Inv(g) && (f.parent[w].None? ==> g == f)
      && (f.parent[w].Some? ==> Lists(g, f.parent[w].value, WindowChild(w)) && Where(g, w) == at)
  {
    MoveKeepsInv(f, w, at);
  }
}
