/**
 The red-black tree of intrusive nodes with parent pointers: what its macros compute.

 A `Mem` is a snapshot of the fields of the nodes.  A `Tree` is the abstract tree, a `Path` the way
 from a subtree up to the root; `Rep` and `PathRep` say that the fields of a snapshot link the nodes
 that way.  The macros that rewrite fields are functions on snapshots, proved here to do to the
 abstract tree what a red-black tree needs; the class in RbTreeHead.dfy runs them on real fields.
 */
module RbTree {

  class Node {
    const key: int
    var left: Node?
    var right: Node?
    var parent: Node?
    var red: bool

    constructor (k: int)
      ensures key == k
    {
      key := k;
    }
  }

  datatype Tree = Nil | Bin(l: Tree, n: Node, red: bool, r: Tree)

  datatype Path =
    | Top
    | InLeft(n: Node, red: bool, r: Tree, up: Path)
    | InRight(l: Tree, n: Node, red: bool, up: Path)

  function Root(t: Tree): Node?
  {
    if t.Nil? then null else t.n
  }

  function Above(p: Path): Node?
  {
    if p.Top? then null else p.n
  }

  /** One step up: the subtree around the hole, its content being `t`. */
  function Up(p: Path, t: Tree): Tree
    requires p != Top
  {
    match p
    case InLeft(n, red, r, _) => Bin(t, n, red, r)
    case InRight(l, n, red, _) => Bin(l, n, red, t)
  }

  function Plug(p: Path, t: Tree): Tree
  {
    if p.Top? then t else Plug(p.up, Up(p, t))
  }

  function Join(q: Path, p: Path): Path
  {
    match q
    case Top => p
    case InLeft(n, red, r, up) => InLeft(n, red, r, Join(up, p))
    case InRight(l, n, red, up) => InRight(l, n, red, Join(up, p))
  }

  // ---------- which nodes ----------

  ghost function Nodes(t: Tree): set<Node>
  {
    match t
    case Nil => {}
    case Bin(l, n, _, r) => Nodes(l) + {n} + Nodes(r)
  }

  ghost function PathNodes(p: Path): set<Node>
  {
    match p
    case Top => {}
    case InLeft(n, _, r, up) => {n} + Nodes(r) + PathNodes(up)
    case InRight(l, n, _, up) => {n} + Nodes(l) + PathNodes(up)
  }

  ghost predicate Distinct(t: Tree)
  {
    match t
    case Nil => true
    case Bin(l, n, _, r) =>
      n !in Nodes(l) && n !in Nodes(r) && Nodes(l) !! Nodes(r) && Distinct(l) && Distinct(r)
  }

  ghost predicate PathDistinct(p: Path)
  {
    match p
    case Top => true
    case InLeft(n, _, r, up) =>
      n !in Nodes(r) && n !in PathNodes(up) && Nodes(r) !! PathNodes(up) && Distinct(r) && PathDistinct(up)
    case InRight(l, n, _, up) =>
      n !in Nodes(l) && n !in PathNodes(up) && Nodes(l) !! PathNodes(up) && Distinct(l) && PathDistinct(up)
  }

  ghost predicate Zipped(t: Tree, p: Path)
  {
    Distinct(t) && PathDistinct(p) && Nodes(t) !! PathNodes(p)
  }

  // ---------- order: the nodes from left to right ----------

  function Inorder(t: Tree): seq<Node>
  {
    match t
    case Nil => []
    case Bin(l, n, _, r) => Inorder(l) + [n] + Inorder(r)
  }

  function Before(p: Path): seq<Node>
  {
    match p
    case Top => []
    case InLeft(_, _, _, up) => Before(up)
    case InRight(l, n, _, up) => Before(up) + Inorder(l) + [n]
  }

  function After(p: Path): seq<Node>
  {
    match p
    case Top => []
    case InLeft(n, _, r, up) => [n] + Inorder(r) + After(up)
    case InRight(_, _, _, up) => After(up)
  }

  predicate Sorted(s: seq<Node>)
  {
    forall i, j :: 0 <= i < j < |s| ==> s[i].key < s[j].key
  }

  lemma Regroup(a: seq<Node>, b: seq<Node>, c: seq<Node>, d: seq<Node>, e: seq<Node>)
    ensures a + (b + c + d) + e == a + b + (c + d + e)
    ensures a + (b + c + d) + e == (a + b + c) + d + e
  {
  }

  lemma {:induction false} InorderPlug(p: Path, t: Tree)
    ensures Inorder(Plug(p, t)) == Before(p) + Inorder(t) + After(p)
    decreases p
  {
    match p {
      case Top =>
      case InLeft(n, red, r, up) =>
        InorderPlug(up, Up(p, t));
        Regroup(Before(up), Inorder(t), [n], Inorder(r), After(up));
      case InRight(l, n, red, up) =>
        InorderPlug(up, Up(p, t));
        Regroup(Before(up), Inorder(l), [n], Inorder(t), After(up));
    }
  }

  function Elems(s: seq<Node>): set<Node>
  {
    set n | n in s
  }

  lemma ElemsSum(a: seq<Node>, b: seq<Node>)
    ensures Elems(a + b) == Elems(a) + Elems(b)
  {
  }

  lemma {:induction false} InorderNodes(t: Tree)
    ensures Nodes(t) == Elems(Inorder(t))
  {
    match t {
      case Nil =>
      case Bin(l, n, _, r) =>
        InorderNodes(l);
        InorderNodes(r);
        ElemsSum(Inorder(l) + [n], Inorder(r));
        ElemsSum(Inorder(l), [n]);
        assert Elems([n]) == {n};
    }
  }

  lemma {:induction false} NodesPlug(p: Path, t: Tree)
    ensures Nodes(Plug(p, t)) == Nodes(t) + PathNodes(p)
    decreases p
  {
    if p != Top { NodesPlug(p.up, Up(p, t)); }
  }

  lemma {:induction false} DistinctPlug(p: Path, t: Tree)
    ensures Distinct(Plug(p, t)) <==> Zipped(t, p)
    decreases p
  {
    if p != Top { DistinctPlug(p.up, Up(p, t)); }
  }

  lemma {:induction false} PlugBin(p: Path, t: Tree)
    requires t.Bin?
    ensures Plug(p, t).Bin?
    decreases p
  {
    if p != Top { PlugBin(p.up, Up(p, t)); }
  }

  lemma {:induction false} PlugJoin(q: Path, p: Path, t: Tree)
    ensures Plug(Join(q, p), t) == Plug(p, Plug(q, t))
    decreases q
  {
    if q != Top { PlugJoin(q.up, p, Up(q, t)); }
  }

  // ---------- colours and black heights ----------

  predicate Black(t: Tree)
  {
    t.Nil? || !t.red
  }

  /** Black nodes on the leftmost way down. */
  function BlackHeight(t: Tree): nat
  {
    if t.Nil? then 0 else BlackHeight(t.l) + if t.red then 0 else 1
  }

  /** No red node has a red child, and left and right black heights agree everywhere. */
  predicate Balanced(t: Tree)
  {
    match t
    case Nil => true
    case Bin(l, _, red, r) =>
      Balanced(l) && Balanced(r) && BlackHeight(l) == BlackHeight(r) && (red ==> Black(l) && Black(r))
  }

  predicate BlackPath(p: Path)
  {
    p != Top && !p.red
  }

  /** Around a hole that wants a subtree of black height `h` everything is balanced, and the root is
      black. */
  predicate PathBalanced(p: Path, h: nat)
  {
    match p
    case Top => true
    case InLeft(_, red, r, up) =>
      && Balanced(r) && BlackHeight(r) == h && (red ==> Black(r) && BlackPath(up))
      && PathBalanced(up, h + if red then 0 else 1)
    case InRight(l, _, red, up) =>
      && Balanced(l) && BlackHeight(l) == h && (red ==> Black(l) && BlackPath(up))
      && PathBalanced(up, h + if red then 0 else 1)
  }

  predicate RedBlack(t: Tree)
  {
    Balanced(t) && Black(t)
  }

  lemma {:induction false} BalancedPlug(p: Path, t: Tree)
    ensures Balanced(t) && PathBalanced(p, BlackHeight(t)) && (Black(t) || BlackPath(p)) ==> RedBlack(Plug(p, t))
    ensures RedBlack(Plug(p, t)) ==> Balanced(t) && PathBalanced(p, BlackHeight(t)) && (Black(t) || BlackPath(p))
    decreases p
  {
    if p != Top { BalancedPlug(p.up, Up(p, t)); }
  }

  /** Every way from the root to a missing child. */
  datatype Step = GoLeft | GoRight

  predicate Way(t: Tree, w: seq<Step>)
  {
    match t
    case Nil => w == []
    case Bin(l, _, _, r) => w != [] && if w[0].GoLeft? then Way(l, w[1..]) else Way(r, w[1..])
  }

  function BlackOn(t: Tree, w: seq<Step>): nat
    requires Way(t, w)
  {
    if t.Nil? then 0
    else BlackOn(if w[0].GoLeft? then t.l else t.r, w[1..]) + if t.red then 0 else 1
  }

  /** Equal black counts on all paths, in terms of the paths themselves. */
  lemma {:induction false} SameBlackCount(t: Tree, w: seq<Step>)
    requires Balanced(t) && Way(t, w)
    ensures BlackOn(t, w) == BlackHeight(t)
    ensures |w| <= 2 * BlackHeight(t) + if Black(t) then 0 else 1
  {
    if t.Bin? { SameBlackCount(if w[0].GoLeft? then t.l else t.r, w[1..]); }
  }

  // ---------- snapshots of the fields ----------

  datatype Cell = Cell(left: Node?, right: Node?, parent: Node?, red: bool)

  datatype Mem = Mem(cells: map<Node, Cell>, root: Node?)

  /** The nodes of `t` are linked and coloured as `t` says, and its root's parent is `p`. */
  ghost predicate Rep(m: Mem, t: Tree, p: Node?)
  {
    match t
    case Nil => true
    case Bin(l, n, red, r) =>
      && n in m.cells && m.cells[n] == Cell(Root(l), Root(r), p, red)
      && Rep(m, l, n) && Rep(m, r, n)
  }

  /** The nodes above the hole are linked and coloured as `p` says, and `child` is in the hole. */
  ghost predicate PathRep(m: Mem, p: Path, child: Node?)
  {
    match p
    case Top => m.root == child
    case InLeft(n, red, r, up) =>
      && n in m.cells && m.cells[n] == Cell(child, Root(r), Above(up), red)
      && Rep(m, r, n) && PathRep(m, up, n)
    case InRight(l, n, red, up) =>
      && n in m.cells && m.cells[n] == Cell(Root(l), child, Above(up), red)
      && Rep(m, l, n) && PathRep(m, up, n)
  }

  /** The abstract tree of a snapshot, seen from a hole. */
  ghost predicate At(m: Mem, t: Tree, p: Path)
  {
    Zipped(t, p) && Rep(m, t, Above(p)) && PathRep(m, p, Root(t))
  }

  predicate SameOn(m: Mem, m': Mem, s: set<Node>)
  {
    forall n :: n in s && n in m.cells ==> n in m'.cells && m'.cells[n] == m.cells[n]
  }

  lemma {:induction false} RepFrame(m: Mem, m': Mem, t: Tree, p: Node?)
    requires Rep(m, t, p) && SameOn(m, m', Nodes(t))
    ensures Rep(m', t, p)
  {
    match t {
      case Nil =>
      case Bin(l, n, _, r) =>
        RepFrame(m, m', l, n);
        RepFrame(m, m', r, n);
    }
  }

  lemma {:induction false} PathFrame(m: Mem, m': Mem, p: Path, child: Node?)
    requires PathRep(m, p, child) && SameOn(m, m', PathNodes(p)) && m'.root == m.root
    ensures PathRep(m', p, child)
  {
    match p {
      case Top =>
      case InLeft(n, _, r, up) =>
        RepFrame(m, m', r, n);
        PathFrame(m, m', up, n);
      case InRight(l, n, _, up) =>
        RepFrame(m, m', l, n);
        PathFrame(m, m', up, n);
    }
  }

  /** The hole can be moved up and down. */
  lemma AtUp(m: Mem, t: Tree, p: Path)
    requires p != Top
    ensures At(m, t, p) <==> At(m, Up(p, t), p.up)
  {
  }

  lemma {:induction false} AtPlug(m: Mem, t: Tree, p: Path)
    ensures At(m, t, p) <==> At(m, Plug(p, t), Top)
    decreases p
  {
    if p != Top {
      AtUp(m, t, p);
      AtPlug(m, Up(p, t), p.up);
    }
  }

  lemma {:induction false} AtJoin(m: Mem, t: Tree, q: Path, p: Path)
    ensures At(m, t, Join(q, p)) <==> At(m, Plug(q, t), p)
    decreases q
  {
    if q != Top {
      AtUp(m, t, Join(q, p));
      AtJoin(m, Up(q, t), q.up, p);
    }
  }

  // ---------- writing fields ----------

  function SetLeft(m: Mem, n: Node, x: Node?): Mem
    requires n in m.cells
  {
    m.(cells := m.cells[n := m.cells[n].(left := x)])
  }

  function SetRight(m: Mem, n: Node, x: Node?): Mem
    requires n in m.cells
  {
    m.(cells := m.cells[n := m.cells[n].(right := x)])
  }

  function SetRed(m: Mem, n: Node, c: bool): Mem
    requires n in m.cells
  {
    m.(cells := m.cells[n := m.cells[n].(red := c)])
  }

  function SetParent(m: Mem, n: Node?, x: Node?): Mem
    requires n != null ==> n in m.cells
  {
    if n == null then m else m.(cells := m.cells[n := m.cells[n].(parent := x)])
  }

  /** Put `child` where `elm` hangs below `parent`, or at the root. */
  function Relink(m: Mem, parent: Node?, elm: Node?, child: Node?): Mem
    requires parent != null ==> parent in m.cells
  {
    if parent == null then m.(root := child)
    else if m.cells[parent].left == elm then SetLeft(m, parent, child)
    else SetRight(m, parent, child)
  }

  lemma RelinkRep(m: Mem, p: Path, elm: Node, child: Node?)
    requires PathDistinct(p) && elm !in PathNodes(p) && PathRep(m, p, elm)
    ensures Above(p) != null ==> Above(p) in m.cells
    ensures var m' := Relink(m, Above(p), elm, child);
            PathRep(m', p, child) && forall s: set<Node> :: s !! PathNodes(p) ==> SameOn(m, m', s)
  {
    var m' := Relink(m, Above(p), elm, child);
    match p {
      case Top =>
      case InLeft(n, _, r, up) =>
        RepFrame(m, m', r, n);
        PathFrame(m, m', up, n);
      case InRight(l, n, _, up) =>
        RepFrame(m, m', l, n);
        PathFrame(m, m', up, n);
    }
  }

  lemma SetParentRep(m: Mem, t: Tree, q: Node?, p: Node?)
    requires Distinct(t) && Rep(m, t, q)
    ensures Root(t) != null ==> Root(t) in m.cells
    ensures var m' := SetParent(m, Root(t), p);
            Rep(m', t, p) && m'.root == m.root && forall s: set<Node> :: s !! Nodes(t) ==> SameOn(m, m', s)
  {
    if t.Bin? {
      RepFrame(m, SetParent(m, Root(t), p), t.l, t.n);
      RepFrame(m, SetParent(m, Root(t), p), t.r, t.n);
    }
  }

  // ---------- rotations ----------

  /** What RB_ROTATE_LEFT(x) needs to be able to run. */
  predicate CanRotateLeft(m: Mem, x: Node)
  {
    && x in m.cells && m.cells[x].right != null && m.cells[x].right in m.cells
    && (m.cells[m.cells[x].right].left != null ==> m.cells[m.cells[x].right].left in m.cells)
    && (m.cells[x].parent != null ==> m.cells[x].parent in m.cells)
  }

  function RotateLeft(m: Mem, x: Node): Mem
    requires CanRotateLeft(m, x)
  {
    var y: Node := m.cells[x].right;
    var b := m.cells[y].left;
    var m1 := SetParent(SetRight(m, x, b), b, x);
    var m2 := SetParent(m1, y, m1.cells[x].parent);
    var m3 := Relink(m2, m2.cells[x].parent, x, y);
    SetParent(SetLeft(m3, y, x), x, y)
  }

  predicate CanRotateRight(m: Mem, y: Node)
  {
    && y in m.cells && m.cells[y].left != null && m.cells[y].left in m.cells
    && (m.cells[m.cells[y].left].right != null ==> m.cells[m.cells[y].left].right in m.cells)
    && (m.cells[y].parent != null ==> m.cells[y].parent in m.cells)
  }

  function RotateRight(m: Mem, y: Node): Mem
    requires CanRotateRight(m, y)
  {
    var x: Node := m.cells[y].left;
    var b := m.cells[x].right;
    var m1 := SetParent(SetLeft(m, y, b), b, y);
    var m2 := SetParent(m1, x, m1.cells[y].parent);
    var m3 := Relink(m2, m2.cells[y].parent, y, x);
    SetParent(SetRight(m3, x, y), y, x)
  }

  /** Two neighbouring nodes below the path `p`, with the three subtrees `a`, `b`, `c` around them;
      `pb` is the parent of the middle one. */
  ghost predicate Pair(m: Mem, a: Tree, x: Node, b: Tree, y: Node, c: Tree, p: Path, pb: Node)
  {
    && Apart(a, x, b, y, c, p)
    && x in m.cells && y in m.cells
    && Rep(m, a, x) && Rep(m, b, pb) && Rep(m, c, y)
  }

  ghost predicate Apart(a: Tree, x: Node, b: Tree, y: Node, c: Tree, p: Path)
  {
    && x != y && x !in Nodes(a) && x !in Nodes(b) && x !in Nodes(c)
    && y !in Nodes(a) && y !in Nodes(b) && y !in Nodes(c)
    && Nodes(a) !! Nodes(b) && Nodes(a) !! Nodes(c) && Nodes(b) !! Nodes(c)
    && Distinct(a) && Distinct(b) && Distinct(c) && PathDistinct(p)
    && x !in PathNodes(p) && y !in PathNodes(p)
    && Nodes(a) !! PathNodes(p) && Nodes(b) !! PathNodes(p) && Nodes(c) !! PathNodes(p)
  }

  lemma ZippedApart(a: Tree, x: Node, red: bool, b: Tree, y: Node, yred: bool, c: Tree, p: Path)
    ensures Zipped(Bin(a, x, red, Bin(b, y, yred, c)), p) <==> Apart(a, x, b, y, c, p)
    ensures Zipped(Bin(Bin(a, x, red, b), y, yred, c), p) <==> Apart(a, x, b, y, c, p)
  {
    ZippedApartRight(a, x, red, Bin(b, y, yred, c), p);
    ZippedApartLeft(Bin(a, x, red, b), y, yred, c, p);
  }

  lemma ZippedApartRight(a: Tree, x: Node, red: bool, t: Tree, p: Path)
    requires t.Bin?
    ensures Zipped(Bin(a, x, red, t), p) <==> Apart(a, x, t.l, t.n, t.r, p)
  {
    assert Distinct(t) <==>
           t.n !in Nodes(t.l) && t.n !in Nodes(t.r) && Nodes(t.l) !! Nodes(t.r) && Distinct(t.l) && Distinct(t.r);
    assert Nodes(t) == Nodes(t.l) + {t.n} + Nodes(t.r);
  }

  lemma ZippedApartLeft(t: Tree, y: Node, red: bool, c: Tree, p: Path)
    requires t.Bin?
    ensures Zipped(Bin(t, y, red, c), p) <==> Apart(t.l, t.n, t.r, y, c, p)
  {
    assert Distinct(t) <==>
           t.n !in Nodes(t.l) && t.n !in Nodes(t.r) && Nodes(t.l) !! Nodes(t.r) && Distinct(t.l) && Distinct(t.r);
    assert Nodes(t) == Nodes(t.l) + {t.n} + Nodes(t.r);
  }

  lemma SetOuter(m: Mem, n: Node, c: Cell, a: Tree, x: Node, b: Tree, y: Node, d: Tree, p: Path, pb: Node, child: Node)
    requires Pair(m, a, x, b, y, d, p, pb) && PathRep(m, p, child) && (n == x || n == y)
    ensures var m' := m.(cells := m.cells[n := c]);
            Pair(m', a, x, b, y, d, p, pb) && PathRep(m', p, child)
  {
    var m' := m.(cells := m.cells[n := c]);
    RepFrame(m, m', a, x);
    RepFrame(m, m', b, pb);
    RepFrame(m, m', d, y);
    PathFrame(m, m', p, child);
  }

  lemma SetMiddle(m: Mem, a: Tree, x: Node, b: Tree, y: Node, c: Tree, p: Path, pb: Node, pb': Node, child: Node)
    requires Pair(m, a, x, b, y, c, p, pb) && PathRep(m, p, child)
    ensures Root(b) != null ==> Root(b) in m.cells
    ensures var m' := SetParent(m, Root(b), pb');
            Pair(m', a, x, b, y, c, p, pb') && PathRep(m', p, child) && m'.cells[x] == m.cells[x] &&
            m'.cells[y] == m.cells[y]
  {
    var m' := SetParent(m, Root(b), pb');
    SetParentRep(m, b, pb, pb');
    RepFrame(m, m', a, x);
    RepFrame(m, m', c, y);
    PathFrame(m, m', p, child);
  }

  lemma RelinkPair(m: Mem, a: Tree, x: Node, b: Tree, y: Node, c: Tree, p: Path, pb: Node, child: Node, child': Node)
    requires Pair(m, a, x, b, y, c, p, pb) && PathRep(m, p, child) && (child == x || child == y)
    ensures Above(p) != null ==> Above(p) in m.cells
    ensures var m' := Relink(m, Above(p), child, child');
            Pair(m', a, x, b, y, c, p, pb) && PathRep(m', p, child') && m'.cells[x] == m.cells[x] &&
            m'.cells[y] == m.cells[y]
  {
    RelinkRep(m, p, child, child');
    var m' := Relink(m, Above(p), child, child');
    assert SameOn(m, m', Nodes(a)) && SameOn(m, m', Nodes(b)) && SameOn(m, m', Nodes(c)) && SameOn(m, m', {x, y});
    RepFrame(m, m', a, x);
    RepFrame(m, m', b, pb);
    RepFrame(m, m', c, y);
  }

  lemma LeftFirstHalf(m: Mem, a: Tree, x: Node, red: bool, b: Tree, y: Node, yred: bool, c: Tree, p: Path)
    requires At(m, Bin(a, x, red, Bin(b, y, yred, c)), p)
    ensures CanRotateLeft(m, x) && y in m.cells && (Root(b) != null ==> Root(b) in m.cells)
    ensures var m3 := SetParent(SetParent(SetRight(m, x, Root(b)), Root(b), x), y, Above(p));
            && Pair(m3, a, x, b, y, c, p, x) && PathRep(m3, p, x)
            && m3.cells[x] == Cell(Root(a), Root(b), Above(p), red) &&
               m3.cells[y] == Cell(Root(b), Root(c), Above(p), yred)
  {
    ZippedApart(a, x, red, b, y, yred, c, p);
    assert Rep(m, Bin(b, y, yred, c), x);
    assert Rep(m, b, y) && CanRotateLeft(m, x);
    SetOuter(m, x, m.cells[x].(right := Root(b)), a, x, b, y, c, p, y, x);
    var m1 := SetRight(m, x, Root(b));
    SetMiddle(m1, a, x, b, y, c, p, y, x, x);
    var m2 := SetParent(m1, Root(b), x);
    SetOuter(m2, y, m2.cells[y].(parent := Above(p)), a, x, b, y, c, p, x, x);
  }

  lemma RotateLeftRep(m: Mem, a: Tree, x: Node, red: bool, b: Tree, y: Node, yred: bool, c: Tree, p: Path)
    requires At(m, Bin(a, x, red, Bin(b, y, yred, c)), p)
    ensures CanRotateLeft(m, x)
    ensures At(RotateLeft(m, x), Bin(Bin(a, x, red, b), y, yred, c), p)
  {
    LeftFirstHalf(m, a, x, red, b, y, yred, c, p);
    LeftSecondHalf(SetParent(SetParent(SetRight(m, x, Root(b)), Root(b), x), y, Above(p)), a, x, red, b, y, yred, c, p);
    ZippedApart(a, x, red, b, y, yred, c, p);
    assert Rep(m, Bin(b, y, yred, c), x);
  }

  /** The second half of RB_ROTATE_LEFT: the new top goes below the parent and the old one below it. */
  lemma LeftSecondHalf(m: Mem, a: Tree, x: Node, red: bool, b: Tree, y: Node, yred: bool, c: Tree, p: Path)
    requires Pair(m, a, x, b, y, c, p, x) && PathRep(m, p, x)
    requires m.cells[x] == Cell(Root(a), Root(b), Above(p), red) && m.cells[y] == Cell(Root(b), Root(c), Above(p), yred)
    ensures Above(p) != null ==> Above(p) in m.cells
    ensures var m' := SetParent(SetLeft(Relink(m, Above(p), x, y), y, x), x, y);
            && Pair(m', a, x, b, y, c, p, x) && PathRep(m', p, y)
            && m'.cells[x] == Cell(Root(a), Root(b), y, red) && m'.cells[y] == Cell(x, Root(c), Above(p), yred)
  {
    RelinkPair(m, a, x, b, y, c, p, x, x, y);
    var m4 := Relink(m, Above(p), x, y);
    SetOuter(m4, y, m4.cells[y].(left := x), a, x, b, y, c, p, x, y);
    var m5 := SetLeft(m4, y, x);
    SetOuter(m5, x, m5.cells[x].(parent := y), a, x, b, y, c, p, x, y);
  }

  lemma RightFirstHalf(m: Mem, a: Tree, x: Node, red: bool, b: Tree, y: Node, yred: bool, c: Tree, p: Path)
    requires At(m, Bin(Bin(a, x, red, b), y, yred, c), p)
    ensures CanRotateRight(m, y) && x in m.cells && (Root(b) != null ==> Root(b) in m.cells)
    ensures var m3 := SetParent(SetParent(SetLeft(m, y, Root(b)), Root(b), y), x, Above(p));
            && Pair(m3, a, x, b, y, c, p, y) && PathRep(m3, p, y)
            && m3.cells[x] == Cell(Root(a), Root(b), Above(p), red) &&
               m3.cells[y] == Cell(Root(b), Root(c), Above(p), yred)
  {
    ZippedApart(a, x, red, b, y, yred, c, p);
    assert Rep(m, Bin(a, x, red, b), y);
    assert Rep(m, b, x) && CanRotateRight(m, y);
    SetOuter(m, y, m.cells[y].(left := Root(b)), a, x, b, y, c, p, x, y);
    var m1 := SetLeft(m, y, Root(b));
    SetMiddle(m1, a, x, b, y, c, p, x, y, y);
    var m2 := SetParent(m1, Root(b), y);
    SetOuter(m2, x, m2.cells[x].(parent := Above(p)), a, x, b, y, c, p, y, y);
  }

  lemma RotateRightRep(m: Mem, a: Tree, x: Node, red: bool, b: Tree, y: Node, yred: bool, c: Tree, p: Path)
    requires At(m, Bin(Bin(a, x, red, b), y, yred, c), p)
    ensures CanRotateRight(m, y)
    ensures At(RotateRight(m, y), Bin(a, x, red, Bin(b, y, yred, c)), p)
  {
    RightFirstHalf(m, a, x, red, b, y, yred, c, p);
    ZippedApart(a, x, red, b, y, yred, c, p);
    RightSecondHalf(SetParent(SetParent(SetLeft(m, y, Root(b)), Root(b), y), x, Above(p)), a, x, red, b, y, yred, c, p);
    assert Rep(m, Bin(a, x, red, b), y);
  }

  lemma RightSecondHalf(m: Mem, a: Tree, x: Node, red: bool, b: Tree, y: Node, yred: bool, c: Tree, p: Path)
    requires Pair(m, a, x, b, y, c, p, y) && PathRep(m, p, y)
    requires m.cells[x] == Cell(Root(a), Root(b), Above(p), red) && m.cells[y] == Cell(Root(b), Root(c), Above(p), yred)
    ensures Above(p) != null ==> Above(p) in m.cells
    ensures var m' := SetParent(SetRight(Relink(m, Above(p), y, x), x, y), y, x);
            && Pair(m', a, x, b, y, c, p, y) && PathRep(m', p, x)
            && m'.cells[x] == Cell(Root(a), y, Above(p), red) && m'.cells[y] == Cell(Root(b), Root(c), x, yred)
  {
    RelinkPair(m, a, x, b, y, c, p, y, y, x);
    var m4 := Relink(m, Above(p), y, x);
    SetOuter(m4, x, m4.cells[x].(right := y), a, x, b, y, c, p, y, x);
    var m5 := SetRight(m4, x, y);
    SetOuter(m5, y, m5.cells[y].(parent := x), a, x, b, y, c, p, y, x);
  }

  // ---------- recolouring ----------

  function Blacken(t: Tree): Tree
  {
    if t.Nil? then t else t.(red := false)
  }

  /** Painting the root of a subtree; AtUp moves the hole to whichever node is painted. */
  lemma PaintAt(m: Mem, t: Tree, p: Path, c: bool)
    requires At(m, t, p) && t.Bin?
    ensures t.n in m.cells && At(SetRed(m, t.n, c), t.(red := c), p)
  {
    var m' := SetRed(m, t.n, c);
    RepFrame(m, m', t.l, t.n);
    RepFrame(m, m', t.r, t.n);
    PathFrame(m, m', p, t.n);
  }

  lemma PaintLeft(m: Mem, t: Tree, p: Path, c: bool)
    requires At(m, t, p) && t.Bin? && t.l.Bin?
    ensures t.l.n in m.cells && At(SetRed(m, t.l.n, c), t.(l := t.l.(red := c)), p)
  {
    var q := InLeft(t.n, t.red, t.r, p);
    AtUp(m, t.l, q);
    PaintAt(m, t.l, q, c);
    AtUp(SetRed(m, t.l.n, c), t.l.(red := c), q);
  }

  lemma PaintRight(m: Mem, t: Tree, p: Path, c: bool)
    requires At(m, t, p) && t.Bin? && t.r.Bin?
    ensures t.r.n in m.cells && At(SetRed(m, t.r.n, c), t.(r := t.r.(red := c)), p)
  {
    var q := InRight(t.l, t.n, t.red, p);
    AtUp(m, t.r, q);
    PaintAt(m, t.r, q, c);
    AtUp(SetRed(m, t.r.n, c), t.r.(red := c), q);
  }

  // ---------- RB_INSERT_COLOR ----------

  /** The sibling of the hole's parent. */
  function Uncle(p: Path): Tree
    requires p != Top && p.up != Top
  {
    match p.up
    case InLeft(_, _, u, _) => u
    case InRight(u, _, _, _) => u
  }

  predicate IsRed(t: Tree)
  {
    t.Bin? && t.red
  }

  /** Parent and uncle turn black, the grandparent red. */
  function Recoloured(p: Path, t: Tree): Tree
    requires p != Top && p.up != Top
  {
    match p.up
    case InLeft(g, _, u, _) => Bin(Blacken(Up(p, t)), g, true, Blacken(u))
    case InRight(u, g, _, _) => Bin(Blacken(u), g, true, Blacken(Up(p, t)))
  }

  /** After the rotations at parent and grandparent. */
  function Rotated(p: Path, t: Tree): Tree
    requires p != Top && p.up != Top && t.Bin?
  {
    match p.up
    case InLeft(g, _, u, _) =>
      (match p
       case InLeft(par, _, r, _) => Bin(t, par, false, Bin(r, g, true, u))
       case InRight(l, par, _, _) => Bin(Bin(l, par, true, t.l), t.n, false, Bin(t.r, g, true, u)))
    case InRight(u, g, _, _) =>
      (match p
       case InRight(l, par, _, _) => Bin(Bin(u, g, true, l), par, false, t)
       case InLeft(par, _, r, _) => Bin(Bin(u, g, true, t.l), t.n, false, Bin(t.r, par, true, r)))
  }

  /** What RB_INSERT_COLOR makes of the red node at the root of `t` below `p`. */
  function Fixed(p: Path, t: Tree): Tree
    requires t.Bin?
    decreases p
  {
    if p == Top || !p.red || p.up == Top then Blacken(Plug(p, t))
    else if IsRed(Uncle(p)) then Fixed(p.up.up, Recoloured(p, t))
    else Blacken(Plug(p.up.up, Rotated(p, t)))
  }

  /** The only thing wrong before each round: the root of `t` and its parent may both be red. */
  predicate RedAtHole(p: Path, t: Tree)
  {
    IsRed(t) && Balanced(t) && PathBalanced(p, BlackHeight(t)) && (p != Top && p.up == Top ==> !p.red)
  }

  lemma RecolouredOk(p: Path, t: Tree)
    requires RedAtHole(p, t) && p != Top && p.red && IsRed(Uncle(p))
    ensures RedAtHole(p.up.up, Recoloured(p, t))
    ensures Before(p.up.up) + Inorder(Recoloured(p, t)) + After(p.up.up) == Before(p) + Inorder(t) + After(p)
  {
    assert PathBalanced(p.up, BlackHeight(t)) && Balanced(Uncle(p));
    InorderPlug(p, t);
    InorderPlug(p.up.up, Recoloured(p, t));
    var plain := Up(p.up, Up(p, t));
    InorderPlug(p.up.up, plain);
    assert Inorder(Recoloured(p, t)) == Inorder(plain);
  }

  lemma RotatedOk(p: Path, t: Tree)
    requires RedAtHole(p, t) && p != Top && p.red && !IsRed(Uncle(p))
    ensures Balanced(Rotated(p, t)) && Black(Rotated(p, t))
    ensures PathBalanced(p.up.up, BlackHeight(Rotated(p, t)))
  {
    assert PathBalanced(p.up, BlackHeight(t)) && Balanced(Uncle(p));
    assert Balanced(t.l) && Balanced(t.r);
  }

  lemma RegroupOuter(a: seq<Node>, b: seq<Node>, c: seq<Node>, d: seq<Node>, e: seq<Node>)
    ensures (a + b + c) + d + e == a + b + (c + d + e)
  {
  }

  lemma RegroupInner(a: seq<Node>, b: seq<Node>, c: seq<Node>, d: seq<Node>, e: seq<Node>, f: seq<Node>, g: seq<Node>)
    ensures (a + b + (c + d + e)) + f + g == (a + b + c) + d + (e + f + g)
    ensures a + b + ((c + d + e) + f + g) == (a + b + c) + d + (e + f + g)
  {
  }

  lemma RotatedInorder(p: Path, t: Tree)
    requires p != Top && p.up != Top && t.Bin?
    ensures Inorder(Rotated(p, t)) == Inorder(Up(p.up, Up(p, t)))
  {
    if p.up.InLeft? { RotatedLeft(p, t); } else { RotatedRight(p, t); }
  }

  lemma RotatedLeft(p: Path, t: Tree)
    requires p != Top && p.up.InLeft? && t.Bin?
    ensures Inorder(Rotated(p, t)) == Inorder(Up(p.up, Up(p, t)))
  {
    var g, u := [p.up.n], Inorder(p.up.r);
    if p.InLeft? {
      RegroupOuter(Inorder(t), [p.n], Inorder(p.r), g, u);
    } else {
      assert Inorder(t) == Inorder(t.l) + [t.n] + Inorder(t.r);
      RegroupInner(Inorder(p.l), [p.n], Inorder(t.l), [t.n], Inorder(t.r), g, u);
    }
  }

  lemma RotatedRight(p: Path, t: Tree)
    requires p != Top && p.up.InRight? && t.Bin?
    ensures Inorder(Rotated(p, t)) == Inorder(Up(p.up, Up(p, t)))
  {
    if p.InRight? {
      var a, b, c := Inorder(p.up.l) + [p.up.n], Inorder(p.l) + [p.n], Inorder(t);
      assert Inorder(Up(p, t)) == b + c;
      assert (a + Inorder(p.l)) + [p.n] + c == a + (b + c);
    } else {
      assert Inorder(t) == Inorder(t.l) + [t.n] + Inorder(t.r);
      RegroupInner(Inorder(p.up.l), [p.up.n], Inorder(t.l), [t.n], Inorder(t.r), [p.n], Inorder(p.r));
    }
  }

  /** RB_INSERT_COLOR restores the red-black tree and keeps the order of the nodes. */
  lemma {:induction false} FixedOk(p: Path, t: Tree)
    requires RedAtHole(p, t)
    ensures RedBlack(Fixed(p, t))
    ensures Inorder(Fixed(p, t)) == Before(p) + Inorder(t) + After(p)
    decreases p
  {
    InorderPlug(p, t);
    BalancedPlug(p, t);
    if p == Top || !p.red {
      assert p == Top || RedBlack(Plug(p, t));
    } else if IsRed(Uncle(p)) {
      RecolouredOk(p, t);
      FixedOk(p.up.up, Recoloured(p, t));
    } else {
      RotatedOk(p, t);
      RotatedInorder(p, t);
      BalancedPlug(p.up.up, Rotated(p, t));
      InorderPlug(p.up.up, Rotated(p, t));
      InorderPlug(p.up.up, Up(p.up, Up(p, t)));
    }
  }

  // ---------- RB_REMOVE_COLOR ----------

  function Sibling(p: Path): Tree
    requires p != Top
  {
    if p.InLeft? then p.r else p.l
  }

  function WithSibling(p: Path, s: Tree): Path
    requires p != Top
  {
    if p.InLeft? then p.(r := s) else p.(l := s)
  }

  /** The hole after a red sibling was rotated above the parent. */
  function PastRedSibling(p: Path): Path
    requires p != Top && Sibling(p).Bin?
  {
    match p
    case InLeft(par, _, s, up) => InLeft(par, true, s.l, InLeft(s.n, false, s.r, up))
    case InRight(s, par, _, up) => InRight(s.r, par, true, InRight(s.l, s.n, false, up))
  }

  /** The sibling's child away from the hole. */
  function Far(p: Path): Tree
    requires p != Top && Sibling(p).Bin?
  {
    if p.InLeft? then p.r.r else p.l.l
  }

  function Near(p: Path): Tree
    requires p != Top && Sibling(p).Bin?
  {
    if p.InLeft? then p.r.l else p.l.r
  }

  /** The sibling, rotated if need be so that its far child is red. */
  function Straightened(p: Path): Tree
    requires p != Top && Sibling(p).Bin? && (IsRed(Near(p)) || IsRed(Far(p)))
  {
    var s := Sibling(p);
    if IsRed(Far(p)) then s
    else if p.InLeft? then Bin(s.l.l, s.l.n, false, Bin(s.l.r, s.n, true, s.r))
    else Bin(Bin(s.l, s.n, true, s.r.l), s.r.n, false, s.r.r)
  }

  /** The last rotation, at the parent. */
  function Lifted(p: Path, t: Tree): Tree
    requires p != Top && Sibling(p).Bin?
  {
    match p
    case InLeft(par, c, s, _) => Bin(Bin(t, par, false, s.l), s.n, c, Blacken(s.r))
    case InRight(s, par, c, _) => Bin(Blacken(s.l), s.n, c, Bin(s.r, par, false, t))
  }

  /** The rounds that end the loop, the sibling being black. */
  function Settled(p: Path, t: Tree): Tree
    requires p != Top && Sibling(p).Bin?
  {
    if !IsRed(Near(p)) && !IsRed(Far(p))
    then Plug(p.up, Blacken(Up(WithSibling(p, Sibling(p).(red := true)), t)))
    else Blacken(Plug(p.up, Lifted(WithSibling(p, Straightened(p)), t)))
  }

  /** What RB_REMOVE_COLOR makes of the subtree `t` that lacks one black node below `p`. */
  function Refilled(p: Path, t: Tree): Tree
    decreases p
  {
    if IsRed(t) || p == Top || Sibling(p).Nil? then Plug(p, Blacken(t))
    else if Sibling(p).red then
      (if Near(p).Nil? then Plug(p, Blacken(t)) else Settled(PastRedSibling(p), t))
    else if !IsRed(Near(p)) && !IsRed(Far(p)) then
      Refilled(p.up, Up(WithSibling(p, Sibling(p).(red := true)), t))
    else Settled(p, t)
  }

  /** `t` is balanced below its root and one black node short of what `p` wants. */
  predicate Short(p: Path, t: Tree)
  {
    && (t.Bin? ==> Balanced(t.l) && Balanced(t.r) && BlackHeight(t.l) == BlackHeight(t.r))
    && (t.Bin? && Black(t) ==> Balanced(t))
    && PathBalanced(p, BlackHeight(t) + 1)
  }

  lemma PastRedSiblingOk(p: Path, t: Tree)
    requires Short(p, t) && !IsRed(t) && p != Top && IsRed(Sibling(p))
    ensures Near(p).Bin? && Short(PastRedSibling(p), t) && !IsRed(Sibling(PastRedSibling(p)))
  {
    assert Balanced(Sibling(p));
    assert Balanced(Near(p)) && Balanced(Far(p));
  }

  /** A black sibling without a red child becomes red, below a black node. */
  lemma SunkOk(p: Path, t: Tree)
    requires Short(p, t) && p != Top && Sibling(p).Bin? && !IsRed(Sibling(p)) && !IsRed(Near(p)) && !IsRed(Far(p))
    requires p.red && !IsRed(t) && Balanced(Sibling(p)) && Balanced(Near(p)) && Balanced(Far(p))
    ensures var whole := Blacken(Up(WithSibling(p, Sibling(p).(red := true)), t));
      Balanced(whole) && BlackHeight(whole) == BlackHeight(t) + 1
  {
    var s := Sibling(p).(red := true);
    assert Balanced(s) && BlackHeight(s) == BlackHeight(t) && Balanced(t);
    var whole := Up(WithSibling(p, s), t);
    assert Balanced(whole.l) && Balanced(whole.r) && BlackHeight(whole.l) == BlackHeight(whole.r) == BlackHeight(t);
  }

  lemma SettledOk(p: Path, t: Tree)
    requires Short(p, t) && !IsRed(t) && p != Top && Sibling(p).Bin? && !IsRed(Sibling(p))
    requires p.red || IsRed(Near(p)) || IsRed(Far(p))
    ensures RedBlack(Settled(p, t))
  {
    assert Balanced(Sibling(p)) && Balanced(Near(p)) && Balanced(Far(p));
    if !IsRed(Near(p)) && !IsRed(Far(p)) {
      SunkOk(p, t);
      BalancedPlug(p.up, Blacken(Up(WithSibling(p, Sibling(p).(red := true)), t)));
    } else {
      StraightenedOk(p);
      LiftedOk(WithSibling(p, Straightened(p)), t);
      BalancedPlug(p.up, Lifted(WithSibling(p, Straightened(p)), t));
    }
  }

  lemma StraightenedOk(p: Path)
    requires p != Top && Sibling(p).Bin? && !Sibling(p).red && Balanced(Sibling(p)) && (IsRed(Near(p)) || IsRed(Far(p)))
    ensures var s := Straightened(p);
            && BlackHeight(s) == BlackHeight(Sibling(p)) && !s.red
            && Balanced(s) && IsRed(Far(WithSibling(p, s)))
            && Inorder(s) == Inorder(Sibling(p))
  {
    var s := Sibling(p);
    assert Balanced(s.l) && Balanced(s.r);
    if IsRed(Far(p)) {
    } else if p.InLeft? {
      Regroup([], Inorder(s.l.l) + [s.l.n], Inorder(s.l.r), [s.n], Inorder(s.r));
    } else {
      Regroup(Inorder(s.l) + [s.n], Inorder(s.r.l), [s.r.n], Inorder(s.r.r), []);
    }
  }

  lemma LiftedOk(p: Path, t: Tree)
    requires p != Top && Sibling(p).Bin? && !Sibling(p).red && Balanced(Sibling(p)) && IsRed(Far(p))
    requires Balanced(t) && BlackHeight(Sibling(p)) == BlackHeight(t) + 1 && Black(t)
    ensures Balanced(Lifted(p, t))
    ensures BlackHeight(Lifted(p, t)) == BlackHeight(t) + 1 + if p.red then 0 else 1
  {
    assert Balanced(Sibling(p).l) && Balanced(Sibling(p).r);
  }

  lemma LiftedInorder(p: Path, t: Tree)
    requires p != Top && Sibling(p).Bin?
    ensures Inorder(Lifted(p, t)) == Inorder(Up(p, t))
  {
    var s := Sibling(p);
    if p.InLeft? {
      Regroup([], Inorder(t) + [p.n], Inorder(s.l), [s.n], Inorder(s.r));
    } else {
      Regroup(Inorder(s.l) + [s.n], Inorder(s.r), [p.n], Inorder(t), []);
    }
  }

  lemma PastRedSiblingInorder(p: Path, t: Tree)
    requires p != Top && Sibling(p).Bin?
    ensures Before(PastRedSibling(p)) + Inorder(t) + After(PastRedSibling(p)) == Before(p) + Inorder(t) + After(p)
  {
    var s, up := Sibling(p), p.up;
    if p.InLeft? {
      Regroup([p.n], Inorder(s.l), [s.n], Inorder(s.r), After(up));
    } else {
      Regroup(Before(up), Inorder(s.l), [s.n], Inorder(s.r), [p.n]);
    }
  }

  lemma SettledInorder(p: Path, t: Tree)
    requires p != Top && Sibling(p).Bin? && Balanced(Sibling(p)) && !Sibling(p).red
    requires Balanced(t) && Black(t) && BlackHeight(Sibling(p)) == BlackHeight(t) + 1
    ensures Inorder(Settled(p, t)) == Before(p) + Inorder(t) + After(p)
  {
    InorderPlug(p, t);
    if !IsRed(Near(p)) && !IsRed(Far(p)) {
      InorderPlug(p.up, Blacken(Up(WithSibling(p, Sibling(p).(red := true)), t)));
      InorderPlug(p.up, Up(p, t));
    } else {
      StraightenedOk(p);
      var q := WithSibling(p, Straightened(p));
      LiftedInorder(q, t);
      InorderPlug(p.up, Lifted(q, t));
      InorderPlug(p.up, Up(p, t));
      assert Inorder(Up(q, t)) == Inorder(Up(p, t));
    }
  }

  /** RB_REMOVE_COLOR makes up for the missing black node and keeps the order of the nodes. */
  lemma {:induction false} RefilledOk(p: Path, t: Tree)
    requires Short(p, t)
    ensures RedBlack(Refilled(p, t))
    ensures Inorder(Refilled(p, t)) == Before(p) + Inorder(t) + After(p)
    decreases p
  {
    InorderPlug(p, Blacken(t));
    if IsRed(t) || p == Top {
      BalancedPlug(p, Blacken(t));
    } else {
      assert BlackHeight(Sibling(p)) == BlackHeight(t) + 1 && Balanced(Sibling(p));
      if Sibling(p).red {
        PastRedSiblingOk(p, t);
        PastRedSiblingInorder(p, t);
        var q := PastRedSibling(p);
        SettledOk(q, t);
        SettledInorder(q, t);
      } else if !IsRed(Near(p)) && !IsRed(Far(p)) {
        var t' := Up(WithSibling(p, Sibling(p).(red := true)), t);
        RefilledOk(p.up, t');
        InorderPlug(p.up, t');
        InorderPlug(p.up, Up(p, t));
        InorderPlug(p, t);
        assert Inorder(t') == Inorder(Up(p, t));
      } else {
        SettledOk(p, t);
        SettledInorder(p, t);
      }
    }
  }

  // ---------- one round of each loop, on a snapshot ----------

  predicate Has(m: Mem, n: Node?)
  {
    n != null && n in m.cells
  }

  /** What the fields of the nodes next to the hole hold. */
  lemma Around(m: Mem, t: Tree, p: Path)
    requires At(m, t, p) && p != Top
    ensures Has(m, p.n) && m.cells[p.n].red == p.red && m.cells[p.n].parent == Above(p.up)
    ensures m.cells[p.n].left == (if p.InLeft? then Root(t) else Root(p.l))
    ensures m.cells[p.n].right == (if p.InLeft? then Root(p.r) else Root(t))
    ensures Sibling(p).Bin? ==>
              Root(Sibling(p)) != Root(t) && Has(m, Root(Sibling(p))) && m.cells[Sibling(p).n].red == Sibling(p).red
    ensures p.up != Top ==> At(m, Up(p, t), p.up)
  {
    AtUp(m, t, p);
    assert p.InLeft? ==> Rep(m, p.r, p.n);
    assert p.InRight? ==> Rep(m, p.l, p.n);
  }

  /** What the fields of the sibling's children hold. */
  lemma Nephews(m: Mem, t: Tree, p: Path)
    requires At(m, t, p) && p != Top && Sibling(p).Bin?
    ensures var s := Sibling(p);
            && Has(m, s.n) && m.cells[s.n].left == Root(s.l) && m.cells[s.n].right == Root(s.r)
            && (s.l.Bin? ==> Has(m, s.l.n) && m.cells[s.l.n].red == s.l.red)
            && (s.r.Bin? ==> Has(m, s.r.n) && m.cells[s.r.n].red == s.r.red)
  {
    var s := Sibling(p);
    assert Rep(m, s, p.n);
    assert Rep(m, s.l, s.n) && Rep(m, s.r, s.n);
  }

  lemma RecolourRound(m: Mem, t: Tree, p: Path)
    requires At(m, t, p) && p != Top && p.up != Top && Uncle(p).Bin?
    ensures Has(m, Root(Uncle(p))) && Has(m, Above(p)) && Has(m, Above(p.up))
    ensures At(SetRed(SetRed(SetRed(m, Uncle(p).n, false), p.n, false), p.up.n, true), Recoloured(p, t), p.up.up)
  {
    AtUp(m, t, p);
    AtUp(m, Up(p, t), p.up);
    var g := Up(p.up, Up(p, t));
    var m1 := SetRed(m, Uncle(p).n, false);
    var m2 := SetRed(m1, p.n, false);
    if p.up.InLeft? {
      PaintRight(m, g, p.up.up, false);
      var g1 := g.(r := g.r.(red := false));
      PaintLeft(m1, g1, p.up.up, false);
      PaintAt(m2, g1.(l := g1.l.(red := false)), p.up.up, true);
    } else {
      PaintLeft(m, g, p.up.up, false);
      var g1 := g.(l := g.l.(red := false));
      PaintRight(m1, g1, p.up.up, false);
      PaintAt(m2, g1.(r := g1.r.(red := false)), p.up.up, true);
    }
  }

  /** The inner rotation of RB_INSERT_COLOR, parent on the left of the grandparent. */
  lemma InnerLeft(m: Mem, t: Tree, p: Path)
    requires At(m, t, p) && p.InRight? && t.Bin?
    ensures CanRotateLeft(m, p.n)
    ensures At(RotateLeft(m, p.n), Bin(p.l, p.n, p.red, t.l), InLeft(t.n, t.red, t.r, p.up))
  {
    AtUp(m, t, p);
    RotateLeftRep(m, p.l, p.n, p.red, t.l, t.n, t.red, t.r, p.up);
    AtUp(RotateLeft(m, p.n), Bin(p.l, p.n, p.red, t.l), InLeft(t.n, t.red, t.r, p.up));
  }

  lemma InnerRight(m: Mem, t: Tree, p: Path)
    requires At(m, t, p) && p.InLeft? && t.Bin?
    ensures CanRotateRight(m, p.n)
    ensures At(RotateRight(m, p.n), Bin(t.r, p.n, p.red, p.r), InRight(t.l, t.n, t.red, p.up))
  {
    AtUp(m, t, p);
    RotateRightRep(m, t.l, t.n, t.red, t.r, p.n, p.red, p.r, p.up);
    AtUp(RotateRight(m, p.n), Bin(t.r, p.n, p.red, p.r), InRight(t.l, t.n, t.red, p.up));
  }

  lemma OuterRight(m: Mem, t: Tree, p: Path)
    requires At(m, t, p) && p.InLeft? && p.up.InLeft?
    ensures Has(m, p.n) && Has(m, p.up.n)
    ensures var m' := SetRed(SetRed(m, p.n, false), p.up.n, true);
            CanRotateRight(m', p.up.n)
            && At(RotateRight(m', p.up.n), t, InLeft(p.n, false, Bin(p.r, p.up.n, true, p.up.r), p.up.up))
  {
    AtUp(m, t, p);
    AtUp(m, Up(p, t), p.up);
    var g := Up(p.up, Up(p, t));
    PaintLeft(m, g, p.up.up, false);
    var m1 := SetRed(m, p.n, false);
    PaintAt(m1, g.(l := g.l.(red := false)), p.up.up, true);
    var m2 := SetRed(m1, p.up.n, true);
    RotateRightRep(m2, t, p.n, false, p.r, p.up.n, true, p.up.r, p.up.up);
    AtUp(RotateRight(m2, p.up.n), t, InLeft(p.n, false, Bin(p.r, p.up.n, true, p.up.r), p.up.up));
  }

  lemma OuterLeft(m: Mem, t: Tree, p: Path)
    requires At(m, t, p) && p.InRight? && p.up.InRight?
    ensures Has(m, p.n) && Has(m, p.up.n)
    ensures var m' := SetRed(SetRed(m, p.n, false), p.up.n, true);
            CanRotateLeft(m', p.up.n)
            && At(RotateLeft(m', p.up.n), t, InRight(Bin(p.up.l, p.up.n, true, p.l), p.n, false, p.up.up))
  {
    AtUp(m, t, p);
    AtUp(m, Up(p, t), p.up);
    var g := Up(p.up, Up(p, t));
    PaintRight(m, g, p.up.up, false);
    var m1 := SetRed(m, p.n, false);
    PaintAt(m1, g.(r := g.r.(red := false)), p.up.up, true);
    var m2 := SetRed(m1, p.up.n, true);
    RotateLeftRep(m2, p.up.l, p.up.n, true, p.l, p.n, false, t, p.up.up);
    AtUp(RotateLeft(m2, p.up.n), t, InRight(Bin(p.up.l, p.up.n, true, p.l), p.n, false, p.up.up));
  }

  lemma PastRedRound(m: Mem, t: Tree, p: Path)
    requires At(m, t, p) && p != Top && Sibling(p).Bin?
    ensures Has(m, p.n) && Has(m, Root(Sibling(p)))
    ensures var m' := SetRed(SetRed(m, Sibling(p).n, false), p.n, true);
            if p.InLeft? then CanRotateLeft(m', p.n) && At(RotateLeft(m', p.n), t, PastRedSibling(p))
            else CanRotateRight(m', p.n) && At(RotateRight(m', p.n), t, PastRedSibling(p))
  {
    Around(m, t, p);
    AtUp(m, t, p);
    var s := Sibling(p);
    var whole := Up(p, t);
    var m1 := SetRed(m, s.n, false);
    var q := PastRedSibling(p);
    if p.InLeft? {
      PaintRight(m, whole, p.up, false);
      PaintAt(m1, whole.(r := s.(red := false)), p.up, true);
      var m2 := SetRed(m1, p.n, true);
      RotateLeftRep(m2, t, p.n, true, s.l, s.n, false, s.r, p.up);
      AtUp(RotateLeft(m2, p.n), Up(q, t), q.up);
      AtUp(RotateLeft(m2, p.n), t, q);
    } else {
      PaintLeft(m, whole, p.up, false);
      PaintAt(m1, whole.(l := s.(red := false)), p.up, true);
      var m2 := SetRed(m1, p.n, true);
      RotateRightRep(m2, s.l, s.n, false, s.r, p.n, true, t, p.up);
      AtUp(RotateRight(m2, p.n), Up(q, t), q.up);
      AtUp(RotateRight(m2, p.n), t, q);
    }
  }

  lemma SinkRound(m: Mem, t: Tree, p: Path)
    requires At(m, t, p) && p != Top && Sibling(p).Bin?
    ensures Has(m, Root(Sibling(p)))
    ensures At(SetRed(m, Sibling(p).n, true), Up(WithSibling(p, Sibling(p).(red := true)), t), p.up)
  {
    AtUp(m, t, p);
    if p.InLeft? { PaintRight(m, Up(p, t), p.up, true); } else { PaintLeft(m, Up(p, t), p.up, true); }
  }

  lemma StraightenRound(m: Mem, t: Tree, p: Path)
    requires At(m, t, p) && p != Top && Sibling(p).Bin? && !IsRed(Far(p)) && IsRed(Near(p))
    ensures Has(m, Root(Near(p))) && Has(m, Root(Sibling(p)))
    ensures var m' := SetRed(SetRed(m, Near(p).n, false), Sibling(p).n, true);
            if p.InLeft? then
              CanRotateRight(m', Sibling(p).n) && At(RotateRight(m', Sibling(p).n), t, WithSibling(p, Straightened(p)))
            else CanRotateLeft(m', Sibling(p).n) && At(RotateLeft(m', Sibling(p).n), t, WithSibling(p, Straightened(p)))
  {
    AtUp(m, t, p);
    var s := Sibling(p);
    var q := WithSibling(p, Straightened(p));
    if p.InLeft? {
      var hole := InRight(t, p.n, p.red, p.up);
      AtUp(m, s, hole);
      PaintLeft(m, s, hole, false);
      var m1 := SetRed(m, s.l.n, false);
      PaintAt(m1, s.(l := s.l.(red := false)), hole, true);
      var m2 := SetRed(m1, s.n, true);
      RotateRightRep(m2, s.l.l, s.l.n, false, s.l.r, s.n, true, s.r, hole);
      AtUp(RotateRight(m2, s.n), Straightened(p), hole);
      AtUp(RotateRight(m2, s.n), t, q);
    } else {
      var hole := InLeft(p.n, p.red, t, p.up);
      AtUp(m, s, hole);
      PaintRight(m, s, hole, false);
      var m1 := SetRed(m, s.r.n, false);
      PaintAt(m1, s.(r := s.r.(red := false)), hole, true);
      var m2 := SetRed(m1, s.n, true);
      RotateLeftRep(m2, s.l, s.n, true, s.r.l, s.r.n, false, s.r.r, hole);
      AtUp(RotateLeft(m2, s.n), Straightened(p), hole);
      AtUp(RotateLeft(m2, s.n), t, q);
    }
  }

  lemma LiftRound(m: Mem, t: Tree, p: Path)
    requires At(m, t, p) && p != Top && Sibling(p).Bin? && Far(p).Bin?
    ensures Has(m, p.n) && Has(m, Root(Sibling(p))) && Has(m, Root(Far(p)))
    ensures var m' := SetRed(SetRed(SetRed(m, Sibling(p).n, p.red), p.n, false), Far(p).n, false);
            if p.InLeft? then CanRotateLeft(m', p.n) && At(RotateLeft(m', p.n), Lifted(p, t), p.up)
            else CanRotateRight(m', p.n) && At(RotateRight(m', p.n), Lifted(p, t), p.up)
  {
    AtUp(m, t, p);
    var s := Sibling(p);
    var whole := Up(p, t);
    var m1 := SetRed(m, s.n, p.red);
    var m2 := SetRed(m1, p.n, false);
    if p.InLeft? {
      PaintRight(m, whole, p.up, p.red);
      var w1 := whole.(r := s.(red := p.red));
      PaintAt(m1, w1, p.up, false);
      var w2 := w1.(red := false);
      var hole := InRight(t, p.n, false, p.up);
      AtUp(m2, w2.r, hole);
      PaintRight(m2, w2.r, hole, false);
      AtUp(SetRed(m2, s.r.n, false), w2.r.(r := s.r.(red := false)), hole);
      RotateLeftRep(SetRed(m2, s.r.n, false), t, p.n, false, s.l, s.n, p.red, s.r.(red := false), p.up);
    } else {
      PaintLeft(m, whole, p.up, p.red);
      var w1 := whole.(l := s.(red := p.red));
      PaintAt(m1, w1, p.up, false);
      var w2 := w1.(red := false);
      var hole := InLeft(p.n, false, t, p.up);
      AtUp(m2, w2.l, hole);
      PaintLeft(m2, w2.l, hole, false);
      AtUp(SetRed(m2, s.l.n, false), w2.l.(l := s.l.(red := false)), hole);
      RotateRightRep(SetRed(m2, s.l.n, false), s.l.(red := false), s.n, p.red, s.r, p.n, false, t, p.up);
    }
  }

  lemma {:induction false} RootAbove(m: Mem, t: Tree, p: Path)
    requires At(m, t, p)
    ensures if p == Top then m.root == Root(t) else m.root != null && m.root in PathNodes(p) && m.root != Root(t)
    decreases p
  {
    if p != Top {
      AtUp(m, t, p);
      RootAbove(m, Up(p, t), p.up);
    }
  }

  // ---------- taking a node out, putting one in ----------

  function OnlyChild(t: Tree): Tree
    requires t.Bin?
  {
    if t.l.Nil? then t.r else t.l
  }

  /** A node with at most one child is replaced by that child. */
  lemma SpliceRound(m: Mem, t: Tree, p: Path)
    requires At(m, t, p) && t.Bin? && (t.l.Nil? || t.r.Nil?)
    ensures Root(OnlyChild(t)) != null ==> Has(m, Root(OnlyChild(t)))
    ensures Above(p) != null ==> Has(m, Above(p))
    ensures var m' := Relink(SetParent(m, Root(OnlyChild(t)), Above(p)), Above(p), t.n, Root(OnlyChild(t)));
            At(m', OnlyChild(t), p) && m'.cells[t.n] == m.cells[t.n]
  {
    var ch := OnlyChild(t);
    SetParentRep(m, ch, t.n, Above(p));
    var m1 := SetParent(m, Root(ch), Above(p));
    assert SameOn(m, m1, PathNodes(p)) && SameOn(m, m1, {t.n});
    PathFrame(m, m1, p, t.n);
    RelinkRep(m1, p, t.n, Root(ch));
    var m2 := Relink(m1, Above(p), t.n, Root(ch));
    assert SameOn(m1, m2, Nodes(ch)) && SameOn(m1, m2, {t.n});
    RepFrame(m1, m2, ch, Above(p));
  }

  /** A node `s` outside the tree takes over the fields and the place of the root of `t`. */
  lemma ReplaceRound(m: Mem, t: Tree, p: Path, s: Node)
    requires At(m, t, p) && t.Bin? && t.l.Bin? && s in m.cells && s !in Nodes(t) && s !in PathNodes(p)
    ensures Has(m, t.n) && Has(m, t.l.n) && (t.r.Bin? ==> Has(m, t.r.n)) && (Above(p) != null ==> Has(m, Above(p)))
    ensures var m1 := m.(cells := m.cells[s := m.cells[t.n]]);
            var m2 := Relink(m1, Above(p), t.n, s);
            var m3 := SetParent(m2, t.l.n, s);
            At(SetParent(m3, Root(t.r), s), t.(n := s), p)
  {
    var m1 := m.(cells := m.cells[s := m.cells[t.n]]);
    assert Rep(m, t.l, t.n) && Rep(m, t.r, t.n);
    RepFrame(m, m1, t.l, t.n);
    RepFrame(m, m1, t.r, t.n);
    PathFrame(m, m1, p, t.n);
    RelinkRep(m1, p, t.n, s);
    var m2 := Relink(m1, Above(p), t.n, s);
    assert SameOn(m1, m2, Nodes(t.l)) && SameOn(m1, m2, Nodes(t.r)) && SameOn(m1, m2, {s});
    RepFrame(m1, m2, t.l, t.n);
    RepFrame(m1, m2, t.r, t.n);
    ReplaceKids(m2, t, p, s);
  }

  lemma RenameZipped(t: Tree, p: Path, s: Node)
    requires t.Bin? && Zipped(t, p) && s !in Nodes(t) && s !in PathNodes(p)
    ensures Zipped(t.(n := s), p)
    ensures {s} !! Nodes(t.l) && {s} !! Nodes(t.r) && {s} !! PathNodes(p) && Nodes(t.l) !! Nodes(t.r)
    ensures Nodes(t.l) !! PathNodes(p) && Nodes(t.r) !! PathNodes(p) && Distinct(t.l) && Distinct(t.r)
  {
  }

  lemma ReplaceKids(m: Mem, t: Tree, p: Path, s: Node)
    requires t.Bin? && t.l.Bin? && Zipped(t, p) && s !in Nodes(t) && s !in PathNodes(p)
    requires Rep(m, t.l, t.n) && Rep(m, t.r, t.n) && PathRep(m, p, s)
    requires s in m.cells && m.cells[s] == Cell(Root(t.l), Root(t.r), Above(p), t.red)
    ensures t.l.n in m.cells && (t.r.Bin? ==> t.r.n in m.cells)
    ensures At(SetParent(SetParent(m, t.l.n, s), Root(t.r), s), t.(n := s), p)
  {
    RenameZipped(t, p, s);
    SetParentRep(m, t.l, t.n, s);
    var m1 := SetParent(m, t.l.n, s);
    assert SameOn(m, m1, Nodes(t.r)) && SameOn(m, m1, PathNodes(p)) && SameOn(m, m1, {s});
    RepFrame(m, m1, t.r, t.n);
    PathFrame(m, m1, p, s);
    SetParentRep(m1, t.r, t.n, s);
    var m2 := SetParent(m1, Root(t.r), s);
    assert SameOn(m1, m2, Nodes(t.l)) && SameOn(m1, m2, PathNodes(p)) && SameOn(m1, m2, {s});
    RepFrame(m1, m2, t.l, s);
    PathFrame(m1, m2, p, s);
  }

  /** A new red leaf goes into an empty hole. */
  lemma HangRound(m: Mem, p: Path, n: Node)
    requires At(m, Nil, p) && n in m.cells && n !in PathNodes(p)
    ensures Above(p) != null ==> Has(m, Above(p))
    ensures var m1 := m.(cells := m.cells[n := Cell(null, null, Above(p), true)]);
            var m2 := if p.Top? then m1.(root := n) else if p.InLeft? then SetLeft(m1, p.n, n)
                      else SetRight(m1, p.n, n);
            At(m2, Bin(Nil, n, true, Nil), p)
  {
    var m1 := m.(cells := m.cells[n := Cell(null, null, Above(p), true)]);
    PathFrame(m, m1, p, null);
    var m2 := if p.Top? then m1.(root := n) else if p.InLeft? then SetLeft(m1, p.n, n) else SetRight(m1, p.n, n);
    if p != Top {
      assert SameOn(m1, m2, Nodes(Sibling(p))) && SameOn(m1, m2, PathNodes(p.up));
      RepFrame(m1, m2, Sibling(p), p.n);
      PathFrame(m1, m2, p.up, p.n);
    }
  }

  // ---------- removal, on abstract trees ----------

  /** Only left turns: the way down to a leftmost node. */
  predicate Spine(q: Path)
  {
    q == Top || (q.InLeft? && Spine(q.up))
  }

  lemma {:induction false} SpineOrder(q: Path, p: Path)
    requires Spine(q)
    ensures Before(Join(q, p)) == Before(p) && After(Join(q, p)) == After(q) + After(p)
    decreases q
  {
    if q != Top {
      SpineOrder(q.up, p);
      assert ([q.n] + Inorder(q.r) + After(q.up)) + After(p) == [q.n] + Inorder(q.r) + (After(q.up) + After(p));
    }
  }

  /** Which node stands in a frame does not matter for the colours. */
  lemma {:induction false} RenameBalanced(q: Path, l: Tree, n: Node, n': Node, c: bool, up: Path, h: nat)
    ensures PathBalanced(Join(q, InRight(l, n, c, up)), h) <==> PathBalanced(Join(q, InRight(l, n', c, up)), h)
    ensures BlackPath(Join(q, InRight(l, n, c, up))) <==> BlackPath(Join(q, InRight(l, n', c, up)))
    decreases q
  {
    if q != Top { RenameBalanced(q.up, l, n, n', c, up, h + if q.red then 0 else 1); }
  }

  /** The tree after the splice, its red-black conditions repaired when a black node went. */
  function Spliced(p: Path, t: Tree): Tree
    requires t.Bin?
  {
    if t.red then Plug(p, OnlyChild(t)) else Refilled(p, OnlyChild(t))
  }

  lemma SplicedOk(p: Path, t: Tree)
    requires t.Bin? && (t.l.Nil? || t.r.Nil?)
    requires Balanced(t) && PathBalanced(p, BlackHeight(t))
    ensures RedBlack(Spliced(p, t))
    ensures Inorder(Spliced(p, t)) == Before(p) + Inorder(OnlyChild(t)) + After(p)
  {
    var ch := OnlyChild(t);
    InorderPlug(p, ch);
    assert Balanced(ch);
    if t.red {
      BalancedPlug(p, ch);
    } else {
      RefilledOk(p, ch);
    }
  }

  lemma SunkShort(p: Path, t: Tree)
    requires Short(p, t) && !IsRed(t) && p != Top && Sibling(p).Bin? && !Sibling(p).red
    requires !IsRed(Near(p)) && !IsRed(Far(p)) && !p.red
    ensures Short(p.up, Up(WithSibling(p, Sibling(p).(red := true)), t))
  {
    var s := Sibling(p);
    assert Balanced(s) && BlackHeight(s) == BlackHeight(t) + 1;
    var s' := s.(red := true);
    assert Balanced(s') && BlackHeight(s') == BlackHeight(t) && Balanced(t);
    var t' := Up(WithSibling(p, s'), t);
    assert Balanced(t'.l) && Balanced(t'.r) && BlackHeight(t'.l) == BlackHeight(t'.r);
    assert BlackHeight(t') == BlackHeight(t) + 1;
  }

  /** What is left to do once the sibling is black, in terms of the whole repair. */
  lemma RefilledStep(p: Path, t: Tree)
    requires Short(p, t) && !IsRed(t) && p != Top
    ensures Sibling(p).Bin?
    ensures var q := if Sibling(p).red then PastRedSibling(p) else p;
            && Short(q, t) && q != Top && Sibling(q).Bin? && !Sibling(q).red
            && if IsRed(Near(q)) || IsRed(Far(q)) then Settled(q, t) == Refilled(p, t)
               else
                 var t' := Up(WithSibling(q, Sibling(q).(red := true)), t);
                 Refilled(q.up, t') == Refilled(p, t) && (IsRed(t') || (Short(q.up, t') && q.up == p.up))
  {
    assert BlackHeight(Sibling(p)) == BlackHeight(t) + 1 && Balanced(Sibling(p));
    if Sibling(p).red {
      PastRedSiblingOk(p, t);
    } else if !IsRed(Near(p)) && !IsRed(Far(p)) && !p.red {
      SunkShort(p, t);
    }
  }

  // ---------- searching ----------

  predicate AllBelow(s: seq<Node>, k: int)
  {
    forall i :: 0 <= i < |s| ==> s[i].key < k
  }

  predicate AllAbove(s: seq<Node>, k: int)
  {
    forall i :: 0 <= i < |s| ==> k < s[i].key
  }

  /** Everything left of the hole is below `k` and everything right of it above. */
  predicate Brackets(p: Path, k: int)
  {
    AllBelow(Before(p), k) && AllAbove(After(p), k)
  }

  lemma SortedParts(a: seq<Node>, b: seq<Node>, n: Node, c: seq<Node>, d: seq<Node>)
    requires Sorted(a + (b + [n] + c) + d)
    ensures AllBelow(b, n.key) && AllAbove(c, n.key) && AllBelow(a, n.key) && AllAbove(d, n.key)
    ensures Sorted(a + b + [n] + c + d)
  {
    var s := a + (b + [n] + c) + d;
    assert s == a + b + [n] + c + d;
    assert s[|a| + |b|] == n;
    forall i | 0 <= i < |b| ensures b[i].key < n.key { assert s[|a| + i] == b[i]; }
    forall i | 0 <= i < |a| ensures a[i].key < n.key { assert s[i] == a[i]; }
    forall i | 0 <= i < |c| ensures n.key < c[i].key { assert s[|a| + |b| + 1 + i] == c[i]; }
    forall i | 0 <= i < |d| ensures n.key < d[i].key { assert s[|a| + |b| + 1 + |c| + i] == d[i]; }
  }

  /** Parts around `n` that keep clear of `n.key` keep clear of any key beyond it. */
  lemma Beyond(a: seq<Node>, b: seq<Node>, n: Node, k: int)
    ensures AllBelow(a, n.key) && AllBelow(b, k) && n.key < k ==> AllBelow(b + a + [n], k)
    ensures AllAbove(a, n.key) && AllAbove(b, k) && k < n.key ==> AllAbove([n] + a + b, k)
    ensures AllBelow(a, k) && AllBelow(b, k) ==> AllBelow(b + a, k)
    ensures AllAbove(a, k) && AllAbove(b, k) ==> AllAbove(a + b, k)
  {
  }

  /** A comparison with the root of `t` says on which side of it `k` belongs. */
  lemma Narrow(p: Path, t: Tree, k: int)
    requires t.Bin? && Brackets(p, k) && Sorted(Inorder(Plug(p, t)))
    ensures k < t.n.key ==> Brackets(InLeft(t.n, t.red, t.r, p), k)
    ensures t.n.key < k ==> Brackets(InRight(t.l, t.n, t.red, p), k)
    ensures t.n.key == k ==> AllBelow(Before(p) + Inorder(t.l), k) && AllAbove(Inorder(t.r) + After(p), k)
  {
    InorderPlug(p, t);
    SortedParts(Before(p), Inorder(t.l), t.n, Inorder(t.r), After(p));
    Beyond(Inorder(t.l), Before(p), t.n, k);
    Beyond(Inorder(t.r), After(p), t.n, k);
  }

  lemma SortedInsert(a: seq<Node>, n: Node, b: seq<Node>)
    requires Sorted(a + b) && AllBelow(a, n.key) && AllAbove(b, n.key)
    ensures Sorted(a + [n] + b)
  {
    var s := a + [n] + b;
    forall i, j | 0 <= i < j < |s| ensures s[i].key < s[j].key {
      if j < |a| { assert (a + b)[i] == s[i] && (a + b)[j] == s[j]; }
      else if i > |a| { assert (a + b)[i - 1] == s[i] && (a + b)[j - 1] == s[j]; }
    }
  }

  lemma SortedDrop(a: seq<Node>, n: Node, b: seq<Node>)
    requires Sorted(a + [n] + b)
    ensures Sorted(a + b) && AllBelow(a, n.key) && AllAbove(b, n.key)
  {
    var s := a + [n] + b;
    assert s[|a|] == n;
    forall i, j | 0 <= i < j < |a + b| ensures (a + b)[i].key < (a + b)[j].key {
      assert (a + b)[i] == s[if i < |a| then i else i + 1];
      assert (a + b)[j] == s[if j < |a| then j else j + 1];
    }
    forall i | 0 <= i < |a| ensures a[i].key < n.key { assert s[i] == a[i]; }
    forall i | 0 <= i < |b| ensures n.key < b[i].key { assert s[|a| + 1 + i] == b[i]; }
  }

  /** The zipper at a given node. */
  lemma {:induction false} Locate(t: Tree, p: Path, n: Node) returns (t': Tree, p': Path)
    requires n in Nodes(t)
    ensures t'.Bin? && t'.n == n && Plug(p', t') == Plug(p, t)
  {
    if t.n == n {
      t', p' := t, p;
    } else if n in Nodes(t.l) {
      t', p' := Locate(t.l, InLeft(t.n, t.red, t.r, p), n);
    } else {
      t', p' := Locate(t.r, InRight(t.l, t.n, t.red, p), n);
    }
  }

  // ---------- whole operations, on abstract trees ----------

  lemma LeafFixed(t: Tree, p: Path, n: Node)
    requires RedBlack(t) && Plug(p, Nil) == t
    ensures RedAtHole(p, Bin(Nil, n, true, Nil)) && RedBlack(Fixed(p, Bin(Nil, n, true, Nil)))
    ensures Inorder(t) == Before(p) + After(p) &&
            Inorder(Fixed(p, Bin(Nil, n, true, Nil))) == Before(p) + [n] + After(p)
  {
    InorderPlug(p, Nil);
    BalancedPlug(p, Nil);
    FixedOk(p, Bin(Nil, n, true, Nil));
    assert Before(p) + [] == Before(p);
  }

  /** A new red leaf, and what RB_INSERT_COLOR makes of it. */
  lemma LeafOk(t: Tree, p: Path, n: Node)
    requires RedBlack(t) && Plug(p, Nil) == t && Sorted(Inorder(t)) && Brackets(p, n.key)
    ensures var t' := Fixed(p, Bin(Nil, n, true, Nil));
            && RedAtHole(p, Bin(Nil, n, true, Nil))
            && RedBlack(t') && Sorted(Inorder(t')) && Nodes(t') == Nodes(t) + {n}
            && Inorder(t) == Before(p) + After(p) && Inorder(t') == Before(p) + [n] + After(p)
    ensures PathNodes(p) == Nodes(t)
  {
    LeafFixed(t, p, n);
    NodesPlug(p, Nil);
    SortedInsert(Before(p), n, After(p));
    SameNodes(t, Fixed(p, Bin(Nil, n, true, Nil)), n, Before(p), After(p));
  }

  lemma SameNodes(t: Tree, t': Tree, n: Node, a: seq<Node>, b: seq<Node>)
    requires Inorder(t) == a + b && Inorder(t') == a + [n] + b
    ensures Nodes(t') == Nodes(t) + {n}
  {
    InorderNodes(t);
    InorderNodes(t');
    ElemsSum(a, b);
    ElemsSum(a + [n], b);
    ElemsSum(a, [n]);
    assert Elems([n]) == {n};
  }

  /** `t` is the tree `w` without the node `n`, which stood at position `i`. */
  ghost predicate Without(t: Tree, w: Tree, n: Node, i: nat)
  {
    && RedBlack(t)
    && i < |Inorder(w)| && Inorder(w)[i] == n
    && Inorder(t) == Inorder(w)[..i] + Inorder(w)[i + 1..]
  }

  lemma WithoutOk(t: Tree, w: Tree, n: Node, a: seq<Node>, b: seq<Node>)
    requires RedBlack(t) && Inorder(w) == a + [n] + b && Inorder(t) == a + b
    ensures Without(t, w, n, |a|)
  {
  }

  lemma WithoutNodes(t: Tree, w: Tree, n: Node, i: nat)
    requires Without(t, w, n, i) && Sorted(Inorder(w))
    ensures Sorted(Inorder(t)) && Nodes(t) == Nodes(w) - {n} && n !in Nodes(t)
  {
    var a, b := Inorder(w)[..i], Inorder(w)[i + 1..];
    assert Inorder(w) == a + [n] + b;
    SortedDrop(a, n, b);
    SameNodes(t, w, n, a, b);
    InorderNodes(t);
    ElemsSum(a, b);
  }

  lemma Assoc(a: seq<Node>, b: seq<Node>, n: seq<Node>, c: seq<Node>, d: seq<Node>)
    ensures a + (b + n + c) + d == (a + b) + n + (c + d)
    ensures a + (b + c) + d == (a + b) + (c + d)
  {
  }

  lemma RemoveLeafOk(w: Tree, t: Tree, p: Path)
    requires RedBlack(w) && Plug(p, t) == w && t.Bin? && (t.l.Nil? || t.r.Nil?)
    ensures Without(Spliced(p, t), w, t.n, |Before(p) + Inorder(t.l)|)
  {
    BalancedPlug(p, t);
    SplicedOk(p, t);
    var b, c := Inorder(t.l), Inorder(t.r);
    assert Inorder(OnlyChild(t)) == b + c;
    LeafOrder(w, Spliced(p, t), t.n, Before(p), b, c, After(p), p, t);
  }

  lemma LeafOrder(w: Tree, w': Tree, n: Node, a: seq<Node>, b: seq<Node>, c: seq<Node>, d: seq<Node>, p: Path, t: Tree)
    requires RedBlack(w') && Plug(p, t) == w && a == Before(p) && d == After(p)
    requires Inorder(t) == b + [n] + c && Inorder(w') == a + (b + c) + d
    ensures Without(w', w, n, |a + b|)
  {
    InorderPlug(p, t);
    Assoc(a, b, [n], c, d);
    WithoutOk(w', w, n, a + b, c + d);
  }

  /** The nodes behind the successor in the order. */
  function Behind(p: Path, q: Path, x: Tree): seq<Node>
    requires x.Bin?
  {
    [x.n] + Inorder(x.r) + After(q) + After(p)
  }

  /** Removing a node with two children: its successor `x.n`, at the end of the spine `q` of the right
      subtree, is spliced out and takes its place. */
  lemma RemoveInnerOk(w: Tree, t: Tree, p: Path, q: Path, x: Tree)
    requires RedBlack(w) && Plug(p, t) == w && t.Bin? && Spine(q) && x.Bin? && x.l.Nil? && t.r == Plug(q, x)
    ensures Without(Spliced(Join(q, InRight(t.l, x.n, t.red, p)), x), w, t.n, |Before(p) + Inorder(t.l)|)
  {
    InnerBefore(w, t, p, q, x);
    InnerAfter(w, t, p, q, x);
    WithoutOk(Spliced(Join(q, InRight(t.l, x.n, t.red, p)), x), w, t.n, Before(p) + Inorder(t.l), Behind(p, q, x));
  }

  lemma InnerBefore(w: Tree, t: Tree, p: Path, q: Path, x: Tree)
    requires Plug(p, t) == w && t.Bin? && Spine(q) && x.Bin? && x.l.Nil? && t.r == Plug(q, x)
    ensures Inorder(w) == (Before(p) + Inorder(t.l)) + [t.n] + Behind(p, q, x)
  {
    InorderPlug(p, t);
    InnerInorder(t, q, x);
    Assoc(Before(p), Inorder(t.l), [t.n], [x.n] + Inorder(x.r) + After(q), After(p));
  }

  lemma InnerAfter(w: Tree, t: Tree, p: Path, q: Path, x: Tree)
    requires RedBlack(w) && Plug(p, t) == w && t.Bin? && Spine(q) && x.Bin? && x.l.Nil? && t.r == Plug(q, x)
    ensures var w' := Spliced(Join(q, InRight(t.l, x.n, t.red, p)), x);
      RedBlack(w') && Inorder(w') == (Before(p) + Inorder(t.l)) + Behind(p, q, x)
  {
    InnerBalanced(w, t, p, q, x);
    SplicedOk(Join(q, InRight(t.l, x.n, t.red, p)), x);
    InnerContext(t, p, q, x);
    Tail(Before(p) + Inorder(t.l), [x.n], Inorder(x.r), After(q), After(p));
  }

  lemma InnerContext(t: Tree, p: Path, q: Path, x: Tree)
    requires t.Bin? && Spine(q) && x.Bin? && x.l.Nil? && t.r == Plug(q, x)
    ensures var j := Join(q, InRight(t.l, x.n, t.red, p));
            && Before(j) == Before(p) + Inorder(t.l) + [x.n] && After(j) == After(q) + After(p)
  {
    SpineOrder(q, InRight(t.l, x.n, t.red, p));
  }

  lemma InnerInorder(t: Tree, q: Path, x: Tree)
    requires t.Bin? && Spine(q) && x.Bin? && x.l.Nil? && t.r == Plug(q, x)
    ensures Inorder(t) == Inorder(t.l) + [t.n] + ([x.n] + Inorder(x.r) + After(q))
  {
    SpineSeq(q, x);
  }

  lemma SpineSeq(q: Path, x: Tree)
    requires Spine(q) && x.Bin? && x.l.Nil?
    ensures Inorder(Plug(q, x)) == [x.n] + Inorder(x.r) + After(q)
  {
    SpineBefore(q);
    InorderPlug(q, x);
    assert Inorder(x) == [x.n] + Inorder(x.r);
  }

  lemma Tail(a: seq<Node>, s: seq<Node>, c: seq<Node>, e: seq<Node>, d: seq<Node>)
    ensures (a + s) + c + (e + d) == a + ((s + c + e) + d)
  {
  }

  /** The colours below the successor's new frame are those below the removed node's. */
  lemma InnerBalanced(w: Tree, t: Tree, p: Path, q: Path, x: Tree)
    requires RedBlack(w) && Plug(p, t) == w && t.Bin? && x.Bin? && t.r == Plug(q, x)
    ensures Balanced(x) && PathBalanced(Join(q, InRight(t.l, x.n, t.red, p)), BlackHeight(x))
  {
    var h := InRight(t.l, t.n, t.red, p);
    BalancedPlug(p, t);
    PlugJoin(q, h, x);
    BalancedPlug(Join(q, h), x);
    RenameBalanced(q, t.l, t.n, x.n, t.red, p, BlackHeight(x));
  }

  lemma ShortAfterSplice(p: Path, x: Tree)
    requires x.Bin? && (x.l.Nil? || x.r.Nil?) && Balanced(x) && PathBalanced(p, BlackHeight(x))
    ensures !x.red ==> Short(p, OnlyChild(x))
  {
  }

  lemma OuterShort(w: Tree, t: Tree, p: Path)
    requires RedBlack(w) && Plug(p, t) == w && t.Bin? && (t.l.Nil? || t.r.Nil?)
    ensures !t.red ==> Short(p, OnlyChild(t))
  {
    BalancedPlug(p, t);
    ShortAfterSplice(p, t);
  }

  lemma InnerShort(w: Tree, t: Tree, p: Path, q: Path, x: Tree)
    requires RedBlack(w) && Plug(p, t) == w && t.Bin? && x.Bin? && x.l.Nil? && t.r == Plug(q, x)
    ensures var j := Join(q, InRight(t.l, x.n, t.red, p));
            && (!x.red ==> Short(j, x.r))
            && Above(j) == (if q == Top then x.n else q.n)
            && Above(Join(q, InRight(t.l, t.n, t.red, p))) == (if q == Top then t.n else q.n)
  {
    InnerBalanced(w, t, p, q, x);
    ShortAfterSplice(Join(q, InRight(t.l, x.n, t.red, p)), x);
  }

  lemma {:induction false} SpineBefore(q: Path)
    requires Spine(q)
    ensures Before(q) == []
    decreases q
  {
    if q != Top { SpineBefore(q.up); }
  }

  /** Dropping the cell of a node that is not in the tree. */
  lemma ShrinkAt(m: Mem, m': Mem, t: Tree, n: Node)
    requires At(m, t, Top) && n !in Nodes(t) && m'.root == m.root
    requires forall x :: x in m.cells && x != n ==> x in m'.cells && m'.cells[x] == m.cells[x]
    ensures At(m', t, Top)
  {
    RepFrame(m, m', t, null);
  }
}
