/**
 The binary min heap of intrusive nodes: what its pointer surgery computes.

 The heap is a complete binary tree.  Position 1 is the root and position `k` has its children at
 `2 * k` and `2 * k + 1`; `Rep` says that the pointers of a snapshot link a sequence of nodes that way.
 */
module HeapShape {
  import opened Basics

  class Node {
    var left: Node?
    var right: Node?
    var parent: Node?
    constructor () {}
  }

  datatype Cell = Cell(left: Node?, right: Node?, parent: Node?)

  datatype Mem = Mem(cells: map<Node, Cell>, min: Node?)

  /** The node at position `k`, counted from 1. */
  function NodeAt(s: seq<Node>, k: nat): Node?
  {
    if 1 <= k <= |s| then s[k - 1] else null
  }

  predicate CellAt(m: Mem, s: seq<Node>, k: nat)
    requires 1 <= k <= |s|
  {
    s[k - 1] in m.cells && m.cells[s[k - 1]] == Cell(NodeAt(s, 2 * k), NodeAt(s, 2 * k + 1), NodeAt(s, k / 2))
  }

  ghost predicate Rep(m: Mem, s: seq<Node>)
  {
    && Distinct(s)
    && m.min == NodeAt(s, 1)
    && forall k {:trigger CellAt(m, s, k)} :: 1 <= k <= |s| ==> CellAt(m, s, k)
  }

  function SetLeft(m: Mem, n: Node, x: Node?): Mem
    requires n in m.cells
  {
    m.(cells := m.cells[n := m.cells[n].(left := x)])
  }

  function SetRight(m: Mem, n: Node, x: Node?): Mem
    requires n in m.cells
  {
    m.(cells := m.cells[n := m.cells[n].(right := x)])
  }

  function SetParent(m: Mem, n: Node?, x: Node?): Mem
    requires n != null ==> n in m.cells
  {
    if n == null then m else m.(cells := m.cells[n := m.cells[n].(parent := x)])
  }

  predicate InMem(m: Mem, n: Node?)
  {
    n != null ==> n in m.cells
  }

  /** The pointers heap_node_swap follows lead to nodes of the snapshot. */
  predicate CanSwap(m: Mem, parent: Node, child: Node)
  {
    && parent in m.cells && child in m.cells
    && InMem(m, m.cells[parent].left) && InMem(m, m.cells[parent].right) && InMem(m, m.cells[parent].parent)
    && InMem(m, m.cells[child].left) && InMem(m, m.cells[child].right) && InMem(m, m.cells[child].parent)
  }

  /** The two nodes exchange their pointers; the child becomes the parent. */
  function Exchange(m: Mem, parent: Node, child: Node): Mem
    requires CanSwap(m, parent, child)
  {
    var m1 := m.(cells := m.cells[parent := m.cells[child]][child := m.cells[parent]]);
    var m2 := SetParent(m1, parent, child);
    if m2.cells[child].left == child
    then SetParent(SetLeft(m2, child, parent), m2.cells[child].right, child)
    else SetParent(SetRight(m2, child, parent), m2.cells[child].left, child)
  }

  /** The children a node has taken over learn about it. */
  function AdoptKids(m: Mem, n: Node): Mem
    requires n in m.cells && InMem(m, m.cells[n].left) && InMem(m, m.cells[n].right)
  {
    var m5 := SetParent(m, m.cells[n].left, n);
    SetParent(m5, m5.cells[n].right, n)
  }

  /** `child` takes the place of `parent` below the node above, or as the root. */
  function Promote(m: Mem, parent: Node, child: Node): Mem
    requires child in m.cells && InMem(m, m.cells[child].parent)
  {
    var up := m.cells[child].parent;
    if up == null then m.(min := child)
    else if m.cells[up].left == parent then SetLeft(m, up, child)
    else SetRight(m, up, child)
  }

  /** heap_node_swap. */
  function NodeSwap(m: Mem, parent: Node, child: Node): Mem
    requires CanSwap(m, parent, child)
  {
    Promote(AdoptKids(Exchange(m, parent, child), parent), parent, child)
  }

  lemma ExchangeInMem(m: Mem, parent: Node, child: Node)
    requires CanSwap(m, parent, child)
    ensures var m4 := Exchange(m, parent, child);
            && parent in m4.cells && child in m4.cells
            && InMem(m4, m4.cells[parent].left) && InMem(m4, m4.cells[parent].right) &&
               InMem(m4, m4.cells[child].parent)
            && var m6 := AdoptKids(m4, parent);
            child in m6.cells && InMem(m6, m6.cells[child].parent)
  {
  }

  function Swap(s: seq<Node>, i: nat, j: nat): seq<Node>
    requires 1 <= i <= |s| && 1 <= j <= |s|
  {
    s[i - 1 := s[j - 1]][j - 1 := s[i - 1]]
  }

  /** Position `c` is the left or right child of position `k`. */
  predicate IsChild(s: seq<Node>, k: nat, c: nat)
  {
    1 <= k && c <= |s| && (c == 2 * k || c == 2 * k + 1)
  }

  function Other(c: nat): nat
    requires c > 1
  {
    if c % 2 == 0 then c + 1 else c - 1
  }

  /** The cells of a position and of its neighbours. */
  lemma Near(m: Mem, s: seq<Node>, k: nat)
    requires Rep(m, s) && 1 <= k <= |s|
    ensures CellAt(m, s, k)
    ensures 2 * k <= |s| ==> CellAt(m, s, 2 * k)
    ensures 2 * k + 1 <= |s| ==> CellAt(m, s, 2 * k + 1)
    ensures k > 1 ==> CellAt(m, s, k / 2)
  {
  }

  lemma ExchangeCells(m: Mem, s: seq<Node>, k: nat, c: nat)
    requires Rep(m, s) && IsChild(s, k, c)
    ensures CanSwap(m, s[k - 1], s[c - 1])
    ensures var p, x := s[k - 1], s[c - 1];
            var m' := Exchange(m, p, x);
            var sib := NodeAt(s, Other(c));
            && m'.cells.Keys == m.cells.Keys && m'.min == m.min
            && m'.cells[p] == Cell(NodeAt(s, 2 * c), NodeAt(s, 2 * c + 1), x)
            && m'.cells[x] == Cell(if c == 2 * k then p else sib, if c == 2 * k then sib else p, NodeAt(s, k / 2))
            && (sib != null ==> m'.cells[sib] == m.cells[sib].(parent := x))
            && forall n :: n in m.cells && n != p && n != x && n != sib ==> m'.cells[n] == m.cells[n]
  {
    Near(m, s, k);
    Near(m, s, c);
    NeighboursDiffer(m, s, k, c);
  }

  /** `b` is `a` except that nodes whose cell differs are among the listed ones. */
  predicate SameBut(a: Mem, b: Mem, n1: Node?, n2: Node?, n3: Node?)
  {
    a.cells.Keys == b.cells.Keys && forall n :: n in a.cells && n != n1 && n != n2 && n != n3 ==>
      b.cells[n] == a.cells[n]
  }

  /** The cells after heap_node_swap, node by node. */
  ghost predicate Swapped(m: Mem, m': Mem, s: seq<Node>, k: nat, c: nat)
    requires IsChild(s, k, c)
  {
    var p, x := s[k - 1], s[c - 1];
    var l, r, up, sib := NodeAt(s, 2 * c), NodeAt(s, 2 * c + 1), NodeAt(s, k / 2), NodeAt(s, Other(c));
    && m'.cells.Keys == m.cells.Keys
    && p in m.cells && m'.cells[p] == Cell(l, r, x)
    && x in m.cells && m'.cells[x] == Cell(if c == 2 * k then p else sib, if c == 2 * k then sib else p, up)
    && (sib != null ==> sib in m.cells && m'.cells[sib] == m.cells[sib].(parent := x))
    && (l != null ==> l in m.cells && m'.cells[l] == m.cells[l].(parent := p))
    && (r != null ==> r in m.cells && m'.cells[r] == m.cells[r].(parent := p))
    && (up != null ==>
          && up in m.cells
          && m'.cells[up] == if m.cells[up].left == p then m.cells[up].(left := x) else m.cells[up].(right := x))
    && m'.min == (if k == 1 then x else m.min)
    && Unswapped(m, m', s, k, c)
  }

  ghost predicate Unswapped(m: Mem, m': Mem, s: seq<Node>, k: nat, c: nat)
    requires IsChild(s, k, c)
  {
    forall n | n in m.cells && n != s[k - 1] && n != s[c - 1] && n != NodeAt(s, Other(c)) && n != NodeAt(s, 2 * c)
               && n != NodeAt(s, 2 * c + 1) && n != NodeAt(s, k / 2) ::
      n in m'.cells && m'.cells[n] == m.cells[n]
  }

  lemma AdoptCells(m: Mem, s: seq<Node>, k: nat, c: nat)
    requires Rep(m, s) && IsChild(s, k, c)
    ensures CanSwap(m, s[k - 1], s[c - 1])
    ensures var p, x := s[k - 1], s[c - 1];
            var m4 := Exchange(m, p, x);
            var m6 := AdoptKids(m4, p);
            var l, r := NodeAt(s, 2 * c), NodeAt(s, 2 * c + 1);
            && m6.cells.Keys == m.cells.Keys && m6.min == m.min
            && (l != null ==> l in m4.cells && m6.cells[l] == m4.cells[l].(parent := p))
            && (r != null ==> r in m4.cells && m6.cells[r] == m4.cells[r].(parent := p))
            && forall n :: n in m.cells && n != l && n != r ==> m6.cells[n] == m4.cells[n]
  {
    ExchangeCells(m, s, k, c);
    NeighboursDiffer(m, s, k, c);
  }

  lemma NodeSwapOthers(m: Mem, s: seq<Node>, k: nat, c: nat)
    requires Rep(m, s) && IsChild(s, k, c)
    ensures CanSwap(m, s[k - 1], s[c - 1])
    ensures Unswapped(m, NodeSwap(m, s[k - 1], s[c - 1]), s, k, c)
  {
    ExchangeCells(m, s, k, c);
    AdoptCells(m, s, k, c);
    NeighboursDiffer(m, s, k, c);
  }

  lemma NodeSwapCells(m: Mem, s: seq<Node>, k: nat, c: nat)
    requires Rep(m, s) && IsChild(s, k, c)
    ensures CanSwap(m, s[k - 1], s[c - 1])
    ensures Swapped(m, NodeSwap(m, s[k - 1], s[c - 1]), s, k, c)
  {
    NodeSwapOthers(m, s, k, c);
    ExchangeCells(m, s, k, c);
    AdoptCells(m, s, k, c);
    NeighboursDiffer(m, s, k, c);
    var m6 := AdoptKids(Exchange(m, s[k - 1], s[c - 1]), s[k - 1]);
    assert m6.cells[s[c - 1]].parent == NodeAt(s, k / 2);
  }

  lemma NeighboursDiffer(m: Mem, s: seq<Node>, k: nat, c: nat)
    requires Rep(m, s) && IsChild(s, k, c)
    ensures var p, x := s[k - 1], s[c - 1];
            var l, r, up, sib := NodeAt(s, 2 * c), NodeAt(s, 2 * c + 1), NodeAt(s, k / 2), NodeAt(s, Other(c));
            && InMem(m, l) && InMem(m, r) && InMem(m, up) && InMem(m, sib)
            && l != p && l != x && r != p && r != x && up != p && up != x && sib != p && sib != x
            && (l != null ==> l != r && l != up && l != sib) && (r != null ==> r != up && r != sib) &&
               (up != null ==> up != sib)
            && (up == null <==> k == 1)
  {
    Near(m, s, k);
    Near(m, s, c);
  }

  /** heap_node_swap exchanges two positions and keeps every link of the tree right. */
  lemma NodeSwapRep(m: Mem, s: seq<Node>, k: nat, c: nat)
    requires Rep(m, s) && IsChild(s, k, c)
    ensures CanSwap(m, s[k - 1], s[c - 1])
    ensures Rep(NodeSwap(m, s[k - 1], s[c - 1]), Swap(s, k, c))
    ensures NodeSwap(m, s[k - 1], s[c - 1]).cells.Keys == m.cells.Keys
  {
    NodeSwapCells(m, s, k, c);
    SwappedRep(m, NodeSwap(m, s[k - 1], s[c - 1]), s, k, c);
  }

  lemma SwappedRep(m: Mem, m': Mem, s: seq<Node>, k: nat, c: nat)
    requires Rep(m, s) && IsChild(s, k, c) && Swapped(m, m', s, k, c)
    ensures Rep(m', Swap(s, k, c))
  {
    var t := Swap(s, k, c);
    forall j | 1 <= j <= |t| ensures CellAt(m', t, j) {
      SwapCell(m, m', s, k, c, j);
    }
  }

  lemma SwapCell(m: Mem, m': Mem, s: seq<Node>, k: nat, c: nat, j: nat)
    requires Rep(m, s) && IsChild(s, k, c) && 1 <= j <= |s| && Swapped(m, m', s, k, c)
    ensures CellAt(m', Swap(s, k, c), j)
  {
    assert CellAt(m, s, j);
    var t := Swap(s, k, c);
    assert forall i :: 1 <= i <= |s| && i != k && i != c ==> NodeAt(t, i) == s[i - 1];
    if j == k {
    } else if j == c {
    } else if j == Other(c) {
    } else if j / 2 == c {
    } else if j == k / 2 {
    } else {
      assert 2 * j != k && 2 * j + 1 != k && 2 * j != c && 2 * j + 1 != c && j / 2 != k && j / 2 != c;
    }
  }

  // ---------- heap order ----------

  type Less = (Node, Node) -> bool

  /** A strict weak order on the nodes `all`: asymmetric, and "not less" is transitive. */
  ghost predicate StrictWeak(less: Less, all: set<Node>)
  {
    && (forall a, b | a in all && b in all && less(a, b) :: !less(b, a))
    && (forall a, b, c | a in all && b in all && c in all && less(a, c) :: less(a, b) || less(b, c))
  }

  predicate From(s: seq<Node>, all: set<Node>)
  {
    forall i :: 0 <= i < |s| ==> s[i] in all
  }

  /** Position `k` is not less than its parent. */
  predicate InOrder(s: seq<Node>, less: Less, k: nat)
    requires 2 <= k <= |s|
  {
    !less(s[k - 1], s[k / 2 - 1])
  }

  ghost predicate Ordered(s: seq<Node>, less: Less)
  {
    forall k {:trigger InOrder(s, less, k)} :: 2 <= k <= |s| ==> InOrder(s, less, k)
  }

  /** Position `k` is not less than its grandparent. */
  predicate InOrder2(s: seq<Node>, less: Less, k: nat)
    requires 4 <= k <= |s|
  {
    !less(s[k - 1], s[k / 2 / 2 - 1])
  }

  /** In order but for position `k`, whose children still fit below its parent. */
  ghost predicate OrderedBut(s: seq<Node>, less: Less, k: nat)
  {
    && (forall j {:trigger InOrder(s, less, j)} :: 2 <= j <= |s| && j != k && j / 2 != k ==> InOrder(s, less, j))
    && (forall j {:trigger InOrder2(s, less, j)} :: 4 <= j <= |s| && j / 2 == k ==> InOrder2(s, less, j))
  }

  /** The children of position `k` are in order. */
  ghost predicate KidsOrdered(s: seq<Node>, less: Less, k: nat)
  {
    forall j {:trigger InOrder(s, less, j)} :: 2 <= j <= |s| && j / 2 == k ==> InOrder(s, less, j)
  }

  /** The root of an ordered heap is least. */
  lemma {:induction false} RootIsLeast(s: seq<Node>, less: Less, all: set<Node>, k: nat)
    requires StrictWeak(less, all) && From(s, all) && Ordered(s, less) && 1 <= k <= |s|
    ensures !less(s[k - 1], s[0])
  {
    if k > 1 {
      assert InOrder(s, less, k);
      RootIsLeast(s, less, all, k / 2);
    }
  }

  /** One round of the walk up. */
  lemma UpRound(s: seq<Node>, less: Less, all: set<Node>, k: nat)
    requires StrictWeak(less, all) && From(s, all) && 2 <= k <= |s|
    requires OrderedBut(s, less, k) && KidsOrdered(s, less, k) && !InOrder(s, less, k)
    ensures OrderedBut(Swap(s, k / 2, k), less, k / 2) && KidsOrdered(Swap(s, k / 2, k), less, k / 2)
  {
    var t, p := Swap(s, k / 2, k), k / 2;
    forall j | 2 <= j <= |t| && j / 2 == p ensures InOrder(t, less, j) {
      if j != k { assert InOrder(s, less, j); }
    }
    forall j | 2 <= j <= |t| && j != p && j / 2 != p ensures InOrder(t, less, j) {
      if j / 2 == k {
        assert InOrder2(s, less, j) && j / 2 / 2 == p;
        assert t[j - 1] == s[j - 1] && t[j / 2 - 1] == s[p - 1];
        assert !less(s[j - 1], s[j / 2 / 2 - 1]);
      } else {
        assert InOrder(s, less, j);
        assert t[j - 1] == s[j - 1] && t[j / 2 - 1] == s[j / 2 - 1];
      }
    }
    forall j | 4 <= j <= |t| && j / 2 == p ensures InOrder2(t, less, j) {
      assert InOrder(s, less, p);
      if j != k { assert InOrder(s, less, j); }
    }
  }

  /** The child heap_remove's walk down swaps with: the least of a position and its children. */
  function Smallest(s: seq<Node>, less: Less, k: nat): nat
    requires 1 <= k <= |s|
  {
    var a := if 2 * k <= |s| && less(s[2 * k - 1], s[k - 1]) then 2 * k else k;
    if 2 * k + 1 <= |s| && less(s[2 * k], s[a - 1]) then 2 * k + 1 else a
  }

  /** One round of the walk down. */
  lemma DownRound(s: seq<Node>, less: Less, all: set<Node>, k: nat)
    requires StrictWeak(less, all) && From(s, all) && 1 <= k <= |s| && OrderedBut(s, less, k)
    ensures var c := Smallest(s, less, k);
            if c == k then KidsOrdered(s, less, k) else IsChild(s, k, c) && OrderedBut(Swap(s, k, c), less, c)
  {
    var c := Smallest(s, less, k);
    if c != k {
      SmallestLeast(s, less, all, k);
      var t := Swap(s, k, c);
      forall j | 2 <= j <= |t| && j != c && j / 2 != c ensures InOrder(t, less, j) {
        DownAt(s, less, k, c, j);
      }
      forall j | 4 <= j <= |t| && j / 2 == c ensures InOrder2(t, less, j) {
        UnderAt(s, less, k, c, j);
      }
    }
  }

  lemma UnderAt(s: seq<Node>, less: Less, k: nat, c: nat, j: nat)
    requires OrderedBut(s, less, k) && IsChild(s, k, c) && 4 <= j <= |s| && j / 2 == c
    ensures InOrder2(Swap(s, k, c), less, j)
  {
    var t := Swap(s, k, c);
    assert InOrder(s, less, j) && j / 2 / 2 == k;
    assert t[j - 1] == s[j - 1] && t[k - 1] == s[c - 1];
  }

  lemma SmallestLeast(s: seq<Node>, less: Less, all: set<Node>, k: nat)
    requires StrictWeak(less, all) && From(s, all) && 1 <= k <= |s| && Smallest(s, less, k) != k
    ensures var c := Smallest(s, less, k);
            IsChild(s, k, c) && (Other(c) <= |s| ==> !less(s[Other(c) - 1], s[c - 1]))
  {
  }

  lemma DownAt(s: seq<Node>, less: Less, k: nat, c: nat, j: nat)
    requires OrderedBut(s, less, k) && IsChild(s, k, c) && 2 <= j <= |s| && j != c && j / 2 != c
    requires Other(c) <= |s| ==> !less(s[Other(c) - 1], s[c - 1])
    ensures InOrder(Swap(s, k, c), less, j)
  {
    var t := Swap(s, k, c);
    if j == k {
      assert InOrder2(s, less, c) && c / 2 / 2 == j / 2;
      assert t[k - 1] == s[c - 1] && t[j / 2 - 1] == s[j / 2 - 1];
      assert !less(s[c - 1], s[c / 2 / 2 - 1]);
    } else if j / 2 == k {
      assert j == Other(c);
    } else {
      assert InOrder(s, less, j);
      assert t[j - 1] == s[j - 1] && t[j / 2 - 1] == s[j / 2 - 1];
    }
  }

  /** Nothing left to do. */
  lemma AllOrdered(s: seq<Node>, less: Less, k: nat)
    requires OrderedBut(s, less, k) && KidsOrdered(s, less, k) && (2 <= k <= |s| ==> InOrder(s, less, k))
    ensures Ordered(s, less)
  {
  }

  // ---------- the path to a position ----------

  /** The last `k` bits of `n`, the lowest one first in the sense of being highest in the result. */
  function PathOf(n: nat, k: nat): nat
  {
    if k == 0 then 0 else 2 * PathOf(n, k - 1) + Shr(n, k - 1) % 2
  }

  lemma PathStep(n: nat, k: nat)
    requires k > 0
    ensures PathOf(n, k) / 2 == PathOf(n, k - 1)
    ensures PathOf(n, k) % 2 == Shr(n, k - 1) % 2
    ensures Shr(n, k - 1) == 2 * Shr(n, k) + PathOf(n, k) % 2
  {
  }

  /** The path fits in the machine word that held `n`. */
  lemma {:induction false} PathSmall(n: nat, k: nat)
    requires Shr(n, k) >= 1
    ensures PathOf(n, k) < Pow2(k) && Pow2(k) * Shr(n, k) <= n
    ensures PathOf(n, k) < n || (n == 1 && PathOf(n, k) == 0)
  {
    if k > 0 {
      PathSmall(n, k - 1);
      HalfMore(Pow2(k - 1), Shr(n, k - 1));
    }
    MulMono(Pow2(k), 1, Shr(n, k));
  }

  lemma HalfMore(a: nat, b: nat)
    ensures 2 * a * (b / 2) <= a * b
  {
    MulMono(a, 2 * (b / 2), b);
    assert 2 * a * (b / 2) == a * (2 * (b / 2));
  }

  lemma {:induction false} ShrBelow(n: nat, k: nat)
    requires k > 0 && n > 0
    ensures Shr(n, k) < n
  {
    if k > 1 { ShrBelow(n, k - 1); }
  }

  // ---------- hanging, unhanging and replacing a node ----------

  /** The new last node is linked below its parent. */
  function Hung(m: Mem, parent: Node?, n: Node, right: bool): Mem
    requires InMem(m, parent)
  {
    var m1 := m.(cells := m.cells[n := Cell(null, null, parent)]);
    if parent == null then m1.(min := n)
    else if right then SetRight(m1, parent, n)
    else SetLeft(m1, parent, n)
  }

  lemma HungRep(m: Mem, s: seq<Node>, n: Node)
    requires Rep(m, s) && n !in s
    ensures var k := |s| + 1;
            && InMem(m, NodeAt(s, k / 2))
            && Rep(Hung(m, NodeAt(s, k / 2), n, k % 2 == 1), s + [n])
  {
    var k := |s| + 1;
    if k > 1 { assert CellAt(m, s, k / 2); }
    var m' := Hung(m, NodeAt(s, k / 2), n, k % 2 == 1);
    var t := s + [n];
    forall j | 1 <= j <= |t| ensures CellAt(m', t, j) {
      if j < k { assert CellAt(m, s, j); }
    }
  }

  /** The last node is cut off. */
  function Cut(m: Mem, parent: Node?, right: bool): Mem
    requires InMem(m, parent)
  {
    if parent == null then m.(min := null)
    else if right then SetRight(m, parent, null)
    else SetLeft(m, parent, null)
  }

  lemma CutRep(m: Mem, s: seq<Node>)
    requires Rep(m, s) && s != []
    ensures var k := |s|;
            && InMem(m, NodeAt(s, k / 2))
            && Rep(Cut(m, NodeAt(s, k / 2), k % 2 == 1), s[..k - 1])
  {
    var k := |s|;
    if k > 1 { assert CellAt(m, s, k / 2); }
    var m' := Cut(m, NodeAt(s, k / 2), k % 2 == 1);
    var t := s[..k - 1];
    forall j | 1 <= j <= |t| ensures CellAt(m', t, j) {
      assert CellAt(m, s, j);
    }
  }

  /** `n` takes over the pointers and the place of `old_`. */
  function TakenOver(m: Mem, old_: Node, n: Node): Mem
    requires old_ in m.cells
    requires InMem(m, m.cells[old_].left) && InMem(m, m.cells[old_].right) && InMem(m, m.cells[old_].parent)
  {
    var c := m.cells[old_];
    var m1 := m.(cells := m.cells[n := c]);
    var m2 := SetParent(SetParent(m1, c.left, n), c.right, n);
    if c.parent == null then m2.(min := n)
    else if m2.cells[c.parent].left == old_ then SetLeft(m2, c.parent, n)
    else SetRight(m2, c.parent, n)
  }

  lemma TakenOverCells(m: Mem, s: seq<Node>, k: nat, n: Node)
    requires Rep(m, s) && 1 <= k <= |s| && n !in s
    ensures var x := s[k - 1];
            && x in m.cells && InMem(m, m.cells[x].left) && InMem(m, m.cells[x].right) && InMem(m, m.cells[x].parent)
            && var m', l, r, up := TakenOver(m, x, n), NodeAt(s, 2 * k), NodeAt(s, 2 * k + 1), NodeAt(s, k / 2);
            && m'.cells.Keys == m.cells.Keys + {n}
            && InMem(m, l) && InMem(m, r) && InMem(m, up)
            && m'.cells[n] == m.cells[x]
            && (l != null ==> m'.cells[l] == m.cells[l].(parent := n))
            && (r != null ==> m'.cells[r] == m.cells[r].(parent := n))
            && (up != null ==> m'.cells[up] == if k % 2 == 0 then m.cells[up].(left := n) else m.cells[up].(right := n))
            && (forall y | y in m.cells && y != n && y != l && y != r && y != up :: m'.cells[y] == m.cells[y])
            && m'.min == (if k == 1 then n else m.min)
  {
    Near(m, s, k);
    assert k > 1 ==> s[k / 2 - 1] != s[k - 1];
  }

  lemma TakenOverRep(m: Mem, s: seq<Node>, k: nat, n: Node)
    requires Rep(m, s) && 1 <= k <= |s| && n !in s
    ensures var x := s[k - 1];
            && x in m.cells && InMem(m, m.cells[x].left) && InMem(m, m.cells[x].right) && InMem(m, m.cells[x].parent)
            && m.cells[x].left != x && m.cells[x].right != x
            && Rep(TakenOver(m, x, n), s[k - 1 := n])
            && TakenOver(m, x, n).cells.Keys == m.cells.Keys + {n}
  {
    TakenOverCells(m, s, k, n);
    Near(m, s, k);
    var m' := TakenOver(m, s[k - 1], n);
    var t := s[k - 1 := n];
    forall j | 1 <= j <= |t| ensures CellAt(m', t, j) {
      TakenOverAt(m, s, k, n, j);
    }
  }

  lemma TakenOverAt(m: Mem, s: seq<Node>, k: nat, n: Node, j: nat)
    requires Rep(m, s) && 1 <= k <= |s| && n !in s && 1 <= j <= |s|
    ensures var x := s[k - 1];
            && x in m.cells && InMem(m, m.cells[x].left) && InMem(m, m.cells[x].right) && InMem(m, m.cells[x].parent)
            && CellAt(TakenOver(m, x, n), s[k - 1 := n], j)
  {
    TakenOverCells(m, s, k, n);
    Near(m, s, k);
    assert CellAt(m, s, j);
  }

  /** Replacing a node disturbs only the order around it. */
  lemma ReplaceOrdered(s: seq<Node>, less: Less, all: set<Node>, k: nat, n: Node)
    requires StrictWeak(less, all) && From(s, all) && n in all && Ordered(s, less) && 1 <= k <= |s|
    ensures OrderedBut(s[k - 1 := n], less, k)
  {
    var t := s[k - 1 := n];
    forall j | 2 <= j <= |t| && j != k && j / 2 != k ensures InOrder(t, less, j) {
      assert InOrder(s, less, j);
    }
    forall j | 4 <= j <= |t| && j / 2 == k ensures InOrder2(t, less, j) {
      assert InOrder(s, less, j) && InOrder(s, less, k);
    }
  }

  lemma CutOrdered(s: seq<Node>, less: Less, k: nat)
    requires Ordered(s, less) && k <= |s|
    ensures Ordered(s[..k], less)
  {
    forall j | 2 <= j <= k ensures InOrder(s[..k], less, j) {
      assert InOrder(s, less, j);
    }
  }

  lemma HungOrdered(s: seq<Node>, less: Less, n: Node)
    requires Ordered(s, less)
    ensures OrderedBut(s + [n], less, |s| + 1) && KidsOrdered(s + [n], less, |s| + 1)
  {
    forall j | 2 <= j <= |s| ensures InOrder(s + [n], less, j) {
      assert InOrder(s, less, j);
    }
  }

  /** Cells of nodes outside the heap do not matter. */
  lemma RepOnly(m: Mem, m': Mem, s: seq<Node>)
    requires Rep(m, s) && m'.min == m.min
    requires forall n | n in s :: n in m.cells ==> n in m'.cells && m'.cells[n] == m.cells[n]
    ensures Rep(m', s)
  {
    forall k | 1 <= k <= |s| ensures CellAt(m', s, k) {
      assert CellAt(m, s, k);
    }
  }

  lemma PositionOf(s: seq<Node>, n: Node) returns (k: nat)
    requires n in s
    ensures 1 <= k <= |s| && s[k - 1] == n
  {
    var i :| 0 <= i < |s| && s[i] == n;
    k := i + 1;
  }

  lemma MultisetElems(s: seq<Node>, t: seq<Node>)
    requires multiset(s) == multiset(t)
    ensures (set n | n in s) == (set n | n in t)
    ensures |s| == |t|
  {
    assert forall n :: n in s <==> n in multiset(s);
    assert forall n :: n in t <==> n in multiset(t);
    assert |multiset(s)| == |s| && |multiset(t)| == |t|;
  }

  /** The last member out, and in again where `x` was. */
  lemma ReplacedMultiset(s: seq<Node>, k: nat, n: Node)
    requires 1 <= k < |s| && n == s[|s| - 1]
    ensures multiset(s[..|s| - 1][k - 1 := n]) == multiset(s) - multiset{s[k - 1]}
  {
    var t := s[..|s| - 1];
    assert s == t + [n];
    assert multiset(t[k - 1 := n]) == multiset(t) - multiset{t[k - 1]} + multiset{n};
  }

  lemma CutMultiset(s: seq<Node>)
    requires s != []
    ensures multiset(s[..|s| - 1]) == multiset(s) - multiset{s[|s| - 1]}
  {
    assert s == s[..|s| - 1] + [s[|s| - 1]];
  }
}
