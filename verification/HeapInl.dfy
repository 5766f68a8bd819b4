/**
 The binary min heap on real fields: heap_insert, heap_remove and heap_dequeue.
 */
module HeapInl {
  import opened Basics
  import opened HeapShape

  /** A `struct heap_node**`: where a pointer to a node is stored. */
  datatype Slot = AtMin | LeftOf(n: Node) | RightOf(n: Node)

  const WORD := 0x1_0000_0000

  class Heap {
    var min: Node?
    var nelts: nat
    ghost var nodes: set<Node>
    ghost var slots: seq<Node>  // the members, by position

    ghost function View(): Mem
      reads this`min, this`nodes, nodes
    {
      Mem(map n | n in nodes :: Cell(n.left, n.right, n.parent), min)
    }

    /** A complete binary tree of exactly `nelts` nodes, all of whose links are right. */
    ghost predicate Valid()
      reads this, nodes
    {
      && Rep(View(), slots)
      && nelts == |slots|
      && nodes == (set n | n in slots)
    }

    constructor ()
      ensures Valid() && slots == []
    {
      min := null;
      nelts := 0;
      nodes := {};
      slots := [];
    }

    method SetParent(n: Node?, x: Node?)
      requires n != null ==> n in nodes
      modifies if n == null then {} else {n}`parent
      ensures View() == HeapShape.SetParent(old(View()), n, x)
    {
      if n != null {
        n.parent := x;
      }
    }

    method SetLeft(n: Node, x: Node?)
      requires n in nodes
      modifies n`left
      ensures View() == HeapShape.SetLeft(old(View()), n, x)
    {
      n.left := x;
    }

    method SetRight(n: Node, x: Node?)
      requires n in nodes
      modifies n`right
      ensures View() == HeapShape.SetRight(old(View()), n, x)
    {
      n.right := x;
    }

    /** The structs exchange their contents. */
    method SwapContents(parent: Node, child: Node)
      requires parent in nodes && child in nodes && parent != child
      modifies parent, child
      ensures var m := old(View());
              View() == m.(cells := m.cells[parent := m.cells[child]][child := m.cells[parent]])
    {
      var left, right, up := parent.left, parent.right, parent.parent;
      parent.left, parent.right, parent.parent := child.left, child.right, child.parent;
      child.left, child.right, child.parent := left, right, up;
    }

    /** The first part of heap_node_swap. */
    method Exchange(parent: Node, child: Node)
      requires CanSwap(View(), parent, child) && parent != child
      modifies nodes
      ensures View() == HeapShape.Exchange(old(View()), parent, child)
    {
      SwapContents(parent, child);
      SetParent(parent, child);
      if child.left == child {
        SetLeft(child, parent);
        SetParent(child.right, child);
      } else {
        SetRight(child, parent);
        SetParent(child.left, child);
      }
    }

    method AdoptKids(n: Node)
      requires n in View().cells && InMem(View(), View().cells[n].left) && InMem(View(), View().cells[n].right)
      modifies nodes
      ensures View() == HeapShape.AdoptKids(old(View()), n)
    {
      SetParent(n.left, n);
      SetParent(n.right, n);
    }

    /** heap_node_swap. */
    method NodeSwap(parent: Node, child: Node)
      requires CanSwap(View(), parent, child) && parent != child
      modifies this`min, nodes
      ensures View() == HeapShape.NodeSwap(old(View()), parent, child)
    {
      ExchangeInMem(View(), parent, child);
      Exchange(parent, child);
      AdoptKids(parent);
      Promote(parent, child);
    }

    method Promote(parent: Node, child: Node)
      requires child in View().cells && InMem(View(), View().cells[child].parent)
      modifies this`min, nodes
      ensures View() == HeapShape.Promote(old(View()), parent, child)
    {
      Relink(child.parent, parent, child);
    }

    /** Below `up`, or at the root, `n` takes the place of `old_`. */
    method Relink(up: Node?, old_: Node, n: Node)
      requires InMem(View(), up)
      modifies this`min, if up == null then {} else {up}
      ensures View() == (if up == null then old(View()).(min := n)
                         else if old(View()).cells[up].left == old_ then HeapShape.SetLeft(old(View()), up, n)
                         else HeapShape.SetRight(old(View()), up, n))
    {
      if up == null {
        min := n;
      } else if up.left == old_ {
        up.left := n;
      } else {
        up.right := n;
      }
    }

    /** Exchange a position with a child. */
    method SwapUp(parent: Node, child: Node, ghost k: nat, ghost c: nat)
      requires Rep(View(), slots) && IsChild(slots, k, c) && slots[k - 1] == parent && slots[c - 1] == child
      modifies this`min, this`slots, nodes
      ensures Rep(View(), slots) && slots == Swap(old(slots), k, c) && multiset(slots) == old(multiset(slots))
    {
      NodeSwapRep(View(), slots, k, c);
      NodeSwap(parent, child);
      slots := Swap(slots, k, c);
    }

    /** One round of the walk up: a node that is less than its parent changes places with it. */
    method LiftOnce(up: Node, n: Node, less: Less, ghost all: set<Node>, ghost k: nat)
      requires Rep(View(), slots) && 2 <= k <= |slots| && slots[k - 1] == n && slots[k / 2 - 1] == up && less(n, up)
      requires StrictWeak(less, all) && From(slots, all) && OrderedBut(slots, less, k) && KidsOrdered(slots, less, k)
      modifies this`min, this`slots, nodes
      ensures Rep(View(), slots) && slots == Swap(old(slots), k / 2, k) && multiset(slots) == old(multiset(slots))
      ensures From(slots, all) && OrderedBut(slots, less, k / 2) && KidsOrdered(slots, less, k / 2)
    {
      UpRound(slots, less, all, k);
      SwapUp(up, n, k / 2, k);
    }

    /** The walk up of heap_insert and heap_remove. */
    method WalkUp(n: Node, less: Less, ghost all: set<Node>, ghost k0: nat)
      requires Rep(View(), slots) && 1 <= k0 <= |slots| && slots[k0 - 1] == n
      requires StrictWeak(less, all) && From(slots, all)
      requires OrderedBut(slots, less, k0) && KidsOrdered(slots, less, k0)
      modifies this`min, this`slots, nodes
      ensures Rep(View(), slots) && Ordered(slots, less)
      ensures multiset(slots) == old(multiset(slots))
    {
      ghost var k := k0;
      var up := ParentOf(n, k);
      while up != null && less(n, up)
        invariant Rep(View(), slots) && 1 <= k <= |slots| && slots[k - 1] == n && up == NodeAt(slots, k / 2)
        invariant From(slots, all) && OrderedBut(slots, less, k) && KidsOrdered(slots, less, k)
        invariant multiset(slots) == old(multiset(slots))
        decreases k
      {
        LiftOnce(up, n, less, all, k);
        k := k / 2;
        up := ParentOf(n, k);
      }
      AllOrdered(slots, less, k);
    }

    method ParentOf(n: Node, ghost k: nat) returns (up: Node?)
      requires Rep(View(), slots) && 1 <= k <= |slots| && slots[k - 1] == n
      ensures up == NodeAt(slots, k / 2)
    {
      Near(View(), slots, k);
      up := n.parent;
    }

    method PickSmallest(child: Node, less: Less, ghost k: nat) returns (smallest: Node)
      requires Rep(View(), slots) && 1 <= k <= |slots| && slots[k - 1] == child
      ensures smallest == slots[Smallest(slots, less, k) - 1]
    {
      Near(View(), slots, k);
      smallest := child;
      if child.left != null && less(child.left, smallest) {
        smallest := child.left;
      }
      if child.right != null && less(child.right, smallest) {
        smallest := child.right;
      }
    }

    /** One round of the walk down: `c` is where `child` ends up. */
    method SinkOnce(child: Node, less: Less, ghost all: set<Node>, ghost k: nat) returns (done: bool, ghost c: nat)
      requires Rep(View(), slots) && 1 <= k <= |slots| && slots[k - 1] == child
      requires StrictWeak(less, all) && From(slots, all) && OrderedBut(slots, less, k)
      modifies this`min, this`slots, nodes
      ensures Rep(View(), slots) && From(slots, all) && multiset(slots) == old(multiset(slots))
      ensures |slots| == |old(slots)| && 1 <= c <= |slots| && slots[c - 1] == child && OrderedBut(slots, less, c)
      ensures if done then c == k && KidsOrdered(slots, less, k) else k < c
    {
      DownRound(slots, less, all, k);
      var smallest := PickSmallest(child, less, k);
      c := Smallest(slots, less, k);
      done := smallest == child;
      if done {
        SamePlace(slots, k, c);
      } else {
        SwapUp(child, smallest, k, c);
      }
    }

    /** The walk down of heap_remove. */
    method WalkDown(child: Node, less: Less, ghost all: set<Node>, ghost k0: nat) returns (ghost k: nat)
      requires Rep(View(), slots) && 1 <= k0 <= |slots| && slots[k0 - 1] == child
      requires StrictWeak(less, all) && From(slots, all) && OrderedBut(slots, less, k0)
      modifies this`min, this`slots, nodes
      ensures Rep(View(), slots) && From(slots, all)
      ensures 1 <= k <= |slots| && slots[k - 1] == child && OrderedBut(slots, less, k) && KidsOrdered(slots, less, k)
      ensures multiset(slots) == old(multiset(slots))
    {
      k := k0;
      while true
        invariant Rep(View(), slots) && |slots| == |old(slots)| && 1 <= k <= |slots| && slots[k - 1] == child
        invariant From(slots, all) && OrderedBut(slots, less, k)
        invariant multiset(slots) == old(multiset(slots))
        decreases |slots| - k
      {
        var done;
        done, k := SinkOnce(child, less, all, k);
        if done {
          break;
        }
      }
    }

    lemma SamePlace(s: seq<Node>, i: nat, j: nat)
      requires Distinct(s) && 1 <= i <= |s| && 1 <= j <= |s| && s[i - 1] == s[j - 1]
      ensures i == j
    {
    }

    /** The path to position `n0`, as the loops of heap_insert and heap_remove compute it. */
    method Path(n0: nat) returns (path: nat, k: nat)
      requires 1 <= n0 < WORD
      ensures Shr(n0, k) == 1 && path == PathOf(n0, k) && path < WORD
    {
      path := 0;
      k := 0;
      var n := n0;
      while n >= 2
        invariant n == Shr(n0, k) && n >= 1 && path == PathOf(n0, k)
        decreases n
      {
        path := 2 * path + n % 2;
        k := k + 1;
        n := n / 2;
      }
      PathSmall(n0, k);
    }

    /** Following a path from `&heap->min`: `last` is the slot at its end and `before` the one above. */
    method Follow(n0: nat, path0: nat, k0: nat) returns (before: Slot, last: Slot)
      requires Rep(View(), slots) && nodes == (set n | n in slots)
      requires 1 <= n0 <= |slots| + 1 && Shr(n0, k0) == 1 && path0 == PathOf(n0, k0)
      ensures IsSlot(last, n0) && (if n0 == 1 then before == AtMin else IsSlot(before, n0 / 2))
    {
      var path, k := path0, k0;
      before, last := AtMin, AtMin;
      while k > 0
        invariant 0 <= k <= k0 && path == PathOf(n0, k) && 1 <= Shr(n0, k) <= n0
        invariant IsSlot(last, Shr(n0, k))
        invariant if k == k0 then before == AtMin else IsSlot(before, Shr(n0, k) / 2)
      {
        PathStep(n0, k);
        ShrBelow(n0, k);
        ghost var pos := Shr(n0, k);
        var node: Node := Load(last, pos);
        before := last;
        last := if path % 2 == 1 then RightOf(node) else LeftOf(node);
        path := path / 2;
        k := k - 1;
        assert Shr(n0, k) / 2 == pos;
        if k > 0 { ShrBelow(n0, k); }
      }
      assert Shr(n0, 0) == n0;
    }

    /** `p` is the place where the pointer to position `k` is stored. */
    ghost predicate IsSlot(p: Slot, k: nat)
      reads this`slots
    {
      match p
      case AtMin => k == 1
      case LeftOf(n) => k > 1 && k % 2 == 0 && NodeAt(slots, k / 2) == n
      case RightOf(n) => k > 1 && k % 2 == 1 && NodeAt(slots, k / 2) == n
    }

    /** Reading through a slot. */
    method Load(p: Slot, ghost k: nat) returns (n: Node?)
      requires Rep(View(), slots) && nodes == (set n | n in slots) && IsSlot(p, k)
      ensures n == NodeAt(slots, k)
    {
      match p {
        case AtMin => n := min;
        case LeftOf(x) => Near(View(), slots, k / 2); n := x.left;
        case RightOf(x) => Near(View(), slots, k / 2); n := x.right;
      }
    }

    /** Writing through a slot. */
    method Store(p: Slot, x: Node?, ghost k: nat)
      requires IsSlot(p, k) && (p != AtMin ==> p.n in nodes)
      modifies this`min, nodes
      ensures View() == (match p
                         case AtMin => old(View()).(min := x)
                         case LeftOf(n) => HeapShape.SetLeft(old(View()), n, x)
                         case RightOf(n) => HeapShape.SetRight(old(View()), n, x))
    {
      match p {
        case AtMin => min := x;
        case LeftOf(n) => SetLeft(n, x);
        case RightOf(n) => SetRight(n, x);
      }
    }

    /** The new node becomes the last one. */
    method Hang(n: Node, before: Slot, last: Slot)
      requires Valid() && n !in nodes
      requires IsSlot(last, |slots| + 1)
      requires if slots == [] then before == AtMin else IsSlot(before, (|slots| + 1) / 2)
      modifies this`min, this`nodes, this`slots, nodes, n
      ensures Rep(View(), slots) && slots == old(slots) + [n] && nodes == old(nodes) + {n}
    {
      ghost var s, m := slots, View();
      var up := Load(before, if s == [] then 1 else (|s| + 1) / 2);
      Blank(n, up);
      HungRep(m, s, n);
      assert last != AtMin ==> last.n in s;
      Store(last, n, |s| + 1);
      slots := s + [n];
    }

    method Blank(n: Node, up: Node?)
      requires n !in nodes
      modifies this`nodes, n
      ensures nodes == old(nodes) + {n}
      ensures View() == old(View()).(cells := old(View()).cells[n := Cell(null, null, up)])
    {
      n.left := null;
      n.right := null;
      n.parent := up;
      nodes := nodes + {n};
    }

    /** heap_insert. */
    method Insert(newnode: Node, less: Less)
      requires Valid() && newnode !in nodes && nelts + 1 < WORD
      requires StrictWeak(less, nodes + {newnode}) && Ordered(slots, less)
      modifies this, nodes, newnode
      ensures Valid() && Ordered(slots, less)
      ensures nodes == old(nodes) + {newnode} && nelts == old(nelts) + 1
      ensures multiset(slots) == old(multiset(slots)) + multiset{newnode}
    {
      ghost var all := nodes + {newnode};
      var path, k := Path(1 + nelts);
      var before, last := Follow(1 + nelts, path, k);
      HungOrdered(slots, less, newnode);
      Hang(newnode, before, last);
      nelts := nelts + 1;
      Lift(newnode, less, all);
    }

    /** The walk up from the end leaves the same nodes in the heap. */
    method Lift(n: Node, less: Less, ghost all: set<Node>)
      requires Rep(View(), slots) && slots != [] && slots[|slots| - 1] == n && nodes == (set x | x in slots)
      requires StrictWeak(less, all) && From(slots, all)
      requires OrderedBut(slots, less, |slots|) && KidsOrdered(slots, less, |slots|)
      modifies this`min, this`slots, nodes
      ensures Rep(View(), slots) && Ordered(slots, less) && nodes == (set x | x in slots)
      ensures |slots| == |old(slots)| && multiset(slots) == old(multiset(slots))
    {
      ghost var s := slots;
      WalkUp(n, less, all, |slots|);
      MultisetElems(s, slots);
    }

    lemma SlotInHeap(p: Slot, k: nat)
      requires Rep(View(), slots) && nodes == (set n | n in slots) && k == |slots| && IsSlot(p, k)
      ensures p != AtMin ==> p.n in nodes && p.n == NodeAt(slots, k / 2)
      ensures p.LeftOf? ==> k % 2 == 0
      ensures p.RightOf? ==> k % 2 == 1
    {
    }

    /** Unlink the last node. */
    method CutLast(last: Slot)
      requires Rep(View(), slots) && nodes == (set n | n in slots) && slots != [] && IsSlot(last, |slots|)
      modifies this`min, this`slots, nodes
      ensures Rep(View(), slots) && slots == old(slots)[..|old(slots)| - 1]
      ensures View().cells.Keys == old(View()).cells.Keys
    {
      ghost var k := |slots|;
      CutRep(View(), slots);
      SlotInHeap(last, k);
      Store(last, null, k);
      slots := slots[..k - 1];
    }

    /** The node `child`, cut off from the end, takes the place of `node`. */
    method TakeOver(node: Node, child: Node, ghost k: nat)
      requires Rep(View(), slots) && 1 <= k <= |slots| && slots[k - 1] == node && child !in slots && child in nodes
      modifies this`min, this`slots, nodes
      ensures Rep(View(), slots) && slots == old(slots)[k - 1 := child]
    {
      TakenOverRep(View(), slots, k, child);
      TakeFields(node, child);
      slots := slots[k - 1 := child];
    }

    method TakeFields(node: Node, child: Node)
      requires node in View().cells && child in nodes && child != node
      requires InMem(View(), View().cells[node].left) && InMem(View(), View().cells[node].right) &&
               InMem(View(), View().cells[node].parent)
      requires View().cells[node].left != node && View().cells[node].right != node
      modifies this`min, nodes
      ensures View() == TakenOver(old(View()), node, child)
    {
      assert InMem(View(), node.left) && InMem(View(), node.right) && InMem(View(), node.parent);
      CopyFields(node, child);
      if child.left != null {
        SetParent(child.left, child);
      }
      if child.right != null {
        SetParent(child.right, child);
      }
      Relink(node.parent, node, child);
    }

    method CopyFields(node: Node, child: Node)
      requires node in nodes && child in nodes && child != node
      modifies child
      ensures View() == old(View()).(cells := old(View()).cells[child := old(View()).cells[node]])
      ensures child.left == node.left && child.right == node.right
    {
      child.left := node.left;
      child.right := node.right;
      child.parent := node.parent;
    }

    /** heap_remove. */
    method Remove(node: Node?, less: Less)
      requires Valid() && nelts < WORD && (nelts > 0 ==> node != null && node in nodes)
      requires StrictWeak(less, nodes) && Ordered(slots, less)
      modifies this, nodes
      ensures Valid() && Ordered(slots, less)
      ensures old(nelts) == 0 ==> unchanged(this)
      ensures old(nelts) > 0 ==> nodes == old(nodes) - {node} && nelts == old(nelts) - 1
                                 && multiset(slots) == old(multiset(slots)) - multiset{node}
    {
      if nelts == 0 {
        return;
      }
      ghost var s := slots;
      var child := Unlink();
      Settle(node, child, less, s);
      Forget(node, s);
    }

    /** The first part of heap_remove: the last node is unlinked. */
    method Unlink() returns (child: Node)
      requires Valid() && 0 < nelts < WORD
      modifies this, nodes
      ensures Rep(View(), slots) && nodes == old(nodes) && nelts == old(nelts) - 1
      ensures slots == old(slots)[..|old(slots)| - 1] && child == old(slots)[|old(slots)| - 1]
    {
      var path, k := Path(nelts);
      var before, last := Follow(nelts, path, k);
      child := Load(last, nelts);
      nelts := nelts - 1;
      CutLast(last);
    }

    /** The rest: nothing if the last node was the one to go, else it takes that node's place.  The test
        for the removed node being `min` never succeeds: unlinking the last node has cleared `min`. */
    method Settle(node: Node, child: Node, less: Less, ghost s: seq<Node>)
      requires s != [] && slots == s[..|s| - 1] && child == s[|s| - 1] && node in s && Distinct(s)
      requires Rep(View(), slots) && Ordered(s, less) && nodes == (set n | n in s) && StrictWeak(less, nodes)
      modifies this`min, this`slots, nodes
      ensures Rep(View(), slots) && Ordered(slots, less) && multiset(slots) == multiset(s) - multiset{node}
    {
      CutOrdered(s, less, |s| - 1);
      CutMultiset(s);
      if child == node {
        assert child != min;
      } else {
        assert s == slots + [child];
        Refill(node, child, less, s);
      }
    }

    /** The second half of heap_remove: `child`, the former last node, replaces `node`. */
    method Refill(node: Node, child: Node, less: Less, ghost s: seq<Node>)
      requires |s| > 1 && slots == s[..|s| - 1] && child == s[|s| - 1] && node in slots && node != child && Distinct(s)
      requires Rep(View(), slots) && Ordered(slots, less) && nodes == (set n | n in s) && StrictWeak(less, nodes)
      modifies this`min, this`slots, nodes
      ensures Rep(View(), slots) && Ordered(slots, less) && multiset(slots) == multiset(s) - multiset{node}
    {
      ghost var k := PositionOf(slots, node);
      ReplaceOrdered(slots, less, nodes, k, child);
      ReplacedMultiset(s, k, child);
      TakeOver(node, child, k);
      k := WalkDown(child, less, nodes, k);
      WalkUp(child, less, nodes, k);
    }

    ghost method Forget(node: Node, s: seq<Node>)
      requires Rep(View(), slots) && nodes == (set n | n in s) && Distinct(s) && node in s
      requires multiset(slots) == multiset(s) - multiset{node}
      modifies this`nodes
      ensures nodes == old(nodes) - {node} && nodes == (set n | n in slots) && Rep(View(), slots)
      ensures |slots| == |s| - 1
    {
      var m := View();
      nodes := nodes - {node};
      WithoutElems(s, slots, node);
      RepOnly(m, View(), slots);
    }

    lemma WithoutElems(s: seq<Node>, t: seq<Node>, n: Node)
      requires Distinct(s) && n in s && multiset(t) == multiset(s) - multiset{n}
      ensures (set x | x in t) == (set x | x in s) - {n} && |t| == |s| - 1
    {
      var k := PositionOf(s, n);
      var a, b := s[..k - 1], s[k..];
      assert s == a + [n] + b;
      assert multiset(s) == multiset(a) + multiset{n} + multiset(b);
      MultisetElems(t, a + b);
      assert n !in a && n !in b;
    }

    /** No member is less than the root. */
    lemma LeastAtRoot(less: Less)
      requires Valid() && StrictWeak(less, nodes) && Ordered(slots, less)
      ensures slots != [] ==> forall n | n in nodes :: !less(n, slots[0])
    {
      forall n | n in nodes ensures slots != [] && !less(n, slots[0]) {
        var k := PositionOf(slots, n);
        RootIsLeast(slots, less, nodes, k);
      }
    }

    /** heap_dequeue. */
    method Dequeue(less: Less)
      requires Valid() && nelts < WORD && StrictWeak(less, nodes) && Ordered(slots, less)
      modifies this, nodes
      ensures Valid() && Ordered(slots, less)
      ensures old(nelts) == 0 ==> unchanged(this)
      ensures old(nelts) > 0 ==> nodes == old(nodes) - {old(slots)[0]}
      ensures old(nelts) > 0 ==> forall n | n in old(nodes) :: !less(n, old(slots)[0])
    {
      LeastAtRoot(less);
      Remove(min, less);
    }
  }
}
