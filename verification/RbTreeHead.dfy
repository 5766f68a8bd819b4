/**
 The red-black tree macros on real fields.
 */
module RbTreeHead {
  import opened RbTree

  class Head {
    var root: Node?
    ghost var nodes: set<Node>  // the nodes whose fields belong to this tree
    ghost var tree: Tree

    ghost function View(): Mem
      reads this`root, this`nodes, nodes
    {
      Mem(map n | n in nodes :: Cell(n.left, n.right, n.parent, n.red), root)
    }

    method SetLeft(n: Node, x: Node?)
      requires n in nodes
      modifies n`left
      ensures View() == RbTree.SetLeft(old(View()), n, x)
    {
      n.left := x;
    }

    method SetRight(n: Node, x: Node?)
      requires n in nodes
      modifies n`right
      ensures View() == RbTree.SetRight(old(View()), n, x)
    {
      n.right := x;
    }

    method SetRed(n: Node, c: bool)
      requires n in nodes
      modifies n`red
      ensures View() == RbTree.SetRed(old(View()), n, c)
    {
      n.red := c;
    }

    method SetParent(n: Node?, x: Node?)
      requires n != null ==> n in nodes
      modifies if n == null then {} else {n}`parent
      ensures View() == RbTree.SetParent(old(View()), n, x)
    {
      if n != null {
        n.parent := x;
      }
    }

    /** Make `child` hang where `elm` hangs below `parent`, or at the root. */
    method Relink(parent: Node?, elm: Node?, child: Node?)
      requires parent != null ==> parent in nodes
      modifies this`root, if parent == null then {} else {parent}
      ensures View() == RbTree.Relink(old(View()), parent, elm, child)
    {
      if parent != null {
        if elm == parent.left {
          parent.left := child;
        } else {
          parent.right := child;
        }
      } else {
        root := child;
      }
    }

    /** `b` becomes the right child of `elm`. */
    method TakeRight(elm: Node, b: Node?)
      requires elm in nodes && (b != null ==> b in nodes)
      modifies elm`right, if b == null then {} else {b}`parent
      ensures View() == RbTree.SetParent(RbTree.SetRight(old(View()), elm, b), b, elm)
    {
      SetRight(elm, b);
      SetParent(b, elm);
    }

    /** `b` becomes the left child of `elm`. */
    method TakeLeft(elm: Node, b: Node?)
      requires elm in nodes && (b != null ==> b in nodes)
      modifies elm`left, if b == null then {} else {b}`parent
      ensures View() == RbTree.SetParent(RbTree.SetLeft(old(View()), elm, b), b, elm)
    {
      SetLeft(elm, b);
      SetParent(b, elm);
    }

    /** RB_ROTATE_LEFT. */
    method RotateLeft(elm: Node)
      requires CanRotateLeft(View(), elm)
      modifies this`root, nodes
      ensures View() == RbTree.RotateLeft(old(View()), elm)
    {
      var tmp: Node := elm.right;
      TakeRight(elm, tmp.left);
      SetParent(tmp, elm.parent);
      Relink(elm.parent, elm, tmp);
      TakeLeft(tmp, elm);
    }

    /** RB_ROTATE_RIGHT. */
    method RotateRight(elm: Node)
      requires CanRotateRight(View(), elm)
      modifies this`root, nodes
      ensures View() == RbTree.RotateRight(old(View()), elm)
    {
      var tmp: Node := elm.left;
      TakeLeft(elm, tmp.right);
      SetParent(tmp, elm.parent);
      Relink(elm.parent, elm, tmp);
      TakeRight(tmp, elm);
    }

    /** RB_SET_BLACKRED. */
    method SetBlackRed(black: Node, red: Node)
      requires black in nodes && red in nodes
      modifies nodes`red
      ensures View() == RbTree.SetRed(RbTree.SetRed(old(View()), black, false), red, true)
    {
      SetRed(black, false);
      SetRed(red, true);
    }

    /** The painting and the rotation that both loops share. */
    method PaintAndRotateLeft(black: Node, red: Node)
      requires black in nodes && red in nodes
      requires CanRotateLeft(RbTree.SetRed(RbTree.SetRed(View(), black, false), red, true), red)
      modifies this`root, nodes
      ensures View() == RbTree.RotateLeft(RbTree.SetRed(RbTree.SetRed(old(View()), black, false), red, true), red)
    {
      SetBlackRed(black, red);
      RotateLeft(red);
    }

    method PaintAndRotateRight(black: Node, red: Node)
      requires black in nodes && red in nodes
      requires CanRotateRight(RbTree.SetRed(RbTree.SetRed(View(), black, false), red, true), red)
      modifies this`root, nodes
      ensures View() == RbTree.RotateRight(RbTree.SetRed(RbTree.SetRed(old(View()), black, false), red, true), red)
    {
      SetBlackRed(black, red);
      RotateRight(red);
    }

    /** Two reds below a black node become two blacks below a red one. */
    method Recolour(uncle: Node, parent: Node, gparent: Node)
      requires uncle in nodes && parent in nodes && gparent in nodes
      modifies nodes`red
      ensures View() == RbTree.SetRed(RbTree.SetRed(RbTree.SetRed(old(View()), uncle, false), parent, false),
                gparent, true)
    {
      SetRed(uncle, false);
      SetBlackRed(parent, gparent);
    }

    /** The sibling takes the parent's colour, the parent and the far nephew become black.  The far nephew
        is there: it is red. */
    method LiftColours(tmp: Node, parent: Node, far: Node)
      requires tmp in nodes && parent in nodes && far in nodes
      modifies nodes`red
      ensures View() == RbTree.SetRed(RbTree.SetRed(RbTree.SetRed(old(View()), tmp, old(parent.red)), parent, false),
                far, false)
    {
      SetRed(tmp, parent.red);
      SetRed(parent, false);
      SetRed(far, false);
    }

    /** The rotations at the end of RB_INSERT_COLOR, the parent being a left child. */
    method InsertRotationsLeft(elm: Node, parent: Node, gparent: Node, ghost t: Tree, ghost p: Path)
      returns (elm': Node, ghost t': Tree, ghost p': Path)
      requires At(View(), t, p) && Root(t) == elm && t.red
      requires p != Top && p.red && p.n == parent && p.up.InLeft? && p.up.n == gparent
      modifies this`root, nodes
      ensures At(View(), t', p') && Root(t') == elm' && p' != Top && !p'.red
      ensures p'.up == p.up.up && Up(p', t') == Rotated(p, t)
    {
      Around(View(), t, p);
      elm', t', p' := elm, t, p;
      var parent' := parent;
      if parent.right == elm {
        InnerLeft(View(), t, p);
        RotateLeft(parent);
        t', p' := Bin(p.l, p.n, p.red, t.l), InLeft(t.n, t.red, t.r, p.up);
        elm', parent' := parent, elm;
      }
      OuterRight(View(), t', p');
      PaintAndRotateRight(parent', gparent);
      p' := InLeft(p'.n, false, Bin(p'.r, gparent, true, p'.up.r), p'.up.up);
    }

    /** One round of RB_INSERT_COLOR, the parent being a left child. */
    method InsertRoundLeft(elm: Node, parent: Node, gparent: Node, ghost t: Tree, ghost p: Path)
      returns (elm': Node, ghost t': Tree, ghost p': Path)
      requires At(View(), t, p) && RedAtHole(p, t) && Root(t) == elm
      requires p != Top && p.red && p.n == parent && p.up.InLeft? && p.up.n == gparent
      modifies this`root, nodes
      ensures At(View(), t', p') && Root(t') == elm' && Fixed(p', t') == Fixed(p, t)
      ensures p' != Top && p'.red ==> RedAtHole(p', t') && Depth(p') < Depth(p)
    {
      Around(View(), t, p);
      Around(View(), Up(p, t), p.up);
      var tmp := gparent.right;
      if tmp != null && tmp.red {
        RecolourRound(View(), t, p);
        RecolouredOk(p, t);
        Recolour(tmp, parent, gparent);
        elm' := gparent;
        t', p' := Recoloured(p, t), p.up.up;
      } else {
        elm', t', p' := InsertRotationsLeft(elm, parent, gparent, t, p);
      }
    }

    /** The rotations at the end of RB_INSERT_COLOR, the parent being a right child. */
    method InsertRotationsRight(elm: Node, parent: Node, gparent: Node, ghost t: Tree, ghost p: Path)
      returns (elm': Node, ghost t': Tree, ghost p': Path)
      requires At(View(), t, p) && Root(t) == elm && t.red
      requires p != Top && p.red && p.n == parent && p.up.InRight? && p.up.n == gparent
      modifies this`root, nodes
      ensures At(View(), t', p') && Root(t') == elm' && p' != Top && !p'.red
      ensures p'.up == p.up.up && Up(p', t') == Rotated(p, t)
    {
      Around(View(), t, p);
      elm', t', p' := elm, t, p;
      var parent' := parent;
      if parent.left == elm {
        InnerRight(View(), t, p);
        RotateRight(parent);
        t', p' := Bin(t.r, p.n, p.red, p.r), InRight(t.l, t.n, t.red, p.up);
        elm', parent' := parent, elm;
      }
      OuterLeft(View(), t', p');
      PaintAndRotateLeft(parent', gparent);
      p' := InRight(Bin(p'.up.l, gparent, true, p'.l), p'.n, false, p'.up.up);
    }

    /** The same with left and right exchanged. */
    method InsertRoundRight(elm: Node, parent: Node, gparent: Node, ghost t: Tree, ghost p: Path)
      returns (elm': Node, ghost t': Tree, ghost p': Path)
      requires At(View(), t, p) && RedAtHole(p, t) && Root(t) == elm
      requires p != Top && p.red && p.n == parent && p.up.InRight? && p.up.n == gparent
      modifies this`root, nodes
      ensures At(View(), t', p') && Root(t') == elm' && Fixed(p', t') == Fixed(p, t)
      ensures p' != Top && p'.red ==> RedAtHole(p', t') && Depth(p') < Depth(p)
    {
      Around(View(), t, p);
      Around(View(), Up(p, t), p.up);
      var tmp := gparent.left;
      if tmp != null && tmp.red {
        RecolourRound(View(), t, p);
        RecolouredOk(p, t);
        Recolour(tmp, parent, gparent);
        elm' := gparent;
        t', p' := Recoloured(p, t), p.up.up;
      } else {
        elm', t', p' := InsertRotationsRight(elm, parent, gparent, t, p);
      }
    }

    /** RB_INSERT_COLOR.  The ghost zipper follows `elm`. */
    method InsertColor(elm_: Node, ghost t0: Tree, ghost p0: Path)
      requires At(View(), t0, p0) && RedAtHole(p0, t0) && Root(t0) == elm_
      modifies this`root, nodes
      ensures At(View(), Fixed(p0, t0), Top)
    {
      var elm := elm_;
      ghost var t, p := t0, p0;
      if p != Top { Around(View(), t, p); }
      while elm.parent != null && elm.parent.red
        invariant At(View(), t, p) && Root(t) == elm
        invariant elm.parent == Above(p) && (p != Top ==> p.n.red == p.red)
        invariant Fixed(p, t) == Fixed(p0, t0)
        invariant p != Top && p.red ==> RedAtHole(p, t)
        decreases if p != Top && p.red then 1 + Depth(p) else 0
      {
        var parent: Node := elm.parent;
        Around(View(), t, p);
        Around(View(), Up(p, t), p.up);
        var gparent: Node := parent.parent;
        if parent == gparent.left {
          elm, t, p := InsertRoundLeft(elm, parent, gparent, t, p);
        } else {
          elm, t, p := InsertRoundRight(elm, parent, gparent, t, p);
        }
        if p != Top { Around(View(), t, p); }
      }
      AtPlug(View(), t, p);
      PlugBin(p, t);
      PaintAt(View(), Plug(p, t), Top, false);
      SetRed(root, false);
    }

    /** One round of RB_REMOVE_COLOR, the hole being on the left.  It ends the loop (`done`) or goes up
        to the parent. */
    method RemoveRoundLeft(parent: Node, elm: Node?, ghost t: Tree, ghost p: Path)
      returns (elm': Node, done: bool, ghost t': Tree, ghost p': Path)
      requires At(View(), t, p) && Short(p, t) && !IsRed(t) && Root(t) == elm && p.InLeft? && p.n == parent
      modifies this`root, nodes
      ensures At(View(), t', p') && Root(t') == elm'
      ensures done ==> p' == Top && Blacken(t') == Refilled(p, t)
      ensures !done ==> Refilled(p', t') == Refilled(p, t) && (IsRed(t') || (Short(p', t') && Depth(p') < Depth(p)))
    {
      RefilledStep(p, t);
      ghost var p1 := p;
      Around(View(), t, p);
      var tmp: Node := parent.right;
      if tmp.red {
        PastRedRound(View(), t, p);
        PaintAndRotateLeft(tmp, parent);
        p1 := PastRedSibling(p);
        Around(View(), t, p1);
        tmp := parent.right;
      }
      elm', done, t', p' := RemoveRoundBlackLeft(parent, tmp, elm, t, p1);
    }

    /** The rest of the round, the sibling `tmp` being black. */
    method RemoveRoundBlackLeft(parent: Node, tmp_: Node, elm: Node?, ghost t: Tree, ghost p: Path)
      returns (elm': Node, done: bool, ghost t': Tree, ghost p': Path)
      requires At(View(), t, p) && Short(p, t) && !IsRed(t) && Root(t) == elm && p.InLeft? && p.n == parent
      requires Sibling(p).Bin? && !Sibling(p).red && Sibling(p).n == tmp_
      modifies this`root, nodes
      ensures At(View(), t', p') && Root(t') == elm'
      ensures done ==> p' == Top && (IsRed(Near(p)) || IsRed(Far(p))) && Blacken(t') == Settled(p, t)
      ensures !done ==> !IsRed(Near(p)) && !IsRed(Far(p)) && p' == p.up
      ensures !done ==> t' == Up(WithSibling(p, Sibling(p).(red := true)), t)
    {
      var tmp := tmp_;
      Around(View(), t, p);
      Nephews(View(), t, p);
      if (tmp.left == null || !tmp.left.red) && (tmp.right == null || !tmp.right.red) {
        SinkRound(View(), t, p);
        SetRed(tmp, true);
        elm', done := parent, false;
        t', p' := Up(WithSibling(p, Sibling(p).(red := true)), t), p.up;
      } else {
        ghost var p1 := p;
        if tmp.right == null || !tmp.right.red {
          tmp := StraightenLeft(parent, tmp, t, p);
          p1 := WithSibling(p, Straightened(p));
        }
        LiftLeft(parent, tmp, t, p1);
        AtPlug(View(), Lifted(p1, t), p1.up);
        PlugBin(p1.up, Lifted(p1, t));
        elm', done := root, true;
        t', p' := Plug(p1.up, Lifted(p1, t)), Top;
      }
    }

    /** The rotation that makes the far child of the sibling red. */
    method StraightenLeft(parent: Node, tmp: Node, ghost t: Tree, ghost p: Path) returns (tmp': Node)
      requires At(View(), t, p) && p.InLeft? && p.n == parent
      requires Sibling(p).Bin? && Sibling(p).n == tmp && !IsRed(Far(p)) && IsRed(Near(p))
      modifies this`root, nodes
      ensures At(View(), t, WithSibling(p, Straightened(p))) && tmp' == Straightened(p).n
    {
      Around(View(), t, p);
      Nephews(View(), t, p);
      var oleft := tmp.left;
      StraightenRound(View(), t, p);
      if oleft != null {
        SetRed(oleft, false);
      }
      SetRed(tmp, true);
      RotateRight(tmp);
      Around(View(), t, WithSibling(p, Straightened(p)));
      tmp' := parent.right;
    }

    /** The last steps of RB_REMOVE_COLOR's loop, the far child of the sibling being red. */
    method LiftLeft(parent: Node, tmp: Node, ghost t: Tree, ghost p: Path)
      requires At(View(), t, p) && p.InLeft? && p.n == parent
      requires Sibling(p).Bin? && Far(p).Bin? && Sibling(p).n == tmp
      modifies this`root, nodes
      ensures At(View(), Lifted(p, t), p.up)
    {
      Around(View(), t, p);
      Nephews(View(), t, p);
      LiftRound(View(), t, p);
      LiftColours(tmp, parent, tmp.right);
      RotateLeft(parent);
    }

    /** One round of RB_REMOVE_COLOR, the hole being on the right.  It ends the loop (`done`) or goes up
        to the parent. */
    method RemoveRoundRight(parent: Node, elm: Node?, ghost t: Tree, ghost p: Path)
      returns (elm': Node, done: bool, ghost t': Tree, ghost p': Path)
      requires At(View(), t, p) && Short(p, t) && !IsRed(t) && Root(t) == elm && p.InRight? && p.n == parent
      modifies this`root, nodes
      ensures At(View(), t', p') && Root(t') == elm'
      ensures done ==> p' == Top && Blacken(t') == Refilled(p, t)
      ensures !done ==> Refilled(p', t') == Refilled(p, t) && (IsRed(t') || (Short(p', t') && Depth(p') < Depth(p)))
    {
      RefilledStep(p, t);
      ghost var p1 := p;
      Around(View(), t, p);
      var tmp: Node := parent.left;
      if tmp.red {
        PastRedRound(View(), t, p);
        PaintAndRotateRight(tmp, parent);
        p1 := PastRedSibling(p);
        Around(View(), t, p1);
        tmp := parent.left;
      }
      elm', done, t', p' := RemoveRoundBlackRight(parent, tmp, elm, t, p1);
    }

    /** The rest of the round, the sibling `tmp` being black. */
    method RemoveRoundBlackRight(parent: Node, tmp_: Node, elm: Node?, ghost t: Tree, ghost p: Path)
      returns (elm': Node, done: bool, ghost t': Tree, ghost p': Path)
      requires At(View(), t, p) && Short(p, t) && !IsRed(t) && Root(t) == elm && p.InRight? && p.n == parent
      requires Sibling(p).Bin? && !Sibling(p).red && Sibling(p).n == tmp_
      modifies this`root, nodes
      ensures At(View(), t', p') && Root(t') == elm'
      ensures done ==> p' == Top && (IsRed(Near(p)) || IsRed(Far(p))) && Blacken(t') == Settled(p, t)
      ensures !done ==> !IsRed(Near(p)) && !IsRed(Far(p)) && p' == p.up
      ensures !done ==> t' == Up(WithSibling(p, Sibling(p).(red := true)), t)
    {
      var tmp := tmp_;
      Around(View(), t, p);
      Nephews(View(), t, p);
      if (tmp.left == null || !tmp.left.red) && (tmp.right == null || !tmp.right.red) {
        SinkRound(View(), t, p);
        SetRed(tmp, true);
        elm', done := parent, false;
        t', p' := Up(WithSibling(p, Sibling(p).(red := true)), t), p.up;
      } else {
        ghost var p1 := p;
        if tmp.left == null || !tmp.left.red {
          tmp := StraightenRight(parent, tmp, t, p);
          p1 := WithSibling(p, Straightened(p));
        }
        LiftRight(parent, tmp, t, p1);
        AtPlug(View(), Lifted(p1, t), p1.up);
        PlugBin(p1.up, Lifted(p1, t));
        elm', done := root, true;
        t', p' := Plug(p1.up, Lifted(p1, t)), Top;
      }
    }

    /** The rotation that makes the far child of the sibling red. */
    method StraightenRight(parent: Node, tmp: Node, ghost t: Tree, ghost p: Path) returns (tmp': Node)
      requires At(View(), t, p) && p.InRight? && p.n == parent
      requires Sibling(p).Bin? && Sibling(p).n == tmp && !IsRed(Far(p)) && IsRed(Near(p))
      modifies this`root, nodes
      ensures At(View(), t, WithSibling(p, Straightened(p))) && tmp' == Straightened(p).n
    {
      Around(View(), t, p);
      Nephews(View(), t, p);
      var oright := tmp.right;
      StraightenRound(View(), t, p);
      if oright != null {
        SetRed(oright, false);
      }
      SetRed(tmp, true);
      RotateLeft(tmp);
      Around(View(), t, WithSibling(p, Straightened(p)));
      tmp' := parent.left;
    }

    /** The last steps of RB_REMOVE_COLOR's loop, the far child of the sibling being red. */
    method LiftRight(parent: Node, tmp: Node, ghost t: Tree, ghost p: Path)
      requires At(View(), t, p) && p.InRight? && p.n == parent
      requires Sibling(p).Bin? && Far(p).Bin? && Sibling(p).n == tmp
      modifies this`root, nodes
      ensures At(View(), Lifted(p, t), p.up)
    {
      Around(View(), t, p);
      Nephews(View(), t, p);
      LiftRound(View(), t, p);
      LiftColours(tmp, parent, tmp.left);
      RotateRight(parent);
    }

    /** RB_REMOVE_COLOR.  The ghost zipper follows `elm` and `parent`. */
    method RemoveColor(parent_: Node?, elm_: Node?, ghost t0: Tree, ghost p0: Path)
      requires At(View(), t0, p0) && Short(p0, t0) && Root(t0) == elm_ && Above(p0) == parent_
      modifies this`root, nodes
      ensures At(View(), Refilled(p0, t0), Top)
    {
      var elm, parent := elm_, parent_;
      ghost var t, p := t0, p0;
      ghost var done := false;
      RootAbove(View(), t, p);
      AtTop(t, p);
      while (elm == null || !elm.red) && elm != root
        invariant At(View(), t, p) && Root(t) == elm && (p != Top ==> Above(p) == parent)
        invariant (elm != null ==> elm.red == t.red) && (elm == root <==> p == Top)
        invariant if done then p == Top && Blacken(t) == Refilled(p0, t0) else Refilled(p, t) == Refilled(p0, t0)
        invariant done || IsRed(t) || Short(p, t)
        decreases if IsRed(t) || done then 0 else 1 + Depth(p)
      {
        Around(View(), t, p);
        var stop;
        if parent.left == elm {
          elm, stop, t, p := RemoveRoundLeft(parent, elm, t, p);
        } else {
          elm, stop, t, p := RemoveRoundRight(parent, elm, t, p);
        }
        RootAbove(View(), t, p);
        AtTop(t, p);
        if stop {
          done := true;
          break;
        }
        parent := elm.parent;
      }
      if elm != null {
        PaintAt(View(), t, p, false);
        SetRed(elm, false);
      }
      AtPlug(View(), Blacken(t), p);
    }

    // ---------- the operations ----------

    /** RB_INIT. */
    constructor ()
      ensures Valid() && nodes == {} && root == null && Inorder(tree) == []
    {
      root := null;
      nodes := {};
      tree := Nil;
    }

    /** A red-black search tree of exactly the nodes `nodes`. */
    ghost predicate Valid()
      reads this, nodes
    {
      && nodes == Nodes(tree)
      && At(View(), tree, Top)
      && RedBlack(tree)
      && Sorted(Inorder(tree))
    }

    /** RB_INSERT.  `i` is where the new node goes in the order of the nodes. */
    method Insert(elm: Node) returns (r: Node?, ghost i: nat)
      requires Valid() && elm !in nodes
      modifies this, nodes, elm
      ensures Valid()
      ensures r != null ==> r in old(nodes) && r.key == elm.key
      ensures r != null ==> unchanged(this) && unchanged(nodes) && unchanged(elm)
      ensures r == null ==> forall n | n in old(nodes) :: n.key != elm.key
      ensures r == null ==> nodes == old(nodes) + {elm} && i <= |Inorder(old(tree))|
                            && Inorder(tree) == Inorder(old(tree))[..i] + [elm] + Inorder(old(tree))[i..]
    {
      i := 0;
      var tmp := root;
      var parent: Node? := null;
      var comp := 0;
      ghost var t, p := tree, Top;
      while tmp != null
        invariant unchanged(this) && unchanged(nodes) && unchanged(elm)
        invariant At(View(), t, p) && Plug(p, t) == tree && Root(t) == tmp && Above(p) == parent
        invariant Brackets(p, elm.key)
        invariant p != Top ==> (comp < 0 <==> p.InLeft?)
        decreases t
      {
        parent := tmp;
        Narrow(p, t, elm.key);
        AtKids(View(), t, p);
        NodesPlug(p, t);
        comp := elm.key - parent.key;
        if comp < 0 {
          t, p := t.l, InLeft(t.n, t.red, t.r, p);
          tmp := tmp.left;
        } else if comp > 0 {
          t, p := t.r, InRight(t.l, t.n, t.red, p);
          tmp := tmp.right;
        } else {
          return tmp, i;
        }
      }
      InorderPlug(p, Nil);
      i := |Before(p)|;
      InsertLeaf(elm, parent, comp, p);
      AllNodes(old(tree), Before(p), After(p), elm.key);
      r := null;
    }

    method InsertLeaf(elm: Node, parent: Node?, comp: int, ghost p: Path)
      requires Valid() && elm !in nodes
      requires At(View(), Nil, p) && Plug(p, Nil) == tree && Above(p) == parent && Brackets(p, elm.key)
      requires p != Top ==> (comp < 0 <==> p.InLeft?)
      modifies this, nodes, elm
      ensures Valid() && nodes == old(nodes) + {elm}
      ensures Inorder(tree) == Before(p) + [elm] + After(p)
    {
      LeafOk(tree, p, elm);
      HangAndColor(elm, parent, comp, p);
      tree := Fixed(p, Bin(Nil, elm, true, Nil));
    }

    method HangAndColor(elm: Node, parent: Node?, comp: int, ghost p: Path)
      requires At(View(), Nil, p) && elm !in nodes && Above(p) == parent && nodes == PathNodes(p)
      requires p != Top ==> (comp < 0 <==> p.InLeft?)
      requires RedAtHole(p, Bin(Nil, elm, true, Nil))
      modifies this`root, this`nodes, nodes, elm
      ensures nodes == old(nodes) + {elm} && At(View(), Fixed(p, Bin(Nil, elm, true, Nil)), Top)
    {
      Hang(elm, parent, comp, p);
      InsertColor(elm, Bin(Nil, elm, true, Nil), p);
    }

    /** RB_FIND. */
    method Find(key: int) returns (r: Node?)
      requires Valid()
      ensures r != null ==> r in nodes && r.key == key
      ensures r == null ==> forall n | n in nodes :: n.key != key
    {
      var tmp := root;
      ghost var t, p := tree, Top;
      while tmp != null
        invariant At(View(), t, p) && Plug(p, t) == tree && Root(t) == tmp && Brackets(p, key)
        decreases t
      {
        Narrow(p, t, key);
        AtKids(View(), t, p);
        NodesPlug(p, t);
        var comp := key - tmp.key;
        if comp < 0 {
          t, p := t.l, InLeft(t.n, t.red, t.r, p);
          tmp := tmp.left;
        } else if comp > 0 {
          t, p := t.r, InRight(t.l, t.n, t.red, p);
          tmp := tmp.right;
        } else {
          return tmp;
        }
      }
      InorderPlug(p, Nil);
      assert Inorder(tree) == Before(p) + After(p);
      AllNodes(tree, Before(p), After(p), key);
      r := null;
    }

    /** RB_NFIND: the least node not below `key`; `i` nodes are below. */
    method NFind(key: int) returns (r: Node?, ghost i: nat)
      requires Valid()
      ensures i <= |Inorder(tree)| && AllBelow(Inorder(tree)[..i], key)
      ensures r == if i < |Inorder(tree)| then Inorder(tree)[i] else null
      ensures r != null ==> key <= r.key
    {
      var tmp := root;
      var res: Node? := null;
      ghost var t, p := tree, Top;
      while tmp != null
        invariant At(View(), t, p) && Plug(p, t) == tree && Root(t) == tmp && Brackets(p, key)
        invariant res == First(After(p))
        decreases t
      {
        Narrow(p, t, key);
        AtKids(View(), t, p);
        var comp := key - tmp.key;
        if comp < 0 {
          res := tmp;
          t, p := t.l, InLeft(t.n, t.red, t.r, p);
          tmp := tmp.left;
        } else if comp > 0 {
          t, p := t.r, InRight(t.l, t.n, t.red, p);
          tmp := tmp.right;
        } else {
          i := |Before(p) + Inorder(t.l)|;
          InorderAt(p, t);
          return tmp, i;
        }
      }
      i := |Before(p)|;
      InorderPlug(p, Nil);
      assert Inorder(tree) == Before(p) + After(p);
      r := res;
    }

    /** RB_MINMAX with RB_NEGINF. */
    method Min() returns (r: Node?)
      requires Valid()
      ensures r == First(Inorder(tree))
    {
      var tmp := root;
      r := null;
      ghost var t, p := tree, Top;
      while tmp != null
        invariant At(View(), t, p) && Root(t) == tmp && Plug(p, t) == tree && Before(p) == []
        invariant r == First(After(p))
        decreases t
      {
        r := tmp;
        AtKids(View(), t, p);
        t, p := t.l, InLeft(t.n, t.red, t.r, p);
        tmp := tmp.left;
      }
      InorderPlug(p, t);
    }

    /** RB_MINMAX with RB_INF. */
    method Max() returns (r: Node?)
      requires Valid()
      ensures r == Last(Inorder(tree))
    {
      var tmp := root;
      r := null;
      ghost var t, p := tree, Top;
      while tmp != null
        invariant At(View(), t, p) && Root(t) == tmp && Plug(p, t) == tree && After(p) == []
        invariant r == Last(Before(p))
        decreases t
      {
        r := tmp;
        AtKids(View(), t, p);
        t, p := t.r, InRight(t.l, t.n, t.red, p);
        tmp := tmp.right;
      }
      InorderPlug(p, t);
    }

    /** RB_NEXT: the node after the `i`-th in key order, or null after the last. */
    method Next(elm_: Node, ghost i: nat) returns (r: Node?)
      requires Valid() && i < |Inorder(tree)| && Inorder(tree)[i] == elm_
      ensures r == if i + 1 < |Inorder(tree)| then Inorder(tree)[i + 1] else null
    {
      InorderNodes(tree);
      ghost var t, p := Locate(tree, Top, elm_);
      AtPlug(View(), t, p);
      AtKids(View(), t, p);
      NextSplit(tree, t, p, i);
      var elm := elm_;
      if elm.right != null {
        r := NextBelow(elm, t, p);
      } else {
        r := NextAbove(elm, t, p);
      }
    }

    method NextBelow(elm_: Node, ghost t0: Tree, ghost p0: Path) returns (r: Node)
      requires At(View(), t0, p0) && t0.Bin? && t0.n == elm_ && t0.r.Bin?
      ensures r == First(Inorder(t0.r) + After(p0))
    {
      AtKids(View(), t0, p0);
      var elm: Node := elm_.right;
      ghost var t, p := t0.r, InRight(t0.l, t0.n, t0.red, p0);
      AtKids(View(), t, p);
      while elm.left != null
        invariant At(View(), t, p) && t.Bin? && t.n == elm && elm.left == Root(t.l)
        invariant First(Inorder(t0.r) + After(p0)) == First(Inorder(t) + After(p))
        decreases t
      {
        AtKids(View(), t, p);
        AtKids(View(), t.l, InLeft(t.n, t.red, t.r, p));
        elm := elm.left;
        t, p := t.l, InLeft(t.n, t.red, t.r, p);
      }
      r := elm;
    }

    method NextAbove(elm_: Node, ghost t0: Tree, ghost p0: Path) returns (r: Node?)
      requires At(View(), t0, p0) && t0.Bin? && t0.n == elm_ && t0.r.Nil?
      ensures r == First(After(p0))
    {
      var elm := elm_;
      ghost var t, p := t0, p0;
      AtKids(View(), t, p);
      if p != Top { Around(View(), t, p); }
      if elm.parent != null && elm == elm.parent.left {
        return elm.parent;
      }
      while elm.parent != null && elm == elm.parent.right
        invariant At(View(), t, p) && t.Bin? && t.n == elm && elm.parent == Above(p)
        invariant p != Top ==> p.n.left == if p.InLeft? then elm else Root(p.l)
        invariant p != Top ==> p.n.right == if p.InLeft? then Root(p.r) else elm
        invariant p.InLeft? ==> p.n.right != elm
        invariant After(p) == After(p0)
        decreases p
      {
        AtUp(View(), t, p);
        elm := elm.parent;
        t, p := Up(p, t), p.up;
        AtKids(View(), t, p);
        if p != Top { Around(View(), t, p); }
      }
      r := elm.parent;
    }

    /** RB_PREV: the node before the `i`-th in key order, or null before the first. */
    method Prev(elm_: Node, ghost i: nat) returns (r: Node?)
      requires Valid() && i < |Inorder(tree)| && Inorder(tree)[i] == elm_
      ensures r == if i > 0 then Inorder(tree)[i - 1] else null
    {
      InorderNodes(tree);
      ghost var t, p := Locate(tree, Top, elm_);
      AtPlug(View(), t, p);
      AtKids(View(), t, p);
      NextSplit(tree, t, p, i);
      var elm := elm_;
      if elm.left != null {
        r := PrevBelow(elm, t, p);
      } else {
        r := PrevAbove(elm, t, p);
      }
    }

    /** The last node at or left of a hole is the last one at or left of its right child. */
    lemma LastRight(t: Tree, p: Path)
      requires t.Bin?
      ensures Before(p) + Inorder(t) == Before(InRight(t.l, t.n, t.red, p)) + Inorder(t.r)
    {
    }

    method PrevBelow(elm_: Node, ghost t0: Tree, ghost p0: Path) returns (r: Node)
      requires At(View(), t0, p0) && t0.Bin? && t0.n == elm_ && t0.l.Bin?
      ensures r == Last(Before(p0) + Inorder(t0.l))
    {
      AtKids(View(), t0, p0);
      var elm: Node := elm_.left;
      ghost var t, p := t0.l, InLeft(t0.n, t0.red, t0.r, p0);
      AtKids(View(), t, p);
      ghost var last := Last(Before(p) + Inorder(t));
      assert last == Last(Before(p0) + Inorder(t0.l));
      while elm.right != null
        invariant At(View(), t, p) && t.Bin? && t.n == elm && elm.right == Root(t.r)
        invariant last == Last(Before(p) + Inorder(t))
        decreases t
      {
        AtKids(View(), t, p);
        AtKids(View(), t.r, InRight(t.l, t.n, t.red, p));
        LastRight(t, p);
        elm := elm.right;
        t, p := t.r, InRight(t.l, t.n, t.red, p);
      }
      r := elm;
    }

    method PrevAbove(elm_: Node, ghost t0: Tree, ghost p0: Path) returns (r: Node?)
      requires At(View(), t0, p0) && t0.Bin? && t0.n == elm_ && t0.l.Nil?
      ensures r == Last(Before(p0))
    {
      var elm := elm_;
      ghost var t, p := t0, p0;
      AtKids(View(), t, p);
      if p != Top { Around(View(), t, p); }
      if elm.parent != null && elm == elm.parent.right {
        return elm.parent;
      }
      while elm.parent != null && elm == elm.parent.left
        invariant At(View(), t, p) && t.Bin? && t.n == elm && elm.parent == Above(p)
        invariant p != Top ==> p.n.left == if p.InLeft? then elm else Root(p.l)
        invariant p != Top ==> p.n.right == if p.InLeft? then Root(p.r) else elm
        invariant p.InRight? ==> p.n.left != elm
        invariant Before(p) == Before(p0)
        decreases p
      {
        AtUp(View(), t, p);
        elm := elm.parent;
        t, p := Up(p, t), p.up;
        AtKids(View(), t, p);
        if p != Top { Around(View(), t, p); }
      }
      r := elm.parent;
    }

    /** RB_FOREACH: the nodes in the order the loop visits them. */
    method Foreach() returns (visited: seq<Node>)
      requires Valid()
      ensures visited == Inorder(tree)
    {
      visited := [];
      var x := Min();
      while x != null
        invariant visited <= Inorder(tree)
        invariant x == if |visited| < |Inorder(tree)| then Inorder(tree)[|visited|] else null
        decreases |Inorder(tree)| - |visited|
      {
        var i := |visited|;
        visited := visited + [x];
        x := Next(x, i);
      }
    }

    /** RB_FOREACH_REVERSE. */
    method ForeachReverse() returns (visited: seq<Node>)
      requires Valid()
      ensures |visited| == |Inorder(tree)|
      ensures forall i :: 0 <= i < |visited| ==> visited[i] == Inorder(tree)[|visited| - 1 - i]
    {
      visited := [];
      ghost var n := |Inorder(tree)|;
      var x := Max();
      while x != null
        invariant |visited| <= n == |Inorder(tree)|
        invariant forall i :: 0 <= i < |visited| ==> visited[i] == Inorder(tree)[n - 1 - i]
        invariant x == if |visited| < n then Inorder(tree)[n - 1 - |visited|] else null
        decreases n - |visited|
      {
        ghost var i := n - 1 - |visited|;
        visited := visited + [x];
        x := Prev(x, i);
      }
    }

    /** RB_SET, and the colour red. */
    method SetFields(elm: Node, parent: Node?)
      requires elm !in nodes
      modifies this`nodes, elm
      ensures nodes == old(nodes) + {elm}
      ensures View() == old(View()).(cells := old(View()).cells[elm := Cell(null, null, parent, true)])
    {
      elm.parent := parent;
      elm.left := null;
      elm.right := null;
      elm.red := true;
      nodes := nodes + {elm};
    }

    /** RB_SET, and the new leaf linked below the node where the search ended. */
    method Hang(elm: Node, parent: Node?, comp: int, ghost p: Path)
      requires At(View(), Nil, p) && elm !in nodes && Above(p) == parent && nodes == PathNodes(p)
      requires p != Top ==> (comp < 0 <==> p.InLeft?)
      modifies this`root, this`nodes, nodes, elm
      ensures nodes == old(nodes) + {elm} && At(View(), Bin(Nil, elm, true, Nil), p)
    {
      ghost var m := View();
      SetFields(elm, parent);
      ghost var m1 := View();
      PathFrame(m, m1, p, null);
      HangRound(m1, p, elm);
      assert m1.cells[elm := Cell(null, null, Above(p), true)] == m1.cells;
      if parent != null {
        if comp < 0 {
          SetLeft(parent, elm);
        } else {
          SetRight(parent, elm);
        }
      } else {
        root := elm;
      }
    }

    /** Part of RB_REMOVE: the only child of `elm`, if any, takes its place. */
    method Splice(elm: Node, ghost t: Tree, ghost p: Path) returns (child: Node?, parent: Node?, color: bool)
      requires At(View(), t, p) && t.Bin? && (t.l.Nil? || t.r.Nil?) && t.n == elm
      modifies this`root, nodes
      ensures At(View(), OnlyChild(t), p)
      ensures View().cells[elm] == old(View()).cells[elm]
      ensures child == Root(OnlyChild(t)) && parent == Above(p) && color == t.red
    {
      AtKids(View(), t, p);
      SpliceRound(View(), t, p);
      child := if elm.left == null then elm.right else elm.left;
      parent := elm.parent;
      color := elm.red;
      SetParent(child, parent);
      Relink(parent, elm, child);
    }

    method CopyFields(elm: Node, old_: Node)
      requires elm in nodes && old_ in nodes && elm != old_
      modifies elm
      ensures View() == old(View()).(cells := old(View()).cells[elm := old(View()).cells[old_]])
      ensures old_.left == old(old_.left) && old_.right == old(old_.right) && old_.parent == old(old_.parent)
    {
      elm.left := old_.left;
      elm.right := old_.right;
      elm.parent := old_.parent;
      elm.red := old_.red;
    }

    /** The repair, when a black node went. */
    method Repair(color: bool, parent: Node?, child: Node?, ghost t: Tree, ghost p: Path)
      requires At(View(), t, p) && (!color ==> Short(p, t)) && Root(t) == child && Above(p) == parent
      modifies this`root, nodes
      ensures At(View(), if color then Plug(p, t) else Refilled(p, t), Top)
    {
      if !color {
        RemoveColor(parent, child, t, p);
      } else {
        AtPlug(View(), t, p);
      }
    }

    /** The node `elm`, already spliced out, takes over the fields and the place of `old_`. */
    method TakeOver(elm: Node, old_: Node, ghost t: Tree, ghost p: Path)
      requires At(View(), t, p) && t.Bin? && t.n == old_ && t.l.Bin?
      requires elm in nodes && elm !in Nodes(t) && elm !in PathNodes(p)
      modifies this`root, nodes
      ensures At(View(), t.(n := elm), p)
    {
      ReplaceRound(View(), t, p, elm);
      AtKids(View(), t, p);
      StandIn(elm, old_);
    }

    method StandIn(elm: Node, old_: Node)
      requires elm in nodes && old_ in nodes && elm != old_ && old_ != old_.left && old_.parent != old_
      requires old_.left != null && old_.left in nodes
      requires (old_.right != null ==> old_.right in nodes) && (old_.parent != null ==> old_.parent in nodes)
      modifies this`root, nodes
      ensures var m := old(View());
              var m1 := m.(cells := m.cells[elm := m.cells[old_]]);
              var m2 := RbTree.Relink(m1, old(old_.parent), old_, elm);
              View() == RbTree.SetParent(RbTree.SetParent(m2, old(old_.left), elm), old(old_.right), elm)
    {
      CopyFields(elm, old_);
      Relink(old_.parent, old_, elm);
      Adopt(old_, elm);
    }

    method Adopt(old_: Node, elm: Node)
      requires old_ in nodes && old_.left != null && old_.left in nodes && (old_.right != null ==> old_.right in nodes)
      requires old_ != old_.left
      modifies nodes`parent
      ensures View() == RbTree.SetParent(RbTree.SetParent(old(View()), old_.left, elm), old_.right, elm)
    {
      SetParent(old_.left, elm);
      if old_.right != null {
        SetParent(old_.right, elm);
      }
    }

    /** RB_REMOVE.  `i` is where the removed node stood in the order of the nodes. */
    method Remove(elm: Node) returns (ghost i: nat)
      requires Valid() && elm in nodes
      modifies this, nodes
      ensures Valid() && nodes == old(nodes) - {elm}
      ensures i < |Inorder(old(tree))| && Inorder(old(tree))[i] == elm
      ensures Inorder(tree) == Inorder(old(tree))[..i] + Inorder(old(tree))[i + 1..]
    {
      ghost var t, p := Locate(tree, Top, elm);
      AtPlug(View(), t, p);
      i := |Before(p) + Inorder(t.l)|;
      ghost var w := RemoveAt(elm, t, p);
      Settle(elm, w, i);
    }

    /** The tree without the removed node is the tree of this head from now on. */
    ghost method Settle(elm: Node, w: Tree, i: nat)
      requires nodes == Nodes(tree) && At(View(), w, Top) && Without(w, tree, elm, i)
      requires Sorted(Inorder(w)) && Nodes(w) == nodes - {elm}
      modifies this`nodes, this`tree
      ensures Valid() && nodes == old(nodes) - {elm}
      ensures i < |Inorder(old(tree))| && Inorder(old(tree))[i] == elm
      ensures Inorder(tree) == Inorder(old(tree))[..i] + Inorder(old(tree))[i + 1..]
    {
      Forget(elm, w);
      tree := w;
    }

    /** The fields of the removed node no longer belong to the tree. */
    ghost method Forget(elm: Node, t: Tree)
      requires At(View(), t, Top) && elm !in Nodes(t)
      modifies this`nodes
      ensures nodes == old(nodes) - {elm} && At(View(), t, Top)
    {
      var m := View();
      nodes := nodes - {elm};
      ShrinkAt(m, View(), t, elm);
    }

    /** Which of the two cases of RB_REMOVE applies. */
    method RemoveAt(elm: Node, ghost t: Tree, ghost p: Path) returns (ghost w: Tree)
      requires At(View(), t, p) && t.Bin? && t.n == elm && RedBlack(tree) && Plug(p, t) == tree
      requires Sorted(Inorder(tree))
      modifies this`root, nodes
      ensures At(View(), w, Top) && Without(w, tree, elm, |Before(p) + Inorder(t.l)|)
      ensures Sorted(Inorder(w)) && Nodes(w) == Nodes(tree) - {elm} && elm !in Nodes(w)
    {
      AtKids(View(), t, p);
      if elm.left == null || elm.right == null {
        OuterShort(tree, t, p);
        RemoveLeafOk(tree, t, p);
        RemoveOuter(elm, t, p);
        w := Spliced(p, t);
      } else {
        ghost var x, q := RemoveInner(elm, t, p);
        RemoveInnerOk(tree, t, p, q, x);
        w := Spliced(Join(q, InRight(t.l, x.n, t.red, p)), x);
      }
      WithoutNodes(w, tree, elm, |Before(p) + Inorder(t.l)|);
    }

    /** The case of at most one child. */
    method RemoveOuter(elm: Node, ghost t: Tree, ghost p: Path)
      requires At(View(), t, p) && t.Bin? && t.n == elm && (t.l.Nil? || t.r.Nil?)
      requires !t.red ==> Short(p, OnlyChild(t))
      modifies this`root, nodes
      ensures At(View(), Spliced(p, t), Top)
    {
      var child, parent, color := Splice(elm, t, p);
      Repair(color, parent, child, OnlyChild(t), p);
    }

    /** The case of two children. */
    method RemoveInner(old_: Node, ghost t: Tree, ghost p: Path) returns (ghost x: Tree, ghost q: Path)
      requires At(View(), t, p) && t.Bin? && t.n == old_ && t.l.Bin? && t.r.Bin?
      requires RedBlack(tree) && Plug(p, t) == tree
      modifies this`root, nodes
      ensures Spine(q) && x.Bin? && x.l.Nil? && t.r == Plug(q, x)
      ensures At(View(), Spliced(Join(q, InRight(t.l, x.n, t.red, p)), x), Top)
    {
      var elm: Node;
      elm, x, q := Successor(old_, t, p);
      ghost var h' := InRight(t.l, elm, t.red, p);
      InnerShort(tree, t, p, q, x);
      var child, parent, color := Exchange(old_, elm, t, p, x, q);
      if parent == old_ {
        parent := elm;
      }
      Repair(color, parent, child, x.r, Join(q, h'));
    }

    /** The leftmost node of the right subtree, with the way down to it. */
    method Successor(old_: Node, ghost t: Tree, ghost p: Path) returns (elm: Node, ghost x: Tree, ghost q: Path)
      requires At(View(), t, p) && t.Bin? && t.n == old_ && t.l.Bin? && t.r.Bin?
      ensures x.Bin? && x.n == elm && x.l.Nil? && Spine(q) && Plug(q, x) == t.r
      ensures At(View(), x, Join(q, InRight(t.l, t.n, t.red, p)))
      ensures elm in nodes && (q != Top ==> q.n != t.n)
    {
      ghost var h := InRight(t.l, t.n, t.red, p);
      AtKids(View(), t, p);
      elm := old_.right;
      x, q := t.r, Top;
      AtKids(View(), x, h);
      while elm.left != null
        invariant x.Bin? && x.n == elm && Spine(q) && Plug(q, x) == t.r
        invariant At(View(), x, Join(q, h)) && elm in nodes && elm.left == Root(x.l)
        decreases x
      {
        AtKids(View(), x, Join(q, h));
        AtKids(View(), x.l, InLeft(x.n, x.red, x.r, Join(q, h)));
        x, q := x.l, InLeft(x.n, x.red, x.r, q);
        elm := elm.left;
      }
      AtKids(View(), x, Join(q, h));
      InnerPaths(View(), t, p, q, x);
    }

    /** Splice the successor out and let it take over. */
    method Exchange(old_: Node, elm: Node, ghost t: Tree, ghost p: Path, ghost x: Tree, ghost q: Path)
      returns (child: Node?, parent: Node?, color: bool)
      requires t.Bin? && t.n == old_ && t.l.Bin? && x.Bin? && x.n == elm && x.l.Nil? && Plug(q, x) == t.r
      requires At(View(), x, Join(q, InRight(t.l, t.n, t.red, p)))
      requires elm in nodes
      modifies this`root, nodes
      ensures child == Root(x.r) && parent == Above(Join(q, InRight(t.l, t.n, t.red, p))) && color == x.red
      ensures At(View(), x.r, Join(q, InRight(t.l, elm, t.red, p)))
    {
      ghost var h, h' := InRight(t.l, t.n, t.red, p), InRight(t.l, elm, t.red, p);
      InnerPaths(View(), t, p, q, x);
      child, parent, color := Splice(elm, x, Join(q, h));
      AtJoin(View(), x.r, q, h);
      AtUp(View(), Plug(q, x.r), h);
      TakeOver(elm, old_, Up(h, Plug(q, x.r)), p);
      AtUp(View(), Plug(q, x.r), h');
      AtJoin(View(), x.r, q, h');
    }
  }

  /** Facts about the way down to the successor. */
  lemma InnerPaths(m: Mem, t: Tree, p: Path, q: Path, x: Tree)
    requires t.Bin? && x.Bin? && x.l.Nil? && Plug(q, x) == t.r
    requires At(m, x, Join(q, InRight(t.l, t.n, t.red, p)))
    ensures var h := InRight(t.l, t.n, t.red, p);
            && (q != Top ==> q.n != t.n)
            && x.n !in Nodes(Up(h, Plug(q, x.r))) && x.n !in PathNodes(p)
  {
    var h := InRight(t.l, t.n, t.red, p);
    AtJoin(m, x, q, h);
    DistinctPlug(q, x);
    NodesPlug(q, x);
    NodesPlug(q, x.r);
  }

  function First(s: seq<Node>): Node?
  {
    if s == [] then null else s[0]
  }

  function Last(s: seq<Node>): Node?
  {
    if s == [] then null else s[|s| - 1]
  }

  lemma InorderAt(p: Path, t: Tree)
    requires t.Bin?
    ensures var s, i := Inorder(Plug(p, t)), |Before(p) + Inorder(t.l)|;
            i < |s| && s[i] == t.n && s[..i] == Before(p) + Inorder(t.l) && s[i + 1..] == Inorder(t.r) + After(p)
  {
    InorderPlug(p, t);
    Assoc(Before(p), Inorder(t.l), [t.n], Inorder(t.r), After(p));
  }

  /** In a sorted tree the zipper at a node is at the node's position. */
  lemma NextSplit(w: Tree, t: Tree, p: Path, i: nat)
    requires Sorted(Inorder(w)) && Plug(p, t) == w && t.Bin? && i < |Inorder(w)| && Inorder(w)[i] == t.n
    ensures First(Inorder(t.r) + After(p)) == if i + 1 < |Inorder(w)| then Inorder(w)[i + 1] else null
    ensures Last(Before(p) + Inorder(t.l)) == if i > 0 then Inorder(w)[i - 1] else null
  {
    InorderPlug(p, t);
    SplitAround(Inorder(w), Before(p), Inorder(t.l), t.n, Inorder(t.r), After(p), i);
  }

  lemma SplitAround(s: seq<Node>, a: seq<Node>, l: seq<Node>, n: Node, r: seq<Node>, b: seq<Node>, i: nat)
    requires Sorted(s) && s == a + (l + [n] + r) + b && i < |s| && s[i] == n
    ensures First(r + b) == if i + 1 < |s| then s[i + 1] else null
    ensures Last(a + l) == if i > 0 then s[i - 1] else null
  {
    Assoc(a, l, [n], r, b);
    SplitAt(s, a + l, n, r + b, i);
  }

  lemma SplitAt(s: seq<Node>, a: seq<Node>, n: Node, b: seq<Node>, i: nat)
    requires Sorted(s) && s == a + [n] + b && i < |s| && s[i] == n
    ensures i == |a| && First(b) == (if i + 1 < |s| then s[i + 1] else null)
    ensures Last(a) == if i > 0 then s[i - 1] else null
  {
    assert s[|a|] == n;
    assert i == |a|;
  }

  lemma AtTop(t: Tree, p: Path)
    ensures Depth(p) == 0 <==> p == Top
  {
  }

  /** Both children of the root of `t` are subtrees in their own right. */
  lemma AtKids(m: Mem, t: Tree, p: Path)
    requires At(m, t, p) && t.Bin?
    ensures Has(m, t.n) && m.cells[t.n] == Cell(Root(t.l), Root(t.r), Above(p), t.red)
    ensures At(m, t.l, InLeft(t.n, t.red, t.r, p)) && At(m, t.r, InRight(t.l, t.n, t.red, p))
  {
    AtUp(m, t.l, InLeft(t.n, t.red, t.r, p));
    AtUp(m, t.r, InRight(t.l, t.n, t.red, p));
  }

  lemma AllNodes(t: Tree, a: seq<Node>, b: seq<Node>, k: int)
    requires Inorder(t) == a + b && AllBelow(a, k) && AllAbove(b, k)
    ensures forall n | n in Nodes(t) :: n.key != k
  {
    InorderNodes(t);
    ElemsSum(a, b);
  }

  ghost function Depth(p: Path): nat
  {
    if p == Top then 0 else 1 + Depth(p.up)
  }
}
