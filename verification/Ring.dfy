/**
 libuv/src/queue.h: the intrusive ring queue.  The macros are given twice: as functions on a snapshot of the
 links, with what they do to whole rings, and as methods on the nodes that compute those functions.
 */
module Ring {
  import opened Basics

  /** QUEUE.  A new node is a ring of its own, as QUEUE_INIT makes it. */
  class Node {
    var next: Node
    var prev: Node

    constructor ()
      ensures next == this && prev == this
    {
      next := this;
      prev := this;
    }
  }

  datatype Link = Link(next: Node, prev: Node)

  type Mem = map<Node, Link>

  ghost function View(nodes: set<Node>): Mem
    reads nodes
  {
    map n | n in nodes :: Link(n.next, n.prev)
  }

  // ---------- rings ----------

  function Succ(i: nat, n: nat): (j: nat)
    requires i < n
    ensures j < n
  {
    if i + 1 == n then 0 else i + 1
  }

  function Pred(i: nat, n: nat): (j: nat)
    requires i < n
    ensures j < n
  {
    if i == 0 then n - 1 else i - 1
  }

  predicate LinkAt(m: Mem, c: seq<Node>, i: nat)
    requires i < |c|
  {
    c[i] in m && m[c[i]] == Link(c[Succ(i, |c|)], c[Pred(i, |c|)])
  }

  /** The nodes of `c` form a ring, in this order. */
  predicate IsRing(m: Mem, c: seq<Node>) {
    c != [] && Distinct(c) && forall i :: 0 <= i < |c| ==> LinkAt(m, c, i)
  }

  predicate Disjoint(a: seq<Node>, b: seq<Node>) {
    forall i, j :: 0 <= i < |a| && 0 <= j < |b| ==> a[i] != b[j]
  }

  predicate SameOn(m: Mem, m': Mem, c: seq<Node>) {
    forall i :: 0 <= i < |c| ==> c[i] in m && c[i] in m' && m'[c[i]] == m[c[i]]
  }

  lemma RingFrame(m: Mem, m': Mem, c: seq<Node>)
    requires IsRing(m, c) && SameOn(m, m', c)
    ensures IsRing(m', c)
  {
    forall i | 0 <= i < |c| ensures LinkAt(m', c, i) { assert LinkAt(m, c, i); }
  }

  /** The links of a ring stay in the ring. */
  lemma RingLinks(m: Mem, c: seq<Node>, i: nat)
    requires IsRing(m, c) && i < |c|
    ensures c[i] in m && m[c[i]].next == c[Succ(i, |c|)] && m[c[i]].prev == c[Pred(i, |c|)]
    ensures m[c[i]].next in m && m[c[i]].prev in m
  {
    assert LinkAt(m, c, i) && LinkAt(m, c, Succ(i, |c|)) && LinkAt(m, c, Pred(i, |c|));
  }

  function SetNext(m: Mem, q: Node, x: Node): Mem
    requires q in m
  {
    m[q := m[q].(next := x)]
  }

  function SetPrev(m: Mem, q: Node, x: Node): Mem
    requires q in m
  {
    m[q := m[q].(prev := x)]
  }

  // ---------- QUEUE_INIT and QUEUE_EMPTY ----------

  function Init(m: Mem, q: Node): Mem
    requires q in m
  {
    SetPrev(SetNext(m, q, q), q, q)
  }

  lemma InitRing(m: Mem, q: Node)
    requires q in m
    ensures IsRing(Init(m, q), [q])
    ensures forall x | x in m && x != q :: Init(m, q)[x] == m[x]
  {
    assert LinkAt(Init(m, q), [q], 0);
  }

  lemma EmptyRing(m: Mem, h: Node, s: seq<Node>)
    requires IsRing(m, [h] + s)
    ensures h in m && (m[h].next == h <==> s == [])
    ensures s != [] ==> m[h].next == s[0]
  {
    RingLinks(m, [h] + s, 0);
    if s != [] { assert ([h] + s)[0] != ([h] + s)[1]; }
  }

  // ---------- QUEUE_INSERT_TAIL and QUEUE_INSERT_HEAD ----------

  predicate CanInsert(m: Mem, h: Node, q: Node) {
    h in m && q in m && h != q && m[h].prev in m && m[h].next in m && m[h].prev != q && m[h].next != q
  }

  function InsertTail(m: Mem, h: Node, q: Node): Mem
    requires CanInsert(m, h, q)
  {
    var m1 := SetNext(m, q, h);
    var m2 := SetPrev(m1, q, m1[h].prev);
    var m3 := SetNext(m2, m2[q].prev, q);
    SetPrev(m3, h, q)
  }

  function InsertHead(m: Mem, h: Node, q: Node): Mem
    requires CanInsert(m, h, q)
  {
    var m1 := SetNext(m, q, m[h].next);
    var m2 := SetPrev(m1, q, h);
    var m3 := SetPrev(m2, m2[q].next, q);
    SetNext(m3, h, q)
  }

  /** Only the new node and the two nodes beside it change. */
  lemma InsertTailOthers(m: Mem, h: Node, q: Node)
    requires CanInsert(m, h, q)
    ensures var m' := InsertTail(m, h, q);
      && m'.Keys == m.Keys && m'[q] == Link(h, m[h].prev)
      && (m[h].prev != h ==> m'[m[h].prev] == m[m[h].prev].(next := q) && m'[h] == m[h].(prev := q))
      && (m[h].prev == h ==> m'[h] == Link(q, q))
      && forall x | x in m && x != q && x != h && x != m[h].prev :: m'[x] == m[x]
  {
  }

  lemma InsertHeadOthers(m: Mem, h: Node, q: Node)
    requires CanInsert(m, h, q)
    ensures var m' := InsertHead(m, h, q);
      && m'.Keys == m.Keys && m'[q] == Link(m[h].next, h)
      && (m[h].next != h ==> m'[m[h].next] == m[m[h].next].(prev := q) && m'[h] == m[h].(next := q))
      && (m[h].next == h ==> m'[h] == Link(q, q))
      && forall x | x in m && x != q && x != h && x != m[h].next :: m'[x] == m[x]
  {
  }

  lemma InsertTailRing(m: Mem, h: Node, s: seq<Node>, q: Node)
    requires IsRing(m, [h] + s) && q in m && q !in [h] + s
    ensures CanInsert(m, h, q) && IsRing(InsertTail(m, h, q), [h] + s + [q])
    ensures InsertTail(m, h, q).Keys == m.Keys
    ensures forall x | x in m && x != q && x !in [h] + s :: InsertTail(m, h, q)[x] == m[x]
  {
    var c := [h] + s;
    var c' := c + [q];
    RingLinks(m, c, 0);
    assert c[|c| - 1] == m[h].prev && m[h].prev in c && m[h].next in c;
    InsertTailOthers(m, h, q);
    forall i | 0 <= i < |c'| ensures LinkAt(InsertTail(m, h, q), c', i) {
      if i < |c| { assert LinkAt(m, c, i); }
    }
  }

  lemma DistinctInsert(c: seq<Node>, k: nat, q: Node)
    requires Distinct(c) && k <= |c| && q !in c
    ensures Distinct(c[..k] + [q] + c[k..])
  {
  }

  lemma DistinctJoin(c: seq<Node>, d: seq<Node>)
    requires Distinct(c) && Distinct(d) && Disjoint(c, d)
    ensures Distinct(c + d)
  {
  }

  lemma InsertHeadRing(m: Mem, h: Node, s: seq<Node>, q: Node)
    requires IsRing(m, [h] + s) && q in m && q !in [h] + s
    ensures CanInsert(m, h, q) && IsRing(InsertHead(m, h, q), [h, q] + s)
    ensures InsertHead(m, h, q).Keys == m.Keys
    ensures forall x | x in m && x != q && x !in [h] + s :: InsertHead(m, h, q)[x] == m[x]
  {
    var c := [h] + s;
    var c' := [h, q] + s;
    RingLinks(m, c, 0);
    assert m[h].prev in c && m[h].next in c;
    InsertHeadOthers(m, h, q);
    DistinctInsert(c, 1, q);
    assert c' == c[..1] + [q] + c[1..];
    forall i | 0 <= i < |c'| ensures LinkAt(InsertHead(m, h, q), c', i) {
      if i == 0 { assert LinkAt(m, c, 0); } else if i >= 2 { assert LinkAt(m, c, i - 1); }
    }
  }

  // ---------- QUEUE_REMOVE ----------

  predicate CanRemove(m: Mem, q: Node) {
    q in m && m[q].next in m && m[q].prev in m
  }

  function Remove(m: Mem, q: Node): Mem
    requires CanRemove(m, q)
  {
    var m1 := SetNext(m, m[q].prev, m[q].next);
    SetPrev(m1, m1[q].next, m1[q].prev)
  }

  lemma RemoveLinks(m: Mem, q: Node, a: Node, b: Node)
    requires q in m && a in m && b in m && m[q] == Link(b, a) && q != a && q != b
    ensures CanRemove(m, q)
    ensures var m' := Remove(m, q);
      && m'.Keys == m.Keys
      && (a != b ==> m'[a] == m[a].(next := b) && m'[b] == m[b].(prev := a))
      && (a == b ==> m'[a] == Link(a, a))
      && forall x | x in m && x != a && x != b :: m'[x] == m[x]
  {
  }

  lemma DistinctCut(c: seq<Node>, i: nat)
    requires Distinct(c) && i < |c|
    ensures var c' := c[..i] + c[i + 1..];
      && Distinct(c') && |c'| == |c| - 1
      && forall j :: 0 <= j < |c'| ==> c'[j] == c[if j < i then j else j + 1]
  {
  }

  /** A node other than the head leaves the ring; its own links are stale. */
  lemma RemoveRing(m: Mem, c: seq<Node>, i: nat)
    requires IsRing(m, c) && 0 < i < |c|
    ensures CanRemove(m, c[i]) && IsRing(Remove(m, c[i]), c[..i] + c[i + 1..])
    ensures Remove(m, c[i]).Keys == m.Keys
    ensures forall x | x in m && x !in c :: Remove(m, c[i])[x] == m[x]
  {
    var n := |c|;
    RingLinks(m, c, i);
    RingLinks(m, c, i - 1);
    RingLinks(m, c, Succ(i, n));
    assert c[i] != c[i - 1] && c[i] != c[Succ(i, n)];
    RemoveLinks(m, c[i], c[i - 1], c[Succ(i, n)]);
    var c', m' := c[..i] + c[i + 1..], Remove(m, c[i]);
    DistinctCut(c, i);
    forall j | 0 <= j < |c'| ensures LinkAt(m', c', j) {
      var k := if j < i then j else j + 1;
      assert LinkAt(m, c, k) && c'[j] == c[k];
    }
  }

  // ---------- QUEUE_ADD, QUEUE_SPLIT, QUEUE_MOVE ----------

  predicate CanAdd(m: Mem, h: Node, n: Node) {
    h in m && n in m && m[h].prev in m && m[n].next in m && m[n].prev in m
  }

  function Add(m: Mem, h: Node, n: Node): Mem
    requires CanAdd(m, h, n)
  {
    var m1 := SetNext(m, m[h].prev, m[n].next);
    var m2 := if m1[n].next in m1 then SetPrev(m1, m1[n].next, m1[h].prev) else m1;
    var m3 := SetPrev(m2, h, m2[n].prev);
    if m3[h].prev in m3 then SetNext(m3, m3[h].prev, h) else m3
  }

  function Split(m: Mem, h: Node, q: Node, n: Node): Mem
    requires h in m && q in m && n in m && m[h].prev in m && m[q].prev in m
  {
    var m1 := SetPrev(m, n, m[h].prev);
    var m2 := SetNext(m1, m1[n].prev, n);
    var m3 := SetNext(m2, n, q);
    var m4 := SetPrev(m3, h, m3[q].prev);
    var m5 := if m4[h].prev in m4 then SetNext(m4, m4[h].prev, h) else m4;
    SetPrev(m5, q, n)
  }

  /** The second queue goes behind the first one, and its head is left alone. */
  lemma AddRing(m: Mem, h: Node, s: seq<Node>, n: Node, t: seq<Node>)
    requires IsRing(m, [h] + s) && IsRing(m, [n] + t) && Disjoint([h] + s, [n] + t) && t != []
    ensures CanAdd(m, h, n) && IsRing(Add(m, h, n), [h] + s + t)
    ensures forall x | x in m && x !in [h] + s && x !in [n] + t :: x in Add(m, h, n) && Add(m, h, n)[x] == m[x]
  {
    var c, d, e := [h] + s, [n] + t, [h] + s + t;
    RingLinks(m, c, 0);
    RingLinks(m, d, 0);
    assert m[h].prev == c[|c| - 1] && m[n].next == t[0] && m[n].prev == t[|t| - 1];
    assert d[1] == t[0] && d[|d| - 1] == t[|t| - 1];
    AddLinks(m, h, n, c[|c| - 1], t[0], t[|t| - 1]);
    DistinctParts(c, d, t);
    forall i | 0 <= i < |e| ensures LinkAt(Add(m, h, n), e, i) {
      if i < |c| { assert LinkAt(m, c, i); } else { assert LinkAt(m, d, i - |c| + 1); }
    }
  }

  lemma DistinctParts(c: seq<Node>, d: seq<Node>, t: seq<Node>)
    requires Distinct(c) && Distinct(d) && Disjoint(c, d) && d != [] && t == d[1..]
    ensures Distinct(c + t)
  {
    assert forall i :: 0 <= i < |t| ==> t[i] == d[i + 1];
    DistinctJoin(c, t);
  }

  lemma DistinctSplit(c: seq<Node>, t: seq<Node>, n: Node)
    requires Distinct(c + t) && n !in c + t
    ensures Distinct(c) && Distinct([n] + t)
  {
    assert forall i :: 0 <= i < |c| ==> c[i] == (c + t)[i];
    assert forall i :: 0 <= i < |t| ==> t[i] == (c + t)[|c| + i];
  }

  lemma AddLinks(m: Mem, h: Node, n: Node, a: Node, f: Node, l: Node)
    requires h in m && n in m && a in m && f in m && l in m && h != n && n != a
    requires m[h].prev == a && m[n] == Link(f, l) && f != h && f != a && f != n && l != h && l != a && l != n
    ensures var m' := Add(m, h, n);
      && m'.Keys == m.Keys
      && (a != h ==> m'[a] == m[a].(next := f) && m'[h] == m[h].(prev := l))
      && (a == h ==> m'[h] == Link(f, l))
      && (f != l ==> m'[f] == m[f].(prev := a) && m'[l] == m[l].(next := h))
      && (f == l ==> m'[f] == Link(h, a))
      && forall x | x in m && x != h && x != a && x != f && x != l :: m'[x] == m[x]
  {
  }

  lemma SplitLinks(m: Mem, h: Node, q: Node, n: Node, a: Node, l: Node)
    requires h in m && n in m && q in m && a in m && l in m
    requires m[h].prev == l && m[q].prev == a && n != h && n != q && n != a && n != l && q != h && q != a && l != a &&
             l != h
    ensures var m' := Split(m, h, q, n);
      && m'.Keys == m.Keys && m'[n] == Link(q, l)
      && (q != l ==> m'[q] == m[q].(prev := n) && m'[l] == m[l].(next := n))
      && (q == l ==> m'[q] == Link(n, n))
      && (a != h ==> m'[a] == m[a].(next := h) && m'[h] == m[h].(prev := a))
      && (a == h ==> m'[h] == Link(h, h))
      && forall x | x in m && x != n && x != q && x != l && x != a && x != h :: m'[x] == m[x]
  {
  }

  /** The queue is cut in front of `t[0]`, and the tail goes to the queue `n`. */
  lemma SplitRing(m: Mem, h: Node, s: seq<Node>, t: seq<Node>, n: Node)
    requires IsRing(m, [h] + s + t) && t != [] && n in m && n !in [h] + s + t
    ensures h in m && t[0] in m && m[h].prev in m && m[t[0]].prev in m
    ensures var m' := Split(m, h, t[0], n);
      && IsRing(m', [h] + s) && IsRing(m', [n] + t) && m'.Keys == m.Keys
      && forall x | x in m && x != n && x !in [h] + s + t :: m'[x] == m[x]
  {
    var c, d, e := [h] + s, [n] + t, [h] + s + t;
    RingLinks(m, e, 0);
    RingLinks(m, e, |c|);
    assert e[|c|] == t[0] && e[|e| - 1] == t[|t| - 1] && e[|c| - 1] == c[|c| - 1];
    SplitLinks(m, h, t[0], n, c[|c| - 1], t[|t| - 1]);
    DistinctSplit(c, t, n);
    forall i | 0 <= i < |c| ensures LinkAt(Split(m, h, t[0], n), c, i) { assert LinkAt(m, e, i); }
    forall i | 0 <= i < |d| ensures LinkAt(Split(m, h, t[0], n), d, i) {
      if i > 0 { assert LinkAt(m, e, |c| + i - 1); }
    }
  }

  predicate CanMove(m: Mem, h: Node, n: Node) {
    && h in m && n in m && m[h].next in m && m[h].prev in m && m[m[h].next].prev in m
  }

  function Move(m: Mem, h: Node, n: Node): Mem
    requires CanMove(m, h, n)
  {
    if m[h].next == h then Init(m, n) else Split(m, h, m[h].next, n)
  }

  /** The whole queue goes to `n`, in its order, and `h` is left empty. */
  lemma MoveRing(m: Mem, h: Node, s: seq<Node>, n: Node)
    requires IsRing(m, [h] + s) && n in m && n !in [h] + s
    ensures CanMove(m, h, n)
    ensures var m' := Move(m, h, n);
      && IsRing(m', [h]) && IsRing(m', [n] + s) && m'.Keys == m.Keys
      && forall x | x in m && x != n && x !in [h] + s :: m'[x] == m[x]
  {
    EmptyRing(m, h, s);
    RingLinks(m, [h] + s, 0);
    if s == [] {
      assert [h] + s == [h] && [n] + s == [n];
      InitRing(m, n);
      RingFrame(m, Init(m, n), [h]);
    } else {
      RingLinks(m, [h] + s, 1);
      assert [h] + [] + s == [h] + s && [h] + [] == [h];
      SplitRing(m, h, [], s, n);
    }
  }

  // ---------- the macros on the nodes ----------

  method PutNext(ghost nodes: set<Node>, q: Node, x: Node)
    requires q in nodes
    modifies q`next
    ensures View(nodes) == SetNext(old(View(nodes)), q, x)
  {
    q.next := x;
  }

  method PutPrev(ghost nodes: set<Node>, q: Node, x: Node)
    requires q in nodes
    modifies q`prev
    ensures View(nodes) == SetPrev(old(View(nodes)), q, x)
  {
    q.prev := x;
  }

  method QueueInit(ghost nodes: set<Node>, q: Node)
    requires q in nodes
    modifies nodes
    ensures View(nodes) == Init(old(View(nodes)), q)
  {
    q.next := q;
    q.prev := q;
  }

  method QueueInsertTail(ghost nodes: set<Node>, h: Node, q: Node)
    requires CanInsert(View(nodes), h, q)
    modifies nodes
    ensures View(nodes) == InsertTail(old(View(nodes)), h, q)
  {
    PutNext(nodes, q, h);
    PutPrev(nodes, q, h.prev);
    PutNext(nodes, q.prev, q);
    PutPrev(nodes, h, q);
  }

  method QueueInsertHead(ghost nodes: set<Node>, h: Node, q: Node)
    requires CanInsert(View(nodes), h, q)
    modifies nodes
    ensures View(nodes) == InsertHead(old(View(nodes)), h, q)
  {
    PutNext(nodes, q, h.next);
    PutPrev(nodes, q, h);
    PutPrev(nodes, q.next, q);
    PutNext(nodes, h, q);
  }

  method QueueRemove(ghost nodes: set<Node>, q: Node)
    requires CanRemove(View(nodes), q)
    modifies nodes
    ensures View(nodes) == Remove(old(View(nodes)), q)
  {
    PutNext(nodes, q.prev, q.next);
    PutPrev(nodes, q.next, q.prev);
  }

  method QueueAdd(ghost nodes: set<Node>, h: Node, n: Node, ghost s: seq<Node>, ghost t: seq<Node>)
    requires IsRing(View(nodes), [h] + s) && IsRing(View(nodes), [n] + t) && Disjoint([h] + s, [n] + t) && t != []
    modifies nodes
    ensures IsRing(View(nodes), [h] + s + t)
    ensures forall x | x in nodes && x !in [h] + s && x !in [n] + t :: View(nodes)[x] == old(View(nodes))[x]
  {
    AddRing(View(nodes), h, s, n, t);
    AddStays(View(nodes), h, s, n, t);
    ghost var m := View(nodes);
    PutNext(nodes, h.prev, n.next);
    PutPrev(nodes, n.next, h.prev);
    PutPrev(nodes, h, n.prev);
    PutNext(nodes, h.prev, h);
    assert View(nodes) == Add(m, h, n);
  }

  /** None of the nodes that QUEUE_ADD goes through is lost on the way. */
  lemma AddStays(m: Mem, h: Node, s: seq<Node>, n: Node, t: seq<Node>)
    requires IsRing(m, [h] + s) && IsRing(m, [n] + t) && Disjoint([h] + s, [n] + t) && t != []
    ensures h in m && n in m && h != n && m[h].prev in m && m[n].next in m && m[n].prev in m && m[h].prev != n
    ensures m[n].next != h && m[n].next != n && m[n].prev != n
  {
    var c, d := [h] + s, [n] + t;
    RingLinks(m, c, 0);
    RingLinks(m, d, 0);
    assert c[0] == h && d[0] == n && d[1] == t[0] && c[|c| - 1] == m[h].prev && d[|d| - 1] == m[n].prev;
  }

  method QueueMove(ghost nodes: set<Node>, h: Node, n: Node, ghost s: seq<Node>)
    requires IsRing(View(nodes), [h] + s) && n in nodes && n !in [h] + s && CanMove(View(nodes), h, n)
    modifies nodes
    ensures View(nodes) == Move(old(View(nodes)), h, n)
  {
    MoveRing(View(nodes), h, s, n);
    EmptyRing(View(nodes), h, s);
    if h.next == h {
      QueueInit(nodes, n);
    } else {
      QueueSplit(nodes, h, h.next, n, s);
    }
  }

  /** QUEUE_SPLIT as QUEUE_MOVE uses it, in front of the first element. */
  method QueueSplit(ghost nodes: set<Node>, h: Node, q: Node, n: Node, ghost t: seq<Node>)
    requires IsRing(View(nodes), [h] + t) && t != [] && q == t[0] && n in nodes && n !in [h] + t
    modifies nodes
    ensures h in old(View(nodes)) && q in old(View(nodes)) && old(h.prev) in nodes && old(q.prev) in nodes
    ensures View(nodes) == Split(old(View(nodes)), h, q, n)
  {
    ghost var m := View(nodes);
    RingLinks(m, [h] + t, 0);
    RingLinks(m, [h] + t, 1);
    assert [h] + t == [h] + [] + t;
    PutPrev(nodes, n, h.prev);
    PutNext(nodes, n.prev, n);
    PutNext(nodes, n, q);
    PutPrev(nodes, h, q.prev);
    PutNext(nodes, h.prev, h);
    PutPrev(nodes, q, n);
  }
}
