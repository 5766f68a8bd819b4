/**
 libuv/src/unix/loop-watcher.c: prepare, check and idle handles, and one pass over them while their callbacks
 start and stop any handles.
 */
module LoopWatcher {
  import opened Basics
  import opened Passes
  import opened Ring

  const UV_EINVAL := -22

  // ---------- what a pass does, on sequences ----------

  /** The loop's queue and, during a pass, the queue that is being worked off. */
  datatype Queues = Queues(main: seq<Node>, local: seq<Node>)

  /** What a callback may do: start a handle, with a callback or with NULL, or stop one. */
  datatype Op = Start(h: Node, cb: bool) | Stop(h: Node)

  /** What the callback of a handle does when it is the k-th to be called. */
  type Script = (nat, Node) -> seq<Op>

  function Do(s: Queues, op: Op): (r: Queues)
    ensures |r.local| <= |s.local|
  {
    match op
    case Start(h, cb) =>
      if h in s.main || h in s.local || !cb then s else s.(main := [h] + s.main)
    case Stop(h) => Queues(Without(s.main, h), Without(s.local, h))
  }

  function DoAll(s: Queues, ops: seq<Op>): (r: Queues)
    ensures |r.local| <= |s.local|
    decreases |ops|
  {
    if ops == [] then s else DoAll(Do(s, ops[0]), ops[1..])
  }

  /** The head of the queue goes to the end of the loop's queue and is called. */
  function Turn(s: Queues): Queues
    requires s.local != []
  {
    Queues(s.main + [s.local[0]], s.local[1..])
  }

  /** The calls of a pass from the `k`-th one on, in their order. */
  function Calls(s: Queues, k: nat, script: Script): seq<Node>
    decreases |s.local|
  {
    if s.local == [] then []
    else [s.local[0]] + Calls(DoAll(Turn(s), script(k, s.local[0])), k + 1, script)
  }

  /** The loop's queue after the pass. */
  function Final(s: Queues, k: nat, script: Script): seq<Node>
    decreases |s.local|
  {
    if s.local == [] then s.main else Final(DoAll(Turn(s), script(k, s.local[0])), k + 1, script)
  }

  // ---------- which handles are called ----------

  /** The handles that a callback stops. */
  function Stopped(ops: seq<Op>): seq<Node> {
    if ops == [] then [] else (if ops[0].Stop? then [ops[0].h] else []) + Stopped(ops[1..])
  }

  function Stopping(script: Script): (nat, Node) -> seq<Node> {
    (k: nat, h: Node) => Stopped(script(k, h))
  }

  /** Operations take out of the local queue what they stop and add nothing to it. */
  lemma {:induction false} DoAllLocal(s: Queues, ops: seq<Op>)
    ensures DoAll(s, ops).local == Spared(s.local, Stopped(ops))
    decreases |ops|
  {
    if ops == [] {
      SparedNone(s.local);
    } else {
      DoAllLocal(Do(s, ops[0]), ops[1..]);
      if ops[0].Stop? {
        SparedOne(s.local, ops[0].h, Stopped(ops[1..]));
      } else {
        assert [] + Stopped(ops[1..]) == Stopped(ops[1..]);
      }
    }
  }

  /** A pass calls exactly the survivors of the starting queue, in order; what callbacks start plays no
      part. */
  lemma {:induction false} CallsAreSurvivors(s: Queues, k: nat, script: Script)
    ensures Calls(s, k, script) == Survivors(s.local, k, Stopping(script))
    decreases |s.local|
  {
    if s.local != [] {
      DoAllLocal(Turn(s), script(k, s.local[0]));
      CallsAreSurvivors(DoAll(Turn(s), script(k, s.local[0])), k + 1, script);
    }
  }

  /** The callbacks of these handles stop nothing. */
  ghost predicate StopNothing(q: seq<Node>, script: Script) {
    forall k: nat, h | h in q :: Stopped(script(k, h)) == []
  }

  /** What the callbacks of a pass have started, the latest first. */
  predicate AddedInFront(s: Queues, r: Queues) {
    r.local == s.local && |r.main| >= |s.main| && r.main[|r.main| - |s.main|..] == s.main
  }

  lemma {:induction false} OpsAdd(s: Queues, ops: seq<Op>)
    requires Stopped(ops) == []
    ensures AddedInFront(s, DoAll(s, ops))
    decreases |ops|
  {
    if ops != [] {
      assert !ops[0].Stop?;
      assert Stopped(ops) == [] + Stopped(ops[1..]);
      OpsAdd(Do(s, ops[0]), ops[1..]);
      AddedTwice(s, Do(s, ops[0]), DoAll(s, ops));
    }
  }

  lemma AddedTwice(s: Queues, m: Queues, r: Queues)
    requires AddedInFront(s, m) && AddedInFront(m, r)
    ensures AddedInFront(s, r)
  {
    assert r.main[|r.main| - |s.main|..] == r.main[|r.main| - |m.main|..][|m.main| - |s.main|..];
  }

  /** A pass whose callbacks stop nothing leaves the handles that it called in their order, behind those that the
      callbacks have started. */
  lemma {:induction false} PassKeepsOrder(s: Queues, k: nat, script: Script)
    requires StopNothing(s.local, script)
    ensures var r := Final(s, k, script);
      |r| >= |s.main + s.local| && r[|r| - |s.main + s.local|..] == s.main + s.local
    decreases |s.local|
  {
    if s.local == [] {
      assert s.main + s.local == s.main;
    } else {
      var ops := script(k, s.local[0]);
      var t := Turn(s);
      assert Stopped(ops) == [];
      OpsAdd(t, ops);
      PassKeepsOrder(DoAll(t, ops), k + 1, script);
      Suffix(s, t, DoAll(t, ops), Final(s, k, script));
    }
  }

  lemma Suffix(s: Queues, t: Queues, u: Queues, r: seq<Node>)
    requires s.local != [] && t == Queues(s.main + [s.local[0]], s.local[1..]) && AddedInFront(t, u)
    requires |r| >= |u.main + u.local| && r[|r| - |u.main + u.local|..] == u.main + u.local
    ensures |r| >= |s.main + s.local| && r[|r| - |s.main + s.local|..] == s.main + s.local
  {
    TurnedOnce(s.main, s.local);
    SuffixJoin(u.main, t.main, u.local);
    SuffixTwice(r, u.main + u.local, s.main + s.local);
  }

  lemma TurnedOnce(a: seq<Node>, b: seq<Node>)
    requires b != []
    ensures a + [b[0]] + b[1..] == a + b
  {
  }

  lemma SuffixJoin(w: seq<Node>, v: seq<Node>, c: seq<Node>)
    requires |w| >= |v| && w[|w| - |v|..] == v
    ensures |w + c| >= |v + c| && (w + c)[|w + c| - |v + c|..] == v + c
  {
    var k := |w| - |v|;
    assert (w + c)[k..] == w[k..] + c;
  }

  lemma SuffixTwice(r: seq<Node>, w: seq<Node>, v: seq<Node>)
    requires |r| >= |w| >= |v| && r[|r| - |w|..] == w && w[|w| - |v|..] == v
    ensures r[|r| - |v|..] == v
  {
    assert r[|r| - |v|..] == r[|r| - |w|..][|w| - |v|..];
  }

  // ---------- dropping from a ring ----------

  function IndexOf(q: seq<Node>, h: Node): (i: nat)
    requires h in q
    ensures i < |q| && q[i] == h
  {
    if q[0] == h then 0 else 1 + IndexOf(q[1..], h)
  }

  lemma {:induction false} WithoutAt(q: seq<Node>, i: nat)
    requires Distinct(q) && i < |q|
    ensures Without(q, q[i]) == q[..i] + q[i + 1..]
  {
    assert forall j :: 0 <= j < |q[1..]| ==> q[1..][j] == q[j + 1];
    if i == 0 {
      WithoutAbsent(q[1..], q[0]);
    } else {
      WithoutAt(q[1..], i - 1);
      assert q[1..][i - 1] == q[i] && q[0] != q[i];
      assert q[..i] == [q[0]] + q[1..][..i - 1] && q[i + 1..] == q[1..][i..];
    }
  }

  /** A member of a queue is unlinked from its ring. */
  lemma RemoveFrom(m: Mem, h: Node, q: seq<Node>, x: Node)
    requires IsRing(m, [h] + q) && x in q
    ensures CanRemove(m, x) && IsRing(Remove(m, x), [h] + Without(q, x)) && Remove(m, x).Keys == m.Keys
    ensures forall y | y in m && y !in [h] + q :: Remove(m, x)[y] == m[y]
    ensures x !in Without(q, x)
  {
    var i := IndexOf(q, x);
    Tails(h, q);
    WithoutAt(q, i);
    WithoutExact(q, x);
    CutRing(h, q, i);
    RemoveRing(m, [h] + q, i + 1);
  }

  lemma CutRing(h: Node, q: seq<Node>, i: nat)
    requires i < |q|
    ensures var c := [h] + q; c[i + 1] == q[i] && c[..i + 1] + c[i + 2..] == [h] + (q[..i] + q[i + 1..])
  {
  }

  ghost predicate InMem(m: Mem, q: seq<Node>) {
    forall i :: 0 <= i < |q| ==> q[i] in m
  }

  lemma RingInMem(m: Mem, c: seq<Node>)
    requires IsRing(m, c)
    ensures InMem(m, c)
  {
    forall i | 0 <= i < |c| ensures c[i] in m { assert LinkAt(m, c, i); }
  }

  /** What is outside a ring is as it was, so other rings are. */
  lemma OtherRing(m: Mem, m': Mem, c: seq<Node>, d: seq<Node>, q: Node)
    requires IsRing(m, c) && InMem(m, d) && Disjoint(c, d) && q !in c && m'.Keys == m.Keys
    requires forall x | x in m && x !in d && x != q :: m'[x] == m[x]
    ensures IsRing(m', c)
  {
    RingInMem(m, c);
    forall i | 0 <= i < |c| ensures c[i] in m' && m'[c[i]] == m[c[i]] { assert c[i] in c && c[i] !in d; }
    RingFrame(m, m', c);
  }

  // ---------- the queues in memory ----------

  /** Both rings are well formed and have nothing in common. */
  ghost predicate TwoRings(m: Mem, head: Node, queue: Node, s: Queues) {
    && IsRing(m, [head] + s.main) && IsRing(m, [queue] + s.local)
    && Disjoint([head] + s.main, [queue] + s.local)
  }

  lemma StopMain(m: Mem, head: Node, queue: Node, s: Queues, h: Node)
    requires TwoRings(m, head, queue, s) && h in s.main
    ensures CanRemove(m, h) && TwoRings(Remove(m, h), head, queue, Do(s, Op.Stop(h))) && Remove(m, h).Keys == m.Keys
  {
    var c, d := [head] + s.main, [queue] + s.local;
    RemoveFrom(m, head, s.main, h);
    RingInMem(m, c);
    Apart(c, d, h);
    OtherRing(m, Remove(m, h), d, c, h);
    Tails(queue, s.local);
    WithoutAbsent(s.local, h);
    WithoutIn(head, s.main, h);
    StillDisjoint(c, [head] + Without(s.main, h), d);
  }

  lemma WithoutIn(head: Node, q: seq<Node>, h: Node)
    ensures forall i :: 0 <= i < |[head] + Without(q, h)| ==> ([head] + Without(q, h))[i] in [head] + q
  {
    forall i | 0 <= i < |[head] + Without(q, h)| ensures ([head] + Without(q, h))[i] in [head] + q {
      if i > 0 {
        var x := Without(q, h)[i - 1];
        assert x in Without(q, h) && x in q;
        var j := IndexOf(q, x);
        assert ([head] + q)[j + 1] == x;
      } else {
        assert ([head] + q)[0] == head;
      }
    }
  }

  lemma StopLocal(m: Mem, head: Node, queue: Node, s: Queues, h: Node)
    requires TwoRings(m, head, queue, s) && h in s.local
    ensures CanRemove(m, h) && TwoRings(Remove(m, h), head, queue, Do(s, Op.Stop(h))) && Remove(m, h).Keys == m.Keys
  {
    var c, d := [head] + s.main, [queue] + s.local;
    RemoveFrom(m, queue, s.local, h);
    RingInMem(m, d);
    StillDisjoint(c, c, d);
    Apart(d, c, h);
    OtherRing(m, Remove(m, h), c, d, h);
    Tails(head, s.main);
    WithoutAbsent(s.main, h);
    WithoutIn(queue, s.local, h);
    StillDisjoint(d, [queue] + Without(s.local, h), c);
  }

  lemma StillDisjoint(c: seq<Node>, c': seq<Node>, d: seq<Node>)
    requires Disjoint(c, d) || Disjoint(d, c)
    requires forall i :: 0 <= i < |c'| ==> c'[i] in c || c'[i] !in d
    ensures Disjoint(c', d) && Disjoint(d, c')
  {
    forall i, j | 0 <= i < |c'| && 0 <= j < |d| ensures c'[i] != d[j] {
      if k :| 0 <= k < |c| && c[k] == c'[i] { assert c[k] != d[j]; }
    }
  }

  lemma Tails(h: Node, q: seq<Node>)
    requires Distinct([h] + q)
    ensures Distinct(q) && h !in q && forall i :: 0 <= i < |q| ==> q[i] in [h] + q
  {
    assert ([h] + q)[0] == h && forall i :: 0 <= i < |q| ==> q[i] == ([h] + q)[i + 1];
    assert forall i :: 0 <= i < |q| ==> q[i] != h;
  }

  lemma Apart(c: seq<Node>, d: seq<Node>, h: Node)
    requires Disjoint(c, d) && h in c
    ensures h !in d
  {
  }

  lemma StartMain(m: Mem, head: Node, queue: Node, s: Queues, h: Node)
    requires TwoRings(m, head, queue, s) && h in m && h !in [head] + s.main && h !in [queue] + s.local
    ensures CanInsert(m, head, h) && InsertHead(m, head, h).Keys == m.Keys
    ensures TwoRings(InsertHead(m, head, h), head, queue, s.(main := [h] + s.main))
  {
    var c, d := [head] + s.main, [queue] + s.local;
    InsertHeadRing(m, head, s.main, h);
    RingInMem(m, c);
    OtherRing(m, InsertHead(m, head, h), d, c, h);
    assert [head] + ([h] + s.main) == [head, h] + s.main;
    Member(head, s.main);
    StillDisjoint(c, [head] + ([h] + s.main), d);
  }

  lemma Member(head: Node, q: seq<Node>)
    ensures head in [head] + q && forall i :: 0 <= i < |q| ==> q[i] in [head] + q
  {
    assert ([head] + q)[0] == head;
    forall i | 0 <= i < |q| ensures q[i] in [head] + q { assert ([head] + q)[i + 1] == q[i]; }
  }

  /** The head of the local queue goes to the end of the other one. */
  lemma TurnRings(m: Mem, head: Node, queue: Node, s: Queues)
    requires TwoRings(m, head, queue, s) && s.local != []
    ensures CanRemove(m, s.local[0]) && CanInsert(Remove(m, s.local[0]), head, s.local[0])
    ensures var m' := InsertTail(Remove(m, s.local[0]), head, s.local[0]);
      m'.Keys == m.Keys && TwoRings(m', head, queue, Turn(s))
  {
    var h := s.local[0];
    var s1 := Do(s, Op.Stop(h));
    var d := [queue] + s.local;
    assert d[1] == h && h in d;
    StopLocal(m, head, queue, s, h);
    RemoveFrom(m, queue, s.local, h);
    Tails(queue, s.local);
    WithoutAt(s.local, 0);
    StillDisjoint([head] + s.main, [head] + s.main, d);
    Apart(d, [head] + s.main, h);
    Tails(head, s.main);
    WithoutAbsent(s.main, h);
    assert s1 == Queues(s.main, s.local[1..]);
    TailRings(Remove(m, h), head, queue, s1, h);
  }

  lemma TailRings(m: Mem, head: Node, queue: Node, s: Queues, h: Node)
    requires TwoRings(m, head, queue, s) && h in m && h !in [head] + s.main && h !in [queue] + s.local
    ensures CanInsert(m, head, h) && InsertTail(m, head, h).Keys == m.Keys
    ensures TwoRings(InsertTail(m, head, h), head, queue, s.(main := s.main + [h]))
  {
    InsertTailRing(m, head, s.main, h);
    RingInMem(m, [head] + s.main);
    OtherRing(m, InsertTail(m, head, h), [queue] + s.local, [head] + s.main, h);
    assert [head] + (s.main + [h]) == [head] + s.main + [h];
    Member(head, s.main);
    StillDisjoint([head] + s.main, [head] + (s.main + [h]), [queue] + s.local);
  }

  // ---------- the handles of a loop ----------

  /** The handles on the two queues are exactly the active ones. */
  predicate StillActive(s: Queues, active: set<Node>) {
    && (forall i :: 0 <= i < |s.main| ==> s.main[i] in active)
    && (forall i :: 0 <= i < |s.local| ==> s.local[i] in active)
    && (forall h | h in active :: h in s.main || h in s.local)
  }

  /** The operations are on handles that have been initialised. */
  predicate Knows(ops: seq<Op>, handles: set<Node>) {
    forall i :: 0 <= i < |ops| ==> ops[i].h in handles
  }

  /** One kind of watcher: the loop's queue, the handles that have been initialised and those that are active.
      A handle is known by its queue node. */
  class Watchers {
    const head: Node
    ghost var nodes: set<Node>
    ghost var handles: set<Node>
    var active: set<Node>
    /** The two queues, and the head of the one that a pass works off (or of one that is empty). */
    ghost var q: Queues
    var queue: Node

    ghost predicate Valid()
      reads this, nodes
    {
      && head in nodes && queue in nodes && handles <= nodes && head !in handles && queue !in handles
      && TwoRings(View(nodes), head, queue, q)
      && active <= handles
      && StillActive(q, active)
    }

    constructor ()
      ensures Valid() && fresh(nodes) && handles == {} && active == {} && q == Queues([], [])
    {
      var h := new Node();
      var l := new Node();
      head := h;
      queue := l;
      nodes := {h, l};
      handles := {};
      active := {};
      q := Queues([], []);
      new;
      assert [head] + [] == [head] && [queue] + [] == [queue];
      assert LinkAt(View(nodes), [head], 0) && LinkAt(View(nodes), [queue], 0);
    }

    /** A handle is in memory and on neither ring unless it is active. */
    lemma Outside(h: Node)
      requires Valid() && h in handles && h !in active
      ensures h in View(nodes) && h !in [head] + q.main && h !in [queue] + q.local
    {
      assert forall i :: 0 < i < |[head] + q.main| ==> ([head] + q.main)[i] == q.main[i - 1];
      assert forall i :: 0 < i < |[queue] + q.local| ==> ([queue] + q.local)[i] == q.local[i - 1];
    }

    /** uv_prepare_start, uv_check_start, uv_idle_start; `cb` says that the callback is not NULL. */
    method Start(h: Node, cb: bool) returns (rc: int)
      requires Valid() && h in handles
      modifies this`active, this`q, nodes
      ensures Valid() && q == Do(old(q), Op.Start(h, cb))
      ensures q.local == old(q).local && q.main == if h in old(active) || !cb then old(q).main else [h] + old(q).main
      ensures active == if cb then old(active) + {h} else old(active)
      ensures rc == if h in old(active) || cb then 0 else UV_EINVAL
    {
      if h in active {
        return 0;
      }
      if !cb {
        return UV_EINVAL;
      }
      Outside(h);
      StartMain(View(nodes), head, queue, q, h);
      QueueInsertHead(nodes, head, h);
      q := q.(main := [h] + q.main);
      active := active + {h};
      rc := 0;
    }

    /** uv_prepare_stop, uv_check_stop, uv_idle_stop. */
    method Stop(h: Node) returns (rc: int)
      requires Valid() && h in handles
      modifies this`active, this`q, nodes
      ensures Valid() && q == Do(old(q), Op.Stop(h)) && rc == 0
      ensures active == old(active) - {h} && forall i :: 0 <= i < |q.main + q.local| ==> (q.main + q.local)[i] != h
    {
      rc := 0;
      if h !in active {
        WithoutAbsent(q.main, h);
        WithoutAbsent(q.local, h);
        return;
      }
      Unlinked(h);
      QueueRemove(nodes, h);
      q := Do(q, Op.Stop(h));
      active := active - {h};
    }

    /** An active handle leaves the ring it is on. */
    lemma Unlinked(h: Node)
      requires Valid() && h in active
      ensures CanRemove(View(nodes), h) && Remove(View(nodes), h).Keys == View(nodes).Keys
      ensures TwoRings(Remove(View(nodes), h), head, queue, Do(q, Op.Stop(h)))
      ensures StillActive(Do(q, Op.Stop(h)), active - {h})
    {
      if h in q.main { StopMain(View(nodes), head, queue, q, h); } else { StopLocal(View(nodes), head, queue, q, h); }
      Dropped(q, h);
      var s := Do(q, Op.Stop(h));
      forall i | 0 <= i < |s.main| ensures s.main[i] in active - {h} { assert s.main[i] in s.main; }
      forall i | 0 <= i < |s.local| ensures s.local[i] in active - {h} { assert s.local[i] in s.local; }
    }

    lemma Dropped(s: Queues, h: Node)
      ensures forall x :: x in Without(s.main, h) <==> x in s.main && x != h
      ensures forall x :: x in Without(s.local, h) <==> x in s.local && x != h
    {
      WithoutExact(s.main, h);
      WithoutExact(s.local, h);
    }

    /** A callback runs. */
    method Callback(ops: seq<Op>)
      requires Valid() && Knows(ops, handles)
      modifies this`active, this`q, nodes
      ensures Valid() && q == DoAll(old(q), ops)
    {
      var i := 0;
      assert ops[0..] == ops;
      while i < |ops|
        invariant i <= |ops| && Valid() && DoAll(q, ops[i..]) == DoAll(old(q), ops)
      {
        assert ops[i..][0] == ops[i] && ops[i..][1..] == ops[i + 1..];
        Call(ops[i]);
        i := i + 1;
      }
    }

    method Call(op: Op)
      requires Valid() && op.h in handles
      modifies this`active, this`q, nodes
      ensures Valid() && q == Do(old(q), op)
    {
      match op {
        case Start(h, cb) =>
          var _ := Start(h, cb);
        case Stop(h) =>
          var _ := Stop(h);
      }
    }

    /** QUEUE_MOVE at the beginning of a pass, to a queue on the stack. */
    method MoveAll()
      requires Valid() && q.local == []
      modifies this`q, this`queue, this`nodes, nodes
      ensures Valid() && q == Queues([], old(q.main)) && fresh(nodes - old(nodes)) && old(nodes) <= nodes
    {
      var l := Grow();
      assert StillActive(Queues([], q.main), active);
      Transfer(l);
    }

    method Transfer(l: Node)
      requires head in nodes && l in nodes && handles <= nodes && head !in handles && l !in handles
      requires active <= handles && StillActive(Queues([], q.main), active)
      requires IsRing(View(nodes), [head] + q.main) && l !in [head] + q.main
      modifies this`q, this`queue, nodes
      ensures Valid() && q == Queues([], old(q.main))
    {
      Moved(View(nodes), head, q.main, l);
      QueueMove(nodes, head, l, q.main);
      queue := l;
      q := Queues([], q.main);
    }

    /** A queue head of its own, on no ring. */
    method Grow() returns (l: Node)
      requires Valid() && q.local == []
      modifies this`nodes
      ensures fresh(l) && nodes == old(nodes) + {l} && l !in handles && l != head
      ensures IsRing(View(nodes), [head] + q.main) && l !in [head] + q.main
    {
      l := new Node();
      ghost var m0 := View(nodes);
      nodes := nodes + {l};
      Enlarged(m0, View(nodes), head, q.main, l);
    }

    lemma Enlarged(m: Mem, m': Mem, h: Node, s: seq<Node>, l: Node)
      requires IsRing(m, [h] + s) && l !in m && m'.Keys == m.Keys + {l} && forall x | x in m :: m'[x] == m[x]
      ensures IsRing(m', [h] + s) && l !in [h] + s
    {
      RingInMem(m, [h] + s);
      RingFrame(m, m', [h] + s);
    }

    lemma Moved(m: Mem, h: Node, s: seq<Node>, l: Node)
      requires IsRing(m, [h] + s) && l in m && l !in [h] + s
      ensures CanMove(m, h, l) && TwoRings(Move(m, h, l), h, l, Queues([], s))
    {
      MoveRing(m, h, s, l);
      Tails(h, s);
      assert [h] + [] == [h];
    }

    /** uv__run_prepare, uv__run_check, uv__run_idle: `calls` are the callbacks, in order. */
    method Run(script: Script) returns (calls: seq<Node>)
      requires Valid() && q.local == []
      requires forall k, h | h in handles :: Knows(script(k, h), handles)
      modifies this`active, this`q, this`queue, this`nodes, nodes
      ensures Valid() && q == Queues(Final(Queues([], old(q.main)), 0, script), [])
      ensures calls == Survivors(old(q.main), 0, Stopping(script))
    {
      MoveAll();
      ghost var s0 := q;
      calls := [];
      ghost var all := Calls(q, 0, script);
      CallsAreSurvivors(q, 0, script);
      while true
        invariant Valid() && fresh(nodes - old(nodes)) && old(nodes) <= nodes && handles == old(handles)
        invariant calls + Calls(q, |calls|, script) == all
        invariant Final(q, |calls|, script) == Final(s0, 0, script)
        decreases |q.local|
      {
        var h := First();
        if h == null {
          break;
        }
        ghost var s := q;
        NextTurn(h);
        Callback(script(|calls|, h));
        OneCall(calls, h, Calls(q, |calls| + 1, script));
        calls := calls + [h];
      }
    }

    lemma OneCall(calls: seq<Node>, h: Node, more: seq<Node>)
      ensures calls + ([h] + more) == (calls + [h]) + more
    {
    }

    /** The head of the queue being worked off, if it is not empty. */
    method First() returns (h: Node?)
      requires Valid()
      ensures h == if q.local == [] then null else q.local[0]
    {
      EmptyRing(View(nodes), queue, q.local);
      if queue.next == queue {
        return null;
      }
      h := queue.next;
    }

    /** The head goes to the end of the loop's queue. */
    method NextTurn(h: Node)
      requires Valid() && q.local != [] && q.local[0] == h
      modifies this`q, nodes
      ensures Valid() && q == Turn(old(q))
    {
      TurnRings(View(nodes), head, queue, q);
      Requeue(h);
      q := Turn(q);
    }

    method Requeue(h: Node)
      requires head in nodes && CanRemove(View(nodes), h) && CanInsert(Remove(View(nodes), h), head, h)
      modifies nodes
      ensures View(nodes) == InsertTail(Remove(old(View(nodes)), h), head, h)
    {
      QueueRemove(nodes, h);
      QueueInsertTail(nodes, head, h);
    }
  }
}
