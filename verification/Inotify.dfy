/**
 libuv/src/unix/linux-inotify.c: the table of watched paths.  The tree, the queues and the `iterating` flag
 together decide when a watcher_list is freed, also while its handles are being called.
 */
module Inotify {
  import opened Basics
  import opened Passes
  import RbTree
  import opened RbTreeHead

  const UV_EINVAL := -22
  const UV_ENOMEM := -12

  type Node = RbTree.Node

  type Handle = nat

  /** struct watcher_list, whose tree entry is a node with the watch descriptor as its key. */
  datatype WatcherList = WatcherList(watchers: seq<Handle>, iterating: bool)

  datatype HandleState = HandleState(active: bool, wd: int)

  type Lists = map<Node, WatcherList>

  type Handles = map<Handle, HandleState>

  /** The sweep of uv__inotify_read: the list whose handles are being called, and those that are left. */
  datatype Sweep = NoSweep | Sweep(w: Node, local: seq<Handle>)

  /** What a callback may do.  The results of inotify_add_watch and of the allocation are inputs. */
  datatype Op = Start(h: Handle, wd: int, memory: bool) | Stop(h: Handle)

  type Script = (nat, Handle) -> seq<Op>

  // ---------- the tables ----------

  /** The handles of a list, on its queue or still to be called. */
  function Members(ls: Lists, sw: Sweep, w: Node): seq<Handle>
    requires w in ls
  {
    ls[w].watchers + if sw.Sweep? && sw.w == w then sw.local else []
  }

  /** The members are the handles of this watch descriptor; a list without members is being swept. */
  predicate ListOk(ls: Lists, hs: Handles, sw: Sweep, w: Node)
    requires w in ls
  {
    && (ls[w].iterating <==> sw.Sweep? && sw.w == w)
    && Distinct(Members(ls, sw, w))
    && (forall i :: 0 <= i < |Members(ls, sw, w)| ==> MemberOk(hs, Members(ls, sw, w)[i], w))
    && (Members(ls, sw, w) != [] || ls[w].iterating)
  }

  predicate MemberOk(hs: Handles, h: Handle, w: Node) {
    h in hs && hs[h].active && hs[h].wd == w.key
  }

  predicate Listed(ls: Lists, sw: Sweep, h: Handle) {
    exists w | w in ls :: h in Members(ls, sw, w)
  }

  predicate KeysDiffer(ls: Lists) {
    forall v, w | v in ls && w in ls && v != w :: v.key != w.key
  }

  predicate TableOk(ls: Lists, hs: Handles, sw: Sweep) {
    && KeysDiffer(ls)
    && (sw.Sweep? ==> sw.w in ls)
    && (forall w | w in ls :: ListOk(ls, hs, sw, w))
    && (forall h | h in hs && hs[h].active :: Listed(ls, sw, h))
  }

  /** The list of an active handle is the one with its watch descriptor. */
  lemma ListOf(ls: Lists, hs: Handles, sw: Sweep, h: Handle) returns (w: Node)
    requires TableOk(ls, hs, sw) && h in hs && hs[h].active
    ensures w in ls && w.key == hs[h].wd && h in Members(ls, sw, w)
    ensures forall v | v in ls && v != w :: h !in Members(ls, sw, v) && v.key != hs[h].wd
  {
    assert Listed(ls, sw, h);
    w :| w in ls && h in Members(ls, sw, w);
    assert ListOk(ls, hs, sw, w);
    forall v | v in ls && v != w ensures h !in Members(ls, sw, v) { assert ListOk(ls, hs, sw, v); }
  }

  /** Outside a sweep the descriptors in the tree are exactly those of active handles, and each active handle
      is on exactly one queue, once. */
  lemma ExactlyTheActive(ls: Lists, hs: Handles)
    requires TableOk(ls, hs, NoSweep)
    ensures (set w | w in ls :: w.key) == (set h | h in hs && hs[h].active :: hs[h].wd)
    ensures forall h | h in hs && hs[h].active :: exists w :: w in ls && h in ls[w].watchers
    ensures forall h, v, w | v in ls && w in ls && h in ls[v].watchers && h in ls[w].watchers :: v == w
    ensures forall w | w in ls :: Distinct(ls[w].watchers) && forall h | h in ls[w].watchers :: h in hs && hs[h].active
  {
    forall w | w in ls
      ensures Members(ls, NoSweep, w) == ls[w].watchers && ls[w].watchers != []
      ensures forall h | h in ls[w].watchers :: MemberOk(hs, h, w)
    {
      assert ListOk(ls, hs, NoSweep, w);
    }
    forall h | h in hs && hs[h].active ensures exists w :: w in ls && h in ls[w].watchers && w.key == hs[h].wd {
      var w := ListOf(ls, hs, NoSweep, h);
    }
    forall w | w in ls ensures exists h :: h in hs && hs[h].active && hs[h].wd == w.key {
      assert ls[w].watchers[0] in ls[w].watchers;
    }
  }

  // ---------- uv_fs_event_stop ----------

  lemma {:induction false} WithoutJoin(a: seq<Handle>, b: seq<Handle>, h: Handle)
    ensures Without(a + b, h) == Without(a, h) + Without(b, h)
  {
    if a == [] {
      assert a + b == b;
    } else {
      assert (a + b)[1..] == a[1..] + b;
      WithoutJoin(a[1..], b, h);
    }
  }

  /** QUEUE_REMOVE takes the handle off the queue it is on, which may be the one that is being swept. */
  function Unqueued(ls: Lists, w: Node, h: Handle): Lists
    requires w in ls
  {
    ls[w := ls[w].(watchers := Without(ls[w].watchers, h))]
  }

  function UnqueuedSweep(sw: Sweep, h: Handle): Sweep {
    if sw.Sweep? then sw.(local := Without(sw.local, h)) else sw
  }

  /** maybe_free_watcher_list frees the list. */
  predicate Freed(ls: Lists, w: Node)
    requires w in ls
  {
    !ls[w].iterating && ls[w].watchers == []
  }

  function MaybeFree(ls: Lists, w: Node): Lists
    requires w in ls
  {
    if Freed(ls, w) then ls - {w} else ls
  }

  lemma StopMembers(ls: Lists, hs: Handles, sw: Sweep, w: Node, h: Handle, v: Node)
    requires TableOk(ls, hs, sw) && w in ls && v in ls && h in hs && hs[h].active && hs[h].wd == w.key
    ensures Members(Unqueued(ls, w, h), UnqueuedSweep(sw, h), v) == Without(Members(ls, sw, v), h)
    ensures v != w ==> Without(Members(ls, sw, v), h) == Members(ls, sw, v)
  {
    WithoutJoin(ls[v].watchers, if sw.Sweep? && sw.w == v then sw.local else [], h);
    if v != w {
      var u := ListOf(ls, hs, sw, h);
      assert u == w;
      WithoutAbsent(Members(ls, sw, v), h);
      MembersParts(ls, sw, v, h);
      WithoutAbsent(ls[v].watchers, h);
    }
  }

  lemma MembersParts(ls: Lists, sw: Sweep, v: Node, h: Handle)
    requires v in ls && h !in Members(ls, sw, v)
    ensures h !in ls[v].watchers
  {
    forall i | 0 <= i < |ls[v].watchers| ensures ls[v].watchers[i] != h {
      assert Members(ls, sw, v)[i] == ls[v].watchers[i];
    }
  }

  /** After a stop: every list is as it should be, except that the handle's own may be empty. */
  lemma StopLists(ls: Lists, hs: Handles, sw: Sweep, w: Node, h: Handle, v: Node)
    requires TableOk(ls, hs, sw) && w in ls && v in ls && h in hs && hs[h].active && hs[h].wd == w.key
    ensures var ls', sw', hs' := Unqueued(ls, w, h), UnqueuedSweep(sw, h), hs[h := HandleState(false, -1)];
      && (Freed(ls', v) ==> v == w)
      && (!Freed(ls', v) ==> ListOk(ls', hs', sw', v))
  {
    var ls', sw' := Unqueued(ls, w, h), UnqueuedSweep(sw, h);
    assert ListOk(ls, hs, sw, v);
    StopMembers(ls, hs, sw, w, h, v);
    WithoutExact(Members(ls, sw, v), h);
    WithoutDistinct(Members(ls, sw, v), h);
    WithoutMembers(hs, Members(ls, sw, v), h, v);
    if v != w { assert Members(ls', sw', v) == Members(ls, sw, v) && ls'[v] == ls[v]; }
  }

  lemma WithoutMembers(hs: Handles, q: seq<Handle>, h: Handle, v: Node)
    requires forall i :: 0 <= i < |q| ==> MemberOk(hs, q[i], v)
    ensures forall i :: 0 <= i < |Without(q, h)| ==> MemberOk(hs[h := HandleState(false, -1)], Without(q, h)[i], v)
  {
    WithoutExact(q, h);
    forall i | 0 <= i < |Without(q, h)| ensures MemberOk(hs[h := HandleState(false, -1)], Without(q, h)[i], v) {
      assert Without(q, h)[i] in Without(q, h);
      var j :| 0 <= j < |q| && q[j] == Without(q, h)[i];
      assert MemberOk(hs, q[j], v);
    }
  }

  /** Stopping any active handle, also in the middle of a sweep, keeps the table right; the list that is being
      swept is not freed. */
  lemma StopOk(ls: Lists, hs: Handles, sw: Sweep, w: Node, h: Handle)
    requires TableOk(ls, hs, sw) && w in ls && h in hs && hs[h].active && hs[h].wd == w.key
    ensures var ls' := MaybeFree(Unqueued(ls, w, h), w);
      && TableOk(ls', hs[h := HandleState(false, -1)], UnqueuedSweep(sw, h))
      && (sw.Sweep? ==> sw.w in ls')
  {
    var ls1, sw', hs' := Unqueued(ls, w, h), UnqueuedSweep(sw, h), hs[h := HandleState(false, -1)];
    var ls' := MaybeFree(ls1, w);
    if sw.Sweep? { assert ListOk(ls, hs, sw, sw.w); }
    forall v | v in ls' ensures ListOk(ls', hs', sw', v) {
      StopLists(ls, hs, sw, w, h, v);
      SameList(ls1, ls', hs', sw', v);
    }
    forall g | g in hs' && hs'[g].active ensures Listed(ls', sw', g) { StopListed(ls, hs, sw, w, h, g); }
  }

  /** An active handle that is not stopped stays on its list, which is not freed. */
  lemma StopListed(ls: Lists, hs: Handles, sw: Sweep, w: Node, h: Handle, g: Handle)
    requires TableOk(ls, hs, sw) && w in ls && h in hs && hs[h].active && hs[h].wd == w.key
    requires g in hs && hs[g].active && g != h
    ensures Listed(MaybeFree(Unqueued(ls, w, h), w), UnqueuedSweep(sw, h), g)
  {
    var ls1, sw' := Unqueued(ls, w, h), UnqueuedSweep(sw, h);
    var v := ListOf(ls, hs, sw, g);
    StopMembers(ls, hs, sw, w, h, v);
    WithoutExact(Members(ls, sw, v), h);
    assert g in Members(ls1, sw', v) && ListOk(ls, hs, sw, v);
    assert !Freed(ls1, v) || v != w;
    SameMembers(ls1, MaybeFree(ls1, w), sw', v);
  }

  lemma SameList(ls: Lists, ls': Lists, hs: Handles, sw: Sweep, v: Node)
    requires v in ls && v in ls' && ls'[v] == ls[v]
    ensures ListOk(ls', hs, sw, v) <==> ListOk(ls, hs, sw, v)
  {
    SameMembers(ls, ls', sw, v);
  }

  lemma SameMembers(ls: Lists, ls': Lists, sw: Sweep, v: Node)
    requires v in ls && v in ls' && ls'[v] == ls[v]
    ensures Members(ls', sw, v) == Members(ls, sw, v)
  {
  }

  // ---------- uv_fs_event_start ----------

  /** QUEUE_INSERT_TAIL on the list of the descriptor. */
  function Queued(ls: Lists, w: Node, h: Handle): Lists
    requires w in ls
  {
    ls[w := ls[w].(watchers := ls[w].watchers + [h])]
  }

  lemma StartList(ls: Lists, hs: Handles, sw: Sweep, w: Node, h: Handle, wd: int, v: Node)
    requires v in ls && w in ls && w.key == wd && h in hs && !hs[h].active
    requires || ListOk(ls, hs, sw, v)
             || (v == w && Members(ls, sw, w) == [] && !ls[w].iterating && !(sw.Sweep? && sw.w == w))
    ensures ListOk(Queued(ls, w, h), hs[h := HandleState(true, wd)], sw, v)
    ensures forall g :: g in Members(ls, sw, v) ==> g in Members(Queued(ls, w, h), sw, v)
    ensures h in Members(Queued(ls, w, h), sw, w)
  {
    var ls', hs' := Queued(ls, w, h), hs[h := HandleState(true, wd)];
    var p, k := Members(ls, sw, v), |ls[v].watchers|;
    assert Members(ls', sw, w)[|ls[w].watchers|] == h;
    assert forall i :: 0 <= i < |p| ==> MemberOk(hs, p[i], v) && p[i] != h;
    if v == w {
      assert Members(ls', sw, v) == p[..k] + [h] + p[k..];
      Inserted(p, k, h);
    } else {
      SameMembers(ls, ls', sw, v);
    }
  }

  lemma Inserted(p: seq<Handle>, k: nat, h: Handle)
    requires k <= |p|
    ensures Distinct(p) && h !in p ==> Distinct(p[..k] + [h] + p[k..])
    ensures forall g :: g in p[..k] + [h] + p[k..] <==> g == h || g in p
  {
    assert p == p[..k] + p[k..];
  }

  /** A new, empty list joins the tree. */
  lemma AddList(ls: Lists, hs: Handles, sw: Sweep, w: Node)
    requires TableOk(ls, hs, sw) && w !in ls && forall v | v in ls :: v.key != w.key
    ensures var ls' := ls[w := WatcherList([], false)];
      && KeysDiffer(ls') && Members(ls', sw, w) == []
      && (forall v | v in ls :: ListOk(ls', hs, sw, v))
      && (forall g | g in hs && hs[g].active :: Listed(ls', sw, g))
  {
    var ls' := ls[w := WatcherList([], false)];
    forall v | v in ls ensures ListOk(ls', hs, sw, v) {
      assert ListOk(ls, hs, sw, v);
      SameMembers(ls, ls', sw, v);
    }
    forall g | g in hs && hs[g].active ensures Listed(ls', sw, g) {
      var v := ListOf(ls, hs, sw, g);
      SameMembers(ls, ls', sw, v);
    }
  }

  /** Starting an inactive handle keeps the table right, whether its list is there or has just been made. */
  lemma StartOk(ls: Lists, hs: Handles, sw: Sweep, w: Node, h: Handle, wd: int)
    requires KeysDiffer(ls) && (sw.Sweep? ==> sw.w in ls) && w in ls && w.key == wd && h in hs && !hs[h].active
    requires forall v | v in ls && v != w :: ListOk(ls, hs, sw, v)
    requires ListOk(ls, hs, sw, w) || (Members(ls, sw, w) == [] && !ls[w].iterating && !(sw.Sweep? && sw.w == w))
    requires forall g | g in hs && hs[g].active :: Listed(ls, sw, g)
    ensures TableOk(Queued(ls, w, h), hs[h := HandleState(true, wd)], sw)
  {
    var ls', hs' := Queued(ls, w, h), hs[h := HandleState(true, wd)];
    forall v | v in ls' ensures ListOk(ls', hs', sw, v) { StartList(ls, hs, sw, w, h, wd, v); }
    forall g | g in hs' && hs'[g].active ensures Listed(ls', sw, g) {
      StartList(ls, hs, sw, w, h, wd, w);
      if g != h {
        assert Listed(ls, sw, g);
        var v :| v in ls && g in Members(ls, sw, v);
        StartList(ls, hs, sw, w, h, wd, v);
      }
    }
  }

  // ---------- the sweep ----------

  lemma BeginOk(ls: Lists, hs: Handles, w: Node)
    requires TableOk(ls, hs, NoSweep) && w in ls
    ensures TableOk(ls[w := WatcherList([], true)], hs, Sweep(w, ls[w].watchers))
  {
    var ls', sw := ls[w := WatcherList([], true)], Sweep(w, ls[w].watchers);
    forall v | v in ls' ensures ListOk(ls', hs, sw, v) && Members(ls', sw, v) == Members(ls, NoSweep, v) {
      assert ListOk(ls, hs, NoSweep, v);
      assert [] + ls[w].watchers == ls[w].watchers && ls[v].watchers + [] == ls[v].watchers;
    }
    forall g | g in hs && hs[g].active ensures Listed(ls', sw, g) { var v := ListOf(ls, hs, NoSweep, g); }
  }

  /** The next handle goes to the end of the list's queue. */
  lemma TurnOk(ls: Lists, hs: Handles, sw: Sweep)
    requires TableOk(ls, hs, sw) && sw.Sweep? && sw.local != []
    ensures TableOk(Queued(ls, sw.w, sw.local[0]), hs, sw.(local := sw.local[1..]))
  {
    var w := sw.w;
    var ls', sw' := Queued(ls, w, sw.local[0]), sw.(local := sw.local[1..]);
    forall v | v in ls' ensures ListOk(ls', hs, sw', v) && Members(ls', sw', v) == Members(ls, sw, v) {
      assert ListOk(ls, hs, sw, v);
      assert sw.local == [sw.local[0]] + sw.local[1..];
      assert (ls[w].watchers + [sw.local[0]]) + sw.local[1..] == ls[w].watchers + sw.local;
    }
    forall g | g in hs && hs[g].active ensures Listed(ls', sw', g) { var v := ListOf(ls, hs, sw, g); }
  }

  lemma EndOk(ls: Lists, hs: Handles, sw: Sweep)
    requires TableOk(ls, hs, sw) && sw.Sweep? && sw.local == []
    ensures TableOk(MaybeFree(ls[sw.w := ls[sw.w].(iterating := false)], sw.w), hs, NoSweep)
  {
    var w := sw.w;
    var ls1 := ls[w := ls[w].(iterating := false)];
    var ls' := MaybeFree(ls1, w);
    forall v | v in ls' ensures ListOk(ls', hs, NoSweep, v) && Members(ls', NoSweep, v) == Members(ls, sw, v) {
      assert ListOk(ls, hs, sw, v);
    }
    forall g | g in hs && hs[g].active ensures Listed(ls', NoSweep, g) {
      var v := ListOf(ls, hs, sw, g);
      assert v in ls';
    }
  }

  lemma SweptIsActive(ls: Lists, hs: Handles, sw: Sweep)
    requires TableOk(ls, hs, sw) && sw.Sweep? && sw.local != []
    ensures sw.local[0] in hs && hs[sw.local[0]].active
  {
    assert ListOk(ls, hs, sw, sw.w);
    assert Members(ls, sw, sw.w)[|ls[sw.w].watchers|] == sw.local[0];
  }

  // ---------- what start and stop do to the lists ----------

  /** The handle is the last on the list of its descriptor, which may be new; the other lists are as they were. */
  ghost predicate ListsStarted(ls: Lists, ls': Lists, h: Handle, wd: int) {
    exists w :: w in ls' && StartedOn(ls, ls', w, h, wd)
  }

  predicate StartedOn(ls: Lists, ls': Lists, w: Node, h: Handle, wd: int) {
    && w.key == wd && (w in ls || forall v | v in ls :: v.key != wd)
    && ls' == ls[w := if w in ls then WatcherList(ls[w].watchers + [h], ls[w].iterating) else WatcherList([h], false)]
  }

  /** The handle is off the list of its descriptor, which is gone when that makes it empty, unless it is being swept;
      the other lists are as they were. */
  predicate ListsStopped(ls: Lists, ls': Lists, h: Handle, wd: int) {
    && ls'.Keys <= ls.Keys
    && (forall v | v in ls && v.key != wd :: v in ls' && ls'[v] == ls[v])
    && (forall v | v in ls && v.key == wd :: RestOf(ls, ls', v, Without(ls[v].watchers, h)))
  }

  predicate RestOf(ls: Lists, ls': Lists, v: Node, rest: seq<Handle>)
    requires v in ls
  {
    if rest == [] && !ls[v].iterating then v !in ls' else v in ls' && ls'[v] == WatcherList(rest, ls[v].iterating)
  }

  /** The kernel is told to forget the descriptors of the lists that are gone, and no others. */
  predicate WatchesLeft(ls: Lists, ls': Lists, watches: set<int>, watches': set<int>) {
    watches' == watches - set v | v in ls && v !in ls' :: v.key
  }

  /** Callbacks that start and stop nothing. */
  ghost predicate Idle(script: Script) {
    forall k: nat, h: Handle :: script(k, h) == []
  }

  /** The list that is being swept has kept its members in their order, and the others are as they were. */
  predicate Rotated(ls: Lists, sw: Sweep, ls': Lists, sw': Sweep) {
    && sw.Sweep? && sw'.Sweep? && sw'.w == sw.w && sw.w in ls && sw.w in ls' && ls' == ls[sw.w := ls'[sw.w]]
    && ls'[sw.w].iterating == ls[sw.w].iterating && Members(ls', sw', sw.w) == Members(ls, sw, sw.w)
  }

  lemma RotatedMore(ls: Lists, sw: Sweep, ls1: Lists, sw1: Sweep)
    requires Rotated(ls, sw, ls1, sw1) && sw1.local != []
    ensures Rotated(ls, sw, Queued(ls1, sw1.w, sw1.local[0]), sw1.(local := sw1.local[1..]))
  {
    assert sw1.local == [sw1.local[0]] + sw1.local[1..];
    Assoc(ls1[sw1.w].watchers, [sw1.local[0]], sw1.local[1..]);
  }

  /** A sweep that has called all handles of an idle script leaves the lists as it found them. */
  lemma RotatedEnd(ls: Lists, w: Node, ls1: Lists)
    requires w in ls && ls[w].watchers != [] && !ls[w].iterating
    requires Rotated(ls[w := WatcherList([], true)], Sweep(w, ls[w].watchers), ls1, Sweep(w, []))
    ensures MaybeFree(ls1[w := ls1[w].(iterating := false)], w) == ls
    ensures !Freed(ls1[w := ls1[w].(iterating := false)], w)
  {
    assert [] + ls[w].watchers == ls[w].watchers && ls1[w].watchers + [] == ls1[w].watchers;
    assert ls1[w := ls1[w].(iterating := false)] == ls;
  }

  lemma SomeMembers(ls: Lists, hs: Handles, w: Node)
    requires TableOk(ls, hs, NoSweep) && w in ls
    ensures ls[w].watchers != [] && !ls[w].iterating
  {
    assert ListOk(ls, hs, NoSweep, w);
  }

  lemma StartedOld(ls: Lists, w: Node, h: Handle)
    requires w in ls
    ensures ListsStarted(ls, Queued(ls, w, h), h, w.key)
  {
    assert StartedOn(ls, Queued(ls, w, h), w, h, w.key);
  }

  lemma StartedNew(ls: Lists, w: Node, h: Handle)
    requires w !in ls && forall v | v in ls :: v.key != w.key
    ensures ListsStarted(ls, Queued(ls[w := WatcherList([], false)], w, h), h, w.key)
  {
    var ls' := Queued(ls[w := WatcherList([], false)], w, h);
    assert [] + [h] == [h];
    assert ls' == ls[w := WatcherList([h], false)];
    assert StartedOn(ls, ls', w, h, w.key);
  }

  lemma StoppedLists(ls: Lists, w: Node, h: Handle)
    requires KeysDiffer(ls) && w in ls
    ensures ListsStopped(ls, MaybeFree(Unqueued(ls, w, h), w), h, w.key)
  {
  }

  lemma WatchesAfter(ls: Lists, ls1: Lists, w: Node, watches: set<int>)
    requires w in ls && ls1.Keys == ls.Keys
    ensures WatchesLeft(ls, MaybeFree(ls1, w), watches, watches - if Freed(ls1, w) then {w.key} else {})
  {
    var gone := set v | v in ls && v !in MaybeFree(ls1, w) :: v.key;
    assert gone == if Freed(ls1, w) then {w.key} else {};
  }

  // ---------- the loop ----------

  /** What init_inotify, start and stop share: the tree, the lists with their memory, the handles and the watches
      of the kernel. */
  class Loop {
    const tree: Head
    var lists: Lists
    var handles: Handles
    var sweep: Sweep
    var watches: set<int>

    ghost predicate Valid()
      reads this, tree, tree.nodes
    {
      && tree.Valid() && tree.nodes == lists.Keys
      && TableOk(lists, handles, sweep)
      && forall w | w in lists :: w.key in watches
    }

    constructor (hs: set<Handle>)
      ensures Valid() && fresh(tree) && sweep == NoSweep && handles.Keys == hs && lists == map[] && watches == {}
      ensures forall h | h in hs :: !handles[h].active
    {
      tree := new Head();
      lists := map[];
      handles := map h | h in hs :: HandleState(false, -1);
      sweep := NoSweep;
      watches := {};
    }

    /** uv_fs_event_start, once the inotify descriptor is there.  `wd` is what inotify_add_watch returns and
        `memory` says whether a new list can be allocated. */
    method Start(h: Handle, wd: int, memory: bool, err: int) returns (rc: int)
      requires Valid() && h in handles && -1 <= wd && err < 0
      modifies this`lists, this`handles, this`watches, tree, tree.nodes
      ensures Valid() && handles.Keys == old(handles.Keys)
      ensures old(lists.Keys) <= lists.Keys && fresh(tree.nodes - old(tree.nodes))
      ensures old(handles[h].active) ==> rc == UV_EINVAL && unchanged(this)
      ensures !old(handles[h].active) && wd == -1 ==> rc == err && unchanged(this)
      ensures !old(handles[h].active) && wd != -1 ==>
        && watches == old(watches) + {wd}
        && (rc == 0 <==> memory || exists w :: w in old(lists) && w.key == wd)
        && (rc == 0 ==> handles == old(handles)[h := HandleState(true, wd)] && ListsStarted(old(lists), lists, h, wd))
        && (rc != 0 ==> rc == UV_ENOMEM && handles == old(handles) && lists == old(lists))
    {
      if handles[h].active {
        return UV_EINVAL;
      }
      if wd == -1 {
        return err;
      }
      watches := watches + {wd};
      rc := Enroll(h, wd, memory);
    }

    /** The list of the descriptor, which may be new, gets the handle. */
    method Enroll(h: Handle, wd: int, memory: bool) returns (rc: int)
      requires Valid() && h in handles && !handles[h].active && wd in watches
      modifies this`lists, this`handles, tree, tree.nodes
      ensures Valid() && handles.Keys == old(handles.Keys)
      ensures old(lists.Keys) <= lists.Keys && fresh(tree.nodes - old(tree.nodes))
      ensures rc == 0 <==> memory || exists w :: w in old(lists) && w.key == wd
      ensures rc == 0 ==> handles == old(handles)[h := HandleState(true, wd)] && ListsStarted(old(lists), lists, h, wd)
      ensures rc != 0 ==> rc == UV_ENOMEM && handles == old(handles) && lists == old(lists)
    {
      var w := tree.Find(wd);
      if w == null {
        if !memory {
          return UV_ENOMEM;
        }
        EnrollNew(h, wd);
      } else {
        StartedOld(lists, w, h);
        Join(w, h);
      }
      rc := 0;
    }

    method EnrollNew(h: Handle, wd: int)
      requires Valid() && h in handles && !handles[h].active && wd in watches && forall v | v in lists :: v.key != wd
      modifies this`lists, this`handles, tree, tree.nodes
      ensures Valid() && handles == old(handles)[h := HandleState(true, wd)]
      ensures old(lists.Keys) <= lists.Keys && fresh(tree.nodes - old(tree.nodes))
      ensures ListsStarted(old(lists), lists, h, wd)
    {
      ghost var ls := lists;
      var w := AddWatcherList(wd);
      StartedNew(ls, w, h);
      Join(w, h);
    }

    /** The handle becomes active and goes to the end of the list. */
    method Join(w: Node, h: Handle)
      requires tree.Valid() && tree.nodes == lists.Keys && w in lists && h in handles && !handles[h].active
      requires KeysDiffer(lists) && (sweep.Sweep? ==> sweep.w in lists)
      requires forall v | v in lists && v != w :: ListOk(lists, handles, sweep, v)
      requires || ListOk(lists, handles, sweep, w)
               || (Members(lists, sweep, w) == [] && !lists[w].iterating && !(sweep.Sweep? && sweep.w == w))
      requires forall g | g in handles && handles[g].active :: Listed(lists, sweep, g)
      requires forall v | v in lists :: v.key in watches
      modifies this`lists, this`handles
      ensures Valid() && lists == Queued(old(lists), w, h) && handles == old(handles)[h := HandleState(true, w.key)]
    {
      StartOk(lists, handles, sweep, w, h, w.key);
      lists := Queued(lists, w, h);
      handles := handles[h := HandleState(true, w.key)];
    }

    /** A new list for a descriptor that has none. */
    method AddWatcherList(wd: int) returns (w: Node)
      requires Valid() && wd in watches && forall v | v in lists :: v.key != wd
      modifies this`lists, tree, tree.nodes
      ensures tree.Valid() && tree.nodes == lists.Keys && fresh(w) && w.key == wd
      ensures lists == old(lists)[w := WatcherList([], false)] && w !in old(lists)
      ensures KeysDiffer(lists) && Members(lists, sweep, w) == []
      ensures forall v | v in old(lists) :: ListOk(lists, handles, sweep, v)
      ensures forall g | g in handles && handles[g].active :: Listed(lists, sweep, g)
      ensures forall v | v in lists :: v.key in watches
    {
      w := new RbTree.Node(wd);
      AddList(lists, handles, sweep, w);
      InsertNode(w);
      lists := lists[w := WatcherList([], false)];
    }

    method InsertNode(w: Node)
      requires tree.Valid() && w !in tree.nodes && forall v | v in tree.nodes :: v.key != w.key
      modifies tree, tree.nodes, w
      ensures tree.Valid() && tree.nodes == old(tree.nodes) + {w}
    {
      var _, _ := tree.Insert(w);
    }

    /** maybe_free_watcher_list. */
    method MaybeFreeWatcherList(w: Node)
      requires w in lists && tree.Valid() && tree.nodes == lists.Keys && TableOk(MaybeFree(lists, w), handles, sweep)
      requires forall v | v in lists :: v.key in watches && (v != w ==> v.key != w.key)
      modifies this`lists, this`watches, tree, tree.nodes
      ensures Valid() && lists == MaybeFree(old(lists), w) && tree.nodes <= old(tree.nodes)
      ensures watches == old(watches) - if Freed(old(lists), w) then {w.key} else {}
    {
      if !lists[w].iterating && lists[w].watchers == [] {
        var _ := tree.Remove(w);
        watches := watches - {w.key};
        lists := lists - {w};
      }
    }

    /** uv_fs_event_stop.  The list of an active handle is always found. */
    method Stop(h: Handle) returns (rc: int)
      requires Valid() && h in handles
      modifies this`lists, this`handles, this`watches, this`sweep, tree, tree.nodes
      ensures Valid() && rc == 0 && handles.Keys == old(handles.Keys)
      ensures handles == if old(handles[h].active) then old(handles)[h := HandleState(false, -1)] else old(handles)
      ensures sweep == if old(handles[h].active) then UnqueuedSweep(old(sweep), h) else old(sweep)
      ensures tree.nodes <= old(tree.nodes)
      ensures if old(handles[h].active) then ListsStopped(old(lists), lists, h, old(handles[h].wd))
              else lists == old(lists)
      ensures WatchesLeft(old(lists), lists, old(watches), watches)
    {
      rc := 0;
      if handles[h].active {
        StopActive(h);
      }
    }

    method StopActive(h: Handle)
      requires Valid() && h in handles && handles[h].active
      modifies this`lists, this`handles, this`watches, this`sweep, tree, tree.nodes
      ensures Valid() && handles == old(handles)[h := HandleState(false, -1)]
      ensures sweep == UnqueuedSweep(old(sweep), h) && tree.nodes <= old(tree.nodes)
      ensures ListsStopped(old(lists), lists, h, old(handles[h].wd))
      ensures WatchesLeft(old(lists), lists, old(watches), watches)
    {
      var w := ListWith(h);
      StoppedLists(lists, w, h);
      WatchesAfter(lists, Unqueued(lists, w, h), w, watches);
      TakeOff(w, h);
    }

    method TakeOff(w: Node, h: Handle)
      requires Valid() && h in handles && handles[h].active && w in lists && w.key == handles[h].wd
      modifies this`lists, this`handles, this`watches, this`sweep, tree, tree.nodes
      ensures Valid() && handles == old(handles)[h := HandleState(false, -1)]
      ensures sweep == UnqueuedSweep(old(sweep), h) && tree.nodes <= old(tree.nodes)
      ensures lists == MaybeFree(Unqueued(old(lists), w, h), w)
      ensures watches == old(watches) - if Freed(Unqueued(old(lists), w, h), w) then {w.key} else {}
    {
      Detach(w, h);
      MaybeFreeWatcherList(w);
    }

    /** find_watcher for an active handle: its list is there. */
    method ListWith(h: Handle) returns (w: Node)
      requires Valid() && h in handles && handles[h].active
      ensures w in lists && w.key == handles[h].wd
    {
      var found := tree.Find(handles[h].wd);
      ghost var u := ListOf(lists, handles, sweep, h);
      assert found != null && found == u;
      w := found;
    }

    /** The handle becomes inactive and leaves its queue; its list may be empty now. */
    method Detach(w: Node, h: Handle)
      requires Valid() && h in handles && handles[h].active && w in lists && w.key == handles[h].wd
      modifies this`lists, this`handles, this`sweep
      ensures lists == Unqueued(old(lists), w, h) && sweep == UnqueuedSweep(old(sweep), h)
      ensures handles == old(handles)[h := HandleState(false, -1)]
      ensures TableOk(MaybeFree(lists, w), handles, sweep)
    {
      StopOk(lists, handles, sweep, w, h);
      handles := handles[h := HandleState(false, -1)];
      lists := Unqueued(lists, w, h);
      sweep := UnqueuedSweep(sweep, h);
    }

    /** A handle that is stopped leaves the sweep, if it is in it. */
    method StopCall(h: Handle)
      requires Valid() && h in handles
      modifies this`lists, this`handles, this`watches, this`sweep, tree, tree.nodes
      ensures Valid() && handles.Keys == old(handles.Keys) && tree.nodes <= old(tree.nodes)
      ensures sweep == UnqueuedSweep(old(sweep), h) && !handles[h].active
    {
      if !handles[h].active { NotSwept(lists, handles, sweep, h); }
      var _ := Stop(h);
    }

    /** A callback runs: what it stops leaves the sweep, and what it starts does not get into it. */
    method Callback(ops: seq<Op>)
      requires Valid() && Knows(ops, handles.Keys)
      modifies this`lists, this`handles, this`watches, this`sweep, tree, tree.nodes
      ensures Valid() && handles.Keys == old(handles.Keys) && fresh(tree.nodes - old(tree.nodes))
      ensures sweep == SparedSweep(old(sweep), Stopped(ops))
      ensures ops == [] ==> unchanged(this)
    {
      if ops == [] {
        SparedEnd(sweep);
      } else {
        SparedStep(sweep, ops);
        Call(ops[0]);
        Callback(ops[1..]);
      }
    }

    method Call(op: Op)
      requires Valid() && op.h in handles && (op.Start? ==> op.wd >= -1)
      modifies this`lists, this`handles, this`watches, this`sweep, tree, tree.nodes
      ensures Valid() && handles.Keys == old(handles.Keys) && fresh(tree.nodes - old(tree.nodes))
      ensures sweep == if op.Stop? then UnqueuedSweep(old(sweep), op.h) else old(sweep)
      ensures op.Stop? ==> !handles[op.h].active
      ensures op.Start? && op.wd != -1 && op.memory ==> handles[op.h].active
    {
      match op {
        case Start(h, wd, memory) =>
          var _ := Start(h, wd, memory, UV_EINVAL);
        case Stop(h) =>
          StopCall(h);
      }
    }

    /** The sweep over the handles of the list of one event: `calls` are those called, in order. */
    method SweepList(w: Node, script: Script) returns (calls: seq<Handle>)
      requires Valid() && sweep == NoSweep && w in lists
      requires KnowsAll(script, handles.Keys)
      modifies this`lists, this`handles, this`watches, this`sweep, tree, tree.nodes
      ensures Valid() && sweep == NoSweep && handles.Keys == old(handles.Keys) && fresh(tree.nodes - old(tree.nodes))
      ensures calls == Survivors(old(lists[w].watchers), 0, Stopping(script))
      ensures Idle(script) ==> lists == old(lists) && watches == old(watches) && handles == old(handles)
    {
      ghost var ls0 := lists;
      SomeMembers(ls0, handles, w);
      Begin(w);
      ghost var ls;
      calls, ls := CallRest(w, script);
      if Idle(script) { RotatedEnd(ls0, w, ls); }
    }

    /** The rest of a sweep that has begun. */
    method CallRest(w: Node, script: Script) returns (calls: seq<Handle>, ghost ls: Lists)
      requires Valid() && sweep.Sweep? && sweep.w == w && KnowsAll(script, handles.Keys)
      modifies this`lists, this`handles, this`watches, this`sweep, tree, tree.nodes
      ensures Valid() && sweep == NoSweep && handles.Keys == old(handles.Keys) && fresh(tree.nodes - old(tree.nodes))
      ensures calls == Survivors(old(sweep).local, 0, Stopping(script))
      ensures w in ls && lists == MaybeFree(ls[w := ls[w].(iterating := false)], w)
      ensures Idle(script) ==>
        && Rotated(old(lists), old(sweep), ls, Sweep(w, [])) && handles == old(handles)
        && watches == old(watches) - if Freed(ls[w := ls[w].(iterating := false)], w) then {w.key} else {}
    {
      calls := CallAll(w, script);
      ls := lists;
      End(w);
    }

    method CallAll(w: Node, script: Script) returns (calls: seq<Handle>)
      requires Valid() && sweep.Sweep? && sweep.w == w && KnowsAll(script, handles.Keys)
      modifies this`lists, this`handles, this`watches, this`sweep, tree, tree.nodes
      ensures Valid() && handles.Keys == old(handles.Keys) && fresh(tree.nodes - old(tree.nodes))
      ensures sweep == Sweep(w, []) && calls == Survivors(old(sweep).local, 0, Stopping(script))
      ensures Idle(script) ==>
        Rotated(old(lists), old(sweep), lists, sweep) && handles == old(handles) && watches == old(watches)
    {
      ghost var all := Survivors(sweep.local, 0, Stopping(script));
      calls := [];
      while sweep.local != []
        invariant Valid() && handles.Keys == old(handles.Keys) && fresh(tree.nodes - old(tree.nodes))
        invariant sweep.Sweep? && sweep.w == w
        invariant calls + Survivors(sweep.local, |calls|, Stopping(script)) == all
        invariant Idle(script) ==>
          Rotated(old(lists), old(sweep), lists, sweep) && handles == old(handles) && watches == old(watches)
        decreases |sweep.local|
      {
        if Idle(script) { RotatedMore(old(lists), old(sweep), lists, sweep); }
        calls := CallNext(calls, script);
      }
    }

    /** The next handle is called, after those of `calls0`. */
    method CallNext(calls0: seq<Handle>, script: Script) returns (calls: seq<Handle>)
      requires Valid() && sweep.Sweep? && sweep.local != [] && KnowsAll(script, handles.Keys)
      modifies this`lists, this`handles, this`watches, this`sweep, tree, tree.nodes
      ensures Valid() && handles.Keys == old(handles.Keys) && fresh(tree.nodes - old(tree.nodes))
      ensures sweep.Sweep? && sweep.w == old(sweep).w && |sweep.local| < |old(sweep).local|
      ensures calls + Survivors(sweep.local, |calls|, Stopping(script)) ==
              calls0 + Survivors(old(sweep).local, |calls0|, Stopping(script))
      ensures script(|calls0|, old(sweep).local[0]) == [] ==>
        && sweep == old(sweep).(local := old(sweep).local[1..]) && old(sweep).w in old(lists)
        && lists == Queued(old(lists), old(sweep).w, old(sweep).local[0])
        && handles == old(handles) && watches == old(watches)
    {
      NextSurvivor(calls0, sweep.local, Stopping(script));
      var h := CallHead(|calls0|, script);
      calls := calls0 + [h];
    }

    method CallHead(k: nat, script: Script) returns (h: Handle)
      requires Valid() && sweep.Sweep? && sweep.local != [] && KnowsAll(script, handles.Keys)
      modifies this`lists, this`handles, this`watches, this`sweep, tree, tree.nodes
      ensures Valid() && handles.Keys == old(handles.Keys) && fresh(tree.nodes - old(tree.nodes))
      ensures h == old(sweep).local[0]
      ensures sweep == SparedSweep(old(sweep).(local := old(sweep).local[1..]), Stopped(script(k, h)))
      ensures script(k, h) == [] ==>
        && sweep == old(sweep).(local := old(sweep).local[1..]) && old(sweep).w in old(lists)
        && lists == Queued(old(lists), old(sweep).w, h) && handles == old(handles) && watches == old(watches)
    {
      h := Turn();
      Callback(script(k, h));
    }

    /** The flag is set and the queue is moved. */
    method Begin(w: Node)
      requires Valid() && sweep == NoSweep && w in lists
      modifies this`lists, this`sweep
      ensures Valid() && sweep == Sweep(w, old(lists[w].watchers))
      ensures lists == old(lists)[w := WatcherList([], true)]
    {
      BeginOk(lists, handles, w);
      sweep := Sweep(w, lists[w].watchers);
      lists := lists[w := WatcherList([], true)];
    }

    /** The next handle is put back on the list's queue, to be called. */
    method Turn() returns (h: Handle)
      requires Valid() && sweep.Sweep? && sweep.local != []
      modifies this`lists, this`sweep
      ensures Valid() && h in handles && sweep == old(sweep).(local := old(sweep).local[1..]) &&
              h == old(sweep).local[0]
      ensures sweep.w in old(lists) && lists == Queued(old(lists), sweep.w, h)
    {
      h := sweep.local[0];
      TurnOk(lists, handles, sweep);
      SweptIsActive(lists, handles, sweep);
      lists := Queued(lists, sweep.w, h);
      sweep := sweep.(local := sweep.local[1..]);
    }

    /** The flag is cleared, and the list is freed if it is empty by now. */
    method End(w: Node)
      requires Valid() && sweep.Sweep? && sweep.w == w && sweep.local == []
      modifies this`lists, this`sweep, this`watches, tree, tree.nodes
      ensures Valid() && sweep == NoSweep && tree.nodes <= old(tree.nodes) && w in old(lists)
      ensures lists == MaybeFree(old(lists)[w := old(lists[w]).(iterating := false)], w)
      ensures watches ==
              old(watches) - if Freed(old(lists)[w := old(lists[w]).(iterating := false)], w) then {w.key} else {}
    {
      ClearFlag(w);
      MaybeFreeWatcherList(w);
    }

    method ClearFlag(w: Node)
      requires Valid() && sweep.Sweep? && sweep.w == w && sweep.local == []
      modifies this`lists, this`sweep
      ensures w in old(lists) && lists == old(lists)[w := old(lists[w]).(iterating := false)] && sweep == NoSweep
      ensures TableOk(MaybeFree(lists, w), handles, NoSweep)
      ensures forall v | v in lists :: v.key in watches && (v != w ==> v.key != w.key)
    {
      EndOk(lists, handles, sweep);
      lists := lists[w := lists[w].(iterating := false)];
      sweep := NoSweep;
    }

    /** uv__inotify_read, on the descriptors of the events that are read; `tables` are the lists in front of each
        event, and `calls` the handles that each makes call.  `scripts` gives the callbacks. */
    method Read(events: seq<int>, scripts: nat -> Script) returns (calls: seq<seq<Handle>>, ghost tables: seq<Lists>)
      requires Valid() && sweep == NoSweep
      requires forall e :: KnowsAll(scripts(e), handles.Keys)
      modifies this`lists, this`handles, this`watches, this`sweep, tree, tree.nodes
      ensures Valid() && sweep == NoSweep && handles.Keys == old(handles.Keys)
      ensures |calls| == |events| && AllCalls(old(lists), events, scripts, calls, tables, lists)
    {
      calls, tables := [], [lists];
      while |calls| < |events|
        invariant Valid() && sweep == NoSweep && handles.Keys == old(handles.Keys)
        invariant fresh(tree.nodes - old(tree.nodes))
        invariant AllCalls(old(lists), events, scripts, calls, tables, lists)
      {
        var e := |calls|;
        ghost var ls := lists;
        var called := OneEvent(events[e], scripts(e));
        MoreCalls(old(lists), events, scripts, calls, tables, ls, called, lists);
        calls, tables := calls + [called], tables + [lists];
      }
    }

    /** One event: the list of its descriptor, if there still is one, is swept. */
    method OneEvent(wd: int, script: Script) returns (called: seq<Handle>)
      requires Valid() && sweep == NoSweep
      requires KnowsAll(script, handles.Keys)
      modifies this`lists, this`handles, this`watches, this`sweep, tree, tree.nodes
      ensures Valid() && sweep == NoSweep && handles.Keys == old(handles.Keys) && fresh(tree.nodes - old(tree.nodes))
      ensures EventCalls(old(lists), wd, script, called)
    {
      called := [];
      var w := tree.Find(wd);
      if w != null {
        assert forall v | v in lists && v.key == wd :: v == w;
        called := SweepList(w, script);
      }
    }
  }

  // ---------- which handles are called ----------

  /** The handles that a callback stops. */
  function Stopped(ops: seq<Op>): seq<Handle> {
    if ops == [] then [] else (if ops[0].Stop? then [ops[0].h] else []) + Stopped(ops[1..])
  }

  function Stopping(script: Script): (nat, Handle) -> seq<Handle> {
    (k: nat, h: Handle) => Stopped(script(k, h))
  }

  /** The calls of one event: those of the list of its descriptor that are not stopped before their turn; none
      if the list is gone. */
  ghost predicate EventCalls(ls: Lists, wd: int, script: Script, calls: seq<Handle>) {
    && (forall w | w in ls && w.key == wd :: calls == Survivors(ls[w].watchers, 0, Stopping(script)))
    && ((forall w | w in ls :: w.key != wd) ==> calls == [])
  }

  /** The calls of the first events: `tables` are the lists in front of each, from `ls0`, and at the end `ls`. */
  ghost predicate AllCalls(ls0: Lists, events: seq<int>, scripts: nat -> Script, calls: seq<seq<Handle>>,
                           tables: seq<Lists>, ls: Lists)
  {
    && |calls| <= |events| && |tables| == |calls| + 1 && tables[0] == ls0 && tables[|calls|] == ls
    && forall e :: 0 <= e < |calls| ==> EventCalls(tables[e], events[e], scripts(e), calls[e])
  }

  lemma MoreCalls(ls0: Lists, events: seq<int>, scripts: nat -> Script, calls: seq<seq<Handle>>, tables: seq<Lists>,
                  ls: Lists, called: seq<Handle>, ls': Lists)
    requires AllCalls(ls0, events, scripts, calls, tables, ls) && |calls| < |events|
    requires EventCalls(ls, events[|calls|], scripts(|calls|), called)
    ensures AllCalls(ls0, events, scripts, calls + [called], tables + [ls'], ls')
  {
  }

  function SparedSweep(sw: Sweep, stopped: seq<Handle>): Sweep {
    if sw.Sweep? then sw.(local := Spared(sw.local, stopped)) else sw
  }

  /** A handle that is not active is in no sweep. */
  lemma NotSwept(ls: Lists, hs: Handles, sw: Sweep, h: Handle)
    requires TableOk(ls, hs, sw) && h in hs && !hs[h].active
    ensures UnqueuedSweep(sw, h) == sw
  {
    if sw.Sweep? {
      assert ListOk(ls, hs, sw, sw.w);
      var n := |ls[sw.w].watchers|;
      forall i | 0 <= i < |sw.local| ensures sw.local[i] != h {
        assert Members(ls, sw, sw.w)[n + i] == sw.local[i] && MemberOk(hs, Members(ls, sw, sw.w)[n + i], sw.w);
      }
      WithoutAbsent(sw.local, h);
    }
  }

  lemma SparedStep(sw: Sweep, ops: seq<Op>)
    requires ops != []
    ensures SparedSweep(sw, Stopped(ops)) ==
            SparedSweep(if ops[0].Stop? then UnqueuedSweep(sw, ops[0].h) else sw, Stopped(ops[1..]))
  {
    var more := Stopped(ops[1..]);
    if ops[0].Stop? {
      if sw.Sweep? { SparedOne(sw.local, ops[0].h, more); }
    } else {
      assert [] + more == more;
    }
  }

  lemma SparedEnd(sw: Sweep)
    ensures SparedSweep(sw, []) == sw
  {
    if sw.Sweep? { SparedNone(sw.local); }
  }

  lemma NextSurvivor(calls: seq<Handle>, local: seq<Handle>, stops: (nat, Handle) -> seq<Handle>)
    requires local != []
    ensures calls + Survivors(local, |calls|, stops)
         == (calls + [local[0]]) + Survivors(Spared(local[1..], stops(|calls|, local[0])), |calls| + 1, stops)
  {
    Assoc(calls, [local[0]], Survivors(Spared(local[1..], stops(|calls|, local[0])), |calls| + 1, stops));
  }

  ghost predicate KnowsAll(script: Script, hs: set<Handle>) {
    forall k, h | h in hs :: Knows(script(k, h), hs)
  }

  predicate Knows(ops: seq<Op>, hs: set<Handle>) {
    forall i :: 0 <= i < |ops| ==> ops[i].h in hs && (ops[i].Start? ==> ops[i].wd >= -1)
  }
}
