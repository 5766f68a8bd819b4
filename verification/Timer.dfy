/**
 Timers: uv_timer_start, stop and again, uv__next_timeout and uv__run_timers on the binary heap.

 The fields of a `uv_timer_t` are an entry of `handles`, keyed by its `heap_node`.
 */
module Timer {
  import opened HeapShape
  import opened HeapInl

  const U64 := 0x1_0000_0000_0000_0000
  const INT_MAX := 0x7FFF_FFFF
  const UV_EINVAL := -22

  datatype Handle = Handle(hasCb: bool, timeout: nat, repeat: nat, startId: nat, active: bool, closing: bool)

  type Handles = map<Node, Handle>

  /** timer_less_than. */
  predicate KeyLess(a: Handle, b: Handle)
  {
    if a.timeout < b.timeout then true
    else if b.timeout < a.timeout then false
    else a.startId < b.startId
  }

  function TimerLess(hs: Handles): Less
  {
    (a: Node, b: Node) => a in hs && b in hs && KeyLess(hs[a], hs[b])
  }

  lemma TimerLessIs(hs: Handles, a: Node, b: Node)
    ensures TimerLess(hs)(a, b) <==> a in hs && b in hs && KeyLess(hs[a], hs[b])
  {
  }

  lemma TimerLessOk(hs: Handles, all: set<Node>)
    requires all <= hs.Keys
    ensures StrictWeak(TimerLess(hs), all)
  {
    var less := TimerLess(hs);
    forall a, b | a in all && b in all && less(a, b) ensures !less(b, a) {
      TimerLessIs(hs, a, b);
      TimerLessIs(hs, b, a);
    }
    forall a, b, c | a in all && b in all && c in all && less(a, c) ensures less(a, b) || less(b, c) {
      TimerLessIs(hs, a, c);
      TimerLessIs(hs, a, b);
      TimerLessIs(hs, b, c);
    }
  }

  predicate SameKeys(s: seq<Node>, hs: Handles, hs': Handles)
  {
    forall i :: 0 <= i < |s| ==>
      && s[i] in hs && s[i] in hs'
      && hs'[s[i]].timeout == hs[s[i]].timeout && hs'[s[i]].startId == hs[s[i]].startId
  }

  /** The order of the heap depends on its members' keys only. */
  lemma SameOrder(s: seq<Node>, hs: Handles, hs': Handles)
    requires Ordered(s, TimerLess(hs)) && SameKeys(s, hs, hs')
    ensures Ordered(s, TimerLess(hs'))
  {
    forall k | 2 <= k <= |s| ensures InOrder(s, TimerLess(hs'), k) {
      assert InOrder(s, TimerLess(hs), k);
      TimerLessIs(hs, s[k - 1], s[k / 2 - 1]);
      TimerLessIs(hs', s[k - 1], s[k / 2 - 1]);
    }
  }

  /** What a timer's clamped absolute timeout is. */
  function Clamp(t: nat): nat
  {
    if t < U64 then t else U64 - 1
  }

  /** The 64-bit number that a sum becomes: the sum itself, or the largest number when it does not fit. */
  predicate IsClamped(t: nat, sum: nat)
  {
    if sum < 0x1_0000_0000_0000_0000 then t == sum else t == 0xFFFF_FFFF_FFFF_FFFF
  }

  predicate Due(hs: Handles, time: nat, n: Node)
  {
    n in hs && hs[n].active && hs[n].timeout <= time
  }

  /** The heap's members are exactly the active timers; each has a callback and a start id of its own. */
  ghost predicate TableOk(hs: Handles, nodes: set<Node>, counter: nat)
  {
    && nodes <= hs.Keys
    && (forall n | n in hs :: HandleOk(hs[n], n in nodes, counter))
    && (forall a, b | a in nodes && b in nodes && a != b :: hs[a].startId != hs[b].startId)
  }

  predicate HandleOk(h: Handle, member: bool, counter: nat)
  {
    && (h.active <==> member)
    && h.timeout < U64 && h.repeat < U64
    && (h.active ==> h.hasCb && h.startId < counter)
  }

  lemma TableStop(hs: Handles, nodes: set<Node>, counter: nat, h: Node)
    requires TableOk(hs, nodes, counter) && h in hs
    ensures TableOk(hs[h := hs[h].(active := false)], nodes - {h}, counter)
  {
  }

  lemma TableArm(hs: Handles, nodes: set<Node>, counter: nat, h: Node, timeout: nat, repeat: nat)
    requires TableOk(hs, nodes, counter) && h in hs && h !in nodes && timeout < U64 && repeat < U64
    ensures TableOk(hs[h := Handle(true, timeout, repeat, counter, true, false)], nodes + {h}, counter + 1)
  {
  }

  /** The new record of a timer outside the heap does not disturb the order in it. */
  lemma ArmedOrder(hs: Handles, slots: seq<Node>, nodes: set<Node>, h: Node, x: Handle)
    requires nodes == (set n | n in slots) && nodes <= hs.Keys && h in hs && h !in nodes &&
             Ordered(slots, TimerLess(hs))
    ensures Ordered(slots, TimerLess(hs[h := x])) && StrictWeak(TimerLess(hs[h := x]), nodes + {h})
  {
    forall i | 0 <= i < |slots| ensures slots[i] in nodes { assert slots[i] in slots; }
    assert SameKeys(slots, hs, hs[h := x]);
    SameOrder(slots, hs, hs[h := x]);
    TimerLessOk(hs[h := x], nodes + {h});
  }

  class Loop {
    var heap: Heap
    var time: nat
    var timerCounter: nat
    var handles: Handles

    ghost predicate Valid()
      reads this, heap, heap.nodes
    {
      && heap.Valid()
      && TableOk(handles, heap.nodes, timerCounter)
      && Ordered(heap.slots, TimerLess(handles))
      && time < U64 - 1
      && heap.nelts + 1 < WORD
    }

    constructor ()
      ensures Valid() && handles == map[] && fresh(heap) && time == 0 && timerCounter == 0
    {
      heap := new Heap();
      time := 0;
      timerCounter := 0;
      handles := map[];
    }

    /** uv_timer_stop. */
    method Stop(h: Node) returns (r: int)
      requires Valid() && h in handles
      modifies this`handles, heap, heap.nodes
      ensures Valid() && r == 0
      ensures handles == old(handles)[h := old(handles)[h].(active := false)]
      ensures heap.nodes == old(heap.nodes) - {h}
      ensures heap.nelts == old(heap.nelts) - if old(handles)[h].active then 1 else 0
    {
      r := 0;
      if !handles[h].active {
        return;
      }
      ghost var hs, nodes := handles, heap.nodes;
      TimerLessOk(hs, nodes);
      heap.Remove(h, TimerLess(handles));
      handles := handles[h := handles[h].(active := false)];
      TableStop(hs, nodes, timerCounter, h);
      assert forall i :: 0 <= i < |heap.slots| ==> heap.slots[i] in heap.nodes;
      assert SameKeys(heap.slots, hs, handles);
      SameOrder(heap.slots, hs, handles);
    }

    /** uv_timer_start. */
    method Start(h: Node, cb: bool, timeout: nat, repeat: nat) returns (r: int)
      requires Valid() && h in handles && timeout < U64 && repeat < U64
      requires timerCounter + 1 < U64 && heap.nelts + 2 < WORD
      modifies this`handles, this`timerCounter, heap, heap.nodes, h
      ensures Valid()
      ensures r == (if old(handles)[h].closing || !cb then UV_EINVAL else 0)
      ensures heap.nelts <= old(heap.nelts) + 1
      ensures r != 0 ==> unchanged(this) && unchanged(heap) && unchanged(heap.nodes)
      ensures r == 0 ==> timerCounter == old(timerCounter) + 1
                         && handles == old(handles)[h := Handle(true, Clamp(time + timeout), repeat,
                              old(timerCounter), true, false)]
      ensures r == 0 ==> IsClamped(handles[h].timeout, time + timeout)
    {
      if handles[h].closing || !cb {
        return UV_EINVAL;
      }
      if handles[h].active {
        var _ := Stop(h);
      }
      Arm(h, timeout, repeat);
      r := 0;
    }

    /** The sum of two 64-bit numbers, or the largest one if it wraps around. */
    method ClampedTimeout(timeout: nat) returns (t: nat)
      requires time < U64 && timeout < U64
      ensures t == Clamp(time + timeout)
    {
      t := (time + timeout) % U64;
      if t < timeout {
        t := U64 - 1;
      }
    }

    /** The part of uv_timer_start that computes the timeout and inserts the handle. */
    method Arm(h: Node, timeout: nat, repeat: nat)
      requires Valid() && h in handles && !handles[h].active && !handles[h].closing && timeout < U64 && repeat < U64
      requires timerCounter + 1 < U64 && heap.nelts + 2 < WORD
      modifies this`handles, this`timerCounter, heap, heap.nodes, h
      ensures Valid() && timerCounter == old(timerCounter) + 1 && heap.nelts == old(heap.nelts) + 1
      ensures handles == old(handles)[h := Handle(true, Clamp(time + timeout), repeat, old(timerCounter), true, false)]
    {
      var clampedTimeout := ClampedTimeout(timeout);
      ghost var hs, nodes := handles, heap.nodes;
      TableArm(hs, nodes, timerCounter, h, clampedTimeout, repeat);
      ArmedOrder(hs, heap.slots, nodes, h, Handle(true, clampedTimeout, repeat, timerCounter, true, false));
      Push(h, handles[h := Handle(true, clampedTimeout, repeat, timerCounter, true, false)]);
      timerCounter := timerCounter + 1;
    }

    /** The handle gets its new record and goes into the heap. */
    method Push(h: Node, hs: Handles)
      requires heap.Valid() && h !in heap.nodes && heap.nelts + 1 < WORD
      requires StrictWeak(TimerLess(hs), heap.nodes + {h}) && Ordered(heap.slots, TimerLess(hs))
      modifies this`handles, heap, heap.nodes, h
      ensures heap.Valid() && heap.nodes == old(heap.nodes) + {h} && heap.nelts == old(heap.nelts) + 1
      ensures handles == hs && Ordered(heap.slots, TimerLess(hs))
    {
      handles := hs;
      heap.Insert(h, TimerLess(hs));
    }

    /** uv_timer_again. */
    method Again(h: Node) returns (r: int)
      requires Valid() && h in handles && timerCounter + 1 < U64 && heap.nelts + 2 < WORD
      modifies this`handles, this`timerCounter, heap, heap.nodes, h
      ensures Valid() && r == (if old(handles)[h].hasCb then 0 else UV_EINVAL)
      ensures heap.nelts <= old(heap.nelts) + 1
      ensures old(timerCounter) <= timerCounter <= old(timerCounter) + 1
      ensures handles == if !old(handles)[h].hasCb || old(handles)[h].repeat == 0 then old(handles)
                         else if old(handles)[h].closing then old(handles)[h := old(handles)[h].(active := false)]
                         else old(handles)[h := Handle(true, Clamp(time + old(handles)[h].repeat),
                           old(handles)[h].repeat, old(timerCounter), true, false)]
      ensures r == 0 && handles[h].active && old(handles)[h].repeat != 0 ==>
                IsClamped(handles[h].timeout, time + old(handles)[h].repeat)
    {
      if !handles[h].hasCb {
        return UV_EINVAL;
      }
      if handles[h].repeat != 0 {
        var _ := Stop(h);
        var _ := Start(h, handles[h].hasCb, handles[h].repeat, handles[h].repeat);
      }
      r := 0;
    }

    /** The earliest timer, found at the root of the heap. */
    lemma MinIsEarliest(n: Node)
      requires Valid() && n in handles && handles[n].active
      ensures heap.min != null && heap.min in handles && handles[heap.min].active
      ensures n != heap.min ==> KeyLess(handles[heap.min], handles[n])
    {
      var s := heap.slots;
      assert n in s;
      var k := PositionOf(s, n);
      TimerLessOk(handles, heap.nodes);
      RootIsLeast(s, TimerLess(handles), heap.nodes, k);
      TimerLessIs(handles, n, s[0]);
    }

    /** uv__next_timeout: how long the loop may block. */
    method NextTimeout() returns (r: int)
      requires Valid()
      ensures r == -1 <==> forall n | n in handles :: !handles[n].active
      ensures r == 0 <==> exists n :: n in handles && Due(handles, time, n)
      ensures r > 0 ==> forall n | n in handles && handles[n].active :: time + r <= handles[n].timeout
      ensures -1 <= r <= 0x7FFF_FFFF
      ensures 0 < r < 0x7FFF_FFFF ==> exists n :: n in handles && handles[n].active && handles[n].timeout == time + r
    {
      if n :| n in handles && handles[n].active { MinIsEarliest(n); }
      forall n | n in handles && handles[n].active
        ensures heap.min != null && handles[heap.min].timeout <= handles[n].timeout
      {
        MinIsEarliest(n);
      }
      if heap.min == null {
        return -1;
      }
      assert heap.min == heap.slots[0] && heap.min in heap.slots;
      if handles[heap.min].timeout <= time {
        assert Due(handles, time, heap.min);
        return 0;
      }
      var diff := handles[heap.min].timeout - time;
      if diff > INT_MAX {
        diff := INT_MAX;
      }
      r := diff;
    }

    /** A timer callback that stops the timers `victims`. */
    method Callback(victims: seq<Node>)
      requires Valid() && forall i :: 0 <= i < |victims| ==> victims[i] in handles
      modifies this`handles, heap, heap.nodes
      ensures Valid() && heap.nelts <= old(heap.nelts) && heap.nodes <= old(heap.nodes)
      ensures handles == Stopped(old(handles), victims)
    {
      var i := 0;
      while i < |victims|
        invariant 0 <= i <= |victims|
        invariant Valid() && heap.nelts <= old(heap.nelts) && heap.nodes <= old(heap.nodes)
        invariant handles == Stopped(old(handles), victims[..i])
      {
        StoppedOne(old(handles), victims, i);
        var _ := Stop(victims[i]);
        i := i + 1;
      }
      assert victims[..i] == victims;
    }

    /** uv__run_timers, `stops(h)` being the timers that the callback of `h` stops. */
    method RunTimers(stops: Node -> seq<Node>) returns (fired: seq<Node>)
      requires Valid() && timerCounter + |DueSet(handles, time)| < U64
      requires forall n | n in handles :: forall i :: 0 <= i < |stops(n)| ==> stops(n)[i] in handles
      modifies this`handles, this`timerCounter, heap, heap.nodes
      ensures Valid() && forall n | n in handles :: !Due(handles, time, n)
      ensures PassOk(old(handles), handles, time, fired, stops)
      ensures forall n | n in old(handles) && Due(old(handles), time, n) && n !in fired :: StoppedBy(n, fired, stops)
      ensures forall i, j :: 0 <= i < j < |fired| ==> fired[j] !in stops(fired[i])
      ensures NewIds(handles, fired, old(timerCounter))
      ensures CalledInOrder(old(handles), time, fired) && Afterwards(old(handles), handles, time, fired, stops)
    {
      fired := FireDue(stops);
      NothingDue();
      PassEnds(old(handles), handles, time, fired, stops);
    }

    /** Its loop. */
    method FireDue(stops: Node -> seq<Node>) returns (fired: seq<Node>)
      requires Valid() && timerCounter + |DueSet(handles, time)| < U64
      requires forall n | n in handles :: forall i :: 0 <= i < |stops(n)| ==> stops(n)[i] in handles
      modifies this`handles, this`timerCounter, heap, heap.nodes
      ensures Valid() && (heap.min != null ==> heap.min in handles && handles[heap.min].timeout > time)
      ensures PassOk(old(handles), handles, time, fired, stops) && NewIds(handles, fired, old(timerCounter))
    {
      fired := [];
      ghost var h0 := handles;
      ghost var footprint := heap.nodes;
      while true
        invariant Valid() && heap.nodes <= footprint
        invariant timerCounter + |DueSet(handles, time)| < U64
        invariant PassOk(h0, handles, time, fired, stops)
        invariant old(timerCounter) <= timerCounter && NewIds(handles, fired, old(timerCounter))
        decreases |DueSet(handles, time)|
      {
        var handle := heap.min;
        if handle == null {
          break;
        }
        RootIsEarliest(handle);
        if handles[handle].timeout > time {
          break;
        }
        ghost var h1, c1 := handles, timerCounter;
        DueShrinks(h1, time, handle);
        ghost var x := Fire(handle, stops(handle));
        PassStep(h0, h1, time, fired, stops, handle, c1);
        NewIdStep(h1, fired, stops(handle), handle, time, c1, old(timerCounter));
        fired := fired + [handle];
      }
    }

    lemma RootIsEarliest(handle: Node)
      requires Valid() && heap.min == handle
      ensures handle in handles && handles[handle].active
      ensures forall n | n in handles && handles[n].active && n != handle :: KeyLess(handles[handle], handles[n])
    {
      assert handle == heap.slots[0] && handle in heap.slots;
      forall n | n in handles && handles[n].active && n != handle ensures KeyLess(handles[handle], handles[n]) {
        MinIsEarliest(n);
      }
    }

    lemma NothingDue()
      requires Valid() && (heap.min != null ==> heap.min in handles && handles[heap.min].timeout > time)
      ensures forall n | n in handles :: !Due(handles, time, n)
    {
      forall n | n in handles ensures !Due(handles, time, n) {
        if Due(handles, time, n) { MinIsEarliest(n); }
      }
    }

    /** One due timer: stop, again, callback. */
    method Fire(handle: Node, victims: seq<Node>) returns (ghost x: Handle)
      requires Valid() && timerCounter + 1 < U64 && handle in handles && handles[handle].active
      requires forall i :: 0 <= i < |victims| ==> victims[i] in handles
      modifies this`handles, this`timerCounter, heap, heap.nodes
      ensures Valid() && old(timerCounter) <= timerCounter <= old(timerCounter) + 1 && heap.nodes <= old(heap.nodes)
      ensures handles == Stopped(old(handles)[handle := x], victims)
      ensures x == Rearmed(old(handles)[handle], time, old(timerCounter))
    {
      ghost var h1 := handles;
      var _ := Stop(handle);
      var _ := Again(handle);
      x := handles[handle];
      assert handles == h1[handle := x];
      Callback(victims);
    }
  }

  function DueSet(hs: Handles, time: nat): set<Node>
  {
    set n | n in hs && Due(hs, time, n)
  }

  /** The table after some timers were stopped. */
  function Stopped(hs: Handles, victims: seq<Node>): Handles
  {
    map n | n in hs :: if n in victims then hs[n].(active := false) else hs[n]
  }

  lemma StoppedOne(hs: Handles, victims: seq<Node>, i: nat)
    requires i < |victims| && victims[i] in hs
    ensures var a := Stopped(hs, victims[..i]);
            Stopped(hs, victims[..i + 1]) == a[victims[i] := a[victims[i]].(active := false)]
  {
    assert victims[..i + 1] == victims[..i] + [victims[i]];
  }

  /** One of the callbacks that ran stopped `n`. */
  predicate StoppedBy(n: Node, fired: seq<Node>, stops: Node -> seq<Node>)
  {
    exists i :: 0 <= i < |fired| && n in stops(fired[i])
  }

  /** Every timer that fired was due, none fired twice, and they fired in the order of their keys. */
  ghost predicate FiredInOrder(h0: Handles, time: nat, fired: seq<Node>)
  {
    && (forall i :: 0 <= i < |fired| ==> Due(h0, time, fired[i]))
    && (forall i, j :: 0 <= i < j < |fired| ==> fired[i] != fired[j] && KeyLess(h0[fired[i]], h0[fired[j]]))
  }

  /** What is still due was due at the start, is unchanged, and comes after everything that fired. */
  ghost predicate StillDue(h0: Handles, hs: Handles, time: nat, fired: seq<Node>)
    requires hs.Keys == h0.Keys && FiredInOrder(h0, time, fired)
  {
    && (forall n | n in hs && Due(hs, time, n) :: hs[n] == h0[n] && n !in fired)
    && (forall n, i | n in hs && Due(hs, time, n) && 0 <= i < |fired| :: KeyLess(h0[fired[i]], h0[n]))
  }

  /** What was due and neither is any more nor fired was stopped by a callback. */
  ghost predicate LostWereStopped(h0: Handles, hs: Handles, time: nat, fired: seq<Node>, stops: Node -> seq<Node>)
  {
    forall n | n in h0 && Due(h0, time, n) && !Due(hs, time, n) && n !in fired :: StoppedBy(n, fired, stops)
  }

  /** What uv_timer_again makes of a timer that has just fired. */
  function Rearmed(h: Handle, time: nat, id: nat): Handle
  {
    if h.repeat == 0 || h.closing then h.(active := false)
    else Handle(true, Clamp(time + h.repeat), h.repeat, id, true, false)
  }

  /** The record of a timer after the pass: what firing made of it, if it fired, and stopped if any callback
      stopped it. */
  ghost predicate RecordOk(h0: Handles, hs: Handles, time: nat, fired: seq<Node>, stops: Node -> seq<Node>, n: Node)
    requires hs.Keys == h0.Keys && n in h0
  {
    && (n !in fired ==> hs[n] == if StoppedBy(n, fired, stops) then h0[n].(active := false) else h0[n])
    && (n in fired && StoppedBy(n, fired, stops) ==> !hs[n].active)
    && (n in fired && !StoppedBy(n, fired, stops) ==> hs[n] == Rearmed(h0[n], time, hs[n].startId))
  }

  /** Timers that were armed again have start ids in the order in which they fired. */
  ghost predicate IdsInOrder(hs: Handles, fired: seq<Node>)
    requires forall i :: 0 <= i < |fired| ==> fired[i] in hs
  {
    forall i, j :: 0 <= i < j < |fired| && hs[fired[i]].active && hs[fired[j]].active ==>
      hs[fired[i]].startId < hs[fired[j]].startId
  }

  /** They are new: no timer had them before the pass. */
  ghost predicate NewIds(hs: Handles, fired: seq<Node>, counter: nat)
  {
    forall n | n in fired && n in hs && hs[n].active :: hs[n].startId >= counter
  }

  lemma NewIdStep(h1: Handles, fired: seq<Node>, victims: seq<Node>, h: Node, time: nat, c: nat, counter: nat)
    requires NewIds(h1, fired, counter) && h in h1 && counter <= c
    ensures NewIds(Stopped(h1[h := Rearmed(h1[h], time, c)], victims), fired + [h], counter)
  {
  }

  /** No callback runs of a timer that an earlier one has stopped. */
  ghost predicate NoneStoppedBefore(fired: seq<Node>, stops: Node -> seq<Node>)
  {
    forall i, j :: 0 <= i < j < |fired| ==> fired[j] !in stops(fired[i])
  }

  /** What a pass over the timers keeps: `h0` is the table at its start and `hs` the table now. */
  ghost predicate PassOk(h0: Handles, hs: Handles, time: nat, fired: seq<Node>, stops: Node -> seq<Node>)
  {
    && hs.Keys == h0.Keys
    && FiredInOrder(h0, time, fired)
    && StillDue(h0, hs, time, fired)
    && LostWereStopped(h0, hs, time, fired, stops)
    && (forall n | n in h0 :: RecordOk(h0, hs, time, fired, stops, n))
    && IdsInOrder(hs, fired)
    && NoneStoppedBefore(fired, stops)
  }

  /** The calls, earliest timeout first and of equal timeouts the one that was started first. */
  ghost predicate CalledInOrder(h0: Handles, time: nat, fired: seq<Node>)
  {
    && (forall n | n in fired :: n in h0 && h0[n].active && h0[n].timeout <= time)
    && (forall i, j :: 0 <= i < j < |fired| ==>
      var a, b := h0[fired[i]], h0[fired[j]];
      a.timeout < b.timeout || (a.timeout == b.timeout && a.startId < b.startId))
  }

  /** The timers after the pass: none is left for now, and one that fired and that no callback stopped is active again
      just when it repeats, one repeat interval from now. */
  ghost predicate Afterwards(h0: Handles, hs: Handles, time: nat, fired: seq<Node>, stops: Node -> seq<Node>)
  {
    && hs.Keys == h0.Keys
    && (forall n | n in hs && hs[n].active :: hs[n].timeout > time)
    && (forall n | n in fired && n in hs && !StoppedBy(n, fired, stops) ::
      hs[n].active <==> h0[n].repeat > 0 && !h0[n].closing)
    && (forall n | n in fired && n in hs && hs[n].active ::
      hs[n].repeat == h0[n].repeat && IsClamped(hs[n].timeout, time + h0[n].repeat))
  }

  /** When nothing is due any more, the timers that were due have fired or been stopped. */
  lemma PassEnds(h0: Handles, hs: Handles, time: nat, fired: seq<Node>, stops: Node -> seq<Node>)
    requires PassOk(h0, hs, time, fired, stops) && forall n | n in hs :: !Due(hs, time, n)
    ensures forall n | n in h0 && Due(h0, time, n) && n !in fired :: StoppedBy(n, fired, stops)
    ensures forall i, j :: 0 <= i < j < |fired| ==> fired[j] !in stops(fired[i])
    ensures CalledInOrder(h0, time, fired) && Afterwards(h0, hs, time, fired, stops)
  {
    PassCalls(h0, time, fired);
    PassLeaves(h0, hs, time, fired, stops);
  }

  lemma PassCalls(h0: Handles, time: nat, fired: seq<Node>)
    requires FiredInOrder(h0, time, fired)
    ensures CalledInOrder(h0, time, fired)
  {
    forall n | n in fired ensures n in h0 && h0[n].active && h0[n].timeout <= time {
      var i :| 0 <= i < |fired| && fired[i] == n;
      assert Due(h0, time, fired[i]);
    }
  }

  lemma PassLeaves(h0: Handles, hs: Handles, time: nat, fired: seq<Node>, stops: Node -> seq<Node>)
    requires hs.Keys == h0.Keys && forall n | n in hs :: !Due(hs, time, n)
    requires forall n | n in h0 :: RecordOk(h0, hs, time, fired, stops, n)
    ensures Afterwards(h0, hs, time, fired, stops)
  {
    forall n | n in hs && hs[n].active ensures hs[n].timeout > time { assert !Due(hs, time, n); }
    forall n | n in fired && n in hs ensures RecordOk(h0, hs, time, fired, stops, n) {}
  }

  lemma DueShrinks(hs: Handles, time: nat, h: Node)
    requires Due(hs, time, h)
    ensures |DueSet(hs, time)| >= 1
  {
    assert h in DueSet(hs, time);
  }

  /** One round of uv__run_timers: `h` was due and earliest, and `c` was the next start id. */
  lemma PassStep(h0: Handles, h1: Handles, time: nat, fired: seq<Node>, stops: Node -> seq<Node>, h: Node, c: nat)
    requires PassOk(h0, h1, time, fired, stops) && Due(h1, time, h) && time < U64 - 1
    requires forall n | n in h1 && h1[n].active && n != h :: KeyLess(h1[h], h1[n])
    requires forall n | n in h1 && h1[n].active :: h1[n].hasCb && h1[n].startId < c
    ensures var hs := Stopped(h1[h := Rearmed(h1[h], time, c)], stops(h));
            && PassOk(h0, hs, time, fired + [h], stops)
            && |DueSet(hs, time)| < |DueSet(h1, time)|
  {
    var x := Rearmed(h1[h], time, c);
    var hs := Stopped(h1[h := x], stops(h));
    assert !Due(hs, time, h);
    assert forall n | n in hs && Due(hs, time, n) :: Due(h1, time, n) && hs[n] == h1[n] && n != h;
    DueSubset(h1, hs, time, h);
    DueStep(h0, h1, hs, time, fired, h);
    StoppedStep(h0, h1, time, fired, stops, h, x);
    RecordStep(h0, h1, time, fired, stops, h, c);
    UnstoppedStep(h0, h1, time, fired, stops, h);
    IdStep(h0, h1, time, fired, stops(h), h, c);
  }

  lemma StoppedMore(n: Node, fired: seq<Node>, h: Node, stops: Node -> seq<Node>)
    ensures StoppedBy(n, fired + [h], stops) <==> StoppedBy(n, fired, stops) || n in stops(h)
  {
    var f := fired + [h];
    assert f[|fired|] == h && forall i :: 0 <= i < |fired| ==> f[i] == fired[i];
    if StoppedBy(n, fired, stops) {
      var i :| 0 <= i < |fired| && n in stops(fired[i]);
      assert n in stops(f[i]);
    }
    if n in stops(h) { assert n in stops(f[|fired|]); }
  }

  /** Every record is as it should be after one more timer has fired. */
  lemma RecordStep(h0: Handles, h1: Handles, time: nat, fired: seq<Node>, stops: Node -> seq<Node>, h: Node, c: nat)
    requires PassOk(h0, h1, time, fired, stops) && Due(h1, time, h)
    ensures var hs := Stopped(h1[h := Rearmed(h1[h], time, c)], stops(h));
      && hs.Keys == h0.Keys
      && forall n | n in h0 :: RecordOk(h0, hs, time, fired + [h], stops, n)
  {
    var hs := Stopped(h1[h := Rearmed(h1[h], time, c)], stops(h));
    assert RecordOk(h0, h1, time, fired, stops, h);
    forall n | n in h0 ensures RecordOk(h0, hs, time, fired + [h], stops, n) {
      assert RecordOk(h0, h1, time, fired, stops, n);
      StoppedMore(n, fired, h, stops);
      assert n in fired + [h] <==> n in fired || n == h;
    }
  }

  /** The timer that fires is active, so nobody has stopped it. */
  lemma UnstoppedStep(h0: Handles, h1: Handles, time: nat, fired: seq<Node>, stops: Node -> seq<Node>, h: Node)
    requires PassOk(h0, h1, time, fired, stops) && Due(h1, time, h)
    ensures NoneStoppedBefore(fired + [h], stops)
  {
    var f := fired + [h];
    assert RecordOk(h0, h1, time, fired, stops, h);
    assert !StoppedBy(h, fired, stops);
    forall i, j | 0 <= i < j < |f| ensures f[j] !in stops(f[i]) {
      assert f[i] == fired[i];
    }
  }

  /** Its new start id is the largest. */
  lemma IdStep(h0: Handles, h1: Handles, time: nat, fired: seq<Node>, victims: seq<Node>, h: Node, c: nat)
    requires h1.Keys == h0.Keys && FiredInOrder(h0, time, fired) && StillDue(h0, h1, time, fired)
    requires IdsInOrder(h1, fired) && Due(h1, time, h) && forall n | n in h1 && h1[n].active :: h1[n].startId < c
    ensures IdsInOrder(Stopped(h1[h := Rearmed(h1[h], time, c)], victims), fired + [h])
  {
    var hs, f := Stopped(h1[h := Rearmed(h1[h], time, c)], victims), fired + [h];
    forall i | 0 <= i < |fired| && hs[f[i]].active
      ensures f[i] == fired[i] && h1[fired[i]].active && hs[f[i]].startId == h1[fired[i]].startId
    {
      assert fired[i] != h;
    }
  }

  lemma DueStep(h0: Handles, h1: Handles, hs: Handles, time: nat, fired: seq<Node>, h: Node)
    requires hs.Keys == h1.Keys == h0.Keys && FiredInOrder(h0, time, fired) && StillDue(h0, h1, time, fired)
    requires Due(h1, time, h) && forall n | n in h1 && h1[n].active && n != h :: KeyLess(h1[h], h1[n])
    requires forall n | n in hs && Due(hs, time, n) :: Due(h1, time, n) && hs[n] == h1[n] && n != h
    ensures FiredInOrder(h0, time, fired + [h]) && StillDue(h0, hs, time, fired + [h])
  {
  }

  lemma StoppedStep(h0: Handles, h1: Handles, time: nat, fired: seq<Node>, stops: Node -> seq<Node>, h: Node, x: Handle)
    requires h1.Keys == h0.Keys && h in h1
    requires LostWereStopped(h0, h1, time, fired, stops)
    ensures LostWereStopped(h0, Stopped(h1[h := x], stops(h)), time, fired + [h], stops)
  {
    var hs := Stopped(h1[h := x], stops(h));
    var fired' := fired + [h];
    forall n | n in h0 && Due(h0, time, n) && !Due(hs, time, n) && n !in fired' ensures StoppedBy(n, fired', stops) {
      assert fired'[|fired|] == h;
      if Due(h1, time, n) {
        assert n in stops(fired'[|fired|]);
      } else {
        assert n !in fired;
        var i :| 0 <= i < |fired| && n in stops(fired[i]);
        assert n in stops(fired'[i]);
      }
    }
  }

  lemma DueSubset(h1: Handles, hs: Handles, time: nat, h: Node)
    requires Due(h1, time, h) && !Due(hs, time, h)
    requires forall n | n in hs && Due(hs, time, n) :: Due(h1, time, n)
    ensures |DueSet(hs, time)| < |DueSet(h1, time)|
  {
    var a, b := DueSet(hs, time), DueSet(h1, time);
    assert a <= b - {h} && h in b;
    SubsetSize(a, b - {h});
  }

  lemma {:induction false} SubsetSize(a: set<Node>, b: set<Node>)
    requires a <= b
    ensures |a| <= |b|
    decreases |a|
  {
    if a != {} {
      var x :| x in a;
      SubsetSize(a - {x}, b - {x});
    }
  }
}