/**
 The worker pool composed with the asynchronous wake-up of each loop.

 A worker that finished a request, or a canceller, takes the loop's `wq_mutex`, appends to the done
 queue and, still holding it, runs `uv_async_send` on the loop's `wq_async` handle step by step; the
 loop thread sweeps its handles concurrently and runs `uv__work_done` as the callback of `wq_async`.
 */
module Delivery {
  import Pool
  import Async

  const WQ_ASYNC: Async.Handle := 0
  const FREE := -1

  datatype State = State(
    pool: Pool.State,
    nets: seq<Async.State>,  // one per loop; sender t < |workers| is worker t, sender |workers| the loop thread,
                             // which sends from user code; a signal handler is one of the other senders
    mutex: seq<int>,         // holder of each loop's wq_mutex while it is notifying the loop, or FREE
    moved: seq<bool>)        // the running uv__work_done has taken the done queue

  datatype Action =
    | PoolStep(a: Pool.Action)
    | FinishLock(t: nat)
    | CancelPutLock(l: nat)
    | Unlock(l: nat)
    | Move(l: nat)
    | Net(l: nat, b: Async.Action)

  /** The loop's code position, looking through a close begun by user code. */
  function Body(l: Async.Loop): Async.Loop
  {
    if l.Closing? then l.back else l
  }

  /** `uv__work_done` is running. */
  predicate InWorkDone(net: Async.State)
  {
    Body(net.loop).Running? && Body(net.loop).h == WQ_ASYNC
  }

  predicate LoopBusy(s: State, l: nat)
    requires l < |s.pool.loops| == |s.mutex|
  {
    s.mutex[l] == |s.pool.workers| || s.pool.loops[l].handoff != []
  }

  predicate Shape(s: State)
  {
    && |s.nets| == |s.mutex| == |s.moved| == |s.pool.loops|
    && forall l :: 0 <= l < |s.nets| ==>
         |s.pool.workers| < |s.nets[l].senders| && FREE <= s.mutex[l] < |s.nets[l].senders|
  }

  ghost predicate Enabled(s: State, a: Action)
    requires Shape(s)
  {
    match a
    case PoolStep(b) =>
      && Pool.Enabled(s.pool, b)
      && (match b
          case Finish(_) => false
          case CancelPut(_) => false
          case Move(_) => false
          case Section(t, _) => forall l :: 0 <= l < |s.mutex| ==> s.mutex[l] != t
          case CancelTake(x) =>
            var l := s.pool.reqs[x.id].loop;
            s.mutex[l] == FREE && Async.UserCode(s.nets[l].loop)
          case Deliver(l) =>
            s.nets[l].loop.Running? && s.nets[l].loop.h == WQ_ASYNC && s.moved[l] && !LoopBusy(s, l)
          case _ => true)
    case FinishLock(t) =>
      && Pool.Enabled(s.pool, Pool.Finish(t))
      && var l := s.pool.reqs[s.pool.workers[t].item.id].loop;
         s.mutex[l] == FREE && Async.Enabled(s.nets[l], Async.Send(t, WQ_ASYNC))
    case CancelPutLock(l) =>
      && Pool.Enabled(s.pool, Pool.CancelPut(l))
      && s.mutex[l] == FREE && Async.Enabled(s.nets[l], Async.Send(|s.pool.workers|, WQ_ASYNC))
    case Unlock(l) =>
      l < |s.mutex| && s.mutex[l] != FREE && s.nets[l].senders[s.mutex[l]] == Async.Quiet
    case Move(l) =>
      && Pool.Enabled(s.pool, Pool.Move(l))
      && s.mutex[l] == FREE && s.nets[l].loop.Running? && s.nets[l].loop.h == WQ_ASYNC && !s.moved[l]
    case Net(l, b) =>
      && l < |s.nets| && Async.Enabled(s.nets[l], b)
      && (match b
          case Send(t, _) =>
            s.mutex[l] != t && (t == |s.pool.workers| ==> Async.UserCode(s.nets[l].loop) && !LoopBusy(s, l))
          case Step(_) => true
          case Drain => !LoopBusy(s, l)
          case Advance =>
            && !LoopBusy(s, l)
            && (s.nets[l].loop.Running? && s.nets[l].loop.h == WQ_ASYNC ==> s.moved[l] && s.pool.loops[l].batch == [])
          case BeginClose(h) => !LoopBusy(s, l) && h != WQ_ASYNC
          case Open(_) => !LoopBusy(s, l))
  }

  ghost function Apply(s: State, a: Action): State
    requires Shape(s) && Enabled(s, a)
  {
    match a
    case PoolStep(b) => s.(pool := Pool.Apply(s.pool, b))
    case FinishLock(t) =>
      var l := s.pool.reqs[s.pool.workers[t].item.id].loop;
      s.(pool := Pool.Apply(s.pool, Pool.Finish(t)),
         nets := s.nets[l := Async.Apply(s.nets[l], Async.Send(t, WQ_ASYNC))],
         mutex := s.mutex[l := t])
    case CancelPutLock(l) =>
      var t := |s.pool.workers|;
      s.(pool := Pool.Apply(s.pool, Pool.CancelPut(l)),
         nets := s.nets[l := Async.Apply(s.nets[l], Async.Send(t, WQ_ASYNC))],
         mutex := s.mutex[l := t])
    case Unlock(l) => s.(mutex := s.mutex[l := FREE])
    case Move(l) => s.(pool := Pool.Apply(s.pool, Pool.Move(l)), moved := s.moved[l := true])
    case Net(l, b) =>
      var starts := b.Advance? && s.nets[l].loop.Call? && s.nets[l].loop.h == WQ_ASYNC;
      s.(nets := s.nets[l := Async.Apply(s.nets[l], b)],
         moved := if starts then s.moved[l := false] else s.moved)
  }

  /** A loop whose only handle is `wq_async`, just opened. */
  ghost predicate FreshNet(net: Async.State)
  {
    exists z :: Async.Init(z) && net == Async.Apply(z, Async.Open(WQ_ASYNC))
  }

  ghost predicate Init(s: State)
  {
    && Shape(s) && Pool.Init(s.pool)
    && forall l :: 0 <= l < |s.nets| ==> FreshNet(s.nets[l]) && s.mutex[l] == FREE && !s.moved[l]
  }

  ghost predicate Next(s: State, s': State)
  {
    Shape(s) && exists a :: Enabled(s, a) && s' == Apply(s, a)
  }

  ghost predicate Run(states: seq<State>)
  {
    && states != []
    && Init(states[0])
    && forall i :: 0 < i < |states| ==> Next(states[i - 1], states[i])
  }

  // ---------- invariant ----------

  /** Thread `t` has not yet looked at, or exchanged, `pending` of `wq_async`. */
  predicate Undecided(net: Async.State, t: int)
  {
    0 <= t < |net.senders| && (net.senders[t] == Async.Load(WQ_ASYNC) || net.senders[t] == Async.Set(WQ_ASYNC))
  }

  predicate Promised(net: Async.State, moved: bool, holder: int)
  {
    || WQ_ASYNC in net.dirty
    || (InWorkDone(net) && !moved)
    || Undecided(net, holder)
  }

  ghost predicate LoopOk(s: State, l: nat)
    requires Shape(s) && l < |s.nets|
  {
    && Async.Inv(s.nets[l])
    && Async.IsOpen(s.nets[l], WQ_ASYNC)
    && (s.nets[l].loop.Closing? ==> s.nets[l].loop.h != WQ_ASYNC)
    && (s.pool.loops[l].done != [] ==> Promised(s.nets[l], s.moved[l], s.mutex[l]))
    && (s.pool.loops[l].batch != [] ==> InWorkDone(s.nets[l]) && s.moved[l])
  }

  ghost predicate Inv(s: State)
  {
    && Shape(s)
    && Pool.Core(s.pool) && Pool.WakeOk(s.pool)
    && forall l :: 0 <= l < |s.nets| ==> LoopOk(s, l)
  }

  lemma SenderKeepsPromise(net: Async.State, b: Async.Action, moved: bool, holder: int)
    requires Async.Enabled(net, b) && (b.Send? || b.Step?) && Promised(net, moved, holder)
    ensures Promised(Async.Apply(net, b), moved, holder)
  {
  }

  lemma LoopKeepsPromise(net: Async.State, b: Async.Action, moved: bool, holder: int)
    requires Async.ShapeOk(net) && Async.Enabled(net, b) && !b.Send? && !b.Step? && Promised(net, moved, holder)
    requires Async.IsOpen(net, WQ_ASYNC)
    requires net.loop.Closing? ==> net.loop.h != WQ_ASYNC
    requires b.Advance? && net.loop.Running? && net.loop.h == WQ_ASYNC ==> moved
    ensures var starts := b.Advance? && net.loop.Call? && net.loop.h == WQ_ASYNC;
            Promised(Async.Apply(net, b), if starts then false else moved, holder)
  {
    if b.Advance? {
      match net.loop {
        case Closing(g, back) => assert Async.UserCode(back);
        case _ =>
      }
    }
  }

  /** A step of the wake-up protocol keeps the promise, whoever makes it. */
  lemma NetKeepsPromise(net: Async.State, b: Async.Action, moved: bool, holder: int)
    requires Async.Inv(net) && Async.Enabled(net, b) && Async.IsOpen(net, WQ_ASYNC)
    requires net.loop.Closing? ==> net.loop.h != WQ_ASYNC
    requires b.BeginClose? ==> b.h != WQ_ASYNC
    requires b.Advance? && net.loop.Running? && net.loop.h == WQ_ASYNC ==> moved
    ensures var starts := b.Advance? && net.loop.Call? && net.loop.h == WQ_ASYNC;
            Promised(net, moved, holder) ==> Promised(Async.Apply(net, b), if starts then false else moved, holder)
  {
    if Promised(net, moved, holder) {
      if b.Send? || b.Step? { SenderKeepsPromise(net, b, moved, holder); }
      else { LoopKeepsPromise(net, b, moved, holder); }
    }
  }

  lemma NetStaysOpen(net: Async.State, b: Async.Action)
    requires Async.ShapeOk(net) && Async.Enabled(net, b) && Async.IsOpen(net, WQ_ASYNC)
    requires net.loop.Closing? ==> net.loop.h != WQ_ASYNC
    requires b.BeginClose? ==> b.h != WQ_ASYNC
    ensures var net' := Async.Apply(net, b);
            && Async.IsOpen(net', WQ_ASYNC) && |net'.senders| == |net.senders|
            && (net'.loop.Closing? ==> net'.loop.h != WQ_ASYNC)
  {
    Async.OpenChange(net, b, WQ_ASYNC);
    if b.Advance? && net.loop.Closing? { assert Async.UserCode(net.loop.back); }
  }

  /** Only a worker handing over, a canceller and `uv__work_done` touch a done queue, except that a
      second cancel may take a request out again. */
  lemma PoolStepQueues(p: Pool.State, b: Pool.Action)
    requires Pool.Enabled(p, b)
    ensures var p' := Pool.Apply(p, b);
            && |p'.loops| == |p.loops| && |p'.workers| == |p.workers|
            && (!b.Finish? && !b.CancelPut? && !b.Move? ==>
                forall l :: 0 <= l < |p.loops| && p.loops[l].done == [] ==> p'.loops[l].done == [])
            && (!b.Move? ==> forall l :: 0 <= l < |p.loops| ==> |p'.loops[l].batch| <= |p.loops[l].batch|)
            && (b.Finish? ==> forall l :: 0 <= l < |p.loops| && l != p.reqs[p.workers[b.t].item.id].loop ==>
                 p'.loops[l] == p.loops[l])
            && (b.CancelPut? || b.Move? ==> forall l :: 0 <= l < |p.loops| && l != b.loop ==> p'.loops[l] == p.loops[l])
  {
    if b.Section? {
      Pool.TopShape(Pool.Reenter(p, b.t), b.t, b.wake);
      Pool.SectionConserved(p, b.t, b.wake, Pool.SlowMsg);
    }
  }

  lemma PoolInv(p: Pool.State, b: Pool.Action)
    requires Pool.Core(p) && Pool.WakeOk(p) && Pool.Enabled(p, b)
    ensures Pool.Core(Pool.Apply(p, b)) && Pool.WakeOk(Pool.Apply(p, b))
  {
    Pool.CoreStep(p, b);
    Pool.WakeStep(p, b);
  }

  lemma PoolStepInv(s: State, b: Pool.Action)
    requires Inv(s) && Enabled(s, PoolStep(b))
    ensures Inv(Apply(s, PoolStep(b)))
  {
    var s' := Apply(s, PoolStep(b));
    PoolInv(s.pool, b);
    PoolStepQueues(s.pool, b);
    forall l | 0 <= l < |s'.nets| ensures LoopOk(s', l) { PoolStepLoop(s, b, l); }
  }

  lemma PoolStepLoop(s: State, b: Pool.Action, l: nat)
    requires Shape(s) && Enabled(s, PoolStep(b)) && Shape(Apply(s, PoolStep(b))) && l < |s.nets| && LoopOk(s, l)
    ensures LoopOk(Apply(s, PoolStep(b)), l)
  {
    PoolStepQueues(s.pool, b);
  }

  lemma HandOverShape(s: State, a: Action, b: Pool.Action)
    requires Inv(s) && Enabled(s, a) && (a.FinishLock? || a.CancelPutLock?)
    requires b == if a.FinishLock? then Pool.Finish(a.t) else Pool.CancelPut(a.l)
    ensures Shape(Apply(s, a))
  {
    PoolStepQueues(s.pool, b);
  }

  lemma HandOverInv(s: State, a: Action, b: Pool.Action, l: nat, t: nat)
    requires Inv(s) && Enabled(s, a)
    requires a == FinishLock(t) || (a == CancelPutLock(l) && t == |s.pool.workers|)
    requires a == FinishLock(t) ==> b == Pool.Finish(t) && l == s.pool.reqs[s.pool.workers[t].item.id].loop
    requires a == CancelPutLock(l) ==> b == Pool.CancelPut(l)
    ensures Inv(Apply(s, a))
  {
    var s' := Apply(s, a);
    PoolInv(s.pool, b);
    PoolStepQueues(s.pool, b);
    var net := s.nets[l];
    var c := Async.Send(t, WQ_ASYNC);
    assert LoopOk(s, l);
    Async.InvStep(net, c);
    NetStaysOpen(net, c);
    HandOverShape(s, a, b);
    forall m | 0 <= m < |s'.nets| ensures LoopOk(s', m) {
      assert LoopOk(s, m);
      if m == l { assert s'.nets[l].senders[t] == Async.Load(WQ_ASYNC); }
    }
  }

  /** A batch stays where it is delivered. */
  lemma BatchStays(net: Async.State, b: Async.Action, moved: bool)
    requires Async.ShapeOk(net) && Async.Enabled(net, b) && InWorkDone(net) && moved
    requires b.Advance? ==> !net.loop.Running?
    ensures InWorkDone(Async.Apply(net, b)) && !(b.Advance? && net.loop.Call?)
  {
  }

  lemma NetInv(s: State, l: nat, b: Async.Action)
    requires Inv(s) && Enabled(s, Net(l, b))
    ensures Inv(Apply(s, Net(l, b)))
  {
    var s' := Apply(s, Net(l, b));
    assert LoopOk(s, l);
    Async.InvStep(s.nets[l], b);
    NetStaysOpen(s.nets[l], b);
    NetKeepsPromise(s.nets[l], b, s.moved[l], s.mutex[l]);
    if s.pool.loops[l].batch != [] { BatchStays(s.nets[l], b, s.moved[l]); }
    assert LoopOk(s', l);
    forall m | 0 <= m < |s'.nets| ensures LoopOk(s', m) { assert LoopOk(s, m); }
  }

  lemma MoveInv(s: State, l: nat)
    requires Inv(s) && Enabled(s, Move(l))
    ensures Inv(Apply(s, Move(l)))
  {
    var s' := Apply(s, Move(l));
    PoolInv(s.pool, Pool.Move(l));
    forall m | 0 <= m < |s'.nets| ensures LoopOk(s', m) { MoveLoopOk(s, l, m); }
  }

  lemma MoveLoopOk(s: State, l: nat, m: nat)
    requires Inv(s) && Enabled(s, Move(l)) && m < |s.nets|
    ensures Shape(Apply(s, Move(l))) && LoopOk(Apply(s, Move(l)), m)
  {
    assert LoopOk(s, m);
  }

  lemma UnlockInv(s: State, l: nat)
    requires Inv(s) && Enabled(s, Unlock(l))
    ensures Inv(Apply(s, Unlock(l)))
  {
    var s' := Apply(s, Unlock(l));
    forall m | 0 <= m < |s'.nets| ensures LoopOk(s', m) { assert LoopOk(s, m); }
  }

  lemma InvStep(s: State, a: Action)
    requires Inv(s) && Enabled(s, a)
    ensures Inv(Apply(s, a))
  {
    match a {
      case PoolStep(b) => PoolStepInv(s, b);
      case FinishLock(t) => HandOverInv(s, a, Pool.Finish(t), s.pool.reqs[s.pool.workers[t].item.id].loop, t);
      case CancelPutLock(l) => HandOverInv(s, a, Pool.CancelPut(l), l, |s.pool.workers|);
      case Unlock(l) => UnlockInv(s, l);
      case Move(l) => MoveInv(s, l);
      case Net(l, b) => NetInv(s, l, b);
    }
  }

  lemma InitInv(s: State)
    requires Init(s)
    ensures Inv(s)
  {
    Pool.InitOk(s.pool);
    forall l | 0 <= l < |s.nets| ensures LoopOk(s, l) {
      var z :| Async.Init(z) && s.nets[l] == Async.Apply(z, Async.Open(WQ_ASYNC));
      Async.NoSenders(z.senders);
      Async.InvStep(z, Async.Open(WQ_ASYNC));
      Async.OpenChange(z, Async.Open(WQ_ASYNC), WQ_ASYNC);
    }
  }

  lemma {:induction false} InvInRun(states: seq<State>, i: nat)
    requires Run(states) && i < |states|
    ensures Inv(states[i])
  {
    if i == 0 {
      InitInv(states[0]);
    } else {
      InvInRun(states, i - 1);
      assert Next(states[i - 1], states[i]);
      var a :| Enabled(states[i - 1], a) && states[i] == Apply(states[i - 1], a);
      InvStep(states[i - 1], a);
    }
  }

  // ---------- main results ----------

  /** A run of `uv__work_done` that has yet to take the done queue is owed to the loop: it is running
      and has not taken it, or its callback is next, or the loop will examine `wq_async` and find it
      pending. */
  ghost predicate Owed(s: State, l: nat)
    requires Shape(s) && l < |s.nets|
  {
    var net := s.nets[l];
    || (InWorkDone(net) && !s.moved[l])
    || (net.loop.Call? && net.loop.h == WQ_ASYNC)
    || (WQ_ASYNC in net.pending && net.pending[WQ_ASYNC] != 0 && Async.WillExamine(net, WQ_ASYNC))
  }

  /** Nothing finished or cancelled is forgotten: whenever a loop's `wq_mutex` is free and its done
      queue is not empty, a run of `uv__work_done` that will take it is owed. */
  lemma NothingForgotten(states: seq<State>, i: nat, l: nat)
    requires Run(states) && i < |states| && Shape(states[i]) && l < |states[i].nets|
    requires states[i].mutex[l] == FREE && states[i].pool.loops[l].done != []
    ensures Owed(states[i], l)
  {
    InvInRun(states, i);
    assert LoopOk(states[i], l);
    if WQ_ASYNC in states[i].nets[l].dirty {
      Async.DirtyIsAwaited(states[i].nets[l], WQ_ASYNC);
    }
  }

  /** The pool's own results hold in the composition: a request is in one place until delivered, and
      its outcome is 0 iff it ran. */
  lemma OutcomeInComposition(states: seq<State>, i: nat, id: nat)
    requires Run(states) && i < |states| && id < |states[i].pool.reqs|
    ensures var r := states[i].pool.reqs[id];
            && Pool.Everywhere(states[i].pool, Pool.Job(id)) == (if r.outcomes == [] then 1 else 0)
            && (r.outcomes == [] || (r.outcomes == [Pool.Ok] && r.runs == 1) ||
                 (r.outcomes == [Pool.ECanceled] && r.runs == 0))
  {
    InvInRun(states, i);
    assert Pool.OutcomeOk(states[i].pool.reqs[id]);
  }

  /** The thread of loop `l` or, while it waits for one in uv__async_spin, a sender can step. */
  ghost predicate LoopCanStep(s: State, l: nat)
    requires Shape(s) && l < |s.nets|
  {
    || Enabled(s, CancelPutLock(l))
    || Enabled(s, Move(l))
    || Enabled(s, PoolStep(Pool.Deliver(l)))
    || (Enabled(s, Net(l, Async.Advance)) && !Async.BusySpin(s.nets[l]))
    || Enabled(s, Net(l, Async.Drain))
    || exists t: nat :: InTheWay(s, l, t) && Enabled(s, Net(l, Async.Step(t)))
  }

  /** The loop's own thread, or a thread between its two exchanges. */
  predicate InTheWay(s: State, l: nat, t: nat)
    requires l < |s.nets|
  {
    t < |s.nets[l].senders| && (t == |s.pool.workers| || s.nets[l].senders[t].Write? || s.nets[l].senders[t].Finish?)
  }

  lemma HandOffCanStep(s: State, l: nat)
    requires Inv(s) && l < |s.nets| && s.mutex[l] == FREE && s.pool.loops[l].handoff != []
    ensures LoopCanStep(s, l)
  {
    var t := |s.pool.workers|;
    assert LoopOk(s, l);
    if s.nets[l].senders[t] == Async.Quiet {
      assert Enabled(s, CancelPutLock(l));
    } else {
      assert InTheWay(s, l, t) && Enabled(s, Net(l, Async.Step(t)));
    }
  }

  lemma SpinCanStep(s: State, l: nat)
    requires Inv(s) && l < |s.nets| && Async.BusySpin(s.nets[l])
    ensures LoopCanStep(s, l)
  {
    assert LoopOk(s, l);
    var t := Async.SomeHolder(s.nets[l].senders, s.nets[l].loop.h);
    assert InTheWay(s, l, t) && Enabled(s, Net(l, Async.Step(t)));
  }

  lemma WorkDoneCanStep(s: State, l: nat)
    requires Inv(s) && l < |s.nets| && s.mutex[l] == FREE && InWorkDone(s.nets[l]) && s.pool.loops[l].handoff == []
    ensures LoopCanStep(s, l)
  {
    assert LoopOk(s, l);
    if s.nets[l].loop.Closing? {
      if Async.BusySpin(s.nets[l]) { SpinCanStep(s, l); }
    } else if s.moved[l] && s.pool.loops[l].batch != [] {
      assert Pool.SideOk(s.pool, l);
      assert s.pool.loops[l].batch[0] in s.pool.loops[l].batch;
      assert Enabled(s, PoolStep(Pool.Deliver(l)));
    }
  }

  /** While requests wait in a done queue and nobody holds the mutex, the composition is not stuck: the
      loop's thread can hand over what it has cancelled, take the queue, deliver or go on sweeping, or a
      sender on the loop can step. */
  lemma DeliveryNeverStuck(s: State, l: nat)
    requires Inv(s) && l < |s.nets| && s.mutex[l] == FREE && s.pool.loops[l].done != []
    ensures LoopCanStep(s, l)
  {
    assert LoopOk(s, l);
    if s.pool.loops[l].handoff != [] {
      HandOffCanStep(s, l);
    } else if InWorkDone(s.nets[l]) {
      WorkDoneCanStep(s, l);
    } else {
      Async.NeverStuck(s.nets[l], WQ_ASYNC);
      if t: nat :| t < |s.nets[l].senders| && (s.nets[l].senders[t].Write? || s.nets[l].senders[t].Finish?)
                   && Async.Enabled(s.nets[l], Async.Step(t)) {
        assert InTheWay(s, l, t) && Enabled(s, Net(l, Async.Step(t)));
      }
    }
  }

  // ---------- a fair loop takes the queue ----------

  /** uv__work_done is running and has yet to take the queue. */
  predicate AboutToTake(s: State, l: nat)
    requires Shape(s) && l < |s.nets|
  {
    InWorkDone(s.nets[l]) && !s.moved[l]
  }

  /** It is running so, or a decided send of `wq_async` waits. */
  predicate Waiting(s: State, l: nat)
    requires Shape(s) && l < |s.nets|
  {
    AboutToTake(s, l) || WQ_ASYNC in s.nets[l].dirty
  }

  /** How far the loop is from taking the queue: 0 when it is about to, else by the sweep it is in. */
  function Rank(s: State, l: nat): nat
    requires Shape(s) && l < |s.nets|
  {
    if AboutToTake(s, l) then 0 else 1 + Async.Phase(s.nets[l].loop, WQ_ASYNC)
  }

  function Rest(s: State, l: nat): nat
    requires Shape(s) && l < |s.nets|
  {
    if AboutToTake(s, l) then 0 else Async.Left(s.nets[l].loop)
  }

  /** Lexicographic: the rank, the steps left in the sweep, the requests left in the batch. */
  predicate Nearer(s: State, s': State, l: nat)
    requires Shape(s) && Shape(s') && l < |s.nets| == |s'.nets|
  {
    || Rank(s, l) < Rank(s', l)
    || (Rank(s, l) == Rank(s', l) && Rest(s, l) < Rest(s', l))
    || (Rank(s, l) == Rank(s', l) && Rest(s, l) == Rest(s', l) && |s.pool.loops[l].batch| < |s'.pool.loops[l].batch|)
  }

  /** A step of the loop's thread other than user code, and other than waiting for a sender. */
  predicate Progresses(s: State, a: Action, l: nat)
    requires Shape(s) && l < |s.nets|
  {
    || a == Move(l)
    || a == PoolStep(Pool.Deliver(l))
    || ((a == Net(l, Async.Advance) || a == Net(l, Async.Drain)) && !s.nets[l].loop.Closing? &&
         !Async.BusySpin(s.nets[l]))
  }

  /** A step of the wake-up protocol on loop `l`. */
  lemma NetNearer(s: State, l: nat, b: Async.Action)
    requires Inv(s) && l < |s.nets| && Enabled(s, Net(l, b)) && Waiting(s, l)
    ensures var s' := Apply(s, Net(l, b));
      && Shape(s') && Waiting(s', l) && !Nearer(s, s', l)
      && (Progresses(s, Net(l, b), l) ==> Nearer(s', s, l))
  {
    assert LoopOk(s, l);
    NetInv(s, l, b);
    if AboutToTake(s, l) { AboutNearer(s, l, b); } else { DirtyNearer(s, l, b); }
  }

  lemma AboutNearer(s: State, l: nat, b: Async.Action)
    requires Shape(s) && l < |s.nets| && Enabled(s, Net(l, b)) && AboutToTake(s, l) && Async.ShapeOk(s.nets[l])
    requires Shape(Apply(s, Net(l, b)))
    ensures AboutToTake(Apply(s, Net(l, b)), l) && !Progresses(s, Net(l, b), l)
  {
    if b.Advance? { AboutStays(s.nets[l]); }
  }

  lemma DirtyNearer(s: State, l: nat, b: Async.Action)
    requires Shape(s) && l < |s.nets| && Enabled(s, Net(l, b)) && !AboutToTake(s, l)
    requires WQ_ASYNC in s.nets[l].dirty && Async.IsOpen(s.nets[l], WQ_ASYNC) && Async.Inv(s.nets[l])
    requires s.nets[l].loop.Closing? ==> s.nets[l].loop.h != WQ_ASYNC
    requires Shape(Apply(s, Net(l, b)))
    ensures var s' := Apply(s, Net(l, b));
      && Waiting(s', l) && !Nearer(s, s', l)
      && (Progresses(s, Net(l, b), l) ==> Nearer(s', s, l))
  {
    var net := s.nets[l];
    if b.Advance? || b.Drain? {
      Async.LoopGetsCloser(net, b, WQ_ASYNC);
    } else {
      Async.OthersDoNotDelay(net, b, WQ_ASYNC);
    }
  }

  /** A close begun in uv__work_done leaves it where it is. */
  lemma AboutStays(net: Async.State)
    requires Async.ShapeOk(net) && Async.Enabled(net, Async.Advance) && InWorkDone(net) && net.loop.Closing?
    ensures InWorkDone(Async.Apply(net, Async.Advance))
  {
  }

  /** A step that does not touch the loop's code position. */
  lemma SameNetNearer(s: State, s': State, l: nat)
    requires Shape(s) && Shape(s') && l < |s.nets| == |s'.nets| && Waiting(s, l)
    requires s'.nets[l] == s.nets[l] && s'.moved[l] == s.moved[l] && |s'.pool.loops[l].batch| <= |s.pool.loops[l].batch|
    ensures Waiting(s', l) && !Nearer(s, s', l)
    ensures |s'.pool.loops[l].batch| < |s.pool.loops[l].batch| ==> Nearer(s', s, l)
  {
  }

  lemma PoolNearer(s: State, b: Pool.Action, l: nat)
    requires Inv(s) && l < |s.nets| && Enabled(s, PoolStep(b)) && Waiting(s, l)
    ensures var s' := Apply(s, PoolStep(b));
      && Shape(s') && Waiting(s', l) && !Nearer(s, s', l)
      && (b == Pool.Deliver(l) ==> Nearer(s', s, l))
  {
    PoolStepQueues(s.pool, b);
    SameNetNearer(s, Apply(s, PoolStep(b)), l);
  }

  lemma MoveNearer(s: State, m: nat, l: nat)
    requires Inv(s) && l < |s.nets| && m != l && Enabled(s, Move(m)) && Waiting(s, l)
    ensures var s' := Apply(s, Move(m)); Shape(s') && Waiting(s', l) && !Nearer(s, s', l)
  {
    PoolStepQueues(s.pool, Pool.Move(m));
    SameNetNearer(s, Apply(s, Move(m)), l);
  }

  lemma OtherNetNearer(s: State, m: nat, b: Async.Action, l: nat)
    requires Inv(s) && l < |s.nets| && m != l && Enabled(s, Net(m, b)) && Waiting(s, l)
    ensures var s' := Apply(s, Net(m, b)); Shape(s') && Waiting(s', l) && !Nearer(s, s', l)
  {
    NetInv(s, m, b);
    SameNetNearer(s, Apply(s, Net(m, b)), l);
  }

  /** Every step: the queue is taken, or a run that will take it is still owed and no farther away; a step
      of progress brings it nearer. */
  lemma PickUpNearer(s: State, a: Action, l: nat)
    requires Inv(s) && l < |s.nets| && Enabled(s, a) && Waiting(s, l) && a != Move(l)
    ensures var s' := Apply(s, a);
      && Shape(s') && |s'.nets| == |s.nets| && Waiting(s', l) && !Nearer(s, s', l)
      && (Progresses(s, a, l) ==> Nearer(s', s, l))
  {
    NeverFarther(s, a, l);
    if Progresses(s, a, l) { ProgressNearer(s, a, l); }
  }

  lemma ProgressNearer(s: State, a: Action, l: nat)
    requires Inv(s) && l < |s.nets| && Enabled(s, a) && Waiting(s, l) && a != Move(l) && Progresses(s, a, l)
    ensures Shape(Apply(s, a)) && |Apply(s, a).nets| == |s.nets| && Nearer(Apply(s, a), s, l)
  {
    if a.Net? { NetNearer(s, l, a.b); } else { PoolNearer(s, Pool.Deliver(l), l); }
  }

  lemma NeverFarther(s: State, a: Action, l: nat)
    requires Inv(s) && l < |s.nets| && Enabled(s, a) && Waiting(s, l) && a != Move(l)
    ensures var s' := Apply(s, a);
      Shape(s') && |s'.nets| == |s.nets| && Waiting(s', l) && !Nearer(s, s', l)
  {
    match a {
      case PoolStep(b) => PoolNearer(s, b, l);
      case FinishLock(t) => HandOverNearer(s, a, Pool.Finish(t), s.pool.reqs[s.pool.workers[t].item.id].loop, t, l);
      case CancelPutLock(m) => HandOverNearer(s, a, Pool.CancelPut(m), m, |s.pool.workers|, l);
      case Unlock(_) => SameNetNearer(s, Apply(s, a), l);
      case Move(m) => MoveNearer(s, m, l);
      case Net(m, b) => if m == l { NetNearer(s, l, b); } else { OtherNetNearer(s, m, b, l); }
    }
  }

  lemma HandOverNearer(s: State, a: Action, b: Pool.Action, m: nat, t: nat, l: nat)
    requires Inv(s) && l < |s.nets| && Enabled(s, a) && Waiting(s, l)
    requires a == FinishLock(t) || (a == CancelPutLock(m) && t == |s.pool.workers|)
    requires a == FinishLock(t) ==> b == Pool.Finish(t) && m == s.pool.reqs[s.pool.workers[t].item.id].loop
    requires a == CancelPutLock(m) ==> b == Pool.CancelPut(m)
    ensures var s' := Apply(s, a); Shape(s') && Waiting(s', l) && !Nearer(s, s', l)
  {
    HandOverShape(s, a, b);
    PoolStepQueues(s.pool, b);
    if m == l {
      assert LoopOk(s, l);
      SendNearer(s, Apply(s, a), t, l);
    } else {
      SameNetNearer(s, Apply(s, a), l);
    }
  }

  /** A send of `wq_async` begins. */
  lemma SendNearer(s: State, s': State, t: nat, l: nat)
    requires Shape(s) && Shape(s') && l < |s.nets| == |s'.nets| && Waiting(s, l) && Async.Inv(s.nets[l])
    requires Async.Enabled(s.nets[l], Async.Send(t, WQ_ASYNC)) && Async.IsOpen(s.nets[l], WQ_ASYNC)
    requires s.nets[l].loop.Closing? ==> s.nets[l].loop.h != WQ_ASYNC
    requires s'.nets[l] == Async.Apply(s.nets[l], Async.Send(t, WQ_ASYNC)) && s'.moved[l] == s.moved[l]
    requires |s'.pool.loops[l].batch| <= |s.pool.loops[l].batch|
    ensures Waiting(s', l) && !Nearer(s, s', l)
  {
    if !AboutToTake(s, l) { Async.OthersDoNotDelay(s.nets[l], Async.Send(t, WQ_ASYNC), WQ_ASYNC); }
  }

  // ---------- what may happen in a state ----------

  /** The composition keeps no step of the pool from coming but by its mutexes: workers wait only for a loop's mutex
      that is held, callers cancel from user code, and the loop works off its batch inside uv__work_done. */
  lemma PoolStepsCanCome(s: State, b: Pool.Action)
    requires Inv(s) && Pool.Enabled(s.pool, b)
    ensures match b
            case Section(t, _) => (forall l :: 0 <= l < |s.mutex| ==> s.mutex[l] != t) ==> Enabled(s, PoolStep(b))
            case Finish(t) =>
              var l := s.pool.reqs[s.pool.workers[t].item.id].loop;
              s.mutex[l] == FREE && s.nets[l].senders[t] == Async.Quiet ==> Enabled(s, FinishLock(t))
            case CancelTake(x) =>
              var l := s.pool.reqs[x.id].loop;
              s.mutex[l] == FREE && Async.UserCode(s.nets[l].loop) ==> Enabled(s, PoolStep(b))
            case CancelPut(l) =>
              s.mutex[l] == FREE && s.nets[l].senders[|s.pool.workers|] == Async.Quiet ==> Enabled(s, CancelPutLock(l))
            case Move(l) =>
              s.mutex[l] == FREE && s.nets[l].loop.Running? && s.nets[l].loop.h == WQ_ASYNC && !s.moved[l] ==>
                Enabled(s, Move(l))
            case Deliver(l) =>
              (s.nets[l].loop.Running? && s.nets[l].loop.h == WQ_ASYNC && s.moved[l] &&
               s.mutex[l] != |s.pool.workers|) ==> Enabled(s, PoolStep(b))
            case _ => Enabled(s, PoolStep(b))
  {
    forall l | 0 <= l < |s.nets| ensures WQ_ASYNC in s.nets[l].pending {
      assert LoopOk(s, l) && Async.IsOpen(s.nets[l], WQ_ASYNC);
    }
  }

  /** Nor a step of the wake-up protocol: the loop's thread goes on unless it is inside uv_cancel, a thread that holds
      no mutex sends, and what has begun to send goes on. */
  lemma NetStepsCanCome(s: State, l: nat, b: Async.Action)
    requires Inv(s) && l < |s.nets| && Async.Enabled(s.nets[l], b)
    ensures match b
            case Step(_) => Enabled(s, Net(l, b))
            case Send(t, _) => s.mutex[l] != t && t != |s.pool.workers| ==> Enabled(s, Net(l, b))
            case BeginClose(h) => !LoopBusy(s, l) && h != WQ_ASYNC ==> Enabled(s, Net(l, b))
            case Advance =>
              !LoopBusy(s, l) && !(s.nets[l].loop.Running? && s.nets[l].loop.h == WQ_ASYNC) ==> Enabled(s, Net(l, b))
            case _ => !LoopBusy(s, l) ==> Enabled(s, Net(l, b))
  {
  }
}
