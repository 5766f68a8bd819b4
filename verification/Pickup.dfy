/**
 End to end over infinite runs of the pool composed with the wake-up: if every thread is scheduled fairly, every
 request that has finished or has been cancelled is delivered by its loop.
 */
module Pickup {
  import opened Delivery
  import opened Options
  import Async
  import Fairness
  import Pool

  predicate Sized(s: State, l: nat) { Shape(s) && l < |s.nets| }

  predicate DoneHas(s: State, l: nat, x: Pool.Item)
    requires Sized(s, l)
  {
    x in s.pool.loops[l].done
  }

  /** An infinite run: `st(i)` is the state before the i-th step and `ac(i)` that step. */
  ghost predicate Infinite(st: nat -> State, ac: nat -> Action) {
    Init(st(0)) && forall i: nat :: StepAt(st, ac, i)
  }

  ghost predicate StepAt(st: nat -> State, ac: nat -> Action, i: nat) {
    Shape(st(i)) && Enabled(st(i), ac(i)) && st(i + 1) == Apply(st(i), ac(i))
  }

  // ---------- the threads ----------

  /** The loop's own thread among those that may send to the loop. */
  function Own(s: State): nat { |s.pool.workers| }

  /** A step of the loop's thread in the code of libuv. */
  predicate IsLoopThread(s: State, a: Action, l: nat)
    requires Sized(s, l)
  {
    || a == Move(l) || a == PoolStep(Pool.Deliver(l)) || a == CancelPutLock(l)
    || a == Net(l, Async.Advance) || a == Net(l, Async.Drain) || a == Net(l, Async.Step(Own(s)))
    || (a == Unlock(l) && s.mutex[l] == Own(s))
  }

  /** A call that user code makes on the loop's thread. */
  predicate IsUserCall(s: State, a: Action, l: nat)
    requires Sized(s, l)
  {
    match a
    case PoolStep(CancelTake(x)) => x.Job? && x.id < |s.pool.reqs| && s.pool.reqs[x.id].loop == l
    case Net(m, Send(t, _)) => m == l && t == Own(s)
    case Net(m, BeginClose(_)) => m == l
    case Net(m, Open(_)) => m == l
    case _ => false
  }

  function Stage(p: Async.Sender): nat {
    match p
    case Quiet => 0
    case Finish(_) => 1
    case Write(_) => 2
    case Set(_) => 3
    case Load(_) => 4
  }

  /** What the loop's thread is in: the position of the loop, whether the queue has been taken, the batch, a
      hand-over, a send of its own and the mutex. */
  datatype Duty = Duty(id: nat, loop: Async.Loop, moved: bool, batch: nat, handoff: bool, own: Async.Sender,
                       holds: bool)

  function DutyOf(s: State, l: nat): Duty
    requires Sized(s, l)
  {
    var id := Own(s);
    Duty(id, s.nets[l].loop, s.moved[l], |s.pool.loops[l].batch|, s.pool.loops[l].handoff != [],
         s.nets[l].senders[id], s.mutex[l] == id)
  }

  function Unmoved(d: Duty): nat {
    if d.moved then 0 else 1
  }

  /** Steps that the loop's thread has to make for the calls it is in. */
  function Busy(d: Duty): nat {
    (if d.handoff then 6 else 0) + Stage(d.own) + if d.holds then 1 else 0
  }

  predicate Lower(d: Duty, e: Duty) {
    || Unmoved(d) < Unmoved(e)
    || (Unmoved(d) == Unmoved(e) && d.batch < e.batch)
    || (Unmoved(d) == Unmoved(e) && d.batch == e.batch && Busy(d) < Busy(e))
  }

  /** The loop's thread wants wq_mutex: to hand over what it has cancelled, or to take the done queue. */
  predicate WantsMutex(d: Duty) {
    && !d.holds
    && if d.handoff then d.own == Async.Quiet else d.loop.Running? && d.loop.h == WQ_ASYNC && !d.moved
  }

  /** It cannot step: nothing is there to read at its poll, or another thread holds the mutex it wants. */
  predicate LoopWaits(s: State, l: nat)
    requires Sized(s, l)
  {
    Fairness.Blocked(s.nets[l]) || (WantsMutex(DutyOf(s, l)) && s.mutex[l] != FREE)
  }

  // ---------- a fair schedule ----------

  predicate LoopThreadAt(st: nat -> State, ac: nat -> Action, l: nat, j: nat) {
    Sized(st(j), l) && (IsLoopThread(st(j), ac(j), l) || LoopWaits(st(j), l))
  }

  /** The loop's thread steps, unless it waits. */
  ghost predicate LoopFair(st: nat -> State, ac: nat -> Action, l: nat) {
    forall i: nat :: LoopSoon(st, ac, l, i)
  }

  ghost predicate LoopSoon(st: nat -> State, ac: nat -> Action, l: nat, i: nat) {
    exists j: nat :: i <= j && LoopThreadAt(st, ac, l, j)
  }

  /** User code has come back to the loop. */
  predicate Back(s: State, l: nat) { Sized(s, l) && Fairness.Returned(s.nets[l]) }

  predicate UserAt(st: nat -> State, ac: nat -> Action, l: nat, j: nat) {
    Sized(st(j), l) && IsUserCall(st(j), ac(j), l)
  }

  ghost predicate QuietFrom(st: nat -> State, ac: nat -> Action, l: nat, i: nat) {
    forall k: nat :: i <= k ==> !UserAt(st, ac, l, k)
  }

  /** User code on the loop's thread comes back again and again, to the loop or, from a done callback, to
      uv__work_done, unless its calls end. */
  ghost predicate UserFair(st: nat -> State, ac: nat -> Action, l: nat) {
    forall i: nat :: UserSoon(st, ac, l, i)
  }

  predicate ReturnedAt(st: nat -> State, ac: nat -> Action, l: nat, j: nat) {
    Back(st(j), l) || ac(j) == PoolStep(Pool.Deliver(l))
  }

  ghost predicate UserSoon(st: nat -> State, ac: nat -> Action, l: nat, i: nat) {
    exists j: nat :: i <= j && (ReturnedAt(st, ac, l, j) || QuietFrom(st, ac, l, j))
  }

  /** A thread inside uv_async_send is not delayed for ever. */
  ghost predicate SendersFair(st: nat -> State, ac: nat -> Action, l: nat) {
    forall i: nat, t: nat :: SenderSoon(st, ac, l, i, t)
  }

  predicate Sends(s: State, l: nat, t: nat) {
    Sized(s, l) && t < |s.nets[l].senders| && s.nets[l].senders[t] != Async.Quiet
  }

  ghost predicate SenderSoon(st: nat -> State, ac: nat -> Action, l: nat, i: nat, t: nat) {
    Sends(st(i), l, t) ==> exists j: nat :: i <= j && ac(j) == Net(l, Async.Step(t))
  }

  /** A thread that holds the mutex and has finished its send lets the mutex go. */
  ghost predicate HolderFair(st: nat -> State, ac: nat -> Action, l: nat) {
    forall i: nat :: HolderSoon(st, ac, l, i)
  }

  predicate Holds(s: State, l: nat) {
    Sized(s, l) && s.mutex[l] != FREE && s.nets[l].senders[s.mutex[l]] == Async.Quiet
  }

  ghost predicate HolderSoon(st: nat -> State, ac: nat -> Action, l: nat, i: nat) {
    Holds(st(i), l) ==> exists j: nat :: i <= j && ac(j) == Unlock(l)
  }

  /** The mutex does not starve the loop's thread: if it becomes free again and again, the thread gets it, or
      does not want it any more. */
  ghost predicate MutexFair(st: nat -> State, ac: nat -> Action, l: nat) {
    forall i: nat :: MutexSoon(st, ac, l, i)
  }

  ghost predicate MutexSoon(st: nat -> State, ac: nat -> Action, l: nat, i: nat) {
    Wants(st(i), l) && FreeAgain(st, l, i) ==> exists j: nat :: i <= j && GetsMutex(st, ac, l, j)
  }

  predicate Wants(s: State, l: nat) { Sized(s, l) && WantsMutex(DutyOf(s, l)) }

  predicate FreeAt(st: nat -> State, l: nat, k: nat) { Sized(st(k), l) && st(k).mutex[l] == FREE }

  ghost predicate FreeAgain(st: nat -> State, l: nat, i: nat) {
    forall n: nat :: i <= n ==> FreeSoon(st, l, n)
  }

  ghost predicate FreeSoon(st: nat -> State, l: nat, n: nat) {
    exists k: nat :: n <= k && FreeAt(st, l, k)
  }

  predicate GetsMutex(st: nat -> State, ac: nat -> Action, l: nat, j: nat) {
    ac(j) == Move(l) || ac(j) == CancelPutLock(l) || !Wants(st(j), l)
  }

  ghost predicate Fair(st: nat -> State, ac: nat -> Action, l: nat) {
    && LoopFair(st, ac, l) && UserFair(st, ac, l)
    && SendersFair(st, ac, l) && HolderFair(st, ac, l) && MutexFair(st, ac, l)
  }

  lemma {:induction false} InvAt(st: nat -> State, ac: nat -> Action, i: nat)
    requires Infinite(st, ac)
    ensures Inv(st(i)) && |st(i).nets| == |st(0).nets|
  {
    if i == 0 {
      InitInv(st(0));
    } else {
      InvAt(st, ac, i - 1);
      assert StepAt(st, ac, i - 1);
      InvStep(st(i - 1), ac(i - 1));
    }
  }

  // ---------- a request stays in the done queue until it is taken ----------

  lemma {:induction false} DropOther(q: seq<Pool.Item>, y: Pool.Item, x: Pool.Item)
    requires x in q && x != y
    ensures x in Pool.Drop(q, y)
  {
    Pool.DropCount(q, y, x);
    assert x in multiset(q) && x in multiset(Pool.Drop(q, y));
  }

  lemma PoolKeeps(p: Pool.State, b: Pool.Action, l: nat, x: Pool.Item)
    requires Pool.Enabled(p, b) && l < |p.loops| && x in p.loops[l].done
    requires b != Pool.Move(l) && (b == Pool.CancelTake(x) ==> !Pool.Cancellable(p, x))
    ensures l < |Pool.Apply(p, b).loops| && x in Pool.Apply(p, b).loops[l].done
  {
    match b {
      case Section(t, wake) => Pool.TopKeeps(Pool.Reenter(p, t), t, wake);
      case CancelTake(y) => if y != x { DropOther(p.loops[l].done, y, x); }
      case _ =>
    }
  }

  /** The request is cancelled once more, as uv_cancel allows for one that has been cancelled before. */
  predicate CancelledAgain(s: State, a: Action, x: Pool.Item) {
    a == PoolStep(Pool.CancelTake(x)) && Pool.Known(s.pool, x) && Pool.Cancellable(s.pool, x)
  }

  /** Only taking the queue, or cancelling the request once more, takes it out. */
  lemma StaysDone(s: State, a: Action, l: nat, x: Pool.Item)
    requires Inv(s) && l < |s.nets| && Enabled(s, a) && DoneHas(s, l, x)
    requires a != Move(l) && !CancelledAgain(s, a, x)
    ensures Sized(Apply(s, a), l) && DoneHas(Apply(s, a), l, x)
  {
    InvStep(s, a);
    match a {
      case PoolStep(b) => PoolKeeps(s.pool, b, l, x);
      case FinishLock(t) => PoolKeeps(s.pool, Pool.Finish(t), l, x);
      case CancelPutLock(m) => PoolKeeps(s.pool, Pool.CancelPut(m), l, x);
      case Move(m) => PoolKeeps(s.pool, Pool.Move(m), l, x);
      case _ =>
    }
  }

  // ---------- until it is taken ----------

  /** At step `j` the queue is taken, or the request is cancelled once more. */
  predicate EventAt(st: nat -> State, ac: nat -> Action, l: nat, x: Pool.Item, j: nat) {
    ac(j) == Move(l) || CancelledAgain(st(j), ac(j), x)
  }

  /** The request waits in the done queue of loop `l`. */
  ghost predicate InQueue(st: nat -> State, l: nat, x: Pool.Item, i: nat) {
    Sized(st(i), l) && DoneHas(st(i), l, x)
  }

  /** It is in the batch of uv__work_done. */
  ghost predicate InBatch(st: nat -> State, l: nat, x: Pool.Item, i: nat) {
    Sized(st(i), l) && x in st(i).pool.loops[l].batch
  }

  lemma QueueStep(st: nat -> State, ac: nat -> Action, l: nat, x: Pool.Item, i: nat)
    requires Infinite(st, ac) && InQueue(st, l, x, i) && !EventAt(st, ac, l, x, i)
    ensures InQueue(st, l, x, i + 1)
  {
    InvAt(st, ac, i);
    assert StepAt(st, ac, i);
    StaysDone(st(i), ac(i), l, x);
  }

  /** The holder of the mutex is before its decision, and stays there until it steps. */
  lemma UndecidedStep(s: State, a: Action, l: nat)
    requires Inv(s) && l < |s.nets| && Enabled(s, a) && Undecided(s.nets[l], s.mutex[l])
    ensures var s' := Apply(s, a); var t := s.mutex[l];
      && Sized(s', l) && s'.mutex[l] == t
      && (a != Net(l, Async.Step(t)) ==> Undecided(s'.nets[l], t) && s'.nets[l].senders[t] == s.nets[l].senders[t])
      && (a == Net(l, Async.Step(t)) ==> WQ_ASYNC in s'.nets[l].dirty || s'.nets[l].senders[t] == Async.Set(WQ_ASYNC))
      && (a == Net(l, Async.Step(t)) && s.nets[l].senders[t].Set? ==> WQ_ASYNC in s'.nets[l].dirty)
  {
    InvStep(s, a);
    if a.Net? && a.l == l { UndecidedNet(s.nets[l], a.b, s.mutex[l]); }
  }

  lemma UndecidedNet(net: Async.State, b: Async.Action, t: int)
    requires Async.Enabled(net, b) && Undecided(net, t)
    ensures var net' := Async.Apply(net, b);
      && |net'.senders| == |net.senders|
      && (b != Async.Step(t) ==> net'.senders[t] == net.senders[t])
      && (b == Async.Step(t) ==> WQ_ASYNC in net'.dirty || net'.senders[t] == Async.Set(WQ_ASYNC))
      && (b == Async.Step(t) && net.senders[t].Set? ==> WQ_ASYNC in net'.dirty)
  {
  }

  /** The holder decides, and a run of uv__work_done is owed. */
  lemma {:induction false} Decides(st: nat -> State, ac: nat -> Action, l: nat, x: Pool.Item, i: nat, j: nat)
    returns (k: nat)
    requires Infinite(st, ac) && SendersFair(st, ac, l) && InQueue(st, l, x, i) && i <= j
    requires Undecided(st(i).nets[l], st(i).mutex[l]) && ac(j) == Net(l, Async.Step(st(i).mutex[l]))
    ensures k >= i && (EventAt(st, ac, l, x, k) || (InQueue(st, l, x, k) && Waiting(st(k), l)))
    decreases if st(i).nets[l].senders[st(i).mutex[l]].Load? then 1 else 0, 1, j - i
  {
    if EventAt(st, ac, l, x, i) {
      k := i;
    } else if ac(i) == Net(l, Async.Step(st(i).mutex[l])) {
      k := DecidesNow(st, ac, l, x, i);
    } else {
      InvAt(st, ac, i);
      assert StepAt(st, ac, i);
      QueueStep(st, ac, l, x, i);
      UndecidedStep(st(i), ac(i), l);
      k := Decides(st, ac, l, x, i + 1, j);
    }
  }

  /** The holder steps. */
  lemma {:induction false} DecidesNow(st: nat -> State, ac: nat -> Action, l: nat, x: Pool.Item, i: nat)
    returns (k: nat)
    requires Infinite(st, ac) && SendersFair(st, ac, l) && InQueue(st, l, x, i)
    requires Undecided(st(i).nets[l], st(i).mutex[l]) && ac(i) == Net(l, Async.Step(st(i).mutex[l]))
    ensures k >= i && (EventAt(st, ac, l, x, k) || (InQueue(st, l, x, k) && Waiting(st(k), l)))
    decreases if st(i).nets[l].senders[st(i).mutex[l]].Load? then 1 else 0, 0, 0
  {
    InvAt(st, ac, i);
    assert StepAt(st, ac, i);
    QueueStep(st, ac, l, x, i);
    UndecidedStep(st(i), ac(i), l);
    if WQ_ASYNC in st(i + 1).nets[l].dirty {
      k := i + 1;
    } else {
      var t: nat := st(i).mutex[l];
      assert SenderSoon(st, ac, l, i + 1, t);
      var n: nat :| i + 1 <= n && ac(n) == Net(l, Async.Step(t));
      k := Decides(st, ac, l, x, i + 1, n);
    }
  }

  // ---------- the loop's part of a step ----------

  const NO_NET := Async.State(map[], false, [], [], Async.Poll, {}, false)

  /** The wake-up protocol of loop `l`. */
  function NetOf(s: State, l: nat): Async.State {
    if l < |s.nets| then s.nets[l] else NO_NET
  }

  /** What a step does there. */
  function ActOf(s: State, a: Action, l: nat): Option<Async.Action>
  {
    match a
    case Net(m, b) => if m == l then Some(b) else None
    case FinishLock(t) =>
      if t < |s.pool.workers| && s.pool.workers[t].Ran? && Pool.Known(s.pool, s.pool.workers[t].item)
         && s.pool.reqs[s.pool.workers[t].item.id].loop == l
      then Some(Async.Send(t, WQ_ASYNC)) else None
    case CancelPutLock(m) => if m == l then Some(Async.Send(Own(s), WQ_ASYNC)) else None
    case _ => None
  }

  ghost function Nets(st: nat -> State, l: nat): nat -> Async.State {
    (i: nat) => NetOf(st(i), l)
  }

  ghost function Acts(st: nat -> State, ac: nat -> Action, l: nat): nat -> Option<Async.Action> {
    (i: nat) => ActOf(st(i), ac(i), l)
  }

  lemma NetStep(s: State, a: Action, l: nat)
    requires Inv(s) && l < |s.nets| && Enabled(s, a)
    ensures Sized(Apply(s, a), l)
    ensures match ActOf(s, a, l)
            case None => Apply(s, a).nets[l] == s.nets[l]
            case Some(b) => Async.Enabled(s.nets[l], b) && Apply(s, a).nets[l] == Async.Apply(s.nets[l], b)
  {
    InvStep(s, a);
  }

  lemma RunAt(st: nat -> State, ac: nat -> Action, l: nat, i: nat)
    requires Infinite(st, ac) && Sized(st(0), l)
    ensures Inv(st(i)) && Sized(st(i), l) && LoopOk(st(i), l) && StepAt(st, ac, i)
    ensures Sized(st(i + 1), l) && Inv(st(i + 1))
  {
    InvAt(st, ac, i);
    InvAt(st, ac, i + 1);
    assert StepAt(st, ac, i);
  }

  lemma ProjectsAt(st: nat -> State, ac: nat -> Action, l: nat, i: nat)
    requires Infinite(st, ac) && Sized(st(0), l)
    ensures Fairness.StepAt(Nets(st, l), Acts(st, ac, l), i)
  {
    RunAt(st, ac, l, i);
    NetStep(st(i), ac(i), l);
  }

  lemma Projects(st: nat -> State, ac: nat -> Action, l: nat)
    requires Infinite(st, ac) && Sized(st(0), l)
    ensures Fairness.Infinite(Nets(st, l), Acts(st, ac, l))
  {
    RunAt(st, ac, l, 0);
    forall i: nat ensures Fairness.StepAt(Nets(st, l), Acts(st, ac, l), i) { ProjectsAt(st, ac, l, i); }
  }

  // ---------- what is left to do before the loop steps ----------

  lemma PoolSame(p: Pool.State, b: Pool.Action, l: nat)
    requires Pool.Enabled(p, b) && l < |p.loops|
    requires match b
             case CancelTake(x) => p.reqs[x.id].loop != l
             case Deliver(m) => m != l
             case Move(m) => m != l
             case CancelPut(m) => m != l
             case _ => true
    ensures var p' := Pool.Apply(p, b);
            && |p'.loops| == |p.loops| && |p'.workers| == |p.workers|
            && p'.loops[l].batch == p.loops[l].batch && p'.loops[l].handoff == p.loops[l].handoff
  {
    PoolStepQueues(p, b);
    if b.Section? { Pool.TopKeeps(Pool.Reenter(p, b.t), b.t, b.wake); }
  }

  /** A step that leaves the loop's thread where it is, or one of the thread in its calls. */
  predicate CallDone(s: State, a: Action, s': State, l: nat)
    requires Sized(s, l)
  {
    && Sized(s', l) && (a != Move(l) ==> s'.moved[l] == s.moved[l]) && s'.nets[l].loop == s.nets[l].loop
    && if IsLoopThread(s, a, l) then Lower(DutyOf(s', l), DutyOf(s, l)) else DutyOf(s', l) == DutyOf(s, l)
  }

  lemma PoolCall(s: State, b: Pool.Action, l: nat)
    requires Sized(s, l) && Enabled(s, PoolStep(b)) && !IsUserCall(s, PoolStep(b), l)
    ensures CallDone(s, PoolStep(b), Apply(s, PoolStep(b)), l)
  {
    PoolStepQueues(s.pool, b);
    if b != Pool.Deliver(l) { PoolSame(s.pool, b, l); }
  }

  lemma HandOverCall(s: State, a: Action, b: Pool.Action, l: nat)
    requires Sized(s, l) && Enabled(s, a) && Sized(Apply(s, a), l)
    requires (a.FinishLock? && b == Pool.Finish(a.t)) || (a.CancelPutLock? && b == Pool.CancelPut(a.l))
    ensures CallDone(s, a, Apply(s, a), l)
  {
    PoolStepQueues(s.pool, b);
    if a != CancelPutLock(l) { PoolSame(s.pool, b, l); }
  }

  lemma MoveCall(s: State, m: nat, l: nat)
    requires Sized(s, l) && Enabled(s, Move(m))
    ensures CallDone(s, Move(m), Apply(s, Move(m)), l)
  {
    PoolStepQueues(s.pool, Pool.Move(m));
    if m != l { PoolSame(s.pool, Pool.Move(m), l); }
  }

  lemma NetCall(s: State, m: nat, b: Async.Action, l: nat)
    requires Sized(s, l) && Enabled(s, Net(m, b)) && !IsUserCall(s, Net(m, b), l) && Sized(Apply(s, Net(m, b)), l)
    requires m == l ==> b != Async.Advance && b != Async.Drain
    ensures CallDone(s, Net(m, b), Apply(s, Net(m, b)), l)
  {
  }

  /** A step of another thread keeps what is left to do, and one of the loop's thread lowers it. */
  lemma CallStep(s: State, a: Action, l: nat)
    requires Inv(s) && Sized(s, l) && Enabled(s, a) && !IsUserCall(s, a, l)
    requires a != Net(l, Async.Advance) && a != Net(l, Async.Drain)
    ensures CallDone(s, a, Apply(s, a), l)
  {
    InvStep(s, a);
    match a {
      case PoolStep(b) => PoolCall(s, b, l);
      case FinishLock(t) => HandOverCall(s, a, Pool.Finish(t), l);
      case CancelPutLock(m) => HandOverCall(s, a, Pool.CancelPut(m), l);
      case Move(m) => MoveCall(s, m, l);
      case Unlock(_) =>
      case Net(m, b) => NetCall(s, m, b, l);
    }
  }

  /** The same in a run. */
  lemma CallAt(st: nat -> State, ac: nat -> Action, l: nat, i: nat)
    requires Infinite(st, ac) && Sized(st(0), l) && !UserAt(st, ac, l, i)
    requires ac(i) != Net(l, Async.Advance) && ac(i) != Net(l, Async.Drain)
    ensures Sized(st(i), l) && CallDone(st(i), ac(i), st(i + 1), l)
  {
    RunAt(st, ac, l, i);
    CallStep(st(i), ac(i), l);
  }

  // ---------- the mutex becomes free ----------

  /** The holder of the mutex keeps it until it unlocks it, and its send gets on. */
  predicate HolderKeeps(s: State, a: Action, s': State, l: nat)
    requires Sized(s, l) && s.mutex[l] != FREE
  {
    var t := s.mutex[l];
    && Sized(s', l) && |s'.nets[l].senders| == |s.nets[l].senders|
    && s'.mutex[l] == (if a == Unlock(l) then FREE else t)
    && var p, p' := s.nets[l].senders[t], s'.nets[l].senders[t];
       if a == Net(l, Async.Step(t)) then Stage(p') < Stage(p) else p' == p
  }

  lemma HolderNet(s: State, m: nat, b: Async.Action, l: nat)
    requires Sized(s, l) && Enabled(s, Net(m, b)) && s.mutex[l] != FREE && Sized(Apply(s, Net(m, b)), l)
    ensures HolderKeeps(s, Net(m, b), Apply(s, Net(m, b)), l)
  {
  }

  lemma HolderStep(s: State, a: Action, l: nat)
    requires Sized(s, l) && Enabled(s, a) && s.mutex[l] != FREE && Sized(Apply(s, a), l)
    ensures HolderKeeps(s, a, Apply(s, a), l)
  {
    match a {
      case Net(m, b) => HolderNet(s, m, b, l);
      case _ =>
    }
  }

  /** `j` is the holder's next step or a later one. */
  predicate HolderAt(st: nat -> State, ac: nat -> Action, l: nat, i: nat, j: nat) {
    && Sized(st(i), l) && st(i).mutex[l] != FREE
    && if st(i).nets[l].senders[st(i).mutex[l]] == Async.Quiet then ac(j) == Unlock(l)
       else ac(j) == Net(l, Async.Step(st(i).mutex[l]))
  }

  lemma {:induction false} FreeUntil(st: nat -> State, ac: nat -> Action, l: nat, i: nat, j: nat) returns (k: nat)
    requires Infinite(st, ac) && Sized(st(0), l) && SendersFair(st, ac, l) && HolderFair(st, ac, l)
    requires i <= j && HolderAt(st, ac, l, i, j)
    ensures k >= i && FreeAt(st, l, k)
    decreases Stage(st(i).nets[l].senders[st(i).mutex[l]]), j - i
  {
    Stepped(st, ac, l, i);
    HolderStep(st(i), ac(i), l);
    if ac(i) == Unlock(l) {
      k := i + 1;
    } else if ac(i) == Net(l, Async.Step(st(i).mutex[l])) {
      var n := NextOfHolder(st, ac, l, i + 1);
      k := FreeUntil(st, ac, l, i + 1, n);
    } else {
      k := FreeUntil(st, ac, l, i + 1, j);
    }
  }

  lemma NextOfHolder(st: nat -> State, ac: nat -> Action, l: nat, i: nat) returns (j: nat)
    requires SendersFair(st, ac, l) && HolderFair(st, ac, l) && Sized(st(i), l) && st(i).mutex[l] != FREE
    ensures j >= i && HolderAt(st, ac, l, i, j)
  {
    if Sends(st(i), l, st(i).mutex[l]) {
      assert SenderSoon(st, ac, l, i, st(i).mutex[l]);
      j :| i <= j && ac(j) == Net(l, Async.Step(st(i).mutex[l]));
    } else {
      assert HolderSoon(st, ac, l, i);
      j :| i <= j && ac(j) == Unlock(l);
    }
  }

  lemma BecomesFree(st: nat -> State, ac: nat -> Action, l: nat, i: nat)
    requires Infinite(st, ac) && Sized(st(0), l) && SendersFair(st, ac, l) && HolderFair(st, ac, l)
    ensures FreeAgain(st, l, i)
  {
    forall n: nat | i <= n ensures FreeSoon(st, l, n) {
      RunAt(st, ac, l, n);
      var k := n;
      if st(n).mutex[l] != FREE {
        var j := NextOfHolder(st, ac, l, n);
        k := FreeUntil(st, ac, l, n, j);
      }
      assert FreeAt(st, l, k);
    }
  }

  // ---------- the loop's thread steps in the protocol, or waits there ----------

  ghost predicate NetAt(st: nat -> State, ac: nat -> Action, l: nat, k: nat) {
    Fairness.LoopOrBlocked(Nets(st, l), Acts(st, ac, l), k)
  }

  /** `j` is the next step of a call that the loop's thread is in, or a step that it makes when it is in none. */
  predicate Goal(st: nat -> State, ac: nat -> Action, l: nat, d: Duty, j: nat) {
    if d.own != Async.Quiet then ac(j) == Net(l, Async.Step(d.id))
    else if d.holds then ac(j) == Unlock(l)
    else if WantsMutex(d) then GetsMutex(st, ac, l, j)
    else LoopThreadAt(st, ac, l, j)
  }

  predicate InCall(d: Duty) {
    WantsMutex(d) || d.own != Async.Quiet || d.holds
  }

  /** There is such a step. */
  lemma NextGoal(st: nat -> State, ac: nat -> Action, l: nat, i: nat) returns (j: nat)
    requires Infinite(st, ac) && Sized(st(0), l) && Sized(st(i), l) && Fair(st, ac, l)
    ensures j >= i && Goal(st, ac, l, DutyOf(st(i), l), j)
  {
    var t := Own(st(i));
    if Sends(st(i), l, t) {
      assert SenderSoon(st, ac, l, i, t);
      j :| i <= j && ac(j) == Net(l, Async.Step(t));
    } else if st(i).mutex[l] == t {
      assert HolderSoon(st, ac, l, i) && Holds(st(i), l);
      j :| i <= j && ac(j) == Unlock(l);
    } else if Wants(st(i), l) {
      BecomesFree(st, ac, l, i);
      assert MutexSoon(st, ac, l, i);
      j :| i <= j && GetsMutex(st, ac, l, j);
    } else {
      assert LoopSoon(st, ac, l, i);
      j :| i <= j && LoopThreadAt(st, ac, l, j);
    }
  }

  /** When the step is reached and the loop does not wait at its poll, it is one of the thread. */
  lemma GoalReached(st: nat -> State, ac: nat -> Action, l: nat, i: nat)
    requires Infinite(st, ac) && Sized(st(0), l) && Sized(st(i), l) && Goal(st, ac, l, DutyOf(st(i), l), i)
    ensures IsLoopThread(st(i), ac(i), l) || (Fairness.Blocked(st(i).nets[l]) && !InCall(DutyOf(st(i), l)))
  {
  }

  lemma LoopStepIsNet(st: nat -> State, ac: nat -> Action, l: nat, i: nat)
    requires Sized(st(i), l)
    requires ac(i) == Net(l, Async.Advance) || ac(i) == Net(l, Async.Drain) || Fairness.Blocked(st(i).nets[l])
    ensures NetAt(st, ac, l, i)
  {
  }

  /** User code makes no calls: they have ended, or the loop is in code of its own. */
  ghost predicate NoCalls(st: nat -> State, ac: nat -> Action, l: nat, i: nat) {
    QuietFrom(st, ac, l, i) || (Sized(st(i), l) && Fairness.InOwnCode(st(i).nets[l].loop))
  }

  lemma NoCallAt(st: nat -> State, ac: nat -> Action, l: nat, i: nat)
    requires Infinite(st, ac) && Sized(st(0), l) && NoCalls(st, ac, l, i)
    ensures !UserAt(st, ac, l, i)
  {
    Stepped(st, ac, l, i);
    if !QuietFrom(st, ac, l, i) { OwnCodeNoCall(st(i), ac(i), l); }
  }

  lemma OwnCodeNoCall(s: State, a: Action, l: nat)
    requires Sized(s, l) && Enabled(s, a) && Fairness.InOwnCode(s.nets[l].loop)
    ensures !IsUserCall(s, a, l)
  {
  }

  lemma {:induction false} NetUntil(st: nat -> State, ac: nat -> Action, l: nat, i: nat, j: nat, d: Duty)
    returns (k: nat)
    requires Infinite(st, ac) && Sized(st(0), l) && Fair(st, ac, l) && NoCalls(st, ac, l, i)
    requires i <= j && Sized(st(i), l) && d == DutyOf(st(i), l) && Goal(st, ac, l, d, j)
    ensures k >= i && NetAt(st, ac, l, k)
    decreases Unmoved(d), d.batch, Busy(d), j - i
  {
    if ac(i) == Net(l, Async.Advance) || ac(i) == Net(l, Async.Drain) || Fairness.Blocked(st(i).nets[l]) {
      LoopStepIsNet(st, ac, l, i);
      k := i;
    } else {
      NoCallAt(st, ac, l, i);
      CallAt(st, ac, l, i);
      var e := DutyOf(st(i + 1), l);
      if i == j { GoalReached(st, ac, l, i); }
      if Lower(e, d) {
        var n := NextGoal(st, ac, l, i + 1);
        k := NetUntil(st, ac, l, i + 1, n, e);
      } else {
        k := NetUntil(st, ac, l, i + 1, j, e);
      }
    }
  }

  /** A step that adds nothing to a batch; delivering lowers it. */
  predicate WorkDone(s: State, a: Action, s': State, l: nat)
    requires Sized(s, l)
  {
    && Sized(s', l)
    && var d, e := DutyOf(s', l), DutyOf(s, l);
       && Unmoved(d) <= Unmoved(e) && (Unmoved(d) == Unmoved(e) ==> d.batch <= e.batch)
       && (a == PoolStep(Pool.Deliver(l)) ==> Unmoved(d) < Unmoved(e) || d.batch < e.batch)
  }

  lemma PoolWork(s: State, a: Action, b: Pool.Action, l: nat)
    requires Sized(s, l) && Enabled(s, a) && Sized(Apply(s, a), l)
    requires || a == PoolStep(b) || (a.FinishLock? && b == Pool.Finish(a.t))
             || (a.CancelPutLock? && b == Pool.CancelPut(a.l))
    ensures WorkDone(s, a, Apply(s, a), l)
  {
    PoolStepQueues(s.pool, b);
  }

  lemma NetWork(s: State, m: nat, b: Async.Action, l: nat)
    requires Sized(s, l) && Enabled(s, Net(m, b)) && Sized(Apply(s, Net(m, b)), l)
    requires !Fairness.InOwnCode(s.nets[l].loop)
    ensures WorkDone(s, Net(m, b), Apply(s, Net(m, b)), l)
  {
  }

  lemma WorkAt(st: nat -> State, ac: nat -> Action, l: nat, i: nat)
    requires Infinite(st, ac) && Sized(st(0), l) && Sized(st(i), l)
    requires !Fairness.InOwnCode(st(i).nets[l].loop)
    ensures WorkDone(st(i), ac(i), st(i + 1), l)
  {
    RunAt(st, ac, l, i);
    var s, a := st(i), ac(i);
    match a {
      case PoolStep(b) => PoolWork(s, a, b, l);
      case FinishLock(t) => PoolWork(s, a, Pool.Finish(t), l);
      case CancelPutLock(m) => PoolWork(s, a, Pool.CancelPut(m), l);
      case Move(m) => MoveCall(s, m, l);
      case Unlock(_) =>
      case Net(m, b) => NetWork(s, m, b, l);
    }
  }

  lemma {:induction false} UserUntil(st: nat -> State, ac: nat -> Action, l: nat, i: nat, j: nat) returns (k: nat)
    requires Infinite(st, ac) && Sized(st(0), l) && Sized(st(i), l) && UserFair(st, ac, l)
    requires i <= j && (ReturnedAt(st, ac, l, j) || QuietFrom(st, ac, l, j))
    ensures k >= i && (Back(st(k), l) || QuietFrom(st, ac, l, k))
    decreases Unmoved(DutyOf(st(i), l)), DutyOf(st(i), l).batch, j - i
  {
    if Back(st(i), l) || QuietFrom(st, ac, l, i) {
      k := i;
    } else {
      WorkAt(st, ac, l, i);
      if ac(i) == PoolStep(Pool.Deliver(l)) {
        var n := NextOfUser(st, ac, l, i + 1);
        k := UserUntil(st, ac, l, i + 1, n);
      } else {
        k := UserUntil(st, ac, l, i + 1, j);
      }
    }
  }

  lemma NextOfUser(st: nat -> State, ac: nat -> Action, l: nat, i: nat) returns (j: nat)
    requires UserFair(st, ac, l)
    ensures j >= i && (ReturnedAt(st, ac, l, j) || QuietFrom(st, ac, l, j))
  {
    assert UserSoon(st, ac, l, i);
    j :| i <= j && (ReturnedAt(st, ac, l, j) || QuietFrom(st, ac, l, j));
  }

  /** A batch ends, so user code comes back to the loop itself. */
  lemma UserSettles(st: nat -> State, ac: nat -> Action, l: nat, i: nat) returns (k: nat)
    requires Infinite(st, ac) && Sized(st(0), l) && UserFair(st, ac, l)
    ensures k >= i && (Back(st(k), l) || QuietFrom(st, ac, l, k))
  {
    RunAt(st, ac, l, i);
    var j := NextOfUser(st, ac, l, i);
    k := UserUntil(st, ac, l, i, j);
  }

  lemma NetSoon(st: nat -> State, ac: nat -> Action, l: nat, i: nat) returns (k: nat)
    requires Infinite(st, ac) && Sized(st(0), l) && Fair(st, ac, l)
    ensures k >= i && NetAt(st, ac, l, k)
  {
    k := UserSettles(st, ac, l, i);
    RunAt(st, ac, l, k);
    if Fairness.Blocked(st(k).nets[l]) {
      LoopStepIsNet(st, ac, l, k);
    } else {
      var j := NextGoal(st, ac, l, k);
      k := NetUntil(st, ac, l, k, j, DutyOf(st(k), l));
    }
  }

  /** A fair schedule of the composition is one of the wake-up protocol of the loop. */
  lemma NetIsFair(st: nat -> State, ac: nat -> Action, l: nat)
    requires Infinite(st, ac) && Sized(st(0), l) && Fair(st, ac, l)
    ensures Fairness.LoopFair(Nets(st, l), Acts(st, ac, l))
    ensures Fairness.UserFair(Nets(st, l), Acts(st, ac, l))
    ensures Fairness.SendersFair(Nets(st, l), Acts(st, ac, l))
  {
    forall i: nat ensures Fairness.LoopSoon(Nets(st, l), Acts(st, ac, l), i) {
      var k := NetSoon(st, ac, l, i);
    }
    forall i: nat ensures Fairness.UserSoon(Nets(st, l), Acts(st, ac, l), i) {
      var k := UserSettles(st, ac, l, i);
      if QuietFrom(st, ac, l, k) { NetQuiet(st, ac, l, k); }
      assert Back(st(k), l) ==> Fairness.Returned(Nets(st, l)(k));
    }
    forall i: nat, t: nat ensures Fairness.SenderSoon(Nets(st, l), Acts(st, ac, l), i, t) {
      NetSender(st, ac, l, i, t);
    }
  }

  lemma NetQuiet(st: nat -> State, ac: nat -> Action, l: nat, k: nat)
    requires Infinite(st, ac) && Sized(st(0), l) && QuietFrom(st, ac, l, k)
    ensures Fairness.QuietFrom(Acts(st, ac, l), k)
  {
    forall n: nat | k <= n ensures !Fairness.UserAt(Acts(st, ac, l), n) {
      Stepped(st, ac, l, n);
      assert !UserAt(st, ac, l, n);
      if ActOf(st(n), ac(n), l).Some? { NotUser(st(n), ac(n), l); }
    }
  }

  lemma NotUser(s: State, a: Action, l: nat)
    requires Sized(s, l) && !IsUserCall(s, a, l) && ActOf(s, a, l).Some?
    ensures !Fairness.IsUserCall(ActOf(s, a, l).value)
  {
  }

  lemma NetSender(st: nat -> State, ac: nat -> Action, l: nat, i: nat, t: nat)
    requires Infinite(st, ac) && Sized(st(0), l) && SendersFair(st, ac, l)
    ensures Fairness.SenderSoon(Nets(st, l), Acts(st, ac, l), i, t)
  {
    Stepped(st, ac, l, i);
    if Sends(st(i), l, t) {
      assert SenderSoon(st, ac, l, i, t);
      var j: nat :| i <= j && ac(j) == Net(l, Async.Step(t));
      assert Acts(st, ac, l)(j) == Some(Async.Step(t));
    }
  }

  // ---------- uv__work_done takes the queue ----------

  lemma AboutStep(s: State, a: Action, l: nat)
    requires Inv(s) && Sized(s, l) && Enabled(s, a) && AboutToTake(s, l) && a != Move(l)
    ensures Sized(Apply(s, a), l) && AboutToTake(Apply(s, a), l)
  {
    PickUpNearer(s, a, l);
  }

  predicate About(st: nat -> State, l: nat, i: nat) { Sized(st(i), l) && AboutToTake(st(i), l) }

  /** Until `j` the run has yet to take the queue, or it has taken it. */
  lemma {:induction false} AboutUntil(st: nat -> State, ac: nat -> Action, l: nat, i: nat, j: nat) returns (k: nat)
    requires Infinite(st, ac) && Sized(st(0), l) && About(st, l, i) && i <= j
    ensures i <= k <= j && About(st, l, k) && (ac(k) == Move(l) || k == j)
    decreases j - i
  {
    if i == j || ac(i) == Move(l) {
      k := i;
    } else {
      AboutAt(st, ac, l, i);
      k := AboutUntil(st, ac, l, i + 1, j);
    }
  }

  lemma AboutAt(st: nat -> State, ac: nat -> Action, l: nat, i: nat)
    requires Infinite(st, ac) && Sized(st(0), l) && About(st, l, i) && ac(i) != Move(l)
    ensures About(st, l, i + 1)
  {
    RunAt(st, ac, l, i);
    AboutStep(st(i), ac(i), l);
  }

  /** The callback that the loop is in ends. */
  lemma WorkDoneEnds(st: nat -> State, ac: nat -> Action, l: nat, i: nat) returns (k: nat)
    requires Infinite(st, ac) && Sized(st(0), l) && Fair(st, ac, l)
    ensures k >= i && Sized(st(k), l) && !InWorkDone(st(k).nets[l])
  {
    Projects(st, ac, l);
    NetIsFair(st, ac, l);
    k := Fairness.CallbackEnds(Nets(st, l), Acts(st, ac, l), i);
    RunAt(st, ac, l, k);
    assert Nets(st, l)(k) == st(k).nets[l];
  }

  /** uv__work_done does not end before it has taken the queue. */
  lemma Takes(st: nat -> State, ac: nat -> Action, l: nat, i: nat) returns (k: nat)
    requires Infinite(st, ac) && Sized(st(0), l) && Fair(st, ac, l) && About(st, l, i)
    ensures k >= i && ac(k) == Move(l)
  {
    var n := WorkDoneEnds(st, ac, l, i);
    k := AboutUntil(st, ac, l, i, n);
  }

  lemma {:induction false} FirstEvent(st: nat -> State, ac: nat -> Action, l: nat, x: Pool.Item, i: nat, j: nat)
    returns (k: nat)
    requires i <= j && EventAt(st, ac, l, x, j)
    ensures i <= k <= j && EventAt(st, ac, l, x, k) && forall n: nat :: i <= n < k ==> !EventAt(st, ac, l, x, n)
    decreases j - i
  {
    if EventAt(st, ac, l, x, i) { k := i; } else { k := FirstEvent(st, ac, l, x, i + 1, j); }
  }

  lemma {:induction false} InQueueUntil(st: nat -> State, ac: nat -> Action, l: nat, x: Pool.Item, i: nat, k: nat)
    requires Infinite(st, ac) && InQueue(st, l, x, i)
    requires i <= k && forall n: nat :: i <= n < k ==> !EventAt(st, ac, l, x, n)
    ensures InQueue(st, l, x, k)
    decreases k - i
  {
    if i < k {
      QueueStep(st, ac, l, x, i);
      InQueueUntil(st, ac, l, x, i + 1, k);
    }
  }

  /** A run that is owed is made, and takes the queue. */
  lemma WaitingIsTaken(st: nat -> State, ac: nat -> Action, l: nat, i: nat) returns (k: nat)
    requires Infinite(st, ac) && Sized(st(0), l) && Fair(st, ac, l) && Sized(st(i), l) && Waiting(st(i), l)
    ensures k >= i && ac(k) == Move(l)
  {
    var n := i;
    if !AboutToTake(st(i), l) { n := Answered(st, ac, l, i); }
    k := Takes(st, ac, l, n);
  }

  /** A decided send of wq_async is answered by a run of uv__work_done. */
  lemma Answered(st: nat -> State, ac: nat -> Action, l: nat, i: nat) returns (n: nat)
    requires Infinite(st, ac) && Sized(st(0), l) && Fair(st, ac, l)
    requires Sized(st(i), l) && WQ_ASYNC in st(i).nets[l].dirty
    ensures n >= i && About(st, l, n)
  {
    Projects(st, ac, l);
    NetIsFair(st, ac, l);
    WqOpen(st, ac, l, i);
    var j := Fairness.FairRunAnswers(Nets(st, l), Acts(st, ac, l), i, WQ_ASYNC);
    Started(st, ac, l, j);
    n := j + 1;
  }

  lemma WqOpen(st: nat -> State, ac: nat -> Action, l: nat, i: nat)
    requires Infinite(st, ac) && Sized(st(0), l)
    ensures Sized(st(i), l) && Async.IsOpen(NetOf(st(i), l), WQ_ASYNC)
    ensures NetOf(st(i), l).loop.Closing? ==> NetOf(st(i), l).loop.h != WQ_ASYNC
  {
    RunAt(st, ac, l, i);
  }

  /** The callback of wq_async is uv__work_done, and it starts with the queue not yet taken. */
  lemma Started(st: nat -> State, ac: nat -> Action, l: nat, n: nat)
    requires Infinite(st, ac) && Sized(st(0), l) && Fairness.EventAt(Nets(st, l), WQ_ASYNC, n)
    ensures About(st, l, n + 1)
  {
    WqOpen(st, ac, l, n);
    Stepped(st, ac, l, n);
    CallbackRuns(st(n), ac(n), l);
  }

  lemma Stepped(st: nat -> State, ac: nat -> Action, l: nat, n: nat)
    requires Infinite(st, ac) && Sized(st(0), l)
    ensures Sized(st(n), l) && Sized(st(n + 1), l) && Enabled(st(n), ac(n)) && st(n + 1) == Apply(st(n), ac(n))
  {
    RunAt(st, ac, l, n);
  }

  lemma CallbackRuns(s: State, a: Action, l: nat)
    requires Sized(s, l) && Enabled(s, a) && Sized(Apply(s, a), l)
    requires Async.CallbackStarts(s.nets[l], Apply(s, a).nets[l], WQ_ASYNC)
    ensures AboutToTake(Apply(s, a), l)
  {
  }

  /** In a fair run every request in a loop's done queue gets into the batch that uv__work_done delivers, unless
      it is cancelled once more before. */
  lemma EveryRequestIsTaken(st: nat -> State, ac: nat -> Action, l: nat, x: Pool.Item, i: nat) returns (k: nat)
    requires Infinite(st, ac) && Sized(st(0), l) && Fair(st, ac, l) && InQueue(st, l, x, i)
    ensures k >= i
    ensures (ac(k) == Move(l) && InBatch(st, l, x, k + 1)) || CancelledAgain(st(k), ac(k), x)
  {
    Owed(st, ac, l, x, i);
    var w := i;
    if !Waiting(st(i), l) {
      RunAt(st, ac, l, i);
      var t := st(i).mutex[l];
      assert SenderSoon(st, ac, l, i, t);
      var n: nat :| i <= n && ac(n) == Net(l, Async.Step(t));
      w := Decides(st, ac, l, x, i, n);
    }
    var j := w;
    if !EventAt(st, ac, l, x, w) { j := WaitingIsTaken(st, ac, l, w); }
    k := FirstEvent(st, ac, l, x, i, j);
    InQueueUntil(st, ac, l, x, i, k);
    if ac(k) == Move(l) { Taken(st, ac, l, x, k); }
  }

  /** Taking the queue puts all of it into the batch. */
  lemma Taken(st: nat -> State, ac: nat -> Action, l: nat, x: Pool.Item, k: nat)
    requires Infinite(st, ac) && InQueue(st, l, x, k) && ac(k) == Move(l)
    ensures InBatch(st, l, x, k + 1)
  {
    InvAt(st, ac, k);
    InvAt(st, ac, k + 1);
    assert StepAt(st, ac, k);
  }

  /** A request that is queued has a run promised to it: it waits, or the holder of the mutex has yet to decide. */
  lemma Owed(st: nat -> State, ac: nat -> Action, l: nat, x: Pool.Item, i: nat)
    requires Infinite(st, ac) && InQueue(st, l, x, i)
    ensures Waiting(st(i), l) || Undecided(st(i).nets[l], st(i).mutex[l])
  {
    InvAt(st, ac, i);
    assert LoopOk(st(i), l) && st(i).pool.loops[l].done != [];
  }

  // ---------- the batch is delivered ----------

  /** At step `k` uv__work_done calls the done callback of the request. */
  predicate DeliveredAt(st: nat -> State, ac: nat -> Action, l: nat, x: Pool.Item, k: nat) {
    && ac(k) == PoolStep(Pool.Deliver(l)) && Sized(st(k), l)
    && st(k).pool.loops[l].batch != [] && st(k).pool.loops[l].batch[0] == x
  }

  predicate FateAt(st: nat -> State, ac: nat -> Action, l: nat, x: Pool.Item, k: nat) {
    DeliveredAt(st, ac, l, x, k) || CancelledAgain(st(k), ac(k), x)
  }

  lemma PoolKeepsBatch(p: Pool.State, b: Pool.Action, l: nat, x: Pool.Item)
    requires Pool.Enabled(p, b) && l < |p.loops| && x in p.loops[l].batch
    requires b == Pool.Deliver(l) ==> p.loops[l].batch[0] != x
    requires b == Pool.CancelTake(x) ==> !Pool.Cancellable(p, x)
    ensures l < |Pool.Apply(p, b).loops| && x in Pool.Apply(p, b).loops[l].batch
  {
    match b {
      case Section(t, wake) => Pool.TopKeeps(Pool.Reenter(p, t), t, wake);
      case CancelTake(y) => if y != x { DropOther(p.loops[l].batch, y, x); }
      case _ =>
    }
  }

  lemma StaysInBatch(s: State, a: Action, l: nat, x: Pool.Item)
    requires Sized(s, l) && Enabled(s, a) && x in s.pool.loops[l].batch && !CancelledAgain(s, a, x)
    requires a == PoolStep(Pool.Deliver(l)) ==> s.pool.loops[l].batch[0] != x
    requires Sized(Apply(s, a), l)
    ensures x in Apply(s, a).pool.loops[l].batch
  {
    match a {
      case PoolStep(b) => PoolKeepsBatch(s.pool, b, l, x);
      case FinishLock(t) => PoolKeepsBatch(s.pool, Pool.Finish(t), l, x);
      case CancelPutLock(m) => PoolKeepsBatch(s.pool, Pool.CancelPut(m), l, x);
      case Move(m) => PoolKeepsBatch(s.pool, Pool.Move(m), l, x);
      case _ =>
    }
  }

  lemma {:induction false} BatchUntil(st: nat -> State, ac: nat -> Action, l: nat, x: Pool.Item, i: nat, j: nat)
    returns (k: nat)
    requires Infinite(st, ac) && Sized(st(0), l) && InBatch(st, l, x, i) && i <= j
    ensures i <= k <= j && (FateAt(st, ac, l, x, k) || (k == j && InBatch(st, l, x, k)))
    decreases j - i
  {
    if i == j || FateAt(st, ac, l, x, i) {
      k := i;
    } else {
      Stepped(st, ac, l, i);
      StaysInBatch(st(i), ac(i), l, x);
      k := BatchUntil(st, ac, l, x, i + 1, j);
    }
  }

  /** uv__work_done does not end before it has delivered its batch. */
  lemma BatchIsDelivered(st: nat -> State, ac: nat -> Action, l: nat, x: Pool.Item, i: nat) returns (k: nat)
    requires Infinite(st, ac) && Sized(st(0), l) && Fair(st, ac, l) && InBatch(st, l, x, i)
    ensures k >= i && FateAt(st, ac, l, x, k)
  {
    var n := WorkDoneEnds(st, ac, l, i);
    k := BatchUntil(st, ac, l, x, i, n);
    RunAt(st, ac, l, n);
  }

  // ---------- a cancelled request is handed over ----------

  /** uv_cancel has taken the request out of its queue and has yet to put it into the done queue. */
  ghost predicate InHandoff(st: nat -> State, l: nat, x: Pool.Item, i: nat) {
    Sized(st(i), l) && x in st(i).pool.loops[l].handoff
  }

  lemma StaysInHandoff(s: State, a: Action, l: nat, x: Pool.Item)
    requires Sized(s, l) && Enabled(s, a) && Sized(Apply(s, a), l) && x in s.pool.loops[l].handoff
    ensures var side := Apply(s, a).pool.loops[l]; x in if a == CancelPutLock(l) then side.done else side.handoff
  {
    match a {
      case PoolStep(b) =>
        if b.Section? { Pool.TopKeeps(Pool.Reenter(s.pool, b.t), b.t, b.wake); }
      case _ =>
    }
  }

  /** Meanwhile the loop's thread is in that call and does nothing else. */
  lemma HandoffBusy(s: State, a: Action, l: nat)
    requires Sized(s, l) && Enabled(s, a) && s.pool.loops[l].handoff != []
    ensures !IsUserCall(s, a, l) && a != Net(l, Async.Advance) && a != Net(l, Async.Drain) && InCall(DutyOf(s, l))
  {
  }

  lemma {:induction false} HandoffUntil(st: nat -> State, ac: nat -> Action, l: nat, x: Pool.Item, i: nat, j: nat,
                                        d: Duty)
    returns (k: nat)
    requires Infinite(st, ac) && Sized(st(0), l) && Fair(st, ac, l) && InHandoff(st, l, x, i)
    requires i <= j && d == DutyOf(st(i), l) && Goal(st, ac, l, d, j)
    ensures k >= i && InQueue(st, l, x, k)
    decreases Unmoved(d), d.batch, Busy(d), j - i
  {
    Stepped(st, ac, l, i);
    StaysInHandoff(st(i), ac(i), l, x);
    if ac(i) == CancelPutLock(l) {
      k := i + 1;
    } else {
      HandoffBusy(st(i), ac(i), l);
      CallAt(st, ac, l, i);
      var e := DutyOf(st(i + 1), l);
      if i == j { GoalReached(st, ac, l, i); }
      if Lower(e, d) {
        var n := NextGoal(st, ac, l, i + 1);
        k := HandoffUntil(st, ac, l, x, i + 1, n, e);
      } else {
        k := HandoffUntil(st, ac, l, x, i + 1, j, e);
      }
    }
  }

  // ---------- every request is delivered ----------

  /** The request has finished or has been cancelled, and has not been delivered. */
  ghost predicate OnLoop(st: nat -> State, l: nat, x: Pool.Item, i: nat) {
    InHandoff(st, l, x, i) || InQueue(st, l, x, i) || InBatch(st, l, x, i)
  }

  /** In a fair run the done callback of every request that has finished or has been cancelled is called, unless
      the request is cancelled once more before. */
  lemma EveryRequestIsDelivered(st: nat -> State, ac: nat -> Action, l: nat, x: Pool.Item, i: nat) returns (k: nat)
    requires Infinite(st, ac) && Sized(st(0), l) && Fair(st, ac, l) && OnLoop(st, l, x, i)
    ensures k >= i && FateAt(st, ac, l, x, k)
  {
    k := i;
    if InHandoff(st, l, x, k) {
      var j := NextGoal(st, ac, l, k);
      k := HandoffUntil(st, ac, l, x, k, j, DutyOf(st(k), l));
    }
    if InQueue(st, l, x, k) {
      k := EveryRequestIsTaken(st, ac, l, x, k);
      if ac(k) == Move(l) { k := BatchIsDelivered(st, ac, l, x, k + 1); }
    } else {
      k := BatchIsDelivered(st, ac, l, x, k);
    }
  }

  /** Its work function has run, and it is past the point where uv_cancel could take it. */
  predicate Finished(s: State, x: Pool.Item) {
    x.Job? && x.id < |s.pool.reqs| && s.pool.reqs[x.id].work == Pool.Null
  }

  lemma PoolKeepsNull(p: Pool.State, b: Pool.Action, id: nat)
    requires Pool.Enabled(p, b) && id < |p.reqs| && p.reqs[id].work == Pool.Null
    ensures id < |Pool.Apply(p, b).reqs| && Pool.Apply(p, b).reqs[id].work == Pool.Null
  {
    if b.Section? { Pool.TopKeeps(Pool.Reenter(p, b.t), b.t, b.wake); }
  }

  lemma StaysFinished(s: State, a: Action, x: Pool.Item)
    requires Shape(s) && Enabled(s, a) && Finished(s, x)
    ensures Finished(Apply(s, a), x)
  {
    match a {
      case PoolStep(b) => PoolKeepsNull(s.pool, b, x.id);
      case FinishLock(t) => PoolKeepsNull(s.pool, Pool.Finish(t), x.id);
      case CancelPutLock(m) => PoolKeepsNull(s.pool, Pool.CancelPut(m), x.id);
      case Move(m) => PoolKeepsNull(s.pool, Pool.Move(m), x.id);
      case _ =>
    }
  }

  lemma {:induction false} FinishedUntil(st: nat -> State, ac: nat -> Action, x: Pool.Item, i: nat, j: nat)
    requires Infinite(st, ac) && Finished(st(i), x) && i <= j
    ensures Finished(st(j), x)
    decreases j - i
  {
    if i < j {
      assert StepAt(st, ac, i);
      StaysFinished(st(i), ac(i), x);
      FinishedUntil(st, ac, x, i + 1, j);
    }
  }

  /** A request whose work function has run is delivered, whatever user code cancels: with status 0, and for the
      first time. */
  lemma EveryFinishedIsDelivered(st: nat -> State, ac: nat -> Action, l: nat, x: Pool.Item, i: nat) returns (k: nat)
    requires Infinite(st, ac) && Sized(st(0), l) && Fair(st, ac, l) && OnLoop(st, l, x, i) && Finished(st(i), x)
    ensures k >= i && DeliveredAt(st, ac, l, x, k) && Finished(st(k + 1), x)
    ensures st(k + 1).pool.reqs[x.id].outcomes == [Pool.Ok]
  {
    k := EveryRequestIsDelivered(st, ac, l, x, i);
    FinishedUntil(st, ac, x, i, k);
    FinishedUntil(st, ac, x, k, k + 1);
    RunAt(st, ac, l, k);
    FirstOutcome(st(k), l, x);
  }

  lemma FirstOutcome(s: State, l: nat, x: Pool.Item)
    requires Inv(s) && Sized(s, l) && Enabled(s, PoolStep(Pool.Deliver(l))) && s.pool.loops[l].batch[0] == x
    requires Finished(s, x)
    ensures Finished(Apply(s, PoolStep(Pool.Deliver(l))), x)
    ensures Apply(s, PoolStep(Pool.Deliver(l))).pool.reqs[x.id].outcomes == [Pool.Ok]
  {
    Pool.DeliverConserved(s.pool, l, x);
  }
}
