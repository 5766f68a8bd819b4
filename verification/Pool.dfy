/**
 The worker pool: submitters, workers, a canceller and the loop threads share the queue `wq`, the
 slow lane behind `run_slow_work_message`, a condition variable and one done queue per loop.

 A section of code that runs with `mutex` held is one step, as is each section that runs with a
 loop's `wq_mutex` held, the run of a work function, and a spurious wake-up.
 */
module Pool {
  import opened Basics

  /** What a QUEUE node in the pool can be: a request, or one of the two static messages. */
  datatype Item = Job(id: nat) | SlowMsg | ExitMsg

  /** The value of `w->work`. */
  datatype Work = Live | Null | Cancelled

  datatype Worker =
    | Back(slow: bool)               // about to lock `mutex` and look at the queue
    | Asleep                         // in uv_cond_wait
    | Woken                          // signalled, has not got `mutex` back yet
    | Busy(item: Item, slow: bool)   // about to run the work function
    | Ran(item: Item, slow: bool)    // work function done, request not handed over
    | Left                           // returned

  datatype Status = Ok | ECanceled

  datatype Request = Request(loop: nat, slow: bool, work: Work, runs: nat, outcomes: seq<Status>)

  /** The pool's view of one loop: its done queue, the batch `uv__work_done` is delivering, and the
      request a canceller on the loop thread holds between its two critical sections. */
  datatype LoopSide = LoopSide(done: seq<Item>, batch: seq<Item>, handoff: seq<Item>)

  datatype State = State(
    reqs: seq<Request>,
    wq: seq<Item>,
    slowq: seq<Item>,
    idle: int,
    running: int,
    workers: seq<Worker>,
    loops: seq<LoopSide>,
    started: seq<Item>)  // history: slow requests in the order workers took them

  datatype Action =
    | Submit(loop: nat, slow: bool, wake: nat)
    | Shutdown(wake: nat)
    | Section(t: nat, wake: nat)
    | Spurious(t: nat)
    | Work(t: nat)
    | Finish(t: nat)
    | CancelTake(item: Item)
    | CancelPut(loop: nat)
    | Move(loop: nat)
    | Deliver(loop: nat)

  function Threshold(n: nat): nat
  {
    (n + 1) / 2
  }

  // ---------- the condition variable ----------

  /** `wake` is the waiter the system picks: any sleeper, when there is one. */
  ghost predicate CanWake(ws: seq<Worker>, wake: nat)
  {
    (exists i :: 0 <= i < |ws| && ws[i] == Asleep) ==> wake < |ws| && ws[wake] == Asleep
  }

  function Signal(ws: seq<Worker>, wake: nat): seq<Worker>
  {
    if wake < |ws| && ws[wake] == Asleep then ws[wake := Woken] else ws
  }

  function SignalIf(idle: int, ws: seq<Worker>, wake: nat): seq<Worker>
  {
    if idle > 0 then Signal(ws, wake) else ws
  }

  // ---------- sections ----------

  /** `post`. */
  function Posted(s: State, item: Item, slow: bool, wake: nat): State
  {
    if !slow then
      s.(wq := s.wq + [item], workers := SignalIf(s.idle, s.workers, wake))
    else if SlowMsg in s.wq then
      s.(slowq := s.slowq + [item])
    else
      s.(slowq := s.slowq + [item], wq := s.wq + [SlowMsg], workers := SignalIf(s.idle, s.workers, wake))
  }

  function Asleepen(s: State, t: nat): State
    requires t < |s.workers|
  {
    s.(workers := s.workers[t := Asleep], idle := s.idle + 1)
  }

  /** The worker's loop once the head of `wq` is known not to be the slow message. */
  function TakePlain(s: State, t: nat, wake: nat): State
    requires t < |s.workers|
  {
    if s.wq == [] then Asleepen(s, t)
    else if s.wq[0] == ExitMsg then s.(workers := Signal(s.workers, wake)[t := Left])
    else s.(wq := s.wq[1..], workers := s.workers[t := Busy(s.wq[0], false)])
  }

  /** From the top of the worker's loop to the next release of `mutex`. */
  function Top(s: State, t: nat, wake: nat): State
    requires t < |s.workers|
  {
    if s.wq == [] || s.wq[0] != SlowMsg then TakePlain(s, t, wake)
    else if s.running >= Threshold(|s.workers|) then
      if |s.wq| == 1 then Asleepen(s, t)
      else TakePlain(s.(wq := s.wq[1..] + [SlowMsg]), t, wake)
    else if s.slowq == [] then TakePlain(s.(wq := s.wq[1..]), t, wake)
    else
      var r := s.slowq[0];
      var more := |s.slowq| > 1;
      var ws := if more then SignalIf(s.idle, s.workers, wake) else s.workers;
      s.(wq := if more then s.wq[1..] + [SlowMsg] else s.wq[1..],
         slowq := s.slowq[1..],
         running := s.running + 1,
         workers := ws[t := Busy(r, true)],
         started := s.started + [r])
  }

  /** Getting `mutex` back after the wait, or after a request was handed over; `Back(false)` stands
      for a worker inside its section. */
  function Reenter(s: State, t: nat): State
    requires t < |s.workers|
  {
    var s1 := s.(workers := s.workers[t := Back(false)]);
    if s.workers[t] == Woken then s1.(idle := s.idle - 1)
    else if s.workers[t] == Back(true) then s1.(running := s.running - 1)
    else s1
  }

  function Drop(q: seq<Item>, x: Item): (r: seq<Item>)
    ensures |r| <= |q|
    ensures forall y :: multiset(r)[y] == multiset(q)[y] - if y == x && x in q then 1 else 0
    ensures forall y :: y in r ==> y in q
  {
    if q == [] then q
    else
      assert q == [q[0]] + q[1..];
      if q[0] == x then q[1..] else [q[0]] + Drop(q[1..], x)
  }

  predicate Known(s: State, x: Item)
  {
    x.Job? && x.id < |s.reqs| && s.reqs[x.id].loop < |s.loops|
  }

  /** The test of `uv__work_cancel`: the node is linked into some queue and `work` is not NULL. */
  predicate Cancellable(s: State, x: Item)
    requires Known(s, x)
  {
    var side := s.loops[s.reqs[x.id].loop];
    (x in s.wq || x in s.slowq || x in side.done || x in side.batch) && s.reqs[x.id].work != Null
  }

  /** A successful cancellation, up to the second critical section of `uv__work_cancel`. */
  function Unlink(s: State, x: Item): State
    requires Known(s, x)
  {
    var r := s.reqs[x.id];
    var side := s.loops[r.loop];
    s.(reqs := s.reqs[x.id := r.(work := Cancelled)],
       wq := Drop(s.wq, x),
       slowq := Drop(s.slowq, x),
       loops := s.loops[r.loop := LoopSide(Drop(side.done, x), Drop(side.batch, x), [x])])
  }

  // ---------- the transition system ----------

  ghost predicate Enabled(s: State, a: Action)
  {
    match a
    case Submit(l, _, wake) => l < |s.loops| && CanWake(s.workers, wake)
    case Shutdown(wake) => ExitMsg !in s.wq && CanWake(s.workers, wake)
    case Section(t, wake) => t < |s.workers| && (s.workers[t].Back? || s.workers[t].Woken?) && CanWake(s.workers, wake)
    case Spurious(t) => t < |s.workers| && s.workers[t].Asleep?
    case Work(t) => t < |s.workers| && s.workers[t].Busy? && Known(s, s.workers[t].item)
    case Finish(t) => t < |s.workers| && s.workers[t].Ran? && Known(s, s.workers[t].item)
    case CancelTake(x) => Known(s, x) && s.reqs[x.id].outcomes == [] && s.loops[s.reqs[x.id].loop].handoff == []
    case CancelPut(l) => l < |s.loops| && s.loops[l].handoff != []
    case Move(l) => l < |s.loops| && s.loops[l].batch == [] && s.loops[l].handoff == []
    case Deliver(l) => l < |s.loops| && s.loops[l].batch != [] && s.loops[l].handoff == [] &&
                       Known(s, s.loops[l].batch[0])
  }

  ghost function Apply(s: State, a: Action): State
    requires Enabled(s, a)
  {
    match a
    case Submit(l, slow, wake) =>
      Posted(s.(reqs := s.reqs + [Request(l, slow, Live, 0, [])]), Job(|s.reqs|), slow, wake)
    case Shutdown(wake) => Posted(s, ExitMsg, false, wake)
    case Section(t, wake) => Top(Reenter(s, t), t, wake)
    case Spurious(t) => s.(workers := s.workers[t := Woken])
    case Work(t) =>
      var w := s.workers[t];
      var r := s.reqs[w.item.id];
      s.(reqs := s.reqs[w.item.id := r.(runs := r.runs + 1)], workers := s.workers[t := Ran(w.item, w.slow)])
    case Finish(t) =>
      var w := s.workers[t];
      var r := s.reqs[w.item.id];
      var side := s.loops[r.loop];
      s.(reqs := s.reqs[w.item.id := r.(work := Null)],
         workers := s.workers[t := Back(w.slow)],
         loops := s.loops[r.loop := side.(done := side.done + [w.item])])
    case CancelTake(x) => if Cancellable(s, x) then Unlink(s, x) else s
    case CancelPut(l) =>
      var side := s.loops[l];
      s.(loops := s.loops[l := side.(done := side.done + side.handoff, handoff := [])])
    case Move(l) =>
      var side := s.loops[l];
      s.(loops := s.loops[l := side.(batch := side.done, done := [])])
    case Deliver(l) =>
      var side := s.loops[l];
      var x := side.batch[0];
      var r := s.reqs[x.id];
      var status := if r.work == Cancelled then ECanceled else Ok;
      s.(reqs := s.reqs[x.id := r.(outcomes := r.outcomes + [status])],
         loops := s.loops[l := side.(batch := side.batch[1..])])
  }

  predicate Init(s: State)
  {
    && s.reqs == [] && s.wq == [] && s.slowq == [] && s.idle == 0 && s.running == 0 && s.started == []
    && |s.workers| >= 1
    && (forall t :: 0 <= t < |s.workers| ==> s.workers[t] == Back(false))
    && (forall l :: 0 <= l < |s.loops| ==> s.loops[l] == LoopSide([], [], []))
  }

  ghost predicate Next(s: State, s': State)
  {
    exists a :: Enabled(s, a) && s' == Apply(s, a)
  }

  ghost predicate Run(states: seq<State>)
  {
    && states != []
    && Init(states[0])
    && forall i :: 0 < i < |states| ==> Next(states[i - 1], states[i])
  }

  // ---------- counting workers ----------

  function Tally(ws: seq<Worker>, weight: Worker -> nat): nat
  {
    if ws == [] then 0 else weight(ws[0]) + Tally(ws[1..], weight)
  }

  lemma {:induction false} TallyUpdate(ws: seq<Worker>, t: nat, w: Worker, weight: Worker -> nat)
    requires t < |ws|
    ensures Tally(ws[t := w], weight) + weight(ws[t]) == Tally(ws, weight) + weight(w)
    ensures Tally(ws, weight) >= weight(ws[t])
  {
    if t > 0 {
      TallyUpdate(ws[1..], t - 1, w, weight);
      assert ws[t := w][1..] == ws[1..][t - 1 := w];
    } else {
      assert ws[0 := w][1..] == ws[1..];
    }
  }

  lemma {:induction false} TallyWitness(ws: seq<Worker>, weight: Worker -> nat) returns (t: nat)
    requires Tally(ws, weight) > 0
    ensures t < |ws| && weight(ws[t]) > 0
  {
    if weight(ws[0]) > 0 { t := 0; } else { t := TallyWitness(ws[1..], weight); t := t + 1; }
  }

  /** Counted in `idle_threads`: waiting, or signalled and not yet back. */
  function IdleWeight(w: Worker): nat { if w.Asleep? || w.Woken? then 1 else 0 }

  /** Counted in `slow_io_work_running`. */
  function SlowWeight(w: Worker): nat { if (w.Busy? || w.Ran? || w.Back?) && w.slow then 1 else 0 }

  ghost predicate CountersOk(s: State)
  {
    && |s.workers| >= 1
    && s.idle == Tally(s.workers, IdleWeight)
    && s.running == Tally(s.workers, SlowWeight)
    && s.running <= Threshold(|s.workers|)
  }

  /** The worker array after a section: worker `t` moved on, and perhaps one sleeper was signalled. */
  function Moved(ws: seq<Worker>, t: nat, w: Worker, sig: bool, wake: nat): (r: seq<Worker>)
    requires t < |ws|
    ensures |r| == |ws|
  {
    (if sig then Signal(ws, wake) else ws)[t := w]
  }

  predicate Wakes(ws: seq<Worker>, sig: bool, wake: nat)
  {
    sig && wake < |ws| && ws[wake] == Asleep
  }

  lemma MovedTally(ws: seq<Worker>, t: nat, w: Worker, sig: bool, wake: nat, weight: Worker -> nat)
    requires t < |ws| && ws[t] != Asleep
    ensures Tally(Moved(ws, t, w, sig, wake), weight) + weight(ws[t])
            + (if Wakes(ws, sig, wake) then weight(Asleep) else 0)
         == Tally(ws, weight) + weight(w) + (if Wakes(ws, sig, wake) then weight(Woken) else 0)
    ensures Tally(ws, weight) >= weight(ws[t])
  {
    TallyUpdate(ws, t, w, weight);
    if Wakes(ws, sig, wake) {
      TallyUpdate(ws, wake, Woken, weight);
      TallyUpdate(ws[wake := Woken], t, w, weight);
    }
  }

  lemma SignalTally(ws: seq<Worker>, sig: bool, wake: nat, weight: Worker -> nat)
    ensures Tally(if sig then Signal(ws, wake) else ws, weight) + (if Wakes(ws, sig, wake) then weight(Asleep) else 0)
         == Tally(ws, weight) + (if Wakes(ws, sig, wake) then weight(Woken) else 0)
  {
    if Wakes(ws, sig, wake) { TallyUpdate(ws, wake, Woken, weight); }
  }

  /** Where worker `t` ends up when its section releases `mutex`. */
  function TopWorker(s: State, t: nat): Worker
  {
    var full := s.running >= Threshold(|s.workers|);
    if s.wq == [] then Asleep
    else if s.wq[0] != SlowMsg then (if s.wq[0] == ExitMsg then Left else Busy(s.wq[0], false))
    else if full || s.slowq == [] then
      if |s.wq| == 1 then Asleep
      else if s.wq[1] == ExitMsg then Left
      else Busy(s.wq[1], false)
    else Busy(s.slowq[0], true)
  }

  function TopSignals(s: State, t: nat): bool
  {
    || TopWorker(s, t) == Left
    || (s.wq != [] && s.wq[0] == SlowMsg && s.running < Threshold(|s.workers|) && |s.slowq| > 1 && s.idle > 0)
  }

  lemma TopShape(s: State, t: nat, wake: nat)
    requires t < |s.workers|
    ensures Top(s, t, wake).workers == Moved(s.workers, t, TopWorker(s, t), TopSignals(s, t), wake)
  {
  }

  lemma TopCounters(s: State, t: nat, wake: nat)
    requires t < |s.workers| && s.workers[t] == Back(false)
    requires CountersOk(s)
    ensures CountersOk(Top(s, t, wake))
  {
    TopShape(s, t, wake);
    MovedTally(s.workers, t, TopWorker(s, t), TopSignals(s, t), wake, IdleWeight);
    MovedTally(s.workers, t, TopWorker(s, t), TopSignals(s, t), wake, SlowWeight);
  }

  lemma PostCounters(s: State, item: Item, slow: bool, wake: nat)
    requires CountersOk(s)
    ensures CountersOk(Posted(s, item, slow, wake))
  {
    SignalTally(s.workers, s.idle > 0, wake, IdleWeight);
    SignalTally(s.workers, s.idle > 0, wake, SlowWeight);
  }

  lemma SetCounters(s: State, t: nat, w: Worker)
    requires t < |s.workers|
    requires CountersOk(s) && IdleWeight(s.workers[t]) == IdleWeight(w) && SlowWeight(s.workers[t]) == SlowWeight(w)
    ensures CountersOk(s.(workers := s.workers[t := w]))
  {
    TallyUpdate(s.workers, t, w, IdleWeight);
    TallyUpdate(s.workers, t, w, SlowWeight);
  }

  lemma CountersStep(s: State, a: Action)
    requires Enabled(s, a) && CountersOk(s)
    ensures CountersOk(Apply(s, a))
  {
    match a {
      case Submit(l, slow, wake) =>
        PostCounters(s.(reqs := s.reqs + [Request(l, slow, Live, 0, [])]), Job(|s.reqs|), slow, wake);
      case Shutdown(wake) => PostCounters(s, ExitMsg, false, wake);
      case Section(t, wake) =>
        TallyUpdate(s.workers, t, Back(false), IdleWeight);
        TallyUpdate(s.workers, t, Back(false), SlowWeight);
        TopCounters(Reenter(s, t), t, wake);
      case Spurious(t) => SetCounters(s, t, Woken);
      case Work(t) => SetCounters(s, t, Ran(s.workers[t].item, s.workers[t].slow));
      case Finish(t) => SetCounters(s, t, Back(s.workers[t].slow));
      case _ =>
    }
  }

  // ---------- conservation ----------

  function Count(q: seq<Item>, x: Item): nat
  {
    multiset(q)[x]
  }

  function Holds(w: Worker, x: Item): nat
  {
    if (w.Busy? || w.Ran?) && w.item == x then 1 else 0
  }

  function Held(ws: seq<Worker>, x: Item): nat
  {
    if ws == [] then 0 else Holds(ws[0], x) + Held(ws[1..], x)
  }

  function Side(l: LoopSide, x: Item): nat
  {
    Count(l.done, x) + Count(l.batch, x) + Count(l.handoff, x)
  }

  function Kept(ls: seq<LoopSide>, x: Item): nat
  {
    if ls == [] then 0 else Side(ls[0], x) + Kept(ls[1..], x)
  }

  /** How often a queue node occurs anywhere: in `wq`, in the slow lane, at a worker, and, over all
      loops, in the done queue, in the batch being delivered and in a canceller's hands. */
  function Everywhere(s: State, x: Item): nat
  {
    Count(s.wq, x) + Count(s.slowq, x) + Held(s.workers, x) + Kept(s.loops, x)
  }

  predicate Pending(s: State, x: Item)
  {
    x.Job? && x.id < |s.reqs| && s.reqs[x.id].outcomes == []
  }

  ghost predicate Conserved(s: State)
  {
    && (forall x: Item :: x.Job? ==> Everywhere(s, x) == if Pending(s, x) then 1 else 0)
    && Everywhere(s, SlowMsg) <= 1
    && Everywhere(s, ExitMsg) <= 1
  }

  lemma {:induction false} HeldUpdate(ws: seq<Worker>, t: nat, w: Worker, x: Item)
    requires t < |ws|
    ensures Held(ws[t := w], x) + Holds(ws[t], x) == Held(ws, x) + Holds(w, x)
    ensures Holds(ws[t], x) <= Held(ws, x)
  {
    if t > 0 {
      HeldUpdate(ws[1..], t - 1, w, x);
      assert ws[t := w][1..] == ws[1..][t - 1 := w];
    } else {
      assert ws[0 := w][1..] == ws[1..];
    }
  }

  lemma HeldSignal(ws: seq<Worker>, wake: nat, x: Item)
    ensures Held(Signal(ws, wake), x) == Held(ws, x)
  {
    if wake < |ws| && ws[wake] == Asleep { HeldUpdate(ws, wake, Woken, x); }
  }

  lemma HeldMoved(ws: seq<Worker>, t: nat, w: Worker, sig: bool, wake: nat, x: Item)
    requires t < |ws| && ws[t] == Back(false)
    ensures Held(Moved(ws, t, w, sig, wake), x) == Held(ws, x) + Holds(w, x)
  {
    HeldSignal(ws, wake, x);
    HeldUpdate(if sig then Signal(ws, wake) else ws, t, w, x);
  }

  lemma {:induction false} KeptUpdate(ls: seq<LoopSide>, l: nat, side: LoopSide, x: Item)
    requires l < |ls|
    ensures Kept(ls[l := side], x) + Side(ls[l], x) == Kept(ls, x) + Side(side, x)
    ensures Side(ls[l], x) <= Kept(ls, x)
  {
    if l > 0 {
      KeptUpdate(ls[1..], l - 1, side, x);
      assert ls[l := side][1..] == ls[1..][l - 1 := side];
    } else {
      assert ls[0 := side][1..] == ls[1..];
    }
  }

  lemma {:induction false} HeldAlone(ws: seq<Worker>, t: nat, u: nat, x: Item)
    requires t < |ws| && u < |ws| && t != u && Holds(ws[t], x) == 1 == Holds(ws[u], x)
    ensures Held(ws, x) >= 2
  {
    if t == 0 { HeldUpdate(ws[1..], u - 1, Left, x); }
    else if u == 0 { HeldUpdate(ws[1..], t - 1, Left, x); }
    else { HeldAlone(ws[1..], t - 1, u - 1, x); }
  }

  lemma {:induction false} KeptAlone(ls: seq<LoopSide>, l: nat, m: nat, x: Item)
    requires l < |ls| && m < |ls| && l != m && Side(ls[l], x) > 0 && Side(ls[m], x) > 0
    ensures Kept(ls, x) >= 2
  {
    if l == 0 { KeptUpdate(ls[1..], m - 1, ls[m], x); }
    else if m == 0 { KeptUpdate(ls[1..], l - 1, ls[l], x); }
    else { KeptAlone(ls[1..], l - 1, m - 1, x); }
  }

  lemma Split(q: seq<Item>)
    requires q != []
    ensures multiset(q) == multiset{q[0]} + multiset(q[1..])
    ensures forall y :: Count(q, y) == Count(q[1..], y) + if y == q[0] then 1 else 0
  {
    assert q == [q[0]] + q[1..];
  }

  // ---------- what is true of a request where it is ----------

  predicate Fresh(s: State, x: Item, slow: bool)
  {
    Known(s, x) && var r := s.reqs[x.id];
    r.slow == slow && r.work == Live && r.runs == 0
  }

  predicate Executed(s: State, x: Item, slow: bool)
  {
    Known(s, x) && var r := s.reqs[x.id];
    r.slow == slow && r.work == Live && r.runs == 1
  }

  predicate Settled(s: State, x: Item, l: nat)
  {
    Known(s, x) && var r := s.reqs[x.id];
    r.loop == l && ((r.work == Null && r.runs == 1) || (r.work == Cancelled && r.runs == 0))
  }

  predicate WorkerOk(s: State, w: Worker)
  {
    match w
    case Busy(x, slow) => Fresh(s, x, slow)
    case Ran(x, slow) => Executed(s, x, slow)
    case _ => true
  }

  ghost predicate SideOk(s: State, l: nat)
    requires l < |s.loops|
  {
    && (forall x :: x in s.loops[l].done || x in s.loops[l].batch ==> Settled(s, x, l))
    && (forall x :: x in s.loops[l].handoff ==> Settled(s, x, l) && s.reqs[x.id].work == Cancelled)
    && |s.loops[l].handoff| <= 1
  }

  predicate OutcomeOk(r: Request)
  {
    || r.outcomes == []
    || (r.outcomes == [Ok] && r.runs == 1)
    || (r.outcomes == [ECanceled] && r.runs == 0)
  }

  ghost predicate PlacesOk(s: State)
  {
    && (forall x :: x in s.wq && x.Job? ==> Fresh(s, x, false))
    && (forall x :: x in s.slowq ==> Fresh(s, x, true))
    && (forall t :: 0 <= t < |s.workers| ==> WorkerOk(s, s.workers[t]))
    && (forall l :: 0 <= l < |s.loops| ==> SideOk(s, l))
    && (forall id :: 0 <= id < |s.reqs| ==> OutcomeOk(s.reqs[id]) && s.reqs[id].loop < |s.loops|)
  }

  predicate Increasing(q: seq<Item>)
  {
    && (forall i :: 0 <= i < |q| ==> q[i].Job?)
    && (forall i, j :: 0 <= i < j < |q| ==> q[i].id < q[j].id)
  }

  ghost predicate LaneOk(s: State)
  {
    && (s.slowq != [] ==> SlowMsg in s.wq)
    && Increasing(s.started + s.slowq)
    && (forall i :: 0 <= i < |s.started| ==> s.started[i].Job? && s.started[i].id < |s.reqs|)
  }

  ghost predicate Core(s: State)
  {
    CountersOk(s) && Conserved(s) && PlacesOk(s) && LaneOk(s)
  }

  // ---------- each kind of step keeps conservation ----------

  lemma PostConserved(s: State, item: Item, slow: bool, wake: nat, x: Item)
    ensures Everywhere(Posted(s, item, slow, wake), x) == Everywhere(s, x) + (if x == item then 1 else 0)
              + if slow && SlowMsg !in s.wq && x == SlowMsg then 1 else 0
  {
    HeldSignal(s.workers, wake, x);
  }

  lemma TakePlainConserved(s: State, t: nat, wake: nat, x: Item)
    requires t < |s.workers| && s.workers[t] == Back(false)
    ensures Everywhere(TakePlain(s, t, wake), x) == Everywhere(s, x)
  {
    if s.wq == [] {
      HeldUpdate(s.workers, t, Asleep, x);
    } else if s.wq[0] == ExitMsg {
      HeldMoved(s.workers, t, Left, true, wake, x);
    } else {
      Split(s.wq);
      HeldUpdate(s.workers, t, Busy(s.wq[0], false), x);
    }
  }

  lemma TakeSlowConserved(s: State, t: nat, wake: nat, x: Item)
    requires t < |s.workers| && s.workers[t] == Back(false)
    requires s.wq != [] && s.wq[0] == SlowMsg && s.running < Threshold(|s.workers|) && s.slowq != []
    ensures x != SlowMsg ==> Everywhere(Top(s, t, wake), x) == Everywhere(s, x)
    ensures Everywhere(Top(s, t, wake), x) <= Everywhere(s, x)
  {
    Split(s.wq);
    Split(s.slowq);
    HeldMoved(s.workers, t, Busy(s.slowq[0], true), TopSignals(s, t), wake, x);
    TopShape(s, t, wake);
    TopKeeps(s, t, wake);
  }

  lemma AsideConserved(s: State, t: nat, wake: nat, x: Item)
    requires t < |s.workers| && s.workers[t] == Back(false)
    requires s.wq != [] && s.wq[0] == SlowMsg && s.running >= Threshold(|s.workers|)
    ensures Everywhere(Top(s, t, wake), x) == Everywhere(s, x)
  {
    Split(s.wq);
    HeldUpdate(s.workers, t, Asleep, x);
    TakePlainConserved(s.(wq := s.wq[1..] + [SlowMsg]), t, wake, x);
  }

  /** A section moves at most one request, from a queue to the worker, and at most drops the slow
      message. */
  lemma TopConserved(s: State, t: nat, wake: nat, x: Item)
    requires t < |s.workers| && s.workers[t] == Back(false)
    ensures x != SlowMsg ==> Everywhere(Top(s, t, wake), x) == Everywhere(s, x)
    ensures Everywhere(Top(s, t, wake), x) <= Everywhere(s, x)
  {
    if s.wq == [] || s.wq[0] != SlowMsg {
      TakePlainConserved(s, t, wake, x);
    } else if s.running >= Threshold(|s.workers|) {
      AsideConserved(s, t, wake, x);
    } else if s.slowq == [] {
      Split(s.wq);
      TakePlainConserved(s.(wq := s.wq[1..]), t, wake, x);
    } else {
      TakeSlowConserved(s, t, wake, x);
    }
  }

  lemma {:induction false} HeldNone(ws: seq<Worker>, x: Item)
    requires forall t :: 0 <= t < |ws| ==> Holds(ws[t], x) == 0
    ensures Held(ws, x) == 0
  {
    if ws != [] { HeldNone(ws[1..], x); }
  }

  lemma {:induction false} KeptNone(ls: seq<LoopSide>, x: Item)
    requires forall l :: 0 <= l < |ls| ==> Side(ls[l], x) == 0
    ensures Kept(ls, x) == 0
  {
    if ls != [] { KeptNone(ls[1..], x); }
  }

  /** The two static messages are nowhere but in `wq`. */
  lemma MessagesInWq(s: State, m: Item)
    requires PlacesOk(s) && !m.Job?
    ensures Everywhere(s, m) == Count(s.wq, m)
  {
    forall t | 0 <= t < |s.workers| ensures Holds(s.workers[t], m) == 0 {
      assert WorkerOk(s, s.workers[t]);
    }
    HeldNone(s.workers, m);
    forall l | 0 <= l < |s.loops| ensures Side(s.loops[l], m) == 0 {
      assert SideOk(s, l);
      var side := s.loops[l];
      assert m in side.done || m in side.batch || m in side.handoff ==> Settled(s, m, l);
      assert m !in multiset(side.done) && m !in multiset(side.batch) && m !in multiset(side.handoff);
    }
    KeptNone(s.loops, m);
    assert m in s.slowq ==> Fresh(s, m, true);
  }

  lemma SubmitConserved(s: State, a: Action, x: Item)
    requires Core(s) && Enabled(s, a) && (a.Submit? || a.Shutdown?)
    ensures x.Job? ==> Everywhere(Apply(s, a), x) == if Pending(Apply(s, a), x) then 1 else 0
    ensures !x.Job? ==> Everywhere(Apply(s, a), x) <= 1
  {
    if a.Submit? {
      JobConserved(s, a.loop, a.slow, a.wake, x);
    } else {
      MessagesInWq(s, ExitMsg);
      PostConserved(s, ExitMsg, false, a.wake, x);
    }
  }

  lemma JobConserved(s: State, loop: nat, slow: bool, wake: nat, x: Item)
    requires Core(s) && Enabled(s, Submit(loop, slow, wake))
    ensures var s' := Apply(s, Submit(loop, slow, wake));
      && (x.Job? ==> Everywhere(s', x) == if Pending(s', x) then 1 else 0)
      && (!x.Job? ==> Everywhere(s', x) <= 1)
  {
    MessagesInWq(s, SlowMsg);
    var s1 := s.(reqs := s.reqs + [Request(loop, slow, Live, 0, [])]);
    PostConserved(s1, Job(|s.reqs|), slow, wake, x);
    assert Everywhere(s1, x) == Everywhere(s, x);
  }

  lemma TopKeeps(s: State, t: nat, wake: nat)
    requires t < |s.workers|
    ensures Top(s, t, wake).reqs == s.reqs && Top(s, t, wake).loops == s.loops
  {
    if s.wq != [] && s.wq[0] == SlowMsg {
      assert TakePlain(s.(wq := s.wq[1..]), t, wake).loops == s.loops;
    }
  }

  lemma SectionConserved(s: State, t: nat, wake: nat, x: Item)
    requires t < |s.workers| && (s.workers[t].Back? || s.workers[t].Woken?)
    ensures var s' := Top(Reenter(s, t), t, wake);
            && s'.reqs == s.reqs && s'.loops == s.loops
            && (x != SlowMsg ==> Everywhere(s', x) == Everywhere(s, x))
            && Everywhere(s', x) <= Everywhere(s, x)
  {
    HeldUpdate(s.workers, t, Back(false), x);
    TopConserved(Reenter(s, t), t, wake, x);
    TopKeeps(Reenter(s, t), t, wake);
  }

  lemma FinishConserved(s: State, t: nat, x: Item)
    requires Enabled(s, Finish(t))
    ensures Everywhere(Apply(s, Finish(t)), x) == Everywhere(s, x)
  {
    var w := s.workers[t];
    var side := s.loops[s.reqs[w.item.id].loop];
    HeldUpdate(s.workers, t, Back(w.slow), x);
    KeptUpdate(s.loops, s.reqs[w.item.id].loop, side.(done := side.done + [w.item]), x);
  }

  function Has(q: seq<Item>, x: Item): nat
  {
    if x in q then 1 else 0
  }

  lemma DropCount(q: seq<Item>, y: Item, x: Item)
    ensures Count(Drop(q, y), x) == Count(q, x) - if x == y then Has(q, y) else 0
    ensures Has(q, y) <= Count(q, y)
  {
    assert y in q ==> y in multiset(q);
  }

  lemma DropSide(side: LoopSide, y: Item, x: Item)
    requires side.handoff == []
    ensures Side(LoopSide(Drop(side.done, y), Drop(side.batch, y), [y]), x)
         == Side(side, x) + if x == y then 1 - Has(side.done, y) - Has(side.batch, y) else 0
  {
    DropCount(side.done, y, x);
    DropCount(side.batch, y, x);
  }

  /** A queued request that is cancelled leaves its only place for the canceller's hands. */
  lemma CancelConserved(s: State, y: Item, x: Item)
    requires Enabled(s, CancelTake(y)) && Everywhere(s, y) == 1
    ensures Everywhere(Apply(s, CancelTake(y)), x) == Everywhere(s, x)
  {
    if Cancellable(s, y) { UnlinkConserved(s, y, x); }
  }

  lemma UnlinkConserved(s: State, y: Item, x: Item)
    requires Known(s, y) && Cancellable(s, y) && s.loops[s.reqs[y.id].loop].handoff == [] && Everywhere(s, y) == 1
    ensures Everywhere(Unlink(s, y), x) == Everywhere(s, x)
  {
    CancelKept(s.loops, s.reqs[y.id].loop, y, x);
    DropCount(s.wq, y, x);
    DropCount(s.slowq, y, x);
  }

  lemma CancelKept(loops: seq<LoopSide>, l: nat, y: Item, x: Item)
    requires l < |loops| && loops[l].handoff == []
    ensures Kept(loops[l := LoopSide(Drop(loops[l].done, y), Drop(loops[l].batch, y), [y])], x)
         == Kept(loops, x) + if x == y then 1 - Has(loops[l].done, y) - Has(loops[l].batch, y) else 0
    ensures x == y ==> Has(loops[l].done, y) + Has(loops[l].batch, y) <= Kept(loops, y)
  {
    var side := loops[l];
    KeptUpdate(loops, l, LoopSide(Drop(side.done, y), Drop(side.batch, y), [y]), x);
    if x == y { CancelMoves(side, y); } else { DropSide(side, y, x); }
  }

  /** A cancelled request is at its loop's side exactly once, whether it was there before or not. */
  lemma CancelMoves(side: LoopSide, y: Item)
    requires side.handoff == []
    ensures Side(LoopSide(Drop(side.done, y), Drop(side.batch, y), [y]), y)
         == Side(side, y) + 1 - Has(side.done, y) - Has(side.batch, y)
    ensures Has(side.done, y) <= Count(side.done, y) && Has(side.batch, y) <= Count(side.batch, y)
  {
    DropSide(side, y, y);
    DropCount(side.done, y, y);
    DropCount(side.batch, y, y);
  }

  lemma SideConserved(s: State, l: nat, side: LoopSide, x: Item)
    requires l < |s.loops| && Side(side, x) == Side(s.loops[l], x)
    ensures Everywhere(s.(loops := s.loops[l := side]), x) == Everywhere(s, x)
  {
    KeptUpdate(s.loops, l, side, x);
  }

  lemma DeliverConserved(s: State, l: nat, x: Item)
    requires Enabled(s, Deliver(l))
    ensures Everywhere(Apply(s, Deliver(l)), x) == Everywhere(s, x) - if x == s.loops[l].batch[0] then 1 else 0
    ensures Everywhere(s, s.loops[l].batch[0]) >= 1
  {
    var side := s.loops[l];
    Split(side.batch);
    KeptUpdate(s.loops, l, side.(batch := side.batch[1..]), x);
    KeptUpdate(s.loops, l, side, side.batch[0]);
  }

  lemma WorkerConserved(s: State, a: Action, x: Item)
    requires Conserved(s) && Enabled(s, a) && (a.Section? || a.Spurious? || a.Work? || a.Finish?)
    ensures x.Job? ==> Everywhere(Apply(s, a), x) == if Pending(Apply(s, a), x) then 1 else 0
    ensures !x.Job? ==> Everywhere(Apply(s, a), x) <= 1
  {
    match a {
      case Section(t, wake) => SectionConserved(s, t, wake, x);
      case Spurious(t) => HeldUpdate(s.workers, t, Woken, x);
      case Work(t) => WorkConserved(s, t, x);
      case Finish(t) => FinishConserved(s, t, x);
    }
  }

  lemma WorkConserved(s: State, t: nat, x: Item)
    requires Enabled(s, Work(t))
    ensures Everywhere(Apply(s, Work(t)), x) == Everywhere(s, x)
    ensures Pending(Apply(s, Work(t)), x) <==> Pending(s, x)
  {
    HeldUpdate(s.workers, t, Ran(s.workers[t].item, s.workers[t].slow), x);
  }

  lemma TakeConserved(s: State, y: Item, x: Item)
    requires Conserved(s) && Enabled(s, CancelTake(y))
    ensures var s' := Apply(s, CancelTake(y));
            Everywhere(s', x) == Everywhere(s, x) && (Pending(s', x) <==> Pending(s, x))
  {
    CancelConserved(s, y, x);
  }

  lemma LoopConserved(s: State, a: Action, x: Item)
    requires Conserved(s) && Enabled(s, a) && (a.CancelTake? || a.CancelPut? || a.Move? || a.Deliver?)
    ensures x.Job? ==> Everywhere(Apply(s, a), x) == if Pending(Apply(s, a), x) then 1 else 0
    ensures !x.Job? ==> Everywhere(Apply(s, a), x) <= 1
  {
    match a {
      case CancelTake(y) => TakeConserved(s, y, x);
      case CancelPut(l) =>
        SideConserved(s, l, s.loops[l].(done := s.loops[l].done + s.loops[l].handoff, handoff := []), x);
      case Move(l) => SideConserved(s, l, s.loops[l].(batch := s.loops[l].done, done := []), x);
      case Deliver(l) => DeliverConserved(s, l, x);
    }
  }

  lemma ConservedStep(s: State, a: Action)
    requires Core(s) && Enabled(s, a)
    ensures Conserved(Apply(s, a))
  {
    forall x: Item
      ensures x.Job? ==> Everywhere(Apply(s, a), x) == if Pending(Apply(s, a), x) then 1 else 0
      ensures !x.Job? ==> Everywhere(Apply(s, a), x) <= 1
    {
      if a.Submit? || a.Shutdown? { SubmitConserved(s, a, x); }
      else if a.CancelTake? || a.CancelPut? || a.Move? || a.Deliver? { LoopConserved(s, a, x); }
      else { WorkerConserved(s, a, x); }
    }
  }

  // ---------- requests are in the state their place says ----------

  lemma InSide(side: LoopSide, x: Item)
    ensures Side(side, x) > 0 <==> x in side.done || x in side.batch || x in side.handoff
  {
    assert x in side.done <==> x in multiset(side.done);
    assert x in side.batch <==> x in multiset(side.batch);
    assert x in side.handoff <==> x in multiset(side.handoff);
  }

  ghost predicate NotQueued(s: State, x: Item)
  {
    x !in s.wq && x !in s.slowq
  }

  ghost predicate NotHeld(s: State, x: Item, except: int)
  {
    forall t :: 0 <= t < |s.workers| && t != except ==> Holds(s.workers[t], x) == 0
  }

  ghost predicate NotKept(s: State, x: Item, except: int)
  {
    forall l :: 0 <= l < |s.loops| && l != except ==> Side(s.loops[l], x) == 0
  }

  lemma OnlyAtWorker(s: State, t: nat, x: Item)
    requires Everywhere(s, x) <= 1 && t < |s.workers| && Holds(s.workers[t], x) == 1
    ensures NotQueued(s, x) && NotHeld(s, x, t) && NotKept(s, x, -1)
  {
    HeldUpdate(s.workers, t, Left, x);
    assert x in s.wq ==> x in multiset(s.wq);
    assert x in s.slowq ==> x in multiset(s.slowq);
    forall u | 0 <= u < |s.workers| && u != t ensures Holds(s.workers[u], x) == 0 {
      if Holds(s.workers[u], x) == 1 { HeldAlone(s.workers, t, u, x); }
    }
    forall l | 0 <= l < |s.loops| ensures Side(s.loops[l], x) == 0 {
      KeptUpdate(s.loops, l, s.loops[l], x);
    }
  }

  lemma OnlyAtLoop(s: State, l: nat, x: Item)
    requires Everywhere(s, x) <= 1 && l < |s.loops| && Side(s.loops[l], x) == 1
    ensures NotQueued(s, x) && NotHeld(s, x, -1) && NotKept(s, x, l)
  {
    KeptUpdate(s.loops, l, s.loops[l], x);
    assert x in s.wq ==> x in multiset(s.wq);
    assert x in s.slowq ==> x in multiset(s.slowq);
    forall u | 0 <= u < |s.workers| ensures Holds(s.workers[u], x) == 0 {
      HeldUpdate(s.workers, u, Left, x);
    }
    forall m | 0 <= m < |s.loops| && m != l ensures Side(s.loops[m], x) == 0 {
      if Side(s.loops[m], x) > 0 { KeptAlone(s.loops, l, m, x); }
    }
  }

  lemma Nowhere(s: State, x: Item)
    requires Everywhere(s, x) == 0
    ensures NotQueued(s, x) && NotHeld(s, x, -1) && NotKept(s, x, -1)
  {
    assert x in s.wq ==> x in multiset(s.wq);
    assert x in s.slowq ==> x in multiset(s.slowq);
    forall u | 0 <= u < |s.workers| ensures Holds(s.workers[u], x) == 0 {
      HeldUpdate(s.workers, u, Left, x);
    }
    forall l | 0 <= l < |s.loops| ensures Side(s.loops[l], x) == 0 {
      KeptUpdate(s.loops, l, s.loops[l], x);
    }
  }

  /** Changing the record of one request does not disturb the others. */
  predicate SameBut(s: State, s': State, x: Item)
  {
    && Known(s, x)
    && |s'.reqs| == |s.reqs| && |s'.loops| == |s.loops|
    && (forall id :: 0 <= id < |s.reqs| && id != x.id ==> s'.reqs[id] == s.reqs[id])
    && s'.reqs[x.id].loop == s.reqs[x.id].loop && s'.reqs[x.id].slow == s.reqs[x.id].slow
  }

  lemma WorkerKept(s: State, s': State, x: Item, w: Worker)
    requires SameBut(s, s', x) && WorkerOk(s, w) && Holds(w, x) == 0
    ensures WorkerOk(s', w)
  {
  }

  /** What is queued elsewhere is as fresh as it was. */
  lemma QueuesKept(s: State, s': State, x: Item)
    requires PlacesOk(s) && SameBut(s, s', x) && NotQueued(s', x)
    requires (forall y :: y in s'.wq ==> y in s.wq) && (forall y :: y in s'.slowq ==> y in s.slowq)
    ensures forall y :: y in s'.wq && y.Job? ==> Fresh(s', y, false)
    ensures forall y :: y in s'.slowq ==> Fresh(s', y, true)
  {
    forall y | y in s'.wq && y.Job? ensures Fresh(s', y, false) {
      assert Fresh(s, y, false) && y != x;
    }
    forall y | y in s'.slowq ensures Fresh(s', y, true) {
      assert Fresh(s, y, true) && y != x;
    }
  }

  lemma WorkPlaces(s: State, t: nat)
    requires PlacesOk(s) && Enabled(s, Work(t)) && Everywhere(s, s.workers[t].item) <= 1 &&
             Pending(s, s.workers[t].item)
    ensures PlacesOk(Apply(s, Work(t)))
  {
    var s' := Apply(s, Work(t));
    var x := s.workers[t].item;
    OnlyAtWorker(s, t, x);
    assert SameBut(s, s', x) && WorkerOk(s, s.workers[t]);
    forall l | 0 <= l < |s'.loops| ensures SideOk(s', l) {
      assert SideOk(s, l);
      InSide(s.loops[l], x);
    }
    forall u | 0 <= u < |s'.workers| ensures WorkerOk(s', s'.workers[u]) {
      assert WorkerOk(s, s.workers[u]);
    }
  }

  lemma FinishPlaces(s: State, t: nat)
    requires PlacesOk(s) && Enabled(s, Finish(t)) && Everywhere(s, s.workers[t].item) <= 1
    ensures PlacesOk(Apply(s, Finish(t)))
  {
    var s' := Apply(s, Finish(t));
    var x := s.workers[t].item;
    OnlyAtWorker(s, t, x);
    assert SameBut(s, s', x) && WorkerOk(s, s.workers[t]);
    forall l | 0 <= l < |s'.loops| ensures SideOk(s', l) { FinishSide(s, t, l); }
    forall u | 0 <= u < |s'.workers| ensures WorkerOk(s', s'.workers[u]) {
      assert WorkerOk(s, s.workers[u]);
    }
  }

  lemma FinishSide(s: State, t: nat, l: nat)
    requires PlacesOk(s) && Enabled(s, Finish(t)) && Everywhere(s, s.workers[t].item) <= 1 && l < |s.loops|
    ensures SideOk(Apply(s, Finish(t)), l)
  {
    var x := s.workers[t].item;
    OnlyAtWorker(s, t, x);
    assert SideOk(s, l) && WorkerOk(s, s.workers[t]);
    InSide(s.loops[l], x);
  }

  lemma CancelAlone(s: State, x: Item)
    requires Known(s, x) && Everywhere(Unlink(s, x), x) <= 1
    ensures var s' := Unlink(s, x);
            var side := s'.loops[s.reqs[x.id].loop];
            && NotQueued(s', x) && NotHeld(s', x, -1) && NotKept(s', x, s.reqs[x.id].loop)
            && x !in side.done && x !in side.batch
  {
    var s' := Unlink(s, x);
    var l := s.reqs[x.id].loop;
    KeptUpdate(s'.loops, l, s'.loops[l], x);
    assert Count(s'.loops[l].handoff, x) == 1;
    OnlyAtLoop(s', l, x);
    assert x !in multiset(s'.loops[l].done) && x !in multiset(s'.loops[l].batch);
  }

  lemma CancelSide(s: State, x: Item, m: nat)
    requires PlacesOk(s) && Known(s, x) && s.reqs[x.id].runs == 0 && Everywhere(Unlink(s, x), x) <= 1 && m < |s.loops|
    ensures SideOk(Unlink(s, x), m)
  {
    var s' := Unlink(s, x);
    CancelAlone(s, x);
    assert SideOk(s, m) && SameBut(s, s', x);
    if m == s.reqs[x.id].loop {
      forall y | y in s'.loops[m].done || y in s'.loops[m].batch ensures Settled(s', y, m) {
        assert y != x && Settled(s, y, m);
      }
    } else {
      SideKept(s, s', x, m);
    }
  }

  lemma CancelSides(s: State, x: Item)
    requires PlacesOk(s) && Known(s, x) && s.reqs[x.id].runs == 0 && Everywhere(Unlink(s, x), x) <= 1
    ensures forall m :: 0 <= m < |s.loops| ==> SideOk(Unlink(s, x), m)
  {
    forall m | 0 <= m < |s.loops| ensures SideOk(Unlink(s, x), m) {
      CancelSide(s, x, m);
    }
  }

  lemma CancelPlaces(s: State, x: Item)
    requires PlacesOk(s) && Known(s, x) && s.reqs[x.id].runs == 0 && Everywhere(Unlink(s, x), x) <= 1
    requires s.reqs[x.id].outcomes == []
    ensures PlacesOk(Unlink(s, x))
  {
    var s' := Unlink(s, x);
    CancelAlone(s, x);
    CancelSides(s, x);
    assert SameBut(s, s', x) && s'.workers == s.workers;
    QueuesKept(s, s', x);
    forall u | 0 <= u < |s'.workers| ensures WorkerOk(s', s'.workers[u]) {
      assert WorkerOk(s, s.workers[u]) && Holds(s'.workers[u], x) == 0;
      WorkerKept(s, s', x, s.workers[u]);
    }
    forall id | 0 <= id < |s'.reqs| ensures OutcomeOk(s'.reqs[id]) && s'.reqs[id].loop < |s'.loops| {
      assert OutcomeOk(s.reqs[id]) && s.reqs[id].loop < |s.loops|;
    }
  }

  /** Whatever queue a cancellable request is in, its work function has not run. */
  lemma CancelledNotRun(s: State, x: Item)
    requires PlacesOk(s) && Enabled(s, CancelTake(x)) && Cancellable(s, x)
    ensures s.reqs[x.id].runs == 0
  {
    assert SideOk(s, s.reqs[x.id].loop);
  }

  /** A loop's side is still right when the record of a request that is not there changes. */
  lemma SideKept(s: State, s': State, x: Item, m: nat)
    requires SameBut(s, s', x) && m < |s.loops| && SideOk(s, m) && Side(s'.loops[m], x) == 0
    requires forall y :: y in s'.loops[m].done || y in s'.loops[m].batch ==>
               y in s.loops[m].done || y in s.loops[m].batch
    requires s'.loops[m].handoff == s.loops[m].handoff
    ensures SideOk(s', m)
  {
    InSide(s'.loops[m], x);
    forall y | y in s'.loops[m].done || y in s'.loops[m].batch ensures Settled(s', y, m) {
      assert y != x && Settled(s, y, m);
    }
    forall y | y in s'.loops[m].handoff ensures Settled(s', y, m) && s'.reqs[y.id].work == Cancelled {
      assert y != x && Settled(s, y, m);
    }
  }

  lemma DeliverPlaces(s: State, l: nat)
    requires PlacesOk(s) && Enabled(s, Deliver(l)) && Everywhere(Apply(s, Deliver(l)), s.loops[l].batch[0]) == 0
    requires Pending(s, s.loops[l].batch[0])
    ensures PlacesOk(Apply(s, Deliver(l)))
  {
    var s' := Apply(s, Deliver(l));
    var x := s.loops[l].batch[0];
    Nowhere(s', x);
    assert SideOk(s, l) && Settled(s, x, l);
    assert SameBut(s, s', x) && s'.workers == s.workers;
    QueuesKept(s, s', x);
    Split(s.loops[l].batch);
    forall m | 0 <= m < |s'.loops| ensures SideOk(s', m) {
      assert SideOk(s, m) && Side(s'.loops[m], x) == 0;
      SideKept(s, s', x, m);
    }
    forall u | 0 <= u < |s'.workers| ensures WorkerOk(s', s'.workers[u]) {
      assert WorkerOk(s, s.workers[u]) && Holds(s'.workers[u], x) == 0;
      WorkerKept(s, s', x, s.workers[u]);
    }
  }

  /** Requests are only added and nobody's record changes. */
  predicate Grows(s: State, s': State)
  {
    |s'.reqs| >= |s.reqs| && s'.reqs[..|s.reqs|] == s.reqs && |s'.loops| == |s.loops|
  }

  lemma GrowsOk(s: State, s': State)
    requires Grows(s, s')
    ensures forall id :: 0 <= id < |s.reqs| ==> s'.reqs[id] == s.reqs[id]
    ensures forall x, slow :: Fresh(s, x, slow) ==> Fresh(s', x, slow)
    ensures forall w :: WorkerOk(s, w) ==> WorkerOk(s', w)
    ensures forall l :: 0 <= l < |s.loops| && SideOk(s, l) && s'.loops[l] == s.loops[l] ==> SideOk(s', l)
  {
    assert forall id :: 0 <= id < |s.reqs| ==> s'.reqs[..|s.reqs|][id] == s.reqs[id];
  }

  lemma SidePlaces(s: State, a: Action)
    requires PlacesOk(s) && Enabled(s, a) && (a.CancelPut? || a.Move?)
    ensures PlacesOk(Apply(s, a))
  {
    GrowsOk(s, Apply(s, a));
    assert SideOk(s, a.loop);
    assert SideOk(Apply(s, a), a.loop);
  }

  lemma TopMembers(s: State, t: nat, wake: nat)
    requires t < |s.workers|
    requires Count(s.wq, SlowMsg) <= 1
    ensures var s' := Top(s, t, wake);
            && s'.reqs == s.reqs && s'.loops == s.loops
            && (forall x :: x in s'.wq ==> x in s.wq)
            && (forall x :: x in s'.slowq ==> x in s.slowq)
    ensures TakesFrom(s, TopWorker(s, t))
  {
    if s.wq != [] {
      assert forall x :: x in s.wq[1..] ==> x in s.wq;
      TopTakes(s, t);
    }
  }

  predicate TakesFrom(s: State, w: Worker) {
    match w
    case Busy(x, slow) => if slow then x in s.slowq else x in s.wq && x != SlowMsg && x != ExitMsg
    case _ => true
  }

  /** The entry that a worker takes is the first, or the second behind the one message. */
  lemma TopTakes(s: State, t: nat)
    requires t < |s.workers| && s.wq != [] && Count(s.wq, SlowMsg) <= 1
    ensures TakesFrom(s, TopWorker(s, t))
  {
    if s.wq[0] == SlowMsg && |s.wq| > 1 {
      OnlyMessage(s.wq);
      assert s.wq[1..][0] == s.wq[1] && s.wq[1] in s.wq[1..];
    }
  }

  lemma SectionPlaces(s: State, t: nat, wake: nat)
    requires PlacesOk(s) && Enabled(s, Section(t, wake)) && Count(s.wq, SlowMsg) <= 1
    ensures PlacesOk(Apply(s, Section(t, wake)))
  {
    var s1 := Reenter(s, t);
    var s' := Apply(s, Section(t, wake));
    TopShape(s1, t, wake);
    TopMembers(s1, t, wake);
    GrowsOk(s, s');
    SectionWorkers(s, t, wake);
  }

  lemma SectionWorkers(s: State, t: nat, wake: nat)
    requires PlacesOk(s) && Enabled(s, Section(t, wake)) && Count(s.wq, SlowMsg) <= 1
    ensures var s' := Apply(s, Section(t, wake));
            forall u :: 0 <= u < |s'.workers| ==> WorkerOk(s', s'.workers[u])
  {
    var s1 := Reenter(s, t);
    var s' := Apply(s, Section(t, wake));
    TopShape(s1, t, wake);
    TopMembers(s1, t, wake);
    GrowsOk(s, s');
    forall u | 0 <= u < |s'.workers| ensures WorkerOk(s', s'.workers[u]) {
      if u == t {
        assert WorkerOk(s, TopWorker(s1, t));
      } else {
        assert WorkerOk(s, s.workers[u]);
      }
    }
  }

  lemma PostPlaces(s: State, a: Action)
    requires PlacesOk(s) && Enabled(s, a) && (a.Submit? || a.Shutdown?)
    ensures PlacesOk(Apply(s, a))
  {
    GrowsOk(s, Apply(s, a));
  }

  lemma PlacesStep(s: State, a: Action)
    requires Core(s) && Enabled(s, a)
    ensures PlacesOk(Apply(s, a))
  {
    match a {
      case Submit(_, _, _) => PostPlaces(s, a);
      case Shutdown(_) => PostPlaces(s, a);
      case Section(t, wake) => SectionPlaces(s, t, wake);
      case Spurious(t) => GrowsOk(s, Apply(s, a));
      case Work(t) => HeldUpdate(s.workers, t, Left, s.workers[t].item); WorkPlaces(s, t);
      case Finish(t) => FinishPlaces(s, t);
      case CancelTake(x) =>
        if Cancellable(s, x) { CancelConserved(s, x, x); CancelledNotRun(s, x); CancelPlaces(s, x); }
      case CancelPut(_) => SidePlaces(s, a);
      case Move(_) => SidePlaces(s, a);
      case Deliver(l) => DeliverConserved(s, l, s.loops[l].batch[0]); DeliverPlaces(s, l);
    }
  }

  // ---------- the slow lane ----------

  lemma DropOneIncreasing(a: seq<Item>, y: Item, q: seq<Item>)
    requires Increasing(a + [y] + q)
    ensures Increasing(a + q)
  {
    var s, b := a + [y] + q, a + q;
    forall i | 0 <= i < |b| ensures b[i].Job? {
      assert b[i] == s[if i < |a| then i else i + 1];
    }
    forall i, j | 0 <= i < j < |b| ensures b[i].id < b[j].id {
      assert b[i] == s[if i < |a| then i else i + 1] && b[j] == s[if j < |a| then j else j + 1];
    }
  }

  lemma {:induction false} DropIncreasing(a: seq<Item>, q: seq<Item>, x: Item)
    requires Increasing(a + q)
    ensures Increasing(a + Drop(q, x))
    decreases |q|
  {
    if q != [] {
      assert q == [q[0]] + q[1..];
      Assoc(a, [q[0]], q[1..]);
      if q[0] == x {
        DropOneIncreasing(a, q[0], q[1..]);
      } else {
        DropIncreasing(a + [q[0]], q[1..], x);
        assert Drop(q, x) == [q[0]] + Drop(q[1..], x);
        Assoc(a, [q[0]], Drop(q[1..], x));
      }
    }
  }

  lemma SubmitLane(s: State, l: nat, slow: bool, wake: nat)
    requires Core(s) && Enabled(s, Submit(l, slow, wake))
    ensures LaneOk(Apply(s, Submit(l, slow, wake)))
  {
    var s' := Apply(s, Submit(l, slow, wake));
    if slow {
      var q := s.started + s.slowq;
      assert s'.started + s'.slowq == q + [Job(|s.reqs|)];
      forall i | 0 <= i < |q| ensures q[i].id < |s.reqs| {
        if i >= |s.started| { assert q[i] in s.slowq; }
      }
    }
  }

  /** Slow requests leave the lane at its head, and `started` records them. */
  lemma TopStarted(s: State, t: nat, wake: nat)
    requires t < |s.workers|
    ensures var s' := Top(s, t, wake);
            s'.started + s'.slowq == s.started + s.slowq && |s'.started| >= |s.started|
    ensures var s' := Top(s, t, wake);
            forall i :: 0 <= i < |s'.started| ==> s'.started[i] in s.started || s'.started[i] in s.slowq
  {
    if s.wq == [] || s.wq[0] != SlowMsg || s.running >= Threshold(|s.workers|) || s.slowq == [] {
    } else {
      assert s.slowq == [s.slowq[0]] + s.slowq[1..];
    }
  }

  lemma TopMessage(s: State, t: nat, wake: nat)
    requires t < |s.workers| && (s.slowq != [] ==> SlowMsg in s.wq)
    ensures Top(s, t, wake).slowq != [] ==> SlowMsg in Top(s, t, wake).wq
  {
    if s.wq != [] {
      assert s.wq == [s.wq[0]] + s.wq[1..];
      var q := s.wq[1..] + [SlowMsg];
      assert q[|q| - 1] == SlowMsg;
      if |q| > 1 { assert q[1..][|q| - 2] == SlowMsg; }
    }
  }

  lemma SectionLane(s: State, t: nat, wake: nat)
    requires LaneOk(s) && Enabled(s, Section(t, wake)) && (forall x :: x in s.slowq ==> Fresh(s, x, true))
    ensures LaneOk(Apply(s, Section(t, wake)))
  {
    var s1 := Reenter(s, t);
    TopStarted(s1, t, wake);
    TopMessage(s1, t, wake);
    TopKeeps(s1, t, wake);
  }

  lemma LaneStep(s: State, a: Action)
    requires Core(s) && Enabled(s, a)
    ensures LaneOk(Apply(s, a))
  {
    match a {
      case Submit(l, slow, wake) => SubmitLane(s, l, slow, wake);
      case Section(t, wake) => SectionLane(s, t, wake);
      case CancelTake(x) =>
        DropIncreasing(s.started, s.slowq, x);
        DropCount(s.wq, x, SlowMsg);
        assert SlowMsg in s.wq <==> SlowMsg in multiset(s.wq);
        assert SlowMsg in Drop(s.wq, x) <==> SlowMsg in multiset(Drop(s.wq, x));
      case _ =>
    }
  }

  lemma CoreStep(s: State, a: Action)
    requires Core(s) && Enabled(s, a)
    ensures Core(Apply(s, a))
  {
    CountersStep(s, a);
    ConservedStep(s, a);
    PlacesStep(s, a);
    LaneStep(s, a);
  }

  // ---------- no lost wake-up ----------

  function SleepWeight(w: Worker): nat { if w.Asleep? then 1 else 0 }

  /** Awake with nothing in hand: this worker will look at the queue. */
  function FreeWeight(w: Worker): nat { if w.Back? || w.Woken? then 1 else 0 }

  function AwakeWeight(w: Worker): nat { if w.Asleep? || w.Left? then 0 else 1 }

  function LeftWeight(w: Worker): nat { if w.Left? then 1 else 0 }

  function GoneWeight(w: Worker): nat { if w.Asleep? || w.Left? then 1 else 0 }

  function ZeroWeight(w: Worker): nat { 0 }

  function OneWeight(w: Worker): nat { 1 }

  /** Has a slow request in hand that is not handed over yet. */
  function SlowInHand(w: Worker): nat { if (w.Busy? || w.Ran?) && w.slow then 1 else 0 }

  lemma {:induction false} TallyBound(ws: seq<Worker>, f: Worker -> nat, g: Worker -> nat, h: Worker -> nat)
    requires forall w :: f(w) <= g(w) + h(w)
    ensures Tally(ws, f) <= Tally(ws, g) + Tally(ws, h)
  {
    if ws != [] { TallyBound(ws[1..], f, g, h); }
  }

  lemma {:induction false} NoSleepers(ws: seq<Worker>)
    ensures Tally(ws, SleepWeight) == 0 <==> forall i :: 0 <= i < |ws| ==> ws[i] != Asleep
  {
    if ws != [] { NoSleepers(ws[1..]); }
  }

  /** Entries of `wq` a worker could start now; the slow message does not count while slow requests
      in hand are at the threshold. */
  function Runnable(s: State): int
  {
    |s.wq| - if SlowMsg in s.wq && Tally(s.workers, SlowInHand) >= Threshold(|s.workers|) then 1 else 0
  }

  /** While anyone sleeps unsignalled, every runnable entry has its own awake worker on the way. */
  ghost predicate WakeOk(s: State)
  {
    && (Tally(s.workers, SleepWeight) > 0 && ExitMsg !in s.wq ==> Runnable(s) <= Tally(s.workers, FreeWeight))
    && (Tally(s.workers, SleepWeight) > 0 && ExitMsg in s.wq ==> Tally(s.workers, AwakeWeight) > 0)
    && (Tally(s.workers, LeftWeight) > 0 ==> ExitMsg in s.wq)
  }

  lemma SleepersIdle(s: State)
    requires CountersOk(s) && Tally(s.workers, SleepWeight) > 0
    ensures s.idle > 0
  {
    TallyBound(s.workers, SleepWeight, IdleWeight, ZeroWeight);
    TallyZero(s.workers);
  }

  lemma {:induction false} TallyZero(ws: seq<Worker>)
    ensures Tally(ws, ZeroWeight) == 0
  {
    if ws != [] { TallyZero(ws[1..]); }
  }

  lemma SignalWake(ws: seq<Worker>, sig: bool, wake: nat)
    requires CanWake(ws, wake)
    ensures var ws' := if sig then Signal(ws, wake) else ws;
            && Tally(ws', SleepWeight) == Tally(ws, SleepWeight) - (if Wakes(ws, sig, wake) then 1 else 0)
            && Tally(ws', FreeWeight) == Tally(ws, FreeWeight) + (if Wakes(ws, sig, wake) then 1 else 0)
            && Tally(ws', AwakeWeight) == Tally(ws, AwakeWeight) + (if Wakes(ws, sig, wake) then 1 else 0)
            && Tally(ws', LeftWeight) == Tally(ws, LeftWeight)
            && Tally(ws', SlowInHand) == Tally(ws, SlowInHand)
    ensures sig && Tally(ws, SleepWeight) > 0 ==> Wakes(ws, sig, wake)
  {
    SignalTally(ws, sig, wake, SleepWeight);
    SignalTally(ws, sig, wake, FreeWeight);
    SignalTally(ws, sig, wake, AwakeWeight);
    SignalTally(ws, sig, wake, LeftWeight);
    SignalTally(ws, sig, wake, SlowInHand);
    NoSleepers(ws);
  }

  lemma PostWake(s: State, item: Item, slow: bool, wake: nat)
    requires CountersOk(s) && WakeOk(s) && CanWake(s.workers, wake)
    requires item != SlowMsg
    ensures WakeOk(Posted(s, item, slow, wake))
  {
    if Tally(s.workers, SleepWeight) > 0 { SleepersIdle(s); }
    SignalWake(s.workers, s.idle > 0, wake);
  }

  lemma SetWake(s: State, t: nat, w: Worker)
    requires t < |s.workers|
    ensures var ws := s.workers[t := w];
            && Tally(ws, SleepWeight) == Tally(s.workers, SleepWeight) + SleepWeight(w) - SleepWeight(s.workers[t])
            && Tally(ws, FreeWeight) == Tally(s.workers, FreeWeight) + FreeWeight(w) - FreeWeight(s.workers[t])
            && Tally(ws, AwakeWeight) == Tally(s.workers, AwakeWeight) + AwakeWeight(w) - AwakeWeight(s.workers[t])
            && Tally(ws, LeftWeight) == Tally(s.workers, LeftWeight) + LeftWeight(w) - LeftWeight(s.workers[t])
            && Tally(ws, SlowInHand) == Tally(s.workers, SlowInHand) + SlowInHand(w) - SlowInHand(s.workers[t])
  {
    TallyUpdate(s.workers, t, w, SleepWeight);
    TallyUpdate(s.workers, t, w, FreeWeight);
    TallyUpdate(s.workers, t, w, AwakeWeight);
    TallyUpdate(s.workers, t, w, LeftWeight);
    TallyUpdate(s.workers, t, w, SlowInHand);
  }

  lemma TakePlainWake(s: State, t: nat, wake: nat)
    requires t < |s.workers| && s.workers[t] == Back(false) && CanWake(s.workers, wake)
    requires WakeOk(s) && (s.wq != [] ==> s.wq[0] != SlowMsg)
    ensures WakeOk(TakePlain(s, t, wake))
  {
    if s.wq == [] {
      SetWake(s, t, Asleep);
    } else if s.wq[0] == ExitMsg {
      SignalWake(s.workers, true, wake);
      SetWake(s.(workers := Signal(s.workers, wake)), t, Left);
    } else {
      assert s.wq == [s.wq[0]] + s.wq[1..];
      SetWake(s, t, Busy(s.wq[0], false));
    }
  }

  /** Requests counted in `slow_io_work_running` are in hand, or their worker is on its way back. */
  lemma RunningInHand(s: State)
    requires CountersOk(s)
    ensures s.running <= Tally(s.workers, SlowInHand) + Tally(s.workers, FreeWeight)
    ensures Tally(s.workers, SlowInHand) <= s.running
  {
    TallyBound(s.workers, SlowWeight, SlowInHand, FreeWeight);
    TallyBound(s.workers, SlowInHand, SlowWeight, ZeroWeight);
    TallyZero(s.workers);
  }

  lemma SleepOnSlow(s: State, t: nat)
    requires CountersOk(s) && t < |s.workers| && s.workers[t] == Back(false) && WakeOk(s)
    requires s.wq == [SlowMsg] && s.running >= Threshold(|s.workers|)
    ensures WakeOk(Asleepen(s, t))
  {
    var s' := Asleepen(s, t);
    SetWake(s, t, Asleep);
    TallyUpdate(s.workers, t, Asleep, SlowWeight);
    TallyUpdate(s.workers, t, Asleep, IdleWeight);
    RunningInHand(s');
  }

  lemma TakeSlowWake(s: State, t: nat, wake: nat)
    requires CountersOk(s) && t < |s.workers| && s.workers[t] == Back(false) && WakeOk(s) && CanWake(s.workers, wake)
    requires s.wq != [] && s.wq[0] == SlowMsg && s.running < Threshold(|s.workers|) && s.slowq != []
    requires SlowMsg !in s.wq[1..]
    ensures WakeOk(Top(s, t, wake))
  {
    var more := |s.slowq| > 1;
    var ws := if more then SignalIf(s.idle, s.workers, wake) else s.workers;
    if Tally(s.workers, SleepWeight) > 0 { SleepersIdle(s); }
    SignalWake(s.workers, more && s.idle > 0, wake);
    SetWake(s.(workers := ws), t, Busy(s.slowq[0], true));
    RunningInHand(s);
    assert s.wq == [SlowMsg] + s.wq[1..];
  }

  lemma TopWake(s: State, t: nat, wake: nat)
    requires CountersOk(s) && t < |s.workers| && s.workers[t] == Back(false) && WakeOk(s) && CanWake(s.workers, wake)
    requires Count(s.wq, SlowMsg) <= 1
    ensures WakeOk(Top(s, t, wake))
  {
    if s.wq == [] || s.wq[0] != SlowMsg {
      TakePlainWake(s, t, wake);
    } else {
      Split(s.wq);
      assert SlowMsg !in multiset(s.wq[1..]);
      if s.running >= Threshold(|s.workers|) {
        if |s.wq| == 1 {
          SleepOnSlow(s, t);
        } else {
          assert s.wq == [SlowMsg] + s.wq[1..];
          TakePlainWake(s.(wq := s.wq[1..] + [SlowMsg]), t, wake);
        }
      } else if s.slowq == [] {
        assert s.wq == [SlowMsg] + s.wq[1..];
        RunningInHand(s);
        TakePlainWake(s.(wq := s.wq[1..]), t, wake);
      } else {
        TakeSlowWake(s, t, wake);
      }
    }
  }

  lemma SectionWake(s: State, t: nat, wake: nat)
    requires CountersOk(s) && WakeOk(s) && Enabled(s, Section(t, wake)) && Count(s.wq, SlowMsg) <= 1
    ensures WakeOk(Apply(s, Section(t, wake)))
  {
    var s1 := Reenter(s, t);
    SetWake(s, t, Back(false));
    TallyUpdate(s.workers, t, Back(false), IdleWeight);
    TallyUpdate(s.workers, t, Back(false), SlowWeight);
    ReenterCanWake(s, t, wake);
    TopWake(s1, t, wake);
  }

  lemma ReenterCanWake(s: State, t: nat, wake: nat)
    requires t < |s.workers| && s.workers[t] != Asleep && CanWake(s.workers, wake)
    ensures CanWake(Reenter(s, t).workers, wake)
  {
    var ws := Reenter(s, t).workers;
    forall i | 0 <= i < |ws| && ws[i] == Asleep ensures s.workers[i] == Asleep {}
  }

  lemma FinishWake(s: State, t: nat)
    requires CountersOk(s) && WakeOk(s) && Enabled(s, Finish(t))
    ensures WakeOk(Apply(s, Finish(t)))
  {
    SetWake(s, t, Back(s.workers[t].slow));
  }

  lemma WakeStep(s: State, a: Action)
    requires Core(s) && WakeOk(s) && Enabled(s, a)
    ensures WakeOk(Apply(s, a))
  {
    match a {
      case Submit(_, _, _) => PostsWake(s, a);
      case Shutdown(_) => PostsWake(s, a);
      case Section(t, wake) => SectionWake(s, t, wake);
      case Spurious(t) => SetWake(s, t, Woken);
      case Work(t) => SetWake(s, t, Ran(s.workers[t].item, s.workers[t].slow));
      case Finish(t) => FinishWake(s, t);
      case CancelTake(x) => CancelWake(s, x);
      case _ => SideWake(s, a);
    }
  }

  lemma PostsWake(s: State, a: Action)
    requires Core(s) && WakeOk(s) && Enabled(s, a) && (a.Submit? || a.Shutdown?)
    ensures WakeOk(Apply(s, a))
  {
    match a {
      case Submit(l, slow, wake) =>
        PostWake(s.(reqs := s.reqs + [Request(l, slow, Live, 0, [])]), Job(|s.reqs|), slow, wake);
      case Shutdown(wake) => PostWake(s, ExitMsg, false, wake);
    }
  }

  lemma SideWake(s: State, a: Action)
    requires WakeOk(s) && Enabled(s, a) && (a.CancelPut? || a.Move? || a.Deliver?)
    ensures WakeOk(Apply(s, a))
  {
  }

  lemma CancelWake(s: State, x: Item)
    requires WakeOk(s) && Known(s, x)
    ensures WakeOk(Unlink(s, x))
  {
    DropCount(s.wq, x, SlowMsg);
    DropCount(s.wq, x, ExitMsg);
    assert forall m :: m in s.wq <==> m in multiset(s.wq);
    assert forall m :: m in Drop(s.wq, x) <==> m in multiset(Drop(s.wq, x));
  }

  // ---------- shutdown ----------

  /** Entries a worker meets before `exit_message`. */
  function Ahead(q: seq<Item>): nat
  {
    if q == [] || q[0] == ExitMsg then 0 else 1 + Ahead(q[1..])
  }

  function ExitWeight(w: Worker): nat
  {
    match w
    case Left => 0
    case Back(_) => 1
    case Woken => 1
    case Asleep => 2
    case Ran(_, _) => 2
    case Busy(_, _) => 3
  }

  function Remaining(s: State): nat
  {
    3 * Ahead(s.wq) + Tally(s.workers, ExitWeight)
  }

  lemma {:induction false} AheadAppend(q: seq<Item>, r: seq<Item>)
    requires ExitMsg in q
    ensures Ahead(q + r) == Ahead(q)
  {
    if q[0] != ExitMsg {
      assert (q + r)[1..] == q[1..] + r;
      assert q == [q[0]] + q[1..];
      AheadAppend(q[1..], r);
    }
  }

  lemma {:induction false} AheadDrop(q: seq<Item>, x: Item)
    requires x != ExitMsg
    ensures Ahead(Drop(q, x)) <= Ahead(q)
  {
    if q != [] && q[0] != x { AheadDrop(q[1..], x); }
  }

  lemma TakePlainExit(s: State, t: nat, wake: nat)
    requires t < |s.workers| && s.workers[t] == Back(false) && ExitMsg in s.wq
    ensures var s' := TakePlain(s, t, wake);
            ExitMsg in s'.wq && Remaining(s') < Remaining(s) && s'.workers[t] != Asleep
  {
    if s.wq[0] == ExitMsg {
      MovedTally(s.workers, t, Left, true, wake, ExitWeight);
    } else {
      assert s.wq == [s.wq[0]] + s.wq[1..];
      TallyUpdate(s.workers, t, Busy(s.wq[0], false), ExitWeight);
    }
  }

  lemma TopExit(s: State, t: nat, wake: nat)
    requires t < |s.workers| && s.workers[t] == Back(false) && ExitMsg in s.wq
    ensures var s' := Top(s, t, wake);
            ExitMsg in s'.wq && Remaining(s') < Remaining(s) && s'.workers[t] != Asleep
  {
    if s.wq[0] != SlowMsg {
      TakePlainExit(s, t, wake);
    } else {
      assert s.wq == [s.wq[0]] + s.wq[1..];
      AheadAppend(s.wq[1..], [SlowMsg]);
      if s.running >= Threshold(|s.workers|) {
        TakePlainExit(s.(wq := s.wq[1..] + [SlowMsg]), t, wake);
      } else if s.slowq == [] {
        TakePlainExit(s.(wq := s.wq[1..]), t, wake);
      } else {
        TopShape(s, t, wake);
        MovedTally(s.workers, t, Busy(s.slowq[0], true), TopSignals(s, t), wake, ExitWeight);
      }
    }
  }

  lemma SectionExit(s: State, t: nat, wake: nat)
    requires ExitMsg in s.wq && t < |s.workers| && (s.workers[t].Back? || s.workers[t].Woken?)
    ensures var s' := Top(Reenter(s, t), t, wake);
            ExitMsg in s'.wq && Remaining(s') < Remaining(s) && s'.workers[t] != Asleep
  {
    TallyUpdate(s.workers, t, Back(false), ExitWeight);
    TopExit(Reenter(s, t), t, wake);
  }

  predicate IsWorkerStep(a: Action)
  {
    a.Section? || a.Spurious? || a.Work? || a.Finish?
  }

  lemma NoNewSleeper(s: State, a: Action)
    requires ExitMsg in s.wq && Enabled(s, a)
    ensures |Apply(s, a).workers| == |s.workers|
    ensures forall t :: 0 <= t < |s.workers| && Apply(s, a).workers[t] == Asleep ==> s.workers[t] == Asleep
  {
    if a.Section? {
      SectionExit(s, a.t, a.wake);
      TopShape(Reenter(s, a.t), a.t, a.wake);
    }
  }

  lemma SubmitExit(s: State, a: Action)
    requires ExitMsg in s.wq && Enabled(s, a) && a.Submit?
    ensures ExitMsg in Apply(s, a).wq && Remaining(Apply(s, a)) <= Remaining(s)
  {
    AheadAppend(s.wq, [Job(|s.reqs|)]);
    AheadAppend(s.wq, [SlowMsg]);
    SignalTally(s.workers, s.idle > 0, a.wake, ExitWeight);
  }

  /** Once `exit_message` is queued it stays, no worker goes to sleep again, every worker step uses up
      the measure and no other step adds to it. */
  lemma ShutdownStep(s: State, a: Action)
    requires ExitMsg in s.wq && Enabled(s, a)
    ensures ExitMsg in Apply(s, a).wq
    ensures if IsWorkerStep(a) then Remaining(Apply(s, a)) < Remaining(s) else Remaining(Apply(s, a)) <= Remaining(s)
    ensures |Apply(s, a).workers| == |s.workers|
    ensures forall t :: 0 <= t < |s.workers| && Apply(s, a).workers[t] == Asleep ==> s.workers[t] == Asleep
  {
    NoNewSleeper(s, a);
    match a {
      case Section(t, wake) => SectionExit(s, t, wake);
      case Spurious(t) => TallyUpdate(s.workers, t, Woken, ExitWeight);
      case Work(t) => TallyUpdate(s.workers, t, Ran(s.workers[t].item, s.workers[t].slow), ExitWeight);
      case Finish(t) => TallyUpdate(s.workers, t, Back(s.workers[t].slow), ExitWeight);
      case Submit(_, _, _) => SubmitExit(s, a);
      case CancelTake(x) =>
        AheadDrop(s.wq, x);
        DropCount(s.wq, x, ExitMsg);
        assert ExitMsg in multiset(Drop(s.wq, x)) <==> ExitMsg in Drop(s.wq, x);
      case _ =>
    }
  }

  // ---------- main results, over all runs ----------

  lemma InitOk(s: State)
    requires Init(s)
    ensures Core(s) && WakeOk(s)
  {
    InitTally(s.workers);
    forall x: Item ensures Everywhere(s, x) == 0 {
      HeldNone(s.workers, x);
      KeptNone(s.loops, x);
    }
  }

  lemma {:induction false} InitTally(ws: seq<Worker>)
    requires forall t :: 0 <= t < |ws| ==> ws[t] == Back(false)
    ensures Tally(ws, IdleWeight) == 0 && Tally(ws, SlowWeight) == 0
    ensures Tally(ws, SleepWeight) == 0 && Tally(ws, LeftWeight) == 0
  {
    if ws != [] { InitTally(ws[1..]); }
  }

  lemma {:induction false} InvInRun(states: seq<State>, i: nat)
    requires Run(states) && i < |states|
    ensures Core(states[i]) && WakeOk(states[i])
  {
    if i == 0 {
      InitOk(states[0]);
    } else {
      InvInRun(states, i - 1);
      assert Next(states[i - 1], states[i]);
      var a :| Enabled(states[i - 1], a) && states[i] == Apply(states[i - 1], a);
      CoreStep(states[i - 1], a);
      WakeStep(states[i - 1], a);
    }
  }

  /** A submitted request is in exactly one place until it is delivered and nowhere afterwards; its
      done callback runs at most once, with 0 iff the work function ran, which it then did once, and
      with UV_ECANCELED iff it never ran. */
  lemma ExactOutcome(states: seq<State>, i: nat, id: nat)
    requires Run(states) && i < |states| && id < |states[i].reqs|
    ensures var r := states[i].reqs[id];
            && Everywhere(states[i], Job(id)) == (if r.outcomes == [] then 1 else 0)
            && |r.outcomes| <= 1
            && r.runs <= 1
            && (r.outcomes != [] ==>
                  (r.outcomes[0] == Ok <==> r.runs == 1) && (r.outcomes[0] == ECanceled <==> r.runs == 0))
  {
    InvInRun(states, i);
    var s := states[i];
    assert OutcomeOk(s.reqs[id]);
    if s.reqs[id].outcomes == [] {
      RunsAtMostOnce(s, id);
    }
  }

  lemma RunsAtMostOnce(s: State, id: nat)
    requires Core(s) && id < |s.reqs| && s.reqs[id].outcomes == []
    ensures s.reqs[id].runs <= 1
  {
    var x := Job(id);
    assert Everywhere(s, x) == 1;
    assert x in multiset(s.wq) <==> x in s.wq;
    assert x in multiset(s.slowq) <==> x in s.slowq;
    if x in s.wq || x in s.slowq {
      assert s.reqs[id].runs == 0;
    } else if t :| 0 <= t < |s.workers| && Holds(s.workers[t], x) == 1 {
      assert WorkerOk(s, s.workers[t]);
    } else if l :| 0 <= l < |s.loops| && Side(s.loops[l], x) > 0 {
      InSide(s.loops[l], x);
      assert SideOk(s, l);
    } else {
      HeldNone(s.workers, x);
      KeptNone(s.loops, x);
      assert false;
    }
  }

  /** The slow lane: the counter is the number of workers on slow requests, at most half the pool
      rounded up; the message is queued at most once, and is whenever slow requests wait; slow
      requests start in the order they were submitted. */
  lemma SlowLane(states: seq<State>, i: nat)
    requires Run(states) && i < |states|
    ensures var s := states[i];
            && s.running == Tally(s.workers, SlowWeight) <= Threshold(|s.workers|)
            && Count(s.wq, SlowMsg) <= 1
            && (s.slowq != [] ==> Count(s.wq, SlowMsg) == 1)
            && Increasing(s.started + s.slowq)
  {
    InvInRun(states, i);
    assert SlowMsg in states[i].wq ==> SlowMsg in multiset(states[i].wq);
    MessagesInWq(states[i], SlowMsg);
  }

  /** No lost wake-up.  While a worker sleeps unsignalled, the entries that could be started are no more
      than the awake workers with nothing in hand; and whenever anything is queued somebody is awake. */
  lemma NoLostWakeUp(states: seq<State>, i: nat)
    requires Run(states) && i < |states| && ExitMsg !in states[i].wq
    ensures var s := states[i];
            && ((exists t :: 0 <= t < |s.workers| && s.workers[t] == Asleep)
                ==> Runnable(s) <= Tally(s.workers, FreeWeight))
            && (s.wq != [] || s.slowq != [] ==> exists t :: 0 <= t < |s.workers| && AwakeWeight(s.workers[t]) == 1)
  {
    InvInRun(states, i);
    var s := states[i];
    NoSleepers(s.workers);
    if s.wq != [] {
      SomebodyAwake(s);
      var t := TallyWitness(s.workers, AwakeWeight);
    }
  }

  lemma SomebodyAwake(s: State)
    requires Core(s) && WakeOk(s) && ExitMsg !in s.wq && s.wq != []
    ensures Tally(s.workers, AwakeWeight) > 0
  {
    TallyZero(s.workers);
    TallyBound(s.workers, FreeWeight, AwakeWeight, ZeroWeight);
    TallyBound(s.workers, SlowInHand, AwakeWeight, ZeroWeight);
    if Tally(s.workers, SleepWeight) == 0 {
      TallyBound(s.workers, OneWeight, AwakeWeight, GoneWeight);
      TallyBound(s.workers, GoneWeight, SleepWeight, LeftWeight);
      TallyOnes(s.workers);
    }
  }

  lemma {:induction false} TallyOnes(ws: seq<Worker>)
    ensures Tally(ws, OneWeight) == |ws|
  {
    if ws != [] { TallyOnes(ws[1..]); }
  }

  /** An awake worker is never blocked by the model's guards: its next step is enabled. */
  lemma AwakeCanStep(s: State, t: nat)
    requires Core(s) && t < |s.workers| && AwakeWeight(s.workers[t]) == 1
    ensures exists a: Action :: IsWorkerStep(a) && !a.Spurious? && a.t == t && Enabled(s, a)
  {
    var w := s.workers[t];
    assert WorkerOk(s, w);
    if w.Busy? {
      assert Enabled(s, Work(t));
    } else if w.Ran? {
      assert Enabled(s, Finish(t));
    } else {
      var wake := PickSleeper(s.workers);
      assert Enabled(s, Section(t, wake));
    }
  }

  lemma PickSleeper(ws: seq<Worker>) returns (wake: nat)
    ensures CanWake(ws, wake)
  {
    if i :| 0 <= i < |ws| && ws[i] == Asleep { wake := i; } else { wake := 0; }
  }

  predicate AllLeft(s: State)
  {
    forall t :: 0 <= t < |s.workers| ==> s.workers[t] == Left
  }

  /** Some worker can step without being woken for nothing. */
  ghost predicate WorkerCanStep(s: State)
  {
    exists a :: IsWorkerStep(a) && !a.Spurious? && Enabled(s, a)
  }

  /** After `exit_message` is queued and until every worker has left, some worker is awake and can step:
      each leaving worker passes the signal on. */
  lemma ExitCanStep(s: State)
    requires Core(s) && WakeOk(s) && ExitMsg in s.wq
    ensures AllLeft(s) || WorkerCanStep(s)
  {
    if t :| 0 <= t < |s.workers| && s.workers[t] != Left {
      if s.workers[t] == Asleep {
        NoSleepers(s.workers);
        var u := TallyWitness(s.workers, AwakeWeight);
        AwakeCanStep(s, u);
      } else {
        AwakeCanStep(s, t);
      }
    }
  }

  lemma ShutdownNeverStuck(states: seq<State>, i: nat)
    requires Run(states) && i < |states| && ExitMsg in states[i].wq
    ensures AllLeft(states[i]) || WorkerCanStep(states[i])
  {
    InvInRun(states, i);
    ExitCanStep(states[i]);
  }

  function WorkerSteps(steps: seq<Action>): nat
  {
    if steps == [] then 0 else (if IsWorkerStep(steps[0]) then 1 else 0) + WorkerSteps(steps[1..])
  }

  /** Whatever else goes on, the workers together take at most `Remaining` steps after
      `exit_message` is queued. */
  lemma {:induction false} ShutdownBound(states: seq<State>, steps: seq<Action>)
    requires |states| == |steps| + 1
    requires forall i :: 0 <= i < |steps| ==>
               Enabled(states[i], steps[i]) && states[i + 1] == Apply(states[i], steps[i])
    requires ExitMsg in states[0].wq
    ensures WorkerSteps(steps) <= Remaining(states[0])
  {
    if steps != [] {
      ShutdownStep(states[0], steps[0]);
      assert states[1] == Apply(states[0], steps[0]);
      ShutdownBound(states[1..], steps[1..]);
    }
  }

  /** All workers leave: after `exit_message` is queued they take at most `Remaining` steps, and a run that
      none of them can go on with, but for a spurious wake-up, has them all gone. */
  lemma ShutdownEnds(states: seq<State>, steps: seq<Action>)
    requires |states| == |steps| + 1
    requires forall i :: 0 <= i < |steps| ==>
               Enabled(states[i], steps[i]) && states[i + 1] == Apply(states[i], steps[i])
    requires Core(states[0]) && WakeOk(states[0]) && ExitMsg in states[0].wq
    ensures WorkerSteps(steps) <= Remaining(states[0])
    ensures WorkerCanStep(states[|steps|]) || AllLeft(states[|steps|])
  {
    ShutdownBound(states, steps);
    KeptInSteps(states, steps);
    ExitCanStep(states[|steps|]);
  }

  /** One step after `exit_message` is queued. */
  lemma KeptStep(s: State, a: Action, s': State)
    requires Enabled(s, a) && s' == Apply(s, a) && Core(s) && WakeOk(s) && ExitMsg in s.wq
    ensures Core(s') && WakeOk(s') && ExitMsg in s'.wq
    ensures Remaining(s') + (if IsWorkerStep(a) then 1 else 0) <= Remaining(s)
  {
    CoreStep(s, a);
    WakeStep(s, a);
    ShutdownStep(s, a);
  }

  lemma {:induction false} KeptInSteps(states: seq<State>, steps: seq<Action>)
    requires |states| == |steps| + 1
    requires forall i :: 0 <= i < |steps| ==>
               Enabled(states[i], steps[i]) && states[i + 1] == Apply(states[i], steps[i])
    requires Core(states[0]) && WakeOk(states[0]) && ExitMsg in states[0].wq
    ensures Core(states[|steps|]) && WakeOk(states[|steps|]) && ExitMsg in states[|steps|].wq
  {
    if steps != [] {
      KeptStep(states[0], steps[0], states[1]);
      KeptInSteps(states[1..], steps[1..]);
    }
  }

  /** An infinite run in which the workers are scheduled: as long as one can step, one does, then or later. */
  ghost predicate WorkersFair(st: nat -> State, ac: nat -> Action)
  {
    forall i: nat :: WorkerSoon(st, ac, i)
  }

  ghost predicate WorkerSoon(st: nat -> State, ac: nat -> Action, i: nat)
  {
    WorkerCanStep(st(i)) ==> exists j: nat :: i <= j && IsWorkerStep(ac(j))
  }

  ghost predicate StepAt(st: nat -> State, ac: nat -> Action, i: nat)
  {
    Enabled(st(i), ac(i)) && st(i + 1) == Apply(st(i), ac(i))
  }

  lemma {:induction false} KeptFrom(st: nat -> State, ac: nat -> Action, i: nat, j: nat)
    requires i <= j && forall n: nat :: StepAt(st, ac, n)
    requires Core(st(i)) && WakeOk(st(i)) && ExitMsg in st(i).wq
    ensures Core(st(j)) && WakeOk(st(j)) && ExitMsg in st(j).wq && Remaining(st(j)) <= Remaining(st(i))
    decreases j
  {
    if i < j {
      KeptFrom(st, ac, i, j - 1);
      assert StepAt(st, ac, j - 1);
      KeptStep(st(j - 1), ac(j - 1), st(j));
    }
  }

  /** After a shutdown, in every such run, there comes a state in which all workers have left. */
  lemma {:induction false} EveryWorkerLeaves(st: nat -> State, ac: nat -> Action, i: nat) returns (k: nat)
    requires WorkersFair(st, ac) && forall n: nat :: StepAt(st, ac, n)
    requires Core(st(i)) && WakeOk(st(i)) && ExitMsg in st(i).wq
    ensures k >= i && AllLeft(st(k))
    decreases Remaining(st(i))
  {
    if AllLeft(st(i)) {
      k := i;
    } else {
      var j := NextWorkerStep(st, ac, i);
      k := EveryWorkerLeaves(st, ac, j);
    }
  }

  /** The state after the next step of a worker. */
  lemma NextWorkerStep(st: nat -> State, ac: nat -> Action, i: nat) returns (j: nat)
    requires WorkersFair(st, ac) && forall n: nat :: StepAt(st, ac, n)
    requires Core(st(i)) && WakeOk(st(i)) && ExitMsg in st(i).wq && !AllLeft(st(i))
    ensures i < j && Core(st(j)) && WakeOk(st(j)) && ExitMsg in st(j).wq && Remaining(st(j)) < Remaining(st(i))
  {
    ExitCanStep(st(i));
    assert WorkerSoon(st, ac, i);
    var n: nat :| i <= n && IsWorkerStep(ac(n));
    PastWorkerStep(st, ac, i, n);
    j := n + 1;
  }

  lemma PastWorkerStep(st: nat -> State, ac: nat -> Action, i: nat, n: nat)
    requires i <= n && IsWorkerStep(ac(n)) && forall m: nat :: StepAt(st, ac, m)
    requires Core(st(i)) && WakeOk(st(i)) && ExitMsg in st(i).wq
    ensures Core(st(n + 1)) && WakeOk(st(n + 1)) && ExitMsg in st(n + 1).wq
    ensures Remaining(st(n + 1)) < Remaining(st(i))
  {
    KeptFrom(st, ac, i, n);
    assert StepAt(st, ac, n);
    KeptStep(st(n), ac(n), st(n + 1));
  }

  // ---------- the sections as they are written ----------

  /** The static variables of the pool, and the code that runs with `mutex` held. */
  class ThreadPool {
    var reqs: seq<Request>
    var wq: seq<Item>
    var slowIoPendingWq: seq<Item>
    var idleThreads: int
    var slowIoWorkRunning: int
    var workers: seq<Worker>
    var loops: seq<LoopSide>
    ghost var started: seq<Item>

    ghost function Abs(): State
      reads this
    {
      State(reqs, wq, slowIoPendingWq, idleThreads, slowIoWorkRunning, workers, loops, started)
    }

    /** uv_cond_signal. */
    method CondSignal() returns (ghost wake: nat)
      modifies this`workers
      ensures CanWake(old(workers), wake) && workers == Signal(old(workers), wake)
    {
      if i :| 0 <= i < |workers| && workers[i] == Asleep {
        workers := workers[i := Woken];
        wake := i;
      } else {
        wake := |workers|;
      }
    }

    method SlowWorkThreadThreshold() returns (n: nat)
      ensures n == Threshold(|workers|)
    {
      n := (|workers| + 1) / 2;
    }

    method Post(q: Item, slow: bool) returns (ghost wake: nat)
      requires q != SlowMsg
      modifies this
      ensures CanWake(old(workers), wake)
      ensures Abs() == Posted(old(Abs()), q, slow, wake)
    {
      wake := PickSleeper(workers);
      var item := q;
      if slow {
        slowIoPendingWq := slowIoPendingWq + [item];
        if SlowMsg in wq {
          return;
        }
        item := SlowMsg;
      }
      wq := wq + [item];
      if idleThreads > 0 {
        wake := CondSignal();
      }
    }

    /** A worker from getting `mutex` to releasing it: by waiting, by returning, or with a request. */
    method WorkerSection(t: nat) returns (ghost wake: nat)
      requires t < |workers| && (workers[t].Back? || workers[t].Woken?)
      requires Count(wq, SlowMsg) <= 1
      modifies this
      ensures CanWake(old(workers), wake)
      ensures Abs() == Top(Reenter(old(Abs()), t), t, wake)
    {
      if workers[t] == Woken {
        idleThreads := idleThreads - 1;
      } else if workers[t] == Back(true) {
        slowIoWorkRunning := slowIoWorkRunning - 1;
      }
      SameSleepers(workers, t);
      workers := workers[t := Back(false)];
      wake := WorkerLoop(t);
    }

    /** The `for` loop of `worker`, up to where `mutex` is released. */
    method WorkerLoop(t: nat) returns (ghost wake: nat)
      requires t < |workers| && workers[t] == Back(false)
      requires Count(wq, SlowMsg) <= 1
      modifies this
      ensures CanWake(old(workers), wake)
      ensures Abs() == Top(old(Abs()), t, wake)
    {
      wake := PickSleeper(workers);
      ghost var s := Abs();
      var threshold := SlowWorkThreadThreshold();
      while true
        invariant threshold == Threshold(|s.workers|)
        invariant CanWake(s.workers, wake)
        invariant Abs() == s || (Skips(s) && Abs() == Skipped(s) && (wq == [] || wq[0] != SlowMsg))
        invariant Count(wq, SlowMsg) <= 1
        decreases |wq|, if wq != [] && wq[0] == SlowMsg then 1 else 0
      {
        if wq == [] || (wq[0] == SlowMsg && |wq| == 1 && slowIoWorkRunning >= threshold) {
          idleThreads := idleThreads + 1;
          workers := workers[t := Asleep];
          return;
        }
        var q := wq[0];
        if q == ExitMsg {
          wake := CondSignal();
          workers := workers[t := Left];
          return;
        }
        if q == SlowMsg { OnlyMessage(wq); }
        wq := wq[1..];
        if q != SlowMsg {
          workers := workers[t := Busy(q, false)];
          return;
        }
        if slowIoWorkRunning >= threshold {
          wq := wq + [q];
          continue;
        }
        if slowIoPendingWq == [] {
          continue;
        }
        wake := TakeSlow(t);
        return;
      }
    }

    /** The slow branch of the loop: take the first waiting slow request, and queue the message again
        if there are more. */
    method TakeSlow(t: nat) returns (ghost wake: nat)
      requires t < |workers| && slowIoPendingWq != []
      modifies this
      ensures CanWake(old(workers), wake)
      ensures var more := |old(slowIoPendingWq)| > 1;
              && wq == (if more then old(wq) + [SlowMsg] else old(wq))
              && slowIoPendingWq == old(slowIoPendingWq)[1..]
              && slowIoWorkRunning == old(slowIoWorkRunning) + 1
              && workers == (if more then SignalIf(idleThreads, old(workers), wake) else old(workers))
                            [t := Busy(old(slowIoPendingWq)[0], true)]
              && started == old(started) + [old(slowIoPendingWq)[0]]
              && idleThreads == old(idleThreads) && reqs == old(reqs) && loops == old(loops)
    {
      wake := PickSleeper(workers);
      slowIoWorkRunning := slowIoWorkRunning + 1;
      var q := slowIoPendingWq[0];
      slowIoPendingWq := slowIoPendingWq[1..];
      started := started + [q];
      if slowIoPendingWq != [] {
        wq := wq + [SlowMsg];
        if idleThreads > 0 {
          wake := CondSignal();
        }
      }
      workers := workers[t := Busy(q, true)];
    }
  }

  /** The head is the slow message and the loop goes round again. */
  predicate Skips(s: State)
  {
    && s.wq != [] && s.wq[0] == SlowMsg
    && if s.running >= Threshold(|s.workers|) then |s.wq| > 1 else s.slowq == []
  }

  function Skipped(s: State): State
    requires s.wq != []
  {
    s.(wq := if s.running >= Threshold(|s.workers|) then s.wq[1..] + [SlowMsg] else s.wq[1..])
  }

  lemma OnlyMessage(q: seq<Item>)
    requires q != [] && q[0] == SlowMsg && Count(q, SlowMsg) <= 1
    ensures SlowMsg !in q[1..] && Count(q[1..], SlowMsg) == 0 && Count(q[1..] + [SlowMsg], SlowMsg) == 1
  {
    Split(q);
    assert SlowMsg !in multiset(q[1..]);
  }

  lemma SameSleepers(ws: seq<Worker>, t: nat)
    requires t < |ws| && ws[t] != Asleep
    ensures forall w :: CanWake(ws[t := Back(false)], w) <==> CanWake(ws, w)
  {
    assert forall i :: 0 <= i < |ws| ==> (ws[t := Back(false)][i] == Asleep <==> ws[i] == Asleep);
  }
}