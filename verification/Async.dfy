/**
 The lock-free wake-up of an event loop by other threads.

 Any number of sender threads run `uv_async_send`, each exchange on `pending` and each write to the
 file descriptor being one step; the loop thread runs `uv__async_io`, `uv__async_spin` and
 `uv__async_close`.  Every interleaving of these steps is a run of the model.
 */
module Async {
  import opened Basics

  type Handle = nat

  /** Where a thread stands inside `uv_async_send`. */
  datatype Sender =
    | Quiet
    | Load(h: Handle)    // about to read `pending`
    | Set(h: Handle)     // about to exchange 0 for 1
    | Write(h: Handle)   // about to write the file descriptor
    | Finish(h: Handle)  // about to exchange 1 for 2

  /** Where the loop thread stands.  `todo` is the local queue of `uv__async_io`. */
  datatype Loop =
    | Poll
    | Sweep(todo: seq<Handle>)
    | Spin(h: Handle, todo: seq<Handle>)
    | Call(h: Handle, todo: seq<Handle>)
    | Running(h: Handle, todo: seq<Handle>)
    | Closing(h: Handle, back: Loop)

  datatype State = State(
    pending: map<Handle, int>,
    readable: bool,
    senders: seq<Sender>,
    handles: seq<Handle>,
    loop: Loop,
    dirty: set<Handle>,  // history: sends that took effect since the last callback start
    aborted: bool)

  datatype Action =
    | Send(t: nat, h: Handle)
    | Step(t: nat)
    | Drain
    | Advance
    | BeginClose(h: Handle)
    | Open(h: Handle)

  function Todo(l: Loop): seq<Handle>
  {
    match l
    case Poll => []
    case Sweep(todo) => todo
    case Spin(_, todo) => todo
    case Call(_, todo) => todo
    case Running(_, todo) => todo
    case Closing(_, back) => Todo(back)
  }

  function Forget(l: Loop, h: Handle): Loop
  {
    match l
    case Poll => Poll
    case Sweep(todo) => Sweep(Without(todo, h))
    case Spin(g, todo) => Spin(g, Without(todo, h))
    case Call(g, todo) => Call(g, Without(todo, h))
    case Running(g, todo) => Running(g, Without(todo, h))
    case Closing(g, back) => Closing(g, Forget(back, h))
  }

  predicate IsOpen(s: State, h: Handle)
  {
    h in s.handles || h in Todo(s.loop)
  }

  predicate Init(s: State)
  {
    && s.pending == map[] && !s.readable && s.handles == [] && s.loop == Poll
    && s.dirty == {} && !s.aborted
    && forall t :: 0 <= t < |s.senders| ==> s.senders[t] == Quiet
  }

  /** User code runs on the loop thread between sweeps and inside a callback. */
  predicate UserCode(l: Loop)
  {
    l.Poll? || l.Running?
  }

  predicate Enabled(s: State, a: Action)
  {
    match a
    case Send(t, h) => t < |s.senders| && s.senders[t] == Quiet && h in s.pending
    case Step(t) => t < |s.senders| && s.senders[t] != Quiet && s.senders[t].h in s.pending
    case Drain => s.loop == Poll && s.readable
    case Advance => s.loop != Poll && (s.loop.Spin? || s.loop.Closing? ==> s.loop.h in s.pending)
    case BeginClose(h) => UserCode(s.loop) && IsOpen(s, h)
    case Open(h) => UserCode(s.loop) && h !in s.pending
  }

  function SenderStep(s: State, t: nat): State
    requires Enabled(s, Step(t))
  {
    var h := s.senders[t].h;
    match s.senders[t]
    case Load(_) =>
      if s.pending[h] != 0
      then s.(senders := s.senders[t := Quiet], dirty := s.dirty + {h})
      else s.(senders := s.senders[t := Set(h)])
    case Set(_) =>
      if s.pending[h] != 0
      then s.(senders := s.senders[t := Quiet], dirty := s.dirty + {h})
      else s.(senders := s.senders[t := Write(h)], pending := s.pending[h := 1], dirty := s.dirty + {h})
    case Write(_) =>
      s.(senders := s.senders[t := Finish(h)], readable := true)
    case Finish(_) =>
      if s.pending[h] == 1
      then s.(senders := s.senders[t := Quiet], pending := s.pending[h := 2])
      else s.(senders := s.senders[t := Quiet], aborted := true)
  }

  function LoopStep(s: State): State
    requires Enabled(s, Advance)
  {
    match s.loop
    case Sweep(todo) =>
      if todo == [] then s.(loop := Poll)
      else s.(loop := Spin(todo[0], todo[1..]), handles := s.handles + [todo[0]])
    case Spin(h, todo) =>
      if s.pending[h] == 1 then s
      else if s.pending[h] == 2 then s.(pending := s.pending[h := 0], loop := Call(h, todo))
      else s.(loop := Sweep(todo))
    case Call(h, todo) => s.(loop := Running(h, todo), dirty := s.dirty - {h})
    case Running(h, todo) => s.(loop := Sweep(todo))
    case Closing(h, back) =>
      if s.pending[h] == 1 then s
      else
        var p := if s.pending[h] == 2 then s.pending[h := 0] else s.pending;
        s.(pending := p, handles := Without(s.handles, h), loop := Forget(back, h))
  }

  function Apply(s: State, a: Action): State
    requires Enabled(s, a)
  {
    match a
    case Send(t, h) => s.(senders := s.senders[t := Load(h)])
    case Step(t) => SenderStep(s, t)
    case Drain => s.(readable := false, handles := [], loop := Sweep(s.handles))
    case Advance => LoopStep(s)
    case BeginClose(h) => s.(loop := Closing(h, s.loop))
    case Open(h) => s.(pending := s.pending[h := 0], handles := s.handles + [h], dirty := s.dirty - {h})
  }

  ghost predicate Next(s: State, s': State)
  {
    exists a :: Enabled(s, a) && s' == Apply(s, a)
  }

  ghost predicate Run(states: seq<State>)
  {
    && states != []
    && Init(states[0])
    && forall i :: 0 < i < |states| ==> Next(states[i - 1], states[i])
  }

  // ---------- invariant ----------

  predicate BetweenExchanges(p: Sender, h: Handle)
  {
    p == Write(h) || p == Finish(h)
  }

  ghost predicate Writing(s: State, h: Handle)
  {
    exists t :: 0 <= t < |s.senders| && s.senders[t] == Write(h)
  }

  /** The loop will still examine `h`: some write is outstanding, the descriptor is readable,
      or the current sweep has not passed `h`. */
  ghost predicate WillExamine(s: State, h: Handle)
  {
    || Writing(s, h)
    || s.readable
    || h in Todo(s.loop)
    || (s.loop.Spin? && s.loop.h == h)
  }

  ghost predicate ShapeOk(s: State)
  {
    && (s.loop.Closing? ==> UserCode(s.loop.back) && s.loop.h in s.pending)
    && (s.loop.Spin? ==> s.loop.h in s.pending)
    && (forall h :: IsOpen(s, h) ==> h in s.pending)
    && (forall t :: 0 <= t < |s.senders| && s.senders[t] != Quiet ==> s.senders[t].h in s.pending)
  }

  /** How many threads are between their two exchanges on `h`. */
  function Holders(ps: seq<Sender>, h: Handle): nat
  {
    if ps == [] then 0 else (if BetweenExchanges(ps[0], h) then 1 else 0) + Holders(ps[1..], h)
  }

  ghost predicate PendingOk(s: State)
  {
    && !s.aborted
    && forall h :: h in s.pending ==>
         0 <= s.pending[h] <= 2 && Holders(s.senders, h) == if s.pending[h] == 1 then 1 else 0
  }

  ghost predicate ExamineOk(s: State)
  {
    forall h :: IsOpen(s, h) && h in s.pending && s.pending[h] != 0 ==> WillExamine(s, h)
  }

  /** A decided send is still to be found, or found, by the loop. */
  predicate Unanswered(s: State, h: Handle)
  {
    (h in s.pending && s.pending[h] != 0) || (s.loop.Call? && s.loop.h == h)
  }

  ghost predicate DirtyOk(s: State)
  {
    forall h :: h in s.dirty && IsOpen(s, h) ==> Unanswered(s, h)
  }

  ghost predicate Inv(s: State)
  {
    ShapeOk(s) && PendingOk(s) && ExamineOk(s) && DirtyOk(s)
  }

  lemma {:induction false} ForgetTodo(l: Loop, h: Handle)
    ensures forall g :: g in Todo(Forget(l, h)) <==> g in Todo(l) && g != h
    ensures Left(Forget(l, h)) <= Left(l)
  {
    match l {
      case Closing(_, back) => ForgetTodo(back, h);
      case _ => WithoutExact(Todo(l), h);
    }
  }

  /** Nothing but `uv_async_init` opens a handle, and only a finished close ends one. */
  lemma OpenChange(s: State, a: Action, h: Handle)
    requires Enabled(s, a) && ShapeOk(s)
    ensures IsOpen(Apply(s, a), h) <==>
            || (IsOpen(s, h) && !(a == Advance && s.loop.Closing? && s.loop.h == h && s.pending[h] != 1))
            || a == Open(h)
  {
    if a == Advance {
      match s.loop {
        case Sweep(todo) =>
          if todo != [] { assert todo == [todo[0]] + todo[1..]; }
        case Closing(g, back) =>
          ForgetTodo(back, g);
          WithoutExact(s.handles, g);
        case _ =>
      }
    }
  }

  lemma OpenStep(s: State, a: Action)
    requires Enabled(s, a) && ShapeOk(s)
    ensures forall h :: IsOpen(Apply(s, a), h) ==> h in Apply(s, a).pending
  {
    var s' := Apply(s, a);
    forall h | IsOpen(s', h) ensures h in s'.pending { OpenChange(s, a, h); }
  }

  lemma ShapeStep(s: State, a: Action)
    requires Enabled(s, a) && ShapeOk(s)
    ensures ShapeOk(Apply(s, a))
  {
    OpenStep(s, a);
  }

  lemma {:induction false} HoldersUpdate(ps: seq<Sender>, t: nat, p: Sender, h: Handle)
    requires t < |ps|
    ensures Holders(ps[t := p], h) + (if BetweenExchanges(ps[t], h) then 1 else 0)
         == Holders(ps, h) + (if BetweenExchanges(p, h) then 1 else 0)
    ensures BetweenExchanges(ps[t], h) ==> Holders(ps, h) >= 1
  {
    if t > 0 {
      HoldersUpdate(ps[1..], t - 1, p, h);
      assert ps[t := p][1..] == ps[1..][t - 1 := p];
    } else {
      assert ps[0 := p][1..] == ps[1..];
    }
  }

  /** Every handle's `pending` is 1 exactly while one sender is between its two exchanges. */
  lemma SenderPending(s: State, a: Action, h: Handle)
    requires Enabled(s, a) && Inv(s) && (a.Step? || a.Send?) && h in Apply(s, a).pending
    ensures var s' := Apply(s, a);
      0 <= s'.pending[h] <= 2 && Holders(s'.senders, h) == if s'.pending[h] == 1 then 1 else 0
  {
    var s' := Apply(s, a);
    assert s'.senders == s.senders[a.t := s'.senders[a.t]];
    HoldersUpdate(s.senders, a.t, s'.senders[a.t], h);
    HoldersUpdate(s.senders, a.t, s'.senders[a.t], if a.Send? then a.h else s.senders[a.t].h);
  }

  lemma AbortUnreachable(s: State, a: Action)
    requires Enabled(s, a) && Inv(s) && (a.Step? || a.Send?)
    ensures !Apply(s, a).aborted
  {
    if a.Step? {
      HoldersUpdate(s.senders, a.t, Apply(s, a).senders[a.t], s.senders[a.t].h);
    }
  }

  lemma PendingStep(s: State, a: Action)
    requires Enabled(s, a) && Inv(s)
    ensures PendingOk(Apply(s, a))
  {
    var s' := Apply(s, a);
    if a.Step? || a.Send? {
      AbortUnreachable(s, a);
      forall h | h in s'.pending
        ensures 0 <= s'.pending[h] <= 2
        ensures Holders(s'.senders, h) == if s'.pending[h] == 1 then 1 else 0
      {
        SenderPending(s, a, h);
      }
    } else if a.Open? {
      NoHolders(s.senders, s.pending, a.h);
    }
  }

  lemma {:induction false} NoHolders(ps: seq<Sender>, pending: map<Handle, int>, h: Handle)
    requires h !in pending
    requires forall t :: 0 <= t < |ps| && ps[t] != Quiet ==> ps[t].h in pending
    ensures Holders(ps, h) == 0
  {
    if ps != [] { NoHolders(ps[1..], pending, h); }
  }

  lemma ExamineStep(s: State, a: Action)
    requires Enabled(s, a) && Inv(s)
    ensures ExamineOk(Apply(s, a))
  {
    var s' := Apply(s, a);
    forall h | IsOpen(s', h) && h in s'.pending && s'.pending[h] != 0
      ensures WillExamine(s', h)
    {
      OpenChange(s, a, h);
      if h in s.pending && s.pending[h] != 0 {
        StillExamined(s, a, h);
      } else {
        assert s'.senders[a.t] == Write(h);
      }
    }
  }

  lemma StillExamined(s: State, a: Action, h: Handle)
    requires Enabled(s, a) && Inv(s) && IsOpen(s, h) && s.pending[h] != 0
    requires h in Apply(s, a).pending && Apply(s, a).pending[h] != 0 && IsOpen(Apply(s, a), h)
    ensures WillExamine(Apply(s, a), h)
  {
    var s' := Apply(s, a);
    assert WillExamine(s, h);
    if h in Todo(s.loop) {
      if a == Advance && s.loop.Sweep? {
        assert s.loop.todo == [s.loop.todo[0]] + s.loop.todo[1..];
      } else if a == Advance && s.loop.Closing? {
        ForgetTodo(s.loop.back, s.loop.h);
      } else if a == Drain {
      }
    } else if Writing(s, h) {
      var t :| 0 <= t < |s.senders| && s.senders[t] == Write(h);
      assert s'.readable || s'.senders[t] == Write(h);
    }
  }

  lemma SenderDirty(s: State, t: nat, h: Handle)
    requires Enabled(s, Step(t)) && ShapeOk(s) && (h in s.dirty && IsOpen(s, h) ==> Unanswered(s, h))
    requires h in SenderStep(s, t).dirty && IsOpen(s, h)
    ensures Unanswered(SenderStep(s, t), h)
  {
  }

  lemma LoopDirty(s: State, h: Handle)
    requires Enabled(s, Advance) && ShapeOk(s) && h in LoopStep(s).dirty && IsOpen(LoopStep(s), h)
    requires Unanswered(s, h)
    ensures Unanswered(LoopStep(s), h)
  {
    OpenChange(s, Advance, h);
  }

  lemma DirtyStep(s: State, a: Action)
    requires Enabled(s, a) && ShapeOk(s) && DirtyOk(s)
    ensures DirtyOk(Apply(s, a))
  {
    var s' := Apply(s, a);
    forall h | h in s'.dirty && IsOpen(s', h) ensures Unanswered(s', h) {
      OpenChange(s, a, h);
      if a.Step? { SenderDirty(s, a.t, h); } else if a.Advance? { LoopDirty(s, h); }
    }
  }

  lemma InvStep(s: State, a: Action)
    requires Enabled(s, a) && Inv(s)
    ensures Inv(Apply(s, a))
  {
    ShapeStep(s, a);
    PendingStep(s, a);
    ExamineStep(s, a);
    DirtyStep(s, a);
  }

  // ---------- safety over whole runs ----------

  lemma {:induction false} InvInRun(states: seq<State>, i: nat)
    requires Run(states) && i < |states|
    ensures Inv(states[i])
  {
    if i == 0 {
      NoSenders(states[0].senders);
    } else {
      InvInRun(states, i - 1);
      assert Next(states[i - 1], states[i]);
      var a :| Enabled(states[i - 1], a) && states[i] == Apply(states[i - 1], a);
      InvStep(states[i - 1], a);
    }
  }

  lemma {:induction false} NoSenders(ps: seq<Sender>)
    requires forall t :: 0 <= t < |ps| ==> ps[t] == Quiet
    ensures forall h :: Holders(ps, h) == 0
  {
    if ps != [] { NoSenders(ps[1..]); }
  }

  lemma {:induction false} TwoHolders(ps: seq<Sender>, t: nat, u: nat, h: Handle)
    requires t < u < |ps| && BetweenExchanges(ps[t], h) && BetweenExchanges(ps[u], h)
    ensures Holders(ps, h) >= 2
  {
    if t == 0 {
      HoldersUpdate(ps[1..], u - 1, Quiet, h);
    } else {
      TwoHolders(ps[1..], t - 1, u - 1, h);
    }
  }

  lemma {:induction false} SomeHolder(ps: seq<Sender>, h: Handle) returns (t: nat)
    requires Holders(ps, h) >= 1
    ensures t < |ps| && BetweenExchanges(ps[t], h)
  {
    if BetweenExchanges(ps[0], h) { t := 0; } else { t := SomeHolder(ps[1..], h); t := t + 1; }
  }

  /** `pending` is 1 exactly while one thread is between its exchanges, never two, and the second
      exchange always finds 1: the `abort` after it is unreachable. */
  lemma OneThreadBetweenExchanges(states: seq<State>, i: nat, h: Handle)
    requires Run(states) && i < |states| && h in states[i].pending
    ensures !states[i].aborted
    ensures states[i].pending[h] == 1 <==>
            exists t :: 0 <= t < |states[i].senders| && BetweenExchanges(states[i].senders[t], h)
    ensures forall t, u | 0 <= t < |states[i].senders| && 0 <= u < |states[i].senders| ::
            BetweenExchanges(states[i].senders[t], h) && BetweenExchanges(states[i].senders[u], h) ==> t == u
  {
    InvInRun(states, i);
    var ps := states[i].senders;
    if states[i].pending[h] == 1 {
      var t := SomeHolder(ps, h);
    }
    forall t, u | 0 <= t < |ps| && 0 <= u < |ps| && BetweenExchanges(ps[t], h) && BetweenExchanges(ps[u], h)
      ensures t == u && states[i].pending[h] == 1
    {
      HoldersUpdate(ps, t, Quiet, h);
      if t < u { TwoHolders(ps, t, u, h); } else if u < t { TwoHolders(ps, u, t, h); }
    }
  }

  /** The send of thread `t` on `h` is decided between `s` and `s'`: either it set `pending` itself or
      it found `pending` already nonzero and returned (a coalesced send). */
  predicate Decides(s: State, s': State, t: nat, h: Handle)
  {
    && t < |s.senders| && t < |s'.senders|
    && (s.senders[t] == Load(h) || s.senders[t] == Set(h))
    && (s'.senders[t] == Quiet || s'.senders[t] == Write(h))
  }

  predicate CallbackStarts(s: State, s': State, h: Handle)
  {
    s.loop.Call? && s.loop.h == h && s'.loop.Running?
  }

  lemma DecidingMarks(s: State, s': State, t: nat, h: Handle)
    requires Next(s, s') && Decides(s, s', t, h)
    ensures h in s'.dirty
  {
  }

  lemma StaysDirty(s: State, s': State, h: Handle)
    requires DirtyOk(s) && Next(s, s') && h in s.dirty && IsOpen(s, h) && !CallbackStarts(s, s', h)
    ensures h in s'.dirty
  {
  }

  lemma DirtyIsAwaited(s: State, h: Handle)
    requires Inv(s) && h in s.dirty && IsOpen(s, h)
    ensures WillExamine(s, h) || (s.loop.Call? && s.loop.h == h)
  {
  }

  /** `h` is open and its callback does not start at the k-th step. */
  predicate OpenQuiet(states: seq<State>, k: nat, h: Handle)
    requires k + 1 < |states|
  {
    IsOpen(states[k], h) && !CallbackStarts(states[k], states[k + 1], h)
  }

  lemma DirtyInRun(states: seq<State>, k: nat, h: Handle)
    requires Run(states) && k + 1 < |states| && h in states[k].dirty && OpenQuiet(states, k, h)
    ensures h in states[k + 1].dirty
  {
    InvInRun(states, k);
    var i := k + 1;
    assert Next(states[i - 1], states[i]);
    StaysDirty(states[k], states[k + 1], h);
  }

  lemma DecidedInRun(states: seq<State>, i: nat, t: nat, h: Handle)
    requires Run(states) && i + 1 < |states| && Decides(states[i], states[i + 1], t, h)
    ensures h in states[i + 1].dirty
  {
    var k := i + 1;
    assert Next(states[k - 1], states[k]);
    DecidingMarks(states[i], states[i + 1], t, h);
  }

  lemma AwaitedInRun(states: seq<State>, j: nat, h: Handle)
    requires Run(states) && j < |states| && h in states[j].dirty && IsOpen(states[j], h)
    ensures WillExamine(states[j], h) || (states[j].loop.Call? && states[j].loop.h == h)
  {
    InvInRun(states, j);
    DirtyIsAwaited(states[j], h);
  }

  lemma {:induction false} DirtyUntil(states: seq<State>, i: nat, j: nat, h: Handle)
    requires Run(states) && i <= j < |states| && h in states[i].dirty
    requires forall k :: i <= k < j ==> OpenQuiet(states, k, h)
    ensures h in states[j].dirty
    decreases j - i
  {
    if i < j {
      DirtyInRun(states, i, h);
      DirtyUntil(states, i + 1, j, h);
    }
  }

  /** Every send is answered: from the moment it is decided until a callback of its handle starts,
      the loop is bound to reach the handle. */
  lemma EverySendIsAnswered(states: seq<State>, i: nat, j: nat, t: nat, h: Handle)
    requires Run(states) && i < j < |states|
    requires Decides(states[i], states[i + 1], t, h)
    requires forall k :: i <= k <= j ==> IsOpen(states[k], h)
    requires forall k :: i < k < j ==> !CallbackStarts(states[k], states[k + 1], h)
    ensures h in states[j].dirty
    ensures WillExamine(states[j], h) || (states[j].loop.Call? && states[j].loop.h == h)
  {
    DecidedInRun(states, i, t, h);
    DirtyUntil(states, i + 1, j, h);
    AwaitedInRun(states, j, h);
  }

  // ---------- progress: a fair loop does reach the handle ----------

  /** Steps of the loop thread left in the current sweep. */
  function Left(l: Loop): nat
  {
    match l
    case Poll => 0
    case Sweep(todo) => 4 * |todo| + 1
    case Spin(_, todo) => 4 * |todo| + 4
    case Call(_, todo) => 4 * |todo| + 3
    case Running(_, todo) => 4 * |todo| + 2
    case Closing(_, back) => Left(back)
  }

  /** 0: the callback is next; 1: this sweep will reach `h`; 2: another sweep is needed. */
  function Phase(l: Loop, h: Handle): nat
  {
    if l.Call? && l.h == h then 0
    else if h in Todo(l) || (l.Spin? && l.h == h) then 1
    else 2
  }

  predicate Closer(l: Loop, l': Loop, h: Handle)
  {
    || Phase(l, h) < Phase(l', h)
    || (Phase(l, h) == Phase(l', h) && Left(l) < Left(l'))
  }

  predicate BusySpin(s: State)
  {
    (s.loop.Spin? || s.loop.Closing?) && s.loop.h in s.pending && s.pending[s.loop.h] == 1
  }

  /** A step of the loop thread starts the callback, or waits for a sender between its exchanges, or
      gets strictly closer (completing a close asked for by user code may leave the distance as is). */
  lemma LoopGetsCloser(s: State, a: Action, h: Handle)
    requires Inv(s) && h in s.dirty && IsOpen(s, h)
    requires a == Advance || a == Drain
    requires Enabled(s, a) && !(s.loop.Closing? && s.loop.h == h)
    ensures var s' := Apply(s, a);
            || CallbackStarts(s, s', h)
            || (BusySpin(s) && s' == s)
            || (h in s'.dirty && IsOpen(s', h)
                && if s.loop.Closing? then !Closer(s.loop, s'.loop, h) else Closer(s'.loop, s.loop, h))
  {
    OpenChange(s, a, h);
    match s.loop {
      case Sweep(todo) =>
        if todo != [] { assert todo == [todo[0]] + todo[1..]; }
      case Closing(g, back) =>
        ForgetTodo(back, g);
      case _ =>
    }
  }

  /** No step of any other thread, and no handle opened or other close begun, moves the loop away. */
  lemma OthersDoNotDelay(s: State, a: Action, h: Handle)
    requires Inv(s) && h in s.dirty && IsOpen(s, h)
    requires Enabled(s, a) && a != Advance && a != Drain
    ensures h in Apply(s, a).dirty && !Closer(s.loop, Apply(s, a).loop, h)
    ensures IsOpen(Apply(s, a), h)
  {
  }

  /** While a send is unanswered some thread can move: the loop, or a sender past its first exchange. */
  lemma NeverStuck(s: State, h: Handle)
    requires Inv(s) && h in s.dirty && IsOpen(s, h)
    ensures || (Enabled(s, Advance) && !BusySpin(s))
            || Enabled(s, Drain)
            || exists t :: 0 <= t < |s.senders| && (s.senders[t].Write? || s.senders[t].Finish?) && Enabled(s, Step(t))
  {
    if BusySpin(s) {
      var t := SomeHolder(s.senders, s.loop.h);
      assert Enabled(s, Step(t));
    } else if s.loop == Poll && !s.readable {
      assert WillExamine(s, h);
      var t :| 0 <= t < |s.senders| && s.senders[t] == Write(h);
      assert Enabled(s, Step(t));
    }
  }
}
