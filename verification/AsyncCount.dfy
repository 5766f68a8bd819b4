/**
 No callback without a send: over every run the callbacks of a handle that start never outnumber the sends that took
 its `pending` from 0.
 */
module AsyncCount {
  import opened Async
  import opened Basics

  /** A send takes `pending` of `h` from 0 to something else: the first exchange that wins. */
  predicate Wins(s: State, s': State, h: Handle) {
    h in s.pending && h in s'.pending && s.pending[h] == 0 && s'.pending[h] != 0
  }

  function WinCount(states: seq<State>, h: Handle): nat {
    if |states| < 2 then 0
    else
      var k := |states| - 1;
      WinCount(states[..k], h) + if Wins(states[k - 1], states[k], h) then 1 else 0
  }

  function StartCount(states: seq<State>, h: Handle): nat {
    if |states| < 2 then 0
    else
      var k := |states| - 1;
      StartCount(states[..k], h) + if CallbackStarts(states[k - 1], states[k], h) then 1 else 0
  }

  /** A callback of `h` that a send has caused and that has not started: the send is still to be found by the loop, or
      the loop has found it. */
  function Owed(s: State, h: Handle): nat {
    (if h in s.pending && s.pending[h] != 0 then 1 else 0) + if s.loop.Call? && s.loop.h == h then 1 else 0
  }

  /** Every step: a win adds one, a start takes one, and nothing else adds any. */
  lemma OwedStep(s: State, s': State, h: Handle)
    requires Inv(s) && Next(s, s')
    ensures Owed(s', h) + (if CallbackStarts(s, s', h) then 1 else 0) <= Owed(s, h) + if Wins(s, s', h) then 1 else 0
  {
    var a :| Enabled(s, a) && s' == Apply(s, a);
    if a.Step? { AbortUnreachable(s, a); }
  }

  /** A win is the exchange of a thread inside uv_async_send on that handle. */
  lemma WinIsSend(s: State, s': State, h: Handle) returns (t: nat)
    requires Next(s, s') && Wins(s, s', h)
    ensures t < |s.senders| == |s'.senders| && s.senders[t] == Set(h) && s'.senders[t] == Write(h)
  {
    var a :| Enabled(s, a) && s' == Apply(s, a);
    t := a.t;
  }

  lemma LastStep(states: seq<State>, k: nat)
    requires Run(states) && k == |states| - 1 > 0
    ensures Run(states[..k]) && Inv(states[k - 1]) && Next(states[k - 1], states[k])
  {
    InvInRun(states, k - 1);
    assert Next(states[k - 1], states[k]);
  }

  /** The starts so far, and one more if one is owed, are at most the wins. */
  lemma {:induction false} NoStartWithoutSend(states: seq<State>, h: Handle)
    requires Run(states)
    ensures StartCount(states, h) + Owed(states[|states| - 1], h) <= WinCount(states, h)
  {
    var k := |states| - 1;
    if k > 0 {
      LastStep(states, k);
      NoStartWithoutSend(states[..k], h);
      OwedStep(states[k - 1], states[k], h);
    }
  }

  // ---------- only open handles ----------

  /** The handle under examination is on the loop's list. */
  predicate UnderWay(s: State) {
    (s.loop.Spin? || s.loop.Call? ==> s.loop.h in s.handles) && (s.loop.Closing? ==> UserCode(s.loop.back))
  }

  lemma {:induction false} UnderWayInRun(states: seq<State>, k: nat)
    requires Run(states) && k < |states|
    ensures UnderWay(states[k])
  {
    if k > 0 {
      UnderWayInRun(states, k - 1);
      assert Next(states[k - 1], states[k]);
    }
  }

  /** The callback of a handle that has been closed does not start. */
  lemma StartsOpen(states: seq<State>, k: nat, h: Handle)
    requires Run(states) && k + 1 < |states| && CallbackStarts(states[k], states[k + 1], h)
    ensures h in states[k].handles
  {
    UnderWayInRun(states, k);
  }

  // ---------- how often the loop wakes up ----------

  /** A thread has written to the descriptor. */
  ghost predicate Wrote(s: State, s': State) {
    exists t :: 0 <= t < |s.senders| && t < |s'.senders| && s.senders[t].Write? && s'.senders[t].Finish?
  }

  /** The loop has come out of its wait and has read the descriptor. */
  predicate WokeUp(s: State, s': State) { s.loop.Poll? && s'.loop.Sweep? }

  ghost function WriteCount(states: seq<State>): nat {
    if |states| < 2 then 0
    else WriteCount(states[..|states| - 1]) + if Wrote(states[|states| - 2], states[|states| - 1]) then 1 else 0
  }

  function WakeCount(states: seq<State>): nat {
    if |states| < 2 then 0
    else WakeCount(states[..|states| - 1]) + if WokeUp(states[|states| - 2], states[|states| - 1]) then 1 else 0
  }

  function Signalled(s: State): nat { if s.readable then 1 else 0 }

  lemma WakeStep(s: State, s': State)
    requires Next(s, s')
    ensures Signalled(s') + (if WokeUp(s, s') then 1 else 0) <= Signalled(s) + if Wrote(s, s') then 1 else 0
  {
    var a :| Enabled(s, a) && s' == Apply(s, a);
    if a.Step? && s.senders[a.t].Write? { assert s'.senders[a.t].Finish?; }
  }

  /** The loop does not wake up more often than threads have written to the descriptor. */
  lemma {:induction false} NoWakeWithoutWrite(states: seq<State>)
    requires Run(states)
    ensures WakeCount(states) + Signalled(states[|states| - 1]) <= WriteCount(states)
  {
    var k := |states| - 1;
    if k > 0 {
      LastStep(states, k);
      NoWakeWithoutWrite(states[..k]);
      WakeStep(states[k - 1], states[k]);
    }
  }

  // ---------- the order of the handles ----------

  /** The handles in the order in which they are examined from now on: those that the sweep has left come last. */
  function Order(s: State): seq<Handle> { s.handles + Todo(s.loop) }

  lemma {:induction false} WithoutBoth(a: seq<Handle>, b: seq<Handle>, h: Handle)
    ensures Without(a + b, h) == Without(a, h) + Without(b, h)
  {
    if a == [] {
      assert a + b == b;
    } else {
      assert (a + b)[1..] == a[1..] + b;
      WithoutBoth(a[1..], b, h);
    }
  }

  lemma {:induction false} ForgetIs(l: Loop, h: Handle)
    ensures Todo(Forget(l, h)) == Without(Todo(l), h)
  {
    if l.Closing? { ForgetIs(l.back, h); }
  }

  /** No step but the end of a close and an open changes the order; a new handle comes behind those already examined. */
  lemma OrderStep(s: State, a: Action)
    requires Enabled(s, a)
    ensures match a
            case Open(h) => Apply(s, a).handles == s.handles + [h] && Todo(Apply(s, a).loop) == Todo(s.loop)
            case Advance =>
              if s.loop.Closing? && s.pending[s.loop.h] != 1 then Order(Apply(s, a)) == Without(Order(s), s.loop.h)
              else Order(Apply(s, a)) == Order(s)
            case _ => Order(Apply(s, a)) == Order(s)
  {
    match a {
      case Drain => assert [] + s.handles == s.handles + [];
      case Advance =>
        match s.loop {
          case Sweep(todo) =>
            if todo != [] { assert s.handles + [todo[0]] + todo[1..] == s.handles + todo; }
          case Closing(h, back) =>
            WithoutBoth(s.handles, Todo(back), h);
            ForgetIs(back, h);
          case _ =>
        }
      case _ =>
    }
  }

  // ---------- what may happen in a state ----------

  /** Nothing but its own conditions keeps a step from coming: threads send on open handles and go on, the loop sweeps
      when the descriptor can be read and goes on, and user code on the loop's thread opens and closes handles. */
  lemma StepsCanCome(s: State, t: nat, h: Handle)
    requires Inv(s)
    ensures t < |s.senders| && s.senders[t] != Quiet ==> Enabled(s, Step(t))
    ensures t < |s.senders| && s.senders[t] == Quiet && IsOpen(s, h) ==> Enabled(s, Send(t, h))
    ensures if s.loop != Poll then Enabled(s, Advance) else s.readable ==> Enabled(s, Drain)
    ensures s.loop == Poll || s.loop.Running? ==>
              (IsOpen(s, h) ==> Enabled(s, BeginClose(h))) && (h !in s.pending ==> Enabled(s, Open(h)))
  {
  }
}
