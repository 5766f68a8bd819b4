/**
 Progress of the wake-up protocol over whole, infinite runs: with a fair scheduler every send is followed by a
 callback of its handle, or by its close.
 */
module Fairness {
  import opened Options
  import opened Async

  /** An infinite run: `st(i)` is the state before the i-th step and `ac(i)` that step, which may be one of a
      thread that has nothing to do with the protocol. */
  ghost predicate Infinite(st: nat -> State, ac: nat -> Option<Action>) {
    Inv(st(0)) && forall i: nat :: StepAt(st, ac, i)
  }

  predicate StepAt(st: nat -> State, ac: nat -> Option<Action>, i: nat) {
    match ac(i)
    case None => st(i + 1) == st(i)
    case Some(a) => Enabled(st(i), a) && st(i + 1) == Apply(st(i), a)
  }

  /** A decided send of an open handle waits for its callback. */
  predicate Due(s: State, h: Handle) { h in s.dirty && IsOpen(s, h) }

  /** A step of the loop itself, outside user code. */
  predicate LoopAt(ac: nat -> Option<Action>, i: nat) { ac(i) == Some(Advance) || ac(i) == Some(Drain) }

  /** Calls that user code makes on the loop thread. */
  predicate IsUserCall(a: Action) { a.BeginClose? || a.Open? }

  predicate UserAt(ac: nat -> Option<Action>, i: nat) { ac(i).Some? && IsUserCall(ac(i).value) }

  /** The loop thread waits for its descriptor, and nothing is there. */
  predicate Blocked(s: State) { s.loop == Poll && !s.readable }

  /** The loop goes on: a step that is neither the completion of a close nor a round of waiting for a sender. */
  predicate ProgressAt(st: nat -> State, ac: nat -> Option<Action>, i: nat) {
    LoopAt(ac, i) && !st(i).loop.Closing? && !BusySpin(st(i))
  }

  /** The loop thread steps, unless it is blocked. */
  ghost predicate LoopFair(st: nat -> State, ac: nat -> Option<Action>) {
    forall i: nat :: LoopSoon(st, ac, i)
  }

  ghost predicate LoopSoon(st: nat -> State, ac: nat -> Option<Action>, i: nat) {
    exists j: nat :: i <= j && LoopOrBlocked(st, ac, j)
  }

  predicate LoopOrBlocked(st: nat -> State, ac: nat -> Option<Action>, j: nat) {
    LoopAt(ac, j) || Blocked(st(j))
  }

  ghost predicate QuietFrom(ac: nat -> Option<Action>, i: nat) {
    forall k: nat :: i <= k ==> !UserAt(ac, k)
  }

  /** The loop is in code of its own, in which no user code runs. */
  predicate InOwnCode(l: Loop) { l.Sweep? || l.Spin? || l.Call? }

  /** User code has come back: the loop is in code of its own, or at its poll with nothing to read. */
  predicate Returned(s: State) { InOwnCode(s.loop) || Blocked(s) }

  /** User code comes back again and again, unless its calls end. */
  ghost predicate UserFair(st: nat -> State, ac: nat -> Option<Action>) {
    forall i: nat :: UserSoon(st, ac, i)
  }

  ghost predicate UserSoon(st: nat -> State, ac: nat -> Option<Action>, i: nat) {
    exists j: nat :: i <= j && (Returned(st(j)) || QuietFrom(ac, j))
  }

  /** A thread inside uv_async_send is not delayed forever. */
  ghost predicate SendersFair(st: nat -> State, ac: nat -> Option<Action>) {
    forall i: nat, t: nat :: SenderSoon(st, ac, i, t)
  }

  ghost predicate SenderSoon(st: nat -> State, ac: nat -> Option<Action>, i: nat, t: nat) {
    t < |st(i).senders| && st(i).senders[t] != Quiet ==> exists j: nat :: i <= j && ac(j) == Some(Action.Step(t))
  }

  lemma {:induction false} InvAt(st: nat -> State, ac: nat -> Option<Action>, i: nat)
    requires Infinite(st, ac)
    ensures Inv(st(i))
  {
    if i > 0 {
      InvAt(st, ac, i - 1);
      assert StepAt(st, ac, i - 1);
      if ac(i - 1).Some? { InvStep(st(i - 1), ac(i - 1).value); }
    }
  }

  // ---------- waiting for a sender ends ----------

  /** The loop thread waits for `t`, which is between its two exchanges on `h`. */
  predicate WaitsFor(s: State, h: Handle, t: nat) {
    BusySpin(s) && s.loop.h == h && t < |s.senders| && BetweenExchanges(s.senders[t], h)
  }

  /** The second exchange has been made: the next step of the loop thread goes on. */
  predicate Released(s: State, h: Handle) {
    (s.loop.Spin? || s.loop.Closing?) && s.loop.h == h && h in s.pending && s.pending[h] == 2
  }

  /** While the loop waits, only the sender it waits for can release it, with at most two steps; nobody else
      disturbs it. */
  lemma WaitStep(s: State, a: Action, h: Handle, t: nat)
    requires Inv(s) && Enabled(s, a) && WaitsFor(s, h, t)
    ensures var s' := Apply(s, a);
      && s'.loop == s.loop
      && (a != Action.Step(t) ==> WaitsFor(s', h, t) && s'.senders[t] == s.senders[t])
      && (a == Action.Step(t) && s.senders[t].Write? ==> WaitsFor(s', h, t) && s'.senders[t] == Finish(h))
      && (a == Action.Step(t) && s.senders[t].Finish? ==> Released(s', h))
  {
    if a.Step? && a.t != t {
      HoldersUpdate(s.senders, a.t, Quiet, h);
      HoldersUpdate(s.senders, t, Quiet, h);
      if BetweenExchanges(s.senders[a.t], h) {
        if a.t < t { TwoHolders(s.senders, a.t, t, h); } else { TwoHolders(s.senders, t, a.t, h); }
        assert false;
      }
    }
  }

  /** A released loop stays released until it steps. */
  lemma ReleasedStep(s: State, a: Action, h: Handle)
    requires Inv(s) && Enabled(s, a) && Released(s, h) && a != Advance
    ensures Released(Apply(s, a), h) && Apply(s, a).loop == s.loop
  {
    if a.Step? && BetweenExchanges(s.senders[a.t], h) {
      HoldersUpdate(s.senders, a.t, Quiet, h);
      assert false;
    }
  }

  /** `j` is the loop thread's next step after the release, or a later one. */
  lemma {:induction false} ReleasedEnds(st: nat -> State, ac: nat -> Option<Action>, i: nat, j: nat, h: Handle)
    returns (k: nat)
    requires Infinite(st, ac) && Released(st(i), h) && i <= j && LoopOrBlocked(st, ac, j)
    ensures k >= i && ac(k) == Some(Advance) && !BusySpin(st(k)) && st(k).loop == st(i).loop
    decreases j - i
  {
    InvAt(st, ac, i);
    assert StepAt(st, ac, i);
    if ac(i) == Some(Advance) {
      k := i;
    } else {
      if ac(i).Some? { ReleasedStep(st(i), ac(i).value, h); }
      k := ReleasedEnds(st, ac, i + 1, j, h);
    }
  }

  /** `j` is a step of the sender that the loop waits for. */
  lemma {:induction false} WaitEnds(st: nat -> State, ac: nat -> Option<Action>, i: nat, j: nat, h: Handle, t: nat)
    returns (k: nat)
    requires Infinite(st, ac) && LoopFair(st, ac) && SendersFair(st, ac)
    requires WaitsFor(st(i), h, t) && i <= j && ac(j) == Some(Action.Step(t))
    ensures k >= i && ac(k) == Some(Advance) && !BusySpin(st(k)) && st(k).loop == st(i).loop
    decreases if st(i).senders[t].Write? then 1 else 0, j - i
  {
    InvAt(st, ac, i);
    assert StepAt(st, ac, i);
    if ac(i).Some? { WaitStep(st(i), ac(i).value, h, t); }
    if ac(i) != Some(Action.Step(t)) {
      k := WaitEnds(st, ac, i + 1, j, h, t);
    } else if st(i).senders[t].Write? {
      assert SenderSoon(st, ac, i + 1, t);
      var n: nat :| i + 1 <= n && ac(n) == Some(Action.Step(t));
      k := WaitEnds(st, ac, i + 1, n, h, t);
    } else {
      assert LoopSoon(st, ac, i + 1);
      var n: nat :| i + 1 <= n && LoopOrBlocked(st, ac, n);
      k := ReleasedEnds(st, ac, i + 1, n, h);
    }
  }

  /** A loop thread that is in uv__async_spin, on its own or for a close, gets out of it. */
  lemma {:induction false} SpinEnds(st: nat -> State, ac: nat -> Option<Action>, i: nat, j: nat) returns (k: nat)
    requires Infinite(st, ac) && LoopFair(st, ac) && SendersFair(st, ac)
    requires (st(i).loop.Spin? || st(i).loop.Closing?) && i <= j && LoopOrBlocked(st, ac, j)
    ensures k >= i && ac(k) == Some(Advance) && !BusySpin(st(k)) && st(k).loop == st(i).loop
    decreases j - i
  {
    InvAt(st, ac, i);
    assert StepAt(st, ac, i);
    if ac(i) != Some(Advance) {
      k := SpinEnds(st, ac, i + 1, j);
    } else if !BusySpin(st(i)) {
      k := i;
    } else {
      var h := st(i).loop.h;
      var t := SomeHolder(st(i).senders, h);
      assert SenderSoon(st, ac, i, t);
      var n: nat :| i <= n && ac(n) == Some(Action.Step(t));
      k := WaitEnds(st, ac, i, n, h, t);
    }
  }

  /** Every close is completed. */
  lemma CloseEnds(st: nat -> State, ac: nat -> Option<Action>, i: nat) returns (k: nat)
    requires Infinite(st, ac) && LoopFair(st, ac) && SendersFair(st, ac)
    ensures k >= i && !st(k).loop.Closing?
  {
    k := i;
    if st(i).loop.Closing? {
      assert LoopSoon(st, ac, i);
      var j: nat :| i <= j && LoopOrBlocked(st, ac, j);
      k := SpinEnds(st, ac, i, j);
      InvAt(st, ac, k);
      assert StepAt(st, ac, k);
      k := k + 1;
    }
  }

  /** A loop in code of its own goes on. */
  lemma {:induction false} OwnCodeEnds(st: nat -> State, ac: nat -> Option<Action>, i: nat, j: nat) returns (k: nat)
    requires Infinite(st, ac) && LoopFair(st, ac) && SendersFair(st, ac)
    requires InOwnCode(st(i).loop) && i <= j && LoopOrBlocked(st, ac, j)
    ensures k >= i && ProgressAt(st, ac, k)
    decreases j - i
  {
    assert StepAt(st, ac, i);
    if st(i).loop.Spin? {
      k := SpinEnds(st, ac, i, j);
    } else if LoopAt(ac, i) {
      k := i;
    } else {
      k := OwnCodeEnds(st, ac, i + 1, j);
    }
  }

  // ---------- callbacks end ----------

  /** A callback runs, or a close that it makes. */
  predicate InCallback(l: Loop) { l.Running? || (l.Closing? && l.back.Running?) }

  lemma {:induction false} QuietReturns(st: nat -> State, ac: nat -> Option<Action>, i: nat, j: nat) returns (k: nat)
    requires Infinite(st, ac) && st(i).loop.Running? && QuietFrom(ac, i) && i <= j && LoopOrBlocked(st, ac, j)
    ensures k >= i && ProgressAt(st, ac, k) && !InCallback(st(k + 1).loop)
    decreases j - i
  {
    assert StepAt(st, ac, i) && !UserAt(ac, i);
    if LoopAt(ac, i) { k := i; } else { k := QuietReturns(st, ac, i + 1, j); }
  }

  /** Every callback ends. */
  lemma CallbackEnds(st: nat -> State, ac: nat -> Option<Action>, i: nat) returns (k: nat)
    requires Infinite(st, ac) && LoopFair(st, ac) && UserFair(st, ac) && SendersFair(st, ac)
    ensures k >= i && !InCallback(st(k).loop)
  {
    assert UserSoon(st, ac, i);
    k :| i <= k && (Returned(st(k)) || QuietFrom(ac, k));
    if !Returned(st(k)) {
      k := CloseEnds(st, ac, k);
      if st(k).loop.Running? {
        assert LoopSoon(st, ac, k);
        var j: nat :| k <= j && LoopOrBlocked(st, ac, j);
        k := QuietReturns(st, ac, k, j);
        k := k + 1;
      }
    }
  }

  // ---------- a blocked loop is woken ----------

  /** The loop thread stands at its poll, or makes a close there. */
  predicate AtPoll(l: Loop) { l.Poll? || (l.Closing? && l.back.Poll?) }

  lemma PollStep(s: State, a: Action)
    requires Enabled(s, a) && AtPoll(s.loop) && a != Drain
    ensures AtPoll(Apply(s, a).loop) && (s.readable ==> Apply(s, a).readable)
  {
  }

  /** A sender that is about to write the descriptor writes it, if the descriptor is not read before. */
  lemma {:induction false} Written(st: nat -> State, ac: nat -> Option<Action>, i: nat, j: nat, t: nat)
    returns (k: nat)
    requires Infinite(st, ac) && AtPoll(st(i).loop)
    requires i <= j && t < |st(i).senders| && st(i).senders[t].Write? && ac(j) == Some(Action.Step(t))
    ensures k >= i && (ProgressAt(st, ac, k) || (AtPoll(st(k).loop) && st(k).readable))
    decreases j - i
  {
    assert StepAt(st, ac, i);
    if ac(i) == Some(Drain) {
      k := i;
    } else if ac(i) == Some(Action.Step(t)) {
      k := i + 1;
    } else {
      if ac(i).Some? { PollStep(st(i), ac(i).value); }
      k := Written(st, ac, i + 1, j, t);
    }
  }

  /** What has been written can be read until it is read. */
  lemma {:induction false} ReadableUntil(st: nat -> State, ac: nat -> Option<Action>, i: nat, j: nat) returns (k: nat)
    requires Infinite(st, ac) && AtPoll(st(i).loop) && st(i).readable && i <= j
    ensures i <= k <= j && (ProgressAt(st, ac, k) || (k == j && AtPoll(st(k).loop) && st(k).readable))
    decreases j - i
  {
    assert StepAt(st, ac, i);
    if i == j || ac(i) == Some(Drain) {
      k := i;
    } else {
      if ac(i).Some? { PollStep(st(i), ac(i).value); }
      k := ReadableUntil(st, ac, i + 1, j);
    }
  }

  /** A loop thread at its poll with a readable descriptor reads it. */
  lemma {:induction false} Reads(st: nat -> State, ac: nat -> Option<Action>, i: nat, j: nat) returns (k: nat)
    requires Infinite(st, ac) && QuietFrom(ac, i) && st(i).loop == Poll && st(i).readable
    requires i <= j && LoopOrBlocked(st, ac, j)
    ensures k >= i && ProgressAt(st, ac, k)
    decreases j - i
  {
    assert StepAt(st, ac, i) && !UserAt(ac, i);
    if ac(i) == Some(Drain) { k := i; } else { k := Reads(st, ac, i + 1, j); }
  }

  /** The same when user code makes calls there for some time. */
  lemma ReadableGoesOn(st: nat -> State, ac: nat -> Option<Action>, i: nat) returns (k: nat)
    requires Infinite(st, ac) && LoopFair(st, ac) && UserFair(st, ac) && SendersFair(st, ac)
    requires AtPoll(st(i).loop) && st(i).readable
    ensures k >= i && ProgressAt(st, ac, k)
  {
    assert UserSoon(st, ac, i);
    var n: nat :| i <= n && (Returned(st(n)) || QuietFrom(ac, n));
    k := ReadableUntil(st, ac, i, n);
    if !ProgressAt(st, ac, k) {
      var m := CloseEnds(st, ac, n);
      k := ReadableUntil(st, ac, n, m);
      if !ProgressAt(st, ac, k) {
        assert LoopSoon(st, ac, m);
        var j: nat :| m <= j && LoopOrBlocked(st, ac, j);
        k := Reads(st, ac, m, j);
      }
    }
  }

  /** A loop thread at its poll while a send waits: the send's sender has written, or has yet to write. */
  lemma PollEnds(st: nat -> State, ac: nat -> Option<Action>, i: nat, h: Handle) returns (k: nat)
    requires Infinite(st, ac) && LoopFair(st, ac) && UserFair(st, ac) && SendersFair(st, ac)
    requires Due(st(i), h) && AtPoll(st(i).loop)
    ensures k >= i && ProgressAt(st, ac, k)
  {
    k := i;
    if !st(i).readable {
      InvAt(st, ac, i);
      DirtyIsAwaited(st(i), h);
      assert Todo(st(i).loop) == [];
      var t :| 0 <= t < |st(i).senders| && st(i).senders[t] == Write(h);
      assert SenderSoon(st, ac, i, t);
      var n: nat :| i <= n && ac(n) == Some(Action.Step(t));
      k := Written(st, ac, i, n, t);
    }
    if !ProgressAt(st, ac, k) { k := ReadableGoesOn(st, ac, k); }
  }

  // ---------- the loop goes on while a send waits ----------

  /** At step `j` the callback of `h` starts, or its close is being carried out. */
  predicate EventAt(st: nat -> State, h: Handle, j: nat) {
    CallbackStarts(st(j), st(j + 1), h) || (st(j).loop.Closing? && st(j).loop.h == h)
  }

  /** One step: an event, or the handle stays due and no farther away; closer if the step is progress. */
  lemma DueStep(st: nat -> State, ac: nat -> Option<Action>, i: nat, h: Handle)
    requires Infinite(st, ac) && Due(st(i), h) && !EventAt(st, h, i)
    ensures Due(st(i + 1), h) && !Closer(st(i).loop, st(i + 1).loop, h)
    ensures ProgressAt(st, ac, i) ==> Closer(st(i + 1).loop, st(i).loop, h)
  {
    InvAt(st, ac, i);
    assert StepAt(st, ac, i);
    if LoopAt(ac, i) {
      LoopGetsCloser(st(i), ac(i).value, h);
    } else if ac(i).Some? {
      OthersDoNotDelay(st(i), ac(i).value, h);
    }
  }

  ghost predicate EventBetween(st: nat -> State, h: Handle, i: nat, j: nat) {
    exists n: nat :: i <= n < j && EventAt(st, h, n)
  }

  lemma {:induction false} Wait(st: nat -> State, ac: nat -> Option<Action>, i: nat, j: nat, h: Handle)
    requires Infinite(st, ac) && Due(st(i), h) && i <= j
    ensures EventBetween(st, h, i, j) || (Due(st(j), h) && !Closer(st(i).loop, st(j).loop, h))
    decreases j - i
  {
    if i < j {
      Wait(st, ac, i, j - 1, h);
      if EventBetween(st, h, i, j - 1) {
        var n: nat :| i <= n < j - 1 && EventAt(st, h, n);
        assert EventBetween(st, h, i, j);
      } else if EventAt(st, h, j - 1) {
        assert EventBetween(st, h, i, j);
      } else {
        DueStep(st, ac, j - 1, h);
      }
    }
  }

  /** A send that waits while user code is back, or makes no more calls: the loop goes on, or it is answered. */
  lemma BackGoesOn(st: nat -> State, ac: nat -> Option<Action>, i: nat, h: Handle) returns (k: nat)
    requires Infinite(st, ac) && LoopFair(st, ac) && UserFair(st, ac) && SendersFair(st, ac) && Due(st(i), h)
    requires !st(i).loop.Closing? && (Returned(st(i)) || QuietFrom(ac, i))
    ensures k >= i && ProgressAt(st, ac, k)
  {
    if st(i).loop == Poll {
      k := PollEnds(st, ac, i, h);
    } else {
      assert LoopSoon(st, ac, i);
      var j: nat :| i <= j && LoopOrBlocked(st, ac, j);
      if st(i).loop.Running? { k := QuietReturns(st, ac, i, j); } else { k := OwnCodeEnds(st, ac, i, j); }
    }
  }

  /** While a send waits the loop goes on, or the send is answered. */
  lemma GoesOn(st: nat -> State, ac: nat -> Option<Action>, i: nat, h: Handle) returns (k: nat)
    requires Infinite(st, ac) && LoopFair(st, ac) && UserFair(st, ac) && SendersFair(st, ac) && Due(st(i), h)
    ensures k >= i && (ProgressAt(st, ac, k) || EventAt(st, h, k))
  {
    assert UserSoon(st, ac, i);
    var n: nat :| i <= n && (Returned(st(n)) || QuietFrom(ac, n));
    if !Returned(st(n)) { n := CloseEnds(st, ac, n); }
    Wait(st, ac, i, n, h);
    if EventBetween(st, h, i, n) {
      var e: nat :| i <= e < n && EventAt(st, h, e);
      k := e;
    } else {
      k := BackGoesOn(st, ac, n, h);
    }
  }

  /** In a fair run every send is answered: from any state in which a decided send of an open handle waits, the
      run reaches the start of its callback, or its close. */
  lemma {:induction false} FairRunAnswers(st: nat -> State, ac: nat -> Option<Action>, i: nat, h: Handle)
    returns (j: nat)
    requires Infinite(st, ac) && LoopFair(st, ac) && UserFair(st, ac) && SendersFair(st, ac) && Due(st(i), h)
    ensures j >= i && EventAt(st, h, j)
    decreases Phase(st(i).loop, h), Left(st(i).loop)
  {
    var k := GoesOn(st, ac, i, h);
    Wait(st, ac, i, k, h);
    if EventBetween(st, h, i, k) {
      j :| i <= j < k && EventAt(st, h, j);
    } else if EventAt(st, h, k) {
      j := k;
    } else {
      DueStep(st, ac, k, h);
      j := FairRunAnswers(st, ac, k + 1, h);
    }
  }
}
