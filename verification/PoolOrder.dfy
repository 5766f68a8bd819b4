/**
 What the pool's calls do and in which order its queues are served: when uv_cancel succeeds and what it changes,
 what a worker takes, first come first served in `wq`, and the order of delivery.
 */
module PoolOrder {
  import opened Basics
  import opened Options
  import opened Pool

  // ---------- uv_cancel ----------

  /** `q'` is `q` without one occurrence of `x`, or `q` itself if there is none. */
  ghost predicate OneLess(q: seq<Item>, q': seq<Item>, x: Item) {
    if x in q then exists i :: 0 <= i < |q| && q[i] == x && q' == q[..i] + q[i + 1..] else q' == q
  }

  lemma {:induction false} DropOneLess(q: seq<Item>, x: Item)
    ensures OneLess(q, Drop(q, x), x)
  {
    if q != [] {
      assert q == [q[0]] + q[1..];
      if q[0] == x {
        assert Drop(q, x) == q[..0] + q[1..];
      } else {
        DropOneLess(q[1..], x);
        OneLessBehind(q[0], q[1..], Drop(q[1..], x), x);
      }
    }
  }

  lemma OneLessBehind(y: Item, q: seq<Item>, q': seq<Item>, x: Item)
    requires OneLess(q, q', x) && y != x
    ensures OneLess([y] + q, [y] + q', x)
  {
    if x in q {
      var i :| 0 <= i < |q| && q[i] == x && q' == q[..i] + q[i + 1..];
      var r := [y] + q;
      assert r[i + 1] == x && [y] + q' == r[..i + 1] + r[i + 2..];
    }
  }

  /** No worker has the request in hand, and its work function has not run. */
  predicate NotStarted(s: State, x: Item)
    requires x.Job? && x.id < |s.reqs|
  {
    (forall t :: 0 <= t < |s.workers| ==> Holds(s.workers[t], x) == 0) && s.reqs[x.id].runs == 0
  }

  /** The request has gone from its queue into the hands of the canceller, and nothing else has changed. */
  ghost predicate TakenOut(s: State, s': State, x: Item)
    requires Known(s, x)
  {
    var l := s.reqs[x.id].loop;
    && |s'.reqs| == |s.reqs| && |s'.loops| == |s.loops|
    && s'.reqs[x.id] == s.reqs[x.id].(work := Cancelled)
    && (forall id :: 0 <= id < |s.reqs| && id != x.id ==> s'.reqs[id] == s.reqs[id])
    && s'.loops[l].handoff == [x]
    && OneLess(s.loops[l].done, s'.loops[l].done, x) && OneLess(s.loops[l].batch, s'.loops[l].batch, x)
    && (forall m :: 0 <= m < |s.loops| && m != l ==> s'.loops[m] == s.loops[m])
    && OneLess(s.wq, s'.wq, x) && OneLess(s.slowq, s'.slowq, x)
    && s'.workers == s.workers && s'.idle == s.idle && s'.running == s.running && s'.started == s.started
  }

  /** Where a request that has not been delivered is. */
  lemma SomewhereOrHeld(s: State, x: Item)
    requires Core(s) && Known(s, x) && s.reqs[x.id].outcomes == [] && s.loops[s.reqs[x.id].loop].handoff == []
    ensures var side := s.loops[s.reqs[x.id].loop];
      || x in s.wq || x in s.slowq || x in side.done || x in side.batch
      || exists t :: 0 <= t < |s.workers| && Holds(s.workers[t], x) == 1
  {
    assert Everywhere(s, x) == 1;
    assert x in multiset(s.wq) <==> x in s.wq;
    assert x in multiset(s.slowq) <==> x in s.slowq;
    if l :| 0 <= l < |s.loops| && Side(s.loops[l], x) > 0 {
      InSide(s.loops[l], x);
      assert SideOk(s, l);
    } else if forall t :: 0 <= t < |s.workers| ==> Holds(s.workers[t], x) == 0 {
      HeldNone(s.workers, x);
      KeptNone(s.loops, x);
    }
  }

  /** A request that a worker has in hand is in no queue. */
  lemma HeldNotQueued(s: State, x: Item, t: nat)
    requires Core(s) && Known(s, x) && t < |s.workers| && Holds(s.workers[t], x) == 1
    ensures var side := s.loops[s.reqs[x.id].loop];
      x !in s.wq && x !in s.slowq && x !in side.done && x !in side.batch
  {
    OnlyAtWorker(s, t, x);
    InSide(s.loops[s.reqs[x.id].loop], x);
  }

  /** A request in a queue has not run, and its `work` is not NULL, or it has run and `work` is NULL. */
  lemma QueuedRuns(s: State, x: Item)
    requires Core(s) && Known(s, x)
    ensures x in s.wq || x in s.slowq ==> s.reqs[x.id].runs == 0 && s.reqs[x.id].work != Null
    ensures var side := s.loops[s.reqs[x.id].loop];
      x in side.done || x in side.batch ==> (s.reqs[x.id].runs == 0 <==> s.reqs[x.id].work != Null)
  {
    assert SideOk(s, s.reqs[x.id].loop);
  }

  /** uv_cancel succeeds iff no worker has taken the request: then the request goes from whatever queue it is in to
      the canceller.  Otherwise nothing changes. */
  lemma CancelExact(s: State, x: Item)
    requires Core(s) && Enabled(s, CancelTake(x))
    ensures if NotStarted(s, x) then TakenOut(s, Apply(s, CancelTake(x)), x) else Apply(s, CancelTake(x)) == s
  {
    CancellableExact(s, x);
    if NotStarted(s, x) { UnlinkTakes(s, x); }
  }

  lemma CancellableExact(s: State, x: Item)
    requires Core(s) && Enabled(s, CancelTake(x))
    ensures Cancellable(s, x) <==> NotStarted(s, x)
  {
    SomewhereOrHeld(s, x);
    QueuedRuns(s, x);
    if t :| 0 <= t < |s.workers| && Holds(s.workers[t], x) == 1 { HeldNotQueued(s, x, t); }
  }

  lemma UnlinkTakes(s: State, x: Item)
    requires Known(s, x)
    ensures TakenOut(s, Unlink(s, x), x)
  {
    var side := s.loops[s.reqs[x.id].loop];
    DropOneLess(s.wq, x);
    DropOneLess(s.slowq, x);
    DropOneLess(side.done, x);
    DropOneLess(side.batch, x);
  }

  /** The same in every run, where a request that has not started is one that waits in `wq` or in the slow lane, or
      was cancelled before. */
  lemma CancelInRun(states: seq<State>, i: nat, x: Item)
    requires Run(states) && i < |states| && Enabled(states[i], CancelTake(x))
    ensures var s, s' := states[i], Apply(states[i], CancelTake(x));
      && (if NotStarted(s, x) then TakenOut(s, s', x) else s' == s)
      && (NotStarted(s, x) <==> x in s.wq || x in s.slowq || s.reqs[x.id].work == Cancelled)
  {
    InvInRun(states, i);
    var s := states[i];
    CancelExact(s, x);
    SomewhereOrHeld(s, x);
    QueuedRuns(s, x);
    assert SideOk(s, s.reqs[x.id].loop);
    if t :| 0 <= t < |s.workers| && Holds(s.workers[t], x) == 1 {
      HeldNotQueued(s, x, t);
      assert WorkerOk(s, s.workers[t]);
    }
  }

  // ---------- what a worker takes ----------

  /** The first entry of `wq` that is not the message of the slow lane. */
  function FirstPlain(q: seq<Item>): Option<Item> {
    if q == [] then None else if q[0] != SlowMsg then Some(q[0]) else FirstPlain(q[1..])
  }

  /** A worker at the top of its loop takes the oldest slow request if the message is in front and fewer than half
      of the threads, rounded up, have slow requests; otherwise the first other entry; and it sleeps if there is
      none. */
  lemma WorkerTakes(s: State, t: nat, wake: nat)
    requires Core(s) && Enabled(s, Section(t, wake))
    ensures |Apply(s, Section(t, wake)).workers| == |s.workers|
    ensures var s1, s' := Reenter(s, t), Apply(s, Section(t, wake));
      var slowTurn := s.wq != [] && s.wq[0] == SlowMsg && 2 * s1.running < |s.workers| && s.slowq != [];
      s'.workers[t] ==
        if slowTurn then Busy(s.slowq[0], true)
        else match FirstPlain(s.wq)
             case None => Asleep
             case Some(x) => if x == ExitMsg then Left else Busy(x, false)
  {
    MessagesInWq(s, SlowMsg);
    TopShape(Reenter(s, t), t, wake);
    if s.wq != [] && s.wq[0] == SlowMsg { SecondIsPlain(s.wq); }
  }

  lemma SecondIsPlain(q: seq<Item>)
    requires q != [] && q[0] == SlowMsg && Count(q, SlowMsg) <= 1
    ensures FirstPlain(q) == if |q| == 1 then None else Some(q[1])
  {
    OnlyMessage(q);
    if |q| > 1 { assert q[1] in q[1..]; }
  }

  /** Everything that is queued goes to the end: a request to that of its lane, and the message of the slow lane to that
      of `wq` if it is not there. */
  lemma GoesLast(s: State, a: Action)
    requires Enabled(s, a) && (a.Submit? || a.Shutdown?)
    ensures var s', x := Apply(s, a), if a.Submit? then Job(|s.reqs|) else ExitMsg;
      if a.Submit? && a.slow
      then s'.slowq == s.slowq + [x] && s'.wq == s.wq + if SlowMsg in s.wq then [] else [SlowMsg]
      else s'.slowq == s.slowq && s'.wq == s.wq + [x]
  {
    assert s.wq + [] == s.wq;
  }

  /** When the message of the slow lane has come to the front it goes behind everything else, so that slow requests do
      not keep others waiting; it goes away when the last slow request has been taken or there was none. */
  lemma MessageGoesLast(s: State, t: nat, wake: nat)
    requires Core(s) && Enabled(s, Section(t, wake)) && s.wq != [] && s.wq[0] == SlowMsg
    ensures var s1, s' := Reenter(s, t), Apply(s, Section(t, wake));
      if 2 * s1.running >= |s.workers| || |s.slowq| > 1
      then s'.wq != [] && s'.wq[|s'.wq| - 1] == SlowMsg
      else SlowMsg !in s'.wq
  {
    MessagesInWq(s, SlowMsg);
    OnlyMessage(s.wq);
    TopMessage(Reenter(s, t), t, wake);
  }

  lemma TopMessage(s: State, t: nat, wake: nat)
    requires t < |s.workers| && s.wq != [] && s.wq[0] == SlowMsg && SlowMsg !in s.wq[1..]
    ensures var q := Top(s, t, wake).wq;
      if 2 * s.running >= |s.workers| || |s.slowq| > 1 then q != [] && q[|q| - 1] == SlowMsg else SlowMsg !in q
  {
    var rest := s.wq[1..];
    if 2 * s.running >= |s.workers| {
      if rest != [] { PlainQueue(s.(wq := rest + [SlowMsg]), t, wake); }
    } else if s.slowq == [] {
      PlainQueue(s.(wq := rest), t, wake);
      TailWithout(rest);
    }
  }

  /** What a worker leaves of `wq` when it takes what is in front. */
  lemma PlainQueue(s: State, t: nat, wake: nat)
    requires t < |s.workers|
    ensures var q := TakePlain(s, t, wake).wq; q == s.wq || (s.wq != [] && s.wq[0] != ExitMsg && q == s.wq[1..])
  {
  }

  lemma TailWithout(q: seq<Item>)
    requires SlowMsg !in q
    ensures q != [] ==> SlowMsg !in q[1..]
  {
  }

  // ---------- first come, first served ----------

  /** The order in which entries came: request `id` before request `id + 1`, and exit_message behind the `n` requests
      that were there before it. */
  function Came(x: Item, n: nat): int {
    match x
    case Job(id) => 2 * id + 1
    case ExitMsg => 2 * n
    case SlowMsg => -1
  }

  ghost predicate InOrder(q: seq<Item>, n: nat) {
    forall i, j :: 0 <= i < j < |q| && q[i] != SlowMsg && q[j] != SlowMsg ==> Came(q[i], n) < Came(q[j], n)
  }

  /** `wq` holds its entries in the order in which they came; `n` is the number of requests that were submitted
      before the shutdown, if there has been one. */
  ghost predicate Fifo(s: State, n: nat) {
    && InOrder(s.wq, n)
    && (ExitMsg in s.wq ==> n <= |s.reqs|)
    && forall x :: x in s.wq && x.Job? ==> x.id < |s.reqs|
  }

  lemma AppendInOrder(q: seq<Item>, x: Item, n: nat)
    requires InOrder(q, n) && (x != SlowMsg ==> forall y :: y in q && y != SlowMsg ==> Came(y, n) < Came(x, n))
    ensures InOrder(q + [x], n)
  {
    assert forall i :: 0 <= i < |q| ==> q[i] in q;
  }

  lemma OtherExit(q: seq<Item>, n: nat, m: nat)
    requires InOrder(q, n) && ExitMsg !in q
    ensures InOrder(q, m)
  {
  }

  lemma RestInOrder(q: seq<Item>, n: nat, i: nat)
    requires InOrder(q, n) && i < |q|
    ensures InOrder(q[..i] + q[i + 1..], n)
  {
    var r := q[..i] + q[i + 1..];
    assert forall k :: 0 <= k < |r| ==> r[k] == q[if k < i then k else k + 1];
  }

  lemma DropFifo(q: seq<Item>, n: nat, x: Item)
    requires InOrder(q, n)
    ensures InOrder(Drop(q, x), n)
  {
    DropOneLess(q, x);
    if x in q {
      var i :| 0 <= i < |q| && q[i] == x && Drop(q, x) == q[..i] + q[i + 1..];
      RestInOrder(q, n, i);
    }
  }

  /** What is left of `wq` when a worker has been at it: the entries but those at its front, and the message may have
      moved to the end. */
  lemma TopFifo(s: State, t: nat, wake: nat, n: nat)
    requires t < |s.workers| && InOrder(s.wq, n) && Count(s.wq, SlowMsg) <= 1
    ensures InOrder(Top(s, t, wake).wq, n)
  {
    if s.wq != [] {
      TailInOrder(s.wq, n);
      var rest := s.wq[1..];
      if s.wq[0] == SlowMsg {
        AppendInOrder(rest, SlowMsg, n);
        TailInOrder(rest + [SlowMsg], n);
        if rest != [] { TailInOrder(rest, n); }
        TopQueue(s, t, wake);
      }
    }
  }

  lemma TailInOrder(q: seq<Item>, n: nat)
    requires InOrder(q, n) && q != []
    ensures InOrder(q[1..], n)
  {
    RestInOrder(q, n, 0);
    assert q[..0] + q[1..] == q[1..];
  }

  /** What can be left of `wq`. */
  lemma TopQueue(s: State, t: nat, wake: nat)
    requires t < |s.workers| && s.wq != [] && s.wq[0] == SlowMsg
    ensures var q, rest := Top(s, t, wake).wq, s.wq[1..];
      || q == s.wq || q == rest || q == rest + [SlowMsg] || q == (rest + [SlowMsg])[1..]
      || (rest != [] && q == rest[1..])
  {
  }

  /** Every step keeps the order; a shutdown puts exit_message behind all requests of that time. */
  lemma FifoStep(s: State, a: Action, n: nat)
    requires Core(s) && Fifo(s, n) && Enabled(s, a)
    ensures Fifo(Apply(s, a), if a.Shutdown? then |s.reqs| else n)
  {
    match a {
      case Submit(_, _, _) => SubmitFifo(s, a, n);
      case Shutdown(_) => SubmitFifo(s, a, n);
      case Section(t, wake) => SectionFifo(s, t, wake, n);
      case CancelTake(x) => DropFifo(s.wq, n, x);
      case _ => assert Apply(s, a).wq == s.wq && |Apply(s, a).reqs| == |s.reqs|;
    }
  }

  lemma SubmitFifo(s: State, a: Action, n: nat)
    requires Core(s) && Fifo(s, n) && Enabled(s, a) && (a.Submit? || a.Shutdown?)
    ensures Fifo(Apply(s, a), if a.Shutdown? then |s.reqs| else n)
  {
    if a.Submit? {
      AppendInOrder(s.wq, if a.slow then SlowMsg else Job(|s.reqs|), n);
    } else {
      OtherExit(s.wq, n, |s.reqs|);
      AppendInOrder(s.wq, ExitMsg, |s.reqs|);
    }
  }

  lemma SectionFifo(s: State, t: nat, wake: nat, n: nat)
    requires Core(s) && Fifo(s, n) && Enabled(s, Section(t, wake))
    ensures Fifo(Apply(s, Section(t, wake)), n)
  {
    MessagesInWq(s, SlowMsg);
    TopFifo(Reenter(s, t), t, wake, n);
    TopMembers(Reenter(s, t), t, wake);
  }

  /** The number of requests at the time of the shutdown, if there was one. */
  function Before(states: seq<State>): nat
    requires states != []
    decreases |states|
  {
    if |states| == 1 || ExitMsg !in states[|states| - 1].wq then |states[|states| - 1].reqs|
    else if ExitMsg !in states[|states| - 2].wq then |states[|states| - 2].reqs|
    else Before(states[..|states| - 1])
  }

  /** In every state of every run. */
  lemma {:induction false} FifoInRun(states: seq<State>)
    requires Run(states)
    ensures Fifo(states[|states| - 1], Before(states))
    decreases |states|
  {
    var k := |states| - 1;
    if k > 0 {
      var front := states[..k];
      assert Run(front) && front[k - 1] == states[k - 1];
      FifoInRun(front);
      InvInRun(states, k - 1);
      assert Next(states[k - 1], states[k]);
      var a :| Enabled(states[k - 1], a) && states[k] == Apply(states[k - 1], a);
      FifoStep(states[k - 1], a, Before(front));
      var n := if a.Shutdown? then |states[k - 1].reqs| else Before(front);
      if ExitMsg !in states[k].wq {
        OtherExit(states[k].wq, n, Before(states));
      } else if ExitMsg !in states[k - 1].wq {
        ExitComes(states[k - 1], a);
      } else {
        assert !a.Shutdown?;
      }
    }
  }

  /** exit_message comes with a shutdown only. */
  lemma ExitComes(s: State, a: Action)
    requires Core(s) && Enabled(s, a) && ExitMsg !in s.wq && ExitMsg in Apply(s, a).wq
    ensures a.Shutdown?
  {
    match a {
      case Section(t, wake) =>
        MessagesInWq(s, SlowMsg);
        TopMembers(Reenter(s, t), t, wake);
      case CancelTake(x) =>
      case _ =>
    }
  }

  predicate IsOldest(q: seq<Item>, x: Item) {
    x.Job? && x in q && forall y :: y in q && y.Job? && y != x ==> x.id < y.id
  }

  /** A worker that takes a request from `wq` takes the oldest; and no worker leaves while a request waits that was
      submitted before the shutdown. */
  lemma OldestFirst(states: seq<State>, t: nat, wake: nat)
    requires Run(states) && Enabled(states[|states| - 1], Section(t, wake))
    ensures var s := states[|states| - 1];
      var w := Apply(s, Section(t, wake)).workers[t];
      && (w.Busy? && !w.slow ==> IsOldest(s.wq, w.item))
      && (w.Left? ==> ExitMsg in s.wq && forall y :: y in s.wq && y.Job? ==> y.id >= Before(states))
  {
    InvInRun(states, |states| - 1);
    FifoInRun(states);
    TakesOldest(states[|states| - 1], t, wake, Before(states));
  }

  lemma TakesOldest(s: State, t: nat, wake: nat, n: nat)
    requires Core(s) && Fifo(s, n) && Enabled(s, Section(t, wake))
    ensures |Apply(s, Section(t, wake)).workers| == |s.workers|
    ensures var w := Apply(s, Section(t, wake)).workers[t];
      && (w.Busy? && !w.slow ==> IsOldest(s.wq, w.item))
      && (w.Left? ==> ExitMsg in s.wq && forall y :: y in s.wq && y.Job? ==> y.id >= n)
  {
    WorkerTakes(s, t, wake);
    if x :| FirstPlain(s.wq) == Some(x) { FirstIsOldest(s.wq, n, x); }
  }

  lemma {:induction false} FirstIsOldest(q: seq<Item>, n: nat, x: Item)
    requires InOrder(q, n) && FirstPlain(q) == Some(x)
    ensures x in q && x != SlowMsg && forall y :: y in q && y != SlowMsg && y != x ==> Came(x, n) < Came(y, n)
  {
    if q[0] == SlowMsg {
      assert forall i :: 0 <= i < |q[1..]| ==> q[1..][i] == q[i + 1];
      FirstIsOldest(q[1..], n, x);
      assert forall y :: y in q <==> y == q[0] || y in q[1..];
    }
  }

  // ---------- the order of delivery ----------

  /** What waits for the loop, in the order in which it will be delivered. */
  function Line(side: LoopSide): seq<Item> { side.batch + side.done }

  /** Requests join the line at its end, when they finish or when a canceller puts them there; the first of the line is
      delivered; and only a cancel takes one out in between. */
  lemma LineStep(s: State, a: Action, l: nat)
    requires Core(s) && Enabled(s, a) && l < |s.loops|
    ensures var s' := Apply(s, a);
      && |s'.loops| == |s.loops|
      && var q, q' := Line(s.loops[l]), Line(s'.loops[l]);
         match a
         case Finish(t) => q' == if s.reqs[s.workers[t].item.id].loop == l then q + [s.workers[t].item] else q
         case CancelPut(m) => q' == if m == l then q + s.loops[l].handoff else q
         case Deliver(m) => if m == l then q != [] && q' == q[1..] else q' == q
         case CancelTake(x) => if s.reqs[x.id].loop == l && NotStarted(s, x) then OneLess(q, q', x) else q' == q
         case _ => q' == q
  {
    match a {
      case CancelTake(x) => CancelLine(s, x, l);
      case Section(t, wake) => TopKeeps(Reenter(s, t), t, wake);
      case Finish(t) =>
        var side := s.loops[s.reqs[s.workers[t].item.id].loop];
        Assoc(side.batch, side.done, [s.workers[t].item]);
      case CancelPut(m) => Assoc(s.loops[m].batch, s.loops[m].done, s.loops[m].handoff);
      case _ =>
    }
  }

  lemma CancelLine(s: State, x: Item, l: nat)
    requires Core(s) && Enabled(s, CancelTake(x)) && l < |s.loops|
    ensures |Apply(s, CancelTake(x)).loops| == |s.loops|
    ensures var q, q' := Line(s.loops[l]), Line(Apply(s, CancelTake(x)).loops[l]);
      if s.reqs[x.id].loop == l && NotStarted(s, x) then OneLess(q, q', x) else q' == q
  {
    CancelExact(s, x);
    if s.reqs[x.id].loop == l && NotStarted(s, x) { LineWithout(s, Apply(s, CancelTake(x)), l, x); }
  }

  lemma LineWithout(s: State, s': State, l: nat, x: Item)
    requires Core(s) && Known(s, x) && TakenOut(s, s', x) && s.reqs[x.id].loop == l && s.reqs[x.id].outcomes == []
    ensures OneLess(Line(s.loops[l]), Line(s'.loops[l]), x)
  {
    var side, side' := s.loops[l], s'.loops[l];
    assert !(x in side.batch && x in side.done) by {
      assert x in multiset(side.batch) <==> x in side.batch;
      assert x in multiset(side.done) <==> x in side.done;
      KeptUpdate(s.loops, l, side, x);
      assert Everywhere(s, x) == 1;
    }
    OneLessJoin(side.batch, side'.batch, side.done, side'.done, x);
  }

  lemma OneLessJoin(a: seq<Item>, a': seq<Item>, b: seq<Item>, b': seq<Item>, x: Item)
    requires OneLess(a, a', x) && OneLess(b, b', x) && !(x in a && x in b)
    ensures OneLess(a + b, a' + b', x)
  {
    if x in a {
      var i :| 0 <= i < |a| && a[i] == x && a' == a[..i] + a[i + 1..];
      LessInFirst(a, b, i);
    } else if x in b {
      var i :| 0 <= i < |b| && b[i] == x && b' == b[..i] + b[i + 1..];
      LessInSecond(a, b, i);
    }
  }

  lemma LessInFirst(a: seq<Item>, b: seq<Item>, i: nat)
    requires i < |a|
    ensures (a + b)[i] == a[i] && (a[..i] + a[i + 1..]) + b == (a + b)[..i] + (a + b)[i + 1..]
  {
  }

  lemma LessInSecond(a: seq<Item>, b: seq<Item>, i: nat)
    requires i < |b|
    ensures var j := |a| + i;
      (a + b)[j] == b[i] && a + (b[..i] + b[i + 1..]) == (a + b)[..j] + (a + b)[j + 1..]
  {
  }

  // ---------- what may happen in a state ----------

  lemma SomeSleeper(ws: seq<Worker>) returns (wake: nat)
    ensures CanWake(ws, wake)
  {
    wake := 0;
    if i :| 0 <= i < |ws| && ws[i] == Asleep { wake := i; }
  }

  /** Nothing but its own conditions keeps a call or a step of a loop from coming: a loop can submit at any time, also
      slow requests; whoever has not got a callback can be cancelled while no other cancellation of its loop is under
      way; and the loop can then go on with its batch, or take the next. */
  lemma CallsCanCome(s: State, l: nat, x: Item) returns (wake: nat)
    requires Core(s) && l < |s.loops|
    ensures Enabled(s, Submit(l, false, wake)) && Enabled(s, Submit(l, true, wake))
    ensures ExitMsg !in s.wq ==> Enabled(s, Shutdown(wake))
    ensures forall t :: 0 <= t < |s.workers| && s.workers[t] == Asleep ==> Enabled(s, Spurious(t))
    ensures var side := s.loops[l];
      if side.handoff != [] then Enabled(s, CancelPut(l))
      else
        && Enabled(s, if side.batch == [] then Move(l) else Deliver(l))
        && (x.Job? && x.id < |s.reqs| && s.reqs[x.id].loop == l && s.reqs[x.id].outcomes == [] ==>
              Enabled(s, CancelTake(x)))
  {
    wake := SomeSleeper(s.workers);
    if s.loops[l].handoff == [] && s.loops[l].batch != [] { BatchKnown(s, l); }
  }

  lemma BatchKnown(s: State, l: nat)
    requires Core(s) && l < |s.loops| && s.loops[l].batch != []
    ensures Known(s, s.loops[l].batch[0])
  {
    assert SideOk(s, l);
    assert s.loops[l].batch[0] in s.loops[l].batch;
  }
}
