/**
 One batch of events in uv__io_poll: what each event does to the state, with callbacks that start, stop, close
 and reuse watchers.
 */
module EventBatch {
  import opened TableSize
  import opened WatcherTable

  /** What a callback may do.  `Init` gives a watcher another file descriptor. */
  datatype Op =
    | Start(w: Io, mask: Mask)
    | Stop(w: Io, mask: Mask)
    | Close(w: Io)
    | Init(w: Io, fd: int)

  /** The operations of the callback for event `i`, and of the signal watcher's at the end of the batch. */
  type Script = (nat, Io) -> seq<Op>

  /** The rules for callers: the assertions of core.c, and one active watcher for each descriptor. */
  predicate Allowed(s: State, op: Op)
  {
    op.w in s.ios &&
    match op
    case Start(w, mask) => mask != {} && mask <= {In, Out, Pri, Rdhup} && 0 <= s.ios[w].fd < INT_MAX - 1 && Alone(s, w)
    case Stop(w, mask) => mask != {} && mask <= {In, Out, Pri, Rdhup}
    case Close(w) => Alone(s, w)
    case Init(w, fd) => s.ios[w].pevents == {} && fd >= -1
  }

  function Do(s: State, op: Op): (r: State)
    requires Ok(s) && Allowed(s, op)
    ensures Ok(r)
  {
    assert IoOk(s, op.w);
    match op
    case Start(w, mask) => StartedOk(s, w, mask); Started(s, w, mask)
    case Stop(w, mask) => StoppedOk(s, w, mask); Stopped(s, w, mask)
    case Close(w) => ClosedOk(s, w); ClosedIo(s, w)
    case Init(w, fd) => MovedOk(s, w, fd); Moved(s, w, fd)
  }

  /** A callback makes only calls that the rules allow. */
  function Try(s: State, op: Op): (r: State)
    requires Ok(s)
    ensures Ok(r)
  {
    if Allowed(s, op) then Do(s, op) else s
  }

  function Effects(s: State, ops: seq<Op>): (r: State)
    requires Ok(s)
    ensures Ok(r)
    decreases |ops|
  {
    if ops == [] then s
    else Effects(Try(s, ops[0]), ops[1..])
  }

  /** The mask a callback gets: what its watcher wants, and errors and hangups.  One of those alone is merged
      with everything the watcher wants. */
  function Given(events: Mask, wanted: Mask): Mask {
    var m := events * (wanted + TROUBLE);
    if m == {Err} || m == {Hup} then m + wanted * INTEREST else m
  }

  function Shown(s: State, i: nat): State
    requires i < |s.batch| && 0 <= s.batch[i].fd < |s.table| && s.table[s.batch[i].fd] in s.ios
  {
    var e := s.batch[i];
    s.(batch := s.batch[i := e.(events := Given(e.events, s.ios[s.table[e.fd]].pevents))])
  }

  /** The callback of an event with what is left of it; the signal watcher's is put off. */
  function Delivered(s: State, i: nat, w: Io, signal: Io, script: Script): (r: State)
    requires Ok(s) && i < |s.batch| && w in s.ios && s.batch[i].fd == s.ios[w].fd
    ensures Ok(r) && |r.batch| == |s.batch|
  {
    var mask := s.batch[i].events;
    if mask == {} then s
    else if w == signal then
      LoggedOk(s, Postponed(i));
      s.(log := s.log + [Postponed(i)])
    else
      var c := Called(i, w, s.ios[w], mask);
      LoggedOk(s, c);
      EffectsLog(s.(log := s.log + [c]), script(i, w));
      Effects(s.(log := s.log + [c]), script(i, w))
  }

  /** The turn of event `i`. */
  function Turn(s: State, i: nat, signal: Io, script: Script): (r: State)
    requires Ok(s) && i < |s.batch|
    ensures Ok(r) && |r.batch| == |s.batch|
  {
    var fd := s.batch[i].fd;
    if fd == -1 then s
    else if s.table[fd] == null then
      UnwatchedOk(s, fd);
      s.(kernel := s.kernel - {fd})
    else
      ShownOk(s, i);
      Delivered(Shown(s, i), i, s.table[fd], signal, script)
  }

  datatype Outcome = Nothing | Made | Late

  /** Whether the turn makes a callback, or puts the signal watcher's off. */
  function OutcomeOf(s: State, i: nat, signal: Io): Outcome
    requires Ok(s) && i < |s.batch|
  {
    var fd := s.batch[i].fd;
    if fd == -1 || s.table[fd] == null then Nothing
    else
      ShownOk(s, i);
      if Shown(s, i).batch[i].events == {} then Nothing else if s.table[fd] == signal then Late else Made
  }

  // ---------- the state at a turn ----------

  lemma UnwatchedOk(s: State, fd: int)
    requires Ok(s) && 0 <= fd < |s.table| && s.table[fd] == null
    ensures Ok(s.(kernel := s.kernel - {fd}))
  {
    var s' := s.(kernel := s.kernel - {fd});
    forall d | 0 <= d < |s'.table| ensures SlotOk(s', d) { assert SlotOk(s, d); }
    forall w | w in s'.ios ensures IoOk(s', w) { assert IoOk(s, w); }
  }

  lemma ShownOk(s: State, i: nat)
    requires Ok(s) && i < |s.batch| && s.batch[i].fd != -1 && s.table[s.batch[i].fd] != null
    ensures s.table[s.batch[i].fd] in s.ios && s.ios[s.table[s.batch[i].fd]].fd == s.batch[i].fd
    ensures Ok(Shown(s, i))
  {
    assert SlotOk(s, s.batch[i].fd);
    var s' := Shown(s, i);
    forall d | 0 <= d < |s'.table| ensures SlotOk(s', d) { assert SlotOk(s, d); }
    forall w | w in s'.ios ensures IoOk(s', w) { assert IoOk(s, w); }
  }

  lemma LoggedOk(s: State, c: Entry)
    requires Ok(s) && !c.Closed? && (c.Called? ==> c.i < |s.batch| && s.batch[c.i].fd == c.view.fd)
    ensures Ok(s.(log := s.log + [c]))
  {
    var s' := s.(log := s.log + [c]);
    forall d | 0 <= d < |s'.table| ensures SlotOk(s', d) { assert SlotOk(s, d); }
    forall w | w in s'.ios ensures IoOk(s', w) { assert IoOk(s, w); }
  }

  /** A callback only adds closed descriptors to the log, and changes no length. */
  predicate Follows(s: State, r: State)
  {
    && |r.batch| == |s.batch| && s.log <= r.log
    && forall a :: |s.log| <= a < |r.log| ==> r.log[a].Closed?
  }

  lemma {:induction false} EffectsLog(s: State, ops: seq<Op>)
    requires Ok(s)
    ensures Follows(s, Effects(s, ops))
    decreases |ops|
  {
    if ops != [] {
      EffectsLog(Try(s, ops[0]), ops[1..]);
    }
  }

  // ---------- what is skipped and what is called ----------

  /** At the turn of event `i`: exactly the events of closed descriptors are struck out, and from `i` on the
      masks are those the kernel reported. */
  predicate Kept(reported: seq<Event>, s: State, i: nat)
  {
    && |s.batch| == |reported|
    && (forall j :: 0 <= j < |reported| ==>
          s.batch[j].fd == if Closed(reported[j].fd) in s.log then -1 else reported[j].fd)
    && forall j :: i <= j < |reported| ==> s.batch[j].events == reported[j].events
  }

  /** Callbacks are made in the order of the events, once for an event, and with events that the watcher
      wanted at that time. */
  predicate CallsOk(log: seq<Entry>, i: nat)
  {
    && (forall a :: 0 <= a < |log| && log[a].Called? ==>
          log[a].i < i && log[a].view.pevents != {} && {} < log[a].mask <= log[a].view.pevents + TROUBLE)
    && forall a, b :: 0 <= a < b < |log| && log[a].Called? && log[b].Called? ==> log[a].i < log[b].i
  }

  lemma DoKept(reported: seq<Event>, s: State, i: nat, op: Op)
    requires Ok(s) && Allowed(s, op) && Kept(reported, s, i)
    ensures Kept(reported, Do(s, op), i)
  {
    assert IoOk(s, op.w);
    if op.Close? && s.ios[op.w].fd != -1 {
      ClosedKept(reported, s, i, op.w);
    } else {
      assert Do(s, op).batch == s.batch && Do(s, op).log == s.log;
    }
  }

  lemma ClosedKept(reported: seq<Event>, s: State, i: nat, w: Io)
    requires Ok(s) && w in s.ios && s.ios[w].fd >= 0 && Kept(reported, s, i)
    ensures Kept(reported, ClosedIo(s, w), i)
  {
    var fd, s1 := s.ios[w].fd, Stopped(s, w, INTEREST);
    assert s1.batch == s.batch && s1.log == s.log;
    var r := ClosedIo(s, w);
    forall j | 0 <= j < |reported|
      ensures r.batch[j].fd == if Closed(reported[j].fd) in r.log then -1 else reported[j].fd
    {
      assert Closed(reported[j].fd) in r.log <==> Closed(reported[j].fd) in s.log || reported[j].fd == fd;
    }
  }

  lemma {:induction false} EffectsKept(reported: seq<Event>, s: State, i: nat, ops: seq<Op>)
    requires Ok(s) && Kept(reported, s, i)
    ensures Kept(reported, Effects(s, ops), i)
    decreases |ops|
  {
    if ops != [] {
      if Allowed(s, ops[0]) { DoKept(reported, s, i, ops[0]); }
      EffectsKept(reported, Try(s, ops[0]), i, ops[1..]);
    }
  }

  /** The first change of a turn that makes a callback, and of one that only masks the event. */
  lemma ShownKept(reported: seq<Event>, s: State, i: nat, more: seq<Entry>)
    requires Ok(s) && i < |s.batch| && Kept(reported, s, i) && s.batch[i].fd != -1 && s.table[s.batch[i].fd] != null
    requires forall c :: c in more ==> !c.Closed?
    ensures s.table[s.batch[i].fd] in s.ios
    ensures Kept(reported, Shown(s, i).(log := s.log + more), i + 1)
  {
    ShownOk(s, i);
  }

  lemma TurnKept(reported: seq<Event>, s: State, i: nat, signal: Io, script: Script)
    requires Ok(s) && i < |s.batch| && Kept(reported, s, i)
    ensures Kept(reported, Turn(s, i, signal, script), i + 1)
  {
    var e := s.batch[i];
    if e.fd != -1 && s.table[e.fd] != null {
      ShownOk(s, i);
      var w, s1 := s.table[e.fd], Shown(s, i);
      var c := Called(i, w, s.ios[w], s1.batch[i].events);
      ShownKept(reported, s, i, []);
      assert s.log + [] == s.log;
      ShownKept(reported, s, i, [Postponed(i)]);
      ShownKept(reported, s, i, [c]);
      if s1.batch[i].events != {} && w != signal {
        LoggedOk(s1, c);
        EffectsKept(reported, s1.(log := s.log + [c]), i + 1, script(i, w));
      }
    }
  }

  /** The log after a turn: at most one callback, then what it closed. */
  lemma DeliveredCalls(s: State, i: nat, w: Io, signal: Io, script: Script)
    requires Ok(s) && i < |s.batch| && w in s.ios && s.batch[i].fd == s.ios[w].fd && CallsOk(s.log, i)
    requires s.ios[w].pevents != {} && s.batch[i].events <= s.ios[w].pevents + TROUBLE
    ensures CallsOk(Delivered(s, i, w, signal, script).log, i + 1)
  {
    var mask, r := s.batch[i].events, Delivered(s, i, w, signal, script);
    if mask != {} && w != signal {
      var c := Called(i, w, s.ios[w], mask);
      LoggedOk(s, c);
      EffectsLog(s.(log := s.log + [c]), script(i, w));
      CallsNext(s.log, c, r.log, i);
    }
  }

  lemma CallsNext(log: seq<Entry>, c: Entry, r: seq<Entry>, i: nat)
    requires CallsOk(log, i) && log + [c] <= r && c.Called? && c.i == i
    requires c.view.pevents != {} && {} < c.mask <= c.view.pevents + TROUBLE
    requires forall a :: |log| < a < |r| ==> r[a].Closed?
    ensures CallsOk(r, i + 1)
  {
    assert forall a :: 0 <= a < |log| ==> r[a] == log[a];
    assert r[|log|] == c;
  }

  lemma TurnCalls(s: State, i: nat, signal: Io, script: Script)
    requires Ok(s) && i < |s.batch| && CallsOk(s.log, i)
    ensures CallsOk(Turn(s, i, signal, script).log, i + 1)
  {
    var e := s.batch[i];
    if e.fd != -1 && s.table[e.fd] != null {
      ShownOk(s, i);
      assert SlotOk(s, e.fd);
      var w := s.table[e.fd];
      IoInterest(s, w);
      GivenExact(e.events, s.ios[w].pevents);
      DeliveredCalls(Shown(s, i), i, w, signal, script);
    }
  }

  lemma IoInterest(s: State, w: Io)
    requires Ok(s) && w in s.ios
    ensures s.ios[w].pevents <= INTEREST
  {
    assert IoOk(s, w);
  }

  /** What a callback is given: all that is reported and wanted, reported errors and hangups, and, when nothing is left
      but one of those two, all that is wanted. */
  lemma GivenMembers(events: Mask, wanted: Mask, x: Flag)
    requires wanted <= INTEREST
    ensures var left := events * (wanted + {Err, Hup});
      x in Given(events, wanted) <==>
      (x in events && (x in wanted || x == Err || x == Hup)) || (x in wanted && (left == {Err} || left == {Hup}))
  {
  }

  /** What a callback is given.  It hears of nothing that its watcher does not want but errors and hangups; it
      is made iff something is left of the event; and it hears of something wanted, unless all that is left is an
      error together with a hangup. */
  lemma GivenExact(events: Mask, wanted: Mask)
    requires wanted <= INTEREST
    ensures Given(events, wanted) <= wanted + TROUBLE && Given(events, wanted) * TROUBLE == events * TROUBLE
    ensures Given(events, wanted) == {} <==> events * (wanted + TROUBLE) == {}
    ensures Given(events, wanted) != {} && wanted != {} ==>
              (Given(events, wanted) * wanted == {} <==> events * (wanted + TROUBLE) == {Err, Hup})
  {
    var m := events * (wanted + TROUBLE);
    assert m * TROUBLE == events * TROUBLE;
    assert wanted * INTEREST == wanted;
    assert (m + wanted) * TROUBLE == m * TROUBLE;
    if m * wanted == {} {
      assert m <= TROUBLE;
      assert Err in m || Hup in m || m == {};
      assert Err in m && Hup in m ==> m == {Err, Hup};
      assert Err in m && Hup !in m ==> m == {Err};
      assert Err !in m && Hup in m ==> m == {Hup};
      assert (m + wanted) * wanted == wanted;
    }
  }

  lemma TurnBoth(reported: seq<Event>, s: State, i: nat, signal: Io, script: Script)
    requires Ok(s) && i < |s.batch| && Kept(reported, s, i) && CallsOk(s.log, i)
    ensures var r := Turn(s, i, signal, script); Kept(reported, r, i + 1) && CallsOk(r.log, i + 1)
  {
    TurnKept(reported, s, i, signal, script);
    TurnCalls(s, i, signal, script);
  }

  // ---------- the whole batch ----------

  ghost predicate TurnAt(run: seq<State>, k: nat, signal: Io, script: Script)
    requires k + 1 < |run|
  {
    Ok(run[k]) && k < |run[k].batch| && run[k + 1] == Turn(run[k], k, signal, script)
  }

  /** The states between the turns, from a batch as the kernel reports it. */
  ghost predicate IsRun(run: seq<State>, reported: seq<Event>, signal: Io, script: Script)
  {
    && 0 < |run| <= |reported| + 1
    && Ok(run[0]) && run[0].batch == reported && run[0].log == []
    && (forall i :: 0 <= i < |reported| ==> reported[i].fd in run[0].kernel)
    && forall k :: 0 <= k < |run| - 1 ==> TurnAt(run, k, signal, script)
  }

  /** Whether a turn before the last state of the run had outcome `o`. */
  ghost predicate Had(run: seq<State>, o: Outcome, signal: Io)
    requires forall k :: 0 <= k < |run| - 1 ==> Ok(run[k]) && k < |run[k].batch|
  {
    exists k :: 0 <= k < |run| - 1 && OutcomeOf(run[k], k, signal) == o
  }

  /** The end of a batch: the signal watcher runs last, if it had an event. */
  ghost function Ended(run: seq<State>, signal: Io, script: Script): State
    requires run != [] && forall k :: 0 <= k < |run| ==> Ok(run[k]) && (k < |run| - 1 ==> k < |run[k].batch|)
  {
    var s := run[|run| - 1];
    LoggedOk(s, Signalled);
    var s' := if Had(run, Late, signal) then Effects(s.(log := s.log + [Signalled]), script(|run| - 1, signal)) else s;
    s'.(batch := [])
  }

  lemma Begun(run: seq<State>, reported: seq<Event>, signal: Io, script: Script)
    requires IsRun(run, reported, signal, script)
    ensures Kept(reported, run[0], 0) && CallsOk(run[0].log, 0)
    ensures forall i :: 0 <= i < |reported| ==> reported[i].fd >= 0
  {
    assert forall i :: 0 <= i < |reported| ==> reported[i].fd in run[0].kernel;
  }

  /** Every state of a batch is sound: the table agrees with the masks, closed descriptors' events and only those
      are struck out, and the callbacks so far are in order. */
  lemma {:induction false} RunOk(run: seq<State>, reported: seq<Event>, i: nat, signal: Io, script: Script)
    requires IsRun(run, reported, signal, script) && i < |run|
    ensures Ok(run[i]) && Kept(reported, run[i], i) && CallsOk(run[i].log, i)
  {
    if i == 0 {
      Begun(run, reported, signal, script);
    } else {
      RunOk(run, reported, i - 1, signal, script);
      assert TurnAt(run, i - 1, signal, script);
      TurnBoth(reported, run[i - 1], i - 1, signal, script);
    }
  }

  /** The watcher of the event's descriptor wants some of it, and the descriptor has not been closed. */
  predicate Wanted(s: State, e: Event, signal: Io)
  {
    && Closed(e.fd) !in s.log && 0 <= e.fd < |s.table| && s.table[e.fd] != signal && s.table[e.fd] in s.ios
    && e.events * (s.ios[s.table[e.fd]].pevents + TROUBLE) != {}
  }

  predicate CalledFor(log: seq<Entry>, i: nat) {
    exists a :: 0 <= a < |log| && log[a].Called? && log[a].i == i
  }

  /** The callback of event `i`, made in state `s`. */
  function CallOf(s: State, e: Event, i: nat): Entry
    requires 0 <= e.fd < |s.table| && s.table[e.fd] in s.ios
  {
    var w := s.table[e.fd];
    Called(i, w, s.ios[w], Given(e.events, s.ios[w].pevents))
  }

  /** From the log `l`, event `i` leads to the log `r`. */
  predicate Fate(s: State, r: seq<Entry>, e: Event, i: nat, signal: Io)
  {
    && s.log <= r
    && (Wanted(s, e, signal) ==> |r| > |s.log| && r[|s.log|] == CallOf(s, e, i))
    && forall a :: |s.log| <= a < |r| && r[a].Called? ==> r[a].i == i && Wanted(s, e, signal)
  }

  lemma TurnFate(reported: seq<Event>, s: State, i: nat, signal: Io, script: Script)
    requires Ok(s) && i < |s.batch| && Kept(reported, s, i) && reported[i].fd != -1
    ensures Fate(s, Turn(s, i, signal, script).log, reported[i], i, signal)
  {
    var e, r := s.batch[i], Turn(s, i, signal, script);
    if e.fd != -1 && s.table[e.fd] != null {
      ShownOk(s, i);
      assert SlotOk(s, e.fd);
      var w, s1 := s.table[e.fd], Shown(s, i);
      IoInterest(s, w);
      GivenExact(e.events, s.ios[w].pevents);
      if s1.batch[i].events != {} && w != signal {
        var c := Called(i, w, s.ios[w], s1.batch[i].events);
        LoggedOk(s1, c);
        EffectsLog(s1.(log := s.log + [c]), script(i, w));
      }
    }
  }

  lemma StepFate(run: seq<State>, reported: seq<Event>, i: nat, signal: Io, script: Script)
    requires IsRun(run, reported, signal, script) && i < |run| - 1
    ensures CallsOk(run[i].log, i) && Fate(run[i], run[i + 1].log, reported[i], i, signal)
  {
    RunOk(run, reported, i, signal, script);
    Begun(run, reported, signal, script);
    assert TurnAt(run, i, signal, script);
    TurnFate(reported, run[i], i, signal, script);
  }

  /** `r` continues `l` with callbacks for events from `i` on. */
  predicate Continues(l: seq<Entry>, r: seq<Entry>, i: nat) {
    l <= r && forall a :: |l| <= a < |r| && r[a].Called? ==> r[a].i >= i
  }

  lemma ContinuesTwice(l: seq<Entry>, m: seq<Entry>, r: seq<Entry>, i: nat, k: nat)
    requires Continues(l, m, i) && Continues(m, r, k) && i <= k
    ensures Continues(l, r, i)
  {
  }

  lemma StepGrows(run: seq<State>, reported: seq<Event>, i: nat, signal: Io, script: Script)
    requires IsRun(run, reported, signal, script) && i < |run| - 1
    ensures Continues(run[i].log, run[i + 1].log, i)
  {
    StepFate(run, reported, i, signal, script);
  }

  lemma {:induction false} LogGrows(run: seq<State>, reported: seq<Event>, i: nat, n: nat, signal: Io, script: Script)
    requires IsRun(run, reported, signal, script) && i <= n < |run|
    ensures Continues(run[i].log, run[n].log, i)
    decreases n
  {
    if i < n {
      LogGrows(run, reported, i, n - 1, signal, script);
      StepGrows(run, reported, n - 1, signal, script);
      ContinuesTwice(run[i].log, run[n - 1].log, run[n].log, i, n - 1);
    }
  }

  lemma CalledOnce(s: State, l: seq<Entry>, r: seq<Entry>, e: Event, i: nat, signal: Io)
    requires CallsOk(s.log, i) && Fate(s, l, e, i, signal) && Continues(l, r, i + 1)
    ensures CalledFor(r, i) <==> Wanted(s, e, signal)
    ensures Wanted(s, e, signal) ==> CallOf(s, e, i) in r
  {
    if Wanted(s, e, signal) { assert r[|s.log|] == CallOf(s, e, i); }
    assert forall a :: 0 <= a < |s.log| ==> r[a] == s.log[a];
    assert forall a :: 0 <= a < |l| ==> r[a] == l[a];
  }

  /** Which events of a batch reach their watchers: those whose descriptor is, at their turn, watched with some
      interest in them and has not been closed since the batch began. */
  lemma CalledIffWanted(run: seq<State>, reported: seq<Event>, i: nat, signal: Io, script: Script)
    requires IsRun(run, reported, signal, script) && i < |run| - 1
    ensures var last := run[|run| - 1].log;
            && (CalledFor(last, i) <==> Wanted(run[i], reported[i], signal))
            && (Wanted(run[i], reported[i], signal) ==> CallOf(run[i], reported[i], i) in last)
  {
    StepFate(run, reported, i, signal, script);
    LogGrows(run, reported, i + 1, |run| - 1, signal, script);
    CalledOnce(run[i], run[i + 1].log, run[|run| - 1].log, reported[i], i, signal);
  }

  /** Nothing of a batch reaches a descriptor once it has been closed, even if it has been opened again and the
      table has grown since. */
  lemma NothingAfterClose(run: seq<State>, reported: seq<Event>, i: nat, j: nat, signal: Io, script: Script)
    requires IsRun(run, reported, signal, script) && i <= j < |run| - 1
    requires Closed(reported[j].fd) in run[i].log
    ensures !CalledFor(run[|run| - 1].log, j)
  {
    LogGrows(run, reported, i, j, signal, script);
    CalledIffWanted(run, reported, j, signal, script);
  }

  // ---------- the signal watcher ----------

  /** The event is for the signal watcher, which wants some of it, and the descriptor has not been closed. */
  predicate SignalWanted(s: State, e: Event, signal: Io)
  {
    && Closed(e.fd) !in s.log && 0 <= e.fd < |s.table| && s.table[e.fd] == signal && signal in s.ios
    && e.events * (s.ios[signal].pevents + {Err, Hup}) != {}
  }

  lemma LateExact(run: seq<State>, reported: seq<Event>, k: nat, signal: Io, script: Script)
    requires IsRun(run, reported, signal, script) && k < |run| - 1
    ensures Ok(run[k]) && k < |run[k].batch|
    ensures OutcomeOf(run[k], k, signal) == Late <==> SignalWanted(run[k], reported[k], signal)
  {
    RunOk(run, reported, k, signal, script);
    Begun(run, reported, signal, script);
    var s, e := run[k], run[k].batch[k];
    if e.fd != -1 && s.table[e.fd] != null {
      ShownOk(s, k);
      IoInterest(s, s.table[e.fd]);
      GivenExact(e.events, s.ios[s.table[e.fd]].pevents);
    }
  }

  /** No callback of the signal watcher so far. */
  predicate NoSignal(log: seq<Entry>, signal: Io)
  {
    forall a :: 0 <= a < |log| ==> log[a] != Signalled && (log[a].Called? ==> log[a].w != signal)
  }

  lemma NoSignalMore(log: seq<Entry>, c: Entry, r: seq<Entry>, signal: Io)
    requires NoSignal(log, signal) && c != Signalled && (c.Called? ==> c.w != signal) && log + [c] <= r
    requires forall a :: |log| < a < |r| ==> r[a].Closed?
    ensures NoSignal(r, signal)
  {
    assert forall a :: 0 <= a < |log| ==> r[a] == log[a];
    assert r[|log|] == c;
  }

  lemma TurnNoSignal(s: State, i: nat, signal: Io, script: Script)
    requires Ok(s) && i < |s.batch| && NoSignal(s.log, signal)
    ensures NoSignal(Turn(s, i, signal, script).log, signal)
  {
    var e := s.batch[i];
    if e.fd != -1 && s.table[e.fd] != null {
      ShownOk(s, i);
      var w, s1 := s.table[e.fd], Shown(s, i);
      if s1.batch[i].events != {} && w != signal {
        var c := Called(i, w, s.ios[w], s1.batch[i].events);
        LoggedOk(s1, c);
        EffectsLog(s1.(log := s.log + [c]), script(i, w));
        NoSignalMore(s.log, c, Turn(s, i, signal, script).log, signal);
      }
    }
  }

  lemma {:induction false} RunNoSignal(run: seq<State>, reported: seq<Event>, i: nat, signal: Io, script: Script)
    requires IsRun(run, reported, signal, script) && i < |run|
    ensures NoSignal(run[i].log, signal)
  {
    if i > 0 {
      RunNoSignal(run, reported, i - 1, signal, script);
      assert TurnAt(run, i - 1, signal, script);
      TurnNoSignal(run[i - 1], i - 1, signal, script);
    }
  }

  /** The log at the end of a batch: what the turns made of it, and the call of the signal watcher. */
  predicate SignalLast(before: seq<Entry>, after: seq<Entry>, called: bool)
  {
    before <= after && if called then |after| > |before| && after[|before|] == Signalled &&
                                      forall a :: |before| < a < |after| ==> after[a].Closed?
                       else after == before
  }

  /** The signal watcher is called once at the end of the batch, behind all other callbacks, iff an event of the batch
      was for it; and not before. */
  lemma SignalExact(run: seq<State>, reported: seq<Event>, signal: Io, script: Script)
    requires IsRun(run, reported, signal, script)
    requires forall k :: 0 <= k < |run| ==> Ok(run[k]) && |run[k].batch| == |reported|
    ensures NoSignal(run[|run| - 1].log, signal)
    ensures SignalLast(run[|run| - 1].log, Ended(run, signal, script).log,
                       exists k :: 0 <= k < |run| - 1 && SignalWanted(run[k], reported[k], signal))
  {
    RunNoSignal(run, reported, |run| - 1, signal, script);
    forall k | 0 <= k < |run| - 1
      ensures OutcomeOf(run[k], k, signal) == Late <==> SignalWanted(run[k], reported[k], signal)
    {
      LateExact(run, reported, k, signal, script);
    }
    SignalEnds(run[|run| - 1], script(|run| - 1, signal));
  }

  lemma SignalEnds(s: State, ops: seq<Op>)
    requires Ok(s)
    ensures Ok(s.(log := s.log + [Signalled]))
    ensures SignalLast(s.log, Effects(s.(log := s.log + [Signalled]), ops).log, true)
  {
    LoggedOk(s, Signalled);
    EffectsLog(s.(log := s.log + [Signalled]), ops);
  }

  /** An event for a descriptor that nobody watches makes the kernel forget the descriptor, and changes nothing else. */
  lemma Unwatched(s: State, i: nat, signal: Io, script: Script)
    requires Ok(s) && i < |s.batch| && s.batch[i].fd >= 0 && s.table[s.batch[i].fd] == null
    ensures var r, fd := Turn(s, i, signal, script), s.batch[i].fd;
      && fd !in r.kernel && (forall d :: d != fd ==> (d in r.kernel <==> d in s.kernel))
      && (forall d :: d != fd && d in s.kernel ==> r.kernel[d] == s.kernel[d]) && r == s.(kernel := r.kernel)
  {
  }

  // ---------- beginning and end ----------

  lemma BatchOnly(s: State, batch: seq<Event>, log: seq<Entry>)
    requires Ok(s) && (batch == [] || log == []) && NoStale(log)
    requires forall a :: 0 <= a < |log| && log[a].Closed? ==> log[a].fd >= 0
    requires forall i :: 0 <= i < |batch| ==> batch[i].fd in s.kernel
    ensures Ok(s.(batch := batch, log := log))
  {
    var s' := s.(batch := batch, log := log);
    forall d | 0 <= d < |s'.table| ensures SlotOk(s', d) { assert SlotOk(s, d); }
    forall w | w in s'.ios ensures IoOk(s', w) { assert IoOk(s, w); }
  }

  /** One more turn. */
  lemma RunMore(run: seq<State>, reported: seq<Event>, s: State, signal: Io, script: Script)
    requires IsRun(run, reported, signal, script) && |run| <= |reported|
    requires Ok(run[|run| - 1]) && |run[|run| - 1].batch| == |reported|
    requires s == Turn(run[|run| - 1], |run| - 1, signal, script)
    ensures IsRun(run + [s], reported, signal, script)
  {
    var r := run + [s];
    forall k | 0 <= k < |r| - 1 ensures TurnAt(r, k, signal, script) {
      if k < |run| - 1 { assert TurnAt(run, k, signal, script); }
    }
  }

  lemma HadMore(run: seq<State>, s: State, o: Outcome, signal: Io)
    requires run != [] && forall k :: 0 <= k < |run| ==> Ok(run[k]) && k < |run[k].batch|
    ensures Had(run + [s], o, signal) <==> Had(run, o, signal) || OutcomeOf(run[|run| - 1], |run| - 1, signal) == o
  {
    var r := run + [s];
    forall k | 0 <= k < |run| ensures r[k] == run[k] {}
    if OutcomeOf(run[|run| - 1], |run| - 1, signal) == o { assert OutcomeOf(r[|run| - 1], |run| - 1, signal) == o; }
    if Had(run, o, signal) {
      var k :| 0 <= k < |run| - 1 && OutcomeOf(run[k], k, signal) == o;
      assert OutcomeOf(r[k], k, signal) == o;
    }
  }

  /** What the loop of a dispatch keeps: the run so far, whether the signal watcher's callback was put off, and
      whether any watcher had an event. */
  ghost predicate Tracks(run: seq<State>, reported: seq<Event>, signal: Io, script: Script, late: bool, some: bool)
  {
    && IsRun(run, reported, signal, script)
    && (forall k :: 0 <= k < |run| ==> Ok(run[k]) && |run[k].batch| == |reported|)
    && (late <==> Had(run, Late, signal))
    && (some <==> Had(run, Made, signal) || Had(run, Late, signal))
  }

  lemma TracksMore(run: seq<State>, reported: seq<Event>, s: State, signal: Io, script: Script, late: bool, some: bool)
    requires Tracks(run, reported, signal, script, late, some) && |run| <= |reported|
    requires s == Turn(run[|run| - 1], |run| - 1, signal, script)
    ensures var o := OutcomeOf(run[|run| - 1], |run| - 1, signal);
            Tracks(run + [s], reported, signal, script, late || o == Late, some || o != Nothing)
  {
    RunMore(run, reported, s, signal, script);
    HadMore(run, s, Made, signal);
    HadMore(run, s, Late, signal);
  }

  lemma TracksFirst(s: State, reported: seq<Event>, signal: Io, script: Script)
    requires Ok(s) && s.batch == reported && s.log == []
    requires forall i :: 0 <= i < |reported| ==> reported[i].fd in s.kernel
    ensures Tracks([s], reported, signal, script, false, false)
  {
  }
}
