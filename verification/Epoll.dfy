/**
 The code of core.c and epoll.c on the loop's fields, proved against the operations on states.

 The table has two entries more than it needs.  During a dispatch they hold the batch and its length, where
 uv__platform_invalidate_fd finds them, and maybe_resize moves them along.
 */
module Epoll {
  import opened Basics
  import opened TableSize
  import opened WatcherTable
  import opened EventBatch

  datatype Slot = Null | Watcher(w: Io) | Events(events: array<Event>) | Number(n: nat)

  datatype Ctl = Add | Mod | Del

  datatype Errno = Done | EEXIST | ENOENT

  function WatcherOf(slot: Slot): Io? {
    if slot.Watcher? then slot.w else null
  }

  function Listed(slots: seq<Slot>): seq<Io?> {
    seq(|slots|, i requires 0 <= i < |slots| => WatcherOf(slots[i]))
  }

  lemma Longer(t: seq<Io?>, len: nat, r: seq<Io?>)
    requires |t| < len && len + 2 <= UINT / 2 && |r| == Entries(len) >= |t|
    requires forall i :: 0 <= i < |r| ==> r[i] == if i < |t| then t[i] else null
    ensures r == Resized(t, len)
  {
  }

  class Loop {
    var watchers: array?<Slot>
    var nwatchers: nat
    var nfds: int
    var queue: seq<Io>
    /** What the kernel's epoll instance holds. */
    var kernel: map<int, Mask>
    const signal: Io
    /** The watchers there are. */
    var ios: set<Io>
    ghost var buf: array?<Event>
    ghost var count: nat
    ghost var log: seq<Entry>

    ghost predicate Shape()
      reads this`watchers, this`nwatchers, this`buf, this`count, watchers
    {
      if watchers == null then nwatchers == 0 && buf == null
      else
        && watchers.Length == nwatchers + 2
        && (forall fd :: 0 <= fd < nwatchers ==> watchers[fd].Null? || watchers[fd].Watcher?)
        && watchers[nwatchers] == (if buf == null then Null else Events(buf))
        && watchers[nwatchers + 1] == if buf == null then Null else Number(count)
    }

    ghost function Table(): (r: seq<Io?>)
      requires Shape()
      reads this`watchers, this`nwatchers, this`buf, this`count, watchers
      ensures |r| == nwatchers
    {
      if watchers == null then [] else Listed(watchers[..nwatchers])
    }

    ghost function Views(): map<Io, View>
      reads this`ios, ios
    {
      map w | w in ios :: View(w.fd, w.events, w.pevents)
    }

    ghost function Batch(): seq<Event>
      requires buf != null ==> count <= buf.Length
      reads this`buf, this`count, buf
    {
      if buf == null then [] else buf[..count]
    }

    ghost function S(): State
      requires Shape() && (buf != null ==> count <= buf.Length)
      reads this, watchers, ios, buf
    {
      State(Table(), nfds, queue, Views(), kernel, Batch(), log)
    }

    ghost predicate Sound()
      reads this`watchers, this`nwatchers, this`buf, this`count, watchers
    {
      Shape() && (buf != null ==> count <= buf.Length)
    }

    ghost predicate Valid()
      reads this, watchers, ios, buf
    {
      Sound() && Ok(S())
    }

    constructor (signal: Io)
      ensures Valid() && fresh(this) && watchers == null && ios == {} && queue == [] && kernel == map[]
    {
      watchers := null;
      nwatchers := 0;
      nfds := 0;
      queue := [];
      kernel := map[];
      this.signal := signal;
      ios := {};
      buf := null;
      count := 0;
      log := [];
    }

    /** epoll_ctl. */
    method EpollCtl(op: Ctl, fd: int, mask: Mask) returns (rc: Errno)
      modifies this`kernel
      ensures op.Add? ==> rc == if fd in old(kernel) then EEXIST else Done
      ensures !op.Add? ==> rc == if fd in old(kernel) then Done else ENOENT
      ensures kernel == if rc != Done then old(kernel)
                        else if op.Del? then old(kernel) - {fd}
                        else old(kernel)[fd := mask]
    {
      if op.Add? == (fd in kernel) {
        return if op.Add? then EEXIST else ENOENT;
      }
      rc := Done;
      kernel := if op.Del? then kernel - {fd} else kernel[fd := mask];
    }

    /** maybe_resize. */
    method MaybeResize(len: nat)
      requires Sound() && len + 2 <= UINT / 2
      modifies this`watchers, this`nwatchers
      ensures Sound() && S() == old(S()).(table := Resized(old(S()).table, len)) && nwatchers >= len
      ensures watchers == old(watchers) || fresh(watchers)
    {
      if len > nwatchers {
        Grow(len);
      }
    }

    method Grow(len: nat)
      requires Sound() && nwatchers < len && len + 2 <= UINT / 2
      modifies this`watchers, this`nwatchers
      ensures Sound() && S() == old(S()).(table := Resized(old(S()).table, len)) && nwatchers >= len
      ensures fresh(watchers)
    {
      var n := NewSize(len);
      ghost var t := Table();
      var a := Realloc(n);
      watchers := a;
      nwatchers := n;
      Longer(t, len, Table());
    }

    /** The longer array: the old entries, nulls, and the two extra entries at its end. */
    method Realloc(n: nat) returns (a: array<Slot>)
      requires Shape() && nwatchers <= n
      ensures fresh(a) && a.Length == n + 2
      ensures forall i :: 0 <= i < n ==> a[i] == if i < nwatchers then watchers[i] else Null
      ensures a[n] == if watchers == null then Null else watchers[nwatchers]
      ensures a[n + 1] == if watchers == null then Null else watchers[nwatchers + 1]
    {
      var fakeList, fakeCount := Null, Null;
      if watchers != null {
        fakeList, fakeCount := watchers[nwatchers], watchers[nwatchers + 1];
      }
      a := new Slot[n + 2](_ => Null);
      var i := 0;
      while i < nwatchers
        invariant i <= nwatchers
        invariant forall j :: 0 <= j < n ==> a[j] == if j < i then watchers[j] else Null
      {
        a[i] := watchers[i];
        i := i + 1;
      }
      a[n], a[n + 1] := fakeList, fakeCount;
    }

    method SetMasks(w: Io, events: Mask, pevents: Mask)
      requires Sound() && w in ios
      modifies w`events, w`pevents
      ensures Sound() && S() == Wished(old(S()), w, events, pevents)
      ensures w.events == events && w.pevents == pevents
    {
      w.events := events;
      w.pevents := pevents;
      assert Views() == old(Views())[w := View(w.fd, events, pevents)];
    }

    /** uv__io_start. */
    method Start(w: Io, events: Mask)
      requires Valid() && Allowed(S(), Op.Start(w, events))
      modifies this`watchers, this`nwatchers, this`nfds, this`queue, watchers, w`events, w`pevents
      ensures Valid() && S() == Started(old(S()), w, events)
      ensures watchers == old(watchers) || fresh(watchers)
    {
      StartedOk(S(), w, events);
      StartFields(w, events);
    }

    method StartFields(w: Io, events: Mask)
      requires Sound() && w in ios && 0 <= w.fd < INT_MAX - 1
      modifies this`watchers, this`nwatchers, this`nfds, this`queue, watchers, w`events, w`pevents
      ensures Sound() && S() == Started(old(S()), w, events)
      ensures watchers == old(watchers) || fresh(watchers)
    {
      StartedParts(S(), w, events);
      MakeRoom(w, events);
      Enlist(w);
    }

    /** The mask, and the table long enough for the descriptor. */
    method MakeRoom(w: Io, events: Mask)
      requires Sound() && w in ios && 0 <= w.fd && w.fd + 3 <= UINT / 2
      modifies this`watchers, this`nwatchers, watchers, w`events, w`pevents
      ensures Sound() && w.fd < nwatchers
      ensures S() == Wished(old(S()), w, old(w.events), old(w.pevents) + events)
                     .(table := Resized(old(S()).table, w.fd + 1))
      ensures watchers == old(watchers) || fresh(watchers)
    {
      ghost var wished := Wished(S(), w, w.events, w.pevents + events);
      SetMasks(w, w.events, w.pevents + events);
      assert S() == wished;
      MaybeResize(w.fd + 1);
      assert S() == wished.(table := Resized(wished.table, w.fd + 1));
    }

    lemma StartedParts(s: State, w: Io, events: Mask)
      requires w in s.ios && 0 <= s.ios[w].fd < INT_MAX - 1
      ensures var v := s.ios[w];
        && v.fd + 3 <= UINT / 2 && v.fd < |Resized(s.table, v.fd + 1)|
        && Started(s, w, events) ==
           Enlisted(Wished(s, w, v.events, v.pevents + events).(table := Resized(s.table, v.fd + 1)), w)
    {
      AllocationFits(s.ios[w].fd);
    }

    /** The rest of uv__io_start: the queue, the table and its count. */
    method Enlist(w: Io)
      requires Sound() && w in ios && 0 <= w.fd < nwatchers
      modifies this`nfds, this`queue, watchers
      ensures Sound() && S() == Enlisted(old(S()), w)
    {
      if w.events == w.pevents {
        return;
      }
      if w !in queue {
        queue := queue + [w];
      }
      if watchers[w.fd] == Null {
        SetEntry(w.fd, w);
        nfds := nfds + 1;
      }
    }

    method SetEntry(fd: int, w: Io?)
      requires Sound() && 0 <= fd < nwatchers
      modifies watchers
      ensures Sound() && S() == old(S()).(table := old(S()).table[fd := w])
    {
      watchers[fd] := if w == null then Null else Watcher(w);
      assert Table() == old(Table())[fd := w];
    }

    /** uv__io_stop. */
    method Stop(w: Io, events: Mask)
      requires Valid() && w in ios
      modifies this`nfds, this`queue, watchers, w`events, w`pevents
      ensures Valid() && S() == Stopped(old(S()), w, events)
    {
      StoppedOk(S(), w, events);
      StopFields(w, events);
    }

    method StopFields(w: Io, events: Mask)
      requires Sound() && w in ios && w.fd >= -1
      modifies this`nfds, this`queue, watchers, w`events, w`pevents
      ensures Sound() && S() == Stopped(old(S()), w, events)
    {
      if w.fd == -1 {
        return;
      }
      if w.fd >= nwatchers {
        return;
      }
      if w.pevents - events == {} {
        SetMasks(w, {}, {});
        Delist(w);
      } else {
        SetMasks(w, w.events, w.pevents - events);
        if w !in queue {
          queue := queue + [w];
        }
      }
    }

    /** A watcher without interest leaves the queue and the table. */
    method Delist(w: Io)
      requires Sound() && w in ios && 0 <= w.fd < nwatchers
      modifies this`nfds, this`queue, watchers
      ensures Sound() && S() == Delisted(old(S()), w)
    {
      queue := Without(queue, w);
      if watchers[w.fd] == Watcher(w) {
        SetEntry(w.fd, null);
        nfds := nfds - 1;
      }
    }

    /** uv__io_close. */
    method Close(w: Io)
      requires Valid() && w in ios && Alone(S(), w) && watchers != null
      modifies this`nfds, this`queue, this`kernel, this`log, watchers, w`events, w`pevents, buf
      ensures Valid() && S() == ClosedIo(old(S()), w)
    {
      ClosedOk(S(), w);
      CloseFields(w);
    }

    method CloseFields(w: Io)
      requires Sound() && w in ios && w.fd >= -1 && watchers != null
      modifies this`nfds, this`queue, this`kernel, this`log, watchers, w`events, w`pevents, buf
      ensures Sound() && S() == ClosedIo(old(S()), w)
    {
      StopFields(w, INTEREST);
      if w.fd != -1 {
        InvalidateFd(w.fd);
        log := log + [Closed(w.fd)];
      }
    }

    /** uv__platform_invalidate_fd, which finds the batch behind the table. */
    method InvalidateFd(fd: int)
      requires Sound() && watchers != null
      modifies this`kernel, buf
      ensures Sound() && S() == old(S()).(batch := Invalidated(old(S()).batch, fd), kernel := old(kernel) - {fd})
    {
      match watchers[nwatchers] {
        case Events(events) =>
          match watchers[nwatchers + 1] {
            case Number(n) => StrikeOut(events, n, fd);
            case _ =>
          }
        case _ =>
      }
      var _ := EpollCtl(Del, fd, {});
    }

    method StrikeOut(events: array<Event>, n: nat, fd: int)
      requires n <= events.Length
      modifies events
      ensures events[..n] == Invalidated(old(events[..n]), fd)
    {
      var i := 0;
      while i < n
        invariant i <= n
        invariant forall j :: 0 <= j < n ==>
          events[j] == if j < i && old(events[j]).fd == fd then old(events[j]).(fd := -1) else old(events[j])
      {
        if events[i].fd == fd {
          events[i] := events[i].(fd := -1);
        }
        i := i + 1;
      }
    }

    /** A watcher that is not active gets another descriptor. */
    method Init(w: Io, fd: int)
      requires Valid() && Allowed(S(), Op.Init(w, fd))
      modifies w
      ensures Valid() && S() == Moved(old(S()), w, fd)
    {
      MovedOk(S(), w, fd);
      w.fd := fd;
      w.events := {};
      w.pevents := {};
      assert Views() == old(Views())[w := View(fd, {}, {})];
    }

    method IoInit(fd: int) returns (w: Io)
      requires Valid() && fd >= -1
      modifies this`ios
      ensures Valid() && fresh(w) && ios == old(ios) + {w} && S() == Moved(old(S()), w, fd)
    {
      w := new Io(fd);
      MovedOk(S(), w, fd);
      ios := ios + {w};
      assert Views() == old(Views())[w := View(fd, {}, {})];
    }

    // ---------- telling the kernel ----------

    /** The beginning of uv__io_poll: every queued watcher is added to the kernel's set or modified there. */
    method Update()
      requires Valid()
      modifies this`queue, this`kernel, ios
      ensures Valid() && S() == Drained(old(S()))
    {
      if nfds == 0 {
        NoEntries(S());
        return;
      }
      while queue != []
        invariant Valid() && Drained(S()) == Drained(old(S())) && ios == old(ios)
        decreases |queue|
      {
        ArmedOk(S());
        Arm(queue[0]);
      }
    }

    /** One queued watcher. */
    method Arm(w: Io)
      requires Sound() && queue != [] && queue[0] == w && w in ios
      requires w.events == {} || w.fd in kernel
      modifies this`queue, this`kernel, w`events, w`pevents
      ensures Sound() && S() == Armed(old(S()))
    {
      queue := queue[1..];
      Tell(w.events == {}, w.fd, w.pevents);
      SetMasks(w, w.pevents, w.pevents);
    }

    /** The kernel gets the mask of a descriptor that is new to it, or that it holds already.  Neither call of
        abort is reached. */
    method Tell(add: bool, fd: int, mask: Mask)
      requires add || fd in kernel
      modifies this`kernel
      ensures kernel == old(kernel)[fd := mask]
    {
      var op := if add then Add else Mod;
      var rc := EpollCtl(op, fd, mask);
      if rc != Done {
        assert rc == EEXIST && op == Add;
        rc := EpollCtl(Mod, fd, mask);
        assert rc == Done;
      }
    }

    // ---------- dispatching ----------

    /** A callback is given by the operations it makes. */
    method Callback(ops: seq<Op>)
      requires Valid() && watchers != null
      modifies this`watchers, this`nwatchers, this`nfds, this`queue, this`kernel, this`log, watchers, ios, buf
      ensures Valid() && S() == Effects(old(S()), ops)
      ensures watchers != null && (watchers == old(watchers) || fresh(watchers))
    {
      if ops != [] {
        Call(ops[0]);
        Callback(ops[1..]);
      }
    }

    predicate NoOther(w: Io)
      requires w in ios
      reads this`ios, ios
    {
      forall x :: x in ios && x != w && x.fd == w.fd ==> x.pevents == {}
    }

    lemma NoOtherAlone(w: Io)
      requires Sound() && w in ios
      ensures NoOther(w) <==> Alone(S(), w)
    {
      assert forall x :: x in ios ==> S().ios[x] == View(x.fd, x.events, x.pevents);
    }

    /** The caller's side: whether a call keeps to the rules. */
    method IsAllowed(op: Op) returns (b: bool)
      requires Sound()
      ensures b == Allowed(S(), op)
    {
      if op.w !in ios {
        return false;
      }
      NoOtherAlone(op.w);
      match op {
        case Start(w, mask) => b := mask != {} && mask <= INTEREST && 0 <= w.fd < INT_MAX - 1 && NoOther(w);
        case Stop(w, mask) => b := mask != {} && mask <= INTEREST;
        case Close(w) => b := NoOther(w);
        case Init(w, fd) => b := w.pevents == {} && fd >= -1;
      }
    }

    method Call(op: Op)
      requires Valid() && watchers != null
      modifies this`watchers, this`nwatchers, this`nfds, this`queue, this`kernel, this`log, watchers, ios, buf
      ensures Valid() && S() == Try(old(S()), op)
      ensures watchers != null && (watchers == old(watchers) || fresh(watchers))
    {
      var allowed := IsAllowed(op);
      if allowed {
        Make(op);
      }
    }

    method Make(op: Op)
      requires Valid() && watchers != null && Allowed(S(), op)
      modifies this`watchers, this`nwatchers, this`nfds, this`queue, this`kernel, this`log, watchers, ios, buf
      ensures Valid() && S() == Try(old(S()), op)
      ensures watchers != null && (watchers == old(watchers) || fresh(watchers))
    {
      match op {
        case Start(w, mask) => Start(w, mask);
        case Stop(w, mask) => Stop(w, mask);
        case Close(w) => Close(w);
        case Init(w, fd) => Init(w, fd);
      }
    }

    /** One event of the batch. */
    method OneEvent(events: array<Event>, i: nat, script: Script) returns (r: Outcome)
      requires Valid() && buf == events && i < count
      modifies this`watchers, this`nwatchers, this`nfds, this`queue, this`kernel, this`log, watchers, ios, events
      ensures Valid() && S() == Turn(old(S()), i, signal, script)
      ensures r == OutcomeOf(old(S()), i, signal)
      ensures watchers != null && (watchers == old(watchers) || fresh(watchers))
    {
      var fd := events[i].fd;
      if fd == -1 {
        return Nothing;
      }
      assert S().batch[i].fd == fd;
      if watchers[fd] == Null {
        UnwatchedOk(S(), fd);
        var _ := EpollCtl(Del, fd, {});
        return Nothing;
      }
      r := Watched(events, i, watchers[fd].w, script);
    }

    /** The event of a watched descriptor. */
    method Watched(events: array<Event>, i: nat, w: Io, script: Script) returns (r: Outcome)
      requires Valid() && buf == events && i < count && watchers != null && 0 <= events[i].fd < nwatchers
      requires watchers[events[i].fd] == Watcher(w)
      modifies this`watchers, this`nwatchers, this`nfds, this`queue, this`kernel, this`log, watchers, ios, events
      ensures Valid() && S() == Turn(old(S()), i, signal, script)
      ensures r == OutcomeOf(old(S()), i, signal)
      ensures watchers != null && (watchers == old(watchers) || fresh(watchers))
    {
      ShownOk(S(), i);
      var mask := Show(events, i, w);
      r := Deliver(i, w, mask, script);
    }

    method Deliver(i: nat, w: Io, mask: Mask, script: Script) returns (r: Outcome)
      requires Valid() && watchers != null && i < |S().batch| && w in ios && S().batch[i] == Event(w.fd, mask)
      modifies this`watchers, this`nwatchers, this`nfds, this`queue, this`kernel, this`log, watchers, ios, buf
      ensures Valid() && S() == Delivered(old(S()), i, w, signal, script)
      ensures watchers != null && (watchers == old(watchers) || fresh(watchers))
      ensures r == if mask == {} then Nothing else if w == signal then Late else Made
    {
      if mask == {} {
        return Nothing;
      }
      if w == signal {
        LoggedOk(S(), Postponed(i));
        log := log + [Postponed(i)];
        return Late;
      }
      Enter(Called(i, w, View(w.fd, w.events, w.pevents), mask));
      Callback(script(i, w));
      r := Made;
    }

    ghost method Enter(c: Entry)
      requires Valid() && c.Called? && c.i < |S().batch| && S().batch[c.i].fd == c.view.fd
      modifies this`log
      ensures Valid() && S() == old(S()).(log := old(log) + [c])
    {
      LoggedOk(S(), c);
      log := log + [c];
    }

    /** The callback of the signal watcher. */
    ghost method Note()
      requires Valid()
      modifies this`log
      ensures Valid() && S() == old(S()).(log := old(log) + [Signalled])
    {
      LoggedOk(S(), Signalled);
      log := log + [Signalled];
    }

    /** The event's mask, reduced to what the watcher gets. */
    method Show(events: array<Event>, i: nat, w: Io) returns (mask: Mask)
      requires Sound() && buf == events && i < count
      modifies events
      ensures mask == Given(old(events[i]).events, w.pevents)
      ensures Sound() && S() == old(S()).(batch := old(S()).batch[i := Event(old(events[i]).fd, mask)])
    {
      mask := events[i].events * (w.pevents + TROUBLE);
      if mask == {Err} || mask == {Hup} {
        mask := mask + w.pevents * INTEREST;
      }
      events[i] := events[i].(events := mask);
    }

    /** The dispatch of uv__io_poll: the kernel has reported `n` events in `events`. */
    method Dispatch(events: array<Event>, n: nat, script: Script)
      returns (nevents: nat, ghost run: seq<State>, ghost late: bool)
      requires Valid() && buf == null && watchers != null && n <= events.Length
      requires forall i :: 0 <= i < n ==> events[i].fd in kernel
      modifies this, watchers, ios, events
      ensures Valid() && buf == null && ios == old(ios)
      ensures |run| == n + 1 && run[0] == old(S()).(batch := old(events[..n]), log := [])
      ensures Tracks(run, old(events[..n]), signal, script, late, nevents > 0)
      ensures S() == Ended(run, signal, script)
    {
      var haveSignals;
      nevents, haveSignals, run := AllTurns(events, n, script);
      late := haveSignals;
      Finish(haveSignals, script(n, signal));
    }

    /** One round of the loop: the event, how many were for some watcher and whether one was for the signal watcher. */
    method NextTurn(events: array<Event>, i: nat, ghost reported: seq<Event>, script: Script, ghost run0: seq<State>,
                    nevents0: nat, haveSignals0: bool)
      returns (nevents: nat, haveSignals: bool, ghost run: seq<State>)
      requires Valid() && buf == events && i < count == |reported|
      requires |run0| == i + 1 && run0[i] == S()
      requires Tracks(run0, reported, signal, script, haveSignals0, nevents0 > 0)
      modifies this`watchers, this`nwatchers, this`nfds, this`queue, this`kernel, this`log, watchers, ios, events
      ensures Valid() && watchers != null && (watchers == old(watchers) || fresh(watchers))
      ensures run == run0 + [S()] && Tracks(run, reported, signal, script, haveSignals, nevents > 0)
    {
      var r := OneEvent(events, i, script);
      TracksMore(run0, reported, S(), signal, script, haveSignals0, nevents0 > 0);
      run := run0 + [S()];
      nevents := if r != Nothing then nevents0 + 1 else nevents0;
      haveSignals := haveSignals0 || r == Late;
    }

    /** The signal watcher's turn, and the end of the batch. */
    method Finish(haveSignals: bool, ops: seq<Op>)
      requires Valid() && watchers != null
      modifies this, watchers, ios, buf
      ensures Valid() && buf == null && ios == old(ios)
      ensures Ok(old(S()).(log := old(log) + [Signalled]))
      ensures S() == (if haveSignals then Effects(old(S()).(log := old(log) + [Signalled]), ops)
                      else old(S())).(batch := [])
    {
      LoggedOk(S(), Signalled);
      if haveSignals {
        Note();
        Callback(ops);
      }
      End();
    }

    method Turns(events: array<Event>, n: nat, ghost reported: seq<Event>, script: Script)
      returns (nevents: nat, haveSignals: bool, ghost run: seq<State>)
      requires Valid() && buf == events && count == n && watchers != null
      requires S().batch == reported && log == [] && forall i :: 0 <= i < n ==> reported[i].fd in kernel
      modifies this`watchers, this`nwatchers, this`nfds, this`queue, this`kernel, this`log, watchers, ios, events
      ensures Valid() && watchers != null && (watchers == old(watchers) || fresh(watchers))
      ensures |run| == n + 1 && run[0] == old(S()) && run[n] == S()
      ensures Tracks(run, reported, signal, script, haveSignals, nevents > 0)
    {
      run := [S()];
      nevents := 0;
      haveSignals := false;
      TracksFirst(S(), reported, signal, script);
      var i := 0;
      while i < n
        invariant i <= n && Valid()
        invariant watchers != null && (watchers == old(watchers) || fresh(watchers))
        invariant |run| == i + 1 && run[0] == old(S()) && run[i] == S()
        invariant Tracks(run, reported, signal, script, haveSignals, nevents > 0)
      {
        nevents, haveSignals, run := NextTurn(events, i, reported, script, run, nevents, haveSignals);
        i := i + 1;
      }
    }

    /** The loop over the batch, once it is behind the table. */
    method AllTurns(events: array<Event>, n: nat, script: Script)
      returns (nevents: nat, haveSignals: bool, ghost run: seq<State>)
      requires Valid() && buf == null && watchers != null && n <= events.Length
      requires forall i :: 0 <= i < n ==> events[i].fd in kernel
      modifies this`buf, this`count, this`watchers, this`nwatchers, this`nfds, this`queue, this`kernel, this`log
      modifies watchers, ios, events
      ensures Valid() && watchers != null && (watchers == old(watchers) || fresh(watchers)) && buf == events
      ensures |run| == n + 1 && run[0] == old(S()).(batch := old(events[..n]), log := []) && run[n] == S()
      ensures Tracks(run, old(events[..n]), signal, script, haveSignals, nevents > 0)
    {
      ghost var reported := events[..n];
      Begin(events, n);
      nevents, haveSignals, run := Turns(events, n, reported, script);
    }

    /** The batch goes behind the table. */
    method Begin(events: array<Event>, n: nat)
      requires Valid() && buf == null && watchers != null && n <= events.Length
      requires forall i :: 0 <= i < n ==> events[i].fd in kernel
      modifies this`buf, this`count, this`log, watchers
      ensures Valid() && buf == events && count == n
      ensures S() == old(S()).(batch := events[..n], log := [])
    {
      BatchOnly(S(), events[..n], []);
      SetExtra(events, n);
    }

    method SetExtra(events: array<Event>, n: nat)
      requires Sound() && watchers != null && n <= events.Length
      modifies this`buf, this`count, this`log, watchers
      ensures Sound() && buf == events && count == n && S() == old(S()).(batch := events[..n], log := [])
    {
      buf, count, log := events, n, [];
      watchers[nwatchers] := Events(events);
      watchers[nwatchers + 1] := Number(n);
      assert Table() == old(Table());
    }

    method End()
      requires Valid() && watchers != null
      modifies this`buf, this`count, watchers
      ensures Valid() && buf == null && S() == old(S()).(batch := [])
    {
      BatchOnly(S(), [], log);
      ClearExtra();
    }

    method ClearExtra()
      requires Sound() && watchers != null
      modifies this`buf, this`count, watchers
      ensures Sound() && buf == null && S() == old(S()).(batch := [])
    {
      buf, count := null, 0;
      watchers[nwatchers] := Null;
      watchers[nwatchers + 1] := Null;
      assert Table() == old(Table());
    }
  }
}
