/**
 What the calls on an I/O watcher do to interest: the masks, the table, the queue and the kernel after uv__io_start,
 uv__io_stop and uv__io_close, and what the kernel is told after any calls.
 */
module Interest {
  import opened Basics
  import opened TableSize
  import opened WatcherTable
  import opened EventBatch

  /** The watcher that the table has for a descriptor. */
  function EntryOf(s: State, fd: int): Io? {
    if 0 <= fd < |s.table| then s.table[fd] else null
  }

  /** No watcher but `w` has changed, and neither have the kernel, the batch and the log. */
  predicate OnlyWatcher(s: State, s': State, w: Io) {
    && s'.ios.Keys == s.ios.Keys && (forall x :: x in s.ios && x != w ==> s'.ios[x] == s.ios[x])
    && s'.kernel == s.kernel && s'.batch == s.batch && s'.log == s.log
  }

  /** The watcher wants `wish` now, is in the table, and is queued unless the kernel has been told just that. */
  ghost predicate Watches(s: State, s': State, w: Io, wish: Mask)
    requires w in s.ios
  {
    var v := s.ios[w];
    && OnlyWatcher(s, s', w) && s'.ios[w] == View(v.fd, v.events, wish)
    && (forall fd :: EntryOf(s', fd) == if fd == v.fd then w else EntryOf(s, fd))
    && (forall x :: x in s.queue ==> x in s'.queue) && (v.events != wish ==> w in s'.queue)
    && (forall x :: x in s'.queue ==> x in s.queue || (x == w && v.events != wish))
  }

  /** uv__io_start adds the mask to the watcher's interest. */
  lemma StartEffect(s: State, w: Io, mask: Mask)
    requires Ok(s) && w in s.ios && Alone(s, w) && 0 <= s.ios[w].fd < 0x7FFF_FFFE
    requires mask != {} && mask <= {In, Out, Pri, Rdhup}
    ensures Allowed(s, Start(w, mask)) && Watches(s, Do(s, Start(w, mask)), w, s.ios[w].pevents + mask)
  {
    StartedEffect(s, w, mask);
  }

  lemma StartedEffect(s: State, w: Io, mask: Mask)
    requires Ok(s) && w in s.ios && Alone(s, w) && 0 <= s.ios[w].fd < INT_MAX - 1 && mask != {}
    ensures Watches(s, Started(s, w, mask), w, s.ios[w].pevents + mask)
  {
    var len := s.ios[w].fd + 1;
    StartedIs(s, w, mask);
    ResizedOk(s, len);
    EnterResized(s, len, w, s.ios[w].pevents + mask);
  }

  lemma StartedIs(s: State, w: Io, mask: Mask)
    requires w in s.ios && 0 <= s.ios[w].fd < INT_MAX - 1
    ensures s.ios[w].fd + 3 <= UINT / 2 && s.ios[w].fd < |Resized(s.table, s.ios[w].fd + 1)|
    ensures Started(s, w, mask) ==
            Entered(s.(table := Resized(s.table, s.ios[w].fd + 1)), w, s.ios[w].pevents + mask)
  {
    AllocationFits(s.ios[w].fd);
  }

  /** The same on the table that has been made long enough. */
  lemma EnterResized(s: State, len: nat, w: Io, wish: Mask)
    requires len + 2 <= UINT / 2 && Ok(s.(table := Resized(s.table, len))) && w in s.ios && Alone(s, w)
    requires 0 <= s.ios[w].fd < |Resized(s.table, len)| && wish != {} && s.ios[w].pevents <= wish
    ensures Watches(s, Entered(s.(table := Resized(s.table, len)), w, wish), w, wish)
  {
    ResizedEntries(s, len);
    EnterEffect(s.(table := Resized(s.table, len)), w, wish);
  }

  /** A longer table has the same entries. */
  lemma ResizedEntries(s: State, len: nat)
    requires len + 2 <= UINT / 2
    ensures forall fd :: EntryOf(s.(table := Resized(s.table, len)), fd) == EntryOf(s, fd)
  {
    CeilingLeast(len + 2, 31);
  }

  lemma EnterEffect(s: State, w: Io, wish: Mask)
    requires Ok(s) && w in s.ios && Alone(s, w) && 0 <= s.ios[w].fd < |s.table| && wish != {}
    requires s.ios[w].pevents <= wish
    ensures Watches(s, Entered(s, w, wish), w, wish)
  {
    assert IoOk(s, w);
    SlotIsAlone(s, w);
  }

  /** The slot of a watcher that is alone is its own, or free. */
  lemma SlotIsAlone(s: State, w: Io)
    requires Ok(s) && w in s.ios && Alone(s, w) && 0 <= s.ios[w].fd < |s.table|
    ensures s.table[s.ios[w].fd] == null || s.table[s.ios[w].fd] == w
    ensures s.ios[w].pevents != {} ==> s.table[s.ios[w].fd] == w
  {
    assert SlotOk(s, s.ios[w].fd) && IoOk(s, w);
  }

  /** uv__io_stop takes the mask out of the watcher's interest.  The table entry stays and the watcher is queued if
      interest is left; otherwise it leaves both, and forgets what the kernel was told. */
  lemma StopEffect(s: State, w: Io, mask: Mask)
    requires Ok(s) && w in s.ios && mask != {} && mask <= {In, Out, Pri, Rdhup}
    ensures Allowed(s, Stop(w, mask))
    ensures var v, s' := s.ios[w], Do(s, Stop(w, mask));
      var left := v.pevents - mask;
      && OnlyWatcher(s, s', w) && s'.ios[w] == View(v.fd, if left == {} then {} else v.events, left)
      && (forall fd :: EntryOf(s', fd) == if left == {} && EntryOf(s, fd) == w then null else EntryOf(s, fd))
      && (forall x :: x in s'.queue <==> if x == w then left != {} else x in s.queue)
  {
    assert IoOk(s, w);
    WithoutExact(s.queue, w);
    EntriesOwned(s, w);
  }

  /** A watcher is in no entry but that of its descriptor. */
  lemma EntriesOwned(s: State, w: Io)
    requires Ok(s) && w in s.ios
    ensures forall fd :: EntryOf(s, fd) == w ==> fd == s.ios[w].fd
  {
    forall fd | EntryOf(s, fd) == w ensures fd == s.ios[w].fd { assert SlotOk(s, fd); }
  }

  /** uv__io_close takes all interest, and what the kernel and the batch have for the descriptor. */
  lemma CloseEffect(s: State, w: Io)
    requires Ok(s) && w in s.ios && Alone(s, w)
    ensures Allowed(s, Close(w))
    ensures var v, s' := s.ios[w], Do(s, Close(w));
      && s'.ios == s.ios[w := View(v.fd, {}, {})]
      && (forall fd :: EntryOf(s', fd) == if EntryOf(s, fd) == w then null else EntryOf(s, fd))
      && (forall x :: x in s'.queue <==> x in s.queue && x != w)
      && s'.kernel.Keys == s.kernel.Keys - {v.fd} && (forall fd :: fd in s'.kernel ==> s'.kernel[fd] == s.kernel[fd])
      && |s'.batch| == |s.batch|
      && forall i :: 0 <= i < |s.batch| ==>
           s'.batch[i] == if s.batch[i].fd == v.fd then Event(-1, s.batch[i].events) else s.batch[i]
  {
    assert IoOk(s, w);
    assert s.ios[w].pevents - INTEREST == {};
    StopsAll(s, w);
  }

  lemma StopsAll(s: State, w: Io)
    requires Ok(s) && w in s.ios && s.ios[w].fd >= -1
    ensures var v, s' := s.ios[w], Stopped(s, w, INTEREST);
      && s'.ios == s.ios[w := View(v.fd, {}, {})] && s'.kernel == s.kernel && s'.batch == s.batch
      && (forall fd :: EntryOf(s', fd) == if EntryOf(s, fd) == w then null else EntryOf(s, fd))
      && (forall x :: x in s'.queue <==> x in s.queue && x != w)
      && (v.fd == -1 ==> v.fd !in s.kernel)
  {
    assert IoOk(s, w);
    WithoutExact(s.queue, w);
    EntriesOwned(s, w);
    assert s.ios[w].pevents - INTEREST == {};
  }

  // ---------- any calls ----------

  /** The interest of `x` after calls: what starts have added and stops, closes and inits have taken. */
  function Left(s: State, ops: seq<Op>, x: Io, mask: Mask): Mask
    requires Ok(s)
    decreases |ops|
  {
    if ops == [] then mask
    else
      var op := ops[0];
      var next := if !Allowed(s, op) || op.w != x then mask
                  else match op
                       case Start(_, m) => mask + m
                       case Stop(_, m) => mask - m
                       case Close(_) => {}
                       case Init(_, _) => {};
      Left(Try(s, op), ops[1..], x, next)
  }

  lemma {:induction false} CallsLeave(s: State, ops: seq<Op>, x: Io)
    requires Ok(s) && x in s.ios
    ensures x in Effects(s, ops).ios
    ensures Effects(s, ops).ios[x].pevents == Left(s, ops, x, s.ios[x].pevents)
    decreases |ops|
  {
    if ops != [] {
      var op := ops[0];
      if Allowed(s, op) {
        match op {
          case Start(w, m) => StartEffect(s, w, m);
          case Stop(w, m) => StopEffect(s, w, m);
          case Close(w) => CloseEffect(s, w);
          case Init(w, fd) =>
        }
      }
      CallsLeave(Try(s, op), ops[1..], x);
    }
  }

  /** After any calls and the drain at the next poll, the kernel has for the descriptor of every watcher with interest
      left exactly that interest. */
  lemma KernelHasInterest(s: State, ops: seq<Op>, x: Io)
    requires Ok(s) && x in s.ios
    ensures var left, d := Left(s, ops, x, s.ios[x].pevents), Drained(Effects(s, ops));
      x in d.ios && (left != {} ==> d.ios[x].fd in d.kernel && d.kernel[d.ios[x].fd] == left)
  {
    CallsLeave(s, ops, x);
    DrainedAgrees(Effects(s, ops));
  }
}
