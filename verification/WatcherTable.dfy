/**
 The watcher table of core.c and the interest masks it shares with the kernel, as a state.

 An I/O watcher has the mask the user wants, `pevents`, and the mask the kernel was told, `events`.  The loop
 keeps a table from file descriptors to watchers, the number of its entries and a queue of the watchers whose
 masks differ.  While a batch of events is dispatched, the batch is part of the state too.
 */
module WatcherTable {
  import opened Basics
  import opened TableSize

  datatype Flag = In | Out | Pri | Rdhup | Err | Hup

  type Mask = set<Flag>

  const INTEREST: Mask := {In, Out, Pri, Rdhup}
  const TROUBLE: Mask := {Err, Hup}

  datatype Event = Event(fd: int, events: Mask)

  /** uv__io_t. */
  class Io {
    var fd: int
    var events: Mask
    var pevents: Mask

    constructor (fd: int)
      ensures this.fd == fd && events == {} && pevents == {}
    {
      this.fd := fd;
      events := {};
      pevents := {};
    }
  }

  datatype View = View(fd: int, events: Mask, pevents: Mask)

  /** What a dispatch has done so far: callbacks made, in order, and descriptors closed. */
  datatype Entry =
    | Called(i: nat, w: Io, view: View, mask: Mask)
    | Postponed(i: nat)
    | Signalled
    | Closed(fd: int)

  /** `kernel` is the set of descriptors and masks epoll holds; `batch` is empty outside a dispatch. */
  datatype State = State(table: seq<Io?>, nfds: int, queue: seq<Io>, ios: map<Io, View>, kernel: map<int, Mask>,
                         batch: seq<Event>, log: seq<Entry>)

  // ---------- the operations ----------

  function Nulls(n: nat): seq<Io?> {
    seq(n, _ => null)
  }

  /** maybe_resize. */
  function Resized(table: seq<Io?>, len: nat): (r: seq<Io?>)
    requires len + 2 <= UINT / 2
  {
    CeilingLeast(len + 2, 31);
    if len <= |table| then table else table + Nulls(Entries(len) - |table|)
  }

  function Queued(q: seq<Io>, w: Io): seq<Io> {
    if w in q then q else q + [w]
  }

  /** The new wish of a watcher. */
  function Wished(s: State, w: Io, events: Mask, pevents: Mask): State
    requires w in s.ios
  {
    s.(ios := s.ios[w := View(s.ios[w].fd, events, pevents)])
  }

  /** The queue, the table and its count in uv__io_start. */
  function Enlisted(s: State, w: Io): State
    requires w in s.ios && 0 <= s.ios[w].fd < |s.table|
  {
    var v := s.ios[w];
    if v.events == v.pevents then s
    else if s.table[v.fd] != null then s.(queue := Queued(s.queue, w))
    else s.(queue := Queued(s.queue, w), table := s.table[v.fd := w], nfds := s.nfds + 1)
  }

  /** uv__io_start on a table that is long enough. */
  function Entered(s: State, w: Io, p: Mask): State
    requires w in s.ios && 0 <= s.ios[w].fd < |s.table|
  {
    Enlisted(Wished(s, w, s.ios[w].events, p), w)
  }

  /** uv__io_start. */
  function Started(s: State, w: Io, events: Mask): State
    requires w in s.ios && 0 <= s.ios[w].fd < INT_MAX - 1
  {
    var v := s.ios[w];
    AllocationFits(v.fd);
    Entered(s.(table := Resized(s.table, v.fd + 1)), w, v.pevents + events)
  }

  /** The queue, the table and its count in uv__io_stop, for a watcher that wants nothing any more. */
  function Delisted(s: State, w: Io): State
    requires w in s.ios && 0 <= s.ios[w].fd < |s.table|
  {
    var fd := s.ios[w].fd;
    var s1 := s.(queue := Without(s.queue, w));
    if s.table[fd] == w then s1.(table := s.table[fd := null], nfds := s.nfds - 1) else s1
  }

  /** uv__io_stop. */
  function Stopped(s: State, w: Io, events: Mask): State
    requires w in s.ios && s.ios[w].fd >= -1
  {
    var v := s.ios[w];
    var p := v.pevents - events;
    if v.fd == -1 || v.fd >= |s.table| then s
    else if p == {} then Delisted(Wished(s, w, {}, {}), w)
    else Wished(s, w, v.events, p).(queue := Queued(s.queue, w))
  }

  /** The loop of uv__platform_invalidate_fd. */
  function Invalidated(batch: seq<Event>, fd: int): seq<Event> {
    seq(|batch|, i requires 0 <= i < |batch| => if batch[i].fd == fd then batch[i].(fd := -1) else batch[i])
  }

  /** uv__io_close. */
  function ClosedIo(s: State, w: Io): State
    requires w in s.ios && s.ios[w].fd >= -1
  {
    var fd := s.ios[w].fd;
    var s1 := Stopped(s, w, INTEREST);
    if fd == -1 then s1
    else s1.(batch := Invalidated(s.batch, fd), kernel := s.kernel - {fd}, log := s.log + [Closed(fd)])
  }

  /** uv__io_init: a new watcher, or one that is not active and gets another descriptor. */
  function Moved(s: State, w: Io, fd: int): State
  {
    s.(ios := s.ios[w := View(fd, {}, {})])
  }

  // ---------- the invariant ----------

  predicate SlotOk(s: State, fd: int)
    requires 0 <= fd < |s.table|
  {
    var w := s.table[fd];
    w != null ==> w in s.ios && s.ios[w].fd == fd && s.ios[w].pevents != {}
  }

  predicate IoOk(s: State, w: Io)
    requires w in s.ios
  {
    var v := s.ios[w];
    && v.fd >= -1 && v.pevents <= INTEREST
    && (v.pevents != {} ==> 0 <= v.fd < |s.table| && s.table[v.fd] == w)
    && (v.events != {} ==> v.pevents != {} && v.fd in s.kernel && s.kernel[v.fd] == v.events)
    && (v.events != v.pevents ==> w in s.queue)
  }

  predicate QueueOk(s: State)
  {
    && Distinct(s.queue)
    && forall w :: w in s.queue ==> w in s.ios && s.ios[w].pevents != {}
  }

  /** The number of entries that are not null. */
  function Filled(table: seq<Io?>): nat {
    if table == [] then 0 else Filled(table[..|table| - 1]) + if table[|table| - 1] == null then 0 else 1
  }

  predicate BatchOk(s: State)
  {
    forall i :: 0 <= i < |s.batch| ==> s.batch[i].fd == -1 || 0 <= s.batch[i].fd < |s.table|
  }

  /** No event of a closed descriptor is left. */
  predicate Clean(s: State)
  {
    && (forall a :: 0 <= a < |s.log| && s.log[a].Closed? ==> s.log[a].fd >= 0)
    && forall a, i :: 0 <= a < |s.log| && s.log[a].Closed? && 0 <= i < |s.batch| ==> s.batch[i].fd != s.log[a].fd
  }

  /** No callback was made for a descriptor that had been closed before. */
  predicate NoStale(log: seq<Entry>)
  {
    forall a, b :: 0 <= a < b < |log| && log[a].Closed? && log[b].Called? ==> log[b].view.fd != log[a].fd
  }

  predicate Ok(s: State)
  {
    && (forall fd :: 0 <= fd < |s.table| ==> SlotOk(s, fd))
    && (forall w :: w in s.ios ==> IoOk(s, w))
    && (forall fd :: fd in s.kernel ==> 0 <= fd < |s.table|)
    && QueueOk(s) && s.nfds == Filled(s.table)
    && BatchOk(s) && Clean(s) && NoStale(s.log)
  }

  /** No other watcher is active for the descriptor of `w`. */
  predicate Alone(s: State, w: Io)
    requires w in s.ios
  {
    forall x :: x in s.ios && x != w && s.ios[x].fd == s.ios[w].fd ==> s.ios[x].pevents == {}
  }

  // ---------- sequences ----------

  lemma {:induction false} FilledUpdate(table: seq<Io?>, i: nat, w: Io?)
    requires i < |table|
    ensures Filled(table[i := w]) + (if table[i] == null then 0 else 1) == Filled(table) + if w == null then 0 else 1
  {
    var n := |table| - 1;
    if i < n {
      FilledUpdate(table[..n], i, w);
      assert table[i := w][..n] == table[..n][i := w];
    } else {
      assert table[i := w][..n] == table[..n];
    }
  }

  lemma {:induction false} FilledNulls(table: seq<Io?>, n: nat)
    ensures Filled(table + Nulls(n)) == Filled(table)
  {
    if n == 0 {
      assert table + Nulls(0) == table;
    } else {
      FilledNulls(table, n - 1);
      assert (table + Nulls(n))[..|table| + n - 1] == table + Nulls(n - 1);
    }
  }

  lemma {:induction false} FilledSome(table: seq<Io?>, i: nat)
    requires i < |table| && table[i] != null
    ensures Filled(table) > 0
  {
    if i < |table| - 1 { FilledSome(table[..|table| - 1], i); }
  }

  // ---------- every operation keeps the invariant ----------

  lemma ResizedOk(s: State, len: nat)
    requires Ok(s) && len + 2 <= UINT / 2
    ensures Ok(s.(table := Resized(s.table, len))) && len <= |Resized(s.table, len)|
  {
    CeilingLeast(len + 2, 31);
    if len > |s.table| {
      FilledNulls(s.table, Entries(len) - |s.table|);
      LongerOk(s, Resized(s.table, len));
    }
  }

  lemma LongerOk(s: State, table: seq<Io?>)
    requires Ok(s) && s.table <= table && Filled(table) == Filled(s.table)
    requires forall fd :: |s.table| <= fd < |table| ==> table[fd] == null
    ensures Ok(s.(table := table))
  {
    var s' := s.(table := table);
    forall fd | 0 <= fd < |s'.table| ensures SlotOk(s', fd) {
      if fd < |s.table| { assert SlotOk(s, fd); }
    }
    forall w | w in s'.ios ensures IoOk(s', w) { assert IoOk(s, w); }
  }

  lemma EnteredOk(s: State, w: Io, p: Mask)
    requires Ok(s) && w in s.ios && Alone(s, w) && 0 <= s.ios[w].fd < |s.table|
    requires p != {} && p <= INTEREST && s.ios[w].pevents <= p
    ensures Ok(Entered(s, w, p))
  {
    var v, s' := s.ios[w], Entered(s, w, p);
    assert IoOk(s, w) && SlotOk(s, v.fd);
    assert s'.table == s.table[v.fd := w];
    FilledUpdate(s.table, v.fd, w);
    forall fd | 0 <= fd < |s'.table| ensures SlotOk(s', fd) { assert SlotOk(s, fd); }
    forall x | x in s'.ios ensures IoOk(s', x) { EnteredIo(s, w, p, x); }
  }

  lemma EnteredIo(s: State, w: Io, p: Mask, x: Io)
    requires Ok(s) && w in s.ios && x in s.ios && Alone(s, w) && 0 <= s.ios[w].fd < |s.table|
    requires p != {} && p <= INTEREST && s.ios[w].pevents <= p
    ensures IoOk(Entered(s, w, p), x)
  {
    assert IoOk(s, w) && IoOk(s, x) && SlotOk(s, s.ios[w].fd);
  }

  lemma StartedOk(s: State, w: Io, events: Mask)
    requires Ok(s) && w in s.ios && Alone(s, w) && 0 <= s.ios[w].fd < INT_MAX - 1
    requires events != {} && events <= INTEREST
    ensures Ok(Started(s, w, events))
  {
    assert IoOk(s, w);
    var len := s.ios[w].fd + 1;
    ResizedOk(s, len);
    EnteredOk(s.(table := Resized(s.table, len)), w, s.ios[w].pevents + events);
  }

  lemma StoppedOk(s: State, w: Io, events: Mask)
    requires Ok(s) && w in s.ios
    ensures s.ios[w].fd >= -1 && Ok(Stopped(s, w, events))
    ensures 0 <= s.ios[w].fd < |s.table| && s.table[s.ios[w].fd] == w ==> s.nfds > 0
  {
    assert IoOk(s, w);
    var v, p := s.ios[w], s.ios[w].pevents - events;
    if 0 <= v.fd < |s.table| {
      assert SlotOk(s, v.fd);
      if s.table[v.fd] == w { FilledSome(s.table, v.fd); }
      if p == {} { EmptiedOk(s, w, events); } else { LessenedOk(s, w, events); }
    }
  }

  lemma LessenedOk(s: State, w: Io, events: Mask)
    requires Ok(s) && w in s.ios && 0 <= s.ios[w].fd < |s.table| && s.ios[w].pevents - events != {}
    ensures Ok(Stopped(s, w, events))
  {
    var s' := Stopped(s, w, events);
    assert IoOk(s, w);
    forall fd | 0 <= fd < |s'.table| ensures SlotOk(s', fd) { assert SlotOk(s, fd); }
    forall x | x in s'.ios ensures IoOk(s', x) { assert IoOk(s, x); }
  }

  lemma EmptiedOk(s: State, w: Io, events: Mask)
    requires Ok(s) && w in s.ios && 0 <= s.ios[w].fd < |s.table| && s.ios[w].pevents - events == {}
    ensures Ok(Stopped(s, w, events))
  {
    var s', fd0 := Stopped(s, w, events), s.ios[w].fd;
    assert IoOk(s, w) && SlotOk(s, fd0);
    FilledUpdate(s.table, fd0, null);
    WithoutDistinct(s.queue, w);
    assert s'.queue == Without(s.queue, w) && s'.ios == s.ios[w := View(fd0, {}, {})];
    WithoutExact(s.queue, w);
    forall fd | 0 <= fd < |s'.table| ensures SlotOk(s', fd) { assert SlotOk(s, fd); }
    forall x | x in s'.ios ensures IoOk(s', x) { assert IoOk(s, x); }
  }

  lemma ClosedOk(s: State, w: Io)
    requires Ok(s) && w in s.ios && Alone(s, w)
    ensures s.ios[w].fd >= -1 && Ok(ClosedIo(s, w))
  {
    StoppedOk(s, w, INTEREST);
    if s.ios[w].fd != -1 {
      StoppedAll(s, w);
      ForgottenOk(Stopped(s, w, INTEREST), s.ios[w].fd);
    }
  }

  /** A descriptor that nobody watches leaves the batch and the kernel. */
  lemma ForgottenOk(s: State, fd: int)
    requires Ok(s) && fd >= 0 && forall x :: x in s.ios && s.ios[x].fd == fd ==> s.ios[x].pevents == {}
    ensures Ok(s.(batch := Invalidated(s.batch, fd), kernel := s.kernel - {fd}, log := s.log + [Closed(fd)]))
  {
    var s' := s.(batch := Invalidated(s.batch, fd), kernel := s.kernel - {fd}, log := s.log + [Closed(fd)]);
    forall d | 0 <= d < |s'.table| ensures SlotOk(s', d) { assert SlotOk(s, d); }
    forall x | x in s'.ios ensures IoOk(s', x) { assert IoOk(s, x); }
  }

  /** After a stop of everything no watcher is active for the descriptor. */
  lemma StoppedAll(s: State, w: Io)
    requires Ok(s) && w in s.ios && Alone(s, w)
    ensures s.ios[w].fd >= -1
    ensures var s1 := Stopped(s, w, INTEREST);
      && s1.ios.Keys == s.ios.Keys
      && forall x :: x in s1.ios && s1.ios[x].fd == s.ios[w].fd && s.ios[w].fd != -1 ==> s1.ios[x].pevents == {}
  {
    assert IoOk(s, w);
    assert s.ios[w].pevents - INTEREST == {};
  }

  lemma MovedOk(s: State, w: Io, fd: int)
    requires Ok(s) && (w in s.ios ==> s.ios[w].pevents == {}) && fd >= -1
    ensures Ok(Moved(s, w, fd))
  {
    var s' := Moved(s, w, fd);
    forall fd | 0 <= fd < |s'.table| ensures SlotOk(s', fd) { assert SlotOk(s, fd); }
    forall x | x in s'.ios ensures IoOk(s', x) {
      if x != w { assert IoOk(s, x); }
    }
  }

  // ---------- telling the kernel ----------

  /** One round of uv__io_poll's first loop. */
  function Armed(s: State): State
    requires s.queue != [] && s.queue[0] in s.ios
  {
    var w := s.queue[0];
    var v := s.ios[w];
    s.(queue := s.queue[1..], kernel := s.kernel[v.fd := v.pevents], ios := s.ios[w := v.(events := v.pevents)])
  }

  lemma ArmedOk(s: State)
    requires Ok(s) && s.queue != []
    ensures s.queue[0] in s.ios && Ok(Armed(s))
  {
    var w, s' := s.queue[0], Armed(s);
    assert IoOk(s, w);
    assert w !in s.queue[1..];
    forall fd | 0 <= fd < |s'.table| ensures SlotOk(s', fd) { assert SlotOk(s, fd); }
    forall x | x in s'.ios ensures IoOk(s', x) {
      assert IoOk(s, x);
      assert x in s.queue ==> x == w || x in s.queue[1..];
    }
  }

  function Drained(s: State): State
    requires Ok(s)
    decreases |s.queue|
  {
    if s.queue == [] then s
    else
      ArmedOk(s);
      Drained(Armed(s))
  }

  predicate SameWish(s: State, s': State)
  {
    && s'.ios.Keys == s.ios.Keys && s'.table == s.table && s'.nfds == s.nfds && s'.batch == s.batch && s'.log == s.log
    && forall w :: w in s.ios ==> s'.ios[w].fd == s.ios[w].fd && s'.ios[w].pevents == s.ios[w].pevents
  }

  /** After the loop the kernel's view is the user's: every active watcher has `events` and its mask in the
      kernel equal to `pevents`. */
  lemma {:induction false} DrainedAgrees(s: State)
    requires Ok(s)
    ensures var s' := Drained(s);
      && Ok(s') && s'.queue == [] && SameWish(s, s')
      && (forall w :: w in s'.ios ==> s'.ios[w].events == s'.ios[w].pevents)
      && (forall w :: w in s'.ios && s'.ios[w].pevents != {} ==>
            s'.ios[w].fd in s'.kernel && s'.kernel[s'.ios[w].fd] == s'.ios[w].pevents)
      && (forall fd :: fd in s.kernel ==> fd in s'.kernel)
    decreases |s.queue|
  {
    if s.queue == [] {
      forall w | w in s.ios ensures IoOk(s, w) {}
    } else {
      ArmedOk(s);
      DrainedAgrees(Armed(s));
    }
  }

  /** Descriptors without a queued watcher keep what the kernel has. */
  lemma {:induction false} DrainedKeeps(s: State, fd: int)
    requires Ok(s) && forall w :: w in s.queue ==> s.ios[w].fd != fd
    ensures fd in Drained(s).kernel <==> fd in s.kernel
    ensures fd in s.kernel ==> Drained(s).kernel[fd] == s.kernel[fd]
    decreases |s.queue|
  {
    if s.queue != [] {
      ArmedOk(s);
      assert s.queue[0] in s.queue;
      DrainedKeeps(Armed(s), fd);
    }
  }

  /** uv__io_poll may return at once when there is no entry: nothing is queued. */
  lemma NoEntries(s: State)
    requires Ok(s) && s.nfds == 0
    ensures s.queue == []
  {
    if s.queue != [] { HasEntry(s, s.queue[0]); }
  }

  lemma HasEntry(s: State, w: Io)
    requires Ok(s) && w in s.queue
    ensures s.nfds > 0
  {
    assert IoOk(s, w);
    FilledSome(s.table, s.ios[w].fd);
  }
}
