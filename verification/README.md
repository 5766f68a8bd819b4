# The hard parts of the server's event loop, modelled and proved

The key/value server runs on a copy of libuv and on a hash table of its own.  This project models the parts
on which everything else rests, and proves what they promise.

* `Pool.dfy`, `PoolOrder.dfy`, `Async.dfy`, `AsyncCount.dfy`, `Delivery.dfy`: the worker pool and the cross-thread wake-up as transition
  systems, one step per mutex-protected section, compare-and-swap or fd operation, and their composition.  The
  invariants hold in every interleaving of any number of workers, senders and loops.  `PoolOrder` says when a
  request can be cancelled and in which order requests are taken and delivered, `AsyncCount` that no callback
  starts without a send.  The sections of the pool are also given as methods over the static variables, proved
  equal to the transitions.
* `Fairness.dfy`, `Pickup.dfy`: infinite runs.  If every thread is scheduled fairly, every send is answered and
  every finished or cancelled request is delivered.
* `RbTree.dfy`, `RbTreeHead.dfy`: the red-black tree of `tree.h`.  Each macro is a method on nodes with
  child, parent and colour fields.  The heap is compared, through a snapshot of all cells, with a functional
  tree and a zipper, and the shape, order and colour results are proved there.
* `HeapShape.dfy`, `HeapInl.dfy`, `Timer.dfy`: the pointer-based complete binary heap, addressed by the bits
  of the position, and the timers on top.
* `Ring.dfy`, `Passes.dfy`, `LoopWatcher.dfy`: the intrusive ring queue, and one pass over prepare, check or
  idle handles whose callbacks start and stop any of them.
* `Inotify.dfy`: the inotify watcher table on top of the red-black tree, with callbacks that start and stop
  handles while a list is swept.
* `TableSize.dfy`, `WatcherTable.dfy`, `EventBatch.dfy`, `Interest.dfy`, `Epoll.dfy`: the table of I/O watchers,
  the masks it shares with the kernel, and the dispatch of a batch whose callbacks start, stop, close and reuse
  watchers.  `Interest` says what interest is left after such calls, and that the kernel gets to have just that.
* `Utf8.dfy`, `Rfc3492.dfy`, `Punycode.dfy`, `PunycodeSamples.dfy`, `Idna.dfy`, `Domain.dfy`: names to ASCII.
  `Rfc3492` is a decoder written out from the standard alone; `Punycode` is the encoder over unbounded integers,
  with its round trip through that decoder; `Idna` is the C code in 32 bits with a buffer of fixed size, proved
  against it; `Domain` reads whole names back.
* `InetText.dfy`, `InetGrammar.dfy`, `Inet.dfy`: internet addresses as text.  The parsers and printers are
  functions with their round trips; `InetGrammar` gives the accepted and the canonical texts apart from them; the
  loops of the C code are proved against the functions.
* `HashShape.dfy`, `HashTable.dfy`: the server's hash table with linear probing, growth, failing allocations
  and iteration, proved against a finite map.
* `IniText.dfy`, `IniGrammar.dfy`, `Ini.dfy`: the configuration parser as functions on strings, with its round
  trip; what every line means in terms of its text; and the code on its line buffer.

Methods carry the loops and the assignments of the C code.  Their contracts tie the new state to functions,
and the lemmas beside them say what those functions are for.

Where the code and its promises part:

* The UTF-8 decoder accepts some malformed input.  `Utf8.DecodeTwo`, `DecodeThree`, `DecodeFour` and
  `DecodeNone` together give everything it accepts, and `Utf8.AcceptsExactly` says when that is an encoding.
* heap_remove tests whether the removed last node is still `min` (libuv/src/heap-inl.h:189-191).  It never
  is: unlinking the last node has cleared `min`.  `HeapInl.Heap.Settle` proves the test false.
* inet_ntop6 tests for seven zero words in front of an embedded IPv4 address (libuv/src/inet.c:130).  That
  case cannot arise at word 6, which such a run covers; `Inet.IsEmbedded` shows what is left of the test.
* A name comes back from its ASCII form iff none of its labels is all ASCII and begins with "xn--"
  (`Domain.NameRoundTrip`).
* uv__io_start asserts that a descriptor is below INT_MAX, but the size of the table wraps around in 32 bits for
  INT_MAX - 1 (`TableSize.AllocationFits`).
* The dispatch merges an error or a hangup with what the watcher wants, but not an error together with a hangup
  (`EventBatch.GivenExact`).
* ini.h promises the number of the first bad line.  A line that does not fit in the buffer is read piece by
  piece, and a well-formed one may fail (`IniText.LongPairFails`).  The number is right as long as the lines up
  to the first failing one are short (`IniText.ResultUpTo`).  This is no equivalence: the pieces of a long line
  may happen to be well-formed lines too.

## Model

| member | source | states |
|---|---|---|
| Pool.ExactOutcome | libuv/src/threadpool.c:57-139 | in every run a submitted request is in exactly one place until it is delivered and nowhere afterwards; its done callback runs at most once, with 0 iff the work function ran (then exactly once) and with UV_ECANCELED iff it never ran |
| Pool.ConservedStep | libuv/src/threadpool.c:57-160 | every step (submit, section, work, finish, cancel, hand-over, move, deliver) keeps the number of places of every request, up to its submission and its delivery |
| Pool.CancelConserved | libuv/src/threadpool.c:274-297 | a cancelled request leaves its one queue for the canceller and appears nowhere twice, even when it was cancelled before; when a cancellation succeeds is PoolOrder.CancelExact |
| Pool.DeliverConserved | libuv/src/threadpool.c:312-319 | delivery takes exactly the first request of the batch out of the loop |
| Pool.PlacesStep | libuv/src/threadpool.c:57-139 | what is true of a request where it is (not run while queued, run once in the done queue, nulled or marked cancelled) is kept by every step |
| Pool.NoLostWakeUp | libuv/src/threadpool.c:71-85 | at every release of the mutex, while no exit message is queued: the startable entries do not outnumber the awake workers with nothing in hand as long as some worker sleeps, and if anything is queued some worker is awake |
| Pool.WakeStep | libuv/src/threadpool.c:133-160 | the accounting behind it is kept by every step, including a signal that wakes nobody and a spurious wake-up |
| Pool.AwakeCanStep | libuv/src/threadpool.c:65-139 | an awake worker can always take its next step, which is no spurious wake-up |
| Pool.SlowLane | libuv/src/threadpool.c:90-117 | slow_io_work_running is the number of workers with a slow request, at most (nthreads+1)/2; the message is queued at most once, and is whenever slow requests wait; slow requests start in the order of submission |
| Pool.LaneStep | libuv/src/threadpool.c:134-159 | the slow lane's part of the invariant is kept by every step |
| Pool.ShutdownStep | libuv/src/threadpool.c:80-85 | after exit_message is queued it stays queued, no worker goes to sleep again, every worker step lowers (live workers, entries ahead of the message) and no other step raises it |
| Pool.ShutdownBound | libuv/src/threadpool.c:167-190 | so over any run the workers take at most that many steps |
| Pool.ShutdownNeverStuck | libuv/src/threadpool.c:80-85 | after exit_message is queued and until all workers have left some awake worker can step: each leaving worker passes the signal on, and no spurious wake-up is needed |
| Pool.ShutdownEnds | libuv/src/threadpool.c:167-190 | from any state with exit_message queued: the workers take at most that many steps, and a run in which none of them can go on has them all gone |
| Pool.EveryWorkerLeaves | libuv/src/threadpool.c:167-190 | in every infinite run in which some worker steps as long as one can, there comes a state in which all workers have left |
| Pool.ThreadPool.Post | libuv/src/threadpool.c:142-160 | the code of post, field by field, is the transition the state machine makes |
| Pool.ThreadPool.WorkerLoop | libuv/src/threadpool.c:69-119 | the worker's for loop from the lock to the release is the transition the state machine makes, and it ends |
| Pool.ThreadPool.WorkerSection | libuv/src/threadpool.c:65-119 | the same with the bookkeeping of the previous wait or request in front |
| Async.InvInRun | libuv/src/unix/async.c:63-165 | the invariant below holds in every state of every run, for any number of senders and handles |
| Async.OneThreadBetweenExchanges | libuv/src/unix/async.c:63-80 | pending is 1 iff exactly one sender is between its two exchanges, so the abort is unreachable |
| Async.EverySendIsAnswered | libuv/src/unix/async.c:122-165 | from the moment any send decides, coalesced or not, until a callback of its handle starts, the loop is bound to reach the handle: the fd is or will be readable, or the sweep has it ahead |
| Async.StillExamined | libuv/src/unix/async.c:122-165 | a nonzero pending stays covered by its setting sender, the fd or the sweep until its callback |
| Async.LoopGetsCloser | libuv/src/unix/async.c:84-112 | every step of the loop thread brings it closer to the callback of a handle that is due |
| Async.OthersDoNotDelay | libuv/src/unix/async.c:63-80 | no other thread's step takes it further away |
| Async.NeverStuck | libuv/src/unix/async.c:122-165 | while a handle is due, the loop or the sender in its way can step |
| Async.OpenChange | libuv/src/unix/async.c:115-119 | only open and close change which handles the loop owns |
| Delivery.NothingForgotten | libuv/src/threadpool.c:124-129 | pool and async handles together: whenever a loop's wq_mutex is free and its done queue is not empty, a run of uv__work_done that will take it is owed |
| Delivery.NetKeepsPromise | libuv/src/unix/async.c:122-165 | the promise made by uv_async_send under wq_mutex is kept by every step of the async machinery until uv__work_done takes the queue |
| Delivery.OutcomeInComposition | libuv/src/threadpool.c:290-320 | conservation and exact outcome hold in the composition |
| Delivery.DeliveryNeverStuck | libuv/src/threadpool.c:300-320 | while requests wait in a done queue and nobody holds the mutex, the loop's thread can hand over, take the queue, deliver or go on sweeping, or a sender in its way can step; this includes the states inside uv__work_done |
| Delivery.PickUpNearer | libuv/src/unix/async.c:122-165 | every step of the composition takes the queue or keeps the loop at least as near to it, by (sweep phase, steps left in the sweep, batch left); steps of progress bring it strictly nearer |
| Pickup.NetIsFair | libuv/src/threadpool.c:290-320 | if every thread is scheduled fairly, so that the loop's thread steps unless it waits for its descriptor or for wq_mutex, senders go on, holders unlock and user code comes back, then the loop's part of the wake-up protocol is scheduled fairly |
| Pickup.EveryRequestIsTaken | libuv/src/threadpool.c:300-320 | then every request in a done queue gets into the batch of uv__work_done, unless uv_cancel takes it out once more before |
| Pickup.EveryRequestIsDelivered | libuv/src/threadpool.c:274-320 | then every request that has finished or has been cancelled, wherever it is between the two, has its done callback called, unless uv_cancel takes it once more before |
| Pickup.EveryFinishedIsDelivered | libuv/src/threadpool.c:300-320 | and one whose work function has run has it called in any case, with status 0 and for the first time, whatever user code tries to cancel |
| Fairness.WaitStep | libuv/src/unix/async.c:84-112 | while the loop waits in uv__async_spin only the one sender between its exchanges can release it, with at most two steps |
| Fairness.FairRunAnswers | libuv/src/unix/async.c:63-165 | in every infinite run in which the loop's thread steps unless its descriptor has nothing to read, senders go on, and user code, unless its calls end, comes back again and again to the loop's own code or to a poll with nothing to read: each decided send is followed by the start of its handle's callback or by the handle's close |
| Fairness.CloseEnds | libuv/src/unix/async.c:115-122 | in such a run, whatever user code does, every close is completed, also one that waits for a sender |
| Fairness.CallbackEnds | libuv/src/unix/async.c:84-119 | in such a run every callback ends, also one that closes handles |
| RbTree.RotateLeftRep | libuv/include/uv/tree.h:342-360 | RB_ROTATE_LEFT, pointer by pointer, turns x(a, y(b, c)) into y(x(a, b), c) and leaves everything else and every parent link coherent |
| RbTree.RotateRightRep | libuv/include/uv/tree.h:362-380 | the same for RB_ROTATE_RIGHT |
| RbTree.FixedOk | libuv/include/uv/tree.h:407-449 | a red node below a red parent is repaired: black root, no red node with a red child, equal black counts, same order of nodes |
| RbTree.RefilledOk | libuv/include/uv/tree.h:451-528 | a subtree that is one black short is repaired, with the order of nodes unchanged |
| RbTree.RecolourRound | libuv/include/uv/tree.h:415-421 | one recolouring round on the pointers is one on the tree |
| RbTree.PastRedRound | libuv/include/uv/tree.h:460-464 | the rotation past a red sibling, pointers against tree |
| RbTree.StraightenRound | libuv/include/uv/tree.h:473-482 | the rotation that reddens the far nephew, pointers against tree |
| RbTree.LiftRound | libuv/include/uv/tree.h:483-489 | the last rotation of RB_REMOVE_COLOR, pointers against tree |
| RbTree.SameBlackCount | libuv/include/uv/tree.h:407-449 | what the balance says: every path from the root to a missing child has the same number of black nodes, and no path is more than twice as long |
| RbTree.RemoveLeafOk | libuv/include/uv/tree.h:530-595 | splicing out a node with at most one child leaves a valid tree without exactly that node |
| RbTree.RemoveInnerOk | libuv/include/uv/tree.h:530-595 | replacing a node with two children by its successor leaves a valid tree without exactly that node |
| RbTree.ReplaceRound | libuv/include/uv/tree.h:557-570 | the successor takes over fields and neighbours of the removed node, pointers against tree |
| RbTree.LeafOk | libuv/include/uv/tree.h:598-626 | a new red leaf where the search ended, repaired, is the old tree with exactly that node at its place in the order |
| RbTreeHead.Head.InsertColor | libuv/include/uv/tree.h:407-449 | the loop of RB_INSERT_COLOR on the nodes computes that repair |
| RbTreeHead.Head.RemoveColor | libuv/include/uv/tree.h:451-528 | the loop of RB_REMOVE_COLOR on the nodes computes that repair |
| RbTreeHead.Head.Insert | libuv/include/uv/tree.h:598-626 | RB_INSERT keeps a valid tree; a new key is added at its place and nothing else changes; an equal key returns the node that has it and changes nothing |
| RbTreeHead.Head.Remove | libuv/include/uv/tree.h:530-595 | RB_REMOVE keeps a valid tree and takes out exactly the given node |
| RbTreeHead.Head.Find | libuv/include/uv/tree.h:629-644 | RB_FIND returns the node with the key, or NULL iff there is none |
| RbTreeHead.Head.NFind | libuv/include/uv/tree.h:646-665 | RB_NFIND returns the least node not below the key, or NULL iff there is none |
| RbTreeHead.Head.Next | libuv/include/uv/tree.h:668-687 | RB_NEXT returns the next node in the order or NULL |
| RbTreeHead.Head.Prev | libuv/include/uv/tree.h:690-709 | RB_PREV returns the previous node in the order or NULL |
| RbTreeHead.Head.Foreach | libuv/include/uv/tree.h:738-741 | RB_FOREACH visits every node once, in ascending order |
| RbTreeHead.Head.ForeachReverse | libuv/include/uv/tree.h:753-756 | RB_FOREACH_REVERSE visits every node once, in descending order |
| HeapShape.NodeSwapRep | libuv/src/heap-inl.h:72-104 | heap_node_swap exchanges two positions of a complete tree by pointer surgery alone |
| HeapShape.UpRound | libuv/src/heap-inl.h:146-147 | one round up keeps every order but the moved node's with its new parent |
| HeapShape.DownRound | libuv/src/heap-inl.h:220-229 | one round down either ends with the node in order or moves the smaller child up and keeps every other order |
| HeapInl.Heap.Follow | libuv/src/heap-inl.h:122-136 | the loop that takes the bits of n from the top leads from heap->min to the slot of position n, and to the one above it |
| HeapInl.Heap.Path | libuv/src/heap-inl.h:122-136 | the loop that collects the bits of n ends with all but the leading one |
| HeapShape.PathSmall | libuv/src/heap-inl.h:122-136 | the bit path fits in the word that held n |
| HeapShape.TakenOverRep | libuv/src/heap-inl.h:195-214 | the last node takes the removed node's place with all neighbours pointing at it |
| HeapShape.RootIsLeast | libuv/src/heap-inl.h:72-104 | in an ordered heap nothing is less than the root |
| HeapInl.Heap.Insert | libuv/src/heap-inl.h:107-148 | heap_insert keeps a complete, ordered heap for any strict weak order and adds exactly the new node |
| HeapInl.Heap.Remove | libuv/src/heap-inl.h:150-237 | heap_remove of any member keeps a complete, ordered heap and takes out exactly that node |
| HeapInl.Heap.Dequeue | libuv/src/heap-inl.h:239-241 | heap_dequeue takes out the root, and no member was less than it |
| Timer.TimerLessOk | libuv/src/timer.c:38-55 | timer_less_than is a strict weak order, decided by the start id when timeouts agree |
| Timer.Loop.Start | libuv/src/timer.c:67-95 | uv_timer_start refuses a closing handle or no callback, else re-arms the handle with the clamped timeout and a fresh start id; the heap holds exactly the active timers |
| Timer.Loop.Stop | libuv/src/timer.c:98-108 | uv_timer_stop takes the handle out of the heap and changes nothing for an inactive one |
| Timer.Loop.Again | libuv/src/timer.c:111-121 | uv_timer_again re-arms a repeating timer and stops no other |
| Timer.Loop.NextTimeout | libuv/src/timer.c:142-160 | time plus the result never passes the earliest timeout, and the result is 0 iff a timer is due |
| Timer.Loop.RunTimers | libuv/src/timer.c:163-180 | for callbacks that stop any timers and start none: the pass ends, calls each due timer at most once, in the order of (timeout, start id), calls none that an earlier callback has stopped, and leaves no due timer; every record afterwards is exact: untouched if the timer neither fired nor was stopped, inactive if it was stopped, else what uv_timer_again makes of it, with new start ids in the order of firing |
| Timer.PassStep | libuv/src/timer.c:163-180 | one round keeps all of that, and the number of due timers falls |
| Utf8.DecodeEncode | libuv/src/idna.c:92-103 | the decoder returns every scalar value from its encoding by section 3 of RFC 3629, whatever follows |
| Utf8.Decode1 | libuv/src/idna.c:26-103 | whatever the decoder returns is a scalar value, and it reads one byte exactly for ASCII |
| Utf8.AcceptsExactly | libuv/src/idna.c:26-90 | when it accepts, it has read the encoding of what it returns iff all bytes the lead byte asks for are there and look like continuation bytes |
| Utf8.DecodeTwo | libuv/src/idna.c:47-66 | what it accepts with one byte behind the lead byte, because that asks for no more or no more are left: exactly the input whose second byte looks like a continuation byte and whose lead byte has a value of at least 2 in its low five bits |
| Utf8.DecodeThree | libuv/src/idna.c:46-90 | with two bytes behind it: exactly the input whose last two bytes agree in their top bits and whose value is a scalar value of at least 0x800 |
| Utf8.DecodeFour | libuv/src/idna.c:38-90 | with three bytes behind it: exactly the input whose top bits have the exclusive or 10 and whose value is a scalar value of at least 0x10000 |
| Utf8.DecodeNone | libuv/src/idna.c:33-70 | and nothing else but ASCII |
| Utf8.DecodeLax | libuv/src/idna.c:72-73 | three malformed inputs that are accepted: one cut short and two with stray top bits |
| Utf8.DecodeCut | libuv/src/idna.c:92-103 | a code point decodes the same when the text is cut anywhere behind it |
| Punycode.RoundTrip | libuv/src/idna.c:152-268 | a decoder written out from sections 5, 6.1 and 6.2 of RFC 3492, which shares no definition with the encoder, reads back every text from what the encoder writes for it |
| Punycode.IntRoundTrip | libuv/src/idna.c:214-240 | a variable-length integer is read back as the number it was made from |
| Punycode.PassUndone | libuv/src/idna.c:202-264 | one pass over the label for one code point is undone by the decoder, insertion by insertion |
| Idna.OverflowCheck | libuv/src/idna.c:196-199 | the overflow check in 32 bits is exact |
| Idna.WriteInt | libuv/src/idna.c:214-240 | the digit loop writes the variable-length integer of section 6.3 |
| Idna.AdaptBias | libuv/src/idna.c:242-259 | halving, dividing by 350 and the loop by 35 compute the adaptation of section 6.1, without overflow |
| Idna.RunPass | libuv/src/idna.c:202-264 | the second inner loop does one pass of the unbounded encoder, or stops exactly when its delta would need more than 32 bits |
| Idna.ToAsciiLabel | libuv/src/idna.c:105-268 | UV_EINVAL iff the bytes do not decode; UV_E2BIG iff the unbounded encoder needs a delta above 2^32-1; else the ASCII label itself or "xn--" and its Punycode, truncated at the end of the buffer |
| Idna.ToAscii | libuv/src/idna.c:270-315 | the whole name, label by label, with a closing NUL, truncated at the end of the buffer; the result is the number of bytes written or the first error |
| Domain.LabelRoundTrip | libuv/src/idna.c:105-268 | a label is read back from its ASCII form iff it was not an all-ASCII label that starts with "xn--" |
| Domain.NameRoundTrip | libuv/src/idna.c:270-315 | a name given in UTF-8 is read back from its ASCII form, with every kind of dot as ".", iff none of its labels is ambiguous in that way |
| Domain.FailsWhenTooLarge | libuv/src/idna.c:270-315 | a well-formed name is refused iff some label needs a delta above 2^32-1 |
| HashShape.MaskIsRemainder | ht.c:109-111 | masking with capacity - 1 is taking the remainder, because the capacity is a power of two |
| HashShape.ProbeFinds | ht.c:113-129 | the probe stops at the key's slot iff the map has the key, with its value |
| HashShape.SetKeeps | ht.c:140-170 | storing where the probe stops updates the map at exactly that key, keeps the chains of all other keys unbroken and no key twice |
| HashShape.CountIsSize | ht.c:207-227 | the number of full slots is the number of distinct keys |
| HashShape.ItemsAreContents | ht.c:242-260 | iterating yields each key of the map exactly once, with its value |
| HashTable.HashKey | ht.c:34-43 | the loop computes the 64-bit FNV-1a hash |
| HashTable.Probe | ht.c:113-128 | the probe loop ends, at the key or at the first empty slot on its way |
| HashTable.Table.Get | ht.c:107-130 | ht_get returns the value the map has for the key, or NULL iff it has none |
| HashTable.Table.Expand | ht.c:175-205 | ht_expand doubles the capacity and moves every key without changing the map, or changes nothing; it refuses iff memory is short or the capacity would overflow |
| HashTable.Table.SetEntry | ht.c:133-171 | ht_set_entry updates the map, or changes nothing when a new key cannot be copied |
| HashTable.Table.Set | ht.c:207-227 | ht_set updates the map at exactly the key and keeps length at most capacity / 2; a failed call changes no mapping; it fails iff the value is NULL, a needed expansion fails or a new key cannot be copied |
| HashTable.Iterator.Next | ht.c:242-260 | ht_next yields the next full slot or says that there is none |
| HashTable.Iterate | ht.c:234-260 | a whole iteration yields each key of the map once, with its value |
| InetText.Exact4 | libuv/src/inet.c:180-216 | inet_pton4 reads an address from a text iff the text is what inet_ntop4 prints for it |
| InetText.RoundTrip6 | libuv/src/inet.c:219-303 | inet_pton6 reads every 16-byte address back from its printed form, with or without "::" or an embedded IPv4 address |
| InetText.BestIsUnique | libuv/src/inet.c:88-111 | there is only one leftmost longest run of at least two zero words |
| Inet.FindRun | libuv/src/inet.c:88-111 | the loop finds the leftmost of the longest runs of at least two zero words (sections 4.2.2 and 4.2.3 of RFC 5952), or that there is none |
| Inet.Ntop4 | libuv/src/inet.c:53-64 | inet_ntop4 stores the four numbers with dots, or UV_ENOSPC and nothing iff text and NUL do not fit; both fit in the 16 bytes it formats into |
| Inet.Ntop6 | libuv/src/inet.c:67-148 | inet_ntop6 stores the text with that run as "::", or UV_ENOSPC and nothing iff text and NUL do not fit; both fit in the 46 bytes it formats into |
| Inet.Pton4 | libuv/src/inet.c:180-216 | the loop of inet_pton4 computes the parser, and a text that is refused changes nothing |
| Inet.Shift | libuv/src/inet.c:283-298 | the overlapping shift by hand yields the bytes in front of the gap, zeros and the bytes behind it |
| Inet.Groups6 | libuv/src/inet.c:231-276 | the loop of inet_pton6 computes the parser up to its end or the embedded address |
| Inet.Pton6 | libuv/src/inet.c:219-303 | inet_pton6 stores what the parser reads, or UV_EINVAL and nothing iff it refuses |
| Inet.Pton6Zone | libuv/src/inet.c:158-171 | uv_inet_pton cuts a zone off and refuses what is too long in front of one |
| Inet.PrintedReadBack | libuv/src/inet.c:40-171 | an IPv6 address survives printing and reading through the public functions |
| Ring.InsertTailRing | libuv/src/queue.h:92-99 | QUEUE_INSERT_TAIL adds exactly the new node at the end of a ring and touches no other ring |
| Ring.InsertHeadRing | libuv/src/queue.h:83-90 | QUEUE_INSERT_HEAD adds exactly the new node at the front |
| Ring.RemoveRing | libuv/src/queue.h:101-106 | QUEUE_REMOVE takes exactly the node out and keeps the order of the others |
| Ring.AddRing | libuv/src/queue.h:52-59 | QUEUE_ADD puts a second, not empty queue behind the first |
| Ring.SplitRing | libuv/src/queue.h:61-70 | QUEUE_SPLIT cuts a ring in two |
| Ring.MoveRing | libuv/src/queue.h:72-81 | QUEUE_MOVE transfers the whole sequence, in its order, and leaves the first queue empty |
| LoopWatcher.CallsAreSurvivors | libuv/src/unix/loop-watcher.c:47-60 | a pass calls exactly the handles of the starting queue that were not stopped before their turn, in order; what callbacks start is not called |
| Passes.CalledOnce | libuv/src/unix/loop-watcher.c:47-60 | each of them is called at most once, and one that is not called has been stopped by an earlier call |
| Passes.CalledUnstopped | libuv/src/unix/loop-watcher.c:47-60 | one that is called has not been stopped by an earlier call |
| LoopWatcher.Watchers.Start | libuv/src/unix/loop-watcher.c:32-39 | start puts an inactive handle at the front of the loop's queue, refuses NULL and changes nothing for an active one; both rings stay well formed |
| LoopWatcher.Watchers.Stop | libuv/src/unix/loop-watcher.c:41-46 | stop takes an active handle off the ring it is on, also in the middle of a pass |
| LoopWatcher.Watchers.Run | libuv/src/unix/loop-watcher.c:48-60 | for callbacks that start and stop any handles the pass ends, makes those calls and leaves both rings well formed |
| Inotify.ExactlyTheActive | libuv/src/unix/linux-inotify.c:151-165 | outside a sweep the tree holds exactly the descriptors of active handles, and every active handle is in exactly one list, once |
| Inotify.StopOk | libuv/src/unix/linux-inotify.c:305-322 | stopping any active handle, also in the middle of a sweep, keeps that up to the handles still to be called, and the list being swept is not freed |
| Inotify.StartOk | libuv/src/unix/linux-inotify.c:249-302 | so does starting one, whether its list is there or has just been made |
| Inotify.TurnOk | libuv/src/unix/linux-inotify.c:226-231 | so does putting the next handle back before it is called |
| Inotify.EndOk | libuv/src/unix/linux-inotify.c:235-237 | so does the end of a sweep, which frees the list iff it is empty by then |
| Inotify.Loop.Start | libuv/src/unix/linux-inotify.c:249-302 | uv_fs_event_start makes the handle active with its descriptor, or changes nothing but the kernel's watches, for each of its results; it becomes the last of the list of its descriptor, and the other lists stay as they were |
| Inotify.Loop.Stop | libuv/src/unix/linux-inotify.c:305-322 | uv_fs_event_stop always finds the list of an active handle, and frees it iff it is empty and not being swept; the other lists stay as they were, and the kernel is told to forget exactly the descriptors of lists that are freed |
| Inotify.Loop.SweepList | libuv/src/unix/linux-inotify.c:224-237 | for callbacks that start and stop any handles the sweep ends, calls exactly the handles of the list that are not stopped before their turn, in order, and its list is there until it does; idle callbacks leave the lists as they were, in their order |
| Inotify.Loop.Read | libuv/src/unix/linux-inotify.c:167-240 | each event makes the calls of the list that its descriptor has at that time, and none if the list is gone; the table stays right |
| TableSize.NextPowerOfTwo | libuv/src/unix/core.c:809-818 | the five shifts yield the least power of two that is not below the argument, or 0 for 0 and for what has no such power in 32 bits |
| TableSize.CeilingLeast | libuv/src/unix/core.c:809-818 | no smaller power of two would do |
| TableSize.NewSize | libuv/src/unix/core.c:839 | the size in unsigned ints for every length: the next power of two less 2, or 2^32-2 when there is none |
| TableSize.AllocationFits | libuv/src/unix/core.c:839-841 | the table grows to at least the length asked for, and its size with the two extra entries fits in an unsigned int iff the descriptor is below INT_MAX - 1 |
| WatcherTable.StartedOk | libuv/src/unix/core.c:872-897 | uv__io_start keeps the invariant: nfds counts the entries that are not NULL, a queued watcher has interest and an entry, a nonzero events mask is what the kernel has, and watchers whose masks differ are queued |
| WatcherTable.StoppedOk | libuv/src/unix/core.c:900-928 | so does uv__io_stop, whose assertion that nfds is positive holds |
| WatcherTable.ClosedOk | libuv/src/unix/core.c:931-938 | so does uv__io_close, which also leaves no event of the descriptor in the batch |
| WatcherTable.DrainedAgrees | libuv/src/unix/epoll.c:143-176 | after the first loop of uv__io_poll every watcher has events equal to pevents, and the kernel has that mask for every watcher with interest |
| WatcherTable.DrainedKeeps | libuv/src/unix/epoll.c:143-176 | the kernel keeps what it has for descriptors without a queued watcher |
| WatcherTable.NoEntries | libuv/src/unix/epoll.c:136-139 | when there is no entry nothing is queued, so returning at once loses nothing |
| EventBatch.GivenExact | libuv/src/unix/epoll.c:341-366 | a callback is made iff the event has something that its watcher wants, an error or a hangup, gets nothing else, and hears of something wanted unless exactly an error and a hangup are left |
| EventBatch.RunOk | libuv/src/unix/epoll.c:317-379 | in every state of a dispatch, with callbacks that start, stop, close and reuse any watchers, the invariant holds, exactly the events of closed descriptors are struck out, and callbacks come in the order of the events |
| EventBatch.CalledIffWanted | libuv/src/unix/epoll.c:317-379 | an event reaches its watcher, unless that is the signal watcher, iff at its turn the descriptor is watched with interest in it and has not been closed since the batch began |
| EventBatch.NothingAfterClose | libuv/src/unix/epoll.c:49-64 | no later event of the batch is dispatched for a closed descriptor, even if it is opened again and the table has grown; the signal watcher's call at the end of the batch, which is put off until then, is not one of these |
| Epoll.Loop.MaybeResize | libuv/src/unix/core.c:820-852 | the new table has the old entries and NULLs behind them, and the batch and its length stay where uv__platform_invalidate_fd finds them |
| Epoll.Loop.Start | libuv/src/unix/core.c:872-897 | the code on the fields is that operation |
| Epoll.Loop.Stop | libuv/src/unix/core.c:900-928 | the code on the fields is that operation |
| Epoll.Loop.Close | libuv/src/unix/core.c:931-938 | the code, with the loop that strikes events out of the batch, is that operation |
| Epoll.Loop.Tell | libuv/src/unix/epoll.c:157-173 | a descriptor that is new to the loop is added, or modified if the kernel has it already, and a known one is modified; the kernel then has exactly that mask, and no call of abort is left to be reached |
| Epoll.Loop.Update | libuv/src/unix/epoll.c:136-176 | the first loop of uv__io_poll ends and tells the kernel every wish |
| Epoll.Loop.Dispatch | libuv/src/unix/epoll.c:304-392 | the dispatch loop on the fields makes the turns of such a run; the signal watcher is called last, iff it had an event, and the result says whether any watcher had one |
| IniText.ResultIsFirstFailure | ini.c:93-233 | for every text and every handler the result is 0 if none of the pieces that the reader returns fails as a line, and else the number of the first that does |
| IniText.ResultOnLines | ini.c:93-233 | if all lines of the text are short the result is the number of the first line that fails, or 0 |
| IniText.ResultUpTo | ini.c:93-233 | so it is for the first lines, as long as these are short: a long line behind the first failing one does no harm |
| IniText.LongPairFails | ini.c:255-278 | a long line that is one well-formed pair: the result is 1 for every handler |
| IniText.PiecesExact | ini.c:255-278 | a text is read line by line iff its lines with their newlines have fewer than 200 characters |
| IniText.PiecesWhole | ini.c:255-278 | reading loses no character of any text |
| IniText.ValueExact | ini.c:196-203 | a value comes back iff it is trimmed and has no semicolon behind white space |
| IniText.RoundTrip | ini.c:93-233 | printing any sections and pairs with such fields and parsing the text makes exactly their handler calls, with result 0 if the handler reports success |
| Ini.Rstrip | ini.c:48-53 | the loop strips the string in the buffer and writes nowhere else |
| Ini.Lskip | ini.c:56-60 | the pointer moves to the first character that is not white space |
| Ini.FindChars | ini.c:65-79 | the loop stops at the first of the characters or inline comment |
| Ini.Strncpy0 | ini.c:83-90 | the copy holds the string cut to the size |
| Ini.Source.Read | ini.c:255-278 | one call reads the next piece with its NUL, or nothing at the end of the text |
| Ini.Parser.OnLine | ini.c:152-220 | the code on the line buffer, which it cuts in place, does what the function does for the line |
| Ini.ParseString | ini.c:281-287 | the code makes the calls of the function, with its result |
| PoolOrder.CancelExact | libuv/src/threadpool.c:274-297 | uv_cancel of an undelivered request succeeds iff no worker has it in hand and its work function has not run: then it goes from its queue, with work set to uv__cancelled, into the canceller's hands and nothing else changes; else nothing changes at all (UV_EBUSY) |
| PoolOrder.CancelInRun | libuv/src/threadpool.c:274-297 | in every run, with "not started" spelled out: the request waits in wq or in the slow lane, or was cancelled before and waits for its callback |
| PoolOrder.WorkerTakes | libuv/src/threadpool.c:69-119 | a worker at the top of its loop takes the oldest slow request iff the slow message is in front, fewer than half of the threads (rounded up) have a slow one and one waits; else the first other entry of wq |
| PoolOrder.GoesLast | libuv/src/threadpool.c:142-160 | post puts every entry at the end: a request at that of its lane, and the slow message at that of wq if it is not queued |
| PoolOrder.MessageGoesLast | libuv/src/threadpool.c:88-117 | when the slow message has come to the front of wq it goes behind everything else, or goes away iff fewer than half of the threads have slow requests and at most one waits: slow requests do not keep others waiting |
| PoolOrder.FifoInRun | libuv/src/threadpool.c:69-160 | in every state of every run wq holds its entries in the order of submission, and exit_message behind the requests submitted before it |
| PoolOrder.OldestFirst | libuv/src/threadpool.c:69-119 | so a worker that takes a request from wq takes the oldest there, and none leaves while one waits that was submitted before the shutdown |
| PoolOrder.LineStep | libuv/src/threadpool.c:300-320 | requests join the line of their loop at its end, when they finish or are cancelled, and the first of the line is the one delivered |
| AsyncCount.OwedStep | libuv/src/unix/async.c:122-165 | every step: only a send that takes pending from 0 adds a callback that is owed, and each callback that starts takes one |
| AsyncCount.WinIsSend | libuv/src/unix/async.c:63-80 | such an exchange is made by a thread inside uv_async_send on that handle |
| AsyncCount.NoStartWithoutSend | libuv/src/unix/async.c:122-165 | over every run the callbacks of a handle that have started, with the one that is owed, are at most the sends that took its pending from 0: no callback without a send |
| AsyncCount.StartsOpen | libuv/src/unix/async.c:115-165 | no callback starts for a handle that has been closed |
| AsyncCount.NoWakeWithoutWrite | libuv/src/unix/async.c:122-165 | over every run the loop wakes up at most as often as threads have written to the descriptor |
| AsyncCount.OrderStep | libuv/src/unix/async.c:144-165 | a sweep keeps the order of the handles; only an open adds one, behind those already examined, and only a close takes one out |
| Timer.PassEnds | libuv/src/timer.c:163-180 | the calls of a pass come by timeout and, for equal timeouts, by start id; afterwards no timer is due, and a timer that fired and was not stopped is active iff it repeats, at now plus its interval or at 2^64-1 if that does not fit |
| Utf8.Examples | libuv/src/idna.c:26-103 | the encoding that the decoder undoes, on characters of the examples in section 7 of RFC 3629 |
| Punycode.SmallLetters | libuv/src/idna.c:105-122 | behind the last hyphen the encoder writes digits and small letters only, where the decoder takes either case |
| PunycodeSamples.SampleR | libuv/src/idna.c:152-268 | sample (R) of section 7.1 of RFC 3492 is encoded as printed there |
| PunycodeSamples.SampleLabel | libuv/src/idna.c:152-268 | the label U+00FC becomes "xn--tda" |
| Domain.MalformedFails | libuv/src/idna.c:270-315 | bytes that are no UTF-8 are refused with UV_EINVAL, or with UV_E2BIG iff a label that was complete before the first bad byte is too large |
| Domain.OnlyCodePointsCount | libuv/src/idna.c:270-315 | two byte strings that decode to the same code points give the same name or the same error |
| InetGrammar.Parse4Exact | libuv/src/inet.c:180-216 | inet_pton4 reads an address from a text iff the text is its four decimal numbers without leading zeros, with dots between them |
| InetGrammar.Parse6Exact | libuv/src/inet.c:219-303 | inet_pton6 reads an address from a text iff the text is, by a grammar of its own, one for that address: groups of one to four hexadecimal digits of either case with their value, colons between them, at most one "::" for one zero group or more, an IPv4 address in place of the last two groups |
| InetGrammar.PrintsCanonical | libuv/src/inet.c:67-148 | what inet_ntop6 prints is the canonical text among these, for the run that FindRun gives: small digits, no leading zeros, "::" for that run, and an IPv4 address at the end iff the address begins with six zero groups, or with five and ffff |
| Inet.ZoneCut | libuv/src/inet.c:158-171 | the zone that is cut off begins at the first "%" |
| HashShape.XorBits | ht.c:34-43 | every bit of the exclusive or is the sum of the two bits there |
| HashShape.KnownHashes | ht.c:29-43 | the published FNV-1a values of the empty string, of "a" and of "fo" |
| LoopWatcher.PassKeepsOrder | libuv/src/unix/loop-watcher.c:48-60 | a pass whose callbacks stop nothing leaves the handles in the order in which it called them, behind those that the callbacks have started |
| TableSize.EntriesLeast | libuv/src/unix/core.c:839-841 | with its two extra entries the table has the least power of two that holds the length asked for |
| Interest.StartEffect | libuv/src/unix/core.c:872-897 | uv__io_start adds the mask to the interest of its watcher, enters it in the table and queues it unless the kernel was told just that; no other watcher or entry changes |
| Interest.StopEffect | libuv/src/unix/core.c:900-928 | uv__io_stop takes exactly the mask out of the interest; the entry stays and the watcher is queued iff interest is left, else both go; no other watcher or entry changes |
| Interest.CloseEffect | libuv/src/unix/core.c:931-938 | uv__io_close takes all interest, the entry, the kernel's registration and the events of the batch of its descriptor, and nothing of any other |
| Interest.CallsLeave | libuv/src/unix/core.c:872-938 | after any sequence of starts, stops, closes and inits the interest of a watcher is what the starts have added and the others have not taken |
| Interest.KernelHasInterest | libuv/src/unix/epoll.c:143-172 | after such calls and the next drain the kernel has exactly that interest for the descriptor of every watcher that has some |
| EventBatch.GivenMembers | libuv/src/unix/epoll.c:341-366 | the mask a callback gets, flag by flag: what is reported and wanted, reported errors and hangups, and all that is wanted if nothing but one of those two is left |
| EventBatch.SignalExact | libuv/src/unix/epoll.c:317-390 | the signal watcher is not called during a batch, and is called once at its end, behind all others, iff an event of the batch was for it |
| EventBatch.Unwatched | libuv/src/unix/epoll.c:330-338 | an event of a descriptor without a watcher makes the kernel forget that descriptor and changes nothing else |
| IniText.PiecesShape | ini.c:255-278 | a piece ends with its only newline, at 199 characters or with the text |
| IniGrammar.LineIs | ini.c:137-223 | a grammar of lines written apart from the scanning: blank lines and comments change nothing; an indented line behind a pair is one more value of that name; "[name]" opens a section; a name, "=" or ":" and a value without white space around it and without an inline comment make a call; all else is an error.  The parser does with every line what this meaning says |
| IniGrammar.EveryLine | ini.c:137-223 | every line has such a meaning, in every state |
| IniGrammar.TextIs | ini.c:93-233 | so the calls and the result for a text are what the meanings of its pieces add up to |
| PoolOrder.CallsCanCome | libuv/src/threadpool.c:274-297 | in every state a loop can submit, whatever is queued; any of its undelivered requests can be given to uv_cancel while none of its cancellations is under way; and it can go on delivering or take the next batch |
| Delivery.PoolStepsCanCome | libuv/src/threadpool.c:274-320 | in the composition a step of the pool waits for nothing but the mutexes: a worker that holds none goes on, one that has finished waits only for wq_mutex, and callers cancel from user code |

## Left out

- Clocks, signals, fork, metrics and memory allocation: time is an input, and an allocation never fails except in the hash table, where its outcome is an input.
- Pool.ExactOutcome: cancel is called by the loop's thread, not from the request's own done callback, and the pool has at least one worker, as init_threads makes sure.
- Pool.ThreadPool.Post: init_once and the creation of the threads are not part of the model; the pool is running.
- Async.EverySendIsAnswered: the reads that empty the fd are one step, and a NULL async_cb is a callback that does nothing.
- RbTreeHead.Head.Insert: the comparison is by an integer key that a node keeps while it is in the tree, as compare_watchers does.
- HeapInl.Heap.Insert: nelts stays below 2^32 - 1.
- Timer.Loop.RunTimers: a handle's fields are entries of a map keyed by its heap node; time stays below 2^64 - 1 and timer_counter does not wrap around. Callbacks that start timers are outside the result, since such a pass need not end.
- Idna.ToAscii: the input is shorter than 2^31 - 1 bytes, so that the counters and the result fit.
- Splay trees, the list and queue utilities, sockets, files, processes and the request handling of the server.
- Pickup.EveryRequestIsDelivered: the schedule is assumed to be fair to each thread (`Pickup.Fair`): wq_mutex does not starve the loop's thread for ever, and user code on that thread, unless its calls end, leaves the loop again and again in code of its own, at a poll with nothing to read, or going on with its batch. While the descriptor can be read, the loop's poll thus gets to it. The loop's thread makes one call at a time; a signal handler that sends is one of the other senders. When a worker finishes is left to the work function.
- HashTable.Table.Set: keys are compared and copied by value, and ht_remove is not part of the model: it frees a key that the slot goes on pointing at.
- LoopWatcher.Watchers.Run: the three kinds of watcher are one class, and a callback is given by the operations it makes when it is the k-th to be called.
- Inet.Ntop6: strings are sequences of characters without the closing NUL, which is written by Inet.Store.
- Inotify.Loop.Read: path strings, the creation of the inotify descriptor and fork are not part of the model; what inotify_add_watch returns and whether a list can be allocated are inputs.
- Epoll.Loop.Start: one watcher is active for a descriptor at a time, and the descriptor is below INT_MAX - 1; a callback of the model leaves out calls that break these rules.
- Epoll.Loop.Update: epoll_ctl fails only with EEXIST for a descriptor the kernel has and with ENOENT for one it does not have; loop->backend_fd is open.
- Epoll.Loop.Dispatch: waiting, timeouts, the repeated polling of full batches, metrics and signal masks; the kernel reports descriptors of its set. The watcher queue is a sequence, whose ring operations are those of Ring; the pending queue is left out.
- Ini.ParseString: the options are those ini.h sets; files are not read.
- IniText.RoundTrip: a first line that begins with a byte order mark is excluded, since the parser skips it.
