# A Dafny model of libev and libevent

This project models the algorithmic parts of the two event libraries vendored in this repository, libev 4.11
(`jni/libev`) and libevent 2.0.21 (`jni/libevent`), and proves what their data structures and protocols keep.
`dafny verify dfyconfig.toml` checks all of it.

| file | what it models |
|---|---|
| `WakeUp.dfy` | the cross-thread wake-up of libev as a state machine: any number of senders, one loop, one shared access per step |
| `TimerHeap.dfy` | the watcher fields and the 4-ary timer heap with back-indices |
| `Pending.dfy` | the pending stacks, one per priority |
| `Timers.dfy` | relative timers: start, stop, again, expiry, and the order of the callbacks |
| `Periodics.dfy`, `PeriodicLoop.dfy` | absolute timers: the next time, rescheduling, expiry |
| `Poll.dfy` | the `poll` table and its inverse index |
| `FdReify.dfy` | fd watchers, the list of changed fds, `fd_reify`, and the epoll backend with a kernel that may forget fds |
| `EvBuffer.dfy` | the chunked buffer of libevent as a linked list of chunks on the heap |
| `EvBufferSearch.dfy` | searching the chunks and reading lines |
| `EvBufferRuns.dfy` | runs of operations on several buffers at once |
| `EvBufferReserve.dfy` | reserving space at the end of a buffer and committing it |
| `DnsName.dfy`, `DnsMessage.dfy` | DNS names with compression (section 4.1.4 of RFC 1035), and the question section of a message |
| `NameServers.dfy` | the ring of name servers and the round-robin choice |
| `TokenBucket.dfy`, `RateLimit.dfy` | token buckets with the integer arithmetic of the source, and the suspension of a bufferevent |
| `CommonTimeout.dfy` | common-timeout queues beside the time heap |

How the model reads the source:

- An object that the source updates in place is a class. `Valid()` is its invariant, every method keeps it, and so
  it holds over every run. Methods state the new abstract value (a set of timers, a byte string, a map from events
  to deadlines) in terms of the old one.
- What the source leaves to its surroundings is a parameter (`memory`, `Trouble`, clock readings), a field (the reply of a
  callback) or, in the wake-up protocol, the choice of the next step: whether an allocation succeeds, whether the kernel
  forgets or refuses an fd, which thread moves next.
- `ev_tstamp` is `real`; the arithmetic of the token buckets is that of machine words of any size.
- The wake-up protocol is modelled under sequential consistency, for which the memory fences of the source stand. A poll
  reports the pipe exactly if it holds something when the poll ends.
- Ghost history records what the surroundings did to the model: `Kernel.dropped` (fds that the kernel forgot or refused),
  `EventBase.starved` (queues whose driver got no memory), `Bufferevent.failed` (a refill timer that got no memory).
- The blocks of memory of chunks, the DNS buffer and the like are sequences or arrays of bytes. What the source reads or
  writes outside of them is not done in the model; a result says that the source does.

What turned out not to hold in general, each with its exact condition:

- `periodic_recalc` misses the grid `offset + n * interval` for intervals below its minimum of 1/8192 s:
  `Periodics.OnGridIff`, `Periodics.SmallIntervalMissesGrid`.
- `ev_token_bucket_update` is the smaller of maximum and sum exactly when the limit is not above the maximum, or
  so many bytes are due that the wrapped subtraction does not notice (`TokenBucket.RefillIsMin`). Limits above the
  maximum arise when a bucket is filled by hand, and then a refill can even dry it (`TokenBucket.RefillDries`,
  `TokenBucket.FilledByHand`). A bufferevent is then without bandwidth and yet not suspended
  (`RateLimit.Bufferevent.UpdateBuckets`, `RateLimit.LimitDries`).
- A rate limit with another tick length keeps the last tick of the old one. Then the ticks that passed are counted right
  exactly when both lengths number the time of that tick alike (`TokenBucket.OtherTickLength`, `TokenBucket.LongerTicks`).
- A tick length that is a multiple of 2^32 milliseconds, above all one under a millisecond, is accepted and stored as
  zero, by which `ev_token_bucket_get_tick` divides (`TokenBucket.CfgNewAccepts`).
- A name with an empty label does not survive the DNS round trip (`DnsName.TextOfLabels`, `DnsName.EmptyLabelCuts`,
  `DnsMessage.RoundTrip`), and a compression pointer leads back exactly to offsets below 0x4000 (`DnsName.PointerTarget`).
- `dnsname_to_labels` stores the final zero of a name behind the buffer exactly if `DnsName.Overruns`: the name is written
  without a pointer and its last label ends with the buffer (`DnsName.ToLabels`, `DnsName.OverrunsAtEnd`). Two bytes more
  than the name are always enough (`DnsName.RoomIsEnough`); requests of the resolver have them.
- `name_parse` copies bytes from behind the packet exactly if `DnsName.Overreads`: it comes to a label that runs past the
  packet and still fits the name; it then fails (`DnsName.NameParse`, `DnsName.OverreadsShort`).
- `evbuffer_add` to a buffer that ends in empty chunks leaves `last_with_datap` right exactly if
  `EvBufferReserve.AddsRight`, and loses bytes that `total_len` counts exactly if `EvBufferReserve.AddLoses`
  (`EvBufferReserve.Add`). Reservations lead to such buffers (`EvBufferReserve.TwoEmptyChunks`,
  `EvBufferReserve.AddThere`).
- Committing a single vector in the last chunk leaves `last_with_datap` behind exactly when another empty chunk comes
  before (`EvBufferReserve.CommitLast`, `EvBufferReserve.CommitThere`).
- `evbuffer_prepend` without the memory that it needs leaves the end of the bytes prepended (`EvBuffer.Buffer.Prepend`,
  `EvBuffer.PrependPartly`).
- The loop of `evbuffer_chain_new` ends in a `size_t` exactly if the sum of the sizes, which may wrap round, is at most half
  of the range, and the chunk then has the room asked for exactly if the sum did not wrap round
  (`EvBuffer.AllocationEnds`, `EvBuffer.AllocationInWords`).
- `evbuffer_remove_buffer` ignores that its copy failed. The bytes that it does not move as whole chunks are lost exactly
  when there is no memory and the last chunk of the destination does not take them (`EvBuffer.Buffer.RemoveBuffer`,
  `EvBuffer.LostWithoutMemory`).
- A common-timeout queue is left without its driver on the heap exactly when the driver is off, the heap is full and
  there is no memory (`CommonTimeout.EventBase.Schedule`). For `event_add` that is exactly when the event comes from a
  queue and becomes the first of another whose driver is off, the heap being full and memory lacking
  (`CommonTimeout.EventBase.Add` with `CommonTimeout.StarvedBy`; `CommonTimeout.StarvedQueue` leads there). The loop itself
  starves no queue (`CommonTimeout.EventBase.Turn`). An event waits nowhere exactly when it moves from a queue to a full
  heap without memory (`CommonTimeout.EventBase.Add`).
- A common timeout given with 1000000 microseconds gets a duration that is not proper and does not lead back to its queue
  (`CommonTimeout.EventBase.InitCommonTimeout`, `CommonTimeout.NormalTagged`).

## Model

| member | source | states |
|---|---|---|
| WakeUp.SenderKeepsInv | jni/libev/ev.c:1845-1885 | every access of a sender in `evpipe_write` keeps the invariant that every set flag is covered: by an unread byte, a sender still under way, or a test that the loop is yet to make |
| WakeUp.PollKeepsInv | jni/libev/ev.c:2999-3062 | so does every access of the loop around the poll |
| WakeUp.PipeKeepsInv | jni/libev/ev.c:1890-1937 | so does every access in `pipecb` |
| WakeUp.RunKeepsInv | jni/libev/ev.c:2999-3062 | the invariant holds in every state of every run, for any number of senders |
| WakeUp.NoLostWakeUp | jni/libev/ev.c:2999-3062 | a loop that blocks on an empty pipe while a flag is set has a sender that is still between its flag and the end of `evpipe_write` |
| WakeUp.BlockedLoopOwesNothing | jni/libev/ev.c:4286-4290 | when all sends have returned, a loop blocked on an empty pipe has no flag set, and every send has been followed by a feed |
| WakeUp.BusySenderWakesLoop | jni/libev/ev.c:1845-1885 | that sender writes the pipe within a bounded number of its own accesses, whatever the other senders do |
| WakeUp.SkippedWritePends | jni/libev/ev.c:3055-3062 | a write that was skipped is made good: when the loop has looked at the skip mark with a flag set, an empty pipe and no sender under way, the pipe watcher is pending |
| WakeUp.StaysUntilPipecb | jni/libev/ev.c:2676-2689 | what is in the pipe, or pending, stays so until a `pipecb` begins |
| WakeUp.FlagReachesPipecb | jni/libev/ev.c:2999-3062 | a flag that is set when the loop comes past the skip mark, with no sender under way, has a `pipecb` begun or pending by the end of the next poll, whatever the senders do |
| WakeUp.CompletedSendReachesPipecb | jni/libev/ev.c:2999-3062 | the same for a single send that has completed: it has been fed, or a `pipecb` has begun since or is pending |
| WakeUp.PipecbEnds | jni/libev/ev.c:1890-1937 | a `pipecb` ends within a number of its own accesses that depends on the number of slots only |
| WakeUp.PipecbSettles | jni/libev/ev.c:1890-1937 | one that no send interferes with leaves no flag, no slot and no skip mark, so that the loop may block again |
| WakeUp.PipecbFeedsReady | jni/libev/ev.c:1890-1937 | every flag whose sender is past the common flag when a `pipecb` begins is fed before that `pipecb` returns |
| WakeUp.PipecbFeedsCompletedSends | jni/libev/ev.c:1890-1937 | a send that is past the common flag when a `pipecb` begins is fed after it began and before that `pipecb` returns, whatever other senders of the same flag are doing |
| Heap4.RootIsLeast | jni/libev/ev.c:2515-2527 | in a heap ordered along its edges no entry is earlier than the root |
| Heap4.Heap.UpHeap | jni/libev/ev.c:1752-1770 | moving an entry up restores the order, the cached times and the back-indices, for the same timers |
| Heap4.Heap.DownHeap | jni/libev/ev.c:1672-1712 | the same for moving an entry down among up to four children |
| Heap4.Heap.AdjustHeap | jni/libev/ev.c:1774-1780 | an entry whose time changed either way finds its place |
| Heap4.Heap.ReHeap | jni/libev/ev.c:1784-1792 | pushing up one entry after the other orders any array |
| Heap4.Heap.Insert | jni/libev/ev.c:3274-3283 | a started watcher joins the heap, which holds exactly the active ones |
| Heap4.Heap.Remove | jni/libev/ev.c:3299-3312 | filling the gap with the last entry and adjusting keeps the heap of the others |
| Heap4.Heap.PostponeRoot | jni/libev/ev.c:2731-2741 | a later time for the root needs only `downheap` |
| Heap4.Heap.ShiftAll | jni/libev/ev.c:2850-2860 | adding one offset to every time keeps the order without restoring it |
| Heap4.Heap.RootIsEarliest | jni/libev/ev.c:2515-2527 | the root is the earliest of the live watchers |
| Pending.PendingQueue.Feed | jni/libev/ev.c:1419-1433 | a fed watcher waits in the slot that it names for events that share a bit with a mask exactly if those fed or those that waited do; nobody else is touched |
| Pending.JoinedBits | jni/libev/ev.c:1424-1425 | joining events loses no bit and makes up none |
| Pending.PendingQueue.FeedReverseDone | jni/libev/ev.c:1436-1448 | feeding in reverse leaves the first of the watchers that were not pending on top, and each waits for exactly its old events and the new one |
| Pending.PendingQueue.Clear | jni/libev/ev.c:3172-3196 | the events that waited are returned, and the slot is left to the dummy |
| Pending.PendingQueue.InvokePending | jni/libev/ev.c:2676-2689 | the calls are the stacks from the highest priority down, each from its top; afterwards nothing is pending |
| Pending.PendingQueue.PendingInOneSlot | jni/libev/ev.c:2505-2512 | a pending watcher stands in exactly one slot of all the stacks |
| Pending.PendingQueue.CalledOnce | jni/libev/ev.c:2676-2689 | a pending watcher is called exactly once, with exactly the events that waited |
| Pending.PendingQueue.CallsByRank | jni/libev/ev.c:2676-2689 | calls go by priority and, within one, from the later slot to the earlier |
| Pending.PendingQueue.OnlyPendingCalled | jni/libev/ev.c:2676-2689 | every call is for the dummy or for a watcher that was pending |
| Timers.TimerLoop.TimerStart | jni/libev/ev.c:3267-3288 | an inactive timer becomes live at now plus its delay; an active one stays as it is |
| Timers.TimerLoop.TimerStop | jni/libev/ev.c:3291-3318 | the timer is neither live nor pending, and keeps the time that was left |
| Timers.TimerLoop.TimerAgain | jni/libev/ev.c:3321-3345 | a repeating timer is live at now plus its repeat value, another one is stopped |
| Timers.TimerLoop.TimersReschedule | jni/libev/ev.c:2850-2860 | after a clock jump every live timer has moved by the same amount |
| Timers.TimerLoop.TimersReify | jni/libev/ev.c:2718-2752 | expiry ends, feeds exactly the timers that were due, each once, stops the one-shot ones, puts off the others, and leaves nothing due |
| Timers.TimerLoop.CalledOnceEach | jni/libev/ev.c:2718-2752 | each fired timer is then called once, with EV_TIMER and what waited for it before |
| Timers.FiredBits | jni/libev/ev.c:2718-2752 | of those events no bit is lost and none made up |
| Timers.TimerLoop.CallsSorted | jni/libev/ev.c:1436-1448 | fired timers that were not pending are called by priority and, within one, by their expiry times |
| Timers.TimerLoop.RunTimers | jni/libev/ev.c:2676-2752 | expiry followed by invocation: both of the above for what is actually called |
| Periodics.Recalc | jni/libev/ev.c:2757-2778 | the next time lies in (now, now + interval], a whole number of intervals from the base that the source starts at |
| Periodics.OnGridIff | jni/libev/ev.c:2757-2778 | it lies on the grid of the offset exactly when the base does, which is so for every interval of at least the minimum |
| Periodics.NextOnGrid | jni/libev/ev.c:2757-2778 | on the grid it is the very next time after now |
| Periodics.SmallIntervalMissesGrid | jni/libev/ev.c:2757-2761 | a smaller interval whose base is off the grid |
| Periodics.PeriodicsReschedule | jni/libev/ev.c:2827-2845 | recalculating every time in any direction, by the rule or by callbacks, and rebuilding gives a heap of the same watchers |
| PeriodicLoop.Loop.Start | jni/libev/ev.c:3355-3382 | a started periodic is live at its offset, at its next time, or at the time that its callback returns |
| PeriodicLoop.Loop.Stop | jni/libev/ev.c:3385-3410 | a stopped periodic is neither live nor pending |
| PeriodicLoop.Loop.Reschedule | jni/libev/ev.c:2827-2845 | after a time jump the times of all live periodics are worked out anew, and which are live and pending stays |
| PeriodicLoop.Loop.PeriodicsReify | jni/libev/ev.c:2782-2822 | expiry feeds exactly the periodics that were due, each once, stops those without an interval, puts the others into (now, now + interval] or where their callback says, and leaves nothing due |
| Poll.ToPoll | jni/libev/ev_poll.c:72-76 | reading stands for POLLIN, writing for POLLOUT, and no other bit is set |
| Poll.PollTable.Entry | jni/libev/ev_poll.c:52-72 | a fd without an entry gets one at the end, and the index stays the exact inverse |
| Poll.PollTable.Remove | jni/libev/ev_poll.c:75-85 | moving the last entry into the gap keeps the table dense and the index its inverse |
| Poll.PollTable.Modify | jni/libev/ev_poll.c:52-86 | afterwards the table has the mask for this fd, no entry if it is zero, and the old masks for all others |
| Poll.PollTable.TableIsAt | jni/libev/ev_poll.c:52-86 | the entries of the table are exactly the fds with a non-zero mask |
| FdReify.OrBits | jni/libev/ev.c:1537-1543 | the union of the masks has a bit exactly when some watcher has it |
| FdReify.FlaggedListed | jni/libev/ev.c:1557-1568 | flagging a fd and listing it unless it was flagged keeps the list exact: the flagged fds, each once |
| FdReify.IoLoop.Change | jni/libev/ev.c:1557-1568 | if the changes yet to be looked at were exactly the flagged fds, each once, they still are, and the fd is one of them |
| FdReify.IoLoop.IoStart | jni/libev/ev.c:3225-3245 | the watcher is in the list of its fd, which is flagged |
| FdReify.IoLoop.IoStop | jni/libev/ev.c:3248-3264 | the watcher is off the list, the others stay in order, and the fd is flagged |
| FdReify.IoLoop.Kill | jni/libev/ev.c:1572-1581 | every watcher of the fd is stopped and fed an error |
| FdReify.StartRearms | jni/libev/ev.c:3238-3242 | a start after `ev_io_set` has the backend called even if the union stays the same |
| FdReify.IoLoop.Reify | jni/libev/ev.c:1497-1553 | it ends with no fd listed, and every fd on record with the union of its watchers, although it may stop watchers and list fds while it goes through the list; no fd is registered anew under an old generation, and without trouble every fd for which the backend is to be called is held by the kernel |
| FdReify.IoLoop.InSync | jni/libev/ev_poll.c:52-86 | then the poll table is the map from fds to unions, and the kernel has exactly that union, with the right generation, for every fd that it did not forget |
| FdReify.Kernel.Arm | jni/libev/ev_epoll.c:71-139 | through ADD and MOD retries, drops, failures and the roll-back of the generation the kernel ends up with the wanted mask and the recorded generation, or without the fd, which is killed exactly if both calls fail; the generation is a new one exactly if the kernel took a call |
| FdReify.IoLoop.EpollModify | jni/libev/ev_epoll.c:71-139 | whatever the kernel holds for a fd is the recorded mask and generation, with deletions ignored; when the fd is killed and when its generation changes, as for `Arm` |
| FdReify.IoLoop.KernelForgets | jni/libev/ev_epoll.c:43-54 | whatever the kernel forgets, what it still holds for a fd is the recorded mask and generation |
| FdReify.IoLoop.RearmAll | jni/libev/ev.c:1622-1633 | every fd with events is flagged for setting up again, with nothing on record, and the others are left alone |
| FdReify.ResetRearms | jni/libev/ev.c:1622-1633 | and the backend will be called for it |
| FdReify.IoLoop.EpollFork | jni/libev/ev_epoll.c:268-278 | a new epoll instance knows nothing, and every fd that matters is flagged |
| FdReify.IoLoop.Recreate | jni/libev/ev_epoll.c:268-278 | after a fork and `fd_reify` the kernel has the union for every fd, if no call fails meanwhile |
| FdReify.IoLoop.CleanUp | jni/libev/ev_epoll.c:190-209 | an event nobody asked for makes the kernel hold the wanted mask, or nothing |
| FdReify.IoLoop.EpollEvent | jni/libev/ev_epoll.c:166-209 | events of another generation feed nobody; others feed each watcher exactly the bits that it asked for; the kernel is told again exactly if some bit was not asked for |
| FdReify.Reopen | jni/libev/ev_epoll.c:71-139 | a fd that the kernel has forgotten and for which a watcher is started is set up under a new generation |
| FdReify.StaleEventFeedsNobody | jni/libev/ev_epoll.c:166-189 | an event that is left from before then feeds nobody and makes the loop rebuild the kernel set |
| FdReify.FeedsExact | jni/libev/ev.c:1462-1474 | a watcher is fed exactly if it is listed and shares a bit with the event, and then with those bits |
| EvBuffer.AllocationFor | jni/libevent/buffer.c:156-170 | the least doubling of the minimum that has room for the chunk and its header |
| EvBuffer.AllocationEnds | jni/libevent/buffer.c:161-166 | in a `size_t` of any width the loop ends exactly if the wrapped sum is at most half of the range |
| EvBuffer.AllocationInWords | jni/libevent/buffer.c:161-166 | where it ends, the result is the least doubling for the wrapped sum, and has room for the chunk exactly if nothing wrapped |
| EvBuffer.ChunkTakes | jni/libevent/buffer.c:1710-1720 | when a chunk takes bytes without another: what its memory holds, if its data begin it or are few enough to be moved, otherwise what fits behind them |
| EvBuffer.Buffer.ChainInsert | jni/libevent/buffer.c:284-312 | a new chunk behind the last one appends its bytes |
| EvBuffer.Buffer.Add | jni/libevent/buffer.c:1535-1618 | the bytes are appended, or nothing changes, exactly when memory lacks and the last chunk does not take them |
| EvBuffer.Buffer.Prepend | jni/libevent/buffer.c:1621-1692 | the bytes are prepended; exactly when memory lacks and they do not fit the first chunk, only the end of them that fits is |
| EvBuffer.PrependPartly | jni/libevent/buffer.c:1660-1676 | a prepend that fails and has put all but one of its bytes in front |
| EvBuffer.Buffer.Drain | jni/libevent/buffer.c:952-1018 | exactly the first bytes are gone, and no chunk is new |
| EvBuffer.Buffer.CopyOut | jni/libevent/buffer.c:1036-1079 | the first bytes are returned and nothing changes |
| EvBuffer.Buffer.Remove | jni/libevent/buffer.c:1022-1033 | what is returned and what is left make up the old contents |
| EvBuffer.Buffer.AddBuffer | jni/libevent/buffer.c:860-903 | all bytes of the source move to the end, and no chunk is shared |
| EvBuffer.Buffer.PrependBuffer | jni/libevent/buffer.c:906-949 | all bytes of the source move to the front |
| EvBuffer.Buffer.RemoveBuffer | jni/libevent/buffer.c:1085-1172 | the first bytes move from one buffer to the end of the other; exactly without memory that is needed, only those of the chunks that are moved whole arrive, fewer than were taken; the chunks of either buffer were theirs before or are new |
| EvBuffer.LostWithoutMemory | jni/libevent/buffer.c:1151-1155 | one byte of two, moved to an empty buffer without memory, is in neither |
| EvBuffer.Buffer.Pullup | jni/libevent/buffer.c:1175-1284 | the contents are the same and the first chunk has the bytes asked for, exactly if there are that many and there is memory or the first chunk has room; the chunks were there before or are new |
| EvBufferRuns.Do | jni/libevent/buffer.c:860-1692 | an append, prepend, drain, pullup, joining of two buffers or transfer between them does to any number of buffers what it does to strings, and they share no chunk before or after |
| EvBufferRuns.Run | jni/libevent/buffer.c:860-1692 | so does every run of them |
| EvBufferRuns.NewBuffers | jni/libevent/buffer.c:340-355 | any number of empty buffers to start a run from |
| EvBuffer.Buffer.AdvanceLastWithData | jni/libevent/buffer.c:647-660 | the link moves over the non-empty chunks that follow it and stops there |
| EvBufferSearch.PtrMemcmp | jni/libevent/buffer.c:2458-2489 | comparing chunk by chunk says whether the bytes occur at that place of the whole string |
| EvBufferSearch.PtrSet | jni/libevent/buffer.c:2412-2451 | the pointer stands at the wanted byte, and it fails exactly when there is none |
| EvBufferSearch.SearchRange | jni/libevent/buffer.c:2498-2560 | the result is the first place from the start on where the bytes occur and end by the end pointer, or none exactly if there is none |
| EvBufferSearch.FindEolIn | jni/libevent/buffer.c:1319-1343 | looking for both characters in stretches of 128 finds the first of either |
| EvBufferSearch.FindStop | jni/libevent/buffer.c:1346-1365 | the first end-of-line character from the pointer on, over all chunks |
| EvBufferSearch.StrSpn | jni/libevent/buffer.c:1368-1404 | the length of the run of end-of-line characters, over all chunks |
| EvBufferSearch.SearchEol | jni/libevent/buffer.c:1417-1489 | the first end of line of the given style and its length, or none exactly if there is none |
| EvBufferSearch.AnyIsRun | jni/libevent/buffer.c:1438-1443 | the lenient style takes the whole run of carriage returns and line feeds |
| EvBufferSearch.StrictIsCrLf | jni/libevent/buffer.c:1444-1449 | the strict style ends at CR LF only, the CRLF style there and at a line feed |
| EvBufferSearch.CrLfEndsAtLf | jni/libevent/buffer.c:1452-1471 | the CRLF style ends at the same line feed as the LF style and differs by the carriage return |
| EvBufferSearch.Readln | jni/libevent/buffer.c:1492-1528 | line, terminator and rest make up the old contents, no end of line lies inside the line, and without a line nothing changes; there is none exactly if the buffer is frozen or has no end of line, and one that is there is lost only to lack of memory; no chunk is new |
| EvBufferReserve.ExpandFast | jni/libevent/buffer.c:1832-1936 | the contents are kept and at most n chunks, from the first with space on, have room for the bytes, or there was no memory |
| EvBufferReserve.SetupVecs | jni/libevent/buffer.c:2003-2036 | the vectors are the space of those chunks in order, enough for what was asked, exactly that much if so wanted |
| EvBufferReserve.Reserve | jni/libevent/buffer.c:614-644 | reserving keeps the contents and returns such vectors; asked for more than all the memory of few enough chunks, it adds an empty one |
| EvBufferReserve.Commit | jni/libevent/buffer.c:663-730 | vectors that lie in the space of the chunks append exactly the bytes that stand there and leave `last_with_datap` right; one vector in the last chunk appends its bytes too, with `last_with_datap` right exactly when no other empty chunk comes before; others are refused without effect |
| EvBufferReserve.FewerAndShorter | jni/libevent/buffer.c:694-706 | the first few of the reserved vectors, each cut to what was used, are such vectors |
| EvBufferReserve.CommitLast | jni/libevent/buffer.c:678-689 | one vector in the last chunk appends its bytes; `last_with_datap` is right exactly when no other empty chunk comes before |
| EvBufferReserve.CommitThere | jni/libevent/buffer.c:678-689 | a byte committed behind two empty chunks that reservations left: `last_with_datap` is wrong |
| EvBufferReserve.Insert | jni/libevent/buffer.c:284-312 | a chunk with data goes behind the last one, or replaces the first empty chunk and all behind it without moving `last_with_datap` |
| EvBufferReserve.Add | jni/libevent/buffer.c:1535-1618 | all branches of `evbuffer_add` on any such buffer: when it fails, when the bytes are appended and when some are lost, and when `last_with_datap` is right, each an equivalence on the state before |
| EvBufferReserve.AfterBytes | jni/libevent/buffer.c:1585-1609 | when a new chunk is needed, the contents are the old ones and the data, unless the chunk with the first of the data is freed |
| EvBufferReserve.TwoEmptyChunks | jni/libevent/buffer.c:614-644 | one byte and two growing reservations of three vectors make a buffer that ends in two empty chunks |
| EvBufferReserve.AddThere | jni/libevent/buffer.c:1585-1609 | adding more than the last chunk holds there: `total_len` counts more bytes than there are |
| DnsName.ReadsUnique | jni/libevent/evdns.c:936-989 | the bytes of a message spell at most one name at an offset |
| DnsName.FewJumps | jni/libevent/evdns.c:965-967 | a name that ends passes no offset twice, so the limit on pointers refuses no name |
| DnsName.NameParse | jni/libevent/evdns.c:936-989 | it ends, and succeeds exactly when a name that fits is spelt at the offset, with that name and the offset after its own bytes; it reads past the packet exactly when it comes to a label that fits the name but not the packet |
| DnsName.OverreadsShort | jni/libevent/evdns.c:973-977 | a packet of two bytes for which it does |
| DnsName.TextOfLabels | jni/libevent/evdns.c:1600-1631 | splitting a name at its dots and joining the labels is the identity exactly when no label is empty |
| DnsName.EmptyLabelCuts | jni/libevent/evdns.c:1600-1631 | the name a..b is taken for a |
| DnsName.PointerTarget | jni/libevent/evdns.c:1604-1606 | a pointer leads back to its target exactly when that is below 0x4000 |
| DnsName.LabelTable.GetPos | jni/libevent/evdns.c:1538-1546 | the place of a name in the table, or -1 exactly if it is not there |
| DnsName.LabelTable.Add | jni/libevent/evdns.c:1550-1564 | the name is at the end, exactly unless the table is full or memory lacks |
| DnsName.ToLabels | jni/libevent/evdns.c:1578-1641 | what is written spells the name, every entry of the table still spells its name, nothing before changes, errors come only from long labels, long names and short buffers, and the final zero lies behind the buffer exactly under the condition named; the name is written out up to the first part that the table knew, and with memory the table then knows every part written, as far as it has room |
| DnsName.KnownAfterwards | jni/libevent/evdns.c:1550-1564 | a name that was written is in the table from then on, if that had room for it |
| DnsName.TwiceIsPointer | jni/libevent/evdns.c:1600-1612 | so a name that is written twice is a pointer the second time |
| DnsName.RoomIsEnough | jni/libevent/evdns.c:1647-1651 | not with two bytes more than the name has |
| DnsName.OverrunsAtEnd | jni/libevent/evdns.c:1617-1639 | a name for which it does, at the end of a buffer of any size |
| DnsMessage.RoundTrip | jni/libevent/evdns.c:936-989 | the reader returns what was written, with the offset after it, and the name itself exactly when no label is empty |
| DnsMessage.QuestionUnique | jni/libevent/evdns.c:1234-1250 | the bytes determine a question |
| DnsMessage.ReadQuestions | jni/libevent/evdns.c:1234-1250 | it returns the questions that stand there, and fails exactly when one that it comes to does not, or when there is no memory for it |
| DnsMessage.WriteQuestions | jni/libevent/evdns.c:1895-1905 | with one table for all names, the questions stand in the buffer; they are written whenever their labels and names are short enough and there is room for them without compression |
| DnsMessage.ReadsBack | jni/libevent/evdns.c:1234-1250 | so any sequence of questions that was written is read back, exactly if there is memory for as many |
| NameServers.PickTurns | jni/libevent/evdns.c:1313-1345 | a pick takes the first server that is up from the front of their order to its end |
| NameServers.PicksFollowOrder | jni/libevent/evdns.c:1313-1345 | consecutive picks go through that order |
| NameServers.RoundRobin | jni/libevent/evdns.c:1313-1345 | as many picks as servers are up return each of them exactly once, and none that is down |
| NameServers.Resolver.Pick | jni/libevent/evdns.c:1313-1345 | the first server that is up, or the next one if none is, and the ring turned past it |
| NameServers.Resolver.PickRound | jni/libevent/evdns.c:1313-1345 | as many calls of `nameserver_pick` as servers are up make such picks: each server that is up once, no other, and the order is as before |
| NameServers.Resolver.Find | jni/libevent/evdns.c:1325-1344 | the loop round the ring ends with the first server that is up, or after one turn |
| NameServers.Resolver.Up | jni/libevent/evdns.c:617-635 | the count of servers that are up stays right |
| NameServers.Resolver.Fail | jni/libevent/evdns.c:557-614 | likewise, and unsent requests for the server go to servers that are up |
| NameServers.Resolver.Add | jni/libevent/evdns.c:2448-2515 | a new address joins the ring and is up, unless its socket cannot be made; a known one is refused |
| TokenBucket.RefillIsMin | jni/libevent/bufferevent_ratelim.c:73-110 | a refill is the smaller of the maximum and limit + n * rate, without overflow, exactly under the condition that it names |
| TokenBucket.RefillDries | jni/libevent/bufferevent_ratelim.c:96-104 | a refill makes a positive limit non-positive exactly when it was above the maximum and the sum does not fit |
| TokenBucket.FilledByHand | jni/libevent/bufferevent_ratelim.c:96-104 | numbers for which it does |
| TokenBucket.UpdateTops | jni/libevent/bufferevent_ratelim.c:73-110 | an update adds the rate for every tick up to the maximum and keeps the limits in their bounds |
| TokenBucket.InitWithin | jni/libevent/bufferevent_ratelim.c:49-70 | a bucket that is set up, or clipped to a new configuration, starts within its bounds: at the rate and now, or at the smaller of what it had and the new maximum, with its last tick kept |
| TokenBucket.UpdateTwice | jni/libevent/bufferevent_ratelim.c:73-110 | two updates do what one does, over the wrap-around of the tick counter too |
| TokenBucket.PassBound | jni/libevent/bufferevent_ratelim.c:73-110 | over any run no more passes than the initial limit and the rate for every tick since |
| TokenBucket.InTick | jni/libevent/bufferevent_ratelim.c:125-140 | the time lies in its tick; ticks follow each other from the epoch on and have one length |
| TokenBucket.OtherTickLength | jni/libevent/bufferevent_ratelim.c:49-70 | a bucket that keeps the last tick of another tick length counts the ticks that passed exactly when both lengths give that time the same number |
| TokenBucket.LongerTicks | jni/libevent/bufferevent_ratelim.c:49-70 | a change of length for which it is not refilled |
| TokenBucket.CfgNewAccepts | jni/libevent/bufferevent_ratelim.c:142-172 | a configuration is accepted exactly for its rates and is valid; its tick is stored as zero exactly when it is a multiple of 2^32 milliseconds, up to 49 days when it is under one |
| RateLimit.Bufferevent.Suspend | jni/libevent/bufferevent.c:66-99 | the backend works in a direction exactly when that is enabled and nothing suspends it |
| RateLimit.Bufferevent.Unsuspend | jni/libevent/bufferevent.c:78-111 | the same when a reason goes |
| RateLimit.Bufferevent.Enable | jni/libevent/bufferevent.c:407-427 | the same when the user enables a direction |
| RateLimit.Bufferevent.Disable | jni/libevent/bufferevent.c:498-510 | the same when the user disables one |
| RateLimit.Bufferevent.Decrement | jni/libevent/bufferevent_ratelim.c:275-348 | a direction is suspended exactly when its limit is used up, and then the refill timer is pending, exactly unless it was not and memory lacks; with memory nobody is stranded |
| RateLimit.Bufferevent.DecrementLimit | jni/libevent/bufferevent_ratelim.c:901-954 | the suspension changes exactly when the limit crosses zero, for negative decrements too, and so does the timer; with memory nobody is stranded |
| RateLimit.UpdateDries | jni/libevent/bufferevent_ratelim.c:73-110 | when an update takes away what was left |
| RateLimit.Bufferevent.UpdateBuckets | jni/libevent/bufferevent_ratelim.c:113-123 | whoever has no bandwidth left is still suspended, exactly unless the update dries the bucket |
| RateLimit.LimitDries | jni/libevent/bufferevent_ratelim.c:113-123 | a bufferevent that was given a byte more than its maximum has no bandwidth a tick later and is not suspended |
| RateLimit.Bufferevent.GetMax | jni/libevent/bufferevent_ratelim.c:200-260 | the limit after the update, or 0 if that is negative |
| RateLimit.Bufferevent.TimerFires | jni/libevent/bufferevent_ratelim.c:396-407 | between the expiry of the timer and its callback whoever is suspended is still looked after |
| RateLimit.Bufferevent.RefillCallback | jni/libevent/bufferevent_ratelim.c:396-441 | no direction with bandwidth left stays suspended for it, and if one is suspended the timer is pending again, if there is memory for it |
| RateLimit.Bufferevent.SetRateLimit | jni/libevent/bufferevent_ratelim.c:559-635 | the new configuration is in force, and each direction is suspended exactly when its limit is used up, with the timer pending if there is memory for it; it fails exactly when `rate_limiting` is missing and cannot be allocated |
| CommonTimeout.TagRoundTrip | jni/libevent/event.c:1092-1111 | the index hidden in the microseconds comes out again, and plain times carry none |
| CommonTimeout.Deadline | jni/libevent/event.c:2133-2143 | the deadline is now plus the interval and carries the tag of the interval |
| CommonTimeout.HeapCoversAll | jni/libevent/event.c:2380-2414 | unless a driver is waiting to run, some time in the heap is no later than any deadline, so the loop never sleeps past one |
| CommonTimeout.NormalTagged | jni/libevent/event.c:1191-1198 | the duration of a queue leads back to it exactly when it was not given with 1000000 microseconds |
| CommonTimeout.EventBase.InitCommonTimeout | jni/libevent/event.c:1182-1253 | a duration, after it is carried into the seconds, has one queue, known by the tag of the duration returned; a queue is made exactly when there is none, there is memory, and there are fewer than 256 |
| CommonTimeout.EventBase.FindPlace | jni/libevent/event.c:2543-2570 | searching from the end finds the place that keeps the queue sorted |
| CommonTimeout.EventBase.QueueInsert | jni/libevent/event.c:2573-2612 | the event is in the heap or at its place in the queue of its tag |
| CommonTimeout.EventBase.QueueRemove | jni/libevent/event.c:2503-2539 | the event is in neither, and the rest is in order |
| CommonTimeout.EventBase.Schedule | jni/libevent/event.c:1145-1151 | the driver is in the heap for the time of the first event; it fails, and the queue is starved, exactly with the driver off, a full heap and no memory |
| CommonTimeout.EventBase.Add | jni/libevent/event.c:2027-2174 | the event is pending for now plus the interval, and nothing else changes for the user, wherever it waits; exactly without memory for a full heap, nothing changes if it was not pending, it is lost if it would leave a queue for the heap, and a queue is starved if the event comes from another to its head and its driver is off; the queues stay |
| CommonTimeout.ClearedKeeps | jni/libevent/event.c:2113-2127 | an event that a timeout made active no longer is when it is added again; one that is active for another reason, and all others, stay |
| CommonTimeout.StarvedQueue | jni/libevent/event.c:1145-1151 | a sequence of calls after which a queue with an event in it is starved |
| CommonTimeout.EventBase.Del | jni/libevent/event.c:2197-2268 | the event is neither pending nor active; the queues stay |
| CommonTimeout.EventBase.TimeoutProcess | jni/libevent/event.c:2476-2499 | exactly the events of the heap whose time has come become active |
| CommonTimeout.EventBase.TakeDriver | jni/libevent/event.c:1320-1324 | a driver about to be called still covers its queue |
| CommonTimeout.EventBase.DrainQueue | jni/libevent/event.c:1166-1174 | exactly the events of the queue whose time has come become active |
| CommonTimeout.EventBase.DriverCallback | jni/libevent/event.c:1157-1177 | likewise, and the driver is set for the rest |
| CommonTimeout.EventBase.Turn | jni/libevent/event.c:1616-1621 | heap and queues together fire exactly the events whose deadline has come, as if all were in the heap; if no driver was active before, none is afterwards and no queue is starved, with or without memory |
| CommonTimeout.EventBase.Do | jni/libevent/event.c:2027-2268 | adding with memory, deleting and a turn of the loop each do what they do to a map from events to deadlines, and leave no driver active and no queue starved |
| CommonTimeout.EventBase.Run | jni/libevent/event.c:1616-1621 | so does every run of them |

## Left out

- Real kernel calls, sockets, clocks, threads and locks: they appear as choices of the surroundings, parameters or atomic steps.
- The JNI code, the terminal and the highlighter of the application: glue without algorithms.
- libev watchers other than I/O, timer, periodic, signal and async, and backends other than poll and epoll.
- User callbacks that touch the loop while it invokes them.
- Rounding of `ev_tstamp`: times are exact, so the branch of `periodic_recalc` for times that no longer change does not occur.
- The epoll EPERM list. Errors of `epoll_ctl` other than EEXIST and ENOENT are those of a fd that the kernel does not hold, or no longer holds when the call fails (EBADF, no memory for a new entry).
- Immutable, pinned, mapped and file-backed chunks of evbuffers, freezing except for `evbuffer_readln`, callbacks and their counters.
- `evbuffer_expand_singlechain`, `evbuffer_read` and `evbuffer_write`.
- Answer, authority and additional sections of DNS messages, which write names in the same way, and all of the request handling around the codec.
- Groups of rate limits: their buckets may go negative through the minimum share.
- The heap of libevent is a set of events with a least one; its array is not modelled, only when it must grow.
- I/O and signal events in `event_add` and `event_del`, notification of the loop thread, and `timeout_correct`.
- EvBuffer.Buffer.Add: covers buffers without trailing empty chunks; `EvBufferReserve.Add` covers the others too.
- EvBufferReserve.Add: where EVUTIL_ASSERT would abort because a chunk to be freed has data, the model goes on as without assertions.
- EvBufferReserve.Commit: a vector of length zero before others leaves an empty chunk between chunks with data, which the contract allows.
- DnsName.ToLabels: with entries at or above 0x4000 in the table it promises only which offsets are written and when it fails.
- CommonTimeout.EventBase.Add: after `Lost` the source leaves EVLIST_TIMEOUT set on an event that waits nowhere; the model takes the event off.
- RateLimit.Bufferevent.GetMax: without a group, and the new limits must fit a machine integer when bytes are taken off.
- EvBuffer.AllocationFor: counts without wrap-around, as all sizes in the buffer files do; `EvBuffer.AllocationEnds` and `EvBuffer.AllocationInWords` say what a `size_t` changes.
- EvBufferRuns.Run: with memory for every operation; without, the contracts of the operations say what happens.
- CommonTimeout.EventBase.Run: with memory for adding; without, the contract of `Add` says exactly what happens, and a turn is modelled only while no queue is starved.
- FdReify.Kernel.Arm: an error of `epoll_ctl` on a fd that the kernel goes on holding is left out.
