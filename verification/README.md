# The echo servers, their client and their data structures

The system is a length-prefixed echo protocol: a client sends a 32-bit size and that many bytes, reads
the same number of bytes back, repeats this with one size for the whole connection, and ends with a
zero size. Three servers speak it, one thread per client, select, and edge-triggered epoll. Below them
lie a lock-free ring buffer and a growable vector over raw memory. The project models these as written,
faults included, and proves what they keep in every run.

`dafny verify dfyconfig.toml` checks the whole project.

## How it is built

| files | what they model |
|---|---|
| `Bytes`, `Strided` | octets, sizes in memory, memcpy, malloc, memory seen as slots |
| `Framing`, `Segmentation`, `Fidelity`, `MixedSizes` | the resumable parser of `handle_request` as a value, fed in pieces |
| `Protocol`, `Handler` | `read_data`, `send_data` and `handle_request` as code over a nondeterministic socket; `Handle` is proved equal to `Drain` of `Segmentation` |
| `EventLoop`, `Wakeups`, `Completeness`, `Quiescence`, `EchoContents` | any number of clients, the kernel and the epoll server as one step system, down to the bytes it echoes |
| `SelectServer` | the select server's tables and counters as a class whose slots are `Handler.Request` objects, each with the history of what was read for it |
| `Isolation` | many descriptors with reuse, projected to one client |
| `Conversation` | one client and one worker thread over two bounded channels |
| `HandOff`, `ThreadServer` | the worker pool as a step system, and as code over the vector of pointers |
| `ClientProgram` | the request loop of the client |
| `ConcurrentRing`, `RingReplay`, `ReaderGuard` | the ring buffer under interleaving: ownership and delivery, runs replayed with other items, and what the reader guard says |
| `RingBuffer` | the ring buffer with 64-bit wrap-around |
| `Growth`, `Vector` | binary32 growth, and the vector over bytes |

A connection carries a *frame stream of size n*: every complete size field in it is n, or is 0 and
nothing follows. The client program sends nothing else (`ClientProgram.SessionIsFramed`), and the select
and epoll servers need it: they compute their place in the stream from `transferred % (msg_size + 4)`.
`MixedSizes` says which other sequences of sizes they could follow.

## What the code does not do

These properties one might expect of the code do not hold. For each the project says when they do.

* A body that is resumed after a would-block is stored at the start of the message buffer again
  (src/server/epoll_server.c:153, src/server/select_server.c:125). Positions and lengths are right for
  every segmentation; the echoed contents are right, for all data, if and only if no `read_data` call
  returns strictly inside a body (`Fidelity.FaithfulExactlyWhenBodiesAreWhole`).
* The select and epoll servers follow a stream of messages of different sizes if and only if every frame
  starts at a multiple of its own length and no body is longer than the first, for which the buffer is
  allocated (`MixedSizes.PlaceIsKeptExactlyWhen`). Neither half is enough: `SmallBuffer` is the sizes 6, 1,
  11, `LostPlace` 2, 1.
* `reader_guard` is one flag for all slots, so it does not protect a slot whose put is unfinished while
  another put has finished, contrary to include/assn2/util/ring_buffer.h:9.
  `ConcurrentRing.GuardOfAnotherPut` builds such a run for all contents. In any reachable state, a fetch that
  the guard lets start delivers its ticket's item however it goes on if and only if the slot holds that item
  as the fetch starts and no put with bytes left to copy to that slot has anything else for it
  (`FetchIsRightExactlyWhen`). After fetches that ended well, it is right for every item its put may have been
  given, each in the same run replayed with that item, if and only if that put has ended its memcpy
  (`RingReplay.RightForAllItemsExactlyWhen`).
* A get can wait on a ring that holds an item, with no put under way: the reader loads the counters of an
  empty ring, a put raises the guard, and the reader then lowers it (src/util/ring_buffer.c:50-53).
  `ReaderGuard.GetWaits` is such a run. With no put under way the guard is up on a ring that holds an item if
  and only if the last store to it was not of this kind (`GuardIsRightExactlyWhen`); while it is down nothing
  is delivered before some other put (`NothingUntilRaised`).
* The ring keeps a queue over runs of any length exactly for the sizes that divide 2^64
  (`RingBuffer.SizesThatWrap`); for any other, `WrapLosesItem` puts and gets items until one is lost.
  Before the counters wrap every size does.
* `worker_func` leaves the first body out of the byte count it logs, and reads a later body that is larger than
  the first past the end of its buffer (`ThreadServer.ServeClient`). Its line is in the log before it clears
  its flag, so the dispatcher can find a worker busy whose client has been logged (`HandOff.LineBeforeClear`).
* The select server's sweep starts above the listener's descriptor (src/server/select_server.c:304): of the
  clients that select reports exactly those above it are handled (`SelectServer.HandledExactlyAbove`). One
  below is counted and never served (`LowClientStays`, and `ClientBelowListener`, which builds one). A client
  gets such a number when an older descriptor has been closed: `log_msg` closes the log's, opened before the
  listener, when a write fails (src/util/log.c:127-141), and accept returns the lowest free one.

Where code and comments differ the model follows the code: `ring_buffer_get` returns at once from an
empty ring although its comment says that it blocks (include/assn2/util/ring_buffer.h:35);
`vector_insert_at` is called with `i == size` although its comment forbids that
(include/assn2/util/vector.h:50-51); `vector_push_back` passes its position as an `unsigned`, so from 2^32
items on it inserts in the middle.

## Model

| member | source | states |
|---|---|---|
| Framing.Advance | src/server/epoll_server.c:108-165 | one iteration of the parser, with any number of bytes up to what it asked for, keeps the request at the place that the bytes read so far determine: transferred, the bytes of a partial size, the decoded size, the buffer's existence, the count of echoed bytes, and open or ended |
| Framing.HeaderValue | src/server/epoll_server.c:114-131 | a size field assembled from any parts decodes to the size the stream carries, and to 0 exactly when the stream is complete |
| Bytes.ZeroSize | src/server/epoll_server.c:126-131 | of all sizes only four zero bytes end a session |
| Bytes.DigitCounts | src/server/epoll_server.c:114-126 | in a size byte k counts 256^k times |
| Bytes.BytesRoundTrip | src/client/main.c:393-395 | four bytes are those of the size they decode to |
| Framing.AtIsSound | src/server/epoll_server.c:108-116 | in an open session the position modulo msg_size + 4 is the position modulo n + 4 even before the size is known, a body is read only into an allocated buffer of its size, and bytes_left is what is missing of the current field |
| Segmentation.ChunkInvariance | src/server/select_server.c:80-134 | two ways of cutting the same bytes leave the server at the same position: transferred, offset, partial size, echoed bytes, open or ended |
| Segmentation.PositionClosedForm | src/server/select_server.c:80-81 | that position is a closed form of the bytes: L, L mod (n + 4), its size bytes, (L div (n + 4)) * n |
| Segmentation.CompleteSession | src/server/select_server.c:95-107 | a session of k messages of size n, however cut, ends exactly at its zero size, logs k * (n + 4) + 4 bytes and has echoed k * n |
| Segmentation.DrainIsFeed | src/server/epoll_server.c:106-184 | the loop over successive reads and the closed description of one call of handle_request agree |
| Fidelity.WholeBodiesAreFaithful | src/server/epoll_server.c:149-182 | if every body is read by one read_data call, the bytes sent are the bodies in order |
| Fidelity.FaithfulExactlyWhenBodiesAreWhole | src/server/epoll_server.c:151-153 | for given lengths of the reads, the echo is right for all bodies and all memory if and only if no read ends strictly inside a body |
| Fidelity.SplitBodyExample | src/server/select_server.c:123-125 | a two-byte body read a byte at a time comes back wrong |
| MixedSizes.PlaceIsKeptExactlyWhen | src/server/epoll_server.c:108-165 | for positive sizes in any sequence, however the stream is cut: at every byte the parser is in the right place of the right frame, its buffer has room for the body it reads, and it has echoed as many bytes as completed bodies have, if and only if every frame starts at a multiple of its own length and no body is longer than the first |
| MixedSizes.EqualSizesKeepPlace | src/client/main.c:389-395 | one size for the whole connection is such a sequence |
| MixedSizes.LargerLaterSize | src/server/epoll_server.c:136-153 | a message larger than the first never is |
| MixedSizes.SmallBuffer | src/server/select_server.c:108-125 | sizes 6, 1, 11 start at multiples and are not followed: the third body does not fit |
| MixedSizes.LostPlace | src/server/select_server.c:80-81 | sizes 2, 1 fit and are not followed: the second body is taken for something else |
| Protocol.ReadData | src/common/protocol.c:102-131 | whatever recv returns call by call, the bytes taken from the socket lie in the buffer in order and nothing else is written; the count is short only when the socket has run dry or the peer has hung up |
| Protocol.SendData | src/common/protocol.c:48-75 | the count returned is the number of bytes the socket took, they are the first ones of the buffer, and it is short only after a would-block |
| Handler.Request.EchoBack | src/server/epoll_server.c:169-181 | for every finite pattern of short and would-block sends the retry loop ends having sent the buffer once, in order, without gap or repeat |
| Handler.Request.LoopBody | src/server/epoll_server.c:106-184 | the loop body over real buffers is one iteration of the parser on the bytes it read |
| Handler.Request.Handle | src/server/epoll_server.c:93-235 | a call terminates; its bytes read decide request, echo and end as Drain says; if the session stays open the socket has run dry; if it ends the stream is complete, the log gets transferred, and the slot is zeroed |
| Wakeups.ControlKept | src/server/epoll_server.c:311-372 | every step keeps the descriptors of the batch and of the ready list registered, distinct, and apart from the one being handled |
| Wakeups.WakeupKept | src/server/epoll_server.c:326-366 | every step of any client, the network, the kernel or the server keeps: a registered descriptor with unread bytes, or a listener with queued connections, will be looked at |
| Quiescence.WakeupsAreNeverLost | src/server/epoll_server.c:311-372 | in every state of every run such a descriptor has an edge pending, is in the unprocessed batch or is being handled now |
| Completeness.AbsorbSession | src/server/epoll_server.c:119-165 | the end of a read_data call takes a slot's request, connection and owed echo to the parser's next session |
| Quiescence.InvKept | src/server/epoll_server.c:93-405 | every step keeps the whole invariant: edges, each slot's request against its connection's bytes, the queue's order, one place per client, the log and the counters |
| Quiescence.QuiescentCompleteness | src/server/epoll_server.c:194-234 | at rest, a client that has sent k bodies of its size and the zero size has been accepted, is in the log exactly once with k * (n + 4) + 4 received and k * n echoed, and holds no slot; free slots are zeroed |
| Quiescence.Accounting | src/server/epoll_server.c:395-400 | total_served is the number of accepted clients, connected_count those not logged yet, and max_concurrent is the largest connected_count of the run so far: reached and never exceeded |
| Quiescence.Progress | src/server/epoll_server.c:311-372 | unless the descriptor table is full, server or kernel can take a step until the server sleeps with no edge pending |
| Quiescence.WorkDecreases | src/server/epoll_server.c:106-184 | every step of server or kernel decreases a five-part measure |
| Quiescence.ServerComesToRest | src/server/epoll_server.c:311-372 | no infinite run consists, from some point on, of steps of server and kernel only |
| EchoContents.RunTraced | src/server/epoll_server.c:106-184 | in every state of every run each client's session, in its slot or ended, is the parser fed with the results of the read_data calls for that client, among whatever other events |
| EchoContents.QuiescentContents | src/server/epoll_server.c:149-182 | at rest, the echo a finished client's log line reports is that of the parser fed with those results; it is right for all bodies, hence for this client's, if and only if no call returned strictly inside a body |
| SelectServer.AccountsAdded | src/server/select_server.c:333-344 | adding a client keeps: connected_count is the number of client slots in use, total_served is live plus closed, the history of connected_count goes from 0 one by one and has an entry for every client added or closed, max_concurrent is its largest entry, sock is -1 or the slot's index, max_fd bounds all; history and counters grow |
| SelectServer.AccountsRemoved | src/server/select_server.c:166-200 | and so does closing one, which is counted |
| SelectServer.PeakOfRun | src/server/select_server.c:333-344 | over any sequence of clients added and closed, max_concurrent is the largest connected_count of the states passed, and max_fd the largest descriptor of the listener and all clients added |
| SelectServer.AccountsSay | src/server/select_server.c:333-338 | the counters in a reader's terms: max_concurrent was reached and never exceeded, total_served less the closed is the number of slots that hold their own index |
| SelectServer.Server.AddClient | src/server/select_server.c:324-348 | the new client's session starts fresh although its request is not touched, counters change as stated and forget no earlier maximum, every other slot keeps everything |
| SelectServer.Server.HandleRequest | src/server/select_server.c:65-202 | what the call reads takes the client on exactly as a server without any other client would be, given this client's readings; or the session ends, the log gets the number of bytes the client has sent, and it is counted; every other slot keeps everything |
| SelectServer.TotalOfSession | src/server/select_server.c:178 | that number is k * (n + 4) + 4 |
| SelectServer.Server.RegisterFds | src/server/select_server.c:204-215 | the set holds exactly the listener and the live clients, none above max_fd |
| SelectServer.Server.AcceptAll | src/server/select_server.c:279-301 | every queued connection gets its slot and is counted; no other slot changes |
| SelectServer.Server.Sweep | src/server/select_server.c:304-318 | handle_request is called for exactly the reported clients above the listener's descriptor, up to the first call that fails, which only an unreliable connection can make it do; all others called are handled to the end of their input or session, no other slot changes; the log gets the totals of the clients that ended, in the order of their descriptors |
| SelectServer.Server.Turn | src/server/select_server.c:253-319 | a whole turn of the loop, whatever select reports, keeps slots, counters and each client's isolation, admits the queue if the listener was reported, and sweeps as above; it fails if and only if a call of the sweep did |
| SelectServer.ReliableTurnsGoOn | src/server/select_server.c:311-317 | if the connections reported above the listener are reliable the turn does not fail |
| SelectServer.HandledExactlyAbove | src/server/select_server.c:304-313 | of the reported clients, up to the one whose call fails, exactly those above the listener's descriptor are handled; if there was something to read, exactly they have ended or run dry |
| SelectServer.LowClientStays | src/server/select_server.c:304-311 | over any sequence of turns a client below it stays as it was added |
| SelectServer.ClientBelowListener | src/server/select_server.c:304-348 | a server with such a client that has sent a whole session: counted, and nothing read from it after any number of turns, whatever select reports |
| Isolation.ClientsAreIsolated | src/server/select_server.c:65-201 | for every interleaving over many descriptors, closed and reused, each client has the request, echo and end it would have had alone |
| Isolation.BooksReady | src/server/select_server.c:190-201 | a call for one client leaves every other client's projection and every ended session as they were |
| Isolation.SameReadingsSameSession | src/server/select_server.c:304-318 | two runs that read the same from a client treat it alike, whatever else happens and whatever its descriptor was used for before |
| Isolation.PositionIsOwn | src/server/select_server.c:80-81 | in any such run a client's position is the closed form of its own bytes |
| Conversation.PrefixAndOneDirection | src/client/main.c:389-421 | for every segmentation and all positive capacities the client has received a prefix of the bodies it sends, and only one direction holds bytes |
| Conversation.NoDeadlock | src/server/thread_server.c:119-152 | until both ends have finished with empty channels somebody can move |
| Conversation.RemainingStep | src/common/protocol.c:48-131 | every send and recv decreases the bytes still to be handed over by its length |
| Conversation.Bounded | src/server/thread_server.c:119-152 | hence no conversation takes more steps than twice the bytes sent and echoed |
| Conversation.Outcome | src/server/thread_server.c:135-152 | one that cannot go on has echoed every body and logged 4 * (k + 1) + (k - 1) * n |
| HandOff.InvKept | src/server/thread_server.c:103-177 | every load and store of dispatcher and workers keeps: an engaged worker holds the client it was given, which is nobody else's |
| HandOff.ClientIsStable | src/server/thread_server.c:103-177 | from the time a worker's flag is up until the worker clears it no step writes its client, so that the line it logs is about the client it observed |
| HandOff.OneWorkerPerClient | src/server/thread_server.c:366-376 | two engaged workers never have the same client |
| HandOff.PoolGrowsWhenAllBusy | src/server/thread_server.c:366-383 | parameters are pushed only for a client since whose accept the flag of every worker in the list was loaded and was up; a worker idle all that time excludes it |
| HandOff.ClientGoesToFirstIdle | src/server/thread_server.c:366-374 | a client is written to a worker whose flag was loaded since its accept and was down, and those of all workers before it were up |
| HandOff.ServedExactlyOnce | src/server/thread_server.c:166-177 | a dispatched client is held until its worker clears its flag; it has a line in the log after that, before it only between the worker's line and its clearing, and never two lines, though the scan is not atomic and the pool grows |
| HandOff.ClearedAtMostOnce | src/server/thread_server.c:177 | no two stores to a flag let go of the same client |
| HandOff.PoolAccounting | src/server/thread_server.c:221-230 | between two clients total_served is the number of clients let go plus the busy workers, the log has at least the former and at most both, and max_concurrent is the pool's size once a client has been served |
| HandOff.LineBeforeClear | src/server/thread_server.c:166-177 | a run in which the first client is logged and the accept loop still finds its worker busy |
| HandOff.EverybodyIsServed | src/server/thread_server.c:103-177 | when only another accept is possible, every client accepted has been logged and let go |
| HandOff.AcceptsAgain | src/server/thread_server.c:212-231 | no schedule keeps dispatcher and workers busy for ever without another accept |
| ThreadServer.ServeClient | src/server/thread_server.c:112-152 | for any positive sizes the worker echoes all bodies in order up to the first larger than the first one, for which it is told to write past its buffer; if there is none it counts 4 * (k + 1) + s2 + ... + sk, the bytes received without the first body |
| ThreadServer.ThreadServer.AddClient | src/server/thread_server.c:359-404 | through the pointers in the vector, for any schedule on which workers clear flags meanwhile: the client goes to the first worker whose flag is down when it is loaded, or, if all are up, to new parameters behind the old ones; what every other worker shows is its own doing, and all keep their place even if the block of pointers moves; it fails if and only if it needs memory and gets none, and then nothing is added |
| ThreadServer.BusyWorkerIsLeftAlone | src/server/thread_server.c:369-376 | after the scan a worker that was busy and does not finish meanwhile has its client and its flag |
| ThreadServer.IdleWorkerEndsScan | src/server/thread_server.c:366-376 | no worker behind one that was idle at the start is given the client, nor is a new one made |
| ThreadServer.ThreadServer.Append | src/server/thread_server.c:383 | the pushed pointer leads to the new parameters and every older one to where it led; it fails if and only if the vector is full and there is no memory |
| ThreadServer.ThreadServer.Start | src/server/thread_server.c:278-294 | if and only if every malloc succeeds the pool holds 200 idle workers with parameters of their own; no push needs memory |
| ThreadServer.ThreadServer.AcceptOne | src/server/thread_server.c:221-230 | a client is added as above; if it was, total_served grows by one and max_concurrent is the pool's size; if not, neither changes |
| ClientProgram.MakeRandomString | src/client/main.c:620-644 | whatever rand returns call by call, character i is the one it picks, and strlen gives the length asked for |
| ClientProgram.CharsetIs | src/client/main.c:622 | the set has every letter and digit once and nothing else |
| ClientProgram.Session | src/client/main.c:389-432 | the client sends max_requests copies of size and message and the zero size, and counts as received what it was sent back |
| ClientProgram.SessionIsFramed | src/client/main.c:393-395 | what it sends is a complete frame stream of its message's size |
| ConcurrentRing.BoundsKept | src/util/ring_buffer.c:16-69 | every atomic step of any number of writers and one reader keeps the bound, the ownership of tickets and the sense of stale loads |
| ConcurrentRing.RingIsBounded | src/util/ring_buffer.c:21-26 | head <= tail <= head + size in every reachable state despite stale loads, and neither counter moves back |
| ConcurrentRing.TicketsAreUnique | src/util/ring_buffer.c:25-66 | in every state of a run: tail and head are the numbers of puts and gets so far; a ticket is below tail if and only if exactly one put took it, and then holds that writer's item; it is below head if and only if exactly one get fetched it, which delivered it as item of that number; two writers copy to different tickets |
| ConcurrentRing.WindowKept | src/util/ring_buffer.c:30-32 | every step, as long as fetches end with the item of a finished put, keeps each slot of the window equal to the copied part of its ticket's item before what lay there earlier |
| ConcurrentRing.FetchIsRightExactlyWhen | src/util/ring_buffer.c:58-65 | in any reachable state, every way in which a fetch that starts can go on delivers its ticket's item if and only if the slot holds the item at the start and every put with bytes left to copy to that slot has the same ones left |
| ConcurrentRing.WindowUndisputed | src/util/ring_buffer.c:30-32 | as long as fetches end with the item of a finished put, no put is late, and that is whether the copied part and the leftover make up the item |
| RingReplay.ItemsCanBeExchanged | src/util/ring_buffer.c:16-69 | the steps of any run whose fetches ended well, with another item given to a put whose ticket waits, are a run too; it ends in the same state but for that item in the ticket and, as far as it has been copied, in its slot |
| RingReplay.RightForAllItemsExactlyWhen | src/util/ring_buffer.c:30-35 | a fetch is right for every item its put may have been given, each in the run replayed with it, if and only if the put has ended its memcpy |
| ConcurrentRing.SafeRunDelivers | src/util/ring_buffer.c:46-66 | if every fetch starts in a slot of that kind, the items delivered are the puts in ticket order |
| ConcurrentRing.DeliveredInTicketOrder | src/util/ring_buffer.c:46-66 | if every fetch starts after its ticket's put has ended its memcpy, the items delivered are the puts in ticket order |
| ConcurrentRing.QuietPutsAreCalm | src/util/ring_buffer.c:58-59 | which is so when no put is between its compare-exchange and the end of its memcpy as a fetch starts |
| ConcurrentRing.GuardOfAnotherPut | src/util/ring_buffer.c:35-58 | a run in which another put's guard lets the reader take a slot nothing was copied to |
| ReaderGuard.GuardIsRightExactlyWhen | src/util/ring_buffer.c:35-59 | with no put under way, the guard is up on a ring that holds an item if and only if the last store to it did not undo one that a put had made since the reader loaded tail |
| ReaderGuard.NothingUntilRaised | src/util/ring_buffer.c:50-59 | while the guard is down nothing is delivered and head stays, whoever moves, until a put raises it |
| ReaderGuard.GetWaits | src/util/ring_buffer.c:46-53 | a run that ends with an item in the ring, no put under way and the guard down |
| RingBuffer.PutExtends | src/util/ring_buffer.c:30-32 | a copy to the slot behind the last item keeps all the others |
| RingBuffer.SizesThatWrap | src/util/ring_buffer.c:23-30 | puts with room left never disturb the queue, over runs of any length, if and only if size divides 2^64 |
| RingBuffer.WrappedDifference | src/util/ring_buffer.c:23-50 | the wrapped difference of the counters is the number of items, and they are equal only when the ring is empty |
| RingBuffer.WrapLosesItem | src/util/ring_buffer.c:23-34 | for a size that does not divide 2^64, puts and gets that lead a ring to a state where the oldest item waiting is no longer in its slot |
| RingBuffer.Ring.TryPut | src/util/ring_buffer.c:21-36 | one pass of put's loop writes if and only if there is room, and leaves a full ring as it is |
| RingBuffer.Ring.Put | src/util/ring_buffer.c:16-38 | put ends with the item behind the others and the guard up, on a full ring once another thread's get has taken the oldest; it keeps the queue unless the counter wraps at a size that does not divide 2^64 |
| RingBuffer.Ring.Get | src/util/ring_buffer.c:40-70 | get ends; from a ring that is not empty it delivers the oldest item, from an empty one it leaves `out` alone and lowers the guard |
| Growth.ExactGrowth | src/util/vector.c:176 | while 3 * cap < 2^24 the new capacity is (3 * cap + 1) / 2 |
| Growth.GrowsAlways | src/util/vector.c:176 | at any capacity, for all the rounding of binary32, a vector grows by a third at least and doubles at most |
| Growth.NearestError | src/util/vector.c:176 | the conversion is to a nearest binary32 number: the error is at most half a unit in the last place |
| Growth.TiesToEven | src/util/vector.c:176 | halfway between two it takes the one with an even significand |
| Growth.Representable | src/util/vector.c:176 | the result is a binary32 number: a significand of at most 2^24 times a power of two |
| Growth.AmortisedGrowth | src/util/vector.c:174-181 | over n pushes from capacity c0, resizes carry at most 2 * (cap - c0) items and at most 3 * n |
| Growth.AmortisedAlways | src/util/vector.c:174-181 | without the limit of 2^24, at most 3 * (cap - c0) and at most 6 * n |
| Strided.CellsOfFilled | src/util/vector.c:191 | a memcpy of one item changes its slot and no other |
| Strided.CellsAreFlat | src/util/vector.c:184-185 | the bytes of the first n slots are those items one after the other |
| Vector.RemoveUndoesInsert | src/util/vector.c:123-199 | removing at i undoes inserting at i, and inserting the removed item undoes removing it |
| Vector.ReverseTwice | src/util/vector.c:287-299 | reversing is an involution |
| Vector.ReversedAt | src/util/vector.c:293 | the k-th item of the reversal is the k-th from the end |
| Vector.Vector.Init | src/util/vector.c:49-63 | if memory is granted, an empty vector with the default capacity for 0; if not, nothing changed |
| Vector.Vector.RemoveAt | src/util/vector.c:123-139 | the strided shift down is the sequence without item i |
| Vector.Vector.InsertAt | src/util/vector.c:166-199 | growth and the strided shift up give the sequence with the item at i; it fails if and only if the vector is full and memory is not granted, and then nothing changes; when not full the block stays where it is |
| Vector.Vector.PushBack | src/util/vector.c:225-228 | the item is appended, below 2^32 items; in general it goes to position size mod 2^32 |
| Vector.Vector.Resize | src/util/vector.c:254-261 | the items that both blocks have room for are kept; if memory is not granted nothing changes |
| Vector.Vector.ReverseNoAlloc | src/util/vector.c:287-299 | the items are reversed and no slot beyond them but the scratch slot changes |
| Vector.Vector.Reverse | src/util/vector.c:324-349 | reversed, by a spare slot that no item uses or a buffer; it fails if and only if the vector is full and memory is not granted, unchanged |

## Left out

- Handler.Request.Handle: requires the frame stream of one size; what other sequences of sizes do to the parser and its buffer is MixedSizes, on values. It is stated for `done` at 0, and for a malloc that succeeds.
- Quiescence.QuiescentCompleteness: states the length of the echo; its bytes are EchoContents.QuiescentContents.
- Quiescence.Progress: excludes a full descriptor table, in which the source's accept would fail with another errno and stop the loop.
- SelectServer.Server.AddClient: takes a descriptor below FD_SETSIZE that is not in use; the source indexes its tables with any descriptor accept returns.
- ThreadServer.ServeClient: requires that the peer finishes its stream, and stops at the first body larger than the first: what the source does beyond its buffer is undefined.
- ThreadServer.ThreadServer.AddClient: requires fewer than 2^32 workers; pthread_create succeeds.
- Conversation.Outcome: stated for one message repeated k >= 1 times, as the client sends it; with k = 0 the worker takes the final size for a first one and waits for another.
- Vector.Vector.InsertAt: takes the item as a value, so an item that lies in the vector's own memory is not modelled; byte counts do not overflow size_t.
- Vector.Vector.Resize: requires a new capacity above 0, as realloc of size 0 is up to the implementation.
- RingBuffer.Ring.Put: on a full ring the get of another thread comes after a given number of passes; one that never comes, and calls that overlap, are ConcurrentRing.
- RingReplay.RightForAllItemsExactlyWhen: requires that earlier fetches ended well; after others, ConcurrentRing.FetchIsRightExactlyWhen is for the one item.
- ConcurrentRing.RingIsBounded: counters as unbounded numbers; wrap-around is RingBuffer, for calls that do not overlap.
- Isolation.ClientsAreIsolated: on values; for the slots' objects the same is part of what SelectServer.Server.Turn keeps.
- System-call failures beyond would-block in the step systems; in Handler and SelectServer they end the session as Aborted and the counters are still kept.
- Epoll slots are taken as zeroed at the start, which src/server/select_server.c:247 does and the epoll server leaves to malloc; `done_local`, read uninitialised at src/server/thread_server.c:105-106, is taken as 0.
- An abruptly closed connection: the servers never see the zero size, and nothing is stated about its slot.
- Shutdown through `done`, signal handlers, `thread_server_cleanup` and `select_server_cleanup`.
- The memory model: atomics are sequentially consistent steps, memcpy moves one byte per step.
- Socket set-up, name resolution, resource limits, option parsing, timing, the log file, CSV lines and console output; the log is a list of byte totals.
- The client's connection retries, its `errno` test before the final size, its pauses and its statistics file; `rand` returns any number.
- Byte order: both ends share it, least significant byte first.
