# Low-latency building blocks: a verified model

This project models four small C++ components and proves what they guarantee to their callers: a
single-producer single-consumer queue with the two threads that use it, the text logger built on it,
a memory pool, and a lossy ring buffer with a binary record log. Where a component does not do what its
comments say, the model follows the code and the theorem says exactly when the two agree.

`dafny verify dfyconfig.toml` checks everything.

## How the model is laid out

- **Queue.dfy** has the queue twice over one definition. `Shared` is the memory both threads touch
  (the store, `next_write_index_`, `next_read_index_`, `store_size_`), with one function for each atomic
  access. The class `LFQueue` has the five operations of logger/lf_queue.h (lock-free-queue/lf_queue.h is
  the same code), specified by those functions.
- **Machine.dfy** interleaves the two threads. A step is one access to memory that the other thread may
  touch; an element is stored and loaded word by word, so a torn element can be seen. A load of a
  variable that only the loading thread stores is folded into the next step, which changes no behaviour.
  Both threads are deterministic, so a run is its schedule, a sequence of threads; "for every schedule"
  is "for every interleaving". The producer pushes the elements of an arbitrary `program`; the reader is
  the logger's flusher (logger/logging.h:45-69, with the destructor of lines 80-90 on the producer's
  thread) or the consumer of the demonstration (lock-free-queue/program.cpp:12-25). Capacity, element
  width, program and schedule are arbitrary. `pushes` (W), `pops` (R), `counted` and `discounted` are
  history counters.
- **Pacing.dfy** states the premise that the code leaves to its caller, that the producer starts to
  store an element only when some slots are unused, and what follows from it. **Bursts.dfy** builds the
  runs that show the premise cannot be weakened, and ties whole undisturbed operations of the model
  to the class. **Shutdown.dfy** is about the destructor, about overrun, and about draining, from every
  point at which the flusher may be; **Closing.dfy** adds the producer's side: which states can still
  reach the end, and that a paced logger gets there. **Demonstration.dfy** is about the end of the
  demonstration's consumer.
- **Formatter.dfy** gives formats a meaning (`Tokens`, `Fill`, `Judge`, `Pushed`) and proves its laws;
  **Logger.dfy** proves the scanning loops of logger/logging.h:150-179 against it, and joins all of this
  in an end-to-end theorem about the text in the file.
- **Pool.dfy** and **PoolRuns.dfy** model memory-pool/mem_pool.h. The comment at lines 64-65 says that the
  scan goes back to the beginning; line 67 is a comparison, so it does not. Members named `AsWritten`
  follow line 67, members named `Wrapping` follow the comment.
- **RingBuffer.dfy** and **BinaryLog.dfy** model binary-logger-ring-buffer.
- **Modular.dfy**, **Sequences.dfy** and **Options.dfy** are support.

Three results worth knowing before using the code:

- The queue needs its producer to leave two slots of `LOG_QUEUE_SIZE` unused at each push, not one.
  With one unused slot the flusher still never writes a wrong element (`OutputIsPrefix`), but
  a full ring compares as empty, the flusher stops taking elements and the destructor never returns
  (`FullLooksEmpty`). Exactly: with at least two slots, a logger can still close its file as long as the
  backlog, the element that the flusher has in hand not counted, is below the capacity (`LoggerCanClose`).
- The consumer of the demonstration takes an empty queue for the end of the program. It drains the queue
  only if its opening sleep has let the producer get and stay ahead (`PacedDemoFinishes`,
  `DemoCanLeaveEarly`).
- The pool as written hands out each slot at most once and never the last one. Its own example, 50
  allocations from a pool of 50 (memory-pool/program.cpp:15-23), is an instance of `AsWrittenIsExhausted`.

## Model

| member | source | states |
|---|---|---|
| `Queue.LFQueue.constructor` | logger/lf_queue.h:13-14 | a new queue has every slot blank, both indices and the size at zero |
| `Queue.LFQueue.GetNextToWriteTo` | logger/lf_queue.h:16-18 | the slot handed out is the one under the write index |
| `Queue.LFQueue.UpdateNextToWriteTo` | logger/lf_queue.h:20-23 | moves the write index round the ring, then counts up; nothing else changes |
| `Queue.LFQueue.GetNextToRead` | logger/lf_queue.h:27-29 | null exactly when no slot lies between the two indices, else the slot under the read index |
| `Queue.LFQueue.UpdateReadIndex` | logger/lf_queue.h:31-35 | moves the read index; then the assertion passes exactly when the size was not zero, and only then is the size counted down |
| `Queue.LFQueue.Size` | logger/lf_queue.h:38-40 | returns the counter |
| `Machine.SizeAccounting` | logger/lf_queue.h:20-40 | in every run, with no pace assumed: R <= Sw <= W, size - (W - R) is in {-1, 0, 1} with the sign given by which thread is mid-update, the size is positive whenever it is asserted or decremented, the assertion never fires, for both readers |
| `Machine.RunAccounted` | logger/lf_queue.h:16-40 | the invariant behind it, for every schedule: indices are the counts modulo the capacity, each thread's lag is 0 or 1, the reader's pointer is to the element it thinks |
| `Pacing.OutputIsPrefix` | logger/logging.h:45-62 | FIFO refinement: under the reader's margin the output of every run is a prefix of the pushed elements, none lost, repeated, reordered or torn, and no null is dereferenced |
| `Pacing.NoSlotRace` | lock-free-queue/program.cpp:16-20 | under the reader's margin no producer store goes to the slot the consumer points at, including the demonstration's read after release |
| `Pacing.EmptinessIsTrue` | logger/lf_queue.h:27-29 | with two slots kept unused, index equality means empty in every state of every run |
| `Pacing.SizeCheckSuffices` | lock-free-queue/program.cpp:16-20 | after a non-zero size the demonstration's fetch is not null, whatever the producer does between the two |
| `Demonstration.EndsOnZero` | lock-free-queue/program.cpp:16-24 | the consumer returns by the load of a zero size and in no other way, and has then put out as many elements as were counted |
| `Demonstration.DemoEnds` | lock-free-queue/program.cpp:16-24 | after the last push, at any pace, with backlog D and the consumer anywhere, (D + 1)(width + 5) consumer turns bring it to an end: it returns iff it had returned already, or holds no null pointer and has fewer elements to fetch than there are slots, and otherwise dereferences null; the number of elements put out |
| `Demonstration.PacedDemoFinishes` | lock-free-queue/program.cpp:12-49 | with two slots kept unused it always returns, and what it has put out is the whole program iff it had not returned before the last push or had taken everything by then, and a prefix in any case |
| `Demonstration.DemoCanLeaveEarly` | lock-free-queue/program.cpp:12-49 | there is a run, paced and with everything pushed, in which the consumer has returned without reading anything |
| `Pacing.RunOrderly` | logger/logging.h:45-69 | the invariant behind these, by induction over the schedule: published elements are intact in their slots, and so is the one a late reader still wants |
| `Bursts.PushBurst` | logger/logging.h:98-101 | the producer's steps of one push, undisturbed, are the class's push |
| `Bursts.ReleaseBurst` | logger/lf_queue.h:31-35 | the consumer's steps of one release, undisturbed, are the class's updateReadIndex |
| `Bursts.ReleaseStops` | logger/lf_queue.h:31-35 | a release with the size at zero moves the read index, and then the assertion stops both threads for good |
| `Bursts.PassBurst` | logger/logging.h:47-62 | the flusher's steps of one pass, undisturbed, from any state of the queue: they write min(gap, size) elements in ring order, leave the read index that many slots on, the size lower by as many and all else alone, and end at the load of the running flag; an empty queue is left as it is |
| `Bursts.MarginIsLeast` | lock-free-queue/program.cpp:16-20 | with one slot less than its margin (1 for the flusher, 2 for the demonstration) there is, for every capacity of at least 2, a run whose first output element is the one pushed `capacity` places later |
| `Bursts.FullLooksEmpty` | logger/lf_queue.h:27-29 | with one unused slot there is a run where the queue is full, compares as empty, and the file is never closed in any continuation |
| `Bursts.OverrunInHandHeals` | logger/logging.h:47-62 | for every capacity of at least 2 there is a run whose backlog reaches the capacity while the flusher has an element in hand, and which can still be drained and the file closed |
| `Bursts.NullDereference` | lock-free-queue/program.cpp:16-20 | with one unused slot there is a run where the demonstration dereferences null |
| `Shutdown.CleanShutdown` | logger/logging.h:80-90 | in every run that reaches the close, as many elements were written as pushed, wherever the flusher was when the flag was cleared; with the margin they are the same elements |
| `Shutdown.FlagIsClearedLast` | logger/logging.h:82-87 | once the running flag is clear everything has been released and written |
| `Shutdown.OverrunIsPermanent` | logger/logging.h:47-85 | with h = 1 if the flusher has an element in hand and 0 if not: once W - R >= capacity + h, at whatever point the flusher is and with the producer still pushing or not, it stays so in every continuation, the destructor never sees a zero size, and the file is never closed |
| `Shutdown.QuietDrain` | logger/logging.h:46-62 | after the producer stops with backlog D, wherever the flusher is, every continuation takes at most T = h + (D - h) mod capacity elements, takes exactly that many within T (width + 5) + 2 flusher turns, and then sees an empty queue with size D - T for ever; all is drained iff D < capacity + h |
| `Shutdown.QuietDrainAtCheck` | logger/logging.h:46-62 | the same for a flusher about to compare the indices: D mod capacity elements, within (D mod capacity)(width + 5) turns |
| `Shutdown.DestructorEnds` | logger/logging.h:80-90 | once the producer has stopped with a backlog D < capacity + h, wherever the flusher is, every interleaving in which the flusher gets D (width + 5) + 2 turns, then the producer 3, the flusher 3 and the producer 1 closes the file |
| `Shutdown.DestructorCanEnd` | logger/logging.h:80-90 | once the producer has stopped, wherever the flusher is, the file can still be closed iff the backlog is below capacity + h |
| `Shutdown.PacedLoggerFinishes` | logger/logging.h:45-90 | a logger whose producer has kept two slots unused and has stopped, wherever the flusher is, closes given those turns, and the closed file holds every element in order |
| `Closing.LoggerCanClose` | logger/logging.h:45-101 | in every reachable state, pushes still to come or not and both threads anywhere, some continuation closes the file iff the backlog is below capacity + h, and, for a ring of one slot, nothing is ever logged |
| `Closing.PacedLoggerIsNeverStuck` | logger/logging.h:45-101 | every run that has kept two slots unused has a continuation that still keeps them, pushes the rest, and closes a file of the whole program |
| `Closing.QuietByTurns` | logger/logging.h:98-101 | pushing never waits: the producer has pushed everything iff it has had width + 3 turns per element |
| `Closing.PacedLoggerLives` | logger/logging.h:45-101 | from the start, with no premise but two unused slots at each push and enough turns of the threads: the file is closed and holds every element in order |
| `Formatter.CStr` | logger/logging.h:146-148 | a string argument is its characters before the first NUL |
| `Formatter.PrintTokens` | logger/logging.h:152-178 | printing the tokens of a format gives the format back |
| `Formatter.PrintedMeansItself` | logger/logging.h:152-178 | the printed form of a token sequence means that sequence iff no hole is followed at once by a hole or a literal `%` |
| `Formatter.ExpressibleIffImage` | logger/logging.h:152-178 | a token sequence is the meaning of some format iff the same condition holds |
| `Formatter.TokensOfRun` | logger/logging.h:153-161 | a run of m `%` means m / 2 literals and then m mod 2 holes |
| `Formatter.JoinTokens` | logger/logging.h:152-178 | the tokens of a + b are those of a and then those of b, iff a does not end in a hole with b starting with `%` |
| `Formatter.EndsInOddRun` | logger/logging.h:153-161 | a format ends in a hole iff it ends in an odd run of `%` |
| `Formatter.ConcatLaw` | logger/logging.h:150-179 | balanced formats a and b can be logged in one call, for all arguments, iff it is not so that a ends in an odd run of `%` and b starts with `%` |
| `Formatter.DoubledIsLiteral` | logger/logging.h:154-155 | logging the `%`-doubled form of any text pushes exactly the text |
| `Formatter.Within` | logger/logging.h:170-175 | where a call with n arguments stops: the longest beginning of the tokens with at most n holes, which ends at a surplus hole or at the end |
| `Formatter.ScanHole` | logger/logging.h:156-160 | one hole takes the first argument and leaves the rest of format and arguments to the recursive call |
| `Formatter.FillConcat` | logger/logging.h:156-160 | arguments of two balanced token sequences go to the holes of each |
| `Logger.Logger.PushElement` | logger/logging.h:98-101 | one element goes into the slot under the write index, which is then published and counted |
| `Logger.SwitchShows` | logger/logging.h:45-59 | the flusher's switch on the type and union stored for an element prints that element's own value as its own type |
| `Logger.ElementsTellApart` | logger/logging.h:25-60 | two stored elements print alike on every stream iff they are the same element, type and value |
| `Logger.Logger.PushChars` | logger/logging.h:139-144 | pushes the characters before the terminator, in order |
| `Logger.Logger.PushArgument` | logger/logging.h:103-148 | a value pushes one element holding it; a pointer or a string object pushes its characters before the first NUL |
| `Logger.Logger.Log` | logger/logging.h:150-179 | completes iff holes and arguments are equally many, missing iff more holes, extra iff more arguments; pushes exactly the rendering up to the first surplus hole; never looks past the terminator |
| `Logger.Logger.LogWith` | logger/logging.h:150-165 | the same for the overload with arguments |
| `Logger.Logger.LogPlain` | logger/logging.h:168-179 | the same for the overload without |
| `Logger.ArgumentInText` | logger/logging.h:150-179 | an argument at a hole between two doubled texts: the first text, the value (or the characters before the NUL), and the second text are pushed, nothing else |
| `Logger.ValueInText` | logger/logging.h:45-179 | and that call's text in the file is the first text, the printed value and the second text |
| `Logger.Logger.FlushPass` | logger/logging.h:47-62 | the same as a loop over the class: the slots from read to write index, as far as the size admits, are written out in ring order; each field of the queue afterwards |
| `Logger.GapIsLeft` | logger/logging.h:46-62 | that number is the backlog modulo the capacity in the states of the interleaving model |
| `Logger.ScriptStops` | logger/logging.h:164-175 | a call that fails is the last to push: of what follows it nothing is pushed, of itself what precedes the failure |
| `Logger.TextOne` | logger/logging.h:48-59 | the text of one element is its printed value and nothing else |
| `Logger.ScriptText` | logger/logging.h:150-179 | the text of all elements that balanced calls push is the text of the calls one after another |
| `Logger.EndToEnd` | logger/logging.h:45-101 | for any calls, in every interleaving under the margin, what the switch has written is the values of the first so many elements of the calls, each printed as itself; the closed file has the values of all |
| `Logger.EndToEndBalanced` | logger/logging.h:45-179 | for balanced calls the file is always a prefix of the calls' text, and all of it once closed |
| `Logger.EveryCallIsWritten` | logger/logging.h:45-179 | for balanced calls, two unused slots at each push and enough turns: the file is closed and its text is that of the calls |
| `Pool.NextWrapping` | memory-pool/mem_pool.h:58-76 | intended scan: the free slot with the least cyclic distance from the cursor; none iff no slot is free |
| `Pool.MemPool.UpdateNextFreeIndexWrapping` | memory-pool/mem_pool.h:58-76 | the loop with the intended assignment ends, stays in the vector and computes that |
| `Pool.MemPool.UpdateNextFreeIndexAsWritten` | memory-pool/mem_pool.h:58-76 | the loop as written finds the first free slot at or above the cursor or reads past the vector; its space assertion never fires |
| `Pool.MemPool.AllocateAsWritten` | memory-pool/mem_pool.h:20-35 | constructs in the cursor's slot, takes it, then scans as written; whole new state |
| `Pool.MemPool.AllocateWrapping` | memory-pool/mem_pool.h:20-35 | the same with the intended scan |
| `Pool.MemPool.Deallocate` | memory-pool/mem_pool.h:37-48 | rejects indices outside the pool and free slots, otherwise frees the slot and nothing else |
| `Pool.AllocationsAgree` | memory-pool/mem_pool.h:61-75 | as written and as intended agree on an allocation iff a slot above the cursor is free |
| `PoolRuns.Conservation` | memory-pool/mem_pool.h:78-87 | live objects and free slots add up to the pool |
| `PoolRuns.AllocationReturns` | memory-pool/mem_pool.h:20-35 | an intended allocation returns iff at least two slots were free; then the cursor's slot is free and at most N - 1 objects are live |
| `PoolRuns.PoolRefinesAllocator` | memory-pool/mem_pool.h:20-76 | every run of the intended pool is a run of an allocator on a map: handles of live objects distinct, contents kept through all other operations, rejection of exactly the non-live indices, the cursor's slot never found in use |
| `PoolRuns.AsWrittenNeverReuses` | memory-pool/mem_pool.h:58-76 | as written, the allocation after k others returns index k whatever was deallocated, and the N-th reads past the vector |
| `PoolRuns.AsWrittenIsExhausted` | memory-pool/program.cpp:15-23 | no run with as many allocations as slots completes |
| `PoolRuns.RunsAgree` | memory-pool/mem_pool.h:58-76 | a whole run as written gives the same answers and the same pool as the intended one iff the operations it performs include fewer allocations than there are slots |
| `RingBuffers.ClosedForm` | binary-logger-ring-buffer/ringBuffer.h:25-45 | after P pushes and C pops in any order the next value popped is the one pushed under number C + N floor((P - 1 - C) / N), or the initial one if that is negative |
| `RingBuffers.LatestFormula` | binary-logger-ring-buffer/ringBuffer.h:25-45 | the number in that closed form, defined as P - 1 - (P - 1 - C) mod N, is C + N floor((P - 1 - C) / N) |
| `RingBuffers.FifoIff` | binary-logger-ring-buffer/ringBuffer.h:25-45 | for C < P the next value popped is the pushed value number C, whatever the values, iff P - C <= N |
| `RingBuffers.FullIff` | binary-logger-ring-buffer/ringBuffer.h:15-18 | the full test holds iff (P - C) mod N = N - 1 |
| `RingBuffers.RingBuffer.constructor` | binary-logger-ring-buffer/ringBuffer.h:21-22 | nothing pushed or popped, every slot initial |
| `RingBuffers.RingBuffer.IsFull` | binary-logger-ring-buffer/ringBuffer.h:15-18 | the method computes that |
| `RingBuffers.RingBuffer.PopNext` | binary-logger-ring-buffer/ringBuffer.h:25-28 | the value under the read pointer is the closed form's, in every reachable state |
| `RingBuffers.RingBuffer.MoveReadIndex` | binary-logger-ring-buffer/ringBuffer.h:31-34 | one more pop, the size wrapping below zero |
| `RingBuffers.RingBuffer.PushInto` | binary-logger-ring-buffer/ringBuffer.h:37-39 | the slot of push number P is P mod N |
| `RingBuffers.RingBuffer.MoveWriteIndex` | binary-logger-ring-buffer/ringBuffer.h:42-45 | publishes what is in that slot as the next pushed value |
| `RingBuffers.RingBuffer.Push` | binary-logger-ring-buffer/program.cpp:16-20 | storing and moving appends one value, whatever it overwrites |
| `RingBuffers.RingBuffer.Size` | binary-logger-ring-buffer/ringBuffer.h:48-50 | P - C modulo 2^64, so P - C itself unless the reader has overtaken the writer |
| `BinaryLog.DecodeFrames` | binary-logger-ring-buffer/binaryLogger.h:71-89 | decoding the frames of any records gives exactly those records |
| `BinaryLog.BinaryLogger.constructor` | binary-logger-ring-buffer/binaryLogger.h:23-58 | a file of fixed size with the old contents, whatever they are, untouched, and the write position at zero |
| `BinaryLog.BinaryLogger.Store` | binary-logger-ring-buffer/binaryLogger.h:82-88 | the two copies append one frame and touch neither the earlier frames nor the tail |
| `BinaryLog.BinaryLogger.Log` | binary-logger-ring-buffer/binaryLogger.h:73-89 | a string is accepted iff its frame fits, with its length cut to 32 bits; earlier bytes never change; a dropped string leaves no trace |
| `BinaryLog.BinaryLogger.DecodesToAccepted` | binary-logger-ring-buffer/binaryLogger.h:73-89 | after any calls the bytes below the write position decode to the accepted strings in order |
| `BinaryLog.Accepted` | binary-logger-ring-buffer/binaryLogger.h:77-80 | the frames of what is accepted never exceed the file |
| `BinaryLog.AcceptedAre` | binary-logger-ring-buffer/binaryLogger.h:73-89 | the accepted records are those of the calls not dropped, one each, in order, each what is kept of its string |
| `BinaryLog.AllAcceptedIff` | binary-logger-ring-buffer/binaryLogger.h:73-89 | every call is accepted iff the frames of all of them fit into the file |
| `BinaryLog.ShortFrame` | binary-logger-ring-buffer/binaryLogger.h:83-88 | a record of n < 256 bytes lies in the file as n, 0, 0, 0 and its bytes |
| `BinaryLog.Kept` | binary-logger-ring-buffer/binaryLogger.h:74 | what is kept of a string is a prefix, the whole iff it is shorter than 2^32 bytes |
| `BinaryLog.DropsStick` | binary-logger-ring-buffer/binaryLogger.h:77-80 | after a drop every later string kept at least as long is dropped |
| `BinaryLog.ReadBackIff` | binary-logger-ring-buffer/binaryLogger.h:82-88 | over zeros, reading from the start to the first zero length finds all records iff none is empty |
| `BinaryLog.BinaryLogger.ReadBackNewFile` | binary-logger-ring-buffer/binaryLogger.h:39-89 | so on a new file, in every state a logger reaches by any calls, iff no empty string was accepted |

## Left out

- RunAccounted: `Config.Valid` takes programs of fewer than 2^64 elements; beyond that a backlog of 2^64 would wrap `store_size_` to zero. The wrap itself is modelled.
- EndToEnd: an unbalanced call ends the process, after which only the first part of the statement has a meaning; the close of the file in the model assumes the destructor is reached.
- EndToEnd: what `ofstream <<` prints is an arbitrary function of the value, one for each type, and what comes of reading a union member that was not stored is an arbitrary function of the words; buffering between the stream and the file is not modelled.
- Log: each value is one element whatever its C++ type; overload resolution among the `pushValue` functions is not modelled.
- AsWrittenNeverReuses: what happens after the read past the vector is undefined in C++; the model ends the run there. The same holds for a write through a pointer to a dead object.
- PoolRefinesAllocator: handles are slot indices; the pointer arithmetic of `deallocate` is not modelled.
- MoveReadIndex: the ring is modelled for one thread; interleavings of its three atomics are not.
- DecodesToAccepted: failures of `open`, `ftruncate` and `mmap`, and the unmapping, are not modelled.
- SizeCheckSuffices: the size that the demonstration loads only to print it is not a step of the model.
- Zero capacity is not modelled: the code divides by it.
- Thread creation and CPU affinity (thread_utils.h), sleeps, and the wall clock (time_utils.h).
- The TCP and UDP classes (sockets, UDP_sockets), whose behaviour is the kernel's; sockets/lf_queue.h and sockets/logging.h repeat code modelled here.
