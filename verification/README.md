# ugtrain, verified

A Dafny model of the parts of ugtrain whose correctness is decided by code rather than by the
kernel: a trainer that follows objects in another process, reads and freezes values in them, and
is told about allocations by hooks inside that process.  `dafny verify dfyconfig.toml` checks
everything.

The code of these parts works in place, and so do the models: classes with the fields of the
source, methods with its loops and branches, each proved against a specification on plain
sequences, sets or histories; the lemmas then say what these specifications mean.

**The chunk cache** (`CachePacking`, `CacheBuild`, `CacheSetup`, `WriteBack`, `CacheCycle`,
`PointerTarget`, `TargetOverlap`, `ObjectCycle`, `ConfiguredCycle`, `PointerDecision`). Configured
addresses are sorted and packed greedily into windows of `MEM_CHUNK` bytes, values are read and
changed inside the windows, and dirty windows are written back whole, in list order. Windows
overlap when an entry does not fit into the newest one.  The reference is a trainer that reads and
writes every value directly in memory (`DirectVisit`, `DirectTarget`, `DirectObject`,
`DirectClass`); what cannot be read it skips. What the trainer does with a value is an arbitrary
function of its own state and of the bytes read (`Policy`), so the theorem is about any check,
freeze and pointer decision: processing a class through overlapping windows sees the same values,
takes the same decisions and leaves the same memory.  `ConfiguredCycle` puts the parts together:
it starts from the configured addresses alone.  Pointers are followed in the middle of an object,
through windows of their own; of a target it matters only where the run over the reference follows
the pointer to, and `PointerDecision` is the decision of the code, over any number of cycles with
objects removed and added in between, with the histories of `PtrFollow`.

**Object lifetimes across two processes** (`Lifetime`, `Tracking`, `ClassCodes`, `Messages`).  A
step system of game, hooks, FIFO and trainer; every claim is about all runs.  Whether a message
fits into the malloc queue is decided by the text of the messages queued.

**The slot table** of the hooking library (`SlotTable`, `InterleavedFrees`), with serialised frees
and with frees that interleave instruction by instruction under a shared lock.

**The stream parser** forwards and backwards (`FifoText`, `FifoParser`, `ReverseReader`), and the
**malloc queue** (`MallocQueue`) edited as raw text in one buffer, with what a history of
appending and cancelling leaves in it (`QueueHistory`, which `Lifetime` shares), and with what a
game can do to a queue of the size the source gives it (`FullQueue`).

**Bookkeeping per object** (`Compaction`, `MemMgmt`, `PtrFollow`): parallel vectors erased in
place with an index that steps below zero, and the state of pointers that are followed once or
always.

**Supporting parts**: the intrusive ring (`Ring`), the grouping of memory maps (`RegionGroups`),
rebasing of static addresses (`Rebase`), the configuration text between trainer and hooks
(`HookConfig`, `HookWriter`, `HookReader`) and the exchange of load offsets (`AslrOffsets`).

Some classes of the source, such as `DynMemEntry` and `CacheEntry`, appear in several modules,
each time with the fields that part of the code works on.

## Hypotheses

- Entries of one memory type are pairwise disjoint or cover the same bytes (see below for what
  packing needs exactly), and sizes are between 1 and `MEM_CHUNK` bytes.  `MEM_CHUNK` is a
  parameter.  A transfer fails exactly when it reaches beyond memory, and where an entry can be
  read, so can its whole window.
- Where a pointer leads, no byte its target touches lies in a window of the object that holds it
  (see below for when it does); each pointer class is the target of one pointer.
- Each hook is one atomic step together with its message, and messages arrive whole.  A `realloc`
  is its free hook, a free, a malloc and its malloc hook.
- Streams consist of non-empty, newline-terminated lines without NULs.  Numbers are plain digits
  as the writers print them, addresses with the prefix `0x`, and fit the C types they are read
  into.
- The game never allocates the addresses 0 and 1, and no hooked allocation fails: a `malloc` that
  returns a null pointer would be announced and stored as address 0
  (`src/linuxhooking/memhooks.c:121-130`).
- Library values and checks that have a window have one of their own library.
- Paths in memory maps are shorter than `MAPS_MAX_PATH`.

## What turned out not to hold

- Backwards, a line is delivered exactly when it fits into the buffer with the newline before it
  and its own (`ReverseReader.Reader.ReadAll`): a file with a longer line that is not the first
  one is delivered only behind that line.
- A target that a pointer leads to inside a window of its own object can lose what is written to
  it, as that window is written back later: a neighbour 64 bytes further on the heap is enough
  (`TargetOverlap.LostWrite`).  Windows and target leave each other alone, for every trainer and
  every state of the windows, exactly when no byte the target touches lies in a window
  (`UndisturbedIffApart`).
- When two frees interleave, `insert_idx` can end above a hole.  A step loses a hole exactly when
  it writes `insert_idx` after another free has lowered it at least as far
  (`InterleavedFrees.StaleWriteLosesHole`, `FirstStaleWriteLosesHole`).  In runs without such a
  write the bound by the peak of live objects holds (`NoStaleWriteIsExact`); with one it can be
  lost (`InterleavingLosesHole`).
- A malloc message that does not fit into the queue leaves its first character behind it.
  Cancelling moves this character along, and it makes the text of the last cancelled message
  readable again.  `process_mallocs()` runs in every cycle: it hands over exactly the queued
  messages unless the queue is empty and neither of the first two characters is zero
  (`MallocQueue.Queue.ProcessMallocs`), which is so exactly after the histories of
  `QueueHistory.HandedIff`.  It then tracks a freed address and moves memory by a length below
  zero.  With the 16384 bytes of `src/util.h:72` this takes 546 objects of 24 bytes, one more that
  is dropped, and the frees of the first 546, all within a cycle
  (`FullQueue.CancelledIsHandedOver`, and as a run of game and trainer
  `FullQueue.FreedIsTracked`). That replaying the unread messages gives the live objects, and that
  with nothing unread all tracked objects are live, holds in a run if and only if no class has
  been handed such a message (`Lifetime.TrackedIsLiveButLost`, `TrackedIsLiveIff`).
- Appending to the malloc queue stays inside its buffer exactly when two bytes are left behind the
  queued messages (`MallocQueue.Queue.QueueMessage`).  Of 16384 bytes, 543 objects of 24 bytes and
  three of 128 leave a single one (`FullQueue.FilledToLastByte`, `WrittenBehindQueue`).
- After the offset exchange a known address of a constructor or growth rule agrees with the
  trainer for all offsets exactly when no record before it has size zero and no growth rule
  (`AslrOffsets.AgreeIffNothingSkipped`): the game skips such a record, the trainer does not.  A
  class that is only known by its growth rule and has further constructors brings one
  (`GrowOnlyWithConstructors`), and its constructor is moved with the offset of the binary instead
  of that of its library (`ConstructorsDiffer`).  Without such records, all addresses agree
  (`OrdinaryClassesAgree`).  For given offsets an address agrees exactly when it is served
  (`AgreeIffServed`, `WholeExchangeAgrees`); the main address of a class that is only known by its
  growth rule is zero, and agrees exactly when its offset is zero (`ExchangeAgrees`).
- A class that grows is found by its main address and the one it grows at, but not by further
  constructors: the game announces their objects, and no class takes them up.  Everything the game
  can announce is taken up exactly when each such address is one that some class is found by
  (`ClassCodes.AnnouncedIsTakenUp`, `FurtherConstructorForgotten`).
- Rebasing looks at windows that strings, their checks and checks of other values do not have, and
  at the library of a value for each of its checks.  Both passes complete exactly when every
  address they shift has a window and, for libraries, its value a library
  (`Rebase.HandleStatmemPie`, `HandleStatmemPic`, `HandleStatmem`).
- A check in a library keeps its place exactly when its library starts where the library of its
  value does, and a dump area is moved to where it belongs exactly when it is the first of its
  library (`Rebase.CheckKeepsIndexIff`, `Rebase.DumpMovedIffFirst`).
- Packing gives every entry bytes of its own exactly when no entry that opens a window starts
  inside an earlier one (`CachePacking.AllPlacedIff`).  Disjoint entries do, but a configuration
  can hold others: an object-number check is listed with the address of the check before it
  (`src/cfgparser.cpp:1049-1054`), and can open a window in the middle of an entry
  (`OverlappingEntriesReachOver`).
- Greedy packing is minimal when the first window starts at the lowest cached address
  (`CachePacking.GreedyIsMinimal`), which is so unless a check of a string value lies lower
  (`FirstWindowStart`); otherwise one window more can be needed (`LowFirstWindowCostsOne`).
- The second drain of the FIFO, with the game frozen, is needed: without it a tracked object can
  be gone (`Lifetime.GoneBeforeSecondDrain`).

## Model

| member | source | states |
|---|---|---|
| `CachePacking.SortPermutes` | src/cfgparser.cpp:101-104 | sorting the address list by address keeps exactly its entries |
| `CachePacking.SortIsStable` | src/cfgparser.cpp:101-104 | and entries of one address keep their order |
| `CachePacking.ListedExactly` | src/cfgparser.cpp:132-154 | cached are exactly the values that are no strings, and their checks that are not about another value |
| `CachePacking.FirstWindowStart` | src/cfgparser.cpp:973-985 | the first window starts at or below every cached address of its owner, and exactly at the lowest one if and only if no check of a string value lies lower |
| `CachePacking.PackAscends` | src/cfgparser.cpp:59-73 | window starts strictly ascend in list order |
| `CachePacking.PackPlaces` | src/cfgparser.cpp:51-73 | every entry lies wholly inside its window, and ends before the next window begins |
| `CachePacking.AllPlacedIff` | src/cfgparser.cpp:59-73 | for entries that may overlap: all of them lie wholly inside their windows and end before the next one begins if and only if no entry that opens a window starts inside an earlier one |
| `CachePacking.OpenerIsBehind` | src/cfgparser.cpp:61-68 | an entry that opens a window lies behind the end of every earlier entry: what makes overlapping windows harmless |
| `CachePacking.OverlappingEntriesReachOver` | src/cfgparser.cpp:1049-1054 | an object-number check that has kept the address of the check before it opens a window in the middle of that one |
| `CachePacking.GreedyIsMinimal` | src/cfgparser.cpp:157-175 | for any set of windows that covers all entries, the greedy packing has at most one window more, and none more when the first window starts at the lowest entry |
| `CachePacking.LowFirstWindowCostsOne` | src/cfgparser.cpp:973-977 | a first window below the lowest entry can cost the extra window |
| `CacheBuild.Caches.Build` | src/cfgparser.cpp:59-73 | one entry extends its owner's list by the greedy rule and is assigned to the newest window, at index address minus start |
| `CacheBuild.Caches.BuildCaches` | src/cfgparser.cpp:120-176 | after one walk over the sorted entries of all owners, each owner's windows are the greedy packing of its own entries, and every entry is held by its window outside all later ones |
| `CacheSetup.NewCacheList` | src/cfgparser.cpp:75-82 | one clean, invalid window per start |
| `CacheSetup.PackedSlotsArePlaced` | src/cfgparser.cpp:51-73 | the packing gives every entry the place that processing through the windows requires |
| `WriteBack.FlushInside` | src/ugtrain.cpp:408-419 | after writing all dirty windows back in order, a byte holds the value of the one window whose own part it lies in |
| `WriteBack.FlushOutside` | src/ugtrain.cpp:408-419 | a byte in no such part keeps its value |
| `WriteBack.FillAndRead` | src/ugtrain.cpp:189-204 | filling a window changes nothing of what will be written back, and a value read from it is the one that direct reading would find |
| `WriteBack.ChangeCommutes` | src/ugtrain.cpp:250-280 | changing a value in its window is changing it in the memory that writing back yields |
| `CacheCycle.CacheList.Invalidate` | src/ugtrain.cpp:421-426 | every window becomes invalid and nothing else changes |
| `CacheCycle.Trainer.Fill` | src/ugtrain.cpp:189-204 | the bytes copied out of the window are those that direct accesses would have left in memory; when the window cannot be read, neither can the entry, and nothing changes |
| `CacheCycle.Trainer.ProcessChecks` | src/ugtrain.cpp:207-247 | the checks pass exactly when all of them are satisfied by what is in memory, and remove the object exactly when the first one that is not satisfied is an object check and is violated; no value changes |
| `CacheCycle.ChecksMean` | src/ugtrain.cpp:207-247 | the same for checks on directly read memory; an unavailable check ends them without removing the object |
| `CacheCycle.Trainer.ChangeMemVal` | src/ugtrain.cpp:250-280 | checks and write have the effect of checking and writing in place |
| `CacheCycle.Trainer.ChangeMemory` | src/ugtrain.cpp:338-404 | processing a value that was read has the effect of doing so in place |
| `CacheCycle.Trainer.Visit` | src/ugtrain.cpp:575-591 | reading and processing one value has the effect of doing so in place; one that cannot be read is skipped |
| `CacheCycle.VisitMeans` | src/ugtrain.cpp:250-280 | a value that can be read is seen; if it is not only watched and all its checks are satisfied, the wish replaces its own bytes and no others, otherwise memory stays |
| `CacheCycle.Trainer.WriteCaches` | src/ugtrain.cpp:408-419 | memory becomes what direct accesses would have left; all flags are clear |
| `PointerTarget.ProcessTarget` | src/ugtrain.cpp:468-494 | processing the values behind a pointer through their own windows equals reading and writing them in place |
| `PointerTarget.TargetEntry` | src/ugtrain.cpp:468-494 | each value of a target is processed once, in order, on what those before it have left |
| `PointerTarget.TargetLocal` | src/ugtrain.cpp:468-494 | the values behind a pointer depend on the bytes of their own entries and checks only, and change no others |
| `PointerTarget.TargetCommutes` | src/ugtrain.cpp:429-498 | processing a target while the object's windows are still open changes the memory that writing these back yields exactly as if the target had been processed in it, when no byte it touches lies in one of them |
| `TargetOverlap.UndisturbedIffApart` | src/ugtrain.cpp:468-494 | for all trainers, memories and states of the windows this is so if and only if no byte the target touches lies in a window of the object |
| `TargetOverlap.OverlapDisturbs` | src/ugtrain.cpp:468-494 | when one does, some trainer and state of the windows are disturbed |
| `TargetOverlap.DirtyWindowWins` | src/ugtrain.cpp:408-419 | whatever is written to memory under a dirty window is lost when it is written back |
| `TargetOverlap.LostWrite` | src/ugtrain.cpp:468-494 | an object at address 4096 and a neighbour 64 bytes further, inside its dirty window of 2048 bytes: the value written behind the pointer is gone afterwards |
| `ObjectCycle.FollowTarget` | src/ugtrain.cpp:468-494 | following a pointer leaves the object's windows open, valid and in step with memory |
| `ObjectCycle.ProcessPointer` | src/ugtrain.cpp:429-498 | a pointer is followed, noted or refused by its checks as on direct memory; of its target only the place it leads to now matters |
| `ObjectCycle.ProcessNode` | src/ugtrain.cpp:566-591 | one configured value of an object: skipped when the object is gone or the value out of bounds, else processed as in place |
| `ObjectCycle.RoundMeans` | src/ugtrain.cpp:566-591 | what a round does: nothing for a removed object or a value that ends behind it; otherwise this object is selected and the value processed, or the pointer noted, refused or followed by its checks |
| `ObjectCycle.StaysInside` | src/ugtrain.cpp:571-573 | a value that reaches behind the end of the object has no effect, and a plain value changes bytes of the object only |
| `ObjectCycle.RemovedIff` | src/ugtrain.cpp:239-242 | an object is removed if and only if in some round a violated object check is the first check that is not satisfied |
| `ObjectCycle.ObjectInClass` | src/ugtrain.cpp:557-596 | every object of a class is processed once, in the memory and the state those before it have left |
| `ObjectCycle.ProcessObject` | src/ugtrain.cpp:557-596 | invalidate, process and write back equals reading and writing every value of the object, and behind its pointers, in place; the object is removed if and only if in some round the first check that is not satisfied is an object check that is violated |
| `ObjectCycle.ProcessDynmem` | src/ugtrain.cpp:544-598 | the same for all objects of a class, one after the other; removed are exactly those of which some round says so |
| `ConfiguredCycle.BuildConfigured` | src/cfgparser.cpp:120-176 | every memory type gets the greedy packing of its own entries, and every entry the place in it that was the newest at its turn |
| `ConfiguredCycle.ConfiguredIsUsable` | src/cfgparser.cpp:51-73 | all that processing asks of its slots, checks and targets follows from the packing of such entries |
| `ConfiguredCycle.AsConfigured` | src/cfgparser.cpp:120-176 | every value and check is processed with its configured address, size and kind, in the configured order |
| `ConfiguredCycle.ProcessConfigured` | src/ugtrain.cpp:544-598 | for any configured entries of one owner that are pairwise disjoint or cover the same bytes: packing them, creating the windows and processing a class through them leaves memory, trainer and objects as reading and writing every value in place does; of memory this asks only that no window lies across its end, and of a target that it leaves the object's windows alone |
| `PointerDecision.PointerTakesVisit` | src/ugtrain.cpp:448-497 | with the decision of the code, a pointer leads somewhere exactly when its row says so, to the address just read, which is the one remembered; its row takes the visit, all other rows stay |
| `PointerDecision.RunFits` | src/ugtrain.cpp:429-498 | after any such run what is remembered of every pointer of every object is what its history of visits amounts to |
| `PointerDecision.LeadsAsHistorySays` | src/ugtrain.cpp:429-498 | in every cycle of every run over a class, with memory changing and objects removed and added in between, a pointer that is read leads somewhere if and only if everything read for this pointer of this object before says that it is followed, and then to the address just read |
| `PointerDecision.OnlyRememberedPlace` | src/ugtrain.cpp:448-470 | so all that is asked of a target is that it can be processed where the pointer, read again, still leads |
| `SlotTable.StoreKeeps` | src/linuxhooking/libmemhack.c:420-457 | a store finds room, never overwrites a live address, adds exactly its address, and keeps used slots a prefix with the sentinel last |
| `SlotTable.GrownKeeps` | src/linuxhooking/libmemhack.c:432-442 | growing doubles the capacity, only when every slot is used, and keeps all slots |
| `SlotTable.FreeKeeps` | src/linuxhooking/libmemhack.c:537-558 | a free removes exactly its address and leaves the rest of the table alone |
| `SlotTable.FindsLive` | src/linuxhooking/libmemhack.c:542-545 | the scan for a live address succeeds before the first sentinel |
| `SlotTable.StoreUsesNewSlot` | src/linuxhooking/libmemhack.c:444-451 | with serialised frees a new slot is used if and only if all used ones hold live addresses |
| `SlotTable.LiveAgainstUsed` | src/linuxhooking/libmemhack.c:420-457 | live addresses never outnumber used slots, and equal them exactly when there is no hole |
| `SlotTable.FirstSentinelIsPeak` | src/linuxhooking/libmemhack.c:432-451 | over any history of stores and serialised frees, the index of the first sentinel is the peak number of live objects, and the capacity is at most twice that |
| `SlotTable.SlotArray.StoreMemAddr` | src/linuxhooking/libmemhack.c:420-457 | the array and insert_idx after a store are those of the specification, still sound |
| `SlotTable.SlotArray.Insert` | src/linuxhooking/libmemhack.c:444-451 | the address goes to the first free slot from insert_idx on |
| `SlotTable.SlotArray.Grow` | src/linuxhooking/libmemhack.c:432-442 | the array is reallocated at twice the size, new slots hold the sentinel |
| `SlotTable.SlotArray.RemoveMemAddr` | src/linuxhooking/libmemhack.c:537-558 | the search reports an address if and only if it is live, and removes it |
| `InterleavedFrees.MoveKeeps` | src/linuxhooking/libmemhack.c:537-558 | each step of a free keeps the table sound, and a scan that gives up looked for an address that is not live |
| `InterleavedFrees.NextInv` | src/linuxhooking/libmemhack.c:529-569 | every step of every thread keeps the invariant, and changes the live set by exactly its own address |
| `InterleavedFrees.RunInv` | src/linuxhooking/libmemhack.c:529-569 | so in every run with frees interleaved under the shared lock |
| `InterleavedFrees.UndisturbedFree` | src/linuxhooking/libmemhack.c:529-569 | a free in which no other thread takes a step does what the serialised free does, whatever else is under way |
| `InterleavedFrees.NextOrdered` | src/linuxhooking/libmemhack.c:556-558 | pending frees own different holes, and what a pending write of insert_idx finds is known |
| `InterleavedFrees.RunOrdered` | src/linuxhooking/libmemhack.c:556-558 | in every run pending frees own different holes, and what a pending write of insert_idx finds is known |
| `InterleavedFrees.StaleWriteLosesHole` | src/linuxhooking/libmemhack.c:556-558 | a write of insert_idx keeps every hole reachable if and only if it still lowers insert_idx |
| `InterleavedFrees.OtherStepsLoseNothing` | src/linuxhooking/libmemhack.c:529-569 | no other step loses a hole |
| `InterleavedFrees.QuiescentIsExact` | src/linuxhooking/libmemhack.c:529-569 | with no free under way and no hole lost, no hole lies below insert_idx |
| `InterleavedFrees.NoStaleWriteIsExact` | src/linuxhooking/libmemhack.c:529-569 | in every run in which each write of insert_idx still lowers it, no hole is lost, none lies below insert_idx when no free is under way, the first sentinel stands at the peak of live objects and the capacity is at most twice that |
| `InterleavedFrees.FirstStaleWriteLosesHole` | src/linuxhooking/libmemhack.c:556-558 | the next step after such a run loses a hole if and only if it is a write that does not lower insert_idx |
| `InterleavedFrees.PeakWithinUsed` | src/linuxhooking/libmemhack.c:420-457 | in any run the peak of live objects is at most the number of slots ever used |
| `InterleavedFrees.InterleavingLosesHole` | src/linuxhooking/libmemhack.c:549-558 | a run of two interleaved frees after which a slot below insert_idx stays unused and four slots are used although never more than three objects were live |
| `FifoText.LinesAndTail` | src/fifoparser.cpp:40-62 | a stream is its complete lines and the rest: nothing lost, nothing invented |
| `FifoText.LinesAppend` | src/fifoparser.cpp:236-240 | a second part of a stream only continues the rest of the first |
| `FifoParser.Parser.StrChr` | src/fifoparser.cpp:58-61 | the first newline of the text in the buffer, if there is one |
| `FifoParser.Parser.RemoveFront` | src/fifoparser.cpp:160-166 | the rest moves to the front and zeros follow it |
| `FifoParser.Parser.ParseForward` | src/fifoparser.cpp:38-168 | exactly the complete lines are handed over in order, the buffer keeps the incomplete rest followed by zeros, and the loop ends |
| `FifoParser.Parser.ReadForward` | src/fifoparser.cpp:230-240 | one read continues the text |
| `FifoParser.Parser.Drain` | src/ugtrain.cpp:524-541 | however the stream is split into reads, the callbacks are those of the complete lines received so far |
| `FifoParser.RoomForMore` | src/fifoparser.cpp:178-181 | while more of a stream whose lines fit is to come, there is room for the next byte |
| `ReverseReader.BlockInFront` | src/fifoparser.cpp:190-240 | a block in front of what is kept only adds the lines it completes |
| `ReverseReader.Reader.TakeLast` | src/fifoparser.cpp:40-57 | the last line is handed over only if the one before it ends in the buffer too |
| `ReverseReader.Reader.ParseReverse` | src/fifoparser.cpp:38-168 | all lines but the first are handed over, last one first; the first is kept |
| `ReverseReader.Reader.ReadReverse` | src/fifoparser.cpp:190-240 | each call reads one block in front of what was read, or gives up at the start of the file or with a full buffer |
| `ReverseReader.Reader.ReadAll` | src/fifoparser.cpp:190-244 | reading ends, and every line except the first is delivered exactly once in reverse order if and only if each of them fits into the buffer with two newlines |
| `ReverseReader.StuckInLine` | src/fifoparser.cpp:216-229 | a line that is too long stops the pass, and it and all lines before it stay undelivered |
| `Messages.DecodeEncode` | src/linuxhooking/libmemhack.c:517-518 | parsing a message line yields the message: address, size and code address |
| `Messages.SampleMessages` | src/linuxhooking/libmemhack.c:517-518 | the text of two messages, character by character |
| `Messages.MallocLineIsQueueable` | src/linuxhooking/libmemhack.c:517-518 | a malloc line can be queued, and is found in the queue by its address alone |
| `Messages.StreamDecodes` | src/fifoparser.cpp:68-137 | the lines of a stream of messages parse to exactly these messages |
| `Numbers.ScanPrinted` | src/linuxhooking/libmemhack.c:517-518 | scanning a printed number yields it and stops right behind it |
| `Numbers.ScanPrintedPtr` | src/linuxhooking/libmemhack.c:517-518 | the same for addresses |
| `QueueHistory.CharBehindIff` | src/memmgmt.cpp:321-341 | what a history of appending and cancelling leaves behind the queue |
| `QueueHistory.HandedIff` | src/memmgmt.cpp:211-246 | exactly the queued messages are handed over, unless the queue is empty and the last message to leave a character was too long for the room behind others, all of which have been cancelled since |
| `QueueHistory.NextInside` | src/memmgmt.cpp:321-341 | text that is appended only when it fits never fills the buffer, whatever is cancelled in between |
| `MallocQueue.Queue.QueueMessage` | src/memmgmt.cpp:321-341 | a message is appended whole or not at all; in the latter case one character stays behind the queue, and the zero behind it lies inside the buffer if and only if two bytes were left |
| `MallocQueue.Queue.RemoveMalloc` | src/memmgmt.cpp:211-246 | exactly the first queued message with the address is taken out, or none and that is reported; the queue stays a sequence of whole messages |
| `MallocQueue.Queue.CloseGap` | src/memmgmt.cpp:233-237 | what follows the removed message moves up, with the character behind the queue |
| `MallocQueue.Queue.ProcessMallocs` | src/ugtrain.cpp:501-521 | for any history the parser is handed exactly what the history left; this is not the queued messages, and memory is moved by a length below zero, if and only if the queue is empty and neither of the first two characters is zero |
| `FullQueue.CancelledIsHandedOver` | src/memmgmt.cpp:233-237 | with 546 messages in the 16384 bytes, another one dropped and all objects freed, the message cancelled last is handed over and memory moved by a length below zero |
| `FullQueue.FilledToLastByte` | src/memmgmt.cpp:329-340 | messages of 546 objects fill the 16384 bytes up to the last one, and the next message writes behind the buffer |
| `Compaction.KeepAt` | src/memmgmt.cpp:94-138 | what belonged to an object that stays is found at its new index, which depends on the addresses alone |
| `Compaction.KeepOnly` | src/memmgmt.cpp:94-138 | nothing else stays, and the order is kept |
| `Compaction.ErasuresKeep` | src/memmgmt.cpp:110-128 | erasing at an index that steps back after each erasing leaves exactly the elements of the objects that stay |
| `Compaction.ErasuresCount` | src/memmgmt.cpp:137-145 | the number of erasings is the number of marked objects |
| `MemMgmt.DynMemEntry.FindAddrIdx` | src/memmgmt.cpp:197-208 | the first index with the address, or -1 if it does not occur |
| `MemMgmt.DynMemEntry.MarkFreed` | src/memmgmt.cpp:263-276 | one object is zeroed and counted as freed |
| `MemMgmt.DynMemEntry.MarkKicked` | src/ugtrain.cpp:237-243 | one object is zeroed and not counted |
| `MemMgmt.DynMemEntry.Compact` | src/memmgmt.cpp:130-154 | addresses and sizes of the unmarked objects stay in order, and the number erased less the freed ones is exactly the number kicked since the last compaction |
| `MemMgmt.PtrMemEntry.FreePtrmem` | src/memmgmt.cpp:76-92 | the element of one object is erased from state, offset and every value behind the pointer |
| `MemMgmt.PtrMemEntry.AllocPtrmem` | src/memmgmt.cpp:22-43 | every vector behind the pointer gets one default element |
| `MemMgmt.FreeValues` | src/memmgmt.cpp:106-128 | with the second index stepping back, below zero at the front, all vectors of a value lose exactly the marked objects, also when shorter than the addresses |
| `MemMgmt.FreeDynmem` | src/memmgmt.cpp:94-156 | both loops over the whole configuration: all vectors of all values and classes keep exactly the unmarked objects |
| `MemMgmt.SurvivorKeepsItsRow` | src/memmgmt.cpp:94-156 | after compaction everything of an object that stays is at one new common index |
| `MemMgmt.AllocValues` | src/memmgmt.cpp:45-74 | objects without elements get default ones in every vector, of the value and of everything behind its pointer; what is there stays |
| `MemMgmt.PaddedMeans` | src/memmgmt.cpp:45-74 | a default element has no old value, the configured wish, and an empty string buffer where one is needed |
| `Tracking.ClearDynmemAddr` | src/memmgmt.cpp:250-277 | the first class that has the address, and no other, zeroes address and size at its first occurrence and counts one object more as freed |
| `Tracking.ClearedKnown` | src/memmgmt.cpp:263-276 | which forgets one occurrence of the address and nothing else |
| `Tracking.AllocDynmemAddr` | src/memmgmt.cpp:280-318 | the first class that has the code address, among all its constructors or, if it grows, as main or growth address, gets address and size of the object and counts it; no other class changes, and none when there is no such class |
| `Tracking.ClassForFinds` | src/memmgmt.cpp:293-307 | the class found is the first one that has the code address, and none is found exactly when none has it |
| `ClassCodes.ClassIsFound` | src/memmgmt.cpp:293-307 | of the configured classes, a class is found by its main address, by all other constructors when it does not grow, and by the address it grows at when it does; the first such class is taken |
| `ClassCodes.AnnouncedIsTakenUp` | src/memmgmt.cpp:293-307 | everything the game can announce from the configuration it got is taken up by a class if and only if each further constructor of a class that grows is an address some class is found by |
| `ClassCodes.FurtherConstructorForgotten` | src/memmgmt.cpp:293-297 | a configuration in which the game announces objects that no class takes up |
| `Tracking.CompactedKnown` | src/memmgmt.cpp:130-147 | compaction forgets no address |
| `PtrFollow.FollowedIffSeenTwice` | src/ugtrain.cpp:429-470 | the target is processed if and only if the pointer read is not null, was the last non-null value read before for the same object, its checks pass, and a once pointer was not followed yet |
| `PtrFollow.LastNonNullIsReadLast` | src/ugtrain.cpp:495-497 | the remembered value is the last non-null one read |
| `PtrFollow.OnceAtMostOnce` | src/ugtrain.cpp:462-465 | over any history of visits a once pointer is followed at most once per object |
| `PtrFollow.OnceKeepsTarget` | src/ugtrain.cpp:448-466 | and its target stays where it was found |
| `PtrFollow.Follower.Process` | src/ugtrain.cpp:429-498 | the state vectors follow the history of each object; a marked object is not looked at |
| `PtrFollow.Follower.Alloc` | src/memmgmt.cpp:45-74 | objects get their elements with an empty history |
| `PtrFollow.Follower.Free` | src/memmgmt.cpp:94-156 | every object that stays keeps its state and history, at its new index |
| `Lifetime.OnMsgHeard` | src/memmgmt.cpp:250-277 | a message adds or removes exactly its address from what the trainer knows, wherever it is kept |
| `Lifetime.PromoteKeeps` | src/ugtrain.cpp:501-521 | promoting queued messages only moves addresses |
| `Lifetime.PromoteWhere` | src/ugtrain.cpp:501-521 | every queued object goes to the end of the first class that has its code address, in the order of the queue |
| `Lifetime.PromoteDrops` | src/ugtrain.cpp:501-521 | queued objects that no class has the code address of are dropped |
| `Lifetime.StalePromotion` | src/ugtrain.cpp:501-521 | promoting a cancelled message instead of an empty queue adds its address, if a class takes its code address |
| `Lifetime.CycleStepHeard` | src/ugtrain.cpp:1204-1300 | no other step of the trainer loses or invents an address |
| `Lifetime.RunInv` | src/ugtrain.cpp:1198-1300 | in every run of game, hooks, FIFO and trainer the invariant holds: replaying the unread messages on what the trainer was told gives the live set, and no address is known twice |
| `Lifetime.InventedIff` | src/ugtrain.cpp:501-521 | an address is tracked that the trainer was told to forget if and only if a cancelled message has been promoted |
| `Lifetime.TrackedIsLiveButLost` | src/memmgmt.cpp:211-341 | in every reachable state, replaying the unread messages on tracked and queued addresses gives the live set less the objects kicked or never taken up and not freed since, if and only if no cancelled message has been promoted |
| `Lifetime.TrackedIsLiveIff` | src/ugtrain.cpp:1228-1238 | with nothing unread, all that is tracked or queued is live if and only if no cancelled message has been promoted |
| `Lifetime.TrackedOrQueued` | src/memmgmt.cpp:211-341 | tracked and queued addresses are disjoint and without duplicates |
| `Lifetime.QueueInside` | src/util.h:72-77 | in every run the queued text, measured by the messages as the hooks print them, leaves room for a zero in the 16384 bytes |
| `Lifetime.WildIff` | src/memmgmt.cpp:321-341 | the defined behaviour of a run ends if and only if a cancelled message is promoted or a malloc message is read when the queued text has left a single one of the 16384 bytes |
| `Lifetime.ProcessedObjectsAreAllocated` | src/ugtrain.cpp:1217-1238 | whenever objects are processed the game is frozen, and every non-zero tracked address is allocated and its free not even announced |
| `Lifetime.GoneBeforeSecondDrain` | src/ugtrain.cpp:1228-1232 | a run in which, with the game frozen but the FIFO not drained again, a tracked object is gone |
| `FullQueue.FreedIsTracked` | src/memmgmt.cpp:336-340 | a run of game and trainer in which the queue overflows, all queued objects are freed, and a freed address ends up tracked |
| `FullQueue.WrittenBehindQueue` | src/memmgmt.cpp:329-340 | a run of game and trainer in which messages fill the queue up to its last byte and one more is read |
| `Ring.ListAdd` | src/lib/list.h:81-89 | a new node between two neighbours |
| `Ring.Add` | src/lib/list.h:99-102 | the entry becomes the first |
| `Ring.AddTail` | src/lib/list.h:113-116 | the entry becomes the last |
| `Ring.Del` | src/lib/list.h:142-147 | the entry is taken out and poisoned, the others keep their order |
| `Ring.MoveTail` | src/lib/list.h:198-203 | the entry becomes the last of its list |
| `Ring.MoveToTail` | src/lib/list.h:198-203 | the entry leaves its list and becomes the last of another one |
| `Ring.RotateLeft` | src/lib/list.h:248-256 | the first entry becomes the last; an empty list stays |
| `Ring.CutPosition` | src/lib/list.h:293-305 | the entries up to the given one move to the other list; with an empty list, or a single other entry, the other list is not even initialised |
| `Ring.Splice` | src/lib/list.h:326-331 | the entries of one list come in front of those of the other |
| `Ring.CutAndSplice` | src/lib/list.h:293-331 | cutting any prefix into an empty list and splicing it back restores the list |
| `Ring.Entries` | src/lib/list.h:441-442 | following next meets every entry once, in order |
| `Ring.NextAndPrevAreInverse` | src/lib/list.h:70-89 | next and prev are mutually inverse all the way round |
| `RegionGroups.AllLines` | src/lib/maps_l.c:118-162 | the invariant of the grouping over any sequence of lines |
| `RegionGroups.ExeCarriesTextStart` | src/lib/maps_l.c:118-162 | a line classified as part of the binary belongs to its file, is one of at most four since its text was mapped, and carries the start of that text whatever came between |
| `RegionGroups.CodeCarriesGroupStart` | src/lib/maps_l.c:118-162 | a line classified as code is in a run of at most four lines of one file behind the last executable mapping, and carries the start of that mapping |
| `RegionGroups.ExecOpensGroup` | src/lib/maps_l.c:135-148 | every executable mapping with a name opens a group of its own kind |
| `RegionGroups.DataIsResumed` | src/lib/maps_l.c:149-158 | the data of the binary is recognised behind any number of unrelated mappings, with the start of the text |
| `RegionGroups.RegionsFromLines` | src/lib/maps_l.c:164-217 | regions are numbered consecutively and each stands for one line |
| `RegionGroups.MapReader.ProcessMap` | src/lib/maps_l.c:81-221 | after each line the region list says of every line so far what it stands for, as the next row spells out |
| `RegionGroups.RegionsSay` | src/lib/maps_l.c:164-217 | one region per readable line that is writable or executable and not empty, numbered in order; a region of the binary carries the start of the last text mapping of its file, one of another file that of the last executable mapping, any other its own; an executable line is of the binary if and only if it is of its file; heap and stack are those of that name |
| `RegionGroups.DataRegion` | src/lib/maps_l.c:149-158 | kept data of the binary is a region of the binary and carries the start of its text, however many unrelated mappings lie between |
| `Rebase.HandleStatmemPie` | src/aslr.h:73-121 | the pass completes if and only if everything it shifts has a window; then every address of the binary, and every window with one in it, is shifted exactly once; addresses in objects, on the stack and in libraries, and all other windows, stay, and the flags are clear |
| `Rebase.HandleStatmemPic` | src/aslr.h:126-189 | the pass completes if and only if everything that is due has a window and its value a library; then a check moves by the start of its value's library, a window by that of its own, only the first dump area of a library moves, and a library is marked as loaded when anything of it moved |
| `Rebase.CheckKeepsIndexIff` | src/aslr.h:153-162 | a check keeps its place in its window if and only if both libraries start at the same address |
| `Rebase.DumpMovedIffFirst` | src/aslr.h:165-174 | a dump area ends up where it belongs if and only if it is the first of its library |
| `Rebase.PicCycle` | src/aslr.h:126-189 | with checks in the library of their value and one dump area per library, any number of calls that complete leave everything shifted exactly once |
| `Rebase.HandleStatmem` | src/aslr.h:73-189 | both passes of the start, one after the other: addresses of the binary lie behind its start, those of a library behind that of the library once it is known, and those in objects and on the stack where they were configured |
| `Rebase.FoundLib` | src/aslr.h:201-204 | a library is found in between, its start is set once |
| `Rebase.RebasedKeepsIndex` | src/aslr.h:126-189 | a value or check never moves within the data of its window |
| `HookConfig.DecodeConfig` | src/linuxhooking/libmemhack.c:240-327 | reading undoes writing: constructors, growth rules and the backtrace command come back field by field |
| `HookConfig.RecordField` | src/linuxhooking/libmemhack.c:268-322 | one record is read back and the next one is left to read |
| `HookConfig.ExeNameIsLost` | src/linuxhooking/libmemhack.c:135-150 | a library name survives if and only if it is not "exe" |
| `HookConfig.ClassText` | src/ugtrain.cpp:842-926 | the text of a class is that of its records, growth at the last constructor |
| `HookConfig.SampleCtors` | src/ugtrain.cpp:842-855 | the text of constructors in the binary and in a library, field by field |
| `HookConfig.SampleRule` | src/ugtrain.cpp:905-923 | the text of a growth rule, field by field |
| `HookConfig.SampleConfig` | src/ugtrain.cpp:873-936 | the text of two constructors, the second with growth |
| `HookWriter.NewIsExact` | src/ugtrain.cpp:894-897 | a class is written again only if another one was in between |
| `HookWriter.MoveCountToFront` | src/ugtrain.cpp:928-936 | the count printed last ends up first |
| `HookWriter.PrepareDynmem` | src/ugtrain.cpp:857-941 | the text names every class once, in order; read back by the game it gives one record per constructor with its size, code address, stack offset and library, and the growth rule, field by field, at the last one only; 2 exactly when no value is in an object |
| `HookWriter.ConfigArrives` | src/ugtrain.cpp:857-941 | for any classes with plain library names the game recovers all of their records |
| `HookWriter.ClassesArrive` | src/ugtrain.cpp:886-926 | what the game makes of the text, in terms of the configured classes alone |
| `HookReader.Input.RemoveNewLine` | src/linuxhooking/libmemhack.c:152-156 | the string ends at its first newline |
| `HookReader.Input.TakeLib` | src/linuxhooking/libmemhack.c:135-150 | the name up to the semicolon, which is overwritten; the cursor stands behind it |
| `HookReader.Input.ReadRecord` | src/linuxhooking/libmemhack.c:268-322 | one record, with its growth rule if one follows |
| `HookReader.Input.ReadConfig` | src/linuxhooking/libmemhack.c:240-327 | the records read in place are those of the specification, or none |
| `AslrOffsets.SameOrder` | src/aslr.cpp:333-356 | trainer and game go through the code addresses in the same order |
| `AslrOffsets.TakeAllAt` | src/linuxhooking/libmemhack.c:344-379 | record i takes the offsets behind those taken before it, and a skipped record takes none |
| `AslrOffsets.SkippedRecord` | src/linuxhooking/libmemhack.c:351-352 | a record without size and growth keeps its code address and takes nothing from the text |
| `AslrOffsets.SizedRecord` | src/linuxhooking/libmemhack.c:355-363 | a record with a size takes one offset and adds it to its code address if that is known |
| `AslrOffsets.GrowingRecord` | src/linuxhooking/libmemhack.c:364-376 | a record with growth takes two offsets, one for each of its addresses |
| `AslrOffsets.AgreeIffServed` | src/linuxhooking/libmemhack.c:344-379 | for any configuration and message, an address of a constructor or growth rule agrees with the trainer if and only if the offset found for it is the one written for it, or the game leaves it alone and nothing was to be added |
| `AslrOffsets.AgreeInStep` | src/linuxhooking/libmemhack.c:350-376 | while nothing was skipped, an address agrees exactly when its record takes offsets and it is known, or the offset is none |
| `AslrOffsets.AgreeIffNothingSkipped` | src/linuxhooking/libmemhack.c:350-376 | a known address of a constructor or growth rule agrees for every message if and only if no record before it is skipped |
| `AslrOffsets.OrdinaryClassesAgree` | src/aslr.cpp:333-359 | when all constructors have a size and all code addresses are known, both sides end up with the same configuration: every code address moved to where its library, or else the binary, was loaded, and nothing else changed |
| `AslrOffsets.GrowOnlyWithConstructors` | src/cfgparser.cpp:888-895 | a class known by its growth rule only, with further constructors, has such a record |
| `AslrOffsets.ConstructorsDiffer` | src/aslr.cpp:333-359 | an exchange of such a class: its constructor is moved with the offset of the binary in the game and with that of its library in the trainer |
| `AslrOffsets.ExchangeAgrees` | src/aslr.cpp:333-359 | after the exchange both sides hold equal code addresses exactly where the offset was served; with nothing skipped up to there, that is every known address, and one of zero if and only if its offset is zero |
| `AslrOffsets.WholeExchangeAgrees` | src/aslr.cpp:333-359 | the game holds the configuration of the trainer if and only if every address was served |
| `AslrOffsets.DynMemEntry.HandleClass` | src/aslr.cpp:270-280 | one offset per code address is appended, and added |
| `AslrOffsets.HandleAslr` | src/aslr.cpp:333-359 | every class is moved once, and the message holds one offset per code address |
| `AslrOffsets.ReadOffsets` | src/linuxhooking/libmemhack.c:338-379 | the configuration array after reading the message is that of the specification |

## Left out

- `process_act_cfg()` for static memory (`src/ugtrain.cpp:601-652`): several lists of windows are open at once there; the classes it calls are modelled.
- Values of dynamic objects read at a further address (`DYN_VAL_ADDR`), which bypass the windows, and pointers in static memory.
- ptrace, `/proc`, FIFOs, signals, terminal handling and sleeping: only frozen, drained and whole messages appear.
- The syntax of configuration files beyond the addresses handed to `build_caches()`.
- Floating-point comparisons: a value is a sequence of bytes and its check an arbitrary function of them.
- The parser's error recovery, and `S` and `l` messages; `ReverseReader.Reader.ReadAll` only notes that the file announces the stack end.
- Backtracing, discovery and everything in `libmemdisc.c`.
- Which allocations the hooks report (`src/linuxhooking/libmemhack.c:468-512`): `Lifetime` lets any allocation be reported or not.
- Transfers that fail inside memory, or for a part of a window only.
- Allocation failures, of the game and in the hooking library.
- Offsets sent when a library is loaded late (`src/aslr.cpp:194-233`).
- The reflection of stack addresses (`src/aslr.cpp:389-441`).
- MallocQueue.Queue.RemoveMalloc: its guard against messages shorter than two characters never fires for whole messages and is not modelled.
- Lifetime.WildIff: what the trainer does after such a step is not modelled.
- CacheCycle.Trainer.ChangeMemory: a wish read from a further address of the target (`src/ugtrain.cpp:304-308`) is not modelled.
- HookWriter.PrepareDynmem: truncation at the end of the pipe buffer is not modelled.
- HookReader.Input.ReadConfig: scans accept digits only, without signs or leading blanks.
- Windows stubs and `nethooks.c`.
