# Ice C++ runtime: verified models of six components

This project models six stateful components of the C++ runtime of ZeroC Ice and proves what each is for. Where the
source updates objects step by step, there is a transition system or a specification function, with theorems over every
run, and beside it a class whose methods do what the source's methods do, proved against that specification.

| component | files |
|---|---|
| `IceUtil::Cache`, the concurrent load-once cache | Cache, CacheSafety, CacheTheorems, CacheAtomic, CacheAnswers, CacheClass |
| the metrics map: an index with a lazily cleaned queue of retained entries | MetricsMap, MetricsRetention, MetricsAnswers, MetricsMapClass |
| observers, their factory and helpers, over any number of maps and threads | Observers, ObserversProofs, ObserversEffects, ObserversClass |
| the wire encoding: types, size check, dictionaries, optional members, encapsulations, the stream | Wire, WireKeys, WireProofs, WireInputs, WireBytes, WireReads, Optionals, OptionalsProofs, OptionalBytes, OutputOptionals, Encaps, EncapsProofs, EncapsRuns, StreamClass |
| `Buffer::Container`, the growable buffer | Container |
| Base64 | Base64 |
| `Monitor`, the Mesa monitor over a possibly recursive mutex | Monitor |
| intrusive reference counts and cascading deletion | Handles, HandlesProofs, HandlesTheorems, HandlesEffects, HandlesClass |

`dafny verify dfyconfig.toml` checks everything. Every lemma carries `{:induction false}`: no proof relies on induction
that the verifier finds by itself.

## How to read it

* **Cache.** Map nodes and latches are allocated under ids that are never reused, so a stale iterator or a deleted latch
  is an id that is gone, and touching one raises `fault`. One action is one critical section, or the return of `await`
  or `load`; `load` may find, miss or throw, `pinned` may throw. `NoStaleAccess` says no run ever faults,
  `RefinesAtomicMap` that every run is a run of an atomic map with the same answers, `NoDeadlock` with
  `EveryScheduleFinishes` that every call is answered under every schedule.
* **Metrics.** `EagerMap` is the simple version: a list ordered by last detach that drops its head when longer than
  `retain`. `LazyRefinesEager` says that the source's lazy queue, filtered by `isDetached`, is that list after every run.
  `RetainedAreTheMostRecent` says which entries those are without either list, from the calls alone.
* **Observers.** One action is one critical section of one map, so several threads' `getObserver` and `detach` interleave
  map by map. `Conserved` is the law: an entry's `current` is the number of observers, finished or in the making, that
  hold it. `EveryMapIsVisited` is the other half: which entries an observer must hold, from what the maps answered.
* **Wire.** `Enc` and `Dec` are the encoding and the reader for a universe of types; `Dec` includes the bookkeeping of
  `readAndCheckSeqSize`. All bounds of the form `<= MAX_INT` say that a message fits an `Int`, which the message size
  limit guarantees (cpp/src/Ice/Instance.cpp:1034-1046). The class `BasicStream` is the imperative stream. WireBytes and
  OptionalBytes spell the encoding out in literal bytes, WireReads says which bytes are read as what.
* **Monitor.** `Owing` reads from the calls of a run alone which acquisitions were not given back; `DepthIsHistory` says
  that the mutex's holder and depth are those.
* **Handles.** A deletion runs a destructor body in which its client may use handles freely, as long as none to the object
  outlives the body, then destroys the members in any order, then frees the memory. Deletions nest on an explicit stack.
  Theorems over runs include what destructor bodies do; theorems over cascades (`EveryCascadeFinishes`,
  `OrderIsIrrelevant`) are about the deletions' own steps, since a body may loop or make the order matter. In the class
  the bodies are a script of client steps: each body takes steps from its front up to the next return. `Drawn` says where
  each step leaves every handle pointing, without counts or deletions; `HandlesPointWhereTold` lifts it to runs.

## What the proofs found out about the code

* `bool pin(key, obj)` also refuses a key that is merely being loaded, so it is not an atomic insert:
  `PutIsAtomicInsertUnlessLoading` is the exact condition and `PutRefusedForNothing` a run that shows it.
* After `ObserverFactoryT::destroy`, the replacing `getObserver` drops the old observer without detaching it, and
  `ObserverHelperT::adopt` does the same to an observer it overwrites: `LawNeedsTheRule` is the exact condition,
  `LostByReplacing` and `LostByAdopting` are runs from the start that end so.
* The buffer's doubling and its under-half-full test wrap on `size_t` near the top of its range: `DoublingIffNoWrap`,
  `UnderHalfIffNoWrap`. The amortised bound needs only that twice the number of bytes is a `size_t` (`Fill`).
* `readAndCheckSeqSize` multiplies and adds in `Int`, so its check can be passed by a size that does not fit: five bytes
  are accepted as 2^31 - 1 elements (`AcceptedButAbsent`). `AcceptedFits` is the exact condition: an accepted size fits
  if and only if the bytes claimed, counted without wrapping, are at most the largest `Int`. For everything a writer
  produces nothing wraps (`CheckPasses`, `TypedRoundTrip`), and whatever is read in the end was there (`DecAccepts`).
* `OutputStream::write(Int, Optional)` ignores `writeOptional`'s answer, so in encoding 1.0 it writes a value without a
  header, which no reader asks for; `BasicStream::write` does not. `OutputReadsBack` is the exact condition,
  `OutputLosesAByte` an input.

## Model

| member | source | states |
|---|---|---|
| CacheTheorems.NoStaleAccess | cpp/include/IceUtil/Cache.h:112-128 | in every run no deleted latch is touched, no stale position is used and no assertion of the class fails |
| CacheTheorems.LatchLifetime | cpp/include/IceUtil/Cache.h:212-247 | in every run a latch's useCount is the number of threads waiting on it or woken and not yet cleaned up; a waiter's latch is live; a latch has count 1 exactly while one node of the map points to it |
| CacheTheorems.LastLeaverDeletes | cpp/include/IceUtil/Cache.h:212-218 | a live latch is deleted in a step if and only if that step is the clean-up of its only remaining waiter |
| CacheTheorems.SingleLoader | cpp/include/IceUtil/Cache.h:140-149 | a placeholder exists exactly while one thread loads its key, no two threads load one key, a loader's position stays valid until it publishes, and no handed-out position names a placeholder |
| CacheTheorems.NoLostWakeup | cpp/include/IceUtil/Cache.h:228-260 | a thread in await either may return, or its latch hangs off a placeholder whose loader can take a step, also when load or pinned throws |
| CacheTheorems.NoDeadlock | cpp/include/IceUtil/Cache.h:199-357 | while any call is unfinished some thread can take an internal step |
| CacheTheorems.InternalStepDescends | cpp/include/IceUtil/Cache.h:199-357 | every internal step of the cache lowers a potential, whatever load and pinned do |
| CacheTheorems.EveryScheduleFinishes | cpp/include/IceUtil/Cache.h:199-357 | without new calls every schedule stops within that potential, so with NoDeadlock every call is answered |
| CacheSafety.StepKeepsInv | cpp/include/IceUtil/Cache.h:96-357 | every critical section, in any interleaving, keeps the invariant that ties threads, nodes, latches and handed-out positions together |
| CacheSafety.RunKeepsInv | cpp/include/IceUtil/Cache.h:96-357 | the invariant holds after every run, for any number of threads |
| CacheAtomic.StepIsAtomic | cpp/include/IceUtil/Cache.h:199-357 | every step is invisible to the map of pinned objects or is exactly one atomic operation on it |
| CacheAtomic.RefinesAtomicMap | cpp/include/IceUtil/Cache.h:199-357 | every run of the concurrent cache is a run of a sequential map with the same operations and answers |
| CacheAtomic.AnsweredWhenItTakesEffect | cpp/include/IceUtil/Cache.h:199-357 | a call's answer is that of the atomic operation it contributed, decided at that moment inside the call |
| CacheAtomic.PutIfAbsentNull | cpp/include/IceUtil/Cache.h:314-334 | putIfAbsent answers null exactly when the key was free, load found nothing and pinned returned, and then its object is the one bound; a non-null answer is the object bound |
| CacheAtomic.SameHandleUntilUnpin | cpp/include/IceUtil/Cache.h:199-357 | in every run of the cache, an object obtained for a key is the one an earlier call obtained or inserted for it, unless the key was unpinned in between |
| CacheAtomic.ObtainedIsBound | cpp/include/IceUtil/Cache.h:199-357 | an object obtained for a key, or inserted under it, is bound to it from that moment |
| CacheAtomic.PutRefusals | cpp/include/IceUtil/Cache.h:169-184 | bool pin(key, obj) refuses exactly the keys that are pinned or being loaded |
| CacheAtomic.PutIsAtomicInsertUnlessLoading | cpp/include/IceUtil/Cache.h:169-184 | its answer is that of an atomic insert if and only if the key is not merely being loaded |
| CacheAtomic.PutRefusedForNothing | cpp/include/IceUtil/Cache.h:169-184 | a run in which it refuses a key that is bound at no moment of the run |
| CacheAnswers.LookOutcome | cpp/include/IceUtil/Cache.h:96-267 | a thread that looks a key up is answered with the object it is bound to; while the key is being loaded it waits for that load, unless it is getIfPinned without wait, which is answered null; a free key is loaded, or answered null by getIfPinned |
| CacheAnswers.NullMeansFree | cpp/include/IceUtil/Cache.h:96-138 | in every run getIfPinned(key, true) answers null only at a moment when the key is neither bound nor being loaded |
| CacheAnswers.PublishesWhatLoadReturned | cpp/include/IceUtil/Cache.h:269-357 | whatever other threads do meanwhile, the loader answers by what its load() and pinned() did and leaves the key bound to the loaded or the given object, or free |
| CacheAnswers.EveryPinnedIsHanded | cpp/include/IceUtil/Cache.h:169-184 | in every run the position of every pinned object was handed to pinned() and not yet unpinned, also if pinned() threw |
| CacheAnswers.UnpinErases | cpp/include/IceUtil/Cache.h:141-149 | unpin's step removes the node it was handed |
| CacheClass.SectionsMayRun | cpp/include/IceUtil/Cache.h:199-357 | in every reachable state the preconditions of the class's methods below hold for each thread's next step |
| CacheClass.LoadOnceCache.PinImplRound | cpp/include/IceUtil/Cache.h:205-267 | one round of pinImpl's loop under the mutex does what the transition system's critical section does: clean up, then find, join a latch, or insert a placeholder |
| CacheClass.LoadOnceCache.GetIfPinnedRound | cpp/include/IceUtil/Cache.h:96-138 | one round of getIfPinned is its critical section, of which LookOutcome says that it waits for a load under way if and only if wait is set |
| CacheClass.LoadOnceCache.PublishRound | cpp/include/IceUtil/Cache.h:272-357 | what pinImpl does after load returned or threw is the publishing section: erase or fill the node, take its latch, count it down |
| CacheClass.LoadOnceCache.Pin | cpp/include/IceUtil/Cache.h:169-184 | bool pin(key, obj) inserts unless the key has a node |
| CacheClass.LoadOnceCache.EraseNode | cpp/include/IceUtil/Cache.h:141-149 | unpin erases the node it was handed and nothing else |
| CacheClass.LoadOnceCache.Join | cpp/include/IceUtil/Cache.h:115-121 | the first waiter allocates the latch; every waiter counts itself |
| CacheClass.LoadOnceCache.Leave | cpp/include/IceUtil/Cache.h:125-128 | the last to leave deletes the latch |
| CacheClass.LoadOnceCache.OpenLatch | cpp/include/IceUtil/Cache.h:338-346 | counting down needs a live latch with count 1 and opens it |
| MetricsRetention.MatchRefines | cpp/include/Ice/MetricsAdminI.h:444-465 | getMatching returns the entry the eager map returns, leaves the same abstract state, keeps the invariant, and its assertion about `previous` holds |
| MetricsRetention.DetachRefines | cpp/include/Ice/MetricsAdminI.h:475-527 | detach with the lazy queue is detach with an eager list ordered by last detach: same index, same retained entries in the same order, same eviction |
| MetricsRetention.DestroyRefines | cpp/include/Ice/MetricsAdminI.h:316-323 | destroying the map is destroying the eager map |
| MetricsRetention.StepRefines | cpp/include/Ice/MetricsAdminI.h:213-222 | each operation commutes with filtering the queue by isDetached |
| MetricsRetention.NewMapInOrder | cpp/include/Ice/MetricsAdminI.h:283-286 | a new map is in order and is a new eager map |
| MetricsRetention.LazyRefinesEager | cpp/include/Ice/MetricsAdminI.h:475-527 | over every legal run from a new map the lazy map answers as the eager one, keeps its index, and the queue filtered by isDetached is its list |
| MetricsRetention.RetentionBound | cpp/include/Ice/MetricsAdminI.h:484-526 | at most `retain` entries are indexed beyond those attached, every attached entry is indexed, every unattached indexed entry is queued |
| MetricsRetention.NothingRetained | cpp/include/Ice/MetricsAdminI.h:479-482 | with _retain == 0 nothing is queued and no entry leaves the index |
| MetricsRetention.CompressKeeps | cpp/include/Ice/MetricsAdminI.h:498-514 | compressing a full queue leaves its detached entries in order, resets the positions of the others, and keeps every invariant |
| MetricsRetention.EvictKeeps | cpp/include/Ice/MetricsAdminI.h:516-521 | evicting the head makes room and never removes an attached entry from the index |
| MetricsAnswers.MatchAnswers | cpp/include/Ice/MetricsAdminI.h:444-465 | getMatching answers a key unless the map is destroyed, with the entry indexed for it or else the new one, which it indexes; totals rise with attachments; nothing else changes |
| MetricsAnswers.DetachTakes | cpp/include/Ice/MetricsAdminI.h:475-527 | detach lowers one count, no total and no id changes, and the index loses an entry exactly when a last detach meets a full list of retained entries: the one detached longest ago |
| MetricsAnswers.RetainedAreTheMostRecent | cpp/include/Ice/MetricsAdminI.h:475-527 | over every legal run from a new map, an unattached entry that has left the index was detached before every unattached entry that has not, and before at least `retain` others |
| MetricsMapClass.MetricsMapT.Match | cpp/include/Ice/MetricsAdminI.h:444-465 | getMatching on the objects themselves is the specification's getMatching |
| MetricsMapClass.MetricsMapT.Detach | cpp/include/Ice/MetricsAdminI.h:213-222 | EntryT::detach on the objects themselves is the specification's detach |
| MetricsMapClass.MetricsMapT.EnqueueDetached | cpp/include/Ice/MetricsAdminI.h:475-527 | detached() in place: move to the back, or make room and append |
| MetricsMapClass.MetricsMapT.MakeRoom | cpp/include/Ice/MetricsAdminI.h:497-521 | a full queue is compressed, then loses its head if that was not enough |
| MetricsMapClass.MetricsMapT.CompressQueue | cpp/include/Ice/MetricsAdminI.h:501-513 | the erasing loop computes the compressed queue |
| MetricsMapClass.MetricsMapT.Destroy | cpp/include/Ice/MetricsAdminI.h:316-323 | destroy marks the map and empties index and queue |
| MetricsMapClass.InOrderIsLinked | cpp/include/Ice/MetricsAdminI.h:475-527 | in every map that is in order what the methods look up without checking is there: indexed and queued entries exist, and detached() finds a queue behind the position of an entry it is given |
| ObserversProofs.StepConserves | cpp/include/Ice/MetricsObserverI.h:321-372 | every critical section of any thread keeps the conservation law |
| ObserversProofs.AttachmentsConserved | cpp/include/Ice/MetricsObserverI.h:470-504 | over every interleaved run from a start without observers that keeps the ownership rule, each entry's attachment count is the number of observers that hold it, across creation, replacement, adoption and detach |
| ObserversProofs.PreviousStillIndexed | cpp/include/Ice/MetricsAdminI.h:450-454 | the assertion that a matching previous entry is the indexed one never fails |
| ObserversProofs.AllReleased | cpp/include/Ice/ObserverHelper.h:77-83 | once every slot is empty and every thread idle no entry is attached |
| ObserversProofs.LawNeedsTheRule | cpp/include/Ice/MetricsObserverI.h:479-483 | replacing after the factory was destroyed, or adopting, keeps the law if and only if the slot had no observer |
| ObserversProofs.LostByReplacing | cpp/include/Ice/MetricsObserverI.h:479-483 | a run from the start that keeps the rule, after which a replacing getObserver breaks the law: the factory was destroyed in between |
| ObserversProofs.LostByAdopting | cpp/include/Ice/ObserverHelper.h:71-75 | a run from the start that keeps the rule, after which adopting into a slot in use breaks the law |
| ObserversProofs.MatchCounts | cpp/include/Ice/MetricsAdminI.h:456-465 | getMatching raises the count of the entry it returns by one unless that is the previous one, and no other count |
| ObserversProofs.DroppedIs | cpp/include/Ice/MetricsObserverI.h:365-371 | init detaches exactly the previous observer's entries that the new one does not have |
| ObserversEffects.EveryMapIsVisited | cpp/include/Ice/MetricsObserverI.h:442-504 | in every interleaved run that keeps the ownership rule, when getObserver's loop ends it has visited every map enabled when the call began; what it returns has exactly one entry of each that had a key for the helper and was not destroyed, with that id, and no other, or is null if there is none; and exactly the replaced observer's other entries leave |
| ObserversEffects.GatheredMeans | cpp/include/Ice/MetricsObserverI.h:452-459 | what that says of each map and entry: an entry is held if and only if its map was visited, not destroyed, and its id is the key computed there |
| ObserversEffects.HeldIsIndexed | cpp/include/Ice/MetricsAdminI.h:456-465 | every entry an observer holds is the one indexed under its id, unless the map was destroyed |
| ObserversEffects.CountsMove | cpp/include/Ice/MetricsObserverI.h:321-372 | a step moves an attachment count by one, down for the entry that leaves and up for the entry acquired that was not held before, and no other |
| ObserversEffects.SlotHolds | cpp/include/Ice/ObserverHelper.h:49-83 | in every run that keeps the ownership rule, a slot keeps its observer while no attach, detach or adopt that names it is made or under way |
| ObserversEffects.SlotsAfter | cpp/include/Ice/ObserverHelper.h:49-83 | which slots each step empties or fills, and with what |
| ObserversEffects.LastUpdateHolds | cpp/include/Ice/MetricsObserverI.h:518-537 | in every such run the enabled maps are those of the last update, until the next one or destroy |
| ObserversEffects.DestroyedForGood | cpp/include/Ice/MetricsObserverI.h:551-556 | once the factory is destroyed it has no maps, whatever updates still come |
| ObserversEffects.MapDestroyedIff | cpp/include/Ice/MetricsAdminI.h:316-323 | in every such run a map is destroyed if and only if the run destroys it, and keeps its retention |
| ObserversClass.ObserverFactory.GetEntry | cpp/include/Ice/MetricsObserverI.h:374-385 | getEntry finds the observer's entry in a map, if it has one |
| ObserversClass.ObserverFactory.DetachObserver | cpp/include/Ice/MetricsObserverI.h:321-329 | detaching an observer lowers the count of each of its entries by one and no other |
| ObserversClass.ObserverFactory.Init | cpp/include/Ice/MetricsObserverI.h:350-372 | init lowers the counts of exactly the dropped entries of the previous observer |
| ObserversClass.ObserverFactory.Collect | cpp/include/Ice/MetricsObserverI.h:485-493 | the loop acquires exactly one entry of every enabled map that has a key for the helper and is not destroyed, with that id, and no other; it raises the counts of exactly those that the previous observer did not have, and indexed entries stay indexed |
| ObserversClass.ObserverFactory.GetObserver | cpp/include/Ice/MetricsObserverI.h:442-468 | the new observer has exactly those entries, each indexed, and is null if and only if there are none; counts rise by exactly these attachments; after destroy it is null and nothing changed |
| ObserversClass.ObserverFactory.GetObserverReplacing | cpp/include/Ice/MetricsObserverI.h:470-504 | the successor has exactly those entries, each indexed, or is null if there are none; the counts move from the old observer's entries to its own; after destroy it is null and nothing changed |
| WireProofs.MinWireSizeSound | cpp/include/Ice/StreamHelpers.h:99-233 | minWireSize bounds every encoding of every type from below and equals its length when fixedLength |
| WireProofs.MembersSizes | cpp/src/Slice/Parser.cpp:4258-4271 | a struct's minimum is the sum of its members' minimums, and exact when all are of fixed length |
| WireProofs.SequenceSizes | cpp/include/Ice/StreamHelpers.h:105-110 | n elements never take fewer than n times the minimum, and exactly that when of fixed length |
| WireProofs.ReadIntOf | cpp/include/Ice/BasicStream.h:593-637 | a short, int or long comes back from its little-endian two's complement bytes |
| WireProofs.ReadSizeOf | cpp/include/Ice/BasicStream.h:360-405 | a size comes back from its one or five bytes |
| WireProofs.ReadEnumOf | cpp/include/Ice/Stream.h:135-163 | an enumerator comes back in both encodings, in each of the three widths of encoding 1.0 |
| WireProofs.CheckPasses | cpp/src/Ice/BasicStream.cpp:330-377 | readAndCheckSeqSize accepts every sequence whose minimum is there together with what the enclosing sequences still need, and claims no more than that |
| WireProofs.AcceptedFits | cpp/src/Ice/BasicStream.cpp:330-377 | a size is accepted, from any cursor, if and only if the bytes claimed for it and what encloses it end within the buffer when counted modulo 2^32; what is accepted is really there if and only if Int holds the count |
| WireProofs.AcceptedButAbsent | cpp/src/Ice/BasicStream.cpp:330-377 | a buffer of five bytes that the check accepts as 2^31 - 1 elements of one byte each |
| WireProofs.AcceptedForLessThanNothing | cpp/src/Ice/BasicStream.cpp:330-377 | with elements of two bytes the same five bytes are accepted and leave a negative minimum to the next size check |
| WireReads.ClaimLeaves | cpp/src/Ice/BasicStream.cpp:354-365 | what an accepted sequence claims is on record for the next check: where it ends, modulo 2^32 |
| WireProofs.DecOfEnc | cpp/include/Ice/StreamHelpers.h:325-473 | a value is read back at any position, nested in any sequences, stopping where its bytes end |
| WireProofs.TypedRoundTrip | cpp/include/Ice/StreamHelpers.h:325-473 | every value of every type, in either encoding, followed by any bytes, is read back and the reader stops at those bytes; the size check refuses none of it |
| WireProofs.UniquelyDecodable | cpp/include/Ice/StreamHelpers.h:325-473 | no encoding is a prefix of another and no two values share one |
| WireInputs.DecAccepts | cpp/include/Ice/StreamHelpers.h:325-473 | whatever bytes are read, a value that comes back is one of its type, and the bytes read, all within the buffer, are at least as many as the value is written in |
| WireInputs.ReadIsThere | cpp/src/Ice/BasicStream.cpp:330-377 | a size that passes the check without fitting never yields a value: what is read had its minimum in the buffer |
| WireInputs.RereadIsSame | cpp/include/Ice/StreamHelpers.h:325-473 | whatever was read can be written in no more bytes than there were, and reads back as the same value |
| WireBytes.Spelled | cpp/include/Ice/StreamHelpers.h:325-473 | the bytes of every kind of value, in numbers: a bool is 1 or 0, a size is one byte below 255 or 255 and four, an enumerator in encoding 1.0 takes 1, 2 or 4 bytes by the limits 127 and 32767, containers are a size and their elements in order, structs their members in order |
| WireBytes.ByteOfInt | cpp/include/Ice/BasicStream.h:593-615 | the k-th byte of a number is its k-th digit to base 256, lowest first, in two's complement |
| WireBytes.EnumIs | cpp/src/Ice/BasicStream.cpp:1607-1629 | an enumerator's bytes, by the largest enumerator, in both encodings |
| WireBytes.TraitsAre | cpp/include/Ice/StreamHelpers.h:99-233 | a type is of fixed length if and only if nothing in it varies in size, and its minimum is the sum of what each leaf takes at least |
| WireReads.ReadIffSpelled | cpp/include/Ice/StreamHelpers.h:325-347 | on any bytes, a value without elements is read, and its bytes with it, if and only if they spell it: any byte but 0 is true, and a size may take five bytes where one would do |
| WireReads.SizeReads | cpp/include/Ice/BasicStream.h:386-405 | on any bytes, a size is read if and only if one of its two spellings is there; a negative one never is |
| WireReads.IntReads | cpp/include/Ice/BasicStream.h:616-637 | a number is read if and only if its bytes are there, and is the one they are the two's complement of |
| WireReads.Int32Is | cpp/src/Ice/BasicStream.cpp:330-377 | the model's Int arithmetic: 32 bits are kept, and numbers of 32 bits are themselves |
| WireProofs.EntriesDecode | cpp/include/Ice/StreamHelpers.h:460-472 | a dictionary is read back entry by entry into an empty container |
| WireProofs.InsertLast | cpp/include/Ice/StreamHelpers.h:465-471 | inserting an entry whose key is above all others appends it |
| WireKeys.InsertSorted | cpp/include/Ice/StreamHelpers.h:460-472 | inserting keeps a map's entries in strictly ascending key order, for keys of every type |
| WireKeys.InsertUpdates | cpp/include/Ice/StreamHelpers.h:460-472 | inserting gives the entry's key the entry's value and leaves every other key's value |
| WireKeys.DecodedIsMap | cpp/include/Ice/StreamHelpers.h:460-472 | whatever bytes a dictionary is read from, in whatever order and with whatever repeated keys, the result is in strictly ascending key order |
| WireKeys.KeysInOrder | cpp/include/Ice/StreamHelpers.h:436-472 | the order of a map's keys: numbers by size, strings by the first difference or a proper prefix first, structs by the first member that differs |
| Optionals.PrefixExact | cpp/include/Ice/StreamHelpers.h:606-712 | the prefix computed before encoding (struct minimum, or n * size plus 1 or 5) is the number of bytes that follow |
| OptionalsProofs.PayloadDecodes | cpp/include/Ice/StreamHelpers.h:618-647 | an optional value is read back past its prefix, and the reader stops at its end |
| OptionalsProofs.PayloadSkipped | cpp/src/Ice/BasicStream.cpp:1728-1775 | skipping by the format ends exactly where the optional value ends |
| OptionalsProofs.SkipMeetsDecode | cpp/include/Ice/StreamHelpers.h:606-744 | for every optional value a reader that skips it and one that decodes it end at the same position |
| OptionalsProofs.OneByteElementsSkipped | cpp/include/Ice/StreamHelpers.h:722-744 | a container of one-byte elements is its own length prefix |
| OptionalsProofs.HeaderReads | cpp/src/Ice/BasicStream.cpp:1705-1725 | a tag header of one, two or six bytes tells tag and format and can be rewound over |
| OptionalsProofs.ReadOptFinds | cpp/src/Ice/BasicStream.cpp:1652-1703 | readOptImpl skips the lower tags and stops in, or in front of, the next one |
| OptionalsProofs.SkipOptsEnds | cpp/src/Ice/BasicStream.cpp:1777-1804 | skipOpts steps over every remaining member and the end marker |
| OptionalsProofs.EveryReaderFinds | cpp/src/Ice/BasicStream.cpp:1652-1804 | a reader that asks in ascending order for any tags gets for each exactly what was written under it, whatever other tags there are, and skipOpts then ends behind them all |
| OptionalBytes.MemberSpelled | cpp/include/Ice/StreamHelpers.h:536-744 | the bytes of a tagged member, in numbers and by kind of type: header 8 * tag + code or 240 + code and the tag; code 0 to 3 for widths 1, 2, 4, 8; 4 for enums; 5 for strings, fixed-length structs and containers of fixed-length elements; 6 for the rest; a size before the wide ones of code 5, four bytes before code 6 |
| OptionalBytes.CodeIs | cpp/include/Ice/StreamHelpers.h:536-744 | the format code of every kind of type |
| OptionalBytes.MarkerEnds | cpp/src/Ice/BasicStream.cpp:1652-1804 | the byte 255 ends the optional members for reading and for skipping, and begins no member |
| OptionalBytes.OtherFormatRefused | cpp/src/Ice/BasicStream.cpp:1690-1697 | a member under the requested tag with another format is refused |
| OptionalBytes.NoneIn10 | cpp/src/Ice/BasicStream.cpp:1652-1658 | in encoding 1.0, whatever the bytes, no optional member is found and asking reads nothing |
| OutputOptionals.OutputReadsBack | cpp/include/Ice/Stream.h:355-365 | what OutputStream::write(tag, optional) leaves at the end of an encapsulation is read back, and the encapsulation ends with it, if and only if the encoding is 1.1 or there was no value |
| OutputOptionals.OutputLosesAByte | cpp/include/Ice/Stream.h:355-365 | in encoding 1.0 it writes one byte for a byte with tag 1, and the request for tag 1 is answered with nothing and consumes nothing |
| EncapsProofs.EndPatches | cpp/include/Ice/BasicStream.h:142-182 | end replaces the placeholder by the size of header and contents and changes no other byte |
| EncapsProofs.ForestAppends | cpp/include/Ice/BasicStream.h:142-182 | whatever is written in whatever nesting is appended; the bytes before and the open encapsulations stay |
| EncapsProofs.ForestReads | cpp/include/Ice/BasicStream.h:206-283 | a reader positioned before a forest reads it as planned and stops behind it with its open encapsulations as before |
| EncapsRuns.WellNestedIsForest | cpp/include/Ice/BasicStream.h:142-182 | a run of calls that is well nested is a forest of encapsulations |
| EncapsRuns.WellNestedRunAppends | cpp/include/Ice/BasicStream.h:142-182 | every well-nested run of start, write and end, into any buffer and inside any open encapsulations, appends exactly one forest |
| EncapsRuns.SizeSpansContents | cpp/include/Ice/BasicStream.h:163-169 | after the outermost end, each backpatched size in the buffer, at any depth, spans exactly its encapsulation's header and contents |
| EncapsRuns.NestedRoundTrip | cpp/include/Ice/BasicStream.h:206-283 | the matching reads of nested encapsulations succeed, return what was written and end at the same offset, for any reader that enters, skips or takes them whole and asks for any optional members |
| EncapsRuns.RawCopies | cpp/include/Ice/BasicStream.h:303-320 | readEncaps yields bytes from which writeEncaps makes the same encapsulation in any other stream |
| EncapsRuns.OneStrayByteTolerated | cpp/include/Ice/BasicStream.h:253-270 | in encoding 1.0 an encapsulation with stray bytes after its contents is read, to its end, if and only if there is at most one |
| OptionalBytes.EncapsulationSpelled | cpp/include/Ice/BasicStream.h:142-182 | an encapsulation's bytes: four that count themselves, the version and the contents, then 1, 0 or 1, and the contents |
| OptionalBytes.EntersIff | cpp/include/Ice/BasicStream.h:206-244 | an encapsulation is entered if and only if its size is at least 6 and within the buffer and its encoding is 1.0 or 1.1 |
| OptionalBytes.RefusedIff | cpp/include/Ice/BasicStream.h:386-405 | a number is refused exactly if its bytes are not there, a size also if the highest bit of its last byte is set |
| StreamClass.BasicStream.WriteInt | cpp/include/Ice/BasicStream.h:593-599 | appends the number's bytes, lowest first |
| StreamClass.BasicStream.WriteSize | cpp/include/Ice/BasicStream.h:360-372 | appends the size in one byte, or 255 and four |
| StreamClass.BasicStream.WriteEnum | cpp/src/Ice/BasicStream.cpp:1607-1629 | appends the enumerator in the current encoding's form |
| StreamClass.BasicStream.WriteValue | cpp/include/Ice/StreamHelpers.h:325-473 | appends the value's encoding, looping over containers and struct members |
| StreamClass.BasicStream.WriteElems | cpp/include/Ice/StreamHelpers.h:353-361 | the loop over a container's elements appends their encodings in order |
| StreamClass.BasicStream.Patch | cpp/include/Ice/BasicStream.h:798-801 | rewrites four bytes in place and no others |
| StreamClass.BasicStream.WriteOptHeader | cpp/src/Ice/BasicStream.cpp:1705-1725 | appends tag and format, and nothing in encoding 1.0 |
| StreamClass.BasicStream.WritePayload | cpp/include/Ice/StreamHelpers.h:606-744 | appends the optional value with its prefix, computed before or patched after: the bytes MemberSpelled gives after the header |
| StreamClass.BasicStream.WritePatched | cpp/include/Ice/StreamHelpers.h:632-647 | the backpatched FSize is the number of bytes written after it |
| StreamClass.BasicStream.WriteOptional | cpp/include/Ice/BasicStream.h:460-476 | write(tag, optional) appends header and value, the bytes MemberSpelled gives, and nothing in encoding 1.0 or without a value |
| StreamClass.BasicStream.WriteOptionalPublic | cpp/include/Ice/Stream.h:355-365 | OutputStream::write(tag, optional) appends the value also where it wrote no header |
| StreamClass.BasicStream.StartWriteEncaps | cpp/include/Ice/BasicStream.h:142-162 | appends placeholder and version and opens a frame at the old end |
| StreamClass.BasicStream.EndWriteEncaps | cpp/include/Ice/BasicStream.h:163-182 | patches the innermost frame's size and closes it |
| StreamClass.BasicStream.WriteEncapsBytes | cpp/include/Ice/BasicStream.h:189-199 | appends the bytes, or throws if there are fewer than six |
| StreamClass.BasicStream.ReadInt | cpp/include/Ice/BasicStream.h:616-637 | reads the number, or throws if its bytes are not there |
| StreamClass.BasicStream.ReadSize | cpp/include/Ice/BasicStream.h:386-405 | reads a size in either form and refuses a negative one |
| StreamClass.BasicStream.ReadAndCheckSeqSize | cpp/src/Ice/BasicStream.cpp:330-377 | reads a sequence size and does the size bookkeeping of the specification |
| StreamClass.BasicStream.ReadEnum | cpp/src/Ice/BasicStream.cpp:1578-1603 | reads an enumerator in the current encoding's form |
| StreamClass.BasicStream.ReadValue | cpp/include/Ice/StreamHelpers.h:338-473 | reads what the decoder specifies, throwing exactly when it does |
| StreamClass.BasicStream.ReadElems | cpp/include/Ice/StreamHelpers.h:364-373 | the loop over a container's elements reads them in order or throws |
| StreamClass.BasicStream.ReadEntries | cpp/include/Ice/StreamHelpers.h:460-472 | the loop over a dictionary's entries reads key, then value into the entry found or made |
| StreamClass.BasicStream.SkipOptional | cpp/src/Ice/BasicStream.cpp:1728-1775 | skips by format as specified |
| StreamClass.BasicStream.ReadOptImpl | cpp/src/Ice/BasicStream.cpp:1652-1703 | answers no in encoding 1.0; otherwise the loop finds, skips or rewinds as specified, within the open encapsulation |
| StreamClass.BasicStream.SkipOptionals | cpp/src/Ice/BasicStream.cpp:1777-1804 | the loop skips to the end or past the marker as specified |
| StreamClass.BasicStream.ReadPayload | cpp/include/Ice/StreamHelpers.h:618-744 | reads an optional value past its prefix |
| StreamClass.BasicStream.ReadOptional | cpp/include/Ice/BasicStream.h:477-492 | read(tag, optional) answers as the specification's reader of optional members does for one request, throwing exactly when it does |
| StreamClass.BasicStream.StartReadEncaps | cpp/include/Ice/BasicStream.h:206-244 | checks size, bounds and version and opens a frame |
| StreamClass.BasicStream.EndReadEncaps | cpp/include/Ice/BasicStream.h:246-283 | closes the innermost frame at its end, skipping optional members in 1.1 and tolerating one byte in 1.0, or throws |
| StreamClass.BasicStream.ReadEncapsBytes | cpp/include/Ice/BasicStream.h:303-320 | returns the encapsulation's bytes and moves past them, or throws |
| Container.Container.Reserve | cpp/src/Ice/Buffer.cpp:73-100 | growing or shrinking keeps the contents; the new capacity is the doubling policy's or exactly n; a failed allocation changes nothing |
| Container.Container.Resize | cpp/include/Ice/Buffer.h:83-96 | the contents are kept up to the new size, and storage is freed exactly when that is 0 |
| Container.Container.PushBack | cpp/include/Ice/Buffer.h:123-127 | appends one byte, or throws and changes nothing; what it costs is that of the growth policy |
| Container.Container.Reset | cpp/include/Ice/Buffer.h:98-121 | empties the buffer; shrinks, to exactly the size in use, if and only if this is the third counted reset in a row |
| Container.Container.Clear | cpp/src/Ice/Buffer.cpp:62-71 | frees the storage and empties the buffer |
| Container.Container.Swap | cpp/src/Ice/Buffer.cpp:50-60 | contents, capacity and reset count change hands, the limits do not |
| Container.StreakOfTwo | cpp/include/Ice/Buffer.h:110-119 | the shrink counter exceeds two exactly after two counted resets in a row |
| Container.CopiesBounded | cpp/src/Ice/Buffer.cpp:79-99 | all reallocations of N push_backs together copy at most twice the last capacity outgrown |
| Container.AmortisedGrowth | cpp/src/Ice/Buffer.cpp:79-99 | N push_backs on an empty container copy fewer than 2N bytes |
| Container.Container.Fill | cpp/include/Ice/Buffer.h:123-127 | filling an empty container byte by byte, up to the first failed allocation, moves fewer than two bytes for each byte given |
| Container.AllButTheLastDouble | cpp/src/Ice/Buffer.cpp:79-83 | every reallocation followed by another at least doubles the capacity and has reached 240 |
| Container.LeastCapacity | cpp/src/Ice/Buffer.cpp:79-83 | the capacity asked for is the least that is at least 240, holds what is wanted, and is double the old one or the maximum |
| Container.DoublingIffNoWrap | cpp/src/Ice/Buffer.cpp:81 | growth by one byte doubles, up to the maximum, if and only if doubling does not wrap (or one byte is all that is left) |
| Container.WrapStopsDoubling | cpp/src/Ice/Buffer.cpp:81 | with a 32-bit size_t a full container of 3.75 GiB grows by a single byte |
| Container.UnderHalfIffNoWrap | cpp/include/Ice/Buffer.h:102 | reset's test is right if and only if the doubled size does not wrap |
| Container.WrapTakesFullForEmpty | cpp/include/Ice/Buffer.h:102 | with a 32-bit size_t reset's test takes a full buffer of 2 GiB for under half full |
| Base64.Encode | cpp/src/Ice/Base64.cpp:15-97 | the loops compute the padded symbols folded into lines |
| Base64.Decode | cpp/src/Ice/Base64.cpp:99-181 | the loops drop foreign characters and unpack groups of four |
| Base64.RoundTrip | cpp/src/Ice/Base64.cpp:15-181 | decode(encode(x)) == x for every byte sequence |
| Base64.NoiseIsIgnored | cpp/src/Ice/Base64.cpp:183-216 | characters outside the alphabet inserted anywhere do not change what is decoded |
| Base64.SymbolCount | cpp/src/Ice/Base64.cpp:28-77 | four symbols for every three bytes begun, padded only at the very end |
| Base64.FoldedText | cpp/src/Ice/Base64.cpp:79-96 | the text by position: lines of 76 symbols separated by CRLF, none at the end (section 6.8 of RFC 2045) |
| Base64.SymbolRoundTrip | cpp/src/Ice/Base64.cpp:218-269 | the character tables of encode and decode are inverse on the 64 symbols |
| Base64.AlphabetIs | cpp/src/Ice/Base64.cpp:218-243 | the encoder's symbols are, in order, the 64 characters of the alphabet in section 6.8 of RFC 2045 |
| Base64.KeptIff | cpp/src/Ice/Base64.cpp:183-216 | the decoder's filter keeps the characters of that alphabet and '=', and no others |
| Base64.GroupIsOneNumber | cpp/src/Ice/Base64.cpp:47-77 | four symbols are the digits to base 64 of the number whose digits to base 256 are the three bytes |
| Base64.ShortGroups | cpp/src/Ice/Base64.cpp:47-77 | in a last group of one or two bytes the missing ones count as zero and show as padding |
| Base64.UngroupIsOneNumber | cpp/src/Ice/Base64.cpp:160-177 | any four characters but padding decode to the three bytes of that number |
| Base64.PaddingDrops | cpp/src/Ice/Base64.cpp:160-177 | padding drops the byte of its own place, and nothing else, even where the encoder would not write it |
| Base64.EndWithinAGroup | cpp/src/Ice/Base64.cpp:135-160 | text that ends within a group is decoded as if filled up with 'A's, so it yields whole bytes of zero bits |
| Base64.CutSextets | cpp/src/Ice/Base64.cpp:55-58 | the encoder's shifts and masks on bytes give the four sextets of the specification's arithmetic |
| Base64.JoinSextets | cpp/src/Ice/Base64.cpp:167-177 | the decoder's shifts and masks on sextets give the three bytes of the specification's arithmetic |
| Monitor.NotificationsExact | cpp/include/IceUtil/Monitor.h:86-193 | in every run with nested locking a step that gives up the monitor, by the acquisitions and releases that went before, sends exactly what was asked for since it was acquired, one broadcast if any call asked for all, and every other step sends nothing |
| Monitor.DepthIsHistory | cpp/include/IceUtil/Monitor.h:86-193 | in every run the lock depth is the number of acquisitions, by lock or tryLock, that were not given back, a waiting thread's saved depth the number it had, and a thread may lock exactly when nobody or, on a recursive mutex, the thread itself holds the monitor |
| Monitor.NothingCarriedOver | cpp/include/IceUtil/Monitor.h:86-193 | what is pending was asked for by the present holder |
| Monitor.FlagPaysWhatIsDue | cpp/include/IceUtil/Monitor.h:196-247 | the _nnotify flag stands for the list of calls: notifyImpl sends one signal each, or one broadcast |
| Monitor.WaitRestoresDepth | cpp/include/IceUtil/Monitor.h:139-164 | a wait, however long and whatever others do, gives back the nesting depth it took |
| Monitor.RunKeepsInv | cpp/include/IceUtil/Monitor.h:86-218 | lock depth, flag and pending calls agree after every run |
| Monitor.MonitorT.LockIt | cpp/include/IceUtil/Monitor.h:86-98 | lock goes one level deeper and resets the flag on the first acquisition only |
| Monitor.MonitorT.TryLockIt | cpp/include/IceUtil/Monitor.h:118-131 | tryLock does the same if the mutex was taken, and nothing otherwise |
| Monitor.MonitorT.UnlockIt | cpp/include/IceUtil/Monitor.h:100-112 | unlock gives back one level; the outermost one sends what is pending, an inner one nothing |
| Monitor.MonitorT.WaitStarts | cpp/include/IceUtil/Monitor.h:139-151 | wait sends what is pending and gives up every level of the lock |
| Monitor.MonitorT.Flush | cpp/include/IceUtil/Monitor.h:219-247 | the loop sends n signals, or one broadcast for -1 |
| HandlesTheorems.EveryRunIsSafe | cpp/include/IceUtil/Handle.h:151-249 | in every run, destructor bodies included, each live object's count is the number of live handles to it, no handle dangles, nothing freed is touched, no object is freed twice |
| HandlesTheorems.DeletedExactlyAtTheLastHandle | cpp/include/IceUtil/Shared.h:83-94 | a step starts to delete an object if and only if it takes its last handle and _noDelete is not set |
| HandlesTheorems.OnlyTheDyingAreFreed | cpp/include/IceUtil/Shared.h:83-94 | memory is freed only after that, and with no handle to it left |
| HandlesTheorems.CascadeStepDescends | cpp/include/IceUtil/Shared.h:83-94 | every step of a cascade lowers a potential |
| HandlesTheorems.EveryCascadeFinishes | cpp/include/IceUtil/Shared.h:83-94 | while no destructor body acts, a cascade's length is bounded by what it started from |
| HandlesTheorems.DeletionsArePaidFor | cpp/include/IceUtil/Shared.h:83-94 | in every run, destructor bodies included, the deletions' own steps are bounded by what the heap held and three for each client step |
| HandlesTheorems.NeverStuck | cpp/include/IceUtil/Handle.h:182-188 | a deletion under way can always go on, unless a handle to the object whose destructor runs is left |
| HandlesTheorems.ReachableSurvives | cpp/include/IceUtil/Handle.h:182-188 | in every run, destructor bodies and nested deletions included, in which no step names a handle on the way to retarget or destroy it, what a variable leads to keeps its handles and its objects, those being deleted among them |
| HandlesTheorems.CascadeSpares | cpp/include/IceUtil/Handle.h:182-188 | a cascade destroys no handle and frees no object that a variable still leads to |
| HandlesTheorems.AssignmentKeepsItsTarget | cpp/include/IceUtil/Handle.h:231-249 | after an assignment to a variable and the cascade it sets off the variable holds the new, live target, even if the handle assigned from is gone; self-assignment changes nothing |
| HandlesTheorems.OrderIsIrrelevant | cpp/include/IceUtil/Handle.h:182-188 | two finished cascades from one heap in which no destructor body acts leave the same objects, handles and freed set, whatever order members were destroyed in |
| HandlesEffects.HandlesPointWhereTold | cpp/include/IceUtil/Handle.h:151-249 | after every run, destructor bodies and cascades included, each handle points where the run's constructors, assignments and swaps put it, and the handles there are are those constructed and not destroyed |
| HandlesEffects.StepDraws | cpp/include/IceUtil/Handle.h:151-249 | one step of that: constructors and assignments point, from a pointer or as another handle does, swap exchanges, destructors remove, and nothing else moves a handle |
| HandlesEffects.ObjectsThere | cpp/src/IceUtil/Shared.cpp:87-91 | objects come by their constructor, counted zero times and with _noDelete not set, and go by being freed |
| HandlesEffects.FreedAfter | cpp/include/IceUtil/Shared.h:83-94 | what is freed is recorded, once it is gone, and nothing else is |
| HandlesEffects.StackAfter | cpp/include/IceUtil/Shared.h:83-104 | _noDelete is what its client set until the object's deletion begins; a step begins at most one deletion, and bodies return and deletions end innermost first |
| HandlesProofs.StepKeepsInv | cpp/include/IceUtil/Handle.h:151-249 | every operation and every step of a deletion keeps counts exact, handles in place and deletions guarded |
| HandlesProofs.AssignKeeps | cpp/include/IceUtil/Handle.h:190-249 | assignment counts the new target before it lets the old one go, and keeps the invariant |
| HandlesProofs.SwapKeeps | cpp/include/IceUtil/Handle.h:74-77 | swap keeps every count without touching any |
| HandlesClass.Store.IncRef | cpp/include/IceUtil/Shared.h:77-81 | __incRef adds one to the count of a live object |
| HandlesClass.Store.DecRef | cpp/include/IceUtil/Shared.h:83-94 | __decRef and whatever it deletes, destructor bodies included, is a run of the transition system that begins with the step it is part of; it leaves the call stack as it was unless a body returns with a handle to its own object left |
| HandlesClass.Store.DeleteThis | cpp/include/IceUtil/Shared.h:87-91 | `delete this` runs the destructor's body, destroys the members one by one and frees the object, and what happened is a run of the transition system |
| HandlesClass.Store.RunBody | cpp/include/IceUtil/Shared.h:87-91 | a destructor's body takes client steps, each with the cascade it sets off, and returns with no handle to its object left unless its client broke that rule |
| HandlesClass.Store.Perform | cpp/include/IceUtil/Handle.h:151-249 | each client operation is its step of the transition system followed by the cascade it sets off |
| HandlesClass.Store.ValidIsSound | cpp/include/IceUtil/Handle.h:151-249 | whatever state the methods reach, counts are exact, nothing dangles and no deletion touches what is gone |
| HandlesClass.Store.Construct | cpp/include/IceUtil/Handle.h:151-180 | the constructors are the specification's step, of which StepDraws says where the handle points and EveryRunIsSafe that its target is counted |
| HandlesClass.Store.Assign | cpp/include/IceUtil/Handle.h:190-249 | an assignment is the specification's step, followed by the cascade it sets off, destructor bodies included |
| HandlesClass.Store.Swap | cpp/include/IceUtil/Handle.h:74-77 | swap exchanges two pointers |
| HandlesClass.Store.LeaveScope | cpp/include/IceUtil/Handle.h:182-188 | a variable's destructor is the specification's step, followed by the cascade it sets off, destructor bodies included |

## Left out

- SkipOpt: a negative FSize length stops the model's reader; the source moves a pointer by it, which C++ leaves undefined. Class-format optionals are not modelled.
- SkipOptional: throws where the source would skip a class instance (cpp/src/Ice/BasicStream.cpp:1763-1767), because class graphs are not modelled, and on a negative FSize.
- DetachRefines: `_retain` is a natural number; the source's assertion at cpp/include/Ice/MetricsAdminI.h:484 excludes negative values.
- NotificationsExact: `_nnotify` is unbounded, which waiter a signal wakes and `notify` by a thread that does not hold the monitor are not modelled.
- Class graphs, slices, exceptions, proxies and their pending-object sequences in `BasicStream`: a different machine, with its own encoder and decoder objects.
- `startSize`/`endSize`, which share one position, and the public `InputStream`/`OutputStream` wrappers other than their enum methods and `OutputStream::write(Int, Optional)`.
- String and wide-string converters, and the bulk `memcpy` paths for arrays of builtins and for big-endian hosts: the bytes are the same.
- Byte-swapping, alignment and the `Short`/`Long`/`Float`/`Double` overloads one by one: one method writes any width, lowest byte first, and floats are their raw bytes.
- The cache's `clear` (documented as unsafe during a pin) and `size`, reentrant calls from `load` and `pinned`, and `pin` with a null object.
- Metrics sub-maps, failure dictionaries, views, lifetimes and stop watches; filters and the group-by key are one uninterpreted answer per call. In ObserversClass the maps are values that its methods reassign, not MetricsMapT objects.
- Buffers over foreign memory (capacity 0 with a non-null pointer), which the source's assertions exclude.
- Perform: a statement of a destructor body that its client may not make, such as one through a pointer to an object whose destructor is past its body, is skipped; in C++ its effect is undefined.
- Handles across threads, overflow of `_ref`, copy construction of counted objects, comparison operators, `dynamicCast` and the null-handle exception.
- Sockets, configuration, process management and code generation: plumbing.
