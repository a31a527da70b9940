# libmcu in Dafny

Models of the parts of libmcu that hold state or do delicate arithmetic, with proofs of what they
are for. `dafny verify dfyconfig.toml` checks everything.

| files | component | main results |
|---|---|---|
| `kv_log`, `kv_bytes`, `kv_compact`, `kv_flash`, `kv_reads`, `kv_move`, `kv_reclaim`, `kv_erase`, `kv_loss`, `kvstore` | flash key-value store | every run refines a plain map; for every list of failing reads what a compaction does, byte by byte; at every flash operation, whatever fails, exactly when one partition holds the whole map, and exactly which keys are left when it reports success; no byte is programmed twice between erases; "no space" only when the live data leave none |
| `apptimer_arith`, `apptimer`, `apptimer_late` | hierarchical timer wheel | every run of covered advances fires exactly what a plain list of deadlines fires; for every other advance a run leaves a due timer behind; nothing ever fires early |
| `ringbuf`, `ringbuf_spsc`, `msgq` | ring buffer and message queue | the ring is a bounded byte queue, also for one producer and one consumer interleaved byte by byte; the queue is a FIFO of messages |
| `crc`, `crc16`, `crc32` | cyclic redundancy codes | table-driven is bit by bit; which polynomials notice every change within a register's worth of adjacent bytes |
| `cobs` | byte stuffing | encoding and decoding are inverse, also in place; a buffer that is too small holds what decodes to the first bytes of the data |
| `actor_core`, `actor_halves`, `actor` | actor scheduler and deferred messages | tokens cover all that waits, each actor handles its messages in the order sent, and dispatching delivers them all; over interleavings of the real critical sections, exactly when |
| `metricfs` | persistent metric queue | after a crash at any store operation, whatever failed before, what the queue then holds; all that was committed and not deleted, exactly when |
| `button` | debounced button | the event traces are those of a button, and every event follows a full run of equal samples |
| `ratelim` | leaky bucket | the leakage is never below the rate, and for which rates it is exact; a bound on the tokens granted in any window of time |
| `basics`, `bits` | `bitops.h` | powers of two, and the bit operators on natural numbers |

## How the models are built

- State that the C code changes in place is a class whose fields are the C fields; lists and
  dictionaries are `seq` and `map` fields, buffers and tables are arrays. Ghost fields hold the
  history or the abstract value that the invariant ties the real fields to.
- Machine integers are natural numbers with the wrap written out: the 32-bit counter of the timer
  wheel, the free-running indices of the ring, 16-bit metric ids, the button's 32-bit times and
  waveform.
- Code that cannot be seen is an input: the flash device has a plan of failing operations, the
  key-value store under the metric queue has one too, the button's input is a function from the
  sample number to a level, clocks are parameters, and the two hashes of the key-value store are
  arbitrary functions.
- A device that can lose power records a snapshot after every operation; the crash results speak
  of every snapshot.
- `hide` at the start of a body says which definitions its proof does not look into; what it needs
  of them comes from the lemmas it calls.

## What turned out not to hold

Each of these is proved here together with the condition under which the property does hold.

- `alloc_entry` overlooks an entry whose aligned end is the end of the data area
  (`ports/kvstore/flash_kvstore.c:161`), and hands its range out again: `KvLog.OverlookedEnd`.
  `KvStore.RunAll` therefore stops at the first such write; writes of whole lines never are one.
- `move_partition` ignores a failing erase, and reads a failing `find_meta` of the source as "nothing
  to copy" (`ports/kvstore/flash_kvstore.c:215-232`), although the comment above `reclaim` promises one
  valid partition. `KvMove.Course` follows a list of failing reads through the contents of a partition,
  and `KvStore.Store.Reclaim` ends as it says, so that the promise can be decided before the call: it is
  kept if the first move stops or leaves no slot or line to spare, and otherwise, if storage held a value,
  if and only if scratch then holds the map. As long as no copy is overlooked or taken from the wrong
  place, that is exactly if no key with a value was missed at every one of its slots: never without
  failing reads, nor for a key with more slots than reads that fail.
  After a failing erase an entry that is left in the target wins over the one that is moved:
  `KvErase.BothErases`. In scratch that is harmless if and only if every key that is left there has its
  current value; in storage it is, unless the erase stops inside an entry.
- For the same reason `reclaim` reports success after a failing search of scratch in the second move
  (`ports/kvstore/flash_kvstore.c:227`, `284`), and the key is gone from storage. Storage holds the map
  after success if and only if neither move missed a key with a value: `KvReclaim.Success`. From every
  store that holds a value, and has room, one failing read takes a key: `KvLoss.LosingList`.
- A failing `find_meta` of the target is read as "not copied yet", and by then it may have replaced the
  entry by the one in the target (`ports/kvstore/flash_kvstore.c:127-129`, `232`). An entry that was
  copied before is copied again: harmless if the search fails before it comes upon the copy and there is
  room, or else from the wrong offset, or up to the end of the data area, where `alloc_entry` overlooks
  it. Keys of one slot are never copied again, and so the second move copies none again if the first did
  not. One failing read is enough to give a key that was written twice its first value back:
  `KvLoss.Reverts`, for any number of slots and any contents.
- `apptimer_schedule` rescans only `time_elapsed` slots of the outermost wheel
  (`modules/apptimer/src/apptimer.c:306`), so that short advances across a block boundary leave a
  due timer behind. `WheelArith.Covered` is the exact condition: `AppTimerLate.LateRun` makes a late
  timer for every other advance and every time, by a run whose other advances are all covered.
- The I/O error of `push_message` is not dead code: the sum in its guard is a 32-bit one
  (`modules/common/src/msgq.c:34`), and the error is met exactly when it wraps and seems to fit.
- `cobs_encode` counts the delimiter in the length it returns unless the last group is full, and
  decoding a frame with its delimiter adds a zero in the other case: `Cobs.Encode`,
  `CobsFormat.FrameDecoded`. The frame is whole exactly when the encoding is shorter than the buffer.
  For a buffer of size 0 it writes two bytes past its end.
- `actor_send` is two critical sections, and so a message can be left waiting although no send is
  under way: `ActorHalves.SplitSendStrands`. A post is belated when it finds its actor outside the run
  queue and without a message that is left to it. Over every interleaving of the critical sections of
  sends and dispatches the tokens cover what waits exactly if no belated post comes when no token is
  to spare: `ActorHalves.HalvesExactly`. After any such post some run strands a message, if there are
  two actors: `ActorHalves.HarmStrands`. Sends whose halves follow each other are none.
- `metricfs_create` accepts prefixes of nine characters, and truncates the keys of such a queue to
  the same string: `MetricQueue.DistinctExactly`. More than 65535 metrics lap the 16-bit ids:
  the queue is then empty again. The ids that are missing from a store come first at every moment of
  `metricfs_clear` exactly if no failing clear comes before a succeeding one:
  `MetricFs.Queue.Clear`, `MetricQueue.ClearInOrder`. An outdex that is stored at the end makes up
  for it. `metricfs_read_first` neither deletes an empty metric nor reports an empty queue as such.
- `button_step_delta` counts from the last sample, so that what a step leaves of a period is lost;
  it samples like one long step exactly when the rests stay below a period: `Button.DeltasExactly`.
  The time of the last hold tells whether there was one: after a hold at time 0 modulo 2^32 the next one
  comes as if it were the first (`modules/button/src/button.c:240`): `Button.RepeatDue`.
- The leaky bucket leaks more than its rate unless the rate divides the hour or the hour the rate:
  `RateLimit.ExactWhen`.

## Model

| member | source | states |
|---|---|---|
| `Bits.IsPower2Exact` | modules/common/include/libmcu/bitops.h:20-23 | `is_power2` accepts the powers of two and nothing else |
| `Bits.RoundUpPow2Least` | modules/common/include/libmcu/bitops.h:35-43 | `roundup_pow2` is the least power of two that is not smaller |
| `WheelArith.ExpiredIsSigned` | modules/apptimer/src/apptimer.c:27-27 | a timer has expired when the 32-bit difference of counter and goal, read as a signed number, is not negative |
| `WheelArith.FarWheelMeaning` | modules/apptimer/src/apptimer.c:289-295 | the farmost wheel, computed from an exclusive-or, is the widest one whose block boundary the advance crosses, across the counter's wrap |
| `WheelArith.SlotForFits` | modules/apptimer/src/apptimer.c:109-132 | an unexpired timer is linked in a slot that fits its deadline |
| `WheelArith.StillFits` | modules/apptimer/src/apptimer.c:282-306 | in a covered advance every slot that is not rescanned holds only timers that are still in the future and still fit |
| `WheelArith.BlockOrLongIsCovered` | modules/apptimer/src/apptimer.c:289-306 | advances inside the current block of eight ticks, and advances of eight ticks or more, are covered |
| `AppTimer.TimerWheel.constructor` | modules/apptimer/src/apptimer.c:317-334 | an empty wheel at time 0 |
| `AppTimer.TimerWheel.Insert` | modules/apptimer/src/apptimer.c:109-132 | the timer is linked once, in the slot for its goal or in the pending list; `active_timers` counts the linked timers |
| `AppTimer.TimerWheel.UpdateSlots` | modules/apptimer/src/apptimer.c:152-169 | exactly the timers of the given slots are sorted again, none is lost or linked twice |
| `AppTimer.TimerWheel.RunPending` | modules/apptimer/src/apptimer.c:176-192 | every pending timer fires once; those that repeat come back one interval later and are not visited again |
| `AppTimer.TimerWheel.Start` | modules/apptimer/src/apptimer.c:194-224 | the error cases in order; otherwise the deadline is one timeout away |
| `AppTimer.TimerWheel.Stop` | modules/apptimer/src/apptimer.c:250-261 | a linked timer is linked nowhere afterwards, any other is left alone |
| `AppTimer.TimerWheel.Active` | modules/apptimer/src/apptimer.c:277-280 | the number of started and unfired timers |
| `AppTimer.TimerWheel.Sweep` | modules/apptimer/src/apptimer.c:289-306 | for any advance of 1 to 2^32-1 ticks the slots that are rescanned, and no others, are sorted for the new time |
| `AppTimer.TimerWheel.Schedule` | modules/apptimer/src/apptimer.c:282-315 | for any advance of 1 to 2^32-1 ticks nothing fires early or twice, and timers in slots that are not rescanned stay where they are; a covered advance, of at most 2^31-1 ticks, of a wheel that is on time fires exactly the due timers and leaves it on time |
| `AppTimer.SweepIsExact` | modules/apptimer/src/apptimer.c:299-306 | after the rescan of a covered advance the pending list holds exactly the due timers and every slot fits |
| `AppTimer.ScheduleIsExact` | modules/apptimer/src/apptimer.c:282-315 | rescan and callbacks together fire the due timers and keep the wheel on time |
| `AppTimer.Apply` | modules/apptimer/src/apptimer.c:194-315 | one call on the wheel is one step of a plain list of deadlines |
| `AppTimer.RunAll` | modules/apptimer/src/apptimer.c:194-315 | over every run of creates, starts, stops and covered advances the wheel fires, call by call, what the plain list fires |
| `AppTimerLate.FiledInFirst` | modules/apptimer/src/apptimer.c:121-128 | a timer started on a slot boundary of an outer wheel for the width of that slot goes to slot 1 |
| `AppTimerLate.UncoveredShape` | modules/apptimer/src/apptimer.c:289-306 | an advance that is not covered is shorter than eight ticks and crosses a slot boundary of the farmost wheel |
| `AppTimerLate.ToSlot` | modules/apptimer/src/apptimer.c:294-306 | advances by k ticks into slot k of the last wheel are covered and do not look at its slot 0 |
| `AppTimerLate.LateRun` | modules/apptimer/src/apptimer.c:194-315 | whenever an advance is not covered, a run of covered advances leads to that time with a timer that is due by the end of the advance and does not run |
| `KvLog.ScanFindsEnd` | ports/kvstore/flash_kvstore.c:147-165 | on a packed log the scan of `alloc_entry` finds the end of the log |
| `KvLog.AlignIsDivision` | modules/common/include/libmcu/compiler.h:75 | alignment to a line as the macro computes it |
| `KvLog.OverlookedEnd` | ports/kvstore/flash_kvstore.c:159-171 | the next range handed out lies beyond a new value exactly when the value's aligned end stays below `data.size` |
| `KvLog.Disjoint` | ports/kvstore/flash_kvstore.c:139-174 | the values of a log do not overlap and start and end on lines |
| `KvBytes.EntryRoundTrip` | ports/kvstore/flash_kvstore.c:189-193 | a metadata entry reads back as it was written |
| `KvBytes.EntryLayout` | ports/kvstore/flash_kvstore.c:24-33 | the four words of a metadata entry, each with its low byte first |
| `KvBytes.PartitionLayout` | ports/kvstore/flash_kvstore.c:387-409 | the entries lie in the first sixteenth of a partition and the values behind them |
| `KvBytes.AppendLookup` | ports/kvstore/flash_kvstore.c:189-206 | appending an entry and its value sets one key and leaves every other one |
| `KvCompact.CompactRoom` | ports/kvstore/flash_kvstore.c:226-236 | as long as nothing is copied twice compaction does not run out of slots or of data area, whatever was missed |
| `KvCompact.CopiedIffFound` | ports/kvstore/flash_kvstore.c:226-232 | the search of the target finds a key exactly if its live entry has been copied |
| `KvCompact.CarryDone` | ports/kvstore/flash_kvstore.c:218-232 | when every slot has been visited a key is in the target with its value, unless the search for its live entry failed at every one of its slots |
| `KvCompact.CarryExact` | ports/kvstore/flash_kvstore.c:208-260 | then, if nothing was copied twice, the target has one entry for every live entry whose key was not missed, and takes just their lines |
| `KvCompact.DoneUnique` | ports/kvstore/flash_kvstore.c:208-260 | every entry of the target is the live one of its key exactly if nothing was copied twice |
| `KvCompact.CompactDone` | ports/kvstore/flash_kvstore.c:208-260 | when every slot has been visited and none missed the target holds the same map, each live key once and nothing else |
| `KvMove.CourseLaden` | ports/kvstore/flash_kvstore.c:217-257 | after any number of turns without a copy that is overlooked or taken from the wrong place, whatever reads fail, the target holds copies of the live entries of the keys met, but for the slots that were missed |
| `KvMove.FirstCopyFits` | ports/kvstore/flash_kvstore.c:226-236 | a key that the search of the target does not find has not been copied, and if nothing was copied twice its copy fits |
| `KvMove.QuietCourse` | ports/kvstore/flash_kvstore.c:217-257 | without failing reads no slot is missed, no key copied twice and no turn fails |
| `KvMove.MissesFail` | ports/kvstore/flash_kvstore.c:217-232 | every missed slot and every second copy of a key takes a failing read of its own, and without one nothing is overlooked or taken from the wrong place |
| `KvMove.FewFailures` | ports/kvstore/flash_kvstore.c:217-232 | a key with more slots than there are failing reads is not missed |
| `KvMove.OneSlotEach` | ports/kvstore/flash_kvstore.c:226-232 | if every key has one slot nothing is copied twice, overlooked or taken from the wrong place, whatever reads fail |
| `KvMove.Delivered` | ports/kvstore/flash_kvstore.c:208-260 | what is then left: exactly the keys that were not missed, with their values, in a log that is in order; where it ends; no tombstones, and no stale entries exactly if nothing was copied twice |
| `KvMove.CarriedSame` | ports/kvstore/flash_kvstore.c:208-260 | the map is the same exactly if no key with a value was missed |
| `KvReclaim.Success` | ports/kvstore/flash_kvstore.c:264-287 | after two moves storage holds exactly the keys that neither missed, and the map if and only if neither missed a key with a value; no tombstones, and no stale entries exactly if the second copied nothing twice |
| `KvReclaim.SureBack` | ports/kvstore/flash_kvstore.c:274-284 | if the first move copied nothing twice the second does not either, whatever reads fail, and it loses nothing exactly if it misses no slot |
| `KvReclaim.QuietReclaim` | ports/kvstore/flash_kvstore.c:264-287 | without failing reads both moves go through, the second is begun exactly if the live data leave a slot and a line, and storage is the compaction |
| `KvReclaim.CompactTwice` | ports/kvstore/flash_kvstore.c:274-284 | compacting into scratch and back gives the compaction of storage |
| `KvErase.PasteLookup` | ports/kvstore/flash_kvstore.c:234-256 | a copy that is not overlooked, of a key that the target has not got, sets that key to what the source holds at the offset of the entry, and no other |
| `KvErase.Merged` | ports/kvstore/flash_kvstore.c:215-257 | a move without failing reads into a partition that was not erased, unless a value is overlooked: a key that has an entry there keeps it, and the others get the value of the source |
| `KvErase.FirstErase` | ports/kvstore/flash_kvstore.c:215-232 | after a failing first erase scratch holds the map if and only if every key that still has an entry there has its current value |
| `KvErase.BothErases` | ports/kvstore/flash_kvstore.c:264-287 | after failing erases, of both partitions, what storage holds for each key: an entry that the second has left there wins, then one that the first has left in scratch |
| `KvErase.HalfErased` | ports/kvstore/flash_kvstore.c:215-215 | what is left of the entries when an erase fails between two of them is up to date: the latest are the last to go |
| `KvErase.SecondErase` | ports/kvstore/flash_kvstore.c:215-257 | so an erase of storage that fails there loses nothing |
| `KvLoss.CalmCourse` | ports/kvstore/flash_kvstore.c:217-257 | how many reads a move without failing reads makes: the reads after them are the next ones |
| `KvLoss.MissedFirst` | ports/kvstore/flash_kvstore.c:226-232 | if the search for the first slot of a move is what fails, that slot is missed and nothing else happens |
| `KvLoss.FirstSearchFails` | ports/kvstore/flash_kvstore.c:264-287 | in the first move: reclaim goes through, and a key that has only that slot is gone |
| `KvLoss.LosingList` | ports/kvstore/flash_kvstore.c:264-287 | in the second move: for every store that holds a value, and has room, a list with one failing read makes reclaim report success and lose a key that scratch still had |
| `KvLoss.StaleScratch` | ports/kvstore/flash_kvstore.c:215-232 | a failing erase of a scratch partition that has an entry for every key of storage: reclaim reports success and storage holds the old contents of scratch |
| `KvLoss.StorageKept` | ports/kvstore/flash_kvstore.c:215-232 | a failing erase of storage, without effect, leaves storage as it was |
| `KvLoss.SecondOfTwo` | ports/kvstore/flash_kvstore.c:226-256 | a search of the target that fails after it has come upon the copy makes the turn copy from the offset of the copy |
| `KvLoss.FirstValueAgain` | ports/kvstore/flash_kvstore.c:234-256 | for the second slot of a key, with values of one length, that is the first value |
| `KvLoss.Reverts` | ports/kvstore/flash_kvstore.c:264-287 | a list with one failing read makes reclaim report success and give a key that was written twice its first value back |
| `KvFlash.Chip.Program` | ports/kvstore/flash_kvstore.c:189-206 | the bytes are spliced in, or as many of the first as the failing write got done; exactly when it succeeds; programming marked bytes again is recorded |
| `KvFlash.Chip.Erase` | ports/kvstore/flash_kvstore.c:215-215 | the partition is blank, or as many of its first bytes as the failing erase got done |
| `KvStore.Store.constructor` | ports/kvstore/flash_kvstore.c:374-411 | a store over a device whose first partition holds a log |
| `KvStore.Store.FindKey` | ports/kvstore/flash_kvstore.c:74-106 | the last entry with the key's hashes, unless it is a tombstone |
| `KvStore.Store.FindMeta` | ports/kvstore/flash_kvstore.c:108-137 | it fails exactly if one of its reads does; the last entry with these hashes, or after a failing read the last one before it |
| `KvStore.Store.Alloc` | ports/kvstore/flash_kvstore.c:139-174 | the first free slot and the largest aligned end below the size, when the value fits strictly |
| `KvStore.Store.CopyValue` | ports/kvstore/flash_kvstore.c:245-256 | the value is copied in whole lines, into bytes that were blank |
| `KvStore.Store.CopyEntry` | ports/kvstore/flash_kvstore.c:234-256 | exactly when a copy succeeds, and the bytes it leaves in the target; nothing is programmed twice if nothing was from where `alloc_entry` goes on, and that stays so unless the copy reaches the end of the area |
| `KvStore.Store.Pick` | ports/kvstore/flash_kvstore.c:221-232 | whether a slot is passed over, or which entry is copied, for every list of failing reads |
| `KvStore.Store.MoveSlot` | ports/kvstore/flash_kvstore.c:217-257 | one turn ends as the contents and the failing reads say |
| `KvStore.Store.MovePartition` | ports/kvstore/flash_kvstore.c:208-260 | the source is never touched, whatever fails; whether it succeeds, and then every byte of the target, follow from the contents, what the erase left and the failing reads; nothing is programmed twice if no copy is overlooked or taken from the wrong place |
| `KvStore.Store.Reclaim` | ports/kvstore/flash_kvstore.c:264-287 | for every list of failing reads, and any first erase, if nothing else fails: the result, whether the second move is begun, and every byte of both partitions; whatever fails, one partition holds the whole map at every flash operation if the second move is not begun or scratch holds it, and if storage was erased and held a value only then; after an effective first erase, if no copy is overlooked or taken from the wrong place, if and only if no key with a value was missed; after success storage then holds exactly the keys that neither move missed, and the store is in order; without failing reads the promise is kept and success leaves the compaction, whatever else fails later; without errors it succeeds exactly if the live data leave room |
| `KvStore.Store.MoveBack` | ports/kvstore/flash_kvstore.c:279-284 | the second move is begun exactly if the reads of the test succeed and scratch has a slot and a line to spare; then storage is what the course of the remaining reads makes of scratch, and erased first unless that erase fails |
| `KvStore.SafeMoved` | ports/kvstore/flash_kvstore.c:264-287 | what follows for the promise from the contents of scratch and from the keys missed |
| `KvStore.OnlyThen` | ports/kvstore/flash_kvstore.c:264-287 | with storage erased scratch has to hold the map, if that holds any value |
| `KvStore.Store.DoWrite` | ports/kvstore/flash_kvstore.c:289-321 | success sets one key; failure leaves the map as it was even if it compacted; no space only if the live keys fill every slot or their aligned bytes and max(size, 16) reach the area's size |
| `KvStore.Store.Write` | ports/kvstore/flash_kvstore.c:323-327 | the same by key: what is found under the two hashes of the key is set, and every key that differs in one of them keeps what it had |
| `KvStore.Store.Read` | ports/kvstore/flash_kvstore.c:329-343 | a prefix of the latest value under the two hashes of the key, or that there is none |
| `KvStore.Store.Clear` | ports/kvstore/flash_kvstore.c:345-359 | the key is gone and every other is as it was, by their two hashes; an absent key is reported |
| `KvStore.RunAll` | ports/kvstore/flash_kvstore.c:289-359 | over every run of writes, reads and erases without flash errors the store is a plain map, with keys that have both hashes in common as one, and no byte is programmed twice between erases |
| `KvStore.WholeLinesFit` | ports/kvstore/flash_kvstore.c:159-167 | values of whole lines are never overlooked |
| `RingBuf.Ring.constructor` | modules/common/src/ringbuf.c:245-267 | an empty ring of the least power of two that is large enough |
| `RingBuf.Ring.Write` | modules/common/src/ringbuf.c:100-118 | appends as many bytes as fit, across the end of the buffer and the wrap of the indices |
| `RingBuf.Ring.WriteCancel` | modules/common/src/ringbuf.c:120-132 | takes back that many bytes, or none when there are fewer |
| `RingBuf.Ring.Peek` | modules/common/src/ringbuf.c:64-84 | the bytes at an offset, as many as there are |
| `RingBuf.Ring.PeekPointer` | modules/common/src/ringbuf.c:46-62 | the cell of the byte at an offset and how many follow in a row |
| `RingBuf.Ring.Consume` | modules/common/src/ringbuf.c:86-98 | drops that many bytes, or none when there are fewer |
| `RingBuf.Ring.Read` | modules/common/src/ringbuf.c:157-167 | hands out the bytes at an offset and drops everything up to their end |
| `RingBuf.Ring.Resize` | modules/common/src/ringbuf.c:184-221 | keeps the contents; exactly when it succeeds |
| `RingBuf.IndexCell` | modules/common/src/ringbuf.c:100-118 | masking the wrapped index gives the cell after the contents |
| `RingSpsc.NextInv` | modules/common/src/ringbuf.c:64-118 | each index load, byte copy and index publication keeps the invariant of producer and consumer |
| `RingSpsc.RunInv` | modules/common/src/ringbuf.c:64-118 | it holds at every point of every interleaving: no byte is read before it is written or overwritten before it is consumed |
| `RingSpsc.StepMeans` | modules/common/src/ringbuf.c:64-118 | what each step does, with its wrapped indices, in terms of the stream and the positions in it |
| `RingSpsc.ProducedIsWritten` | modules/common/src/ringbuf.c:97-118 | what is produced is, for each publication in turn, the first bytes of the data of its write, as many as there was room for when the write loaded outdex |
| `RingSpsc.ReadTakes` | modules/common/src/ringbuf.c:64-95 | a read hands out the bytes at its offset, as many as there were when it loaded the length the second time and no more than were asked for; they and those before them are consumed |
| `RingSpsc.SafeDelivery` | modules/common/src/ringbuf.c:64-118 | what the reads delivered is the consumed prefix of what the writes have taken of their data |
| `MsgQ.FramesInjective` | modules/common/src/msgq.c:24-49 | no two queues of messages look the same in the ring |
| `MsgQ.CalcSizeRounds` | modules/common/src/msgq.c:178-184 | `msgq_calc_size` is the least power of two for that many framed messages |
| `MsgQ.Queue.constructor` | modules/common/src/msgq.c:186-207 | an empty queue |
| `MsgQ.Queue.Push` | modules/common/src/msgq.c:24-49 | the whole message or nothing; succeeds exactly when the framed message fits; when the I/O error is met |
| `MsgQ.Queue.Pop` | modules/common/src/msgq.c:51-70 | the oldest message intact, or why not, and then nothing changes |
| `MsgQ.Queue.NextSize` | modules/common/src/msgq.c:102-119 | the size of the oldest message |
| `MsgQ.Queue.Available` | modules/common/src/msgq.c:121-136 | the longest message that a push accepts |
| `MsgQ.Fill` | modules/common/src/msgq.c:178-207 | a queue sized by `msgq_calc_size(n, m)` takes n messages of up to m bytes |
| `CrcTheory.StepAdditive` | modules/common/src/crc32.c:13-19 | one turn of the register is linear over GF(2), either way round |
| `CrcTheory.StepInjective` | modules/common/src/crc16.c:13-19 | it can be undone when the polynomial has its constant term |
| `CrcTheory.FeedRow` | modules/common/src/crc16.c:9-66 | feeding a row of bytes is adding it whole and turning the register |
| `CrcTheory.DetectsExactly` | modules/common/src/crc16.c:9-66 | every change within a register's worth of adjacent bytes is noticed, whatever the length and the initial value, exactly when the polynomial has its constant term |
| `CrcTheory.Residue` | modules/common/src/crc16.c:44-66 | a message followed by bytes checks to zero exactly when the bytes are its code |
| `CrcTheory.LookUp` | modules/common/src/crc32.c:39-64 | one table look-up does the work of eight turns |
| `CrcTheory.LookUpReflected` | modules/common/src/crc32.c:66-91 | the same, reflected |
| `Crc16.Update` | modules/common/src/crc16.c:9-22 | the register after one byte, bit by bit |
| `Crc16.UpdateReverse` | modules/common/src/crc16.c:24-42 | the same, reflected |
| `Crc16.Modbus` | modules/common/src/crc16.c:44-54 | the reflected code of the message with polynomial A001 from FFFF |
| `Crc16.Xmodem` | modules/common/src/crc16.c:56-66 | the code of the message with polynomial 1021 from 0 |
| `Crc16.TwoBytes` | modules/common/src/crc16.c:44-66 | messages that differ only within two adjacent bytes never share a checksum |
| `Crc16.UpdateDetects` | modules/common/src/crc16.c:39-42 | for which polynomials `crc16_update` has that property |
| `Crc16.XmodemFrame` | modules/common/src/crc16.c:56-66 | a frame checks to zero exactly with the right two bytes, high byte first |
| `Crc16.ModbusFrame` | modules/common/src/crc16.c:44-54 | the same, low byte first |
| `Crc32.Update` | modules/common/src/crc32.c:9-22 | the register after one byte, bit by bit |
| `Crc32.UpdateReverse` | modules/common/src/crc32.c:24-37 | the same, reflected |
| `Crc32.GenerateTable` | modules/common/src/crc32.c:51-64 | entry i is the register after eight turns from byte i |
| `Crc32.GenerateReverseTable` | modules/common/src/crc32.c:78-91 | the same, reflected |
| `Crc32.ComputeTable` | modules/common/src/crc32.c:39-49 | with a generated table, the bit-by-bit code for every polynomial, initial value and message |
| `Crc32.ComputeReverseTable` | modules/common/src/crc32.c:66-76 | the same, reflected |
| `Crc32.ByTable` | modules/common/src/crc32.c:39-91 | generating a table and computing with it is computing bit by bit, both ways round |
| `Crc32.Jamcrc` | modules/common/src/crc32.c:93-102 | the reflected code of the message with polynomial EDB88320 from FFFFFFFF |
| `Crc32.Cksum` | modules/common/src/crc32.c:104-113 | the inverted code of the message with polynomial 04C11DB7 from 0 |
| `Crc32.Bursts` | modules/common/src/crc32.c:93-113 | both notice every change within four adjacent bytes |
| `CobsFormat.SmallEncodings` | modules/common/src/cobs.c:9-41 | the encodings of small data |
| `CobsFormat.Grows` | modules/common/src/cobs.c:9-41 | one byte more makes the encoding one byte longer, two if the last group was full |
| `CobsFormat.FillsOnce` | modules/common/src/cobs.c:13-38 | there is one number of bytes whose encoding fills a buffer |
| `CobsFormat.NoZero` | modules/common/src/cobs.c:9-41 | the body has no zero byte |
| `CobsFormat.Overhead` | modules/common/src/cobs.c:9-41 | the body is at most datasize + datasize/254 + 1 long |
| `CobsFormat.RoundTrip` | modules/common/src/cobs.c:9-69 | decoding the body gives the data back |
| `CobsFormat.FrameDecoded` | modules/common/src/cobs.c:43-69 | decoding a frame with its delimiter gives the data, and a zero unless the last group is full |
| `CobsFormat.EncodedInjective` | modules/common/src/cobs.c:9-41 | different data have different encodings |
| `CobsFormat.DecodedPrefix` | modules/common/src/cobs.c:50-66 | the first bytes of a frame decode to the first bytes of what the frame decodes to |
| `Cobs.Encode` | modules/common/src/cobs.c:9-41 | the buffer holds the encoding and its delimiter exactly when the encoding is shorter than the buffer; the length returned; with less room the buffer is filled with the encoding of as much of the data as fits, cut for the delimiter in its last place, and the length returned then; what is there decodes to the first bytes of the data; nothing behind the buffer is written, but for a size of 0, where two bytes are |
| `Cobs.DecodeInto` | modules/common/src/cobs.c:43-69 | the decoding, cut to the buffer, whether or not source and target are one array; nothing else is written |
| `Cobs.DecodeOverwrite` | modules/common/src/cobs.c:71-74 | in place, the whole decoding |
| `Cobs.Transfer` | modules/common/src/cobs.c:9-74 | encoding, cutting at the first zero and decoding in place is the identity |
| `ActorCore.AddIfNotExist` | modules/actor/src/actor.c:77-92 | appends what is not in the list |
| `ActorCore.SendTo` | modules/actor/src/actor.c:336-363 | a message that is in the mailbox is refused and nothing is scheduled; any other is queued and the actor scheduled |
| `ActorCore.DispatchOne` | modules/actor/src/actor.c:143-182 | the first actor gets its oldest message, and goes to the end of the run queue if it has more |
| `ActorCore.SendKeeps` | modules/actor/src/actor.c:336-363 | a send keeps: every actor with mail is in the run queue once, and tokens are never fewer than queued messages and scheduled actors without any |
| `ActorCore.DispatchKeeps` | modules/actor/src/actor.c:143-182 | so does a dispatch |
| `ActorCore.RunKeeps` | modules/actor/src/actor.c:77-182 | so does every run of sends and dispatches |
| `ActorCore.NotStranded` | modules/actor/src/actor.c:184-201 | waiting mail implies a token and an actor to run |
| `ActorCore.ServedInTurn` | modules/actor/src/actor.c:94-182 | whatever is sent meanwhile, the k-th dispatch serves the actor at position k of the run queue |
| `ActorCore.DrainEmpties` | modules/actor/src/actor.c:184-201 | spending the tokens empties every mailbox |
| `ActorHalves.HalfKeeps` | modules/actor/src/actor.c:133-201 | one critical section of a send or of the dispatcher keeps: an actor outside the run queue that the dispatcher has not in hand has no more mail than posts to come, and tokens with posts to come cover all that waits; exactly if it is no belated post without a token to spare |
| `ActorHalves.HalvesExactly` | modules/actor/src/actor.c:133-201 | over every interleaving of the critical sections that holds throughout exactly if every post is harmless |
| `ActorHalves.NoneStranded` | modules/actor/src/actor.c:343-360 | then, when no send or dispatch is half done, the invariant of atomic sends holds |
| `ActorHalves.HarmStrands` | modules/actor/src/actor.c:133-201 | after every post that is not harmless some run leaves a message without a token and nothing under way, if there are two actors |
| `ActorHalves.DeficitStrands` | modules/actor/src/actor.c:133-201 | so it is wherever more waits than the tokens and the posts to come pay for |
| `ActorHalves.PaidIsNotStuck` | modules/actor/src/actor.c:133-201 | and nowhere else: while the invariant holds no message is stuck |
| `ActorHalves.MovePays` | modules/actor/src/actor.c:143-201 | every section of the dispatcher that finds an actor takes as much from what waits as from what pays for it |
| `ActorHalves.AllPosted` | modules/actor/src/actor.c:343-360 | the two invariants are one when nothing is half done |
| `ActorHalves.PostPays` | modules/actor/src/actor.c:133-141 | a post leaves what waits as it was, but for a belated one, which adds one |
| `ActorHalves.AtomicIsHarmless` | modules/actor/src/actor.c:336-363 | a send whose halves follow each other is harmless and is the atomic one |
| `ActorHalves.DispatchInSteps` | modules/actor/src/actor.c:143-201 | a dispatch whose critical sections follow each other is the atomic one |
| `ActorHalves.SplitSendStrands` | modules/actor/src/actor.c:343-360 | a run of the critical sections, in which every send completes, that leaves a message without a token |
| `ActorSystem.System.constructor` | modules/actor/src/actor.c:447-480 | all messages are in the pool and all timers free |
| `ActorSystem.System.SetActor` | modules/actor/src/actor.c:391-407 | a new actor with an empty mailbox |
| `ActorSystem.System.Alloc` | modules/actor/src/actor.c:269-297 | the first free message leaves the pool and becomes the caller's, for a payload that fits |
| `ActorSystem.System.Free` | modules/actor/src/actor.c:299-316 | the message is in the pool, once |
| `ActorSystem.System.MemLen` | modules/actor/src/actor.c:323-334 | the bytes of the messages that are not in the pool |
| `ActorSystem.PoolConserved` | modules/actor/src/actor.c:269-334 | free messages and those in mailboxes, timers and handlers add up to the pool |
| `ActorSystem.System.Send` | modules/actor/src/actor.c:336-363 | a message goes from its owner to the end of the mailbox and of what was sent, its actor is in the run queue and there is one token more; a message that is in the mailbox already is refused and nothing changes |
| `ActorSystem.System.DispatchActor` | modules/actor/src/actor.c:143-182 | the first actor of the run queue gets the oldest message of its mailbox, and goes to the end of the queue if there are more; one token less |
| `ActorSystem.System.Drain` | modules/actor/src/actor.c:184-201 | afterwards every actor has handled exactly what was sent to it, in order |
| `ActorSystem.System.CountMessages` | modules/actor/src/actor.c:379-389 | the messages in the mailbox and those that armed timers carry to it |
| `ActorSystem.System.SendDefer` | modules/actor/src/actor.c:365-377 | the message is held by an armed timer that is due after the delay, or there is no timer |
| `ActorSystem.System.TimerNew` | modules/actor/src/actor_timer.c:156-170 | the first free timer, holding the message |
| `ActorSystem.System.TimerStart` | modules/actor/src/actor_timer.c:128-136 | the timer is armed, once |
| `ActorSystem.System.TimerStop` | modules/actor/src/actor_timer.c:138-154 | the timer is not armed, and the others are in the order that they had |
| `ActorSystem.System.TimerDelete` | modules/actor/src/actor_timer.c:172-181 | the timer is free, once, and its message is the caller's |
| `ActorSystem.System.TimerStep` | modules/actor/src/actor_timer.c:183-212 | the armed timers that run out send their messages in order, schedule their actors with a token each and are free, the others are counted down |
| `ActorSystem.FiredAreDue` | modules/actor/src/actor_timer.c:79-92 | those are exactly the timers whose time, counted from when they were started, has come |
| `ActorSystem.FiredInOrder` | modules/actor/src/actor_timer.c:190-209 | they fire in the order of the list, and the others stay in it |
| `ActorSystem.SentInOrder` | modules/actor/src/actor_timer.c:190-207 | the messages for one actor arrive in the order of the list |
| `MetricQueue.FreshStore` | modules/metrics/src/metricfs.c:35-57 | a store without counters is an empty queue, one without an outdex begins at id 0, and the counters are read with the low byte first |
| `MetricQueue.CrashRecovers` | modules/metrics/src/metricfs.c:284-308 | a reopened queue holds the metrics from the stored outdex on as they were committed, missing where they were cleared; the missing ids come first exactly if the cleared positions do |
| `MetricQueue.TidyRecovers` | modules/metrics/src/metricfs.c:284-308 | a tidy queue comes back as a run of missing ids and then every metric that was committed and not deleted, unchanged and in order |
| `MetricQueue.NothingForgotten` | modules/metrics/src/metricfs.c:75-78 | all of the queue in memory comes back exactly if the stored outdex is at least as far from the index as the one in memory |
| `MetricQueue.EveryStore` | modules/metrics/src/metricfs.c:284-308 | every store, whatever it holds, has an account from which the queue begins |
| `MetricQueue.TidyKept` | modules/metrics/src/metricfs.c:91-189 | deletes keep a queue tidy, and a write does if and only if it leaves the index less than a lap from where the queue is read back, or the queue begins there |
| `MetricQueue.ClearInOrder` | modules/metrics/src/metricfs.c:127-161 | the cleared positions come first after every clear of `metricfs_clear` if and only if no metric that stays comes before one that goes |
| `MetricQueue.ClearTidy` | modules/metrics/src/metricfs.c:127-161 | a tidy queue is tidy after i clears exactly if none of them left a metric |
| `MetricQueue.FailedClearLeavesHole` | modules/metrics/src/metricfs.c:127-140 | a first clear that fails and a second that succeeds leave a hole after some clear of `metricfs_clear` |
| `MetricQueue.Laps` | modules/metrics/src/metricfs.c:163-171 | the queue can be found full exactly when the maximum is at most 65535; 65536 metrics count as none |
| `MetricQueue.DistinctExactly` | modules/metrics/src/metricfs.c:61-73 | the keys of a queue are distinct exactly for prefixes of up to eight characters |
| `MetricFs.Queue.constructor` | modules/metrics/src/metricfs.c:284-308 | a queue over what the store holds, which begins at the stored outdex; counters that the store has not got are 0 |
| `MetricFs.Queue.Write` | modules/metrics/src/metricfs.c:163-189 | committed as a whole or not at all, and exactly when; no space exactly at the maximum; every store state on the way is the queue before or after; exactly when all that was committed and not deleted can still be read back; what happens at a lap |
| `MetricFs.Queue.DeleteFirst` | modules/metrics/src/metricfs.c:91-111 | the oldest id goes, also when an earlier delete was interrupted; every store state on the way, for every failure |
| `MetricFs.Queue.PeekFirst` | modules/metrics/src/metricfs.c:80-89 | a prefix of the oldest metric, or that it is missing |
| `MetricFs.Queue.ReadFirst` | modules/metrics/src/metricfs.c:239-255 | what is read is deleted; an interrupted id is passed over; the two odd cases |
| `MetricFs.Queue.Clear` | modules/metrics/src/metricfs.c:266-282 | for every plan of failures what is cleared at every moment and whether the outdex is stored; success exactly if every id was there and nothing failed; the missing ids of the recorded stores come first at every moment if and only if no failing clear comes before a succeeding one; a stored outdex makes the queue tidy again |
| `MetricFs.AllFineIs` | modules/metrics/src/metricfs.c:266-282 | it succeeds if no clear fails and no id is missing |
| `MetricFs.Queue.Iterate` | modules/metrics/src/metricfs.c:196-217 | the metrics that are there, in order, and an error if an id was missing |
| `MetricFs.ListedInOrder` | modules/metrics/src/metricfs.c:196-217 | the metrics that iterating hands out, in order, each under its id and cropped to the buffer |
| `MetricFs.CrashAndReopen` | modules/metrics/src/metricfs.c:284-308 | from every recorded store state the queue comes back as it was committed by then, and if it was tidy with all that was not deleted |
| `ButtonWave.PredicatesSeeRuns` | modules/button/src/button.c:157-191 | the masks on the waveform see exactly the runs of equal samples |
| `Button.SetParam` | modules/button/src/button.c:346-369 | exactly which parameters are accepted, with 1000 ms for a timeout of 0; they become the parameters and keep the debounce count within the waveform; refused ones change nothing |
| `Button.DebounceTime` | modules/button/src/button.c:104-108 | the debounce count is the least number of samples that stand for more than the debounce time |
| `Button.SettledIs` | modules/button/src/button.c:104-185 | a run of that many equal samples is a level that has lasted for more than the debounce time |
| `Button.HoldDueIs` | modules/button/src/button.c:232-262 | when a hold is due, in time that does not wrap: the delay after the press, or the rate after the hold before |
| `Button.Button.UpdateState` | modules/button/src/button.c:202-213 | the waveform of that many more samples |
| `Button.Button.Process` | modules/button/src/button.c:215-298 | which branch is taken, by the waveform, and what it leaves in the button's data |
| `Button.Button.Decide` | modules/button/src/button.c:281-302 | the event exactly, in milliseconds: a press when the input has been high for more than the debounce time, a release when it has been low for it, a hold when one is due; the clicks and repeats; the trace stays a prefix of (PRESSED HOLDING* RELEASED)* and each event follows such a run |
| `Button.Button.Step` | modules/button/src/button.c:263-330 | how many samples are taken, the corrected timestamp, and then the same |
| `Button.Button.StepDelta` | modules/button/src/button.c:332-344 | the same, counted from the last sample |
| `Button.StepAll` | modules/button/src/button.c:263-330 | without timeouts the number of samples depends only on the time that has passed |
| `Button.DeltasExactly` | modules/button/src/button.c:332-344 | when the same holds of steps by deltas |
| `Button.StepDeltas` | modules/button/src/button.c:332-344 | the code takes that many samples for a row of deltas |
| `RateLimit.NeverBelow` | modules/ratelim/src/ratelim.c:14-44 | over every schedule the nominal leakage is at least floor(time * rate / 3600) |
| `RateLimit.ExactWhen` | modules/ratelim/src/ratelim.c:25-41 | it is exactly that over every schedule if and only if the rate divides 3600 or 3600 the rate |
| `RateLimit.InSeconds` | modules/ratelim/src/ratelim.c:14-44 | what leaks in a number of seconds, for a rate by the second, of one token a minute and of one an hour, however the updates divide them |
| `RateLimit.WindowLeaks` | modules/ratelim/src/ratelim.c:14-44 | then a window leaks what its time and a residue of less than one token are worth |
| `RateLimit.WindowWorth` | modules/ratelim/src/ratelim.c:14-44 | the same by the clock: what leaks between two updates follows from the seconds between them and those saved up |
| `RateLimit.Bucket.constructor` | modules/ratelim/src/ratelim.c:113-136 | an empty bucket with the rate per hour |
| `RateLimit.Bucket.Update` | modules/ratelim/src/ratelim.c:14-44 | the load drops by what has leaked, not below zero, and the seconds that are left over are saved; earlier times change nothing |
| `RateLimit.Bucket.RequestOne` | modules/ratelim/src/ratelim.c:51-62 | granted exactly when the bucket is not full after the update |
| `RateLimit.Bucket.Request` | modules/ratelim/src/ratelim.c:75-94 | granted exactly when the tokens fit after the update |
| `RateLimit.Bucket.Full` | modules/ratelim/src/ratelim.c:64-68 | the load drops by what has leaked; whether it has reached the capacity |
| `RateLimit.Serve` | modules/ratelim/src/ratelim.c:51-94 | in any window of requests the tokens granted are at most the capacity and what the window leaks; if the rate divides the hour or the hour the rate, at most the capacity and (seconds * rate + residue) / 3600 with a residue below one token |

## Left out

- HAL interfaces, vendor ports, TLS, logging, CLI, metrics encoding and the other small modules: I/O, formatting, or mostly simple invariants.
- The `FLASH_OVERWRITE` build of the key-value store, and partitions of different sizes or of a size that is no multiple of 256.
- The quality of the two hashes: keys with the same pair of hashes are one key here, and the all-ones pair is excluded.
- Crash atomicity of one `flash_kvstore_write`: its metadata is written before its value, so only compaction carries the claim about every flash operation.
- `apptimer` callbacks do not call back into the module, and the alarm value and the lock are not modelled.
- Weak memory: the steps of `RingSpsc` are sequentially consistent, and `ringbuf_write_cancel` and `ringbuf_resize` are covered sequentially only.
- `ringbuf_create_static` and allocation failure of `ringbuf_create`.
- The lock and unlock hooks of `msgq`, and their errors.
- `actor`: one priority, the default build; with more, each priority has a core of its own and `ActorCore` speaks of each. Handlers run between steps. `has_message` reads the mailbox without its lock; `ActorHalves` takes that read for a step of its own. `actor_unset`, `actor_delete` and `actor_deinit` are not modelled, and callers own the messages and timers they pass.
- `metricfs`: failing reads of the store, and `metricfs_peek` of a given id.
- `button`: enabling, disabling and the table of buttons; parameters stay as they were set.
- `ratelim`: 32-bit overflow of the time buffer times the rate, and `ratelim_request_format`.
