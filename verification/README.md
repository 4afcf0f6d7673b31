# Verified model of the engine

A Dafny model of the parts of a C++ game-server engine that carry state, arithmetic or concurrency:
the hierarchical timing wheel, the chunked byte buffer, the two frame decoders, the writer-first
read/write lock, and the read and write pump of a session. Source paths below are relative to the
repository's root.

`dafny verify dfyconfig.toml` checks everything.

## What is modelled

**Timer** (`Links`, `WheelTiming`, `Ledger`, `Owed`, `Gears`, `Spills`, `Trails`, `Timer`, `TimerRun`). The 512 spokes and the ready list are
circular lists of heap nodes with `prev` and `next` pointers; `Links.dfy` proves that every list
operation of the timer keeps all rings well formed and moves exactly the nodes it should.
`WheelTiming.dfy` is the mixed-radix arithmetic. The clock is an input: each reading is any value not
below the previous one. Callbacks are arbitrary sequences of re-entrant `add_task` and `remove_task` calls.
A ghost ledger keeps the history of every arming, and the theorems are about it, over all runs:

- *Lateness.* After `detect_timer_list`, everything whose deadline lies before the wheel's own time has
  fired or has been removed, and the wheel's own time is less than 10 ms behind the clock reading.
- *Earliness.* The ledger records every placement: the clock reading and the wheel's own time. A callback runs
  early only from wheel 0, and less than the lead of its last placement. If every call of a run ends at most
  L ms ahead of the wheel's own time it started from, no callback of the run is L or more early.
- *Discipline.* Each arming is pending, fired or removed, never two of these. A callback call is one event of the
  history, made by `RunCallback` alone; no arming fires twice, and a one-shot task fires at most once.
- *Order.* Every list is exact at every tick: spokes are emptied in the order of the wheels, their nodes join other
  lists at the back in the order they come, and callbacks follow the ready list. Of two tasks in one list
  that are due at the same time, the first is called first, however often both are cascaded.
- *Index agreement.* `timer_map_` is a bijection onto the linked nodes, each in exactly one ring.

**Buffer** (`Blocks`, `Views`, `AsioBuffer`, `Endian`). A list of byte arrays with two cursors. `contents` is
the queue that the buffer stands for, `tail` the bytes behind it, and `Valid` ties both to the arrays and
all counters to the cursors. Every operation is proved to act on that one queue, through activation, rotation
and growth; views of the buffer show exactly the queue or the tail, and stay right while other operations run.

**Decoders** (`LengthField`, `LengthFieldDecoder`, `Delimiters`, `DelimiterDecoder`). A pure account of what one
call takes from the bytes it is given, with the theorems, and classes whose loops run on the buffer and
are proved to do exactly that. Widths and wrap-around of the C++ sums are explicit.

**Lock** (`RwLock`). A state machine over any set of threads, one step for each section under the mutex.
Spurious wakeups and every choice of `notify_one` are steps. The class is the lock's own code.

**Session** (`Session`, `FrameRun`). Each handler is one step, on real buffers, with the views that the socket holds.
`FrameRun.dfy` puts the length-field decoder on a session: over any interleaving of arriving bytes, posted calls and
writes, the frames fired are those of the stream as the calls cut it.

`Words`, `Sequences` and `Seals` hold what several parts share. A condition under a seal is kept as one fact until a
proof opens it; this keeps the large invariants out of small proofs.

## Where the code does not do what one would expect

Each is modelled as the code has it, with a lemma that says exactly when.

- A timer can fire early: wheel 0 is drained without looking at the clock. `EarlyIff` says exactly when. With calls
  30 s apart (`engine/net/net_manager.h`) a 2 s timer can fire a second early (`EarlyRun`, a run of the timer).
- The shrink arm of `adjust_buffer` drops blocks without taking them off `writable_bytes_` and without looking at the
  queue. The counters agree after `adjust_buffer` if and only if that arm does not fire, and the blocks then left
  have room for the queue, the new bytes and one more exactly if `Gauge.Fits` says so, from six numbers known before
  the call (`AdjustBuffer`). While the counters are exact every call fits that drops nothing (`FitsUndropped`); once
  blocks have been dropped some call runs past the last one (`SlackOverruns`). An append of nothing can drop the
  block that the write cursor stands in (`ShrinkLoses`).
- A session stops reading for good if the decoder waits for more bytes than the read mark lets in, or finds a frame too
  long that reaches the mark (`KeepsReading`). `MarkExactly` says which marks are high enough for frames in the making.
- What the length-field decoder fires can depend on how the stream was cut, if a call returns from one of
  its two discard arms and a later call goes on (`SplitExactly`, `StreamExactly`, `SplitExample`). `AlwaysAgrees` says
  for which configurations that never happens; it can happen with every eight-byte length field.
- A frame that ends with its length field waits for the next byte, because the check at line 131 is `<=` (`RoundTrip`).
- The loop of the delimiter decoder never ends on bytes that no delimiter closes in time (`ReturnsExactly`);
  with a maximum of 2^31 - 1 or more it never fires at all (`HugeMaximum`).
- The lock lets everybody through once threads stop coming back, but one writer that keeps coming back can hold off
  readers and even another writer forever (`EveryoneGetsThrough`, `Starvation`).

## Model

| member | source | states |
|---|---|---|
| Timers.Timer.DetectTimerList | engine/common/timer.h:126-150 | for every reading of the clock: afterwards the wheel's own time is in the last 10 ms before the reading; every arming due before it has fired or been removed, whichever wheel it started in and however often it was cascaded, and so has every arming whose slot of wheel 0 has been emptied, due or not; the lists go from tick to tick exactly as the spokes spill, and callbacks are called in the order of the ready list so built; what fired was made before the call and fired at the reading or later; every placement is an old one or was made in the call, and one into wheel 0 is the last |
| Timers.Timer.FiringDiscipline | engine/common/timer.h:152-295 | over every run: a callback that ran early was last placed in wheel 0, by a clock ahead of the wheel's own time by more than rounding to ticks makes good, and ran less than this lead too early; each arming is exactly one of pending, fired, removed; no arming's callback is called twice, and of a one-shot task none at all after the first, which has then left the map; a circular task stays until removed; deadlines are arming time plus interval |
| Timers.Timer.InOrder | engine/common/timer.h:126-295 | of two nodes that were in one list when `detect_timer_list` began and are due at the same time, the first in the list is called first, through all ticks and cascades, unless one of them is not called |
| Timers.Timer.EarlyIff | engine/common/timer.h:134-142 | as long as its deadline lies ahead an arming that was not removed has fired if and only if it was placed in wheel 0 and the wheel's own time has passed its slot there |
| TimerRuns.TimerRun.Earliness | engine/common/timer.h:126-295 | for every L: if every public call so far ended at most L ms ahead of the wheel's own time it started from, no callback has run L or more before its deadline |
| TimerRuns.TimerRun.DetectTimerList | engine/net/net_manager.h:55-73 | the lead of a run grows by exactly this call's, and every placement of the run is within it |
| TimerRuns.TimerRun.AddTask | engine/net/net_manager.h:145-156 | the lead of a run grows by exactly this call's, and every placement of the run is within it |
| TimerRuns.EarlyRun | engine/net/net_manager.h:55-59 | a run of the timer: with calls 30 s apart a 2 s task added in the 29th second fires before its deadline, unless the clock passes it during the call |
| Ledgers.SlotEarly | engine/common/timer.h:224-236 | a slot of wheel 0 is emptied less than the lead before the deadline, and before it at all if and only if the lead exceeds what rounding to ticks makes good |
| Timers.Timer.IndexAgreement | engine/common/timer.h:152-295 | at every step the map is a bijection onto the linked nodes, each node is in exactly one ring and once in it, and its neighbours point back at it |
| Timers.Timer.AllFired | engine/common/timer.h:126-150 | in every state between public calls nothing is pending that is due by the wheel's own time or whose slot of wheel 0 has been emptied |
| Timers.Timer.Tick | engine/common/timer.h:133-148 | one tick advances every wheel to where the new count of ticks puts it, fires nothing and loses nothing; which spokes it empties, and that the spoke of wheel 0 and then the due nodes of the cascaded spokes, in their order, go to the end of the ready list, and all others in their order to the end of their lists |
| Timers.Timer.Advance | engine/common/timer.h:143-147 | wheel 0 leaves its drained spoke and the cascades that follow leave all five wheels where the tick count puts them, and empty just the spokes they pass |
| Timers.Timer.Drain | engine/common/timer.h:134-142 | the nodes of the spoke wheel 0 stands at go to the end of the ready list, in their order; every other ring stays |
| Timers.Timer.Cascade | engine/common/timer.h:194-222 | the spokes that the wheels pass, from this one up to the first that does not come round, are emptied one after the other, each node to the back of a list, in order; due nodes, by a reading of this cascade, to the ready list; every node is in a slot due in time, placed at the wheel's own time |
| Timers.Timer.Redistribute | engine/common/timer.h:205-215 | every node of the cut-off chain joins the end of its list in chain order: the ready list exactly if due, else the spoke for what is left of its interval, in the same or a lower wheel; this reading and the wheel's own time become its placement |
| Timers.Timer.Rehang | engine/common/timer.h:206-214 | one cascaded node becomes the last of the ready list exactly if due, else of the spoke for what is left, and all other lists stay; the history records just this placement |
| Timers.Timer.AddTimerNode | engine/common/timer.h:224-263 | the node is linked last in a slot that a higher wheel empties no later than the deadline, and wheel 0 in exactly the tick that the placement determines |
| Timers.Timer.AddTask | engine/common/timer.h:152-162 | a new id, mapped to a new node due the interval after the clock, which is the last in the spoke for its interval; all else stays |
| Timers.Timer.RemoveTask | engine/common/timer.h:164-183 | the id leaves the map and its node its ring, even the ready list while it drains, with all others in their order; an unknown id changes nothing |
| Timers.Timer.FireNext | engine/common/timer.h:277-291 | the first ready node is armed anew or leaves the map, and its callback is called exactly once; the walk goes on with what is then first |
| Timers.Timer.RunCallback | engine/common/timer.h:289 | one call of one arming's callback is one more firing in the history, at the clock; whatever adds and removes it makes, every invariant holds again, nothing else fires, and the ready list has only lost nodes that were removed |
| Timers.Timer.DoTimeoutCallback | engine/common/timer.h:274-295 | the drain ends with the ready list empty, whatever the callbacks do; its armings fire in list order, all but those that callbacks remove |
| Timers.Timer.FireCircle | engine/common/timer.h:279-281 | a circular task keeps its id and is armed anew from the current clock, last in the spoke for its interval; the history grows by just this arming and its placement, and the callback may then be called |
| Timers.Timer.FireOnce | engine/common/timer.h:282-288 | a one-shot task leaves the map, and the callback may then be called |
| WheelTiming.PlacedTurn | engine/common/timer.h:224-257 | the selected spoke lies the interval ahead in whole spokes and never a full round away, in 32-bit arithmetic |
| WheelTiming.PlacedDue | engine/common/timer.h:224-257 | a slot is next emptied at most the interval after its node was put there, and in wheel 0 exactly one tick after it |
| WheelTiming.TurnKept | engine/common/timer.h:143-147 | a turn of a wheel leaves the time at which every other spoke is next emptied |
| WheelTiming.DueLater | engine/common/timer.h:133-148 | between ticks every slot of every wheel is due strictly later |
| WheelTiming.Carry | engine/common/timer.h:217-220 | the next wheel must turn exactly when this one turns and comes round |
| WheelTiming.TickTurns | engine/common/timer.h:143-147 | after n ticks a wheel has made n divided by its unit turns |
| Trails.TickOn | engine/common/timer.h:133-148 | draining wheel 0 and turning the wheels makes one tick of the exact relation between the lists before and after |
| Trails.StageOrder | engine/common/timer.h:133-148 | a tick keeps two nodes of one list that are due at the same time together and in order |
| Spills.SpilledOrder | engine/common/timer.h:205-215 | emptying spokes keeps the order of what stays together |
| Obligations.SettledLater | engine/common/timer.h:205-215 | as time passes a cascaded node belongs to the same wheel or a lower one |
| Obligations.NoneLate | engine/common/timer.h:126-150 | lists, index and history in agreement leave nothing overdue |
| Gears.PlacedSlotted | engine/common/timer.h:224-263 | whichever wheel it selects, a placement is in time, and in wheel 0 its slot is emptied at exactly the time that reading and deadline determine |
| Links.Lists.Append | engine/common/timer.h:258-262 | the node becomes the last of one ring; all other rings stay |
| Links.Lists.Discard | engine/common/timer.h:171-181 | the node leaves its ring; all other nodes stay in order |
| Links.Lists.ShiftToReady | engine/common/timer.h:136-142 | the first node of a spoke becomes the last of the ready list, and the walk goes on with the next |
| Links.Lists.Cut | engine/common/timer.h:202-207 | the spoke's ring is empty, and its nodes can still be walked to the header in their old order |
| Links.Lists.Close | engine/common/timer.h:293-294 | the ready list is a ring of its own again |
| Links.Layout.AppendShape | engine/common/timer.h:258-262 | linking in keeps every ring threaded |
| Links.Layout.RemoveShape | engine/common/timer.h:172-177 | linking out keeps every ring threaded |
| Ledgers.Ledger.AddGood | engine/common/timer.h:152-162 | an addition keeps the history accounted, dated and disciplined |
| Ledgers.Ledger.RenewGood | engine/common/timer.h:279-281 | so does firing a circular task |
| Ledgers.Ledger.RetireGood | engine/common/timer.h:282-288 | so does firing a one-shot task |
| Ledgers.Ledger.CancelGood | engine/common/timer.h:164-183 | so does a removal |
| Ledgers.Ledger.ReplaceGood | engine/common/timer.h:206-214 | so does placing a cascaded node anew |
| AsioBuffers.AsioBuffer.constructor | engine/net/asio_buffer.cpp:5-23 | an empty queue on a one-byte block, and the block size rounded up to a multiple of 512, for any initial size |
| AsioBuffers.AsioBuffer.CheckActive | engine/net/asio_buffer.cpp:29-41 | activation changes no byte of the queue or of the byte already put behind it |
| AsioBuffers.AsioBuffer.AdjustBuffer | engine/net/asio_buffer.cpp:43-78 | for every buffer and length, dropping blocks included: how many blocks there are afterwards; the counters agree with them as before if and only if the shrink arm does not fire; the blocks have room for the queue, `len` bytes and one more if and only if the call fits, and then the queue is in the same blocks and the bytes behind it are the same |
| AsioBuffers.Gauge.FitsUndropped | engine/net/asio_buffer.cpp:43-93 | with exact counters every call that drops no block stays inside the blocks, and leaves a byte |
| AsioBuffers.Gauge.MoreLeast | engine/net/asio_buffer.cpp:70-93 | the blocks added are the fewest that leave room for the bytes and an eighth of a block |
| AsioBuffers.Gauge.AdjustExactly | engine/net/asio_buffer.cpp:52-78 | how many blocks a call leaves and how its use is counted, in the counters alone: more than three blocks and room enough, ten times in a row, and a quarter of them goes |
| AsioBuffers.Gauge.LowExactly | engine/net/asio_buffer.cpp:55 | while the counters are exact the comparison of line 55 always holds |
| AsioBuffers.SlackOverruns | engine/net/asio_buffer.cpp:43-66 | on any buffer that has ever dropped a block, a run of `adjust_buffer` for some length within the counted room, after which the blocks have no room for it |
| AsioBuffers.AsioBuffer.SlackExactly | engine/net/asio_buffer.cpp:55-66 | the counters are exact if and only if no block has ever been dropped, and after that there is a length that does not fit |
| AsioBuffers.AsioBuffer.CountUse | engine/net/asio_buffer.cpp:55-66 | blocks are dropped exactly on the tenth use in a row that counts as low; the queue stays if its end is in the blocks that are left |
| AsioBuffers.AsioBuffer.Grow | engine/net/asio_buffer.cpp:70-77 | exactly as many blocks are added as the missing bytes need, and one more if an eighth of a block would not be left |
| AsioBuffers.AsioBuffer.Rotate | engine/net/asio_buffer.cpp:45-50 | moving read blocks to the back changes neither queue nor order of the space behind it |
| AsioBuffers.AsioBuffer.CheckToAddBlock | engine/net/asio_buffer.cpp:86-93 | a block is added exactly if less than an eighth of one would be left |
| AsioBuffers.AsioBuffer.DropBlocks | engine/net/asio_buffer.cpp:59-64 | the shrink loop drops a quarter of the blocks, rounded down, and only the total follows them |
| AsioBuffers.ShrinkLoses | engine/net/asio_buffer.cpp:43-66 | that run and the next `adjust_buffer`: the blocks left hold fewer bytes than the queue has, and the write cursor's block is gone |
| AsioBuffers.ShrinkReached | engine/net/asio_buffer.cpp:55-66 | a run of appends after which one of nothing is due to drop blocks and does not fit |
| AsioBuffers.AsioBuffer.Append | engine/net/asio_buffer.cpp:123-157 | whenever the call fits: the bytes are added at the back of the queue, the blocks that hold it stay, and the numbers that decide the next call are exactly known, dropped blocks included |
| AsioBuffers.AsioBuffer.Peek | engine/net/asio_buffer.cpp:159-192 | the first bytes of the queue, at most all |
| AsioBuffers.AsioBuffer.Retrieve | engine/net/asio_buffer.cpp:194-206 | bytes are taken from the front, at most all; the callback runs exactly if one is set and the queue is then below the mark, and is then unset |
| AsioBuffers.AsioBuffer.HasWritten | engine/net/asio_buffer.cpp:208-221 | whenever the call fits: the first bytes put behind the queue become its last, at most as many as the counter allows |
| AsioBuffers.AsioBuffer.Read | engine/net/asio_buffer.h:83-88 | what is returned and what is left is the old queue |
| AsioBuffers.AsioBuffer.MutableBuffer | engine/net/asio_buffer.cpp:223-238 | the views lie side by side from the write cursor to the end and show the whole tail |
| AsioBuffers.AsioBuffer.ConstBuffer | engine/net/asio_buffer.cpp:240-262 | the views lie side by side from the read cursor and show the whole queue |
| AsioBuffers.AsioBuffer.ReadRound | engine/net/asio_buffer.cpp:208-238 | an asynchronous read: what arrives in views taken before is added to the queue, whatever was taken from it meanwhile, the one-byte first round included, unless the call would run past the blocks |
| AsioBuffers.AsioBuffer.WriteRound | engine/net/asio_buffer.cpp:123-262 | an asynchronous write: views stay those of the bytes to send while others append; sent and left is all there was |
| AsioBuffers.AsioBuffer.AppendEndian | engine/net/asio_buffer.h:33-39 | on either host the digits of the value are appended in the wire order asked for |
| AsioBuffers.AsioBuffer.PeekIndexEndian | engine/net/asio_buffer.h:54-67 | on either host the value that the bytes at an index have on the wire |
| AsioBuffers.AsioBuffer.PeekEndian | engine/net/asio_buffer.h:69-75 | the value at the front, 0 if there are too few bytes |
| AsioBuffers.AsioBuffer.ReadEndian | engine/net/asio_buffer.h:130-142 | the value at the front is taken; too few bytes are taken as well and read as 0; the callback runs exactly if one is set and the queue is then below the mark |
| AsioBuffers.AsioBuffer.TypedRoundTrip | engine/net/asio_buffer.h:33-67 | a value appended on one host and peeked on another is the same value, wherever its bytes lie |
| Blocks.AdjustIndex | engine/net/asio_buffer.cpp:104-121 | the cursor moves by `len` positions of the run and ends inside a block |
| Blocks.CopyBlocks | engine/net/asio_buffer.cpp:132-151 | exactly the bytes from the cursor on are overwritten, across blocks |
| Blocks.TakeBlocks | engine/net/asio_buffer.cpp:168-190 | the bytes of the run from the cursor on, across blocks |
| Blocks.HoldsRotated | engine/net/asio_buffer.cpp:45-50 | a read block at the back extends the tail and leaves the queue |
| Views.TilesGather | engine/net/asio_buffer.cpp:223-262 | views that lie side by side show one stretch of the run |
| Views.TilesMoved | engine/net/asio_buffer.cpp:43-53 | views stay in place when blocks go to the back or are added there |
| Views.Deliver | engine/net/session.h:184-185 | bytes that a socket puts in the views, in order, land from the write cursor on |
| Endian.ChangeEndian | engine/net/endian.h:21-32 | the result has the value's bytes in memory, reversed |
| Endian.AdaptedBytes | engine/net/endian.h:34-43 | on either host the adapted value lies in memory in the order asked for |
| Endian.AdaptedValue | engine/net/endian.h:34-43 | adapting what bytes mean on this host gives what they mean on the wire |
| Endian.AdaptedTwice | engine/net/endian.h:34-43 | adapting is its own inverse |
| Endian.DigitsRoundTrip | engine/net/endian.h:21-43 | the digits of a value, read back, are the value |
| Endian.DigitAt | engine/net/endian.h:34-43 | digit i of a value is its quotient by the power of 256 that is its weight: most significant first in big-endian order, least significant first in little-endian order |
| Endian.FromDigitsWeighed | engine/net/asio_buffer.h:54-67 | a value read from bytes is the sum of each times its weight in the order asked for |
| LengthField.AdjustedWraps | engine/handler/length_field_base_frame_decoder.h:143 | the computed length is the 32-bit and then 64-bit wrapped sum |
| LengthField.ByLength | engine/handler/length_field_base_frame_decoder.h:130-178 | all five outcomes on the bytes: a length below the end offset drops just the bytes up to there and returns; one above the maximum takes nothing; an incomplete frame waits; a frame shorter than the strip is dropped whole; any other is fired without its first bytes, and decoding goes on behind it |
| LengthField.TooShort | engine/handler/length_field_base_frame_decoder.h:131-133 | up to the end of the length field nothing is taken |
| LengthField.Begins | engine/handler/length_field_base_frame_decoder.h:135-143 | every longer input is a header, the digits of a field value and more bytes |
| LengthField.StepKept | engine/handler/length_field_base_frame_decoder.h:130-178 | more bytes change a decision of the loop only if it was to wait |
| LengthField.SplitExactly | engine/handler/length_field_base_frame_decoder.h:126-179 | decoding after each of two chunks equals decoding both at once, if and only if the first call does not return from a discard arm or what it left cannot go on |
| LengthField.SplitExample | engine/handler/length_field_base_frame_decoder.h:145-150 | a stream whose frames depend on how it was cut |
| LengthField.StreamExactly | engine/net/session.h:222-223 | with a call after each arriving chunk, any number of chunks give the frames and the leftover of one call on all of it, if and only if after the first call that discards no later call does anything |
| LengthField.ChunkIndependence | engine/net/session.h:222-223 | a stream that reaches no discard arm gives the same frames and leftover in any chunks |
| LengthField.NoDiscard | engine/handler/length_field_base_frame_decoder.h:138-170 | no stream at all reaches a discard arm if and only if the length field is not eight bytes, the adjustment not negative, the 32-bit sum fits, and the strip is at most the shortest frame or that frame is too long |
| LengthField.AlwaysAgrees | engine/handler/length_field_base_frame_decoder.h:126-179 | every stream gives the same frames and leftover in every chunking if and only if the configuration is one of these |
| LengthField.FieldExactly | engine/handler/length_field_base_frame_decoder.h:143 | which field value says a frame's length: the bytes behind the field less the adjustment, or in eight bytes that value wrapped round |
| LengthField.EncodeLook | engine/handler/length_field_base_frame_decoder.h:130-163 | an encoded packet in front is cut off as soon as a byte follows its length field |
| LengthField.RoundTrip | engine/handler/length_field_base_frame_decoder.h:126-179 | concatenated packets are decoded in order with their headers stripped, and then what follows, if and only if a byte follows the last length field |
| LengthField.StreamRoundTrip | engine/handler/length_field_base_frame_decoder.h:126-179 | the packets sent in any chunks are decoded to their stripped frames with nothing left, if and only if a byte follows the last length field |
| LengthField.Reassembly | engine/handler/length_field_base_frame_decoder.h:130-178 | for every configuration, wrapped sums included: whatever is fired comes from packets whose fields say their lengths and that, with the leftover, are the input |
| LengthField.WholeFrame | engine/handler/length_field_base_frame_decoder.h:14-24 | documented configuration 1, with its two length bytes, for every content that they can count and every sufficient maximum |
| LengthField.LengthStripped | engine/handler/length_field_base_frame_decoder.h:26-37 | documented configuration 2, with its two length bytes, for every content that they can count and every sufficient maximum |
| LengthField.LengthOfAll | engine/handler/length_field_base_frame_decoder.h:39-50 | documented configuration 3, with its two length bytes, for every content that they can count and every sufficient maximum |
| LengthField.HeaderBefore | engine/handler/length_field_base_frame_decoder.h:52-63 | documented configuration 4, with its two length bytes, for every content that they can count and every sufficient maximum |
| LengthField.HeaderBehind | engine/handler/length_field_base_frame_decoder.h:65-76 | documented configuration 5, with its two length bytes, for every content that they can count and every sufficient maximum |
| LengthField.HeadersAround | engine/handler/length_field_base_frame_decoder.h:78-89 | documented configuration 6, with its two length bytes, for every content that they can count and every sufficient maximum |
| LengthField.HeadersCounted | engine/handler/length_field_base_frame_decoder.h:91-102 | documented configuration 7, with its two length bytes, for every content that they can count and every sufficient maximum |
| LengthFieldDecoders.LengthFieldBaseFrameDecoder.Decode | engine/handler/length_field_base_frame_decoder.h:126-179 | the loop on the buffer ends, fires the frames of the pure account and leaves its leftover in the buffer; the high-water callback runs, once, exactly if bytes were taken and the rest is below the mark |
| LengthFieldDecoders.LengthFieldBaseFrameDecoder.GetUnadjustFrameLength | engine/handler/length_field_base_frame_decoder.h:181-207 | the value of the field's bytes, for each of the four widths |
| Delimiters.EarliestMeans | engine/handler/delimiter_based_frame_decoder.h:48-56 | the loop finds the first place where any delimiter occurs, and there the first in the list, or nothing if none is near enough |
| Delimiters.Reassembly | engine/handler/delimiter_based_frame_decoder.h:43-79 | bodies, delimiters and leftover are the input; every cut is at the first delimiter; the loop spins exactly if something is left, which no delimiter closes in time |
| Delimiters.CleanExactly | engine/handler/delimiter_based_frame_decoder.h:43-79 | a stream of bodies and delimiters is cut into just these, if and only if each body is short enough and closed by the first delimiter that occurs, overlaps included |
| Delimiters.ReturnsExactly | engine/handler/delimiter_based_frame_decoder.h:47-78 | a call returns if and only if the input is such a stream to its end |
| Delimiters.OneDelimiter | engine/handler/delimiter_based_frame_decoder.h:43-79 | with one delimiter, the bodies themselves, or with the delimiter if it is not stripped, are fired from the delimited bodies and the call returns, if and only if the delimiter can close each body |
| Delimiters.HugeMaximum | engine/handler/delimiter_based_frame_decoder.h:48 | the signed sum is positive exactly for maxima below 2^31 - 1, and without that nothing is ever fired |
| Delimiters.BoundMeans | engine/handler/delimiter_based_frame_decoder.h:48 | a length is below the bound if and only if it is at most the maximum and the sum is positive |
| Delimiters.MaximumExactly | engine/handler/delimiter_based_frame_decoder.h:43-79 | one body of at most the maximum is fired and the call returns; with a byte more nothing is fired and it does not |
| DelimiterDecoders.DelimiterBasedFrameDecoder.ValidateDelimiters | engine/handler/delimiter_based_frame_decoder.h:82-86 | refused exactly if some delimiter is empty |
| DelimiterDecoders.DelimiterBasedFrameDecoder.IndexOf | engine/handler/delimiter_based_frame_decoder.h:88-110 | the first occurrence, and -1 exactly if there is none, the early exit included |
| DelimiterDecoders.DelimiterBasedFrameDecoder.FindCut | engine/handler/delimiter_based_frame_decoder.h:48-56 | the cut of the pure account, never longer than the maximum |
| DelimiterDecoders.DelimiterBasedFrameDecoder.Decode | engine/handler/delimiter_based_frame_decoder.h:43-79 | the loop on the buffer fires the frames of the pure account, leaves its leftover, and spins exactly when it does; the high-water callback runs, once, exactly if bytes were taken and the rest is below the mark; lines 61-66 are not reached |
| RwLocks.InvStep | engine/common/wfirst_rw_lock.h:20-53 | every section keeps: counters are those of the threads, a writer is alone, without writers no reader sleeps, a free lock that writers sleep for has an awake writer |
| RwLocks.ReachableInv | engine/common/wfirst_rw_lock.h:20-53 | so it is in every state that any threads can reach |
| RwLocks.Choices | engine/common/wfirst_rw_lock.h:20-53 | what each thread can do next, by where it is |
| RwLocks.ReadAttempt | engine/common/wfirst_rw_lock.h:20-25 | a reader gets in, at once or later, if and only if no writer has or wants the lock, and else sleeps; nobody else moves |
| RwLocks.WriteAttempt | engine/common/wfirst_rw_lock.h:35-41 | a writer gets in, at once or later, if and only if nobody has the lock, and else sleeps; nobody else moves |
| RwLocks.ReadRelease | engine/common/wfirst_rw_lock.h:27-33 | the last reader out wakes one sleeping writer if there is one, and nobody else wakes |
| RwLocks.WriteRelease | engine/common/wfirst_rw_lock.h:43-53 | a writer out wakes all sleeping readers if no other writer has or wants the lock, else one sleeping writer if there is one, and nobody else |
| RwLocks.SpuriousWake | engine/common/wfirst_rw_lock.h:20-41 | a wakeup without cause wakes that sleeper only |
| RwLocks.WriterPriority | engine/common/wfirst_rw_lock.h:20-53 | on any run along which some writer has or wants the lock, the readers in it only get fewer |
| RwLocks.NoLostWakeup | engine/common/wfirst_rw_lock.h:20-53 | if nobody has the lock and somebody waits, a waiting thread is awake and gets it with its next attempt |
| RwLocks.EveryoneGetsThrough | engine/common/wfirst_rw_lock.h:20-53 | threads that only unlock and try again take a bounded number of steps, in any order and with any choice of whom to notify, and can stop only when all are idle |
| RwLocks.Starvation | engine/common/wfirst_rw_lock.h:35-53 | from a reachable state, laps of one writer, as many as one likes, after which a reader and another writer still wait |
| RwLocks.WfirstRwLock.ReadLock | engine/common/wfirst_rw_lock.h:20-25 | the section does the step, and lets the thread in exactly if it then reads |
| RwLocks.WfirstRwLock.ReadUnlock | engine/common/wfirst_rw_lock.h:27-33 | the section does the step, and notifies exactly if no reader is left and a writer counts |
| RwLocks.WfirstRwLock.WriteLock | engine/common/wfirst_rw_lock.h:35-41 | the section does the step, and lets the thread in exactly if it then writes |
| RwLocks.WfirstRwLock.WriteUnlock | engine/common/wfirst_rw_lock.h:43-53 | the section does the step, and wakes the readers exactly if no writer is left |
| Sessions.Session.constructor | engine/net/session.h:19-66 | a session starts with one read in flight and nothing to send |
| Sessions.Session.Write | engine/net/session.h:114-171 | an append and its notification keep: sent and buffered is appended, the pending length is the buffered one, waiting bytes have a write in flight or posted |
| Sessions.Session.RunWrite | engine/net/session.h:166-249 | a posted call starts a write if there is none, never a second one |
| Sessions.Session.HandleWrite | engine/net/session.h:251-290 | the bytes sent are the next ones appended, and as long as bytes are left a write is in flight |
| Sessions.Session.Flush | engine/net/session.h:162-290 | running what is posted and completing what is in flight sends everything appended, in order |
| Sessions.Session.HandleRead | engine/net/session.h:188-227 | what arrives is added to the read buffer, and the one read token is in flight again or parked, exactly as the mark says |
| Sessions.Session.Take | engine/net/session.h:214-220 | as many bytes are taken as asked for, at most all, and none is lost; a parked token is back in flight exactly if the buffer is then below the mark |
| Sessions.Session.FinishRead | engine/net/session.h:222-227 | the end of a posted read keeps every invariant and the count of handlers |
| FrameRuns.FrameRun.HandleRead | engine/net/session.h:188-227 | arriving bytes wait for the call that is posted with them; no frame is fired |
| FrameRuns.FrameRun.FireRead | engine/net/session.h:222-227 | one posted call fires the frames of the stream cut here, whatever has arrived since the call before; the buffer keeps the rest, and the callback may start the next read |
| FrameRuns.FrameRun.AllDecoded | engine/net/session.h:188-227 | for every interleaving of reads, posted calls and writes: with no call left, frames and leftover are those of one call on all that has arrived, if and only if after the first call that discarded no later one did anything; always so for configurations that never discard |
| FrameRuns.FrameRun.PacketsFired | engine/handler/length_field_base_frame_decoder.h:126-179 | packets that a peer has sent are fired in order without their first bytes, over a session and however they arrive, if and only if a byte follows the last length field |
| FrameRuns.FrameRun.KeepsReading | engine/net/session.h:214-220 | with no call left, a read is in flight if and only if the leftover is below the mark; with a sufficient mark and a configuration that never discards only a frame that is too long stops the session |
| FrameRuns.MarkExactly | engine/handler/length_field_base_frame_decoder.h:130-160 | bytes that wait for the rest of their frame stay below the mark if and only if it exceeds the end offset and is at least the maximum, provided a frame can be that long |

## Left out

- asio sockets and service threads, resolver, acceptor, logging, the Lua binding and `net_manager`: foreign calls.
- `any`, `raii`, `data_block`, the pipeline and context forwarding, the service pool and the server's session maps: only easy members.
- The session's error and close paths: after an error or a close several arms can report the close. The model stops before the first one.
- Timers.Timer.DetectTimerList: assumes that the clock does not run backwards and that fewer than 2^32 ticks have passed since the last call, because the loop counter has 32 bits; a callback does not call it again.
- Timers.Timer.AddTask: task ids and 64-bit deadlines do not wrap around in the model. The class for one wheel is folded into a sequence of spoke indices and one table of rings.
- AsioBuffers.AsioBuffer.Append: requires that the call stays inside the blocks (`Gauge.Fits`); past the last one the C++ dereferences the end of its list, which has no defined meaning. `HasWritten`, `WriteRound`, `AppendEndian`, `TypedRoundTrip`, `Sessions.Session.Write`, `Sessions.Session.HandleRead` and the steps of `FrameRun` require the same.
- AsioBuffers.AsioBuffer.PeekIndexEndian: requires what the source asserts, that enough bytes are there. For `Peek`, `Retrieve` and `HasWritten`, which assert and then clamp, the clamp is modelled.
- `read_buffer()` and `write_buffer()`, other forms of the views; `read_buffer()` gives the last block's full length instead of the part that was written.
- Floating-point types in the typed reads and writes.
- LengthField.Config: configurations that run into a fatal log line are excluded, and with them an offset and width whose sum wraps.
- DelimiterDecoders.DelimiterBasedFrameDecoder.IndexOf: the conversion of positions from 2^31 on to `int` is not modelled.
- Races on fields that two threads use without a lock: every buffer operation and every handler is one step.
- The session's handler for the write high-water mark, which is called with the number of writable bytes.
