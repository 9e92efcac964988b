# A verified model of the areaDetector core

The areaDetector crates of this workspace move camera frames: arrays are allocated from
a pool with a byte limit, converted, re-laid and cropped, held in pre-trigger rings,
annotated and plotted. This project models that code in Dafny and proves what it is
for, over all inputs, all runs and, for the pool, all interleavings.
`dafny verify dfyconfig.toml` checks everything.

## Parts

- **The array pool.** `PoolSteps` is a step machine for any number of threads: each lock
  section, load, compare-and-swap and counter update is a step. `Pool` is the sequential
  specification, `PoolClass` the class with its loops proved against it, and `PoolSolo`
  shows that a thread of the machine running alone does the sequential operations.
  `FreeList` and `Counters` hold what they share: best fit, largest, 32-bit counters.
- **Buffers and persistent arrays.** `DataBuffer` is the charge-limited buffer and
  `Elements` the integers in its bytes; `Persistent` is the machine of a persistent
  array, its publishes and their one charge, and `PersistentPool` that machine beside
  the pool it is charged to.
- **The N-dimensional conversion.** `ConvertSpec` says, element by element, what a
  conversion is; `ConvertRows`, `BinKernels`, `FloatCast`, `SourceRows` and `Convert`
  prove the row-by-row code equal to it, for integer and float sources; `PoolConvert`
  puts its output in the pool; `ConvertAlgebra` and `ConvertChain` prove its algebra.
- **The circular buffer** (`CircularBuffer`): properties of the whole forwarded stream.
- **Index and rational arithmetic.** `Shuffle` and `Lanes` (byte tables), `RgbLayout` and
  `RgbRows` (RGB layouts), `Yuv` (BT.601 round trip), `Crop` (region copies), `Civil`
  (calendar dates).
- **Two structures refined.** `AttributeList` is an insertion-ordered map; `AttrPlot`
  keeps aligned rings and bindings by name.
- `Arith`, `Sums`, `ElementTypes`, `Arrays` and `Wrappers` hold what is underneath.

## How things are modelled

- A w-bit integer element is an integer with every cast and add reduced modulo 2^w
  explicitly; a float element is a rational, NaN or an infinity.
- A vector is a sequence of lanes, of any number of lanes; elements lie in a buffer
  little-endian.
- The 1.5 threshold test is `2 * charge > 3 * request`.
- The trigger expression's outcome and whether a frame could be copied are inputs of each
  push; which attribute values are numeric is part of a frame; the bytes an array is
  refilled with are arbitrary.
- A conversion has at least one dimension and a source buffer as long as its dimensions
  say; a crop is given the layout that describes the frame's dimensions.
- Cumulative offsets only add, as documented, so after a binned or mirrored conversion
  they are in general not the offset in the original source:
  `ConvertChain.MetadataTwice` says exactly when they are.

## Where the code and its description part

- `rebuild_attributes` is described as keeping selections by name. It does not for an
  attribute named `UID`, the label it also uses for the id ring: `AttrPlot.ReboundKeeps`
  has the exact condition and `AttrPlot.UidNamedAttributeLost` a run.

## Model

| member | source | states |
|---|---|---|
| `PoolSteps.StepInv` | crates/ad-core-rs/src/ndarray_pool.rs:185-306 | every lock section, load, compare-and-swap and counter update of any thread, from any state that keeps the accounting, keeps it: charges in free, live and in-transit buffers, both counters up to steps in flight, one lock holder |
| `PoolSteps.RunInv` | crates/ad-core-rs/src/ndarray_pool.rs:185-429 | the accounting holds in every state of every interleaving of allocations, drops and emptyings by any number of threads |
| `PoolSteps.RunWithinLimit` | crates/ad-core-rs/src/ndarray_pool.rs:244-306 | at every step of every interleaving the charged bytes are live + free + in-transit charges, never above a non-zero limit, and live arrays are charged between what they asked for and 1.5 times that |
| `PoolSteps.Quiescent` | crates/ad-core-rs/src/ndarray_pool.rs:185-429 | whenever all threads are idle, bytes and both 32-bit counters are exact (modulo 2^32) and the lock is free |
| `PoolSteps.SearchTakes` | crates/ad-core-rs/src/ndarray_pool.rs:204-232 | the locked search: a free buffer of at least the request and at most 1.5 times it is taken, the least of them; else the smallest that holds the request, if any, leaves the list |
| `Counters.CountIs` | crates/ad-core-rs/src/ndarray_pool.rs:67-68 | a counter shows a count below 2^32 as it is, and wraps there |
| `Pool.AllocIff` | crates/ad-core-rs/src/ndarray_pool.rs:191-306 | an allocation of a whole number of elements succeeds if and only if live bytes + request fit the limit; success adds one live array and a refusal leaves every live one alone and the free list empty; other sizes are refused with no change |
| `Pool.AllocHolds` | crates/ad-core-rs/src/ndarray_pool.rs:204-242 | a successful allocation, fresh, reused or retyped, holds exactly the requested elements and type, with a charge from the request to 1.5 times it, the buffer inside its charge |
| `Pool.AllocReuses` | crates/ad-core-rs/src/ndarray_pool.rs:204-242 | if some free buffer is at least the request and at most 1.5 times it, the allocation succeeds by taking exactly one, the smallest that holds the request and the first of equals, with its bytes; nothing is charged, counted or evicted |
| `Pool.AllocReplaces` | crates/ad-core-rs/src/ndarray_pool.rs:213-224 | if the free buffers that hold the request are all over 1.5 times it, the smallest of them is freed and a fresh array of zeros charged exactly the request |
| `Pool.AllocMakes` | crates/ad-core-rs/src/ndarray_pool.rs:244-306 | if none holds the request a fresh array of zeros is charged exactly the request; with room no free buffer is touched, else no choice that makes room has fewer buffers than were evicted |
| `Pool.EvictsFewest` | crates/ad-core-rs/src/ndarray_pool.rs:254-274 | no choice of free buffers that reclaims enough has fewer buffers than largest-first eviction removes |
| `Pool.ReleaseInv` | crates/ad-core-rs/src/ndarray_pool.rs:376-391 | dropping a live array moves its charge to the free list and changes no byte count |
| `Pool.EmptyFreeInv` | crates/ad-core-rs/src/ndarray_pool.rs:419-429 | emptying the free list leaves exactly the live charges |
| `Pool.RunInv` | crates/ad-core-rs/src/ndarray_pool.rs:191-429 | the accounting and every live and free buffer's charge are in order after every sequence of allocations, uses of live buffers, drops and emptyings |
| `Pool.RunAccounts` | crates/ad-core-rs/src/ndarray_pool.rs:204-242 | after every such sequence: bytes are live + free charges within the limit, total live charge is at most 1.5 times the live requests, and every live buffer, however it was used, is within its charge |
| `Pool.RunAllocs` | crates/ad-core-rs/src/ndarray_pool.rs:191-306 | at any point of any such sequence an allocation succeeds exactly when there is room, and holds exactly the requested elements and type whatever earlier holders did to a reused buffer |
| `Pool.RunReuses` | crates/ad-core-rs/src/ndarray_pool.rs:204-242 | at any point of any such sequence a free buffer of at least the request and at most 1.5 times it is reused |
| `Pool.UsedInv` | crates/ad-core-rs/src/ndarray.rs:320-351 | no sequence of operations on a live buffer disturbs the accounting or its charge |
| `PoolClass.NDArrayPool.constructor` | crates/ad-core-rs/src/ndarray_pool.rs:76-100 | a new pool is empty |
| `PoolClass.NDArrayPool.FindBestFit` | crates/ad-core-rs/src/ndarray_pool.rs:208-214 | the loop finds the smallest sufficient free buffer, the first of equals |
| `PoolClass.NDArrayPool.FindLargest` | crates/ad-core-rs/src/ndarray_pool.rs:258-263 | the loop finds the largest free buffer, the last of equals |
| `PoolClass.NDArrayPool.EvictLargest` | crates/ad-core-rs/src/ndarray_pool.rs:248-274 | the loop evicts exactly what the specification evicts and reports the bytes reclaimed |
| `PoolClass.NDArrayPool.Reserve` | crates/ad-core-rs/src/ndarray_pool.rs:244-299 | the reservation loop succeeds exactly when the evicted pool has room, and charges exactly the request |
| `PoolClass.NDArrayPool.TakeFree` | crates/ad-core-rs/src/ndarray_pool.rs:226-242 | a reused buffer leaves the free list, keeps its size and comes back retyped |
| `PoolClass.NDArrayPool.MakeFresh` | crates/ad-core-rs/src/ndarray_pool.rs:244-306 | a fresh buffer is charged exactly the request, or refused |
| `PoolClass.NDArrayPool.Alloc` | crates/ad-core-rs/src/ndarray_pool.rs:185-306 | the whole method is the specification function the lemmas are about |
| `PoolClass.NDArrayPool.Recycle` | crates/ad-core-rs/src/ndarray_pool.rs:376-391 | the destructor puts the buffer back with its size |
| `PoolClass.NDArrayPool.EmptyFreeList` | crates/ad-core-rs/src/ndarray_pool.rs:419-429 | the drain leaves bytes and counters as specified |
| `PoolSolo.AllocAlone` | crates/ad-core-rs/src/ndarray_pool.rs:185-306 | a thread alone, once it has begun an allocation, can complete it, and every way it completes, compare-and-swap failures included, ends in exactly the state of the sequential allocation |
| `PoolSolo.ReleaseAlone` | crates/ad-core-rs/src/ndarray_pool.rs:376-391 | likewise for dropping an array: every way it completes |
| `PoolSolo.EmptyAlone` | crates/ad-core-rs/src/ndarray_pool.rs:419-429 | likewise for emptying the free list: every way it completes |
| `PoolSolo.EndsUnique` | crates/ad-core-rs/src/ndarray_pool.rs:185-429 | any two completed solo runs of an operation from the same state end in the same state |
| `DataBuffer.FreshValid` | crates/ad-core-rs/src/ndarray.rs:237-244 | a new buffer holds that many zero elements |
| `DataBuffer.CloneIsCopy` | crates/ad-core-rs/src/ndarray.rs:206-215 | a clone has the same elements in no more chunks than they need, without the charge |
| `DataBuffer.ResizeContents` | crates/ad-core-rs/src/ndarray.rs:320-351 | resizing keeps the common prefix and zeroes all growth, as far as the charge allows |
| `DataBuffer.ShrinkThenGrow` | crates/ad-core-rs/src/ndarray.rs:345-351 | bytes given up by a shrink come back as zeros |
| `DataBuffer.CopiedContents` | crates/ad-core-rs/src/ndarray.rs:473-482 | a copy is the source's elements, as many as the charge holds |
| `DataBuffer.FilledContents` | crates/ad-core-rs/src/ndarray.rs:437-467 | a refill with element bytes is those bytes, as many elements as the charge holds |
| `DataBuffer.WrittenContents` | crates/ad-core-rs/src/ndarray.rs:274-288 | a write replaces the first bytes and no other |
| `Elements.FilledFromFloats` | crates/ad-core-rs/src/ndarray.rs:437-467 | a refill of an integer buffer from floats holds their saturating casts, NaN as zero, as many as the charge holds |
| `Elements.SaturatingIs` | crates/ad-core-rs/src/ndarray.rs:424-467 | that cast is the integer toward zero, held at the bounds of the type |
| `Elements.TypeRange` | crates/ad-core-rs/src/ndarray.rs:34-41 | the range of each integer element type, in numbers |
| `Elements.TypeBytes` | crates/ad-core-rs/src/ndarray.rs:34-41 | the bytes of an element of each type, floats included |
| `Elements.LittleEndian` | crates/ad-core-rs/src/ndarray.rs:274-288 | byte i of an element is its i-th base-256 digit, lowest first |
| `Elements.DecodeEncode` | crates/ad-core-rs/src/convert.rs:428-445 | an element written to its bytes reads back, reduced to its type |
| `Elements.WrittenElements` | crates/ad-core-rs/src/ndarray.rs:274-288 | writing all of a buffer leaves exactly those elements |
| `DataBuffer.DoValid` | crates/ad-core-rs/src/ndarray.rs:320-351 | every operation keeps the length inside storage and charge |
| `DataBuffer.NeverPastCharge` | crates/ad-core-rs/src/ndarray.rs:320-351 | after every sequence of resize, retype, fill, copy and write a valid buffer, pooled or not, is within its storage and within its charge, which never changes |
| `DataBuffer.AllowedIs` | crates/ad-core-rs/src/ndarray.rs:324-335 | a length is cut to the greatest whose bytes fit the charge, and not at all without one |
| `DataBuffer.NDDataBuffer.SetLen` | crates/ad-core-rs/src/ndarray.rs:324-335 | the length, cut to the charge, with storage grown to hold it |
| `DataBuffer.NDDataBuffer.Retype` | crates/ad-core-rs/src/ndarray.rs:338-342 | the type and length together |
| `DataBuffer.NDDataBuffer.Resize` | crates/ad-core-rs/src/ndarray.rs:345-351 | the zeroing resize |
| `DataBuffer.NDDataBuffer.CopyFrom` | crates/ad-core-rs/src/ndarray.rs:473-482 | the charge-limited copy |
| `Persistent.RunInv` | crates/ad-core-rs/src/ndarray_pool.rs:822-936 | reference counts of the array, its publishes and their one charge are right in every order of refill, publish, clone and drop |
| `Persistent.RecycledOnceAfterTheLast` | crates/ad-core-rs/src/ndarray_pool.rs:822-936 | the pool gets the buffer back at most once, and never while anybody holds the array or a publish |
| `Persistent.RecycledInTheEnd` | crates/ad-core-rs/src/ndarray_pool.rs:843-854 | once nobody holds anything and the drops have run, the buffer is back |
| `Persistent.HeldPublishKeepsData` | crates/ad-core-rs/src/ndarray_pool.rs:907-926 | a publish keeps its data for as long as it is held, whatever is refilled |
| `Persistent.ShownIsCurrent` | crates/ad-core-rs/src/ndarray_pool.rs:907-926 | until the next refill every publish is the same one and shows the array's data, in another buffer |
| `PersistentPool.ChargedOnce` | crates/ad-core-rs/src/ndarray_pool.rs:822-936 | over every order of pool operations, refills, publishes, clones and drops, the array's charge is in the pool's bytes exactly once until the buffer is recycled, and it is not recycled while anybody holds the array or a publish |
| `PersistentPool.RecycleIsRelease` | crates/ad-core-rs/src/ndarray_pool.rs:843-854 | the step that recycles comes once, after the last holder, and is the pool's release of that live array: its buffer and charge join the free list and no byte count changes |
| `PersistentPool.ShownIsPoolData` | crates/ad-core-rs/src/ndarray_pool.rs:907-926 | the shown publish has the bytes of the pool's array |
| `ConvertSpec.PixelLocal` | crates/ad-core-rs/src/convert.rs:551-592 | an output element depends only on source elements inside the source |
| `ConvertRows.CountIsRows` | crates/ad-core-rs/src/convert.rs:542-560 | the output is whole rows |
| `ConvertRows.RowSumIsPixel` | crates/ad-core-rs/src/convert.rs:551-592 | for any number of dimensions, the row-wise sum over the outer binning window equals the per-element window sum |
| `Convert.OutputDims` | crates/ad-core-rs/src/convert.rs:452-511 | a request is accepted if and only if it has the right number of dimensions, no empty output and lies inside the source; the error kinds; the cumulative metadata |
| `Convert.AcceptsIff` | crates/ad-core-rs/src/convert.rs:452-494 | that acceptance in numbers: at least one whole bin in every dimension, ending inside the source |
| `ConvertSpec.OutIs` | crates/ad-core-rs/src/convert.rs:471-484 | an output dimension has as many whole bins as the requested size holds, a binning of 0 being one of 1 |
| `Convert.Strides` | crates/ad-core-rs/src/convert.rs:539-549 | the stride loops compute the products of the lower sizes |
| `Convert.RowCoords` | crates/ad-core-rs/src/convert.rs:574-585 | the loop reads off a row's mirrored coordinates |
| `Convert.RowBases` | crates/ad-core-rs/src/convert.rs:571-597 | the source row starts of a row's window, every one inside the source |
| `Convert.ReverseRun` | crates/ad-core-rs/src/convert.rs:618-620 | the in-place reversal of a row |
| `Convert.ConvertRow` | crates/ad-core-rs/src/convert.rs:604-621 | one output row of any source kind: cast or zeroed and bin-added, then mirrored |
| `Convert.ConvertInto` | crates/ad-core-rs/src/convert.rs:530-642 | for own-type, other integer and float sources the row loop writes every output element with its specification value: the sum modulo 2^w, over its N-dimensional window, of the source elements, floats truncated and saturated to 128 bits, NaN as zero |
| `Convert.ConvertDims` | crates/ad-core-rs/src/convert.rs:530-642 | the whole conversion: refused exactly when the request is not acceptable, else the metadata and the per-element specification |
| `PoolConvert.RoomForAll` | crates/ad-core-rs/src/ndarray_pool.rs:146-149 | an allocation of a number of elements is never cut when resized to that number |
| `PoolConvert.ConvertPooled` | crates/ad-core-rs/src/ndarray_pool.rs:527-545 | a conversion through the pool is refused as the request is, else as any allocation is, and otherwise is an array of the pool that holds exactly the specified output |
| `PoolConvert.ConvertType` | crates/ad-core-rs/src/ndarray_pool.rs:499-520 | a change of element type through the pool: the cast of every element the charge holds, which is all of a source no longer than its dimensions |
| `ConvertAlgebra.ConvertTwice` | crates/ad-core-rs/src/convert.rs:559-619 | converting twice is converting once with the combined request, where the second type is no wider than the first |
| `ConvertAlgebra.ConvertTwiceIff` | crates/ad-core-rs/src/convert.rs:559-619 | for any two types, every second conversion gives what the combined request gives, if and only if no element of the first loses in its cast what the second type keeps |
| `ConvertAlgebra.ConvertTwiceUncut` | crates/ad-core-rs/src/convert.rs:559-619 | in particular for any second type where the window sums of the first conversion fit its type |
| `ConvertAlgebra.WiderLoses` | crates/ad-core-rs/src/convert.rs:559-619 | an input on which a wider second type gives another result |
| `ConvertAlgebra.ReverseTwice` | crates/ad-core-rs/src/convert.rs:618-620 | reversing any choice of dimensions twice is the identity |
| `ConvertAlgebra.TotalConserved` | crates/ad-core-rs/src/convert.rs:559-619 | the output total is the covered source region's total modulo 2^w |
| `ConvertChain.ArrayTwice` | crates/ad-core-rs/src/convert.rs:452-642 | the same for arrays: the source accepts the combined request and gives the same data |
| `ConvertChain.MetadataTwice` | crates/ad-core-rs/src/convert.rs:500-510 | sizes, cumulative binning and cumulative reverse agree with the combined request; the cumulative offset agrees if and only if, unmirrored, the second offset is 0 or the first is unbinned, and, mirrored, the second offset equals the gap left at the far end times the first binning |
| `ConvertChain.MetadataLocates` | crates/ad-core-rs/src/convert.rs:500-510 | the reported size, offset, binning and reversal of a dimension say which source elements each output element sums |
| `ConvertChain.ReportedOnce` | crates/ad-core-rs/src/convert.rs:500-510 | for any number of dimensions, the output of a conversion is what its reported metadata, read as a request on the original array, gives |
| `ConvertChain.ReportedTwice` | crates/ad-core-rs/src/convert.rs:500-510 | so is that of a second conversion, where in every dimension the offsets add |
| `ConvertChain.OffsetNotScaled` | crates/ad-core-rs/src/convert.rs:504-505 | an input on which the cumulative offset does not agree |
| `BinKernels.BinRowScalar` | crates/ad-core-rs/src/convert.rs:52-66 | the scalar loop adds bucket i into accumulator i, modulo 2^w |
| `BinKernels.LaneBin2Binned` | crates/ad-core-rs/src/convert.rs:346-361 | the deinterleaving bin-2 step is the scalar sum |
| `BinKernels.LaneBin4Binned` | crates/ad-core-rs/src/convert.rs:362-383 | the twice deinterleaving bin-4 step is the scalar sum |
| `BinKernels.BinLanes` | crates/ad-core-rs/src/convert.rs:342-383 | vectors and scalar tail together equal the scalar loop, for every row length |
| `BinKernels.BinnedCast` | crates/ad-core-rs/src/convert.rs:153-173 | casting first changes no bin sum |
| `SourceRows.Cast` | crates/ad-core-rs/src/convert.rs:124-139 | a run is taken as it is, by the C cast or by the float kernel: every element reduced modulo 2^w |
| `SourceRows.BinRowChunked` | crates/ad-core-rs/src/convert.rs:153-173 | cutting a row of any source kind into cast chunks changes nothing |
| `SourceRows.BinsPerChunk` | crates/ad-core-rs/src/convert.rs:153-173 | a chunk has at least one bin and fits the buffer unless a single bin does not |
| `SourceRows.BinRow` | crates/ad-core-rs/src/convert.rs:141-236 | whichever path the source kind and the bin width take: own type natively, floats through chunks, other integers by width |
| `FloatCast.LaneExact` | crates/ad-core-rs/src/convert.rs:256-268 | below 2^63 in magnitude the lane truncation is the exact one |
| `FloatCast.CastIs` | crates/ad-core-rs/src/convert.rs:115-124 | the scalar cast of a float to 128 bits: the integer toward zero, saturated, NaN as zero |
| `ElementTypes.WrapIs` | crates/ad-core-rs/src/convert.rs:115-124 | reduction to a type is the one value of its range that differs by a multiple of 2^w |
| `FloatCast.NarrowTreeKeeps` | crates/ad-core-rs/src/convert.rs:262-294 | narrowing 64-bit lanes pairwise keeps the residue modulo the target width |
| `FloatCast.LaneCastIsScalar` | crates/ad-core-rs/src/convert.rs:262-294 | a vector chunk in range casts as the scalar form does |
| `FloatCast.CastFloats` | crates/ad-core-rs/src/convert.rs:266-294 | the kernel with its fallback and remainder casts every element, NaN and infinities included, by truncation to 128 bits and reduction modulo 2^w |
| `CircularBuffer.DoInv` | crates/ad-plugins-rs/src/circular_buff.rs:251-473 | every operation keeps the ring equal to the last recorded frames and what was sent in order |
| `CircularBuffer.RunInv` | crates/ad-plugins-rs/src/circular_buff.rs:251-473 | over every run |
| `CircularBuffer.ForwardedInOrder` | crates/ad-plugins-rs/src/circular_buff.rs:288-367 | over every run the forwarded frames are strictly increasing frames of those pushed |
| `CircularBuffer.ForwardedAdmitted` | crates/ad-plugins-rs/src/circular_buff.rs:288-367 | over every run each frame forwarded or in the ring was pushed, and copied, while acquisition was on |
| `CircularBuffer.PushWhileOff` | crates/ad-plugins-rs/src/circular_buff.rs:294-304 | a frame that arrives while acquisition is off is not forwarded or recorded and changes nothing |
| `CircularBuffer.OffUntilStarted` | crates/ad-plugins-rs/src/circular_buff.rs:251-304 | once off, acquisition stays off until a start; until then no frame enters ring or stream, and only a soft trigger can forward what the ring still holds |
| `CircularBuffer.StopEnds` | crates/ad-plugins-rs/src/circular_buff.rs:260-304 | after a stop nothing is forwarded until a start or a soft trigger, whatever else is done |
| `CircularBuffer.PresetEnds` | crates/ad-plugins-rs/src/circular_buff.rs:420-455 | nor after the frame whose completion reaches the preset |
| `CircularBuffer.DoneWhen` | crates/ad-plugins-rs/src/circular_buff.rs:355-367 | a frame completes a sequence exactly when it is recorded and the post count is reached with it; completion counts it and turns acquisition off exactly at the preset |
| `CircularBuffer.UntriggeredCompletion` | crates/ad-plugins-rs/src/circular_buff.rs:355-367 | at any point of any run a frame recorded without a trigger joins the ring, and completes a sequence exactly with a post count of 0 |
| `CircularBuffer.RunStatus` | crates/ad-plugins-rs/src/circular_buff.rs:251-493 | over every run the status is flushing or filling as a trigger is latched or not, idle or completed when off, and no post frames are counted without a trigger |
| `CircularBuffer.StartTurnsOn` | crates/ad-plugins-rs/src/circular_buff.rs:251-258 | a start empties ring and counts, keeps settings and stream, and acquires |
| `CircularBuffer.StopTurnsOff` | crates/ad-plugins-rs/src/circular_buff.rs:260-266 | a stop turns acquisition and latch off and leaves ring, counts and stream |
| `CircularBuffer.SoftTriggerSends` | crates/ad-plugins-rs/src/circular_buff.rs:914-927 | a soft trigger latches only while acquiring, and with the flush option sends the whole ring at once; zero does nothing |
| `CircularBuffer.TriggerLatches` | crates/ad-plugins-rs/src/circular_buff.rs:458-473 | a trigger does nothing while off and forwards nothing by itself |
| `CircularBuffer.SettingsTake` | crates/ad-plugins-rs/src/circular_buff.rs:650-882 | the pre count takes values from 0 below the buffer limit while not acquiring; the other settings are taken, never negative, and nothing else moves |
| `CircularBuffer.Captured` | crates/ad-plugins-rs/src/circular_buff.rs:420-455 | after a trigger the post frames complete the sequence, count it, and turn control off exactly when the preset is reached |
| `CircularBuffer.FiringIsTriggering` | crates/ad-plugins-rs/src/circular_buff.rs:303-322 | an expression that fires on a frame is a trigger just before it |
| `CircularBuffer.OneTrigger` | crates/ad-plugins-rs/src/circular_buff.rs:288-473 | one trigger's frames are a contiguous block of recorded frames: the last min(pre-count, recorded since the last drain), then max(1, post-count) |
| `CircularBuffer.OneTriggerInRun` | crates/ad-plugins-rs/src/circular_buff.rs:288-473 | the same at any point of any run from a new buffer |
| `CircularBuffer.PresetHolds` | crates/ad-plugins-rs/src/circular_buff.rs:420-455 | per start, completed sequences never exceed a fixed preset and control is off once it is reached |
| `CircularBuffer.CircularBuffer.StartAcquiring` | crates/ad-plugins-rs/src/circular_buff.rs:251-258 | a start resets and runs |
| `CircularBuffer.CircularBuffer.StopAcquiring` | crates/ad-plugins-rs/src/circular_buff.rs:260-266 | a stop turns control off |
| `CircularBuffer.CircularBuffer.Fire` | crates/ad-plugins-rs/src/circular_buff.rs:458-473 | the trigger latches only while acquiring, and restarts the post count |
| `CircularBuffer.CircularBuffer.FlushPreBuffer` | crates/ad-plugins-rs/src/circular_buff.rs:412-415 | the ring is drained in order |
| `CircularBuffer.CircularBuffer.CompleteSequence` | crates/ad-plugins-rs/src/circular_buff.rs:420-455 | completion re-arms or turns control off |
| `CircularBuffer.CircularBuffer.PushCopied` | crates/ad-plugins-rs/src/circular_buff.rs:288-367 | the whole frame path is the specification function the run lemmas are about |
| `CircularBuffer.CircularBuffer.WriteSoftTrigger` | crates/ad-plugins-rs/src/circular_buff.rs:914-927 | a non-zero write triggers and, where asked, flushes at once |
| `CircularBuffer.CircularBuffer.ResetAll` | crates/ad-plugins-rs/src/circular_buff.rs:485-493 | ring and counters dropped, acquisition off |
| `Shuffle.ShuffleVecs` | crates/ad-core-rs/src/simd.rs:302-312 | the loops or together, byte by byte, one pull from every vector |
| `Shuffle.SplitByte` | crates/ad-core-rs/src/simd.rs:266-312 | splitting: exactly one non-zeroed contributor per byte, and which |
| `Shuffle.JoinByte` | crates/ad-core-rs/src/simd.rs:281-312 | joining: exactly one non-zeroed contributor per byte, and which |
| `Shuffle.SplitThenJoin` | crates/ad-core-rs/src/simd.rs:266-312 | for every N, element size and vector width up to 255, splitting then joining restores the vectors byte for byte |
| `Shuffle.JoinThenSplit` | crates/ad-core-rs/src/simd.rs:266-312 | and joining then splitting the planes |
| `Shuffle.SplitElement` | crates/ad-core-rs/src/simd.rs:266-312 | splitting puts element N*i+c at position i of plane c |
| `Lanes.LoadVecs` | crates/ad-core-rs/src/simd.rs:316-324 | N consecutive vectors hold the run's elements in order |
| `Lanes.SplitStep` | crates/ad-core-rs/src/simd.rs:302-324 | load and split: plane c is every N-th element from c |
| `Lanes.JoinStep` | crates/ad-core-rs/src/simd.rs:302-332 | join and store: the planes interleaved |
| `RgbLayout.StridesAgree` | crates/ad-core-rs/src/color_layout.rs:29-37 | conversion strides, the layout's index and the array's own strides agree |
| `RgbLayout.StridesIndex` | crates/ad-core-rs/src/color.rs:282-289 | strides address the mixed-radix index of each layout's dimensions |
| `RgbLayout.IndexOf` | crates/ad-core-rs/src/color_layout.rs:29-37 | every (x, c, y) has its own place inside the frame |
| `RgbLayout.OfIndex` | crates/ad-core-rs/src/color_layout.rs:29-37 | and every place is one (x, c, y) |
| `RgbLayout.RelaidAt` | crates/ad-core-rs/src/color.rs:282-340 | each (x, c, y) value is found at the target layout's index |
| `RgbLayout.RelaidTwice` | crates/ad-core-rs/src/color.rs:199-277 | two conversions are one |
| `RgbLayout.AlongIsDirect` | crates/ad-core-rs/src/color.rs:199-277 | any chain of conversions is the one to its last layout |
| `RgbLayout.RoundTrip` | crates/ad-core-rs/src/color.rs:199-277 | any chain back to the starting layout is the identity |
| `RgbRows.CopyRun` | crates/ad-core-rs/src/color.rs:323-339 | one channel of one row from column x0, contiguous or strided, nothing else touched |
| `RgbRows.ScalarRows` | crates/ad-core-rs/src/color.rs:310-340 | the scalar form writes exactly the columns from x0 on |
| `RgbRows.SplitVector` | crates/ad-core-rs/src/color.rs:1044-1058 | a vector step of the split writes exactly its pixels' elements |
| `RgbRows.JoinVector` | crates/ad-core-rs/src/color.rs:1059-1074 | a vector step of the join writes exactly its pixels' elements |
| `RgbRows.LaneRows` | crates/ad-core-rs/src/color.rs:1033-1075 | the lane form writes exactly the columns before x0, all whole vectors when one side is interleaved |
| `RgbRows.LayoutRows` | crates/ad-core-rs/src/color.rs:294-308 | vector columns and scalar tail, each element by one of them, are the whole conversion |
| `RgbRows.ConvertRgbLayout` | crates/ad-core-rs/src/color.rs:199-277 | refusals and their order, the source's width and height read from its dimensions, the target's dimensions and data |
| `Yuv.RoundNearest` | crates/ad-core-rs/src/color.rs:404-406 | rounding is to nearest, ties away from zero |
| `Yuv.LaneRoundIsRound` | crates/ad-core-rs/src/color.rs:880-883 | the lane spelling of rounding equals it for every value |
| `Yuv.ClampNearest` | crates/ad-core-rs/src/color.rs:402-406 | clamping gives the nearest value of the range |
| `Yuv.GreyStays` | crates/ad-core-rs/src/color.rs:388-406 | grey v becomes (v, half, half) and that becomes grey v again |
| `Yuv.ChromaOf` | crates/ad-core-rs/src/color.rs:388-400 | forward chroma is what blue and red have above luma, by the inverse's coefficients, up to their three digits |
| `Yuv.ForwardNear` | crates/ad-core-rs/src/color.rs:388-406 | forward values are within half a unit of exact, clamped chroma included |
| `Yuv.RoundTrip8` | crates/ad-core-rs/src/color.rs:388-406 | in exact arithmetic every 8-bit pixel comes back within 1 in every channel |
| `Yuv.RoundTrip16` | crates/ad-core-rs/src/color.rs:388-406 | every 16-bit pixel within 30, 12 and 32 |
| `Yuv.ForwardRun` | crates/ad-core-rs/src/color.rs:500-512 | the pixel loop, forward |
| `Yuv.InverseRun` | crates/ad-core-rs/src/color.rs:525-537 | the pixel loop, inverse |
| `Yuv.FrameRoundTrip8` | crates/ad-core-rs/src/color.rs:500-537 | a whole 8-bit frame comes back within 1 in every element |
| `Crop.ClampedCovers` | crates/ad-core-rs/src/roi.rs:34-37 | the clamped region covers exactly the requested pixels that the frame has |
| `Crop.RunInside` | crates/ad-core-rs/src/roi.rs:90-96 | every run is read from inside the frame |
| `Crop.TargetAt` | crates/ad-core-rs/src/roi.rs:90-96 | runs lie end to end in the output |
| `Crop.CroppedIsConverted` | crates/ad-core-rs/src/roi.rs:79-96 | the run copies give the same data as the general conversion, for Mono and every RGB layout |
| `Crop.CopyRuns` | crates/ad-core-rs/src/roi.rs:82-96 | the copy loops write every output element |
| `Crop.CropRoi` | crates/ad-core-rs/src/roi.rs:15-99 | refused only when compressed; otherwise the output's pixels are exactly those asked for that the frame has, channel c of (x, y) being that of the frame's (region x + x, region y + y); with the empty, full-frame (cut at the output's charge) and run-copy cases, the last for integer elements the conversion to the region |
| `Civil.CivilValid` | crates/epics-base-rs/build.rs:176-192 | every day number gives a valid Gregorian date |
| `Civil.CivilEpoch` | crates/epics-base-rs/build.rs:176-192 | day 0 is 1 January 1970 |
| `Civil.CivilSuccessor` | crates/epics-base-rs/build.rs:176-192 | day d + 1 is the calendar's next date after day d |
| `Civil.CivilInverse` | crates/epics-base-rs/build.rs:176-192 | it is a bijection onto the valid dates, inverse to the day number |
| `Civil.DayNumberCounts` | crates/epics-base-rs/build.rs:176-192 | that day number does count days: 0 at the epoch and one more at each next date |
| `AttributeList.AbstractExact` | crates/ad-core-rs/src/attributes.rs:795-803 | a list of unique names is determined by its order and its map |
| `AttributeList.OpRefines` | crates/ad-core-rs/src/attributes.rs:812-904 | each operation is that of an insertion-ordered map, keeps names unique and dead slots without a live source, and adds slots only past their number |
| `AttributeList.MergeIs` | crates/ad-core-rs/src/attributes.rs:897-904 | after a merge the names of the other list have its attributes and all other names their own |
| `AttributeList.MergeOrder` | crates/ad-core-rs/src/attributes.rs:897-904 | and names keep their places, those new to the list after them |
| `AttributeList.RunRefines` | crates/ad-core-rs/src/attributes.rs:795-904 | over every run on a new or cloned list: the ordered map's contents, no live source in a dead slot, and as many slots as the list was ever long |
| `AttributeList.CloneYieldsSource` | crates/ad-core-rs/src/attributes.rs:812-817 | cloning onto any list yields exactly the source list |
| `AttributeList.NDAttributeList.Clone` | crates/ad-core-rs/src/attributes.rs:805-810 | a clone has the attributes and no other slot |
| `AttributeList.NDAttributeList.Find` | crates/ad-core-rs/src/attributes.rs:837-839 | the first attribute of that name |
| `AttributeList.NDAttributeList.Get` | crates/ad-core-rs/src/attributes.rs:863-865 | the map's value, if any |
| `AttributeList.NDAttributeList.Add` | crates/ad-core-rs/src/attributes.rs:841-851 | replace in place, or append into a kept slot |
| `AttributeList.NDAttributeList.PushCopy` | crates/ad-core-rs/src/attributes.rs:854-861 | append into a kept slot where there is one |
| `AttributeList.NDAttributeList.Remove` | crates/ad-core-rs/src/attributes.rs:867-875 | the others keep their order, the removed slot loses its source |
| `AttributeList.NDAttributeList.Clear` | crates/ad-core-rs/src/attributes.rs:877-882 | every slot loses its source |
| `AttributeList.NDAttributeList.CopyFrom` | crates/ad-core-rs/src/attributes.rs:897-904 | the merge |
| `AttributeList.NDAttributeList.CloneFrom` | crates/ad-core-rs/src/attributes.rs:812-817 | the source list, exactly |
| `AttrPlot.TrackedAre` | crates/ad-plugins-rs/src/attr_plot.rs:266-273 | the tracked names are numeric attributes of the frame, sorted, none twice, at most as many as fit; one is left out only when that many come before it |
| `AttrPlot.LeqIff` | crates/ad-plugins-rs/src/attr_plot.rs:272 | the order of names is that of the first character that differs, a prefix first |
| `AttrPlot.ValueReads` | crates/ad-plugins-rs/src/attr_plot.rs:300-306 | the plotted value is the number of the first attribute of that name, NaN when it has none or there is none |
| `AttrPlot.ValueCarried` | crates/ad-plugins-rs/src/attr_plot.rs:300-306 | with unique names: the number of the attribute of that name, NaN exactly when none of that name is numeric |
| `AttrPlot.ProcessInv` | crates/ad-plugins-rs/src/attr_plot.rs:459-471 | a frame extends every ring, or starts an acquisition of its own |
| `AttrPlot.RunInv` | crates/ad-plugins-rs/src/attr_plot.rs:229-344 | in every reachable state the rings hold the last values of the frames of the current acquisition |
| `AttrPlot.EpochIs` | crates/ad-plugins-rs/src/attr_plot.rs:459-471 | the current acquisition is the longest run of increasing ids at the end of the frames since the last restart |
| `AttrPlot.RingsAligned` | crates/ad-plugins-rs/src/attr_plot.rs:239-310 | all rings equally long and within a non-zero cache size, ids strictly increasing, point k of every ring from the same frame |
| `AttrPlot.RunAligned` | crates/ad-plugins-rs/src/attr_plot.rs:229-344 | the same after any operations on a new plot, point k of a name's ring being what that frame of the current acquisition carries under the name |
| `AttrPlot.BlockPlots` | crates/ad-plugins-rs/src/attr_plot.rs:314-344 | after any operations a block bound to a name plots what the latest frames carry under it, one bound to the ids plots the ids, any other NaN |
| `AttrPlot.SelectBinds` | crates/ad-plugins-rs/src/attr_plot.rs:199-215 | a selection binds that block alone and moves no ring: -1 to the ids, an index to that name, refused exactly out of range |
| `AttrPlot.NewUnbound` | crates/ad-plugins-rs/src/attr_plot.rs:218-226 | on a new plot no block is bound |
| `AttrPlot.ReboundKeeps` | crates/ad-plugins-rs/src/attr_plot.rs:251-291 | a rebuild keeps a block's binding by name, or unbinds it, if and only if it is not bound to an attribute named UID |
| `AttrPlot.UidNamedAttributeLost` | crates/ad-plugins-rs/src/attr_plot.rs:277-280 | a run on which a block bound to such an attribute ends up on the id ring |
| `AttrPlot.TakeBinds` | crates/ad-plugins-rs/src/attr_plot.rs:459-471 | only a frame that starts an acquisition re-resolves selections |
| `AttrPlot.BindingStays` | crates/ad-plugins-rs/src/attr_plot.rs:251-291 | over every run a block stays bound to a name other than UID while it stays tracked |
| `AttrPlot.AttrPlotState.Reset` | crates/ad-plugins-rs/src/attr_plot.rs:229-236 | rings emptied, attributes kept |
| `AttrPlot.AttrPlotState.RebuildAttributes` | crates/ad-plugins-rs/src/attr_plot.rs:251-291 | names, empty rings and re-resolved selections |
| `AttrPlot.AttrPlotState.Push` | crates/ad-plugins-rs/src/attr_plot.rs:294-308 | one value into every ring |
| `AttrPlot.AttrPlotState.ProcessArray` | crates/ad-plugins-rs/src/attr_plot.rs:459-471 | the frame path is the specification function the run lemmas are about |
| `AttrPlot.AttrPlotState.SetDataSelect` | crates/ad-plugins-rs/src/attr_plot.rs:199-215 | refused exactly for a block or a positive selection out of range |
| `AttrPlot.AttrPlotState.DataLabel` | crates/ad-plugins-rs/src/attr_plot.rs:218-226 | the label of the binding |
| `AttrPlot.AttrPlotState.BlockWaveform` | crates/ad-plugins-rs/src/attr_plot.rs:314-344 | the whole selected ring, never cut, then its last point up to the target length |

## Left out

- PoolSteps.RunWithinLimit: byte counts are unbounded integers, so the 64-bit wrap of the byte counter (with no limit set) is not modelled.
- PoolSteps.StepInv: a weak compare-and-swap may fail spuriously, so nothing is claimed about how soon an allocation ends; nor about when contention causes a refusal.
- Pool.AllocHolds: the dimensions and attribute storage kept on free buffers, array ids and time stamps are not modelled.
- Persistent.RecycledOnceAfterTheLast: the allocations kept for the next share are not part of the byte accounting and are not modelled.
- Yuv.RoundTrip8: arithmetic is exact, without IEEE rounding; the 4:2:2 and 4:1:1 packings and the lane form's widening are not modelled.
- Convert.ConvertDims: float targets, whose bin sums round, are not modelled.
- Convert.ConvertInto: float targets, as for `Convert.ConvertDims`.
- PoolConvert.ConvertPooled: float targets, as for `Convert.ConvertDims`.
- PoolConvert.ConvertType: float targets, as for `Convert.ConvertDims`.
- RgbRows.ConvertRgbLayout: the output's allocation, which can fail, and its metadata are not modelled.
- Crop.CropRoi: runs are copied by element and not by byte; the output's allocation is given as its room.
- CircularBuffer.OneTrigger: a second trigger in mid-sequence restarts the count, so the block is counted from the latest trigger; status texts are not modelled.
- AttributeList.RunRefines: re-reading values from live sources is not modelled.
- AttrPlot.RunInv: parameter updates and the exposure clock are not modelled; frame ids are integers and not floats.
- Civil.CivilValid: day numbers are unbounded, without 64-bit overflow.
- SIMD dispatch, the calc engine, file writers, codecs, time stamps, bad-pixel tables and parameter plumbing: I/O, wrappers or single-loop facts.
- DataBuffer.FilledContents: the bytes are given; `Elements.FilledFromFloats` has the cast for integer types, and float targets are not modelled.
- Elements.FilledFromFloats: float buffers, which keep a rounded value, are not modelled.
- PersistentPool.ChargedOnce: the pool runs one caller at a time beside the array's steps; its own interleavings are in `PoolSteps`.
- Copying into an array that already exists (`copy` with an output) and the sizing of compressed copies: further combinations of a modelled allocation, retype and copy.
