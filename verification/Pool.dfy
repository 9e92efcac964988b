/**
 The pool run by one caller at a time: what each operation does to the free list, the
 counters and the live arrays, and what holds over every run.
 */
module Pool {
  import opened Wrappers
  import opened Arith
  import opened FreeList
  import opened Counters
  import opened DataBuffer

  datatype PoolError = InvalidDimensions | PoolExhausted

  /** A recycled buffer with the bytes it was charged when it was allocated. */
  datatype FreeBuffer = FreeBuffer(data: Buffer, dataSize: nat)

  /** An array of the pool's: its buffer and its charge. */
  datatype NDArray = NDArray(data: Buffer, dataSize: nat)

  /** A live array with the bytes its caller asked for. */
  datatype Held = Held(arr: NDArray, requested: nat)

  datatype PoolState = PoolState(
    maxMemory: nat,
    bytes: int,
    numAlloc: Counter,
    numFree: Counter,
    free: seq<FreeBuffer>,
    live: seq<Held>)

  function Sizes(free: seq<FreeBuffer>): (s: seq<nat>)
    ensures |s| == |free| && forall i :: 0 <= i < |s| ==> s[i] == free[i].dataSize
  {
    seq(|free|, i requires 0 <= i < |free| => free[i].dataSize)
  }

  function Charges(live: seq<Held>): (s: seq<nat>)
    ensures |s| == |live| && forall i :: 0 <= i < |s| ==> s[i] == live[i].arr.dataSize
  {
    seq(|live|, i requires 0 <= i < |live| => live[i].arr.dataSize)
  }

  function Requests(live: seq<Held>): (s: seq<nat>)
    ensures |s| == |live| && forall i :: 0 <= i < |s| ==> s[i] == live[i].requested
  {
    seq(|live|, i requires 0 <= i < |live| => live[i].requested)
  }

  function LiveBytes(live: seq<Held>): (n: nat)
  {
    SumSizes(Charges(live))
  }

  function RequestedBytes(live: seq<Held>): (n: nat)
  {
    SumSizes(Requests(live))
  }

  /** Wrap a buffer in an array of this pool: the tie sets the buffer's charge. */
  function Adopt(data: Buffer, dataSize: nat): (a: NDArray)
  {
    NDArray(data.(charge := Some(dataSize)), dataSize)
  }

  /** A free buffer leaves the pool for good. */
  function Discard(p: PoolState, i: nat): (r: PoolState)
    requires i < |p.free|
  {
    p.(free := Without(p.free, i),
       bytes := p.bytes - p.free[i].dataSize,
       numFree := Bump(p.numFree, -1),
       numAlloc := Bump(p.numAlloc, -1))
  }

  /** Evict the largest free buffer, again and again, until `over` bytes are reclaimed or none is left. */
  function Evict(p: PoolState, over: int): (r: PoolState)
    decreases |p.free|
  {
    if |p.free| == 0 || over <= 0 then p
    else
      var i := Largest(Sizes(p.free));
      Evict(Discard(p, i), over - p.free[i].dataSize)
  }

  /** A fresh buffer, once the limit allows it. */
  function AllocFresh(p: PoolState, t: DataType, size: nat): (r: (PoolState, Result<NDArray, PoolError>))
  {
    var q := if p.maxMemory > 0 then Evict(p, p.bytes + size - p.maxMemory) else p;
    if p.maxMemory > 0 && q.bytes + size > p.maxMemory then (q, Err(PoolExhausted))
    else
      var a := Adopt(Fresh(t, size / ElementSize(t)), size);
      (q.(bytes := q.bytes + size, numAlloc := Bump(q.numAlloc, 1), live := q.live + [Held(a, size)]), Ok(a))
  }

  /** A free buffer taken back into use: same charge, retyped to the request. */
  function Reused(b: FreeBuffer, t: DataType, len: nat): (a: NDArray)
  {
    var a := Adopt(b.data, b.dataSize);
    a.(data := Retyped(a.data, t, len))
  }

  /** What an allocation of `size` bytes of t elements does. */
  function Alloc(p: PoolState, t: DataType, size: nat): (r: (PoolState, Result<NDArray, PoolError>))
  {
    if size % ElementSize(t) != 0 then (p, Err(InvalidDimensions))
    else
      match BestFit(Sizes(p.free), size)
      case None => AllocFresh(p, t, size)
      case Some(i) =>
        if TooLarge(p.free[i].dataSize, size) then AllocFresh(Discard(p, i), t, size)
        else
          var a := Reused(p.free[i], t, size / ElementSize(t));
          (p.(free := Without(p.free, i), numFree := Bump(p.numFree, -1), live := p.live + [Held(a, size)]), Ok(a))
  }

  /** The last holder drops live array i, whose buffer holds `data` by then. */
  function Release(p: PoolState, i: nat, data: Buffer): (r: PoolState)
    requires i < |p.live|
  {
    p.(live := Without(p.live, i),
       free := p.free + [FreeBuffer(data, p.live[i].arr.dataSize)],
       numFree := Bump(p.numFree, 1))
  }

  function EmptyFree(p: PoolState): (r: PoolState)
  {
    p.(free := [],
       bytes := p.bytes - SumSizes(Sizes(p.free)),
       numAlloc := Bump(p.numAlloc, -|p.free|),
       numFree := Bump(p.numFree, -|p.free|))
  }

  /** A buffer charged `size` bytes, in order. */
  ghost predicate Charged(data: Buffer, size: nat)
  {
    data.Valid() && data.charge == Some(size)
  }

  /** The counters are the sums and counts of what is live and free. */
  ghost predicate Counted(p: PoolState)
  {
    && p.bytes == SumSizes(Sizes(p.free)) + LiveBytes(p.live)
    && p.numAlloc == Count(|p.free| + |p.live|)
    && p.numFree == Count(|p.free|)
  }

  ghost predicate FreeCharged(free: seq<FreeBuffer>)
  {
    forall i :: 0 <= i < |free| ==> Charged(free[i].data, free[i].dataSize)
  }

  /** A live array is charged at least what was asked for and at most 1.5 times that. */
  ghost predicate InOrder(h: Held)
  {
    Charged(h.arr.data, h.arr.dataSize) && Snug(h.requested, h.arr.dataSize)
  }

  ghost predicate AllInOrder(live: seq<Held>)
  {
    forall i :: 0 <= i < |live| ==> InOrder(live[i])
  }

  ghost predicate Inv(p: PoolState)
  {
    && Counted(p)
    && (p.maxMemory > 0 ==> p.bytes <= p.maxMemory)
    && FreeCharged(p.free)
    && AllInOrder(p.live)
  }

  lemma SizesWithout(free: seq<FreeBuffer>, i: nat)
    requires i < |free|
    ensures Sizes(Without(free, i)) == Without(Sizes(free), i)
    ensures SumSizes(Sizes(Without(free, i))) == SumSizes(Sizes(free)) - free[i].dataSize
  {
    assert Sizes(Without(free, i)) == Without(Sizes(free), i);
    SumWithout(Sizes(free), i);
  }

  lemma LivePush(live: seq<Held>, h: Held)
    ensures LiveBytes(live + [h]) == LiveBytes(live) + h.arr.dataSize
  {
    hide SumSizes;
    assert Charges(live + [h]) == Charges(live) + [h.arr.dataSize];
    SumPush(Charges(live), h.arr.dataSize);
  }

  lemma LiveWithout(live: seq<Held>, i: nat)
    requires i < |live|
    ensures LiveBytes(Without(live, i)) == LiveBytes(live) - live[i].arr.dataSize
  {
    hide SumSizes;
    assert Charges(Without(live, i)) == Without(Charges(live), i);
    SumWithout(Charges(live), i);
  }

  lemma DiscardInv(p: PoolState, i: nat)
    requires Inv(p) && i < |p.free|
    ensures Inv(Discard(p, i))
  {
    hide Charged, SumSizes, LiveBytes, AllInOrder, Bump, Count;
    BumpCount(|p.free| + |p.live|, -1);
    BumpCount(|p.free|, -1);
    SizesWithout(p.free, i);
  }

  /** Eviction touches no live array, and stops with enough reclaimed or nothing left. */
  lemma {:induction false} EvictInv(p: PoolState, over: int)
    requires Inv(p)
    ensures var q := Evict(p, over);
      && Inv(q) && q.live == p.live && q.maxMemory == p.maxMemory && q.bytes <= p.bytes && |q.free| <= |p.free|
      && (q.bytes <= p.bytes - over || q.free == [])
      && (over <= 0 ==> q == p)
    decreases |p.free|
  {
    hide Charged, SumSizes, LiveBytes, Inv, Largest;
    if |p.free| > 0 && over > 0 {
      var i := Largest(Sizes(p.free));
      DiscardInv(p, i);
      EvictInv(Discard(p, i), over - p.free[i].dataSize);
    }
  }

  /** Counting a fresh buffer in. */
  lemma ReserveInv(q: PoolState, t: DataType, size: nat)
    requires Inv(q) && size % ElementSize(t) == 0
    requires q.maxMemory > 0 ==> q.bytes + size <= q.maxMemory
    ensures var h := Held(Adopt(Fresh(t, size / ElementSize(t)), size), size);
      Inv(q.(bytes := q.bytes + size, numAlloc := Bump(q.numAlloc, 1), live := q.live + [h]))
  {
    hide SumSizes, LiveBytes, Charged, FreeCharged, Adopt, Fresh, Bump, Count;
    BumpCount(|q.free| + |q.live|, 1);
    FreshCharged(t, size);
    var h := Held(Adopt(Fresh(t, size / ElementSize(t)), size), size);
    LivePush(q.live, h);
    assert AllInOrder(q.live + [h]);
  }

  /** Room for the request exactly when the live charges leave it; no live array touched. */
  ghost predicate Serves(p: PoolState, size: nat, out: (PoolState, Result<NDArray, PoolError>))
  {
    var (q, r) := out;
    && Inv(q) && q.maxMemory == p.maxMemory
    && (r.Ok? <==> p.maxMemory == 0 || LiveBytes(p.live) + size <= p.maxMemory)
    && (r.Ok? ==> q.live == p.live + [Held(r.value, size)])
    && (r.Err? ==> q.live == p.live && q.free == [] && r.error == PoolExhausted)
  }

  lemma AllocFreshInv(p: PoolState, t: DataType, size: nat)
    requires Inv(p) && size % ElementSize(t) == 0
    ensures Serves(p, size, AllocFresh(p, t, size))
  {
    hide SumSizes, LiveBytes, Evict, Charged, FreeCharged, AllInOrder, Adopt, Fresh;
    var over := p.bytes + size - p.maxMemory;
    EvictInv(p, over);
    var q := if p.maxMemory > 0 then Evict(p, over) else p;
    EmptySizes(q.free);
    if p.maxMemory == 0 || q.bytes + size <= p.maxMemory {
      ReserveInv(q, t, size);
    }
  }

  lemma EmptySizes(free: seq<FreeBuffer>)
    ensures free == [] ==> SumSizes(Sizes(free)) == 0
  {
  }

  lemma FreshCharged(t: DataType, size: nat)
    requires size % ElementSize(t) == 0
    ensures var a := Adopt(Fresh(t, size / ElementSize(t)), size);
      && Charged(a.data, size) && a.dataSize == size
      && a.data.dataType == t && a.data.len * ElementSize(t) == size
  {
    var n := size / ElementSize(t);
    assert n * ElementSize(t) == size;
    FreshValid(t, n);
  }

  /** A reused buffer holds exactly the elements asked for. */
  lemma ReusedCharged(b: FreeBuffer, t: DataType, size: nat)
    requires Charged(b.data, b.dataSize) && size <= b.dataSize && size % ElementSize(t) == 0
    ensures var d := Retyped(b.data.(charge := Some(b.dataSize)), t, size / ElementSize(t));
      Charged(d, b.dataSize) && d.dataType == t && d.len * ElementSize(t) == size
  {
    var e := ElementSize(t);
    var data := b.data.(charge := Some(b.dataSize), dataType := t);
    SetLenFits(data, size / e);
    assert size / e * e == size;
    DivMono(size, b.dataSize, e);
  }

  /** Free buffer i, snug for the request, taken back into use. */
  lemma ReuseInv(p: PoolState, t: DataType, size: nat, i: nat)
    requires Inv(p) && size % ElementSize(t) == 0 && i < |p.free| && Snug(size, p.free[i].dataSize)
    ensures var a := Reused(p.free[i], t, size / ElementSize(t));
      Inv(p.(free := Without(p.free, i), numFree := Bump(p.numFree, -1), live := p.live + [Held(a, size)]))
    ensures LiveBytes(p.live) + size <= p.bytes
  {
    hide SumSizes, LiveBytes, Charged, Retyped, Bump, Count;
    BumpCount(|p.free|, -1);
    var h := Held(Reused(p.free[i], t, size / ElementSize(t)), size);
    ReusedCharged(p.free[i], t, size);
    SizesWithout(p.free, i);
    SumAtLeast(Sizes(p.free), i);
    LivePush(p.live, h);
    assert AllInOrder(p.live + [h]);
  }

  lemma ServesReused(p: PoolState, t: DataType, size: nat, i: nat)
    requires Inv(p) && size % ElementSize(t) == 0
    requires BestFit(Sizes(p.free), size) == Some(i) && !TooLarge(p.free[i].dataSize, size)
    ensures Serves(p, size, Alloc(p, t, size))
  {
    assert p.maxMemory > 0 ==> p.bytes <= p.maxMemory;
    hide Inv, LiveBytes, Reused, Bump, AllocFresh;
    ReuseInv(p, t, size, i);
  }

  lemma Services(p: PoolState, t: DataType, size: nat)
    requires Inv(p) && size % ElementSize(t) == 0
    ensures Serves(p, size, Alloc(p, t, size))
  {
    var fit := BestFit(Sizes(p.free), size);
    if fit.None? {
      hide AllocFresh, Inv;
      AllocFreshInv(p, t, size);
    } else if TooLarge(p.free[fit.value].dataSize, size) {
      hide AllocFresh, Inv, LiveBytes;
      DiscardInv(p, fit.value);
      AllocFreshInv(Discard(p, fit.value), t, size);
    } else {
      ServesReused(p, t, size, fit.value);
    }
  }

  /**
   An allocation of a whole number of elements succeeds exactly when the live charges
   leave room for it: free buffers never cause a refusal. It then holds exactly the
   elements asked for; a refusal touches no live array and leaves the free list empty.
   */
  lemma AllocIff(p: PoolState, t: DataType, size: nat)
    requires Inv(p)
    ensures var (q, r) := Alloc(p, t, size);
      && Inv(q) && q.maxMemory == p.maxMemory
      && (r == Err(InvalidDimensions) <==> size % ElementSize(t) != 0)
      && (r == Err(InvalidDimensions) ==> q == p)
      && (size % ElementSize(t) == 0 ==>
            (r.Ok? <==> p.maxMemory == 0 || LiveBytes(p.live) + size <= p.maxMemory))
      && (r.Ok? ==> q.live == p.live + [Held(r.value, size)])
      && (r == Err(PoolExhausted) ==> q.live == p.live && q.free == [])
  {
    hide Inv, LiveBytes, AllocFresh, Discard, BestFit, Sizes, Reused;
    if size % ElementSize(t) == 0 {
      hide Alloc;
      Services(p, t, size);
    }
  }

  /** Every allocation that succeeds holds exactly the requested elements, fresh, reused or retyped. */
  lemma AllocHolds(p: PoolState, t: DataType, size: nat)
    requires Inv(p)
    ensures var r := Alloc(p, t, size).1;
      r.Ok? ==>
        && r.value.data.dataType == t && r.value.data.len * ElementSize(t) == size
        && Snug(size, r.value.dataSize)
        && r.value.data.Valid() && r.value.data.charge == Some(r.value.dataSize)
  {
    hide Evict, Bump, Retyped, Fresh, SumSizes;
    var fit := BestFit(Sizes(p.free), size);
    if size % ElementSize(t) == 0 {
      if fit.Some? && !TooLarge(p.free[fit.value].dataSize, size) {
        ReusedCharged(p.free[fit.value], t, size);
      } else {
        FreshCharged(t, size);
      }
    }
  }

  lemma ReleaseInv(p: PoolState, i: nat, data: Buffer)
    requires Inv(p) && i < |p.live| && Charged(data, p.live[i].arr.dataSize)
    ensures Inv(Release(p, i, data)) && Release(p, i, data).bytes == p.bytes
  {
    hide SumSizes, LiveBytes, Charged, InOrder, Bump, Count;
    BumpCount(|p.free|, 1);
    LiveWithout(p.live, i);
    var b := FreeBuffer(data, p.live[i].arr.dataSize);
    assert Sizes(p.free + [b]) == Sizes(p.free) + [b.dataSize];
    SumPush(Sizes(p.free), b.dataSize);
  }

  lemma EmptyFreeInv(p: PoolState)
    requires Inv(p)
    ensures Inv(EmptyFree(p)) && EmptyFree(p).bytes == LiveBytes(p.live) && EmptyFree(p).numFree == 0
  {
    BumpCount(|p.free| + |p.live|, -|p.free|);
    BumpCount(|p.free|, -|p.free|);
    assert Count(0) == 0;
    hide LiveBytes, SumSizes, Bump, Count;
    EmptySizes([]);
  }

  // Eviction removes the fewest buffers.

  function Chosen(sizes: seq<nat>, pick: seq<bool>): (n: nat)
    requires |sizes| == |pick|
  {
    if |sizes| == 0 then 0
    else Chosen(sizes[..|sizes| - 1], pick[..|sizes| - 1]) + (if pick[|sizes| - 1] then sizes[|sizes| - 1] else 0)
  }

  function Picked(pick: seq<bool>): (n: nat)
  {
    if |pick| == 0 then 0 else Picked(pick[..|pick| - 1]) + (if pick[|pick| - 1] then 1 else 0)
  }

  lemma {:induction false} PickWithout(sizes: seq<nat>, pick: seq<bool>, i: nat)
    requires |sizes| == |pick| && i < |sizes|
    ensures Chosen(Without(sizes, i), Without(pick, i)) == Chosen(sizes, pick) - (if pick[i] then sizes[i] else 0)
    ensures Picked(Without(pick, i)) == Picked(pick) - (if pick[i] then 1 else 0)
  {
    hide Without;
    var n := |sizes| - 1;
    FrontWithout(sizes, i);
    FrontWithout(pick, i);
    if i < n {
      PickWithout(sizes[..n], pick[..n], i);
    }
  }

  lemma {:induction false} SomePicked(sizes: seq<nat>, pick: seq<bool>) returns (i: nat)
    requires |sizes| == |pick| && Chosen(sizes, pick) > 0
    ensures i < |pick| && pick[i]
  {
    var n := |sizes| - 1;
    if pick[n] {
      i := n;
    } else {
      i := SomePicked(sizes[..n], pick[..n]);
    }
  }

  /** Any choice of free buffers that reclaims `over` bytes has at least as many buffers as eviction removes. */
  lemma {:induction false} EvictsFewest(p: PoolState, over: int, pick: seq<bool>)
    requires |pick| == |p.free| && Chosen(Sizes(p.free), pick) >= over
    ensures |p.free| - |Evict(p, over).free| <= Picked(pick)
    decreases |p.free|
  {
    hide Chosen, Picked, Largest, Bump, Without;
    if |p.free| > 0 && over > 0 {
      var sizes := Sizes(p.free);
      var i := Largest(sizes);
      var q := Discard(p, i);
      SizesWithout(p.free, i);
      if pick[i] {
        PickWithout(sizes, pick, i);
        EvictsFewest(q, over - sizes[i], Without(pick, i));
      } else {
        // swap a picked buffer, no larger, for the one evicted
        var j := SomePicked(sizes, pick);
        var swapped := pick[j := false];
        ClearPick(sizes, pick, j);
        PickWithout(sizes, swapped, i);
        EvictsFewest(q, over - sizes[i], Without(swapped, i));
      }
    }
  }

  lemma {:induction false} ClearPick(sizes: seq<nat>, pick: seq<bool>, j: nat)
    requires |sizes| == |pick| && j < |pick| && pick[j]
    ensures Chosen(sizes, pick[j := false]) == Chosen(sizes, pick) - sizes[j]
    ensures Picked(pick[j := false]) == Picked(pick) - 1
  {
    PickWithout(sizes, pick, j);
    PickWithout(sizes, pick[j := false], j);
    assert Without(pick, j) == Without(pick[j := false], j);
  }

  // What an allocation does to the free list.

  /** Free buffer i, the smallest that holds the request and the first of equals, becomes the array: nothing is charged or evicted. */
  ghost predicate Reuses(p: PoolState, size: nat, q: PoolState, a: NDArray, i: nat)
  {
    && i < |p.free| && size <= p.free[i].dataSize
    && (forall j :: 0 <= j < |p.free| && size <= p.free[j].dataSize ==>
          p.free[i].dataSize <= p.free[j].dataSize && (j < i ==> p.free[i].dataSize < p.free[j].dataSize))
    && a.dataSize == p.free[i].dataSize && p.free[i].data.storage <= a.data.storage
    && q.free == p.free[..i] + p.free[i + 1..] && q.live == p.live + [Held(a, size)]
    && q.bytes == p.bytes && q.numAlloc == p.numAlloc
  }

  /**
   A fresh array of zeros charged exactly the request: with room for it no free buffer is
   touched, else no choice that makes room has fewer buffers than were evicted.
   */
  ghost predicate Makes(free: seq<FreeBuffer>, bytes: int, maxMemory: nat, size: nat,
                        q: PoolState, r: Result<NDArray, PoolError>)
  {
    && (r.Ok? ==> r.value.dataSize == size && forall b :: b in r.value.data.storage ==> b == 0)
    && (maxMemory == 0 || bytes + size <= maxMemory ==> r.Ok? && q.free == free && q.bytes == bytes + size)
    && (maxMemory > 0 && bytes + size > maxMemory ==>
          forall pick :: |pick| == |free| && Chosen(Sizes(free), pick) >= bytes + size - maxMemory ==>
            |free| - |q.free| <= Picked(pick))
  }

  /** A free buffer of at least the request and at most 1.5 times it is reused. */
  lemma AllocReuses(p: PoolState, t: DataType, size: nat, k: nat)
    requires Inv(p) && size % ElementSize(t) == 0
    requires k < |p.free| && size <= p.free[k].dataSize && 2 * p.free[k].dataSize <= 3 * size
    ensures var (q, r) := Alloc(p, t, size);
      r.Ok? && 2 * r.value.dataSize <= 3 * size && exists i: nat :: Reuses(p, size, q, r.value, i)
  {
    var fit := BestFit(Sizes(p.free), size);
    assert Sizes(p.free)[k] >= size;
    var i := fit.value;
    assert Sizes(p.free)[i] <= Sizes(p.free)[k];
    hide Inv, BestFit, Bump, AllocFresh;
    var (q, r) := Alloc(p, t, size);
    KeepsStorage(p.free[i], t, size / ElementSize(t)) by { Stored(p, i); }
    assert Reuses(p, size, q, r.value, i);
  }

  lemma Stored(p: PoolState, i: nat)
    requires Inv(p) && i < |p.free|
    ensures p.free[i].data.(charge := Some(p.free[i].dataSize)).Stored()
  {
    assert Charged(p.free[i].data, p.free[i].dataSize);
  }

  lemma KeepsStorage(b: FreeBuffer, t: DataType, len: nat)
    requires b.data.(charge := Some(b.dataSize)).Stored()
    ensures var a := Reused(b, t, len); a.dataSize == b.dataSize && b.data.storage <= a.data.storage
  {
    SetLenFits(b.data.(charge := Some(b.dataSize), dataType := t), len);
  }

  lemma FreshMakes(p: PoolState, t: DataType, size: nat)
    requires Inv(p)
    ensures var (q, r) := AllocFresh(p, t, size); Makes(p.free, p.bytes, p.maxMemory, size, q, r)
  {
    hide Inv, Evict, Chosen, Picked, Bump;
    var over := p.bytes + size - p.maxMemory;
    EvictInv(p, over);
    forall pick | |pick| == |p.free| && Chosen(Sizes(p.free), pick) >= over
      ensures |p.free| - |Evict(p, over).free| <= Picked(pick)
    {
      EvictsFewest(p, over, pick);
    }
  }

  /** Where no free buffer holds the request, a fresh one is made. */
  lemma AllocMakes(p: PoolState, t: DataType, size: nat)
    requires Inv(p) && size % ElementSize(t) == 0
    requires forall j :: 0 <= j < |p.free| ==> p.free[j].dataSize < size
    ensures var (q, r) := Alloc(p, t, size); Makes(p.free, p.bytes, p.maxMemory, size, q, r)
  {
    FreshMakes(p, t, size);
    hide Makes, AllocFresh;
    assert BestFit(Sizes(p.free), size).None?;
  }

  /** i is the smallest free buffer that holds the request. */
  ghost predicate SmallestFit(p: PoolState, size: nat, i: nat)
  {
    && i < |p.free| && size <= p.free[i].dataSize
    && forall j :: 0 <= j < |p.free| && size <= p.free[j].dataSize ==> p.free[i].dataSize <= p.free[j].dataSize
  }

  /** Where those that do are all over 1.5 times it, the smallest of them is freed and a fresh one made. */
  lemma AllocReplaces(p: PoolState, t: DataType, size: nat, k: nat)
    requires Inv(p) && size % ElementSize(t) == 0 && k < |p.free| && size <= p.free[k].dataSize
    requires forall j :: 0 <= j < |p.free| && size <= p.free[j].dataSize ==> 2 * p.free[j].dataSize > 3 * size
    ensures var (q, r) := Alloc(p, t, size);
      exists i: nat :: SmallestFit(p, size, i) &&
        Makes(p.free[..i] + p.free[i + 1..], p.bytes - p.free[i].dataSize, p.maxMemory, size, q, r)
  {
    var fit := BestFit(Sizes(p.free), size);
    assert Sizes(p.free)[k] >= size;
    var i := fit.value;
    assert SmallestFit(p, size, i);
    DiscardInv(p, i);
    FreshMakes(Discard(p, i), t, size);
    hide Inv, BestFit, Bump, AllocFresh, Makes;
    var (q, r) := Alloc(p, t, size);
    assert Makes(p.free[..i] + p.free[i + 1..], p.bytes - p.free[i].dataSize, p.maxMemory, size, q, r);
  }

  // Runs.

  /** What callers do: allocate, use a live array's buffer, drop an array, empty the free list. */
  datatype Op =
    | AllocOp(t: DataType, size: nat)
    | UseOp(i: nat, uses: seq<DataBuffer.Op>)
    | ReleaseOp(i: nat)
    | EmptyOp

  /** Live array i after its holder's operations on the buffer. */
  ghost function Used(p: PoolState, i: nat, uses: seq<DataBuffer.Op>): (q: PoolState)
    requires i < |p.live|
  {
    var h := p.live[i];
    p.(live := p.live[i := h.(arr := h.arr.(data := After(h.arr.data, uses)))])
  }

  ghost function Do(p: PoolState, op: Op): (q: PoolState)
  {
    match op
    case AllocOp(t, size) => Alloc(p, t, size).0
    case UseOp(i, uses) => if i < |p.live| then Used(p, i, uses) else p
    case ReleaseOp(i) => if i < |p.live| then Release(p, i, p.live[i].arr.data) else p
    case EmptyOp => EmptyFree(p)
  }

  /** A new pool after a sequence of operations. */
  ghost function Run(maxMemory: nat, ops: seq<Op>): (p: PoolState)
  {
    if |ops| == 0 then PoolState(maxMemory, 0, 0, 0, [], [])
    else Do(Run(maxMemory, ops[..|ops| - 1]), ops[|ops| - 1])
  }

  lemma LiveUpdate(live: seq<Held>, i: nat, h: Held)
    requires i < |live| && h.arr.dataSize == live[i].arr.dataSize
    ensures LiveBytes(live[i := h]) == LiveBytes(live)
  {
    hide SumSizes;
    assert Charges(live[i := h]) == Charges(live);
  }

  /** Whatever a holder does to its buffer, its charge and the accounts stay in order. */
  lemma UsedInv(p: PoolState, i: nat, uses: seq<DataBuffer.Op>)
    requires Inv(p) && i < |p.live|
    ensures Inv(Used(p, i, uses))
  {
    hide SumSizes, LiveBytes, After, Count;
    var h := p.live[i];
    assert InOrder(h);
    NeverPastCharge(h.arr.data, uses);
    LiveUpdate(p.live, i, Used(p, i, uses).live[i]);
  }

  lemma DoInv(p: PoolState, op: Op)
    requires Inv(p)
    ensures Inv(Do(p, op)) && Do(p, op).maxMemory == p.maxMemory
  {
    match op
    case AllocOp(t, size) =>
      hide Inv, Alloc;
      AllocIff(p, t, size);
    case UseOp(i, uses) =>
      if i < |p.live| {
        UsedInv(p, i, uses);
      }
    case ReleaseOp(i) =>
      if i < |p.live| {
        assert InOrder(p.live[i]);
        hide Inv;
        ReleaseInv(p, i, p.live[i].arr.data);
      }
    case EmptyOp =>
      hide Inv;
      EmptyFreeInv(p);
  }

  /** Over every run of allocations, uses, drops and emptyings the accounts are in order. */
  lemma {:induction false} RunInv(maxMemory: nat, ops: seq<Op>)
    ensures Inv(Run(maxMemory, ops)) && Run(maxMemory, ops).maxMemory == maxMemory
  {
    if |ops| == 0 {
      EmptySizes([]);
    } else {
      hide Inv, Do;
      RunInv(maxMemory, ops[..|ops| - 1]);
      DoInv(Run(maxMemory, ops[..|ops| - 1]), ops[|ops| - 1]);
    }
  }

  /**
   Over every run the charged bytes are the live and free ones, live charges are at
   most 1.5 times the requests, and every live buffer, however used, is within its charge.
   */
  lemma RunAccounts(maxMemory: nat, ops: seq<Op>)
    ensures var p := Run(maxMemory, ops);
      && p.bytes == SumSizes(Sizes(p.free)) + LiveBytes(p.live)
      && (maxMemory > 0 ==> p.bytes <= maxMemory)
      && 2 * LiveBytes(p.live) <= 3 * RequestedBytes(p.live)
      && forall i :: 0 <= i < |p.live| ==>
           p.live[i].arr.data.Valid() && p.live[i].arr.data.TotalBytes() <= p.live[i].arr.dataSize
  {
    RunInv(maxMemory, ops);
    var p := Run(maxMemory, ops);
    forall i | 0 <= i < |p.live|
      ensures Snug(p.live[i].requested, p.live[i].arr.dataSize)
    {
      assert InOrder(p.live[i]);
    }
    SnugSums(Requests(p.live), Charges(p.live));
    forall i | 0 <= i < |p.live|
      ensures p.live[i].arr.data.Valid() && p.live[i].arr.data.TotalBytes() <= p.live[i].arr.dataSize
    {
      assert InOrder(p.live[i]);
    }
  }

  /**
   At any point of any run, an allocation of a whole number of elements succeeds exactly
   when the live charges leave room, and then holds exactly the requested elements and
   type, whatever earlier holders did to a reused buffer.
   */
  lemma RunAllocs(maxMemory: nat, ops: seq<Op>, t: DataType, size: nat)
    requires size % ElementSize(t) == 0
    ensures var p := Run(maxMemory, ops); var r := Alloc(p, t, size).1;
      && (r.Ok? <==> maxMemory == 0 || LiveBytes(p.live) + size <= maxMemory)
      && (r.Ok? ==>
            && r.value.data.dataType == t && r.value.data.len * ElementSize(t) == size
            && r.value.data.Valid() && r.value.data.charge == Some(r.value.dataSize)
            && Snug(size, r.value.dataSize))
  {
    hide Inv, Alloc, LiveBytes;
    RunInv(maxMemory, ops);
    var p := Run(maxMemory, ops);
    AllocIff(p, t, size);
    AllocHolds(p, t, size);
  }

  /** At any point of any run a free buffer of at least the request and at most 1.5 times it is reused. */
  lemma RunReuses(maxMemory: nat, ops: seq<Op>, t: DataType, size: nat, k: nat)
    requires size % ElementSize(t) == 0
    requires var p := Run(maxMemory, ops);
      k < |p.free| && size <= p.free[k].dataSize && 2 * p.free[k].dataSize <= 3 * size
    ensures var p := Run(maxMemory, ops); var (q, r) := Alloc(p, t, size);
      r.Ok? && exists i: nat :: Reuses(p, size, q, r.value, i)
  {
    hide Inv, Alloc, Run, Reuses;
    RunInv(maxMemory, ops);
    AllocReuses(Run(maxMemory, ops), t, size, k);
  }
}
