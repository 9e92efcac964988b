/** The pool object: its counters and free list, changed in place. */
module PoolClass {
  import opened Wrappers
  import opened FreeList
  import opened Counters
  import opened DataBuffer
  import opened Pool

  class NDArrayPool {
    const maxMemory: nat
    var bytes: int
    var numAlloc: Counter
    var numFree: Counter
    var freeList: seq<FreeBuffer>
    /** The arrays handed out and not yet dropped, with what was asked for. */
    ghost var live: seq<Held>

    ghost function State(): (p: PoolState)
      reads this
    {
      PoolState(maxMemory, bytes, numAlloc, numFree, freeList, live)
    }

    constructor (maxMemory: nat)
      ensures State() == PoolState(maxMemory, 0, 0, 0, [], []) && Inv(State())
    {
      this.maxMemory := maxMemory;
      bytes, numAlloc, numFree, freeList, live := 0, 0, 0, [], [];
      EmptySizes([]);
    }

    /** The smallest free buffer that holds `need`, the first of equals. */
    method FindBestFit(need: nat) returns (r: Option<nat>)
      ensures r == BestFit(Sizes(freeList), need)
    {
      r := None;
      ghost var sizes := Sizes(freeList);
      for i := 0 to |freeList|
        invariant r == BestFit(sizes[..i], need)
      {
        assert sizes[..i + 1][..i] == sizes[..i];
        if freeList[i].dataSize >= need && (r.None? || freeList[i].dataSize < freeList[r.value].dataSize) {
          r := Some(i);
        }
      }
      assert sizes[..|freeList|] == sizes;
    }

    /** The largest free buffer, the last of equals. */
    method FindLargest() returns (at: nat)
      requires |freeList| > 0
      ensures at == Largest(Sizes(freeList))
    {
      at := 0;
      ghost var sizes := Sizes(freeList);
      for i := 1 to |freeList|
        invariant at == Largest(sizes[..i])
      {
        assert sizes[..i + 1][..i] == sizes[..i];
        if freeList[at].dataSize <= freeList[i].dataSize {
          at := i;
        }
      }
      assert sizes[..|freeList|] == sizes;
    }

    /** Free buffer i is dropped and uncounted. */
    method DropFree(i: nat)
      requires i < |freeList|
      modifies this
      ensures State() == Discard(old(State()), i)
    {
      var size := freeList[i].dataSize;
      freeList := freeList[..i] + freeList[i + 1..];
      numFree := Bump(numFree, -1);
      bytes := bytes - size;
      numAlloc := Bump(numAlloc, -1);
    }

    /** Largest first, until `over` bytes are reclaimed or the list is empty. */
    method EvictLargest(over: nat) returns (reclaimed: nat)
      modifies this
      ensures State() == Evict(old(State()), over)
      ensures reclaimed == old(bytes) - bytes
    {
      hide Largest;
      reclaimed := 0;
      while |freeList| > 0 && reclaimed < over
        invariant Evict(State(), over - reclaimed) == Evict(old(State()), over)
        invariant reclaimed == old(bytes) - bytes
        decreases |freeList|
      {
        var i := FindLargest();
        reclaimed := reclaimed + freeList[i].dataSize;
        DropFree(i);
      }
    }

    /** Reserve `size` bytes under the limit, evicting when it would be passed. */
    method Reserve(size: nat) returns (ok: bool)
      requires maxMemory > 0
      modifies this
      ensures var q := Evict(old(State()), old(bytes) + size - maxMemory);
        && ok == (q.bytes + size <= maxMemory)
        && State() == if ok then q.(bytes := q.bytes + size) else q
    {
      hide Evict, Largest;
      ghost var q := Evict(State(), bytes + size - maxMemory);
      EvictNothing(State(), bytes + size - maxMemory);
      while true
        invariant State() == old(State()) || State() == q
        invariant bytes + size <= maxMemory ==> State() == q
        invariant bytes + size > maxMemory ==> State() == old(State())
        decreases bytes + size > maxMemory
      {
        var current := bytes;
        if current + size > maxMemory {
          var over := current + size - maxMemory;
          var reclaimed := EvictLargest(over);
          if reclaimed < over {
            return false;
          }
        } else {
          bytes := current + size;
          return true;
        }
      }
    }

    /** Free buffer i goes back into use. */
    method TakeFree(i: nat, t: DataType, size: nat) returns (a: NDArray)
      requires i < |freeList|
      modifies this
      ensures var p := old(State());
        && a == Reused(p.free[i], t, size / ElementSize(t))
        && State() == p.(free := Without(p.free, i), numFree := Bump(p.numFree, -1), live := p.live + [Held(a, size)])
    {
      hide Reused;
      numFree := Bump(numFree, -1);
      var b := freeList[i];
      freeList := freeList[..i] + freeList[i + 1..];
      a := Reused(b, t, size / ElementSize(t));
      live := live + [Held(a, size)];
    }

    /** A fresh buffer, reserved under the limit first. */
    method MakeFresh(t: DataType, size: nat) returns (r: Result<NDArray, PoolError>)
      modifies this
      ensures (State(), r) == AllocFresh(old(State()), t, size)
    {
      hide Evict, Fresh;
      if maxMemory > 0 {
        var ok := Reserve(size);
        if !ok {
          return Err(PoolExhausted);
        }
      } else {
        bytes := bytes + size;
      }
      numAlloc := Bump(numAlloc, 1);
      var a := Adopt(Fresh(t, size / ElementSize(t)), size);
      live := live + [Held(a, size)];
      return Ok(a);
    }

    /** An array of `size` bytes of t elements: a free buffer that fits, or a fresh one. */
    method Alloc(t: DataType, size: nat) returns (r: Result<NDArray, PoolError>)
      modifies this
      ensures (State(), r) == Pool.Alloc(old(State()), t, size)
    {
      hide BestFit, AllocFresh, Reused, Without, Sizes;
      if size % ElementSize(t) != 0 {
        return Err(InvalidDimensions);
      }
      var found := FindBestFit(size);
      if found.Some? {
        var i := found.value;
        BestFitInRange(freeList, size);
        if !TooLarge(freeList[i].dataSize, size) {
          var a := TakeFree(i, t, size);
          return Ok(a);
        }
        DropFree(i);
      }
      r := MakeFresh(t, size);
    }

    /** The destructor of live array i puts its buffer back on the free list. */
    method Recycle(ghost i: nat, data: Buffer, dataSize: nat)
      requires i < |live| && live[i].arr.dataSize == dataSize
      modifies this
      ensures State() == Release(old(State()), i, data)
    {
      live := Without(live, i);
      freeList := freeList + [FreeBuffer(data, dataSize)];
      numFree := Bump(numFree, 1);
    }

    /** Every free buffer is dropped. */
    method EmptyFreeList()
      modifies this
      ensures State() == EmptyFree(old(State()))
    {
      var count := |freeList| % U32;
      assert Bump(numFree, -count) == Bump(numFree, -|freeList|);
      BumpZero(numAlloc);
      hide Bump, SumSizes;
      ghost var sizes := Sizes(freeList);
      var rest := freeList;
      freeList := [];
      assert sizes[..0] == [];
      SumNext(sizes, 0);
      for k := 0 to |rest|
        invariant freeList == [] && live == old(live) && numFree == old(numFree)
        invariant bytes == old(bytes) - SumSizes(sizes[..k])
        invariant numAlloc == Bump(old(numAlloc), -k)
      {
        SumNext(sizes, k);
        BumpTwice(old(numAlloc), -k, -1);
        bytes := bytes - rest[k].dataSize;
        numAlloc := Bump(numAlloc, -1);
      }
      assert sizes[..|rest|] == sizes;
      numFree := Bump(numFree, -count);
    }
  }

  lemma EvictNothing(p: PoolState, over: int)
    ensures over <= 0 ==> Evict(p, over) == p
  {
  }

  lemma BestFitInRange(free: seq<FreeBuffer>, need: nat)
    ensures BestFit(Sizes(free), need).Some? ==> BestFit(Sizes(free), need).value < |free|
  {
  }
}
