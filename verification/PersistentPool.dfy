/**
 A persistent array in its pool: the array's own machine beside the pool's operations,
 in any order. The array's charge is one live array of the pool's until the last holder
 of the array or of any publish is gone, and its recycling is that array's release.
 */
module PersistentPool {
  import opened FreeList
  import DataBuffer
  import opened Pool
  import A = Persistent

  /** The pool, the persistent array, and which live array of the pool's it is. */
  datatype Joint = Joint(pool: PoolState, arr: A.State, at: nat)

  /** What a reader of the buffer sees. */
  function Image(b: DataBuffer.Buffer): (d: A.Data)
  {
    if b.TotalBytes() <= |b.storage| then b.Contents() else []
  }

  /** Live array `at`, with the bytes the persistent array holds. */
  ghost predicate Tied(j: Joint)
  {
    && j.at < |j.pool.live| && j.arr.own in j.arr.heap
    && j.arr.heap[j.arr.own] == Image(j.pool.live[j.at].arr.data)
  }

  /** The driver writes the array's buffer. */
  ghost predicate RefillStep(j: Joint, j': Joint, uses: seq<DataBuffer.Op>)
  {
    && j.at < |j.pool.live| && j'.at == j.at
    && j'.pool == Used(j.pool, j.at, uses)
    && A.Refill(j.arr, j'.arr, Image(j'.pool.live[j.at].arr.data))
  }

  /** A publish, a clone or a drop: the pool sees nothing. */
  ghost predicate SilentStep(j: Joint, j': Joint)
  {
    && A.Next(j.arr, j'.arr) && j' == j.(arr := j'.arr)
    && j'.arr.recycled == j.arr.recycled && j.arr.own in j.arr.heap && j.arr.own in j'.arr.heap
    && j'.arr.heap[j.arr.own] == j.arr.heap[j.arr.own]
  }

  /** The last hold on the charge is gone. */
  ghost predicate RecycleStep(j: Joint, j': Joint)
  {
    && A.Recycle(j.arr, j'.arr) && j.at < |j.pool.live|
    && j'.at == j.at && j'.pool == Release(j.pool, j.at, j.pool.live[j.at].arr.data)
  }

  /** Not a use or a drop of live array `at`, which belong to the persistent array. */
  predicate Spares(op: Op, at: nat)
  {
    match op
    case UseOp(i, _) => i != at
    case ReleaseOp(i) => i != at
    case _ => true
  }

  /** Where live array `at` is after the operation. */
  function Moved(op: Op, at: nat): (n: nat)
  {
    if op.ReleaseOp? && op.i < at then at - 1 else at
  }

  /** Any other operation of the pool's; any at all once the array is recycled. */
  ghost predicate PoolStep(j: Joint, j': Joint, op: Op)
  {
    && j'.pool == Do(j.pool, op) && j'.arr == j.arr
    && (j.arr.recycled == [] ==> Spares(op, j.at) && j'.at == Moved(op, j.at))
  }

  ghost predicate Next(j: Joint, j': Joint)
  {
    || (exists uses :: RefillStep(j, j', uses))
    || SilentStep(j, j')
    || RecycleStep(j, j')
    || (exists op :: PoolStep(j, j', op))
  }

  /** A live array of a pool in any state a run leads to, just made persistent. */
  ghost predicate Init(j: Joint)
  {
    && (exists maxMemory, ops :: j.pool == Run(maxMemory, ops))
    && A.Init(j.arr) && Tied(j)
  }

  ghost predicate IsRun(run: seq<Joint>)
  {
    |run| > 0 && Init(run[0]) && forall i :: 0 <= i < |run| - 1 ==> Next(run[i], run[i + 1])
  }

  ghost predicate JointInv(j: Joint, charge: nat)
  {
    && Inv(j.pool) && A.Inv(j.arr)
    && (j.arr.recycled == [] ==> Tied(j) && j.pool.live[j.at].arr.dataSize == charge)
  }

  /** An operation on other arrays leaves live array `at` as it is. */
  lemma KeepsOthers(p: PoolState, op: Op, at: nat)
    requires Inv(p) && at < |p.live| && Spares(op, at)
    ensures var q := Do(p, op);
      Moved(op, at) < |q.live| && q.live[Moved(op, at)] == p.live[at]
  {
    hide Inv, Alloc, SumSizes, DataBuffer.After;
    match op
    case AllocOp(t, size) =>
      AllocLive(p, t, size);
    case ReleaseOp(i) =>
      if i < |p.live| {
        assert Release(p, i, p.live[i].arr.data).live[Moved(op, at)] == p.live[at];
      }
    case _ =>
  }

  lemma AllocLive(p: PoolState, t: DataBuffer.DataType, size: nat)
    requires Inv(p)
    ensures |p.live| <= |Alloc(p, t, size).0.live| && Alloc(p, t, size).0.live[..|p.live|] == p.live
  {
    hide Inv, Alloc, LiveBytes, DataBuffer.ElementSize;
    AllocIff(p, t, size);
    var (q, r) := Alloc(p, t, size);
    if r.Err? && r.error == InvalidDimensions {
      assert q == p;
    } else {
      assert q.live == p.live || q.live[..|p.live|] == p.live;
    }
  }

  lemma PoolStepInv(j: Joint, j': Joint, op: Op, charge: nat)
    requires JointInv(j, charge) && PoolStep(j, j', op)
    ensures JointInv(j', charge)
  {
    hide Inv, A.Inv, Do, Image;
    DoInv(j.pool, op);
    if j.arr.recycled == [] {
      KeepsOthers(j.pool, op, j.at);
    }
  }

  lemma RefillInv(j: Joint, j': Joint, uses: seq<DataBuffer.Op>, charge: nat)
    requires JointInv(j, charge) && RefillStep(j, j', uses)
    ensures JointInv(j', charge)
  {
    hide Inv, A.Inv, Image, DataBuffer.After;
    UsedInv(j.pool, j.at, uses);
    assert A.Next(j.arr, j'.arr);
    A.NextInv(j.arr, j'.arr);
    assert j.arr.recycled == [] by { UntilRecycled(j.arr, j'.arr, Image(j'.pool.live[j.at].arr.data)); }
  }

  lemma UntilRecycled(s: A.State, s': A.State, data: A.Data)
    requires A.Inv(s) && A.Refill(s, s', data)
    ensures s.recycled == []
  {
  }

  lemma RecycleInv(j: Joint, j': Joint, charge: nat)
    requires JointInv(j, charge) && RecycleStep(j, j')
    ensures JointInv(j', charge) && j.arr.recycled == [] && j'.arr.recycled != [] && !A.Held(j.arr)
  {
    assert j.arr.recycled == [];
    hide A.Inv, Image;
    assert InOrder(j.pool.live[j.at]);
    ReleaseInv(j.pool, j.at, j.pool.live[j.at].arr.data);
    assert A.Next(j.arr, j'.arr);
    A.NextInv(j.arr, j'.arr);
    if A.Held(j.arr) {
      A.HeldCharged(j.arr);
    }
  }

  lemma NextInv(j: Joint, j': Joint, charge: nat)
    requires JointInv(j, charge) && Next(j, j')
    ensures JointInv(j', charge)
  {
    hide Inv, A.Inv, A.Next;
    if uses :| RefillStep(j, j', uses) {
      RefillInv(j, j', uses, charge);
    } else if SilentStep(j, j') {
      A.NextInv(j.arr, j'.arr);
      A.NextKeeps(j.arr, j'.arr);
    } else if RecycleStep(j, j') {
      RecycleInv(j, j', charge);
    } else {
      var op :| PoolStep(j, j', op);
      PoolStepInv(j, j', op, charge);
    }
  }

  lemma InitInv(j: Joint)
    requires Init(j)
    ensures j.at < |j.pool.live| && JointInv(j, j.pool.live[j.at].arr.dataSize)
  {
    hide Inv;
    var maxMemory, ops :| j.pool == Run(maxMemory, ops);
    RunInv(maxMemory, ops);
  }

  /** The bytes the array was allocated with. */
  ghost function Charge(run: seq<Joint>): (n: nat)
    requires IsRun(run)
  {
    run[0].pool.live[run[0].at].arr.dataSize
  }

  lemma {:induction false} RunsInv(run: seq<Joint>, i: nat)
    requires IsRun(run) && i < |run|
    ensures JointInv(run[i], Charge(run))
  {
    hide JointInv, Next, Init;
    InitInv(run[0]);
    if i > 0 {
      RunsInv(run, i - 1);
      assert Next(run[i - 1], run[i - 1 + 1]);
      NextInv(run[i - 1], run[i], Charge(run));
    }
  }

  /**
   Over every order of pool operations, refills, publishes, clones and drops, until the
   buffer is recycled the array's charge is in the pool's bytes exactly once, however
   many publishes there are; and it is not recycled while anybody holds the array or a
   publish.
   */
  lemma ChargedOnce(run: seq<Joint>, i: nat)
    requires IsRun(run) && i < |run|
    ensures var j := run[i]; var p := j.pool;
      && (A.Held(j.arr) ==> j.arr.recycled == [])
      && (j.arr.recycled == [] ==>
            && j.at < |p.live| && p.live[j.at].arr.dataSize == Charge(run)
            && p.bytes == Charge(run) + LiveBytes(Without(p.live, j.at)) + SumSizes(Sizes(p.free)))
      && (p.maxMemory > 0 ==> p.bytes <= p.maxMemory)
  {
    RunsInv(run, i);
    var j := run[i];
    hide IsRun, A.Inv, A.Held, LiveBytes, SumSizes, Image;
    if A.Held(j.arr) {
      A.HeldCharged(j.arr);
    }
    if j.arr.recycled == [] {
      LiveWithout(j.pool.live, j.at);
    }
  }

  /** The shown publish has the bytes the pool's array holds. */
  lemma ShownIsPoolData(run: seq<Joint>, i: nat)
    requires IsRun(run) && i < |run| && run[i].arr.shown.Some?
    ensures var j := run[i]; var s := j.arr;
      && j.at < |j.pool.live| && s.shown.value < |s.pubs|
      && s.pubs[s.shown.value].published == Image(j.pool.live[j.at].arr.data)
  {
    hide IsRun, Inv, Image;
    RunsInv(run, i);
    A.HeldCharged(run[i].arr);
  }

  lemma StaysRecycled(j: Joint, j': Joint)
    requires Next(j, j') && j.arr.recycled != []
    ensures j'.arr.recycled != []
  {
  }

  lemma {:induction false} RecycledStays(run: seq<Joint>, i: nat, k: nat)
    requires IsRun(run) && i <= k < |run| && run[i].arr.recycled != []
    ensures run[k].arr.recycled != []
    decreases k
  {
    hide Next, Init;
    if i < k {
      RecycledStays(run, i, k - 1);
      assert Next(run[k - 1], run[k - 1 + 1]);
      StaysRecycled(run[k - 1], run[k]);
    }
  }

  /**
   The step that recycles comes after the last holder and happens once. It is the pool's
   release of that live array as it then is: the free list gains its buffer with its
   charge, and the bytes charged stay as they are.
   */
  lemma RecycleIsRelease(run: seq<Joint>, i: nat)
    requires IsRun(run) && i < |run| - 1 && run[i].arr.recycled != run[i + 1].arr.recycled
    ensures var j := run[i]; var q := run[i + 1].pool;
      && !A.Held(j.arr) && j.arr.recycled == [] && j.at < |j.pool.live|
      && q == Release(j.pool, j.at, j.pool.live[j.at].arr.data)
      && q.free == j.pool.free + [FreeBuffer(j.pool.live[j.at].arr.data, Charge(run))]
      && q.bytes == j.pool.bytes
    ensures forall k :: i < k < |run| ==> run[k].arr.recycled != []
  {
    RunsInv(run, i);
    var j, j' := run[i], run[i + 1];
    assert Next(j, j');
    assert RecycleStep(j, j') by { hide Inv, Do, Release, Used; }
    RecycleInv(j, j', Charge(run));
    forall k | i < k < |run|
      ensures run[k].arr.recycled != []
    {
      RecycledStays(run, i + 1, k);
    }
  }
}
