/**
 The two views of the pool agree: while one thread runs and the others are idle, the
 step machine does exactly what the sequential operations say.
 */
module PoolSolo {
  import opened Wrappers
  import opened FreeList
  import opened Counters
  import opened DataBuffer
  import opened Pool
  import M = PoolSteps

  function Arrays(live: seq<Held>): (s: seq<M.Array>)
    ensures |s| == |live|
    ensures forall i :: 0 <= i < |s| ==> s[i] == M.Array(live[i].requested, live[i].arr.dataSize)
  {
    seq(|live|, i requires 0 <= i < |live| => M.Array(live[i].requested, live[i].arr.dataSize))
  }

  /** The machine state with thread t at pc, the other n - 1 threads idle and the pool in state p. */
  function At(p: PoolState, n: nat, t: nat, pc: M.Pc): (s: M.State)
    requires t < n
  {
    M.State(p.maxMemory, p.bytes, p.numAlloc, p.numFree, Sizes(p.free), Arrays(p.live),
            if M.Holds(pc) then Some(t) else None, seq(n, i => if i == t then pc else M.Idle))
  }

  /** Thread t is in an operation. */
  ghost predicate Busy(s: M.State, t: nat)
  {
    t < |s.threads| && s.threads[t] != M.Idle
  }

  /** k steps of thread t alone lead from s to s', all in one operation. */
  ghost predicate Leads(k: nat, s: M.State, s': M.State, t: nat)
  {
    if k == 0 then s == s' else Busy(s, t) && exists m :: M.Step(s, m, t) && Leads(k - 1, m, s', t)
  }

  ghost predicate Reaches(s: M.State, s': M.State, t: nat)
  {
    exists k: nat :: Leads(k, s, s', t)
  }

  lemma ReachSelf(s: M.State, t: nat)
    ensures Reaches(s, s, t)
  {
    assert Leads(0, s, s, t);
  }

  lemma ReachStep(s: M.State, m: M.State, s': M.State, t: nat)
    requires Busy(s, t) && M.Step(s, m, t) && Reaches(m, s', t)
    ensures Reaches(s, s', t)
  {
    var k: nat :| Leads(k, m, s', t);
    assert Leads(k + 1, s, s', t);
  }

  lemma {:induction false} ReachTrans(s: M.State, m: M.State, s': M.State, t: nat)
    requires Reaches(s, m, t) && Reaches(m, s', t)
    ensures Reaches(s, s', t)
  {
    var k: nat :| Leads(k, s, m, t);
    LeadsThen(k, s, m, s', t);
  }

  lemma {:induction false} LeadsThen(k: nat, s: M.State, m: M.State, s': M.State, t: nat)
    requires Leads(k, s, m, t) && Reaches(m, s', t)
    ensures Reaches(s, s', t)
    decreases k
  {
    hide M.Step, Busy, Reaches;
    if k > 0 {
      var x :| M.Step(s, x, t) && Leads(k - 1, x, m, t);
      LeadsThen(k - 1, x, m, s', t);
      ReachStep(s, x, s', t);
    }
  }

  // However the steps go, the operation ends in the same state.

  /** s with thread t failed back from its compare-exchange for no reason. */
  ghost predicate FailsBack(s: M.State, s': M.State, t: nat)
  {
    && t < |s.threads| && s.threads[t].Loaded? && s.bytes == s.threads[t].current
    && s' == M.Go(s, t, M.Reserving(s.threads[t].need))
  }

  /** A thread has loaded the byte count only where there is a limit to check it against. */
  ghost predicate Limited(s: M.State, t: nat)
  {
    t < |s.threads| && (s.threads[t].Loaded? ==> s.maxMemory > 0)
  }

  lemma StaysLimited(s: M.State, s': M.State, t: nat)
    requires M.Step(s, s', t)
    ensures Limited(s', t)
  {
    hide BestFit, Largest, Bump, Without, M.SearchStep, M.ReserveStep, M.EvictStep, M.RecycleStep, M.EmptyStep;
    if M.ReserveStep(s, s', t) {
      LimitedReserving(s, s', t);
    } else if M.SearchStep(s, s', t) || M.EvictStep(s, s', t) {
      LimitedSearching(s, s', t);
    } else if M.RecycleStep(s, s', t) || M.EmptyStep(s, s', t) {
      LimitedRecycling(s, s', t);
    }
  }

  lemma LimitedReserving(s: M.State, s': M.State, t: nat)
    requires t < |s.threads| && M.ReserveStep(s, s', t)
    ensures Limited(s', t)
  {
    hide Bump;
  }

  lemma LimitedSearching(s: M.State, s': M.State, t: nat)
    requires t < |s.threads| && (M.SearchStep(s, s', t) || M.EvictStep(s, s', t))
    ensures Limited(s', t)
  {
    hide BestFit, Largest, Bump, Without;
  }

  lemma LimitedRecycling(s: M.State, s': M.State, t: nat)
    requires t < |s.threads| && (M.RecycleStep(s, s', t) || M.EmptyStep(s, s', t))
    ensures Limited(s', t)
  {
    hide Bump;
  }

  /** A thread in an operation has one step to take, but that its compare-exchange may fail. */
  lemma StepUnique(s: M.State, x: M.State, y: M.State, t: nat)
    requires Busy(s, t) && M.Step(s, x, t) && M.Step(s, y, t)
    ensures x == y || FailsBack(s, x, t) || FailsBack(s, y, t)
  {
    hide BestFit, Largest, Bump, Without;
  }

  /** After such a failure the thread is back where it was. */
  lemma FailsBackOnly(s: M.State, x: M.State, y: M.State, t: nat)
    requires FailsBack(s, x, t) && Limited(s, t) && M.Step(x, y, t)
    ensures Busy(x, t) && y == s
  {
    assert y.threads == s.threads;
  }

  /** Two completed runs of the same operation alone end in the same state. */
  lemma {:induction false} EndsUnique(k: nat, j: nat, s: M.State, e: M.State, f: M.State, t: nat)
    requires Leads(k, s, e, t) && Leads(j, s, f, t) && !Busy(e, t) && !Busy(f, t) && Limited(s, t)
    ensures e == f
    decreases k + j
  {
    hide M.Step, FailsBack, Limited, Busy;
    if k > 0 && j > 0 {
      var x :| M.Step(s, x, t) && Leads(k - 1, x, e, t);
      var y :| M.Step(s, y, t) && Leads(j - 1, y, f, t);
      StepUnique(s, x, y, t);
      if x == y {
        StaysLimited(s, x, t);
        EndsUnique(k - 1, j - 1, x, e, f, t);
      } else if FailsBack(s, x, t) {
        SkipFailure(k - 1, s, x, e, t);
        EndsUnique(k - 2, j, s, e, f, t);
      } else {
        SkipFailure(j - 1, s, y, f, t);
        EndsUnique(k, j - 2, s, e, f, t);
      }
    }
  }

  lemma SkipFailure(k: nat, s: M.State, x: M.State, e: M.State, t: nat)
    requires FailsBack(s, x, t) && Limited(s, t) && Leads(k, x, e, t) && !Busy(e, t)
    ensures k > 0 && Leads(k - 1, s, e, t)
  {
    hide M.Step;
    assert Busy(x, t);
    var y :| M.Step(x, y, t) && Leads(k - 1, y, e, t);
    FailsBackOnly(s, x, y, t);
  }

  /** From s thread t alone can complete its operation, and however it does, it ends in e. */
  ghost predicate Ends(s: M.State, e: M.State, t: nat)
  {
    && Reaches(s, e, t) && !Busy(e, t)
    && forall k: nat, f :: Leads(k, s, f, t) && !Busy(f, t) ==> f == e
  }

  lemma EndsThere(s: M.State, e: M.State, t: nat)
    requires Reaches(s, e, t) && !Busy(e, t) && Limited(s, t)
    ensures Ends(s, e, t)
  {
    hide M.Step, Leads, Busy, Limited;
    var k: nat :| Leads(k, s, e, t);
    forall j: nat, f | Leads(j, s, f, t) && !Busy(f, t)
      ensures f == e
    {
      EndsUnique(k, j, s, e, f, t);
    }
  }

  /** Moving thread t on leaves the other threads idle. */
  lemma Moves(p: PoolState, n: nat, t: nat, pc: M.Pc, pc': M.Pc)
    requires t < n
    ensures M.Go(At(p, n, t, pc), t, pc').threads == At(p, n, t, pc').threads
  {
  }

  lemma ArraysPush(live: seq<Held>, h: Held)
    ensures Arrays(live + [h]) == Arrays(live) + [M.Array(h.requested, h.arr.dataSize)]
  {
  }

  lemma ArraysWithout(live: seq<Held>, i: nat)
    requires i < |live|
    ensures Arrays(Without(live, i)) == Without(Arrays(live), i)
  {
  }

  /** Thread t alone steps from pc, the pool in state p, to pc', the pool in state q. */
  ghost predicate Steps(n: nat, t: nat, p: PoolState, pc: M.Pc, q: PoolState, pc': M.Pc)
  {
    t < n && pc != M.Idle && M.Step(At(p, n, t, pc), At(q, n, t, pc'), t)
  }

  /** A step and then the rest. */
  lemma Then(n: nat, t: nat, p: PoolState, pc: M.Pc, q: PoolState, pc': M.Pc, goal: M.State)
    requires Steps(n, t, p, pc, q, pc') && Reaches(At(q, n, t, pc'), goal, t)
    ensures Reaches(At(p, n, t, pc), goal, t)
  {
    hide M.Step, Reaches;
    ReachStep(At(p, n, t, pc), At(q, n, t, pc'), goal, t);
  }

  // The steps, one by one.

  lemma UnlockStep(n: nat, t: nat, p: PoolState, next: Option<nat>)
    requires t < n
    ensures Steps(n, t, p, M.Unlocking(next), p, if next.Some? then M.Reserving(next.value) else M.Idle)
  {
    Moves(p, n, t, M.Unlocking(next), if next.Some? then M.Reserving(next.value) else M.Idle);
  }

  lemma EvictSteps(n: nat, t: nat, p: PoolState, need: nat, over: nat, reclaimed: nat, size: nat)
    requires t < n
    ensures Steps(n, t, p, M.EvictBytes(need, over, reclaimed, size),
                  p.(bytes := p.bytes - size), M.EvictFree(need, over, reclaimed, size))
    ensures Steps(n, t, p, M.EvictFree(need, over, reclaimed, size),
                  p.(numFree := Bump(p.numFree, -1)), M.EvictAlloc(need, over, reclaimed, size))
    ensures Steps(n, t, p, M.EvictAlloc(need, over, reclaimed, size),
                  p.(numAlloc := Bump(p.numAlloc, -1)), M.Evicting(need, over, reclaimed + size))
  {
    hide Bump;
    var a, b, c := M.EvictBytes(need, over, reclaimed, size), M.EvictFree(need, over, reclaimed, size),
                   M.EvictAlloc(need, over, reclaimed, size);
    Moves(p, n, t, a, b);
    Moves(p, n, t, b, c);
    Moves(p, n, t, c, M.Evicting(need, over, reclaimed + size));
  }

  lemma EvictPick(n: nat, t: nat, p: PoolState, need: nat, over: nat, reclaimed: nat)
    requires t < n && |p.free| > 0 && reclaimed < over
    ensures var i := Largest(Sizes(p.free));
      Steps(n, t, p, M.Evicting(need, over, reclaimed),
            p.(free := Without(p.free, i)), M.EvictBytes(need, over, reclaimed, p.free[i].dataSize))
  {
    hide Largest, SumSizes;
    var i := Largest(Sizes(p.free));
    SizesWithout(p.free, i);
    Moves(p, n, t, M.Evicting(need, over, reclaimed), M.EvictBytes(need, over, reclaimed, p.free[i].dataSize));
  }

  lemma EvictDone(n: nat, t: nat, p: PoolState, need: nat, over: nat, reclaimed: nat)
    requires t < n && (|p.free| == 0 || reclaimed >= over)
    ensures Steps(n, t, p, M.Evicting(need, over, reclaimed),
                  p, M.Unlocking(if reclaimed >= over then Some(need) else None))
  {
    Moves(p, n, t, M.Evicting(need, over, reclaimed), M.Unlocking(if reclaimed >= over then Some(need) else None));
  }

  lemma LoadStep(n: nat, t: nat, p: PoolState, need: nat)
    requires t < n && p.maxMemory > 0 && p.bytes >= 0
    ensures Steps(n, t, p, M.Reserving(need), p, M.Loaded(need, p.bytes))
    ensures p.bytes + need > p.maxMemory ==>
      Steps(n, t, p, M.Loaded(need, p.bytes), p, M.Evicting(need, p.bytes + need - p.maxMemory, 0))
  {
    Moves(p, n, t, M.Reserving(need), M.Loaded(need, p.bytes));
    assert M.ReserveStep(At(p, n, t, M.Reserving(need)), At(p, n, t, M.Loaded(need, p.bytes)), t);
    if p.bytes + need > p.maxMemory {
      Moves(p, n, t, M.Loaded(need, p.bytes), M.Evicting(need, p.bytes + need - p.maxMemory, 0));
    }
  }

  lemma ChargeStep(n: nat, t: nat, p: PoolState, need: nat)
    requires t < n && p.bytes >= 0
    ensures p.maxMemory == 0 ==> Steps(n, t, p, M.Reserving(need), p.(bytes := p.bytes + need), M.Counting(need))
    ensures p.bytes + need <= p.maxMemory ==>
      Steps(n, t, p, M.Loaded(need, p.bytes), p.(bytes := p.bytes + need), M.Counting(need))
  {
    Moves(p, n, t, M.Reserving(need), M.Counting(need));
    Moves(p, n, t, M.Loaded(need, p.bytes), M.Counting(need));
  }

  lemma CountStep(n: nat, t: nat, p: PoolState, need: nat)
    requires t < n
    ensures Steps(n, t, p, M.Counting(need), p.(numAlloc := Bump(p.numAlloc, 1)), M.Adopting(need, need))
  {
    hide Bump;
    Moves(p, n, t, M.Counting(need), M.Adopting(need, need));
  }

  lemma AdoptStep(n: nat, t: nat, p: PoolState, h: Held)
    requires t < n
    ensures Steps(n, t, p, M.Adopting(h.requested, h.arr.dataSize), p.(live := p.live + [h]), M.Idle)
  {
    ArraysPush(p.live, h);
    Moves(p, n, t, M.Adopting(h.requested, h.arr.dataSize), M.Idle);
  }

  lemma SearchFails(n: nat, t: nat, p: PoolState, need: nat)
    requires t < n && BestFit(Sizes(p.free), need).None?
    ensures Steps(n, t, p, M.Searching(need), p, M.Unlocking(Some(need)))
  {
    hide BestFit;
    Moves(p, n, t, M.Searching(need), M.Unlocking(Some(need)));
  }

  lemma SearchFinds(n: nat, t: nat, p: PoolState, need: nat, i: nat)
    requires t < n && BestFit(Sizes(p.free), need) == Some(i) && i < |p.free|
    ensures if TooLarge(p.free[i].dataSize, need)
      then Steps(n, t, p, M.Searching(need), p.(free := Without(p.free, i)), M.DropFree(need, p.free[i].dataSize))
      else Steps(n, t, p, M.Searching(need), p.(numFree := Bump(p.numFree, -1)), M.Taking(need, i))
  {
    hide BestFit, Bump, SumSizes;
    SizesWithout(p.free, i);
    if TooLarge(p.free[i].dataSize, need) {
      Moves(p, n, t, M.Searching(need), M.DropFree(need, p.free[i].dataSize));
    } else {
      Moves(p, n, t, M.Searching(need), M.Taking(need, i));
    }
  }

  lemma DropSteps(n: nat, t: nat, p: PoolState, need: nat, size: nat)
    requires t < n
    ensures Steps(n, t, p, M.DropFree(need, size), p.(numFree := Bump(p.numFree, -1)), M.DropBytes(need, size))
    ensures Steps(n, t, p, M.DropBytes(need, size), p.(bytes := p.bytes - size), M.DropAlloc(need))
    ensures Steps(n, t, p, M.DropAlloc(need), p.(numAlloc := Bump(p.numAlloc, -1)), M.Unlocking(Some(need)))
  {
    hide Bump;
    Moves(p, n, t, M.DropFree(need, size), M.DropBytes(need, size));
    Moves(p, n, t, M.DropBytes(need, size), M.DropAlloc(need));
    Moves(p, n, t, M.DropAlloc(need), M.Unlocking(Some(need)));
  }

  lemma TakeStep(n: nat, t: nat, p: PoolState, need: nat, i: nat)
    requires t < n && i < |p.free|
    ensures Steps(n, t, p, M.Taking(need, i), p.(free := Without(p.free, i)), M.Adopting(need, p.free[i].dataSize))
  {
    hide SumSizes;
    SizesWithout(p.free, i);
    Moves(p, n, t, M.Taking(need, i), M.Adopting(need, p.free[i].dataSize));
  }

  lemma LockStep(n: nat, t: nat, p: PoolState, need: nat)
    requires t < n
    ensures Steps(n, t, p, M.Locking(need), p, M.Searching(need))
  {
    Moves(p, n, t, M.Locking(need), M.Searching(need));
  }

  lemma PushStep(n: nat, t: nat, p: PoolState, b: FreeBuffer)
    requires t < n
    ensures Steps(n, t, p, M.Pushing(b.dataSize), p.(free := p.free + [b]), M.CountFree)
  {
    assert Sizes(p.free + [b]) == Sizes(p.free) + [b.dataSize];
    Moves(p, n, t, M.Pushing(b.dataSize), M.CountFree);
    assert M.RecycleStep(At(p, n, t, M.Pushing(b.dataSize)), At(p.(free := p.free + [b]), n, t, M.CountFree), t);
  }

  lemma CountFreeStep(n: nat, t: nat, p: PoolState)
    requires t < n
    ensures Steps(n, t, p, M.CountFree, p.(numFree := Bump(p.numFree, 1)), M.Idle)
  {
    hide Bump;
    Moves(p, n, t, M.CountFree, M.Idle);
    assert M.RecycleStep(At(p, n, t, M.CountFree), At(p.(numFree := Bump(p.numFree, 1)), n, t, M.Idle), t);
  }

  lemma DrainBytes(n: nat, t: nat, p: PoolState, count: nat, rest: seq<nat>)
    requires t < n && |rest| > 0
    ensures Steps(n, t, p, M.Draining(count, rest), p.(bytes := p.bytes - rest[0]), M.DrainAlloc(count, rest[1..]))
  {
    var from, to := M.Draining(count, rest), M.DrainAlloc(count, rest[1..]);
    Moves(p, n, t, from, to);
    assert M.EmptyStep(At(p, n, t, from), At(p.(bytes := p.bytes - rest[0]), n, t, to), t);
  }

  lemma DrainCount(n: nat, t: nat, p: PoolState, count: nat, rest: seq<nat>)
    requires t < n
    ensures Steps(n, t, p, M.DrainAlloc(count, rest), p.(numAlloc := Bump(p.numAlloc, -1)), M.Draining(count, rest))
  {
    hide Bump;
    var from, to := M.DrainAlloc(count, rest), M.Draining(count, rest);
    Moves(p, n, t, from, to);
    assert M.EmptyStep(At(p, n, t, from), At(p.(numAlloc := Bump(p.numAlloc, -1)), n, t, to), t);
  }

  lemma DrainDone(n: nat, t: nat, p: PoolState, count: nat)
    requires t < n
    ensures Steps(n, t, p, M.Draining(count, []), p.(numFree := Bump(p.numFree, 0 - count)), M.Unlocking(None))
  {
    hide Bump;
    var from, to := M.Draining(count, []), M.Unlocking(None);
    Moves(p, n, t, from, to);
    assert M.EmptyStep(At(p, n, t, from), At(p.(numFree := Bump(p.numFree, 0 - count)), n, t, to), t);
  }

  lemma EmptyStep(n: nat, t: nat, p: PoolState)
    requires t < n
    ensures Steps(n, t, p, M.Emptying, p.(free := []), M.Draining(|p.free| % U32, Sizes(p.free)))
  {
    Moves(p, n, t, M.Emptying, M.Draining(|p.free| % U32, Sizes(p.free)));
    assert Sizes([]) == [];
  }

  // The operations.

  /** One turn of the eviction loop. */
  lemma EvictOnce(p: PoolState, n: nat, t: nat, need: nat, over: nat, reclaimed: nat)
    requires t < n && |p.free| > 0 && reclaimed < over
    ensures var i := Largest(Sizes(p.free));
      Reaches(At(p, n, t, M.Evicting(need, over, reclaimed)),
              At(Discard(p, i), n, t, M.Evicting(need, over, reclaimed + p.free[i].dataSize)), t)
  {
    hide Bump, SumSizes, Largest, Reaches, Steps, At;
    var i := Largest(Sizes(p.free));
    var size := p.free[i].dataSize;
    var p1 := p.(free := Without(p.free, i));
    var p2 := p1.(bytes := p.bytes - size);
    var p3 := p2.(numFree := Bump(p.numFree, -1));
    var p4 := p3.(numAlloc := Bump(p.numAlloc, -1));
    assert p4 == Discard(p, i);
    var goal := At(p4, n, t, M.Evicting(need, over, reclaimed + size));
    EvictPick(n, t, p, need, over, reclaimed);
    EvictSteps(n, t, p1, need, over, reclaimed, size);
    EvictSteps(n, t, p2, need, over, reclaimed, size);
    EvictSteps(n, t, p3, need, over, reclaimed, size);
    ReachSelf(goal, t);
    Then(n, t, p3, M.EvictAlloc(need, over, reclaimed, size), p4, M.Evicting(need, over, reclaimed + size), goal);
    Then(n, t, p2, M.EvictFree(need, over, reclaimed, size), p3, M.EvictAlloc(need, over, reclaimed, size), goal);
    Then(n, t, p1, M.EvictBytes(need, over, reclaimed, size), p2, M.EvictFree(need, over, reclaimed, size), goal);
    Then(n, t, p, M.Evicting(need, over, reclaimed), p1, M.EvictBytes(need, over, reclaimed, size), goal);
  }

  lemma EvictNext(p: PoolState, over: int)
    ensures if |p.free| == 0 || over <= 0 then Evict(p, over) == p
      else
        var i := Largest(Sizes(p.free));
        && Evict(p, over) == Evict(Discard(p, i), over - p.free[i].dataSize)
        && Discard(p, i).bytes == p.bytes - p.free[i].dataSize && |Discard(p, i).free| == |p.free| - 1
  {
  }

  /** The whole eviction loop. */
  lemma {:induction false} EvictAlone(p: PoolState, n: nat, t: nat, need: nat, over: nat, reclaimed: nat)
    requires t < n
    ensures var q := Evict(p, over - reclaimed);
      && q.bytes <= p.bytes
      && (|q.free| == 0 || reclaimed + (p.bytes - q.bytes) >= over)
      && Reaches(At(p, n, t, M.Evicting(need, over, reclaimed)),
                 At(q, n, t, M.Evicting(need, over, reclaimed + (p.bytes - q.bytes))), t)
    decreases |p.free|
  {
    EvictNext(p, over - reclaimed);
    hide Largest, Bump, Reaches, At, Evict, Discard, Sizes, SumSizes;
    if |p.free| == 0 || reclaimed >= over {
      ReachSelf(At(p, n, t, M.Evicting(need, over, reclaimed)), t);
    } else {
      var i := Largest(Sizes(p.free));
      var size := p.free[i].dataSize;
      EvictOnce(p, n, t, need, over, reclaimed);
      EvictAlone(Discard(p, i), n, t, need, over, reclaimed + size);
      var q := Evict(p, over - reclaimed);
      assert over - reclaimed - size == over - (reclaimed + size);
      ReachTrans(At(p, n, t, M.Evicting(need, over, reclaimed)),
                 At(Discard(p, i), n, t, M.Evicting(need, over, reclaimed + size)),
                 At(q, n, t, M.Evicting(need, over, reclaimed + (p.bytes - q.bytes))), t);
    }
  }

  /** From the reservation on: counted, adopted, live. */
  lemma AdoptAlone(p: PoolState, n: nat, t: nat, ty: DataType, size: nat)
    requires t < n
    ensures var a := Adopt(Fresh(ty, size / ElementSize(ty)), size);
      Reaches(At(p, n, t, M.Counting(size)),
              At(p.(numAlloc := Bump(p.numAlloc, 1), live := p.live + [Held(a, size)]), n, t, M.Idle), t)
  {
    hide Bump, Fresh, Reaches, Steps, At;
    var h := Held(Adopt(Fresh(ty, size / ElementSize(ty)), size), size);
    var p1 := p.(numAlloc := Bump(p.numAlloc, 1));
    var p2 := p1.(live := p.live + [h]);
    var goal := At(p2, n, t, M.Idle);
    CountStep(n, t, p, size);
    AdoptStep(n, t, p1, h);
    ReachSelf(goal, t);
    Then(n, t, p1, M.Adopting(size, size), p2, M.Idle, goal);
    Then(n, t, p, M.Counting(size), p1, M.Adopting(size, size), goal);
  }

  /** The bytes fit: load, compare-exchange. */
  lemma ReserveAlone(p: PoolState, n: nat, t: nat, size: nat)
    requires t < n && p.bytes >= 0 && (p.maxMemory > 0 ==> p.bytes + size <= p.maxMemory)
    ensures Reaches(At(p, n, t, M.Reserving(size)), At(p.(bytes := p.bytes + size), n, t, M.Counting(size)), t)
  {
    hide Reaches, Steps, At;
    var q := p.(bytes := p.bytes + size);
    var goal := At(q, n, t, M.Counting(size));
    ReachSelf(goal, t);
    ChargeStep(n, t, p, size);
    if p.maxMemory == 0 {
      Then(n, t, p, M.Reserving(size), q, M.Counting(size), goal);
    } else {
      LoadStep(n, t, p, size);
      Then(n, t, p, M.Loaded(size, p.bytes), q, M.Counting(size), goal);
      Then(n, t, p, M.Reserving(size), p, M.Loaded(size, p.bytes), goal);
    }
  }

  /** The eviction loop is over: unlock, then reserve again or give up. */
  lemma EvictedAlone(q: PoolState, n: nat, t: nat, size: nat, over: nat, reclaimed: nat)
    requires t < n && (|q.free| == 0 || reclaimed >= over)
    ensures Reaches(At(q, n, t, M.Evicting(size, over, reclaimed)),
                    At(q, n, t, if reclaimed >= over then M.Reserving(size) else M.Idle), t)
  {
    hide Reaches, Steps, At;
    var next := if reclaimed >= over then Some(size) else None;
    var goal := At(q, n, t, if reclaimed >= over then M.Reserving(size) else M.Idle);
    ReachSelf(goal, t);
    UnlockStep(n, t, q, next);
    EvictDone(n, t, q, size, over, reclaimed);
    Then(n, t, q, M.Unlocking(next), q, if reclaimed >= over then M.Reserving(size) else M.Idle, goal);
    Then(n, t, q, M.Evicting(size, over, reclaimed), q, M.Unlocking(next), goal);
  }

  /** The bytes do not fit: load, then take the lock to evict. */
  lemma OverLimitAlone(p: PoolState, n: nat, t: nat, size: nat)
    requires t < n && p.bytes >= 0 && p.maxMemory > 0 && p.bytes + size > p.maxMemory
    ensures Reaches(At(p, n, t, M.Reserving(size)),
                    At(p, n, t, M.Evicting(size, p.bytes + size - p.maxMemory, 0)), t)
  {
    hide Reaches, Steps, At;
    var over := M.Evicting(size, p.bytes + size - p.maxMemory, 0);
    var goal := At(p, n, t, over);
    ReachSelf(goal, t);
    LoadStep(n, t, p, size);
    Then(n, t, p, M.Loaded(size, p.bytes), p, over, goal);
    Then(n, t, p, M.Reserving(size), p, M.Loaded(size, p.bytes), goal);
  }

  lemma MakeRoomAlone(p: PoolState, n: nat, t: nat, size: nat)
    requires t < n && p.bytes >= 0 && p.maxMemory > 0 && p.bytes + size > p.maxMemory
    ensures var q := Evict(p, p.bytes + size - p.maxMemory);
      Reaches(At(p, n, t, M.Reserving(size)),
              At(q, n, t, if q.bytes + size <= p.maxMemory then M.Reserving(size) else M.Idle), t)
  {
    hide Evict, Reaches, Bump, At;
    var over := p.bytes + size - p.maxMemory;
    var q := Evict(p, over);
    var goal := At(q, n, t, if q.bytes + size <= p.maxMemory then M.Reserving(size) else M.Idle);
    EvictAlone(p, n, t, size, over, 0);
    var start, done := M.Evicting(size, over, 0), M.Evicting(size, over, p.bytes - q.bytes);
    OverLimitAlone(p, n, t, size);
    EvictedAlone(q, n, t, size, over, p.bytes - q.bytes);
    ReachTrans(At(p, n, t, start), At(q, n, t, done), goal, t);
    ReachTrans(At(p, n, t, M.Reserving(size)), At(p, n, t, start), goal, t);
  }

  lemma FreshAlone(p: PoolState, n: nat, t: nat, ty: DataType, size: nat)
    requires t < n && Inv(p) && size % ElementSize(ty) == 0
    ensures Reaches(At(p, n, t, M.Reserving(size)), At(AllocFresh(p, ty, size).0, n, t, M.Idle), t)
  {
    hide Evict, Reaches, Bump, Fresh, At, Inv;
    var over := p.bytes + size - p.maxMemory;
    NoDebt(p);
    EvictInv(p, over);
    var q := if p.maxMemory > 0 then Evict(p, over) else p;
    NoDebt(q);
    if p.maxMemory > 0 && over > 0 {
      MakeRoomAlone(p, n, t, size);
    } else {
      ReachSelf(At(p, n, t, M.Reserving(size)), t);
    }
    if p.maxMemory == 0 || q.bytes + size <= p.maxMemory {
      GrantedAlone(q, n, t, ty, size);
      var goal := At(AllocFresh(p, ty, size).0, n, t, M.Idle);
      ReachTrans(At(p, n, t, M.Reserving(size)), At(q, n, t, M.Reserving(size)), goal, t);
    }
  }

  lemma NoDebt(p: PoolState)
    requires Inv(p)
    ensures p.bytes >= 0
  {
  }

  /** There is room: charge, count and adopt. */
  lemma GrantedAlone(q: PoolState, n: nat, t: nat, ty: DataType, size: nat)
    requires t < n && q.bytes >= 0 && (q.maxMemory > 0 ==> q.bytes + size <= q.maxMemory)
    ensures var a := Adopt(Fresh(ty, size / ElementSize(ty)), size);
      var r := q.(bytes := q.bytes + size, numAlloc := Bump(q.numAlloc, 1), live := q.live + [Held(a, size)]);
      Reaches(At(q, n, t, M.Reserving(size)), At(r, n, t, M.Idle), t)
  {
    hide Reaches, Bump, Fresh, Adopt, At;
    var charged := q.(bytes := q.bytes + size);
    ReserveAlone(q, n, t, size);
    AdoptAlone(charged, n, t, ty, size);
    var a := Adopt(Fresh(ty, size / ElementSize(ty)), size);
    var r := charged.(numAlloc := Bump(q.numAlloc, 1), live := q.live + [Held(a, size)]);
    ReachTrans(At(q, n, t, M.Reserving(size)), At(charged, n, t, M.Counting(size)), At(r, n, t, M.Idle), t);
  }

  /** The search finds nothing: unlock and reserve. */
  lemma NoFitAlone(p: PoolState, n: nat, t: nat, size: nat)
    requires t < n && BestFit(Sizes(p.free), size).None?
    ensures Reaches(At(p, n, t, M.Searching(size)), At(p, n, t, M.Reserving(size)), t)
  {
    hide BestFit, Reaches, Steps, At;
    var goal := At(p, n, t, M.Reserving(size));
    ReachSelf(goal, t);
    SearchFails(n, t, p, size);
    UnlockStep(n, t, p, Some(size));
    Then(n, t, p, M.Unlocking(Some(size)), p, M.Reserving(size), goal);
    Then(n, t, p, M.Searching(size), p, M.Unlocking(Some(size)), goal);
  }

  /** The search finds an oversize buffer: drop it, unlock and reserve. */
  lemma OversizeAlone(p: PoolState, n: nat, t: nat, size: nat, i: nat)
    requires t < n && BestFit(Sizes(p.free), size) == Some(i) && i < |p.free| && TooLarge(p.free[i].dataSize, size)
    ensures Reaches(At(p, n, t, M.Searching(size)), At(Discard(p, i), n, t, M.Reserving(size)), t)
  {
    hide BestFit, Bump, SumSizes, Reaches, Steps, At;
    var big := p.free[i].dataSize;
    var p1 := p.(free := Without(p.free, i));
    var p2 := p1.(numFree := Bump(p.numFree, -1));
    var p3 := p2.(bytes := p.bytes - big);
    var p4 := p3.(numAlloc := Bump(p.numAlloc, -1));
    assert p4 == Discard(p, i);
    var goal := At(p4, n, t, M.Reserving(size));
    SearchFinds(n, t, p, size, i);
    DropSteps(n, t, p1, size, big);
    DropSteps(n, t, p2, size, big);
    DropSteps(n, t, p3, size, big);
    UnlockStep(n, t, p4, Some(size));
    ReachSelf(goal, t);
    Then(n, t, p4, M.Unlocking(Some(size)), p4, M.Reserving(size), goal);
    Then(n, t, p3, M.DropAlloc(size), p4, M.Unlocking(Some(size)), goal);
    Then(n, t, p2, M.DropBytes(size, big), p3, M.DropAlloc(size), goal);
    Then(n, t, p1, M.DropFree(size, big), p2, M.DropBytes(size, big), goal);
    Then(n, t, p, M.Searching(size), p1, M.DropFree(size, big), goal);
  }

  /** The search finds a buffer that fits: take it, adopt it. */
  lemma ReuseAlone(p: PoolState, n: nat, t: nat, ty: DataType, size: nat, i: nat)
    requires t < n && size % ElementSize(ty) == 0
    requires BestFit(Sizes(p.free), size) == Some(i) && i < |p.free| && !TooLarge(p.free[i].dataSize, size)
    ensures Reaches(At(p, n, t, M.Searching(size)), At(Alloc(p, ty, size).0, n, t, M.Idle), t)
  {
    hide BestFit, Bump, SumSizes, Reused, Reaches, Steps, At;
    var b := p.free[i];
    var h := Held(Reused(b, ty, size / ElementSize(ty)), size);
    ReusedSize(b, ty, size / ElementSize(ty));
    var p1 := p.(numFree := Bump(p.numFree, -1));
    var p2 := p1.(free := Without(p.free, i));
    var p3 := p2.(live := p.live + [h]);
    assert p3 == Alloc(p, ty, size).0;
    var goal := At(p3, n, t, M.Idle);
    SearchFinds(n, t, p, size, i);
    TakeStep(n, t, p1, size, i);
    AdoptStep(n, t, p2, h);
    ReachSelf(goal, t);
    Then(n, t, p2, M.Adopting(size, b.dataSize), p3, M.Idle, goal);
    Then(n, t, p1, M.Taking(size, i), p2, M.Adopting(size, b.dataSize), goal);
    Then(n, t, p, M.Searching(size), p1, M.Taking(size, i), goal);
  }

  lemma ReusedSize(b: FreeBuffer, ty: DataType, len: nat)
    ensures Reused(b, ty, len).dataSize == b.dataSize
  {
  }

  /** From the search on: the sequential allocation. */
  lemma SearchAlone(p: PoolState, n: nat, t: nat, ty: DataType, size: nat)
    requires t < n && Inv(p) && size % ElementSize(ty) == 0
    ensures Reaches(At(p, n, t, M.Searching(size)), At(Alloc(p, ty, size).0, n, t, M.Idle), t)
  {
    hide Reaches, Inv, AllocFresh, Bump, SumSizes, Reused, At;
    var goal := At(Alloc(p, ty, size).0, n, t, M.Idle);
    var fit := BestFit(Sizes(p.free), size);
    if fit.Some? && !TooLarge(p.free[fit.value].dataSize, size) {
      ReuseAlone(p, n, t, ty, size, fit.value);
    } else {
      var p1 := if fit.Some? then Discard(p, fit.value) else p;
      if fit.Some? {
        OversizeAlone(p, n, t, size, fit.value);
        DiscardInv(p, fit.value);
      } else {
        NoFitAlone(p, n, t, size);
      }
      FreshAlone(p1, n, t, ty, size);
      ReachTrans(At(p, n, t, M.Searching(size)), At(p1, n, t, M.Reserving(size)), goal, t);
    }
  }

  lemma AtIdle(p: PoolState, n: nat, t: nat)
    requires t < n
    ensures !Busy(At(p, n, t, M.Idle), t)
  {
  }

  lemma AtLimited(p: PoolState, n: nat, t: nat, pc: M.Pc)
    requires t < n && !pc.Loaded?
    ensures Limited(At(p, n, t, pc), t)
  {
  }

  /**
   Run alone, the machine's allocation is the sequential one: once begun it can complete,
   and every way it completes, compare-exchange failures included, ends there.
   */
  lemma AllocAlone(p: PoolState, n: nat, t: nat, ty: DataType, size: nat)
    requires t < n && Inv(p) && size % ElementSize(ty) == 0
    ensures M.Step(At(p, n, t, M.Idle), At(p, n, t, M.Locking(size)), t)
    ensures Ends(At(p, n, t, M.Locking(size)), At(Alloc(p, ty, size).0, n, t, M.Idle), t)
  {
    hide Reaches, Inv, Alloc, Ends, Steps, At, Busy, Limited, M.Step;
    var goal := At(Alloc(p, ty, size).0, n, t, M.Idle);
    SearchAlone(p, n, t, ty, size);
    LockStep(n, t, p, size);
    Then(n, t, p, M.Locking(size), p, M.Searching(size), goal);
    BeginAlloc(p, n, t, size);
    AtIdle(Alloc(p, ty, size).0, n, t);
    AtLimited(p, n, t, M.Locking(size));
    EndsThere(At(p, n, t, M.Locking(size)), goal, t);
  }

  lemma BeginAlloc(p: PoolState, n: nat, t: nat, size: nat)
    requires t < n
    ensures M.Step(At(p, n, t, M.Idle), At(p, n, t, M.Locking(size)), t)
  {
    Moves(p, n, t, M.Idle, M.Locking(size));
    assert At(p, n, t, M.Locking(size)) == M.Go(At(p, n, t, M.Idle), t, M.Locking(size));
  }

  /** Run alone, dropping an array is the sequential release, however it completes. */
  lemma ReleaseAlone(p: PoolState, n: nat, t: nat, i: nat, data: Buffer)
    requires t < n && i < |p.live|
    ensures var begun := At(p.(live := Without(p.live, i)), n, t, M.Pushing(p.live[i].arr.dataSize));
      M.Step(At(p, n, t, M.Idle), begun, t) && Ends(begun, At(Release(p, i, data), n, t, M.Idle), t)
  {
    BeginRelease(p, n, t, i);
    hide Bump, SumSizes, Reaches, Ends, Steps, At, Busy, Limited, M.Step;
    var size := p.live[i].arr.dataSize;
    var b := FreeBuffer(data, size);
    var p1 := p.(live := Without(p.live, i));
    var p2 := p1.(free := p.free + [b]);
    var p3 := p2.(numFree := Bump(p.numFree, 1));
    var goal := At(p3, n, t, M.Idle);
    PushStep(n, t, p1, b);
    CountFreeStep(n, t, p2);
    ReachSelf(goal, t);
    Then(n, t, p2, M.CountFree, p3, M.Idle, goal);
    Then(n, t, p1, M.Pushing(size), p2, M.CountFree, goal);
    AtIdle(p3, n, t);
    AtLimited(p1, n, t, M.Pushing(size));
    EndsThere(At(p1, n, t, M.Pushing(size)), goal, t);
  }

  lemma BeginRelease(p: PoolState, n: nat, t: nat, i: nat)
    requires t < n && i < |p.live|
    ensures M.Step(At(p, n, t, M.Idle),
                   At(p.(live := Without(p.live, i)), n, t, M.Pushing(p.live[i].arr.dataSize)), t)
  {
    ArraysWithout(p.live, i);
    var s, size := At(p, n, t, M.Idle), p.live[i].arr.dataSize;
    Moves(p, n, t, M.Idle, M.Pushing(size));
    assert At(p.(live := Without(p.live, i)), n, t, M.Pushing(size))
        == M.Go(s, t, M.Pushing(s.live[i].charge)).(live := Without(s.live, i));
  }

  /** Uncounting one buffer taken off the free list. */
  lemma DrainOnce(p: PoolState, n: nat, t: nat, count: nat, rest: seq<nat>)
    requires t < n && |rest| > 0
    ensures Reaches(At(p, n, t, M.Draining(count, rest)),
                    At(p.(bytes := p.bytes - rest[0], numAlloc := Bump(p.numAlloc, -1)),
                       n, t, M.Draining(count, rest[1..])), t)
  {
    hide Reaches, Bump, SumSizes, Steps, At;
    var p1 := p.(bytes := p.bytes - rest[0]);
    var p2 := p1.(numAlloc := Bump(p.numAlloc, -1));
    var goal := At(p2, n, t, M.Draining(count, rest[1..]));
    ReachSelf(goal, t);
    DrainBytes(n, t, p, count, rest);
    DrainCount(n, t, p1, count, rest[1..]);
    Then(n, t, p1, M.DrainAlloc(count, rest[1..]), p2, M.Draining(count, rest[1..]), goal);
    Then(n, t, p, M.Draining(count, rest), p1, M.DrainAlloc(count, rest[1..]), goal);
  }

  /** Uncounting all of them. */
  lemma {:induction false} DrainAlone(p: PoolState, n: nat, t: nat, count: nat, rest: seq<nat>)
    requires t < n
    ensures Reaches(At(p, n, t, M.Draining(count, rest)),
                    At(p.(bytes := p.bytes - SumSizes(rest), numAlloc := Bump(p.numAlloc, -|rest|)),
                       n, t, M.Draining(count, [])), t)
    decreases |rest|
  {
    hide Reaches, Bump, SumSizes, At;
    SumFirst(rest);
    if |rest| == 0 {
      BumpZero(p.numAlloc);
      assert rest == [];
      ReachSelf(At(p, n, t, M.Draining(count, [])), t);
    } else {
      var p2 := p.(bytes := p.bytes - rest[0], numAlloc := Bump(p.numAlloc, -1));
      BumpTwice(p.numAlloc, -1, 1 - |rest|);
      DrainOnce(p, n, t, count, rest);
      DrainAlone(p2, n, t, count, rest[1..]);
      ReachTrans(At(p, n, t, M.Draining(count, rest)), At(p2, n, t, M.Draining(count, rest[1..])),
                 At(p.(bytes := p.bytes - SumSizes(rest), numAlloc := Bump(p.numAlloc, -|rest|)),
                    n, t, M.Draining(count, [])), t);
    }
  }

  /** Subtracting a count held in 32 bits is subtracting the count. */
  lemma CountedIn32(c: Counter, n: int)
    requires n >= 0
    ensures Bump(c, 0 - n % U32) == Bump(c, -n)
  {
  }

  lemma EmptyingAlone(p: PoolState, n: nat, t: nat)
    requires t < n
    ensures Reaches(At(p, n, t, M.Emptying), At(EmptyFree(p), n, t, M.Idle), t)
  {
    hide Reaches, Bump, SumSizes, Steps, At;
    var count, rest := |p.free| % U32, Sizes(p.free);
    CountedIn32(p.numFree, |p.free|);
    var p1 := p.(free := []);
    var p2 := p1.(bytes := p.bytes - SumSizes(rest), numAlloc := Bump(p.numAlloc, -|rest|));
    var p3 := p2.(numFree := Bump(p.numFree, -|p.free|));
    assert p3 == EmptyFree(p);
    var goal := At(p3, n, t, M.Idle);
    ReachSelf(goal, t);
    UnlockStep(n, t, p3, None);
    DrainDone(n, t, p2, count);
    Then(n, t, p3, M.Unlocking(None), p3, M.Idle, goal);
    Then(n, t, p2, M.Draining(count, []), p3, M.Unlocking(None), goal);
    DrainAlone(p1, n, t, count, rest);
    ReachTrans(At(p1, n, t, M.Draining(count, rest)), At(p2, n, t, M.Draining(count, [])), goal, t);
    EmptyStep(n, t, p);
    Then(n, t, p, M.Emptying, p1, M.Draining(count, rest), goal);
  }

  /** Run alone, emptying the free list is the sequential operation, however it completes. */
  lemma EmptyAlone(p: PoolState, n: nat, t: nat)
    requires t < n
    ensures M.Step(At(p, n, t, M.Idle), At(p, n, t, M.Emptying), t)
    ensures Ends(At(p, n, t, M.Emptying), At(EmptyFree(p), n, t, M.Idle), t)
  {
    hide Reaches, Ends, At, Busy, Limited, M.Step, EmptyFree;
    BeginEmpty(p, n, t);
    EmptyingAlone(p, n, t);
    AtIdle(EmptyFree(p), n, t);
    AtLimited(p, n, t, M.Emptying);
    EndsThere(At(p, n, t, M.Emptying), At(EmptyFree(p), n, t, M.Idle), t);
  }

  lemma BeginEmpty(p: PoolState, n: nat, t: nat)
    requires t < n
    ensures M.Step(At(p, n, t, M.Idle), At(p, n, t, M.Emptying), t)
  {
    Moves(p, n, t, M.Idle, M.Emptying);
    assert At(p, n, t, M.Emptying) == M.Go(At(p, n, t, M.Idle), t, M.Emptying);
  }
}
