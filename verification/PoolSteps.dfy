/**
 The pool under concurrency: any number of threads allocating, dropping arrays and
 emptying the free list. The free list changes only under its lock; every load,
 compare-exchange and counter update outside or inside the lock is a step of its own,
 and steps of different threads interleave freely.
 */
module PoolSteps {
  import opened Wrappers
  import opened FreeList
  import opened Counters

  /** An array in use: the bytes asked for and the bytes charged. */
  datatype Array = Array(requested: nat, charge: nat)

  /** Where a thread stands. */
  datatype Pc =
    | Idle
      // alloc: search under the lock
    | Locking(need: nat)
    | Searching(need: nat)
    | Taking(need: nat, at: nat)
    | DropFree(need: nat, size: nat)
    | DropBytes(need: nat, size: nat)
    | DropAlloc(need: nat)
      // alloc: fresh buffer, reserved outside the lock
    | Reserving(need: nat)
    | Loaded(need: nat, current: nat)
    | Evicting(need: nat, over: nat, reclaimed: nat)
    | EvictBytes(need: nat, over: nat, reclaimed: nat, size: nat)
    | EvictFree(need: nat, over: nat, reclaimed: nat, size: nat)
    | EvictAlloc(need: nat, over: nat, reclaimed: nat, size: nat)
    | Counting(need: nat)
    | Adopting(need: nat, size: nat)
      // recycle
    | Pushing(size: nat)
    | CountFree
      // empty_free_list
    | Emptying
    | Draining(count: nat, rest: seq<nat>)
    | DrainAlloc(count: nat, rest: seq<nat>)
      // releasing the lock, then to Reserving or Idle
    | Unlocking(next: Option<nat>)

  datatype State = State(
    maxMemory: nat,
    bytes: int,
    numAlloc: Counter,
    numFree: Counter,
    free: seq<nat>,
    live: seq<Array>,
    lock: Option<nat>,
    threads: seq<Pc>)

  function Go(s: State, t: nat, pc: Pc): (s': State)
    requires t < |s.threads|
  {
    s.(threads := s.threads[t := pc])
  }

  function Acquire(s: State, t: nat, pc: Pc): (s': State)
    requires t < |s.threads|
  {
    Go(s, t, pc).(lock := Some(t))
  }

  /** What an idle thread may begin: an allocation, the drop of any live array, or emptying the free list. */
  ghost predicate Begin(s: State, s': State, t: nat)
    requires t < |s.threads|
  {
    || (exists need: nat :: s' == Go(s, t, Locking(need)))
    || (exists i: nat :: i < |s.live| && s' == Go(s, t, Pushing(s.live[i].charge)).(live := Without(s.live, i)))
    || s' == Go(s, t, Emptying)
  }

  /** The steps of the free-list search, with the lock held. */
  ghost predicate SearchStep(s: State, s': State, t: nat)
    requires t < |s.threads|
  {
    match s.threads[t]
    case Searching(need) =>
      (match BestFit(s.free, need)
       case None => s' == Go(s, t, Unlocking(Some(need)))
       case Some(i) =>
         if TooLarge(s.free[i], need) then
           s' == Go(s, t, DropFree(need, s.free[i])).(free := Without(s.free, i))
         else
           s' == Go(s, t, Taking(need, i)).(numFree := Bump(s.numFree, -1)))
    case Taking(need, i) =>
      i < |s.free| && s' == Go(s, t, Adopting(need, s.free[i])).(free := Without(s.free, i), lock := None)
    case DropFree(need, size) => s' == Go(s, t, DropBytes(need, size)).(numFree := Bump(s.numFree, -1))
    case DropBytes(need, size) => s' == Go(s, t, DropAlloc(need)).(bytes := s.bytes - size)
    case DropAlloc(need) => s' == Go(s, t, Unlocking(Some(need))).(numAlloc := Bump(s.numAlloc, -1))
    case _ => false
  }

  /** The steps of the reservation; a compare-exchange may also fail for no reason. */
  ghost predicate ReserveStep(s: State, s': State, t: nat)
    requires t < |s.threads|
  {
    match s.threads[t]
    case Reserving(need) =>
      if s.maxMemory == 0 then s' == Go(s, t, Counting(need)).(bytes := s.bytes + need)
      else s.bytes >= 0 && s' == Go(s, t, Loaded(need, s.bytes))
    case Loaded(need, current) =>
      if current + need > s.maxMemory then
        s.lock.None? && s' == Acquire(s, t, Evicting(need, current + need - s.maxMemory, 0))
      else
        || (s.bytes == current && s' == Go(s, t, Counting(need)).(bytes := current + need))
        || s' == Go(s, t, Reserving(need))
    case Counting(need) => s' == Go(s, t, Adopting(need, need)).(numAlloc := Bump(s.numAlloc, 1))
    case Adopting(need, size) => s' == Go(s, t, Idle).(live := s.live + [Array(need, size)])
    case _ => false
  }

  /** The eviction loop, with the lock held: largest buffer first, until enough is reclaimed or none is left. */
  ghost predicate EvictStep(s: State, s': State, t: nat)
    requires t < |s.threads|
  {
    match s.threads[t]
    case Evicting(need, over, reclaimed) =>
      if |s.free| > 0 && reclaimed < over then
        var i := Largest(s.free);
        s' == Go(s, t, EvictBytes(need, over, reclaimed, s.free[i])).(free := Without(s.free, i))
      else
        s' == Go(s, t, Unlocking(if reclaimed >= over then Some(need) else None))
    case EvictBytes(need, over, reclaimed, size) =>
      s' == Go(s, t, EvictFree(need, over, reclaimed, size)).(bytes := s.bytes - size)
    case EvictFree(need, over, reclaimed, size) =>
      s' == Go(s, t, EvictAlloc(need, over, reclaimed, size)).(numFree := Bump(s.numFree, -1))
    case EvictAlloc(need, over, reclaimed, size) =>
      s' == Go(s, t, Evicting(need, over, reclaimed + size)).(numAlloc := Bump(s.numAlloc, -1))
    case _ => false
  }

  /** Recycling a dropped buffer. */
  ghost predicate RecycleStep(s: State, s': State, t: nat)
    requires t < |s.threads|
  {
    match s.threads[t]
    case Pushing(size) => s.lock.None? && s' == Go(s, t, CountFree).(free := s.free + [size])
    case CountFree => s' == Go(s, t, Idle).(numFree := Bump(s.numFree, 1))
    case _ => false
  }

  /** Emptying the free list: the whole list is taken under the lock and uncounted buffer by buffer. */
  ghost predicate EmptyStep(s: State, s': State, t: nat)
    requires t < |s.threads|
  {
    match s.threads[t]
    case Emptying => s.lock.None? && s' == Acquire(s, t, Draining(|s.free| % U32, s.free)).(free := [])
    case Draining(count, rest) =>
      if |rest| > 0 then
        s' == Go(s, t, DrainAlloc(count, rest[1..])).(bytes := s.bytes - rest[0])
      else
        s' == Go(s, t, Unlocking(None)).(numFree := Bump(s.numFree, 0 - count))
    case DrainAlloc(count, rest) => s' == Go(s, t, Draining(count, rest)).(numAlloc := Bump(s.numAlloc, -1))
    case _ => false
  }

  /** One step of thread t. */
  ghost predicate Step(s: State, s': State, t: nat)
  {
    && t < |s.threads|
    && match s.threads[t]
       case Idle => Begin(s, s', t)
       case Locking(need) => s.lock.None? && s' == Acquire(s, t, Searching(need))
       case Unlocking(next) =>
         s' == Go(s, t, if next.Some? then Reserving(next.value) else Idle).(lock := None)
       case _ => SearchStep(s, s', t) || ReserveStep(s, s', t) || EvictStep(s, s', t) || RecycleStep(s, s', t) || EmptyStep(s, s', t)
  }

  ghost predicate Init(s: State)
  {
    && s.bytes == s.numAlloc == s.numFree == 0
    && s.free == [] && s.live == [] && s.lock == None
    && forall t :: 0 <= t < |s.threads| ==> s.threads[t] == Idle
  }

  ghost predicate Next(s: State, s': State)
  {
    exists t: nat :: Step(s, s', t)
  }

  /** A run: every state follows from the one before by a step of some thread. */
  ghost predicate IsRun(run: seq<State>)
  {
    && |run| > 0 && Init(run[0])
    && forall i :: 0 <= i < |run| - 1 ==> Next(run[i], run[i + 1])
  }

  // What a thread in mid-operation owes the counters.

  function Charges(live: seq<Array>): (s: seq<nat>)
    ensures |s| == |live| && forall i :: 0 <= i < |s| ==> s[i] == live[i].charge
  {
    seq(|live|, i requires 0 <= i < |live| => live[i].charge)
  }

  function Requests(live: seq<Array>): (s: seq<nat>)
    ensures |s| == |live| && forall i :: 0 <= i < |s| ==> s[i] == live[i].requested
  {
    seq(|live|, i requires 0 <= i < |live| => live[i].requested)
  }

  function SumCharges(live: seq<Array>): (n: nat)
  {
    SumSizes(Charges(live))
  }

  function SumRequested(live: seq<Array>): (n: nat)
  {
    SumSizes(Requests(live))
  }

  /** Bytes charged to a buffer the thread holds, neither live nor free. */
  function Bytes(pc: Pc): (n: int)
  {
    match pc
    case DropFree(_, size) => size
    case DropBytes(_, size) => size
    case EvictBytes(_, _, _, size) => size
    case Counting(need) => need
    case Adopting(_, size) => size
    case Pushing(size) => size
    case Draining(_, rest) => SumSizes(rest)
    case DrainAlloc(_, rest) => SumSizes(rest)
    case _ => 0
  }

  /** Buffers counted as allocated that are neither live nor free. */
  function Allocs(pc: Pc): (n: int)
  {
    match pc
    case DropFree(_, _) => 1
    case DropBytes(_, _) => 1
    case DropAlloc(_) => 1
    case EvictBytes(_, _, _, _) => 1
    case EvictFree(_, _, _, _) => 1
    case EvictAlloc(_, _, _, _) => 1
    case Adopting(_, _) => 1
    case Pushing(_) => 1
    case Draining(_, rest) => |rest|
    case DrainAlloc(_, rest) => |rest| + 1
    case _ => 0
  }

  /** How far the free counter is ahead of the free list. */
  function Frees(pc: Pc): (n: int)
  {
    match pc
    case Taking(_, _) => -1
    case DropFree(_, _) => 1
    case EvictBytes(_, _, _, _) => 1
    case EvictFree(_, _, _, _) => 1
    case CountFree => -1
    case Draining(count, _) => count
    case DrainAlloc(count, _) => count
    case _ => 0
  }

  function Tally(threads: seq<Pc>, f: Pc -> int): (n: int)
  {
    if |threads| == 0 then 0 else Tally(threads[..|threads| - 1], f) + f(threads[|threads| - 1])
  }

  /** The thread is between acquiring and releasing the lock. */
  predicate Holds(pc: Pc)
  {
    pc.Searching? || pc.Taking? || pc.DropFree? || pc.DropBytes? || pc.DropAlloc? || pc.Evicting? || pc.EvictBytes?
    || pc.EvictFree? || pc.EvictAlloc? || pc.Draining? || pc.DrainAlloc? || pc.Unlocking?
  }

  ghost predicate LockHeldByOne(s: State)
  {
    forall t :: 0 <= t < |s.threads| ==> (Holds(s.threads[t]) <==> s.lock == Some(t))
  }

  /** What a thread remembers about the free list and its buffer still holds. */
  ghost predicate Sound(s: State, pc: Pc)
  {
    match pc
    case Taking(need, i) => i < |s.free| && Snug(need, s.free[i])
    case Adopting(need, size) => Snug(need, size)
    case _ => true
  }

  ghost predicate Accounted(s: State)
  {
    && s.bytes == SumSizes(s.free) + SumCharges(s.live) + Tally(s.threads, Bytes)
    && s.numAlloc == Count(|s.free| + |s.live| + Tally(s.threads, Allocs))
    && s.numFree == Count(|s.free| + Tally(s.threads, Frees))
  }

  ghost predicate Inv(s: State)
  {
    && Accounted(s)
    && (s.maxMemory > 0 ==> s.bytes <= s.maxMemory)
    && LockHeldByOne(s)
    && (s.lock.Some? ==> s.lock.value < |s.threads|)
    && (forall t :: 0 <= t < |s.threads| ==> Sound(s, s.threads[t]))
    && (forall i :: 0 <= i < |s.live| ==> Snug(s.live[i].requested, s.live[i].charge))
  }

  lemma {:induction false} TallyUpdate(threads: seq<Pc>, t: nat, pc: Pc, f: Pc -> int)
    requires t < |threads|
    ensures Tally(threads[t := pc], f) == Tally(threads, f) - f(threads[t]) + f(pc)
  {
    var n := |threads| - 1;
    if t < n {
      assert threads[t := pc][..n] == threads[..n][t := pc];
      TallyUpdate(threads[..n], t, pc, f);
    } else {
      assert threads[t := pc][..n] == threads[..n];
    }
  }

  /** A step's effect on the three tallies. */
  lemma Tallies(s: State, t: nat, pc: Pc)
    requires t < |s.threads|
    ensures Tally(Go(s, t, pc).threads, Bytes) == Tally(s.threads, Bytes) - Bytes(s.threads[t]) + Bytes(pc)
    ensures Tally(Go(s, t, pc).threads, Allocs) == Tally(s.threads, Allocs) - Allocs(s.threads[t]) + Allocs(pc)
    ensures Tally(Go(s, t, pc).threads, Frees) == Tally(s.threads, Frees) - Frees(s.threads[t]) + Frees(pc)
  {
    TallyUpdate(s.threads, t, pc, Bytes);
    TallyUpdate(s.threads, t, pc, Allocs);
    TallyUpdate(s.threads, t, pc, Frees);
  }

  lemma {:induction false} TallyNonneg(threads: seq<Pc>)
    ensures Tally(threads, Bytes) >= 0
  {
    if |threads| > 0 {
      TallyNonneg(threads[..|threads| - 1]);
    }
  }

  lemma {:induction false} TallyIdle(threads: seq<Pc>, f: Pc -> int)
    requires forall t :: 0 <= t < |threads| ==> threads[t] == Idle
    requires f(Idle) == 0
    ensures Tally(threads, f) == 0
  {
    if |threads| > 0 {
      TallyIdle(threads[..|threads| - 1], f);
    }
  }

  lemma ChargesWithout(live: seq<Array>, i: nat)
    requires i < |live|
    ensures SumCharges(Without(live, i)) == SumCharges(live) - live[i].charge
  {
    hide SumSizes;
    assert Charges(Without(live, i)) == Without(Charges(live), i);
    SumWithout(Charges(live), i);
  }

  lemma ChargesPush(live: seq<Array>, a: Array)
    ensures SumCharges(live + [a]) == SumCharges(live) + a.charge
  {
    hide SumSizes;
    assert Charges(live + [a]) == Charges(live) + [a.charge];
    SumPush(Charges(live), a.charge);
  }

  lemma InitInv(s: State)
    requires Init(s)
    ensures Inv(s)
  {
    TallyIdle(s.threads, Bytes);
    TallyIdle(s.threads, Allocs);
    TallyIdle(s.threads, Frees);
  }

  /** A step that balances what it does to the counters with what its thread owes keeps the accounting. */
  lemma Balance(s: State, s': State, t: nat)
    requires Accounted(s) && t < |s.threads| && |s'.threads| == |s.threads|
    requires s'.threads == s.threads[t := s'.threads[t]]
    requires s'.bytes - SumSizes(s'.free) - SumCharges(s'.live) - Bytes(s'.threads[t])
          == s.bytes - SumSizes(s.free) - SumCharges(s.live) - Bytes(s.threads[t])
    requires s'.numAlloc == Bump(s.numAlloc, (|s'.free| + |s'.live| + Allocs(s'.threads[t]))
                                             - (|s.free| + |s.live| + Allocs(s.threads[t])))
    requires s'.numFree == Bump(s.numFree, (|s'.free| + Frees(s'.threads[t])) - (|s.free| + Frees(s.threads[t])))
    ensures Accounted(s')
  {
    hide Tally, SumSizes, SumCharges, Bytes, Allocs, Frees;
    Tallies(s, t, s'.threads[t]);
  }

  /** Nobody but t, and nothing t could disturb, has moved. */
  lemma OthersSound(s: State, s': State, t: nat)
    requires Inv(s) && t < |s.threads|
    requires |s'.threads| == |s.threads| && s'.threads == s.threads[t := s'.threads[t]]
    requires s'.free == s.free || Holds(s.threads[t]) || s.lock.None?
    requires s.lock == Some(t) ==> s'.lock == Some(t) || s'.lock == None
    requires s.lock == None ==> s'.lock == Some(t) || s'.lock == None
    requires s.lock.Some? && s.lock != Some(t) ==> s'.lock == s.lock
    requires Holds(s'.threads[t]) <==> s'.lock == Some(t)
    ensures LockHeldByOne(s')
    ensures s'.lock.Some? ==> s'.lock.value < |s'.threads|
    ensures forall u :: 0 <= u < |s'.threads| && u != t ==> Sound(s', s'.threads[u])
  {
    hide Accounted;
    forall u | 0 <= u < |s'.threads| && u != t
      ensures Sound(s', s'.threads[u]) && (Holds(s'.threads[u]) <==> s'.lock == Some(u))
    {
      assert s'.threads[u] == s.threads[u];
      assert Holds(s.threads[u]) <==> s.lock == Some(u);
      assert Holds(s.threads[t]) <==> s.lock == Some(t);
    }
  }

  lemma BeginInv(s: State, s': State, t: nat)
    requires Inv(s) && t < |s.threads| && s.threads[t].Idle? && Begin(s, s', t)
    ensures Inv(s')
  {
    hide Tally, SumSizes, SumCharges, Bump, Without;
    if i: nat :| i < |s.live| && s' == Go(s, t, Pushing(s.live[i].charge)).(live := Without(s.live, i)) {
      DropInv(s, s', t, i);
    } else {
      BumpZero(s.numAlloc);
      BumpZero(s.numFree);
      Balance(s, s', t);
      OthersSound(s, s', t);
    }
  }

  lemma DropInv(s: State, s': State, t: nat, i: nat)
    requires Inv(s) && t < |s.threads| && s.threads[t].Idle? && i < |s.live|
    requires s' == Go(s, t, Pushing(s.live[i].charge)).(live := Without(s.live, i))
    ensures Inv(s')
  {
    hide Tally, SumSizes, SumCharges, Bump;
    BumpZero(s.numAlloc);
    BumpZero(s.numFree);
    ChargesWithout(s.live, i);
    Balance(s, s', t);
    OthersSound(s, s', t);
  }

  /**
   The search under the lock: a buffer of at least the request and at most 1.5 times it
   is to be taken, the least of them; else the smallest that holds the request, if any,
   leaves the list.
   */
  lemma SearchTakes(s: State, s': State, t: nat)
    requires t < |s.threads| && s.threads[t].Searching? && SearchStep(s, s', t)
    ensures var need := s.threads[t].need; var pc := s'.threads[t];
      if exists i :: 0 <= i < |s.free| && need <= s.free[i] && 2 * s.free[i] <= 3 * need then
        && pc.Taking? && pc.need == need && pc.at < |s.free| && need <= s.free[pc.at] && s'.free == s.free
        && s'.bytes == s.bytes && forall j :: 0 <= j < |s.free| && need <= s.free[j] ==> s.free[pc.at] <= s.free[j]
      else if exists i :: 0 <= i < |s.free| && need <= s.free[i] then
        && pc.DropFree? && pc.need == need && need <= pc.size && s'.bytes == s.bytes
        && (exists i :: 0 <= i < |s.free| && s.free[i] == pc.size && s'.free == s.free[..i] + s.free[i + 1..])
        && forall j :: 0 <= j < |s.free| && need <= s.free[j] ==> pc.size <= s.free[j]
      else pc == Unlocking(Some(need)) && s'.free == s.free && s'.bytes == s.bytes
  {
    hide Bump;
    var need := s.threads[t].need;
    var fit := BestFit(s.free, need);
    if fit.Some? {
      var i := fit.value;
      assert 0 <= i < |s.free| && need <= s.free[i];
    }
  }

  lemma SearchInv(s: State, s': State, t: nat)
    requires Inv(s) && t < |s.threads| && SearchStep(s, s', t)
    ensures Inv(s')
  {
    hide Tally, SumSizes, SumCharges, BestFit, Bump, Without;
    if s.threads[t].Searching? {
      FoundInv(s, s', t);
    } else {
      BumpZero(s.numAlloc);
      BumpZero(s.numFree);
      if s.threads[t].Taking? {
        SumWithout(s.free, s.threads[t].at);
      }
      Balance(s, s', t);
      OthersSound(s, s', t);
    }
  }

  /** The search itself: nothing fits, the best fit is too large and dropped, or it is to be taken. */
  lemma FoundInv(s: State, s': State, t: nat)
    requires Inv(s) && t < |s.threads| && s.threads[t].Searching? && SearchStep(s, s', t)
    ensures Inv(s')
  {
    hide Tally, SumSizes, SumCharges, BestFit, Bump, Without;
    BumpZero(s.numAlloc);
    BumpZero(s.numFree);
    var fit := BestFit(s.free, s.threads[t].need);
    if fit.Some? {
      SumWithout(s.free, fit.value);
    }
    Balance(s, s', t);
    OthersSound(s, s', t);
  }

  lemma ReserveInv(s: State, s': State, t: nat)
    requires Inv(s) && t < |s.threads| && ReserveStep(s, s', t)
    ensures Inv(s')
  {
    hide Tally, SumSizes, SumCharges, Bump;
    BumpZero(s.numAlloc);
    BumpZero(s.numFree);
    if s.threads[t].Adopting? {
      ChargesPush(s.live, Array(s.threads[t].need, s.threads[t].size));
    }
    Balance(s, s', t);
    OthersSound(s, s', t);
  }

  lemma EvictInv(s: State, s': State, t: nat)
    requires Inv(s) && t < |s.threads| && EvictStep(s, s', t)
    ensures Inv(s')
  {
    hide Tally, SumSizes, SumCharges, Largest, Bump;
    BumpZero(s.numAlloc);
    BumpZero(s.numFree);
    if s.threads[t].Evicting? && |s.free| > 0 {
      SumWithout(s.free, Largest(s.free));
    }
    Balance(s, s', t);
    OthersSound(s, s', t);
  }

  lemma RecycleInv(s: State, s': State, t: nat)
    requires Inv(s) && t < |s.threads| && RecycleStep(s, s', t)
    ensures Inv(s')
  {
    hide Tally, SumCharges, SumSizes, Bump;
    BumpZero(s.numAlloc);
    BumpZero(s.numFree);
    if s.threads[t].Pushing? {
      SumPush(s.free, s.threads[t].size);
    }
    Balance(s, s', t);
    OthersSound(s, s', t);
  }

  lemma EmptyInv(s: State, s': State, t: nat)
    requires Inv(s) && t < |s.threads| && EmptyStep(s, s', t)
    ensures Inv(s')
  {
    hide Tally, SumCharges, SumSizes, Bump;
    if s.threads[t].Emptying? {
      TakeAllInv(s, s', t);
    } else {
      if s.threads[t].Draining? {
        SumFirst(s.threads[t].rest);
      }
      BumpZero(s.numAlloc);
      BumpZero(s.numFree);
      Balance(s, s', t);
      OthersSound(s, s', t);
    }
  }

  lemma TakeAllInv(s: State, s': State, t: nat)
    requires Inv(s) && t < |s.threads| && s.threads[t].Emptying? && EmptyStep(s, s', t)
    ensures Inv(s')
  {
    assert SumSizes(s'.free) == 0;
    hide Tally, SumCharges, SumSizes;
    WholeTurns(s.numFree, |s.free|);
    Balance(s, s', t);
    OthersSound(s, s', t);
  }

  lemma WholeTurns(c: Counter, n: nat)
    ensures c == Bump(c, n % U32 - n)
  {
  }

  /** Every step of every thread keeps the invariant. */
  lemma StepInv(s: State, s': State, t: nat)
    requires Inv(s) && Step(s, s', t)
    ensures Inv(s') && s'.maxMemory == s.maxMemory
  {
    hide Accounted;
    if SearchStep(s, s', t) {
      SearchInv(s, s', t);
    } else if ReserveStep(s, s', t) {
      ReserveInv(s, s', t);
    } else if EvictStep(s, s', t) {
      EvictInv(s, s', t);
    } else if RecycleStep(s, s', t) {
      RecycleInv(s, s', t);
    } else if EmptyStep(s, s', t) {
      EmptyInv(s, s', t);
    } else if s.threads[t].Idle? {
      BeginInv(s, s', t);
    } else {
      LockInv(s, s', t);
    }
  }

  lemma LockInv(s: State, s': State, t: nat)
    requires Inv(s) && Step(s, s', t) && (s.threads[t].Locking? || s.threads[t].Unlocking?)
    ensures Inv(s')
  {
    hide Tally, SumSizes, SumCharges, Bump;
    BumpZero(s.numAlloc);
    BumpZero(s.numFree);
    Balance(s, s', t);
    OthersSound(s, s', t);
  }

  /** Every state of every interleaving keeps the accounting. */
  lemma {:induction false} RunInv(run: seq<State>, i: nat)
    requires IsRun(run) && i < |run|
    ensures Inv(run[i])
  {
    if i == 0 {
      InitInv(run[0]);
    } else {
      RunInv(run, i - 1);
      assert Next(run[i - 1], run[i - 1 + 1]);
      var t: nat :| Step(run[i - 1], run[i], t);
      StepInv(run[i - 1], run[i], t);
    }
  }

  /**
   In every interleaving, at every step: the charged bytes are the live, free and
   in-transit charges and stay within a non-zero limit, and live arrays are charged
   at least what they asked for and at most 1.5 times that.
   */
  lemma RunWithinLimit(run: seq<State>, i: nat)
    requires IsRun(run) && i < |run|
    ensures var s := run[i];
      && s.bytes == SumSizes(s.free) + SumCharges(s.live) + Tally(s.threads, Bytes)
      && Tally(s.threads, Bytes) >= 0
      && (s.maxMemory > 0 ==> 0 <= s.bytes <= s.maxMemory)
      && SumRequested(s.live) <= SumCharges(s.live)
      && 2 * SumCharges(s.live) <= 3 * SumRequested(s.live)
  {
    RunInv(run, i);
    TallyNonneg(run[i].threads);
    SnugSums(Requests(run[i].live), Charges(run[i].live));
  }

  /** Once every thread is idle the counters are exact, modulo their width. */
  lemma Quiescent(run: seq<State>, i: nat)
    requires IsRun(run) && i < |run|
    requires forall t :: 0 <= t < |run[i].threads| ==> run[i].threads[t] == Idle
    ensures var s := run[i];
      && s.bytes == SumSizes(s.free) + SumCharges(s.live)
      && s.numAlloc == Count(|s.free| + |s.live|)
      && s.numFree == Count(|s.free|)
      && s.lock == None
  {
    RunInv(run, i);
    var s := run[i];
    TallyIdle(s.threads, Bytes);
    TallyIdle(s.threads, Allocs);
    TallyIdle(s.threads, Frees);
  }
}
