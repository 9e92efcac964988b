/**
 A persistent array and its publishes: one pool charge held by all of them, counted at
 two levels. Every count change is a step of its own, and steps of the driver and of
 the publishes' holders interleave freely. Buffers live in a heap, so that a refill in
 place could be seen by a holder if the two shared a buffer.
 */
module Persistent {
  import opened Wrappers

  type Data = seq<int>

  /** A publish: its own buffer, what it was published with, its strong count, and whether it still holds the charge. */
  datatype Publish = Publish(buf: nat, published: Data, strong: nat, charged: bool)

  /** The driver's side: in use, its buffer parked in the charge on drop, its hold on the charge gone. */
  datatype Stage = Alive | Parked | Dropped

  datatype State = State(
    heap: map<nat, Data>,
    own: nat,
    stage: Stage,
    shown: Option<nat>,
    pubs: seq<Publish>,
    holders: seq<nat>,
    charge: nat,
    parked: Option<nat>,
    recycled: seq<nat>)

  /** The driver drops its shown publish, at a refill or with the array. */
  ghost predicate DropShown(s: State, s': State)
  {
    && s.stage != Parked && s.shown.Some? && s.shown.value < |s.pubs|
    && var i := s.shown.value;
       s.pubs[i].strong > 0 && s' == s.(shown := None, pubs := s.pubs[i := s.pubs[i].(strong := s.pubs[i].strong - 1)])
  }

  /** The driver writes its buffer in place, after the shown publish is dropped. */
  ghost predicate Refill(s: State, s': State, data: Data)
  {
    s.stage == Alive && s.shown == None && s' == s.(heap := s.heap[s.own := data])
  }

  /** The driver publishes: a copy in buffer b, or another hold on the one still shown. */
  ghost predicate PublishStep(s: State, s': State, b: nat)
  {
    && s.stage == Alive
    && match s.shown
       case None =>
         && b !in s.heap && s.own in s.heap
         && s' == s.(heap := s.heap[b := s.heap[s.own]],
                     pubs := s.pubs + [Publish(b, s.heap[s.own], 2, true)],
                     holders := s.holders + [1],
                     shown := Some(|s.pubs|),
                     charge := s.charge + 1)
       case Some(i) => i < |s.pubs| == |s.holders| && s' == Hold(s, i)
  }

  /** One more holder of publish i. */
  ghost function Hold(s: State, i: nat): (s': State)
    requires i < |s.pubs| == |s.holders|
  {
    s.(pubs := s.pubs[i := s.pubs[i].(strong := s.pubs[i].strong + 1)], holders := s.holders[i := s.holders[i] + 1])
  }

  /** A holder clones its publish. */
  ghost predicate CloneHolder(s: State, s': State, i: nat)
  {
    i < |s.pubs| == |s.holders| && s.holders[i] > 0 && s' == Hold(s, i)
  }

  /** A holder lets its publish go. */
  ghost predicate DropHolder(s: State, s': State, i: nat)
  {
    && i < |s.pubs| == |s.holders| && s.holders[i] > 0 && s.pubs[i].strong > 0
    && s' == s.(pubs := s.pubs[i := s.pubs[i].(strong := s.pubs[i].strong - 1)],
                holders := s.holders[i := s.holders[i] - 1])
  }

  /** Nothing holds publish i: its array goes, its buffer is freed and its hold on the charge with it. */
  ghost predicate DropArray(s: State, s': State, i: nat)
  {
    && i < |s.pubs| && s.pubs[i].strong == 0 && s.pubs[i].charged && s.charge > 0
    && s' == s.(pubs := s.pubs[i := s.pubs[i].(charged := false)], heap := s.heap - {s.pubs[i].buf}, charge := s.charge - 1)
  }

  /** The driver drops the persistent array: its buffer is parked in the charge. */
  ghost predicate Park(s: State, s': State)
  {
    s.stage == Alive && s' == s.(stage := Parked, parked := Some(s.own))
  }

  /** Then its hold on the charge goes. */
  ghost predicate LetGo(s: State, s': State)
  {
    s.stage == Parked && s.charge > 0 && s' == s.(stage := Dropped, charge := s.charge - 1)
  }

  /** The last hold on the charge is gone: the parked buffer goes back to the pool. */
  ghost predicate Recycle(s: State, s': State)
  {
    s.charge == 0 && s.parked.Some? && s' == s.(recycled := s.recycled + [s.parked.value], parked := None)
  }

  ghost predicate Next(s: State, s': State)
  {
    || DropShown(s, s')
    || (exists data :: Refill(s, s', data))
    || (exists b: nat :: PublishStep(s, s', b))
    || (exists i: nat :: CloneHolder(s, s', i))
    || (exists i: nat :: DropHolder(s, s', i))
    || (exists i: nat :: DropArray(s, s', i))
    || Park(s, s') || LetGo(s, s') || Recycle(s, s')
  }

  /** A persistent array just made of an allocated one. */
  ghost predicate Init(s: State)
  {
    exists data: Data :: s == State(map[s.own := data], s.own, Alive, None, [], [], 1, None, [])
  }

  ghost predicate IsRun(run: seq<State>)
  {
    |run| > 0 && Init(run[0]) && forall i :: 0 <= i < |run| - 1 ==> Next(run[i], run[i + 1])
  }

  function Holding(pubs: seq<Publish>): (n: nat)
  {
    if |pubs| == 0 then 0 else Holding(pubs[..|pubs| - 1]) + (if pubs[|pubs| - 1].charged then 1 else 0)
  }

  /** The charge counts the driver's array and every publish that still exists. */
  ghost predicate ChargeCounts(s: State)
  {
    s.charge == Holding(s.pubs) + (if s.stage == Dropped then 0 else 1)
  }

  /** The strong count of a publish counts its holders and the driver's shown one. */
  ghost predicate StrongCounts(s: State, i: nat)
    requires i < |s.pubs| == |s.holders|
  {
    && s.pubs[i].strong == s.holders[i] + (if s.shown == Some(i) then 1 else 0)
    && (s.pubs[i].strong > 0 ==> s.pubs[i].charged)
  }

  /** A publish that exists has a buffer of its own, still holding what it was published with. */
  ghost predicate Separate(s: State, i: nat)
    requires i < |s.pubs|
  {
    s.pubs[i].charged ==>
      && s.pubs[i].buf != s.own && s.pubs[i].buf in s.heap && s.heap[s.pubs[i].buf] == s.pubs[i].published
      && forall j :: 0 <= j < |s.pubs| && j != i && s.pubs[j].charged ==> s.pubs[j].buf != s.pubs[i].buf
  }

  ghost predicate Inv(s: State)
  {
    && |s.holders| == |s.pubs|
    && ChargeCounts(s)
    && (forall i :: 0 <= i < |s.pubs| ==> StrongCounts(s, i))
    && (forall i :: 0 <= i < |s.pubs| ==> Separate(s, i))
    && s.own in s.heap
    && (s.shown.Some? ==> s.shown.value < |s.pubs| && s.pubs[s.shown.value].published == s.heap[s.own])
    && (s.stage == Alive ==> s.parked == None && s.recycled == [])
    && (s.stage != Alive ==> (s.parked == Some(s.own) && s.recycled == []) || (s.parked == None && s.recycled == [s.own]))
    && (s.recycled != [] ==> s.charge == 0)
  }

  lemma {:induction false} HoldingUpdate(pubs: seq<Publish>, i: nat, p: Publish)
    requires i < |pubs|
    ensures Holding(pubs[i := p]) == Holding(pubs) - (if pubs[i].charged then 1 else 0) + (if p.charged then 1 else 0)
  {
    var n := |pubs| - 1;
    if i < n {
      assert pubs[i := p][..n] == pubs[..n][i := p];
      HoldingUpdate(pubs[..n], i, p);
    } else {
      assert pubs[i := p][..n] == pubs[..n];
    }
  }

  lemma HoldingPush(pubs: seq<Publish>, p: Publish)
    ensures Holding(pubs + [p]) == Holding(pubs) + (if p.charged then 1 else 0)
  {
    assert (pubs + [p])[..|pubs|] == pubs;
  }

  lemma {:induction false} HoldingNone(pubs: seq<Publish>, i: nat)
    requires i < |pubs| && pubs[i].charged
    ensures Holding(pubs) > 0
  {
    if i < |pubs| - 1 {
      HoldingNone(pubs[..|pubs| - 1], i);
    }
  }

  /** Only the counts of publish i change. */
  lemma CountInv(s: State, s': State, i: nat)
    requires Inv(s) && i < |s.pubs| && |s'.holders| == |s.holders|
    requires |s'.pubs| == |s.pubs| && s'.pubs == s.pubs[i := s.pubs[i].(strong := s'.pubs[i].strong)]
    requires s' == s.(pubs := s'.pubs, holders := s'.holders, shown := s'.shown)
    requires s'.shown == s.shown || (s'.shown == None && s.shown == Some(i))
    requires forall j :: 0 <= j < |s.holders| && j != i ==> s'.holders[j] == s.holders[j]
    requires StrongCounts(s', i)
    ensures Inv(s')
  {
    hide Holding;
    HoldingUpdate(s.pubs, i, s'.pubs[i]);
    forall j | 0 <= j < |s'.pubs|
      ensures StrongCounts(s', j) && Separate(s', j)
    {
      assert StrongCounts(s, j) && Separate(s, j);
    }
  }

  lemma PublishInv(s: State, s': State, b: nat)
    requires Inv(s) && s.shown == None && PublishStep(s, s', b)
    ensures Inv(s')
  {
    hide Holding;
    HoldingPush(s.pubs, s'.pubs[|s.pubs|]);
    forall k | 0 <= k < |s.pubs|
      ensures s'.pubs[k] == s.pubs[k] && StrongCounts(s', k)
      ensures s.pubs[k].charged ==> s.pubs[k].buf != b && s.pubs[k].buf in s'.heap && s'.heap[s.pubs[k].buf] == s.pubs[k].published
    {
      assert StrongCounts(s, k) && Separate(s, k);
    }
    forall j | 0 <= j < |s'.pubs|
      ensures StrongCounts(s', j) && Separate(s', j)
    {
      if j < |s.pubs| {
        assert Separate(s, j);
      }
    }
  }

  lemma DropArrayInv(s: State, s': State, i: nat)
    requires Inv(s) && DropArray(s, s', i)
    ensures Inv(s')
  {
    hide Holding;
    HoldingUpdate(s.pubs, i, s'.pubs[i]);
    forall j | 0 <= j < |s'.pubs|
      ensures StrongCounts(s', j) && Separate(s', j)
    {
      assert StrongCounts(s, j) && Separate(s, j) && Separate(s, i);
    }
  }

  lemma DriverInv(s: State, s': State)
    requires Inv(s) && ((exists data :: Refill(s, s', data)) || Park(s, s') || LetGo(s, s') || Recycle(s, s'))
    ensures Inv(s')
  {
    hide Holding;
    forall j | 0 <= j < |s'.pubs|
      ensures StrongCounts(s', j) && Separate(s', j)
    {
      assert StrongCounts(s, j) && Separate(s, j);
    }
  }

  lemma NextInv(s: State, s': State)
    requires Inv(s) && Next(s, s')
    ensures Inv(s')
  {
    hide Inv;
    if DropShown(s, s') {
      ShownInv(s, s');
    } else if b: nat :| PublishStep(s, s', b) {
      if s.shown == None {
        PublishInv(s, s', b);
      } else {
        HoldInv(s, s.shown.value);
      }
    } else if i: nat :| CloneHolder(s, s', i) {
      HoldInv(s, i);
    } else if i: nat :| DropHolder(s, s', i) {
      UnholdInv(s, s', i);
    } else if i: nat :| DropArray(s, s', i) {
      DropArrayInv(s, s', i);
    } else {
      DriverInv(s, s');
    }
  }

  lemma ShownInv(s: State, s': State)
    requires Inv(s) && DropShown(s, s')
    ensures Inv(s')
  {
    assert StrongCounts(s, s.shown.value);
    CountInv(s, s', s.shown.value);
  }

  lemma HoldInv(s: State, i: nat)
    requires Inv(s) && i < |s.pubs| == |s.holders| && (s.holders[i] > 0 || s.shown == Some(i))
    ensures Inv(Hold(s, i))
  {
    assert StrongCounts(s, i);
    CountInv(s, Hold(s, i), i);
  }

  lemma UnholdInv(s: State, s': State, i: nat)
    requires Inv(s) && DropHolder(s, s', i)
    ensures Inv(s')
  {
    assert StrongCounts(s, i);
    CountInv(s, s', i);
  }

  /** Every state of every order of refills, publishes, clones and drops. */
  lemma {:induction false} RunInv(run: seq<State>, i: nat)
    requires IsRun(run) && i < |run|
    ensures Inv(run[i]) && run[i].own == run[0].own
  {
    hide Next, Init, Inv;
    if i == 0 {
      InitInv(run[0]);
    } else {
      RunInv(run, i - 1);
      assert Next(run[i - 1], run[i - 1 + 1]);
      NextInv(run[i - 1], run[i]);
      NextKeeps(run[i - 1], run[i]);
    }
  }

  lemma InitInv(s: State)
    requires Init(s)
    ensures Inv(s)
  {
  }

  /** Somebody still holds the array or a publish of it. */
  ghost predicate Held(s: State)
  {
    s.stage != Dropped || s.shown.Some? || exists i :: 0 <= i < |s.holders| && s.holders[i] > 0
  }

  /** Whoever holds the array or a publish holds the charge. */
  lemma HeldCharged(s: State)
    requires Inv(s) && Held(s)
    ensures s.recycled == [] && s.charge > 0
  {
    if s.stage == Dropped {
      var k := if s.shown.Some? then s.shown.value else var k :| 0 <= k < |s.holders| && s.holders[k] > 0; k;
      assert StrongCounts(s, k);
      HoldingNone(s.pubs, k);
    }
  }

  /**
   One charge, returned once: the pool gets the array's own buffer back at most once,
   and never while the driver or any plugin still holds the array or a publish.
   */
  lemma RecycledOnceAfterTheLast(run: seq<State>, i: nat)
    requires IsRun(run) && i < |run|
    ensures run[i].recycled == [] || run[i].recycled == [run[0].own]
    ensures Held(run[i]) ==> run[i].recycled == [] && run[i].charge > 0
  {
    RunInv(run, i);
    if Held(run[i]) {
      HeldCharged(run[i]);
    }
  }

  /** Nothing is left to do without a holder. */
  ghost predicate Settled(s: State)
  {
    !(exists s' :: Recycle(s, s')) && !(exists s', i: nat :: DropArray(s, s', i))
  }

  /** Once nobody holds anything and the drops have run, the buffer is back in the pool. */
  lemma RecycledInTheEnd(run: seq<State>, i: nat)
    requires IsRun(run) && i < |run|
    requires !Held(run[i]) && Settled(run[i])
    ensures run[i].recycled == [run[0].own]
  {
    RunInv(run, i);
    var s := run[i];
    forall k | 0 <= k < |s.pubs|
      ensures !s.pubs[k].charged
    {
      assert StrongCounts(s, k);
      if s.pubs[k].charged {
        HoldingNone(s.pubs, k);
        var s' := s.(pubs := s.pubs[k := s.pubs[k].(charged := false)], heap := s.heap - {s.pubs[k].buf}, charge := s.charge - 1);
        assert DropArray(s, s', k);
      }
    }
    NoneHolding(s.pubs);
    if s.recycled == [] {
      assert Recycle(s, s.(recycled := s.recycled + [s.own], parked := None));
    }
  }

  lemma {:induction false} NoneHolding(pubs: seq<Publish>)
    requires forall k :: 0 <= k < |pubs| ==> !pubs[k].charged
    ensures Holding(pubs) == 0
  {
    if |pubs| > 0 {
      NoneHolding(pubs[..|pubs| - 1]);
    }
  }

  /** A publish is never changed, only counted. */
  lemma NextKeeps(s: State, s': State)
    requires Next(s, s')
    ensures s'.own == s.own && |s.pubs| <= |s'.pubs|
    ensures forall k :: 0 <= k < |s.pubs| ==>
      s'.pubs[k].buf == s.pubs[k].buf && s'.pubs[k].published == s.pubs[k].published
  {
  }

  lemma {:induction false} RunKeeps(run: seq<State>, i: nat, j: nat)
    requires IsRun(run) && i <= j < |run|
    ensures |run[i].pubs| <= |run[j].pubs|
    ensures forall k :: 0 <= k < |run[i].pubs| ==>
      run[j].pubs[k].buf == run[i].pubs[k].buf && run[j].pubs[k].published == run[i].pubs[k].published
    decreases j
  {
    hide Next, Init;
    if i < j {
      RunKeeps(run, i, j - 1);
      assert Next(run[j - 1], run[j - 1 + 1]);
      NextKeeps(run[j - 1], run[j]);
    }
  }

  /**
   A held publish keeps the data it was published with: publish k made at step i from
   the array's data then is still that data at every later step at which it is held,
   whatever was refilled in between.
   */
  lemma HeldPublishKeepsData(run: seq<State>, i: nat, j: nat, b: nat)
    requires IsRun(run) && i < j < |run|
    requires PublishStep(run[i], run[i + 1], b) && run[i].shown == None
    ensures var k := |run[i].pubs|;
      && k < |run[j].pubs| == |run[j].holders| && run[i].own in run[i].heap
      && (run[j].holders[k] > 0 ==> b in run[j].heap && run[j].heap[b] == run[i].heap[run[i].own])
  {
    var k := |run[i].pubs|;
    RunInv(run, i);
    RunInv(run, j);
    RunKeeps(run, i + 1, j);
    assert StrongCounts(run[j], k) && Separate(run[j], k);
  }

  /** Until the next refill every publish is the same one, and it shows the array's data. */
  lemma ShownIsCurrent(run: seq<State>, i: nat)
    requires IsRun(run) && i < |run| && run[i].shown.Some?
    ensures var s := run[i]; var k := s.shown.value;
      && k < |s.pubs| && s.own in s.heap && s.pubs[k].buf in s.heap && s.pubs[k].buf != s.own
      && s.heap[s.pubs[k].buf] == s.heap[s.own]
      && forall s', b: nat :: PublishStep(s, s', b) ==> s'.pubs[k].buf == s.pubs[k].buf && |s'.pubs| == |s.pubs|
  {
    RunInv(run, i);
    assert StrongCounts(run[i], run[i].shown.value) && Separate(run[i], run[i].shown.value);
  }
}
