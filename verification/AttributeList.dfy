/**
 An array's attribute list: a live prefix of slots, then the storage of attributes
 since cleared or removed. It behaves as a map that remembers insertion order.
 */
module AttributeList {
  import opened Arith
  import opened Wrappers
  import opened Arrays

  /** An attribute; `feed` is its live source, if it has one. */
  datatype Attr = Attr(name: string, description: string, source: int, value: int, feed: Option<int>)

  /** An attribute's storage without its live source. */
  function Bare(a: Attr): (b: Attr)
  {
    a.(feed := None)
  }

  function Names(s: seq<Attr>): (n: seq<string>)
    ensures |n| == |s| && forall i :: 0 <= i < |s| ==> n[i] == s[i].name
  {
    seq(|s|, i requires 0 <= i < |s| => s[i].name)
  }

  /** The first attribute of that name, or the length. */
  function Position(s: seq<Attr>, name: string): (i: nat)
    ensures i <= |s| && (i < |s| ==> s[i].name == name)
    ensures forall j :: 0 <= j < i ==> s[j].name != name
  {
    First(Names(s), name)
  }

  // ---- what it behaves as

  /** A map from names to attributes, with the order the names came in. */
  datatype Ordered = Ordered(order: seq<string>, dict: map<string, Attr>)
  {
    function Add(a: Attr): (r: Ordered)
    {
      Ordered(if a.name in order then order else order + [a.name], dict[a.name := a])
    }

    function AddAll(others: seq<Attr>): (r: Ordered)
      decreases |others|
    {
      if others == [] then this else Add(others[0]).AddAll(others[1..])
    }

    function Remove(name: string): (r: Ordered)
    {
      Ordered(Deleted(order, name), dict - {name})
    }
  }

  /** The others, in their order. */
  function Deleted(order: seq<string>, name: string): (r: seq<string>)
  {
    if order == [] then []
    else (if order[0] == name then [] else [order[0]]) + Deleted(order[1..], name)
  }

  ghost predicate Unique(s: seq<Attr>)
  {
    forall i, j :: 0 <= i < j < |s| ==> s[i].name != s[j].name
  }

  /** After a merge the others' attributes are theirs and the rest as before. */
  lemma {:induction false} MergeIs(m: Ordered, others: seq<Attr>)
    requires Unique(others)
    ensures var r := m.AddAll(others);
      && (forall i :: 0 <= i < |others| ==> others[i].name in r.dict && r.dict[others[i].name] == others[i])
      && forall n :: n !in Names(others) ==> (n in r.dict <==> n in m.dict) && (n in m.dict ==> r.dict[n] == m.dict[n])
    decreases |others|
  {
    if others != [] {
      var a, rest := others[0], others[1..];
      NamesRest(others);
      MergeIs(m.Add(a), rest);
      var r := m.AddAll(others);
      forall i | 0 < i < |others|
        ensures others[i].name in r.dict && r.dict[others[i].name] == others[i]
      {
        assert others[i] == rest[i - 1];
      }
    }
  }

  lemma NamesRest(s: seq<Attr>)
    requires Unique(s) && s != []
    ensures Unique(s[1..]) && s[0].name !in Names(s[1..])
    ensures forall n :: n in Names(s) <==> n == s[0].name || n in Names(s[1..])
  {
    assert Names(s) == [s[0].name] + Names(s[1..]);
    forall i, j | 0 <= i < j < |s[1..]|
      ensures s[1..][i].name != s[1..][j].name
    {
      assert s[i + 1].name != s[j + 1].name;
    }
  }

  /** Names keep their places; those new to the map come after them, once each. */
  lemma {:induction false} MergeOrder(m: Ordered, others: seq<Attr>)
    ensures var r := m.AddAll(others);
      m.order <= r.order && forall n :: n in r.order <==> n in m.order || n in Names(others)
    decreases |others|
  {
    if others != [] {
      MergeOrder(m.Add(others[0]), others[1..]);
      assert Names(others) == [others[0].name] + Names(others[1..]);
    }
  }

  function Dict(s: seq<Attr>): (d: map<string, Attr>)
    ensures d.Keys == set n | n in Names(s)
    ensures forall n :: n in d ==> Position(s, n) < |s| && d[n] == s[Position(s, n)]
  {
    map n | n in Names(s) :: s[Position(s, n)]
  }

  function Abstract(s: seq<Attr>): (m: Ordered)
  {
    Ordered(Names(s), Dict(s))
  }

  /** With unique names a list is what it abstracts to and nothing more. */
  lemma AbstractExact(s: seq<Attr>, t: seq<Attr>)
    requires Unique(s) && Unique(t) && Abstract(s) == Abstract(t)
    ensures s == t
  {
    forall i | 0 <= i < |s|
      ensures |t| == |s| && s[i] == t[i]
    {
      assert Names(s)[i] == Names(t)[i];
      assert Position(s, s[i].name) == i && Position(t, t[i].name) == i;
      assert s[i].name in Dict(s);
    }
    assert |Names(s)| == |Names(t)|;
  }

  // ---- the slots

  datatype Slots = Slots(slots: seq<Attr>, live: nat)
  {
    ghost predicate Valid()
    {
      && live <= |slots| && Unique(slots[..live])
      && forall i :: live <= i < |slots| ==> slots[i].feed == None
    }

    function Attrs(): (s: seq<Attr>)
      requires live <= |slots|
    {
      slots[..live]
    }

    /** Appended into a kept slot where there is one. */
    function Pushed(a: Attr): (r: Slots)
      requires live <= |slots|
      ensures r.live <= |r.slots|
    {
      if live < |slots| then Slots(slots[live := a], live + 1)
      else Slots(slots + [a], live + 1)
    }

    function Added(a: Attr): (r: Slots)
      requires live <= |slots|
      ensures r.live <= |r.slots|
    {
      var at := Position(Attrs(), a.name);
      if at < live then Slots(slots[at := a], live) else Pushed(a)
    }

    /** The attributes after the removed one move down; its storage stays, without its source. */
    function Removed(name: string): (r: Slots)
      requires live <= |slots|
      ensures r.live <= |r.slots|
    {
      var at := Position(Attrs(), name);
      if at < live then
        Slots(slots[..at] + slots[at + 1..live] + [Bare(slots[at])] + slots[live..], live - 1)
      else this
    }

    function Cleared(): (r: Slots)
      requires live <= |slots|
      ensures r.live <= |r.slots|
    {
      Slots(seq(|slots|, i requires 0 <= i < |slots| => if i < live then Bare(slots[i]) else slots[i]), 0)
    }

    function Merged(others: seq<Attr>): (r: Slots)
      requires live <= |slots|
      ensures r.live <= |r.slots|
      decreases |others|
    {
      if others == [] then this else Added(others[0]).Merged(others[1..])
    }

    function PushedAll(others: seq<Attr>): (r: Slots)
      requires live <= |slots|
      ensures r.live <= |r.slots|
      decreases |others|
    {
      if others == [] then this else Pushed(others[0]).PushedAll(others[1..])
    }
  }

  // ---- one operation

  lemma AddedIs(l: Slots, a: Attr)
    requires l.live <= |l.slots|
    ensures var s, r := l.Attrs(), l.Added(a);
      var at := Position(s, a.name);
      && r.live <= |r.slots| && |r.slots| == Max(|l.slots|, r.live)
      && (forall i :: r.live <= i < |r.slots| ==> r.slots[i] == l.slots[i])
      && (if at < l.live then r.live == l.live && r.Attrs() == s[at := a] && s[at].name == a.name
          else r.live == l.live + 1 && r.Attrs() == s + [a] && a.name !in Names(s))
  {
  }

  lemma AddedRefines(l: Slots, a: Attr)
    requires l.Valid()
    ensures var r := l.Added(a);
      r.Valid() && Abstract(r.Attrs()) == Abstract(l.Attrs()).Add(a) && |r.slots| == Max(|l.slots|, r.live) && r.live >= l.live
  {
    hide Abstract, Dict, Slots.Added;
    var s, r := l.Attrs(), l.Added(a);
    var at := Position(s, a.name);
    AddedIs(l, a);
    hide Position;
    if at < l.live {
      assert r.Attrs() == s[at := a];
      ReplaceRefines(s, at, a);
    } else {
      assert r.Attrs() == s + [a];
      AppendRefines(s, a);
    }
  }

  /** What the map holds for a list of unique names. */
  lemma DictAt(s: seq<Attr>)
    requires Unique(s)
    ensures forall i :: 0 <= i < |s| ==> s[i].name in Dict(s) && Dict(s)[s[i].name] == s[i]
    ensures forall n :: n in Dict(s) <==> n in Names(s)
  {
    forall i | 0 <= i < |s|
      ensures s[i].name in Dict(s) && Dict(s)[s[i].name] == s[i]
    {
      assert Names(s)[i] == s[i].name;
      assert Position(s, s[i].name) == i;
    }
  }

  /** And the only map that holds it. */
  lemma DictIs(s: seq<Attr>, d: map<string, Attr>)
    requires Unique(s)
    requires forall i :: 0 <= i < |s| ==> s[i].name in d && d[s[i].name] == s[i]
    requires forall n :: n in d ==> n in Names(s)
    ensures Dict(s) == d
  {
    DictAt(s);
    hide Dict, Position;
    forall n | n in Dict(s)
      ensures n in d && d[n] == Dict(s)[n]
    {
      var i :| 0 <= i < |s| && Names(s)[i] == n;
    }
  }

  lemma ReplaceRefines(s: seq<Attr>, at: nat, a: Attr)
    requires Unique(s) && at < |s| && s[at].name == a.name
    ensures Unique(s[at := a]) && Abstract(s[at := a]) == Abstract(s).Add(a)
  {
    hide Dict, Position;
    var t := s[at := a];
    assert Names(t) == Names(s);
    assert Names(s)[at] == a.name;
    DictAt(s);
    DictIs(t, Dict(s)[a.name := a]);
  }

  lemma AppendRefines(s: seq<Attr>, a: Attr)
    requires Unique(s) && a.name !in Names(s)
    ensures Unique(s + [a]) && Abstract(s + [a]) == Abstract(s).Add(a)
  {
    hide Dict, Position;
    var t := s + [a];
    assert Names(t) == Names(s) + [a.name];
    forall i | 0 <= i < |s|
      ensures s[i].name != a.name
    {
      assert Names(s)[i] == s[i].name;
    }
    DictAt(s);
    DictIs(t, Dict(s)[a.name := a]);
  }

  /** The attribute at `at` moved to the end of the live ones, those after it down by one. */
  function Turned(slots: seq<Attr>, at: nat, live: nat): (r: seq<Attr>)
    requires at < live <= |slots|
    ensures |r| == |slots|
  {
    slots[..at] + slots[at + 1..live] + [slots[at]] + slots[live..]
  }

  /** Midway through the turn: those after `at` and up to `k` moved down by one. */
  ghost function Shifted(slots: seq<Attr>, at: nat, k: nat): seq<Attr>
    requires at <= k < |slots|
  {
    slots[..at] + slots[at + 1..k + 1] + slots[k..]
  }

  lemma ShiftedStep(slots: seq<Attr>, at: nat, k: nat)
    requires at <= k < |slots| - 1
    ensures var s := Shifted(slots, at, k);
      |s| == |slots| && s[k := s[k + 1]] == Shifted(slots, at, k + 1)
  {
  }

  lemma ShiftedEnds(slots: seq<Attr>, at: nat, live: nat)
    requires at < live <= |slots|
    ensures Shifted(slots, at, at) == slots
    ensures var s := Shifted(slots, at, live - 1);
      |s| == |slots| && s[live - 1 := slots[at]] == Turned(slots, at, live)
  {
  }

  /** The attributes rotated and the removed one's source dropped. */
  lemma RemovedIs(l: Slots, name: string, now: seq<Attr>)
    requires l.live <= |l.slots| && Position(l.Attrs(), name) < l.live
    requires var turned := Turned(l.slots, Position(l.Attrs(), name), l.live);
      now == turned[l.live - 1 := Bare(turned[l.live - 1])]
    ensures l.Removed(name) == Slots(now, l.live - 1)
  {
    hide Position;
    var at := Position(l.Attrs(), name);
    assert Turned(l.slots, at, l.live)[l.live - 1] == l.slots[at];
  }

  lemma NotRemoved(l: Slots, name: string)
    requires l.live <= |l.slots| && Position(l.Attrs(), name) == l.live
    ensures l.Removed(name) == l
  {
  }

  lemma RemovedShape(l: Slots, name: string)
    requires l.live <= |l.slots|
    ensures var s, r := l.Attrs(), l.Removed(name);
      var at := Position(s, name);
      && |r.slots| == |l.slots| && r.live <= |r.slots|
      && (if at < l.live then
            && r.live == l.live - 1 && s[at].name == name && r.Attrs() == s[..at] + s[at + 1..]
            && r.slots[r.live].feed == None
            && forall i :: l.live <= i < |l.slots| ==> r.slots[i] == l.slots[i]
          else r == l)
  {
    hide Position;
    PositionBound(l.Attrs(), name);
  }

  lemma PositionBound(s: seq<Attr>, name: string)
    ensures Position(s, name) <= |s| && (Position(s, name) < |s| ==> s[Position(s, name)].name == name)
  {
  }

  lemma RemovedRefines(l: Slots, name: string)
    requires l.Valid()
    ensures var r := l.Removed(name);
      && r.Valid() && Abstract(r.Attrs()) == Abstract(l.Attrs()).Remove(name)
      && |r.slots| == |l.slots| && r.live == if name in Names(l.Attrs()) then l.live - 1 else l.live
  {
    hide Abstract, Unique, Position, Dict, Slots.Removed;
    var s, r := l.Attrs(), l.Removed(name);
    var at := Position(s, name);
    RemovedShape(l, name);
    if at < l.live {
      assert Names(s)[at] == name;
      WithoutRefines(s, at, name);
    } else {
      PositionBound(s, name);
      AbsentRefines(s, name);
    }
  }

  lemma {:induction false} DeletedAt(n: seq<string>, at: nat)
    requires at < |n| && forall i :: 0 <= i < |n| && i != at ==> n[i] != n[at]
    ensures Deleted(n, n[at]) == n[..at] + n[at + 1..]
  {
    if at == 0 {
      DeletedAbsent(n[1..], n[0]);
    } else {
      DeletedAt(n[1..], at - 1);
    }
  }

  lemma {:induction false} DeletedAbsent(n: seq<string>, name: string)
    requires name !in n
    ensures Deleted(n, name) == n
  {
    if n != [] {
      DeletedAbsent(n[1..], name);
    }
  }

  lemma WithoutNames(s: seq<Attr>, at: nat)
    requires Unique(s) && at < |s|
    ensures var t := s[..at] + s[at + 1..];
      Unique(t) && Names(t) == Names(s)[..at] + Names(s)[at + 1..] == Deleted(Names(s), s[at].name)
  {
    DeletedAt(Names(s), at);
  }

  lemma StillNamed(s: seq<Attr>, at: nat, n: string)
    requires at < |s| && n in Names(s) && n != s[at].name
    ensures n in Names(s[..at] + s[at + 1..])
  {
    var i :| 0 <= i < |s| && Names(s)[i] == n;
    assert Names(s[..at] + s[at + 1..])[if i < at then i else i - 1] == n;
  }

  lemma WithoutDict(s: seq<Attr>, at: nat)
    requires Unique(s) && at < |s| && Unique(s[..at] + s[at + 1..])
    ensures Dict(s[..at] + s[at + 1..]) == Dict(s) - {s[at].name}
  {
    hide Dict, Position, Names;
    var t, d := s[..at] + s[at + 1..], Dict(s) - {s[at].name};
    DictAt(s);
    forall i | 0 <= i < |t|
      ensures t[i].name in d && d[t[i].name] == t[i]
    {
      assert t[i] == s[if i < at then i else i + 1];
    }
    forall n | n in d
      ensures n in Names(t)
    {
      StillNamed(s, at, n);
    }
    DictIs(t, d);
  }

  lemma WithoutRefines(s: seq<Attr>, at: nat, name: string)
    requires Unique(s) && at < |s| && s[at].name == name
    ensures var t := s[..at] + s[at + 1..];
      Unique(t) && Abstract(t) == Abstract(s).Remove(name)
  {
    hide Dict, Position, Deleted, Names, Unique;
    WithoutNames(s, at);
    WithoutDict(s, at);
  }

  lemma PresentIff(s: seq<Attr>, name: string)
    ensures Position(s, name) < |s| <==> name in Dict(s)
  {
    if Position(s, name) < |s| {
      assert Names(s)[Position(s, name)] == name;
    }
  }

  lemma AbsentRefines(s: seq<Attr>, name: string)
    requires Position(s, name) == |s|
    ensures Abstract(s) == Abstract(s).Remove(name) && name !in Names(s)
  {
    hide Position, Dict, Names;
    NotNamed(s, name);
    DeletedAbsent(Names(s), name);
    AbsentKey(Dict(s), name);
  }

  lemma AbsentKey(d: map<string, Attr>, name: string)
    requires name !in d
    ensures d - {name} == d
  {
  }

  lemma NotNamed(s: seq<Attr>, name: string)
    requires Position(s, name) == |s|
    ensures name !in Names(s) && name !in Dict(s)
  {
    PresentIff(s, name);
  }

  lemma ClearedRefines(l: Slots)
    requires l.Valid()
    ensures l.Cleared().Valid() && l.Cleared().Attrs() == [] && |l.Cleared().slots| == |l.slots|
  {
  }

  lemma {:induction false} MergedRefines(l: Slots, others: seq<Attr>)
    requires l.Valid()
    ensures var r := l.Merged(others);
      && r.Valid() && Abstract(r.Attrs()) == Abstract(l.Attrs()).AddAll(others)
      && |r.slots| == Max(|l.slots|, r.live) && r.live >= l.live
    decreases |others|
  {
    hide Abstract;
    if others != [] {
      AddedRefines(l, others[0]);
      MergedRefines(l.Added(others[0]), others[1..]);
    }
  }

  lemma UniquePrefix(s: seq<Attr>, t: seq<Attr>)
    requires Unique(s + t)
    ensures Unique(s)
  {
    forall i, j | 0 <= i < j < |s|
      ensures s[i].name != s[j].name
    {
      assert (s + t)[i] == s[i] && (s + t)[j] == s[j];
    }
  }

  lemma {:induction false} PushedRefines(l: Slots, others: seq<Attr>)
    requires l.Valid() && Unique(l.Attrs() + others)
    ensures var r := l.PushedAll(others);
      && r.Valid() && r.Attrs() == l.Attrs() + others
      && |r.slots| == Max(|l.slots|, r.live)
    decreases |others|
  {
    if others != [] {
      var m := l.Pushed(others[0]);
      assert m.Attrs() == l.Attrs() + [others[0]];
      assert m.Attrs() + others[1..] == l.Attrs() + others;
      UniquePrefix(m.Attrs(), others[1..]);
      PushedRefines(m, others[1..]);
    } else {
      assert l.Attrs() + others == l.Attrs();
    }
  }

  // ---- every run

  datatype Op = Add(attr: Attr) | Remove(name: string) | Clear | CopyFrom(others: seq<Attr>) | CloneFrom(others: seq<Attr>)

  /** Lists merged or cloned from have unique names themselves. */
  ghost predicate WellFormed(op: Op)
  {
    (op.CopyFrom? || op.CloneFrom?) ==> Unique(op.others)
  }

  function Do(l: Slots, op: Op): (r: Slots)
    requires l.live <= |l.slots|
    ensures r.live <= |r.slots|
  {
    match op
    case Add(a) => l.Added(a)
    case Remove(n) => l.Removed(n)
    case Clear => l.Cleared()
    case CopyFrom(o) => l.Merged(o)
    case CloneFrom(o) => l.Cleared().PushedAll(o)
  }

  function DoOrdered(m: Ordered, op: Op): (r: Ordered)
  {
    match op
    case Add(a) => m.Add(a)
    case Remove(n) => m.Remove(n)
    case Clear => Ordered([], map[])
    case CopyFrom(o) => m.AddAll(o)
    case CloneFrom(o) => Abstract(o)
  }

  /** One operation: the ordered map's, the invariant kept, the slots grown only past their number. */
  lemma OpRefines(l: Slots, op: Op)
    requires l.Valid() && WellFormed(op)
    ensures var r := Do(l, op);
      && r.Valid() && Abstract(r.Attrs()) == DoOrdered(Abstract(l.Attrs()), op)
      && |r.slots| == Max(|l.slots|, r.live)
  {
    hide Abstract, Unique, Position;
    match op
    case Add(a) =>
      AddedRefines(l, a);
    case Remove(n) =>
      RemovedRefines(l, n);
    case Clear =>
      ClearedRefines(l);
      EmptyAbstract();
    case CopyFrom(o) =>
      MergedRefines(l, o);
    case CloneFrom(o) =>
      ClearedRefines(l);
      assert [] + o == o;
      PushedRefines(l.Cleared(), o);
  }

  lemma EmptyAbstract()
    ensures Abstract([]) == Ordered([], map[])
  {
  }

  /** A new list, or a clone: it has no slot but those of its attributes. */
  ghost predicate Fresh(l: Slots)
  {
    l.Valid() && l.live == |l.slots|
  }

  /** The list after a sequence of operations. */
  function Run(l: Slots, ops: seq<Op>): (r: Slots)
    requires l.live <= |l.slots|
    ensures r.live <= |r.slots|
  {
    if |ops| == 0 then l else Do(Run(l, ops[..|ops| - 1]), ops[|ops| - 1])
  }

  function OrderedRun(m: Ordered, ops: seq<Op>): (r: Ordered)
  {
    if |ops| == 0 then m else DoOrdered(OrderedRun(m, ops[..|ops| - 1]), ops[|ops| - 1])
  }

  /** The greatest length the list has had. */
  function Peak(l: Slots, ops: seq<Op>): (n: nat)
    requires l.live <= |l.slots|
  {
    if |ops| == 0 then l.live else Max(Peak(l, ops[..|ops| - 1]), Run(l, ops).live)
  }

  /**
   After every run on a new or cloned list the live attributes are those of the ordered
   map, no dead slot holds a live source, and there are exactly as many slots as the
   list was ever long.
   */
  lemma {:induction false} RunRefines(l: Slots, ops: seq<Op>)
    requires Fresh(l) && forall i :: 0 <= i < |ops| ==> WellFormed(ops[i])
    ensures var r := Run(l, ops);
      r.Valid() && Abstract(r.Attrs()) == OrderedRun(Abstract(l.slots), ops) && |r.slots| == Peak(l, ops)
    decreases |ops|
  {
    hide Abstract, Do, DoOrdered;
    var n := |ops|;
    if n == 0 {
      assert l.Attrs() == l.slots;
    } else {
      RunRefines(l, ops[..n - 1]);
      OpRefines(Run(l, ops[..n - 1]), ops[n - 1]);
    }
  }

  /** Cloning onto any list, after any run, leaves exactly the source list. */
  lemma CloneYieldsSource(l: Slots, others: seq<Attr>)
    requires l.Valid() && Unique(others)
    ensures var r := Do(l, CloneFrom(others)); r.Valid() && r.Attrs() == others
  {
    ClearedRefines(l);
    assert [] + others == others;
    PushedRefines(l.Cleared(), others);
  }

  /** The list itself. */
  class NDAttributeList {
    var slots: seq<Attr>
    var live: nat

    function State(): (l: Slots)
      reads this
    {
      Slots(slots, live)
    }

    ghost predicate Valid()
      reads this
    {
      State().Valid()
    }

    constructor ()
      ensures Valid() && State() == Slots([], 0)
    {
      slots, live := [], 0;
    }

    /** A clone keeps the attributes only. */
    constructor Clone(other: NDAttributeList)
      requires other.Valid()
      ensures Valid() && Fresh(State()) && State().Attrs() == old(other.State().Attrs())
    {
      slots, live := other.slots[..other.live], other.live;
      new;
      assert slots[..live] == slots;
    }

    method Find(name: string) returns (at: nat)
      requires Valid()
      ensures at == Position(State().Attrs(), name)
    {
      at := 0;
      while at < live && slots[at].name != name
        invariant at <= live && forall j :: 0 <= j < at ==> slots[j].name != name
      {
        at := at + 1;
      }
    }

    method Get(name: string) returns (a: Option<Attr>)
      requires Valid()
      ensures a == var d := Dict(State().Attrs()); if name in d then Some(d[name]) else None
    {
      var at := Find(name);
      var s := slots[..live];
      if at < live {
        assert Names(s)[at] == name;
        return Some(slots[at]);
      }
      return None;
    }

    method Add(a: Attr)
      requires Valid()
      modifies this
      ensures Valid() && State() == old(State()).Added(a)
    {
      hide Abstract, Unique, Position;
      AddedRefines(State(), a);
      var at := Find(a.name);
      if at < live {
        slots := slots[at := a];
      } else if live < |slots| {
        slots := slots[live := a];
        live := live + 1;
      } else {
        slots := slots + [a];
        live := live + 1;
      }
    }

    method PushCopy(a: Attr)
      requires live <= |slots|
      modifies this
      ensures State() == old(State()).Pushed(a)
    {
      if live < |slots| {
        slots := slots[live := a];
      } else {
        slots := slots + [a];
      }
      live := live + 1;
    }

    method RotateLeft(at: nat)
      requires at < live <= |slots|
      modifies this`slots
      ensures slots == Turned(old(slots), at, live)
    {
      hide Shifted, Turned;
      var was, last := slots, live - 1;
      ShiftedEnds(was, at, live);
      var s := was;
      for k := at to last
        invariant |s| == |was| && s == Shifted(was, at, k)
        invariant slots == was && live == last + 1
      {
        ShiftedStep(was, at, k);
        s := s[k := s[k + 1]];
      }
      slots := s[last := was[at]];
    }

    method Remove(name: string) returns (found: bool)
      requires Valid()
      modifies this
      ensures Valid() && State() == old(State()).Removed(name)
      ensures found <==> name in Dict(old(State()).Attrs())
    {
      hide Abstract, Unique, Position, Dict, Names, Slots.Removed, Turned;
      RemovedRefines(State(), name);
      PresentIff(State().Attrs(), name);
      var at := Find(name);
      found := at < live;
      if found {
        RotateLeft(at);
        live := live - 1;
        slots := slots[live := slots[live].(feed := None)];
        RemovedIs(old(State()), name, slots);
      } else {
        NotRemoved(State(), name);
      }
    }

    method Clear()
      requires Valid()
      modifies this
      ensures Valid() && State() == old(State()).Cleared()
    {
      ClearedRefines(State());
      for i := 0 to live
        invariant live == old(live) && |slots| == |old(slots)|
        invariant forall k :: 0 <= k < |slots| ==> slots[k] == if k < i then Bare(old(slots)[k]) else old(slots)[k]
      {
        slots := slots[i := slots[i].(feed := None)];
      }
      live := 0;
      assert slots == old(State()).Cleared().slots;
    }

    /** Into the attribute of that name where there is one, and else at the end. */
    method AddCopy(a: Attr)
      requires Valid()
      modifies this
      ensures Valid() && State() == old(State()).Added(a)
    {
      hide Abstract, Unique, Position;
      AddedRefines(State(), a);
      var at := Find(a.name);
      if at < live {
        slots := slots[at := a];
      } else {
        PushCopy(a);
      }
    }

    /** Merge another list: known names take its values, new ones go to the end. */
    method CopyFrom(other: NDAttributeList)
      requires Valid() && other.Valid() && other != this
      modifies this
      ensures Valid() && State() == old(State()).Merged(other.State().Attrs())
    {
      hide Abstract, Unique, Position, Slots.Added;
      var others := other.slots[..other.live];
      MergedRefines(State(), others);
      for i := 0 to |others|
        invariant Valid() && State().Merged(others[i..]) == old(State()).Merged(others)
      {
        assert others[i..][1..] == others[i + 1..];
        AddCopy(others[i]);
      }
    }

    method CloneFrom(other: NDAttributeList)
      requires Valid() && other.Valid() && other != this
      modifies this
      ensures Valid() && State() == old(State()).Cleared().PushedAll(other.State().Attrs())
      ensures State().Attrs() == other.State().Attrs()
    {
      var others := other.slots[..other.live];
      CloneYieldsSource(State(), others);
      Clear();
      for i := 0 to |others|
        invariant live <= |slots| && State().PushedAll(others[i..]) == old(State()).Cleared().PushedAll(others)
      {
        assert others[i..][1..] == others[i + 1..];
        PushCopy(others[i]);
      }
    }
  }
}
