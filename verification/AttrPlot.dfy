/**
 The attribute plot plugin: one capped ring of values per tracked attribute and one of
 frame ids, and data blocks bound to rings by attribute name across re-discoveries.
 */
module AttrPlot {
  import opened Wrappers
  import opened Arrays

  /** A plotted value. */
  datatype Value = Num(v: real) | NaN

  /** A frame's attribute; None when it has no numeric value. */
  datatype FrameAttr = FrameAttr(name: string, value: Option<Value>)

  /** What the plugin sees of a frame. */
  datatype Frame = Frame(uid: int, attrs: seq<FrameAttr>)
  {
    /** Names in an attribute list are unique. */
    ghost predicate Valid()
    {
      forall i, j :: 0 <= i < j < |attrs| ==> attrs[i].name != attrs[j].name
    }
  }

  const UID_INDEX: int := -1
  const NONE_INDEX: int := -2
  const UID_LABEL: string := "UID"
  const NONE_LABEL: string := "None"

  // ---- which attributes are tracked

  /** Lexicographic order. */
  predicate Leq(a: string, b: string)
    decreases |a|
  {
    a == [] || (b != [] && (a[0] < b[0] || (a[0] == b[0] && Leq(a[1..], b[1..]))))
  }

  lemma {:induction false} LeqTotal(a: string, b: string)
    ensures Leq(a, b) || Leq(b, a)
    decreases |a|
  {
    if a != [] && b != [] && a[0] == b[0] {
      LeqTotal(a[1..], b[1..]);
    }
  }

  /** k is the first place where the two differ, a being the smaller there or at its end. */
  ghost predicate FirstDiffers(a: string, b: string, k: nat)
  {
    k < |b| && k <= |a| && a[..k] == b[..k] && (k == |a| || a[k] < b[k])
  }

  /** The order is that of the first character that differs, a prefix coming first. */
  lemma {:induction false} LeqIff(a: string, b: string)
    ensures Leq(a, b) <==> a == b || exists k: nat :: FirstDiffers(a, b, k)
    decreases |a|
  {
    if a == [] {
      assert b != [] ==> FirstDiffers(a, b, 0);
    } else if b != [] {
      if a[0] < b[0] {
        assert FirstDiffers(a, b, 0);
      } else if a[0] == b[0] {
        LeqIff(a[1..], b[1..]);
        assert a == [a[0]] + a[1..] && b == [b[0]] + b[1..];
        if k: nat :| FirstDiffers(a[1..], b[1..], k) {
          assert a[..k + 1] == [a[0]] + a[1..][..k] && b[..k + 1] == [b[0]] + b[1..][..k];
          assert FirstDiffers(a, b, k + 1);
        }
        if k: nat :| FirstDiffers(a, b, k) {
          DiffersLater(a, b, k);
        }
      } else {
        forall k: nat
          ensures !FirstDiffers(a, b, k)
        {
          NotBelow(a, b, k);
        }
      }
    }
  }

  lemma NotBelow(a: string, b: string, k: nat)
    requires a != [] && b != [] && a[0] > b[0]
    ensures !FirstDiffers(a, b, k)
  {
    if 0 < k <= |a| && k <= |b| {
      assert a[..k][0] != b[..k][0];
    }
  }

  lemma DiffersLater(a: string, b: string, k: nat)
    requires a != [] && b != [] && a[0] == b[0] && FirstDiffers(a, b, k)
    ensures k > 0 && FirstDiffers(a[1..], b[1..], k - 1)
  {
    assert a[1..][..k - 1] == a[..k][1..] && b[1..][..k - 1] == b[..k][1..];
  }

  lemma {:induction false} LeqTransitive(a: string, b: string, c: string)
    requires Leq(a, b) && Leq(b, c)
    ensures Leq(a, c)
    decreases |a|
  {
    if a != [] && a[0] == b[0] == c[0] {
      LeqTransitive(a[1..], b[1..], c[1..]);
    }
  }

  ghost predicate Sorted(s: seq<string>)
  {
    forall i, j :: 0 <= i < j < |s| ==> Leq(s[i], s[j])
  }

  function Inserted(s: seq<string>, x: string): (r: seq<string>)
    ensures multiset(r) == multiset(s) + multiset{x} && |r| == |s| + 1
  {
    if s == [] then [x]
    else if Leq(x, s[0]) then [x] + s
    else
      assert s == [s[0]] + s[1..];
      [s[0]] + Inserted(s[1..], x)
  }

  function Sort(s: seq<string>): (r: seq<string>)
    ensures multiset(r) == multiset(s) && |r| == |s|
  {
    if s == [] then []
    else
      assert s == [s[0]] + s[1..];
      Inserted(Sort(s[1..]), s[0])
  }

  lemma InsertedFrom(s: seq<string>, x: string)
    ensures forall i :: 0 <= i < |Inserted(s, x)| ==> Inserted(s, x)[i] == x || Inserted(s, x)[i] in s
  {
    forall i | 0 <= i < |Inserted(s, x)|
      ensures Inserted(s, x)[i] == x || Inserted(s, x)[i] in s
    {
      assert Inserted(s, x)[i] in multiset(Inserted(s, x));
    }
  }

  lemma InsertedBehind(s: seq<string>, x: string)
    requires s != [] && !Leq(x, s[0])
    ensures Inserted(s, x) == [s[0]] + Inserted(s[1..], x)
  {
  }

  lemma {:induction false} InsertedSorted(s: seq<string>, x: string)
    requires Sorted(s)
    ensures Sorted(Inserted(s, x))
  {
    if s != [] {
      if Leq(x, s[0]) {
        forall i | 0 <= i < |s|
          ensures Leq(x, s[i])
        {
          if i > 0 {
            LeqTransitive(x, s[0], s[i]);
          }
        }
      } else {
        LeqTotal(x, s[0]);
        InsertedSorted(s[1..], x);
        InsertedFrom(s[1..], x);
        hide Leq, Inserted;
        var r := Inserted(s[1..], x);
        forall i | 0 <= i < |r|
          ensures Leq(s[0], r[i])
        {
          assert r[i] == x || r[i] in s[1..];
        }
        InsertedBehind(s, x);
      }
    }
  }

  lemma {:induction false} SortSorted(s: seq<string>)
    ensures Sorted(Sort(s))
  {
    if s != [] {
      SortSorted(s[1..]);
      InsertedSorted(Sort(s[1..]), s[0]);
    }
  }

  /** The names of the attributes with a numeric value. */
  function Numeric(attrs: seq<FrameAttr>): (names: seq<string>)
  {
    if attrs == [] then []
    else
      var rest, last := Numeric(attrs[..|attrs| - 1]), attrs[|attrs| - 1];
      if last.value.Some? then rest + [last.name] else rest
  }

  /** The first n of them in order. */
  function Tracked(f: Frame, n: nat): (names: seq<string>)
  {
    var s := Sort(Numeric(f.attrs));
    if n < |s| then s[..n] else s
  }

  lemma {:induction false} NumericUnique(attrs: seq<FrameAttr>)
    requires forall i, j :: 0 <= i < j < |attrs| ==> attrs[i].name != attrs[j].name
    ensures forall x :: x in Numeric(attrs) <==> exists i :: 0 <= i < |attrs| && attrs[i].name == x && attrs[i].value.Some?
    ensures forall x :: multiset(Numeric(attrs))[x] <= 1
  {
    if attrs != [] {
      var n := |attrs| - 1;
      var rest, last := attrs[..n], attrs[n];
      NumericUnique(rest);
      forall x | x in Numeric(attrs)
        ensures exists i :: 0 <= i < |attrs| && attrs[i].name == x && attrs[i].value.Some?
      {
        if x in Numeric(rest) {
          var i :| 0 <= i < n && rest[i].name == x && rest[i].value.Some?;
          assert attrs[i].name == x;
        } else {
          assert attrs[n].name == x;
        }
      }
      forall i | 0 <= i < |attrs| && attrs[i].value.Some?
        ensures attrs[i].name in Numeric(attrs)
      {
        if i < n {
          assert rest[i].name in Numeric(rest);
        }
      }
      assert last.name !in Numeric(rest);
    }
  }

  lemma NoRepeat(s: seq<string>)
    requires forall x :: multiset(s)[x] <= 1
    ensures forall i, j :: 0 <= i < j < |s| ==> s[i] != s[j]
  {
    forall i, j | 0 <= i < j < |s|
      ensures s[i] != s[j]
    {
      assert s == s[..j] + s[j..];
      assert s[i] == s[..j][i] && s[j] == s[j..][0];
      assert s[i] in multiset(s[..j]) && s[j] in multiset(s[j..]);
      assert multiset(s)[s[j]] == multiset(s[..j])[s[j]] + multiset(s[j..])[s[j]];
    }
  }

  /** The frame has a numeric attribute of that name. */
  ghost predicate HasNumeric(f: Frame, name: string)
  {
    exists i :: 0 <= i < |f.attrs| && f.attrs[i].name == name && f.attrs[i].value.Some?
  }

  /**
   The tracked names are numeric attributes, at most n, none twice, in order. One is left
   out only where there are n of them, none of which comes after it.
   */
  lemma TrackedAre(f: Frame, n: nat)
    requires f.Valid()
    ensures var t := Tracked(f, n);
      && |t| <= n && Sorted(t) && (forall i, j :: 0 <= i < j < |t| ==> t[i] != t[j])
      && (forall x :: x in t ==> HasNumeric(f, x))
      && forall y :: HasNumeric(f, y) && y !in t ==> |t| == n && forall x :: x in t ==> Leq(x, y)
  {
    NumericUnique(f.attrs);
    TrackedOf(f, n);
    forall y | HasNumeric(f, y) && y !in Tracked(f, n)
      ensures |Tracked(f, n)| == n && forall x :: x in Tracked(f, n) ==> Leq(x, y)
    {
      var all := Numeric(f.attrs);
      assert y in all;
    }
  }

  lemma TrackedOf(f: Frame, n: nat)
    requires f.Valid()
    ensures var t, all := Tracked(f, n), Numeric(f.attrs);
      && |t| == (if n < |all| then n else |all|) && Sorted(t)
      && (forall i, j :: 0 <= i < j < |t| ==> t[i] != t[j])
      && (forall x :: x in t ==> x in all)
      && (forall x, y :: x in t && y in all && y !in t ==> Leq(x, y))
      && (n >= |all| ==> forall y :: y in all ==> y in t)
  {
    var all := Numeric(f.attrs);
    var s, t := Sort(all), Tracked(f, n);
    NumericUnique(f.attrs);
    SortSorted(all);
    NoRepeat(s);
    assert forall q :: 0 <= q < |t| ==> t[q] == s[q];
    forall x | x in t
      ensures x in all
    {
      assert x in multiset(s);
    }
    forall x, y | x in t && y in all && y !in t
      ensures Leq(x, y)
    {
      assert y in multiset(s);
      var i :| 0 <= i < |t| && t[i] == x;
      var j :| 0 <= j < |s| && s[j] == y;
      assert s[i] == x;
    }
    forall y | y in all && n >= |all|
      ensures y in t
    {
      assert y in multiset(s);
    }
  }

  // ---- the state

  datatype Plot = Plot(nAttributes: nat, nBlocks: nat, cacheSize: nat, attributes: seq<string>,
                       buffers: seq<seq<Value>>, uids: seq<int>, selections: seq<int>, initialized: bool, lastUid: int)

  function New(nAttributes: nat, nBlocks: nat, cacheSize: nat): (s: Plot)
  {
    Plot(nAttributes, nBlocks, cacheSize, [], [], [], seq(nBlocks, _ => NONE_INDEX), false, -1)
  }

  function PushCapped<T>(buf: seq<T>, v: T, cap: nat): (r: seq<T>)
  {
    (if cap > 0 && |buf| >= cap then buf[1..] else buf) + [v]
  }

  /** The value a frame has for a name. */
  function ValueOf(f: Frame, name: string): (v: Value)
  {
    var at := First(seq(|f.attrs|, i requires 0 <= i < |f.attrs| => f.attrs[i].name), name);
    if at < |f.attrs| && f.attrs[at].value.Some? then f.attrs[at].value.value else NaN
  }

  /** v is what the frame carries under the name: the first attribute's number, or no number. */
  ghost predicate Reads(f: Frame, name: string, v: Value)
  {
    || (exists i :: 0 <= i < |f.attrs| && IsFirst(f, name, i)
                    && v == if f.attrs[i].value.Some? then f.attrs[i].value.value else NaN)
    || (v == NaN && forall i :: 0 <= i < |f.attrs| ==> f.attrs[i].name != name)
  }

  ghost predicate IsFirst(f: Frame, name: string, i: int)
    requires 0 <= i < |f.attrs|
  {
    f.attrs[i].name == name && forall j :: 0 <= j < i ==> f.attrs[j].name != name
  }

  /** The plotted value is that, and nothing else is. */
  lemma ValueReads(f: Frame, name: string, v: Value)
    ensures Reads(f, name, v) <==> v == ValueOf(f, name)
  {
    var names := seq(|f.attrs|, i requires 0 <= i < |f.attrs| => f.attrs[i].name);
    var at := First(names, name);
    if at < |f.attrs| {
      assert names[at] == name;
      forall j | 0 <= j < at
        ensures f.attrs[j].name != name
      {
        assert names[j] != name;
      }
      assert IsFirst(f, name, at);
      if i :| 0 <= i < |f.attrs| && IsFirst(f, name, i) {
        assert i == at;
      }
    } else {
      forall i | 0 <= i < |f.attrs|
        ensures f.attrs[i].name != name
      {
        assert names[i] != name;
      }
    }
  }

  /** With unique names: the number of the attribute of that name, and NaN where none of that name is numeric. */
  lemma ValueCarried(f: Frame, name: string)
    requires f.Valid()
    ensures forall i :: 0 <= i < |f.attrs| && f.attrs[i].name == name && f.attrs[i].value.Some? ==>
      ValueOf(f, name) == f.attrs[i].value.value
    ensures !HasNumeric(f, name) ==> ValueOf(f, name) == NaN
  {
    ValueReads(f, name, ValueOf(f, name));
    hide ValueOf;
    forall i | 0 <= i < |f.attrs| && f.attrs[i].name == name && f.attrs[i].value.Some?
      ensures ValueOf(f, name) == f.attrs[i].value.value
    {
      assert IsFirst(f, name, i);
    }
  }

  function Emptied(s: Plot): (r: Plot)
  {
    s.(initialized := false, uids := [], buffers := seq(|s.buffers|, _ => []), lastUid := -1)
  }

  /** What a block is bound to. */
  datatype Binding = Uid | Name(name: string) | Unbound

  function BindingOf(attributes: seq<string>, sel: int): (b: Binding)
  {
    if sel == UID_INDEX then Uid
    else if 0 <= sel < |attributes| then Name(attributes[sel])
    else Unbound
  }

  /** The label of a binding. */
  function LabelOf(b: Binding): (l: string)
  {
    match b
    case Uid => UID_LABEL
    case Name(n) => n
    case Unbound => NONE_LABEL
  }

  /** A selection looked up again by the label remembered for it. */
  function Rebound(before: seq<string>, attributes: seq<string>, sel: int): (r: int)
  {
    match BindingOf(before, sel)
    case Uid => UID_INDEX
    case Name(n) =>
      if n == UID_LABEL then UID_INDEX
      else if First(attributes, n) < |attributes| then First(attributes, n)
      else NONE_INDEX
    case Unbound => NONE_INDEX
  }

  function Rebuilt(s: Plot, f: Frame): (r: Plot)
  {
    var names := Tracked(f, s.nAttributes);
    s.(attributes := names, buffers := seq(|names|, _ => []), initialized := true,
       selections := seq(|s.selections|, i requires 0 <= i < |s.selections| => Rebound(s.attributes, names, s.selections[i])))
  }

  function PushData(s: Plot, f: Frame): (r: Plot)
    requires |s.buffers| == |s.attributes|
  {
    s.(uids := PushCapped(s.uids, f.uid, s.cacheSize),
       buffers := seq(|s.buffers|, i requires 0 <= i < |s.buffers| =>
         PushCapped(s.buffers[i], ValueOf(f, s.attributes[i]), s.cacheSize)))
  }

  function Process(s: Plot, f: Frame): (r: Plot)
    requires |s.buffers| == |s.attributes|
  {
    var a := (if s.uids != [] && f.uid <= s.lastUid then Emptied(s) else s).(lastUid := f.uid);
    PushData(if a.initialized then a else Rebuilt(a, f), f)
  }

  /** The block exists and a positive selection is a tracked attribute. */
  predicate Selectable(s: Plot, block: int, value: int)
  {
    0 <= block < s.nBlocks && (value <= 0 || value < |s.attributes|)
  }

  function Selected(s: Plot, block: int, value: int): (r: Plot)
    requires |s.selections| == s.nBlocks
  {
    if Selectable(s, block, value) then s.(selections := s.selections[block := value]) else s
  }

  // ---- every run

  datatype Op = Take(frame: Frame) | Select(block: int, value: int) | Restart

  function Do(s: Plot, op: Op): (r: Plot)
    requires |s.buffers| == |s.attributes| && |s.selections| == s.nBlocks
    ensures |r.buffers| == |r.attributes| && |r.selections| == r.nBlocks
  {
    match op
    case Take(f) => Process(s, f)
    case Select(b, v) => Selected(s, b, v)
    case Restart => Emptied(s)
  }

  /** The frames of the current acquisition: those since the last restart or the last id that did not increase. */
  function EpochAfter(e: seq<Frame>, op: Op): (r: seq<Frame>)
  {
    match op
    case Take(f) => (if e != [] && f.uid <= e[|e| - 1].uid then [] else e) + [f]
    case Select(_, _) => e
    case Restart => []
  }

  function Epoch(ops: seq<Op>): (e: seq<Frame>)
  {
    if ops == [] then [] else EpochAfter(Epoch(ops[..|ops| - 1]), ops[|ops| - 1])
  }

  /** The frames taken since the last restart. */
  function Taken(ops: seq<Op>): (e: seq<Frame>)
  {
    if ops == [] then []
    else
      match ops[|ops| - 1]
      case Take(f) => Taken(ops[..|ops| - 1]) + [f]
      case Select(_, _) => Taken(ops[..|ops| - 1])
      case Restart => []
  }

  /** The ids of e increase, and the frame before it, if any, is not below its first: it could not begin earlier. */
  ghost predicate LongestRun(lead: seq<Frame>, e: seq<Frame>)
  {
    Increasing(e) && (lead != [] ==> e != [] && lead[|lead| - 1].uid >= e[0].uid)
  }

  lemma RunGrows(lead: seq<Frame>, e: seq<Frame>, f: Frame) returns (next: seq<Frame>)
    requires LongestRun(lead, e)
    ensures lead + e + [f] == next + EpochAfter(e, Take(f)) && LongestRun(next, EpochAfter(e, Take(f)))
  {
    if e != [] && f.uid <= e[|e| - 1].uid {
      next := lead + e;
      assert EpochAfter(e, Take(f)) == [f];
    } else {
      next := lead;
      IncreasingPush(e, f);
      assert EpochAfter(e, Take(f)) == e + [f] && lead + e + [f] == lead + (e + [f]);
    }
  }

  /** The current acquisition is the longest run of increasing ids at the end of the frames since the last restart. */
  lemma {:induction false} EpochIs(ops: seq<Op>) returns (lead: seq<Frame>)
    ensures Taken(ops) == lead + Epoch(ops) && LongestRun(lead, Epoch(ops))
  {
    hide LongestRun;
    if ops == [] {
      lead := [];
      NoRun();
    } else {
      var before, op := ops[..|ops| - 1], ops[|ops| - 1];
      lead := EpochIs(before);
      match op
      case Take(f) => lead := RunGrows(lead, Epoch(before), f);
      case Select(_, _) =>
      case Restart =>
        lead := [];
        NoRun();
    }
  }

  lemma NoRun()
    ensures LongestRun([], [])
  {
  }

  /** The last cap of h, or all of it without a cap. */
  function Tail<T>(h: seq<T>, cap: nat): (t: seq<T>)
  {
    if cap > 0 && |h| > cap then h[|h| - cap..] else h
  }

  lemma TailPush<T>(h: seq<T>, v: T, cap: nat)
    ensures PushCapped(Tail(h, cap), v, cap) == Tail(h + [v], cap)
  {
  }

  function Uids(e: seq<Frame>): (u: seq<int>)
    ensures |u| == |e| && forall i :: 0 <= i < |e| ==> u[i] == e[i].uid
  {
    seq(|e|, i requires 0 <= i < |e| => e[i].uid)
  }

  function Values(e: seq<Frame>, name: string): (v: seq<Value>)
    ensures |v| == |e| && forall i :: 0 <= i < |e| ==> v[i] == ValueOf(e[i], name)
  {
    seq(|e|, i requires 0 <= i < |e| => ValueOf(e[i], name))
  }

  ghost predicate Increasing(e: seq<Frame>)
  {
    forall i, j :: 0 <= i < j < |e| ==> e[i].uid < e[j].uid
  }

  /** The state holds exactly the recent frames of the acquisition e. */
  ghost predicate Inv(s: Plot, e: seq<Frame>)
  {
    && |s.selections| == s.nBlocks && |s.buffers| == |s.attributes| && Increasing(e)
    && (s.initialized <==> e != [])
    && s.uids == Tail(Uids(e), s.cacheSize)
    && (forall i :: 0 <= i < |s.buffers| ==> s.buffers[i] == Tail(Values(e, s.attributes[i]), s.cacheSize))
    && (e != [] ==> s.lastUid == e[|e| - 1].uid && s.attributes == Tracked(e[0], s.nAttributes))
  }

  lemma EmptiedInv(s: Plot, e: seq<Frame>)
    requires Inv(s, e)
    ensures Inv(Emptied(s), [])
  {
  }

  lemma RebuiltInv(s: Plot, f: Frame)
    requires Inv(s, [])
    ensures var r := Rebuilt(s, f);
      && |r.selections| == r.nBlocks && r.initialized && r.uids == [] && r.attributes == Tracked(f, s.nAttributes)
      && |r.buffers| == |r.attributes| && r.cacheSize == s.cacheSize && r.nAttributes == s.nAttributes && r.lastUid == s.lastUid
      && forall i :: 0 <= i < |r.buffers| ==> r.buffers[i] == []
  {
  }

  /** A frame is added to every ring, or starts an acquisition of its own. */
  lemma ProcessInv(s: Plot, e: seq<Frame>, f: Frame)
    requires Inv(s, e)
    ensures Inv(Process(s, f), EpochAfter(e, Take(f)))
  {
    hide Tracked, ValueOf, Rebound, PushData;
    var anew := s.uids != [] && f.uid <= s.lastUid;
    assert s.uids != [] <==> e != [];
    var e0 := if anew then [] else e;
    var a := if anew then Emptied(s) else s;
    EmptiedInv(s, e);
    assert Inv(a, e0);
    var b := a.(lastUid := f.uid);
    var c := if b.initialized then b else Rebuilt(b, f);
    assert e0 == [] ==> Inv(b, []);
    if e0 == [] {
      RebuiltInv(b, f);
    }
    PushInv(c, e0, f);
  }

  lemma UidsPush(e: seq<Frame>, f: Frame, cap: nat)
    ensures PushCapped(Tail(Uids(e), cap), f.uid, cap) == Tail(Uids(e + [f]), cap)
  {
    assert Uids(e + [f]) == Uids(e) + [f.uid];
    TailPush(Uids(e), f.uid, cap);
  }

  lemma ValuesPush(e: seq<Frame>, f: Frame, name: string, cap: nat)
    ensures PushCapped(Tail(Values(e, name), cap), ValueOf(f, name), cap) == Tail(Values(e + [f], name), cap)
  {
    hide ValueOf;
    assert Values(e + [f], name) == Values(e, name) + [ValueOf(f, name)];
    TailPush(Values(e, name), ValueOf(f, name), cap);
  }

  lemma IncreasingPush(e: seq<Frame>, f: Frame)
    requires Increasing(e) && (e != [] ==> e[|e| - 1].uid < f.uid)
    ensures Increasing(e + [f])
  {
    forall i | 0 <= i < |e|
      ensures e[i].uid < f.uid
    {
      if i < |e| - 1 {
        assert e[i].uid < e[|e| - 1].uid;
      }
    }
  }

  lemma PushInv(c: Plot, e: seq<Frame>, f: Frame)
    requires |c.selections| == c.nBlocks && |c.buffers| == |c.attributes| && Increasing(e) && c.initialized
    requires c.uids == Tail(Uids(e), c.cacheSize) && c.lastUid == f.uid
    requires forall i :: 0 <= i < |c.buffers| ==> c.buffers[i] == Tail(Values(e, c.attributes[i]), c.cacheSize)
    requires c.attributes == Tracked((e + [f])[0], c.nAttributes) && (e != [] ==> e[|e| - 1].uid < f.uid)
    ensures Inv(PushData(c, f), e + [f])
  {
    hide Tracked, ValueOf, Uids, Values, Tail, PushCapped, Increasing;
    var r := PushData(c, f);
    UidsPush(e, f, c.cacheSize);
    forall i | 0 <= i < |r.buffers|
      ensures r.buffers[i] == Tail(Values(e + [f], r.attributes[i]), r.cacheSize)
    {
      ValuesPush(e, f, c.attributes[i], c.cacheSize);
    }
    IncreasingPush(e, f);
  }

  /** The plot after a sequence of operations. */
  function Run(s: Plot, ops: seq<Op>): (r: Plot)
    requires |s.buffers| == |s.attributes| && |s.selections| == s.nBlocks
    ensures |r.buffers| == |r.attributes| && |r.selections| == r.nBlocks
  {
    if |ops| == 0 then s else Do(Run(s, ops[..|ops| - 1]), ops[|ops| - 1])
  }

  lemma SelectedInv(s: Plot, e: seq<Frame>, b: int, v: int)
    requires Inv(s, e)
    ensures |s.selections| == s.nBlocks && Inv(Selected(s, b, v), e)
  {
  }

  lemma DoInv(s: Plot, e: seq<Frame>, op: Op)
    requires Inv(s, e)
    ensures Inv(Do(s, op), EpochAfter(e, op))
    ensures Do(s, op).cacheSize == s.cacheSize && Do(s, op).nBlocks == s.nBlocks
  {
    hide Tracked, ValueOf, Rebound;
    match op
    case Take(f) =>
      ProcessInv(s, e, f);
    case Select(b, v) =>
      SelectedInv(s, e, b, v);
    case Restart =>
      EmptiedInv(s, e);
  }

  lemma NewInv(nAttributes: nat, nBlocks: nat, cacheSize: nat)
    ensures Inv(New(nAttributes, nBlocks, cacheSize), [])
  {
  }

  /** In every reachable state the rings are those of the current acquisition. */
  lemma {:induction false} RunInv(nAttributes: nat, nBlocks: nat, cacheSize: nat, ops: seq<Op>)
    ensures var r := Run(New(nAttributes, nBlocks, cacheSize), ops);
      Inv(r, Epoch(ops)) && r.cacheSize == cacheSize && r.nBlocks == nBlocks
    decreases |ops|
  {
    hide Do, Inv, EpochAfter;
    var n := |ops|;
    if n > 0 {
      RunInv(nAttributes, nBlocks, cacheSize, ops[..n - 1]);
      DoInv(Run(New(nAttributes, nBlocks, cacheSize), ops[..n - 1]), Epoch(ops[..n - 1]), ops[n - 1]);
    } else {
      NewInv(nAttributes, nBlocks, cacheSize);
    }
  }

  lemma TailAt<T>(h: seq<T>, cap: nat)
    ensures |Tail(h, cap)| == if cap > 0 && |h| > cap then cap else |h|
    ensures forall k :: 0 <= k < |Tail(h, cap)| ==> Tail(h, cap)[k] == h[|h| - |Tail(h, cap)| + k]
  {
  }

  /** Point k of every ring is of the same frame of e, the last of them of e's last. */
  ghost predicate Aligned(s: Plot, e: seq<Frame>)
  {
    && |s.buffers| == |s.attributes| && |s.uids| <= |e|
    && (forall i :: 0 <= i < |s.buffers| ==> |s.buffers[i]| == |s.uids|)
    && (forall k :: 0 <= k < |s.uids| ==> s.uids[k] == e[|e| - |s.uids| + k].uid)
    && forall i, k :: 0 <= i < |s.buffers| && 0 <= k < |s.uids| ==>
         Reads(e[|e| - |s.uids| + k], s.attributes[i], s.buffers[i][k])
  }

  /**
   All rings are as long as the id ring, within a non-zero cache size; ids strictly
   increase; and point k of every ring is from one and the same frame.
   */
  lemma RingsAligned(s: Plot, e: seq<Frame>)
    requires Inv(s, e)
    ensures |s.uids| == if s.cacheSize > 0 && |e| > s.cacheSize then s.cacheSize else |e|
    ensures forall j, k :: 0 <= j < k < |s.uids| ==> s.uids[j] < s.uids[k]
    ensures Aligned(s, e)
  {
    hide ValueOf, Tracked, Tail, Reads;
    TailAt(Uids(e), s.cacheSize);
    forall i | 0 <= i < |s.buffers|
      ensures |s.buffers[i]| == |s.uids|
      ensures forall k :: 0 <= k < |s.uids| ==> Reads(e[|e| - |s.uids| + k], s.attributes[i], s.buffers[i][k])
    {
      TailAt(Values(e, s.attributes[i]), s.cacheSize);
      forall k | 0 <= k < |s.uids|
        ensures Reads(e[|e| - |s.uids| + k], s.attributes[i], s.buffers[i][k])
      {
        ValueReads(e[|e| - |s.uids| + k], s.attributes[i], s.buffers[i][k]);
      }
    }
  }

  /**
   The run theorem: after any operations the rings hold the current acquisition's latest
   frames, as many as the cache takes, every ring the same frames.
   */
  lemma RunAligned(nAttributes: nat, nBlocks: nat, cacheSize: nat, ops: seq<Op>)
    ensures var r := Run(New(nAttributes, nBlocks, cacheSize), ops); var e := Epoch(ops);
      && |r.uids| == (if cacheSize > 0 && |e| > cacheSize then cacheSize else |e|)
      && (forall j, k :: 0 <= j < k < |r.uids| ==> r.uids[j] < r.uids[k])
      && Aligned(r, e)
  {
    hide Run, Epoch, Inv, Aligned;
    RunInv(nAttributes, nBlocks, cacheSize, ops);
    RingsAligned(Run(New(nAttributes, nBlocks, cacheSize), ops), Epoch(ops));
  }

  // ---- bindings

  /** What a binding should become when the tracked attributes are `attributes`. */
  function Kept(b: Binding, attributes: seq<string>): (r: Binding)
  {
    match b
    case Name(n) => if n in attributes then Name(n) else Unbound
    case _ => b
  }

  /**
   A selection binds that block alone, and moves no ring: -1 to the ids, the index of a
   tracked attribute to its name, any other value up to 0 to nothing. It is refused for a
   block that does not exist and past the tracked attributes.
   */
  lemma SelectBinds(s: Plot, block: int, value: int)
    requires |s.buffers| == |s.attributes| && |s.selections| == s.nBlocks
    ensures var r := Do(s, Select(block, value));
      if 0 <= block < s.nBlocks && (value <= 0 || value < |s.attributes|) then
        && r == s.(selections := r.selections) && |r.selections| == s.nBlocks
        && (forall k :: 0 <= k < s.nBlocks && k != block ==> r.selections[k] == s.selections[k])
        && BindingOf(r.attributes, r.selections[block])
             == if value == -1 then Uid else if value >= 0 && |s.attributes| > 0 then Name(s.attributes[value]) else Unbound
      else r == s
  {
  }

  /** On a new plot nothing is bound. */
  lemma NewUnbound(nAttributes: nat, nBlocks: nat, cacheSize: nat)
    ensures var s := New(nAttributes, nBlocks, cacheSize);
      |s.selections| == nBlocks && forall k :: 0 <= k < nBlocks ==> BindingOf(s.attributes, s.selections[k]) == Unbound
  {
  }

  /** A rebuild keeps a block's binding by name exactly when it is not bound to an attribute named UID. */
  lemma ReboundKeeps(before: seq<string>, attributes: seq<string>, sel: int)
    ensures BindingOf(attributes, Rebound(before, attributes, sel)) == Kept(BindingOf(before, sel), attributes)
      <==> BindingOf(before, sel) != Name(UID_LABEL)
  {
    match BindingOf(before, sel)
    case Name(n) =>
      if n != UID_LABEL {
        assert n in attributes <==> First(attributes, n) < |attributes|;
      }
    case _ => {}
  }

  /** A block bound to the tracked attribute named UID is on the id ring after a rebuild from the same frame. */
  lemma UidNamedAttributeLost()
    ensures var f := Frame(5, [FrameAttr("UID", Some(Num(1.0)))]);
      var s := Do(Do(New(1, 1, 0), Take(f)), Select(0, 0));
      var r := Do(Do(s, Restart), Take(f));
      && BindingOf(s.attributes, s.selections[0]) == Name("UID") && r.attributes == s.attributes
      && BindingOf(r.attributes, r.selections[0]) == Uid
  {
    var f := Frame(5, [FrameAttr("UID", Some(Num(1.0)))]);
    assert f.attrs[..0] == [];
    assert Numeric(f.attrs) == ["UID"];
    assert Sort(["UID"]) == ["UID"] by {
      assert ["UID"][1..] == [];
    }
    assert Tracked(f, 1) == ["UID"];
  }

  /** A frame that does not rediscover the attributes leaves every selection alone; one that does keeps them by name. */
  lemma TakeBinds(s: Plot, e: seq<Frame>, f: Frame, block: nat)
    requires Inv(s, e) && block < s.nBlocks
    ensures var r := Do(s, Take(f));
      && |r.selections| == |s.selections|
      && if |EpochAfter(e, Take(f))| > 1 then r.attributes == s.attributes && r.selections == s.selections
         else
           && r.attributes == Tracked(f, s.nAttributes)
           && r.selections[block] == Rebound(s.attributes, r.attributes, s.selections[block])
  {
    hide Tracked, ValueOf, Rebound;
    assert s.uids != [] <==> e != [];
  }

  ghost predicate Bound(s: Plot, block: nat, name: string)
  {
    block < |s.selections| && BindingOf(s.attributes, s.selections[block]) == Name(name)
  }

  lemma StaysBound(s: Plot, e: seq<Frame>, op: Op, block: nat, name: string)
    requires Inv(s, e) && Bound(s, block, name) && name != UID_LABEL
    requires name in Do(s, op).attributes && !(op.Select? && op.block == block)
    ensures Bound(Do(s, op), block, name)
  {
    hide Tracked, ValueOf, Rebound;
    match op
    case Take(f) =>
      TakeBinds(s, e, f, block);
      hide Process, Inv;
      ReboundKeeps(s.attributes, Do(s, op).attributes, s.selections[block]);
    case Select(b, v) => {}
    case Restart => {}
  }

  /**
   Over every run: a block bound to a name other than UID stays bound to it for as
   long as each frame taken leaves it tracked and the block is not selected anew.
   */
  lemma {:induction false} BindingStays(nAttributes: nat, nBlocks: nat, cacheSize: nat, ops: seq<Op>, from: nat,
                                        block: nat, name: string)
    requires from <= |ops| && name != UID_LABEL
    requires var s := New(nAttributes, nBlocks, cacheSize);
      && Bound(Run(s, ops[..from]), block, name)
      && forall i :: from <= i <= |ops| ==> name in Run(s, ops[..i]).attributes
    requires forall i :: from <= i < |ops| ==> !(ops[i].Select? && ops[i].block == block)
    ensures Bound(Run(New(nAttributes, nBlocks, cacheSize), ops), block, name)
    decreases |ops|
  {
    hide Do, Inv, Epoch, Bound;
    var n, s := |ops|, New(nAttributes, nBlocks, cacheSize);
    assert ops[..n] == ops;
    if from < n {
      var before := ops[..n - 1];
      assert before[..from] == ops[..from];
      forall i | from <= i <= n - 1
        ensures name in Run(s, before[..i]).attributes
      {
        assert before[..i] == ops[..i];
      }
      BindingStays(nAttributes, nBlocks, cacheSize, before, from, block, name);
      RunInv(nAttributes, nBlocks, cacheSize, before);
      StaysBound(Run(s, before), Epoch(before), ops[n - 1], block, name);
    }
  }

  // ---- waveforms

  /** The points a selection plots: its ring, or no value for each point there is. */
  function Points(s: Plot, sel: int): (p: seq<Value>)
  {
    if sel == UID_INDEX then seq(|s.uids|, i requires 0 <= i < |s.uids| => Num(s.uids[i] as real))
    else if 0 <= sel < |s.buffers| then s.buffers[sel]
    else seq(|s.uids|, _ => NaN)
  }

  /**
   After any operations, a block bound to a name plots what the latest frames of the
   acquisition carry under that name, one bound to the ids their ids, and any other no
   number for each of them.
   */
  lemma BlockPlots(nAttributes: nat, nBlocks: nat, cacheSize: nat, ops: seq<Op>, sel: int)
    ensures var s := Run(New(nAttributes, nBlocks, cacheSize), ops); var e := Epoch(ops); var p := Points(s, sel);
      && |p| == |s.uids| <= |e|
      && forall k :: 0 <= k < |p| ==>
           var f := e[|e| - |p| + k];
           match BindingOf(s.attributes, sel)
           case Uid => p[k] == Num(f.uid as real)
           case Name(n) => Reads(f, n, p[k])
           case Unbound => p[k] == NaN
  {
    hide Run, Epoch, Reads;
    RunAligned(nAttributes, nBlocks, cacheSize, ops);
  }

  /** The whole of the points, and after them the last one again up to the target length. */
  ghost predicate PaddedTo(w: seq<Value>, points: seq<Value>, target: nat)
  {
    && |w| == target && points <= w
    && forall k :: |points| <= k < |w| ==> w[k] == if points == [] then NaN else points[|points| - 1]
  }

  /** The plugin's state. */
  class AttrPlotState {
    const nAttributes: nat
    const nBlocks: nat
    const cacheSize: nat
    var attributes: seq<string>
    var buffers: seq<seq<Value>>
    var uids: seq<int>
    var selections: seq<int>
    var initialized: bool
    var lastUid: int
    ghost var epoch: seq<Frame>

    function State(): (s: Plot)
      reads this
    {
      Plot(nAttributes, nBlocks, cacheSize, attributes, buffers, uids, selections, initialized, lastUid)
    }

    ghost predicate Valid()
      reads this
    {
      Inv(State(), epoch)
    }

    constructor (nAttributes: nat, nBlocks: nat, cacheSize: nat)
      ensures Valid() && State() == New(nAttributes, nBlocks, cacheSize)
    {
      this.nAttributes, this.nBlocks, this.cacheSize := nAttributes, nBlocks, cacheSize;
      attributes, buffers, uids := [], [], [];
      selections := seq(nBlocks, _ => NONE_INDEX);
      initialized, lastUid, epoch := false, -1, [];
    }

    method Reset()
      requires Valid()
      modifies this
      ensures Valid() && State() == Emptied(old(State())) && epoch == []
    {
      EmptiedInv(State(), epoch);
      initialized, uids := false, [];
      for i := 0 to |buffers|
        invariant |buffers| == |old(buffers)| && forall k :: 0 <= k < i ==> buffers[k] == []
        invariant State() == old(State()).(initialized := false, uids := [], buffers := buffers)
      {
        buffers := buffers[i := []];
      }
      lastUid, epoch := -1, [];
      assert buffers == Emptied(old(State())).buffers;
    }

    /** Discover the tracked attributes; selections are resolved again by the label they had. */
    method RebuildAttributes(f: Frame)
      modifies this
      ensures |buffers| == |attributes| && State() == Rebuilt(old(State()), f) && epoch == old(epoch)
    {
      hide Rebound, Tracked, Sort;
      var names := NumericNames(f);
      names := Sort(names);
      if nAttributes < |names| {
        names := names[..nAttributes];
      }
      assert names == Tracked(f, nAttributes) by {
        TrackedIs(f, nAttributes);
      }
      var before := attributes;
      buffers, attributes := seq(|names|, _ => []), names;
      for i := 0 to |selections|
        invariant State() == old(State()).(attributes := names, buffers := buffers, selections := selections) && epoch == old(epoch)
        invariant attributes == names && |buffers| == |names| && (forall k :: 0 <= k < |buffers| ==> buffers[k] == [])
        invariant |selections| == |old(selections)|
        invariant forall k :: 0 <= k < i ==> selections[k] == Rebound(before, names, old(selections)[k])
        invariant forall k :: i <= k < |selections| ==> selections[k] == old(selections)[k]
      {
        var r := Resolve(before, names, selections[i]);
        selections := selections[i := r];
      }
      initialized := true;
      assert buffers == Rebuilt(old(State()), f).buffers;
      assert selections == Rebuilt(old(State()), f).selections;
    }

    /** One selection looked up again by its label. */
    static method Resolve(before: seq<string>, attributes: seq<string>, sel: int) returns (r: int)
      ensures r == Rebound(before, attributes, sel)
    {
      var want := match BindingOf(before, sel) { case Uid => Some(UID_LABEL) case Name(n) => Some(n) case Unbound => None };
      if want == None {
        return NONE_INDEX;
      }
      if want.value == UID_LABEL {
        return UID_INDEX;
      }
      var at := 0;
      while at < |attributes| && attributes[at] != want.value
        invariant at <= |attributes| && forall k :: 0 <= k < at ==> attributes[k] != want.value
      {
        at := at + 1;
      }
      return if at < |attributes| then at else NONE_INDEX;
    }

    static method NumericNames(f: Frame) returns (names: seq<string>)
      ensures names == Numeric(f.attrs)
    {
      names := [];
      assert f.attrs[..0] == [];
      for i := 0 to |f.attrs|
        invariant names == Numeric(f.attrs[..i])
      {
        assert f.attrs[..i + 1][..i] == f.attrs[..i];
        if f.attrs[i].value.Some? {
          names := names + [f.attrs[i].name];
        }
      }
      assert f.attrs[..|f.attrs|] == f.attrs;
    }

    /** The frame's id and the value of every tracked attribute. */
    method Push(f: Frame)
      requires |buffers| == |attributes|
      modifies this
      ensures State() == PushData(old(State()), f) && epoch == old(epoch)
    {
      hide ValueOf;
      uids := PushCapped(uids, f.uid, cacheSize);
      for i := 0 to |attributes|
        invariant State() == old(State()).(uids := PushCapped(old(uids), f.uid, cacheSize), buffers := buffers) && epoch == old(epoch)
        invariant |buffers| == |attributes|
        invariant forall k :: 0 <= k < i ==> buffers[k] == PushCapped(old(buffers)[k], ValueOf(f, attributes[k]), cacheSize)
        invariant forall k :: i <= k < |buffers| ==> buffers[k] == old(buffers)[k]
      {
        buffers := buffers[i := PushCapped(buffers[i], ValueOf(f, attributes[i]), cacheSize)];
      }
      assert buffers == PushData(old(State()), f).buffers;
    }

    /** One frame: an id that does not increase starts over, the first frame of an acquisition discovers. */
    method ProcessArray(f: Frame)
      requires Valid()
      modifies this
      ensures Valid() && State() == Process(old(State()), f) && epoch == EpochAfter(old(epoch), Take(f))
    {
      ProcessInv(State(), epoch, f);
      assert |buffers| == |attributes|;
      hide Inv, PushData, Tracked, Rebound, ValueOf;
      if uids != [] && f.uid <= lastUid {
        Reset();
      }
      lastUid := f.uid;
      if !initialized {
        RebuildAttributes(f);
      }
      Push(f);
      epoch := EpochAfter(old(epoch), Take(f));
    }

    method SetDataSelect(block: int, value: int) returns (ok: bool)
      requires Valid()
      modifies this
      ensures Valid() && State() == Selected(old(State()), block, value) && epoch == old(epoch)
      ensures ok <==> Selectable(old(State()), block, value)
    {
      ok := 0 <= block < nBlocks && !(value > 0 && value >= |attributes|);
      if ok {
        selections := selections[block := value];
      }
    }

    method DataLabel(block: nat) returns (text: string)
      requires Valid()
      ensures text == if block < nBlocks then LabelOf(BindingOf(attributes, selections[block])) else NONE_LABEL
      ensures |selections| == nBlocks
      ensures text ==
        if block < nBlocks && selections[block] == -1 then "UID"
        else if block < nBlocks && 0 <= selections[block] < |attributes| then attributes[selections[block]]
        else "None"
    {
      if block >= |selections| {
        return NONE_LABEL;
      }
      var sel := selections[block];
      if sel == UID_INDEX {
        return UID_LABEL;
      } else if 0 <= sel < |attributes| {
        return attributes[sel];
      }
      return NONE_LABEL;
    }

    /** A block's waveform: all of its points, never cut short, then padding. */
    method BlockWaveform(block: nat) returns (w: seq<Value>)
      requires Valid()
      ensures var sel := if block < nBlocks then selections[block] else NONE_INDEX;
        PaddedTo(w, Points(State(), sel), if cacheSize > 0 then cacheSize else |uids|)
    {
      hide Inv;
      var sel := if block < |selections| then selections[block] else NONE_INDEX;
      PointsFit(State(), epoch, sel);
      w := Pad(Points(State(), sel), if cacheSize > 0 then cacheSize else |uids|);
    }

    static method Pad(points: seq<Value>, target: nat) returns (w: seq<Value>)
      requires |points| <= target
      ensures PaddedTo(w, points, target)
    {
      var last := if points == [] then NaN else points[|points| - 1];
      if |points| < target {
        w := points + seq(target - |points|, _ => last);
      } else {
        w := points[..target];
      }
    }
  }

  /** There are never more points than a waveform holds. */
  lemma PointsFit(s: Plot, e: seq<Frame>, sel: int)
    requires Inv(s, e)
    ensures |s.selections| == s.nBlocks
    ensures |Points(s, sel)| == |s.uids| && (s.cacheSize > 0 ==> |s.uids| <= s.cacheSize)
  {
    hide Tail, Tracked, ValueOf;
    TailAt(Uids(e), s.cacheSize);
    if 0 <= sel < |s.buffers| {
      TailAt(Values(e, s.attributes[sel]), s.cacheSize);
    }
  }

  lemma TrackedIs(f: Frame, n: nat)
    ensures var s := Sort(Numeric(f.attrs)); Tracked(f, n) == if n < |s| then s[..n] else s
  {
  }
}
