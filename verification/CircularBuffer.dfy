/**
 The pre/post-trigger capture buffer: a ring of the latest frames, flushed downstream
 when a trigger fires and followed by the post-trigger frames. Frames are numbered in
 the order they are pushed; whether the trigger expression fires on a frame, and
 whether the frame could be copied, are inputs.
 */
module CircularBuffer {
  import opened Arith

  datatype Status = StatusIdle | BufferFilling | Flushing | AcquisitionCompleted

  /** The buffer's fields. */
  datatype Ring = Ring(
    control: bool,
    preCount: nat,
    postCount: nat,
    buffer: seq<nat>,
    triggered: bool,
    postDone: nat,
    preFlushed: bool,
    preset: nat,
    triggerCount: nat,
    flushOnSoftTrigger: int,
    status: Status)

  /** What a call hands on: the frames to forward now, and whether a sequence completed. */
  datatype Output = Output(forward: seq<nat>, done: bool)

  function New(preCount: nat, postCount: nat): (r: Ring)
  {
    Ring(false, preCount, postCount, [], false, 0, false, 1, 0, 0, StatusIdle)
  }

  /** Drop the ring and every counter; acquisition off. */
  function Reset(r: Ring): (q: Ring)
  {
    r.(control := false, buffer := [], triggered := false, postDone := 0, preFlushed := false, triggerCount := 0,
       status := StatusIdle)
  }

  function Start(r: Ring): (q: Ring)
  {
    Reset(r).(control := true, status := BufferFilling)
  }

  /** Acquisition off; the ring is left alone. */
  function Stop(r: Ring): (q: Ring)
  {
    r.(control := false, triggered := false, status := StatusIdle)
  }

  /** Latch the trigger; means nothing while acquisition is off. */
  function Trigger(r: Ring): (q: Ring)
  {
    if !r.control then r else r.(triggered := true, postDone := 0, preFlushed := false, status := Flushing)
  }

  /** The ring drained and handed downstream. */
  function Flush(r: Ring): (q: (Ring, seq<nat>))
  {
    (r.(preFlushed := true, buffer := []), r.buffer)
  }

  /** The post-trigger count is reached: count the sequence, then re-arm or turn acquisition off. */
  function Complete(r: Ring): (q: Ring)
  {
    var n := r.triggerCount + 1;
    var c := r.(triggered := false, preFlushed := false, postDone := 0, triggerCount := n);
    if r.preset > 0 && n >= r.preset then c.(control := false, status := AcquisitionCompleted)
    else c.(status := BufferFilling)
  }

  /** An untriggered frame joins the ring, which keeps the latest preCount. */
  function Record(r: Ring, frame: nat): (q: Ring)
  {
    var b := r.buffer + [frame];
    r.(buffer := if |b| > r.preCount then b[1..] else b)
  }

  /** A triggered frame: the ring goes first, once, then the frame. */
  function Forward(r: Ring, frame: nat): (q: (Ring, seq<nat>))
  {
    var (f, flushed) := if r.preFlushed then (r, []) else Flush(r);
    (f.(postDone := f.postDone + 1), flushed + [frame])
  }

  /** A frame arrives: `fired` is the outcome of the trigger expression, `copied` whether the frame could be copied. */
  function Push(r: Ring, frame: nat, fired: bool, copied: bool): (q: (Ring, Output))
  {
    if !r.control then (r, Output([], false))
    else
      var t := if !r.triggered && fired then Trigger(r) else r;
      if !copied then (t, Output([], false))
      else
        var (a, out) := if t.triggered then Forward(t, frame) else (Record(t, frame), []);
        if a.postDone >= a.postCount then (Complete(a), Output(out, true)) else (a, Output(out, false))
  }

  /** A write to the soft trigger: zero does nothing; otherwise trigger, and flush at once when asked to. */
  function SoftTrigger(r: Ring, value: int): (q: (Ring, seq<nat>))
  {
    if value == 0 then (r, [])
    else if r.flushOnSoftTrigger > 0 then Flush(Trigger(r))
    else (Trigger(r), [])
  }

  /** A pre-count write, refused while acquiring and outside 0 .. maxBuffers - 1. */
  function SetPreCount(r: Ring, value: int, maxBuffers: int): (q: Ring)
  {
    if r.control || value > maxBuffers - 1 || value < 0 then r else r.(preCount := value)
  }

  // Runs.

  datatype Op =
    | StartOp
    | StopOp
    | PushOp(fired: bool, copied: bool)
    | TriggerOp
    | SoftTriggerOp(value: int)
    | PreCountOp(value: int, maxBuffers: int)
    | PostCountOp(value: int)
    | PresetOp(value: int)
    | FlushOnOp(value: int)

  /**
   A run so far: the buffer, the number of the next frame, everything forwarded, the
   frames recorded since the last start, and how many of those had been recorded when
   the ring was last drained.
   */
  datatype Trace = Trace(ring: Ring, next: nat, sent: seq<nat>, recorded: seq<nat>, drained: nat)

  function Max0(x: int): (n: nat)
  {
    if x > 0 then x else 0
  }

  function Recorded(r: Ring, copied: bool): (b: bool)
  {
    r.control && copied
  }

  function Do(t: Trace, op: Op): (u: Trace)
  {
    match op
    case StartOp => t.(ring := Start(t.ring), recorded := [], drained := 0)
    case StopOp => t.(ring := Stop(t.ring))
    case PushOp(fired, copied) =>
      var (q, out) := Push(t.ring, t.next, fired, copied);
      var rec := if Recorded(t.ring, copied) then t.recorded + [t.next] else t.recorded;
      Trace(q, t.next + 1, t.sent + out.forward, rec, if out.forward == [] then t.drained else |rec|)
    case TriggerOp => t.(ring := Trigger(t.ring))
    case SoftTriggerOp(value) =>
      var (q, flushed) := SoftTrigger(t.ring, value);
      t.(ring := q, sent := t.sent + flushed, drained := if flushed == [] then t.drained else |t.recorded|)
    case PreCountOp(value, maxBuffers) => t.(ring := SetPreCount(t.ring, value, maxBuffers))
    case PostCountOp(value) => t.(ring := t.ring.(postCount := Max0(value)))
    case PresetOp(value) => t.(ring := t.ring.(preset := Max0(value)))
    case FlushOnOp(value) => t.(ring := t.ring.(flushOnSoftTrigger := value))
  }

  function Run(t: Trace, ops: seq<Op>): (u: Trace)
  {
    if |ops| == 0 then t else Do(Run(t, ops[..|ops| - 1]), ops[|ops| - 1])
  }

  function Begin(preCount: nat, postCount: nat): (t: Trace)
  {
    Trace(New(preCount, postCount), 0, [], [], 0)
  }

  ghost predicate Increasing(s: seq<nat>)
  {
    forall i, j :: 0 <= i < j < |s| ==> s[i] < s[j]
  }

  /** Every frame sent, then every frame in the ring, in pushing order, all before the next one. */
  ghost predicate Ordered(t: Trace)
  {
    Increasing(t.sent + t.ring.buffer) && forall i :: 0 <= i < |t.sent + t.ring.buffer| ==> (t.sent + t.ring.buffer)[i] < t.next
  }

  /** The latest frames recorded since the last drain, up to the pre-count. */
  function Tail(t: Trace): (s: seq<nat>)
    requires t.drained <= |t.recorded|
  {
    t.recorded[|t.recorded| - Min(t.ring.preCount, |t.recorded| - t.drained)..]
  }

  /** While acquiring, the ring is that tail. */
  ghost predicate RingIsTail(t: Trace)
  {
    t.drained <= |t.recorded| && (t.ring.control ==> t.ring.buffer == Tail(t))
  }

  /** While acquiring, a flush has emptied the ring and belongs to a latched trigger. */
  ghost predicate FlushedOnce(r: Ring)
  {
    r.control && r.preFlushed ==> r.triggered && r.buffer == []
  }

  ghost predicate Inv(t: Trace)
  {
    Ordered(t) && RingIsTail(t) && FlushedOnce(t.ring)
  }

  /** Frames moved from the ring to the stream stay in order. */
  lemma StillOrdered(t: Trace, u: Trace)
    requires Ordered(t) && u.next >= t.next
    requires u.sent + u.ring.buffer == t.sent + t.ring.buffer
          || (u.next > t.next && u.sent + u.ring.buffer == t.sent + t.ring.buffer + [t.next])
    ensures Ordered(u)
  {
  }

  /** Dropping the oldest frame of the ring, or all of it, keeps the order. */
  lemma OrderedDrop(t: Trace, k: nat)
    requires Ordered(t) && k <= |t.ring.buffer|
    ensures Ordered(t.(ring := t.ring.(buffer := t.ring.buffer[k..])))
  {
    var a, b := t.sent + t.ring.buffer, t.sent + t.ring.buffer[k..];
    assert forall i :: 0 <= i < |b| ==> b[i] == a[if i < |t.sent| then i else i + k];
  }

  lemma PushRecords(t: Trace, frame: nat)
    requires RingIsTail(t) && t.ring.control
    ensures var u := t.(ring := Record(t.ring, frame), recorded := t.recorded + [frame]);
      u.ring.buffer == Tail(u)
  {
  }

  /** Every operation keeps the frames in order and the ring the tail of what was recorded. */
  lemma DoInv(t: Trace, op: Op)
    requires Inv(t)
    ensures Inv(Do(t, op)) && t.next <= Do(t, op).next && t.sent <= Do(t, op).sent
  {
    match op {
      case StartOp => StartInv(t);
      case PushOp(fired, copied) => PushInv(t, fired, copied);
      case SoftTriggerOp(value) => SoftTriggerInv(t, value);
      case _ =>
        hide Increasing;
        assert Do(t, op).sent + Do(t, op).ring.buffer == t.sent + t.ring.buffer;
    }
  }

  lemma StartInv(t: Trace)
    requires Inv(t)
    ensures Inv(Do(t, StartOp))
  {
    OrderedDrop(t, |t.ring.buffer|);
    assert t.ring.buffer[|t.ring.buffer|..] == [];
  }

  /** A flush moves the ring to the stream. */
  lemma SoftTriggerInv(t: Trace, value: int)
    requires Inv(t)
    ensures Inv(Do(t, SoftTriggerOp(value)))
  {
    hide Increasing;
    var u := Do(t, SoftTriggerOp(value));
    assert u.sent + u.ring.buffer == t.sent + t.ring.buffer;
  }

  /** A recorded frame under a trigger: the ring goes out with it, and the count moves on. */
  lemma PushForwards(t: Trace, fired: bool)
    requires t.ring.control && (t.ring.triggered || fired) && FlushedOnce(t.ring)
    ensures var u := Do(t, PushOp(fired, true)); var r := t.ring; var p := (if r.triggered then r.postDone else 0) + 1;
      && u.next == t.next + 1 && u.sent == t.sent + (r.buffer + [t.next]) && u.ring.buffer == []
      && u.recorded == t.recorded + [t.next] && u.drained == |u.recorded|
      && u.ring.preCount == r.preCount && u.ring.postCount == r.postCount && u.ring.preset == r.preset
      && u.ring.flushOnSoftTrigger == r.flushOnSoftTrigger
      && (p < r.postCount ==> u.ring.control && u.ring.triggered && u.ring.preFlushed && u.ring.postDone == p
                              && u.ring.triggerCount == r.triggerCount
                              && (r.triggered ==> u.ring.status == r.status))
      && (p >= r.postCount ==> !u.ring.triggered && !u.ring.preFlushed && u.ring.postDone == 0
                               && u.ring.triggerCount == r.triggerCount + 1
                               && (u.ring.control <==> !(r.preset > 0 && r.triggerCount + 1 >= r.preset)))
  {
    assert [] + [t.next] == [t.next];
  }

  lemma PushInv(t: Trace, fired: bool, copied: bool)
    requires Inv(t)
    ensures Inv(Do(t, PushOp(fired, copied)))
  {
    if !t.ring.control || !copied {
      PassInv(t, fired, copied);
    } else if t.ring.triggered || fired {
      ForwardInv(t, fired);
    } else {
      RecordInv(t);
    }
  }

  lemma PassInv(t: Trace, fired: bool, copied: bool)
    requires Inv(t) && (!t.ring.control || !copied)
    ensures Inv(Do(t, PushOp(fired, copied)))
  {
    var u := Do(t, PushOp(fired, copied));
    assert u.sent == t.sent && u.ring.buffer == t.ring.buffer;
    StillOrdered(t, u);
  }

  lemma ForwardInv(t: Trace, fired: bool)
    requires Inv(t) && t.ring.control && (t.ring.triggered || fired)
    ensures Inv(Do(t, PushOp(fired, true)))
  {
    hide Do, Ordered;
    PushForwards(t, fired);
    var u := Do(t, PushOp(fired, true));
    assert u.sent + u.ring.buffer == t.sent + t.ring.buffer + [t.next];
    StillOrdered(t, u);
  }

  lemma RecordInv(t: Trace)
    requires Inv(t) && t.ring.control && !t.ring.triggered
    ensures Inv(Do(t, PushOp(false, true)))
  {
    var u := Do(t, PushOp(false, true));
    var m := t.(ring := t.ring.(buffer := t.ring.buffer + [t.next]), next := t.next + 1);
    assert u.sent == t.sent && u.recorded == t.recorded + [t.next] && u.drained == t.drained;
    assert u.ring.buffer == Record(t.ring, t.next).buffer;
    PushRecords(t, t.next);
    assert RingIsTail(u) && FlushedOnce(u.ring);
    hide Do;
    assert m.sent + m.ring.buffer == t.sent + t.ring.buffer + [t.next];
    StillOrdered(t, m);
    OrderedDrop(m, 1);
  }

  lemma {:induction false} RunInv(preCount: nat, postCount: nat, ops: seq<Op>)
    ensures Inv(Run(Begin(preCount, postCount), ops))
  {
    if |ops| > 0 {
      RunInv(preCount, postCount, ops[..|ops| - 1]);
      DoInv(Run(Begin(preCount, postCount), ops[..|ops| - 1]), ops[|ops| - 1]);
    }
  }

  /**
   Over every run the forwarded frames are strictly increasing: none twice, none out of
   order, every one a frame that was pushed.
   */
  lemma ForwardedInOrder(preCount: nat, postCount: nat, ops: seq<Op>)
    ensures var t := Run(Begin(preCount, postCount), ops);
      Increasing(t.sent) && forall i :: 0 <= i < |t.sent| ==> t.sent[i] < t.next
  {
    RunInv(preCount, postCount, ops);
    var t := Run(Begin(preCount, postCount), ops);
    var all := t.sent + t.ring.buffer;
    assert forall i :: 0 <= i < |t.sent| ==> t.sent[i] == all[i];
  }

  // Acquisition on and off.

  /** A frame that arrives while acquisition is off is not forwarded, not recorded and changes nothing. */
  lemma PushWhileOff(t: Trace, fired: bool, copied: bool)
    requires !t.ring.control
    ensures Do(t, PushOp(fired, copied)) == t.(next := t.next + 1)
  {
    assert t.sent + [] == t.sent;
  }

  /** Only a start turns acquisition on, and without one no frame is added to the ring or the stream. */
  lemma OffStep(t: Trace, op: Op)
    requires !t.ring.control && op != StartOp
    ensures var u := Do(t, op);
      && !u.ring.control && u.recorded == t.recorded && u.sent + u.ring.buffer == t.sent + t.ring.buffer
      && (!op.SoftTriggerOp? ==> u.sent == t.sent && u.ring.buffer == t.ring.buffer)
  {
    if op.PushOp? {
      PushWhileOff(t, op.fired, op.copied);
    }
  }

  /**
   Once acquisition is off it stays off until a start. Until then nothing is forwarded,
   but that a soft trigger may still hand on what is left in the ring.
   */
  lemma {:induction false} OffUntilStarted(t: Trace, ops: seq<Op>)
    requires !t.ring.control && forall i :: 0 <= i < |ops| ==> ops[i] != StartOp
    ensures var u := Run(t, ops);
      && !u.ring.control && u.recorded == t.recorded && u.sent + u.ring.buffer == t.sent + t.ring.buffer
      && ((forall i :: 0 <= i < |ops| ==> !ops[i].SoftTriggerOp?) ==> u.sent == t.sent && u.ring.buffer == t.ring.buffer)
  {
    if |ops| > 0 {
      var n := |ops| - 1;
      OffUntilStarted(t, ops[..n]);
      OffStep(Run(t, ops[..n]), ops[n]);
    }
  }

  /** After a stop nothing is forwarded until a start or a soft trigger. */
  lemma StopEnds(t: Trace, ops: seq<Op>)
    requires forall i :: 0 <= i < |ops| ==> ops[i] != StartOp && !ops[i].SoftTriggerOp?
    ensures var u := Run(Do(t, StopOp), ops);
      !u.ring.control && u.sent == t.sent && u.ring.buffer == t.ring.buffer && u.recorded == t.recorded
  {
    OffUntilStarted(Do(t, StopOp), ops);
  }

  /** Nor after a frame whose completion reached the preset. */
  lemma PresetEnds(t: Trace, fired: bool, copied: bool, ops: seq<Op>)
    requires t.ring.control && t.ring.preset > 0 && t.ring.triggerCount + 1 >= t.ring.preset
    requires Push(t.ring, t.next, fired, copied).1.done
    requires forall i :: 0 <= i < |ops| ==> ops[i] != StartOp && !ops[i].SoftTriggerOp?
    ensures var m := Do(t, PushOp(fired, copied)); var u := Run(m, ops);
      !m.ring.control && !u.ring.control && u.sent == m.sent && u.recorded == m.recorded
  {
    OffUntilStarted(Do(t, PushOp(fired, copied)), ops);
  }

  /** The frames that were pushed, and could be copied, while acquisition was on. */
  function Admitted(t: Trace, ops: seq<Op>): (s: set<nat>)
  {
    if |ops| == 0 then {}
    else
      var n := |ops| - 1;
      var m := Run(t, ops[..n]);
      Admitted(t, ops[..n]) + (if ops[n].PushOp? && ops[n].copied && m.ring.control then {m.next} else {})
  }

  /** Every frame forwarded or in the ring was pushed while acquisition was on. */
  lemma {:induction false} ForwardedAdmitted(preCount: nat, postCount: nat, ops: seq<Op>)
    ensures var b := Begin(preCount, postCount); var t := Run(b, ops);
      forall x :: x in t.sent + t.ring.buffer ==> x in Admitted(b, ops)
  {
    if |ops| > 0 {
      var n, b := |ops| - 1, Begin(preCount, postCount);
      ForwardedAdmitted(preCount, postCount, ops[..n]);
      var m := Run(b, ops[..n]);
      NewFrames(m, ops[n]);
    }
  }

  lemma NewFrames(t: Trace, op: Op)
    ensures var u := Do(t, op);
      forall x :: x in u.sent + u.ring.buffer ==>
        x in t.sent + t.ring.buffer || (x == t.next && op.PushOp? && op.copied && t.ring.control)
  {
    if op.PushOp? {
      NewFramesPushed(t, op.fired, op.copied);
    }
  }

  lemma NewFramesPushed(t: Trace, fired: bool, copied: bool)
    ensures var u := Do(t, PushOp(fired, copied));
      forall x :: x in u.sent + u.ring.buffer ==>
        x in t.sent + t.ring.buffer || (x == t.next && copied && t.ring.control)
  {
    if !t.ring.control {
      PushWhileOff(t, fired, copied);
    } else {
      PushedParts(t, fired, copied);
      hide Do;
      var kept := t.ring.buffer + [t.next];
      assert forall x :: x in kept[1..] ==> x in kept;
    }
  }

  /** What a frame makes of stream and ring while acquiring. */
  lemma PushedParts(t: Trace, fired: bool, copied: bool)
    requires t.ring.control
    ensures var u, r := Do(t, PushOp(fired, copied)), t.ring;
      if !copied then u.sent == t.sent && u.ring.buffer == r.buffer
      else if r.triggered || fired then
        || (u.sent == t.sent + [t.next] && u.ring.buffer == r.buffer)
        || (u.sent == t.sent + (r.buffer + [t.next]) && u.ring.buffer == [])
      else u.sent == t.sent && (u.ring.buffer == r.buffer + [t.next] || u.ring.buffer == (r.buffer + [t.next])[1..])
  {
    assert [] + [t.next] == [t.next] && t.sent + [] == t.sent;
  }

  /** A start empties the ring and the counts, keeps the settings and the stream, and acquires. */
  lemma StartTurnsOn(t: Trace)
    ensures var r, u := t.ring, Do(t, StartOp);
      && u.ring == Ring(true, r.preCount, r.postCount, [], false, 0, false, r.preset, 0, r.flushOnSoftTrigger, BufferFilling)
      && u.sent == t.sent && u.next == t.next && u.recorded == [] && u.drained == 0
  {
  }

  /** A stop turns acquisition and the latch off and leaves ring, counts and stream. */
  lemma StopTurnsOff(t: Trace)
    ensures var r, u := t.ring, Do(t, StopOp);
      && !u.ring.control && !u.ring.triggered && u.ring.status == StatusIdle
      && u.ring == r.(control := false, triggered := false, status := StatusIdle) && u == t.(ring := u.ring)
  {
  }

  /**
   A soft trigger: zero is nothing; else, while acquiring, the trigger is latched anew, and
   with the flush option the ring goes out at once, whether acquiring or not.
   */
  lemma SoftTriggerSends(t: Trace, value: int)
    ensures var r, u := t.ring, Do(t, SoftTriggerOp(value)); var flushes := value != 0 && r.flushOnSoftTrigger > 0;
      && (value == 0 ==> u == t)
      && u.sent == (if flushes then t.sent + r.buffer else t.sent) && u.ring.buffer == (if flushes then [] else r.buffer)
      && u.next == t.next && u.recorded == t.recorded && u.ring.control == r.control
      && u.ring.triggerCount == r.triggerCount
      && u.ring.triggered == (r.triggered || (value != 0 && r.control))
      && (value != 0 && r.control ==> u.ring.postDone == 0 && u.ring.status == Flushing)
  {
    assert t.sent + [] == t.sent;
  }

  /** A trigger changes nothing while acquisition is off, and forwards nothing by itself. */
  lemma TriggerLatches(t: Trace)
    ensures var r, u := t.ring, Do(t, TriggerOp);
      && (!r.control ==> u == t)
      && (r.control ==> u == t.(ring := r.(triggered := true, postDone := 0, preFlushed := false, status := Flushing)))
  {
  }

  /**
   A frame completes a sequence exactly when it is recorded and the post count, with this
   frame if the trigger is latched or fires, is reached. Completion counts the sequence
   and turns acquisition off exactly at the preset; no other frame does either.
   */
  lemma DoneWhen(r: Ring, frame: nat, fired: bool, copied: bool)
    ensures var (q, out) := Push(r, frame, fired, copied);
      var post := if r.triggered then r.postDone + 1 else if fired then 1 else r.postDone;
      && (out.done <==> r.control && copied && post >= r.postCount)
      && (out.done ==> q.triggerCount == r.triggerCount + 1 && !q.triggered && q.postDone == 0
                       && (q.control <==> r.preset == 0 || r.triggerCount + 1 < r.preset))
      && (!out.done ==> q.triggerCount == r.triggerCount && q.control == r.control)
  {
  }

  /** While acquiring, the status tells whether a trigger is latched, and an unlatched one has no post frames. */
  ghost predicate StatusTells(r: Ring)
  {
    if r.control then r.status == (if r.triggered then Flushing else BufferFilling) && (!r.triggered ==> r.postDone == 0)
    else !r.triggered && (r.status == StatusIdle || (r.status == AcquisitionCompleted && r.triggerCount > 0))
  }

  lemma StatusStep(t: Trace, op: Op)
    requires StatusTells(t.ring)
    ensures StatusTells(Do(t, op).ring)
    ensures t.ring.control && !Do(t, op).ring.control ==>
      Do(t, op).ring.status == if op == StopOp then StatusIdle else AcquisitionCompleted
  {
  }

  lemma {:induction false} RunStatus(preCount: nat, postCount: nat, ops: seq<Op>)
    ensures StatusTells(Run(Begin(preCount, postCount), ops).ring)
  {
    hide Do, StatusTells;
    if |ops| > 0 {
      RunStatus(preCount, postCount, ops[..|ops| - 1]);
      StatusStep(Run(Begin(preCount, postCount), ops[..|ops| - 1]), ops[|ops| - 1]);
    } else {
      assert StatusTells(New(preCount, postCount)) by { NewStatus(preCount, postCount); }
    }
  }

  lemma NewStatus(preCount: nat, postCount: nat)
    ensures StatusTells(New(preCount, postCount))
  {
  }

  /**
   With a post count of zero every frame recorded without a trigger completes a sequence,
   at any point of any run: it joins the ring, is counted, and nothing is forwarded.
   With any other post count it completes none.
   */
  lemma UntriggeredCompletion(preCount: nat, postCount: nat, before: seq<Op>)
    requires var t := Run(Begin(preCount, postCount), before); t.ring.control && !t.ring.triggered
    ensures var t := Run(Begin(preCount, postCount), before); var u := Do(t, PushOp(false, true));
      && u.sent == t.sent && u.recorded == t.recorded + [t.next]
      && u.ring.buffer == (t.ring.buffer + [t.next])[(if |t.ring.buffer| < t.ring.preCount then 0 else 1)..]
      && u.ring.triggerCount == t.ring.triggerCount + (if t.ring.postCount == 0 then 1 else 0)
      && Push(t.ring, t.next, false, true).1.done == (t.ring.postCount == 0)
  {
    hide Run;
    RunStatus(preCount, postCount, before);
    var t := Run(Begin(preCount, postCount), before);
    assert t.sent + [] == t.sent;
    DoneWhen(t.ring, t.next, false, true);
  }

  /**
   Settings: the pre count takes a value from 0 below the buffer limit, and only while not
   acquiring; the post count and the preset are never negative; nothing else moves.
   */
  lemma SettingsTake(t: Trace, value: int, maxBuffers: int)
    ensures Do(t, PreCountOp(value, maxBuffers))
      == if !t.ring.control && 0 <= value < maxBuffers then t.(ring := t.ring.(preCount := value)) else t
    ensures Do(t, PostCountOp(value)) == t.(ring := t.ring.(postCount := if value > 0 then value else 0))
    ensures Do(t, PresetOp(value)) == t.(ring := t.ring.(preset := if value > 0 then value else 0))
    ensures Do(t, FlushOnOp(value)) == t.(ring := t.ring.(flushOnSoftTrigger := value))
  {
  }

  // One trigger's frames.

  ghost predicate AllPushes(ops: seq<Op>)
  {
    forall i :: 0 <= i < |ops| ==> ops[i].PushOp?
  }

  /** The frames of a series of pushes that could be copied, numbered from `next`. */
  function Copies(next: nat, ops: seq<Op>): (s: seq<nat>)
  {
    if |ops| == 0 then []
    else
      var n := |ops| - 1;
      Copies(next, ops[..n]) + (if ops[n].PushOp? && ops[n].copied then [next + n] else [])
  }

  /** The frames forwarded for one trigger. */
  function Wanted(postCount: nat): (n: nat)
    ensures n >= 1 && n >= postCount && (n == 1 || n == postCount)
  {
    if postCount == 0 then 1 else postCount
  }

  /** While fewer than the wanted frames have come, all of them are forwarded, the ring first. */
  lemma {:induction false} Capturing(t: Trace, ops: seq<Op>)
    requires Inv(t) && t.ring.control && t.ring.triggered && t.ring.postDone == 0 && AllPushes(ops)
    requires |Copies(t.next, ops)| < Wanted(t.ring.postCount)
    ensures var u := Run(t, ops); var c := Copies(t.next, ops);
      && u.next == t.next + |ops| && u.recorded == t.recorded + c
      && u.sent + u.ring.buffer == t.sent + t.ring.buffer + c
      && (c != [] ==> u.ring.buffer == [] && u.ring.preFlushed)
      && (c == [] ==> u.ring == t.ring)
      && Same(t.ring, u.ring) && u.ring.postDone == |c| && Inv(u)
  {
    hide Do, Inv;
    if |ops| == 0 {
      assert t.sent + t.ring.buffer + [] == t.sent + t.ring.buffer && t.recorded + [] == t.recorded;
    } else {
      var n := |ops| - 1;
      Capturing(t, ops[..n]);
      CaptureNext(t, Run(t, ops[..n]), Copies(t.next, ops[..n]), ops[n].fired, ops[n].copied);
    }
  }

  /** One more frame of a sequence not yet complete. */
  lemma CaptureNext(t: Trace, m: Trace, c: seq<nat>, fired: bool, copied: bool)
    requires Inv(m) && t.ring.control && t.ring.triggered
    requires m.recorded == t.recorded + c && m.sent + m.ring.buffer == t.sent + t.ring.buffer + c
    requires c != [] ==> m.ring.buffer == [] && m.ring.preFlushed
    requires c == [] ==> m.ring == t.ring
    requires Same(t.ring, m.ring) && m.ring.postDone == |c|
    requires copied ==> |c| + 1 < Wanted(t.ring.postCount)
    ensures var u := Do(m, PushOp(fired, copied)); var d := if copied then c + [m.next] else c;
      && u.next == m.next + 1 && u.recorded == t.recorded + d
      && u.sent + u.ring.buffer == t.sent + t.ring.buffer + d
      && (d != [] ==> u.ring.buffer == [] && u.ring.preFlushed)
      && (d == [] ==> u.ring == t.ring)
      && Same(t.ring, u.ring) && u.ring.postDone == |d| && Inv(u)
  {
    PushInv(m, fired, copied);
    if copied {
      PushForwards(m, fired);
      hide Do, Inv;
      var u := Do(m, PushOp(fired, true));
      assert u.sent + u.ring.buffer == m.sent + m.ring.buffer + [m.next];
      assert t.sent + t.ring.buffer + c + [m.next] == t.sent + t.ring.buffer + (c + [m.next]);
      assert t.recorded + c + [m.next] == t.recorded + (c + [m.next]);
    }
  }

  /** All fields but the ring's contents, the flush latch and the post count agree. */
  ghost predicate Same(r: Ring, q: Ring)
  {
    q.(buffer := [], preFlushed := false, postDone := 0) == r.(buffer := [], preFlushed := false, postDone := 0)
  }

  /** The copy that makes up the number completes the sequence. */
  lemma Captured(t: Trace, ops: seq<Op>)
    requires Inv(t) && t.ring.control && t.ring.triggered && t.ring.postDone == 0 && AllPushes(ops)
    requires |ops| > 0 && ops[|ops| - 1].copied
    requires |Copies(t.next, ops)| == Wanted(t.ring.postCount)
    ensures var u := Run(t, ops); var c := Copies(t.next, ops);
      && u.recorded == t.recorded + c && u.sent == t.sent + t.ring.buffer + c
      && !u.ring.triggered && u.ring.triggerCount == t.ring.triggerCount + 1
      && (u.ring.control <==> !(t.ring.preset > 0 && t.ring.triggerCount + 1 >= t.ring.preset))
  {
    var n := |ops| - 1;
    Capturing(t, ops[..n]);
    var m, c := Run(t, ops[..n]), Copies(t.next, ops[..n]);
    PushForwards(m, ops[n].fired);
    hide Do, Inv, Push;
    assert m.sent + (m.ring.buffer + [m.next]) == m.sent + m.ring.buffer + [m.next];
    assert t.sent + t.ring.buffer + c + [m.next] == t.sent + t.ring.buffer + (c + [m.next]);
    assert t.recorded + c + [m.next] == t.recorded + (c + [m.next]);
  }

  /** An expression that fires on a frame is a trigger just before that frame. */
  lemma FiringIsTriggering(t: Trace, fired: bool, copied: bool)
    requires t.ring.control && !t.ring.triggered
    ensures Do(t, PushOp(true, copied)) == Do(Do(t, TriggerOp), PushOp(fired, copied))
  {
  }

  /**
   From a trigger to the completion of its sequence, with nothing but frames in between,
   the frames forwarded are one contiguous block of the recorded frames: the last
   min(preCount, recorded since the last drain) and then max(1, postCount) more.
   */
  lemma OneTrigger(t: Trace, trigger: Op, ops: seq<Op>)
    requires Inv(t) && t.ring.control && !t.ring.triggered
    requires trigger == TriggerOp || (trigger.SoftTriggerOp? && trigger.value != 0)
    requires AllPushes(ops) && |ops| > 0 && ops[|ops| - 1].copied
    requires |Copies(t.next, ops)| == Wanted(t.ring.postCount)
    ensures var u := Run(Do(t, trigger), ops); var k := Min(t.ring.preCount, |t.recorded| - t.drained);
      && u.recorded == t.recorded + Copies(t.next, ops)
      && u.sent == t.sent + u.recorded[|t.recorded| - k..]
      && |u.sent| == |t.sent| + k + Wanted(t.ring.postCount)
      && !u.ring.triggered && u.ring.triggerCount == t.ring.triggerCount + 1
  {
    hide Do, Run, Copies, Inv, Tail;
    var m := Do(t, trigger);
    DoInv(t, trigger);
    Latches(t, trigger);
    Captured(m, ops);
    TailIs(t);
    var c := Copies(t.next, ops);
    var k := Min(t.ring.preCount, |t.recorded| - t.drained);
    assert (t.recorded + c)[|t.recorded| - k..] == t.recorded[|t.recorded| - k..] + c;
    assert Run(m, ops).sent == t.sent + t.ring.buffer + c == t.sent + (t.ring.buffer + c);
  }

  /**
   The run theorem: whatever was done before, if a trigger then comes while acquiring
   and nothing is latched, the frames of its sequence are that block.
   */
  lemma OneTriggerInRun(preCount: nat, postCount: nat, before: seq<Op>, trigger: Op, ops: seq<Op>)
    requires var t := Run(Begin(preCount, postCount), before);
      && t.ring.control && !t.ring.triggered && |Copies(t.next, ops)| == Wanted(t.ring.postCount)
    requires trigger == TriggerOp || (trigger.SoftTriggerOp? && trigger.value != 0)
    requires AllPushes(ops) && |ops| > 0 && ops[|ops| - 1].copied
    ensures var t := Run(Begin(preCount, postCount), before); t.drained <= |t.recorded|
    ensures var t := Run(Begin(preCount, postCount), before);
      var u := Run(Begin(preCount, postCount), before + [trigger] + ops);
      var k := Min(t.ring.preCount, |t.recorded| - t.drained);
      && u.recorded == t.recorded + Copies(t.next, ops)
      && u.sent == t.sent + u.recorded[|t.recorded| - k..]
      && |u.sent| == |t.sent| + k + Wanted(t.ring.postCount)
      && !u.ring.triggered && u.ring.triggerCount == t.ring.triggerCount + 1
  {
    hide Do, Copies, AllPushes;
    var b := Begin(preCount, postCount);
    RunInv(preCount, postCount, before);
    OneTrigger(Run(b, before), trigger, ops);
    assert (before + [trigger])[..|before|] == before;
    RunThen(b, before + [trigger], ops);
  }

  lemma {:induction false} RunThen(t: Trace, before: seq<Op>, ops: seq<Op>)
    ensures Run(t, before + ops) == Run(Run(t, before), ops)
    decreases |ops|
  {
    var n := |ops|;
    if n == 0 {
      assert before + ops == before;
    } else {
      assert (before + ops)[..|before| + n - 1] == before + ops[..n - 1];
      RunThen(t, before, ops[..n - 1]);
    }
  }

  lemma TailIs(t: Trace)
    requires t.drained <= |t.recorded|
    ensures var k := Min(t.ring.preCount, |t.recorded| - t.drained);
      Tail(t) == t.recorded[|t.recorded| - k..] && |Tail(t)| == k
  {
  }

  /** A trigger moves no frame out of order and records nothing. */
  lemma Latches(t: Trace, trigger: Op)
    requires Inv(t) && t.ring.control
    requires trigger == TriggerOp || (trigger.SoftTriggerOp? && trigger.value != 0)
    ensures var m := Do(t, trigger);
      && m.next == t.next && m.recorded == t.recorded && m.sent + m.ring.buffer == t.sent + t.ring.buffer
      && m.ring.control && m.ring.triggered && m.ring.postDone == 0
      && m.ring.postCount == t.ring.postCount && m.ring.triggerCount == t.ring.triggerCount
      && t.drained <= |t.recorded| && t.ring.buffer == Tail(t)
  {
  }

  // The preset.

  /** With a preset, no more sequences complete than it allows, and reaching it turns acquisition off. */
  ghost predicate WithinPreset(r: Ring)
  {
    r.preset > 0 ==> r.triggerCount <= r.preset && (r.control ==> r.triggerCount < r.preset)
  }

  lemma {:induction false} PresetHolds(t: Trace, ops: seq<Op>)
    requires forall i :: 0 <= i < |ops| ==> !ops[i].PresetOp?
    ensures var u := Run(Do(t, StartOp), ops);
      && u.ring.preset == t.ring.preset && WithinPreset(u.ring)
      && (u.ring.preset > 0 && u.ring.triggerCount == u.ring.preset ==> !u.ring.control)
  {
    if |ops| > 0 {
      PresetHolds(t, ops[..|ops| - 1]);
      PresetStep(Run(Do(t, StartOp), ops[..|ops| - 1]), ops[|ops| - 1]);
    }
  }

  lemma PresetStep(t: Trace, op: Op)
    requires WithinPreset(t.ring) && !op.PresetOp?
    ensures WithinPreset(Do(t, op).ring) && Do(t, op).ring.preset == t.ring.preset
  {
  }

  /** The buffer object: its methods change the fields as the functions above say. */
  class CircularBuffer {
    var control: bool
    var preCount: nat
    var postCount: nat
    var buffer: seq<nat>
    var triggered: bool
    var postDone: nat
    var preFlushed: bool
    var preset: nat
    var triggerCount: nat
    var flushOnSoftTrigger: int
    var status: Status

    function Value(): (r: Ring)
      reads this
    {
      Ring(control, preCount, postCount, buffer, triggered, postDone, preFlushed, preset, triggerCount,
           flushOnSoftTrigger, status)
    }

    constructor (preCount: nat, postCount: nat)
      ensures Value() == New(preCount, postCount)
    {
      control, this.preCount, this.postCount, buffer, triggered := false, preCount, postCount, [], false;
      postDone, preFlushed, preset, triggerCount, flushOnSoftTrigger, status := 0, false, 1, 0, 0, StatusIdle;
    }

    method ResetAll()
      modifies this
      ensures Value() == Reset(old(Value()))
    {
      control, buffer, triggered, postDone, preFlushed := false, [], false, 0, false;
      triggerCount, status := 0, StatusIdle;
    }

    method StartAcquiring()
      modifies this
      ensures Value() == Start(old(Value()))
    {
      ResetAll();
      control, status := true, BufferFilling;
    }

    method StopAcquiring()
      modifies this
      ensures Value() == Stop(old(Value()))
    {
      control, triggered, status := false, false, StatusIdle;
    }

    method Fire()
      modifies this
      ensures Value() == Trigger(old(Value()))
    {
      if !control {
        return;
      }
      triggered, postDone, preFlushed, status := true, 0, false, Flushing;
    }

    method FlushPreBuffer() returns (frames: seq<nat>)
      modifies this
      ensures (Value(), frames) == Flush(old(Value()))
    {
      preFlushed := true;
      frames := buffer;
      buffer := [];
    }

    method CompleteSequence()
      modifies this
      ensures Value() == Complete(old(Value()))
    {
      triggered, preFlushed, postDone := false, false, 0;
      triggerCount := triggerCount + 1;
      if preset > 0 && triggerCount >= preset {
        control, status := false, AcquisitionCompleted;
      } else {
        status := BufferFilling;
      }
    }

    method PushCopied(frame: nat, fired: bool, copied: bool) returns (out: Output)
      modifies this
      ensures (Value(), out) == Push(old(Value()), frame, fired, copied)
    {
      out := Output([], false);
      if !control {
        return;
      }
      if !triggered && fired {
        Fire();
      }
      if !copied {
        return;
      }
      if !triggered {
        buffer := buffer + [frame];
        if |buffer| > preCount {
          buffer := buffer[1..];
        }
      } else {
        if !preFlushed {
          var flushed := FlushPreBuffer();
          out := out.(forward := flushed);
        }
        out := out.(forward := out.forward + [frame]);
        postDone := postDone + 1;
      }
      if postDone >= postCount {
        CompleteSequence();
        out := out.(done := true);
      }
    }

    method WriteSoftTrigger(value: int) returns (frames: seq<nat>)
      modifies this
      ensures (Value(), frames) == SoftTrigger(old(Value()), value)
    {
      frames := [];
      if value != 0 {
        Fire();
        if flushOnSoftTrigger > 0 {
          frames := FlushPreBuffer();
        }
      }
    }
  }
}
