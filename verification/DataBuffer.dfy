/**
 An array's data buffer: bytes read as one element type. Storage comes in chunks of
 eight bytes; a pooled buffer carries its pool charge and never grows past it.
 */
module DataBuffer {
  import opened Wrappers
  import opened Arith

  datatype DataType = Int8 | UInt8 | Int16 | UInt16 | Int32 | UInt32 | Int64 | UInt64 | Float32 | Float64

  function ElementSize(t: DataType): (n: nat)
    ensures n > 0
  {
    match t
    case Int8 | UInt8 => 1
    case Int16 | UInt16 => 2
    case Int32 | UInt32 | Float32 => 4
    case Int64 | UInt64 | Float64 => 8
  }

  type Byte = b: int | 0 <= b < 256

  const CHUNK: nat := 8

  /** The bytes of the chunks that hold n bytes. */
  function RoundUp(n: nat): (r: nat)
    ensures n <= r < n + CHUNK && r % CHUNK == 0
  {
    WholePart(n + CHUNK - 1, CHUNK);
    (n + CHUNK - 1) / CHUNK * CHUNK
  }

  lemma RoundUpFits(n: nat, m: nat)
    requires n <= m && m % CHUNK == 0
    ensures RoundUp(n) <= m
  {
  }

  function Zeros(n: nat): (z: seq<Byte>)
    ensures |z| == n && forall i :: 0 <= i < n ==> z[i] == 0
  {
    seq(n, _ => 0)
  }

  /** A buffer's value: `len` elements in use at the front of the storage. */
  datatype Buffer = Buffer(dataType: DataType, len: nat, storage: seq<Byte>, charge: Option<nat>)
  {
    function TotalBytes(): (n: nat)
    {
      len * ElementSize(dataType)
    }

    /** The elements in use fit the storage, and both fit the charge. */
    ghost predicate Valid()
    {
      Stored() && TotalBytes() <= |storage| && (charge.Some? ==> TotalBytes() <= charge.value)
    }

    /** The storage is whole chunks within the charge, whatever is in use. */
    ghost predicate Stored()
    {
      |storage| % CHUNK == 0 && (charge.Some? ==> |storage| <= RoundUp(charge.value))
    }

    /** The bytes in use. */
    function Contents(): (s: seq<Byte>)
      requires TotalBytes() <= |storage|
    {
      storage[..TotalBytes()]
    }
  }

  function Fresh(t: DataType, count: nat): (b: Buffer)
  {
    Buffer(t, count, Zeros(RoundUp(count * ElementSize(t))), None)
  }

  lemma FreshValid(t: DataType, count: nat)
    ensures Fresh(t, count).Valid() && Fresh(t, count).Contents() == Zeros(count * ElementSize(t))
  {
  }

  /** As many elements as asked for, or as the charge holds. */
  function Allowed(b: Buffer, len: nat): (n: nat)
    ensures n <= len
  {
    if b.charge.Some? && b.charge.value / ElementSize(b.dataType) < len
    then b.charge.value / ElementSize(b.dataType) else len
  }

  /** Without a charge that is what was asked for; with one, the most up to that whose bytes fit it. */
  lemma AllowedIs(b: Buffer, len: nat, n: nat)
    ensures b.charge.None? ==> Allowed(b, len) == len
    ensures b.charge.Some? ==>
      (n <= Allowed(b, len) <==> n <= len && n * ElementSize(b.dataType) <= b.charge.value)
  {
    if b.charge.Some? {
      var c, e := b.charge.value, ElementSize(b.dataType);
      WholePart(c, e);
      hide ElementSize;
      if n <= c / e {
        MulMono(n, c / e, e);
      } else {
        MulMono(c / e + 1, n, e);
        assert (c / e + 1) * e == c / e * e + e;
      }
    }
  }

  /** Storage long enough for n bytes, grown with zero chunks when too short. */
  function Grown(storage: seq<Byte>, n: nat): (s: seq<Byte>)
    ensures |s| == if RoundUp(n) > |storage| then RoundUp(n) else |storage|
    ensures s[..|storage|] == storage
    ensures forall i :: |storage| <= i < |s| ==> s[i] == 0
  {
    if RoundUp(n) > |storage| then storage + Zeros(RoundUp(n) - |storage|) else storage
  }

  /** The value after `set_len`. */
  function WithLen(b: Buffer, len: nat): (r: Buffer)
  {
    var n := Allowed(b, len);
    b.(len := n, storage := Grown(b.storage, n * ElementSize(b.dataType)))
  }

  /** The value after `retype`: the same bytes read as another element type. */
  function Retyped(b: Buffer, t: DataType, len: nat): (r: Buffer)
  {
    WithLen(b.(dataType := t), len)
  }

  /** The bytes of s from lo to hi zeroed. */
  function ZeroFrom(s: seq<Byte>, lo: nat, hi: nat): (r: seq<Byte>)
    requires hi <= |s|
    ensures |r| == |s|
    ensures forall i :: 0 <= i < |s| ==> r[i] == if lo <= i < hi then 0 else s[i]
  {
    if lo < hi then s[..lo] + Zeros(hi - lo) + s[hi..] else s
  }

  lemma SetLenFits(b: Buffer, len: nat)
    requires b.Stored()
    ensures WithLen(b, len).Valid()
    ensures WithLen(b, len).charge == b.charge && WithLen(b, len).dataType == b.dataType
    ensures WithLen(b, len).len == Allowed(b, len)
    ensures |b.storage| <= |WithLen(b, len).storage| && WithLen(b, len).storage[..|b.storage|] == b.storage
  {
    hide RoundUp;
    var e, n := ElementSize(b.dataType), Allowed(b, len);
    if b.charge.Some? {
      var c := b.charge.value;
      MulMono(n, c / e, e);
      assert c / e * e <= c;
      RoundUpFits(n * e, RoundUp(c));
    }
  }

  /** The value after `resize`. */
  function Resized(b: Buffer, len: nat): (r: Buffer)
    requires b.Valid()
  {
    var s := WithLen(b, len);
    SetLenFits(b, len);
    s.(storage := ZeroFrom(s.storage, b.TotalBytes(), s.TotalBytes()))
  }

  /** The bytes that can be taken from src. */
  function Copied(b: Buffer, src: Buffer): (r: Buffer)
    requires b.Valid() && src.Valid() && b.dataType == src.dataType
  {
    var s := WithLen(b, src.len);
    SetLenFits(b, src.len);
    var n := s.TotalBytes();
    MulMono(s.len, src.len, ElementSize(b.dataType));
    s.(storage := src.storage[..n] + s.storage[n..])
  }

  /** The value after writing bytes over the first |bytes| bytes in use. */
  function Written(b: Buffer, bytes: seq<Byte>): (r: Buffer)
    requires b.Valid() && |bytes| <= b.TotalBytes()
  {
    b.(storage := bytes + b.storage[|bytes|..])
  }

  /** The value after refilling with elements of the buffer's own type, as many as the charge holds. */
  function Filled(b: Buffer, bytes: seq<Byte>): (r: Buffer)
    requires b.Valid() && |bytes| % ElementSize(b.dataType) == 0
  {
    var len := |bytes| / ElementSize(b.dataType);
    var s := WithLen(b, len);
    SetLenFits(b, len);
    MulMono(s.len, len, ElementSize(b.dataType));
    Written(s, bytes[..s.TotalBytes()])
  }

  /** A clone: the chunks in use, off the pool. */
  function Cloned(b: Buffer): (r: Buffer)
    requires b.Valid()
  {
    RoundUpFits(b.TotalBytes(), |b.storage|);
    b.(storage := b.storage[..RoundUp(b.TotalBytes())], charge := None)
  }

  lemma CloneIsCopy(b: Buffer)
    requires b.Valid()
    ensures RoundUp(b.TotalBytes()) <= |b.storage|
    ensures Cloned(b).Valid() && Cloned(b).Contents() == b.Contents() && Cloned(b).charge == None
    ensures |Cloned(b).storage| < b.TotalBytes() + 8
  {
    hide RoundUp;
    RoundUpFits(b.TotalBytes(), |b.storage|);
  }

  /** A write replaces the first bytes and no other. */
  lemma WrittenContents(b: Buffer, bytes: seq<Byte>)
    requires b.Valid() && |bytes| <= b.TotalBytes()
    ensures var r := Written(b, bytes);
      && r.Valid() && r == b.(storage := r.storage) && |r.storage| == |b.storage|
      && r.Contents() == bytes + b.Contents()[|bytes|..]
      && r.storage[|bytes|..] == b.storage[|bytes|..]
  {
  }

  /** Growth is zero and the common prefix is kept, whatever the storage held beyond it. */
  lemma ResizeContents(b: Buffer, len: nat)
    requires b.Valid()
    ensures var r := Resized(b, len); var n := Allowed(b, len) * ElementSize(b.dataType);
      && r.Valid() && r.charge == b.charge && r.dataType == b.dataType && r.len == Allowed(b, len)
      && r.Contents() == (if n <= b.TotalBytes() then b.Contents()[..n] else b.Contents() + Zeros(n - b.TotalBytes()))
  {
    SetLenFits(b, len);
  }

  /** Shrinking and growing back reads as zeros past the shrink, whatever was there. */
  lemma ShrinkThenGrow(b: Buffer, small: nat, len: nat)
    requires b.Valid() && small <= b.len && small <= Allowed(b, len)
    ensures Resized(b, small).Valid()
    ensures var r := Resized(Resized(b, small), len); var e := ElementSize(b.dataType);
      && r.Valid() && r.len == Allowed(b, len) && small * e <= b.TotalBytes() && small * e <= r.TotalBytes()
      && r.Contents() == b.Contents()[..small * e] + Zeros(r.TotalBytes() - small * e)
  {
    var e := ElementSize(b.dataType);
    ResizeContents(b, small);
    ResizeContents(Resized(b, small), len);
    MulMono(small, b.len, e);
    MulMono(small, Allowed(b, len), e);
    assert Allowed(b, small) == small by {
      if b.charge.Some? {
        assert Allowed(b, len) <= b.charge.value / e || Allowed(b, len) == len;
      }
    }
  }

  /** A copy holds the source's elements, as many as the charge allows. */
  lemma CopiedContents(b: Buffer, src: Buffer)
    requires b.Valid() && src.Valid() && b.dataType == src.dataType
    ensures var r := Copied(b, src); var n := Allowed(b, src.len) * ElementSize(b.dataType);
      && r.Valid() && r.charge == b.charge && r.len == Allowed(b, src.len)
      && n <= src.TotalBytes() && r.Contents() == src.Contents()[..n]
  {
    SetLenFits(b, src.len);
    MulMono(Allowed(b, src.len), src.len, ElementSize(b.dataType));
  }

  lemma FilledContents(b: Buffer, bytes: seq<Byte>)
    requires b.Valid() && |bytes| % ElementSize(b.dataType) == 0
    ensures var r := Filled(b, bytes);
      && r.Valid() && r.charge == b.charge && r.TotalBytes() <= |bytes|
      && r.len == Allowed(b, |bytes| / ElementSize(b.dataType))
      && r.Contents() == bytes[..r.TotalBytes()]
  {
    var len := |bytes| / ElementSize(b.dataType);
    SetLenFits(b, len);
    MulMono(Allowed(b, len), len, ElementSize(b.dataType));
  }

  /** An operation on a buffer. */
  datatype Op =
    | ResizeOp(len: nat)
    | RetypeOp(t: DataType, len: nat)
    | FillOp(bytes: seq<Byte>)
    | CopyOp(src: Buffer)
    | WriteOp(bytes: seq<Byte>)

  ghost predicate CanDo(b: Buffer, op: Op)
  {
    match op
    case FillOp(bytes) => |bytes| % ElementSize(b.dataType) == 0
    case CopyOp(src) => src.Valid() && src.dataType == b.dataType
    case WriteOp(bytes) => |bytes| <= b.TotalBytes()
    case _ => true
  }

  ghost function Do(b: Buffer, op: Op): (r: Buffer)
    requires b.Valid() && CanDo(b, op)
  {
    match op
    case ResizeOp(len) => Resized(b, len)
    case RetypeOp(t, len) => Retyped(b, t, len)
    case FillOp(bytes) => Filled(b, bytes)
    case CopyOp(src) => Copied(b, src)
    case WriteOp(bytes) => Written(b, bytes)
  }

  lemma DoValid(b: Buffer, op: Op)
    requires b.Valid() && CanDo(b, op)
    ensures Do(b, op).Valid() && Do(b, op).charge == b.charge
    ensures |Do(b, op).storage| >= |b.storage|
  {
    match op
    case ResizeOp(len) => ResizeContents(b, len);
    case RetypeOp(t, len) => SetLenFits(b.(dataType := t), len);
    case FillOp(bytes) => FilledContents(b, bytes);
    case CopyOp(src) => CopiedContents(b, src);
    case WriteOp(bytes) =>
  }

  /** A buffer after a sequence of operations; one that cannot be done, a copy across types say, is not. */
  ghost function After(b: Buffer, ops: seq<Op>): (r: Buffer)
  {
    if |ops| == 0 then b
    else
      var c, op := After(b, ops[..|ops| - 1]), ops[|ops| - 1];
      if c.Valid() && CanDo(c, op) then Do(c, op) else c
  }

  /** No sequence of operations takes a pooled buffer past its charge or its storage. */
  lemma {:induction false} NeverPastCharge(b: Buffer, ops: seq<Op>)
    requires b.Valid()
    ensures var r := After(b, ops);
      && r.Valid() && r.charge == b.charge && r.TotalBytes() <= |r.storage|
      && (b.charge.Some? ==> r.TotalBytes() <= b.charge.value && |r.storage| <= RoundUp(b.charge.value))
  {
    if |ops| > 0 {
      NeverPastCharge(b, ops[..|ops| - 1]);
      var c, op := After(b, ops[..|ops| - 1]), ops[|ops| - 1];
      if CanDo(c, op) {
        DoValid(c, op);
      }
    }
  }

  /** The buffer object: its methods change it in place, as the functions above say. */
  class NDDataBuffer {
    var dataType: DataType
    var len: nat
    var storage: seq<Byte>
    var charge: Option<nat>

    function Value(): (b: Buffer)
      reads this
    {
      Buffer(dataType, len, storage, charge)
    }

    constructor (t: DataType, count: nat)
      ensures Value() == Fresh(t, count) && Value().Valid()
    {
      dataType, len, charge := t, count, None;
      storage := Zeros(RoundUp(count * ElementSize(t)));
    }

    method SetLen(len: nat)
      requires Value().Stored()
      modifies `len, `storage
      ensures Value() == WithLen(old(Value()), len) && Value().Valid()
    {
      SetLenFits(Value(), len);
      var elem := ElementSize(dataType);
      var n := if charge.Some? && charge.value / elem < len then charge.value / elem else len;
      var bytes := RoundUp(n * elem);
      if bytes > |storage| {
        storage := storage + Zeros(bytes - |storage|);
      }
      this.len := n;
    }

    method Retype(t: DataType, len: nat)
      requires Value().Valid()
      modifies `dataType, `len, `storage
      ensures Value() == Retyped(old(Value()), t, len) && Value().Valid()
    {
      dataType := t;
      SetLen(len);
    }

    method Resize(newLen: nat)
      requires Value().Valid()
      modifies `len, `storage
      ensures Value() == Resized(old(Value()), newLen) && Value().Valid()
    {
      ResizeContents(Value(), newLen);
      var oldBytes := len * ElementSize(dataType);
      SetLen(newLen);
      var i := oldBytes;
      ghost var grown := storage;
      while i < len * ElementSize(dataType)
        invariant oldBytes <= i
        invariant |storage| == |grown| >= len * ElementSize(dataType)
        invariant forall j :: 0 <= j < |grown| ==> storage[j] == if oldBytes <= j < i then 0 else grown[j]
        invariant len == WithLen(old(Value()), newLen).len
        invariant i > oldBytes ==> i <= len * ElementSize(dataType)
      {
        storage := storage[i := 0];
        i := i + 1;
      }
    }

    method CopyFrom(src: NDDataBuffer)
      requires Value().Valid() && src.Value().Valid() && src != this
      requires dataType == src.dataType
      modifies `len, `storage
      ensures Value() == Copied(old(Value()), src.Value()) && Value().Valid()
    {
      CopiedContents(Value(), src.Value());
      SetLen(src.len);
      var n := len * ElementSize(dataType);
      MulMono(len, src.len, ElementSize(dataType));
      storage := src.storage[..n] + storage[n..];
    }
  }
}
