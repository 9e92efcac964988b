/** Copies into arrays, and searches. */
module Arrays {

  /** The first place of x, or the length. */
  function First(s: seq<string>, x: string): (i: nat)
    ensures i <= |s| && (i < |s| ==> s[i] == x)
    ensures forall j :: 0 <= j < i ==> s[j] != x
  {
    if s == [] then 0
    else if s[0] == x then 0
    else 1 + First(s[1..], x)
  }

  /** A contiguous copy into the array. */
  method Put<T>(out: array<T>, at: nat, run: seq<T>)
    requires at + |run| <= out.Length
    modifies out
    ensures forall k :: 0 <= k < out.Length ==> out[k] == if at <= k < at + |run| then run[k - at] else old(out[k])
  {
    forall i | 0 <= i < |run| {
      out[at + i] := run[i];
    }
  }
}
