/** Python's slice notation `s[start:stop]` (step 1) on sequences, as numpy and pandas apply it. */
module Slicing {

  /** The position a slice bound `i` denotes in a sequence of length `n`:
      a negative bound counts from the end, and every bound is clamped to `[0, n]`. */
  function Bound(i: int, n: nat): (b: nat)
    ensures b <= n
  {
    if i < 0 then (if n + i < 0 then 0 else n + i)
    else if i > n then n
    else i
  }

  /** `s[start:stop]`: empty when the normalised bounds cross. */
  function Slice<T>(s: seq<T>, start: int, stop: int): (r: seq<T>)
    ensures |r| == if Bound(start, |s|) <= Bound(stop, |s|) then Bound(stop, |s|) - Bound(start, |s|) else 0
    ensures forall k | 0 <= k < |r| :: r[k] == s[Bound(start, |s|) + k]
  {
    var lo, hi := Bound(start, |s|), Bound(stop, |s|);
    if lo <= hi then s[lo..hi] else []
  }

  /** `s[start:]` */
  function From<T>(s: seq<T>, start: int): (r: seq<T>)
    ensures |r| == |s| - Bound(start, |s|)
    ensures forall k | 0 <= k < |r| :: r[k] == s[Bound(start, |s|) + k]
  {
    Slice(s, start, |s|)
  }

  /** `s[:stop]` for a non-negative `stop` */
  function Take<T>(s: seq<T>, stop: nat): (r: seq<T>)
    ensures |r| == if stop <= |s| then stop else |s|
    ensures forall k | 0 <= k < |r| :: r[k] == s[k]
  {
    Slice(s, 0, stop)
  }
}
