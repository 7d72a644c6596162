/** Byte strings and the JavaScript `slice` operation the pipeline uses on
    them (the same on `Buffer` and `Uint8Array`). */
module Bytes {

  type Bytes = seq<bv8>

  /** How `slice` resolves one of its arguments against a length: a negative
      index counts from the end, and the result is clamped to [0, len]. */
  function RelativeIndex(i: int, len: nat): nat {
    if i < 0 then (if len + i < 0 then 0 else len + i)
    else if i > len then len
    else i
  }

  /** `s.slice(start, end)`: empty when the resolved end is not past the
      resolved start. */
  function JsSlice<T>(s: seq<T>, start: int, end: int): (r: seq<T>)
    ensures |r| <= |s|
    ensures 0 <= start <= end <= |s| ==> r == s[start..end]
    ensures RelativeIndex(end, |s|) <= RelativeIndex(start, |s|) ==> r == []
    ensures RelativeIndex(start, |s|) < RelativeIndex(end, |s|) ==>
              r == s[RelativeIndex(start, |s|)..RelativeIndex(end, |s|)]
  {
    var from, to := RelativeIndex(start, |s|), RelativeIndex(end, |s|);
    if from < to then s[from..to] else []
  }

  /** The contents of `new ArrayBuffer(n)`. */
  function Zeros(n: nat): (r: Bytes)
    ensures |r| == n
    ensures forall i :: 0 <= i < n ==> r[i] == 0
  {
    if n == 0 then [] else Zeros(n - 1) + [0]
  }
}
