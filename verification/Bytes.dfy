/** Byte strings, and the two Python slices the repository leans on. */
module Bytes {

  type Byte = b: int | 0 <= b < 256

  type Buf = seq<Byte>

  /** b"\0" * n */
  function Zeros(n: nat): (z: Buf)
    ensures |z| == n
  {
    seq(n, _ => 0)
  }

  /** Where Python's slice bound `n` falls in a sequence of length `len`. */
  function SliceBound(len: nat, n: int): (k: nat)
    ensures k <= len
    ensures 0 <= n <= len ==> k == n
  {
    if n < 0 then (if len + n < 0 then 0 else len + n)
    else if n > len then len else n
  }

  /** s[:n] */
  function SliceTo<T>(s: seq<T>, n: int): seq<T> {
    s[..SliceBound(|s|, n)]
  }

  /** s[n:] */
  function SliceFrom<T>(s: seq<T>, n: int): seq<T> {
    s[SliceBound(|s|, n)..]
  }

  /** s[i:j] for bounds that are not negative */
  function Slice<T>(s: seq<T>, i: nat, j: nat): (r: seq<T>)
    ensures i <= j <= |s| ==> r == s[i..j]
  {
    var hi := SliceBound(|s|, j);
    var lo := SliceBound(|s|, i);
    if lo <= hi then s[lo..hi] else []
  }

  function Min(a: int, b: int): int {
    if a <= b then a else b
  }

  function Max(a: int, b: int): int {
    if a >= b then a else b
  }
}
