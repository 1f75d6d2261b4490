/**
 The slicer of the toxic proxy: a message is cut at random places around an
 average size and the pieces are sent one after another.  Each random size is an
 arbitrary choice, so everything here holds for every sequence of choices.
 */
module Slicer {
  import opened Bytes

  /** The random draw raises when its range is empty. */
  datatype Chunks = Offsets(at: seq<int>) | ValueError

  datatype Delivery = Delivered(chunks: seq<Buf>) | Raised

  /** At most the average size and the variation together, and a single byte always. */
  predicate NotTooLong(length: int, avgSize: int, sizeVar: int) {
    length <= avgSize + sizeVar || length <= 1
  }

  /** At least the average size less the variation, and never empty. */
  predicate LongEnough(length: int, avgSize: int, sizeVar: int) {
    length >= avgSize - sizeVar && length >= 1
  }

  /** Offsets are pairs [from, to]: each pair starts where the one before it ended. */
  predicate Contiguous(at: seq<int>, start: int) {
    && |at| % 2 == 0
    && (|at| > 0 ==> at[0] == start)
    && (forall k :: 0 <= k < |at| / 2 ==> at[2 * k] <= at[2 * k + 1])
    && (forall k :: 0 < k < |at| / 2 ==> at[2 * k] == at[2 * k - 1])
  }

  /** No piece is too long, and every piece but the last is long enough. */
  predicate Sized(at: seq<int>, avgSize: int, sizeVar: int) {
    && |at| % 2 == 0
    && (forall k :: 0 <= k < |at| / 2 ==> NotTooLong(at[2 * k + 1] - at[2 * k], avgSize, sizeVar))
    && (forall k :: 0 <= k < |at| / 2 - 1 ==> LongEnough(at[2 * k + 1] - at[2 * k], avgSize, sizeVar))
  }

  lemma PairAppended(at: seq<int>, start: int, lo: int, hi: int, avgSize: int, sizeVar: int)
    requires Contiguous(at, start) && Sized(at, avgSize, sizeVar)
    requires forall k :: 0 <= k < |at| / 2 ==> LongEnough(at[2 * k + 1] - at[2 * k], avgSize, sizeVar)
    requires lo == (if |at| == 0 then start else at[|at| - 1])
    requires lo <= hi && NotTooLong(hi - lo, avgSize, sizeVar)
    ensures Contiguous(at + [lo, hi], start) && Sized(at + [lo, hi], avgSize, sizeVar)
  {
    var grown := at + [lo, hi];
    var n := |at| / 2;
    assert |at| == 2 * n && |grown| / 2 == n + 1;
    forall k | 0 <= k < n + 1
      ensures grown[2 * k] <= grown[2 * k + 1] && NotTooLong(grown[2 * k + 1] - grown[2 * k], avgSize, sizeVar)
      ensures k > 0 ==> grown[2 * k] == grown[2 * k - 1]
    {
      if k < n {
        assert grown[2 * k] == at[2 * k] && grown[2 * k + 1] == at[2 * k + 1];
      }
    }
    forall k | 0 <= k < n
      ensures LongEnough(grown[2 * k + 1] - grown[2 * k], avgSize, sizeVar)
    {
      assert grown[2 * k] == at[2 * k] && grown[2 * k + 1] == at[2 * k + 1];
    }
  }

  /** The chunk offsets tile [start, end) and respect the sizes.  It fails only when several chunks
      are needed and the variation is negative. */
  method Chunk(start: int, end: int, avgSize: int, sizeVar: int) returns (r: Chunks)
    requires start <= end
    ensures r.ValueError? <==> end - start - avgSize > sizeVar && sizeVar < 0
    ensures r.Offsets? ==>
              && |r.at| >= 2 && Contiguous(r.at, start) && r.at[|r.at| - 1] == end
              && Sized(r.at, avgSize, sizeVar)
    ensures r.Offsets? && end - start - avgSize <= sizeVar ==> r.at == [start, end]
  {
    if end - start - avgSize <= sizeVar {
      return Offsets([start, end]);
    }
    if sizeVar * 2 + 1 <= 0 {
      return ValueError;
    }
    var at: seq<int> := [];
    var pStart := start;
    while true
      invariant start <= pStart <= end
      invariant |at| > 0 ==> at[|at| - 1] == pStart && pStart < end
      invariant |at| == 0 ==> pStart == start
      invariant Contiguous(at, start)
      invariant Sized(at, avgSize, sizeVar)
      invariant forall k :: 0 <= k < |at| / 2 ==> LongEnough(at[2 * k + 1] - at[2 * k], avgSize, sizeVar)
      decreases end - pStart
    {
      var randLen :| 0 <= randLen < sizeVar * 2 + 1;
      var pEnd := pStart + Max(avgSize + (randLen - sizeVar), 1);
      PairAppended(at, start, pStart, Min(pEnd, end), avgSize, sizeVar);
      ghost var n := |at| / 2;
      at := at + [pStart, Min(pEnd, end)];
      assert |at| / 2 == n + 1 && at[2 * n] == pStart && at[2 * n + 1] == Min(pEnd, end);
      pStart := at[|at| - 1];
      if at[|at| - 1] >= end {
        break;
      }
    }
    r := Offsets(at);
  }

  function Flatten(chunks: seq<Buf>): Buf {
    if |chunks| == 0 then [] else Flatten(chunks[..|chunks| - 1]) + chunks[|chunks| - 1]
  }

  /** Whatever sizes are drawn, the pieces sent are the message cut up in order. */
  method Run(msg: Buf, avgSize: int, sizeVar: int) returns (r: Delivery)
    ensures r.Raised? <==> |msg| - avgSize > sizeVar && sizeVar < 0
    ensures r.Delivered? ==>
              && Flatten(r.chunks) == msg
              && |r.chunks| >= 1
              && (forall c <- r.chunks :: NotTooLong(|c|, avgSize, sizeVar))
              && (forall k :: 0 <= k < |r.chunks| - 1 ==> LongEnough(|r.chunks[k]|, avgSize, sizeVar))
  {
    var offsets := Chunk(0, |msg|, avgSize, sizeVar);
    if offsets.ValueError? {
      return Raised;
    }
    var at := offsets.at;
    var sent: seq<Buf> := [];
    var i := 1;
    ghost var k := 0;
    while i < |at|
      invariant i == 2 * k + 1 && |sent| == k <= |at| / 2
      invariant Flatten(sent) == msg[..Mark(at, k, |msg|)]
      invariant forall j :: 0 <= j < k ==> |sent[j]| == at[2 * j + 1] - at[2 * j]
    {
      Advance(at, k, |msg|);
      var chunk := msg[at[i - 1]..at[i]];
      assert (sent + [chunk])[..|sent|] == sent;
      assert msg[..at[i]] == msg[..at[i - 1]] + chunk;
      sent := sent + [chunk];
      i := i + 2;
      k := k + 1;
    }
    assert k == |at| / 2 && Mark(at, k, |msg|) == |msg|;
    assert msg[..|msg|] == msg;
    r := Delivered(sent);
  }

  /** How much of the message the first k pieces cover. */
  ghost function Mark(at: seq<int>, k: nat, end: nat): (m: nat)
    requires Contiguous(at, 0) && k <= |at| / 2 && |at| >= 2 && at[|at| - 1] == end
    ensures m <= end
    ensures k == |at| / 2 ==> m == end
  {
    if k == 0 then 0 else NotBelow(at, k - 1); NotAbove(at, k - 1, end); at[2 * k - 1]
  }

  lemma Advance(at: seq<int>, k: nat, end: nat)
    requires Contiguous(at, 0) && k < |at| / 2 && |at| >= 2 && at[|at| - 1] == end
    ensures at[2 * k] == Mark(at, k, end) <= at[2 * k + 1] == Mark(at, k + 1, end)
  {
  }

  lemma {:induction false} NotBelow(at: seq<int>, k: nat)
    requires Contiguous(at, 0) && k < |at| / 2
    ensures 0 <= at[2 * k]
  {
    if k == 0 {
    } else {
      NotBelow(at, k - 1);
    }
  }

  lemma {:induction false} NotAbove(at: seq<int>, k: nat, end: int)
    requires Contiguous(at, 0) && k < |at| / 2 && at[|at| - 1] == end
    ensures at[2 * k + 1] <= end
    decreases |at| / 2 - k
  {
    if k >= |at| / 2 - 1 {
    } else {
      NotAbove(at, k + 1, end);
      assert at[2 * (k + 1)] == at[2 * (k + 1) - 1];
    }
  }
}
