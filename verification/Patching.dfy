/** Overwriting a stretch of a sequence, shared by the block-layer modules. */
module Patching {
  function Patch<T>(b: seq<T>, at: nat, buf: seq<T>): (r: seq<T>)
    requires at + |buf| <= |b|
    ensures |r| == |b|
  {
    b[..at] + buf + b[at + |buf|..]
  }

  lemma PatchAt<T>(b: seq<T>, at: nat, buf: seq<T>, k: nat)
    requires at + |buf| <= |b| && k < |b|
    ensures Patch(b, at, buf)[k] == if at <= k < at + |buf| then buf[k - at] else b[k]
  {
  }

  /** Two adjacent writes are one. */
  lemma PatchAdjacent<T>(b: seq<T>, at: nat, x: seq<T>, y: seq<T>)
    requires at + |x| + |y| <= |b|
    ensures Patch(Patch(b, at, x), at + |x|, y) == Patch(b, at, x + y)
  {
    var p, q := Patch(Patch(b, at, x), at + |x|, y), Patch(b, at, x + y);
    forall k | 0 <= k < |b| ensures p[k] == q[k] {
      PatchAt(Patch(b, at, x), at + |x|, y, k);
      PatchAt(b, at, x, k);
      PatchAt(b, at, x + y, k);
    }
  }

  /** Reading a block, overwriting part of it and writing it back overwrites just that part. */
  lemma PatchWithin<T>(b: seq<T>, base: nat, size: nat, at: nat, buf: seq<T>)
    requires base + size <= |b| && at + |buf| <= size
    ensures Patch(b, base, Patch(b[base..base + size], at, buf)) == Patch(b, base + at, buf)
  {
    var block := b[base..base + size];
    var p, q := Patch(b, base, Patch(block, at, buf)), Patch(b, base + at, buf);
    forall k | 0 <= k < |b| ensures p[k] == q[k] {
      PatchAt(b, base, Patch(block, at, buf), k);
      PatchAt(b, base + at, buf, k);
      if base <= k < base + size {
        PatchAt(block, at, buf, k - base);
      }
    }
  }

  lemma SliceOfSlice<T>(d: seq<T>, base: nat, size: nat, o: nat, n: nat)
    requires base + size <= |d| && o + n <= size
    ensures d[base..base + size][o..o + n] == d[base + o..base + o + n]
  {
    var x, y := d[base..base + size][o..o + n], d[base + o..base + o + n];
    assert |x| == |y| && forall k :: 0 <= k < n ==> x[k] == y[k];
  }
}
