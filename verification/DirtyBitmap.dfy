/** Dirty tracking of a block device: one bit per chunk of sectors and a running count. */
module DirtyBitmap {
  const CHUNK := 2048

  /** bits holds the chunks whose bit is set. */
  datatype Tracker = Tracker(on: bool, bits: set<nat>, count: int)

  datatype Op = Write(sector: nat, nb: nat) | Reset(sector: nat, nb: nat) | Track(enable: bool)

  function Chunk(sector: nat): (r: nat) {
    sector / CHUNK
  }

  /** The last chunk of a request; the division truncates, so an empty request at sector 0 ends in
      chunk 0. */
  function LastChunk(sector: nat, nb: nat): (r: nat) {
    if sector + nb == 0 then 0 else Chunk(sector + nb - 1)
  }

  predicate StartsBy(sector: nat, c: nat) {
    Chunk(sector) <= c
  }

  /** The chunks from that of sector on, below k. */
  function ChunksBelow(sector: nat, k: nat): (chunks: set<nat>) {
    set c: nat | c < k && StartsBy(sector, c)
  }

  function Chunks(sector: nat, nb: nat): (chunks: set<nat>) {
    ChunksBelow(sector, LastChunk(sector, nb) + 1)
  }

  lemma ChunksStep(sector: nat, k: nat)
    requires Chunk(sector) <= k
    ensures ChunksBelow(sector, k + 1) == ChunksBelow(sector, k) + {k}
  {
    assert StartsBy(sector, k);
  }

  /** A request that is not empty touches exactly the chunks of its sectors. */
  lemma ChunksCover(sector: nat, nb: nat, c: nat)
    requires nb > 0
    ensures c in Chunks(sector, nb) <==> exists s :: sector <= s < sector + nb && Chunk(s) == c
  {
    if c in Chunks(sector, nb) {
      assert StartsBy(sector, c) && c <= LastChunk(sector, nb);
      var s := if c == Chunk(sector) then sector else c * CHUNK;
      assert sector <= s < sector + nb && Chunk(s) == c;
    } else {
      assert !StartsBy(sector, c) || c > LastChunk(sector, nb);
    }
  }

  /** Sets or clears the bits of a set of chunks; the count moves with the number of set bits. */
  function MarkSet(t: Tracker, cs: set<nat>, dirty: bool): (t': Tracker) {
    var bits := if dirty then t.bits + cs else t.bits - cs;
    t.(bits := bits, count := t.count + |bits| - |t.bits|)
  }

  /** set_dirty_bitmap. */
  function Mark(t: Tracker, sector: nat, nb: nat, dirty: bool): (t': Tracker) {
    MarkSet(t, Chunks(sector, nb), dirty)
  }

  /** One turn of the loop of set_dirty_bitmap. */
  function MarkOne(t: Tracker, c: nat, dirty: bool): (t': Tracker) {
    if dirty && c !in t.bits then t.(bits := t.bits + {c}, count := t.count + 1)
    else if !dirty && c in t.bits then t.(bits := t.bits - {c}, count := t.count - 1)
    else t
  }

  /** Where the loop of set_dirty_bitmap starts and ends. */
  lemma MarkAllChunks(t: Tracker, sector: nat, nb: nat, dirty: bool)
    ensures Chunk(sector) <= LastChunk(sector, nb) + 1
    ensures MarkSet(t, ChunksBelow(sector, Chunk(sector)), dirty) == t
    ensures MarkSet(t, ChunksBelow(sector, LastChunk(sector, nb) + 1), dirty) == Mark(t, sector, nb, dirty)
  {
    assert ChunksBelow(sector, Chunk(sector)) == {};
  }

  lemma SetOneMore(t: Tracker, cs: set<nat>, c: nat)
    ensures MarkOne(MarkSet(t, cs, true), c, true) == MarkSet(t, cs + {c}, true)
  {
    var a := t.bits + cs;
    assert t.bits + (cs + {c}) == a + {c};
    Cardinality(a, c);
  }

  lemma ClearOneMore(t: Tracker, cs: set<nat>, c: nat)
    ensures MarkOne(MarkSet(t, cs, false), c, false) == MarkSet(t, cs + {c}, false)
  {
    var a := t.bits - cs;
    assert t.bits - (cs + {c}) == a - {c};
    Cardinality(a, c);
  }

  lemma Cardinality(a: set<nat>, c: nat)
    ensures c !in a ==> |a + {c}| == |a| + 1 && a - {c} == a
    ensures c in a ==> |a - {c}| == |a| - 1 && a + {c} == a
  {
  }

  lemma MarkOneMore(t: Tracker, cs: set<nat>, c: nat, dirty: bool)
    ensures MarkOne(MarkSet(t, cs, dirty), c, dirty) == MarkSet(t, cs + {c}, dirty)
  {
    hide MarkOne, MarkSet;
    if dirty {
      SetOneMore(t, cs, c);
    } else {
      ClearOneMore(t, cs, c);
    }
  }

  predicate Allowed(t: Tracker, op: Op) {
    op.Reset? ==> t.on
  }

  function Apply(t: Tracker, op: Op): (t': Tracker)
    requires Allowed(t, op)
  {
    match op
    case Write(sector, nb) => if t.on then Mark(t, sector, nb, true) else t
    case Reset(sector, nb) => Mark(t, sector, nb, false)
    case Track(enable) =>
      if enable && t.on then t.(count := 0)
      else Tracker(enable, {}, 0)
  }

  /** An untracked device. */
  function Untracked(): (t: Tracker) {
    Tracker(false, {}, 0)
  }

  predicate IsRun(run: seq<Tracker>, ops: seq<Op>) {
    && |run| == |ops| + 1 && run[0] == Untracked()
    && forall k :: 0 <= k < |ops| ==> Allowed(run[k], ops[k]) && run[k + 1] == Apply(run[k], ops[k])
  }

  // -------------------------------------------------- what the bits stand for

  /** The operation takes the mark off chunk c. */
  predicate Clears(op: Op, c: nat) {
    || (op.Reset? && c in Chunks(op.sector, op.nb))
    || (op.Track? && !op.enable)
  }

  /** Among the first k operations, one wrote chunk c while tracking was on and none cleared it since. */
  ghost predicate WrittenSince(run: seq<Tracker>, ops: seq<Op>, k: nat, c: nat)
    requires |run| == |ops| + 1 && k <= |ops|
  {
    exists i :: 0 <= i < k && MarkedAt(run, ops, i, k, c)
  }

  ghost predicate MarkedAt(run: seq<Tracker>, ops: seq<Op>, i: nat, k: nat, c: nat)
    requires |run| == |ops| + 1 && i < k <= |ops|
  {
    && run[i].on && ops[i].Write? && c in Chunks(ops[i].sector, ops[i].nb)
    && forall j :: i < j < k ==> !Clears(ops[j], c)
  }

  lemma WrittenSinceNext(run: seq<Tracker>, ops: seq<Op>, k: nat, c: nat)
    requires |run| == |ops| + 1 && k < |ops|
    ensures WrittenSince(run, ops, k + 1, c) <==>
            || (run[k].on && ops[k].Write? && c in Chunks(ops[k].sector, ops[k].nb))
            || (WrittenSince(run, ops, k, c) && !Clears(ops[k], c))
  {
    hide Clears, Chunks;
    if run[k].on && ops[k].Write? && c in Chunks(ops[k].sector, ops[k].nb) {
      assert MarkedAt(run, ops, k, k + 1, c);
    } else if WrittenSince(run, ops, k, c) && !Clears(ops[k], c) {
      var i :| 0 <= i < k && MarkedAt(run, ops, i, k, c);
      assert MarkedAt(run, ops, i, k + 1, c);
    }
    if WrittenSince(run, ops, k + 1, c) {
      var i :| 0 <= i < k + 1 && MarkedAt(run, ops, i, k + 1, c);
      if i < k {
        assert MarkedAt(run, ops, i, k, c);
      }
    }
  }

  /** A bit is set exactly when its chunk was written since it was last cleared. */
  lemma {:induction false} BitsExact(run: seq<Tracker>, ops: seq<Op>, k: nat, c: nat)
    requires IsRun(run, ops) && k <= |ops|
    ensures c in run[k].bits <==> WrittenSince(run, ops, k, c)
    ensures !run[k].on ==> run[k].bits == {}
  {
    if k > 0 {
      BitsExact(run, ops, k - 1, c);
      assert Allowed(run[k - 1], ops[k - 1]) && run[k] == Apply(run[k - 1], ops[k - 1]);
      WrittenSinceNext(run, ops, k - 1, c);
      hide Chunks, WrittenSince, IsRun;
    }
  }

  // ------------------------------------------------------- what is counted

  /** How far the count is below the number of set bits: enabling tracking that is already on zeroes
      the count and keeps the bits. */
  function Drift(run: seq<Tracker>, ops: seq<Op>, k: nat): (r: nat)
    requires |run| == |ops| + 1 && k <= |ops|
  {
    if k == 0 then 0
    else if !ops[k - 1].Track? then Drift(run, ops, k - 1)
    else if ops[k - 1].enable && run[k - 1].on then |run[k - 1].bits|
    else 0
  }

  lemma {:induction false} CountExact(run: seq<Tracker>, ops: seq<Op>, k: nat)
    requires IsRun(run, ops) && k <= |ops|
    ensures run[k].count == |run[k].bits| - Drift(run, ops, k)
  {
    if k > 0 {
      CountExact(run, ops, k - 1);
      assert Allowed(run[k - 1], ops[k - 1]) && run[k] == Apply(run[k - 1], ops[k - 1]);
      hide Chunks;
    }
  }

  /** Operation i is the last switch of tracking among the first k. */
  predicate IsLastSwitch(ops: seq<Op>, k: nat, i: nat)
    requires k <= |ops|
  {
    i < k && ops[i].Track? && forall j :: i < j < k ==> !ops[j].Track?
  }

  /** Operation i enables tracking that is on and has bits set. */
  predicate EnablesOverBits(run: seq<Tracker>, ops: seq<Op>, i: nat)
    requires |run| == |ops| + 1 && i < |ops|
  {
    ops[i].Track? && ops[i].enable && run[i].on && run[i].bits != {}
  }

  /** The last switch, if there was one, was not an enable over set bits. */
  ghost predicate CleanSwitch(run: seq<Tracker>, ops: seq<Op>, k: nat)
    requires |run| == |ops| + 1 && k <= |ops|
  {
    forall i: nat :: i < k && IsLastSwitch(ops, k, i) ==> !EnablesOverBits(run, ops, i)
  }

  lemma {:induction false} DriftExact(run: seq<Tracker>, ops: seq<Op>, k: nat)
    requires |run| == |ops| + 1 && k <= |ops|
    ensures Drift(run, ops, k) == 0 <==> CleanSwitch(run, ops, k)
  {
    if k > 0 {
      if ops[k - 1].Track? {
        assert IsLastSwitch(ops, k, k - 1);
        forall i: nat | i < k && IsLastSwitch(ops, k, i) ensures i == k - 1 {
        }
      } else {
        DriftExact(run, ops, k - 1);
        forall i: nat | i < k - 1 ensures IsLastSwitch(ops, k, i) <==> IsLastSwitch(ops, k - 1, i) {
        }
      }
    }
  }

  /** For every sequence of writes, resets and switches from an untracked device on: the bit of a chunk
      is set exactly when the chunk was written since it was last cleared, and the count is the number
      of set bits exactly when the last switch was not an enable over set bits. */
  lemma TrackingExact(run: seq<Tracker>, ops: seq<Op>, c: nat)
    requires IsRun(run, ops)
    ensures c in run[|ops|].bits <==> WrittenSince(run, ops, |ops|, c)
    ensures run[|ops|].count == |run[|ops|].bits| <==> CleanSwitch(run, ops, |ops|)
  {
    BitsExact(run, ops, |ops|, c);
    CountExact(run, ops, |ops|);
    DriftExact(run, ops, |ops|);
  }

  /** Enabling again after one write: one bit is set and the count is 0. */
  lemma ReenablingLosesTheCount() returns (run: seq<Tracker>, ops: seq<Op>)
    ensures IsRun(run, ops) && |ops| == 3
    ensures run[3].bits == {0} && run[3].count == 0
  {
    ops := [Track(true), Write(0, 1), Track(true)];
    assert Chunks(0, 1) == {0} by {
      assert StartsBy(0, 0);
    }
    var one := Tracker(true, {0}, 1);
    run := [Untracked(), Tracker(true, {}, 0), one, one.(count := 0)];
    assert Mark(run[1], 0, 1, true) == one;
  }
}
