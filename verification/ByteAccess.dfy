/** Byte access built on sector access (bdrv_pread, bdrv_pwrite), with dirty tracking underneath. */
module ByteAccess {
  import opened Wire
  import opened Patching
  import opened DirtyBitmap

  const SECTOR := 512
  const EIO := 5
  const EACCES := 13
  const ENOMEDIUM := 123

  /** Which sector requests the driver fails, and what a failed write leaves where it was to write. */
  datatype World = World(readFails: nat -> bool, writeFails: nat -> bool, torn: nat -> seq<byte>)

  ghost predicate Quiet(w: World) {
    forall s :: !w.readFails(s) && !w.writeFails(s)
  }

  /** A dirty chunk is a mebibyte of the disk. */
  lemma ChunkOfByte(i: nat)
    ensures Chunk(SectorOf(i)) == i / 1048576
  {
    assert i == 512 * (i / 512) + i % 512;
  }

  function SectorOf(i: nat): (r: nat) {
    i / SECTOR
  }

  /** The number of sectors that n bytes from offset at lie in. */
  function Span(at: nat, n: nat): (r: nat) {
    if n == 0 then 0 else SectorOf(at + n - 1) - SectorOf(at) + 1
  }

  /** The tracker after n bytes from offset at were written. */
  function Written(t: Tracker, at: nat, n: nat): (t': Tracker) {
    if t.on && n > 0 then Mark(t, SectorOf(at), Span(at, n), true) else t
  }

  lemma ChunksJoin(s: nat, a: nat, b: nat)
    requires a > 0 && b > 0
    ensures Chunks(s, a) + Chunks(s + a, b) == Chunks(s, a + b)
  {
    var both, all := Chunks(s, a) + Chunks(s + a, b), Chunks(s, a + b);
    forall c: nat ensures c in both <==> c in all {
      assert StartsBy(s, c) <==> Chunk(s) <= c;
      assert StartsBy(s + a, c) <==> Chunk(s + a) <= c;
    }
  }

  /** Writing two adjacent stretches, the second from a sector boundary, marks what writing both at
      once marks. */
  lemma WrittenJoins(t: Tracker, at: nat, m: nat, n: nat)
    requires (at + m) % SECTOR == 0
    ensures Written(Written(t, at, m), at + m, n) == Written(t, at, m + n)
  {
    hide SectorOf, Mark;
    if t.on && m > 0 && n > 0 {
      SpanJoins(at, m, n);
      MarkTwice(t, SectorOf(at), Span(at, m), Span(at + m, n));
      hide Span;
      assert Mark(t, SectorOf(at), Span(at, m), true).on by {
        MarkOn(t, SectorOf(at), Span(at, m));
      }
    }
  }

  lemma MarkOn(t: Tracker, s: nat, n: nat)
    ensures Mark(t, s, n, true).on == t.on
  {
  }

  lemma MarkTwice(t: Tracker, s: nat, a: nat, b: nat)
    requires a > 0 && b > 0
    ensures Mark(Mark(t, s, a, true), s + a, b, true) == Mark(t, s, a + b, true)
  {
    ChunksJoin(s, a, b);
    hide Chunks;
    var mid := Mark(t, s, a, true);
    assert mid.bits + Chunks(s + a, b) == t.bits + Chunks(s, a + b);
  }

  lemma SpanJoins(at: nat, m: nat, n: nat)
    requires (at + m) % SECTOR == 0 && m > 0 && n > 0
    ensures Span(at, m) > 0 && Span(at + m, n) > 0
    ensures SectorOf(at + m) == SectorOf(at) + Span(at, m)
    ensures Span(at, m + n) == Span(at, m) + Span(at + m, n)
  {
  }

  /** After a write of n bytes from at, exactly the chunks of those bytes have been added. */
  lemma WrittenMeans(t: Tracker, at: nat, n: nat, c: nat)
    requires t.on
    ensures c in Written(t, at, n).bits <==>
            c in t.bits || exists i :: at <= i < at + n && Chunk(SectorOf(i)) == c
  {
    if n > 0 {
      var first, span := SectorOf(at), Span(at, n);
      ChunksCover(first, span, c);
      if c in Chunks(first, span) {
        var s :| first <= s < first + span && Chunk(s) == c;
        var i := if s == first then at else s * SECTOR;
        assert at <= i < at + n && SectorOf(i) == s;
      }
      forall i | at <= i < at + n ensures first <= SectorOf(i) < first + span {
      }
    }
  }

  // ---------------------------------------------------------------- the code

  /** The n bytes from at, and the dirty bits of their chunks, were written, nothing else. */
  ghost predicate Put(d: seq<byte>, t: Tracker, d': seq<byte>, t': Tracker, at: int, piece: seq<byte>) {
    && 0 <= at && at + |piece| <= |d|
    && d' == Patch(d, at, piece)
    && t' == Written(t, at, |piece|)
  }

  /** A failed write of n bytes from at: nothing happened, or the dirty bits were set and the sectors
      of those bytes hold anything. */
  ghost predicate Spoilt(d: seq<byte>, t: Tracker, d': seq<byte>, t': Tracker, at: int, n: nat) {
    || (d' == d && t' == t)
    || (0 <= at && t' == Written(t, at, n) && SpoiltAtMost(d, d', at, n))
  }

  ghost predicate SpoiltAtMost(d: seq<byte>, d': seq<byte>, at: nat, n: nat) {
    && |d'| == |d|
    && forall i :: 0 <= i < |d| && d'[i] != d[i] ==> SectorOf(at) <= SectorOf(i) < SectorOf(at) + Span(at, n)
  }

  /** While tracking is on, no bit is lost and every byte that changed has its chunk marked. */
  ghost predicate NothingMissed(d: seq<byte>, t: Tracker, d': seq<byte>, t': Tracker) {
    && |d'| == |d| && t'.on == t.on
    && (t.on ==> && t.bits <= t'.bits
                 && forall i :: 0 <= i < |d| && d'[i] != d[i] ==> Chunk(SectorOf(i)) in t'.bits)
  }

  lemma PutJoins(d: seq<byte>, t: Tracker, d1: seq<byte>, t1: Tracker, d2: seq<byte>, t2: Tracker,
                 at: int, x: seq<byte>, y: seq<byte>)
    requires Put(d, t, d1, t1, at, x) && Put(d1, t1, d2, t2, at + |x|, y)
    requires (at + |x|) % SECTOR == 0
    ensures Put(d, t, d2, t2, at, x + y)
  {
    hide Patch, Written;
    PatchAdjacent(d, at, x, y);
    WrittenJoins(t, at, |x|, |y|);
  }

  lemma SpanMarked(t: Tracker, at: nat, n: nat, i: nat)
    requires t.on && SectorOf(at) <= SectorOf(i) < SectorOf(at) + Span(at, n)
    ensures Chunk(SectorOf(i)) in Written(t, at, n).bits
  {
    ChunksCover(SectorOf(at), Span(at, n), Chunk(SectorOf(i)));
  }

  lemma SpoiltMissesNothing(d: seq<byte>, t: Tracker, d': seq<byte>, t': Tracker, at: int, n: nat)
    requires Spoilt(d, t, d', t', at, n)
    ensures NothingMissed(d, t, d', t')
  {
    if t.on {
      forall i | 0 <= i < |d| && d'[i] != d[i] ensures Chunk(SectorOf(i)) in t'.bits {
        SpanMarked(t, at, n, i);
      }
    }
  }

  /** Bytes of a stretch lie in the sectors it spans. */
  lemma InSpan(at: nat, n: nat, i: nat)
    requires at <= i < at + n
    ensures SectorOf(at) <= SectorOf(i) < SectorOf(at) + Span(at, n)
  {
  }

  lemma PutIsSpoilt(d: seq<byte>, t: Tracker, d': seq<byte>, t': Tracker, at: int, piece: seq<byte>)
    requires Put(d, t, d', t', at, piece)
    ensures Spoilt(d, t, d', t', at, |piece|)
  {
    hide SectorOf, Span, Written, Patch;
    forall i | 0 <= i < |d| && d'[i] != d[i]
      ensures SectorOf(at) <= SectorOf(i) < SectorOf(at) + Span(at, |piece|)
    {
      PatchAt(d, at, piece, i);
      InSpan(at, |piece|, i);
    }
  }

  lemma MissesChain(d: seq<byte>, t: Tracker, d1: seq<byte>, t1: Tracker, d2: seq<byte>, t2: Tracker)
    requires NothingMissed(d, t, d1, t1) && NothingMissed(d1, t1, d2, t2)
    ensures NothingMissed(d, t, d2, t2)
  {
  }

  class Device {
    var inserted: bool
    var readOnly: bool
    var disk: seq<byte>
    var t: Tracker

    ghost predicate Valid()
      reads this
    {
      |disk| % SECTOR == 0
    }

    method SetBit(c: nat, dirty: bool)
      modifies this`t
      ensures t == MarkOne(old(t), c, dirty)
    {
      if dirty {
        if c !in t.bits {
          t := t.(bits := t.bits + {c}, count := t.count + 1);
        }
      } else {
        if c in t.bits {
          t := t.(bits := t.bits - {c}, count := t.count - 1);
        }
      }
    }

    /** set_dirty_bitmap: one chunk after the other, counting the bits that change. */
    method SetDirtyBitmap(sector: nat, nb: nat, dirty: bool)
      modifies this`t
      ensures t == Mark(old(t), sector, nb, dirty)
    {
      var start, end := Chunk(sector), LastChunk(sector, nb);
      MarkAllChunks(t, sector, nb, dirty);
      hide Mark, MarkSet, MarkOne, Chunk, LastChunk, ChunksBelow;
      while start <= end
        invariant Chunk(sector) <= start <= end + 1
        invariant t == MarkSet(old(t), ChunksBelow(sector, start), dirty)
      {
        MarkOneMore(old(t), ChunksBelow(sector, start), start, dirty);
        ChunksStep(sector, start);
        SetBit(start, dirty);
        start := start + 1;
      }
    }

    method SetDirtyTracking(enable: bool)
      modifies this`t
      ensures t == Apply(old(t), Track(enable))
    {
      t := t.(count := 0);
      if enable {
        if !t.on {
          t := Tracker(true, {}, 0);
        }
      } else {
        t := Tracker(false, {}, 0);
      }
    }

    method ResetDirty(sector: nat, nb: nat)
      requires t.on
      modifies this`t
      ensures t == Apply(old(t), Reset(sector, nb))
    {
      SetDirtyBitmap(sector, nb, false);
    }

    /** bdrv_get_dirty, for any history of writes, resets and switches that led to the tracker: true
        exactly for a sector of the device whose chunk was written since it was last cleared. */
    method GetDirty(sector: nat, ghost run: seq<Tracker>, ghost ops: seq<Op>) returns (r: bool)
      requires IsRun(run, ops) && run[|ops|] == t
      ensures r <==> SECTOR * sector < |disk| && WrittenSince(run, ops, |ops|, Chunk(sector))
    {
      BitsExact(run, ops, |ops|, Chunk(sector));
      if t.on && SECTOR * sector < |disk| {
        return Chunk(sector) in t.bits;
      }
      return false;
    }

    /** bdrv_check_request on a device that does not grow. */
    method Check(sector: int, nb: nat) returns (ret: int)
      ensures ret == 0 <==> inserted && 0 <= sector && SECTOR * (sector + nb) <= |disk|
      ensures ret != 0 ==> ret < 0
    {
      if !inserted {
        return -ENOMEDIUM;
      }
      var offset, size := SECTOR * sector, SECTOR * nb;
      if offset < 0 {
        return -EIO;
      }
      if offset > |disk| || |disk| - offset < size {
        return -EIO;
      }
      return 0;
    }

    method Read(w: World, sector: int, nb: nat) returns (ret: int, buf: seq<byte>)
      ensures ret == 0 <==> inserted && 0 <= sector && SECTOR * (sector + nb) <= |disk| && !w.readFails(sector)
      ensures ret == 0 ==> buf == disk[SECTOR * sector..SECTOR * (sector + nb)]
      ensures ret != 0 ==> ret == if inserted then -EIO else -ENOMEDIUM
    {
      if !inserted {
        return -ENOMEDIUM, [];
      }
      ret := Check(sector, nb);
      if ret != 0 || w.readFails(sector) {
        return -EIO, [];
      }
      return 0, disk[SECTOR * sector..SECTOR * (sector + nb)];
    }

    /** The bits are set before the driver is called, so a failed write leaves them set. */
    method Write(w: World, sector: int, buf: seq<byte>) returns (ret: int)
      requires |buf| % SECTOR == 0
      modifies this`disk, this`t
      ensures ret == 0 <==>
              && inserted && !readOnly && 0 <= sector && SECTOR * sector + |buf| <= |old(disk)|
              && !w.writeFails(sector)
      ensures ret != 0 ==> ret == if !inserted then -ENOMEDIUM else if readOnly then -EACCES else -EIO
      ensures ret == 0 ==> disk == Patch(old(disk), SECTOR * sector, buf)
      ensures ret != 0 ==>
                disk == if && inserted && !readOnly && 0 <= sector && |w.torn(sector)| == |buf|
                           && SECTOR * sector + |buf| <= |old(disk)|
                        then Patch(old(disk), SECTOR * sector, w.torn(sector)) else old(disk)
      ensures t == if inserted && !readOnly && 0 <= sector && SECTOR * sector + |buf| <= |old(disk)| && old(t).on
                   then Mark(old(t), sector, |buf| / SECTOR, true) else old(t)
    {
      if !inserted {
        return -ENOMEDIUM;
      }
      if readOnly {
        return -EACCES;
      }
      ret := Check(sector, |buf| / SECTOR);
      if ret != 0 {
        return -EIO;
      }
      if t.on {
        SetDirtyBitmap(sector, |buf| / SECTOR, true);
      }
      if w.writeFails(sector) {
        if |w.torn(sector)| == |buf| {
          disk := Patch(disk, SECTOR * sector, w.torn(sector));
        }
        return -EIO;
      }
      disk := Patch(disk, SECTOR * sector, buf);
      return 0;
    }

    /** No request of the stretch can fail. */
    ghost predicate Accepts(w: World, d: seq<byte>, at: int, n: nat)
      reads this
    {
      Quiet(w) && inserted && !readOnly && 0 <= at && at + n <= |d|
    }

    /** Write, in terms of the bytes it covers. */
    method WriteSectors(w: World, sector: int, buf: seq<byte>) returns (ret: int)
      requires |buf| % SECTOR == 0 && buf != []
      modifies this`disk, this`t
      ensures ret <= 0 && |disk| == |old(disk)|
      ensures ret == 0 ==> Put(old(disk), old(t), disk, t, SECTOR * sector, buf)
      ensures ret != 0 ==> Spoilt(old(disk), old(t), disk, t, SECTOR * sector, |buf|)
      ensures ret != 0 && Atomic(w) ==> disk == old(disk)
      ensures Accepts(w, old(disk), SECTOR * sector, |buf|) ==> ret == 0
    {
      hide Patch, Mark;
      ret := Write(w, sector, buf);
      if 0 <= sector {
        SectorsSpan(sector, |buf|);
        if ret != 0 && disk != old(disk) {
          PutIsSpoilt(old(disk), old(t), disk, t, SECTOR * sector, w.torn(sector));
        } else if ret != 0 {
          assert SpoiltAtMost(old(disk), disk, SECTOR * sector, |buf|);
        }
      }
    }

    /** The sector's other bytes are read and written back. */
    method PutWithin(w: World, sector: int, o: nat, piece: seq<byte>) returns (ret: int)
      requires o + |piece| <= SECTOR && piece != [] && Valid()
      modifies this`disk, this`t
      ensures Valid() && ret <= 0
      ensures ret == 0 ==> Put(old(disk), old(t), disk, t, SECTOR * sector + o, piece)
      ensures ret != 0 ==> Spoilt(old(disk), old(t), disk, t, SECTOR * sector + o, |piece|)
      ensures ret != 0 && Atomic(w) ==> disk == old(disk)
      ensures Accepts(w, old(disk), SECTOR * sector + o, |piece|) ==> ret == 0
    {
      hide Patch, Written, Mark, SectorOf, Span;
      var tmp;
      SectorFits(sector, o, |piece|, |disk|);
      ret, tmp := Read(w, sector, 1);
      if ret < 0 {
        return;
      }
      var whole := Patch(tmp, o, piece);
      SameSector(t, sector, o, |piece|);
      PatchWithin(disk, SECTOR * sector, SECTOR, o, piece);
      ret := WriteSectors(w, sector, whole);
    }

    /** Part of one sector, through a sector buffer. */
    method GetWithin(w: World, sector: int, o: nat, n: nat) returns (ret: int, piece: seq<byte>)
      requires o + n <= SECTOR && n > 0 && Valid()
      ensures ret <= 0
      ensures ret == 0 ==> Got(SECTOR * sector + o, piece) && |piece| == n
      ensures Quiet(w) && Inside(SECTOR * sector + o, n) ==> ret == 0
    {
      SectorFits(sector, o, n, |disk|);
      var tmp;
      ret, tmp := Read(w, sector, 1);
      if ret < 0 {
        return ret, [];
      }
      piece := tmp[o..o + n];
      SliceOfSlice(disk, SECTOR * sector, SECTOR, o, n);
    }

    method GetSectors(w: World, sector: int, nb: nat) returns (ret: int, buf: seq<byte>)
      requires nb > 0
      ensures ret <= 0
      ensures ret == 0 ==> Got(SECTOR * sector, buf) && |buf| == SECTOR * nb
      ensures Quiet(w) && Inside(SECTOR * sector, SECTOR * nb) ==> ret == 0
    {
      ret, buf := Read(w, sector, nb);
    }

    ghost predicate Inside(offset: int, n: nat)
      reads this
    {
      inserted && 0 <= offset && offset + n <= |disk|
    }

    /** buf is what the device holds from offset on. */
    ghost predicate Got(offset: int, buf: seq<byte>)
      reads this
    {
      buf != [] ==> Inside(offset, |buf|) && buf == disk[offset..offset + |buf|]
    }

    lemma GotMore(offset: int, a: seq<byte>, b: seq<byte>)
      requires Got(offset, a) && Got(offset + |a|, b) && b != []
      ensures Got(offset, a + b)
    {
      if a == [] {
        assert a + b == b;
      }
    }

    /** bdrv_pread: the head up to a sector boundary, whole sectors in place, the tail.  A request that
        is not empty succeeds only inside the device, and then returns exactly the bytes there; it
        always succeeds there when no sector read fails. */
    method Pread(w: World, offset: int, count: nat) returns (ret: int, buf: seq<byte>)
      requires Valid()
      ensures ret == count || ret < 0
      ensures ret == count ==> |buf| == count && Got(offset, buf)
      ensures count == 0 || (Quiet(w) && Inside(offset, count)) ==> ret == count
    {
      hide HeadLength, SectorAt, LowBits, Got;
      var len, sector := HeadLength(offset, count), SectorAt(offset);
      HeadAligns(offset, count);
      buf := [];
      GotNone(offset);
      if len > 0 {
        ret, buf := GetWithin(w, sector, LowBits(offset), len);
        if ret < 0 {
          return;
        }
        if len == count {
          return count, buf;
        }
        sector := sector + 1;
      }
      ret, buf := PreadRest(w, sector, offset, count, buf);
    }

    /** The whole sectors and the tail, after a head that has been read. */
    method PreadRest(w: World, first: int, offset: int, count: nat, head: seq<byte>) returns (ret: int, buf: seq<byte>)
      requires Valid() && |head| <= count && (|head| < count ==> SECTOR * first == offset + |head|) && Got(offset, head)
      ensures ret == count || ret < 0
      ensures ret == count ==> |buf| == count && Got(offset, buf)
      ensures count == 0 || (Quiet(w) && Inside(offset, count)) ==> ret == count
    {
      hide WholeSectors, Got;
      var sector, nb := first, WholeSectors(count - |head|);
      WholeFits(count - |head|);
      buf := head;
      if nb > 0 {
        var mid;
        ret, mid := GetSectors(w, sector, nb);
        if ret < 0 {
          return;
        }
        GotMore(offset, buf, mid);
        sector := sector + nb;
        buf := buf + mid;
      }
      var left := count - |buf|;
      if left > 0 {
        var tail;
        ret, tail := GetWithin(w, sector, 0, left);
        if ret < 0 {
          return;
        }
        GotMore(offset, buf, tail);
        buf := buf + tail;
      }
      return count, buf;
    }

    lemma GotNone(offset: int)
      ensures Got(offset, [])
    {
    }

    /** The whole sectors and the tail, from a sector boundary or from the start of the request. */
    method PwriteRest(w: World, first: int, offset: int, buf: seq<byte>, ghost d: seq<byte>, ghost t0: Tracker,
                      len: nat)
      returns (ret: int, ghost written: nat)
      requires Valid() && len <= |buf| && (len < |buf| ==> SECTOR * first == offset + len)
      requires Progress(d, t0, disk, t, offset, buf, len)
      modifies this`disk, this`t
      ensures Valid() && (ret == |buf| || ret < 0)
      ensures NothingMissed(d, t0, disk, t)
      ensures ret == |buf| ==> Progress(d, t0, disk, t, offset, buf, |buf|)
      ensures ret < 0 ==> written < |buf| && Confined(d, disk, offset, |buf|)
      ensures ret < 0 && Atomic(w) ==> PrefixWritten(d, disk, offset, buf, written)
      ensures buf == [] || Accepts(w, d, offset, |buf|) ==> ret == |buf|
    {
      hide WholeSectors, Put, Spoilt, NothingMissed, Progress, Confined, PrefixWritten;
      written := len;
      var sector, nb := first, WholeSectors(|buf| - len);
      WholeFits(|buf| - len);
      ProgressSize(d, t0, disk, t, offset, buf, len);
      if nb > 0 {
        ghost var d1, t1 := disk, t;
        var n := SECTOR * nb;
        ret := WriteSectors(w, sector, buf[len..len + n]);
        if ret < 0 {
          WriteStops(d, t0, d1, t1, disk, t, offset, buf, len, n);
          return;
        }
        ProgressStep(d, t0, d1, t1, disk, t, offset, buf, len, n);
        ProgressSize(d, t0, disk, t, offset, buf, len + n);
        written := len + n;
        sector := sector + nb;
      }
      var left := |buf| - len - SECTOR * nb;
      if left > 0 {
        ghost var d1, t1 := disk, t;
        assert SECTOR * sector == offset + written;
        assert buf[written..] == buf[written..written + left];
        ret := PutWithin(w, sector, 0, buf[|buf| - left..]);
        if ret < 0 {
          WriteStops(d, t0, d1, t1, disk, t, offset, buf, written, left);
          return;
        }
        ProgressStep(d, t0, d1, t1, disk, t, offset, buf, written, left);
      }
      ProgressMissesNothing(d, t0, disk, t, offset, buf, |buf|);
      return |buf|, |buf|;
    }

    /** bdrv_pwrite.  On success exactly the given bytes and the bits of their chunks are written.
        Otherwise only sectors of the request can have changed, and no change is missed by the dirty
        bits; if failed sector writes change nothing, a prefix was written. */
    method Pwrite(w: World, offset: int, buf: seq<byte>) returns (ret: int, ghost written: nat)
      requires Valid()
      modifies this`disk, this`t
      ensures Valid() && (ret == |buf| || ret < 0)
      ensures NothingMissed(old(disk), old(t), disk, t)
      ensures ret == |buf| ==> Progress(old(disk), old(t), disk, t, offset, buf, |buf|)
      ensures ret < 0 ==> written < |buf| && Confined(old(disk), disk, offset, |buf|)
      ensures ret < 0 && Atomic(w) ==> PrefixWritten(old(disk), disk, offset, buf, written)
      ensures buf == [] || Accepts(w, old(disk), offset, |buf|) ==> ret == |buf|
    {
      hide HeadLength, SectorAt, LowBits, WholeSectors, Put, Spoilt, NothingMissed, Progress, Confined, PrefixWritten,
           Patch, Written;
      var len, sector := HeadLength(offset, |buf|), SectorAt(offset);
      HeadAligns(offset, |buf|);
      NoProgress(disk, t, offset, buf);
      written := 0;
      if len > 0 {
        ret := PutWithin(w, sector, LowBits(offset), buf[..len]);
        assert buf[..len] == buf[0..0 + len];
        if ret < 0 {
          WriteStops(old(disk), old(t), old(disk), old(t), disk, t, offset, buf, 0, len);
          return;
        }
        ProgressStep(old(disk), old(t), old(disk), old(t), disk, t, offset, buf, 0, len);
        written := len;
        if len == |buf| {
          ProgressMissesNothing(old(disk), old(t), disk, t, offset, buf, |buf|);
          return |buf|, written;
        }
        sector := sector + 1;
      }
      ret, written := PwriteRest(w, sector, offset, buf, old(disk), old(t), len);
    }
  }

  /** The first k bytes of buf have been written at offset, nothing else. */
  ghost predicate Progress(d: seq<byte>, t: Tracker, d': seq<byte>, t': Tracker, offset: int, buf: seq<byte>, k: nat)
  {
    k <= |buf| && if k == 0 then d' == d && t' == t else Put(d, t, d', t', offset, buf[..k])
  }

  ghost predicate PrefixWritten(d: seq<byte>, d': seq<byte>, offset: int, buf: seq<byte>, k: nat) {
    && k <= |buf|
    && if k == 0 then d' == d else 0 <= offset && offset + k <= |d| && d' == Patch(d, offset, buf[..k])
  }

  /** Only sectors that n bytes from offset lie in can have changed. */
  ghost predicate Confined(d: seq<byte>, d': seq<byte>, offset: int, n: nat) {
    d' == d || (0 <= offset && SpoiltAtMost(d, d', offset, n))
  }

  lemma NoProgress(d: seq<byte>, t: Tracker, offset: int, buf: seq<byte>)
    ensures Progress(d, t, d, t, offset, buf, 0) && NothingMissed(d, t, d, t)
  {
  }

  lemma ProgressSize(d: seq<byte>, t: Tracker, d': seq<byte>, t': Tracker, offset: int, buf: seq<byte>, k: nat)
    requires Progress(d, t, d', t', offset, buf, k)
    ensures |d'| == |d|
  {
    hide Written;
  }

  lemma ProgressStep(d: seq<byte>, t: Tracker, d1: seq<byte>, t1: Tracker, d2: seq<byte>, t2: Tracker,
                     offset: int, buf: seq<byte>, k: nat, n: nat)
    requires Progress(d, t, d1, t1, offset, buf, k) && 0 < n && k + n <= |buf|
    requires Put(d1, t1, d2, t2, offset + k, buf[k..k + n])
    requires k > 0 ==> (offset + k) % SECTOR == 0
    ensures Progress(d, t, d2, t2, offset, buf, k + n)
  {
    hide Put;
    if k > 0 {
      PutJoins(d, t, d1, t1, d2, t2, offset, buf[..k], buf[k..k + n]);
      assert buf[..k] + buf[k..k + n] == buf[..k + n];
    } else {
      assert buf[0..n] == buf[..n];
    }
  }

  lemma ProgressMissesNothing(d: seq<byte>, t: Tracker, d': seq<byte>, t': Tracker, offset: int, buf: seq<byte>, k: nat)
    requires Progress(d, t, d', t', offset, buf, k)
    ensures NothingMissed(d, t, d', t')
    ensures k > 0 ==> 0 <= offset && SpoiltAtMost(d, d', offset, k)
  {
    hide Written, Patch, SectorOf, Span;
    if k > 0 {
      PutIsSpoilt(d, t, d', t', offset, buf[..k]);
      SpoiltMissesNothing(d, t, d', t', offset, k);
      if d' == d {
        assert SpoiltAtMost(d, d', offset, k);
      }
    }
  }

  lemma SpanGrows(at: nat, k: nat, n: nat, m: nat, s: nat)
    requires k + n <= m
    requires SectorOf(at + k) <= s < SectorOf(at + k) + Span(at + k, n) ||
             SectorOf(at) <= s < SectorOf(at) + Span(at, k)
    ensures SectorOf(at) <= s < SectorOf(at) + Span(at, m)
  {
  }

  lemma SpoiltChain(d: seq<byte>, d1: seq<byte>, d2: seq<byte>, at: nat, k: nat, n: nat, m: nat)
    requires SpoiltAtMost(d, d1, at, k) && SpoiltAtMost(d1, d2, at + k, n) && k + n <= m
    ensures SpoiltAtMost(d, d2, at, m)
  {
    hide SectorOf, Span;
    forall i | 0 <= i < |d| && d2[i] != d[i] ensures SectorOf(at) <= SectorOf(i) < SectorOf(at) + Span(at, m) {
      if d1[i] != d[i] {
        assert SectorOf(at) <= SectorOf(i) < SectorOf(at) + Span(at, k);
      } else {
        assert SectorOf(at + k) <= SectorOf(i) < SectorOf(at + k) + Span(at + k, n);
      }
      SpanGrows(at, k, n, m, SectorOf(i));
    }
  }

  /** A part that fails after k bytes went through. */
  lemma WriteStops(d: seq<byte>, t: Tracker, d1: seq<byte>, t1: Tracker, d2: seq<byte>, t2: Tracker,
                   offset: int, buf: seq<byte>, k: nat, n: nat)
    requires Progress(d, t, d1, t1, offset, buf, k) && Spoilt(d1, t1, d2, t2, offset + k, n) && k + n <= |buf|
    ensures NothingMissed(d, t, d2, t2) && Confined(d, d2, offset, |buf|)
    ensures d2 == d1 ==> PrefixWritten(d, d2, offset, buf, k)
  {
    hide NothingMissed, Progress, Spoilt, Confined, PrefixWritten;
    ProgressMissesNothing(d, t, d1, t1, offset, buf, k);
    SpoiltMissesNothing(d1, t1, d2, t2, offset + k, n);
    MissesChain(d, t, d1, t1, d2, t2);
    StopConfined(d, t, d1, t1, d2, t2, offset, buf, k, n);
    if d2 == d1 {
      ProgressPrefix(d, t, d1, t1, offset, buf, k);
    }
  }

  lemma ProgressPrefix(d: seq<byte>, t: Tracker, d': seq<byte>, t': Tracker, offset: int, buf: seq<byte>, k: nat)
    requires Progress(d, t, d', t', offset, buf, k)
    ensures PrefixWritten(d, d', offset, buf, k)
  {
    hide Patch, Written;
  }

  /** What progress and a failure change lies in the sectors of the request. */
  lemma StopConfined(d: seq<byte>, t: Tracker, d1: seq<byte>, t1: Tracker, d2: seq<byte>, t2: Tracker,
                     offset: int, buf: seq<byte>, k: nat, n: nat)
    requires Progress(d, t, d1, t1, offset, buf, k) && Spoilt(d1, t1, d2, t2, offset + k, n) && k + n <= |buf|
    ensures Confined(d, d2, offset, |buf|)
  {
    ProgressMissesNothing(d, t, d1, t1, offset, buf, k);
    hide Written, Patch, SectorOf, Span, NothingMissed, SpoiltAtMost, Put;
    if k == 0 && (d2 == d1 || offset < 0) {
      return;
    }
    if k == 0 {
      NothingSpoilt(d, offset);
    }
    if d2 == d1 {
      NothingSpoilt(d1, offset + k);
      SpoiltChain(d, d1, d2, offset, k, 0, |buf|);
    } else {
      SpoiltChain(d, d1, d2, offset, k, n, |buf|);
    }
  }

  lemma NothingSpoilt(d: seq<byte>, at: nat)
    ensures SpoiltAtMost(d, d, at, 0)
  {
  }

  /** The bytes up to the next sector boundary, at most count. */
  function HeadLength(offset: int, count: nat): (r: nat) {
    var len := (SECTOR - offset) % SECTOR;
    if len > count then count else len
  }

  /** The arithmetic shift that gives the sector of an offset. */
  function SectorAt(offset: int): (r: int) {
    offset / SECTOR
  }

  function LowBits(offset: int): (r: nat) {
    offset % SECTOR
  }

  /** The number of whole sectors in n bytes. */
  function WholeSectors(n: nat): (r: nat) {
    n / SECTOR
  }

  lemma HeadAligns(offset: int, count: nat)
    ensures var len, sector, o := HeadLength(offset, count), SectorAt(offset), LowBits(offset);
            && len <= count && o + len <= SECTOR
            && SECTOR * sector + o == offset
            && (len < count && len > 0 ==> SECTOR * (sector + 1) == offset + len)
            && (len < count && len == 0 ==> o == 0)
  {
  }

  lemma WholeFits(n: nat)
    ensures SECTOR * WholeSectors(n) <= n < SECTOR * WholeSectors(n) + SECTOR
    ensures (SECTOR * WholeSectors(n)) % SECTOR == 0
  {
  }

  ghost predicate Atomic(w: World) {
    forall s :: w.torn(s) == []
  }

  lemma SectorsSpan(sector: nat, n: nat)
    requires n % SECTOR == 0 && n > 0
    ensures SectorOf(SECTOR * sector) == sector && Span(SECTOR * sector, n) == n / SECTOR
  {
  }

  /** Part of a sector spans that sector. */
  lemma SameSector(t: Tracker, sector: nat, o: nat, n: nat)
    requires o + n <= SECTOR && n > 0
    ensures SectorOf(SECTOR * sector + o) == SectorOf(SECTOR * sector) == sector
    ensures Span(SECTOR * sector + o, n) == Span(SECTOR * sector, SECTOR) == 1
    ensures Written(t, SECTOR * sector + o, n) == Written(t, SECTOR * sector, SECTOR)
  {
  }

  lemma SectorFits(sector: int, o: nat, n: nat, size: nat)
    requires size % SECTOR == 0 && o + n <= SECTOR && n > 0
    ensures SECTOR * sector + o + n <= size ==> SECTOR * (sector + 1) <= size
    ensures 0 <= SECTOR * sector + o ==> 0 <= sector
  {
  }
}
