/** Block migration end to end: the bytes that carry the blocks of a run, loaded into the receiver's
    disks. */
module BlockTransfer {
  import opened Wire
  import opened Patching
  import opened BlockMigration
  import opened BlockStream
  import RamStream

  // ------------------------------------------------------- disks as chunks

  /** Where chunk k of a disk ends. */
  function ChunkEnd(disk: seq<byte>, k: nat): (r: nat) {
    if |disk| < BLOCK * k + BLOCK then |disk| else BLOCK * k + BLOCK
  }

  function ChunkOf(disk: seq<byte>, k: nat): (bytes: seq<byte>)
    requires BLOCK * k <= |disk|
  {
    disk[BLOCK * k..ChunkEnd(disk, k)]
  }

  lemma FittingIs(disk: seq<byte>, k: nat)
    requires BLOCK * k <= |disk| && |disk| % SECTOR == 0
    ensures SECTOR * Fitting(disk, CHUNK_SECTORS * k) == ChunkEnd(disk, k) - BLOCK * k
    ensures 0 <= ChunkEnd(disk, k) - BLOCK * k <= BLOCK
  {
    assert SECTOR * (|disk| / SECTOR) == |disk|;
  }

  /** A stored block replaces its chunk and no other. */
  lemma StoreChunk(disk: seq<byte>, k: nat, buf: seq<byte>, j: nat)
    requires |buf| == BLOCK && BLOCK * k <= |disk| && BLOCK * j <= |disk| && |disk| % SECTOR == 0
    ensures var r := Store(disk, CHUNK_SECTORS * k, buf);
            ChunkOf(r, j) == if j == k then buf[..|ChunkOf(disk, k)|] else ChunkOf(disk, j)
  {
    FittingIs(disk, k);
    var n := ChunkEnd(disk, k) - BLOCK * k;
    var r := Store(disk, CHUNK_SECTORS * k, buf);
    assert r == Patch(disk, BLOCK * k, buf[..n]);
    hide Store, Fitting, Patch;
    var want := if j == k then buf[..n] else ChunkOf(disk, j);
    var have := ChunkOf(r, j);
    assert |have| == |want|;
    forall i | 0 <= i < |have| ensures have[i] == want[i] {
      PatchAt(disk, BLOCK * k, buf[..n], BLOCK * j + i);
    }
  }

  /** m lists the chunks of the disks. */
  ghost predicate Shows(disks: seq<seq<byte>>, m: map<Loc, Chunk>) {
    && (forall l :: l in m <==> Exists(disks, l))
    && (forall l :: l in m ==> m[l] == ChunkOf(disks[l.dev], l.chunk))
  }

  predicate Exists(disks: seq<seq<byte>>, l: Loc) {
    l.dev < |disks| && BLOCK * l.chunk < |disks[l.dev]|
  }

  function ChunkCount(disk: seq<byte>): (n: nat) { (|disk| + BLOCK - 1) / BLOCK }

  lemma ChunkExists(disk: seq<byte>, k: nat)
    ensures k < ChunkCount(disk) <==> BLOCK * k < |disk|
  {
  }

  lemma ChunkFits(disk: seq<byte>, k: nat)
    requires BLOCK * k < |disk|
    ensures 0 < |ChunkOf(disk, k)| <= CHUNK_BYTES
  {
  }

  /** Every collection of disks has a list of its chunks. */
  lemma DisksShow(disks: seq<seq<byte>>) returns (m: map<Loc, Chunk>)
    ensures Shows(disks, m)
  {
    var places := set d: nat, k: nat | d < |disks| && k < ChunkCount(disks[d]) :: Loc(d, k);
    forall l: Loc ensures l in places <==> Exists(disks, l) {
      if l.dev < |disks| {
        ChunkExists(disks[l.dev], l.chunk);
      }
      assert l == Loc(l.dev, l.chunk);
    }
    forall l: Loc | Exists(disks, l) ensures 0 < |ChunkOf(disks[l.dev], l.chunk)| <= CHUNK_BYTES {
      ChunkFits(disks[l.dev], l.chunk);
    }
    hide ChunkOf;
    m := map l: Loc | l in places :: ChunkOf(disks[l.dev], l.chunk);
  }

  /** The chunks of a disk determine it. */
  lemma ShowsSame(a: seq<seq<byte>>, b: seq<seq<byte>>, m: map<Loc, Chunk>)
    requires Shows(a, m) && Shows(b, m) && |a| == |b| && forall i :: 0 <= i < |a| ==> |a[i]| == |b[i]|
    ensures a == b
  {
    forall i | 0 <= i < |a| ensures a[i] == b[i] {
      forall x | 0 <= x < |a[i]| ensures a[i][x] == b[i][x] {
        var l := Loc(i, x / BLOCK);
        assert BLOCK * l.chunk <= x < BLOCK * l.chunk + BLOCK;
        assert l in m && ChunkOf(a[i], l.chunk) == ChunkOf(b[i], l.chunk);
        assert a[i][x] == ChunkOf(a[i], l.chunk)[x - BLOCK * l.chunk];
        assert b[i][x] == ChunkOf(b[i], l.chunk)[x - BLOCK * l.chunk];
      }
    }
  }

  // ------------------------------------------------------- records for blocks

  /** Device names that a receiver can tell apart, and disks whose sectors a word can number. */
  ghost predicate Known(d: Dest) {
    && ValidDest(d)
    && (forall i :: 0 <= i < |d.names| ==> |d.names[i]| < 256 && 0 !in d.names[i])
    && (forall i :: 0 <= i < |d.names| ==> RamStream.Find(d.names, d.names[i]) == Some(i))
    && (forall i :: 0 <= i < |d.disks| ==> |d.disks[i]| < WORD / 4)
  }

  /** blk_send: the chunk's first sector, the device's name, and a whole buffer that begins with the
      chunk's data. */
  predicate Carries(rec: Rec, names: seq<Id>, b: Blk) {
    && rec.DeviceBlock? && b.loc.dev < |names|
    && rec.sector == CHUNK_SECTORS * b.loc.chunk && rec.name == names[b.loc.dev]
    && |rec.buf| == BLOCK && |b.data| <= BLOCK && rec.buf[..|b.data|] == b.data
  }

  /** The device blocks among the records are blks, in order. */
  predicate Carried(recs: seq<Rec>, names: seq<Id>, blks: seq<Blk>) {
    if recs == [] then blks == []
    else if recs[0].DeviceBlock? then
      blks != [] && Carries(recs[0], names, blks[0]) && Carried(recs[1..], names, blks[1..])
    else (recs[0].Progress? ==> recs[0].percent <= 100) && Carried(recs[1..], names, blks)
  }

  lemma {:induction false} CarriedBlock(recs: seq<Rec>, names: seq<Id>, blks: seq<Blk>, rec: Rec, b: Blk)
    requires Carried(recs, names, blks) && Carries(rec, names, b)
    ensures Carried(recs + [rec], names, blks + [b])
    decreases |recs|
  {
    hide Carries;
    if recs == [] {
      assert recs + [rec] == [rec] && blks + [b] == [b] && [rec][1..] == [] && [b][1..] == [];
      CarriesDevice(rec, names, b);
    } else {
      assert (recs + [rec])[1..] == recs[1..] + [rec];
      if recs[0].DeviceBlock? {
        assert (blks + [b])[1..] == blks[1..] + [b];
        CarriedBlock(recs[1..], names, blks[1..], rec, b);
      } else {
        CarriedBlock(recs[1..], names, blks, rec, b);
      }
    }
  }

  lemma CarriesDevice(rec: Rec, names: seq<Id>, b: Blk)
    requires Carries(rec, names, b)
    ensures rec.DeviceBlock?
  {
  }

  lemma {:induction false} CarriedOther(recs: seq<Rec>, names: seq<Id>, blks: seq<Blk>, rec: Rec)
    requires Carried(recs, names, blks) && !rec.DeviceBlock? && (rec.Progress? ==> rec.percent <= 100)
    ensures Carried(recs + [rec], names, blks)
    decreases |recs|
  {
    hide Carries;
    if recs == [] {
      assert recs + [rec] == [rec] && [rec][1..] == [];
    } else {
      assert (recs + [rec])[1..] == recs[1..] + [rec];
      CarriedOther(recs[1..], names, if recs[0].DeviceBlock? then blks[1..] else blks, rec);
    }
  }

  /** The receiver's chunks after a list of blocks. */
  function ApplyBlks(m: map<Loc, Chunk>, blks: seq<Blk>): (m': map<Loc, Chunk>)
    decreases |blks|
  {
    if blks == [] then m else ApplyBlks(m[blks[0].loc := blks[0].data], blks[1..])
  }

  /** Every block is for a chunk of m and as long as it. */
  ghost predicate Sized(m: map<Loc, Chunk>, blks: seq<Blk>) {
    forall i :: 0 <= i < |blks| ==> blks[i].loc in m && |blks[i].data| == |m[blks[i].loc]|
  }

  lemma BlockShows(rec: Rec, d: Dest, m: map<Loc, Chunk>, b: Blk)
    requires Known(d) && Shows(d.disks, m) && Carries(rec, d.names, b)
    requires b.loc in m && |b.data| == |m[b.loc]|
    ensures Accepts(rec, d)
    ensures var d' := Apply(rec, d);
            && Known(d') && d'.names == d.names && Shows(d'.disks, m[b.loc := b.data])
            && forall i :: 0 <= i < |d.disks| ==> |d'.disks[i]| == |d.disks[i]|
  {
    var dev := b.loc.dev;
    assert Exists(d.disks, b.loc);
    assert SECTOR * rec.sector == BLOCK * b.loc.chunk;
    var d' := Apply(rec, d);
    hide Store, ChunkOf;
    assert d'.disks == d.disks[dev := Store(d.disks[dev], CHUNK_SECTORS * b.loc.chunk, rec.buf)];
    var m' := m[b.loc := b.data];
    forall l | l in m' ensures Exists(d'.disks, l) && m'[l] == ChunkOf(d'.disks[l.dev], l.chunk) {
      assert Exists(d.disks, l);
      if l.dev == dev {
        StoreChunk(d.disks[dev], b.loc.chunk, rec.buf, l.chunk);
        assert l.chunk == b.loc.chunk ==> l == b.loc;
      }
    }
    forall l | Exists(d'.disks, l) ensures l in m' {
      assert Exists(d.disks, l);
    }
  }

  lemma {:induction false} ReplayShows(recs: seq<Rec>, blks: seq<Blk>, d: Dest, m: map<Loc, Chunk>)
    requires Known(d) && Shows(d.disks, m) && Carried(recs, d.names, blks) && Sized(m, blks)
    ensures var r := Replay(recs, d);
            && r.Some? && |r.value.disks| == |d.disks| && Shows(r.value.disks, ApplyBlks(m, blks))
            && forall i :: 0 <= i < |d.disks| ==> |r.value.disks[i]| == |d.disks[i]|
    decreases |recs|
  {
    if recs != [] {
      hide Known, Shows, Accepts, Apply, Carries;
      if recs[0].DeviceBlock? {
        BlockShows(recs[0], d, m, blks[0]);
        var m' := m[blks[0].loc := blks[0].data];
        assert Sized(m', blks[1..]);
        ReplayShows(recs[1..], blks[1..], Apply(recs[0], d), m');
      } else {
        OtherRecord(recs[0], d);
        ReplayShows(recs[1..], blks, d, m);
      }
    }
  }

  lemma OtherRecord(rec: Rec, d: Dest)
    requires ValidDest(d) && !rec.DeviceBlock? && (rec.Progress? ==> rec.percent <= 100)
    ensures Accepts(rec, d) && Apply(rec, d) == d
  {
  }

  // ------------------------------------------------------- the blocks of a run

  /** The blocks that the queue sends during a run. */
  function Sends(s: State, es: seq<Event>): (blks: seq<Blk>)
    requires After(s, es).Some?
    decreases |es|
  {
    if es == [] then []
    else (if es[0].SendQueued? then [s.queue[0]] else []) + Sends(Next(s, es[0]), es[1..])
  }

  lemma {:induction false} SendsOn(s: State, es: seq<Event>, fs: seq<Event>)
    requires After(s, es).Some? && After(After(s, es).value, fs).Some?
    ensures After(s, es + fs) == After(After(s, es).value, fs)
    ensures Sends(s, es + fs) == Sends(s, es) + Sends(After(s, es).value, fs)
    decreases |es|
  {
    if es == [] {
      assert es + fs == fs;
    } else {
      assert (es + fs)[1..] == es[1..] + fs;
      SendsOn(Next(s, es[0]), es[1..], fs);
    }
  }

  /** What the receiver holds is what the blocks sent so far make of what it held. */
  lemma {:induction false} RunSends(s: State, es: seq<Event>)
    requires After(s, es).Some?
    ensures After(s, es).value.dst == ApplyBlks(s.dst, Sends(s, es))
    decreases |es|
  {
    if es != [] {
      RunSends(Next(s, es[0]), es[1..]);
      var more := Sends(Next(s, es[0]), es[1..]);
      if es[0].SendQueued? {
        assert Sends(s, es)[1..] == more;
      } else {
        assert Sends(s, es) == more;
      }
    }
  }

  /** The synchronous pass: each dirty chunk, in any order, with its present contents. */
  ghost predicate ListsDirty(r: State, fin: seq<Blk>) {
    && (forall i :: 0 <= i < |fin| ==> fin[i].loc in r.dirty && fin[i].loc in r.src && fin[i].data == r.src[fin[i].loc])
    && (forall l :: l in r.dirty ==> Listed(fin, l))
  }

  ghost predicate Listed(fin: seq<Blk>, l: Loc) {
    exists i :: 0 <= i < |fin| && fin[i].loc == l
  }

  lemma {:induction false} ApplyListed(m: map<Loc, Chunk>, fin: seq<Blk>, src: map<Loc, Chunk>, l: Loc)
    requires forall i :: 0 <= i < |fin| ==> fin[i].loc in src && fin[i].data == src[fin[i].loc]
    requires l in m && forall i :: 0 <= i < |fin| ==> fin[i].loc in m
    ensures ApplyBlks(m, fin).Keys == m.Keys
    ensures ApplyBlks(m, fin)[l] == if Listed(fin, l) then src[l] else m[l]
    decreases |fin|
  {
    if fin != [] {
      var m' := m[fin[0].loc := fin[0].data];
      assert m'.Keys == m.Keys;
      ApplyListed(m', fin[1..], src, l);
      ListedFront(fin, l);
    }
  }

  lemma ListedFront(fin: seq<Blk>, l: Loc)
    requires fin != []
    ensures Listed(fin, l) <==> fin[0].loc == l || Listed(fin[1..], l)
  {
    var rest := fin[1..];
    if Listed(fin, l) && fin[0].loc != l {
      var i :| 0 <= i < |fin| && fin[i].loc == l;
      assert rest[i - 1] == fin[i];
    }
    if Listed(rest, l) {
      var i :| 0 <= i < |rest| && rest[i].loc == l;
      assert fin[i + 1] == rest[i];
    }
  }

  lemma FinalSends(r: State, fin: seq<Blk>)
    requires Valid(r) && ListsDirty(r, fin)
    ensures ApplyBlks(r.dst, fin) == FinalPass(r).dst
  {
    assert fin == [] || fin[0].loc in r.src.Keys;
    forall l | l in r.dst
      ensures ApplyBlks(r.dst, fin).Keys == r.dst.Keys && ApplyBlks(r.dst, fin)[l] == FinalPass(r).dst[l]
    {
      ApplyListed(r.dst, fin, r.src, l);
      if Listed(fin, l) {
        var i :| 0 <= i < |fin| && fin[i].loc == l;
      }
    }
    assert ApplyBlks(r.dst, fin).Keys == r.dst.Keys;
  }

  lemma {:induction false} ApplyAppend(m: map<Loc, Chunk>, a: seq<Blk>, b: seq<Blk>)
    ensures ApplyBlks(m, a + b) == ApplyBlks(ApplyBlks(m, a), b)
    decreases |a|
  {
    if a == [] {
      assert a + b == b;
    } else {
      assert (a + b)[1..] == a[1..] + b;
      ApplyAppend(m[a[0].loc := a[0].data], a[1..], b);
    }
  }

  // ------------------------------------------------------- sizes

  ghost predicate StateSized(m0: map<Loc, Chunk>, s: State) {
    && s.src.Keys == m0.Keys && (forall l :: l in m0 ==> |s.src[l]| == |m0[l]|)
    && Sized(m0, s.queue)
  }

  lemma StepSized(m0: map<Loc, Chunk>, s: State, e: Event)
    requires StateSized(m0, s) && EventSized(m0, s, e) && Enabled(s, e)
    ensures StateSized(m0, Next(s, e))
  {
    match e
    case WriteEffect(_, loc, data) => assert Next(s, e).src.Keys == s.src.Keys;
    case _ =>
  }

  lemma {:induction false} SendsSized(m0: map<Loc, Chunk>, s: State, es: seq<Event>)
    requires StateSized(m0, s) && RunSized(m0, s, es) && After(s, es).Some?
    ensures Sized(m0, Sends(s, es)) && StateSized(m0, After(s, es).value)
    decreases |es|
  {
    if es != [] {
      StepSized(m0, s, es[0]);
      SendsSized(m0, Next(s, es[0]), es[1..]);
    }
  }

  /** The byte stream of a whole migration.  Whatever the guest wrote and whatever the receiver's disks
      held: if the run's reads complete benignly and its queue is drained, the bytes that carry the
      blocks it sent and then each dirty chunk, cut into any sections, make block_load use them all
      and leave the sender's disks at the receiver. */
  lemma StreamComplete(s: State, es: seq<Event>, fin: seq<Blk>, recs: seq<Rec>, d0: Dest, disks: seq<seq<byte>>)
    requires Started(s) && Orderly(s, es) && After(s, es).Some?
    requires var r := After(s, es).value; Stopped(r) && r.queue == [] && ListsDirty(r, fin) && Shows(disks, r.src)
    requires StateSized(s.dst, s) && RunSized(s.dst, s, es)
    requires Known(d0) && Shows(d0.disks, s.dst) && Carried(recs, d0.names, Sends(s, es) + fin)
    requires recs == [] || recs[|recs| - 1].Eos?
    requires |disks| == |d0.disks| && forall i :: 0 <= i < |disks| ==> |disks[i]| == |d0.disks[i]|
    ensures forall i :: 0 <= i < |recs| ==> Encodable(recs[i])
    ensures LoadSections(EncodeAll(recs), d0) == Loaded(d0.(disks := disks), [], true)
  {
    var r := After(s, es).value;
    hide Shows, Known, Carried, Orderly, Started, RunSized, LoadSections, EncodeAll;
    MigrationComplete(s, es);
    SendsSized(s.dst, s, es);
    var blks := Sends(s, es) + fin;
    assert Sized(s.dst, blks);
    RunSends(s, es);
    FinalSends(r, fin);
    ApplyAppend(s.dst, Sends(s, es), fin);
    ReplayShows(recs, blks, d0, s.dst);
    var d := Replay(recs, d0).value;
    ShowsSame(d.disks, disks, r.src);
    SectionsRoundTrip(recs, d0);
    ReplayNames(recs, d0);
  }

  lemma {:induction false} ReplayNames(recs: seq<Rec>, d: Dest)
    requires ValidDest(d) && Replay(recs, d).Some?
    ensures Replay(recs, d).value.names == d.names
    decreases |recs|
  {
    if recs != [] {
      ReplayNames(recs[1..], Apply(recs[0], d));
    }
  }
}
