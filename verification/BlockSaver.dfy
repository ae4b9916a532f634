/** The sender's code of block migration: cursors, bitmaps and counters of block-migration.c. */
module BlockSaver {
  import opened Wire
  import opened BlockMigration
  import BlockStream
  import BlockTransfer
  import DirtyBitmap

  /** The dirty bitmap, the protocol and the stream count the same chunks. */
  lemma ChunkSizes()
    ensures DirtyBitmap.CHUNK == BlockStream.CHUNK_SECTORS
    ensures BlockStream.SECTOR * BlockStream.CHUNK_SECTORS == BlockStream.BLOCK == CHUNK_BYTES
  {
  }

  /** A guest write that the driver has accepted and not completed. */
  datatype GuestWrite = GuestWrite(dev: nat, sector: nat, nb: nat)

  /** The chunks that a guest write marks when it completes. */
  function Touched(g: GuestWrite): (r: set<Loc>) {
    set c | c in DirtyBitmap.Chunks(g.sector, g.nb) :: Loc(g.dev, c)
  }

  function TouchedBelow(g: GuestWrite, k: nat): (r: set<Loc>) {
    set c | c in DirtyBitmap.ChunksBelow(g.sector, k) :: Loc(g.dev, c)
  }

  lemma TouchedStep(g: GuestWrite, k: nat)
    requires DirtyBitmap.Chunk(g.sector) <= k
    ensures TouchedBelow(g, k + 1) == TouchedBelow(g, k) + {Loc(g.dev, k)}
  {
    hide DirtyBitmap.ChunksBelow;
    DirtyBitmap.ChunksStep(g.sector, k);
  }

  lemma TouchedEnds(g: GuestWrite)
    ensures DirtyBitmap.Chunk(g.sector) <= DirtyBitmap.LastChunk(g.sector, g.nb) + 1
    ensures TouchedBelow(g, DirtyBitmap.Chunk(g.sector)) == {}
    ensures TouchedBelow(g, DirtyBitmap.LastChunk(g.sector, g.nb) + 1) == Touched(g)
  {
    DirtyBitmap.MarkAllChunks(DirtyBitmap.Untracked(), g.sector, g.nb, true);
    assert DirtyBitmap.ChunksBelow(g.sector, DirtyBitmap.Chunk(g.sector)) == {};
  }

  /** A write that is not empty touches exactly the chunks of its sectors. */
  lemma TouchedMeans(g: GuestWrite, l: Loc)
    requires g.nb > 0
    ensures l in Touched(g) <==>
            l.dev == g.dev && exists s :: g.sector <= s < g.sector + g.nb && DirtyBitmap.Chunk(s) == l.chunk
  {
    hide DirtyBitmap.Chunks;
    DirtyBitmap.ChunksCover(g.sector, g.nb, l.chunk);
    assert l in Touched(g) <==> l.dev == g.dev && l.chunk in DirtyBitmap.Chunks(g.sector, g.nb);
  }

  /** From dirty set d to d', the chunks of g's sectors have been marked, and only they. */
  ghost predicate MarksWritten(g: GuestWrite, d: set<Loc>, d': set<Loc>) {
    && (forall s :: g.sector <= s < g.sector + g.nb ==> Loc(g.dev, DirtyBitmap.Chunk(s)) in d')
    && (forall l :: l in d ==> l in d')
    && (forall l :: l in d' && l !in d && g.nb > 0 ==>
          l.dev == g.dev && exists s :: g.sector <= s < g.sector + g.nb && DirtyBitmap.Chunk(s) == l.chunk)
  }

  lemma TouchedMarks(g: GuestWrite, d: set<Loc>)
    ensures MarksWritten(g, d, d + Touched(g))
  {
    hide Touched, DirtyBitmap.Chunk;
    forall s | g.sector <= s < g.sector + g.nb ensures Loc(g.dev, DirtyBitmap.Chunk(s)) in Touched(g) {
      TouchedMeans(g, Loc(g.dev, DirtyBitmap.Chunk(s)));
    }
    forall l | l in Touched(g) && g.nb > 0
      ensures l.dev == g.dev && exists s :: g.sector <= s < g.sector + g.nb && DirtyBitmap.Chunk(s) == l.chunk
    {
      TouchedMeans(g, l);
    }
  }

  /** The outstanding writes of the protocol are those of the guest. */
  ghost predicate Stands(guest: seq<GuestWrite>, writes: seq<set<Loc>>) {
    |guest| == |writes| && forall w :: 0 <= w < |guest| ==> writes[w] == Touched(guest[w])
  }

  lemma StandsRemove(guest: seq<GuestWrite>, writes: seq<set<Loc>>, w: nat)
    requires Stands(guest, writes) && w < |guest|
    ensures Stands(Remove(guest, w), Remove(writes, w))
  {
    hide Touched;
  }

  lemma StandsAppend(guest: seq<GuestWrite>, writes: seq<set<Loc>>, g: GuestWrite)
    requires Stands(guest, writes)
    ensures Stands(guest + [g], writes + [Touched(g)])
  {
    hide Touched;
  }

  /** es leads from s to r, with benign completions and whole chunks only, and the blocks it sends take
      the log of what has been sent from log to log'. */
  ghost predicate Leads(s: State, es: seq<Event>, r: State, log: seq<Blk>, log': seq<Blk>) {
    && Orderly(s, es) && RunSized(s.src, s, es) && After(s, es) == Some(r)
    && log' == log + BlockTransfer.Sends(s, es)
  }

  lemma LeadsNowhere(s: State, log: seq<Blk>)
    ensures Leads(s, [], s, log, log)
  {
  }

  /** The log after an event. */
  function Logged(log: seq<Blk>, s: State, e: Event): (r: seq<Blk>) {
    if e.SendQueued? && s.queue != [] then log + [s.queue[0]] else log
  }

  lemma LeadsOn(s: State, es: seq<Event>, r: State, e: Event, log: seq<Blk>, log': seq<Blk>)
    requires Leads(s, es, r, log, log') && Legal(r, e) && EventSized(r.src, r, e)
    ensures Leads(s, es + [e], Next(r, e), log, Logged(log', r, e))
  {
    LeadsOne(r, e, log');
    LeadsFurther(s, es, r, [e], Next(r, e), log, log', Logged(log', r, e));
  }

  lemma LeadsOne(s: State, e: Event, log: seq<Blk>)
    requires Legal(s, e) && EventSized(s.src, s, e)
    ensures Leads(s, [e], Next(s, e), log, Logged(log, s, e))
  {
    assert [e][1..] == [] && Orderly(Next(s, e), []) && After(Next(s, e), []) == Some(Next(s, e));
    assert BlockTransfer.Sends(Next(s, e), []) == [];
  }

  lemma LeadsFurther(s: State, es: seq<Event>, r: State, fs: seq<Event>, t: State,
                     log: seq<Blk>, log': seq<Blk>, log'': seq<Blk>)
    requires Leads(s, es, r, log, log') && Leads(r, fs, t, log', log'')
    ensures Leads(s, es + fs, t, log, log'')
  {
    BlockTransfer.SendsOn(s, es, fs);
    SizesStay(s.src, s, es);
    SizesSwap(r.src, s.src, r, fs);
    OrderlyOn(s.src, s, es, fs);
  }

  lemma {:induction false} OrderlyOn(m0: map<Loc, Chunk>, s: State, es: seq<Event>, fs: seq<Event>)
    requires Orderly(s, es) && RunSized(m0, s, es) && After(s, es).Some?
    requires Orderly(After(s, es).value, fs) && RunSized(m0, After(s, es).value, fs)
    ensures Orderly(s, es + fs) && RunSized(m0, s, es + fs)
    decreases |es|
  {
    if es == [] {
      assert es + fs == fs;
    } else {
      assert (es + fs)[1..] == es[1..] + fs;
      OrderlyOn(m0, Next(s, es[0]), es[1..], fs);
    }
  }

  /** A run with whole chunks keeps the sizes of the source's chunks. */
  lemma {:induction false} SizesStay(m0: map<Loc, Chunk>, s: State, es: seq<Event>)
    requires SameSizes(m0, s.src) && RunSized(m0, s, es) && After(s, es).Some?
    ensures SameSizes(m0, After(s, es).value.src)
    decreases |es|
  {
    if es != [] {
      assert Next(s, es[0]).src.Keys == s.src.Keys;
      SizesStay(m0, Next(s, es[0]), es[1..]);
    }
  }

  lemma {:induction false} SizesSwap(m0: map<Loc, Chunk>, m1: map<Loc, Chunk>, s: State, es: seq<Event>)
    requires SameSizes(m0, m1) && RunSized(m0, s, es)
    ensures RunSized(m1, s, es)
    decreases |es|
  {
    if es != [] && Enabled(s, es[0]) {
      SizesSwap(m0, m1, Next(s, es[0]), es[1..]);
    }
  }

  lemma LeadsKeepsInv(s: State, es: seq<Event>, r: State, log: seq<Blk>, log': seq<Blk>)
    requires Leads(s, es, r, log, log') && Inv(s)
    ensures Inv(r)
  {
    RunKeepsInv(s, es);
  }

  lemma StartedHasInv(s: State)
    requires Started(s)
    ensures Inv(s)
  {
  }

  lemma FinalSource(s: State)
    requires BlockMigration.Valid(s)
    ensures FinalPass(s).src == s.src
  {
  }

  function Locs(chunks: seq<nat>): (r: set<Loc>) {
    set d: nat, k: nat | d < |chunks| && k < chunks[d] :: Loc(d, k)
  }

  /** The chunks that a cursor per device has gone over. */
  function Below(chunks: seq<nat>, cursor: seq<nat>): (r: set<Loc>)
    requires |cursor| == |chunks|
  {
    set l | l in Locs(chunks) && Passed(cursor, l)
  }

  predicate Passed(cursor: seq<nat>, l: Loc) {
    l.dev < |cursor| && l.chunk < cursor[l.dev]
  }

  lemma BelowNext(chunks: seq<nat>, cursor: seq<nat>, d: nat)
    requires |cursor| == |chunks| && d < |chunks| && cursor[d] < chunks[d]
    ensures Below(chunks, cursor[d := cursor[d] + 1]) == Below(chunks, cursor) + {Loc(d, cursor[d])}
  {
  }

  ghost predicate Flying(flights: seq<Flight>, l: Loc) {
    exists i :: 0 <= i < |flights| && flights[i].loc == l
  }

  /** A set bit of the in-flight bitmap has a read in flight. */
  ghost predicate Flagged(aio: set<Loc>, flights: seq<Flight>) {
    forall l :: l in aio ==> Flying(flights, l)
  }

  lemma FlaggedRemove(aio: set<Loc>, flights: seq<Flight>, i: nat)
    requires i < |flights| && Flagged(aio, flights)
    ensures Flagged(aio - {flights[i].loc}, Remove(flights, i))
  {
    forall l | l in aio && l != flights[i].loc ensures Flying(Remove(flights, i), l) {
      assert Flying(flights, l);
      var k :| 0 <= k < |flights| && flights[k].loc == l;
      assert Remove(flights, i)[if k < i then k else k - 1] == flights[k];
    }
  }

  lemma FlaggedDisturb(aio: set<Loc>, flights: seq<Flight>, loc: Loc)
    ensures Flagged(aio, flights) ==> Flagged(aio, Disturb(flights, loc))
    ensures Solo(aio, flights) ==> Solo(aio, Disturb(flights, loc))
  {
    if Flagged(aio, flights) {
      forall l | l in aio ensures Flying(Disturb(flights, loc), l) {
        assert Flying(flights, l);
        var k :| 0 <= k < |flights| && flights[k].loc == l;
        assert Disturb(flights, loc)[k].loc == l;
      }
    }
  }

  lemma FlaggedAppend(aio: set<Loc>, flights: seq<Flight>, f: Flight)
    requires Flagged(aio, flights)
    ensures Flagged(aio + {f.loc}, flights + [f]) && Flagged(aio, flights + [f])
  {
    forall l | l in aio + {f.loc} ensures Flying(flights + [f], l) {
      if l in aio {
        assert Flying(flights, l);
        var k :| 0 <= k < |flights| && flights[k].loc == l;
        assert (flights + [f])[k] == flights[k];
      } else {
        assert (flights + [f])[|flights|] == f;
      }
    }
  }

  lemma NothingFlies(aio: set<Loc>)
    requires Flagged(aio, [])
    ensures aio == {} && Solo(aio, [])
  {
    forall l ensures l !in aio {
      assert !Flying([], l);
    }
  }

  lemma FlightInSource(s: State, i: nat)
    requires BlockMigration.Valid(s) && i < |s.flights|
    ensures s.flights[i].loc in s.src
  {
  }

  /** Every read in flight has its bit set, and no two are of the same chunk. */
  ghost predicate Solo(aio: set<Loc>, flights: seq<Flight>) {
    && (forall i :: 0 <= i < |flights| ==> flights[i].loc in aio)
    && (forall i, j :: 0 <= i < j < |flights| ==> flights[i].loc != flights[j].loc)
  }

  /** Then every completion is benign, in whatever order the reads complete. */
  lemma SoloIsLegal(s: State, aio: set<Loc>, i: nat, data: Chunk)
    requires Solo(aio, s.flights) && Enabled(s, ReadComplete(i, data))
    ensures Legal(s, ReadComplete(i, data))
  {
    InOrderIsBenign(s, i);
  }

  lemma SoloRemove(aio: set<Loc>, flights: seq<Flight>, i: nat)
    requires i < |flights| && Solo(aio, flights)
    ensures Solo(aio - {flights[i].loc}, Remove(flights, i))
  {
    var r := Remove(flights, i);
    forall k | 0 <= k < |r| ensures r[k].loc in aio && r[k].loc != flights[i].loc {
      assert r[k] == flights[if k < i then k else k + 1];
    }
    forall j, k | 0 <= j < k < |r| ensures r[j].loc != r[k].loc {
      assert r[j] == flights[if j < i then j else j + 1] && r[k] == flights[if k < i then k else k + 1];
    }
  }

  lemma SoloAppend(aio: set<Loc>, flights: seq<Flight>, f: Flight)
    requires Solo(aio, flights) && f.loc !in aio
    ensures Solo(aio + {f.loc}, flights + [f])
  {
  }

  predicate Idle(s: State) {
    s.flights == [] && s.writes == []
  }

  /** Everything that the dirty cursors have gone over is clean. */
  ghost predicate CleanBelow(cursor: seq<nat>, dirty: set<Loc>) {
    forall l :: l in dirty ==> l.dev < |cursor| && cursor[l.dev] <= l.chunk
  }

  lemma CleanAdvance(cursor: seq<nat>, dirty: set<Loc>, d: nat)
    requires d < |cursor| && Loc(d, cursor[d]) !in dirty
    ensures CleanBelow(cursor, dirty) ==> CleanBelow(cursor[d := cursor[d] + 1], dirty)
  {
    forall l | l in dirty ensures l != Loc(d, cursor[d]) && l == Loc(l.dev, l.chunk) {}
  }

  lemma CleanLess(cursor: seq<nat>, dirty: set<Loc>, loc: Loc)
    ensures CleanBelow(cursor, dirty) ==> CleanBelow(cursor, dirty - {loc})
  {
  }

  lemma DirtyInLocs(chunks: seq<nat>, s: State)
    requires BlockMigration.Valid(s) && s.src.Keys == Locs(chunks)
    ensures s.dirty <= Locs(chunks)
  {
  }

  lemma CleanAtEnd(chunks: seq<nat>, cursor: seq<nat>, dirty: set<Loc>)
    requires |cursor| == |chunks| && CleanBelow(cursor, dirty) && dirty <= Locs(chunks)
    requires forall d :: 0 <= d < |chunks| ==> cursor[d] >= chunks[d]
    ensures dirty == {}
  {
  }

  /** The synchronous branch of mig_save_device_dirty: reads the chunk and sends it at once. */
  function SendNow(s: State, loc: Loc): (r: State)
    requires loc in s.src
  {
    s.(dst := s.dst[loc := s.src[loc]], dirty := s.dirty - {loc})
  }

  lemma DirtyInSource(s: State, loc: Loc)
    requires BlockMigration.Valid(s) && loc in s.dirty
    ensures loc in s.src && BlockMigration.Valid(SendNow(s, loc))
  {
  }

  /** The receiver once the dirty chunks of s outside left have been sent. */
  function SyncedTo(s: State, left: set<Loc>): (r: State)
    requires s.src.Keys == s.dst.Keys
  {
    s.(dst := map loc | loc in s.dst :: if loc in s.dirty && loc !in left then s.src[loc] else s.dst[loc],
       dirty := left)
  }

  lemma SyncedOne(s: State, left: set<Loc>, loc: Loc)
    requires s.src.Keys == s.dst.Keys && left <= s.dirty && loc in left && loc in s.src
    ensures SendNow(SyncedTo(s, left), loc) == SyncedTo(s, left - {loc})
    ensures |left - {loc}| < |left|
  {
    assert SendNow(SyncedTo(s, left), loc).dst == SyncedTo(s, left - {loc}).dst;
  }

  lemma SyncedNone(s: State)
    requires s.src.Keys == s.dst.Keys
    ensures SyncedTo(s, s.dirty) == s
    ensures SyncedTo(s, {}).(queue := []) == FinalPass(s)
  {
    assert SyncedTo(s, s.dirty).dst == s.dst;
    assert SyncedTo(s, {}).dst == FinalPass(s).dst;
  }

  /** fin lists, with their contents, dirty chunks of s, and all those that are not left. */
  ghost predicate SentDirty(s: State, left: set<Loc>, fin: seq<Blk>) {
    && (forall i :: 0 <= i < |fin| ==> fin[i].loc in s.dirty && fin[i].loc in s.src && fin[i].data == s.src[fin[i].loc])
    && (forall l :: l in s.dirty && l !in left ==> BlockTransfer.Listed(fin, l))
  }

  lemma SentDirtyOne(s: State, left: set<Loc>, fin: seq<Blk>, loc: Loc)
    requires SentDirty(s, left, fin) && loc in s.dirty && loc in s.src
    ensures SentDirty(s, left - {loc}, fin + [Blk(loc, s.src[loc])])
  {
    var more := fin + [Blk(loc, s.src[loc])];
    forall l | l in s.dirty && l !in left - {loc} ensures BlockTransfer.Listed(more, l) {
      if l == loc {
        assert more[|fin|].loc == l;
      } else {
        assert BlockTransfer.Listed(fin, l);
        var i :| 0 <= i < |fin| && fin[i].loc == l;
        assert more[i].loc == l;
      }
    }
  }

  lemma SentDirtyAll(s: State, fin: seq<Blk>)
    requires SentDirty(s, {}, fin)
    ensures BlockTransfer.ListsDirty(s, fin)
  {
    forall l | l in s.dirty ensures BlockTransfer.Listed(fin, l) {}
  }

  /** From s0 on, only dirty chunks have been sent, fin, and the cursors have passed no dirty chunk. */
  ghost predicate Draining(s0: State, s: State, cursor: seq<nat>, sent: seq<Blk>, log: seq<Blk>, fin: seq<Blk>) {
    && s0.src.Keys == s0.dst.Keys && s.dirty <= s0.dirty <= s0.src.Keys && s == SyncedTo(s0, s.dirty)
    && CleanBelow(cursor, s.dirty) && sent == log + fin && SentDirty(s0, s.dirty, fin)
  }

  lemma DrainingIs(s0: State, s: State, cursor: seq<nat>, sent: seq<Blk>, log: seq<Blk>, fin: seq<Blk>)
    requires Draining(s0, s, cursor, sent, log, fin)
    ensures CleanBelow(cursor, s.dirty) && s.src == s0.src
  {
  }

  lemma DrainStarts(chunks: seq<nat>, s: State, cursor: seq<nat>, sent: seq<Blk>)
    requires BlockMigration.Valid(s) && s.src.Keys == Locs(chunks)
    requires |cursor| == |chunks| && forall d :: 0 <= d < |cursor| ==> cursor[d] == 0
    ensures Draining(s, s, cursor, sent, sent, [])
  {
    SyncedNone(s);
    assert sent + [] == sent;
    forall l | l in s.dirty ensures l.dev < |cursor| && cursor[l.dev] <= l.chunk {
      assert l in Locs(chunks);
    }
  }

  lemma DrainStep(s0: State, s: State, s': State, cursor: seq<nat>, cursor': seq<nat>, sent: seq<Blk>, sent': seq<Blk>,
                  log: seq<Blk>, fin: seq<Blk>, loc: Loc)
    requires Draining(s0, s, cursor, sent, log, fin) && loc in s.dirty && loc in s.src && s' == SendNow(s, loc)
    requires sent' == sent + [Blk(loc, s.src[loc])] && CleanBelow(cursor', s'.dirty)
    ensures loc in s0.src && Draining(s0, s', cursor', sent', log, fin + [Blk(loc, s0.src[loc])])
    ensures |s'.dirty| < |s.dirty|
  {
    SyncedOne(s0, s.dirty, loc);
    SentDirtyOne(s0, s.dirty, fin, loc);
    hide SentDirty, CleanBelow, SyncedTo;
    assert s.src == s0.src by { DrainingIs(s0, s, cursor, sent, log, fin); }
    assert sent' == log + (fin + [Blk(loc, s0.src[loc])]);
  }

  lemma DrainKeeps(s0: State, s: State, cursor: seq<nat>, cursor': seq<nat>, sent: seq<Blk>, log: seq<Blk>,
                   fin: seq<Blk>)
    requires Draining(s0, s, cursor, sent, log, fin) && CleanBelow(cursor', s.dirty)
    ensures Draining(s0, s, cursor', sent, log, fin)
  {
  }

  lemma DrainEnds(s0: State, s: State, cursor: seq<nat>, sent: seq<Blk>, log: seq<Blk>, fin: seq<Blk>)
    requires Draining(s0, s, cursor, sent, log, fin) && s.dirty == {}
    ensures s == SyncedTo(s0, {}) && sent == log + fin && BlockTransfer.ListsDirty(s0, fin)
  {
    SentDirtyAll(s0, fin);
    hide SentDirty, CleanBelow, BlockTransfer.ListsDirty;
  }

  /** The chunk was clean at some moment of the run. */
  ghost predicate SeenClean(s: State, es: seq<Event>, l: Loc) {
    exists n :: 0 <= n <= |es| && After(s, es[..n]).Some? && l !in After(s, es[..n]).value.dirty
  }

  /** So was every chunk of device d from lo up to hi. */
  ghost predicate AllSeenClean(s: State, es: seq<Event>, d: nat, lo: nat, hi: nat) {
    forall k :: lo <= k < hi ==> SeenClean(s, es, Loc(d, k))
  }

  lemma SeenLater(s: State, es: seq<Event>, fs: seq<Event>, d: nat, lo: nat, hi: nat)
    requires AllSeenClean(s, es, d, lo, hi)
    ensures AllSeenClean(s, es + fs, d, lo, hi)
  {
    forall k | lo <= k < hi ensures SeenClean(s, es + fs, Loc(d, k)) {
      assert SeenClean(s, es, Loc(d, k));
      var n :| 0 <= n <= |es| && After(s, es[..n]).Some? && Loc(d, k) !in After(s, es[..n]).value.dirty;
      assert (es + fs)[..n] == es[..n];
    }
  }

  lemma SeenNothing(s: State, es: seq<Event>, d: nat, lo: nat)
    ensures AllSeenClean(s, es, d, lo, lo)
  {
  }

  lemma SeenNow(s: State, es: seq<Event>, r: State, log: seq<Blk>, log': seq<Blk>, d: nat, lo: nat, hi: nat)
    requires AllSeenClean(s, es, d, lo, hi) && Leads(s, es, r, log, log') && Loc(d, hi) !in r.dirty
    ensures AllSeenClean(s, es, d, lo, hi + 1)
  {
    assert es[..|es|] == es;
    assert SeenClean(s, es, Loc(d, hi));
    hide SeenClean;
  }

  /** Every chunk that the cursors have gone over from lo to hi was clean at some moment of the run. */
  ghost predicate SeenBelow(s: State, es: seq<Event>, lo: seq<nat>, hi: seq<nat>) {
    |lo| == |hi| && forall d :: 0 <= d < |lo| ==> AllSeenClean(s, es, d, lo[d], hi[d])
  }

  lemma SeenNowhere(s: State, es: seq<Event>, lo: seq<nat>)
    ensures SeenBelow(s, es, lo, lo)
  {
    forall d | 0 <= d < |lo| ensures AllSeenClean(s, es, d, lo[d], lo[d]) {
      SeenNothing(s, es, d, lo[d]);
    }
  }

  lemma SeenFurther(s: State, es: seq<Event>, r: State, fs: seq<Event>, l: Loc)
    requires After(s, es) == Some(r) && SeenClean(r, fs, l)
    ensures SeenClean(s, es + fs, l)
  {
    var n :| 0 <= n <= |fs| && After(r, fs[..n]).Some? && l !in After(r, fs[..n]).value.dirty;
    assert (es + fs)[..|es| + n] == es + fs[..n];
    BlockTransfer.SendsOn(s, es, fs[..n]);
  }

  lemma SeenBelowOn(s: State, es: seq<Event>, r: State, fs: seq<Event>, t: State, log: seq<Blk>, log': seq<Blk>,
                    log'': seq<Blk>, lo: seq<nat>, mid: seq<nat>, hi: seq<nat>)
    requires Leads(s, es, r, log, log') && Leads(r, fs, t, log', log'')
    requires SeenBelow(s, es, lo, mid) && SeenBelow(r, fs, mid, hi)
    ensures SeenBelow(s, es + fs, lo, hi)
  {
    hide SeenClean;
    forall d | 0 <= d < |lo| ensures AllSeenClean(s, es + fs, d, lo[d], hi[d]) {
      SeenLater(s, es, fs, d, lo[d], mid[d]);
      forall k | mid[d] <= k < hi[d] ensures SeenClean(s, es + fs, Loc(d, k)) {
        SeenFurther(s, es, r, fs, Loc(d, k));
      }
    }
  }

  /** Every chunk was clean at some moment of the run. */
  ghost predicate SeenAllClean(chunks: seq<nat>, s: State, es: seq<Event>) {
    forall l :: l in Locs(chunks) ==> SeenClean(s, es, l)
  }

  /** Cursors that went from the start to the end have gone over every chunk. */
  lemma SeenAll(chunks: seq<nat>, s: State, es: seq<Event>, lo: seq<nat>, hi: seq<nat>)
    requires SeenBelow(s, es, lo, hi) && |lo| == |chunks|
    requires forall d :: 0 <= d < |chunks| ==> lo[d] == 0 && hi[d] >= chunks[d]
    ensures SeenAllClean(chunks, s, es)
  {
    hide SeenClean;
    forall l | l in Locs(chunks) ensures SeenClean(s, es, l) {
      assert AllSeenClean(s, es, l.dev, lo[l.dev], hi[l.dev]) && l == Loc(l.dev, l.chunk);
    }
  }

  lemma SeenAllLater(chunks: seq<nat>, s: State, es: seq<Event>, fs: seq<Event>)
    ensures SeenAllClean(chunks, s, es) ==> SeenAllClean(chunks, s, es + fs)
  {
    if SeenAllClean(chunks, s, es) {
      hide SeenClean;
      forall l | l in Locs(chunks) ensures SeenClean(s, es + fs, l) {
        SeenLater(s, es, fs, l.dev, l.chunk, l.chunk + 1);
      }
    }
  }

  lemma SeenOne(s: State, es: seq<Event>, lo: seq<nat>, hi: seq<nat>, d: nat)
    requires d < |lo| == |hi| && hi == lo[d := hi[d]] && AllSeenClean(s, es, d, lo[d], hi[d])
    ensures SeenBelow(s, es, lo, hi)
  {
    hide SeenClean;
    forall k | 0 <= k < |lo| ensures AllSeenClean(s, es, k, lo[k], hi[k]) {
    }
  }

  /** The number of sections that have been closed. */
  function Sections(out: seq<BlockStream.Rec>): (n: nat) {
    if out == [] then 0 else Sections(out[..|out| - 1]) + if out[|out| - 1].Eos? then 1 else 0
  }

  /** The stream carries the blocks sent, in so many closed sections. */
  ghost predicate Emitted(out: seq<BlockStream.Rec>, names: seq<BlockStream.Id>, sent: seq<Blk>, sections: nat) {
    BlockTransfer.Carried(out, names, sent) && Sections(out) == sections
  }

  lemma EmitsBlock(out: seq<BlockStream.Rec>, names: seq<BlockStream.Id>, sent: seq<Blk>, sections: nat,
                   rec: BlockStream.Rec, b: Blk)
    requires Emitted(out, names, sent, sections) && BlockTransfer.Carries(rec, names, b)
    ensures Emitted(out + [rec], names, sent + [b], sections)
  {
    BlockTransfer.CarriedBlock(out, names, sent, rec, b);
    assert (out + [rec])[..|out|] == out;
  }

  lemma EmitsOther(out: seq<BlockStream.Rec>, names: seq<BlockStream.Id>, sent: seq<Blk>, sections: nat,
                   rec: BlockStream.Rec)
    requires Emitted(out, names, sent, sections)
    requires !rec.DeviceBlock? && (rec.Progress? ==> rec.percent <= 100)
    ensures Emitted(out + [rec], names, sent, sections + if rec.Eos? then 1 else 0)
  {
    BlockTransfer.CarriedOther(out, names, sent, rec);
    assert (out + [rec])[..|out|] == out;
  }

  function Least(a: nat, b: nat): (r: nat) {
    if a <= b then a else b
  }

  class Saver {
    const chunks: seq<nat>
    const names: seq<BlockStream.Id>
    var st: State
    var out: seq<BlockStream.Rec>
    ghost var sent: seq<Blk>
    ghost var sections: nat
    var guest: seq<GuestWrite>
    var aio: set<Loc>
    var bulk: seq<nat>
    var curDirty: seq<nat>
    var submitted: int
    var readDone: int
    var transferred: int
    var bulkCompleted: bool

    /** The cursors describe the protocol state, the counters count, a set bit of the in-flight bitmap
        has a read in flight, and the stream carries the blocks sent. */
    ghost predicate Valid()
      reads this
    {
      && |bulk| == |chunks| && |curDirty| == |chunks|
      && (forall d :: 0 <= d < |chunks| ==> bulk[d] <= chunks[d])
      && st.src.Keys == Locs(chunks) && st.passed == Below(chunks, bulk)
      && BlockMigration.Valid(st) && Stands(guest, st.writes)
      && submitted == |st.flights| && readDone == |st.queue|
      && Flagged(aio, st.flights)
      && (bulkCompleted ==> st.passed == st.src.Keys)
      && |names| == |chunks| && Emitted(out, names, sent, sections)
    }

    /** Stage 1: init_blk_migration, with tracking just switched on. */
    constructor (chunks: seq<nat>, names: seq<BlockStream.Id>, src: map<Loc, Chunk>, dst: map<Loc, Chunk>)
      requires src.Keys == dst.Keys == Locs(chunks) && |names| == |chunks|
      ensures Valid() && Started(st) && st.src == src && st.dst == dst && !bulkCompleted
      ensures this.chunks == chunks && this.names == names && sent == [] && out == [BlockStream.Eos] && sections == 1
    {
      this.chunks, this.names := chunks, names;
      st := State(src, dst, {}, {}, [], [], []);
      guest, aio, bulk, curDirty := [], {}, seq(|chunks|, _ => 0), seq(|chunks|, _ => 0);
      submitted, readDone, transferred, bulkCompleted := 0, 0, 0, false;
      out, sent, sections := [BlockStream.Eos], [], 1;
      new;
      assert Below(chunks, bulk) == {};
      assert out[1..] == [] && out[..0] == [];
    }

    /** blk_send: the block goes out in a whole buffer, whose rest is whatever was there. */
    method BlkSend(b: Blk)
      requires Emitted(out, names, sent, sections) && b.loc.dev < |names|
      modifies this`out, this`sent
      ensures Emitted(out, names, sent, sections) && sent == old(sent) + [b]
    {
      var rest: seq<byte> := *;
      if |rest| != BlockStream.BLOCK - |b.data| {
        rest := seq(BlockStream.BLOCK - |b.data|, _ => 0);
      }
      var buf := b.data + rest;
      var rec := BlockStream.DeviceBlock(BlockStream.CHUNK_SECTORS * b.loc.chunk, names[b.loc.dev], buf);
      EmitsBlock(out, names, sent, sections, rec, b);
      out, sent := out + [rec], sent + [b];
    }

    /** A progress report or the end of a section. */
    method Report(rec: BlockStream.Rec)
      requires Emitted(out, names, sent, sections)
      requires !rec.DeviceBlock? && (rec.Progress? ==> rec.percent <= 100)
      modifies this`out, this`sections
      ensures Emitted(out, names, sent, sections) && out == old(out) + [rec]
      ensures sections == old(sections) + if rec.Eos? then 1 else 0
    {
      EmitsOther(out, names, sent, sections, rec);
      out := out + [rec];
      if rec.Eos? {
        sections := sections + 1;
      }
    }

    /** blk_mig_read_cb */
    method ReadCallback(i: nat, data: Chunk)
      requires Valid() && Enabled(st, ReadComplete(i, data))
      modifies this`st, this`aio, this`submitted, this`readDone
      ensures Valid() && st == Next(old(st), ReadComplete(i, data))
      ensures submitted + readDone == old(submitted + readDone)
      ensures Solo(old(aio), old(st).flights) ==> Solo(aio, st.flights)
    {
      hide BlockMigration.Valid, Flagged, Stands, Solo, Locs, Below;
      NextValid(st, ReadComplete(i, data));
      FlaggedRemove(aio, st.flights, i);
      if Solo(aio, st.flights) {
        SoloRemove(aio, st.flights, i);
      }
      aio := aio - {st.flights[i].loc};
      st := st.(queue := st.queue + [Blk(st.flights[i].loc, data)], flights := Remove(st.flights, i));
      submitted := submitted - 1;
      readDone := readDone + 1;
    }

    /** The asynchronous branch of mig_save_device_dirty: issues the read and clears the dirty bit. */
    method Issue(loc: Loc)
      requires Valid() && Enabled(st, DirtyRead(loc))
      modifies this`st, this`aio, this`submitted
      ensures Valid() && st == Next(old(st), DirtyRead(loc)) && submitted == old(submitted) + 1
      ensures Solo(old(aio), old(st).flights) && loc !in old(aio) ==> Solo(aio, st.flights)
    {
      hide BlockMigration.Valid, Flagged, Stands, Solo, Locs, Below;
      NextValid(st, DirtyRead(loc));
      FlaggedAppend(aio, st.flights, Flight(loc, true));
      if Solo(aio, st.flights) && loc !in aio {
        SoloAppend(aio, st.flights, Flight(loc, true));
      }
      st := st.(dirty := st.dirty - {loc}, flights := st.flights + [Flight(loc, true)]);
      submitted := submitted + 1;
      aio := aio + {loc};
    }

    /** mig_save_device_bulk: reads the chunk at the cursor; true once the device is through. */
    method SaveDeviceBulk(d: nat) returns (completed: bool, ghost es: seq<Event>)
      requires Valid() && d < |chunks|
      modifies this`st, this`bulk, this`submitted
      ensures Valid() && completed == (bulk[d] >= chunks[d])
      ensures Leads(old(st), es, st, old(sent), sent)
      ensures if old(bulk)[d] < chunks[d]
              then bulk == old(bulk)[d := old(bulk)[d] + 1] && submitted == old(submitted) + 1
              else bulk == old(bulk) && submitted == old(submitted)
    {
      hide BlockMigration.Valid, Flagged, Stands, Leads;
      es := [];
      LeadsNowhere(st, sent);
      var cur := bulk[d];
      if cur >= chunks[d] {
        return true, es;
      }
      var loc := Loc(d, cur);
      BelowNext(chunks, bulk, d);
      FlaggedAppend(aio, st.flights, Flight(loc, true));
      NextValid(st, BulkRead(loc));
      LeadsOn(st, es, st, BulkRead(loc), old(sent), sent);
      es := es + [BulkRead(loc)];
      st := st.(passed := st.passed + {loc}, dirty := st.dirty - {loc}, flights := st.flights + [Flight(loc, true)]);
      submitted := submitted + 1;
      bulk := bulk[d := cur + 1];
      return bulk[d] >= chunks[d], es;
    }

    method SendHead()
      requires Valid() && st.queue != []
      modifies this`st, this`readDone, this`transferred, this`out, this`sent
      ensures transferred == old(transferred) + 1
      ensures Valid() && Legal(old(st), SendQueued) && st == Next(old(st), SendQueued)
      ensures sent == Logged(old(sent), old(st), SendQueued)
    {
      assert st.queue[0].loc in st.dst && st.queue[0].loc in Locs(chunks);
      hide BlockMigration.Valid, Flagged, Stands, Locs, Below, Emitted;
      NextValid(st, SendQueued);
      BlkSend(st.queue[0]);
      st := st.(dst := st.dst[st.queue[0].loc := st.queue[0].data], queue := st.queue[1..]);
      readDone := readDone - 1;
      transferred := transferred + 1;
    }

    /** flush_blks: sends from the head of the queue until it is empty or budget blocks are out. */
    method FlushBlks(budget: nat) returns (ghost es: seq<Event>)
      requires Valid()
      modifies this`st, this`readDone, this`transferred, this`out, this`sent
      ensures Valid() && Leads(old(st), es, st, old(sent), sent)
      ensures |st.queue| == |old(st).queue| - Least(budget, |old(st).queue|)
      ensures transferred == old(transferred) + Least(budget, |old(st).queue|)
      ensures st.flights == old(st.flights) && st.writes == old(st.writes) && st.src == old(st.src)
    {
      hide BlockMigration.Valid, Flagged, Stands, Locs, Below, Leads;
      es := [];
      LeadsNowhere(st, sent);
      var left := budget;
      while st.queue != [] && left > 0
        invariant Valid() && Leads(old(st), es, st, old(sent), sent)
        invariant st.flights == old(st.flights) && st.writes == old(st.writes) && st.src == old(st.src)
        invariant left == budget - |old(st).queue| + |st.queue| && transferred == old(transferred) + budget - left
        decreases left
      {
        ghost var s, log := st, sent;
        SendHead();
        LeadsOn(old(st), es, s, SendQueued, old(sent), log);
        es := es + [SendQueued];
        left := left - 1;
      }
    }

    /** The guest starts a write. */
    method GuestSubmit(g: GuestWrite)
      requires Valid() && Touched(g) <= st.src.Keys
      modifies this`st, this`guest
      ensures Valid() && st == Next(old(st), WriteSubmit(Touched(g)))
    {
      hide BlockMigration.Valid, Flagged, Locs, Below, Touched, Stands;
      NextValid(st, WriteSubmit(Touched(g)));
      StandsAppend(guest, st.writes, g);
      st := st.(writes := st.writes + [Touched(g)]);
      guest := guest + [g];
    }

    /** Part of an outstanding write reaches the disk. */
    method GuestEffect(w: nat, loc: Loc, data: Chunk)
      requires Valid() && Enabled(st, WriteEffect(w, loc, data))
      modifies this`st
      ensures Valid() && st == Next(old(st), WriteEffect(w, loc, data))
      ensures Solo(aio, old(st).flights) ==> Solo(aio, st.flights)
    {
      NextValid(st, WriteEffect(w, loc, data));
      hide BlockMigration.Valid, Locs, Below, Stands;
      st := st.(src := st.src[loc := data], flights := Disturb(st.flights, loc));
      FlaggedDisturb(aio, old(st).flights, loc);
    }

    /** set_dirty_bitmap for a guest write, one chunk after the other. */
    method MarkWritten(g: GuestWrite)
      modifies this`st
      ensures st == old(st).(dirty := old(st).dirty + Touched(g))
    {
      hide Touched, TouchedBelow, DirtyBitmap.Chunk, DirtyBitmap.LastChunk;
      TouchedEnds(g);
      var start, end := DirtyBitmap.Chunk(g.sector), DirtyBitmap.LastChunk(g.sector, g.nb);
      while start <= end
        invariant DirtyBitmap.Chunk(g.sector) <= start <= end + 1
        invariant st == old(st).(dirty := old(st).dirty + TouchedBelow(g, start))
      {
        TouchedStep(g, start);
        st := st.(dirty := st.dirty + {Loc(g.dev, start)});
        start := start + 1;
      }
    }

    /** block_complete_cb: a guest write completes. Every chunk that holds one of its sectors is dirty
        afterwards, and no other chunk has become so. */
    method WriteCallback(w: nat)
      requires Valid() && w < |guest|
      modifies this`st, this`guest
      ensures Valid() && st == Next(old(st), WriteComplete(w)) && guest == Remove(old(guest), w)
      ensures MarksWritten(old(guest)[w], old(st).dirty, st.dirty)
      ensures Inv(old(st)) ==> Inv(st)
    {
      hide BlockMigration.Valid, Flagged, Locs, Below, Touched, Inv, MarksWritten;
      ghost var s := st;
      var g := guest[w];
      assert st.writes[w] == Touched(g);
      NextValid(st, WriteComplete(w));
      StandsRemove(guest, st.writes, w);
      hide Stands;
      MarkWritten(g);
      guest := Remove(guest, w);
      st := st.(writes := Remove(st.writes, w));
      if Inv(s) {
        StepKeepsInv(s, WriteComplete(w));
      }
      TouchedMarks(g, s.dirty);
    }

    // ---------------------------------------------------------------- the world outside

    /** Something that the guest's devices do meanwhile: start a write, or bring part of one to the
        disk. What it is, is not the sender's choice. */
    method GuestEvent() returns (ghost es: seq<Event>)
      requires Valid()
      modifies this`st, this`guest
      ensures Valid() && Leads(old(st), es, st, old(sent), sent)
      ensures |st.flights| == |old(st).flights| && |st.queue| == |old(st).queue|
      ensures Solo(aio, old(st).flights) ==> Solo(aio, st.flights)
    {
      hide BlockMigration.Valid, Flagged, Stands, Locs, Below, Leads, Solo, Touched;
      es := [];
      LeadsNowhere(st, sent);
      ghost var s := st;
      if * {
        var g: GuestWrite := *;
        if Touched(g) <= st.src.Keys {
          LeadsOn(s, es, s, WriteSubmit(Touched(g)), old(sent), sent);
          es := es + [WriteSubmit(Touched(g))];
          GuestSubmit(g);
        }
      } else {
        var w: nat := *;
        var loc: Loc := *;
        var data: Chunk := *;
        if Enabled(st, WriteEffect(w, loc, data)) && |data| == |st.src[loc]| {
          LeadsOn(s, es, s, WriteEffect(w, loc, data), old(sent), sent);
          es := es + [WriteEffect(w, loc, data)];
          GuestEffect(w, loc, data);
        }
      }
    }

    /** A read that is the oldest of its chunk completes, with any data if a write has disturbed it. */
    method CompleteRead() returns (ghost es: seq<Event>)
      requires Valid() && st.flights != []
      modifies this`st, this`aio, this`submitted, this`readDone
      ensures Valid() && Leads(old(st), es, st, old(sent), sent)
      ensures st.writes == old(st).writes && |st.flights| == |old(st).flights| - 1
      ensures submitted + readDone == old(submitted + readDone)
      ensures Solo(old(aio), old(st).flights) ==> Solo(aio, st.flights)
    {
      hide BlockMigration.Valid, Flagged, Stands, Locs, Below, Leads, Solo, Benign, Emitted;
      var i :| 0 <= i < |st.flights| && forall j :: 0 <= j < i ==> st.flights[j].loc != st.flights[i].loc;
      var data: Chunk := *;
      FlightInSource(st, i);
      if st.flights[i].stable || |data| != |st.src[st.flights[i].loc]| {
        data := st.src[st.flights[i].loc];
      }
      InOrderIsBenign(st, i);
      LeadsOne(st, ReadComplete(i, data), sent);
      es := [ReadComplete(i, data)];
      ReadCallback(i, data);
    }

    /** One outstanding request completes: a write, or a read that is the oldest of its chunk. */
    method CompleteOne() returns (ghost es: seq<Event>)
      requires Valid() && !Idle(st)
      modifies this`st, this`guest, this`aio, this`submitted, this`readDone
      ensures Valid() && Leads(old(st), es, st, old(sent), sent)
      ensures |st.flights| + |st.writes| < |old(st).flights| + |old(st).writes|
      ensures submitted + readDone == old(submitted + readDone)
      ensures Solo(old(aio), old(st).flights) ==> Solo(aio, st.flights)
    {
      hide BlockMigration.Valid, Flagged, Locs, Below, Leads, Solo, Touched, Benign, Inv, MarksWritten,
           Emitted;
      var readFirst: bool := *;
      if st.flights != [] && (st.writes == [] || readFirst) {
        es := CompleteRead();
      } else {
        var w :| 0 <= w < |st.writes|;
        LeadsOne(st, WriteComplete(w), sent);
        es := [WriteComplete(w)];
        WriteCallback(w);
      }
    }

    /** qemu_aio_flush: all outstanding requests complete, the reads of one chunk in issue order.
        Meanwhile outstanding writes land and the guest may start others, as long as it stops at last. */
    method AioFlush() returns (ghost es: seq<Event>)
      requires Valid()
      modifies this`st, this`guest, this`aio, this`submitted, this`readDone
      ensures Valid() && Leads(old(st), es, st, old(sent), sent) && Idle(st)
      ensures submitted + readDone == old(submitted + readDone)
      ensures Idle(old(st)) ==> st == old(st)
      ensures aio == {} && Solo(aio, st.flights)
    {
      hide BlockMigration.Valid, Flagged, Stands, Locs, Below, Leads, Solo;
      es := [];
      LeadsNowhere(st, sent);
      var patience: nat := *;
      while !Idle(st)
        invariant Valid() && Leads(old(st), es, st, old(sent), sent)
        invariant submitted + readDone == old(submitted + readDone)
        invariant Idle(old(st)) ==> st == old(st)
        decreases patience, |st.flights| + |st.writes|
      {
        ghost var s, log, fs := st, sent, [];
        var guestFirst: bool := *;
        if patience > 0 && guestFirst {
          fs := GuestEvent();
          patience := patience - 1;
        } else {
          fs := CompleteOne();
        }
        LeadsFurther(old(st), es, s, fs, st, old(sent), log, sent);
        es := es + fs;
      }
      NothingFlies(aio);
    }

    /** One turn of that loop: waits for a flagged read of the chunk, then looks at its dirty bit. */
    method Look(loc: Loc) returns (isDirty: bool, ghost es: seq<Event>)
      requires Valid()
      modifies this`st, this`guest, this`aio, this`submitted, this`readDone
      ensures Valid() && Leads(old(st), es, st, old(sent), sent) && isDirty == (loc in st.dirty) && loc !in aio
      ensures submitted + readDone == old(submitted + readDone)
      ensures Idle(old(st)) ==> st == old(st)
      ensures Solo(old(aio), old(st).flights) ==> Solo(aio, st.flights)
    {
      es := [];
      LeadsNowhere(st, sent);
      hide BlockMigration.Valid, Flagged, Stands, Locs, Below, Leads, Solo;
      if loc in aio {
        es := AioFlush();
      }
      isDirty := loc in st.dirty;
    }

    /** The loop of mig_save_device_dirty: moves the cursor to a dirty chunk or to the end. */
    method ScanDirty(d: nat) returns (found: bool, ghost es: seq<Event>)
      requires Valid() && d < |chunks|
      modifies this`st, this`guest, this`aio, this`submitted, this`readDone, this`curDirty
      ensures Valid() && Leads(old(st), es, st, old(sent), sent)
      ensures submitted + readDone == old(submitted + readDone)
      ensures |curDirty| == |chunks| && curDirty == old(curDirty)[d := curDirty[d]]
      ensures found ==> curDirty[d] < chunks[d] && Loc(d, curDirty[d]) in st.dirty && Loc(d, curDirty[d]) !in aio
      ensures !found ==> curDirty[d] >= chunks[d]
      ensures Idle(old(st)) ==> st == old(st)
      ensures Idle(old(st)) && CleanBelow(old(curDirty), st.dirty) ==> CleanBelow(curDirty, st.dirty)
      ensures Solo(old(aio), old(st).flights) ==> Solo(aio, st.flights)
      ensures AllSeenClean(old(st), es, d, old(curDirty)[d], curDirty[d])
    {
      hide BlockMigration.Valid, Flagged, Stands, Locs, Below, Leads, Solo, AllSeenClean;
      es := [];
      LeadsNowhere(st, sent);
      SeenNothing(st, es, d, curDirty[d]);
      while curDirty[d] < chunks[d]
        invariant Valid() && Leads(old(st), es, st, old(sent), sent)
        invariant submitted + readDone == old(submitted + readDone)
        invariant curDirty == old(curDirty)[d := curDirty[d]]
        invariant Idle(old(st)) ==> st == old(st)
        invariant Idle(old(st)) && CleanBelow(old(curDirty), st.dirty) ==> CleanBelow(curDirty, st.dirty)
        invariant Solo(old(aio), old(st).flights) ==> Solo(aio, st.flights)
        invariant AllSeenClean(old(st), es, d, old(curDirty)[d], curDirty[d])
        decreases chunks[d] as int - curDirty[d] as int
      {
        ghost var s, log, fs := st, sent, [];
        found, fs := Look(Loc(d, curDirty[d]));
        LeadsFurther(old(st), es, s, fs, st, old(sent), log, sent);
        SeenLater(old(st), es, fs, d, old(curDirty)[d], curDirty[d]);
        es := es + fs;
        if found {
          return;
        }
        SeenNow(old(st), es, st, old(sent), sent, d, old(curDirty)[d], curDirty[d]);
        CleanAdvance(curDirty, st.dirty, d);
        curDirty := curDirty[d := curDirty[d] + 1];
      }
      found := false;
    }

    /** The synchronous branch of mig_save_device_dirty: reads the chunk, sends it, clears the dirty bit. */
    method SendDirtyNow(loc: Loc)
      requires Valid() && loc in st.dirty
      modifies this`st, this`out, this`sent
      ensures loc in st.src && Valid() && st == SendNow(old(st), loc) && sent == old(sent) + [Blk(loc, st.src[loc])]
    {
      assert loc in Locs(chunks);
      DirtyInSource(st, loc);
      hide BlockMigration.Valid, Flagged, Stands, Locs, Below, Emitted;
      BlkSend(Blk(loc, st.src[loc]));
      st := SendNow(st, loc);
    }

    /** mig_save_device_dirty: handles at most one dirty chunk; true once the device is through. */
    method SaveDeviceDirty(d: nat, isAsync: bool) returns (completed: bool, ghost es: seq<Event>)
      requires Valid() && d < |chunks| && (isAsync || Idle(st))
      modifies this`st, this`guest, this`aio, this`submitted, this`readDone, this`curDirty, this`out, this`sent
      ensures Valid() && |curDirty| == |chunks| && curDirty == old(curDirty)[d := curDirty[d]]
      ensures completed == (curDirty[d] >= chunks[d])
      ensures isAsync ==> Leads(old(st), es, st, old(sent), sent)
      ensures isAsync ==> submitted + readDone == old(submitted + readDone) + if completed then 0 else 1
      ensures isAsync ==> SeenBelow(old(st), es, old(curDirty), curDirty)
      ensures Solo(old(aio), old(st).flights) ==> Solo(aio, st.flights)
      ensures !isAsync ==> st == if completed then old(st) else SendNow(old(st), Loc(d, curDirty[d]))
      ensures !isAsync && !completed ==> Loc(d, curDirty[d]) in old(st).dirty
      ensures !isAsync ==>
                var loc := Loc(d, curDirty[d]); sent == old(sent) + if completed then [] else [Blk(loc, st.src[loc])]
      ensures !isAsync && CleanBelow(old(curDirty), old(st).dirty) ==> CleanBelow(curDirty, st.dirty)
    {
      hide BlockMigration.Valid, Locs, Below, Flagged, Stands, Leads, Solo, AllSeenClean, SeenBelow, Emitted;
      var found;
      found, es := ScanDirty(d);
      SeenOne(old(st), es, old(curDirty), curDirty, d);
      if found {
        var loc := Loc(d, curDirty[d]);
        DirtyInSource(st, loc);
        if isAsync {
          SeenLater(old(st), es, [DirtyRead(loc)], d, old(curDirty)[d], curDirty[d]);
          SeenOne(old(st), es + [DirtyRead(loc)], old(curDirty), curDirty, d);
          LeadsOn(old(st), es, st, DirtyRead(loc), old(sent), sent);
          es := es + [DirtyRead(loc)];
          Issue(loc);
        } else {
          ghost var cursor := curDirty;
          SendDirtyNow(loc);
          CleanLess(cursor, old(st).dirty, loc);
        }
      }
      completed := curDirty[d] >= chunks[d];
    }

    /** blk_mig_save_dirty_block: the first device that is not through; false when all are. */
    method SaveDirtyBlock(isAsync: bool) returns (more: bool, ghost es: seq<Event>, ghost loc: Loc)
      requires Valid() && (isAsync || Idle(st))
      modifies this`st, this`guest, this`aio, this`submitted, this`readDone, this`curDirty, this`out, this`sent
      ensures Valid()
      ensures isAsync ==> Leads(old(st), es, st, old(sent), sent)
      ensures isAsync ==> submitted + readDone == old(submitted + readDone) + if more then 1 else 0
      ensures isAsync ==> SeenBelow(old(st), es, old(curDirty), curDirty)
      ensures Solo(old(aio), old(st).flights) ==> Solo(aio, st.flights)
      ensures more <==> exists d :: 0 <= d < |chunks| && curDirty[d] < chunks[d]
      ensures !isAsync && !more ==> st == old(st) && sent == old(sent)
      ensures !isAsync && more ==>
                && loc in old(st).dirty && loc in old(st).src && st == SendNow(old(st), loc)
                && sent == old(sent) + [Blk(loc, st.src[loc])]
      ensures !isAsync && CleanBelow(old(curDirty), old(st).dirty) ==> CleanBelow(curDirty, st.dirty)
    {
      es := [];
      LeadsNowhere(st, sent);
      SeenNowhere(st, es, curDirty);
      hide Flagged, Stands, Leads, Solo, CleanBelow, Emitted, SeenBelow;
      for d := 0 to |chunks|
        invariant Valid() && |curDirty| == |chunks|
        invariant isAsync ==> Leads(old(st), es, st, old(sent), sent)
        invariant isAsync ==> submitted + readDone == old(submitted + readDone)
        invariant isAsync ==> SeenBelow(old(st), es, old(curDirty), curDirty)
        invariant forall k :: 0 <= k < d ==> curDirty[k] >= chunks[k]
        invariant !isAsync ==> st == old(st) && sent == old(sent)
        invariant !isAsync && CleanBelow(old(curDirty), old(st).dirty) ==> CleanBelow(curDirty, st.dirty)
        invariant Solo(old(aio), old(st).flights) ==> Solo(aio, st.flights)
      {
        ghost var s, log, cursor := st, sent, curDirty;
        var completed;
        ghost var fs;
        completed, fs := SaveDeviceDirty(d, isAsync);
        if isAsync {
          SeenBelowOn(old(st), es, s, fs, st, old(sent), log, sent, old(curDirty), cursor, curDirty);
          LeadsFurther(old(st), es, s, fs, st, old(sent), log, sent);
          es := es + fs;
        }
        if !completed {
          return true, es, Loc(d, curDirty[d]);
        }
      }
      return false, es, Loc(0, 0);
    }

    method SaveBulkedDevice() returns (more: bool, ghost es: seq<Event>)
      requires Valid()
      modifies this`st, this`bulk, this`submitted
      ensures Valid() && Leads(old(st), es, st, old(sent), sent)
      ensures submitted == old(submitted) + if more then 1 else 0
      ensures more <==> old(st).passed != old(st).src.Keys
      ensures old(st).passed <= st.passed && |st.passed| == |old(st).passed| + if more then 1 else 0
      ensures !more ==> st == old(st)
    {
      hide BlockMigration.Valid, Flagged, Stands, Leads, Emitted;
      for d := 0 to |chunks|
        invariant Valid() && st == old(st) && submitted == old(submitted)
        invariant forall k :: 0 <= k < d ==> bulk[k] == chunks[k]
      {
        if bulk[d] < chunks[d] {
          var loc := Loc(d, bulk[d]);
          assert loc in st.src.Keys && loc !in st.passed;
          var completed;
          BelowNext(chunks, bulk, d);
          completed, es := SaveDeviceBulk(d);
          assert st.passed == old(st).passed + {loc};
          return true, es;
        }
      }
      es := [];
      LeadsNowhere(st, sent);
      return false, es;
    }

    /** blk_mig_save_bulked_block: one chunk of the first device whose bulk pass is not through, and
        perhaps a progress report; false exactly when every chunk has been passed. */
    method SaveBulkedBlock() returns (more: bool, ghost es: seq<Event>)
      requires Valid()
      modifies this`st, this`bulk, this`submitted, this`out, this`sections
      ensures Valid() && Leads(old(st), es, st, old(sent), sent)
      ensures submitted == old(submitted) + if more then 1 else 0
      ensures more <==> old(st).passed != old(st).src.Keys
      ensures old(st).passed <= st.passed && |st.passed| == |old(st).passed| + if more then 1 else 0
      ensures !more ==> st == old(st)
      ensures sections == old(sections)
    {
      hide BlockMigration.Valid, Flagged, Stands, Leads, Emitted;
      more, es := SaveBulkedDevice();
      var progress: nat := *;
      if progress <= 100 {
        Report(BlockStream.Progress(progress));
      }
    }

    /** Every device's dirty cursor is at its end. */
    predicate Through()
      reads this
    {
      |curDirty| == |chunks| && forall d :: 0 <= d < |chunks| ==> curDirty[d] >= chunks[d]
    }

    /** One turn of the stage 2 loop: the bulk pass first, then the asynchronous dirty pass. */
    method Stage2Turn() returns (going: bool, ghost es: seq<Event>)
      requires Valid()
      modifies this
      ensures Valid() && Leads(old(st), es, st, old(sent), sent)
      ensures old(submitted + readDone) <= submitted + readDone <= old(submitted + readDone) + 1
      ensures going ==> submitted + readDone > old(submitted + readDone) || (bulkCompleted && !old(bulkCompleted))
      ensures !going ==> bulkCompleted && Through()
      ensures SeenBelow(old(st), es, old(curDirty), curDirty)
      ensures old(bulkCompleted) ==> bulkCompleted && st.passed == old(st).passed
      ensures !old(bulkCompleted) ==>
                && old(st).passed <= st.passed
                && |st.passed| == |old(st).passed| + submitted + readDone - old(submitted + readDone)
      ensures transferred == old(transferred) && sections == old(sections)
      ensures old(bulkCompleted) && Solo(old(aio), old(st).flights) ==> Solo(aio, st.flights)
    {
      hide BlockMigration.Valid, Flagged, Stands, Locs, Below, Leads, Solo, Emitted, SeenBelow;
      var more;
      if !bulkCompleted {
        more, es := SaveBulkedBlock();
        SeenNowhere(old(st), es, curDirty);
        bulkCompleted := !more;
        return true, es;
      } else {
        ghost var loc;
        more, es, loc := SaveDirtyBlock(true);
        return more, es;
      }
    }

    /** From s0 on, with sum0 blocks on their way, issued more reads have been issued: the bulk pass comes
        first. */
    ghost predicate Reading(s0: State, bulk0: bool, sum0: int, issued: int)
      reads this
    {
      && issued >= 0 && submitted + readDone == sum0 + issued
      && (bulk0 ==> bulkCompleted) && s0.passed <= st.passed
      && (|st.passed| == |s0.passed| + issued || (bulkCompleted && |st.passed| <= |s0.passed| + issued))
    }

    /** The stage 2 loop: reads until limit blocks are on their way or there is nothing left to read. */
    method ReadUntil(limit: int) returns (ghost es: seq<Event>, ghost issued: nat)
      requires Valid()
      modifies this
      ensures Valid() && Leads(old(st), es, st, old(sent), sent)
      ensures Reading(old(st), old(bulkCompleted), old(submitted + readDone), issued)
      ensures var room := limit - old(submitted + readDone);
              if room <= 0 then issued == 0
              else issued <= room && (issued == room || (bulkCompleted && Through()))
      ensures transferred == old(transferred) && sections == old(sections)
      ensures SeenBelow(old(st), es, old(curDirty), curDirty)
      ensures old(bulkCompleted) && Solo(old(aio), old(st).flights) ==> Solo(aio, st.flights)
    {
      hide BlockMigration.Valid, Flagged, Stands, Locs, Below, Leads, Solo, Emitted, SeenBelow;
      es, issued := [], 0;
      LeadsNowhere(st, sent);
      SeenNowhere(st, es, curDirty);
      var going := true;
      while going && submitted + readDone < limit
        invariant Valid() && Leads(old(st), es, st, old(sent), sent)
        invariant Reading(old(st), old(bulkCompleted), old(submitted + readDone), issued)
        invariant transferred == old(transferred) && sections == old(sections)
        invariant SeenBelow(old(st), es, old(curDirty), curDirty)
        invariant issued == 0 || submitted + readDone <= limit
        invariant !going ==> bulkCompleted && Through()
        invariant old(bulkCompleted) && Solo(old(aio), old(st).flights) ==> Solo(aio, st.flights)
        decreases going, limit - (submitted + readDone), !bulkCompleted
      {
        ghost var s, log, cursor, fs := st, sent, curDirty, [];
        going, fs := Stage2Turn();
        SeenBelowOn(old(st), es, s, fs, st, old(sent), log, sent, old(curDirty), cursor, curDirty);
        LeadsFurther(old(st), es, s, fs, st, old(sent), log, sent);
        es := es + fs;
        issued := submitted + readDone - old(submitted + readDone);
      }
    }

    /** The first flush of a call and, in stage 2, the loop. */
    method FlushAndRead(limit: int, budget: nat) returns (ghost es: seq<Event>, ghost issued: nat)
      requires Valid()
      modifies this
      ensures Valid() && Leads(old(st), es, st, old(sent), sent) && (old(bulkCompleted) ==> bulkCompleted)
      ensures submitted + readDone + transferred == old(submitted + readDone + transferred) + issued
      ensures transferred == old(transferred) + Least(budget, |old(st).queue|) && sections == old(sections)
      ensures var room := limit - (old(submitted + readDone) - Least(budget, |old(st).queue|));
              if room <= 0 then issued == 0
              else issued <= room && (issued == room || (bulkCompleted && SeenAllClean(chunks, old(st), es)))
      ensures old(st).passed <= st.passed
      ensures |st.passed| == |old(st).passed| + issued || (bulkCompleted && |st.passed| <= |old(st).passed| + issued)
      ensures old(bulkCompleted) && Solo(old(aio), old(st).flights) ==> Solo(aio, st.flights)
    {
      hide BlockMigration.Valid, Flagged, Stands, Locs, Below, Leads, Solo, Emitted, SeenBelow, SeenAllClean;
      es := FlushBlks(budget);
      curDirty := seq(|chunks|, _ => 0);
      ghost var s, log, cursor, fs := st, sent, curDirty, [];
      SeenNowhere(old(st), es, cursor);
      fs, issued := ReadUntil(limit);
      SeenBelowOn(old(st), es, s, fs, st, old(sent), log, sent, cursor, cursor, curDirty);
      LeadsFurther(old(st), es, s, fs, st, old(sent), log, sent);
      es := es + fs;
      if Through() {
        SeenAll(chunks, old(st), es, cursor, curDirty);
      }
    }

    /** A call of the save handler in stage 2: flush, read until limit blocks are on their way or there is
        nothing left to read, flush. Once the bulk pass is over and its reads are done, the in-flight
        bitmap keeps the reads in flight apart. */
    method Stage2(limit: int, budget: nat, budget': nat) returns (ghost es: seq<Event>, ghost issued: nat)
      requires Valid()
      modifies this
      ensures Valid() && Leads(old(st), es, st, old(sent), sent) && (old(bulkCompleted) ==> bulkCompleted)
      ensures submitted + readDone + transferred == old(submitted + readDone + transferred) + issued
      ensures var room := limit - (old(submitted + readDone) - Least(budget, |old(st).queue|));
              if room <= 0 then issued == 0
              else issued <= room && (issued == room || (bulkCompleted && SeenAllClean(chunks, old(st), es)))
      ensures old(st).passed <= st.passed
      ensures |st.passed| == |old(st).passed| + issued ||
              (st.passed == st.src.Keys && |st.passed| <= |old(st).passed| + issued)
      ensures st.queue == [] || transferred == old(transferred) + Least(budget, |old(st).queue|) + budget'
      ensures old(bulkCompleted) && Solo(old(aio), old(st).flights) ==> Solo(aio, st.flights)
      ensures out != [] && out[|out| - 1].Eos? && sections == old(sections) + 1
    {
      hide BlockMigration.Valid, Flagged, Stands, Locs, Below, Leads, Solo, Emitted, SeenAllClean;
      es, issued := FlushAndRead(limit, budget);
      ghost var s, log := st, sent;
      ghost var fs := FlushBlks(budget');
      SeenAllLater(chunks, old(st), es, fs);
      LeadsFurther(old(st), es, s, fs, st, old(sent), log, sent);
      es := es + fs;
      Report(BlockStream.Eos);
    }

    method DrainTurn(ghost s0: State, ghost log: seq<Blk>, ghost fin: seq<Blk>)
      returns (more: bool, ghost fin': seq<Blk>)
      requires Valid() && Idle(st) && Draining(s0, st, curDirty, sent, log, fin)
      modifies this`st, this`guest, this`aio, this`submitted, this`readDone, this`curDirty, this`out, this`sent
      ensures Valid() && Idle(st) && Draining(s0, st, curDirty, sent, log, fin')
      ensures if more then |st.dirty| < |old(st).dirty| else st == old(st) && st.dirty == {}
    {
      DirtyInLocs(chunks, st);
      DrainingIs(s0, st, curDirty, sent, log, fin);
      hide Draining, Emitted, Flagged, Stands, CleanBelow, BlockMigration.Valid, Locs, Below;
      ghost var es, loc;
      more, es, loc := SaveDirtyBlock(false);
      if more {
        DrainStep(s0, old(st), st, old(curDirty), curDirty, old(sent), sent, log, fin, loc);
        fin' := fin + [Blk(loc, s0.src[loc])];
      } else {
        DrainKeeps(s0, st, old(curDirty), curDirty, sent, log, fin);
        CleanAtEnd(chunks, curDirty, st.dirty);
        fin' := fin;
      }
    }

    /** The loop of stage 3: it ends, with every dirty chunk sent. */
    method DrainDirty() returns (ghost fin: seq<Blk>)
      requires Valid() && Idle(st)
      modifies this`st, this`guest, this`aio, this`submitted, this`readDone, this`curDirty, this`out, this`sent
      ensures Valid() && st == SyncedTo(old(st), {})
      ensures sent == old(sent) + fin && BlockTransfer.ListsDirty(old(st), fin)
    {
      hide BlockTransfer.ListsDirty, Draining, SyncedTo, Emitted, Flagged, Stands, Locs, Below;
      curDirty := seq(|chunks|, _ => 0);
      fin := [];
      DrainStarts(chunks, st, curDirty, sent);
      var more := true;
      while more
        invariant Valid() && Idle(st) && Draining(old(st), st, curDirty, sent, old(sent), fin)
        invariant !more ==> st.dirty == {}
        decreases |st.dirty|, more
      {
        more, fin := DrainTurn(old(st), old(sent), fin);
      }
      DrainEnds(old(st), st, curDirty, sent, old(sent), fin);
    }

    /** Stage 3: the final pass sends every dirty chunk, and cleanup frees what is still queued. */
    method Finish() returns (ghost fin: seq<Blk>)
      requires Valid() && Idle(st)
      modifies this`st, this`guest, this`aio, this`submitted, this`readDone, this`curDirty, this`out, this`sent
      modifies this`sections
      ensures sections == old(sections) + 1
      ensures Valid() && st == FinalPass(old(st))
      ensures sent == old(sent) + fin && BlockTransfer.ListsDirty(old(st), fin)
      ensures |out| >= 2 && out[|out| - 2..] == [BlockStream.Progress(100), BlockStream.Eos]
    {
      hide BlockTransfer.ListsDirty, Emitted;
      fin := DrainDirty();
      SyncedNone(old(st));
      st := st.(queue := []);
      readDone := 0;
      Report(BlockStream.Progress(100));
      Report(BlockStream.Eos);
    }

    /** Stage 3 as a whole: a flush that leads to r, the final pass, cleanup. If the bulk pass is over and
        the flush empties the queue, the disks end equal. */
    method Stage3(budget: nat)
      returns (ghost es: seq<Event>, ghost r: State, ghost log: seq<Blk>, ghost fin: seq<Blk>)
      requires Valid() && Idle(st)
      modifies this
      ensures Valid() && st.src == old(st).src && bulkCompleted == old(bulkCompleted)
      ensures Inv(old(st)) && old(bulkCompleted) && |old(st).queue| <= budget ==> st.dst == st.src
      ensures Leads(old(st), es, r, old(sent), log) && (|old(st).queue| <= budget ==> r.queue == [])
      ensures Idle(r) && r.src == st.src && (old(bulkCompleted) ==> Stopped(r))
      ensures sent == log + fin && BlockTransfer.ListsDirty(r, fin)
      ensures |out| >= 2 && out[|out| - 2..] == [BlockStream.Progress(100), BlockStream.Eos]
      ensures out[|out| - 1].Eos? && sections == old(sections) + 1
    {
      hide BlockMigration.Valid, Flagged, Stands, Locs, Below, Leads, Inv, FinalPass, BlockTransfer.ListsDirty,
           Emitted;
      ghost var s := st;
      es := FlushBlks(budget);
      r, log := st, sent;
      fin := Finish();
      if Inv(s) && old(bulkCompleted) && |s.queue| <= budget {
        LeadsKeepsInv(s, es, r, old(sent), log);
        DrainedIsEqual(r);
      }
      FinalSource(r);
    }

    /** Any number of guest events and completions between two calls of the save handler. */
    method Meanwhile() returns (ghost es: seq<Event>)
      requires Valid()
      modifies this`st, this`guest, this`aio, this`submitted, this`readDone
      ensures Valid() && Leads(old(st), es, st, old(sent), sent)
    {
      hide BlockMigration.Valid, Flagged, Stands, Locs, Below, Leads, Solo;
      es := [];
      LeadsNowhere(st, sent);
      var events: nat := *;
      while events > 0
        invariant Valid() && Leads(old(st), es, st, old(sent), sent)
      {
        ghost var s, log, fs := st, sent, [];
        var completes: bool := *;
        if completes && !Idle(st) {
          fs := CompleteOne();
        } else {
          fs := GuestEvent();
        }
        LeadsFurther(old(st), es, s, fs, st, old(sent), log, sent);
        es := es + fs;
        events := events - 1;
      }
    }

    /** The guest runs, and the save handler is called once in stage 2. */
    method Round(limit: int, budget: nat, budget': nat, ghost s0: State, ghost es0: seq<Event>)
      returns (ghost es: seq<Event>)
      requires Valid() && Leads(s0, es0, st, [], sent)
      modifies this
      ensures Valid() && Leads(s0, es, st, [], sent) && sections == old(sections) + 1
    {
      hide BlockMigration.Valid, Flagged, Stands, Locs, Below, Leads, Solo, Emitted;
      ghost var s, log := st, sent;
      ghost var fs := Meanwhile();
      LeadsFurther(s0, es0, s, fs, st, [], log, sent);
      es := es0 + fs;
      s, log := st, sent;
      ghost var issued;
      fs, issued := Stage2(limit, budget, budget');
      LeadsFurther(s0, es, s, fs, st, [], log, sent);
      es := es + fs;
    }
  }

  // ---------------------------------------------------------------- a whole migration

  /** A receiver whose devices have the sender's names and sizes, and hold dst; disks are the sender's. */
  ghost predicate Receives(names: seq<BlockStream.Id>, dst: map<Loc, Chunk>, src: map<Loc, Chunk>,
                           d0: BlockStream.Dest, disks: seq<seq<byte>>) {
    && BlockTransfer.Known(d0) && d0.names == names
    && BlockTransfer.Shows(d0.disks, dst) && BlockTransfer.Shows(disks, src)
    && |disks| == |d0.disks| && forall i :: 0 <= i < |disks| ==> |disks[i]| == |d0.disks[i]|
  }

  /** block_load takes all bytes of the records and leaves the disks. */
  ghost predicate LoadsTo(out: seq<BlockStream.Rec>, d0: BlockStream.Dest, disks: seq<seq<byte>>) {
    && BlockStream.ValidDest(d0)
    && (forall i :: 0 <= i < |out| ==> BlockStream.Encodable(out[i]))
    && BlockStream.LoadSections(BlockStream.EncodeAll(out), d0) ==
       BlockStream.Loaded(d0.(disks := disks), [], true)
  }

  lemma ShowsSizes(names: seq<BlockStream.Id>, dst: map<Loc, Chunk>, src: map<Loc, Chunk>,
                   d0: BlockStream.Dest, disks: seq<seq<byte>>)
    requires Receives(names, dst, src, d0, disks)
    ensures SameSizes(src, dst)
  {
    forall l ensures l in src <==> l in dst {
      assert BlockTransfer.Exists(disks, l) <==> BlockTransfer.Exists(d0.disks, l);
    }
    forall l | l in src ensures |src[l]| == |dst[l]| {
      assert BlockTransfer.Exists(disks, l);
    }
  }

  lemma KnownIsValid(d0: BlockStream.Dest)
    requires BlockTransfer.Known(d0)
    ensures BlockStream.ValidDest(d0)
  {
  }

  /** The records of a drained run, loaded. */
  lemma RunLoads(s: State, es: seq<Event>, r: State, log: seq<Blk>, fin: seq<Blk>, out: seq<BlockStream.Rec>,
                 names: seq<BlockStream.Id>, d0: BlockStream.Dest, disks: seq<seq<byte>>)
    requires Started(s) && Leads(s, es, r, [], log) && Stopped(r) && r.queue == []
    requires BlockTransfer.ListsDirty(r, fin) && BlockTransfer.Carried(out, names, log + fin)
    requires out != [] && out[|out| - 1].Eos?
    requires Receives(names, s.dst, r.src, d0, disks)
    ensures LoadsTo(out, d0, disks)
  {
    hide BlockTransfer.Shows, BlockTransfer.Known, BlockTransfer.Carried, BlockTransfer.ListsDirty,
         BlockStream.LoadSections, BlockStream.EncodeAll;
    ShowsSizes(names, s.dst, r.src, d0, disks);
    KnownIsValid(d0);
    SizesStay(s.src, s, es);
    SizesSwap(s.src, s.dst, s, es);
    assert log == BlockTransfer.Sends(s, es);
    BlockTransfer.StreamComplete(s, es, fin, out, d0, disks);
  }

  /** A whole migration of the code, with any rate limits and the guest running until stage 3, which
      starts from last: if the bulk pass is over by then and the last flush gets all queued blocks out,
      the sender's disks are what any receiver with such devices has once it has loaded the bytes of the
      stream. */
  method Migrate(chunks: seq<nat>, names: seq<BlockStream.Id>, src: map<Loc, Chunk>, dst: map<Loc, Chunk>,
                 rounds: nat, budget: nat)
    returns (saver: Saver, bulk: bool, complete: bool, ghost s0: State, ghost es: seq<Event>, ghost last: State,
             ghost log: seq<Blk>)
    requires src.Keys == dst.Keys == Locs(chunks) && |names| == |chunks|
    ensures fresh(saver) && saver.Valid() && saver.names == names
    ensures Started(s0) && s0.src == src && s0.dst == dst && Leads(s0, es, last, [], log) && Idle(last)
    ensures bulk <==> last.passed == last.src.Keys && saver.bulkCompleted
    ensures complete <==> bulk && |last.queue| <= budget
    ensures saver.st.src == last.src && Sections(saver.out) == rounds + 2
    ensures complete ==> saver.st.dst == saver.st.src
    ensures complete ==> forall d0: BlockStream.Dest, disks: seq<seq<byte>> ::
              Receives(names, dst, saver.st.src, d0, disks) ==> LoadsTo(saver.out, d0, disks)
  {
    hide BlockMigration.Valid, Flagged, Stands, Locs, Below, Leads, Solo, Inv, Started, Receives, LoadsTo,
         BlockTransfer.Carried, BlockTransfer.ListsDirty;
    saver := new Saver(chunks, names, src, dst);
    s0, es := saver.st, [];
    LeadsNowhere(s0, []);
    for r := 0 to rounds
      invariant fresh(saver) && saver.Valid() && Leads(s0, es, saver.st, [], saver.sent)
      invariant saver.sections == 1 + r
    {
      var limit: int := *;
      var before: nat := *;
      var after: nat := *;
      es := saver.Round(limit, before, after, s0, es);
    }
    ghost var s, sent := saver.st, saver.sent;
    ghost var fs := saver.AioFlush();
    LeadsFurther(s0, es, s, fs, saver.st, [], sent, saver.sent);
    es, last, log := es + fs, saver.st, saver.sent;
    StartedHasInv(s0);
    LeadsKeepsInv(s0, es, last, [], log);
    bulk := saver.bulkCompleted;
    complete := bulk && |saver.st.queue| <= budget;
    ghost var fs', r, log', fin := saver.Stage3(budget);
    LeadsFurther(s0, es, last, fs', r, [], log, log');
    if complete {
      forall d0: BlockStream.Dest, disks: seq<seq<byte>> | Receives(names, dst, saver.st.src, d0, disks)
        ensures LoadsTo(saver.out, d0, disks)
      {
        RunLoads(s0, es + fs', r, log', fin, saver.out, names, d0, disks);
      }
    }
  }
}
