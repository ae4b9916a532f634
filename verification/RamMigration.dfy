/** Live RAM migration over whole runs: the guest keeps writing while pages travel. */
module RamMigration {
  import opened Wire
  import opened RamStream
  import opened RamSource

  predicate HasPeer(b: Block, d: Dest)
    requires ValidDest(d)
  {
    Find(d.ids, b.id).Some? && |d.host[Find(d.ids, b.id).value]| == b.pages
  }

  /** The receiver has the sender's blocks, by id and length, in any order. */
  ghost predicate Matches(blocks: seq<Block>, d: Dest) {
    && ValidDest(d)
    && PAGE * SumPages(BlockSizes(blocks)) + PAGE <= WORD
    && forall b :: 0 <= b < |blocks| ==> HasPeer(blocks[b], d)
  }

  /** The receiver's block for the sender's block b. */
  function Peer(blocks: seq<Block>, d: Dest, b: nat): (r: nat)
    requires ValidDest(d) && b < |blocks| && HasPeer(blocks[b], d)
    ensures r < |d.ids| && r < |d.host| && |d.host[r]| == blocks[b].pages
  {
    Find(d.ids, blocks[b].id).value
  }

  lemma {:induction false} FindCorrect(ids: seq<Id>, id: Id)
    ensures Find(ids, id).Some? ==> ids[Find(ids, id).value] == id
  {
    if ids != [] && ids[0] != id { FindCorrect(ids[1..], id); }
  }

  lemma PeerInjective(blocks: seq<Block>, d: Dest, b: nat, c: nat)
    requires ValidBlocks(blocks) && Matches(blocks, d) && b < |blocks| && c < |blocks|
    requires Peer(blocks, d, b) == Peer(blocks, d, c)
    ensures b == c
  {
    FindCorrect(d.ids, blocks[b].id);
    FindCorrect(d.ids, blocks[c].id);
    if b != c {
      BlocksApart(blocks, b, c);
    }
  }

  /** The receiver's page that stands for the sender's page p equals it. */
  ghost predicate Arrived(s: Src, d: Dest, p: Pos) {
    && InRange(s, p) && ValidDest(d) && HasPeer(s.blocks[p.block], d)
    && d.host[Peer(s.blocks, d, p.block)][p.page] == PageOf(s, p)
  }

  /** What every step keeps, for a receiver d that has replayed the records sent so far:
      clean pages have arrived, and the block pointer is the cursor's block. */
  ghost predicate InSync(s: Src, d: Dest) {
    && ValidSrc(s) && Matches(s.blocks, d)
    && (s.cursor.None? ==> AllDirty(s))
    && (s.cursor.Some? ==> d.block == Some(Peer(s.blocks, d, s.cursor.value.block)))
    && forall p :: ValidPos(s.blocks, p) && !IsDirty(s, p) ==> Arrived(s, d, p)
  }

  ghost predicate Inv(s: Src, d0: Dest) {
    && ValidDest(d0)
    && Replay(s.recs, d0).Some?
    && InSync(s, Replay(s.recs, d0).value)
  }

  lemma ReplaySnoc(recs: seq<Rec>, rec: Rec, d0: Dest)
    requires ValidDest(d0) && Replay(recs, d0).Some? && Accepts(rec, Replay(recs, d0).value)
    ensures Replay(recs + [rec], d0) == Some(Apply(rec, Replay(recs, d0).value))
  {
    assert (recs + [rec])[..|recs|] == recs;
  }

  /** The receiver takes the page record, and resolves it to the block that the sender meant, whether
      it carries an id or continues the last block. */
  lemma SendAccepted(s: Src, p: Pos, d: Dest)
    requires InSync(s, d) && InRange(s, p)
    ensures Accepts(PageRec(s, p), d)
    ensures Target(PageRec(s, p).id, d) == Some(Peer(s.blocks, d, p.block))
  {
    assert ValidBlock(s.blocks[p.block]) && HasPeer(s.blocks[p.block], d);
  }

  /** A page record puts the page at its place in the receiver and changes no other page. */
  lemma SendApplied(s: Src, p: Pos, d: Dest, q: Pos)
    requires InSync(s, d) && InRange(s, p) && InRange(s, q) && Accepts(PageRec(s, p), d)
    ensures var d' := Apply(PageRec(s, p), d);
            && Matches(s.blocks, d')
            && d'.block == Some(Peer(s.blocks, d', p.block))
            && (q == p ==> Arrived(s, d', q))
            && (q != p && Arrived(s, d, q) ==> Arrived(s, d', q))
  {
    SendAccepted(s, p, d);
    var d' := Apply(PageRec(s, p), d);
    forall b | 0 <= b < |s.blocks| ensures HasPeer(s.blocks[b], d') { assert HasPeer(s.blocks[b], d); }
    if q.block != p.block && Peer(s.blocks, d, p.block) == Peer(s.blocks, d, q.block) {
      PeerInjective(s.blocks, d, p.block, q.block);
    }
  }

  lemma SendKeepsSync(s: Src, s': Src, d: Dest)
    requires InSync(s, d) && SendStep(s, s')
    ensures Accepts(PageRec(s, s'.cursor.value), d)
    ensures InSync(s', Apply(PageRec(s, s'.cursor.value), d))
  {
    hide Apply, DirtySet, Arrived, FirstDirty;
    var p := s'.cursor.value;
    FirstDirtyInRange(s, p);
    SendAccepted(s, p, d);
    SendRemovesOne(s, s');
    var d' := Apply(PageRec(s, p), d);
    SendApplied(s, p, d, p);
    forall q | ValidPos(s'.blocks, q) && !IsDirty(s', q) ensures Arrived(s', d', q) {
      SendArrives(s, p, d, q);
    }
  }

  lemma FirstDirtyInRange(s: Src, p: Pos)
    requires FirstDirty(s, p)
    ensures InRange(s, p)
  {
  }

  lemma SendArrives(s: Src, p: Pos, d: Dest, q: Pos)
    requires InSync(s, d) && InRange(s, p) && Accepts(PageRec(s, p), d)
    requires ValidPos(s.blocks, q) && !IsDirty(Sent(s, p), q)
    ensures Arrived(Sent(s, p), Apply(PageRec(s, p), d), q)
  {
    DirtyAfterClear(s, p, q);
    assert q != p ==> Arrived(s, d, q);
    SendApplied(s, p, d, q);
  }

  lemma GuestKeepsSync(s: Src, s': Src, d: Dest)
    requires InSync(s, d) && GuestStep(s, s')
    ensures InSync(s', d)
  {
    forall p | ValidPos(s'.blocks, p) ensures !IsDirty(s', p) ==> Arrived(s', d, p) {
      assert GuestLeaves(s, s', p);
    }
    if s'.cursor.None? {
      forall p | ValidPos(s'.blocks, p) ensures IsDirty(s', p) { assert GuestLeaves(s, s', p); }
    }
  }

  lemma StepKeepsInv(s: Src, s': Src, d0: Dest)
    requires Inv(s, d0) && Step(s, s')
    ensures Inv(s', d0)
  {
    var d := Replay(s.recs, d0).value;
    if SendStep(s, s') {
      SendKeepsSync(s, s', d);
      ReplaySnoc(s.recs, PageRec(s, s'.cursor.value), d0);
    } else if GuestStep(s, s') {
      GuestKeepsSync(s, s', d);
    } else {
      EndKeepsSync(s, s', d);
      ReplaySnoc(s.recs, Eos, d0);
    }
  }

  lemma EndKeepsSync(s: Src, s': Src, d: Dest)
    requires InSync(s, d) && EndSection(s, s')
    ensures InSync(s', d)
  {
    forall p | ValidPos(s'.blocks, p)
      ensures IsDirty(s', p) == IsDirty(s, p) && (Arrived(s, d, p) ==> Arrived(s', d, p))
    {
    }
  }

  lemma StartedInv(s: Src, d0: Dest)
    requires Started(s) && Matches(s.blocks, d0)
    ensures Inv(s, d0)
  {
    var rec := Sizes(BlockSizes(s.blocks));
    forall i | 0 <= i < |s.blocks| ensures KnownBlock(rec.blocks[i], d0) {
      assert ValidBlock(s.blocks[i]) && HasPeer(s.blocks[i], d0);
    }
    ReplaySnoc([], rec, d0);
    assert [] + [rec] == s.recs;
  }

  /** In every interleaving of guest writes, sends and section ends after stage 1, the receiver takes
      every record, and each page whose flag is clear is the same there as at the sender. */
  lemma {:induction false} RunKeepsInv(run: seq<Src>, d0: Dest)
    requires IsRun(run) && Started(run[0]) && Matches(run[0].blocks, d0)
    ensures Inv(run[|run| - 1], d0)
    decreases |run|
  {
    var n := |run| - 1;
    if n == 0 {
      StartedInv(run[0], d0);
    } else {
      RunKeepsInv(run[..n], d0);
      StepKeepsInv(run[n - 1], run[n], d0);
    }
  }

  /** Runs of consecutive calls of the save handler, with guest steps between them, join. */
  lemma RunsJoin(a: seq<Src>, b: seq<Src>)
    requires IsRun(a) && IsRun(b) && b[0] == a[|a| - 1]
    ensures var run := a + b[1..]; IsRun(run) && run[0] == a[0] && run[|run| - 1] == b[|b| - 1]
  {
    hide Step;
    var run := a + b[1..];
    forall i | 0 < i < |run| ensures Step(run[i - 1], run[i]) {
      if i >= |a| {
        var k := i - |a| + 1;
        assert run[i] == b[k] && run[i - 1] == b[k - 1] && Step(b[k - 1], b[k]);
      }
    }
  }

  ghost predicate SameMemory(s: Src, d: Dest) {
    && Matches(s.blocks, d) && |s.host| == |s.blocks|
    && forall b :: 0 <= b < |s.blocks| ==> SameBlock(s, d, b)
  }

  ghost predicate SameBlock(s: Src, d: Dest, b: nat)
    requires ValidDest(d) && b < |s.blocks| && b < |s.host|
  {
    HasPeer(s.blocks[b], d) && d.host[Peer(s.blocks, d, b)] == s.host[b]
  }

  lemma CleanIsSame(s: Src, d: Dest)
    requires InSync(s, d) && NoneDirty(s)
    ensures SameMemory(s, d)
  {
    forall b | 0 <= b < |s.blocks| ensures SameBlock(s, d, b) {
      forall k | 0 <= k < |s.host[b]| ensures d.host[Peer(s.blocks, d, b)][k] == s.host[b][k] {
        assert ValidPos(s.blocks, Pos(b, k)) && Arrived(s, d, Pos(b, k));
      }
    }
  }

  /** Once a run has drained every dirty page and closed its section, loading the bytes sent, whatever
      memory the receiver started from, uses all of them and leaves the sender's memory there. */
  lemma MigrationComplete(run: seq<Src>, d0: Dest)
    requires IsRun(run) && Started(run[0]) && Matches(run[0].blocks, d0)
    requires var s := run[|run| - 1]; NoneDirty(s) && s.recs != [] && s.recs[|s.recs| - 1].Eos?
    ensures var s := run[|run| - 1];
            && (forall i :: 0 <= i < |s.recs| ==> Encodable(s.recs[i]))
            && var r := LoadSections(EncodeAll(s.recs), d0);
               r.Loaded? && r.rest == [] && SameMemory(s, r.dest)
  {
    var s := run[|run| - 1];
    RunKeepsInv(run, d0);
    SectionsRoundTrip(s.recs, d0);
    CleanIsSame(s, Replay(s.recs, d0).value);
  }
}
