/** The sender's code: page scan, stage driver, dirty-flag helpers. */
module RamSaver {
  import opened Wire
  import opened RamStream
  import opened RamSource

  function WordAt(page: seq<byte>, i: nat): (w: int)
    requires 4 * i + 4 <= |page|
  {
    page[4 * i] as int + page[4 * i + 1] as int * 0x100 + page[4 * i + 2] as int * 0x1_0000
    + page[4 * i + 3] as int * 0x100_0000
  }

  lemma WordRepeats(page: seq<byte>, i: nat, ch: byte)
    requires 4 * i + 4 <= |page|
    ensures WordAt(page, i) == ch as int * 0x101_0101
       <==> forall k :: 4 * i <= k < 4 * i + 4 ==> page[k] == ch
  {
    var k := 4 * i;
    var a, b, c, d := page[k] - ch, page[k + 1] - ch, page[k + 2] - ch, page[k + 3] - ch;
    assert WordAt(page, i) - ch as int * 0x101_0101 == a + 256 * (b + 256 * (c + 256 * d));
    if WordAt(page, i) == ch as int * 0x101_0101 {
      LowDigit(a, b + 256 * (c + 256 * d));
      LowDigit(b, c + 256 * d);
      LowDigit(c, d);
    }
  }

  lemma LowDigit(a: int, x: int)
    requires -256 < a < 256 && a + 256 * x == 0
    ensures a == 0 && x == 0
  {
  }

  /** Compares word by word; the answer is about every byte. */
  method IsDupPage(page: Page, ch: byte) returns (dup: bool)
    ensures dup <==> forall k :: 0 <= k < PAGE ==> page[k] == ch
  {
    var i := 0;
    while i < PAGE / 4
      invariant 0 <= i <= PAGE / 4
      invariant forall k :: 0 <= k < 4 * i ==> page[k] == ch
    {
      WordRepeats(page, i, ch);
      if WordAt(page, i) != ch as int * 0x101_0101 {
        return false;
      }
      i := i + 1;
    }
    return true;
  }

  // ---------------------------------------------------------------- the scan

  lemma StartValid(s: Src)
    requires ValidSrc(s)
    ensures ValidPos(s.blocks, Start(s)) && CleanBefore(s, Start(s), Start(s))
  {
    assert ValidBlock(s.blocks[0]);
    forall q | ValidPos(s.blocks, q) ensures Dist(s.blocks, Start(s), q) >= 0 {
      DistInRange(s.blocks, Start(s), q);
    }
  }

  /** A clean page extends the clean stretch; once round, every page is clean. */
  lemma ScanStep(s: Src, start: Pos, pos: Pos)
    requires ValidSrc(s) && ValidPos(s.blocks, start) && ValidPos(s.blocks, pos)
    requires CleanBefore(s, start, pos) && !IsDirty(s, pos)
    ensures var next := NextPos(s.blocks, pos);
            && ValidPos(s.blocks, next)
            && CleanBefore(s, start, next)
            && 0 <= Dist(s.blocks, start, pos) < Total(s.blocks)
            && (next != start ==> Dist(s.blocks, start, next) == Dist(s.blocks, start, pos) + 1)
            && (next == start ==> NoneDirty(s))
  {
    NextDist(s.blocks, start, pos);
    DistInRange(s.blocks, start, pos);
    forall q | ValidPos(s.blocks, q)
      ensures 0 <= Dist(s.blocks, start, q) < Total(s.blocks)
      ensures Dist(s.blocks, start, q) <= Dist(s.blocks, start, pos) ==> !IsDirty(s, q)
    {
      DistInRange(s.blocks, start, q);
      if Dist(s.blocks, start, q) == Dist(s.blocks, start, pos) {
        SameDist(s.blocks, start, q, pos);
      }
    }
  }

  lemma SentIsValid(s: Src, p: Pos)
    requires ValidSrc(s) && InRange(s, p)
    ensures ValidSrc(Sent(s, p)) && Encodable(PageRec(s, p))
  {
    assert ValidBlock(s.blocks[p.block]);
  }

  ghost function Stored(s: Src, p: Pos, page: Page, flags: Dirty): (r: Src)
    requires InRange(s, p)
  {
    s.(host := s.host[p.block := SetPage(s.host[p.block], p.page, page)],
       dirty := s.dirty[PageNo(s.blocks, p) := flags])
  }

  lemma StoreIsGuestStep(s: Src, p: Pos, page: Page, flags: Dirty)
    requires ValidSrc(s) && InRange(s, p) && flags.migration
    ensures GuestStep(s, Stored(s, p, page, flags)) && ValidSrc(Stored(s, p, page, flags))
  {
    forall q | ValidPos(s.blocks, q) ensures GuestLeaves(s, Stored(s, p, page, flags), q) {
      if q != p && PageNo(s.blocks, p) == PageNo(s.blocks, q) {
        PageNoInjective(s.blocks, p, q);
      }
    }
  }

  lemma SizesEncodable(s: Src)
    requires ValidSrc(s)
    ensures Encodable(Sizes(BlockSizes(s.blocks)))
    ensures forall i :: 0 <= i < |s.blocks| ==> s.blocks[i].base + s.blocks[i].pages <= |s.dirty|
  {
    var sizes := BlockSizes(s.blocks);
    forall i | 0 <= i < |s.blocks| ensures |sizes[i].0| < 256 { assert ValidBlock(s.blocks[i]); }
  }

  lemma FirstPageDirty(s: Src)
    requires ValidSrc(s)
    ensures AllDirty(s) ==> IsDirty(s, Pos(0, 0))
  {
    assert ValidBlock(s.blocks[0]) && ValidPos(s.blocks, Pos(0, 0));
  }

  lemma RunExtends(run: seq<Src>, s: Src)
    requires IsRun(run) && Step(run[|run| - 1], s)
    ensures IsRun(run + [s])
  {
  }

  lemma StartReached(s: Src)
    requires Started(s)
    ensures IsRun([s]) && AllDirty(s)
  {
  }

  /** From before to after, n page records have been sent and nothing else. */
  ghost predicate Pages(before: seq<Rec>, after: seq<Rec>, n: nat) {
    && |after| == |before| + n && after[..|before|] == before
    && forall i :: |before| <= i < |after| ==> after[i].Send?
  }

  lemma PagesOn(a: seq<Rec>, b: seq<Rec>, c: seq<Rec>, m: nat, n: nat)
    requires Pages(a, b, m) && Pages(b, c, n)
    ensures Pages(a, c, m + n)
  {
    forall i | |a| <= i < |c| ensures c[i].Send? {
      assert i < |b| ==> c[i] == c[..|b|][i];
    }
    assert c[..|a|] == c[..|b|][..|a|];
  }

  lemma SendExtends(run: seq<Src>, s: Src, s': Src)
    requires IsRun(run) && run[|run| - 1] == s && ValidSrc(s) && SendStep(s, s')
    ensures IsRun(run + [s']) && (run + [s'])[0] == run[0]
    ensures s'.cursor.Some? && |DirtySet(s')| == |DirtySet(s)| - 1 && Pages(s.recs, s'.recs, 1)
  {
    SendRemovesOne(s, s');
    RunExtends(run, s');
  }

  lemma StepRecs(s: Src, s': Src)
    requires SendStep(s, s')
    ensures s'.recs != [] && Weigh(s'.recs) == Weigh(s.recs) + Weight(s'.recs[|s'.recs| - 1])
  {
    WeighSnoc(s.recs, PageRec(s, s'.cursor.value));
  }

  lemma NoneLeft(s: Src)
    requires NoneDirty(s)
    ensures |DirtySet(s)| == 0
  {
    assert DirtySet(s) == {};
  }

  /** What a record adds to the bytes transferred. */
  function Weight(rec: Rec): (n: nat) {
    if rec.Send? then (if rec.body.Fill? then 1 else PAGE) else 0
  }

  function Weigh(recs: seq<Rec>): (n: nat) {
    if recs == [] then 0 else Weigh(recs[..|recs| - 1]) + Weight(recs[|recs| - 1])
  }

  lemma WeighSnoc(recs: seq<Rec>, rec: Rec)
    ensures Weigh(recs + [rec]) == Weigh(recs) + Weight(rec)
  {
    assert (recs + [rec])[..|recs|] == recs;
  }

  lemma EndIsStep(s: Src, s': Src)
    requires ValidSrc(s) && EndSection(s, s')
    ensures Step(s, s') && ValidSrc(s') && s'.host == s.host
    ensures AllDirty(s) ==> AllDirty(s')
    ensures NoneDirty(s) ==> NoneDirty(s')
    ensures DirtySet(s) == DirtySet(s')
  {
    forall p | ValidPos(s.blocks, p) ensures IsDirty(s, p) == IsDirty(s', p) {}
    assert DirtySet(s) == DirtySet(s');
  }

  /** Sets the dirty byte of every page whose migration flag is clear. */
  method MarkAll(blocks: seq<Block>, dirty0: seq<Dirty>) returns (dirty: seq<Dirty>)
    requires forall i :: 0 <= i < |blocks| ==> blocks[i].base + blocks[i].pages <= |dirty0|
    ensures |dirty| == |dirty0|
    ensures forall p :: ValidPos(blocks, p) ==> dirty[PageNo(blocks, p)].migration
    ensures forall k :: 0 <= k < |dirty| ==> dirty[k] == if dirty[k].migration && !dirty0[k].migration then ALL_DIRTY
                                                         else dirty0[k]
  {
    dirty := dirty0;
    for b := 0 to |blocks|
      invariant |dirty| == |dirty0|
      invariant forall k :: 0 <= k < |dirty| ==>
                  dirty[k] == dirty0[k] || (dirty[k] == ALL_DIRTY && !dirty0[k].migration)
      invariant forall p :: ValidPos(blocks, p) && p.block < b ==> dirty[PageNo(blocks, p)].migration
    {
      for k := 0 to blocks[b].pages
        invariant |dirty| == |dirty0|
        invariant forall k :: 0 <= k < |dirty| ==>
                    dirty[k] == dirty0[k] || (dirty[k] == ALL_DIRTY && !dirty0[k].migration)
        invariant forall p :: ValidPos(blocks, p) && (p.block < b || (p.block == b && p.page < k)) ==>
                    dirty[PageNo(blocks, p)].migration
      {
        var n := blocks[b].base + k;
        if !dirty[n].migration {
          dirty := dirty[n := ALL_DIRTY];
        }
      }
    }
  }

  /** The dirty pages that a walk over the list has met on arriving at page k of block b. */
  ghost function DirtyUpTo(s: Src, b: nat, k: nat): (r: set<Pos>) {
    set p | p in DirtySet(s) && (p.block < b || (p.block == b && p.page < k))
  }

  lemma UpToNextPage(s: Src, b: nat, k: nat)
    requires ValidSrc(s) && b < |s.blocks| && k < s.blocks[b].pages
    ensures |DirtyUpTo(s, b, k + 1)| == |DirtyUpTo(s, b, k)| + if IsDirty(s, Pos(b, k)) then 1 else 0
  {
    if IsDirty(s, Pos(b, k)) {
      assert DirtyUpTo(s, b, k + 1) == DirtyUpTo(s, b, k) + {Pos(b, k)};
    } else {
      assert DirtyUpTo(s, b, k + 1) == DirtyUpTo(s, b, k);
    }
  }

  lemma UpToNextBlock(s: Src, b: nat)
    requires ValidSrc(s) && b < |s.blocks|
    ensures DirtyUpTo(s, b, s.blocks[b].pages) == DirtyUpTo(s, b + 1, 0)
  {
  }

  /** The number of dirty pages that the walk has met, page by page. */
  ghost function CountUpTo(s: Src, b: nat, k: nat): (n: nat)
    requires b <= |s.blocks|
    decreases b, k
  {
    if k > 0 then CountUpTo(s, b, k - 1) + (if IsDirty(s, Pos(b, k - 1)) then 1 else 0)
    else if b > 0 then CountUpTo(s, b - 1, s.blocks[b - 1].pages)
    else 0
  }

  lemma {:induction false} CountIsSize(s: Src, b: nat, k: nat)
    requires ValidSrc(s) && b <= |s.blocks|
    requires if b < |s.blocks| then k <= s.blocks[b].pages else k == 0
    ensures CountUpTo(s, b, k) == |DirtyUpTo(s, b, k)|
    decreases b, k
  {
    if k > 0 {
      CountIsSize(s, b, k - 1);
      UpToNextPage(s, b, k - 1);
    } else if b > 0 {
      CountIsSize(s, b - 1, s.blocks[b - 1].pages);
      UpToNextBlock(s, b - 1);
    } else {
      assert DirtyUpTo(s, 0, 0) == {};
    }
  }

  lemma CountPage(s: Src, b: nat, k: nat)
    requires ValidSrc(s) && b < |s.blocks| && k < s.blocks[b].pages
    ensures s.blocks[b].base + k < |s.dirty|
    ensures CountUpTo(s, b, k + 1) == CountUpTo(s, b, k) + if s.dirty[s.blocks[b].base + k].migration then 1 else 0
  {
    assert IsDirty(s, Pos(b, k)) == s.dirty[s.blocks[b].base + k].migration;
  }

  lemma CountAll(s: Src)
    requires ValidSrc(s)
    ensures CountUpTo(s, |s.blocks|, 0) == |DirtySet(s)|
  {
    CountIsSize(s, |s.blocks|, 0);
    assert DirtyUpTo(s, |s.blocks|, 0) == DirtySet(s);
  }

  lemma MarkedIsStarted(s: Src, s': Src)
    requires ValidSrc(s) && |s'.dirty| == |s.dirty|
    requires s' == s.(dirty := s'.dirty, cursor := None, recs := [Sizes(BlockSizes(s.blocks))])
    requires forall p :: ValidPos(s.blocks, p) ==>
               PageNo(s.blocks, p) < |s'.dirty| && s'.dirty[PageNo(s.blocks, p)].migration
    ensures Started(s') && ValidSrc(s')
  {
    assert ValidSrc(s');
  }

  /** out is the encoding of recs. */
  ghost predicate Framed(recs: seq<Rec>, out: seq<byte>) {
    (forall i :: 0 <= i < |recs| ==> Encodable(recs[i])) && out == EncodeAll(recs)
  }

  lemma NothingFramed()
    ensures Framed([], [])
  {
  }

  lemma PosInRange(s: Src, p: Pos)
    requires ValidSrc(s) && ValidPos(s.blocks, p)
    ensures InRange(s, p)
  {
  }

  class Saver {
    const blocks: seq<Block>
    var host: seq<seq<Page>>
    var physDirty: seq<Dirty>
    var lastBlock: Option<nat>
    var lastPage: nat
    var bytesTransferred: nat
    var out: seq<byte>
    ghost var recs: seq<Rec>

    ghost function View(): (s: Src)
      reads this
    {
      Src(blocks, host, physDirty, if lastBlock.Some? then Some(Pos(lastBlock.value, lastPage)) else None, recs)
    }

    ghost predicate Valid()
      reads this
    {
      && ValidSrc(View())
      && (lastBlock.None? ==> lastPage == 0)
      && Framed(recs, out)
    }

    constructor (blocks: seq<Block>, host: seq<seq<Page>>, physDirty: seq<Dirty>)
      requires ValidSrc(Src(blocks, host, physDirty, None, []))
      ensures Valid() && View() == Src(blocks, host, physDirty, None, []) && bytesTransferred == 0
    {
      this.blocks, this.host, this.physDirty := blocks, host, physDirty;
      lastBlock, lastPage, bytesTransferred, out, recs := None, 0, 0, [], [];
    }

    /** Clears the migration flag of every page in a range. */
    method MaskDirtyRange(start: nat, len: nat)
      requires start + len <= |physDirty|
      modifies this`physDirty
      ensures |physDirty| == |old(physDirty)|
      ensures forall k :: 0 <= k < |physDirty| ==>
                physDirty[k] == if start <= k < start + len then old(physDirty[k]).(migration := false)
                                else old(physDirty[k])
    {
      for i := 0 to len
        invariant |physDirty| == |old(physDirty)|
        invariant forall k :: 0 <= k < |physDirty| ==>
                    physDirty[k] == if start <= k < start + i then old(physDirty[k]).(migration := false)
                                    else old(physDirty[k])
      {
        physDirty := physDirty[start + i := physDirty[start + i].(migration := false)];
      }
    }

    /** A store of the guest through the not-dirty path: the page takes the byte and its flags. */
    method GuestStore(p: Pos, addr: nat, val: byte)
      requires Valid() && InRange(View(), p) && addr < PAGE
      modifies this`host, this`physDirty
      ensures Valid() && GuestStep(old(View()), View())
      ensures View() == Stored(old(View()), p, old(host)[p.block][p.page][addr := val], View().dirty[PageNo(blocks, p)])
    {
      hide Framed, ValidSrc, GuestStep;
      ghost var s := View();
      var n := blocks[p.block].base + p.page;
      var page: Page := host[p.block][p.page][addr := val];
      host := host[p.block := SetPage(host[p.block], p.page, page)];
      physDirty := physDirty[n := ALL_DIRTY.(code := physDirty[n].code)];
      StoreIsGuestStep(s, p, page, physDirty[n]);
    }

    /** Appends one record to the stream. */
    method Put(rec: Rec)
      requires Encodable(rec)
      requires Framed(recs, out)
      modifies this`out, this`recs
      ensures recs == old(recs) + [rec] && out == old(out) + Encode(rec)
      ensures Framed(recs, out)
    {
      hide Encodable, Encode;
      out := out + Encode(rec);
      recs := recs + [rec];
      assert recs[..|recs| - 1] == old(recs);
    }

    /** The scan loop: the first dirty page in cyclic order from the cursor, if there is one. */
    method Scan() returns (pos: Pos, found: bool)
      requires Valid()
      requires lastBlock.None? ==> IsDirty(View(), Pos(0, 0))
      ensures found ==> FirstDirty(View(), pos)
      ensures !found ==> NoneDirty(View()) && View().cursor == Some(pos)
    {
      ghost var s := View();
      pos := Pos(if lastBlock.Some? then lastBlock.value else 0, lastPage);
      StartValid(s);
      assert ValidBlocks(blocks);
      hide Framed, ValidSrc, ValidBlocks, NextPos, Dist, Total, CleanBefore, NoneDirty;
      while true
        invariant ValidPos(blocks, pos)
        invariant lastBlock.None? ==> pos == Start(s)
        invariant CleanBefore(s, Start(s), pos)
        decreases Total(blocks) - Dist(blocks, Start(s), pos)
      {
        PosInRange(s, pos);
        if physDirty[blocks[pos.block].base + pos.page].migration {
          return pos, true;
        }
        ScanStep(s, Start(s), pos);
        pos := NextPos(blocks, pos);
        if blocks[pos.block].base + pos.page == blocks[lastBlock.value].base + lastPage {
          PageNoInjective(blocks, pos, Start(s));
          return pos, false;
        }
      }
    }

    /** One scan and its send. It sends nothing exactly when no page is dirty. */
    method SaveBlock() returns (sent: nat)
      requires Valid()
      requires lastBlock.None? ==> IsDirty(View(), Pos(0, 0))
      modifies this`lastBlock, this`lastPage, this`out, this`recs, this`physDirty
      ensures Valid()
      ensures sent == 0 <==> NoneDirty(old(View()))
      ensures sent == 0 ==> View() == old(View())
      ensures sent != 0 ==> SendStep(old(View()), View()) && sent == Weight(recs[|recs| - 1])
    {
      var pos, found := Scan();
      sent := 0;
      if found {
        sent := SendPage(pos);
      }
      lastBlock, lastPage := Some(pos.block), pos.page;
    }

    method SendPage(pos: Pos) returns (sent: nat)
      requires Valid() && FirstDirty(View(), pos)
      modifies this`lastBlock, this`lastPage, this`out, this`recs, this`physDirty
      ensures Valid() && View() == Sent(old(View()), pos)
      ensures recs != [] && sent == Weight(recs[|recs| - 1]) && sent > 0
    {
      ghost var s := View();
      SentIsValid(s, pos);
      hide Framed, ValidSrc, CleanBefore, Encodable;
      var cont := lastBlock == Some(pos.block);
      MaskDirtyRange(blocks[pos.block].base + pos.page, 1);
      assert physDirty == ClearDirty(s, pos);
      var p := host[pos.block][pos.page];
      var id := if cont then None else Some(blocks[pos.block].id);
      var dup := IsDupPage(p, p[0]);
      var rec := Send(pos.page, id, if dup then Fill(p[0]) else Full(p));
      Put(rec);
      sent := if dup then 1 else PAGE;
      lastBlock, lastPage := Some(pos.block), pos.page;
    }

    /** Stage 1: every page dirty, a fresh cursor, the block list on the wire. */
    method Begin()
      requires Valid()
      modifies this`lastBlock, this`lastPage, this`out, this`recs, this`physDirty, this`bytesTransferred
      ensures Valid() && Started(View()) && bytesTransferred == Weigh(recs)
    {
      hide Framed, ValidSrc, Started, Encodable, BlockSizes;
      ghost var s := View();
      SizesEncodable(s);
      var dirty := MarkAll(blocks, physDirty);
      bytesTransferred, lastBlock, lastPage, out, recs := 0, None, 0, [], [];
      NothingFramed();
      Put(Sizes(BlockSizes(blocks)));
      WeighSnoc([], Sizes(BlockSizes(blocks)));
      physDirty := dirty;
      MarkedIsStarted(s, View());
    }

    /** The states of run lead here, by steps of the protocol, and the bytes transferred are those of the
        page records. */
    ghost predicate Reached(run: seq<Src>)
      reads this
    {
      && Valid() && run != [] && IsRun(run) && View() == run[|run| - 1] && (lastBlock.None? ==> AllDirty(View()))
      && bytesTransferred == Weigh(recs)
    }

    /** One turn of either loop of the save handler: one page, unless none is dirty. */
    method Turn(ghost run0: seq<Src>) returns (sent: nat, ghost run: seq<Src>)
      requires Reached(run0)
      modifies this`lastBlock, this`lastPage, this`out, this`recs, this`physDirty, this`bytesTransferred
      ensures Reached(run) && run[0] == run0[0]
      ensures sent == 0 ==> NoneDirty(View()) && View() == old(View()) && |DirtySet(View())| == 0
      ensures sent != 0 ==> |DirtySet(View())| == |DirtySet(old(View()))| - 1 && Pages(old(recs), recs, 1)
    {
      hide Framed, ValidSrc, NoneDirty, AllDirty, DirtySet, SendStep, IsDirty, IsRun, Weigh, Weight, Pages;
      ghost var s := View();
      FirstPageDirty(s);
      sent := SaveBlock();
      bytesTransferred := bytesTransferred + sent;
      run := run0;
      if sent != 0 {
        SendExtends(run0, s, View());
        StepRecs(s, View());
        run := run0 + [View()];
      } else {
        NoneLeft(s);
      }
    }

    /** The rate-limited loop: budget pages, or all that are dirty if they are fewer. */
    method Transfer(budget: nat, ghost run0: seq<Src>) returns (ghost run: seq<Src>)
      requires Reached(run0)
      modifies this`lastBlock, this`lastPage, this`out, this`recs, this`physDirty, this`bytesTransferred
      ensures Reached(run) && run[0] == run0[0]
      ensures var dirty := |DirtySet(old(View()))|;
              var n := if dirty <= budget then dirty else budget;
              |DirtySet(View())| == dirty - n && Pages(old(recs), recs, n)
    {
      hide Framed, ValidSrc, NoneDirty, AllDirty, DirtySet, IsDirty, IsRun, Weigh;
      run := run0;
      var sent, left := 1, budget;
      ghost var n := 0;
      while left > 0 && sent != 0
        invariant Reached(run) && run[0] == run0[0]
        invariant |DirtySet(View())| == |DirtySet(old(View()))| - n && Pages(old(recs), recs, n)
        invariant if sent != 0 then n == budget - left else n < budget && |DirtySet(View())| == 0
        decreases left
      {
        ghost var before := recs;
        sent, run := Turn(run);
        left := left - 1;
        if sent != 0 {
          PagesOn(old(recs), before, recs, n, 1);
          n := n + 1;
        }
      }
    }

    /** The stage 3 loop: it ends, and only once every dirty page has been sent. */
    method Drain(ghost run0: seq<Src>) returns (ghost run: seq<Src>)
      requires Reached(run0)
      modifies this`lastBlock, this`lastPage, this`out, this`recs, this`physDirty, this`bytesTransferred
      ensures Reached(run) && run[0] == run0[0] && NoneDirty(View())
      ensures |DirtySet(View())| == 0 && Pages(old(recs), recs, |DirtySet(old(View()))|)
    {
      hide Framed, ValidSrc, NoneDirty, AllDirty, DirtySet, IsDirty, IsRun, Weigh;
      run := run0;
      var sent := 1;
      ghost var n := 0;
      while sent != 0
        invariant Reached(run) && run[0] == run0[0]
        invariant sent == 0 ==> NoneDirty(View()) && |DirtySet(View())| == 0
        invariant |DirtySet(View())| == |DirtySet(old(View()))| - n && Pages(old(recs), recs, n)
        decreases |DirtySet(View())|, sent
      {
        ghost var before := recs;
        sent, run := Turn(run);
        if sent != 0 {
          PagesOn(old(recs), before, recs, n, 1);
          n := n + 1;
        }
      }
    }

    /** One call of the save handler with budget turns before the rate limit stops it: the states it
        goes through are steps of the protocol. It sends budget pages, or all that are dirty if they are
        fewer or in stage 3, and then EOS. A negative stage cancels the migration and sends nothing. */
    method SaveLive(stage: int, budget: nat) returns (ghost run: seq<Src>)
      requires Valid()
      requires stage >= 0 && stage != 1 ==> Reached([View()])
      modifies this`lastBlock, this`lastPage, this`out, this`recs, this`physDirty, this`bytesTransferred
      ensures stage < 0 ==> View() == old(View()) && out == old(out)
      ensures stage >= 0 ==> Reached(run) && recs != [] && recs[|recs| - 1].Eos?
      ensures stage == 1 ==> Started(run[0])
      ensures stage >= 0 && stage != 1 ==> run[0] == old(View())
      ensures stage == 3 ==> NoneDirty(View())
      ensures stage >= 0 ==>
                var dirty := |DirtySet(run[0])|;
                var n := if stage == 3 || dirty <= budget then dirty else budget;
                |DirtySet(View())| == dirty - n && Pages(run[0].recs, recs[..|recs| - 1], n)
    {
      hide Framed, ValidSrc, AllDirty, IsRun, NoneDirty, Started, DirtySet, Weigh, Pages;
      run := [View()];
      if stage < 0 {
        return;
      }
      if stage == 1 {
        Begin();
        StartReached(View());
        run := [View()];
      }
      ghost var s, dirty := recs, |DirtySet(View())|;
      run := Transfer(budget, run);
      if stage == 3 {
        ghost var mid, left := recs, |DirtySet(View())|;
        run := Drain(run);
        PagesOn(s, mid, recs, dirty - left, left);
      }
      run := Finish(run);
    }

    method Finish(ghost run0: seq<Src>) returns (ghost run: seq<Src>)
      requires Reached(run0)
      modifies this`out, this`recs
      ensures Reached(run) && run[0] == run0[0]
      ensures recs != [] && recs[|recs| - 1].Eos? && recs[..|recs| - 1] == old(recs)
      ensures NoneDirty(old(View())) ==> NoneDirty(View())
      ensures DirtySet(View()) == DirtySet(old(View()))
    {
      WeighSnoc(recs, Eos);
      Put(Eos);
      EndIsStep(old(View()), View());
      RunExtends(run0, View());
      run := run0 + [View()];
    }

    /** Counts the dirty pages. */
    method Remaining() returns (count: nat)
      requires Valid()
      ensures count == |DirtySet(View())|
    {
      ghost var s := View();
      count := 0;
      for b := 0 to |blocks|
        invariant count == CountUpTo(s, b, 0)
      {
        for k := 0 to blocks[b].pages
          invariant count == CountUpTo(s, b, k)
        {
          CountPage(s, b, k);
          if physDirty[blocks[b].base + k].migration {
            count := count + 1;
          }
        }
      }
      CountAll(s);
    }
  }
}
