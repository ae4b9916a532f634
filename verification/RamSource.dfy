/** The sending side of RAM migration: block list, dirty flags, scan cursor. */
module RamSource {
  import opened Wire
  import opened RamStream

  /** One byte of phys_dirty, by its named flags: 0x01, 0x02 and 0x08. */
  datatype Dirty = Dirty(vga: bool, code: bool, migration: bool)

  const ALL_DIRTY := Dirty(true, true, true)

  /** A block of the list: the number of its first page in phys_dirty, its length in pages, its id. */
  datatype Block = Block(base: nat, pages: nat, id: Id)

  /** A page: a block of the list and the page's index in it. */
  datatype Pos = Pos(block: nat, page: nat)

  /** The sender: its memory and dirty bytes, the last page sent, the records sent so far. */
  datatype Src = Src(blocks: seq<Block>, host: seq<seq<Page>>, dirty: seq<Dirty>, cursor: Option<Pos>,
                     recs: seq<Rec>)

  // ---------------------------------------------------------------- block list

  predicate ValidBlock(b: Block) {
    b.pages > 0 && PAGE * b.pages < WORD && |b.id| < 256 && 0 !in b.id
  }

  predicate Apart(a: Block, b: Block) {
    a.id != b.id && (a.base + a.pages <= b.base || b.base + b.pages <= a.base)
  }

  ghost predicate ValidBlocks(blocks: seq<Block>) {
    && blocks != []
    && (forall i :: 0 <= i < |blocks| ==> ValidBlock(blocks[i]))
    && (forall i, j :: 0 <= i < j < |blocks| ==> Apart(blocks[i], blocks[j]))
  }

  predicate ValidPos(blocks: seq<Block>, p: Pos) {
    p.block < |blocks| && p.page < blocks[p.block].pages
  }

  /** The index of a page's byte in phys_dirty. */
  function PageNo(blocks: seq<Block>, p: Pos): (n: nat)
    requires p.block < |blocks|
  {
    blocks[p.block].base + p.page
  }

  lemma BlocksApart(blocks: seq<Block>, i: nat, j: nat)
    requires ValidBlocks(blocks) && i < |blocks| && j < |blocks| && i != j
    ensures Apart(blocks[i], blocks[j])
  {
    assert Apart(blocks[if i < j then i else j], blocks[if i < j then j else i]);
  }

  lemma PageNoInjective(blocks: seq<Block>, p: Pos, q: Pos)
    requires ValidBlocks(blocks) && ValidPos(blocks, p) && ValidPos(blocks, q)
    requires PageNo(blocks, p) == PageNo(blocks, q)
    ensures p == q
  {
    if p.block != q.block {
      BlocksApart(blocks, p.block, q.block);
    }
  }

  // ---------------------------------------------------------------- cyclic order

  function PagesBefore(blocks: seq<Block>, b: nat): (n: nat)
    requires b <= |blocks|
  {
    if b == 0 then 0 else PagesBefore(blocks, b - 1) + blocks[b - 1].pages
  }

  /** The rank of a page in list order. */
  function Rank(blocks: seq<Block>, p: Pos): (n: nat)
    requires p.block < |blocks|
  {
    PagesBefore(blocks, p.block) + p.page
  }

  function Total(blocks: seq<Block>): (n: nat) {
    PagesBefore(blocks, |blocks|)
  }

  lemma {:induction false} PagesBeforeGrows(blocks: seq<Block>, b: nat, c: nat)
    requires b <= c <= |blocks|
    ensures PagesBefore(blocks, b) <= PagesBefore(blocks, c)
  {
    if b < c { PagesBeforeGrows(blocks, b, c - 1); }
  }

  lemma RankBelowTotal(blocks: seq<Block>, p: Pos)
    requires ValidPos(blocks, p)
    ensures Rank(blocks, p) < PagesBefore(blocks, p.block + 1) <= Total(blocks)
  {
    PagesBeforeGrows(blocks, p.block + 1, |blocks|);
  }

  lemma RankInjective(blocks: seq<Block>, p: Pos, q: Pos)
    requires ValidPos(blocks, p) && ValidPos(blocks, q)
    requires Rank(blocks, p) == Rank(blocks, q)
    ensures p == q
  {
    RankBelowTotal(blocks, p);
    RankBelowTotal(blocks, q);
    if p.block < q.block {
      PagesBeforeGrows(blocks, p.block + 1, q.block);
    } else if q.block < p.block {
      PagesBeforeGrows(blocks, q.block + 1, p.block);
    }
  }

  /** The scan's next page: the next one of the block, else the first of the next block, else
      the first page of the list. */
  function NextPos(blocks: seq<Block>, p: Pos): (q: Pos)
    requires p.block < |blocks|
  {
    if p.page + 1 < blocks[p.block].pages then Pos(p.block, p.page + 1)
    else Pos(if p.block + 1 < |blocks| then p.block + 1 else 0, 0)
  }

  lemma NextRank(blocks: seq<Block>, p: Pos)
    requires ValidBlocks(blocks) && ValidPos(blocks, p)
    ensures var q := NextPos(blocks, p);
            && ValidPos(blocks, q)
            && Rank(blocks, q) == if Rank(blocks, p) + 1 == Total(blocks) then 0 else Rank(blocks, p) + 1
  {
    var q := NextPos(blocks, p);
    assert ValidBlock(blocks[q.block]);
    RankBelowTotal(blocks, p);
    RankBelowTotal(blocks, q);
  }

  /** How many scan steps lead from one page to another. */
  function Dist(blocks: seq<Block>, p: Pos, q: Pos): (n: int)
    requires p.block < |blocks| && q.block < |blocks|
  {
    var d := Rank(blocks, q) - Rank(blocks, p);
    if d >= 0 then d else d + Total(blocks)
  }

  lemma DistInRange(blocks: seq<Block>, start: Pos, p: Pos)
    requires ValidPos(blocks, start) && ValidPos(blocks, p)
    ensures 0 <= Dist(blocks, start, p) < Total(blocks)
  {
    RankBelowTotal(blocks, start);
    RankBelowTotal(blocks, p);
  }

  lemma SameDist(blocks: seq<Block>, start: Pos, p: Pos, q: Pos)
    requires ValidPos(blocks, start) && ValidPos(blocks, p) && ValidPos(blocks, q)
    requires Dist(blocks, start, p) == Dist(blocks, start, q)
    ensures p == q
  {
    RankBelowTotal(blocks, start);
    RankBelowTotal(blocks, p);
    RankBelowTotal(blocks, q);
    RankInjective(blocks, p, q);
  }

  lemma NextDist(blocks: seq<Block>, start: Pos, p: Pos)
    requires ValidBlocks(blocks) && ValidPos(blocks, start) && ValidPos(blocks, p)
    ensures var q := NextPos(blocks, p);
            && ValidPos(blocks, q)
            && (q != start ==> Dist(blocks, start, q) == Dist(blocks, start, p) + 1)
            && (q == start ==> Dist(blocks, start, p) + 1 == Total(blocks))
  {
    var q := NextPos(blocks, p);
    NextRank(blocks, p);
    RankBelowTotal(blocks, start);
    RankBelowTotal(blocks, p);
    if q != start && Rank(blocks, q) == Rank(blocks, start) {
      RankInjective(blocks, q, start);
    }
  }

  // ---------------------------------------------------------------- state and steps

  ghost predicate ValidSrc(s: Src) {
    && ValidBlocks(s.blocks)
    && |s.host| == |s.blocks|
    && (forall i :: 0 <= i < |s.blocks| ==>
          |s.host[i]| == s.blocks[i].pages && s.blocks[i].base + s.blocks[i].pages <= |s.dirty|)
    && (s.cursor.Some? ==> ValidPos(s.blocks, s.cursor.value))
  }

  predicate InRange(s: Src, p: Pos) {
    && ValidPos(s.blocks, p) && p.block < |s.host| && p.page < |s.host[p.block]|
    && PageNo(s.blocks, p) < |s.dirty|
  }

  predicate IsDirty(s: Src, p: Pos) {
    InRange(s, p) && s.dirty[PageNo(s.blocks, p)].migration
  }

  function PageOf(s: Src, p: Pos): (page: Page)
    requires InRange(s, p)
  {
    s.host[p.block][p.page]
  }

  ghost predicate AllDirty(s: Src) {
    forall p :: ValidPos(s.blocks, p) ==> IsDirty(s, p)
  }

  ghost predicate NoneDirty(s: Src) {
    forall p :: ValidPos(s.blocks, p) ==> !IsDirty(s, p)
  }

  /** Where the scan starts. */
  function Start(s: Src): (p: Pos) {
    if s.cursor.Some? then s.cursor.value else Pos(0, 0)
  }

  /** Every page that the scan meets before pos is clean. */
  ghost predicate CleanBefore(s: Src, start: Pos, pos: Pos)
    requires start.block < |s.blocks| && pos.block < |s.blocks|
  {
    forall q :: ValidPos(s.blocks, q) && Dist(s.blocks, start, q) < Dist(s.blocks, start, pos) ==> !IsDirty(s, q)
  }

  /** p is the first dirty page in cyclic order from the cursor. */
  ghost predicate FirstDirty(s: Src, p: Pos) {
    && Start(s).block < |s.blocks|
    && ValidPos(s.blocks, p) && IsDirty(s, p)
    && CleanBefore(s, Start(s), p)
  }

  /** A page whose bytes are all equal travels as one byte. */
  function BodyFor(page: Page): (body: Body)
    ensures BodyPage(body) == page
  {
    if forall k :: 0 <= k < PAGE ==> page[k] == page[0] then Fill(page[0]) else Full(page)
  }

  function PageRec(s: Src, p: Pos): (rec: Rec)
    requires InRange(s, p)
  {
    Send(p.page,
         if s.cursor.Some? && s.cursor.value.block == p.block then None else Some(s.blocks[p.block].id),
         BodyFor(PageOf(s, p)))
  }

  function ClearDirty(s: Src, p: Pos): (dirty: seq<Dirty>)
    requires InRange(s, p)
  {
    var n := PageNo(s.blocks, p);
    s.dirty[n := s.dirty[n].(migration := false)]
  }

  function Sent(s: Src, p: Pos): (r: Src)
    requires InRange(s, p)
  {
    s.(dirty := ClearDirty(s, p), cursor := Some(p), recs := s.recs + [PageRec(s, p)])
  }

  /** ram_save_block, when it sends: the first dirty page goes out and becomes clean. */
  ghost predicate SendStep(s: Src, s': Src) {
    s'.cursor.Some? && FirstDirty(s, s'.cursor.value) && s' == Sent(s, s'.cursor.value)
  }

  /** The guest ran: every page it changed is dirty, and it cleared no flag. */
  ghost predicate GuestStep(s: Src, s': Src) {
    && ValidSrc(s')
    && s'.blocks == s.blocks && s'.cursor == s.cursor && s'.recs == s.recs
    && forall p :: ValidPos(s.blocks, p) ==> GuestLeaves(s, s', p)
  }

  predicate GuestLeaves(s: Src, s': Src, p: Pos) {
    && InRange(s, p) && InRange(s', p)
    && (IsDirty(s, p) ==> IsDirty(s', p))
    && (!IsDirty(s', p) ==> PageOf(s', p) == PageOf(s, p))
  }

  ghost predicate EndSection(s: Src, s': Src) {
    s' == s.(recs := s.recs + [Eos])
  }

  ghost predicate Step(s: Src, s': Src) {
    ValidSrc(s) && (SendStep(s, s') || GuestStep(s, s') || EndSection(s, s'))
  }

  ghost predicate IsRun(run: seq<Src>) {
    run != [] && forall i :: 0 < i < |run| ==> Step(run[i - 1], run[i])
  }

  function BlockSizes(blocks: seq<Block>): (sizes: seq<(Id, nat)>)
    ensures |sizes| == |blocks|
    ensures forall i :: 0 <= i < |blocks| ==> sizes[i] == (blocks[i].id, blocks[i].pages)
  {
    if blocks == [] then [] else [(blocks[0].id, blocks[0].pages)] + BlockSizes(blocks[1..])
  }

  /** The state that stage 1 sets up. */
  ghost predicate Started(s: Src) {
    ValidSrc(s) && s.cursor.None? && AllDirty(s) && s.recs == [Sizes(BlockSizes(s.blocks))]
  }

  // ---------------------------------------------------------------- what is left to send

  function Positions(blocks: seq<Block>): (r: set<Pos>)
    ensures forall p :: p in r <==> ValidPos(blocks, p)
  {
    set b: nat, k: nat | b < |blocks| && k < blocks[b].pages :: Pos(b, k)
  }

  /** The pages that ram_save_remaining counts. */
  function DirtySet(s: Src): (r: set<Pos>) {
    set p | p in Positions(s.blocks) && IsDirty(s, p)
  }

  lemma DirtyAfterClear(s: Src, p: Pos, q: Pos)
    requires ValidSrc(s) && InRange(s, p) && ValidPos(s.blocks, q)
    ensures IsDirty(Sent(s, p), q) <==> IsDirty(s, q) && q != p
  {
    if q != p && PageNo(s.blocks, q) == PageNo(s.blocks, p) {
      PageNoInjective(s.blocks, p, q);
    }
  }

  /** Each send lowers what is left by exactly one page: the measure of the final drain. */
  lemma SendRemovesOne(s: Src, s': Src)
    requires ValidSrc(s) && SendStep(s, s')
    ensures ValidSrc(s')
    ensures s'.cursor.value in DirtySet(s)
    ensures DirtySet(s') == DirtySet(s) - {s'.cursor.value}
    ensures |DirtySet(s')| == |DirtySet(s)| - 1
  {
    var p := s'.cursor.value;
    forall q | ValidPos(s.blocks, q) ensures IsDirty(s', q) <==> IsDirty(s, q) && q != p {
      DirtyAfterClear(s, p, q);
    }
    assert DirtySet(s') == DirtySet(s) - {p};
  }
}
