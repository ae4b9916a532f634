/** The RAM section of the migration stream: records, their bytes, and the receiver. */
module RamStream {
  import opened Wire

  const PAGE := 4096

  const FLAG_COMPRESS := 0x02
  const FLAG_MEM_SIZE := 0x04
  const FLAG_PAGE := 0x08
  const FLAG_EOS := 0x10
  const FLAG_CONTINUE := 0x20

  /** The flag bits that share a word with a page-aligned address. */
  datatype Flags = Flags(compress: bool, memSize: bool, page: bool, eos: bool, cont: bool)

  function Bit(b: bool): (n: nat)
    ensures n < 2
  {
    if b then 1 else 0
  }

  function Low(f: Flags): (n: nat)
    ensures n < 64
  {
    FLAG_COMPRESS * Bit(f.compress) + FLAG_MEM_SIZE * Bit(f.memSize) + FLAG_PAGE * Bit(f.page)
    + FLAG_EOS * Bit(f.eos) + FLAG_CONTINUE * Bit(f.cont)
  }

  /** The word that carries a page-aligned address and flags: OR is addition there. */
  function Head(page: nat, f: Flags): (w: nat) {
    PAGE * page + Low(f)
  }

  function FlagsIn(w: nat): (f: Flags) {
    var w1 := w / 2;
    var w2 := w1 / 2;
    var w3 := w2 / 2;
    var w4 := w3 / 2;
    Flags(w1 % 2 == 1, w2 % 2 == 1, w3 % 2 == 1, w4 % 2 == 1, w4 / 2 % 2 == 1)
  }

  function Shift(x: nat, b: bool): (w: nat) { 2 * x + Bit(b) }

  lemma Halve(x: nat, b: bool)
    ensures Shift(x, b) / 2 == x && (Shift(x, b) % 2 == 1 <==> b)
  {
  }

  /** The word built bit by bit from the top. */
  function Bitwise(q: nat, f: Flags): (w: nat) {
    Shift(Shift(Shift(Shift(Shift(Shift(64 * q, f.cont), f.eos), f.page), f.memSize), f.compress), false)
  }

  lemma FlagsSplit(q: nat, f: Flags)
    ensures FlagsIn(Head(q, f)) == f
  {
    assert Head(q, f) == Bitwise(q, f);
    hide Shift, Head;
    var w4 := Shift(64 * q, f.cont);
    var w3 := Shift(w4, f.eos);
    var w2 := Shift(w3, f.page);
    var w1 := Shift(w2, f.memSize);
    Halve(Shift(w1, f.compress), false);
    Halve(w1, f.compress);
    Halve(w2, f.memSize);
    Halve(w3, f.page);
    Halve(w4, f.eos);
    Halve(64 * q, f.cont);
  }

  lemma AddressSplit(q: nat, f: Flags)
    ensures Head(q, f) / PAGE == q
  {
  }

  type Id = seq<byte>

  /** The contents of one page. Memory is counted in pages: every block offset and length is a
      multiple of the page size. */
  type Page = p: seq<byte> | |p| == PAGE witness seq(PAGE, _ => 0)

  datatype Body = Fill(ch: byte) | Full(data: Page)

  /** One record: the block list with its page counts, a page, or the end of a section. A page
      record without an id is a CONTINUE record. */
  datatype Rec =
    | Sizes(blocks: seq<(Id, nat)>)
    | Send(page: nat, id: Option<Id>, body: Body)
    | Eos

  /** The receiver: its block list, the pages of each block, and the static block pointer. */
  datatype Dest = Dest(ids: seq<Id>, host: seq<seq<Page>>, block: Option<nat>)

  predicate ValidDest(d: Dest) {
    && |d.ids| == |d.host|
    && (d.block.Some? ==> d.block.value < |d.ids|)
  }

  // ---------------------------------------------------------------- bytes

  function EncodeId(id: Id): (s: seq<byte>)
    requires |id| < 256
  {
    [|id|] + id
  }

  function SumPages(blocks: seq<(Id, nat)>): (n: nat) {
    if blocks == [] then 0 else blocks[0].1 + SumPages(blocks[1..])
  }

  function EncodeSizes(blocks: seq<(Id, nat)>): (s: seq<byte>)
    requires forall i :: 0 <= i < |blocks| ==> |blocks[i].0| < 256
  {
    if blocks == [] then []
    else EncodeId(blocks[0].0) + Put64(PAGE * blocks[0].1) + EncodeSizes(blocks[1..])
  }

  predicate Encodable(rec: Rec) {
    match rec
    case Sizes(blocks) => forall i :: 0 <= i < |blocks| ==> |blocks[i].0| < 256
    case Send(_, id, _) => id.Some? ==> |id.value| < 256
    case Eos => true
  }

  function PageFlags(id: Option<Id>, body: Body): (f: Flags) {
    Flags(body.Fill?, false, body.Full?, false, id.None?)
  }

  const SIZES_FLAGS := Flags(false, true, false, false, false)
  const EOS_FLAGS := Flags(false, false, false, true, false)

  function Encode(rec: Rec): (s: seq<byte>)
    requires Encodable(rec)
  {
    match rec
    case Sizes(blocks) => Put64(Head(SumPages(blocks), SIZES_FLAGS)) + EncodeSizes(blocks)
    case Send(page, id, body) =>
      Put64(Head(page, PageFlags(id, body)))
      + (if id.Some? then EncodeId(id.value) else [])
      + (if body.Fill? then [body.ch] else body.data)
    case Eos => Put64(Head(0, EOS_FLAGS))
  }

  function EncodeAll(recs: seq<Rec>): (s: seq<byte>)
    requires forall i :: 0 <= i < |recs| ==> Encodable(recs[i])
  {
    if recs == [] then [] else EncodeAll(recs[..|recs| - 1]) + Encode(recs[|recs| - 1])
  }

  // ---------------------------------------------------------------- receiver, on bytes

  /** A stream id as a C string: what stands before its first NUL. */
  function CString(s: seq<byte>): (r: seq<byte>)
  {
    if s == [] || s[0] == 0 then [] else [s[0]] + CString(s[1..])
  }

  function Find(ids: seq<Id>, id: Id): (r: Option<nat>)
    ensures r.Some? ==> r.value < |ids|
  {
    if ids == [] then None
    else if ids[0] == id then Some(0)
    else
      match Find(ids[1..], id)
      case None => None
      case Some(k) => Some(k + 1)
  }

  function SetPage(pages: seq<Page>, k: nat, p: Page): (r: seq<Page>)
    requires k < |pages|
    ensures |r| == |pages|
  {
    pages[k := p]
  }

  function Repeat(ch: byte): (r: Page)
  {
    seq(PAGE, _ => ch)
  }

  datatype LoadError = Einval | NullHost | OutsideBlock | ShortStream

  datatype Checked = Good(rest: seq<byte>) | Bad(error: LoadError)

  /** The MEM_SIZE loop: every announced block must exist here with the same length. */
  function CheckSizes(total: int, s: seq<byte>, d: Dest): (r: Checked)
    requires ValidDest(d)
    ensures r.Good? ==> |r.rest| <= |s|
    decreases |s|
  {
    if total == 0 then Good(s)
    else
      var end: nat := if s == [] then 1 else 1 + s[0] as int;
      if |s| < end + 8 then Bad(ShortStream)
      else
        match Find(d.ids, CString(s[1..end]))
        case None => Bad(Einval)
        case Some(b) =>
          var length := GetBE(s[end..end + 8]);
          if PAGE * |d.host[b]| != length then Bad(Einval)
          else CheckSizes(Minus64(total, length), s[end + 8..], d)
  }

  datatype Host = Host(rest: seq<byte>, block: Option<nat>) | NoBytes

  /** host_from_stream_offset: the block a page record names. */
  function Resolve(f: Flags, s: seq<byte>, d: Dest): (r: Host)
    requires ValidDest(d)
    ensures r.Host? ==> |r.rest| <= |s| && (r.block.Some? ==> r.block.value < |d.ids|)
  {
    if f.cont then Host(s, d.block)
    else
      var end: nat := if s == [] then 1 else 1 + s[0] as int;
      if |s| < end then NoBytes else Host(s[end..], Find(d.ids, CString(s[1..end])))
  }

  datatype Load = Loaded(dest: Dest, rest: seq<byte>, eos: bool) | Failed(error: LoadError)

  function LoadPage(f: Flags, page: nat, s: seq<byte>, d: Dest): (r: Load)
    requires ValidDest(d)
    ensures r.Loaded? ==> ValidDest(r.dest) && |r.rest| <= |s|
  {
    match Resolve(f, s, d)
    case NoBytes => Failed(ShortStream)
    case Host(_, None) => Failed(if f.compress then Einval else NullHost)
    case Host(rest, Some(b)) =>
      var n := if f.compress then 1 else PAGE;
      if |rest| < n then Failed(ShortStream)
      else if page >= |d.host[b]| then Failed(OutsideBlock)
      else
        var data: Page := if f.compress then Repeat(rest[0]) else rest[..PAGE];
        Loaded(d.(host := d.host[b := SetPage(d.host[b], page, data)], block := Some(b)), rest[n..], f.eos)
  }

  /** What the receiver does with a word once it is split into flags and page number. */
  function LoadBody(f: Flags, page: nat, s: seq<byte>, d: Dest): (r: Load)
    requires ValidDest(d)
    ensures r.Loaded? ==> ValidDest(r.dest) && |r.rest| <= |s|
  {
    var checked := if f.memSize then CheckSizes(PAGE * page, s, d) else Good(s);
    match checked
    case Bad(e) => Failed(e)
    case Good(rest) =>
      if f.compress || f.page then LoadPage(f, page, rest, d)
      else Loaded(d, rest, f.eos)
  }

  /** One turn of the receiver's loop. */
  function LoadWord(s: seq<byte>, d: Dest): (r: Load)
    requires ValidDest(d)
    ensures r.Loaded? ==> ValidDest(r.dest) && |r.rest| < |s|
  {
    if |s| < 8 then Failed(ShortStream)
    else
      var w := GetBE(s[..8]);
      LoadBody(FlagsIn(w), w / PAGE, s[8..], d)
  }

  /** ram_load: words up to and including the one that carries EOS. */
  function LoadSection(s: seq<byte>, d: Dest): (r: Load)
    requires ValidDest(d)
    ensures r.Loaded? ==> ValidDest(r.dest) && |r.rest| < |s|
    decreases |s|
  {
    match LoadWord(s, d)
    case Failed(e) => Failed(e)
    case Loaded(d1, rest, eos) => if eos then Loaded(d1, rest, true) else LoadSection(rest, d1)
  }

  /** As many calls of ram_load as it takes to use up the bytes. */
  function LoadSections(s: seq<byte>, d: Dest): (r: Load)
    requires ValidDest(d)
    decreases |s|
  {
    if s == [] then Loaded(d, [], true)
    else
      match LoadSection(s, d)
      case Failed(e) => Failed(e)
      case Loaded(d1, rest, _) => LoadSections(rest, d1)
  }

  // ---------------------------------------------------------------- receiver, on records

  function Target(id: Option<Id>, d: Dest): (r: Option<nat>)
  {
    if id.Some? then Find(d.ids, id.value) else d.block
  }

  function BodyPage(body: Body): (p: Page) {
    if body.Fill? then Repeat(body.ch) else body.data
  }

  predicate KnownBlock(block: (Id, nat), d: Dest)
    requires ValidDest(d)
  {
    && |block.0| < 256 && 0 !in block.0
    && 0 < block.1 && PAGE * block.1 < WORD
    && Find(d.ids, block.0).Some?
    && |d.host[Find(d.ids, block.0).value]| == block.1
  }

  /** The records that a receiver in state d takes. */
  predicate Accepts(rec: Rec, d: Dest)
    requires ValidDest(d)
  {
    match rec
    case Sizes(blocks) =>
      && (forall i :: 0 <= i < |blocks| ==> KnownBlock(blocks[i], d))
      && PAGE * SumPages(blocks) + PAGE <= WORD
    case Send(page, id, body) =>
      && PAGE * page + PAGE <= WORD
      && (id.Some? ==> |id.value| < 256 && 0 !in id.value)
      && Target(id, d).Some?
      && page < |d.host[Target(id, d).value]|
    case Eos => true
  }

  function Apply(rec: Rec, d: Dest): (r: Dest)
    requires ValidDest(d) && Accepts(rec, d)
    ensures ValidDest(r) && r.ids == d.ids
    ensures forall b :: 0 <= b < |d.host| ==> |r.host[b]| == |d.host[b]|
  {
    if rec.Send? then
      var b := Target(rec.id, d).value;
      Dest(d.ids, d.host[b := SetPage(d.host[b], rec.page, BodyPage(rec.body))], Some(b))
    else d
  }

  /** The receiver after a list of records; None once one of them is refused. */
  function Replay(recs: seq<Rec>, d: Dest): (r: Option<Dest>)
    requires ValidDest(d)
    ensures r.Some? ==> ValidDest(r.value) && r.value.ids == d.ids
    ensures r.Some? ==> forall b :: 0 <= b < |d.host| ==> |r.value.host[b]| == |d.host[b]|
    ensures r.Some? ==> forall i :: 0 <= i < |recs| ==> Encodable(recs[i])
  {
    if recs == [] then Some(d)
    else
      match Replay(recs[..|recs| - 1], d)
      case None => None
      case Some(d1) =>
        if Accepts(recs[|recs| - 1], d1) then Some(Apply(recs[|recs| - 1], d1)) else None
  }

  // ---------------------------------------------------------------- loading undoes encoding

  lemma EncodableSizes(blocks: seq<(Id, nat)>, d: Dest)
    requires ValidDest(d)
    requires forall i :: 0 <= i < |blocks| ==> KnownBlock(blocks[i], d)
    ensures forall i :: 0 <= i < |blocks| ==> |blocks[i].0| < 256
  {
    forall i | 0 <= i < |blocks| ensures |blocks[i].0| < 256 { assert KnownBlock(blocks[i], d); }
  }

  lemma SizesFront(blocks: seq<(Id, nat)>, rest: seq<byte>)
    requires blocks != []
    requires forall i :: 0 <= i < |blocks| ==> |blocks[i].0| < 256
    ensures EncodeSizes(blocks) + rest
         == EncodeId(blocks[0].0) + (Put64(PAGE * blocks[0].1) + (EncodeSizes(blocks[1..]) + rest))
  {
    Associates(EncodeId(blocks[0].0), Put64(PAGE * blocks[0].1), EncodeSizes(blocks[1..]));
    Associates(EncodeId(blocks[0].0), Put64(PAGE * blocks[0].1) + EncodeSizes(blocks[1..]), rest);
    Associates(Put64(PAGE * blocks[0].1), EncodeSizes(blocks[1..]), rest);
  }

  lemma {:induction false} SizesRoundTrip(blocks: seq<(Id, nat)>, rest: seq<byte>, d: Dest)
    requires ValidDest(d)
    requires forall i :: 0 <= i < |blocks| ==> KnownBlock(blocks[i], d)
    requires PAGE * SumPages(blocks) < WORD
    ensures Encodable(Sizes(blocks))
    ensures CheckSizes(PAGE * SumPages(blocks), EncodeSizes(blocks) + rest, d) == Good(rest)
  {
    EncodableSizes(blocks, d);
    if blocks == [] {
      assert EncodeSizes(blocks) + rest == rest;
    } else {
      assert KnownBlock(blocks[0], d);
      SizesRoundTrip(blocks[1..], rest, d);
      var more := EncodeSizes(blocks[1..]) + rest;
      SizesFront(blocks, rest);
      SizeStep(PAGE * SumPages(blocks), blocks[0], more, d);
    }
  }

  lemma SizeStep(total: nat, block: (Id, nat), more: seq<byte>, d: Dest)
    requires ValidDest(d) && KnownBlock(block, d) && total >= PAGE * block.1
    ensures CheckSizes(total, EncodeId(block.0) + (Put64(PAGE * block.1) + more), d) ==
            CheckSizes(total - PAGE * block.1, more, d)
  {
    SizeEntry(block, more);
    CStringPlain(block.0);
  }

  lemma {:induction false} CStringPlain(s: seq<byte>)
    requires 0 !in s
    ensures CString(s) == s
  {
    if s != [] { CStringPlain(s[1..]); }
  }

  /** One entry of the block list, cut out of the bytes that hold it. */
  lemma SizeEntry(block: (Id, nat), rest: seq<byte>)
    requires |block.0| < 256 && PAGE * block.1 < WORD
    ensures var s := EncodeId(block.0) + (Put64(PAGE * block.1) + rest); var end := 1 + |block.0|;
            && s[0] == |block.0|
            && |s| >= end + 8
            && s[1..end] == block.0
            && GetBE(s[end..end + 8]) == PAGE * block.1
            && s[end + 8..] == rest
  {
    var s := EncodeId(block.0) + (Put64(PAGE * block.1) + rest);
    var end := 1 + |block.0|;
    assert s[end..end + 8] == Put64(PAGE * block.1);
    Get64Put64(PAGE * block.1);
  }

  lemma WordInFront(w: nat, tail: seq<byte>)
    requires w < WORD
    ensures GetBE((Put64(w) + tail)[..8]) == w && (Put64(w) + tail)[8..] == tail
  {
    assert (Put64(w) + tail)[..8] == Put64(w);
    Get64Put64(w);
  }

  /** The head word of a record gives back its flags and its page number. */
  lemma HeadWord(page: nat, f: Flags, tail: seq<byte>, d: Dest)
    requires ValidDest(d) && PAGE * page + PAGE <= WORD
    ensures LoadWord(Put64(Head(page, f)) + tail, d) == LoadBody(f, page, tail, d)
  {
    WordInFront(Head(page, f), tail);
    FlagsSplit(page, f);
    AddressSplit(page, f);
  }

  lemma ResolveRoundTrip(id: Option<Id>, f: Flags, rest: seq<byte>, d: Dest)
    requires ValidDest(d)
    requires id.Some? ==> |id.value| < 256 && 0 !in id.value
    requires f.cont == id.None?
    ensures Resolve(f, (if id.Some? then EncodeId(id.value) else []) + rest, d) == Host(rest, Target(id, d))
  {
    if id.Some? {
      CStringPlain(id.value);
      var s := EncodeId(id.value) + rest;
      assert s[1..1 + |id.value|] == id.value && s[1 + |id.value|..] == rest;
    } else {
      assert [] + rest == rest;
    }
  }

  lemma PageRoundTrip(rec: Rec, rest: seq<byte>, d: Dest)
    requires ValidDest(d) && rec.Send? && Accepts(rec, d)
    ensures var names := if rec.id.Some? then EncodeId(rec.id.value) else [];
            var bytes := if rec.body.Fill? then [rec.body.ch] else rec.body.data;
            LoadPage(PageFlags(rec.id, rec.body), rec.page, names + (bytes + rest), d) ==
            Loaded(Apply(rec, d), rest, false)
  {
    var bytes := if rec.body.Fill? then [rec.body.ch] else rec.body.data;
    ResolveRoundTrip(rec.id, PageFlags(rec.id, rec.body), bytes + rest, d);
    assert (bytes + rest)[|bytes|..] == rest;
    assert rec.body.Full? ==> (bytes + rest)[..PAGE] == rec.body.data;
  }

  lemma PageRecordRoundTrip(rec: Rec, rest: seq<byte>, d: Dest)
    requires ValidDest(d) && rec.Send? && Accepts(rec, d)
    ensures LoadWord(Encode(rec) + rest, d) == Loaded(Apply(rec, d), rest, false)
  {
    var names := if rec.id.Some? then EncodeId(rec.id.value) else [];
    var bytes := if rec.body.Fill? then [rec.body.ch] else rec.body.data;
    var f := PageFlags(rec.id, rec.body);
    var tail := names + (bytes + rest);
    Associates(Put64(Head(rec.page, f)) + names, bytes, rest);
    Associates(Put64(Head(rec.page, f)), names, bytes + rest);
    HeadWord(rec.page, f, tail, d);
    PageRoundTrip(rec, rest, d);
  }

  lemma SizesRecordRoundTrip(rec: Rec, rest: seq<byte>, d: Dest)
    requires ValidDest(d) && rec.Sizes? && Accepts(rec, d)
    ensures Encodable(rec)
    ensures LoadWord(Encode(rec) + rest, d) == Loaded(d, rest, false)
  {
    SizesRoundTrip(rec.blocks, rest, d);
    var tail := EncodeSizes(rec.blocks) + rest;
    Associates(Put64(Head(SumPages(rec.blocks), SIZES_FLAGS)), EncodeSizes(rec.blocks), rest);
    HeadWord(SumPages(rec.blocks), SIZES_FLAGS, tail, d);
  }

  /** One turn of the receiver consumes exactly one record and applies it. */
  lemma RecordRoundTrip(rec: Rec, rest: seq<byte>, d: Dest)
    requires ValidDest(d) && Accepts(rec, d)
    ensures Encodable(rec)
    ensures LoadWord(Encode(rec) + rest, d) == Loaded(Apply(rec, d), rest, rec.Eos?)
  {
    match rec
    case Eos => HeadWord(0, EOS_FLAGS, rest, d);
    case Sizes(_) => SizesRecordRoundTrip(rec, rest, d);
    case Send(_, _, _) => PageRecordRoundTrip(rec, rest, d);
  }

  // The sender appends records, the receiver takes them from the front.

  lemma Associates(a: seq<byte>, b: seq<byte>, c: seq<byte>)
    ensures (a + b) + c == a + (b + c)
  {
  }

  lemma {:induction false} EncodeAllFront(recs: seq<Rec>)
    requires recs != []
    requires forall i :: 0 <= i < |recs| ==> Encodable(recs[i])
    ensures EncodeAll(recs) == Encode(recs[0]) + EncodeAll(recs[1..])
  {
    var n := |recs| - 1;
    if n > 0 {
      EncodeAllFront(recs[..n]);
      var tail := recs[1..];
      assert recs[..n][1..] == tail[..n - 1] && tail[n - 1] == recs[n];
      Associates(Encode(recs[0]), EncodeAll(tail[..n - 1]), Encode(recs[n]));
    }
  }

  lemma {:induction false} ReplayFront(recs: seq<Rec>, d: Dest)
    requires ValidDest(d) && recs != []
    ensures Replay(recs, d) == if Accepts(recs[0], d) then Replay(recs[1..], Apply(recs[0], d)) else None
  {
    var n := |recs| - 1;
    if n > 0 {
      ReplayFront(recs[..n], d);
      assert recs[..n][1..] == recs[1..][..n - 1];
    } else {
      assert recs[..n] == [] && recs[1..] == [];
    }
  }

  /** After one call of ram_load, later calls finish what the records still ask for. */
  lemma {:induction false} SectionThenRest(recs: seq<Rec>, d: Dest)
    requires ValidDest(d) && Replay(recs, d).Some?
    requires recs != [] && recs[|recs| - 1].Eos?
    ensures var r := LoadSection(EncodeAll(recs), d);
            r.Loaded? && LoadSections(r.rest, r.dest) == Loaded(Replay(recs, d).value, [], true)
    decreases |recs|
  {
    EncodeAllFront(recs);
    ReplayFront(recs, d);
    var tail := recs[1..];
    RecordRoundTrip(recs[0], EncodeAll(tail), d);
    if tail != [] {
      SectionThenRest(tail, Apply(recs[0], d));
    }
  }

  /** ram_load undoes ram_save_live: over any number of whole sections the receiver consumes
      exactly the bytes that were sent and ends where the records say. */
  lemma SectionsRoundTrip(recs: seq<Rec>, d: Dest)
    requires ValidDest(d) && Replay(recs, d).Some?
    requires recs == [] || recs[|recs| - 1].Eos?
    ensures LoadSections(EncodeAll(recs), d) == Loaded(Replay(recs, d).value, [], true)
  {
    if recs != [] {
      SectionThenRest(recs, d);
    }
  }
}
