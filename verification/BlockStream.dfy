/** The block section of the migration stream: records, their bytes, and the receiver. */
module BlockStream {
  import opened Wire
  import opened Patching
  import RamStream

  const SECTOR := 512
  const CHUNK_SECTORS := 2048
  const BLOCK := 1048576

  type Id = RamStream.Id

  /** A block of a device with the sector it starts at, a progress report, or the end of a section. */
  datatype Rec = DeviceBlock(sector: nat, name: Id, buf: seq<byte>) | Progress(percent: nat) | Eos

  /** The receiver's devices and their contents. */
  datatype Dest = Dest(names: seq<Id>, disks: seq<seq<byte>>)

  ghost predicate ValidDest(d: Dest) {
    |d.names| == |d.disks| && forall i :: 0 <= i < |d.disks| ==> |d.disks[i]| % SECTOR == 0
  }

  /** The flag bits in use of a word's low nine bits. */
  datatype Flags = Flags(device: bool, eos: bool, progress: bool)

  function Low(f: Flags): (r: nat) {
    RamStream.Bit(f.device) + 2 * RamStream.Bit(f.eos) + 4 * RamStream.Bit(f.progress)
  }

  function Head(q: nat, f: Flags): (r: nat) {
    SECTOR * q + Low(f)
  }

  function FlagsIn(w: nat): (flags: Flags) {
    var w1 := w / 2;
    var w2 := w1 / 2;
    Flags(w % 2 == 1, w1 % 2 == 1, w2 % 2 == 1)
  }

  /** The sector number above the flags, as a signed number. */
  function SectorIn(w: nat): (r: int) {
    if w >= WORD / 2 then (w - WORD) / SECTOR else w / SECTOR
  }

  /** A word with its top bit set is a negative sector, the one 2 to the power 55 below. */
  lemma NegativeSector(w: nat)
    requires WORD / 2 <= w < WORD
    ensures SectorIn(w) == w / SECTOR - 0x80_0000_0000_0000 && SectorIn(w) < 0
  {
  }

  /** The words of the three kinds of record. */
  lemma HeadWords(sector: nat, name: Id, buf: seq<byte>, percent: nat)
    ensures var rec := DeviceBlock(sector, name, buf); Head(Number(rec), FlagsOf(rec)) == 512 * sector + 0x01
    ensures Head(Number(Eos), FlagsOf(Eos)) == 0x02
    ensures Head(Number(Progress(percent)), FlagsOf(Progress(percent))) == 512 * percent + 0x04
  {
  }

  lemma HeadSplits(q: nat, f: Flags)
    requires Head(q, f) < WORD / 2
    ensures FlagsIn(Head(q, f)) == f && SectorIn(Head(q, f)) == q
  {
    var w3 := 64 * q;
    var w2 := 2 * w3 + RamStream.Bit(f.progress);
    var w1 := 2 * w2 + RamStream.Bit(f.eos);
    assert Head(q, f) == 2 * w1 + RamStream.Bit(f.device);
    RamStream.Halve(w1, f.device);
    RamStream.Halve(w2, f.eos);
    RamStream.Halve(w3, f.progress);
    assert FlagsIn(Head(q, f)) == f;
    AboveFlags(q, Low(f));
  }

  lemma AboveFlags(q: nat, low: nat)
    requires low < 8
    ensures (SECTOR * q + low) / SECTOR == q
  {
  }

  // ----------------------------------------------------------------- bytes

  predicate Encodable(rec: Rec) {
    rec.DeviceBlock? ==> |rec.name| < 256
  }

  function FlagsOf(rec: Rec): (flags: Flags) {
    Flags(rec.DeviceBlock?, rec.Eos?, rec.Progress?)
  }

  function Number(rec: Rec): (r: nat) {
    if rec.DeviceBlock? then rec.sector else if rec.Progress? then rec.percent else 0
  }

  function Encode(rec: Rec): (bytes: seq<byte>)
    requires Encodable(rec)
  {
    Put64(Head(Number(rec), FlagsOf(rec))) + if rec.DeviceBlock? then RamStream.EncodeId(rec.name) + rec.buf else []
  }

  function EncodeAll(recs: seq<Rec>): (bytes: seq<byte>)
    requires forall i :: 0 <= i < |recs| ==> Encodable(recs[i])
  {
    if recs == [] then [] else Encode(recs[0]) + EncodeAll(recs[1..])
  }

  // -------------------------------------------------------- receiver, on bytes

  datatype LoadError = Einval | Eio | ShortStream
  datatype Load = Loaded(dest: Dest, rest: seq<byte>, eos: bool) | Failed(error: LoadError)

  /** How many sectors of a block fit on a device from addr on. */
  function Fitting(disk: seq<byte>, addr: int): (r: int) {
    var total := |disk| / SECTOR;
    if total - addr < CHUNK_SECTORS then total - addr else CHUNK_SECTORS
  }

  /** The write of a block, cut at the end of the device. */
  function Store(disk: seq<byte>, addr: nat, buf: seq<byte>): (r: seq<byte>)
    requires |buf| == BLOCK && SECTOR * addr <= |disk| && |disk| % SECTOR == 0
    ensures |r| == |disk|
  {
    Patch(disk, SECTOR * addr, buf[..SECTOR * Fitting(disk, addr)])
  }

  function LoadBlock(addr: int, eos: bool, s: seq<byte>, d: Dest): (r: Load)
    requires ValidDest(d)
    ensures r.Loaded? ==> |r.rest| <= |s|
  {
    var end: nat := if s == [] then 1 else 1 + s[0] as int;
    if |s| < end then Failed(ShortStream)
    else
      match RamStream.Find(d.names, RamStream.CString(s[1..end]))
      case None => Failed(Einval)
      case Some(b) =>
        if d.disks[b] == [] then Failed(Einval)
        else if |s| < end + BLOCK then Failed(ShortStream)
        else if addr < 0 || SECTOR * addr > |d.disks[b]| then Failed(Eio)
        else
          Loaded(d.(disks := d.disks[b := Store(d.disks[b], addr, s[end..end + BLOCK])]), s[end + BLOCK..], eos)
  }

  function LoadWord(s: seq<byte>, d: Dest): (r: Load)
    requires ValidDest(d)
    ensures r.Loaded? ==> |r.rest| < |s|
  {
    if |s| < 8 then Failed(ShortStream)
    else
      var w := GetBE(s[..8]);
      var f := FlagsIn(w);
      if f.device then LoadBlock(SectorIn(w), f.eos, s[8..], d)
      else if f.progress || f.eos then Loaded(d, s[8..], f.eos)
      else Failed(Einval)
  }

  lemma LoadWordValid(s: seq<byte>, d: Dest)
    requires ValidDest(d) && LoadWord(s, d).Loaded?
    ensures ValidDest(LoadWord(s, d).dest)
  {
    hide Store, RamStream.Find, RamStream.CString, SectorIn, FlagsIn, GetBE;
  }

  /** block_load: words up to and including the one that carries EOS. */
  function LoadSection(s: seq<byte>, d: Dest): (r: Load)
    requires ValidDest(d)
    ensures r.Loaded? ==> ValidDest(r.dest) && |r.rest| < |s|
    decreases |s|
  {
    match LoadWord(s, d)
    case Failed(e) => Failed(e)
    case Loaded(d1, rest, eos) =>
      LoadWordValid(s, d);
      if eos then Loaded(d1, rest, true) else LoadSection(rest, d1)
  }

  function LoadSections(s: seq<byte>, d: Dest): (r: Load)
    requires ValidDest(d)
    decreases |s|
  {
    if s == [] then Loaded(d, [], true)
    else
      match LoadSection(s, d)
      case Failed(e) => Failed(e)
      case Loaded(d1, rest, _) => LoadSections(rest, d1)
  }

  // ------------------------------------------------------ receiver, on records

  /** The records that a receiver takes. */
  predicate Accepts(rec: Rec, d: Dest)
    requires |d.names| == |d.disks|
  {
    && Head(Number(rec), FlagsOf(rec)) < WORD / 2
    && (rec.DeviceBlock? ==>
          && |rec.name| < 256 && 0 !in rec.name && |rec.buf| == BLOCK
          && var b := RamStream.Find(d.names, rec.name);
             b.Some? && d.disks[b.value] != [] && SECTOR * rec.sector <= |d.disks[b.value]|)
  }

  ghost function Apply(rec: Rec, d: Dest): (r: Dest)
    requires ValidDest(d) && Accepts(rec, d)
    ensures ValidDest(r) && r.names == d.names
  {
    if rec.DeviceBlock? then
      var b := RamStream.Find(d.names, rec.name).value;
      d.(disks := d.disks[b := Store(d.disks[b], rec.sector, rec.buf)])
    else d
  }

  ghost function Replay(recs: seq<Rec>, d: Dest): (r: Option<Dest>)
    requires ValidDest(d)
    ensures r.Some? ==> ValidDest(r.value) && forall i :: 0 <= i < |recs| ==> Encodable(recs[i])
  {
    if recs == [] then Some(d)
    else if Accepts(recs[0], d) then Replay(recs[1..], Apply(recs[0], d))
    else None
  }

  // ------------------------------------------------------ loading undoes sending

  lemma BlockRoundTrip(rec: Rec, rest: seq<byte>, d: Dest)
    requires ValidDest(d) && rec.DeviceBlock? && Accepts(rec, d)
    ensures LoadBlock(rec.sector, false, RamStream.EncodeId(rec.name) + (rec.buf + rest), d) ==
            Loaded(Apply(rec, d), rest, false)
  {
    hide Store;
    RamStream.CStringPlain(rec.name);
    var s := RamStream.EncodeId(rec.name) + (rec.buf + rest);
    var end := 1 + |rec.name|;
    assert s[1..end] == rec.name && s[end..end + BLOCK] == rec.buf && s[end + BLOCK..] == rest;
  }

  /** One turn of the receiver consumes exactly one record and applies it. */
  lemma RecordRoundTrip(rec: Rec, rest: seq<byte>, d: Dest)
    requires ValidDest(d) && Accepts(rec, d)
    ensures Encodable(rec) && LoadWord(Encode(rec) + rest, d) == Loaded(Apply(rec, d), rest, rec.Eos?)
  {
    var w := Head(Number(rec), FlagsOf(rec));
    var tail := (if rec.DeviceBlock? then RamStream.EncodeId(rec.name) + rec.buf else []) + rest;
    RamStream.Associates(Put64(w), if rec.DeviceBlock? then RamStream.EncodeId(rec.name) + rec.buf else [], rest);
    RamStream.WordInFront(w, tail);
    HeadSplits(Number(rec), FlagsOf(rec));
    hide Head, FlagsIn, SectorIn, Store, LoadBlock, Put64, GetBE;
    if rec.DeviceBlock? {
      RamStream.Associates(RamStream.EncodeId(rec.name), rec.buf, rest);
      BlockRoundTrip(rec, rest, d);
    } else {
      assert [] + rest == rest;
    }
  }

  lemma {:induction false} SectionThenRest(recs: seq<Rec>, d: Dest)
    requires ValidDest(d) && Replay(recs, d).Some? && recs != [] && recs[|recs| - 1].Eos?
    ensures var r := LoadSection(EncodeAll(recs), d);
            r.Loaded? && LoadSections(r.rest, r.dest) == Loaded(Replay(recs, d).value, [], true)
    decreases |recs|
  {
    hide LoadWord, Apply, Accepts, Encode;
    var tail := recs[1..];
    RecordRoundTrip(recs[0], EncodeAll(tail), d);
    if tail != [] {
      SectionThenRest(tail, Apply(recs[0], d));
    }
  }

  /** block_load undoes the sender: over any number of whole sections the receiver consumes exactly
      the bytes that were sent and stores the same blocks. */
  lemma SectionsRoundTrip(recs: seq<Rec>, d: Dest)
    requires ValidDest(d) && Replay(recs, d).Some? && (recs == [] || recs[|recs| - 1].Eos?)
    ensures LoadSections(EncodeAll(recs), d) == Loaded(Replay(recs, d).value, [], true)
  {
    if recs != [] {
      SectionThenRest(recs, d);
    }
  }
}
