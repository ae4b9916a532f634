/** The receiver's code of block migration: the loop of block_load over the bytes of a section. */
module BlockLoader {
  import opened Wire
  import opened Patching
  import opened BlockStream
  import RamStream

  class Loader {
    const names: seq<Id>
    var disks: seq<seq<byte>>

    ghost function View(): (d: Dest)
      reads this
    {
      Dest(names, disks)
    }

    constructor (names: seq<Id>, disks: seq<seq<byte>>)
      requires ValidDest(Dest(names, disks))
      ensures View() == Dest(names, disks)
    {
      this.names, this.disks := names, disks;
    }

    /** A device block after its head word. */
    method TakeBlock(addr: int, s: seq<byte>) returns (error: Option<LoadError>, rest: seq<byte>)
      requires ValidDest(View())
      modifies this`disks
      ensures match LoadBlock(addr, false, s, old(View()))
              case Failed(e) => error == Some(e) && disks == old(disks)
              case Loaded(d, r, _) => error == None && View() == d && rest == r
    {
      var end: nat := if s == [] then 1 else 1 + s[0] as int;
      if |s| < end {
        return Some(ShortStream), s;
      }
      var found := RamStream.Find(names, RamStream.CString(s[1..end]));
      if found.None? {
        return Some(Einval), s;
      }
      var b := found.value;
      var total := |disks[b]| / SECTOR;
      assert total == 0 <==> disks[b] == [];
      if total <= 0 {
        return Some(Einval), s;
      }
      if |s| < end + BLOCK {
        return Some(ShortStream), s;
      }
      var nr := if total - addr < CHUNK_SECTORS then total - addr else CHUNK_SECTORS;
      if addr < 0 || nr < 0 {
        return Some(Eio), s;
      }
      var buf := s[end..end + BLOCK];
      disks := disks[b := Patch(disks[b], SECTOR * addr, buf[..SECTOR * nr])];
      return None, s[end + BLOCK..];
    }

    /** One section: the disks and the bytes used are those of LoadSection. */
    method Load(stream: seq<byte>) returns (error: Option<LoadError>, rest: seq<byte>)
      requires ValidDest(View())
      modifies this`disks
      ensures match LoadSection(stream, old(View()))
              case Failed(e) => error == Some(e)
              case Loaded(d, r, _) => error == None && View() == d && rest == r
    {
      hide LoadBlock, FlagsIn, SectorIn, ValidDest, GetBE;
      rest := stream;
      while true
        invariant ValidDest(View())
        invariant LoadSection(stream, old(View())) == LoadSection(rest, View())
        decreases |rest|
      {
        if |rest| < 8 {
          return Some(ShortStream), rest;
        }
        ghost var s, d := rest, View();
        var word := GetBE(rest[..8]);
        var f := FlagsIn(word);
        rest := rest[8..];
        if f.device {
          error, rest := TakeBlock(SectorIn(word), rest);
          BlockEos(SectorIn(word), f.eos, s[8..], d);
          if error.Some? {
            return;
          }
        } else if !f.progress && !f.eos {
          return Some(Einval), rest;
        }
        LoadWordValid(s, d);
        if f.eos {
          return None, rest;
        }
      }
    }
  }

  lemma BlockEos(addr: int, eos: bool, s: seq<byte>, d: Dest)
    requires ValidDest(d)
    ensures LoadBlock(addr, eos, s, d) ==
            match LoadBlock(addr, false, s, d)
            case Failed(e) => Failed(e)
            case Loaded(d1, rest, _) => Loaded(d1, rest, eos)
  {
    hide Store, RamStream.Find, RamStream.CString;
  }
}
