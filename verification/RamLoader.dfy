/** The receiver's code: the loops of ram_load over the bytes of a section. */
module RamLoader {
  import opened Wire
  import opened RamStream

  class Loader {
    const ids: seq<Id>
    var host: seq<seq<Page>>
    var block: Option<nat>

    ghost function View(): (d: Dest)
      reads this
    {
      Dest(ids, host, block)
    }

    constructor (ids: seq<Id>, host: seq<seq<Page>>)
      requires |ids| == |host|
      ensures ValidDest(View()) && View() == Dest(ids, host, None)
    {
      this.ids, this.host, block := ids, host, None;
    }

    /** The walk over the block list. */
    method Search(id: Id) returns (r: Option<nat>)
      ensures r == Find(ids, id)
    {
      var i := 0;
      while i < |ids|
        invariant 0 <= i <= |ids|
        invariant Find(ids, id) == if Find(ids[i..], id).None? then None else Some(i + Find(ids[i..], id).value)
      {
        assert ids[i..][1..] == ids[i + 1..];
        if ids[i] == id {
          return Some(i);
        }
        i := i + 1;
      }
      return None;
    }

    /** The MEM_SIZE loop. */
    method SyncBlockList(addr: nat, stream: seq<byte>) returns (r: Checked)
      requires ValidDest(View())
      ensures r == CheckSizes(addr, stream, View())
    {
      var total: int := addr;
      var s := stream;
      while total != 0
        invariant CheckSizes(addr, stream, View()) == CheckSizes(total, s, View())
        decreases |s|
      {
        var end: nat := if s == [] then 1 else 1 + s[0] as int;
        if |s| < end + 8 {
          return Bad(ShortStream);
        }
        var found := Search(CString(s[1..end]));
        if found.None? {
          return Bad(Einval);
        }
        var length := GetBE(s[end..end + 8]);
        if PAGE * |host[found.value]| != length {
          return Bad(Einval);
        }
        total := Minus64(total, length);
        s := s[end + 8..];
      }
      return Good(s);
    }

    /** host_from_stream_offset, with the static block pointer that it leaves behind. */
    method HostFromStream(f: Flags, s: seq<byte>) returns (r: Host)
      requires ValidDest(View())
      modifies this`block
      ensures r == Resolve(f, s, old(View()))
      ensures block == if r.Host? then r.block else old(block)
    {
      if f.cont {
        return Host(s, block);
      }
      var end: nat := if s == [] then 1 else 1 + s[0] as int;
      if |s| < end {
        return NoBytes;
      }
      block := Search(CString(s[1..end]));
      return Host(s[end..], block);
    }

    /** A page record after its head word. */
    method TakePage(f: Flags, page: nat, s: seq<byte>) returns (error: Option<LoadError>, rest: seq<byte>)
      requires ValidDest(View())
      modifies this
      ensures match LoadPage(f, page, s, old(View()))
              case Failed(e) => error == Some(e)
              case Loaded(d, r, _) => error == None && View() == d && rest == r
    {
      var where := HostFromStream(f, s);
      if where.NoBytes? {
        return Some(ShortStream), s;
      }
      if where.block.None? {
        return Some(if f.compress then Einval else NullHost), s;
      }
      var b := where.block.value;
      var n := if f.compress then 1 else PAGE;
      if |where.rest| < n {
        return Some(ShortStream), s;
      }
      if page >= |host[b]| {
        return Some(OutsideBlock), s;
      }
      var data: Page := if f.compress then Repeat(where.rest[0]) else where.rest[..PAGE];
      host := host[b := SetPage(host[b], page, data)];
      return None, where.rest[n..];
    }

    /** A word after it is split. */
    method TakeWord(f: Flags, page: nat, stream: seq<byte>) returns (error: Option<LoadError>, rest: seq<byte>)
      requires ValidDest(View())
      modifies this
      ensures match LoadBody(f, page, stream, old(View()))
              case Failed(e) => error == Some(e)
              case Loaded(d, r, eos) => error == None && View() == d && rest == r && eos == f.eos
    {
      rest := stream;
      if f.memSize {
        var checked := SyncBlockList(PAGE * page, rest);
        if checked.Bad? {
          return Some(checked.error), rest;
        }
        rest := checked.rest;
      }
      error := None;
      if f.compress || f.page {
        error, rest := TakePage(f, page, rest);
      }
    }

    /** One section: the memory, the block pointer and the bytes used are those of LoadSection. */
    method Load(stream: seq<byte>) returns (error: Option<LoadError>, rest: seq<byte>)
      requires ValidDest(View())
      modifies this
      ensures match LoadSection(stream, old(View()))
              case Failed(e) => error == Some(e)
              case Loaded(d, r, _) => error == None && View() == d && rest == r
    {
      rest := stream;
      while true
        invariant ValidDest(View())
        invariant LoadSection(stream, old(View())) == LoadSection(rest, View())
        decreases |rest|
      {
        if |rest| < 8 {
          return Some(ShortStream), rest;
        }
        var word := GetBE(rest[..8]);
        error, rest := TakeWord(FlagsIn(word), word / PAGE, rest[8..]);
        if error.Some? || FlagsIn(word).eos {
          return;
        }
      }
    }
  }
}
