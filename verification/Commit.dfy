/** Committing an overlay image into its backing image (bdrv_commit).

    What the driver and the storage do (how long a uniform run is_allocated reports, which requests
    fail, what a failed write leaves behind, whether a reopen works) is a parameter, so that every
    statement holds for all of it. */
module Commit {
  import opened Patching

  const COMMIT_BUF_SECTORS := 2048
  const EIO := 5
  const EACCES := 13
  const ENOTSUP := 95
  const ENOMEDIUM := 123

  /** The contents of one sector; 0 stands for a sector of zero bytes. */
  type Sector = int

  /** The driver's make_empty: not offered, done, or failed after letting go of some sectors. */
  datatype Empty = Absent | Emptied | EmptyFailed(ret: int, kept: set<nat>)

  /** torn(p) is what a failed write at p leaves in the sectors it was to write. */
  datatype World = World(run: nat -> nat, readFails: nat -> bool, writeFails: nat -> bool,
                         torn: nat -> seq<Sector>, empty: Empty, openRw: int, openRo: int)

  // ------------------------------------------------------------------- view

  /** What the guest reads: the overlay where it is allocated, else the backing image, which reads as
      zeros past its end. */
  function ViewAt(alloc: seq<bool>, data: seq<Sector>, backing: seq<Sector>, s: nat): (r: Sector)
    requires |alloc| == |data| && s < |data|
  {
    if alloc[s] then data[s] else if s < |backing| then backing[s] else 0
  }

  function View(alloc: seq<bool>, data: seq<Sector>, backing: seq<Sector>): (v: seq<Sector>)
    requires |alloc| == |data|
    ensures |v| == |data|
  {
    seq(|data|, s requires 0 <= s < |data| => ViewAt(alloc, data, backing, s))
  }

  /** is_allocated reports at least one sector, at most a buffer's worth, all in one state. */
  ghost predicate Uniform(alloc: seq<bool>, run: nat -> nat) {
    forall p :: 0 <= p < |alloc| ==>
      && 1 <= run(p) <= COMMIT_BUF_SECTORS
      && forall t :: p <= t < p + run(p) && t < |alloc| ==> alloc[t] == alloc[p]
  }

  lemma UniformAt(alloc: seq<bool>, run: nat -> nat, p: nat)
    requires Uniform(alloc, run) && p < |alloc|
    ensures 1 <= run(p) && AllSame(alloc, p, run(p), alloc[p])
  {
  }

  /** The n sectors from p on, as far as there are so many, are all allocated or all not. */
  ghost predicate AllSame(alloc: seq<bool>, p: nat, n: nat, v: bool) {
    forall t :: p <= t < p + n && t < |alloc| ==> alloc[t] == v
  }

  /** Only sectors that the overlay hides differ. */
  ghost predicate HiddenChange(alloc: seq<bool>, b: seq<Sector>, b': seq<Sector>) {
    |b'| == |b| && forall k :: 0 <= k < |b| && (k >= |alloc| || !alloc[k]) ==> b'[k] == b[k]
  }

  lemma HiddenChangeKeepsView(alloc: seq<bool>, data: seq<Sector>, b: seq<Sector>, b': seq<Sector>)
    requires |alloc| == |data| && HiddenChange(alloc, b, b')
    ensures View(alloc, data, b') == View(alloc, data, b)
  {
    forall s | 0 <= s < |data| ensures ViewAt(alloc, data, b', s) == ViewAt(alloc, data, b, s) {
    }
  }

  /** A write, complete or torn, inside one allocated run is hidden. */
  lemma PatchIsHidden(alloc: seq<bool>, b0: seq<Sector>, b: seq<Sector>, at: nat, buf: seq<Sector>)
    requires HiddenChange(alloc, b0, b) && at + |buf| <= |b| && at + |buf| <= |alloc|
    requires forall t :: at <= t < at + |buf| ==> alloc[t]
    ensures HiddenChange(alloc, b0, Patch(b, at, buf))
  {
    forall k | 0 <= k < |b| && (k >= |alloc| || !alloc[k]) ensures Patch(b, at, buf)[k] == b0[k] {
      PatchAt(b, at, buf, k);
    }
  }

  /** The backing image, read with zeros past its end, already shows sectors below p. */
  ghost predicate Landed(alloc: seq<bool>, data: seq<Sector>, b: seq<Sector>, p: nat)
    requires |alloc| == |data|
  {
    forall s :: 0 <= s < p && s < |data| && alloc[s] ==> s < |b| && b[s] == data[s]
  }

  lemma PatchLands(alloc: seq<bool>, data: seq<Sector>, b: seq<Sector>, at: nat, n: nat)
    requires |alloc| == |data| && Landed(alloc, data, b, at)
    requires at + n <= |b| && at + n <= |data|
    ensures Landed(alloc, data, Patch(b, at, data[at..at + n]), at + n)
  {
    var b' := Patch(b, at, data[at..at + n]);
    forall s | 0 <= s < at + n && s < |data| && alloc[s] ensures s < |b'| && b'[s] == data[s] {
      PatchAt(b, at, data[at..at + n], s);
    }
  }

  /** Once everything landed, letting go of any of the overlay's sectors keeps the view. */
  lemma ReleaseKeepsView(alloc: seq<bool>, alloc': seq<bool>, data: seq<Sector>, b: seq<Sector>)
    requires |alloc| == |data| == |alloc'| && Landed(alloc, data, b, |data|)
    requires forall s :: 0 <= s < |data| && alloc'[s] ==> alloc[s]
    ensures View(alloc', data, b) == View(alloc, data, b)
  {
    forall s | 0 <= s < |data| ensures ViewAt(alloc', data, b, s) == ViewAt(alloc, data, b, s) {
    }
  }

  /** What a finished commit means: the backing image alone now shows the whole view. */
  ghost predicate Committed(view: seq<Sector>, backing: seq<Sector>) {
    forall s :: 0 <= s < |view| ==> view[s] == if s < |backing| then backing[s] else 0
  }

  lemma LandedIsCommitted(alloc: seq<bool>, data: seq<Sector>, b: seq<Sector>)
    requires |alloc| == |data| && Landed(alloc, data, b, |data|)
    ensures Committed(View(alloc, data, b), b)
  {
    var v := View(alloc, data, b);
    forall s | 0 <= s < |v| ensures v[s] == if s < |b| then b[s] else 0 {
      assert v[s] == ViewAt(alloc, data, b, s);
    }
  }

  /** What a read of n sectors of the overlay from p returns, when all are allocated. */
  lemma AllocatedReads(alloc: seq<bool>, data: seq<Sector>, b: seq<Sector>, p: nat, n: nat)
    requires |alloc| == |data| && p + n <= |data|
    requires forall t :: p <= t < p + n ==> alloc[t]
    ensures View(alloc, data, b)[p..p + n] == data[p..p + n]
  {
    var v := View(alloc, data, b);
    forall t | p <= t < p + n ensures v[t] == data[t] {
      assert v[t] == ViewAt(alloc, data, b, t);
    }
  }

  // ---------------------------------------------------------------- the code

  /** What stops the copy at sector p: a request past the end of the image it goes to, or a request
      that fails. */
  ghost predicate Stops(w: World, total: nat, room: nat, p: nat) {
    p + w.run(p) > total || w.readFails(p) || p + w.run(p) > room || w.writeFails(p)
  }

  /** The sectors at which the walk over the overlay looks, one after the other. */
  function Position(run: nat -> nat, k: nat): (p: nat) {
    if k == 0 then 0 else Position(run, k - 1) + run(Position(run, k - 1))
  }

  lemma {:induction false} PositionGrows(run: nat -> nat, j: nat, k: nat)
    requires j <= k
    ensures Position(run, j) <= Position(run, k)
  {
    if j < k {
      PositionGrows(run, j, k - 1);
    }
  }

  /** No allocated sector that the walk looks at stops the copy. */
  ghost predicate Unhindered(w: World, alloc: seq<bool>, total: nat, room: nat) {
    forall k: nat :: Passes(w, alloc, total, room, Position(w.run, k))
  }

  ghost predicate Passes(w: World, alloc: seq<bool>, total: nat, room: nat, p: nat) {
    p < |alloc| && p < total && alloc[p] ==> !Stops(w, total, room, p)
  }

  /** The walk has passed its first k positions. */
  ghost predicate Walked(w: World, alloc: seq<bool>, total: nat, room: nat, k: nat) {
    forall j: nat :: j < k ==> Passes(w, alloc, total, room, Position(w.run, j))
  }

  lemma WalkStarts(w: World, alloc: seq<bool>, total: nat, room: nat)
    ensures Walked(w, alloc, total, room, 0) && Position(w.run, 0) == 0
  {
  }

  lemma WalkStep(w: World, alloc: seq<bool>, total: nat, room: nat, k: nat)
    requires Walked(w, alloc, total, room, k)
    requires var p := Position(w.run, k); p < |alloc| && (alloc[p] ==> !Stops(w, total, room, p))
    ensures Walked(w, alloc, total, room, k + 1)
    ensures Position(w.run, k + 1) == Position(w.run, k) + w.run(Position(w.run, k))
  {
    hide Stops;
  }

  lemma Hindered(w: World, alloc: seq<bool>, total: nat, room: nat, k: nat)
    requires var p := Position(w.run, k); p < |alloc| && p < total && alloc[p] && Stops(w, total, room, p)
    ensures !Unhindered(w, alloc, total, room)
  {
    assert !Passes(w, alloc, total, room, Position(w.run, k));
  }

  /** Once it is past the end, it is unhindered. */
  lemma WalkedThrough(w: World, alloc: seq<bool>, total: nat, room: nat, k: nat)
    requires Walked(w, alloc, total, room, k)
    requires Position(w.run, k) >= total
    ensures Unhindered(w, alloc, total, room)
  {
    forall j: nat ensures Passes(w, alloc, total, room, Position(w.run, j)) {
      if j >= k {
        PositionGrows(w.run, k, j);
      }
    }
  }

  class Overlay {
    var functional: bool
    var attached: bool
    var keepReadOnly: bool
    var readOnly: bool
    var alloc: seq<bool>
    var data: seq<Sector>
    var backing: seq<Sector>

    ghost predicate Valid()
      reads this
    {
      |alloc| == |data|
    }

    ghost function Contents(): (v: seq<Sector>)
      requires Valid()
      reads this
    {
      View(alloc, data, backing)
    }

    method Read(w: World, p: nat, n: nat) returns (ok: bool, buf: seq<Sector>)
      requires Valid()
      ensures ok == (p + n <= |data| && !w.readFails(p))
      ensures ok ==> buf == Contents()[p..p + n]
    {
      if p + n > |data| || w.readFails(p) {
        return false, [];
      }
      return true, View(alloc, data, backing)[p..p + n];
    }

    /** A write to the backing image; a failed one leaves anything in the sectors it covers. */
    method WriteBacking(w: World, p: nat, buf: seq<Sector>) returns (ok: bool)
      requires readOnly == false
      modifies this`backing
      ensures ok == (p + |buf| <= |old(backing)| && !w.writeFails(p))
      ensures ok ==> backing == Patch(old(backing), p, buf)
      ensures !ok ==>
                backing == if p + |buf| <= |old(backing)| && |w.torn(p)| == |buf|
                           then Patch(old(backing), p, w.torn(p)) else old(backing)
    {
      if p + |buf| > |backing| {
        return false;
      }
      if w.writeFails(p) {
        if |w.torn(p)| == |buf| {
          backing := Patch(backing, p, w.torn(p));
        }
        return false;
      }
      backing := Patch(backing, p, buf);
      return true;
    }

    /** One allocated run: read it from the overlay, write it to the backing image. */
    method CopyRun(w: World, sector: nat, ghost b0: seq<Sector>) returns (ok: bool)
      requires Valid() && !readOnly && sector < |data|
      requires AllSame(alloc, sector, w.run(sector), true)
      requires HiddenChange(alloc, b0, backing) && Landed(alloc, data, backing, sector)
      modifies this`backing
      ensures HiddenChange(alloc, b0, backing) && |backing| == |old(backing)|
      ensures ok <==> !Stops(w, |data|, |backing|, sector)
      ensures ok ==> Landed(alloc, data, backing, sector + w.run(sector))
    {
      hide HiddenChange, Landed, View, Patch;
      var n := w.run(sector);
      ghost var before := backing;
      var buf;
      ok, buf := Read(w, sector, n);
      if !ok {
        return false;
      }
      AllocatedReads(alloc, data, backing, sector, n);
      ok := WriteBacking(w, sector, buf);
      if !ok {
        if backing != before {
          PatchIsHidden(alloc, b0, before, sector, w.torn(sector));
        }
        return false;
      }
      PatchIsHidden(alloc, b0, before, sector, buf);
      PatchLands(alloc, data, before, sector, n);
    }

    /** The copy loop.  Only sectors that the overlay hides change, torn writes included.  It succeeds
        exactly when no allocated sector that it looks at stops it, and then everything has landed. */
    method CopyAll(w: World) returns (ok: bool)
      requires Valid() && !readOnly && Uniform(alloc, w.run)
      modifies this`backing
      ensures HiddenChange(alloc, old(backing), backing)
      ensures ok ==> Landed(alloc, data, backing, |data|)
      ensures |backing| == |old(backing)|
      ensures ok <==> Unhindered(w, alloc, |data|, |backing|)
    {
      HiddenRefl(alloc, backing);
      NothingLanded(alloc, data, backing);
      hide Unhindered, HiddenChange, Landed, Position, Stops, Walked, Uniform, AllSame;
      var sector := 0;
      ghost var k := 0;
      WalkStarts(w, alloc, |data|, |backing|);
      while sector < |data|
        invariant HiddenChange(alloc, old(backing), backing) && |backing| == |old(backing)|
        invariant Landed(alloc, data, backing, sector) && sector == Position(w.run, k)
        invariant Walked(w, alloc, |data|, |backing|, k)
      {
        UniformAt(alloc, w.run, sector);
        if alloc[sector] {
          ok := CopyRun(w, sector, old(backing));
          if !ok {
            Hindered(w, alloc, |data|, |backing|, k);
            return false;
          }
        } else {
          SkipLands(alloc, data, backing, sector, w.run(sector));
        }
        WalkStep(w, alloc, |data|, |backing|, k);
        sector := sector + w.run(sector);
        k := k + 1;
      }
      WalkedThrough(w, alloc, |data|, |backing|, k);
      LandedAll(alloc, data, backing, sector);
      return true;
    }

    /** make_empty: drops all sectors, or fails having dropped any of them. */
    method MakeEmpty(w: World) returns (ret: int)
      requires Valid()
      modifies this`alloc
      ensures Valid() && forall s :: 0 <= s < |alloc| && alloc[s] ==> old(alloc)[s]
      ensures w.empty.Emptied? ==> ret == 0 && forall s :: 0 <= s < |alloc| ==> !alloc[s]
      ensures w.empty.EmptyFailed? ==>
                && ret == w.empty.ret
                && forall s :: 0 <= s < |alloc| ==> (alloc[s] <==> old(alloc)[s] && s in w.empty.kept)
      ensures w.empty.Absent? ==> ret == 0 && alloc == old(alloc)
    {
      match w.empty
      case Absent => return 0;
      case Emptied =>
        alloc := seq(|alloc|, _ => false);
        return 0;
      case EmptyFailed(r, kept) =>
        var a := alloc;
        alloc := seq(|a|, s requires 0 <= s < |a| => a[s] && s in kept);
        return r;
    }

    /** Reopening the backing image; a failure of the read-only reopen loses the drive. */
    method ReopenReadOnly(w: World) returns (ret: int)
      modifies this`functional, this`attached, this`readOnly, this`keepReadOnly
      ensures ret == if w.openRo < 0 then w.openRo else 0
      ensures attached == (w.openRo >= 0) && functional == (old(functional) && w.openRo >= 0)
      ensures w.openRo >= 0 ==> readOnly && !keepReadOnly
    {
      attached := false;
      if w.openRo < 0 {
        functional := false;
        return w.openRo;
      }
      attached, readOnly, keepReadOnly := true, true, false;
      return 0;
    }

    /** Copy, then empty the overlay: the part of commit between the reopens. */
    method CopyAndEmpty(w: World) returns (ok: bool, ret: int)
      requires Valid() && !readOnly && Uniform(alloc, w.run)
      modifies this`backing, this`alloc
      ensures Valid() && Contents() == old(Contents())
      ensures HiddenChange(old(alloc), old(backing), backing)
      ensures ok ==> Committed(Contents(), backing)
      ensures |backing| == |old(backing)|
      ensures ok <==> Unhindered(w, old(alloc), |data|, |backing|)
      ensures !ok ==> ret == -EIO && alloc == old(alloc)
      ensures ok && w.empty.Emptied? ==> ret == 0 && forall s :: 0 <= s < |alloc| ==> !alloc[s]
      ensures ok && w.empty.EmptyFailed? ==> ret == w.empty.ret
      ensures ok && w.empty.Absent? ==> ret == 0 && alloc == old(alloc)
    {
      hide View, HiddenChange, Landed, Committed, Unhindered;
      ok := CopyAll(w);
      HiddenChangeKeepsView(alloc, data, old(backing), backing);
      if !ok {
        return false, -EIO;
      }
      LandedIsCommitted(alloc, data, backing);
      ghost var before := alloc;
      ret := MakeEmpty(w);
      ReleaseKeepsView(before, alloc, data, backing);
    }

    /** The guest-visible contents are the old ones on every exit, whatever fails.  A commit that gets
        through its copy leaves a backing image that shows them all by itself. */
    method CommitToBacking(w: World) returns (ret: int, copied: bool)
      requires Valid() && Uniform(alloc, w.run)
      modifies this
      ensures Valid() && data == old(data) && Contents() == old(Contents())
      ensures HiddenChange(old(alloc), old(backing), backing)
      ensures copied ==> Committed(old(Contents()), backing)
      ensures copied && w.empty.Emptied? ==> forall s :: 0 <= s < |alloc| ==> !alloc[s]
      ensures !copied ==> alloc == old(alloc)
      ensures |backing| == |old(backing)|
      ensures copied <==> Refusal(old(functional), old(attached), old(keepReadOnly), old(readOnly), w) == 0 &&
                          Unhindered(w, old(alloc), |data|, |backing|)
      ensures Refusal(old(functional), old(attached), old(keepReadOnly), old(readOnly), w) < 0 ==>
                !copied && backing == old(backing) &&
                ret == Refusal(old(functional), old(attached), old(keepReadOnly), old(readOnly), w)
      ensures Refusal(old(functional), old(attached), old(keepReadOnly), old(readOnly), w) == 0 ==>
                ret == CommitResult(old(readOnly), copied, w)
      ensures Refusal(old(functional), old(attached), old(keepReadOnly), old(readOnly), w) == 0 && !copied ==>
                (ret < 0 <==> !old(readOnly) || w.openRo < 0)
      ensures functional && attached ==> readOnly == old(readOnly)
      ensures var lost := old(functional) && old(attached) && !old(keepReadOnly) && old(readOnly) && w.openRo < 0;
              functional == (old(functional) && !lost) && attached == (old(attached) && !lost)
    {
      hide View, HiddenChange, Committed, Uniform, Unhindered;
      copied := false;
      HiddenRefl(alloc, backing);
      if !functional {
        return -ENOMEDIUM, false;
      }
      if !attached {
        return -ENOTSUP, false;
      }
      if keepReadOnly {
        return -EACCES, false;
      }
      var ro := readOnly;
      if ro {
        if w.openRw < 0 {
          attached := false;
          if w.openRo < 0 {
            functional := false;
            return w.openRo, false;
          }
          attached := true;
          return w.openRw, false;
        }
        readOnly := false;
      }
      copied, ret := CopyAndEmpty(w);
      if ro {
        ret := ReopenReadOnly(w);
      }
    }
  }

  /** What stops a commit before it copies anything; 0 when nothing does. */
  function Refusal(functional: bool, attached: bool, keepReadOnly: bool, readOnly: bool, w: World): (r: int) {
    if !functional then -ENOMEDIUM
    else if !attached then -ENOTSUP
    else if keepReadOnly then -EACCES
    else if readOnly && w.openRw < 0 then if w.openRo < 0 then w.openRo else w.openRw
    else 0
  }

  /** The result of a commit that was not refused.  Reopening a read-only backing image overwrites the
      result of the copy. */
  function CommitResult(readOnly: bool, copied: bool, w: World): (r: int) {
    if readOnly then if w.openRo < 0 then w.openRo else 0
    else if !copied then -EIO
    else if w.empty.EmptyFailed? then w.empty.ret
    else 0
  }

  lemma HiddenRefl(alloc: seq<bool>, b: seq<Sector>)
    ensures HiddenChange(alloc, b, b)
  {
  }

  lemma NothingLanded(alloc: seq<bool>, data: seq<Sector>, b: seq<Sector>)
    requires |alloc| == |data|
    ensures Landed(alloc, data, b, 0)
  {
  }

  lemma LandedAll(alloc: seq<bool>, data: seq<Sector>, b: seq<Sector>, p: nat)
    requires |alloc| == |data| && p >= |data| && Landed(alloc, data, b, p)
    ensures Landed(alloc, data, b, |data|)
  {
  }

  lemma SkipLands(alloc: seq<bool>, data: seq<Sector>, b: seq<Sector>, p: nat, n: nat)
    requires |alloc| == |data| && Landed(alloc, data, b, p) && AllSame(alloc, p, n, false)
    ensures Landed(alloc, data, b, p + n)
  {
  }

  /** A read-only backing image, a write that fails, and a commit that reports success. */
  method FailedCommitReportsSuccess() returns (ret: int, copied: bool)
    ensures ret == 0 && !copied
  {
    var o := new Overlay;
    o.functional, o.attached, o.keepReadOnly, o.readOnly := true, true, false, true;
    o.alloc, o.data, o.backing := [true], [1], [0];
    var w := World(_ => 1, _ => false, _ => true, _ => [], Absent, 0, 0);
    assert Uniform(o.alloc, w.run);
    Hindered(w, o.alloc, 1, 1, 0);
    ret, copied := o.CommitToBacking(w);
  }
}
