/** multiwrite_merge: neighbouring write requests become one, and what the disk holds afterwards. */
module MultiwriteMerge {
  import opened Wire

  const SECTOR := 512
  const IOV_MAX := 1024

  type Iov = seq<seq<byte>>

  /** A request, sorted by sector; cookie and error belong to the caller. */
  datatype Req = Req(sector: nat, nb: nat, iov: Iov, cookie: int, error: int)

  /** The driver's wish to merge across a gap; it sees sectors and counts. */
  type Hook = (nat, nat, nat, nat) -> bool

  // ---------------------------------------------------------------- vectors

  function Flat(v: Iov): (r: seq<byte>) {
    if v == [] then [] else v[0] + Flat(v[1..])
  }

  /** qemu_iovec_concat: the elements that cover the first size bytes, empty ones skipped. */
  function Take(v: Iov, size: nat): (r: Iov) {
    if v == [] || size == 0 then []
    else if |v[0]| == 0 then Take(v[1..], size)
    else if |v[0]| > size then [v[0][..size]]
    else [v[0]] + Take(v[1..], size - |v[0]|)
  }

  function Least(a: nat, b: nat): (r: nat) {
    if a <= b then a else b
  }

  lemma {:induction false} FlatTake(v: Iov, size: nat)
    ensures Flat(Take(v, size)) == Flat(v)[..Least(size, |Flat(v)|)]
    decreases |v|
  {
    if v != [] && size > 0 {
      if |v[0]| == 0 {
        FlatTake(v[1..], size);
        assert Flat(v) == Flat(v[1..]);
      } else if |v[0]| > size {
        assert [v[0][..size]][1..] == [];
        assert Flat(Take(v, size)) == v[0][..size];
      } else {
        FlatTake(v[1..], size - |v[0]|);
        assert Take(v, size)[1..] == Take(v[1..], size - |v[0]|);
      }
    }
  }

  lemma {:induction false} FlatJoin(v: Iov, w: Iov)
    ensures Flat(v + w) == Flat(v) + Flat(w)
    decreases |v|
  {
    if v == [] {
      assert v + w == w;
    } else {
      FlatJoin(v[1..], w);
      assert (v + w)[1..] == v[1..] + w;
    }
  }

  // ---------------------------------------------------------------- the merge

  function Start(r: Req): (b: int) { SECTOR * r.sector }
  function Data(r: Req): (d: seq<byte>) { Flat(r.iov) }
  function End(r: Req): (b: int) { Start(r) + SECTOR * r.nb }

  predicate Whole(r: Req) { |Data(r)| == SECTOR * r.nb }

  predicate Covers(r: Req, b: int) { Start(r) <= b < Start(r) + |Data(r)| }

  /** The code's decision: touching or overlapping, or wanted by the driver; and within IOV_MAX. */
  predicate Joins(a: Req, r: Req, hook: Hook) {
    && (r.sector <= a.sector + a.nb || hook(a.sector, a.nb, r.sector, r.nb))
    && |a.iov| + |r.iov| + 1 <= IOV_MAX
  }

  function Zeros(n: nat): (d: seq<byte>) { seq(n, _ => 0) }

  /** The zeros that fill a gap; none when the requests touch. */
  function Gap(a: Req, r: Req): (v: Iov) {
    if Start(r) > End(a) then [Zeros(Start(r) - End(a))] else []
  }

  function Joined(a: Req, r: Req): (v: Iov) {
    Take(a.iov, if a.sector <= r.sector then SECTOR * (r.sector - a.sector) else 0) + Gap(a, r) + Take(r.iov, |Data(r)|)
  }

  function Join(a: Req, r: Req): (j: Req) {
    a.(iov := Joined(a, r), nb := |Flat(Joined(a, r))| / SECTOR)
  }

  lemma JoinedData(a: Req, r: Req)
    requires a.sector <= r.sector && Whole(a)
    ensures Flat(Joined(a, r)) == Data(a)[..Least(Start(r) - Start(a), |Data(a)|)]
                                  + (if Start(r) > End(a) then Zeros(Start(r) - End(a)) else []) + Data(r)
  {
    var size := SECTOR * (r.sector - a.sector);
    FlatTake(a.iov, size);
    FlatTake(r.iov, |Data(r)|);
    assert Flat(r.iov)[..Least(|Data(r)|, |Data(r)|)] == Data(r);
    FlatJoin(Take(a.iov, size) + Gap(a, r), Take(r.iov, |Data(r)|));
    FlatJoin(Take(a.iov, size), Gap(a, r));
    if Start(r) > End(a) {
      assert Gap(a, r)[1..] == [];
      assert Flat(Gap(a, r)) == Zeros(Start(r) - End(a));
    }
  }

  /** What a joined request holds, byte by byte: its own end is the second request's end. */
  lemma JoinBytes(a: Req, r: Req, b: int)
    requires a.sector <= r.sector && Whole(a) && Whole(r)
    ensures Whole(Join(a, r)) && Start(Join(a, r)) == Start(a) && End(Join(a, r)) == End(r)
    ensures Covers(Join(a, r), b) <==> Start(a) <= b < End(r)
    ensures Covers(Join(a, r), b) ==>
              Data(Join(a, r))[b - Start(a)] == if b >= Start(r) then Data(r)[b - Start(r)]
                                                else if b < End(a) then Data(a)[b - Start(a)] else 0
  {
    JoinedData(a, r);
    assert |Flat(Joined(a, r))| == SECTOR * (r.sector - a.sector + r.nb);
  }

  ghost predicate Sorted(reqs: seq<Req>) {
    && (forall i :: 0 <= i < |reqs| ==> Whole(reqs[i]))
    && (forall i, j :: 0 <= i <= j < |reqs| ==> reqs[i].sector <= reqs[j].sector)
  }

  /** One turn of the loop: the next request joins the last one, or follows it. */
  function Step(out: seq<Req>, r: Req, hook: Hook): (next: seq<Req>)
    requires out != []
    ensures |out| <= |next| <= |out| + 1
  {
    var n := |out| - 1;
    if Joins(out[n], r, hook) then out[..n] + [Join(out[n], r)] else out + [r]
  }

  /** The requests left once the first i have been looked at. */
  function Merged(reqs: seq<Req>, i: nat, hook: Hook): (out: seq<Req>)
    requires 1 <= i <= |reqs|
    ensures 1 <= |out| <= i
  {
    if i == 1 then [reqs[0]] else Step(Merged(reqs, i - 1, hook), reqs[i - 1], hook)
  }

  /** The request that the next one may be merged into. */
  function LastOut(reqs: seq<Req>, i: nat, hook: Hook): (r: Req)
    requires 1 <= i <= |reqs|
  {
    var out := Merged(reqs, i, hook);
    out[|out| - 1]
  }

  lemma {:induction false} LastOutExtent(reqs: seq<Req>, i: nat, hook: Hook)
    requires Sorted(reqs) && 1 <= i <= |reqs|
    ensures var a := LastOut(reqs, i, hook);
            Whole(a) && Start(a) <= Start(reqs[i - 1]) && End(a) == End(reqs[i - 1])
  {
    hide Join, Joins, Data, Whole, Start, End;
    if i == 1 {
      assert Whole(reqs[0]);
    } else {
      hide LastOut, Sorted;
      LastOutExtent(reqs, i - 1, hook);
      SortedPair(reqs, i - 1);
      LastOutStep(reqs, i, hook);
      ExtentStep(LastOut(reqs, i - 1, hook), reqs[i - 2], reqs[i - 1]);
    }
  }

  lemma SortedPair(reqs: seq<Req>, i: nat)
    requires Sorted(reqs) && 1 <= i < |reqs|
    ensures Whole(reqs[i]) && Start(reqs[i - 1]) <= Start(reqs[i])
  {
    hide Whole;
    assert reqs[i - 1].sector <= reqs[i].sector;
  }

  lemma LastOutStep(reqs: seq<Req>, i: nat, hook: Hook)
    requires 2 <= i <= |reqs|
    ensures var a, r := LastOut(reqs, i - 1, hook), reqs[i - 1];
            LastOut(reqs, i, hook) == if Joins(a, r, hook) then Join(a, r) else r
  {
    hide Join, Joins;
  }

  lemma ExtentStep(a: Req, p: Req, r: Req)
    requires Whole(a) && Whole(r) && Start(a) <= Start(p) <= Start(r)
    ensures Whole(Join(a, r)) && Start(Join(a, r)) <= Start(r) && End(Join(a, r)) == End(r)
  {
    JoinBytes(a, r, 0);
  }

  // ---------------------------------------------------------------- which requests become one

  /** The number of vectors of the first i requests. */
  function Vectors(reqs: seq<Req>, i: nat): (n: nat)
    requires i <= |reqs|
  {
    if i == 0 then 0 else Vectors(reqs, i - 1) + |reqs[i - 1].iov|
  }

  lemma {:induction false} TakeCount(v: Iov, size: nat)
    ensures |Take(v, size)| <= |v|
    decreases |v|
  {
    if v != [] {
      TakeCount(v[1..], size);
      if |v[0]| <= size {
        TakeCount(v[1..], size - |v[0]|);
      }
    }
  }

  /** Each request touches or overlaps the one before it. */
  ghost predicate Touching(reqs: seq<Req>) {
    forall k :: 1 <= k < |reqs| ==> Start(reqs[k]) <= End(reqs[k - 1])
  }

  lemma JoinVectors(a: Req, r: Req)
    requires Start(r) <= End(a)
    ensures |Join(a, r).iov| <= |a.iov| + |r.iov|
  {
    TakeCount(a.iov, if a.sector <= r.sector then SECTOR * (r.sector - a.sector) else 0);
    TakeCount(r.iov, |Data(r)|);
    hide Take, Flat;
  }

  lemma {:induction false} TouchingMerge(reqs: seq<Req>, i: nat, hook: Hook)
    requires Sorted(reqs) && Touching(reqs) && 1 <= i <= |reqs| && Vectors(reqs, i) < 1024
    ensures |Merged(reqs, i, hook)| == 1 && |LastOut(reqs, i, hook).iov| <= Vectors(reqs, i)
    ensures Start(LastOut(reqs, i, hook)) == Start(reqs[0])
  {
    hide Join, Whole;
    if i > 1 {
      TouchingMerge(reqs, i - 1, hook);
      LastOutExtent(reqs, i - 1, hook);
      SortedPair(reqs, i - 1);
      assert Start(reqs[i - 1]) <= End(reqs[i - 2]);
      JoinVectors(LastOut(reqs, i - 1, hook), reqs[i - 1]);
      JoinBytes(LastOut(reqs, i - 1, hook), reqs[i - 1], 0);
    }
  }

  /** Requests that touch or overlap, with fewer vectors than the limit, become one request from the start
      of the first to the end of the last. */
  lemma TouchingBecomeOne(reqs: seq<Req>, hook: Hook)
    requires Sorted(reqs) && reqs != [] && Touching(reqs) && Vectors(reqs, |reqs|) < 1024
    ensures var out := Merged(reqs, |reqs|, hook);
            |out| == 1 && Start(out[0]) == Start(reqs[0]) && End(out[0]) == End(reqs[|reqs| - 1])
  {
    hide Merged;
    TouchingMerge(reqs, |reqs|, hook);
    LastOutExtent(reqs, |reqs|, hook);
  }

  /** Two requests that reach the limit stay two, and so do two that leave a gap the driver does not want. */
  lemma ApartStayApart(out: seq<Req>, r: Req, hook: Hook)
    requires out != []
    requires var a := out[|out| - 1];
             || |a.iov| + |r.iov| >= 1024
             || (Start(r) > End(a) && !hook(a.sector, a.nb, r.sector, r.nb))
    ensures Step(out, r, hook) == out + [r]
  {
    hide Join;
  }

  // ---------------------------------------------------------------- what the disk holds

  /** Byte b of a disk that held was there, after writing the requests in order. */
  function After(reqs: seq<Req>, b: int, was: byte): (r: byte) {
    if reqs == [] then was
    else
      var last := reqs[|reqs| - 1];
      if Covers(last, b) then Data(last)[b - Start(last)] else After(reqs[..|reqs| - 1], b, was)
  }

  lemma AfterSnoc(reqs: seq<Req>, r: Req, b: int, was: byte)
    ensures After(reqs + [r], b, was) == if Covers(r, b) then Data(r)[b - Start(r)] else After(reqs, b, was)
  {
    assert (reqs + [r])[..|reqs|] == reqs;
  }

  /** Some request from lo up to hi writes byte b. */
  ghost predicate Written(reqs: seq<Req>, lo: nat, hi: nat, b: int)
    requires hi <= |reqs|
  {
    exists j :: lo <= j < hi && Covers(reqs[j], b)
  }

  /** Request k is merged into what stands before it. */
  predicate Merges(reqs: seq<Req>, k: nat, hook: Hook)
    requires k < |reqs|
  {
    k >= 1 && Joins(LastOut(reqs, k, hook), reqs[k], hook)
  }

  predicate InGap(reqs: seq<Req>, k: nat, hook: Hook, b: int)
    requires k < |reqs|
  {
    Merges(reqs, k, hook) && End(reqs[k - 1]) <= b < Start(reqs[k])
  }

  /** Merging request k drops byte b, which the request before wrote, or fills it with zero. */
  predicate Spoils(reqs: seq<Req>, k: nat, hook: Hook, b: int)
    requires k < |reqs|
  {
    InGap(reqs, k, hook, b) || (Merges(reqs, k, hook) && End(reqs[k]) <= b < End(reqs[k - 1]))
  }

  /** Byte b was written, then spoiled, and not written again before request i. */
  ghost predicate Lost(reqs: seq<Req>, i: nat, hook: Hook, b: int)
    requires i <= |reqs|
  {
    exists k :: 0 <= k < i && Spoils(reqs, k, hook, b) && Written(reqs, 0, k, b) && !Written(reqs, k + 1, i, b)
  }

  ghost predicate SomeGap(reqs: seq<Req>, i: nat, hook: Hook, b: int)
    requires i <= |reqs|
  {
    exists k :: 0 <= k < i && InGap(reqs, k, hook, b) && Wanted(reqs, k, hook)
  }

  /** The driver asked for request k to be merged into what stands before it. */
  predicate Wanted(reqs: seq<Req>, k: nat, hook: Hook)
    requires k < |reqs|
  {
    k >= 1 && var a := LastOut(reqs, k, hook); hook(a.sector, a.nb, reqs[k].sector, reqs[k].nb)
  }

  /** A gap is closed only because the driver asked for it. */
  lemma GapIsWanted(reqs: seq<Req>, k: nat, hook: Hook, b: int)
    requires Sorted(reqs) && k < |reqs| && InGap(reqs, k, hook, b)
    ensures Wanted(reqs, k, hook)
  {
    hide Merged;
    LastOutExtent(reqs, k, hook);
  }

  /** Unless the byte is lost, the merged requests leave there what the originals leave; a byte that no
      request writes keeps its value, or is zero in a gap whose merge the driver asked for. */
  ghost predicate Means(reqs: seq<Req>, i: nat, hook: Hook, b: int, was: byte)
    requires 1 <= i <= |reqs|
  {
    var m := After(Merged(reqs, i, hook), b, was);
    if Written(reqs, 0, i, b) then m == After(reqs[..i], b, was)
    else m == was || (m == 0 && SomeGap(reqs, i, hook, b))
  }

  /** A request that does not write b leaves it written, lost or neither as before. */
  lemma NotCovered(reqs: seq<Req>, i: nat, hook: Hook, b: int)
    requires i < |reqs| && !Covers(reqs[i], b)
    ensures Written(reqs, 0, i + 1, b) == Written(reqs, 0, i, b)
    ensures Lost(reqs, i, hook, b) ==> Lost(reqs, i + 1, hook, b)
    ensures SomeGap(reqs, i, hook, b) ==> SomeGap(reqs, i + 1, hook, b)
  {
    hide Spoils, Covers, InGap, Wanted;
    if Written(reqs, 0, i + 1, b) {
      var j :| 0 <= j < i + 1 && Covers(reqs[j], b);
      assert j < i;
    }
    if Lost(reqs, i, hook, b) {
      var k :| 0 <= k < i && Spoils(reqs, k, hook, b) && Written(reqs, 0, k, b) && !Written(reqs, k + 1, i, b);
      assert !Written(reqs, k + 1, i + 1, b);
    }
  }

  lemma TakeSnoc(reqs: seq<Req>, i: nat)
    requires i < |reqs|
    ensures reqs[..i + 1] == reqs[..i] + [reqs[i]]
  {
  }

  lemma MeansAfterAppend(reqs: seq<Req>, i: nat, hook: Hook, b: int, was: byte)
    requires Sorted(reqs) && 1 <= i < |reqs| && !Merges(reqs, i, hook) && !Lost(reqs, i + 1, hook, b)
    requires !Lost(reqs, i, hook, b) ==> Means(reqs, i, hook, b, was)
    ensures Means(reqs, i + 1, hook, b, was)
  {
    TakeSnoc(reqs, i);
    AfterSnoc(reqs[..i], reqs[i], b, was);
    AfterSnoc(Merged(reqs, i, hook), reqs[i], b, was);
    if !Covers(reqs[i], b) {
      NotCovered(reqs, i, hook, b);
    }
  }

  /** Joining r to the last request changes what is written only in r, in a gap, and in a tail. */
  lemma AfterJoin(out: seq<Req>, a: Req, r: Req, b: int, was: byte)
    requires a.sector <= r.sector && Whole(a) && Whole(r)
    ensures After(out + [Join(a, r)], b, was)
         == (if Covers(r, b) then Data(r)[b - Start(r)]
             else if End(a) <= b < Start(r) then 0
             else if End(r) <= b < End(a) then After(out, b, was)
             else After(out + [a], b, was))
  {
    JoinBytes(a, r, b);
    AfterSnoc(out, Join(a, r), b, was);
    AfterSnoc(out, a, b, was);
  }

  lemma MergedByJoin(reqs: seq<Req>, i: nat, hook: Hook)
    requires 1 <= i < |reqs| && Merges(reqs, i, hook)
    ensures var out := Merged(reqs, i, hook); var n := |out| - 1;
            Merged(reqs, i + 1, hook) == out[..n] + [Join(out[n], reqs[i])]
  {
  }

  lemma SpoiledIsLost(reqs: seq<Req>, i: nat, hook: Hook, b: int)
    requires Sorted(reqs) && 1 <= i < |reqs| && Spoils(reqs, i, hook, b) && !Lost(reqs, i + 1, hook, b)
    ensures !Written(reqs, 0, i, b) && InGap(reqs, i, hook, b)
  {
    assert !Written(reqs, i + 1, i + 1, b);
    if End(reqs[i]) <= b < End(reqs[i - 1]) {
      TailIsWritten(reqs, i, b);
    }
  }

  lemma TailIsWritten(reqs: seq<Req>, i: nat, b: int)
    requires Sorted(reqs) && 1 <= i < |reqs| && End(reqs[i]) <= b < End(reqs[i - 1])
    ensures Covers(reqs[i - 1], b) && Written(reqs, 0, i, b)
  {
    assert reqs[i - 1].sector <= reqs[i].sector && Whole(reqs[i - 1]);
    assert Covers(reqs[i - 1], b);
  }

  /** A merge step, byte by byte. */
  lemma AfterMerge(reqs: seq<Req>, i: nat, hook: Hook, b: int, was: byte)
    requires Sorted(reqs) && 1 <= i < |reqs| && Merges(reqs, i, hook)
    ensures var m := After(Merged(reqs, i + 1, hook), b, was);
            && (Covers(reqs[i], b) ==> m == Data(reqs[i])[b - Start(reqs[i])])
            && (!Covers(reqs[i], b) && InGap(reqs, i, hook, b) ==> m == 0)
            && (!Covers(reqs[i], b) && !Spoils(reqs, i, hook, b) ==> m == After(Merged(reqs, i, hook), b, was))
  {
    hide Merged, After, Join, Data, Joins;
    LastOutExtent(reqs, i, hook);
    assert reqs[i - 1].sector <= reqs[i].sector && Whole(reqs[i]);
    MergedByJoin(reqs, i, hook);
    var out := Merged(reqs, i, hook);
    AfterJoin(out[..|out| - 1], out[|out| - 1], reqs[i], b, was);
    assert out[..|out| - 1] + [out[|out| - 1]] == out;
  }

  lemma MeansAfterJoin(reqs: seq<Req>, i: nat, hook: Hook, b: int, was: byte)
    requires Sorted(reqs) && 1 <= i < |reqs| && Merges(reqs, i, hook) && !Lost(reqs, i + 1, hook, b)
    requires !Lost(reqs, i, hook, b) ==> Means(reqs, i, hook, b, was)
    ensures Means(reqs, i + 1, hook, b, was)
  {
    hide Merged, After, Data, Lost, Merges, Spoils, InGap, Covers, Wanted;
    AfterMerge(reqs, i, hook, b, was);
    TakeSnoc(reqs, i);
    AfterSnoc(reqs[..i], reqs[i], b, was);
    if !Covers(reqs[i], b) {
      NotCovered(reqs, i, hook, b);
      if Spoils(reqs, i, hook, b) {
        SpoiledIsLost(reqs, i, hook, b);
        GapIsWanted(reqs, i, hook, b);
      }
    }
  }

  lemma MeansAtFirst(reqs: seq<Req>, hook: Hook, b: int, was: byte)
    requires reqs != []
    ensures Means(reqs, 1, hook, b, was)
  {
    hide Data;
    assert reqs[..1] == [reqs[0]];
    assert Written(reqs, 0, 1, b) <==> Covers(reqs[0], b);
    AfterPair(reqs[0], reqs[0], b);
    AfterSnoc([], reqs[0], b, was);
    assert [] + [reqs[0]] == [reqs[0]];
  }

  lemma {:induction false} MergeMeans(reqs: seq<Req>, i: nat, hook: Hook, b: int, was: byte)
    requires Sorted(reqs) && 1 <= i <= |reqs| && !Lost(reqs, i, hook, b)
    ensures Means(reqs, i, hook, b, was)
  {
    hide Means, Merges, Lost;
    if i == 1 {
      MeansAtFirst(reqs, hook, b, was);
    } else {
      if !Lost(reqs, i - 1, hook, b) {
        MergeMeans(reqs, i - 1, hook, b, was);
      }
      if Merges(reqs, i - 1, hook) {
        MeansAfterJoin(reqs, i - 1, hook, b, was);
      } else {
        MeansAfterAppend(reqs, i - 1, hook, b, was);
      }
    }
  }

  // ---------------------------------------------------------------- when the merge is right

  /** Every byte that a merge spoils after it was written is written again later. */
  ghost predicate Safe(reqs: seq<Req>, hook: Hook) {
    forall k, b :: 0 <= k < |reqs| && Spoils(reqs, k, hook, b) && Written(reqs, 0, k, b) ==>
      Written(reqs, k + 1, |reqs|, b)
  }

  /** Writing the merged list leaves the disk that writing the sorted originals leaves, with zeros added
      only in gaps that the driver asked to close. */
  lemma MergePreserves(reqs: seq<Req>, hook: Hook, b: int, was: byte)
    requires Sorted(reqs) && reqs != [] && Safe(reqs, hook)
    ensures Means(reqs, |reqs|, hook, b, was)
  {
    hide Spoils, Merged, Written;
    MergeMeans(reqs, |reqs|, hook, b, was);
  }

  /** Ends that never go down are enough. */
  lemma RisingEndsAreSafe(reqs: seq<Req>, hook: Hook)
    requires Sorted(reqs)
    requires forall i, j :: 0 <= i <= j < |reqs| ==> End(reqs[i]) <= End(reqs[j])
    ensures Safe(reqs, hook)
  {
    hide Merges;
    forall k, b | 0 <= k < |reqs| && Spoils(reqs, k, hook, b) ensures !Written(reqs, 0, k, b) {
      forall j | 0 <= j < k ensures !Covers(reqs[j], b) {
        assert End(reqs[j]) <= End(reqs[k - 1]) <= End(reqs[k]) && Whole(reqs[j]);
      }
    }
  }

  // ---------------------------------------------------------------- and when it is not

  /** Two vectors with the same element lengths. */
  predicate SameLengths(v: Iov, w: Iov) {
    |v| == |w| && forall i :: 0 <= i < |v| ==> |v[i]| == |w[i]|
  }

  /** Two requests that differ at most in the bytes they write. */
  predicate Alike(r: Req, s: Req) {
    r.sector == s.sector && r.nb == s.nb && SameLengths(r.iov, s.iov)
  }

  predicate AllAlike(reqs: seq<Req>, others: seq<Req>) {
    |reqs| == |others| && forall i :: 0 <= i < |reqs| ==> Alike(reqs[i], others[i])
  }

  lemma {:induction false} FlatLength(v: Iov, w: Iov)
    requires SameLengths(v, w)
    ensures |Flat(v)| == |Flat(w)|
    decreases |v|
  {
    if v != [] { FlatLength(v[1..], w[1..]); }
  }

  lemma {:induction false} TakeLengths(v: Iov, w: Iov, size: nat)
    requires SameLengths(v, w)
    ensures SameLengths(Take(v, size), Take(w, size))
    decreases |v|
  {
    if v != [] && size > 0 {
      if |v[0]| == 0 {
        TakeLengths(v[1..], w[1..], size);
      } else if |v[0]| <= size {
        TakeLengths(v[1..], w[1..], size - |v[0]|);
      }
    }
  }

  lemma JoinAlike(a: Req, r: Req, a': Req, r': Req)
    requires Alike(a, a') && Alike(r, r')
    ensures Alike(Join(a, r), Join(a', r'))
  {
    FlatLength(r.iov, r'.iov);
    TakeLengths(a.iov, a'.iov, if a.sector <= r.sector then SECTOR * (r.sector - a.sector) else 0);
    TakeLengths(r.iov, r'.iov, |Data(r)|);
    FlatLength(Joined(a, r), Joined(a', r'));
  }

  lemma {:induction false} MergedAlike(reqs: seq<Req>, others: seq<Req>, i: nat, hook: Hook)
    requires AllAlike(reqs, others) && 1 <= i <= |reqs|
    ensures AllAlike(Merged(reqs, i, hook), Merged(others, i, hook))
  {
    hide Step, Alike;
    if i > 1 {
      MergedAlike(reqs, others, i - 1, hook);
      StepAlike(Merged(reqs, i - 1, hook), Merged(others, i - 1, hook), reqs[i - 1], others[i - 1], hook);
    }
  }

  lemma StepAlike(out: seq<Req>, other: seq<Req>, r: Req, s: Req, hook: Hook)
    requires out != [] && AllAlike(out, other) && Alike(r, s)
    ensures AllAlike(Step(out, r, hook), Step(other, s, hook))
  {
    var n := |out| - 1;
    assert Alike(out[n], other[n]);
    assert Joins(out[n], r, hook) == Joins(other[n], s, hook);
    hide Join, Joins, SameLengths;
    JoinAlike(out[n], r, other[n], s);
  }

  /** Merging and spoiling depend on extents and element counts alone. */
  lemma AlikeFacts(reqs: seq<Req>, others: seq<Req>, k: nat, hook: Hook, b: int)
    requires AllAlike(reqs, others) && k < |reqs|
    ensures Covers(reqs[k], b) == Covers(others[k], b) && Whole(reqs[k]) == Whole(others[k])
    ensures Spoils(reqs, k, hook, b) == Spoils(others, k, hook, b)
  {
    hide Merged;
    FlatLength(reqs[k].iov, others[k].iov);
    if k >= 1 {
      MergedAlike(reqs, others, k, hook);
    }
  }

  lemma AlikeSafe(reqs: seq<Req>, others: seq<Req>, hook: Hook)
    requires AllAlike(reqs, others) && Sorted(reqs)
    ensures Sorted(others)
    ensures Safe(reqs, hook) ==> Safe(others, hook)
  {
    hide Spoils, Covers;
    forall k, b: int | 0 <= k < |reqs|
      ensures Whole(others[k])
      ensures Covers(reqs[k], b) == Covers(others[k], b)
      ensures Spoils(reqs, k, hook, b) == Spoils(others, k, hook, b)
    {
      AlikeFacts(reqs, others, k, hook, b);
    }
    assert forall i, j :: 0 <= i <= j < |others| ==> others[i].sector <= others[j].sector;
    if Safe(reqs, hook) {
      forall k, b | 0 <= k < |others| && Spoils(others, k, hook, b) && Written(others, 0, k, b)
        ensures Written(others, k + 1, |others|, b)
      {
        assert Written(reqs, 0, k, b);
        var j :| k + 1 <= j < |reqs| && Covers(reqs[j], b);
        assert Covers(others[j], b);
      }
    }
  }

  /** The same vector with one value everywhere. */
  function Painted(v: Iov, c: byte): (r: Iov)
    ensures |r| == |v|
  {
    seq(|v|, i requires 0 <= i < |v| => seq(|v[i]|, _ => c))
  }

  /** The same requests, with ones in request j and twos everywhere else. */
  function Paint(reqs: seq<Req>, j: nat): (r: seq<Req>)
    ensures |r| == |reqs|
  {
    seq(|reqs|, i requires 0 <= i < |reqs| => reqs[i].(iov := Painted(reqs[i].iov, if i == j then 1 else 2)))
  }

  lemma {:induction false} FlatPainted(v: Iov, c: byte)
    ensures forall i :: 0 <= i < |Flat(Painted(v, c))| ==> Flat(Painted(v, c))[i] == c
    decreases |v|
  {
    if v != [] {
      FlatPainted(v[1..], c);
      assert Painted(v, c)[1..] == Painted(v[1..], c);
    }
  }

  lemma PaintAlike(reqs: seq<Req>, j: nat)
    ensures AllAlike(reqs, Paint(reqs, j))
  {
  }

  /** No byte that the requests write is one. */
  ghost predicate NoOnes(reqs: seq<Req>) {
    forall i :: 0 <= i < |reqs| ==> Whole(reqs[i]) && 1 !in Data(reqs[i])
  }

  lemma {:induction false} AfterNoOnes(reqs: seq<Req>, b: int)
    requires NoOnes(reqs)
    ensures After(reqs, b, 0) != 1
    decreases |reqs|
  {
    if reqs != [] { AfterNoOnes(reqs[..|reqs| - 1], b); }
  }

  lemma JoinNoOnes(a: Req, r: Req)
    requires a.sector <= r.sector && NoOnes([a]) && NoOnes([r])
    ensures NoOnes([Join(a, r)])
  {
    assert [a][0] == a && [r][0] == r;
    JoinBytes(a, r, 0);
    forall k | 0 <= k < |Data(Join(a, r))| ensures Data(Join(a, r))[k] != 1 {
      JoinBytes(a, r, Start(a) + k);
    }
  }

  /** Before request j is looked at, no one is written. */
  lemma {:induction false} MergedNoOnes(reqs: seq<Req>, j: nat, i: nat, hook: Hook)
    requires Sorted(Paint(reqs, j)) && 1 <= i <= |reqs| && i <= j
    ensures NoOnes(Merged(Paint(reqs, j), i, hook))
  {
    var p := Paint(reqs, j);
    FlatPainted(reqs[i - 1].iov, 2);
    assert NoOnes([p[i - 1]]);
    if i > 1 {
      hide Join, Data, Paint;
      MergedNoOnes(reqs, j, i - 1, hook);
      LastOutExtent(p, i - 1, hook);
      assert p[i - 2].sector <= p[i - 1].sector;
      StepNoOnes(Merged(p, i - 1, hook), p[i - 1], hook);
    }
  }

  lemma StepNoOnes(out: seq<Req>, r: Req, hook: Hook)
    requires out != [] && NoOnes(out) && NoOnes([r]) && out[|out| - 1].sector <= r.sector
    ensures NoOnes(Step(out, r, hook))
  {
    hide Join, Data, Joins;
    var n := |out| - 1;
    assert [r][0] == r && [out[n]][0] == out[n];
    JoinNoOnes(out[n], r);
    assert [Join(out[n], r)][0] == Join(out[n], r);
  }

  /** Writing out leaves no one at byte b, and dropping the tail of its last request will not either. */
  ghost predicate Gone(out: seq<Req>, b: int, limit: int) {
    && out != [] && After(out, b, 0) != 1
    && ((Covers(out[|out| - 1], b) && b < limit) || After(out[..|out| - 1], b, 0) != 1)
  }

  lemma {:induction false} EarlierNoOnes(reqs: seq<Req>, k: nat, hook: Hook)
    requires 1 <= k <= |reqs| && Sorted(Paint(reqs, k - 1))
    ensures var out := Merged(Paint(reqs, k - 1), k, hook); NoOnes(out[..|out| - 1])
  {
    hide Join, Data, Joins;
    if k > 1 {
      MergedNoOnes(reqs, k - 1, k - 1, hook);
    }
  }

  /** A joined request, seen from the requests before it. */
  lemma JoinGone(out: seq<Req>, a: Req, r: Req, b: int, limit: int)
    requires a.sector <= r.sector && Whole(a) && Whole(r) && !Covers(r, b)
    requires End(a) <= b < Start(r) == limit || (End(r) <= b < End(a) && After(out, b, 0) != 1)
    ensures Gone(out + [Join(a, r)], b, limit)
  {
    AfterJoin(out, a, r, b, 0);
    JoinBytes(a, r, b);
    hide After, Join, Data;
    assert (out + [Join(a, r)])[..|out|] == out;
  }

  lemma GoneStays(out: seq<Req>, r: Req, hook: Hook, b: int, limit: int)
    requires Gone(out, b, limit) && !Covers(r, b) && limit <= Start(r)
    requires var a := out[|out| - 1]; a.sector <= r.sector && Whole(a) && Whole(r)
    ensures Gone(Step(out, r, hook), b, limit)
  {
    var n := |out| - 1;
    var a := out[n];
    if Joins(a, r, hook) {
      AfterJoin(out[..n], a, r, b, 0);
      JoinBytes(a, r, b);
      hide After, Join, Data, Joins;
      assert out[..n] + [a] == out;
      assert (out[..n] + [Join(a, r)])[..n] == out[..n];
    } else {
      AfterSnoc(out, r, b, 0);
      hide After, Data, Joins;
      assert (out + [r])[..|out|] == out;
    }
  }

  /** The merge that spoils byte b leaves no one there when ones mark the last request that wrote it. */
  lemma GoneStarts(reqs: seq<Req>, j: nat, k: nat, hook: Hook, b: int)
    requires Sorted(Paint(reqs, j)) && j < k < |reqs| && Spoils(Paint(reqs, j), k, hook, b)
    requires forall i :: j < i < k ==> !Covers(Paint(reqs, j)[i], b)
    ensures Gone(Merged(Paint(reqs, j), k + 1, hook), b, Start(Paint(reqs, j)[k]))
  {
    hide Paint, Merged, After, Join, Data, Joins;
    var p := Paint(reqs, j);
    var out := Merged(p, k, hook);
    var n := |out| - 1;
    LastOutExtent(p, k, hook);
    assert p[k - 1].sector <= p[k].sector && Whole(p[k]);
    MergedByJoin(p, k, hook);
    if !InGap(p, k, hook, b) {
      TailIsWritten(p, k, b);
      assert j == k - 1;
      EarlierNoOnes(reqs, k, hook);
      AfterNoOnes(out[..n], b);
    }
    assert !Covers(p[k], b) by { NotInSpoiled(p[k], b); }
    JoinGone(out[..n], out[n], p[k], b, Start(p[k]));
  }

  lemma NotInSpoiled(r: Req, b: int)
    requires Whole(r) && (b < Start(r) || End(r) <= b)
    ensures !Covers(r, b)
  {
  }

  lemma {:induction false} GoneAtEnd(p: seq<Req>, k: nat, i: nat, hook: Hook, b: int)
    requires Sorted(p) && k < i <= |p| && Gone(Merged(p, k + 1, hook), b, Start(p[k])) && !Written(p, k + 1, |p|, b)
    ensures Gone(Merged(p, i, hook), b, Start(p[k]))
    decreases i
  {
    hide Gone, Step;
    if i > k + 1 {
      GoneAtEnd(p, k, i - 1, hook, b);
      LastOutExtent(p, i - 1, hook);
      assert p[i - 2].sector <= p[i - 1].sector && p[k].sector <= p[i - 1].sector && Whole(p[i - 1]);
      assert !Covers(p[i - 1], b);
      GoneStays(Merged(p, i - 1, hook), p[i - 1], hook, b, Start(p[k]));
    }
  }

  lemma {:induction false} LastWriterShows(reqs: seq<Req>, j: nat, i: nat, b: int)
    requires j < i <= |reqs| && Covers(reqs[j], b) && forall m :: j < m < i ==> !Covers(reqs[m], b)
    ensures After(reqs[..i], b, 0) == Data(reqs[j])[b - Start(reqs[j])]
    decreases i
  {
    TakeSnoc(reqs, i - 1);
    AfterSnoc(reqs[..i - 1], reqs[i - 1], b, 0);
    if i - 1 > j {
      LastWriterShows(reqs, j, i - 1, b);
    }
  }

  lemma LastWriter(reqs: seq<Req>, k: nat, b: int) returns (j: nat)
    requires k <= |reqs| && Written(reqs, 0, k, b)
    ensures j < k && Covers(reqs[j], b) && forall m :: j < m < k ==> !Covers(reqs[m], b)
  {
    hide Covers;
    j := k - 1;
    while !Covers(reqs[j], b)
      invariant j < k && forall m :: j < m < k ==> !Covers(reqs[m], b)
      invariant Written(reqs, 0, j + 1, b)
      decreases j
    {
      j := j - 1;
    }
  }

  /** When a written byte is spoiled and not written again, there are contents for which the merged
      requests leave the disk different. */
  lemma UnsafeLosesData(reqs: seq<Req>, hook: Hook, k: nat, b: int) returns (others: seq<Req>)
    requires Sorted(reqs) && k < |reqs| && Spoils(reqs, k, hook, b)
    requires Written(reqs, 0, k, b) && !Written(reqs, k + 1, |reqs|, b)
    ensures AllAlike(reqs, others) && !Means(others, |others|, hook, b, 0)
  {
    hide Paint, Merged, Covers, Spoils, Data, After;
    var j := LastWriter(reqs, k, b);
    others := Paint(reqs, j);
    PaintAlike(reqs, j);
    AlikeSafe(reqs, others, hook);
    forall i | 0 <= i < |reqs| ensures Covers(reqs[i], b) == Covers(others[i], b) {
      AlikeFacts(reqs, others, i, hook, b);
    }
    AlikeFacts(reqs, others, k, hook, b);
    SpoiledNotWritten(others, k, hook, b);
    PaintShows(reqs, j, b);
    GoneStarts(reqs, j, k, hook, b);
    GoneAtEnd(others, k, |others|, hook, b);
    LastWriterShows(others, j, |others|, b);
    assert others[..|others|] == others;
  }

  lemma PaintShows(reqs: seq<Req>, j: nat, b: int)
    requires j < |reqs| && Covers(Paint(reqs, j)[j], b)
    ensures var r := Paint(reqs, j)[j]; Data(r)[b - Start(r)] == 1
  {
    FlatPainted(reqs[j].iov, 1);
  }

  lemma SpoiledNotWritten(reqs: seq<Req>, k: nat, hook: Hook, b: int)
    requires Sorted(reqs) && k < |reqs| && Spoils(reqs, k, hook, b)
    ensures !Covers(reqs[k], b)
  {
    hide Merges;
    NotInSpoiled(reqs[k], b);
  }

  /** The merge is right for all contents of the requests exactly when the extents are safe. */
  lemma MergeExact(reqs: seq<Req>, hook: Hook)
    requires Sorted(reqs) && reqs != []
    ensures Safe(reqs, hook)
       <==> forall others: seq<Req>, b: int, was: byte :: AllAlike(reqs, others) ==> Means(others, |reqs|, hook, b, was)
  {
    hide Spoils, Means, Alike;
    if Safe(reqs, hook) {
      forall others: seq<Req>, b: int, was: byte | AllAlike(reqs, others) ensures Means(others, |reqs|, hook, b, was) {
        AlikeSafe(reqs, others, hook);
        MergePreserves(others, hook, b, was);
      }
    } else {
      var k, b :| 0 <= k < |reqs| && Spoils(reqs, k, hook, b) && Written(reqs, 0, k, b) &&
                  !Written(reqs, k + 1, |reqs|, b);
      var others := UnsafeLosesData(reqs, hook, k, b);
    }
  }

  /** A request that writes one value everywhere. */
  function Uniform(sector: nat, nb: nat, c: byte): (r: Req) {
    Req(sector, nb, [seq(SECTOR * nb, _ => c)], 0, 0)
  }

  lemma UniformData(sector: nat, nb: nat, c: byte, b: int)
    ensures var r := Uniform(sector, nb, c);
            && Whole(r) && (Covers(r, b) <==> SECTOR * sector <= b < SECTOR * (sector + nb))
            && (Covers(r, b) ==> Data(r)[b - Start(r)] == c)
  {
    var r := Uniform(sector, nb, c);
    assert r.iov[1..] == [];
    assert Flat(r.iov) == r.iov[0];
  }

  /** Eight sectors of ones, then two sectors of twos inside them: the merge drops the last four. */
  lemma NestedWriteLosesTail(hook: Hook)
    ensures var reqs := [Uniform(0, 8, 1), Uniform(2, 2, 2)];
            Sorted(reqs) && After(reqs, 4000, 0) == 1 && After(Merged(reqs, 2, hook), 4000, 0) == 0
  {
    var a, r := Uniform(0, 8, 1), Uniform(2, 2, 2);
    UniformData(0, 8, 1, 4000);
    UniformData(2, 2, 2, 4000);
    assert Joins(a, r, hook);
    assert Start(a) == 0 && End(a) == 4096 && Start(r) == 1024 && End(r) == 2048;
    hide Uniform, Data, Join, Joins, Start, End;
    NestedPair(a, r, hook, 4000);
  }

  lemma NestedPair(a: Req, r: Req, hook: Hook, b: int)
    requires a.sector <= r.sector && Whole(a) && Whole(r) && Joins(a, r, hook)
    requires End(r) <= b < End(a) && Covers(a, b) && !Covers(r, b)
    ensures Sorted([a, r])
    ensures After([a, r], b, 0) == Data(a)[b - Start(a)] && After(Merged([a, r], 2, hook), b, 0) == 0
  {
    MergedPair(a, r, hook);
    AfterPair(a, r, b);
    AfterJoin([], a, r, b, 0);
    assert [] + [Join(a, r)] == [Join(a, r)];
  }

  lemma MergedPair(a: Req, r: Req, hook: Hook)
    requires Joins(a, r, hook)
    ensures Merged([a, r], 2, hook) == [Join(a, r)]
  {
    hide Join, Joins;
    var reqs := [a, r];
    assert Merged(reqs, 1, hook) == [a];
    assert [a][..0] + [Join(a, r)] == [Join(a, r)];
  }

  lemma AfterPair(a: Req, r: Req, b: int)
    ensures After([a, r], b, 0) == if Covers(r, b) then Data(r)[b - Start(r)] else After([a], b, 0)
    ensures After([a], b, 0) == if Covers(a, b) then Data(a)[b - Start(a)] else 0
  {
    hide Data;
    assert [a, r] == [a] + [r];
    AfterSnoc([a], r, b, 0);
  }

  // ---------------------------------------------------------------- the code

  /** What the loop keeps of a request that it moves: the caller's fields stay where they are. */
  predicate SameWrite(r: Req, s: Req) {
    r.sector == s.sector && r.nb == s.nb && r.iov == s.iov
  }

  predicate SameCaller(r: Req, s: Req) {
    r.cookie == s.cookie && r.error == s.error
  }

  ghost predicate SameWrites(a: seq<Req>, out: seq<Req>) {
    |out| <= |a| && forall k :: 0 <= k < |out| ==> SameWrite(a[k], out[k])
  }

  /** One turn of the loop on the whole array: join into request n, or keep r after it. */
  function TurnOf(a: seq<Req>, n: nat, r: Req, hook: Hook): (a': seq<Req>)
    requires n + 1 < |a|
    ensures |a'| == |a|
  {
    if Joins(a[n], r, hook) then a[n := a[n].(nb := Join(a[n], r).nb, iov := Join(a[n], r).iov)]
    else a[n + 1 := a[n + 1].(sector := r.sector, nb := r.nb, iov := r.iov)]
  }

  /** The loop's invariant: the first requests are the merged ones, those not yet reached are
      untouched, and every entry keeps the caller's fields. */
  ghost predicate Merging(a: seq<Req>, s: seq<Req>, i: nat, hook: Hook)
    requires 1 <= i <= |s|
  {
    && |a| == |s|
    && SameWrites(a, Merged(s, i, hook))
    && (forall k :: i <= k < |s| ==> a[k] == s[k])
    && (forall k :: 0 <= k < |s| ==> SameCaller(a[k], s[k]))
  }

  lemma StepSameWrites(a: seq<Req>, out: seq<Req>, r: Req, hook: Hook)
    requires out != [] && SameWrites(a, out) && |out| < |a|
    ensures SameWrites(TurnOf(a, |out| - 1, r, hook), Step(out, r, hook))
    ensures |Step(out, r, hook)| == |out| + if Joins(a[|out| - 1], r, hook) then 0 else 1
  {
    var n := |out| - 1;
    assert Joins(a[n], r, hook) == Joins(out[n], r, hook);
    assert SameWrite(Join(a[n], r), Join(out[n], r)) && Join(a[n], r).sector == a[n].sector;
    hide Join, Joins;
  }

  lemma TurnMerges(a: seq<Req>, s: seq<Req>, i: nat, hook: Hook)
    requires 1 <= i < |s| && Merging(a, s, i, hook)
    ensures var n := |Merged(s, i, hook)| - 1;
            && 0 <= n < i
            && Merging(TurnOf(a, n, a[i], hook), s, i + 1, hook)
            && |Merged(s, i + 1, hook)| == n + if Joins(a[n], a[i], hook) then 1 else 2
  {
    hide Join, Joins, Step;
    var out := Merged(s, i, hook);
    var n := |out| - 1;
    StepSameWrites(a, out, s[i], hook);
    hide SameWrites, Merged;
    MergedNext(s, i, hook);
  }

  lemma MergedNext(reqs: seq<Req>, i: nat, hook: Hook)
    requires 1 <= i < |reqs|
    ensures Merged(reqs, i + 1, hook) == Step(Merged(reqs, i, hook), reqs[i], hook)
  {
  }

  /** The loop, in place on the sorted array: the first count requests are the merged ones, and every
      entry keeps the caller's fields. */
  method Merge(reqs: array<Req>, hook: Hook) returns (count: nat)
    requires reqs.Length >= 1
    modifies reqs
    ensures count == |Merged(old(reqs[..]), reqs.Length, hook)| <= reqs.Length
    ensures SameWrites(reqs[..], Merged(old(reqs[..]), reqs.Length, hook))
    ensures forall k :: 0 <= k < reqs.Length ==> SameCaller(reqs[k], old(reqs[k]))
  {
    hide Merged, Join, Joins, Step, SameWrites, Merging;
    ghost var s := reqs[..];
    MergingStarts(s, hook);
    var outidx := 0;
    for i := 1 to reqs.Length
      invariant outidx + 1 == |Merged(s, i, hook)| <= i
      invariant Merging(reqs[..], s, i, hook)
    {
      ghost var a := reqs[..];
      TurnMerges(a, s, i, hook);
      if Joins(reqs[outidx], reqs[i], hook) {
        var joined := Join(reqs[outidx], reqs[i]);
        reqs[outidx] := reqs[outidx].(nb := joined.nb, iov := joined.iov);
      } else {
        outidx := outidx + 1;
        reqs[outidx] := reqs[outidx].(sector := reqs[i].sector, nb := reqs[i].nb, iov := reqs[i].iov);
      }
      assert reqs[..] == TurnOf(a, |Merged(s, i, hook)| - 1, a[i], hook);
    }
    MergingEnds(reqs[..], s, hook);
    count := outidx + 1;
  }

  lemma MergingStarts(s: seq<Req>, hook: Hook)
    requires s != []
    ensures Merging(s, s, 1, hook) && |Merged(s, 1, hook)| == 1
  {
    assert Merged(s, 1, hook) == [s[0]];
  }

  lemma MergingEnds(a: seq<Req>, s: seq<Req>, hook: Hook)
    requires s != [] && Merging(a, s, |s|, hook)
    ensures SameWrites(a, Merged(s, |s|, hook)) && |a| == |s|
    ensures forall k :: 0 <= k < |a| ==> SameCaller(a[k], s[k])
  {
    hide Merged, SameWrites;
  }
}
