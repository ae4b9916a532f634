/** The merged writes are submitted together and complete in any order: when that order cannot matter. */
module MultiwriteOrder {
  import opened Wire
  import opened MultiwriteMerge

  ghost predicate Disjoint(reqs: seq<Req>) {
    forall i, j, b :: 0 <= i < j < |reqs| && Covers(reqs[i], b) ==> !Covers(reqs[j], b)
  }

  /** The requests in another order. */
  ghost predicate Shuffles(reqs: seq<Req>, shuffled: seq<Req>) {
    multiset(shuffled) == multiset(reqs)
  }

  lemma ShufflesMembers(reqs: seq<Req>, shuffled: seq<Req>, r: Req)
    requires Shuffles(reqs, shuffled)
    ensures r in shuffled <==> r in reqs
  {
    assert r in shuffled <==> r in multiset(shuffled);
    assert r in reqs <==> r in multiset(reqs);
  }

  // ------------------------------------------------------ bytes written once

  lemma {:induction false} AfterNone(reqs: seq<Req>, b: int, was: byte)
    requires forall r :: r in reqs ==> !Covers(r, b)
    ensures After(reqs, b, was) == was
    decreases |reqs|
  {
    hide Covers, Data;
    if reqs != [] {
      assert reqs[|reqs| - 1] in reqs;
      AfterNone(reqs[..|reqs| - 1], b, was);
    }
  }

  /** If every request that covers b writes v there, and one does, then v is there. */
  lemma {:induction false} AfterSome(reqs: seq<Req>, r: Req, b: int, was: byte, v: byte)
    requires r in reqs && Covers(r, b)
    requires forall s :: s in reqs && Covers(s, b) ==> Data(s)[b - Start(s)] == v
    ensures After(reqs, b, was) == v
    decreases |reqs|
  {
    var last := reqs[|reqs| - 1];
    assert last in reqs;
    if !Covers(last, b) {
      var front := reqs[..|reqs| - 1];
      assert reqs == front + [last];
      AfterSome(front, r, b, was, v);
    }
  }

  lemma OnlyCover(reqs: seq<Req>, r: Req, s: Req, b: int)
    requires Disjoint(reqs) && r in reqs && s in reqs && Covers(r, b) && Covers(s, b)
    ensures r == s
  {
    hide Covers;
    var i :| 0 <= i < |reqs| && reqs[i] == r;
    var j :| 0 <= j < |reqs| && reqs[j] == s;
  }

  /** Writes with disjoint extents leave the same disk in every order. */
  lemma AnyOrder(reqs: seq<Req>, shuffled: seq<Req>, b: int, was: byte)
    requires Disjoint(reqs) && Shuffles(reqs, shuffled)
    ensures After(shuffled, b, was) == After(reqs, b, was)
  {
    forall r ensures r in shuffled <==> r in reqs { ShufflesMembers(reqs, shuffled, r); }
    hide Shuffles, Data;
    if r :| r in reqs && Covers(r, b) {
      var v := Data(r)[b - Start(r)];
      forall s | s in reqs && Covers(s, b) ensures Data(s)[b - Start(s)] == v { OnlyCover(reqs, r, s, b); }
      AfterSome(reqs, r, b, was, v);
      AfterSome(shuffled, r, b, was, v);
    } else {
      AfterNone(reqs, b, was);
      AfterNone(shuffled, b, was);
    }
  }

  // --------------------------------------------------------------- the converse

  lemma {:induction false} AfterAppend(a: seq<Req>, c: seq<Req>, b: int, was: byte)
    ensures After(a + c, b, was) == After(c, b, After(a, b, was))
    decreases |c|
  {
    hide Covers, Data;
    if c == [] {
      assert a + c == a;
    } else {
      assert (a + c)[..|a + c| - 1] == a + c[..|c| - 1];
      AfterAppend(a, c[..|c| - 1], b, was);
    }
  }

  /** Request i, which j > i overlaps, goes last. */
  function Postponed(reqs: seq<Req>, i: nat): (r: seq<Req>)
    requires i < |reqs|
  {
    reqs[..i] + reqs[i + 1..] + [reqs[i]]
  }

  lemma PostponedShuffles(reqs: seq<Req>, i: nat)
    requires i < |reqs|
    ensures Shuffles(reqs, Postponed(reqs, i))
  {
    assert reqs == reqs[..i] + [reqs[i]] + reqs[i + 1..];
  }

  /** With ones in request i and twos elsewhere, the order of i and an overlapping later request shows. */
  lemma OverlapShows(reqs: seq<Req>, i: nat, j: nat, b: int)
    requires i < j < |reqs| && Covers(reqs[i], b) && Covers(reqs[j], b)
    ensures var others := Paint(reqs, i);
            AllAlike(reqs, others) && After(others, b, 0) == 2 && After(Postponed(others, i), b, 0) == 1
  {
    var others := Paint(reqs, i);
    PaintAlike(reqs, i);
    PaintCovers(reqs, i, i, b);
    PaintCovers(reqs, i, j, b);
    PaintShows(reqs, i, b);
    var tail := others[i + 1..];
    AllTwos(reqs, i, b);
    assert others[j] == tail[j - i - 1];
    assert others == others[..i + 1] + tail;
    hide Paint, Data, Covers;
    AfterAppend(others[..i + 1], tail, b, 0);
    AfterSome(tail, others[j], b, After(others[..i + 1], b, 0), 2);
    AfterSnoc(others[..i] + tail, others[i], b, 0);
  }

  lemma PaintCovers(reqs: seq<Req>, i: nat, k: nat, b: int)
    requires k < |reqs|
    ensures Covers(Paint(reqs, i)[k], b) == Covers(reqs[k], b)
  {
    var c := if k == i then 1 else 2;
    FlatLength(reqs[k].iov, Painted(reqs[k].iov, c));
  }

  lemma AllTwos(reqs: seq<Req>, i: nat, b: int)
    requires i < |reqs|
    ensures forall s :: s in Paint(reqs, i)[i + 1..] && Covers(s, b) ==> Data(s)[b - Start(s)] == 2
  {
    var tail := Paint(reqs, i)[i + 1..];
    hide Paint, Data, Covers;
    forall s | s in tail && Covers(s, b) ensures Data(s)[b - Start(s)] == 2 {
      var k :| 0 <= k < |tail| && tail[k] == s;
      PaintedTwo(reqs, i, i + 1 + k, b);
    }
  }

  lemma PaintedTwo(reqs: seq<Req>, i: nat, k: nat, b: int)
    requires k < |reqs| && k != i && Covers(Paint(reqs, i)[k], b)
    ensures var r := Paint(reqs, i)[k]; Data(r)[b - Start(r)] == 2
  {
    FlatPainted(reqs[k].iov, 2);
  }

  /** Every completion order leaves the same disk, whatever the contents, exactly when the extents are
      disjoint. */
  lemma OrderExact(reqs: seq<Req>)
    ensures Disjoint(reqs) <==> forall others: seq<Req>, shuffled: seq<Req>, b: int, was: byte ::
              AllAlike(reqs, others) && Shuffles(others, shuffled) ==> After(shuffled, b, was) == After(others, b, was)
  {
    if Disjoint(reqs) {
      forall others: seq<Req>, shuffled: seq<Req>, b: int, was: byte
        | AllAlike(reqs, others) && Shuffles(others, shuffled)
        ensures After(shuffled, b, was) == After(others, b, was)
      {
        AlikeDisjoint(reqs, others);
        AnyOrder(others, shuffled, b, was);
      }
    } else {
      var i, j, b :| 0 <= i < j < |reqs| && Covers(reqs[i], b) && Covers(reqs[j], b);
      OverlapShows(reqs, i, j, b);
      PostponedShuffles(Paint(reqs, i), i);
    }
  }

  lemma AlikeDisjoint(reqs: seq<Req>, others: seq<Req>)
    requires AllAlike(reqs, others) && Disjoint(reqs)
    ensures Disjoint(others)
  {
    forall i, b | 0 <= i < |reqs| ensures Covers(reqs[i], b) == Covers(others[i], b) {
      FlatLength(reqs[i].iov, others[i].iov);
    }
    hide Covers;
  }

  // --------------------------------------------------------- merged requests

  /** No request that overlaps what stands before it is kept apart for its number of vectors. */
  ghost predicate NeverRefused(reqs: seq<Req>, hook: Hook) {
    forall k {:trigger LastOut(reqs, k, hook)} :: 1 <= k < |reqs| ==> FitsBefore(LastOut(reqs, k, hook), reqs[k])
  }

  predicate FitsBefore(a: Req, r: Req) {
    r.sector < a.sector + a.nb ==> |a.iov| + |r.iov| + 1 <= IOV_MAX
  }

  /** Each request ends before the later ones start. */
  ghost predicate Ascends(out: seq<Req>) {
    && (forall i :: 0 <= i < |out| ==> Whole(out[i]))
    && (forall i, j :: 0 <= i < j < |out| ==> End(out[i]) <= Start(out[j]))
  }

  lemma AscendsStep(out: seq<Req>, r: Req, hook: Hook)
    requires out != [] && Ascends(out) && Whole(r) && FitsBefore(out[|out| - 1], r)
    requires Start(out[|out| - 1]) <= Start(r)
    ensures Ascends(Step(out, r, hook))
  {
    var n := |out| - 1;
    JoinBytes(out[n], r, 0);
    hide Join, Whole;
  }

  lemma MergedStep(reqs: seq<Req>, i: nat, hook: Hook)
    requires 2 <= i <= |reqs|
    ensures Merged(reqs, i, hook) == Step(Merged(reqs, i - 1, hook), reqs[i - 1], hook)
  {
  }

  lemma NeverRefusedAt(reqs: seq<Req>, k: nat, hook: Hook)
    requires NeverRefused(reqs, hook) && 1 <= k < |reqs|
    ensures FitsBefore(LastOut(reqs, k, hook), reqs[k])
  {
    hide FitsBefore, LastOut;
  }

  lemma AscendsOne(reqs: seq<Req>, hook: Hook)
    requires Sorted(reqs) && reqs != []
    ensures Ascends(Merged(reqs, 1, hook))
  {
    hide Whole, Start, End;
    assert Whole(reqs[0]);
  }

  lemma AscendsNext(reqs: seq<Req>, i: nat, hook: Hook)
    requires Sorted(reqs) && NeverRefused(reqs, hook) && 2 <= i <= |reqs|
    requires Ascends(Merged(reqs, i - 1, hook))
    ensures Ascends(Merged(reqs, i, hook))
  {
    hide Ascends, Sorted, NeverRefused, FitsBefore, Whole, Start, End, Step, Merged;
    NeverRefusedAt(reqs, i - 1, hook);
    LastOutExtent(reqs, i - 1, hook);
    SortedPair(reqs, i - 1);
    MergedStep(reqs, i, hook);
    AscendsStep(Merged(reqs, i - 1, hook), reqs[i - 1], hook);
  }

  lemma {:induction false} MergedAscends(reqs: seq<Req>, i: nat, hook: Hook)
    requires Sorted(reqs) && NeverRefused(reqs, hook) && 1 <= i <= |reqs|
    ensures Ascends(Merged(reqs, i, hook))
  {
    hide Ascends, Sorted, NeverRefused, Merged;
    if i == 1 {
      AscendsOne(reqs, hook);
    } else {
      MergedAscends(reqs, i - 1, hook);
      AscendsNext(reqs, i, hook);
    }
  }

  lemma AscendsDisjoint(out: seq<Req>)
    requires Ascends(out)
    ensures Disjoint(out)
  {
  }

  /** Unless the limit on vectors keeps overlapping requests apart, the merged writes may complete in
      any order. */
  lemma MergedAnyOrder(reqs: seq<Req>, hook: Hook, shuffled: seq<Req>, b: int, was: byte)
    requires Sorted(reqs) && reqs != [] && NeverRefused(reqs, hook)
    requires Shuffles(Merged(reqs, |reqs|, hook), shuffled)
    ensures After(shuffled, b, was) == After(Merged(reqs, |reqs|, hook), b, was)
  {
    hide Merged, Ascends, Disjoint, Shuffles;
    MergedAscends(reqs, |reqs|, hook);
    AscendsDisjoint(Merged(reqs, |reqs|, hook));
    AnyOrder(Merged(reqs, |reqs|, hook), shuffled, b, was);
  }

  /** For safe requests of which no overlapping one is refused, the merged writes leave in every order
      what the originals leave, with zeros added only in gaps that the driver asked to close. */
  lemma MergedOrderPreserves(reqs: seq<Req>, hook: Hook, shuffled: seq<Req>, b: int, was: byte)
    requires Sorted(reqs) && reqs != [] && Safe(reqs, hook) && NeverRefused(reqs, hook)
    requires Shuffles(Merged(reqs, |reqs|, hook), shuffled)
    ensures var left := After(shuffled, b, was);
            if Written(reqs, 0, |reqs|, b) then left == After(reqs, b, was)
            else left == was || (left == 0 && SomeGap(reqs, |reqs|, hook, b))
  {
    hide Merged, Safe, NeverRefused, Shuffles, After, SomeGap, Written;
    MergePreserves(reqs, hook, b, was);
    MergedAnyOrder(reqs, hook, shuffled, b, was);
    assert reqs[..|reqs|] == reqs;
  }

  // --------------------------------------------------- an overlap that shows

  ghost predicate NoneEmpty(reqs: seq<Req>) {
    forall j :: 0 <= j < |reqs| ==> reqs[j].nb > 0
  }

  /** Refusal and emptiness depend on extents and element counts alone. */
  lemma AlikeRefused(reqs: seq<Req>, others: seq<Req>, k: nat, hook: Hook)
    requires AllAlike(reqs, others) && 1 <= k < |reqs|
    ensures FitsBefore(LastOut(reqs, k, hook), reqs[k]) == FitsBefore(LastOut(others, k, hook), others[k])
  {
    MergedAlike(reqs, others, k, hook);
    hide Merged;
  }

  lemma AlikeNeverRefused(reqs: seq<Req>, others: seq<Req>, hook: Hook)
    requires AllAlike(reqs, others) && NeverRefused(reqs, hook)
    ensures NeverRefused(others, hook)
  {
    hide FitsBefore, LastOut, Alike;
    forall k | 1 <= k < |others| ensures FitsBefore(LastOut(others, k, hook), others[k]) {
      AlikeRefused(reqs, others, k, hook);
      NeverRefusedAt(reqs, k, hook);
    }
  }

  /** The request has a one at byte b. */
  ghost predicate ShowsOne(r: Req, b: int) {
    Covers(r, b) && Data(r)[b - Start(r)] == 1
  }

  lemma JoinShows(a: Req, r: Req, b: int)
    requires a.sector <= r.sector && Whole(a) && Whole(r) && ShowsOne(r, b)
    ensures ShowsOne(Join(a, r), b)
  {
    JoinBytes(a, r, b);
    hide Join, Data;
  }

  /** What stands before request k holds the bytes of request k - 1 from its start on. */
  lemma LastOutShows(reqs: seq<Req>, k: nat, hook: Hook, b: int)
    requires Sorted(reqs) && 1 <= k <= |reqs| && ShowsOne(reqs[k - 1], b)
    ensures ShowsOne(LastOut(reqs, k, hook), b)
  {
    hide ShowsOne, Join, Joins, Whole;
    if k > 1 {
      hide LastOut, Sorted;
      LastOutStep(reqs, k, hook);
      LastOutExtent(reqs, k - 1, hook);
      SortedPair(reqs, k - 1);
      JoinShows(LastOut(reqs, k - 1, hook), reqs[k - 1], b);
    }
  }

  /** Without ones, and byte b covered by the first. */
  ghost predicate Overwrites(tail: seq<Req>, b: int) {
    tail != [] && NoOnes(tail) && Covers(tail[0], b)
  }

  lemma {:induction false} OverwritesShows(tail: seq<Req>, b: int, was: byte)
    requires Overwrites(tail, b)
    ensures After(tail, b, was) != 1
    decreases |tail|
  {
    if !Covers(tail[|tail| - 1], b) {
      OverwritesShows(tail[..|tail| - 1], b, was);
    }
  }

  lemma StepBehind(front: seq<Req>, tail: seq<Req>, r: Req, hook: Hook)
    requires tail != []
    ensures Step(front + tail, r, hook) == front + Step(tail, r, hook)
  {
    hide Join, Joins;
    assert (front + tail)[..|front + tail| - 1] == front + tail[..|tail| - 1];
  }

  lemma OverwritesStays(tail: seq<Req>, b: int, r: Req, hook: Hook)
    requires Overwrites(tail, b) && NoOnes([r]) && r.nb > 0 && b <= Start(r)
    requires tail[|tail| - 1].sector <= r.sector
    ensures Overwrites(Step(tail, r, hook), b)
  {
    assert [r][0] == r;
    StepNoOnes(tail, r, hook);
    JoinBytes(tail[|tail| - 1], r, b);
    hide Join, Joins, Data;
  }

  /** Request k and those after it are not empty and have no ones. */
  ghost predicate Marked(p: seq<Req>, k: nat) {
    k < |p| && forall i :: k <= i < |p| ==> NoOnes([p[i]]) && p[i].nb > 0
  }

  lemma MarkedAt(p: seq<Req>, k: nat, i: nat)
    requires Sorted(p) && Marked(p, k) && 0 < k <= i < |p|
    ensures NoOnes([p[i]]) && p[i].nb > 0 && Start(p[k]) <= Start(p[i]) && Start(p[i - 1]) <= Start(p[i])
  {
    hide NoOnes, Whole;
    assert p[k].sector <= p[i].sector && p[i - 1].sector <= p[i].sector;
  }

  lemma PaintMarks(reqs: seq<Req>, k: nat)
    requires Sorted(Paint(reqs, k)) && NoneEmpty(reqs) && k + 1 < |reqs|
    ensures Marked(Paint(reqs, k), k + 1)
  {
    var p := Paint(reqs, k);
    forall i | k + 1 <= i < |p| ensures NoOnes([p[i]]) && p[i].nb > 0 {
      FlatPainted(reqs[i].iov, 2);
    }
  }

  /** If k is refused, everything merged from k on stays behind what stood there before, has no ones,
      and covers the start of request k. */
  lemma {:induction false} RefusedSplits(p: seq<Req>, k: nat, i: nat, hook: Hook) returns (tail: seq<Req>)
    requires Sorted(p) && Marked(p, k) && 1 <= k < i <= |p| && !FitsBefore(LastOut(p, k, hook), p[k])
    ensures tail != [] && Merged(p, i, hook) == Merged(p, k, hook) + tail && Overwrites(tail, Start(p[k]))
    decreases i
  {
    hide Sorted, Marked, Merged, Step, Overwrites, NoOnes, FitsBefore, LastOut, Whole;
    MarkedAt(p, k, i - 1);
    MergedStep(p, i, hook);
    LastOutIs(p, i - 1, hook);
    if i == k + 1 {
      tail := [p[k]];
      RefusedAppends(Merged(p, k, hook), p[k], hook);
    } else {
      var before := RefusedSplits(p, k, i - 1, hook);
      tail := Step(before, p[i - 1], hook);
      LastOutExtent(p, i - 1, hook);
      StepBehind(Merged(p, k, hook), before, p[i - 1], hook);
      OverwritesStays(before, Start(p[k]), p[i - 1], hook);
    }
  }

  lemma RefusedAppends(out: seq<Req>, r: Req, hook: Hook)
    requires out != [] && NoOnes([r]) && r.nb > 0 && !FitsBefore(out[|out| - 1], r)
    ensures Step(out, r, hook) == out + [r] && Overwrites([r], Start(r))
  {
    assert [r][0] == r;
    hide Join;
  }

  lemma RefusedOne(reqs: seq<Req>, hook: Hook) returns (k: nat)
    requires !NeverRefused(reqs, hook)
    ensures 1 <= k < |reqs| && !FitsBefore(LastOut(reqs, k, hook), reqs[k])
  {
    hide FitsBefore, LastOut;
    k :| 1 <= k < |reqs| && !FitsBefore(LastOut(reqs, k, hook), reqs[k]);
  }

  /** A refused request starts inside the one before it. */
  lemma RefusedStart(p: seq<Req>, k: nat, hook: Hook)
    requires Sorted(p) && 1 <= k < |p| && !FitsBefore(LastOut(p, k, hook), p[k])
    ensures Covers(p[k - 1], Start(p[k]))
  {
    LastOutExtent(p, k, hook);
    SortedPair(p, k);
    hide LastOut;
    assert Whole(p[k - 1]);
  }

  /** One request of the list has a one at byte b, and the later ones overwrite it. */
  lemma PostponedShows(front: seq<Req>, tail: seq<Req>, b: int)
    requires front != [] && ShowsOne(front[|front| - 1], b) && Overwrites(tail, b)
    ensures After(front + tail, b, 0) != 1 && After(Postponed(front + tail, |front| - 1), b, 0) == 1
    ensures !Disjoint(front + tail)
  {
    var out, n := front + tail, |front| - 1;
    AfterAppend(front, tail, b, 0);
    OverwritesShows(tail, b, After(front, b, 0));
    AfterSnoc(out[..n] + out[n + 1..], out[n], b, 0);
    assert out[n] == front[n] && out[n + 1] == tail[0];
    hide Covers;
  }

  /** Ones in the request before a refused one show in one order and not in another. */
  lemma MarkedShows(p: seq<Req>, k: nat, hook: Hook) returns (n: nat)
    requires Sorted(p) && Marked(p, k) && 1 <= k < |p| && !FitsBefore(LastOut(p, k, hook), p[k])
    requires ShowsOne(p[k - 1], Start(p[k]))
    ensures var out := Merged(p, |p|, hook);
            && n < |out| && !Disjoint(out)
            && After(out, Start(p[k]), 0) != After(Postponed(out, n), Start(p[k]), 0)
  {
    hide Sorted, Marked, Merged, FitsBefore, LastOut, ShowsOne, Overwrites, Disjoint, Postponed;
    var b := Start(p[k]);
    LastOutShows(p, k, hook, b);
    LastOutIs(p, k, hook);
    var tail := RefusedSplits(p, k, |p|, hook);
    var front := Merged(p, k, hook);
    n := |front| - 1;
    PostponedShows(front, tail, b);
  }

  /** A refused overlapping request shows: for some contents two orders leave different disks. */
  lemma RefusedShows(reqs: seq<Req>, k: nat, hook: Hook) returns (others: seq<Req>, n: nat)
    requires Sorted(reqs) && NoneEmpty(reqs) && 1 <= k < |reqs| && !FitsBefore(LastOut(reqs, k, hook), reqs[k])
    ensures AllAlike(reqs, others)
    ensures var out := Merged(others, |others|, hook);
            && n < |out| && !Disjoint(out)
            && After(out, Start(reqs[k]), 0) != After(Postponed(out, n), Start(reqs[k]), 0)
  {
    hide Paint, Merged, FitsBefore, LastOut, NoneEmpty, Data, Covers, Sorted, Marked, Disjoint, Postponed, After, Safe,
         AllAlike, Start;
    others := Paint(reqs, k - 1);
    PaintAlike(reqs, k - 1);
    SameStart(reqs, others, k);
    AlikeSafe(reqs, others, hook);
    AlikeRefused(reqs, others, k, hook);
    PaintMarks(reqs, k - 1);
    RefusedStart(others, k, hook);
    PaintShows(reqs, k - 1, Start(others[k]));
    n := MarkedShows(others, k, hook);
  }

  lemma LastOutIs(reqs: seq<Req>, k: nat, hook: Hook)
    requires 1 <= k <= |reqs|
    ensures var out := Merged(reqs, k, hook); LastOut(reqs, k, hook) == out[|out| - 1]
  {
  }

  /** Every completion order of the merged writes leaves the same disk. */
  ghost predicate OrderHidden(reqs: seq<Req>, hook: Hook)
    requires reqs != []
  {
    forall shuffled: seq<Req>, b: int, was: byte :: Shuffles(Merged(reqs, |reqs|, hook), shuffled) ==>
      After(shuffled, b, was) == After(Merged(reqs, |reqs|, hook), b, was)
  }

  lemma OrderShows(reqs: seq<Req>, hook: Hook, n: nat, b: int)
    requires reqs != [] && n < |Merged(reqs, |reqs|, hook)|
    requires var out := Merged(reqs, |reqs|, hook); After(out, b, 0) != After(Postponed(out, n), b, 0)
    ensures !OrderHidden(reqs, hook)
  {
    hide Merged, After, Postponed, Shuffles;
    PostponedShuffles(Merged(reqs, |reqs|, hook), n);
  }

  /** For requests that are not empty: the order in which the merged writes complete cannot show,
      whatever the contents of the requests, exactly when no overlapping request was refused. */
  lemma MergedOrderExact(reqs: seq<Req>, hook: Hook)
    requires Sorted(reqs) && reqs != [] && NoneEmpty(reqs)
    ensures NeverRefused(reqs, hook) <==>
            forall others: seq<Req> :: AllAlike(reqs, others) ==> OrderHidden(others, hook)
  {
    hide Sorted, NoneEmpty, NeverRefused, Alike, Safe;
    if NeverRefused(reqs, hook) {
      forall others: seq<Req> | AllAlike(reqs, others) ensures OrderHidden(others, hook) {
        HiddenWhenFits(reqs, others, hook);
      }
    } else {
      var k := RefusedOne(reqs, hook);
      hide OrderHidden, FitsBefore, LastOut, Merged, Postponed, Disjoint;
      var others, n := RefusedShows(reqs, k, hook);
      AllAlikeLength(reqs, others);
      OrderShows(others, hook, n, Start(reqs[k]));
    }
  }

  lemma SameStart(reqs: seq<Req>, others: seq<Req>, k: nat)
    requires AllAlike(reqs, others) && k < |reqs|
    ensures |others| == |reqs| && Start(others[k]) == Start(reqs[k])
  {
    assert Alike(reqs[k], others[k]);
  }

  lemma AllAlikeLength(reqs: seq<Req>, others: seq<Req>)
    requires AllAlike(reqs, others)
    ensures |others| == |reqs|
  {
  }

  lemma HiddenWhenFits(reqs: seq<Req>, others: seq<Req>, hook: Hook)
    requires Sorted(reqs) && reqs != [] && NeverRefused(reqs, hook) && AllAlike(reqs, others)
    ensures OrderHidden(others, hook)
  {
    hide NeverRefused, Merged, After, Shuffles;
    AlikeSafe(reqs, others, hook);
    AlikeNeverRefused(reqs, others, hook);
    forall shuffled: seq<Req>, b: int, was: byte | Shuffles(Merged(others, |others|, hook), shuffled)
      ensures After(shuffled, b, was) == After(Merged(others, |others|, hook), b, was)
    {
      MergedAnyOrder(others, hook, shuffled, b, was);
    }
  }

  /** For requests that are not empty: the merged writes have disjoint extents exactly when no
      overlapping request was refused. */
  lemma MergedDisjointExact(reqs: seq<Req>, hook: Hook)
    requires Sorted(reqs) && reqs != [] && NoneEmpty(reqs)
    ensures Disjoint(Merged(reqs, |reqs|, hook)) <==> NeverRefused(reqs, hook)
  {
    hide Sorted, NoneEmpty, Disjoint, NeverRefused, Merged, FitsBefore, LastOut, Ascends, AllAlike, After, Postponed;
    if NeverRefused(reqs, hook) {
      MergedAscends(reqs, |reqs|, hook);
      AscendsDisjoint(Merged(reqs, |reqs|, hook));
    } else {
      var k := RefusedOne(reqs, hook);
      var others, n := RefusedShows(reqs, k, hook);
      AllAlikeLength(reqs, others);
      MergedAlike(reqs, others, |reqs|, hook);
      if Disjoint(Merged(reqs, |reqs|, hook)) {
        AlikeDisjoint(Merged(reqs, |reqs|, hook), Merged(others, |others|, hook));
      }
    }
  }

  /** n vectors of one byte each. */
  function Bytes(n: nat, c: byte): (v: Iov) { seq(n, _ => [c]) }

  lemma {:induction false} BytesAre(n: nat, c: byte)
    ensures Flat(Bytes(n, c)) == seq(n, _ => c)
  {
    if n > 0 {
      BytesAre(n - 1, c);
      assert Bytes(n, c)[1..] == Bytes(n - 1, c);
    }
  }

  /** Two overlapping writes of 1024 vectors each, ones and twos, stay apart: the disk ends with a two
      where they overlap, or with a one if the first completes last. */
  lemma ManyVectorsShowTheirOrder(hook: Hook)
    ensures var reqs := [Req(0, 2, Bytes(IOV_MAX, 1), 0, 0), Req(1, 2, Bytes(IOV_MAX, 2), 0, 0)];
            && Sorted(reqs) && Merged(reqs, 2, hook) == reqs && Shuffles(reqs, [reqs[1], reqs[0]])
            && After(reqs, 600, 0) == 2 && After([reqs[1], reqs[0]], 600, 0) == 1
  {
    var reqs := [Req(0, 2, Bytes(IOV_MAX, 1), 0, 0), Req(1, 2, Bytes(IOV_MAX, 2), 0, 0)];
    BytesAre(IOV_MAX, 1);
    BytesAre(IOV_MAX, 2);
    hide Flat, Bytes;
    assert [reqs[1], reqs[0]] == [reqs[1]] + [reqs[0]] && reqs == [reqs[0]] + [reqs[1]];
    AfterSnoc([reqs[0]], reqs[1], 600, 0);
    AfterSnoc([reqs[1]], reqs[0], 600, 0);
  }
}
