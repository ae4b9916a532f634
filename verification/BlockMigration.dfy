/** Live block migration as a protocol: guest writes, migration reads, the completion queue and the
    dirty bitmap, in every interleaving. Disks are counted in dirty chunks. */
module BlockMigration {
  import opened Wire

  const CHUNK_BYTES := 1048576

  /** The contents of a chunk; the last one of a device may be short. */
  type Chunk = c: seq<byte> | 0 < |c| <= CHUNK_BYTES witness [0]

  /** A chunk of a device. */
  datatype Loc = Loc(dev: nat, chunk: nat)

  /** A migration read in flight; it is stable while nothing has written its chunk since its issue. */
  datatype Flight = Flight(loc: Loc, stable: bool)

  /** A completed read that waits to be sent. */
  datatype Blk = Blk(loc: Loc, data: Chunk)

  /** passed holds the chunks that the bulk cursors have gone over; writes the chunks of each guest
      write that the driver has accepted and not completed; dst is what the receiver holds once it
      has loaded everything sent. */
  datatype State = State(src: map<Loc, Chunk>, dst: map<Loc, Chunk>, dirty: set<Loc>, passed: set<Loc>,
                         writes: seq<set<Loc>>, flights: seq<Flight>, queue: seq<Blk>)

  datatype Event =
    | WriteSubmit(locs: set<Loc>)
    | WriteEffect(w: nat, loc: Loc, data: Chunk)
    | WriteComplete(w: nat)
    | BulkRead(loc: Loc)
    | DirtyRead(loc: Loc)
    | ReadComplete(i: nat, data: Chunk)
    | SendQueued

  ghost predicate Valid(s: State) {
    && s.src.Keys == s.dst.Keys
    && s.dirty <= s.src.Keys && s.passed <= s.src.Keys
    && (forall w :: 0 <= w < |s.writes| ==> s.writes[w] <= s.src.Keys)
    && (forall i :: 0 <= i < |s.flights| ==> s.flights[i].loc in s.src)
    && (forall i :: 0 <= i < |s.queue| ==> s.queue[i].loc in s.src)
  }

  predicate Enabled(s: State, e: Event) {
    match e
    case WriteSubmit(locs) => locs <= s.src.Keys
    case WriteEffect(w, loc, _) => w < |s.writes| && loc in s.writes[w] && loc in s.src
    case WriteComplete(w) => w < |s.writes|
    case BulkRead(loc) => loc in s.src && loc !in s.passed
    case DirtyRead(loc) => loc in s.src && loc in s.dirty
    case ReadComplete(i, data) =>
      && i < |s.flights| && s.flights[i].loc in s.src
      && (s.flights[i].stable ==> data == s.src[s.flights[i].loc])
    case SendQueued => s.queue != [] && s.queue[0].loc in s.dst
  }

  function Remove<T>(s: seq<T>, i: nat): (r: seq<T>)
    requires i < |s|
  {
    s[..i] + s[i + 1..]
  }

  /** A write to a chunk makes the reads of it that are in flight unreliable. */
  function Disturb(fs: seq<Flight>, loc: Loc): (r: seq<Flight>)
    ensures |r| == |fs|
    ensures forall i :: 0 <= i < |fs| ==> r[i].loc == fs[i].loc
  {
    seq(|fs|, i requires 0 <= i < |fs| => Flight(fs[i].loc, fs[i].stable && fs[i].loc != loc))
  }

  function Next(s: State, e: Event): (r: State)
    requires Enabled(s, e)
  {
    match e
    case WriteSubmit(locs) => s.(writes := s.writes + [locs])
    case WriteEffect(_, loc, data) => s.(src := s.src[loc := data], flights := Disturb(s.flights, loc))
    case WriteComplete(w) => s.(dirty := s.dirty + s.writes[w], writes := Remove(s.writes, w))
    case BulkRead(loc) =>
      s.(passed := s.passed + {loc}, dirty := s.dirty - {loc}, flights := s.flights + [Flight(loc, true)])
    case DirtyRead(loc) => s.(dirty := s.dirty - {loc}, flights := s.flights + [Flight(loc, true)])
    case ReadComplete(i, data) =>
      s.(flights := Remove(s.flights, i), queue := s.queue + [Blk(s.flights[i].loc, data)])
    case SendQueued => s.(dst := s.dst[s.queue[0].loc := s.queue[0].data], queue := s.queue[1..])
  }

  lemma NextValid(s: State, e: Event)
    requires Valid(s) && Enabled(s, e)
    ensures Valid(Next(s, e)) && Next(s, e).src.Keys == s.src.Keys
  {
  }

  // ---------------------------------------------------------------- the invariant

  /** Whether the newest read of a chunk in flight is stable; None when there is none. */
  function LastFlight(fs: seq<Flight>, loc: Loc): (r: Option<bool>) {
    if fs == [] then None
    else if fs[|fs| - 1].loc == loc then Some(fs[|fs| - 1].stable)
    else LastFlight(fs[..|fs| - 1], loc)
  }

  /** The data of a chunk that will be sent last. */
  function LastQueued(q: seq<Blk>, loc: Loc): (r: Option<Chunk>) {
    if q == [] then None
    else if q[|q| - 1].loc == loc then Some(q[|q| - 1].data)
    else LastQueued(q[..|q| - 1], loc)
  }

  ghost predicate Written(s: State, loc: Loc) {
    exists w :: 0 <= w < |s.writes| && loc in s.writes[w]
  }

  /** The newest data of the chunk is in flight, else queued, else at the receiver. */
  predicate Fresh(s: State, loc: Loc)
    requires loc in s.src && loc in s.dst
  {
    match LastFlight(s.flights, loc)
    case Some(stable) => stable
    case None =>
      match LastQueued(s.queue, loc)
      case Some(data) => data == s.src[loc]
      case None => s.dst[loc] == s.src[loc]
  }

  ghost predicate Covered(s: State, loc: Loc)
    requires loc in s.src && loc in s.dst
  {
    loc in s.dirty || Written(s, loc) || Fresh(s, loc)
  }

  ghost predicate Inv(s: State) {
    Valid(s) && forall loc :: loc in s.passed ==> Covered(s, loc)
  }

  // ---------------------------------------------------------------- lists

  lemma {:induction false} LastFlightRemove(fs: seq<Flight>, i: nat, loc: Loc)
    requires i < |fs|
    ensures fs[i].loc != loc ==> LastFlight(Remove(fs, i), loc) == LastFlight(fs, loc)
    ensures LastFlight(fs[i + 1..], loc).Some? ==> LastFlight(Remove(fs, i), loc) == LastFlight(fs, loc)
    ensures LastFlight(fs[i + 1..], loc).None? ==> LastFlight(Remove(fs, i), loc) == LastFlight(fs[..i], loc)
    ensures fs[i].loc == loc ==> LastFlight(fs, loc).Some?
    decreases |fs|
  {
    var n := |fs| - 1;
    if i == n {
      assert Remove(fs, i) == fs[..n] && fs[i + 1..] == [];
    } else {
      LastFlightRemove(fs[..n], i, loc);
      assert Remove(fs, i)[..n - 1] == Remove(fs[..n], i);
      assert fs[..n][i + 1..] == fs[i + 1..][..n - i - 1];
      assert fs[..n][..i] == fs[..i];
    }
  }

  lemma {:induction false} LastFlightDisturb(fs: seq<Flight>, loc: Loc, other: Loc)
    ensures other != loc ==> LastFlight(Disturb(fs, loc), other) == LastFlight(fs, other)
    decreases |fs|
  {
    if fs != [] {
      var n := |fs| - 1;
      LastFlightDisturb(fs[..n], loc, other);
      assert Disturb(fs, loc)[..n] == Disturb(fs[..n], loc);
    }
  }

  lemma LastQueuedSnoc(q: seq<Blk>, b: Blk, loc: Loc)
    ensures LastQueued(q + [b], loc) == if b.loc == loc then Some(b.data) else LastQueued(q, loc)
  {
    assert (q + [b])[..|q|] == q;
  }

  lemma LastFlightSnoc(fs: seq<Flight>, f: Flight, loc: Loc)
    ensures LastFlight(fs + [f], loc) == if f.loc == loc then Some(f.stable) else LastFlight(fs, loc)
  {
    assert (fs + [f])[..|fs|] == fs;
  }

  /** Sending the head: it is its chunk's last block, or the last block stays. */
  lemma {:induction false} LastQueuedTail(q: seq<Blk>, loc: Loc)
    requires q != []
    ensures LastQueued(q, loc) == if LastQueued(q[1..], loc).Some? then LastQueued(q[1..], loc)
                                  else if q[0].loc == loc then Some(q[0].data) else None
    decreases |q|
  {
    var n := |q| - 1;
    if n > 0 {
      LastQueuedTail(q[..n], loc);
      assert q[..n][1..] == q[1..][..n - 1];
    } else {
      assert q[1..] == [] && q[..n] == [];
    }
  }

  // ---------------------------------------------------------------- every step keeps the invariant

  /** A completion that cannot leave stale data to be sent last: the read is not its chunk's newest in
      flight, or the one that becomes the newest is stable or absent, or the chunk will be read again. */
  ghost predicate Benign(s: State, i: nat)
    requires i < |s.flights|
  {
    var loc := s.flights[i].loc;
    || loc !in s.passed || loc in s.dirty || Written(s, loc)
    || LastFlight(s.flights[i + 1..], loc).Some?
    || LastFlight(s.flights[..i], loc) != Some(false)
  }

  /** Reads of one chunk complete in the order of their issue. */
  predicate InOrder(s: State, i: nat)
    requires i < |s.flights|
  {
    forall j :: 0 <= j < i ==> s.flights[j].loc != s.flights[i].loc
  }

  lemma {:induction false} NoneBefore(fs: seq<Flight>, loc: Loc)
    requires forall j :: 0 <= j < |fs| ==> fs[j].loc != loc
    ensures LastFlight(fs, loc) == None
    decreases |fs|
  {
    if fs != [] { NoneBefore(fs[..|fs| - 1], loc); }
  }

  lemma InOrderIsBenign(s: State, i: nat)
    requires i < |s.flights| && InOrder(s, i)
    ensures Benign(s, i)
  {
    NoneBefore(s.flights[..i], s.flights[i].loc);
  }

  lemma CompleteKeepsOthers(s: State, i: nat, data: Chunk, loc: Loc)
    requires Valid(s) && Enabled(s, ReadComplete(i, data)) && loc in s.passed && loc != s.flights[i].loc
    ensures Covered(Next(s, ReadComplete(i, data)), loc) == Covered(s, loc)
  {
    LastFlightRemove(s.flights, i, loc);
    LastQueuedSnoc(s.queue, Blk(s.flights[i].loc, data), loc);
    assert Written(Next(s, ReadComplete(i, data)), loc) == Written(s, loc);
  }

  lemma {:induction false} LastFlightSplit(fs: seq<Flight>, i: nat, loc: Loc)
    requires i < |fs| && fs[i].loc == loc
    ensures LastFlight(fs, loc) == if LastFlight(fs[i + 1..], loc).Some? then LastFlight(fs[i + 1..], loc)
                                   else Some(fs[i].stable)
    decreases |fs|
  {
    var n := |fs| - 1;
    if i < n {
      LastFlightSplit(fs[..n], i, loc);
      assert fs[..n][i + 1..] == fs[i + 1..][..n - i - 1];
    } else {
      assert fs[i + 1..] == [];
    }
  }

  /** The invariant survives a completion exactly when the completion is benign. */
  lemma CompletionExact(s: State, i: nat, data: Chunk)
    requires Inv(s) && Enabled(s, ReadComplete(i, data))
    ensures Inv(Next(s, ReadComplete(i, data))) <==> Benign(s, i)
  {
    var s' := Next(s, ReadComplete(i, data));
    var loc := s.flights[i].loc;
    NextValid(s, ReadComplete(i, data));
    forall l | l in s.passed && l != loc ensures Covered(s', l) { CompleteKeepsOthers(s, i, data, l); }
    if loc in s.passed {
      LastFlightRemove(s.flights, i, loc);
      LastFlightSplit(s.flights, i, loc);
      LastQueuedSnoc(s.queue, Blk(loc, data), loc);
      assert Written(s', loc) == Written(s, loc);
    }
  }

  ghost predicate Legal(s: State, e: Event) {
    Enabled(s, e) && (e.ReadComplete? ==> Benign(s, e.i))
  }

  lemma SubmitKeeps(s: State, locs: set<Loc>, loc: Loc)
    requires Valid(s) && Enabled(s, WriteSubmit(locs)) && loc in s.passed && Covered(s, loc)
    ensures Covered(Next(s, WriteSubmit(locs)), loc)
  {
    if Written(s, loc) {
      var w :| 0 <= w < |s.writes| && loc in s.writes[w];
      assert loc in (s.writes + [locs])[w];
    }
  }

  lemma EffectKeeps(s: State, w: nat, l: Loc, data: Chunk, loc: Loc)
    requires Valid(s) && Enabled(s, WriteEffect(w, l, data)) && loc in s.passed && Covered(s, loc)
    ensures Covered(Next(s, WriteEffect(w, l, data)), loc)
  {
    var s' := Next(s, WriteEffect(w, l, data));
    LastFlightDisturb(s.flights, l, loc);
    assert Written(s', l) by { assert l in s'.writes[w]; }
    assert Written(s', loc) == Written(s, loc);
  }

  lemma WriteDoneKeeps(s: State, w: nat, loc: Loc)
    requires Valid(s) && Enabled(s, WriteComplete(w)) && loc in s.passed && Covered(s, loc)
    ensures Covered(Next(s, WriteComplete(w)), loc)
  {
    if Written(s, loc) {
      var v :| 0 <= v < |s.writes| && loc in s.writes[v];
      if v != w {
        assert loc in Remove(s.writes, w)[if v < w then v else v - 1];
      }
    }
  }

  lemma ReadKeeps(s: State, e: Event, loc: Loc)
    requires Valid(s) && Enabled(s, e) && (e.BulkRead? || e.DirtyRead?)
    requires loc in Next(s, e).passed && (loc in s.passed ==> Covered(s, loc))
    ensures Covered(Next(s, e), loc)
  {
    LastFlightSnoc(s.flights, Flight(e.loc, true), loc);
    assert Written(Next(s, e), loc) == Written(s, loc);
  }

  lemma SendKeeps(s: State, loc: Loc)
    requires Valid(s) && Enabled(s, SendQueued) && loc in s.passed && Covered(s, loc)
    ensures Covered(Next(s, SendQueued), loc)
  {
    LastQueuedTail(s.queue, loc);
    assert Written(Next(s, SendQueued), loc) == Written(s, loc);
  }

  lemma StepKeepsInv(s: State, e: Event)
    requires Inv(s) && Legal(s, e)
    ensures Inv(Next(s, e))
  {
    NextValid(s, e);
    if e.ReadComplete? {
      CompletionExact(s, e.i, e.data);
    } else {
      forall loc | loc in Next(s, e).passed ensures Covered(Next(s, e), loc) {
        match e
        case WriteSubmit(locs) => SubmitKeeps(s, locs, loc);
        case WriteEffect(w, l, data) => EffectKeeps(s, w, l, data, loc);
        case WriteComplete(w) => WriteDoneKeeps(s, w, loc);
        case BulkRead(_) => ReadKeeps(s, e, loc);
        case DirtyRead(_) => ReadKeeps(s, e, loc);
        case SendQueued => SendKeeps(s, loc);
      }
    }
  }

  // ---------------------------------------------------------------- runs

  /** The state after a list of events; None if one of them cannot happen. */
  function After(s: State, es: seq<Event>): (r: Option<State>)
    decreases |es|
  {
    if es == [] then Some(s)
    else if Enabled(s, es[0]) then After(Next(s, es[0]), es[1..])
    else None
  }

  /** Every read completion of the run is benign when it happens. */
  ghost predicate Orderly(s: State, es: seq<Event>)
    decreases |es|
  {
    es == [] || (Legal(s, es[0]) && Orderly(Next(s, es[0]), es[1..]))
  }

  /** Tracking has just been switched on: no write is outstanding. */
  ghost predicate Started(s: State) {
    Valid(s) && s.dirty == {} && s.passed == {} && s.writes == [] && s.flights == [] && s.queue == []
  }

  /** In every run with benign completions, each chunk passed by the bulk cursor is dirty, or under a
      guest write, or has its newest data in flight, queued or delivered. */
  lemma {:induction false} RunKeepsInv(s: State, es: seq<Event>)
    requires Inv(s) && Orderly(s, es)
    ensures After(s, es).Some? && Inv(After(s, es).value)
    decreases |es|
  {
    if es != [] {
      StepKeepsInv(s, es[0]);
      RunKeepsInv(Next(s, es[0]), es[1..]);
    }
  }

  // ---------------------------------------------------------------- stage 3

  /** The synchronous pass sends every dirty chunk; what is still queued is freed, not sent. */
  function FinalPass(s: State): (r: State)
    requires s.src.Keys == s.dst.Keys
  {
    s.(dst := map loc | loc in s.dst :: if loc in s.dirty then s.src[loc] else s.dst[loc], dirty := {}, queue := [])
  }

  /** The guest is stopped, the bulk phase is over and no read is in flight. */
  predicate Stopped(s: State) {
    s.writes == [] && s.flights == [] && s.passed == s.src.Keys
  }

  ghost predicate Queued(q: seq<Blk>, loc: Loc) {
    exists i :: 0 <= i < |q| && q[i].loc == loc
  }

  lemma {:induction false} LastQueuedSome(q: seq<Blk>, loc: Loc)
    ensures LastQueued(q, loc).Some? <==> Queued(q, loc)
    decreases |q|
  {
    if q != [] {
      var n := |q| - 1;
      LastQueuedSome(q[..n], loc);
      if Queued(q, loc) && q[n].loc != loc {
        var i :| 0 <= i < |q| && q[i].loc == loc;
        assert q[..n][i].loc == loc;
      }
    }
  }

  /** The same chunks, each of the same size. */
  ghost predicate SameSizes(m: map<Loc, Chunk>, m': map<Loc, Chunk>) {
    m.Keys == m'.Keys && forall l :: l in m ==> |m[l]| == |m'[l]|
  }

  /** Other contents of the same size. */
  function Altered(c: Chunk): (r: Chunk)
    ensures |r| == |c| && r != c
  {
    var r := c[0 := if c[0] == 0 then 1 else 0];
    assert r[0] != c[0];
    r
  }

  /** Whatever a receiver with disks of the sender's sizes may hold by the invariant, the final pass ends
      with equal disks exactly when every chunk that still has a block queued is dirty: the queue itself
      is not sent. */
  lemma FinalExact(s: State)
    requires Inv(s) && Stopped(s)
    ensures (forall dst: map<Loc, Chunk> ::
               SameSizes(dst, s.src) && Inv(s.(dst := dst)) ==> FinalPass(s.(dst := dst)).dst == s.src)
       <==> forall i :: 0 <= i < |s.queue| ==> s.queue[i].loc in s.dirty
  {
    if forall i :: 0 <= i < |s.queue| ==> s.queue[i].loc in s.dirty {
      forall dst: map<Loc, Chunk> | SameSizes(dst, s.src) && Inv(s.(dst := dst))
        ensures FinalPass(s.(dst := dst)).dst == s.src
      {
        DrainedIsEqual(s.(dst := dst));
      }
    } else {
      var i :| 0 <= i < |s.queue| && s.queue[i].loc !in s.dirty;
      QueuedMayDiffer(s, s.queue[i].loc);
    }
  }

  lemma DrainedIsEqual(s: State)
    requires Inv(s) && Stopped(s) && forall i :: 0 <= i < |s.queue| ==> s.queue[i].loc in s.dirty
    ensures FinalPass(s).dst == s.src
  {
    forall loc | loc in s.src && loc !in s.dirty ensures s.dst[loc] == s.src[loc] {
      LastQueuedSome(s.queue, loc);
      assert Covered(s, loc);
    }
    assert FinalPass(s).dst == s.src;
  }

  /** A clean chunk with a block queued may differ at the receiver, and stays different. */
  lemma QueuedMayDiffer(s: State, loc: Loc)
    requires Inv(s) && Stopped(s) && Queued(s.queue, loc) && loc !in s.dirty
    ensures exists dst: map<Loc, Chunk> ::
              SameSizes(dst, s.src) && Inv(s.(dst := dst)) && FinalPass(s.(dst := dst)).dst != s.src
  {
    var i :| 0 <= i < |s.queue| && s.queue[i].loc == loc;
    LastQueuedSome(s.queue, loc);
    var dst := s.src[loc := Altered(s.src[loc])];
    var s' := s.(dst := dst);
    assert dst.Keys == s.dst.Keys && SameSizes(dst, s.src);
    forall l | l in s'.passed ensures Covered(s', l) {
      assert Covered(s, l) && Written(s', l) == Written(s, l);
    }
    assert Inv(s') && FinalPass(s').dst[loc] != s.src[loc];
  }

  /** A whole migration: whatever the guest wrote and whatever the receiver started from, if the queue is
      drained before the final pass the disks end equal. */
  lemma MigrationComplete(s: State, es: seq<Event>)
    requires Started(s) && Orderly(s, es) && After(s, es).Some?
    requires var r := After(s, es).value; Stopped(r) && r.queue == []
    ensures var r := After(s, es).value; Valid(r) && FinalPass(r).dst == r.src
  {
    RunKeepsInv(s, es);
    DrainedIsEqual(After(s, es).value);
  }

  // ---------------------------------------------------------------- the invariant is necessary

  /** Reads and guest writes carry whole chunks; m0 has the chunks' sizes. */
  ghost predicate EventSized(m0: map<Loc, Chunk>, s: State, e: Event) {
    match e
    case WriteEffect(_, loc, data) => loc in m0 && |data| == |m0[loc]|
    case ReadComplete(i, data) => i < |s.flights| && s.flights[i].loc in m0 && |data| == |m0[s.flights[i].loc]|
    case _ => true
  }

  ghost predicate RunSized(m0: map<Loc, Chunk>, s: State, es: seq<Event>)
    decreases |es|
  {
    es == [] || (EventSized(m0, s, es[0]) && (Enabled(s, es[0]) ==> RunSized(m0, Next(s, es[0]), es[1..])))
  }

  /** An orderly continuation with whole chunks that stops the guest, passes every chunk and drains reads
      and queue. */
  ghost predicate Ends(s: State, es: seq<Event>) {
    && Orderly(s, es) && RunSized(s.src, s, es)
    && After(s, es).Some? && Stopped(After(s, es).value) && After(s, es).value.queue == []
  }

  ghost predicate EndsEqual(s: State, es: seq<Event>)
    requires After(s, es).Some?
  {
    var r := After(s, es).value;
    r.src.Keys == r.dst.Keys && FinalPass(r).dst == r.src
  }

  /** A chunk that has been passed and whose newest data is on no way to the receiver. */
  ghost predicate Forgotten(s: State, loc: Loc) {
    Valid(s) && loc in s.passed && !Covered(s, loc)
  }

  /** Completing an outstanding write keeps a chunk forgotten that it does not touch. */
  lemma WriteLeavesForgotten(s: State, loc: Loc)
    requires Forgotten(s, loc) && s.writes != []
    ensures Legal(s, WriteComplete(0)) && Forgotten(Next(s, WriteComplete(0)), loc)
  {
    var s' := Next(s, WriteComplete(0));
    NextValid(s, WriteComplete(0));
    assert loc !in s.writes[0];
    forall w | 0 <= w < |s'.writes| ensures loc !in s'.writes[w] {
      assert s'.writes[w] == s.writes[w + 1];
    }
  }

  lemma BulkLeavesForgotten(s: State, loc: Loc, l: Loc)
    requires Forgotten(s, loc) && l in s.src && l !in s.passed
    ensures Legal(s, BulkRead(l)) && Forgotten(Next(s, BulkRead(l)), loc)
  {
    NextValid(s, BulkRead(l));
    LastFlightSnoc(s.flights, Flight(l, true), loc);
    assert Written(Next(s, BulkRead(l)), loc) == Written(s, loc);
  }

  /** The oldest read completes; an unreliable one with other data than the chunk holds now. */
  lemma ReadLeavesForgotten(s: State, loc: Loc) returns (data: Chunk)
    requires Forgotten(s, loc) && s.flights != []
    ensures Legal(s, ReadComplete(0, data)) && Forgotten(Next(s, ReadComplete(0, data)), loc)
    ensures EventSized(s.src, s, ReadComplete(0, data))
  {
    var f := s.flights[0];
    data := if f.stable then s.src[f.loc] else Altered(s.src[f.loc]);
    InOrderIsBenign(s, 0);
    NextValid(s, ReadComplete(0, data));
    if f.loc != loc {
      CompleteKeepsOthers(s, 0, data, loc);
    } else {
      LastFlightRemove(s.flights, 0, loc);
      LastFlightSplit(s.flights, 0, loc);
      LastQueuedSnoc(s.queue, Blk(loc, data), loc);
      assert s.flights[..0] == [];
      assert Written(Next(s, ReadComplete(0, data)), loc) == Written(s, loc);
    }
  }

  lemma SendLeavesForgotten(s: State, loc: Loc)
    requires Forgotten(s, loc) && s.queue != []
    ensures Legal(s, SendQueued) && Forgotten(Next(s, SendQueued), loc)
  {
    NextValid(s, SendQueued);
    LastQueuedTail(s.queue, loc);
    assert Written(Next(s, SendQueued), loc) == Written(s, loc);
  }

  /** The next step towards the end of a migration in which nothing is written any more. */
  lemma ForgottenStep(s: State, loc: Loc) returns (e: Event)
    requires Forgotten(s, loc) && !(Stopped(s) && s.queue == [])
    ensures Legal(s, e) && EventSized(s.src, s, e) && Forgotten(Next(s, e), loc) && Next(s, e).src == s.src
    ensures var s' := Next(s, e);
            || |s'.writes| < |s.writes|
            || (s'.writes == s.writes && |s'.src.Keys - s'.passed| < |s.src.Keys - s.passed|)
            || (s'.writes == s.writes && s'.src == s.src && s'.passed == s.passed && |s'.flights| < |s.flights|)
            || (s'.writes == s.writes && s'.src == s.src && s'.passed == s.passed && s'.flights == s.flights
                && |s'.queue| < |s.queue|)
  {
    if s.writes != [] {
      e := WriteComplete(0);
      WriteLeavesForgotten(s, loc);
    } else if s.passed != s.src.Keys {
      var l :| l in s.src.Keys && l !in s.passed;
      e := BulkRead(l);
      BulkLeavesForgotten(s, loc, l);
      assert s.src.Keys - Next(s, e).passed == s.src.Keys - s.passed - {l};
      assert l in s.src.Keys - s.passed;
    } else if s.flights != [] {
      var data := ReadLeavesForgotten(s, loc);
      e := ReadComplete(0, data);
    } else {
      e := SendQueued;
      SendLeavesForgotten(s, loc);
    }
  }

  /** From any state that has forgotten a chunk, an orderly continuation ends with different disks. */
  lemma {:induction false} ForgottenIsLost(s: State, loc: Loc) returns (es: seq<Event>)
    requires Forgotten(s, loc)
    ensures Ends(s, es) && !EndsEqual(s, es)
    decreases |s.writes|, |s.src.Keys - s.passed|, |s.flights|, |s.queue|
  {
    if Stopped(s) && s.queue == [] {
      es := [];
      assert FinalPass(s).dst[loc] != s.src[loc];
    } else {
      var e := ForgottenStep(s, loc);
      hide Forgotten, Stopped, Legal, Next, EventSized;
      var rest := ForgottenIsLost(Next(s, e), loc);
      es := [e] + rest;
      LegalIsEnabled(s, e);
      assert es[1..] == rest;
    }
  }

  lemma LegalIsEnabled(s: State, e: Event)
    requires Legal(s, e)
    ensures Enabled(s, e)
  {
  }

  /** The invariant is exact: it holds in just those states from which every orderly run that drains its
      queue ends with equal disks. */
  lemma InvIsExact(s: State)
    requires Valid(s)
    ensures Inv(s) <==> forall es :: Ends(s, es) ==> EndsEqual(s, es)
  {
    if Inv(s) {
      forall es | Ends(s, es) ensures EndsEqual(s, es) {
        RunKeepsInv(s, es);
        DrainedIsEqual(After(s, es).value);
      }
    } else {
      var loc :| loc in s.passed && !Covered(s, loc);
      var es := ForgottenIsLost(s, loc);
    }
  }

  /** A read completion is harmless, whatever orderly run follows, exactly when it is benign. */
  lemma BenignIsExact(s: State, i: nat, data: Chunk)
    requires Inv(s) && Enabled(s, ReadComplete(i, data))
    ensures var s' := Next(s, ReadComplete(i, data));
            Benign(s, i) <==> forall es :: Ends(s', es) ==> EndsEqual(s', es)
  {
    CompletionExact(s, i, data);
    NextValid(s, ReadComplete(i, data));
    InvIsExact(Next(s, ReadComplete(i, data)));
  }

  // ---------------------------------------------------------------- what goes wrong otherwise

  const SPOT := Loc(0, 0)

  function OneChunk(): (s: State) {
    State(map[SPOT := [1]], map[SPOT := [0]], {}, {}, [], [], [])
  }

  lemma AfterStep(s: State, e: Event, es: seq<Event>, s': State)
    requires Enabled(s, e) && Next(s, e) == s'
    ensures After(s, [e] + es) == After(s', es)
  {
    assert ([e] + es)[1..] == es;
  }

  /** The guest writes a chunk while its bulk read is in flight; the chunk is dirty and read again. */
  function ReadTwice(es: seq<Event>): (r: seq<Event>) {
    [BulkRead(SPOT)] +
    ([WriteSubmit({SPOT})] + ([WriteEffect(0, SPOT, [2])] + ([WriteComplete(0)] + ([DirtyRead(SPOT)] + es))))
  }

  /** The second read overtakes the first. */
  function Overtake(): (r: seq<Event>) {
    [ReadComplete(1, [2])] + ([ReadComplete(0, [1])] + ([SendQueued] + ([SendQueued] + [])))
  }

  function TwoReads(): (s: State) {
    State(map[SPOT := [2]], map[SPOT := [0]], {}, {SPOT}, [], [Flight(SPOT, false), Flight(SPOT, true)], [])
  }

  lemma AfterReadTwice(es: seq<Event>)
    ensures After(OneChunk(), ReadTwice(es)) == After(TwoReads(), es)
  {
    var s0 := OneChunk();
    var s1 := s0.(passed := {SPOT}, flights := [Flight(SPOT, true)]);
    var s2 := s1.(writes := [{SPOT}]);
    var s3 := s2.(src := map[SPOT := [2]], flights := [Flight(SPOT, false)]);
    var s4 := s3.(writes := [], dirty := {SPOT});
    var es4 := [DirtyRead(SPOT)] + es;
    var es3 := [WriteComplete(0)] + es4;
    var es2 := [WriteEffect(0, SPOT, [2])] + es3;
    AfterStep(s4, DirtyRead(SPOT), es, TwoReads());
    AfterStep(s3, WriteComplete(0), es4, s4);
    AfterStep(s2, WriteEffect(0, SPOT, [2]), es3, s3);
    AfterStep(s1, WriteSubmit({SPOT}), es2, s2);
    AfterStep(s0, BulkRead(SPOT), [WriteSubmit({SPOT})] + es2, s1);
  }

  lemma AfterOvertake()
    ensures After(TwoReads(), Overtake()) == Some(TwoReads().(dst := map[SPOT := [1]], flights := []))
  {
    var s5 := TwoReads();
    var s6 := s5.(flights := [Flight(SPOT, false)], queue := [Blk(SPOT, [2])]);
    var s7 := s6.(flights := [], queue := [Blk(SPOT, [2]), Blk(SPOT, [1])]);
    var s8 := s7.(dst := map[SPOT := [2]], queue := [Blk(SPOT, [1])]);
    var s9 := s8.(dst := map[SPOT := [1]], queue := []);
    AfterStep(s8, SendQueued, [], s9);
    AfterStep(s7, SendQueued, [SendQueued] + [], s8);
    AfterStep(s6, ReadComplete(0, [1]), [SendQueued] + ([SendQueued] + []), s7);
    AfterStep(s5, ReadComplete(1, [2]), [ReadComplete(0, [1])] + ([SendQueued] + ([SendQueued] + [])), s6);
  }

  /** The old data is then sent last, and nothing marks the chunk: the disks end different although the
      queue was drained. */
  lemma OvertakenReadLosesData()
    ensures Started(OneChunk()) && After(OneChunk(), ReadTwice(Overtake())).Some?
    ensures var r := After(OneChunk(), ReadTwice(Overtake())).value;
            && Stopped(r) && r.queue == [] && r.src.Keys == r.dst.Keys
            && FinalPass(r).dst != r.src
  {
    AfterReadTwice(Overtake());
    AfterOvertake();
    var r := After(OneChunk(), ReadTwice(Overtake())).value;
    assert FinalPass(r).dst[SPOT] != r.src[SPOT];
  }

  /** A block that the last flush leaves queued is never sent. */
  lemma QueuedBlockIsDropped()
    ensures var es := [BulkRead(SPOT), ReadComplete(0, [1])];
            && Started(OneChunk()) && After(OneChunk(), es).Some?
            && var r := After(OneChunk(), es).value;
               Inv(r) && Stopped(r) && FinalPass(r).dst != r.src
  {
    var es := [BulkRead(SPOT), ReadComplete(0, [1])];
    var s0 := OneChunk();
    var s1 := s0.(passed := {SPOT}, flights := [Flight(SPOT, true)]);
    AfterStep(s0, es[0], es[1..], s1);
    var s2 := s1.(flights := [], queue := [Blk(SPOT, [1])]);
    AfterStep(s1, es[1], es[2..], s2);
    assert LastQueued(s2.queue, SPOT) == Some([1]);
  }
}
