/** The rate-limited output buffer of an outgoing migration.

    The backend answers each request with a number of bytes taken, with EAGAIN or with an error;
    b(i) is its answer to request number i. */
module BufferedFile {
  import opened Wire

  const EAGAIN := 11
  const EINVAL := 22
  const SLACK := 1024

  type Backend = nat -> int

  /** The first six fields are the program's.  calls counts the requests to the backend; delivered and
      accepted are the bytes the backend took and the bytes that puts took; peak is the highest limit
      since the last tick, last the size of the last put that sent bytes directly, and low the limit
      that the last put or tick saw. */
  datatype File = File(hasError: bool, frozen: bool, xfer: nat, limit: nat, buffer: seq<byte>, capacity: nat,
                       calls: nat, delivered: seq<byte>, accepted: seq<byte>, peak: nat, last: nat,
                       low: nat)

  function Open(bytesPerSec: nat): (f: File) {
    File(false, false, 0, bytesPerSec / 10, [], 0, 0, [], [], bytesPerSec / 10, 0, bytesPerSec / 10)
  }

  /** The backend takes at most what it is offered. */
  function Answer(b: Backend, f: File, offered: nat): (r: int)
    ensures r <= offered
  {
    if b(f.calls) > offered then offered else b(f.calls)
  }

  function Sent(f: File, data: seq<byte>): (f': File) {
    f.(calls := f.calls + 1, delivered := f.delivered + data)
  }

  // ------------------------------------------------------------------ flush

  /** Offers rest to the backend until it is gone, the backend is not ready or an error occurs. */
  function FlushFrom(b: Backend, f: File, rest: seq<byte>): (r: (File, seq<byte>))
    decreases |rest|
  {
    if rest == [] then (f, rest)
    else
      var n := Answer(b, f, |rest|);
      if n == -EAGAIN then (f.(calls := f.calls + 1, frozen := true), rest)
      else if n <= 0 then (f.(calls := f.calls + 1, hasError := true), rest)
      else FlushFrom(b, Sent(f, rest[..n]), rest[n..])
  }

  function Flush(b: Backend, f: File): (f': File) {
    if f.hasError then f
    else
      var (g, rest) := FlushFrom(b, f, f.buffer);
      g.(buffer := rest)
  }

  lemma {:induction false} FlushFromOrder(b: Backend, f: File, rest: seq<byte>)
    ensures var (g, rest') := FlushFrom(b, f, rest);
            && g.delivered + rest' == f.delivered + rest && |rest'| <= |rest|
            && g == f.(calls := g.calls, delivered := g.delivered, frozen := g.frozen, hasError := g.hasError)
            && (rest' != [] ==> g.frozen || g.hasError)
            && (g.hasError && !f.hasError ==> rest' != [] && g.frozen == f.frozen)
    decreases |rest|
  {
    if rest != [] {
      var n := Answer(b, f, |rest|);
      if n > 0 {
        FlushFromOrder(b, Sent(f, rest[..n]), rest[n..]);
        assert f.delivered + rest[..n] + rest[n..] == f.delivered + rest;
      }
    }
  }

  // -------------------------------------------------------------------- put

  /** Offers rest to the backend within the rate limit; the flag tells whether there was no error. */
  function SendFrom(b: Backend, f: File, rest: seq<byte>): (r: (File, seq<byte>, bool))
    decreases |rest|
  {
    if f.frozen || rest == [] || f.xfer > f.limit then (f, rest, true)
    else
      var n := Answer(b, f, |rest|);
      if n == -EAGAIN then (f.(calls := f.calls + 1, frozen := true), rest, true)
      else if n <= 0 then (f.(calls := f.calls + 1, hasError := true), rest, false)
      else SendFrom(b, Sent(f, rest[..n]).(xfer := f.xfer + n), rest[n..])
  }

  function Append(f: File, data: seq<byte>): (f': File) {
    f.(buffer := f.buffer + data,
       capacity := if |data| > f.capacity - |f.buffer| then f.capacity + |data| + SLACK else f.capacity)
  }

  function Put(b: Backend, f: File, data: seq<byte>): (r: (File, int)) {
    if f.hasError then (f, -EINVAL)
    else
      var g := Flush(b, f.(frozen := false));
      var (h, rest, ok) := SendFrom(b, g, data);
      var k := h.(last := if h.xfer > g.xfer then |data| else h.last, low := h.limit);
      if ok then (Append(k, rest).(accepted := f.accepted + data), |data|) else (k, -EINVAL)
  }

  lemma {:induction false} SendFromOrder(b: Backend, f: File, rest: seq<byte>)
    ensures var (g, rest', ok) := SendFrom(b, f, rest);
            && g.delivered + rest' == f.delivered + rest && |rest'| <= |rest|
            && g == f.(calls := g.calls, delivered := g.delivered, frozen := g.frozen, hasError := g.hasError,
                     xfer := g.xfer)
            && (g.hasError <==> f.hasError || !ok)
            && g.xfer == f.xfer + |rest| - |rest'|
            && (f.xfer > f.limit ==> g.xfer == f.xfer)
            && (f.frozen ==> g == f && rest' == rest)
            && (ok && rest' != [] ==> g.frozen || g.xfer > g.limit)
    decreases |rest|
  {
    if !(f.frozen || rest == [] || f.xfer > f.limit) {
      var n := Answer(b, f, |rest|);
      if n > 0 {
        SendFromOrder(b, Sent(f, rest[..n]).(xfer := f.xfer + n), rest[n..]);
        assert f.delivered + rest[..n] + rest[n..] == f.delivered + rest;
      }
    }
  }

  // ----------------------------------------------------------------- runs

  /** A put of data, the timer's tick, or a change of the rate limit. */
  datatype Op = PutData(data: seq<byte>) | Tick | SetRate(rate: nat)

  function Apply(b: Backend, f: File, op: Op): (f': File) {
    match op
    case PutData(data) => Put(b, f, data).0
    case Tick =>
      if f.hasError || f.frozen then f
      else Flush(b, f.(xfer := 0, peak := f.limit, last := 0, low := f.limit))
    case SetRate(rate) =>
      if f.hasError then f
      else f.(limit := rate / 10, peak := if rate / 10 > f.peak then rate / 10 else f.peak)
  }

  /** Ten ticks to a second: ten times the limit of a tick is the rate, up to a rest below ten. A file in
      error keeps its limit, and nothing else changes. */
  lemma RateIsPerSecond(b: Backend, f: File, rate: nat)
    ensures 10 * Open(rate).limit <= rate <= 10 * Open(rate).limit + 9
    ensures var g := Apply(b, f, SetRate(rate));
            && g == f.(limit := g.limit, peak := g.peak)
            && if f.hasError then g == f else 10 * g.limit <= rate <= 10 * g.limit + 9
  {
  }

  ghost predicate Inv(f: File) {
    && |f.buffer| <= f.capacity
    && (!f.hasError ==> f.delivered + f.buffer == f.accepted)
    && f.limit <= f.peak && f.xfer <= f.peak + f.last
    && (!f.hasError && f.buffer != [] ==> f.frozen || f.xfer > f.low)
  }

  /** The invariant without its last part, which a put or a tick restores. */
  ghost predicate Ordered(f: File) {
    && |f.buffer| <= f.capacity
    && (!f.hasError ==> f.delivered + f.buffer == f.accepted)
    && f.limit <= f.peak && f.xfer <= f.peak + f.last
  }

  lemma FlushKeepsOrder(b: Backend, f: File)
    requires Ordered(f)
    ensures Ordered(Flush(b, f))
    ensures var g := Flush(b, f);
            !f.hasError && !g.hasError && !g.frozen ==> g.buffer == []
    ensures var g := Flush(b, f);
            !f.hasError && g.hasError ==>
              g.buffer != [] && g.frozen == f.frozen && g.delivered + g.buffer == f.delivered + f.buffer
    ensures var g := Flush(b, f);
            g == f.(calls := g.calls, delivered := g.delivered, frozen := g.frozen, hasError := g.hasError,
                    buffer := g.buffer)
  {
    FlushFromOrder(b, f, f.buffer);
  }

  lemma FlushKeepsInv(b: Backend, f: File)
    requires Inv(f)
    ensures Inv(Flush(b, f)) && Flush(b, f).accepted == f.accepted
  {
    FlushKeepsOrder(b, f);
    hide Flush;
  }

  lemma PutKeepsInv(b: Backend, f: File, data: seq<byte>)
    requires Inv(f)
    ensures Inv(Put(b, f, data).0)
  {
    if !f.hasError {
      var g := Flush(b, f.(frozen := false));
      FlushKeepsOrder(b, f.(frozen := false));
      SendFromOrder(b, g, data);
      hide FlushFrom, Flush, SendFrom;
      var (h, rest, ok) := SendFrom(b, g, data);
      if ok && !h.hasError {
        assert h.delivered + (h.buffer + rest) == f.accepted + data by {
          if g.frozen {
            assert g.delivered + (g.buffer + data) == g.delivered + g.buffer + data;
          } else {
            assert g.buffer + rest == rest && g.delivered + g.buffer == g.delivered;
          }
        }
      }
    }
  }

  lemma TickKeepsInv(b: Backend, f: File)
    requires Inv(f)
    ensures Inv(Apply(b, f, Tick))
  {
    if !f.hasError && !f.frozen {
      FlushKeepsOrder(b, f.(xfer := 0, peak := f.limit, last := 0, low := f.limit));
      hide Flush;
    }
  }

  lemma StepKeepsInv(b: Backend, f: File, op: Op)
    requires Inv(f)
    ensures Inv(Apply(b, f, op))
  {
    match op
    case PutData(data) => PutKeepsInv(b, f, data);
    case Tick => TickKeepsInv(b, f);
    case SetRate(_) =>
  }

  predicate IsRun(b: Backend, rate: nat, run: seq<File>, ops: seq<Op>) {
    && |run| == |ops| + 1 && run[0] == Open(rate)
    && forall i :: 0 <= i < |ops| ==> run[i + 1] == Apply(b, run[i], ops[i])
  }

  /** Over every run, whatever the backend answers: while no error has occurred, the bytes delivered
      followed by the bytes buffered are all bytes accepted, in order; the buffer fits; and the bytes
      sent directly since the last tick exceed the limit by at most the size of the last put that
      sent any. */
  lemma {:induction false} RunKeepsInv(b: Backend, rate: nat, run: seq<File>, ops: seq<Op>, i: nat)
    requires IsRun(b, rate, run, ops) && i < |run|
    ensures Inv(run[i])
  {
    if i > 0 {
      RunKeepsInv(b, rate, run, ops, i - 1);
      StepKeepsInv(b, run[i - 1], ops[i - 1]);
    }
  }

  // ------------------------------------------------------- order after errors

  /** The first direct request of a put of n bytes takes something. */
  predicate Sends(b: Backend, f: File, n: nat) {
    !f.frozen && n > 0 && f.xfer <= f.limit && Answer(b, f, n) > 0
  }

  /** A put whose flush fails and which then sends bytes directly, ahead of those left in the buffer. */
  predicate Overtakes(b: Backend, f: File, n: nat) {
    var g := Flush(b, f.(frozen := false));
    g.hasError && Sends(b, g, n)
  }

  lemma SendFromStarts(b: Backend, f: File, rest: seq<byte>)
    ensures |SendFrom(b, f, rest).1| < |rest| <==> Sends(b, f, |rest|)
  {
    if Sends(b, f, |rest|) {
      var n := Answer(b, f, |rest|);
      SendFromOrder(b, Sent(f, rest[..n]).(xfer := f.xfer + n), rest[n..]);
    }
  }

  /** What the backend has after the put is a prefix of what the callers wrote. */
  ghost predicate PutInOrder(b: Backend, f: File, data: seq<byte>) {
    Put(b, f, data).0.delivered <= f.accepted + data
  }

  lemma InOrderUnlessOvertaking(b: Backend, f: File, data: seq<byte>)
    requires Inv(f) && !f.hasError && !Overtakes(b, f, |data|)
    ensures PutInOrder(b, f, data)
  {
    var g := Flush(b, f.(frozen := false));
    FlushKeepsOrder(b, f.(frozen := false));
    SendFromOrder(b, g, data);
    SendFromStarts(b, g, data);
    hide FlushFrom, Flush, SendFrom, Answer;
    var (h, rest, ok) := SendFrom(b, g, data);
    if g.hasError {
      assert h.delivered == g.delivered && rest == data by {
        Unsent(g.delivered, h.delivered, data, rest);
      }
    } else if !g.frozen {
      assert g.delivered + g.buffer == g.delivered;
    }
  }

  lemma Unsent(d: seq<byte>, d': seq<byte>, data: seq<byte>, rest: seq<byte>)
    requires d' + rest == d + data && |rest| == |data|
    ensures d' == d && rest == data
  {
    assert d' == (d' + rest)[..|d'|] && d == (d + data)[..|d|];
    assert rest == (d' + rest)[|d'|..] && data == (d + data)[|d|..];
  }

  lemma OvertakingReorders(b: Backend, f: File, n: nat) returns (data: seq<byte>)
    requires Inv(f) && !f.hasError && Overtakes(b, f, n)
    ensures |data| == n && !PutInOrder(b, f, data)
  {
    var g := Flush(b, f.(frozen := false));
    FlushKeepsOrder(b, f.(frozen := false));
    var other: byte := if g.buffer[0] == 0 then 1 else 0;
    data := seq(n, _ => other);
    SendFromOrder(b, g, data);
    SendFromStarts(b, g, data);
    hide FlushFrom, Flush, SendFrom, Answer;
    var (h, rest, ok) := SendFrom(b, g, data);
    var k := |g.delivered|;
    assert (f.accepted + data)[k] == g.buffer[0];
    assert (h.delivered + rest)[k] == (g.delivered + data)[k] == other;
    assert h.delivered[k] == other;
  }

  /** A put keeps the order for all contents exactly when it does not overtake its own buffer. */
  lemma PutOrderExact(b: Backend, f: File, n: nat)
    requires Inv(f) && !f.hasError
    ensures (forall data: seq<byte> :: |data| == n ==> PutInOrder(b, f, data)) <==> !Overtakes(b, f, n)
  {
    if Overtakes(b, f, n) {
      var data := OvertakingReorders(b, f, n);
    } else {
      forall data: seq<byte> | |data| == n ensures PutInOrder(b, f, data) {
        InOrderUnlessOvertaking(b, f, data);
      }
    }
  }

  /** A run in which it happens: one byte is buffered, the flush of the next put fails, and the next
      byte goes out first. */
  lemma ErrorReorders() returns (b: Backend, run: seq<File>, ops: seq<Op>)
    ensures IsRun(b, 10, run, ops) && |ops| == 2
    ensures run[2].delivered == [2] && run[2].accepted == [1, 2] && run[2].buffer == [1]
  {
    b := i => if i == 0 then -EAGAIN else if i == 1 then -EINVAL else 1;
    ops := [PutData([1]), PutData([2])];
    var f0 := Open(10);
    var f1 := Apply(b, f0, ops[0]);
    assert f1.buffer == [1] && f1.delivered == [] && f1.calls == 1 && f1.frozen;
    var g := Flush(b, f1.(frozen := false));
    assert g.hasError && g.buffer == [1] && g.calls == 2;
    var f2 := Apply(b, f1, ops[1]);
    run := [f0, f1, f2];
  }

  // ---------------------------------------------------------------- the code

  class Output {
    const b: Backend
    var f: File

    constructor (b: Backend, bytesPerSec: nat)
      ensures this.b == b && f == Open(bytesPerSec)
    {
      this.b, f := b, Open(bytesPerSec);
    }

    /** put_buffer of the backend. */
    method PutBackend(data: seq<byte>) returns (ret: int)
      modifies this`f
      ensures ret == Answer(b, old(f), |data|)
      ensures f == if ret > 0 then Sent(old(f), data[..ret]) else old(f).(calls := old(f).calls + 1)
    {
      ret := Answer(b, f, |data|);
      f := f.(calls := f.calls + 1);
      if ret > 0 {
        f := f.(delivered := f.delivered + data[..ret]);
      }
    }

    /** buffered_flush. */
    method FlushBuffer()
      modifies this`f
      ensures f == Flush(b, old(f))
    {
      if f.hasError {
        return;
      }
      var offset, buffer := 0, f.buffer;
      while offset < |buffer|
        invariant offset <= |buffer| && !f.hasError
        invariant FlushFrom(b, f, buffer[offset..]) == FlushFrom(b, old(f), buffer)
        decreases |buffer| - offset
      {
        var ret := PutBackend(buffer[offset..]);
        if ret == -EAGAIN {
          f := f.(frozen := true);
          break;
        }
        if ret <= 0 {
          f := f.(hasError := true);
          break;
        }
        assert buffer[offset..][ret..] == buffer[offset + ret..];
        offset := offset + ret;
      }
      assert FlushFrom(b, old(f), buffer) == (f, buffer[offset..]);
      f := f.(buffer := buffer[offset..]);
    }

    /** buffered_append: what is in the buffer stays in front, and the buffer never outgrows the
        memory that is there for it. */
    method AppendBuffer(data: seq<byte>)
      modifies this`f
      ensures f == Append(old(f), data)
      ensures f.delivered + f.buffer == old(f.delivered + f.buffer) + data
      ensures old(|f.buffer| <= f.capacity) ==> |f.buffer| <= f.capacity
    {
      if |data| > f.capacity - |f.buffer| {
        f := f.(capacity := f.capacity + |data| + SLACK);
      }
      f := f.(buffer := f.buffer + data);
      assert f.delivered + f.buffer == old(f.delivered + f.buffer) + data;
    }

    /** The direct part of buffered_put_buffer; offset is negative after an error. */
    method SendDirect(data: seq<byte>) returns (offset: int)
      modifies this`f
      ensures var (h, rest, ok) := SendFrom(b, old(f), data);
              && f == h && offset <= |data|
              && if ok then offset >= 0 && rest == data[offset..] else offset == -EINVAL
    {
      offset := 0;
      while !f.frozen && offset < |data|
        invariant 0 <= offset <= |data|
        invariant SendFrom(b, f, data[offset..]) == SendFrom(b, old(f), data)
        decreases |data| - offset
      {
        if f.xfer > f.limit {
          break;
        }
        var ret := PutBackend(data[offset..]);
        if ret == -EAGAIN {
          f := f.(frozen := true);
          break;
        }
        if ret <= 0 {
          f := f.(hasError := true);
          offset := -EINVAL;
          return;
        }
        assert data[offset..][ret..] == data[offset + ret..];
        offset := offset + ret;
        f := f.(xfer := f.xfer + ret);
      }
    }

    /** buffered_put_buffer; ready tells whether the client is told that the file is ready. */
    method PutBuffer(data: seq<byte>, pos: nat) returns (ret: int, ready: bool)
      modifies this`f
      ensures (f, ret) == Put(b, old(f), data)
      ensures ready <==> !old(f).hasError && pos == 0 && data == [] && f.xfer <= f.limit
    {
      hide FlushFrom, SendFrom, Answer;
      if f.hasError {
        return -EINVAL, false;
      }
      f := f.(frozen := false);
      FlushFromOrder(b, f, f.buffer);
      FlushBuffer();
      var g := f;
      SendFromOrder(b, g, data);
      ret := SendDirect(data);
      f := f.(last := if f.xfer > g.xfer then |data| else f.last, low := f.limit);
      if ret >= 0 {
        AppendBuffer(data[ret..]);
        f := f.(accepted := f.accepted + data);
        ret := |data|;
      }
      ready := pos == 0 && data == [] && f.xfer <= f.limit;
    }

    /** buffered_rate_limit.  A file that is not full has delivered everything it accepted, unless the
        limit was raised since the last put; one over its limit sends nothing directly. */
    method RateLimit() returns (full: bool)
      requires Inv(f)
      ensures full <==> !f.hasError && (f.frozen || f.xfer > f.limit)
      ensures !full && !f.hasError && f.limit <= f.low ==> f.delivered == f.accepted
      ensures full && !f.frozen ==> forall data: seq<byte> :: Put(b, f, data).0.xfer == f.xfer
    {
      assert f.buffer == [] ==> f.delivered + f.buffer == f.delivered;
      if f.hasError {
        return false;
      }
      if f.frozen {
        return true;
      }
      if f.xfer > f.limit {
        forall data: seq<byte> ensures Put(b, f, data).0.xfer == f.xfer { OverLimit(b, f, data); }
        return true;
      }
      return false;
    }

    /** buffered_rate_tick: a file in error is closed; otherwise, unless it is frozen, the tick starts
        afresh, flushes and tells the client. */
    method RateTick() returns (closed: bool, ready: bool)
      modifies this`f
      ensures f == Apply(b, old(f), Tick)
      ensures closed <==> old(f).hasError
      ensures ready <==> !old(f).hasError && !old(f).frozen
      ensures ready && !f.hasError && !f.frozen ==> f.buffer == []
    {
      if f.hasError {
        return true, false;
      }
      if f.frozen {
        return false, false;
      }
      f := f.(xfer := 0, peak := f.limit, last := 0, low := f.limit);
      FlushFromOrder(b, f, f.buffer);
      FlushBuffer();
      return false, true;
    }

    /** The loop of buffered_close, for as many turns as patience allows.  When it ends by itself,
        everything accepted has been delivered or an error occurred; and it does so within two turns
        per byte if after each wait the backend is ready or fails. */
    method Drain(patience: nat) returns (done: bool)
      requires Inv(f)
      modifies this`f
      ensures Inv(f) && f.accepted == old(f).accepted
      ensures done ==> f.hasError || f.delivered == f.accepted
      ensures AfterWaitReady(b) && patience > 2 * |old(f).buffer| ==> done
    {
      hide Flush;
      var left := patience;
      while !f.hasError && f.buffer != [] && left > 0
        invariant Inv(f) && f.accepted == old(f).accepted
        invariant AfterWaitReady(b) && patience > 2 * |old(f).buffer| && !f.hasError ==> left >= Turns(b, f)
        decreases left
      {
        FlushKeepsInv(b, f);
        FlushProgress(b, f);
        FlushBuffer();
        left := left - 1;
      }
      done := f.hasError || f.buffer == [];
      assert f.buffer == [] ==> f.delivered + f.buffer == f.delivered;
    }
  }

  /** The backend never answers twice in a row that it is not ready. */
  ghost predicate AfterWaitReady(b: Backend) {
    forall i: nat :: b(i) == -EAGAIN ==> b(i + 1) != -EAGAIN
  }

  /** How many turns of the closing loop such a backend can make it take. */
  function Turns(b: Backend, f: File): (n: nat) {
    2 * |f.buffer| + if b(f.calls) == -EAGAIN then 1 else 0
  }

  /** Over its limit, a put sends nothing directly. */
  lemma OverLimit(b: Backend, f: File, data: seq<byte>)
    requires f.xfer > f.limit
    ensures Put(b, f, data).0.xfer == f.xfer
  {
    if !f.hasError {
      var f0 := f.(frozen := false);
      FlushFromOrder(b, f0, f0.buffer);
      SendFromOrder(b, Flush(b, f0), data);
    }
  }

  lemma FlushProgress(b: Backend, f: File)
    requires !f.hasError && f.buffer != []
    ensures var g := Flush(b, f);
            || g.hasError || |g.buffer| < |f.buffer|
            || (b(f.calls) == -EAGAIN && g.calls == f.calls + 1 && g.buffer == f.buffer)
  {
    var n := Answer(b, f, |f.buffer|);
    if n > 0 {
      FlushFromOrder(b, Sent(f, f.buffer[..n]), f.buffer[n..]);
    }
  }
}
