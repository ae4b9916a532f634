/** Submission and completion of a batch of writes (bdrv_aio_multiwrite, multiwrite_cb).

    The driver may complete any write it holds at any moment after it took it, also while a later
    write is being submitted and even before the call that submits it returns.  Every such
    interleaving is a run of the state machine below. */
module MultiwriteRun {
  import opened MultiwriteMerge

  const EIO := 5
  const ENOMEDIUM := 123

  /** One call of a caller's completion function. */
  datatype Call = Call(index: nat, ret: int)

  /** Where bdrv_aio_multiwrite stands: about to look at write i, inside bdrv_aio_writev for write i,
      out of its loop after a late failure, or returned. */
  datatype Phase = Ready(i: nat) | Calling(i: nat, accepted: bool) | Leaving | Returned(ret: int)

  /** error, num and freed are the MultiwriteCB; held, done, refused and results are what happened. */
  datatype State = State(phase: Phase, error: int, num: int, freed: bool, calls: seq<Call>,
                         held: set<nat>, done: map<nat, int>, refused: bool, results: seq<int>)

  datatype Event = Write | Accept | Return | Finish | Complete(j: nat, ret: int)

  function Begin(): (s: State) {
    State(Ready(0), 0, 1, false, [], {}, map[], false, [])
  }

  function Calls(n: nat, ret: int): (c: seq<Call>)
    ensures |c| == n
  {
    seq(n, (k: nat) => Call(k, ret))
  }

  /** multiwrite_cb; n is the number of the caller's requests. */
  function Callback(s: State, n: nat, ret: int): (s': State) {
    var error := if ret < 0 && s.error == 0 then ret else s.error;
    s.(error := error, num := s.num - 1, results := s.results + [ret],
       freed := s.freed || s.num == 1,
       calls := if s.num == 1 then s.calls + Calls(n, error) else s.calls)
  }

  /** count is the number of writes left after merging. */
  predicate Enabled(s: State, count: nat, e: Event) {
    match e
    case Write => s.phase.Ready? && s.phase.i < count
    case Accept => s.phase.Calling? && !s.phase.accepted
    case Return => s.phase.Calling?
    case Finish => s.phase.Leaving? || (s.phase.Ready? && s.phase.i == count)
    case Complete(j, _) => j in s.held
  }

  function Apply(s: State, n: nat, count: nat, e: Event): (s': State)
    requires Enabled(s, count, e)
  {
    match e
    case Write => s.(num := s.num + 1, phase := Calling(s.phase.i, false))
    case Accept => s.(held := s.held + {s.phase.i}, phase := Calling(s.phase.i, true))
    case Return =>
      if s.phase.accepted then s.(phase := Ready(s.phase.i + 1))
      else if s.phase.i == 0 then s.(refused := true, freed := true, phase := Returned(-1))
      else Callback(s.(refused := true, phase := Leaving), n, -EIO)
    case Finish => Callback(s.(phase := Returned(0)), n, 0)
    case Complete(j, ret) => Callback(s.(held := s.held - {j}, done := s.done[j := ret]), n, ret)
  }

  predicate Next(s: State, s': State, n: nat, count: nat, e: Event) {
    Enabled(s, count, e) && s' == Apply(s, n, count, e)
  }

  predicate IsRun(run: seq<State>, events: seq<Event>, n: nat, count: nat) {
    && |run| == |events| + 1 && run[0] == Begin()
    && forall k :: 0 <= k < |events| ==> Next(run[k], run[k + 1], n, count, events[k])
  }

  /** The first failure among the results in the order in which they arrived; 0 when none failed. */
  function FirstError(results: seq<int>): (error: int) {
    if results == [] then 0
    else if results[0] < 0 then results[0]
    else FirstError(results[1..])
  }

  lemma {:induction false} FirstErrorSnoc(results: seq<int>, ret: int)
    ensures FirstError(results + [ret]) ==
            if ret < 0 && FirstError(results) == 0 then ret else FirstError(results)
  {
    if results == [] {
      assert results + [ret] == [ret];
    } else {
      assert (results + [ret])[1..] == results[1..] + [ret];
      if results[0] >= 0 {
        FirstErrorSnoc(results[1..], ret);
      }
    }
  }

  // -------------------------------------------------------------- invariant

  /** The writes the driver took so far, when the loop has passed write i. */
  ghost predicate Took(s: State, i: nat) {
    && s.held !! s.done.Keys
    && forall j: nat :: j in s.held || j in s.done <==> j < i
  }

  ghost predicate Submitted(s: State, count: nat) {
    match s.phase
    case Ready(i) => i <= count && !s.refused && Took(s, i) && s.num == |s.held| + 1
    case Calling(i, accepted) =>
      && i < count && !s.refused
      && Took(s, if accepted then i + 1 else i)
      && s.num == |s.held| + if accepted then 1 else 2
    case Leaving => s.refused && (exists i: nat :: 0 < i < count && Took(s, i)) && s.num == |s.held| + 1
    case Returned(ret) =>
      && (ret == 0 || ret == -1)
      && (ret == 0 ==> s.num == |s.held|)
      && (ret == 0 && !s.refused ==> Took(s, count))
      && (ret == 0 && s.refused ==> exists i: nat :: 0 < i < count && Took(s, i))
      && (ret == -1 ==> s.refused && Took(s, 0))
  }

  /** The structure is freed, and the caller is told, exactly when nothing is left to wait for. */
  ghost predicate Told(s: State, n: nat) {
    && (s.freed <==> s.phase.Returned? && s.held == {})
    && s.calls == if s.freed && s.phase == Returned(0) then Calls(n, s.error) else []
  }

  /** What the reported error means. */
  ghost predicate Reports(s: State) {
    && s.error == FirstError(s.results)
    && (s.error == 0 <==> (s.refused ==> s.phase == Returned(-1)) && forall j :: j in s.done ==> s.done[j] >= 0)
  }

  ghost predicate Inv(s: State, n: nat, count: nat) {
    Submitted(s, count) && Told(s, n) && Reports(s)
  }

  lemma CallbackReports(s: State, n: nat, ret: int)
    requires s.error == FirstError(s.results)
    ensures Callback(s, n, ret).error == FirstError(Callback(s, n, ret).results)
  {
    FirstErrorSnoc(s.results, ret);
  }

  /** Nothing touches the MultiwriteCB after it is freed. */
  lemma NeverTouchedAfterFree(s: State, n: nat, count: nat, e: Event)
    requires Inv(s, n, count) && Enabled(s, count, e)
    ensures !s.freed && s.num >= 1
  {
  }

  lemma CompleteKeepsTook(s: State, i: nat, j: nat, ret: int)
    requires Took(s, i) && j in s.held
    ensures Took(s.(held := s.held - {j}, done := s.done[j := ret]), i)
  {
    assert s.done[j := ret].Keys == s.done.Keys + {j};
  }

  lemma CompleteKeepsInv(s: State, n: nat, count: nat, j: nat, ret: int)
    requires Inv(s, n, count) && j in s.held
    ensures Inv(Apply(s, n, count, Complete(j, ret)), n, count)
  {
    var s0 := s.(held := s.held - {j}, done := s.done[j := ret]);
    assert |s0.held| == |s.held| - 1;
    assert s0.held == {} <==> |s0.held| == 0;
    forall i: nat | Took(s, i) ensures Took(s0, i) && Took(Callback(s0, n, ret), i) {
      CompleteKeepsTook(s, i, j, ret);
    }
    CallbackReports(s0, n, ret);
    hide Took, FirstError;
    assert forall k :: k in s.done ==> k in s0.done && (k != j ==> s0.done[k] == s.done[k]);
  }

  lemma ReturnKeepsInv(s: State, n: nat, count: nat)
    requires Inv(s, n, count) && s.phase.Calling?
    ensures Inv(Apply(s, n, count, Return), n, count)
  {
    if !s.phase.accepted {
      if s.phase.i > 0 {
        var s0 := s.(refused := true, phase := Leaving);
        CallbackReports(s0, n, -EIO);
        assert Took(Callback(s0, n, -EIO), s.phase.i);
        hide FirstError;
      } else {
        assert s.held == {};
      }
    }
  }

  lemma FinishKeepsInv(s: State, n: nat, count: nat)
    requires Inv(s, n, count) && Enabled(s, count, Finish)
    ensures Inv(Apply(s, n, count, Finish), n, count)
  {
    var s0 := s.(phase := Returned(0));
    CallbackReports(s0, n, 0);
    forall i: nat | Took(s, i) ensures Took(Callback(s0, n, 0), i) {
    }
    hide Took, FirstError;
  }

  lemma StepKeepsInv(s: State, n: nat, count: nat, e: Event)
    requires Inv(s, n, count) && Enabled(s, count, e)
    ensures Inv(Apply(s, n, count, e), n, count)
  {
    match e
    case Write =>
    case Accept =>
    case Return => ReturnKeepsInv(s, n, count);
    case Finish => FinishKeepsInv(s, n, count);
    case Complete(j, ret) => CompleteKeepsInv(s, n, count, j, ret);
  }

  lemma {:induction false} RunKeepsInv(run: seq<State>, events: seq<Event>, n: nat, count: nat, k: nat)
    requires IsRun(run, events, n, count) && k < |run|
    ensures Inv(run[k], n, count)
  {
    if k > 0 {
      RunKeepsInv(run, events, n, count, k - 1);
      assert Next(run[k - 1], run[k], n, count, events[k - 1]);
      StepKeepsInv(run[k - 1], n, count, events[k - 1]);
    }
  }

  /** Every write of the batch was taken by the driver and succeeded. */
  ghost predicate AllSucceeded(s: State, count: nat) {
    forall j: nat :: j < count ==> j in s.done && s.done[j] >= 0
  }

  lemma TookExactly(s: State, i: nat, j: nat)
    requires Took(s, i)
    ensures (j in s.held || j in s.done) <==> j < i
  {
  }

  lemma ErrorMeansAFailedWrite(s: State, n: nat, count: nat)
    requires Inv(s, n, count) && s.phase == Returned(0) && s.held == {}
    ensures s.error == 0 <==> AllSucceeded(s, count)
  {
    hide FirstError;
    if s.refused {
      var i: nat :| i < count && Took(s, i);
      TookExactly(s, i, i);
    } else {
      assert forall j: nat :: j in s.done <==> j < count;
    }
  }

  /** At every point of every run: a return of -1 means that no write was taken and no callback ever
      runs; otherwise each of the caller's n callbacks runs exactly once, in order, as soon as the
      call has returned and the last write the driver took is complete, with the first error that
      came back, which is 0 exactly when all count writes succeeded.  After that nothing can happen. */
  lemma BatchCompletes(run: seq<State>, events: seq<Event>, n: nat, count: nat, k: nat)
    requires IsRun(run, events, n, count) && k < |run|
    ensures var s := run[k];
            && (s.phase == Returned(-1) ==> s.held == {} && s.done == map[] && s.calls == [])
            && (s.phase == Returned(0) && s.held == {} ==>
                  && s.calls == Calls(n, FirstError(s.results))
                  && (FirstError(s.results) == 0 <==> AllSucceeded(s, count)))
            && (s.phase != Returned(0) || s.held != {} ==> s.calls == [])
            && (s.phase.Returned? ==> s.phase.ret == 0 || s.phase.ret == -1)
    ensures run[k].freed ==> k == |run| - 1
    ensures k < |events| ==> !run[k].freed
  {
    RunKeepsInv(run, events, n, count, k);
    var s := run[k];
    if s.phase == Returned(0) && s.held == {} {
      ErrorMeansAFailedWrite(s, n, count);
    }
    if s.phase == Returned(-1) {
      assert s.held == {} && s.done.Keys == {};
    }
    if k < |events| {
      assert Next(s, run[k + 1], n, count, events[k]);
      NeverTouchedAfterFree(s, n, count, events[k]);
    }
  }

  /** Every write of the batch was handed to the driver. */
  ghost predicate AllTaken(s: State, count: nat) {
    forall j: nat :: j < count ==> j in s.held || j in s.done
  }

  /** A return of 0 does not mean that all writes were submitted: it does exactly when the driver
      refused none. */
  lemma SubmittedExact(run: seq<State>, events: seq<Event>, n: nat, count: nat, k: nat)
    requires IsRun(run, events, n, count) && k < |run| && run[k].phase == Returned(0)
    ensures AllTaken(run[k], count) <==> !run[k].refused
  {
    RunKeepsInv(run, events, n, count, k);
    var s := run[k];
    if s.refused {
      var i: nat :| i < count && Took(s, i);
      TookExactly(s, i, i);
    } else {
      assert Took(s, count);
    }
  }

  /** Of two writes the driver takes the first and refuses the second; the first then succeeds. */
  const LATE: seq<Event> := [Write, Accept, Return, Write, Return, Finish, Complete(0, 0)]

  lemma LateRefusal(n: nat) returns (run: seq<State>)
    ensures IsRun(run, LATE, n, 2)
    ensures var s := run[|run| - 1];
            && s.phase == Returned(0) && !AllTaken(s, 2)
            && s.done == map[0 := 0] && s.calls == Calls(n, -EIO)
  {
    hide Calls;
    var s0 := Begin();
    var s1 := Apply(s0, n, 2, Write);
    var s2 := Apply(s1, n, 2, Accept);
    var s3 := Apply(s2, n, 2, Return);
    var s4 := Apply(s3, n, 2, Write);
    var s5 := Apply(s4, n, 2, Return);
    var s6 := Apply(s5, n, 2, Finish);
    var s7 := Apply(s6, n, 2, Complete(0, 0));
    run := [s0, s1, s2, s3, s4, s5, s6, s7];
    assert s7.held == {} && 1 !in s7.done;
  }

  // ---------------------------------------------------------------- the code

  /** What the driver does inside one bdrv_aio_writev: it may complete writes it holds, take the new
      one or refuse it, and complete more. */
  datatype Turn = Turn(before: seq<(nat, int)>, accept: bool, after: seq<(nat, int)>)

  /** The driver completes the writes of a list that it holds. */
  function Completed(s: State, n: nat, count: nat, picks: seq<(nat, int)>): (r: State)
    ensures r.phase == s.phase && r.refused == s.refused
    decreases |picks|
  {
    if picks == [] then s
    else
      var e := Complete(picks[0].0, picks[0].1);
      Completed(if picks[0].0 in s.held then Apply(s, n, count, e) else s, n, count, picks[1..])
  }

  /** One bdrv_aio_writev with all that the driver does meanwhile. */
  function AfterWritev(s: State, n: nat, count: nat, turn: Turn): (r: State)
    requires Enabled(s, count, Write)
  {
    var s1 := Completed(Apply(s, n, count, Write), n, count, turn.before);
    Completed(if turn.accept then Apply(s1, n, count, Accept) else s1, n, count, turn.after)
  }

  /** Exactly the writes that the list names and the driver held are complete afterwards. */
  lemma {:induction false} CompletedMeans(s: State, n: nat, count: nat, picks: seq<(nat, int)>, j: nat)
    ensures j in Completed(s, n, count, picks).held <==>
            j in s.held && forall k :: 0 <= k < |picks| ==> picks[k].0 != j
    decreases |picks|
  {
    if picks != [] {
      var s' := if picks[0].0 in s.held then Apply(s, n, count, Complete(picks[0].0, picks[0].1)) else s;
      CompletedMeans(s', n, count, picks[1..], j);
      assert forall k :: 0 < k < |picks| ==> picks[k] == picks[1..][k - 1];
      if forall k :: 0 <= k < |picks[1..]| ==> picks[1..][k].0 != j {
        assert forall k :: 0 < k < |picks| ==> picks[k].0 != j;
      }
    }
  }

  lemma RunSnoc(run: seq<State>, events: seq<Event>, n: nat, count: nat, e: Event, s: State)
    requires IsRun(run, events, n, count) && Next(run[|run| - 1], s, n, count, e)
    ensures IsRun(run + [s], events + [e], n, count)
  {
  }

  lemma NotYetRefused(run: seq<State>, events: seq<Event>, n: nat, count: nat)
    requires IsRun(run, events, n, count) && run[|run| - 1].phase.Ready?
    ensures !run[|run| - 1].refused
  {
    RunKeepsInv(run, events, n, count, |run| - 1);
  }

  class Batch {
    const n: nat
    const count: nat
    var st: State
    ghost var run: seq<State>
    ghost var events: seq<Event>

    ghost predicate Valid()
      reads this
    {
      IsRun(run, events, n, count) && run[|run| - 1] == st
    }

    constructor (n: nat, count: nat)
      ensures Valid() && this.n == n && this.count == count && st == Begin()
    {
      this.n, this.count := n, count;
      st, run, events := Begin(), [Begin()], [];
    }

    method UserCb()
      modifies this`st
      ensures st == old(st).(calls := old(st.calls) + Calls(n, old(st.error)))
    {
      ghost var c := Calls(n, st.error);
      for i := 0 to n
        invariant st == old(st).(calls := old(st.calls) + c[..i])
      {
        assert c[..i + 1] == c[..i] + [c[i]];
        st := st.(calls := st.calls + [Call(i, st.error)]);
      }
      assert c[..n] == c;
    }

    method Cb(ret: int)
      modifies this`st
      ensures st == Callback(old(st), n, ret)
    {
      if ret < 0 && st.error == 0 {
        st := st.(error := ret);
      }
      st := st.(num := st.num - 1, results := st.results + [ret]);
      if st.num == 0 {
        UserCb();
        st := st.(freed := true);
      }
    }

    /** Extends the recorded run by the event that led to the present state. */
    ghost method Record(e: Event)
      requires IsRun(run, events, n, count) && Next(run[|run| - 1], st, n, count, e)
      modifies this`run, this`events
      ensures Valid()
    {
      RunSnoc(run, events, n, count, e, st);
      run, events := run + [st], events + [e];
    }

    /** The driver completes some of the writes it holds. */
    method Completions(picks: seq<(nat, int)>)
      requires Valid()
      modifies this
      ensures Valid() && st == Completed(old(st), n, count, picks)
    {
      hide IsRun;
      for k := 0 to |picks|
        invariant Valid() && Completed(st, n, count, picks[k..]) == Completed(old(st), n, count, picks)
      {
        assert picks[k..][0] == picks[k] && picks[k..][1..] == picks[k + 1..];
        var (j, ret) := picks[k];
        if j in st.held {
          var s := st;
          st := st.(held := st.held - {j}, done := st.done[j := ret]);
          Cb(ret);
          assert st == Apply(s, n, count, Complete(j, ret));
          Record(Complete(j, ret));
        }
      }
    }

    /** bdrv_aio_writev for the next write, with whatever the driver does meanwhile. */
    method Writev(turn: Turn)
      requires Valid() && st.phase.Ready? && st.phase.i < count
      modifies this
      ensures Valid() && st == AfterWritev(old(st), n, count, turn)
      ensures st.phase == Calling(old(st.phase.i), turn.accept) && st.refused == old(st.refused)
    {
      hide IsRun;
      st := st.(num := st.num + 1, phase := Calling(st.phase.i, false));
      Record(Write);
      Completions(turn.before);
      if turn.accept {
        st := st.(held := st.held + {st.phase.i}, phase := Calling(st.phase.i, true));
        Record(Accept);
      }
      Completions(turn.after);
    }

    /** The submission loop.  Returns -1 exactly when the driver refuses the first write. */
    method Submit(driver: nat -> Turn) returns (ret: int)
      requires Valid() && st.phase == Ready(0) && count > 0
      modifies this
      ensures Valid() && st.phase == Returned(ret)
      ensures ret == if driver(0).accept then 0 else -1
      ensures st.refused <==> exists k :: 0 <= k < count && !driver(k).accept
    {
      NotYetRefused(run, events, n, count);
      hide IsRun, AfterWritev, Completed;
      var i := 0;
      while i < count
        invariant i <= count && Valid() && st.phase == Ready(i)
        invariant !st.refused && forall k :: 0 <= k < i ==> driver(k).accept
      {
        Writev(driver(i));
        if !driver(i).accept {
          if i == 0 {
            st := st.(refused := true, freed := true, phase := Returned(-1));
            Record(Return);
            return -1;
          }
          st := st.(refused := true, phase := Leaving);
          Cb(-EIO);
          Record(Return);
          break;
        }
        st := st.(phase := Ready(i + 1));
        Record(Return);
        i := i + 1;
      }
      st := st.(phase := Returned(0));
      Cb(0);
      Record(Finish);
      return 0;
    }
  }

  /** The whole call on requests in sorted order. */
  method AioMultiwrite(medium: bool, reqs: array<Req>, hook: Hook, driver: nat -> Turn)
    returns (ret: int, batch: Batch?)
    modifies reqs
    ensures !medium ==> batch == null && ret == -1
    ensures !medium ==> forall k :: 0 <= k < reqs.Length ==> reqs[k] == old(reqs[k]).(error := -ENOMEDIUM)
    ensures medium && reqs.Length == 0 ==> batch == null && ret == 0
    ensures medium && reqs.Length > 0 ==>
              && batch != null && fresh(batch) && batch.Valid() && batch.st.phase == Returned(ret)
              && batch.n == reqs.Length && batch.count == |Merged(old(reqs[..]), reqs.Length, hook)|
              && ret == (if driver(0).accept then 0 else -1)
              && (batch.st.refused <==> exists k :: 0 <= k < batch.count && !driver(k).accept)
              && SameWrites(reqs[..], Merged(old(reqs[..]), reqs.Length, hook))
              && forall k :: 0 <= k < reqs.Length ==>
                   reqs[k].cookie == old(reqs[k].cookie) &&
                   reqs[k].error == if ret == 0 then old(reqs[k].error) else -EIO
  {
    batch := null;
    if !medium {
      for i := 0 to reqs.Length
        invariant forall k :: 0 <= k < reqs.Length ==>
                    reqs[k] == if k < i then old(reqs[k]).(error := -ENOMEDIUM) else old(reqs[k])
      {
        reqs[i] := reqs[i].(error := -ENOMEDIUM);
      }
      return -1, null;
    }
    if reqs.Length == 0 {
      return 0, null;
    }
    hide Merged;
    var count := Merge(reqs, hook);
    batch := new Batch(reqs.Length, count);
    ghost var merged := reqs[..];
    ret := batch.Submit(driver);
    if ret == -1 {
      FailAll(reqs);
      SameWritesKept(merged, reqs[..], Merged(old(reqs[..]), reqs.Length, hook));
    }
  }

  method FailAll(reqs: array<Req>)
    modifies reqs
    ensures forall k :: 0 <= k < reqs.Length ==> reqs[k] == old(reqs[k]).(error := -EIO)
  {
    for i := 0 to reqs.Length
      invariant forall k :: 0 <= k < reqs.Length ==>
                  reqs[k] == if k < i then old(reqs[k]).(error := -EIO) else old(reqs[k])
    {
      reqs[i] := reqs[i].(error := -EIO);
    }
  }

  lemma SameWritesKept(a: seq<Req>, b: seq<Req>, out: seq<Req>)
    requires SameWrites(a, out) && |a| == |b|
    requires forall k :: 0 <= k < |a| ==> b[k] == a[k].(error := -EIO)
    ensures SameWrites(b, out)
  {
  }
}
