/** Instruction counting: a global counter that runs ahead by the budget of the running CPU, and the
    CPU's 16-bit decrementer with its spill-over, which count the budget down. */
module Icount {
  const LOW_MAX := 0xffff

  /** icount_decr.u16.low, whether icount_decr.u16.high is raised, and icount_extra. */
  datatype Decr = Decr(low: int, interrupted: bool, extra: int)

  /** icount, cpus and current (cpu_single_env, -1 for none) are the program's; executed, skipped,
      budget, ran and last say what happened: instructions run in all, time skipped while idle, the
      budget of the present slice, the instructions it ran, and the size of the block it ran last. */
  datatype State = State(icount: int, cpus: seq<Decr>, current: int,
                         executed: int, skipped: int, budget: int, ran: int, last: int)

  datatype Event =
    | SetUp(cpu: nat, count: nat)
    | Exec(n: nat)
    | Restore(k: nat)
    | Expire(n: nat)
    | Interrupt(cpu: nat)
    | FoldBack
    | Skip(n: nat)

  /** icount_decr.u32 as a signed number. */
  function Signed(d: Decr): (r: int) {
    if d.interrupted then d.low - 0x10000 else d.low
  }

  /** The two halves as one 32-bit word, the high one 0xffff when it is raised, read as a signed number. */
  lemma SignedIsWord(d: Decr)
    requires 0 <= d.low <= 0xffff
    ensures var word := (if d.interrupted then 0xffff else 0) * 0x10000 + d.low;
            Signed(d) == if word < 0x8000_0000 then word else word - 0x1_0000_0000
  {
  }

  function Clip(n: int): (r: int) {
    if n > LOW_MAX then LOW_MAX else n
  }

  predicate Running(s: State) {
    0 <= s.current < |s.cpus|
  }

  function Cur(s: State): (d: Decr)
    requires Running(s)
  {
    s.cpus[s.current]
  }

  function SetCur(s: State, d: Decr): (s': State)
    requires Running(s)
  {
    s.(cpus := s.cpus[s.current := d])
  }

  /** A block of n instructions starts only if the decrementer can pay for it; Restore undoes the
      part of the last block that did not run because of an exception; a block too large for the
      decrementer makes it expire. */
  predicate Enabled(s: State, e: Event) {
    match e
    case SetUp(cpu, _) => s.current == -1 && cpu < |s.cpus|
    case Exec(n) => Running(s) && 1 <= n <= Signed(Cur(s))
    case Restore(k) => Running(s) && k <= s.last
    case Expire(n) => Running(s) && Signed(Cur(s)) < n
    case Interrupt(cpu) => cpu < |s.cpus|
    case FoldBack => Running(s)
    case Skip(_) => s.current == -1
  }

  function Apply(s: State, e: Event): (s': State)
    requires Enabled(s, e)
  {
    match e
    case SetUp(cpu, count) =>
      var d := s.cpus[cpu];
      s.(icount := s.icount - (d.low + d.extra) + count, current := cpu,
         cpus := s.cpus[cpu := d.(low := Clip(count), extra := count - Clip(count))],
         budget := count, ran := 0, last := 0)
    case Exec(n) =>
      SetCur(s, Cur(s).(low := Cur(s).low - n)).(executed := s.executed + n, ran := s.ran + n, last := n)
    case Restore(k) =>
      SetCur(s, Cur(s).(low := Cur(s).low + s.last - k))
      .(executed := s.executed - (s.last - k), ran := s.ran - (s.last - k), last := 0)
    case Expire(_) =>
      if Cur(s).extra != 0 && Signed(Cur(s)) >= 0 then SetCur(s, Refill(Cur(s))).(last := 0)
      else s.(last := 0)
    case Interrupt(cpu) => s.(cpus := s.cpus[cpu := s.cpus[cpu].(interrupted := true)])
    case FoldBack =>
      SetCur(s, Decr(0, false, 0)).(icount := s.icount - (Cur(s).low + Cur(s).extra), current := -1)
    case Skip(n) => s.(icount := s.icount + n, skipped := s.skipped + n)
  }

  function Refill(d: Decr): (d': Decr) {
    var all := d.extra + d.low;
    d.(low := Clip(all), extra := all - Clip(all))
  }

  /** A budget is split into what fits 16 bits and the rest. */
  lemma BudgetSplits(s: State, cpu: nat, count: nat)
    requires Enabled(s, SetUp(cpu, count))
    ensures var d := Cur(Apply(s, SetUp(cpu, count)));
            d.low + d.extra == count && d.extra >= 0 && d.low <= 0xffff && (d.extra > 0 ==> d.low == 0xffff)
  {
  }

  /** So is what is left when the decrementer is refilled. */
  lemma RefillSplits(d: Decr)
    requires 0 <= d.low && 0 <= d.extra
    ensures var d' := Refill(d);
            && d'.low + d'.extra == d.low + d.extra && d'.extra >= 0 && d'.low <= 0xffff
            && (d'.extra > 0 ==> d'.low == 0xffff) && d'.interrupted == d.interrupted
  {
  }

  // -------------------------------------------------------------- invariant

  function Outstanding(s: State): (r: int) {
    if Running(s) then Cur(s).low + Cur(s).extra else 0
  }

  ghost predicate Inv(s: State) {
    && -1 <= s.current < |s.cpus|
    && s.icount - Outstanding(s) == s.executed + s.skipped
    && (forall c :: 0 <= c < |s.cpus| ==> 0 <= s.cpus[c].low <= LOW_MAX && 0 <= s.cpus[c].extra)
    && (forall c :: 0 <= c < |s.cpus| && c != s.current ==> s.cpus[c].low == 0 && s.cpus[c].extra == 0)
    && (Running(s) ==> && s.ran + Outstanding(s) == s.budget
                       && 0 <= s.last <= s.ran && s.last + Cur(s).low <= LOW_MAX)
  }

  /** CPUs that have not run yet. */
  function Start(cpus: nat): (s: State) {
    State(0, seq(cpus, _ => Decr(0, false, 0)), -1, 0, 0, 0, 0, 0)
  }

  lemma StepKeepsInv(s: State, e: Event)
    requires Inv(s) && Enabled(s, e)
    ensures Inv(Apply(s, e))
  {
  }

  predicate IsRun(run: seq<State>, events: seq<Event>, cpus: nat) {
    && |run| == |events| + 1 && run[0] == Start(cpus)
    && forall i :: 0 <= i < |events| ==> Enabled(run[i], events[i]) && run[i + 1] == Apply(run[i], events[i])
  }

  lemma {:induction false} RunKeepsInv(run: seq<State>, events: seq<Event>, cpus: nat, i: nat)
    requires IsRun(run, events, cpus) && i < |run|
    ensures Inv(run[i])
  {
    if i > 0 {
      RunKeepsInv(run, events, cpus, i - 1);
      StepKeepsInv(run[i - 1], events[i - 1]);
    }
  }

  lemma LastInv(run: seq<State>, events: seq<Event>, cpus: nat)
    requires IsRun(run, events, cpus)
    ensures |run| >= 1 && Inv(run[|run| - 1])
  {
    RunKeepsInv(run, events, cpus, |run| - 1);
  }

  function Pow2(n: nat): (p: nat)
    ensures p >= 1
  {
    if n == 0 then 1 else 2 * Pow2(n - 1)
  }

  /** Shifts add up, and each doubles. */
  lemma {:induction false} Pow2Adds(m: nat, n: nat)
    ensures Pow2(m + n) == Pow2(m) * Pow2(n) && Pow2(0) == 1 && Pow2(1) == 2
  {
    assert Pow2(1) == 2 * Pow2(0);
    if m > 0 {
      Pow2Adds(m - 1, n);
    }
  }

  /** What cpu_get_icount returns. */
  function ClockValue(s: State, bias: int, shift: nat): (r: int) {
    bias + (s.icount - Outstanding(s)) * Pow2(shift)
  }

  /** At every point of every run the clock shows the instructions executed and the time skipped, the
      decrementer fits its 16 bits, and no slice runs more than its budget. */
  lemma ClockIsExact(run: seq<State>, events: seq<Event>, cpus: nat, i: nat, bias: int, shift: nat)
    requires IsRun(run, events, cpus) && i < |run|
    ensures ClockValue(run[i], bias, shift) == bias + (run[i].executed + run[i].skipped) * Pow2(shift)
    ensures Running(run[i]) ==> 0 <= run[i].ran <= run[i].budget && 0 <= Cur(run[i]).low <= 0xffff
  {
    RunKeepsInv(run, events, cpus, i);
  }

  /** Between two points where no CPU runs, the counter has grown by the instructions executed in
      between, whatever slices, refills, restores and interrupts there were. */
  lemma CounterIsConserved(run: seq<State>, events: seq<Event>, cpus: nat, i: nat, j: nat)
    requires IsRun(run, events, cpus) && i <= j < |run| && run[i].current == run[j].current == -1
    ensures run[j].icount - run[i].icount ==
            (run[j].executed - run[i].executed) + (run[j].skipped - run[i].skipped)
  {
    RunKeepsInv(run, events, cpus, i);
    RunKeepsInv(run, events, cpus, j);
  }

  /** When the decrementer expires without an interrupt, either it is refilled and the next block has
      more to spend, or the slice ends with less left than the next block needs. */
  lemma ExpiryIsExact(run: seq<State>, events: seq<Event>, cpus: nat, i: nat)
    requires IsRun(run, events, cpus) && i < |events| && events[i].Expire? && !Cur(run[i]).interrupted
    ensures var s, s' := run[i], run[i + 1];
            if Cur(s).extra != 0 then Cur(s').low > Cur(s).low || Cur(s).low == LOW_MAX
            else s' == s.(last := 0) && s.budget - s.ran == Cur(s).low < events[i].n
  {
    RunKeepsInv(run, events, cpus, i);
  }

  // ---------------------------------------------------------------- the code

  lemma RunSnoc(run: seq<State>, events: seq<Event>, cpus: nat, e: Event, s: State)
    requires IsRun(run, events, cpus) && Enabled(run[|run| - 1], e) && s == Apply(run[|run| - 1], e)
    ensures IsRun(run + [s], events + [e], cpus)
  {
  }

  /** The throw-away block: tail instructions, or what is left if that is less. */
  function LastBlock(d: Decr, tail: nat): (k: nat) {
    if Signed(d) <= 0 then 0 else if tail <= Signed(d) then tail else Signed(d)
  }

  /** The CPU loop: each step of the guest is taken if it can happen, and an expiry that cannot be
      refilled ends the loop with a throw-away block. */
  function Play(s: State, script: seq<Event>, tail: nat): (r: State)
    ensures r.current == s.current && |r.cpus| == |s.cpus|
    decreases |script|
  {
    if script == [] then s
    else
      var e := script[0];
      if !Enabled(s, e) || e.SetUp? || e.FoldBack? || e.Skip? then Play(s, script[1..], tail)
      else if e.Expire? && (Cur(s).extra == 0 || Signed(Cur(s)) < 0) then
        var k := LastBlock(Cur(s), tail);
        if k > 0 then Apply(Apply(s, e), Exec(k)) else Apply(s, e)
      else Play(Apply(s, e), script[1..], tail)
  }

  /** The instructions of the blocks of a script. */
  function Insns(script: seq<Event>): (n: nat) {
    if script == [] then 0 else (if script[0].Exec? then script[0].n else 0) + Insns(script[1..])
  }

  /** Blocks that the decrementer can pay for are all run. */
  lemma {:induction false} PlayRunsAll(s: State, script: seq<Event>, tail: nat)
    requires Running(s) && (forall i :: 0 <= i < |script| ==> script[i].Exec? && script[i].n >= 1)
    requires Insns(script) <= Signed(Cur(s))
    ensures Play(s, script, tail).executed == s.executed + Insns(script)
    ensures Play(s, script, tail).current == s.current
    ensures Cur(Play(s, script, tail)).low == Cur(s).low - Insns(script)
    decreases |script|
  {
    if script != [] {
      PlayRunsAll(Apply(s, script[0]), script[1..], tail);
    }
  }

  class Clock {
    const cpus: nat
    var st: State
    ghost var run: seq<State>
    ghost var events: seq<Event>

    ghost predicate Valid()
      reads this
    {
      IsRun(run, events, cpus) && run[|run| - 1] == st
    }

    constructor (cpus: nat)
      ensures Valid() && st == Start(cpus)
    {
      this.cpus := cpus;
      st, run, events := Start(cpus), [Start(cpus)], [];
    }

    ghost method Record(e: Event)
      requires IsRun(run, events, cpus) && Enabled(run[|run| - 1], e) && st == Apply(run[|run| - 1], e)
      modifies this`run, this`events
      ensures Valid()
    {
      RunSnoc(run, events, cpus, e, st);
      run, events := run + [st], events + [e];
    }

    /** The expired decrementer: refill it from the spill-over, or run what is left in a throw-away
        block, which holds tail instructions if that many are left, and leave the CPU loop. */
    method Expired(n: nat, tail: nat) returns (leave: bool)
      requires Valid() && Running(st) && Signed(Cur(st)) < n && tail > 0
      modifies this
      ensures Valid() && st.current == old(st).current && |st.cpus| == |old(st).cpus|
      ensures leave <==> Cur(old(st)).extra == 0 || Cur(old(st)).interrupted
      ensures leave <==> Cur(old(st)).extra == 0 || Signed(Cur(old(st))) < 0
      ensures !leave ==> st == Apply(old(st), Expire(n))
      ensures leave ==>
                var k := LastBlock(Cur(old(st)), tail);
                && st.ran == old(st).ran + k && st.budget == old(st).budget
                && st == if k > 0 then Apply(Apply(old(st), Expire(n)), Exec(k)) else Apply(old(st), Expire(n))
    {
      hide IsRun;
      LastInv(run, events, cpus);
      var d := Cur(st);
      var left := Signed(d);
      if d.extra != 0 && left >= 0 {
        var extra := d.extra + left;
        left := if extra > LOW_MAX then LOW_MAX else extra;
        extra := extra - left;
        st := SetCur(st, d.(low := left, extra := extra)).(last := 0);
        Record(Expire(n));
        return false;
      }
      st := st.(last := 0);
      Record(Expire(n));
      if left > 0 {
        var k := if tail < left then tail else left;
        st := Apply(st, Exec(k));
        Record(Exec(k));
      }
      return true;
    }

    /** The CPU loop for what the guest does: each step is taken if it can happen; an expiry that
        cannot be refilled ends the loop. */
    method CpuExec(script: seq<Event>, tail: nat)
      requires Valid() && Running(st) && tail > 0
      modifies this
      ensures Valid() && st.current == old(st).current && |st.cpus| == |old(st).cpus|
      ensures st == Play(old(st), script, tail)
    {
      hide IsRun;
      for i := 0 to |script|
        invariant Valid() && st.current == old(st).current && |st.cpus| == |old(st).cpus|
        invariant Play(st, script[i..], tail) == Play(old(st), script, tail)
      {
        LastInv(run, events, cpus);
        var e := script[i];
        assert script[i..][0] == e && script[i..][1..] == script[i + 1..];
        if (e.Exec? || e.Restore? || e.Interrupt?) && Enabled(st, e) {
          st := Apply(st, e);
          Record(e);
        } else if e.Expire? && Enabled(st, e) {
          var leave := Expired(e.n, tail);
          if leave {
            return;
          }
        }
      }
    }

    /** qemu_cpu_exec: whatever the guest does, the counter ends up higher by what was executed. */
    method QemuCpuExec(cpu: nat, count: nat, script: seq<Event>, tail: nat)
      requires tail > 0 && Valid() && cpu < |st.cpus| && st.current == -1
      modifies this
      ensures Valid() && st.current == -1
      ensures st.icount - old(st.icount) == st.executed - old(st.executed) + st.skipped - old(st.skipped)
      ensures st == Apply(Play(Apply(old(st), SetUp(cpu, count)), script, tail), FoldBack)
    {
      hide IsRun;
      LastInv(run, events, cpus);
      var d := st.cpus[cpu];
      var icount := st.icount - (d.low + d.extra) + count;
      var decr := if count > LOW_MAX then LOW_MAX else count;
      st := st.(icount := icount, cpus := st.cpus[cpu := d.(low := decr, extra := count - decr)],
                current := cpu, budget := count, ran := 0, last := 0);
      Record(SetUp(cpu, count));
      CpuExec(script, tail);
      d := Cur(st);
      st := SetCur(st, Decr(0, false, 0)).(icount := st.icount - (d.low + d.extra), current := -1);
      Record(FoldBack);
      LastInv(run, events, cpus);
    }

    method GetIcount(bias: int, shift: nat) returns (v: int)
      requires Valid()
      ensures v == bias + (st.executed + st.skipped) * Pow2(shift)
    {
      LastInv(run, events, cpus);
      var icount := st.icount;
      if st.current >= 0 {
        icount := icount - (Cur(st).low + Cur(st).extra);
      }
      return bias + icount * Pow2(shift);
    }
  }
}
