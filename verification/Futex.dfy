/**
 The futex semaphore of ofcdriver/include/pspsem.h as a transition system: one word `count`,
 the kernel's set of threads asleep on it, and a program counter per thread.

 `rwlock_futex_down` and `rwlock_futex_up` have no definition under those names.  `Decrement`
 is the contract in the comments (decrement, return the new value); `guess` and `Peek` are the
 two liberties `__futex_down` of ofcdriver/ext/futex/i386.h takes: returning -1 for any new
 value other than 0, and returning a negative value it has read without decrementing it.

 `count` is a mathematical integer.  A 32-bit word would wrap after 2^31 decrements without a store;
 within the bound of 2^30 - 1 it never gets near.
 */
module Futex {
  import opened Common

  const FUTEX_PASSED: int := -(1024 * 1024 * 1024)

  /** Where a thread stands; `woken` is the local variable of futex_down_timeout. */
  datatype Pc =
    | Idle                            // outside, not holding
    | Down(woken: bool)               // at the loop test, about to call rwlock_futex_down
    | Wait(val: int, woken: bool)     // about to enter FUTEX_WAIT
    | Asleep(woken: bool)             // in the kernel's wait set
    | Woke                            // FUTEX_WAIT returned 0; about to read count
    | Passing                         // read count <= FUTEX_PASSED; about to store -1
    | Acquired                        // down returned 0 after a sleep; about to store -1
    | Trying                          // in futex_trydown
    | Holding                         // returned 0 to the caller
    | Releasing                       // in futex_up, about to call rwlock_futex_up
    | StoreOne                        // rwlock_futex_up failed; about to store 1
    | Waking                          // about to enter FUTEX_WAKE

  /** `decs` is a history variable: decrements since the last plain store to count. */
  datatype State = State(count: int, pcs: seq<Pc>, decs: nat)

  datatype Step =
    | CallDown(t: nat)
    | CallTry(t: nat)
    | CallUp(t: nat)
    | Decrement(t: nat, guess: bool)
    | Peek(t: nat)
    | Sleep(t: nat)
    | Retry(t: nat)                   // FUTEX_WAIT says EWOULDBLOCK
    | Fail(t: nat)                    // FUTEX_WAIT fails otherwise, before or during sleep (timeout)
    | ReadCount(t: nat)
    | StoreMinusOne(t: nat)
    | Increment(t: nat)
    | Store(t: nat)
    | WakeOne(t: nat, w: nat)
    | WakeNone(t: nat)

  ghost predicate Enabled(s: State, step: Step) {
    && step.t < |s.pcs|
    && var pc := s.pcs[step.t];
       match step
       case CallDown(_) => pc.Idle?
       case CallTry(_) => pc.Idle?
       case CallUp(_) => pc.Holding?
       case Decrement(_, _) => pc.Down? || pc.Trying?
       case Peek(_) => (pc.Down? || pc.Trying?) && s.count < 0
       case Sleep(_) => pc.Wait? && s.count == pc.val
       case Retry(_) => pc.Wait? && s.count != pc.val
       case Fail(_) => pc.Wait? || pc.Asleep?
       case ReadCount(_) => pc.Woke?
       case StoreMinusOne(_) => pc.Acquired? || pc.Passing?
       case Increment(_) => pc.Releasing?
       case Store(_) => pc.StoreOne?
       case WakeOne(_, w) => pc.Waking? && w < |s.pcs| && s.pcs[w].Asleep?
       case WakeNone(_) => pc.Waking? && forall w :: 0 <= w < |s.pcs| ==> !s.pcs[w].Asleep?
  }

  function At(s: State, t: nat, pc: Pc): State
    requires t < |s.pcs|
  {
    s.(pcs := s.pcs[t := pc])
  }

  /** What a thread does with the value rwlock_futex_down handed it. */
  function AfterDown(pc: Pc, val: int): Pc {
    if pc.Trying? then (if val == 0 then Holding else Idle)
    else if pc.Down? then (if val != 0 then Wait(val, pc.woken) else if pc.woken then Acquired else Holding)
    else pc
  }

  function Do(s: State, step: Step): State
    requires Enabled(s, step)
  {
    var t := step.t;
    var pc := s.pcs[t];
    match step
    case CallDown(_) => At(s, t, Down(false))
    case CallTry(_) => At(s, t, Trying)
    case CallUp(_) => At(s, t, Releasing)
    case Decrement(_, guess) =>
      var new_ := s.count - 1;
      At(s, t, AfterDown(pc, if guess && new_ != 0 then -1 else new_)).(count := new_, decs := s.decs + 1)
    case Peek(_) => At(s, t, AfterDown(pc, s.count))
    case Sleep(_) => At(s, t, Asleep(pc.woken))
    case Retry(_) => At(s, t, Down(pc.woken))
    case Fail(_) => At(s, t, Idle)
    case ReadCount(_) => At(s, t, if s.count <= FUTEX_PASSED then Passing else Down(true))
    case StoreMinusOne(_) => At(s, t, Holding).(count := -1, decs := 0)
    case Increment(_) => At(s, t, if s.count == 0 then Idle else StoreOne).(count := s.count + 1)
    case Store(_) => At(s, t, Waking).(count := 1, decs := 0)
    case WakeOne(_, w) => At(At(s, t, Idle), w, Woke)
    case WakeNone(_) => At(s, t, Idle)
  }

  /** futex_init: count 1, nobody inside. */
  ghost predicate Init(s: State) {
    s.count == 1 && s.decs == 0 && forall t :: 0 <= t < |s.pcs| ==> s.pcs[t].Idle?
  }

  // ---------- Holders ----------

  /** A thread holds from the down that took count to 0 until count is 1 again. */
  predicate Holds(pc: Pc) {
    pc.Acquired? || pc.Passing? || pc.Holding? || pc.Releasing? || pc.StoreOne?
  }

  function Holders(pcs: seq<Pc>): nat {
    if pcs == [] then 0 else B(Holds(pcs[0])) + Holders(pcs[1..])
  }

  lemma {:induction false} HoldersUpdate(pcs: seq<Pc>, t: nat, pc: Pc)
    requires t < |pcs|
    ensures Holders(pcs[t := pc]) == Holders(pcs) - B(Holds(pcs[t])) + B(Holds(pc))
  {
    if t == 0 {
      assert pcs[0 := pc][1..] == pcs[1..];
    } else {
      assert pcs[t := pc][1..] == pcs[1..][t - 1 := pc];
      HoldersUpdate(pcs[1..], t - 1, pc);
    }
  }

  lemma {:induction false} NoHolders(pcs: seq<Pc>)
    requires forall t :: 0 <= t < |pcs| ==> !Holds(pcs[t])
    ensures Holders(pcs) == 0
  {
    if pcs != [] {
      NoHolders(pcs[1..]);
    }
  }

  lemma {:induction false} HoldersAtLeast(pcs: seq<Pc>, t: nat, u: nat)
    requires t <= u < |pcs| && Holds(pcs[t]) && Holds(pcs[u])
    ensures Holders(pcs) >= if t == u then 1 else 2
  {
    if t > 0 {
      HoldersAtLeast(pcs[1..], t - 1, u - 1);
    } else if u > 0 {
      HoldersAtLeast(pcs[1..], u - 1, u - 1);
    }
  }

  lemma {:induction false} SomeHolder(pcs: seq<Pc>)
    requires Holders(pcs) > 0
    ensures exists t :: 0 <= t < |pcs| && Holds(pcs[t])
  {
    if !Holds(pcs[0]) {
      SomeHolder(pcs[1..]);
      var t :| 0 <= t < |pcs[1..]| && Holds(pcs[1..][t]);
      assert Holds(pcs[t + 1]);
    }
  }

  // ---------- Invariant ----------

  /** Fewer than 2^30 - 1 decrements since count was last stored. */
  predicate Bounded(s: State) {
    s.decs < 0x4000_0000 - 1
  }

  ghost predicate Exclusive(s: State) {
    && Holders(s.pcs) + B(s.count == 1) == 1
    && s.count <= 1
    && -1 - s.decs <= s.count
    && forall t :: 0 <= t < |s.pcs| ==> !s.pcs[t].Passing? && (s.pcs[t].Wait? ==> s.pcs[t].val < 0)
  }

  /** A thread that will look at count again, or wake somebody, without being woken first. */
  predicate Responsible(pc: Pc) {
    pc.Woke? || pc == Down(true) || pc.Acquired? || pc.StoreOne? || pc.Waking?
  }

  ghost predicate Attended(s: State) {
    (exists w :: 0 <= w < |s.pcs| && s.pcs[w].Asleep?) ==>
      s.count < 0 || exists t :: 0 <= t < |s.pcs| && Responsible(s.pcs[t])
  }

  ghost predicate Inv(s: State) {
    Exclusive(s) && Attended(s)
  }

  /** The step that mistakes a low count for a token passed on. */
  predicate Passes(s: State, step: Step) {
    step.ReadCount? && s.count <= FUTEX_PASSED
  }

  /** How many threads hold after a step. */
  lemma StepHolders(s: State, step: Step)
    requires Enabled(s, step)
    ensures var t, d := step.t, Do(s, step);
              Holders(d.pcs) == Holders(s.pcs) - B(Holds(s.pcs[t])) + B(Holds(d.pcs[t]))
  {
    var t := step.t;
    HoldersUpdate(s.pcs, t, Do(s, step).pcs[t]);
    if step.WakeOne? {
      HoldersUpdate(s.pcs, t, Idle);
      HoldersUpdate(At(s, t, Idle).pcs, step.w, Woke);
    }
  }

  lemma StepKeepsCount(s: State, step: Step)
    requires Exclusive(s) && Enabled(s, step) && !Passes(s, step)
    ensures var d := Do(s, step); Holders(d.pcs) + B(d.count == 1) == 1 && d.count <= 1 && -1 - d.decs <= d.count
  {
    StepHolders(s, step);
    if Holds(s.pcs[step.t]) {
      HoldersAtLeast(s.pcs, step.t, step.t);
    }
  }

  lemma StepKeepsPcs(s: State, step: Step, u: nat)
    requires Exclusive(s) && Enabled(s, step) && !Passes(s, step) && u < |s.pcs|
    ensures var pc := Do(s, step).pcs[u]; !pc.Passing? && (pc.Wait? ==> pc.val < 0)
  {
    if Holds(s.pcs[step.t]) {
      HoldersAtLeast(s.pcs, step.t, step.t);
    }
  }

  lemma StepKeepsExclusive(s: State, step: Step)
    requires Exclusive(s) && Enabled(s, step) && !Passes(s, step)
    ensures Exclusive(Do(s, step))
  {
    StepKeepsCount(s, step);
    forall u | 0 <= u < |s.pcs|
      ensures var pc := Do(s, step).pcs[u]; !pc.Passing? && (pc.Wait? ==> pc.val < 0)
    {
      StepKeepsPcs(s, step, u);
    }
  }

  /** No two threads hold. */
  ghost predicate AtMostOneHolds(s: State) {
    forall t, u :: 0 <= t < u < |s.pcs| ==> !(Holds(s.pcs[t]) && Holds(s.pcs[u]))
  }

  lemma ExclusiveMeans(s: State)
    requires Exclusive(s)
    ensures AtMostOneHolds(s)
  {
    forall t, u | 0 <= t < u < |s.pcs|
      ensures !(Holds(s.pcs[t]) && Holds(s.pcs[u]))
    {
      if Holds(s.pcs[t]) && Holds(s.pcs[u]) { HoldersAtLeast(s.pcs, t, u); }
    }
  }

  /** When a count is mistaken for a token, the thread holds beside the one that already did. */
  lemma PassingBreaksExclusion(s: State, step: Step)
    requires Exclusive(s) && Enabled(s, step) && Passes(s, step)
    ensures !AtMostOneHolds(Do(s, step))
  {
    var d := Do(s, step);
    SomeHolder(s.pcs);
    var u :| 0 <= u < |s.pcs| && Holds(s.pcs[u]);
    assert Holds(d.pcs[u]) && Holds(d.pcs[step.t]) && u != step.t;
    assert if u < step.t then Holds(d.pcs[u]) && Holds(d.pcs[step.t]) else Holds(d.pcs[step.t]) && Holds(d.pcs[u]);
  }

  /** From an exclusive state, a step leads to one where at most one thread holds exactly when it is not that one. */
  lemma StepKeepsExclusiveIff(s: State, step: Step)
    requires Exclusive(s) && Enabled(s, step)
    ensures Exclusive(Do(s, step)) <==> !Passes(s, step)
    ensures AtMostOneHolds(Do(s, step)) <==> !Passes(s, step)
  {
    if Passes(s, step) {
      PassingBreaksExclusion(s, step);
      if Exclusive(Do(s, step)) {
        ExclusiveMeans(Do(s, step));
      }
    } else {
      StepKeepsExclusive(s, step);
      ExclusiveMeans(Do(s, step));
    }
  }

  /** Fewer than 2^30 - 1 decrements keep the count above the token. */
  lemma BoundedNeverPasses(s: State, step: Step)
    requires Exclusive(s) && Bounded(s)
    ensures !Passes(s, step)
  {
  }

  /** A responsible thread is left if one was there and the step is no wake-up. */
  lemma ResponsibleStays(s: State, step: Step, r: nat)
    requires Enabled(s, step) && Exclusive(s) && !step.WakeOne? && !step.WakeNone? && r < |s.pcs|
    requires Responsible(s.pcs[r])
    requires Do(s, step).count >= 0 && s.count >= 0
    ensures exists u :: 0 <= u < |s.pcs| && Responsible(Do(s, step).pcs[u])
  {
    if Holds(s.pcs[step.t]) {
      HoldersAtLeast(s.pcs, step.t, step.t);
    }
    assert Responsible(Do(s, step).pcs[if r == step.t then step.t else r]);
  }

  lemma StepKeepsAttended(s: State, step: Step)
    requires Inv(s) && Enabled(s, step) && !Passes(s, step)
    ensures Attended(Do(s, step))
  {
    var d := Do(s, step);
    if w :| 0 <= w < |d.pcs| && d.pcs[w].Asleep? {
      if step.WakeOne? {
        assert Responsible(d.pcs[step.w]);
      } else if step.WakeNone? {
      } else if d.count >= 0 {
        SleeperWasAsleep(s, step, w);
        if s.count < 0 {
          CountRises(s, step);
        } else {
          var r :| 0 <= r < |s.pcs| && Responsible(s.pcs[r]);
          ResponsibleStays(s, step, r);
        }
      }
    }
  }

  lemma SleeperWasAsleep(s: State, step: Step, w: nat)
    requires Exclusive(s) && Enabled(s, step) && Do(s, step).count >= 0 && w < |s.pcs| && Do(s, step).pcs[w].Asleep?
    ensures s.pcs[w].Asleep?
  {
  }

  /** Only a releaser on the slow path brings a negative count back up. */
  lemma CountRises(s: State, step: Step)
    requires Exclusive(s) && Enabled(s, step) && s.count < 0 <= Do(s, step).count
    ensures Responsible(Do(s, step).pcs[step.t])
  {
  }

  // ---------- Whole runs ----------

  ghost predicate IsRun(states: seq<State>, steps: seq<Step>) {
    && |states| == |steps| + 1
    && Init(states[0])
    && forall i :: 0 <= i < |steps| ==> Enabled(states[i], steps[i]) && states[i + 1] == Do(states[i], steps[i])
  }

  /** Every state of the run has fewer than 2^30 - 1 decrements since the last store. */
  ghost predicate BoundedRun(states: seq<State>, steps: seq<Step>) {
    IsRun(states, steps) && forall i :: 0 <= i < |states| ==> Bounded(states[i])
  }

  /** No thread ever mistakes a low count for a token passed on. */
  ghost predicate NeverPasses(states: seq<State>, steps: seq<Step>) {
    IsRun(states, steps) && forall i :: 0 <= i < |steps| ==> !Passes(states[i], steps[i])
  }

  lemma {:induction false} RunInv(states: seq<State>, steps: seq<Step>, k: nat)
    requires NeverPasses(states, steps) && k <= |steps|
    ensures Inv(states[k])
  {
    if k == 0 {
      NoHolders(states[0].pcs);
    } else {
      RunInv(states, steps, k - 1);
      StepKeepsExclusive(states[k - 1], steps[k - 1]);
      StepKeepsAttended(states[k - 1], steps[k - 1]);
    }
  }

  lemma {:induction false} BoundedRunInv(states: seq<State>, steps: seq<Step>, k: nat)
    requires BoundedRun(states, steps) && k <= |steps|
    ensures Inv(states[k]) && forall i :: 0 <= i < k ==> !Passes(states[i], steps[i])
  {
    if k == 0 {
      NoHolders(states[0].pcs);
    } else {
      BoundedRunInv(states, steps, k - 1);
      BoundedNeverPasses(states[k - 1], steps[k - 1]);
      StepKeepsExclusive(states[k - 1], steps[k - 1]);
      StepKeepsAttended(states[k - 1], steps[k - 1]);
    }
  }

  /** Below the bound that never happens, so what holds of runs without it holds of bounded runs. */
  lemma BoundedRunsNeverPass(states: seq<State>, steps: seq<Step>)
    requires BoundedRun(states, steps)
    ensures NeverPasses(states, steps)
  {
    forall i | 0 <= i < |steps|
      ensures !Passes(states[i], steps[i])
    {
      BoundedRunInv(states, steps, i);
      BoundedNeverPasses(states[i], steps[i]);
    }
  }

  lemma {:induction false} ExclusiveRunNeverPasses(states: seq<State>, steps: seq<Step>, k: nat)
    requires IsRun(states, steps) && k <= |steps| && forall i :: 0 <= i <= k ==> AtMostOneHolds(states[i])
    ensures Exclusive(states[k]) && forall i :: 0 <= i < k ==> !Passes(states[i], steps[i])
  {
    if k == 0 {
      NoHolders(states[0].pcs);
    } else {
      ExclusiveRunNeverPasses(states, steps, k - 1);
      StepKeepsExclusiveIff(states[k - 1], steps[k - 1]);
    }
  }

  /** Exclusion holds throughout a run exactly when no thread in it mistakes a count for a token. */
  lemma ExclusionIffNeverPasses(states: seq<State>, steps: seq<Step>)
    requires IsRun(states, steps)
    ensures (forall k :: 0 <= k < |states| ==> AtMostOneHolds(states[k])) <==> NeverPasses(states, steps)
  {
    if NeverPasses(states, steps) {
      forall k | 0 <= k < |states|
        ensures AtMostOneHolds(states[k])
      {
        RunInv(states, steps, k);
        ExclusiveMeans(states[k]);
      }
    }
    if forall k :: 0 <= k < |states| ==> AtMostOneHolds(states[k]) {
      ExclusiveRunNeverPasses(states, steps, |steps|);
    }
  }

  /**
   Mutual exclusion.  At every moment of every bounded run either count is 1 and no thread holds,
   or count is not 1 and exactly one thread holds; and nobody takes the "passed" branch.
   */
  lemma MutualExclusion(states: seq<State>, steps: seq<Step>, k: nat)
    requires BoundedRun(states, steps) && k <= |steps|
    ensures states[k].count == 1 <==> forall t :: 0 <= t < |states[k].pcs| ==> !Holds(states[k].pcs[t])
    ensures AtMostOneHolds(states[k])
    ensures forall t :: 0 <= t < |states[k].pcs| ==> !states[k].pcs[t].Passing?
  {
    var pcs := states[k].pcs;
    BoundedRunInv(states, steps, k);
    if states[k].count == 1 {
      forall t | 0 <= t < |pcs|
        ensures !Holds(pcs[t])
      {
        if Holds(pcs[t]) { HoldersAtLeast(pcs, t, t); }
      }
    } else {
      SomeHolder(pcs);
    }
    ExclusiveMeans(states[k]);
  }

  /**
   No lost wakeup.  While any thread sleeps, either some thread is about to look at count again
   or to wake a sleeper, or count is negative and some thread holds: its release will find count
   negative and take the slow path.
   */
  lemma NoLostWakeup(states: seq<State>, steps: seq<Step>, k: nat, w: nat)
    requires NeverPasses(states, steps) && k <= |steps|
    requires w < |states[k].pcs| && states[k].pcs[w].Asleep?
    ensures
      || (exists t :: 0 <= t < |states[k].pcs| && Responsible(states[k].pcs[t]))
      || (states[k].count < 0 && exists t :: 0 <= t < |states[k].pcs| && Holds(states[k].pcs[t]))
  {
    RunInv(states, steps, k);
    if states[k].count < 0 {
      SomeHolder(states[k].pcs);
    }
  }

  /** When every thread is outside or asleep, none is asleep and the semaphore is free. */
  lemma QuiescentIsFree(states: seq<State>, steps: seq<Step>, k: nat)
    requires NeverPasses(states, steps) && k <= |steps|
    requires forall t :: 0 <= t < |states[k].pcs| ==> states[k].pcs[t].Idle? || states[k].pcs[t].Asleep?
    ensures states[k].count == 1
    ensures forall t :: 0 <= t < |states[k].pcs| ==> states[k].pcs[t].Idle?
  {
    RunInv(states, steps, k);
    NoHolders(states[k].pcs);
  }

  // ---------- The bound is exact ----------

  ghost predicate Reaches(s: State, bound: nat) {
    exists states, steps :: IsRunTo(states, steps, s, bound)
  }

  ghost predicate IsRunTo(states: seq<State>, steps: seq<Step>, s: State, bound: nat) {
    IsRun(states, steps) && states[|steps|] == s && forall i :: 0 <= i < |states| ==> states[i].decs <= bound
  }

  lemma Take(s: State, step: Step, bound: nat) returns (d: State)
    requires Reaches(s, bound) && Enabled(s, step) && Do(s, step).decs <= bound
    ensures d == Do(s, step) && Reaches(d, bound)
  {
    d := Do(s, step);
    var states, steps :| IsRunTo(states, steps, s, bound);
    assert IsRunTo(states + [d], steps + [step], d, bound);
  }

  /** n failing futex_trydown calls by one thread. */
  lemma {:induction false} FailingTries(s: State, t: nat, n: nat, bound: nat) returns (d: State)
    requires Reaches(s, bound) && t < |s.pcs| && s.pcs[t].Idle? && s.count <= 0 && s.decs + n <= bound
    ensures d == s.(count := s.count - n, decs := s.decs + n) && Reaches(d, bound)
    decreases n
  {
    d := s;
    if n > 0 {
      d := Take(d, CallTry(t), bound);
      d := Take(d, Decrement(t, false), bound);
      assert d.pcs == s.pcs;
      d := FailingTries(d, t, n - 1, bound);
    }
  }

  /** Thread 0 holds. */
  lemma OneHolds(bound: nat) returns (s: State)
    requires bound >= 3
    ensures s == State(0, [Holding, Idle, Idle, Idle], 1) && Reaches(s, bound)
  {
    s := State(1, [Idle, Idle, Idle, Idle], 0);
    assert IsRunTo([s], [], s, bound);
    s := Take(s, CallDown(0), bound);
    s := Take(s, Decrement(0, false), bound);
  }

  /** Thread t goes to sleep. */
  lemma FallAsleep(s: State, t: nat, bound: nat) returns (d: State)
    requires Reaches(s, bound) && t < |s.pcs| && s.pcs[t].Idle? && s.count <= 0 && s.decs + 1 <= bound
    ensures Reaches(d, bound) && d == State(s.count - 1, s.pcs[t := Asleep(false)], s.decs + 1)
  {
    d := Take(s, CallDown(t), bound);
    d := Take(d, Decrement(t, false), bound);
    d := Take(d, Sleep(t), bound);
    assert d.pcs == s.pcs[t := Asleep(false)];
  }

  /** Threads 1 and 2 go to sleep behind it. */
  lemma TwoAsleep(bound: nat) returns (s: State)
    requires bound >= 3
    ensures s == State(-2, [Holding, Asleep(false), Asleep(false), Idle], 3) && Reaches(s, bound)
  {
    s := OneHolds(bound);
    s := FallAsleep(s, 1, bound);
    s := FallAsleep(s, 2, bound);
  }

  /** Thread 0 releases with the count negative, which wakes sleeper w. */
  lemma SlowRelease(s: State, w: nat, bound: nat) returns (d: State)
    requires Reaches(s, bound) && 0 < w < |s.pcs| && s.pcs[0].Holding? && s.pcs[w].Asleep? && s.count < 0
    ensures d == State(1, s.pcs[0 := Idle][w := Woke], 0) && Reaches(d, bound)
  {
    assert s.decs <= bound by {
      var states, steps :| IsRunTo(states, steps, s, bound);
    }
    d := Take(s, CallUp(0), bound);
    d := Take(d, Increment(0), bound);
    d := Take(d, Store(0), bound);
    d := Take(d, WakeOne(0, w), bound);
    assert d.pcs == s.pcs[0 := Idle][w := Woke];
  }

  /** Two releases leave threads 1 and 2 woken but not yet running, with count back at 1. */
  lemma TwoWoken(bound: nat) returns (s: State)
    requires bound >= 3
    ensures s == State(1, [Idle, Woke, Woke, Idle], 0) && Reaches(s, bound)
  {
    s := TwoAsleep(bound);
    s := SlowRelease(s, 1, bound);
    s := Take(s, CallDown(0), bound);
    s := Take(s, Decrement(0, false), bound);
    s := FailingTries(s, 3, 1, bound);
    s := SlowRelease(s, 2, bound);
  }

  /**
   One decrement more than the bound of `Bounded` allows, and mutual exclusion fails: a woken
   thread mistakes the count for a passed token while another thread holds.
   */
  lemma OneMoreDecrementBreaksExclusion()
    ensures exists s :: Reaches(s, 0x4000_0000 - 1) && |s.pcs| > 2 && s.pcs[1] == Holding && s.pcs[2] == Holding
  {
    var bound := 0x4000_0000 - 1;
    var s := OneHoldsOneWoken(bound);
    s := FailingTries(s, 3, bound, bound);
    s := WokenPasses(s, bound);
  }

  /** Of the two, thread 1 takes the semaphore. */
  lemma OneHoldsOneWoken(bound: nat) returns (s: State)
    requires bound >= 3
    ensures s == State(-1, [Idle, Holding, Woke, Idle], 0) && Reaches(s, bound)
  {
    s := TwoWoken(bound);
    s := WokenAcquires(s, bound);
    assert s.pcs == [Idle, Holding, Woke, Idle];
  }

  /** A woken thread finds count at 1. */
  lemma WokenAcquires(s: State, bound: nat) returns (d: State)
    requires Reaches(s, bound) && |s.pcs| > 1 && s.pcs[1].Woke? && s.count == 1 && s.decs == 0 && bound >= 1
    ensures Reaches(d, bound) && d == State(-1, s.pcs[1 := Holding], 0)
  {
    d := Take(s, ReadCount(1), bound);
    d := Take(d, Decrement(1, false), bound);
    d := Take(d, StoreMinusOne(1), bound);
    assert d.pcs == s.pcs[1 := Holding];
  }

  /** And thread 2 reads a count as low as the token. */
  lemma WokenPasses(s: State, bound: nat) returns (d: State)
    requires Reaches(s, bound) && s.pcs == [Idle, Holding, Woke, Idle] && s.count <= FUTEX_PASSED && s.decs <= bound
    ensures Reaches(d, bound) && d.pcs == [Idle, Holding, Holding, Idle]
  {
    d := Take(s, ReadCount(2), bound);
    d := Take(d, StoreMinusOne(2), bound);
  }

  lemma ReachedHolds(s: State, bound: nat)
    requires Reaches(s, bound) && bound < 0x4000_0000 - 1
    ensures AtMostOneHolds(s)
  {
    var states, steps :| IsRunTo(states, steps, s, bound);
    BoundedRunInv(states, steps, |steps|);
    ExclusiveMeans(s);
  }

  lemma ReachesMore(s: State, bound: nat, more: nat)
    requires Reaches(s, bound) && bound <= more
    ensures Reaches(s, more)
  {
    var states, steps :| IsRunTo(states, steps, s, bound);
    assert IsRunTo(states, steps, s, more);
  }

  /**
   The bound is exact.  With at most b decrements between stores to count, exclusion holds in every run
   exactly when b is less than 2^30 - 1.
   */
  lemma BoundIsExact(b: nat)
    ensures (forall s :: Reaches(s, b) ==> AtMostOneHolds(s)) <==> b < 0x4000_0000 - 1
  {
    if b < 0x4000_0000 - 1 {
      forall s | Reaches(s, b)
        ensures AtMostOneHolds(s)
      {
        ReachedHolds(s, b);
      }
    } else {
      OneMoreDecrementBreaksExclusion();
      var s :| Reaches(s, 0x4000_0000 - 1) && |s.pcs| > 2 && s.pcs[1] == Holding && s.pcs[2] == Holding;
      ReachesMore(s, 0x4000_0000 - 1, b);
      assert Holds(s.pcs[1]) && Holds(s.pcs[2]);
      assert !AtMostOneHolds(s);
    }
  }
}
