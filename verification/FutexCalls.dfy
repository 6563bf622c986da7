/**
 What each call of the semaphore (ofcdriver/include/pspsem.h) comes to, whatever other threads do meanwhile:
 a futex_down that does not fail ends holding, a futex_trydown ends holding exactly when it found count at 1,
 and a futex_up sets count to 1 and wakes a sleeper if its slow path finds one.
 */
module FutexCalls {
  import opened Futex

  /** Only a wake-up moves a thread other than the one that steps. */
  lemma OthersStay(s: State, step: Step, u: nat)
    requires Enabled(s, step) && u < |s.pcs| && u != step.t
    ensures |Do(s, step).pcs| == |s.pcs|
    ensures Do(s, step).pcs[u] == s.pcs[u] || (s.pcs[u].Asleep? && Do(s, step).pcs[u] == Woke)
  {
  }

  lemma SameCount(states: seq<State>, steps: seq<Step>, k: nat)
    requires IsRun(states, steps) && k < |steps|
    ensures |states[k + 1].pcs| == |states[k].pcs|
  {
    assert Enabled(states[k], steps[k]) && states[k + 1] == Do(states[k], steps[k]);
  }

  lemma StandsOn(states: seq<State>, steps: seq<Step>, k: nat, t: nat, pc: Pc)
    requires IsRun(states, steps) && k < |steps| && steps[k].t != t
    requires t < |states[k].pcs| && states[k].pcs[t] == pc && !pc.Asleep?
    ensures t < |states[k + 1].pcs| && states[k + 1].pcs[t] == pc
  {
    assert Enabled(states[k], steps[k]) && states[k + 1] == Do(states[k], steps[k]);
    OthersStay(states[k], steps[k], t);
  }

  lemma SameThreads(states: seq<State>, steps: seq<Step>, i: nat, j: nat)
    requires IsRun(states, steps) && i <= j <= |steps|
    ensures |states[j].pcs| == |states[i].pcs|
  {
    forall k | 0 <= k < |steps|
      ensures |states[k + 1].pcs| == |states[k].pcs|
    {
      SameCount(states, steps, k);
    }
    Steady(seq(|states|, k requires 0 <= k < |states| => |states[k].pcs|), i, j);
  }

  lemma {:induction false} Steady(counts: seq<nat>, i: nat, j: nat)
    requires i <= j < |counts| && forall k :: 0 <= k < |counts| - 1 ==> counts[k + 1] == counts[k]
    ensures counts[j] == counts[i]
    decreases j
  {
    if i < j {
      Steady(counts, i, j - 1);
      assert counts[j - 1 + 1] == counts[j - 1];
    }
  }

  /** A thread that is not asleep stands still until its own next step. */
  lemma {:induction false} StandsStill(states: seq<State>, steps: seq<Step>, i: nat, j: nat, t: nat)
    requires IsRun(states, steps) && i <= j <= |steps| && t < |states[i].pcs| && !states[i].pcs[t].Asleep?
    requires forall h :: i <= h < j ==> steps[h].t != t
    ensures t < |states[j].pcs| && states[j].pcs[t] == states[i].pcs[t]
    decreases j
  {
    if i < j {
      StandsStill(states, steps, i, j - 1, t);
      StandsOn(states, steps, j - 1, t, states[i].pcs[t]);
    }
  }

  // ---------- futex_down ----------

  /** Inside futex_down, or holding after it. */
  predicate InDown(pc: Pc) {
    pc.Down? || pc.Wait? || pc.Asleep? || pc.Woke? || pc.Passing? || pc.Acquired? || pc.Holding?
  }

  /** The two ways out: the call fails, or the thread holds and releases. */
  predicate Leaves(s: State, step: Step, t: nat) {
    step == Fail(t) || (step == CallUp(t) && t < |s.pcs| && s.pcs[t].Holding?)
  }

  lemma StaysInDown(s: State, step: Step, t: nat)
    requires Enabled(s, step) && t < |s.pcs| && InDown(s.pcs[t]) && !Leaves(s, step, t)
    ensures t < |Do(s, step).pcs| && InDown(Do(s, step).pcs[t])
  {
    if step.t != t {
      OthersStay(s, step, t);
    }
  }

  lemma {:induction false} InDownUntil(states: seq<State>, steps: seq<Step>, i: nat, j: nat, t: nat)
    requires IsRun(states, steps) && i < j <= |steps| && steps[i] == CallDown(t)
    requires forall h :: i < h < j ==> !Leaves(states[h], steps[h], t)
    ensures t < |states[j].pcs| && InDown(states[j].pcs[t])
    decreases j
  {
    var s, step := states[j - 1], steps[j - 1];
    assert Enabled(s, step) && states[j] == Do(s, step);
    if i < j - 1 {
      InDownUntil(states, steps, i, j - 1, t);
      StaysInDown(s, step, t);
    }
  }

  /** After futex_down a thread is outside again only once the call has failed, or it has held and released. */
  lemma DownEndsHolding(states: seq<State>, steps: seq<Step>, i: nat, j: nat, t: nat)
    requires IsRun(states, steps) && i < j <= |steps| && steps[i] == CallDown(t)
    ensures t < |states[j].pcs|
    ensures states[j].pcs[t].Idle? ==> exists h :: i < h < j && Leaves(states[h], steps[h], t)
  {
    assert Enabled(states[i], steps[i]);
    SameThreads(states, steps, i, j);
    if forall h :: i < h < j ==> !Leaves(states[h], steps[h], t) {
      InDownUntil(states, steps, i, j, t);
    }
  }

  /** A call that fails leaves its thread outside, and the semaphore as it was. */
  lemma FailedIsOutside(states: seq<State>, steps: seq<Step>, j: nat, t: nat)
    requires IsRun(states, steps) && j < |steps| && steps[j] == Fail(t)
    ensures t < |states[j + 1].pcs| && states[j + 1].pcs[t].Idle? && states[j + 1].count == states[j].count
  {
    assert Enabled(states[j], steps[j]) && states[j + 1] == Do(states[j], steps[j]);
  }

  /** Steps that call rwlock_futex_down. */
  predicate Tries(step: Step) {
    step.Decrement? || step.Peek?
  }

  /** The try takes count from 1 to 0. */
  predicate Takes(s: State, step: Step) {
    step.Decrement? && s.count == 1
  }

  /** Step j is the next of thread t after step i. */
  ghost predicate NextOwn(states: seq<State>, steps: seq<Step>, i: nat, j: nat, t: nat) {
    && IsRun(states, steps) && i < j < |steps| && steps[i].t == t && steps[j].t == t
    && forall h :: i < h < j ==> steps[h].t != t
  }

  lemma BetweenOwn(states: seq<State>, steps: seq<Step>, i: nat, j: nat, t: nat)
    requires NextOwn(states, steps, i, j, t) && !steps[i].Sleep?
    ensures t < |states[i + 1].pcs| && t < |states[j].pcs| && states[j].pcs[t] == states[i + 1].pcs[t]
    ensures Enabled(states[j], steps[j]) && states[j + 1] == Do(states[j], steps[j])
    ensures Enabled(states[i], steps[i]) && states[i + 1] == Do(states[i], steps[i])
  {
    assert Enabled(states[i], steps[i]) && states[i + 1] == Do(states[i], steps[i]);
    assert !states[i + 1].pcs[t].Asleep?;
    StandsStill(states, steps, i + 1, j, t);
  }

  /** After the call, after EWOULDBLOCK and after a wake-up that was no token, the thread tries (again). */
  lemma DownTries(states: seq<State>, steps: seq<Step>, i: nat, j: nat, t: nat)
    requires NextOwn(states, steps, i, j, t)
    requires steps[i].CallDown? || steps[i].Retry? || (steps[i].ReadCount? && states[i].count > FUTEX_PASSED)
    ensures t < |states[j].pcs| && states[j].pcs[t].Down? && Tries(steps[j])
  {
    BetweenOwn(states, steps, i, j, t);
  }

  /**
   A try from inside futex_down takes the semaphore exactly when count was 1; a woken thread then has -1 to store.
   Else it goes to wait for the value it was given: the new count, a -1 in its place, or the negative count read.
   */
  lemma TryFromDown(s: State, step: Step)
    requires Enabled(s, step) && Tries(step) && s.pcs[step.t].Down?
    ensures var pc, d := Do(s, step).pcs[step.t], Do(s, step);
              if Takes(s, step) then pc == (if s.pcs[step.t].woken then Acquired else Holding) && d.count == 0
              else pc.Wait? && pc.val != 0 && pc.woken == s.pcs[step.t].woken
                   && (pc.val == d.count || (step.Decrement? && pc.val == -1))
  {
  }

  /** A woken thread that has taken the semaphore stores -1 and holds. */
  lemma AcquiredHolds(states: seq<State>, steps: seq<Step>, i: nat, j: nat, t: nat)
    requires NextOwn(states, steps, i, j, t) && Tries(steps[i]) && t < |states[i + 1].pcs|
    requires states[i + 1].pcs[t].Acquired?
    ensures steps[j].StoreMinusOne? && t < |states[j + 1].pcs| && states[j + 1].pcs[t].Holding?
    ensures states[j + 1].count == -1
  {
    BetweenOwn(states, steps, i, j, t);
  }

  /** Inside futex_down after a wake-up, the store of -1 still to come. */
  predicate MustStore(pc: Pc) {
    ((pc.Down? || pc.Wait? || pc.Asleep?) && pc.woken) || pc.Woke? || pc.Passing? || pc.Acquired?
  }

  ghost predicate StoresBetween(steps: seq<Step>, i: nat, j: nat, t: nat)
    requires j <= |steps|
  {
    exists g :: i < g < j && steps[g] == StoreMinusOne(t)
  }

  lemma StaysBound(s: State, step: Step, t: nat)
    requires Enabled(s, step) && t < |s.pcs| && MustStore(s.pcs[t]) && !Leaves(s, step, t)
    ensures t < |Do(s, step).pcs| && (MustStore(Do(s, step).pcs[t]) || step == StoreMinusOne(t))
  {
    if step.t != t {
      OthersStay(s, step, t);
    }
  }

  lemma BoundOn(states: seq<State>, steps: seq<Step>, i: nat, j: nat, t: nat)
    requires IsRun(states, steps) && i < j < |steps| && !Leaves(states[j], steps[j], t)
    requires t < |states[j].pcs| && (MustStore(states[j].pcs[t]) || StoresBetween(steps, i, j, t))
    ensures t < |states[j + 1].pcs| && (MustStore(states[j + 1].pcs[t]) || StoresBetween(steps, i, j + 1, t))
  {
    assert Enabled(states[j], steps[j]) && states[j + 1] == Do(states[j], steps[j]);
    if MustStore(states[j].pcs[t]) {
      StaysBound(states[j], steps[j], t);
    } else {
      SameThreads(states, steps, j, j + 1);
    }
  }

  lemma BoundFirst(states: seq<State>, steps: seq<Step>, i: nat, t: nat)
    requires IsRun(states, steps) && i < |steps| && steps[i] == ReadCount(t)
    ensures t < |states[i + 1].pcs| && MustStore(states[i + 1].pcs[t])
  {
    assert Enabled(states[i], steps[i]) && states[i + 1] == Do(states[i], steps[i]);
  }

  lemma {:induction false} BoundUntil(states: seq<State>, steps: seq<Step>, i: nat, j: nat, t: nat)
    requires IsRun(states, steps) && i < j <= |steps| && steps[i] == ReadCount(t)
    requires forall h :: i < h < j ==> !Leaves(states[h], steps[h], t)
    ensures t < |states[j].pcs| && (MustStore(states[j].pcs[t]) || StoresBetween(steps, i, j, t))
    decreases j
  {
    if i < j - 1 {
      BoundUntil(states, steps, i, j - 1, t);
      BoundOn(states, steps, i, j - 1, t);
    } else {
      BoundFirst(states, steps, i, t);
    }
  }

  /** A thread that has been woken holds only after it has stored -1: others may be asleep too. */
  lemma WokenStores(states: seq<State>, steps: seq<Step>, i: nat, j: nat, t: nat)
    requires IsRun(states, steps) && i < j <= |steps| && steps[i] == ReadCount(t)
    requires forall h :: i < h < j ==> !Leaves(states[h], steps[h], t)
    requires t < |states[j].pcs| && states[j].pcs[t].Holding?
    ensures StoresBetween(steps, i, j, t)
  {
    BoundUntil(states, steps, i, j, t);
  }

  // ---------- futex_trydown ----------

  /** futex_trydown tries once, and then holds exactly when count was 1; otherwise it is outside. */
  lemma TryDownHoldsIff(states: seq<State>, steps: seq<Step>, i: nat, j: nat, t: nat)
    requires NextOwn(states, steps, i, j, t) && steps[i].CallTry?
    ensures Tries(steps[j]) && t < |states[j + 1].pcs|
    ensures states[j + 1].pcs[t] == if Takes(states[j], steps[j]) then Holding else Idle
  {
    BetweenOwn(states, steps, i, j, t);
  }

  // ---------- futex_up ----------

  /** The increment found nobody waiting. */
  predicate FreesFast(s: State, step: Step, t: nat) {
    step == Increment(t) && s.count == 0
  }

  predicate Wakes(s: State, step: Step, t: nat) {
    step == WakeNone(t) || (step.WakeOne? && step.t == t)
  }

  lemma UpStep(s: State, step: Step, t: nat)
    requires Enabled(s, step) && t < |s.pcs| && (s.pcs[t].Releasing? || s.pcs[t].StoreOne? || s.pcs[t].Waking?)
    ensures |Do(s, step).pcs| == |s.pcs|
    ensures var pc, d := s.pcs[t], Do(s, step); (
              && (step.t != t ==> d.pcs[t] == pc)
              && (step.t == t && pc.Releasing? ==>
                    step.Increment? && if s.count == 0 then d.pcs[t].Idle? && d.count == 1 else d.pcs[t].StoreOne?)
              && (step.t == t && pc.StoreOne? ==> step.Store? && d.pcs[t].Waking? && d.count == 1)
              && (step.t == t && pc.Waking? ==> Wakes(s, step, t) && d.pcs[t].Idle?))
  {
    if step.t != t {
      OthersStay(s, step, t);
    }
  }

  /** How far a release that began at step i has come by state j. */
  ghost predicate Released(states: seq<State>, steps: seq<Step>, i: nat, j: nat, t: nat)
    requires |steps| < |states| && j <= |steps|
  {
    || (exists h :: i < h < j && FreesFast(states[h], steps[h], t) && states[h + 1].count == 1)
    || (exists g, h :: i < g < h < j && Stored(states, steps, g, t) && Wakes(states[h], steps[h], t))
  }

  ghost predicate Stored(states: seq<State>, steps: seq<Step>, g: nat, t: nat)
    requires g < |steps| < |states|
  {
    steps[g] == Store(t) && states[g + 1].count == 1
  }

  ghost predicate Releases(states: seq<State>, steps: seq<Step>, i: nat, j: nat, t: nat)
    requires |steps| < |states| && j <= |steps|
  {
    t < |states[j].pcs| &&
    var pc := states[j].pcs[t];
    || pc.Releasing? || pc.StoreOne? || (pc.Waking? && exists g :: i < g < j && Stored(states, steps, g, t))
    || Released(states, steps, i, j, t)
  }

  lemma ReleasesOn(states: seq<State>, steps: seq<Step>, i: nat, j: nat, t: nat)
    requires IsRun(states, steps) && i < j < |steps| && Releases(states, steps, i, j, t)
    ensures Releases(states, steps, i, j + 1, t)
  {
    var s, step, pc := states[j], steps[j], states[j].pcs[t];
    assert Enabled(s, step) && states[j + 1] == Do(s, step);
    if !Released(states, steps, i, j, t) {
      UpStep(s, step, t);
      if step.t == t && pc.Releasing? && s.count == 0 {
        assert FreesFast(states[j], steps[j], t);
      } else if step.t == t && pc.StoreOne? {
        assert Stored(states, steps, j, t);
      } else if step.t == t && pc.Waking? {
        var g :| i < g < j && Stored(states, steps, g, t);
        assert Stored(states, steps, g, t) && Wakes(states[j], steps[j], t);
      }
    }
  }

  lemma ReleaseBegins(states: seq<State>, steps: seq<Step>, i: nat, t: nat)
    requires IsRun(states, steps) && i < |steps| && steps[i] == CallUp(t)
    ensures t < |states[i + 1].pcs| && states[i + 1].pcs[t].Releasing?
  {
    assert Enabled(states[i], steps[i]) && states[i + 1] == Do(states[i], steps[i]);
  }

  lemma {:induction false} ReleasesUntil(states: seq<State>, steps: seq<Step>, i: nat, j: nat, t: nat)
    requires IsRun(states, steps) && i < j <= |steps| && steps[i] == CallUp(t)
    ensures Releases(states, steps, i, j, t)
    decreases j
  {
    if i + 1 < j {
      ReleasesUntil(states, steps, i, j - 1, t);
      ReleasesOn(states, steps, i, j - 1, t);
    } else {
      ReleaseBegins(states, steps, i, t);
    }
  }

  /**
   A thread that has called futex_up is outside again only after count went from 0 to 1, or after it stored 1
   and then woke a sleeper or found none.
   */
  lemma UpFrees(states: seq<State>, steps: seq<Step>, i: nat, j: nat, t: nat)
    requires IsRun(states, steps) && i < j <= |steps| && steps[i] == CallUp(t)
    ensures t < |states[j].pcs| && (states[j].pcs[t].Idle? ==> Released(states, steps, i, j, t))
  {
    ReleasesUntil(states, steps, i, j, t);
    assert Enabled(states[i], steps[i]);
    SameThreads(states, steps, i, j);
  }

  /** A wake-up wakes one sleeper if there is one. */
  lemma WakeWakes(s: State, step: Step, t: nat)
    requires Enabled(s, step) && Wakes(s, step, t)
    ensures (exists w :: 0 <= w < |s.pcs| && s.pcs[w].Asleep?) <==>
            exists w :: 0 <= w < |s.pcs| && s.pcs[w].Asleep? && w < |Do(s, step).pcs| && Do(s, step).pcs[w] == Woke
  {
    if step.WakeOne? {
      assert s.pcs[step.w].Asleep? && Do(s, step).pcs[step.w] == Woke;
    }
  }
}
