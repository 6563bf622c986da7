/**
 The free queue of the hash table with many threads (ofcdriver/include/mchash.h, lines 304 to 313 and 399 to
 409), in every run, unstable ones included.
 */
module TableQueue {
  import opened Common
  import opened TableProtocol

  /** An append gets its slot. */
  predicate Gets(s: State, step: Step) {
    step.Go? && step.t < |s.pcs| && s.pcs[step.t].AppPop? && s.freeQ != []
  }

  /** A delete gives its slot back. */
  predicate Frees(s: State, step: Step) {
    step.Go? && step.t < |s.pcs| && s.pcs[step.t].DelPush?
  }

  lemma GetQueue(s: State, t: nat, pos: nat)
    requires Enabled(s, Go(t, pos)) && Gets(s, Go(t, pos))
    ensures var d := DoGo(s, t, pos); (
              |d.pcs| == |s.pcs| && d.pcs[t].AppStore? && s.freeQ == [d.pcs[t].i] + d.freeQ)
  {
  }

  lemma FreeQueue(s: State, t: nat, pos: nat)
    requires Enabled(s, Go(t, pos)) && Frees(s, Go(t, pos))
    ensures DoGo(s, t, pos).freeQ == s.freeQ + [s.pcs[t].i]
  {
  }

  lemma TakeQueue(s: State, t: nat, pc: Pc, key: nat)
    requires t < |s.pcs|
    ensures TakeBucket(s, t, pc, key).freeQ == s.freeQ && TakeTable(s, t, pc).freeQ == s.freeQ
  {
  }

  lemma ClearQueue(s: State, t: nat, pos: nat)
    requires t < |s.pcs| && Clearing(s.pcs[t]) && Fits(s, s.pcs[t], pos)
    ensures Clear(s, t, s.pcs[t], pos).freeQ == s.freeQ
  {
  }

  lemma AppendQueue(s: State, t: nat, pos: nat)
    requires Enabled(s, Go(t, pos)) && InAppend(s.pcs[t]) && !Gets(s, Go(t, pos))
    ensures GoAppend(s, t, pos).freeQ == s.freeQ
  {
    match s.pcs[t]
    case AppLockTable(node, key) => TakeQueue(s, t, AppPop(node, key), key);
    case AppPop(node, key) => assert Pop(s, t, node, key).freeQ == s.freeQ;
    case AppStore(node, key, i) => assert Store(s, t, node, key, i).freeQ == s.freeQ;
    case AppLockBucket(node, key, i) => TakeQueue(s, t, AppLink(node, key, i), key);
    case AppLink(node, key, i) => assert LinkIn(s, t, node, key, i, pos).freeQ == s.freeQ;
    case AppKey(node, key, _) => assert StoreKey(s, t, node, key).freeQ == s.freeQ;
  }

  lemma DecideQueue(s: State, t: nat, pos: nat)
    requires Enabled(s, Go(t, pos)) && Deciding(s.pcs[t])
    ensures GoDecide(s, t, pos).freeQ == s.freeQ
  {
    match s.pcs[t]
    case DelLockBucket(node, key, i) => TakeQueue(s, t, DelCheck(node, key, i), key);
    case RefLockBucket(node, key, i) => TakeQueue(s, t, RefCheck(node, key, i), key);
    case DelClear(_, _, _) => ClearQueue(s, t, pos);
    case RefClear(_, _, _) => ClearQueue(s, t, pos);
    case DelCheck(node, key, _) => assert Miss(s, t, node, key).freeQ == s.freeQ;
    case RefCheck(node, key, _) => assert Miss(s, t, node, key).freeQ == s.freeQ;
  }

  lemma OtherQueue(s: State, step: Step)
    requires Enabled(s, step) && !Gets(s, step) && !Frees(s, step)
    ensures Do(s, step).freeQ == s.freeQ
  {
    if step.Go? {
      if InAppend(s.pcs[step.t]) {
        AppendQueue(s, step.t, step.pos);
      } else if Deciding(s.pcs[step.t]) {
        DecideQueue(s, step.t, step.pos);
      }
    }
  }

  /** The slots that the first k steps gave to appends. */
  function Given(states: seq<State>, steps: seq<Step>, k: nat): (r: seq<nat>)
    requires k <= |steps| < |states|
  {
    if k == 0 then [] else
      var s, step, d := states[k - 1], steps[k - 1], states[k];
      Given(states, steps, k - 1) +
      if Gets(s, step) && step.t < |d.pcs| && d.pcs[step.t].AppStore? then [d.pcs[step.t].i] else []
  }

  /** The slots that deletes gave back in the first k steps. */
  function Freed(states: seq<State>, steps: seq<Step>, k: nat): (r: seq<nat>)
    requires k <= |steps| < |states|
  {
    if k == 0 then [] else
      Freed(states, steps, k - 1) +
      if Frees(states[k - 1], steps[k - 1]) then [states[k - 1].pcs[steps[k - 1].t].i] else []
  }

  lemma Shift(a: seq<nat>, x: nat, b: seq<nat>)
    ensures a + ([x] + b) == a + [x] + b
  {
  }

  /**
   First in, first out: the slots given out so far and those still free are the slots of the table in order
   and then those given back, in the order in which deletes pushed them.
   */
  lemma {:induction false} SlotsGoInTurn(states: seq<State>, steps: seq<Step>, k: nat)
    requires IsRun(states, steps) && k <= |steps|
    ensures Given(states, steps, k) + states[k].freeQ
         == seq(|states[0].slots|, i => i) + Freed(states, steps, k)
  {
    if k == 0 {
      assert [] + states[0].freeQ == states[0].freeQ == states[0].freeQ + [];
    } else {
      SlotsGoInTurn(states, steps, k - 1);
      TurnStep(states, steps, k - 1, seq(|states[0].slots|, i => i));
    }
  }

  lemma TurnStep(states: seq<State>, steps: seq<Step>, k: nat, all: seq<nat>)
    requires IsRun(states, steps) && k < |steps|
    requires Given(states, steps, k) + states[k].freeQ == all + Freed(states, steps, k)
    ensures Given(states, steps, k + 1) + states[k + 1].freeQ == all + Freed(states, steps, k + 1)
  {
    var s, step, d := states[k], steps[k], states[k + 1];
    var given, freed := Given(states, steps, k), Freed(states, steps, k);
    assert Enabled(s, step) && d == Do(s, step);
    assert given + [] == given && freed + [] == freed;
    if Gets(s, step) {
      GetQueue(s, step.t, step.pos);
      Shift(given, d.pcs[step.t].i, d.freeQ);
    } else if Frees(s, step) {
      FreeQueue(s, step.t, step.pos);
      assert given + (s.freeQ + [s.pcs[step.t].i]) == given + s.freeQ + [s.pcs[step.t].i];
      assert all + (freed + [s.pcs[step.t].i]) == all + freed + [s.pcs[step.t].i];
    } else {
      OtherQueue(s, step);
    }
  }
}
