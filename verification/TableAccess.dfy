/**
 Accesses by safe reference while other threads append and delete: MCHASH_ACCESS_NODE
 (ofcdriver/include/mchash.h, lines 341 to 350) takes no lock and makes two loads, the magic and then
 node_p, which are separate steps of TableProtocol.
 */
module TableAccess {
  import opened Common
  import opened Magic
  import opened TableProtocol
  import opened TableRaces

  // ---------- A reference and its node ----------

  /** A step that takes a slot from the free queue and gives it a magic. */
  predicate Allocates(s: State, step: Step) {
    step.Go? && step.t < |s.pcs| && s.pcs[step.t].AppPop? && s.freeQ != []
  }

  /** How many of the steps from p on and before k do. */
  function Allocations(states: seq<State>, steps: seq<Step>, p: nat, k: nat): (r: nat)
    requires p <= k <= |steps| < |states|
    decreases k
  {
    if k == p then 0
    else Allocations(states, steps, p, k - 1) + if Allocates(states[k - 1], steps[k - 1]) then 1 else 0
  }

  lemma LastAllocation(states: seq<State>, steps: seq<Step>, p: nat, k: nat)
    requires p < k <= |steps| < |states|
    ensures Allocations(states, steps, p, k)
         == if Allocates(states[k - 1], steps[k - 1]) then Allocations(states, steps, p, k - 1) + 1
            else Allocations(states, steps, p, k - 1)
  {
  }

  /** Slot i is in the hands of n: it holds n, or the append of n is about to put it there. */
  ghost predicate HasSlot(s: State, i: nat, n: Node)
    requires i < |s.owner| && n in s.appender
  {
    s.owner[i] == Linked(n) || (n !in s.links && s.owner[i] == Appending(s.appender[n]))
  }

  /** (i, m) is the reference of n: the slot shows that magic exactly while n has it. */
  ghost predicate Refers(s: State, i: nat, m: nat, n: Node) {
    && i < |s.slots| == |s.owner| && m != 0 && Allocated(s, i, n)
    && (s.slots[i].magic == m <==> HasSlot(s, i, n))
  }

  lemma QuietKeepsRefers(s: State, d: State, t: nat, i: nat, m: nat, n: Node)
    requires Refers(s, i, m, n) && Quiet(s, d, t)
    ensures Refers(d, i, m, n) && d.magicNo == s.magicNo
  {
  }

  lemma ClearKeepsRefers(s: State, d: State, t: nat, i: nat, m: nat, n: Node)
    requires Refers(s, i, m, n) && Clears(s, d, t)
    ensures Refers(d, i, m, n) && d.magicNo == s.magicNo
  {
  }

  lemma LinkKeepsRefers(s: State, d: State, t: nat, pos: nat, i: nat, m: nat, n: Node)
    requires Slots(s) && Refers(s, i, m, n) && Links(s, d, t, pos)
    ensures Refers(d, i, m, n) && d.magicNo == s.magicNo
  {
    assert GoodSlot(s, i);
  }

  lemma PopKeepsRefers(s: State, d: State, t: nat, node: Node, key: nat, i: nat, m: nat, n: Node)
    requires Refers(s, i, m, n) && t < |s.pcs| && s.pcs[t] == AppPop(node, key) && QueueFits(s)
    requires d == Pop(s, t, node, key)
    requires s.freeQ != [] ==> s.magicNo != m && s.owner[s.freeQ[0]] == Free
    ensures Refers(d, i, m, n) && d.magicNo == if s.freeQ == [] then s.magicNo else NextMagic(s.magicNo)
  {
  }

  lemma StoreKeepsRefers(s: State, d: State, t: nat, node: Node, key: nat, j: nat, i: nat, m: nat, n: Node)
    requires Refers(s, i, m, n) && t < |s.pcs| && s.pcs[t] == AppStore(node, key, j) && j < |s.slots|
    requires d == Store(s, t, node, key, j)
    ensures Refers(d, i, m, n) && d.magicNo == s.magicNo
  {
  }

  lemma PushKeepsRefers(s: State, d: State, t: nat, node: Node, j: nat, retire: bool, i: nat, m: nat, n: Node)
    requires Refers(s, i, m, n) && t < |s.pcs| && s.pcs[t] == DelPush(node, j, retire) && j < |s.owner|
    requires s.owner[j] == Deleting(t) && d == Push(s, t, node, j, retire)
    ensures Refers(d, i, m, n) && d.magicNo == s.magicNo
  {
  }

  lemma RetireKeepsRefers(s: State, d: State, t: nat, node: Node, i: nat, m: nat, n: Node)
    requires Refers(s, i, m, n) && t < |s.pcs| && s.pcs[t] == DelRetire(node) && d == Retire(s, t, node)
    ensures Refers(d, i, m, n) && d.magicNo == s.magicNo
  {
  }

  lemma GoKeepsRefers(s: State, t: nat, pos: nat, i: nat, m: nat, n: Node)
    requires Inv(s) && Enabled(s, Go(t, pos)) && Stable(s, Go(t, pos)) && Refers(s, i, m, n)
    requires Allocates(s, Go(t, pos)) ==> s.magicNo != m
    ensures Refers(DoGo(s, t, pos), i, m, n)
    ensures DoGo(s, t, pos).magicNo == if Allocates(s, Go(t, pos)) then NextMagic(s.magicNo) else s.magicNo
  {
    var d, pc := DoGo(s, t, pos), s.pcs[t];
    if GoesQuietly(pc) {
      GoIsQuiet(s, t, pos);
      QuietKeepsRefers(s, d, t, i, m, n);
    } else if Clearing(pc) {
      GoClears(s, t, pos);
      ClearKeepsRefers(s, d, t, i, m, n);
    } else if pc.AppLink? {
      GoLinks(s, t, pos);
      LinkKeepsRefers(s, d, t, pos, i, m, n);
    } else {
      GoSlotKeepsRefers(s, t, pos, i, m, n);
    }
  }

  lemma GoSlotKeepsRefers(s: State, t: nat, pos: nat, i: nat, m: nat, n: Node)
    requires Slots(s) && Threads(s) && Enabled(s, Go(t, pos)) && Refers(s, i, m, n)
    requires Allocates(s, Go(t, pos)) ==> s.magicNo != m
    requires s.pcs[t].AppPop? || s.pcs[t].AppStore? || s.pcs[t].DelPush? || s.pcs[t].DelRetire?
    ensures Refers(DoGo(s, t, pos), i, m, n)
    ensures DoGo(s, t, pos).magicNo == if Allocates(s, Go(t, pos)) then NextMagic(s.magicNo) else s.magicNo
  {
    var d, pc := DoGo(s, t, pos), s.pcs[t];
    assert GoodThread(s, t);
    if pc.AppPop? {
      assert s.freeQ != [] ==> s.freeQ[0] in s.freeQ;
      PopKeepsRefers(s, d, t, pc.node, pc.key, i, m, n);
    } else if pc.AppStore? {
      StoreKeepsRefers(s, d, t, pc.node, pc.key, pc.i, i, m, n);
    } else if pc.DelPush? {
      PushKeepsRefers(s, d, t, pc.node, pc.i, pc.retire, i, m, n);
    } else {
      RetireKeepsRefers(s, d, t, pc.node, i, m, n);
    }
  }

  lemma StepKeepsRefers(s: State, step: Step, i: nat, m: nat, n: Node)
    requires Inv(s) && Enabled(s, step) && Stable(s, step) && Refers(s, i, m, n)
    requires Allocates(s, step) ==> s.magicNo != m
    ensures Refers(Do(s, step), i, m, n)
    ensures Do(s, step).magicNo == if Allocates(s, step) then NextMagic(s.magicNo) else s.magicNo
  {
    if step.Go? {
      GoKeepsRefers(s, step.t, step.pos, i, m, n);
    } else {
      CallIsQuiet(s, step);
      QuietKeepsRefers(s, Do(s, step), step.t, i, m, n);
    }
  }

  /** Step p of the run takes slot i for node n and gives it magic m. */
  ghost predicate Gets(states: seq<State>, steps: seq<Step>, p: nat, i: nat, m: nat, n: Node)
    requires p < |steps| < |states|
  {
    && Allocates(states[p], steps[p]) && states[p].pcs[steps[p].t].node == n
    && i == states[p].freeQ[0] && m == states[p].magicNo
  }

  lemma GetsRefers(s: State, t: nat, pos: nat)
    requires Slots(s) && Threads(s) && Enabled(s, Go(t, pos)) && Allocates(s, Go(t, pos))
    ensures Refers(DoGo(s, t, pos), s.freeQ[0], s.magicNo, s.pcs[t].node)
    ensures DoGo(s, t, pos).magicNo == NextMagic(s.magicNo)
  {
    assert GoodThread(s, t);
    assert s.freeQ[0] in s.freeQ;
  }

  /** The step that gives out m. */
  lemma FirstRefers(s: State, step: Step)
    requires Inv(s) && Enabled(s, step) && Allocates(s, step)
    ensures Refers(Do(s, step), s.freeQ[0], s.magicNo, s.pcs[step.t].node)
    ensures Do(s, step).magicNo == MagicAfter(s.magicNo, 1)
  {
    GetsRefers(s, step.t, step.pos);
    assert MagicAfter(s.magicNo, 0) == s.magicNo;
  }

  /** One step on, with a allocations since the one that gave out m. */
  lemma StepRefers(s: State, step: Step, i: nat, m: nat, n: Node, a: nat)
    requires Inv(s) && Enabled(s, step) && Stable(s, step) && Refers(s, i, m, n)
    requires 1 <= m < UINT32 && s.magicNo == MagicAfter(m, a + 1) && (Allocates(s, step) ==> a + 1 < UINT32 - 1)
    ensures Refers(Do(s, step), i, m, n)
    ensures Do(s, step).magicNo == MagicAfter(m, (if Allocates(s, step) then a + 1 else a) + 1)
  {
    if Allocates(s, step) {
      MagicIsNew(m, a + 1);
    }
    StepKeepsRefers(s, step, i, m, n);
  }

  /** Fewer than 2^32 - 1 allocations after the one that gave n its reference, the reference still tells. */
  lemma {:induction false} RefersInRun(states: seq<State>, steps: seq<Step>, p: nat, k: nat, i: nat, m: nat, n: Node,
      a: nat)
    requires StableRun(states, steps) && p < k <= |steps| && Gets(states, steps, p, i, m, n)
    requires a == Allocations(states, steps, p + 1, k) < UINT32 - 1
    ensures Refers(states[k], i, m, n) && 1 <= m < UINT32 && states[k].magicNo == MagicAfter(m, a + 1)
    decreases k
  {
    var s, step := states[k - 1], steps[k - 1];
    RunInv(states, steps, k - 1);
    if k == p + 1 {
      FirstRefers(s, step);
    } else {
      var b := Allocations(states, steps, p + 1, k - 1);
      LastAllocation(states, steps, p + 1, k);
      RefersInRun(states, steps, p, k - 1, i, m, n, b);
      StepRefers(s, step, i, m, n, b);
      assert states[k] == Do(s, step);
    }
  }

  // ---------- Accesses ----------

  /** What the slot of a node with a finished append tells of it. */
  lemma SlotTells(s: State, i: nat, n: Node)
    requires Slots(s) && Nodes(s) && Threads(s) && i < |s.slots| && n in s.links && s.links[n].index == i
    ensures n in s.wins && (s.owner[i] == Linked(n) <==> s.wins[n] == [])
    ensures s.slots[i].node == Some(n) <==> s.wins[n] == []
  {
    assert GoodNode(s, n);
    assert GoodSlot(s, i);
    assert s.owner[i].Appending? ==> GoodThread(s, s.owner[i].t);
  }

  /** A thread stands still while others step, and a link stays. */
  lemma {:induction false} StaysPut(states: seq<State>, steps: seq<Step>, k: nat, j: nat, t: nat, n: Node)
    requires |states| == |steps| + 1 && k <= j <= |steps| && t < |states[k].pcs| && n in states[k].links
    requires forall h :: k <= h < j ==> OnlyMoves(states[h], states[h + 1], steps[h].t) && steps[h].t != t
    ensures t < |states[j].pcs| && states[j].pcs[t] == states[k].pcs[t]
    ensures n in states[j].links && states[j].links[n] == states[k].links[n]
    decreases j
  {
    if k < j {
      StaysPut(states, steps, k, j - 1, t, n);
    }
  }

  lemma RunMoves(states: seq<State>, steps: seq<Step>, k: nat)
    requires StableRun(states, steps) && k < |steps|
    ensures OnlyMoves(states[k], states[k + 1], steps[k].t)
  {
    RunInv(states, steps, k);
    StepMoves(states[k], steps[k]);
  }

  /**
   The comparison.  For the reference of a node whose append has finished, and fewer than 2^32 - 1
   allocations later, an access goes on to read node_p exactly when no delete of the node has succeeded.
   */
  lemma AccessCompares(states: seq<State>, steps: seq<Step>, p: nat, k: nat, t: nat, i: nat, m: nat, n: Node)
    requires StableRun(states, steps) && p < k < |steps| && Gets(states, steps, p, i, m, n)
    requires Allocations(states, steps, p + 1, k) < UINT32 - 1
    requires steps[k] == CallAccess(t, i, m) && n in states[k].links
    ensures n in states[k].wins && states[k].links[n].index == i && t < |states[k + 1].pcs|
    ensures states[k + 1].pcs[t] == if states[k].wins[n] == [] then AccRead(i, m) else Idle
  {
    RunInv(states, steps, k);
    RefersInRun(states, steps, p, k, i, m, n, Allocations(states, steps, p + 1, k));
    SlotTells(states[k], i, n);
  }

  /**
   The whole access.  It returns TRUE exactly when no delete of the node had succeeded at the comparison, and
   then the node exactly when none had at the load of node_p; a delete in between leaves it a null pointer or
   the slot's next node.
   */
  lemma AccessIsRightIff(states: seq<State>, steps: seq<Step>, p: nat, k: nat, j: nat, t: nat, i: nat, m: nat, n: Node)
    requires StableRun(states, steps) && p < k < j < |steps| && Gets(states, steps, p, i, m, n)
    requires Allocations(states, steps, p + 1, k) < UINT32 - 1
    requires steps[k] == CallAccess(t, i, m) && n in states[k].links
    requires steps[j].Go? && steps[j].t == t && forall h :: k < h < j ==> steps[h].t != t
    ensures n in states[k].wins && states[k].wins[n] == [] && n in states[j].wins && t < |states[j + 1].pcs|
    ensures states[j + 1].pcs[t].Accessed? && states[j + 1].pcs[t].i == i && states[j + 1].pcs[t].m == m
    ensures states[j + 1].pcs[t].found == Some(n) <==> states[j].wins[n] == []
  {
    AccessCompares(states, steps, p, k, t, i, m, n);
    WaitsToLoad(states, steps, k, j, t, n);
    RunInv(states, steps, j);
    LoadTells(states[j], steps[j], i, m, n);
  }

  /** From the comparison to the load. */
  lemma WaitsToLoad(states: seq<State>, steps: seq<Step>, k: nat, j: nat, t: nat, n: Node)
    requires StableRun(states, steps) && k < j <= |steps| && t < |states[k].pcs| && n in states[k].links
    requires forall h :: k < h < j ==> steps[h].t != t
    ensures t < |states[k + 1].pcs| && t < |states[j].pcs| && states[j].pcs[t] == states[k + 1].pcs[t]
    ensures n in states[j].links && states[j].links[n] == states[k].links[n]
  {
    RunMoves(states, steps, k);
    forall h | k < h < j
      ensures OnlyMoves(states[h], states[h + 1], steps[h].t)
    {
      RunMoves(states, steps, h);
    }
    StaysPut(states, steps, k + 1, j, t, n);
  }

  /** The load of node_p. */
  lemma LoadTells(s: State, step: Step, i: nat, m: nat, n: Node)
    requires Inv(s) && Enabled(s, step) && step.Go? && n in s.links && s.links[n].index == i
    requires s.pcs[step.t] == AccRead(i, m) || s.pcs[step.t].Idle?
    ensures s.pcs[step.t] == AccRead(i, m) && n in s.wins && |Do(s, step).pcs| == |s.pcs|
    ensures var pc := Do(s, step).pcs[step.t];
              pc.Accessed? && pc.i == i && pc.m == m && (pc.found == Some(n) <==> s.wins[n] == [])
  {
    SlotTells(s, i, n);
  }

  // ---------- Accesses that a delete overtakes ----------

  /** Thread 0's comparison succeeds on the reference (0, 1) of node 7. */
  lemma CompareSeven() returns (s: State)
    ensures Reaches(s) && OnlySeven(s, AccRead(0, 1)) && s.magicNo == 2 && 8 !in s.appender
  {
    s := OneAppended();
    s := Take(s, CallAccess(0, 0, 1));
    assert s.pcs == [AccRead(0, 1), Idle];
  }

  /** Thread 0 makes its second load. */
  lemma LoadNode(s: State, i: nat, m: nat) returns (d: State)
    requires Reaches(s) && OneSlot(s) && |s.pcs| > 0 && s.pcs[0] == AccRead(i, m) && i < |s.slots|
    ensures Reaches(d) && d == s.(pcs := s.pcs[0 := Accessed(i, m, s.slots[i].node)])
  {
    d := TakeGo(s, 0);
  }

  /** A delete between the two loads: the macro returns TRUE and a null node. */
  lemma AccessReturnsNull()
    ensures exists s :: Reaches(s) && |s.pcs| > 0 && s.pcs[0] == Accessed(0, 1, None)
  {
    var s := CompareSeven();
    s := DeleteSeven(s, AccRead(0, 1));
    s := LoadNode(s, 0, 1);
  }

  /** A delete and an append between them: the reference (0, 1) answers with the node of (0, 2). */
  lemma AccessReturnsAnother()
    ensures exists s :: Reaches(s) && |s.pcs| > 0 && s.pcs[0] == Accessed(0, 1, Some(8))
                        && |s.slots| > 0 && s.slots[0] == Slot(2, Some(8)) && 8 in s.links
  {
    var s := CompareSeven();
    s := DeleteSeven(s, AccRead(0, 1));
    s := AppendEight(s, AccRead(0, 1));
    s := LoadNode(s, 0, 1);
  }
}
