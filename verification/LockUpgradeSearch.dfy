/**
 What the search of DLL_QUEUE_DYN_SCAN_WITH_LOCK_WRITE_CNTR (ofcdriver/include/dll.h, lines 473 to 503)
 looks at, and what follows a match.  These hold of every run, deletes that ignore the count included.
 */
module LockUpgradeSearch {
  import opened Common
  import opened LockUpgrade

  lemma {:induction false} RunLock(states: seq<State>, steps: seq<Step>, k: nat)
    requires IsRun(states, steps) && k <= |steps|
    ensures LockInv(states[k])
  {
    if k > 0 {
      RunLock(states, steps, k - 1);
      StepKeepsLock(states[k - 1], steps[k - 1]);
      assert states[k] == Do(states[k - 1], steps[k - 1]);
    }
  }

  // ---------- The list ----------

  /** A node is appended once, by one thread, and is not in the list before. */
  ghost predicate ListInv(s: State) {
    && Distinct(s.list) && (forall n :: n in s.list ==> n in s.known)
    && (forall n :: Value(s.unlinks, n) >= 0 && (Value(s.unlinks, n) > 0 ==> n in s.known && n !in s.list))
    && (forall t, n :: 0 <= t < |s.pcs| && Appending(s.pcs[t], n) ==> Fresh(s, n))
    && (forall t, u, n :: 0 <= t < |s.pcs| && 0 <= u < |s.pcs| && Appending(s.pcs[t], n) && Appending(s.pcs[u], n) ==>
          t == u)
  }

  /** n is spoken for, and has never been in the list. */
  ghost predicate Fresh(s: State, n: Node) {
    n in s.known && n !in s.list && Value(s.unlinks, n) == 0
  }

  /** What a step may do to the list. */
  ghost predicate ListMove(s: State, d: State, step: Step) {
    && s.known <= d.known && step.t < |s.pcs| == |d.pcs|
    && (|| (d.list == s.list && d.unlinks == s.unlinks)
        || (exists n :: n in s.list && d.list == Unlink(s, n).list && d.unlinks == Unlink(s, n).unlinks)
        || (exists n :: AppendsNow(s, step, n) && d.list == s.list + [n]
                        && d.unlinks == s.unlinks && !Appending(d.pcs[step.t], n)))
  }

  /** The step is DLL_QUEUE_APPEND_NODE. */
  predicate AppendsNow(s: State, step: Step, n: Node) {
    step.Go? && step.t < |s.pcs| && s.pcs[step.t] == EditUncounted(Append(n))
  }

  lemma UnlinkMove(s: State, d: State, step: Step, n: Node)
    requires d.list == Unlink(s, n).list && d.unlinks == Unlink(s, n).unlinks && s.known <= d.known
    requires step.t < |s.pcs| == |d.pcs|
    ensures ListMove(s, d, step)
  {
    if n in s.list {
    } else {
      assert d.list == s.list && d.unlinks == s.unlinks;
    }
  }

  lemma DeletingMove(s: State, t: nat)
    requires t < |s.pcs| && s.pcs[t].Deleting?
    ensures ListMove(s, DoUpgrade(s, t), Go(t))
  {
    if Value(s.refcnt, s.pcs[t].n) == 0 {
      UnlinkMove(s, DoUpgrade(s, t), Go(t), s.pcs[t].n);
    }
  }

  lemma EditingMove(s: State, t: nat)
    requires t < |s.pcs| && s.pcs[t].EditUncounted?
    ensures ListMove(s, DoEditing(s, t), Go(t))
  {
    var e := s.pcs[t].e;
    if e.Append? {
      assert AppendsNow(s, Go(t), e.n);
    } else {
      UnlinkMove(s, DoEditing(s, t), Go(t), e.n);
    }
  }

  lemma StepMovesList(s: State, step: Step)
    requires Enabled(s, step)
    ensures ListMove(s, Do(s, step), step)
  {
    if step.Go? {
      if s.pcs[step.t].Deleting? {
        DeletingMove(s, step.t);
      } else if s.pcs[step.t].EditUncounted? {
        EditingMove(s, step.t);
      } else {
        GoLeavesList(s, step.t);
      }
    }
  }

  lemma MoveKeepsFresh(s: State, d: State, step: Step, n: Node)
    requires ListInv(s) && ListMove(s, d, step) && Fresh(s, n) && !(AppendsNow(s, step, n) && n in d.list)
    ensures Fresh(d, n)
  {
  }

  lemma MoveKeepsList(s: State, d: State, step: Step)
    requires ListInv(s) && ListMove(s, d, step)
    ensures Distinct(d.list) && (forall n :: n in d.list ==> n in d.known)
    ensures forall n :: Value(d.unlinks, n) >= 0 && (Value(d.unlinks, n) > 0 ==> n in d.known && n !in d.list)
  {
    forall n | n in s.list
      ensures Distinct(Without(s.list, n))
    {
      WithoutDistinct(s.list, n);
    }
    if n :| AppendsNow(s, step, n) && d.list == s.list + [n] && d.unlinks == s.unlinks
            && !Appending(d.pcs[step.t], n) {
      assert Appending(s.pcs[step.t], n) && Fresh(s, n);
    }
  }

  lemma AppenderIsFresh(s: State, d: State, step: Step, t: nat, n: Node)
    requires ListInv(s) && LockInv(s) && Enabled(s, step) && d == Do(s, step) && t < |d.pcs| && Appending(d.pcs[t], n)
    ensures Fresh(d, n)
  {
    StepLockShape(s, step);
    StepMovesList(s, step);
    StepAppending(s, d, step, t, n);
    if Appending(s.pcs[t], n) {
      if AppendsNow(s, step, n) && n in d.list {
        assert Appending(s.pcs[step.t], n) && t == step.t && Fresh(s, n);
        AppenderIsDone(s, step, n);
      }
      MoveKeepsFresh(s, d, step, n);
    } else {
      CallIsFresh(s, step, n);
    }
  }

  lemma AppenderIsDone(s: State, step: Step, n: Node)
    requires Enabled(s, step) && AppendsNow(s, step, n)
    ensures !Appending(Do(s, step).pcs[step.t], n)
  {
  }

  lemma CallIsFresh(s: State, step: Step, n: Node)
    requires ListInv(s) && Enabled(s, step) && !Appending(s.pcs[step.t], n) && n !in s.known
    requires Appending(Do(s, step).pcs[step.t], n)
    ensures Fresh(Do(s, step), n)
  {
    if step.Go? {
      GoAppending(s, step.t, n);
      assert false;
    }
  }

  lemma OneAppender(s: State, d: State, step: Step, t: nat, u: nat, n: Node)
    requires ListInv(s) && LockInv(s) && Enabled(s, step) && d == Do(s, step)
    requires t < |d.pcs| && u < |d.pcs| && Appending(d.pcs[t], n) && Appending(d.pcs[u], n)
    ensures t == u
  {
    StepLockShape(s, step);
    StepAppending(s, d, step, t, n);
    StepAppending(s, d, step, u, n);
    assert Appending(s.pcs[t], n) ==> Fresh(s, n);
    assert Appending(s.pcs[u], n) ==> Fresh(s, n);
  }

  lemma StepKeepsListInv(s: State, step: Step)
    requires ListInv(s) && LockInv(s) && Enabled(s, step)
    ensures ListInv(Do(s, step))
  {
    var d := Do(s, step);
    StepMovesList(s, step);
    MoveKeepsList(s, d, step);
    forall t, n | 0 <= t < |d.pcs| && Appending(d.pcs[t], n)
      ensures Fresh(d, n)
    {
      AppenderIsFresh(s, d, step, t, n);
    }
    forall t, u, n | 0 <= t < |d.pcs| && 0 <= u < |d.pcs| && Appending(d.pcs[t], n) && Appending(d.pcs[u], n)
      ensures t == u
    {
      OneAppender(s, d, step, t, u, n);
    }
  }

  lemma {:induction false} RunList(states: seq<State>, steps: seq<Step>, k: nat)
    requires IsRun(states, steps) && k <= |steps|
    ensures ListInv(states[k])
  {
    if k > 0 {
      RunList(states, steps, k - 1);
      RunLock(states, steps, k - 1);
      StepKeepsListInv(states[k - 1], steps[k - 1]);
      assert states[k] == Do(states[k - 1], steps[k - 1]);
    }
  }

  // ---------- The list is what was appended, in that order, without what was unlinked ----------

  /** The nodes appended by the first k steps. */
  function Appended(states: seq<State>, steps: seq<Step>, k: nat): (r: seq<Node>)
    requires k <= |steps| < |states|
  {
    if k == 0 then [] else
      var s, step := states[k - 1], steps[k - 1];
      Appended(states, steps, k - 1) +
      if step.Go? && step.t < |s.pcs| && s.pcs[step.t].EditUncounted? && s.pcs[step.t].e.Append?
      then [s.pcs[step.t].e.n] else []
  }

  /** Those of the nodes that were never unlinked. */
  function Kept(nodes: seq<Node>, unlinks: map<Node, int>): (r: seq<Node>) {
    if nodes == [] then []
    else if Value(unlinks, nodes[0]) == 0 then [nodes[0]] + Kept(nodes[1..], unlinks)
    else Kept(nodes[1..], unlinks)
  }

  lemma {:induction false} KeptMore(nodes: seq<Node>, n: Node, unlinks: map<Node, int>)
    ensures Kept(nodes + [n], unlinks) == Kept(nodes, unlinks) + if Value(unlinks, n) == 0 then [n] else []
  {
    if nodes == [] {
      assert nodes + [n] == [n];
    } else {
      assert (nodes + [n])[1..] == nodes[1..] + [n];
      KeptMore(nodes[1..], n, unlinks);
    }
  }

  lemma {:induction false} KeptLess(nodes: seq<Node>, n: Node, unlinks: map<Node, int>, u: map<Node, int>)
    requires Value(u, n) != 0 && forall m :: m != n ==> Value(u, m) == Value(unlinks, m)
    ensures Kept(nodes, u) == Without(Kept(nodes, unlinks), n)
  {
    if nodes != [] {
      KeptLess(nodes[1..], n, unlinks, u);
      var k := Kept(nodes[1..], unlinks);
      assert ([nodes[0]] + k)[1..] == k;
    }
  }

  lemma UnlinkValues(s: State, n: Node)
    requires n in s.list && Value(s.unlinks, n) >= 0
    ensures Value(Unlink(s, n).unlinks, n) != 0
    ensures forall m :: m != n ==> Value(Unlink(s, n).unlinks, m) == Value(s.unlinks, m)
  {
  }

  lemma StepKept(s: State, step: Step, nodes: seq<Node>)
    requires ListInv(s) && Enabled(s, step) && s.list == Kept(nodes, s.unlinks)
    ensures var d := Do(s, step); (
              if step.Go? && s.pcs[step.t].EditUncounted? && s.pcs[step.t].e.Append?
              then d.list == Kept(nodes + [s.pcs[step.t].e.n], d.unlinks) else d.list == Kept(nodes, d.unlinks))
  {
    var d := Do(s, step);
    if step.Go? && s.pcs[step.t].EditUncounted? && s.pcs[step.t].e.Append? {
      var n := s.pcs[step.t].e.n;
      assert Appending(s.pcs[step.t], n) && Fresh(s, n);
      assert d.list == s.list + [n] && d.unlinks == s.unlinks;
      KeptMore(nodes, n, s.unlinks);
    } else {
      StepMovesList(s, step);
      if d.list != s.list || d.unlinks != s.unlinks {
        var n :| n in s.list && d.list == Unlink(s, n).list && d.unlinks == Unlink(s, n).unlinks;
        UnlinkValues(s, n);
        KeptLess(nodes, n, s.unlinks, d.unlinks);
      }
    }
  }

  /** At every moment the list holds the nodes appended so far and not unlinked since, in the order of their appends. */
  lemma {:induction false} ListIsAppended(states: seq<State>, steps: seq<Step>, k: nat)
    requires IsRun(states, steps) && k <= |steps|
    ensures states[k].list == Kept(Appended(states, steps, k), states[k].unlinks)
  {
    if k > 0 {
      ListIsAppended(states, steps, k - 1);
      RunList(states, steps, k - 1);
      assert Enabled(states[k - 1], steps[k - 1]) && states[k] == Do(states[k - 1], steps[k - 1]);
      StepKept(states[k - 1], steps[k - 1], Appended(states, steps, k - 1));
      var nodes := Appended(states, steps, k - 1);
      assert nodes + [] == nodes;
    }
  }

  // ---------- The search ----------

  function Entry(list: seq<Node>, i: nat): Option<Node> {
    if i < |list| then Some(list[i]) else None
  }

  lemma {:induction false} AfterAt(list: seq<Node>, i: nat)
    requires Distinct(list) && i < |list|
    ensures After(list, list[i]) == Entry(list, i + 1)
  {
    if i > 0 {
      assert list[i] == list[1..][i - 1] && list[0] != list[i];
      AfterAt(list[1..], i - 1);
    }
  }

  lemma NextAt(list: seq<Node>, i: nat)
    requires Distinct(list)
    ensures NextOf(list, Entry(list, i)) == Entry(list, i + 1)
  {
    if i < |list| {
      AfterAt(list, i);
    }
  }

  /** Thread t took the read lock for its search at step i, and has only missed since. */
  ghost predicate Searching(states: seq<State>, steps: seq<Step>, t: nat, i: nat, j: nat) {
    && IsRun(states, steps) && i < j <= |steps|
    && steps[i] == Go(t) && t < |states[i].pcs| && states[i].pcs[t].ReadWait?
    && forall h :: i < h < j && steps[h].t == t ==> steps[h] == Compare(t, false)
  }

  /** The nodes CmpAndIncRefCnt_fn was called on by thread t in steps i to j. */
  function Compared(states: seq<State>, steps: seq<Step>, t: nat, i: nat, j: nat): (r: seq<Node>)
    requires i <= j <= |steps| < |states|
    decreases j
  {
    if j == i then [] else
      var s, step := states[j - 1], steps[j - 1];
      Compared(states, steps, t, i, j - 1) +
      if step.Compare? && step.t == t && t < |s.pcs| && s.pcs[t].Scanning? && s.pcs[t].cur.Some?
      then [s.pcs[t].cur.value] else []
  }

  /** The search stands at position n of the list, which is still what it was. */
  ghost predicate At(s: State, t: nat, list: seq<Node>, n: nat) {
    && t < |s.pcs| && s.list == list && n <= |list|
    && s.pcs[t] == Scanning(Entry(list, n), Entry(list, n + 1))
  }

  lemma SearchBegins(s: State, t: nat)
    requires ListInv(s) && Enabled(s, Go(t)) && s.pcs[t].ReadWait?
    ensures At(Do(s, Go(t)), t, s.list, 0)
  {
    NextAt(s.list, 0);
  }

  lemma MissGoesOn(s: State, t: nat, list: seq<Node>, n: nat)
    requires Distinct(list) && At(s, t, list, n) && Enabled(s, Compare(t, false))
    ensures n < |list| && At(Do(s, Compare(t, false)), t, list, n + 1)
  {
    NextAt(list, n + 1);
  }

  /** Under the read lock nobody else changes the list. */
  lemma OthersWait(s: State, step: Step, t: nat, list: seq<Node>, n: nat)
    requires LockInv(s) && Enabled(s, step) && step.t != t && At(s, t, list, n)
    ensures At(Do(s, step), t, list, n)
  {
    StepLockShape(s, step);
    assert HoldsRead(s.pcs[t]) && t in s.readers;
    if step.Go? {
      assert !HoldsWrite(s.pcs[step.t]);
      GoLeavesList(s, step.t);
    }
  }

  /** By state j, from step i on, thread t has compared the first nodes of the list and stands behind them. */
  ghost predicate Stands(states: seq<State>, steps: seq<Step>, t: nat, i: nat, j: nat, list: seq<Node>)
    requires i <= j <= |steps| < |states|
  {
    var c := Compared(states, steps, t, i, j);
    |c| <= |list| && c == list[..|c|] && At(states[j], t, list, |c|)
  }

  lemma SearchStep(states: seq<State>, steps: seq<Step>, t: nat, i: nat, j: nat, list: seq<Node>)
    requires i <= j < |steps| < |states| && Distinct(list) && LockInv(states[j])
    requires Enabled(states[j], steps[j]) && states[j + 1] == Do(states[j], steps[j])
    requires steps[j].t == t ==> steps[j] == Compare(t, false)
    requires Stands(states, steps, t, i, j, list)
    ensures Stands(states, steps, t, i, j + 1, list)
  {
    var c := Compared(states, steps, t, i, j);
    assert c + [] == c;
    if steps[j].t == t {
      MissGoesOn(states[j], t, list, |c|);
      assert list[..|c| + 1] == list[..|c|] + [list[|c|]];
    } else {
      OthersWait(states[j], steps[j], t, list, |c|);
    }
  }

  lemma FirstStands(states: seq<State>, steps: seq<Step>, t: nat, i: nat)
    requires Searching(states, steps, t, i, i + 1)
    ensures Stands(states, steps, t, i + 1, i + 1, states[i].list)
  {
    RunList(states, steps, i);
    SearchBegins(states[i], t);
  }

  lemma StillStands(states: seq<State>, steps: seq<Step>, t: nat, i: nat, k: nat)
    requires Searching(states, steps, t, i, k + 1) && i < k && Stands(states, steps, t, i + 1, k, states[i].list)
    ensures Stands(states, steps, t, i + 1, k + 1, states[i].list)
  {
    RunList(states, steps, i);
    RunLock(states, steps, k);
    SearchStep(states, steps, t, i + 1, k, states[i].list);
  }

  lemma {:induction false} SearchStands(states: seq<State>, steps: seq<Step>, t: nat, i: nat, j: nat)
    requires Searching(states, steps, t, i, j)
    ensures Stands(states, steps, t, i + 1, j, states[i].list)
    decreases j
  {
    if j == i + 1 {
      FirstStands(states, steps, t, i);
    } else {
      SearchStands(states, steps, t, i, j - 1);
      StillStands(states, steps, t, i, j - 1);
    }
  }

  /**
   The search goes through the list.  The nodes it has compared are the first ones of the list it found under
   the read lock, in order; a hit is on the next one, which the thread then refers to; and without a hit it ends
   only when it has compared all of them.
   */
  lemma SearchGoesThroughList(states: seq<State>, steps: seq<Step>, t: nat, i: nat, j: nat)
    requires Searching(states, steps, t, i, j)
    ensures var list, c := states[i].list, Compared(states, steps, t, i + 1, j); (
              && |c| <= |list| && c == list[..|c|] && states[j].list == list
              && (j < |steps| && steps[j] == Compare(t, true) ==>
                    |c| < |list| && t < |states[j + 1].pcs| && states[j + 1].pcs[t] == Matched(list[|c|]))
              && (j < |steps| && steps[j] == Compare(t, false) ==>
                    |c| < |list| && t < |states[j + 1].pcs| && states[j + 1].pcs[t].Scanning?)
              && (j < |steps| && steps[j].t == t && !steps[j].Compare? ==>
                    c == list && t < |states[j + 1].pcs| && states[j + 1].pcs[t].Idle?))
  {
    SearchStands(states, steps, t, i, j);
    if j < |steps| {
      assert Enabled(states[j], steps[j]) && states[j + 1] == Do(states[j], steps[j]);
      var list := states[i].list;
      assert list[..|list|] == list;
    }
  }

  /** A search begins only while nobody is between announcing itself as a writer and getting the write lock. */
  lemma SearchYieldsToWriters(states: seq<State>, steps: seq<Step>, t: nat, i: nat, u: nat)
    requires IsRun(states, steps) && i < |steps| && steps[i] == Go(t)
    requires t < |states[i].pcs| && states[i].pcs[t].Start? && u < |states[i].pcs|
    ensures !Announced(states[i].pcs[u])
  {
    RunCount(states, steps, i);
    assert Enabled(states[i], steps[i]);
    TallyZero(states[i].pcs, Announcer);
    assert !Plays(states[i].pcs[u], Announcer);
  }

  lemma {:induction false} RunCount(states: seq<State>, steps: seq<Step>, k: nat)
    requires IsRun(states, steps) && k <= |steps|
    ensures CountInv(states[k])
  {
    if k == 0 {
      InitInv(states[0]);
    } else {
      RunCount(states, steps, k - 1);
      StepKeepsCount(states[k - 1], steps[k - 1]);
      assert states[k] == Do(states[k - 1], steps[k - 1]);
    }
  }

  // ---------- After a match ----------

  /** Thread t calls Delete_fn on n in step h. */
  ghost predicate Deletes(states: seq<State>, steps: seq<Step>, h: nat, t: nat, n: Node)
    requires h < |steps| < |states|
  {
    steps[h] == Go(t) && t < |states[h].pcs| && states[h].pcs[t] == Deleting(n)
  }

  /** Between the match and Delete_fn, or past it. */
  ghost predicate Deciding(states: seq<State>, steps: seq<Step>, j: nat, k: nat, t: nat, n: Node)
    requires k <= |steps| < |states|
  {
    || (t < |states[k].pcs| && (RefersTo(states[k].pcs[t], n) || states[k].pcs[t] == Deleting(n)))
    || exists h :: j < h < k && Deletes(states, steps, h, t, n)
  }

  lemma OwnStepDecides(s: State, t: nat, n: Node)
    requires Enabled(s, Go(t)) && RefersTo(s.pcs[t], n)
    ensures RefersTo(Do(s, Go(t)).pcs[t], n) || Do(s, Go(t)).pcs[t] == Deleting(n)
  {
  }

  lemma StepDecides(states: seq<State>, steps: seq<Step>, j: nat, k: nat, t: nat, n: Node)
    requires IsRun(states, steps) && j < k < |steps| && Deciding(states, steps, j, k, t, n)
    ensures Deciding(states, steps, j, k + 1, t, n)
  {
    var s, step := states[k], steps[k];
    assert Enabled(s, step) && states[k + 1] == Do(s, step);
    RunLock(states, steps, k);
    StepLockShape(s, step);
    if h :| j < h < k && Deletes(states, steps, h, t, n) {
      assert Deletes(states, steps, h, t, n);
    } else if step.t == t {
      if s.pcs[t] == Deleting(n) {
        assert Deletes(states, steps, k, t, n);
      } else {
        OwnStepDecides(s, t, n);
      }
    }
  }

  lemma {:induction false} DecidingUntil(states: seq<State>, steps: seq<Step>, j: nat, k: nat, t: nat, n: Node)
    requires IsRun(states, steps) && j < k <= |steps| && steps[j] == Compare(t, true)
    requires t < |states[j].pcs| && states[j].pcs[t].Scanning? && states[j].pcs[t].cur == Some(n)
    ensures Deciding(states, steps, j, k, t, n)
    decreases k
  {
    if k == j + 1 {
      assert Enabled(states[j], steps[j]) && states[k] == Do(states[j], steps[j]);
    } else {
      DecidingUntil(states, steps, j, k - 1, t, n);
      StepDecides(states, steps, j, k - 1, t, n);
    }
  }

  /** Thread t takes the read lock again in step h. */
  ghost predicate Rereads(states: seq<State>, steps: seq<Step>, h: nat, t: nat)
    requires h < |steps| < |states|
  {
    steps[h] == Go(t) && t in states[h + 1].readers && t !in states[h].readers
  }

  /** After Delete_fn: still under the write lock, or about to take the read lock, or past that. */
  ghost predicate Returning(states: seq<State>, steps: seq<Step>, h: nat, k: nat, t: nat)
    requires k <= |steps| < |states|
  {
    || (t < |states[k].pcs| && (states[k].pcs[t].Deleted? || states[k].pcs[t].Rereading?))
    || exists g :: h < g < k && Rereads(states, steps, g, t)
  }

  lemma RereadStep(s: State, t: nat)
    requires LockInv(s) && Enabled(s, Go(t)) && s.pcs[t].Rereading?
    ensures t in Do(s, Go(t)).readers && t !in s.readers
  {
  }

  lemma StepReturns(states: seq<State>, steps: seq<Step>, h: nat, k: nat, t: nat)
    requires IsRun(states, steps) && h < k < |steps| && Returning(states, steps, h, k, t)
    ensures Returning(states, steps, h, k + 1, t)
  {
    var s, step := states[k], steps[k];
    assert Enabled(s, step) && states[k + 1] == Do(s, step);
    RunLock(states, steps, k);
    StepLockShape(s, step);
    if g :| h < g < k && Rereads(states, steps, g, t) {
      assert Rereads(states, steps, g, t);
    } else if step.t == t && s.pcs[t].Rereading? {
      RereadStep(s, t);
      assert Rereads(states, steps, k, t);
    }
  }

  lemma {:induction false} ReturningUntil(states: seq<State>, steps: seq<Step>, h: nat, k: nat, t: nat, n: Node)
    requires IsRun(states, steps) && h < k <= |steps| && Deletes(states, steps, h, t, n)
    ensures Returning(states, steps, h, k, t)
    decreases k
  {
    if k == h + 1 {
      assert Enabled(states[h], steps[h]) && states[k] == Do(states[h], steps[h]);
    } else {
      ReturningUntil(states, steps, h, k - 1, t, n);
      StepReturns(states, steps, h, k - 1, t);
    }
  }

  /** After Delete_fn a thread leaves the macro only once it has held the read lock again. */
  lemma DeleterRereads(states: seq<State>, steps: seq<Step>, h: nat, k: nat, t: nat, n: Node)
    requires IsRun(states, steps) && h < k <= |steps| && Deletes(states, steps, h, t, n)
    requires t < |states[k].pcs| && states[k].pcs[t].Idle?
    ensures exists g :: h < g < k && Rereads(states, steps, g, t)
  {
    ReturningUntil(states, steps, h, k, t, n);
  }

  /** Delete_fn takes the node out of the list and frees it exactly when no other thread refers to it. */
  lemma DeleteFnDecides(states: seq<State>, steps: seq<Step>, h: nat, t: nat, n: Node)
    requires CarefulRun(states, steps) && h < |steps| && Deletes(states, steps, h, t, n)
    ensures n in states[h].list && n !in states[h].freed
    ensures n in states[h + 1].freed <==> forall u :: 0 <= u < |states[h].pcs| ==> !RefersTo(states[h].pcs[u], n)
    ensures n in states[h + 1].list <==> n !in states[h + 1].freed
  {
    RunInv(states, steps, h);
    assert Enabled(states[h], steps[h]) && states[h + 1] == Do(states[h], steps[h]);
    InvIsAlive(states[h]);
    NoReferrers(states[h], n);
  }

  /** A thread that has matched a node is outside the macro again only after its own Delete_fn call on that node. */
  lemma MatchIsDeleted(states: seq<State>, steps: seq<Step>, j: nat, k: nat, t: nat, n: Node)
    requires IsRun(states, steps) && j < k <= |steps| && steps[j] == Compare(t, true)
    requires t < |states[j].pcs| && states[j].pcs[t].Scanning? && states[j].pcs[t].cur == Some(n)
    requires t < |states[k].pcs| && states[k].pcs[t].Idle?
    ensures exists h :: j < h < k && Deletes(states, steps, h, t, n)
  {
    DecidingUntil(states, steps, j, k, t, n);
  }
}
