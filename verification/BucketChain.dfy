/**
 The order of a bucket's chain (ofcdriver/utils/mchash.c, lines 112 to 130; ofcdriver/include/mchash.h,
 lines 434 to 445).  Read off the steps of a run alone, the writers make a list: each publication puts its
 node behind the predecessor it was prepared with, each unlink takes its node out.  The pointers in memory
 are that list at every moment.
 */
module BucketChain {
  import opened Common
  import opened BucketReaders

  /** What the writers have asked for: the list, and the node and predecessor of a publication under way. */
  datatype Plan = Plan(list: seq<Node>, filling: Option<(Node, Option<Node>)>)

  /** n right behind p, or in front. */
  function Behind(list: seq<Node>, p: Option<Node>, n: Node): (r: seq<Node>) {
    if p.None? then [n] + list
    else if list == [] then []
    else if list[0] == p.value then [list[0], n] + list[1..]
    else [list[0]] + Behind(list[1..], p, n)
  }

  function Planned(steps: seq<Step>): (r: Plan) {
    if steps == [] then Plan([], None) else
      var plan := Planned(steps[..|steps| - 1]);
      match steps[|steps| - 1]
      case Prepare(n, p) => plan.(filling := Some((n, p)))
      case Publish =>
        if plan.filling.Some? then Plan(Behind(plan.list, plan.filling.value.1, plan.filling.value.0), None) else plan
      case Unlink(n, _) => plan.(list := Without(plan.list, n))
      case _ => plan
  }

  /** Behind, by position. */
  lemma {:induction false} BehindAt(list: seq<Node>, k: nat, n: Node)
    requires Distinct(list) && k < |list|
    ensures Behind(list, Some(list[k]), n) == InsertAt(list, k + 1, n)
  {
    if k == 0 {
      assert InsertAt(list, 1, n) == [list[0], n] + list[1..];
    } else {
      assert list[k] == list[1..][k - 1] && list[0] != list[k];
      BehindAt(list[1..], k - 1, n);
      assert [list[0]] + InsertAt(list[1..], k, n) == InsertAt(list, k + 1, n);
    }
  }

  function Entry(c: seq<Node>, i: nat): Option<Node> {
    if i < |c| then Some(c[i]) else None
  }

  /** Following next_p from the head gives c, and nothing behind it. */
  ghost predicate IsChain(s: State, c: seq<Node>) {
    && s.head == Entry(c, 0)
    && forall i :: 0 <= i < |c| ==> c[i] in s.next && s.next[c[i]] == Entry(c, i + 1)
  }

  ghost predicate Agrees(s: State, plan: Plan) {
    && IsChain(s, plan.list) && Distinct(plan.list) && (forall x :: x in plan.list <==> s.h.Linked(x))
    && s.writer == if plan.filling.None? then NoWriter else Publishing(plan.filling.value.0, plan.filling.value.1)
  }

  lemma PublishInFront(s: State, t: State, c: seq<Node>, n: Node)
    requires IsChain(s, c) && n in s.next && s.next[n] == s.head && n !in c
    requires t.head == Some(n) && t.next == s.next
    ensures IsChain(t, [n] + c)
  {
  }

  lemma PublishBehind(s: State, t: State, c: seq<Node>, k: nat, n: Node)
    requires IsChain(s, c) && Distinct(c) && k < |c| && n in s.next && s.next[n] == s.next[c[k]] && n !in c
    requires t.head == s.head && t.next == s.next[c[k] := Some(n)]
    ensures IsChain(t, InsertAt(c, k + 1, n))
  {
    var d := InsertAt(c, k + 1, n);
    assert d[k + 1] == n;
    forall i | 0 <= i < |d|
      ensures d[i] in t.next && t.next[d[i]] == Entry(d, i + 1)
    {
      BehindEntry(s, c, k, n, i);
    }
  }

  lemma InsertEntry(c: seq<Node>, k: nat, n: Node, i: nat)
    requires k <= |c|
    ensures Entry(InsertAt(c, k, n), i) == if i < k then Entry(c, i) else if i == k then Some(n) else Entry(c, i - 1)
  {
  }

  /** Position i of the longer chain. */
  lemma BehindEntry(s: State, c: seq<Node>, k: nat, n: Node, i: nat)
    requires IsChain(s, c) && Distinct(c) && k < |c| && n in s.next && s.next[n] == s.next[c[k]] && n !in c
    requires i <= |c|
    ensures var d, next := InsertAt(c, k + 1, n), s.next[c[k] := Some(n)];
              d[i] in next && next[d[i]] == Entry(d, i + 1)
  {
    InsertEntry(c, k + 1, n, i);
    InsertEntry(c, k + 1, n, i + 1);
    if i <= k {
      assert Entry(c, i) == Some(c[i]);
    } else if i > k + 1 {
      assert Entry(c, i - 1) == Some(c[i - 1]) && c[i - 1] != c[k];
    }
  }

  lemma PublishChain(s: State, c: seq<Node>, n: Node, p: Option<Node>)
    requires Memory(s) && s.writer == Publishing(n, p) && IsChain(s, c) && Distinct(c) && n !in c
    requires p.Some? ==> p.value in c
    ensures IsChain(Do(s, Publish), Behind(c, p, n)) && Distinct(Behind(c, p, n))
    ensures forall x :: x in Behind(c, p, n) <==> x in c || x == n
  {
    var t := Do(s, Publish);
    if p.None? {
      PublishInFront(s, t, c, n);
    } else {
      var k :| 0 <= k < |c| && c[k] == p.value;
      PublishBehind(s, t, c, k, n);
      BehindAt(c, k, n);
      InsertDistinct(c, k + 1, n);
    }
  }

  lemma PublishAgrees(s: State, plan: Plan)
    requires Inv(s) && Agrees(s, plan) && Enabled(s, Publish) && plan.filling.Some?
    ensures Agrees(Do(s, Publish), Plan(Behind(plan.list, plan.filling.value.1, plan.filling.value.0), None))
  {
    var (n, p) := plan.filling.value;
    PublishChain(s, plan.list, n, p);
    PublishLinks(s, n, p);
  }

  lemma PublishLinks(s: State, n: Node, p: Option<Node>)
    requires Memory(s) && s.h.Valid(s.now) && s.writer == Publishing(n, p)
    ensures forall x :: Do(s, Publish).h.Linked(x) <==> s.h.Linked(x) || x == n
  {
  }

  /** The pointer to x is in the entry before it, or in the head if there is none. */
  lemma UnlinkAt(s: State, t: State, c: seq<Node>, k: nat, p: Option<Node>)
    requires IsChain(s, c) && Distinct(c) && k < |c| && (p.Some? ==> p.value in c && p.value in s.next)
    requires NextOf(s, p) == Some(c[k])
    requires t.head == StoreNext(s, p, s.next[c[k]]).head && t.next == StoreNext(s, p, s.next[c[k]]).next
    ensures IsChain(t, RemoveAt(c, k))
  {
    var d := RemoveAt(c, k);
    if p.Some? {
      var j :| 0 <= j < |c| && c[j] == p.value;
      assert Entry(c, j + 1) == Some(c[k]);
      assert j + 1 == k;
    }
    forall i | 0 <= i < |d|
      ensures d[i] in t.next && t.next[d[i]] == Entry(d, i + 1)
    {
      assert d[i] == if i < k then c[i] else c[i + 1];
    }
  }

  lemma UnlinkAgrees(s: State, plan: Plan, n: Node, p: Option<Node>)
    requires Inv(s) && Agrees(s, plan) && Enabled(s, Unlink(n, p))
    ensures Agrees(Do(s, Unlink(n, p)), plan.(list := Without(plan.list, n)))
  {
    UnlinkChain(s, plan.list, n, p);
    WithoutDistinct(plan.list, n);
    UnlinkLinks(s, n, p);
  }

  lemma UnlinkChain(s: State, c: seq<Node>, n: Node, p: Option<Node>)
    requires Memory(s) && Enabled(s, Unlink(n, p)) && IsChain(s, c) && Distinct(c)
    requires (forall x :: x in c <==> s.h.Linked(x)) && n in s.next
    ensures IsChain(Do(s, Unlink(n, p)), Without(c, n))
  {
    var k :| 0 <= k < |c| && c[k] == n;
    UnlinkAt(s, Do(s, Unlink(n, p)), c, k, p);
    WithoutAt(c, k);
  }

  lemma UnlinkLinks(s: State, n: Node, p: Option<Node>)
    requires Enabled(s, Unlink(n, p))
    ensures forall x :: Do(s, Unlink(n, p)).h.Linked(x) <==> s.h.Linked(x) && x != n
    ensures Do(s, Unlink(n, p)).writer == s.writer
  {
  }

  lemma OtherAgrees(s: State, plan: Plan, step: Step)
    requires Inv(s) && Agrees(s, plan) && Enabled(s, step) && Proper(s, step)
    requires !step.Prepare? && !step.Publish? && !step.Unlink?
    ensures Agrees(Do(s, step), plan)
  {
  }

  lemma PrepareAgrees(s: State, plan: Plan, n: Node, p: Option<Node>)
    requires Agrees(s, plan) && Enabled(s, Prepare(n, p))
    ensures Agrees(Do(s, Prepare(n, p)), plan.(filling := Some((n, p))))
  {
    var c := plan.list;
    assert n !in c;
    assert forall i :: 0 <= i < |c| ==> c[i] != n;
  }

  lemma {:induction false} RunAgrees(states: seq<State>, steps: seq<Step>, k: nat)
    requires ProperRun(states, steps) && k <= |steps|
    ensures Agrees(states[k], Planned(steps[..k]))
  {
    if k > 0 {
      RunAgrees(states, steps, k - 1);
      RunInv(states, steps, k - 1);
      assert steps[..k][..k - 1] == steps[..k - 1];
      var s, step, plan := states[k - 1], steps[k - 1], Planned(steps[..k - 1]);
      assert states[k] == Do(s, step);
      match step
      case Prepare(n, p) => PrepareAgrees(s, plan, n, p);
      case Publish => PublishAgrees(s, plan);
      case Unlink(n, p) => UnlinkAgrees(s, plan, n, p);
      case _ => OtherAgrees(s, plan, step);
    }
  }

  lemma {:induction false} WalkFollows(s: State, c: seq<Node>, k: nat)
    requires IsChain(s, c) && k <= |c|
    ensures Walk(s, k) == Entry(c, k)
  {
    if k > 0 {
      WalkFollows(s, c, k - 1);
    }
  }

  /**
   The chain in memory is the list the writers planned: at every moment of every proper run, loading next_p
   from the head on gives that list in its order, and then null.
   */
  lemma ChainIsPlanned(states: seq<State>, steps: seq<Step>, k: nat, i: nat)
    requires ProperRun(states, steps) && k <= |steps| && i <= |Planned(steps[..k]).list|
    ensures Walk(states[k], i) == Entry(Planned(steps[..k]).list, i)
  {
    RunAgrees(states, steps, k);
    WalkFollows(states[k], Planned(steps[..k]).list, i);
  }

  // ---------- One publication, one unlink ----------

  lemma {:induction false} StillFilling(states: seq<State>, steps: seq<Step>, i: nat, j: nat, n: Node, p: Option<Node>)
    requires ProperRun(states, steps) && i < j <= |steps| && steps[i] == Prepare(n, p)
    requires forall h :: i < h < j ==> !steps[h].Publish?
    ensures Planned(steps[..j]).filling == Some((n, p))
    decreases j
  {
    if i + 1 < j {
      StillFilling(states, steps, i, j - 1, n, p);
      NoSecondFilling(states, steps, j - 1);
    }
    PlannedNext(steps, j - 1);
  }

  lemma PlannedNext(steps: seq<Step>, k: nat)
    requires k < |steps|
    ensures steps[k].Prepare? ==> Planned(steps[..k + 1]).filling == Some((steps[k].node, steps[k].pred))
    ensures !steps[k].Prepare? && !steps[k].Publish? ==> Planned(steps[..k + 1]).filling == Planned(steps[..k]).filling
  {
    assert steps[..k + 1][..k] == steps[..k];
  }

  /** One writer at a time. */
  lemma NoSecondFilling(states: seq<State>, steps: seq<Step>, k: nat)
    requires ProperRun(states, steps) && k < |steps| && Planned(steps[..k]).filling.Some?
    ensures !steps[k].Prepare?
  {
    RunAgrees(states, steps, k);
    assert Enabled(states[k], steps[k]);
  }

  /** Two chains of one state are the same. */
  lemma {:induction false} SameChain(s: State, c: seq<Node>, d: seq<Node>, k: nat)
    requires IsChain(s, c) && IsChain(s, d) && k <= |c| && k <= |d|
    ensures c[..k] == d[..k] && Entry(c, k) == Entry(d, k)
  {
    if k > 0 {
      SameChain(s, c, d, k - 1);
      assert c[k - 1] == d[k - 1];
    }
  }

  lemma OneChain(s: State, c: seq<Node>, d: seq<Node>)
    requires IsChain(s, c) && IsChain(s, d)
    ensures c == d
  {
    var k := if |c| < |d| then |c| else |d|;
    SameChain(s, c, d, k);
    assert c[..k] == d[..k];
  }

  /** A publication puts its node right behind the predecessor it was prepared with, or in front for none. */
  lemma PublishGoesBehind(states: seq<State>, steps: seq<Step>, i: nat, j: nat, n: Node, p: Option<Node>, c: seq<Node>)
    requires ProperRun(states, steps) && i < j < |steps| && steps[i] == Prepare(n, p) && steps[j].Publish?
    requires forall h :: i < h < j ==> !steps[h].Publish?
    requires IsChain(states[j], c)
    ensures p.Some? ==> exists k :: 0 <= k < |c| && c[k] == p.value && IsChain(states[j + 1], InsertAt(c, k + 1, n))
    ensures p.None? ==> IsChain(states[j + 1], [n] + c)
  {
    StillFilling(states, steps, i, j, n, p);
    RunAgrees(states, steps, j);
    RunInv(states, steps, j);
    OneChain(states[j], c, Planned(steps[..j]).list);
    PublishAgrees(states[j], Planned(steps[..j]));
    if p.Some? {
      var k :| 0 <= k < |c| && c[k] == p.value;
      BehindAt(c, k, n);
    }
  }

  /** An unlink takes out its node and keeps the order of the rest. */
  lemma UnlinkTakesOut(states: seq<State>, steps: seq<Step>, j: nat, n: Node, p: Option<Node>, c: seq<Node>)
    requires ProperRun(states, steps) && j < |steps| && steps[j] == Unlink(n, p) && IsChain(states[j], c)
    ensures exists k :: 0 <= k < |c| && c[k] == n && IsChain(states[j + 1], RemoveAt(c, k))
  {
    RunAgrees(states, steps, j);
    RunInv(states, steps, j);
    OneChain(states[j], c, Planned(steps[..j]).list);
    UnlinkAgrees(states[j], Planned(steps[..j]), n, p);
    var k :| 0 <= k < |c| && c[k] == n;
    WithoutAt(c, k);
  }
}
