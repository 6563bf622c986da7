/**
 What callers of the hash table can do to keep every run stable (ofcdriver/include/mchash.h): delete a
 node only after its append has returned, and by reference only with no other delete of the node under way.
 */
module TableCallers {
  import opened Common
  import opened TableProtocol

  /** The node a thread inside a delete call is after, before the delete is decided. */
  function Target(s: State, pc: Pc): Option<Node> {
    if Deciding(pc) then Some(pc.node)
    else if pc.RefRead? && pc.i < |s.slots| then s.slots[pc.i].node
    else None
  }

  predicate ByRef(pc: Pc) {
    pc.RefRead? || pc.RefLockBucket? || pc.RefCheck? || pc.RefClear?
  }

  /** What a thread is after, and how, stays what it read. */
  ghost predicate Follows(s: State, p: Pc, q: Pc) {
    && (Deciding(q) ==>
          || (Deciding(p) && q.node == p.node && q.key == p.key)
          || (p.RefRead? && p.i < |s.slots| && s.slots[p.i].node == Some(q.node)
              && q.node in s.keys && q.key == s.keys[q.node]))
    && (ByRef(q) ==> ByRef(p) && q.i == p.i && Deciding(q))
  }

  /** Thread t moves, the others do not, and the delete it is in stays the same. */
  ghost predicate Proceeds(s: State, d: State, t: nat) {
    t < |s.pcs| == |d.pcs| && d.pcs == s.pcs[t := d.pcs[t]] && Follows(s, s.pcs[t], d.pcs[t])
  }

  lemma GotoProceeds(s: State, d: State, t: nat, pc: Pc)
    requires t < |s.pcs| && d.pcs == s.pcs[t := pc] && Follows(s, s.pcs[t], pc)
    ensures Proceeds(s, d, t)
  {
  }

  lemma PopProceeds(s: State, d: State, t: nat, node: Node, key: nat)
    requires t < |s.pcs| && QueueFits(s) && d == Pop(s, t, node, key)
    ensures Proceeds(s, d, t)
  {
    GotoProceeds(s, d, t, if s.freeQ == [] then Idle else AppStore(node, key, s.freeQ[0]));
  }

  lemma AppendProceeds(s: State, t: nat, pos: nat)
    requires Enabled(s, Go(t, pos)) && InAppend(s.pcs[t])
    ensures Proceeds(s, GoAppend(s, t, pos), t)
  {
    var d := GoAppend(s, t, pos);
    match s.pcs[t]
    case AppLockTable(node, key) => GotoProceeds(s, d, t, AppPop(node, key));
    case AppPop(node, key) => PopProceeds(s, d, t, node, key);
    case AppStore(node, key, i) => GotoProceeds(s, d, t, AppLockBucket(node, key, i));
    case AppLockBucket(node, key, i) => TakeProceeds(s, d, t, AppLink(node, key, i), key);
    case AppLink(node, key, i) => GotoProceeds(s, d, t, AppKey(node, key, i));
    case AppKey(_, _, _) => GotoProceeds(s, d, t, Idle);
  }

  lemma TakeProceeds(s: State, d: State, t: nat, pc: Pc, key: nat)
    requires t < |s.pcs| && d == TakeBucket(s, t, pc, key) && Follows(s, s.pcs[t], pc)
    ensures Proceeds(s, d, t)
  {
    GotoProceeds(s, d, t, if key < |s.bucketLocks| then pc else Fault);
  }

  lemma ClearProceeds(s: State, d: State, t: nat, pos: nat)
    requires t < |s.pcs| && Clearing(s.pcs[t]) && Fits(s, s.pcs[t], pos) && d == Clear(s, t, s.pcs[t], pos)
    ensures Proceeds(s, d, t)
  {
  }

  lemma DecideProceeds(s: State, t: nat, pos: nat)
    requires Enabled(s, Go(t, pos)) && Deciding(s.pcs[t])
    ensures Proceeds(s, GoDecide(s, t, pos), t)
  {
    var d := GoDecide(s, t, pos);
    match s.pcs[t]
    case DelLockBucket(node, key, i) => TakeProceeds(s, d, t, DelCheck(node, key, i), key);
    case DelCheck(node, key, i) =>
      GotoProceeds(s, d, t, if s.slots[i].node == Some(node) then DelClear(node, key, i) else Idle);
    case RefLockBucket(node, key, i) => TakeProceeds(s, d, t, RefCheck(node, key, i), key);
    case RefCheck(node, key, i) =>
      GotoProceeds(s, d, t, if s.slots[i].magic != 0 then RefClear(node, key, i) else Idle);
    case _ => ClearProceeds(s, d, t, pos);
  }

  lemma ReadProceeds(s: State, d: State, t: nat, i: nat)
    requires t < |s.pcs| && s.pcs[t] == RefRead(i) && i < |s.slots| && d == ReadNode(s, t, i)
    ensures Proceeds(s, d, t)
  {
  }

  lemma GoProceeds(s: State, t: nat, pos: nat)
    requires Enabled(s, Go(t, pos))
    ensures Proceeds(s, DoGo(s, t, pos), t)
  {
    var d := DoGo(s, t, pos);
    if InAppend(s.pcs[t]) {
      AppendProceeds(s, t, pos);
    } else if Deciding(s.pcs[t]) {
      DecideProceeds(s, t, pos);
    } else {
      match s.pcs[t]
      case RefRead(i) => ReadProceeds(s, d, t, i);
      case DelLockTable(node, i, retire) => GotoProceeds(s, d, t, DelPush(node, i, retire));
      case DelPush(node, i, retire) => GotoProceeds(s, d, t, if retire then DelRetire(node) else Idle);
      case AccRead(i, m) => GotoProceeds(s, d, t, Accessed(i, m, s.slots[i].node));
      case _ => GotoProceeds(s, d, t, Idle);
    }
  }

  /** The append of n has returned. */
  ghost predicate Returned(s: State, n: Node) {
    n in s.links && forall u :: 0 <= u < |s.pcs| && s.pcs[u].AppKey? ==> s.pcs[u].node != n
  }

  /**
   What a caller can see to before calling: a node is deleted only after its append has returned,
   and no delete by reference shares its node with another delete call.
   */
  ghost predicate Careful(s: State, step: Step) {
    match step
    case CallDelete(t, n) =>
      Returned(s, n) && forall u :: 0 <= u < |s.pcs| && ByRef(s.pcs[u]) ==> Target(s, s.pcs[u]) != Some(n)
    case CallDeleteByRef(t, i, m) =>
      i < |s.slots| && s.slots[i].magic == m ==>
        && s.slots[i].node.Some? && Returned(s, s.slots[i].node.value)
        && forall u :: 0 <= u < |s.pcs| ==> Target(s, s.pcs[u]) != s.slots[i].node
    case _ => true
  }

  // ---------- Keys ----------

  ghost predicate Stored(s: State, n: Node) {
    n in s.links && n in s.keys && s.keys[n] == s.links[n].key
  }

  lemma ReturnedIsStored(s: State, n: Node)
    requires Keys(s) && Returned(s, n)
    ensures Stored(s, n)
  {
    assert GoodKey(s, n);
  }

  lemma StoredStays(s: State, d: State, t: nat, n: Node)
    requires OnlyMoves(s, d, t) && KeysMove(s, d, t) && Stored(s, n)
    ensures Stored(d, n)
  {
  }

  ghost predicate RightKey(s: State, t: nat)
    requires t < |s.pcs|
  {
    Deciding(s.pcs[t]) ==> s.pcs[t].node in s.links && s.links[s.pcs[t].node].key == s.pcs[t].key
  }

  /** Every delete under way has read the key its append stored. */
  ghost predicate RightKeys(s: State) {
    forall t :: 0 <= t < |s.pcs| ==> RightKey(s, t)
  }

  lemma RightKeysKept(s: State, d: State, t: nat)
    requires RightKeys(s) && OnlyMoves(s, d, t) && RightKey(d, t)
    ensures RightKeys(d)
  {
    forall u | 0 <= u < |d.pcs|
      ensures RightKey(d, u)
    {
      assert RightKey(s, u);
    }
  }

  // ---------- Deletes by reference ----------

  ghost predicate AloneAt(s: State, t: nat)
    requires t < |s.pcs|
  {
    var n := Target(s, s.pcs[t]);
    && n.Some? && InTable(s, n.value) && s.pcs[t].i == s.links[n.value].index && Stored(s, n.value)
    && forall u :: 0 <= u < |s.pcs| && u != t ==> Target(s, s.pcs[u]) != n
  }

  /** Every delete by reference under way is alone with a node that is still in the table. */
  ghost predicate Alone(s: State) {
    forall t :: 0 <= t < |s.pcs| && ByRef(s.pcs[t]) ==> AloneAt(s, t)
  }

  lemma AloneIsStable(s: State, step: Step)
    requires Inv(s) && Alone(s) && RightKeys(s) && Enabled(s, step)
    ensures Stable(s, step)
  {
    var t := step.t;
    assert GoodThread(s, t) && RightKey(s, t);
    if Deciding(s.pcs[t]) {
      assert GoodNode(s, s.pcs[t].node);
    }
    if ByRef(s.pcs[t]) {
      assert AloneAt(s, t);
      assert GoodSlot(s, s.pcs[t].i);
    }
  }

  /** Linked slots other than x stay as they are, and thread t's new target is its old one or none. */
  ghost predicate TargetsKept(s: State, d: State, t: nat, x: nat) {
    && OnlyMoves(s, d, t) && KeysMove(s, d, t)
    && (Target(d, d.pcs[t]).Some? || ByRef(d.pcs[t]) ==> Target(d, d.pcs[t]) == Target(s, s.pcs[t]))
    && (ByRef(d.pcs[t]) ==> ByRef(s.pcs[t]) && d.pcs[t].i == s.pcs[t].i)
    && |s.slots| == |s.owner|
    && (forall j :: 0 <= j < |s.slots| && j != x && s.owner[j].Linked? ==>
          d.slots[j] == s.slots[j] && d.owner[j] == s.owner[j])
  }

  lemma OtherTargetsKept(s: State, d: State, t: nat, x: nat)
    requires Alone(s) && TargetsKept(s, d, t, x)
    requires forall u :: 0 <= u < |s.pcs| && s.pcs[u].RefRead? && u != t ==> s.pcs[u].i != x
    ensures forall u :: 0 <= u < |s.pcs| && u != t ==> Target(d, d.pcs[u]) == Target(s, s.pcs[u])
  {
    forall u | 0 <= u < |s.pcs| && u != t
      ensures Target(d, d.pcs[u]) == Target(s, s.pcs[u])
    {
      if s.pcs[u].RefRead? {
        assert AloneAt(s, u);
      }
    }
  }

  lemma AloneAtKept(s: State, d: State, t: nat, x: nat, u: nat)
    requires TargetsKept(s, d, t, x) && u < |s.pcs| && ByRef(d.pcs[u]) && ByRef(s.pcs[u]) && AloneAt(s, u)
    requires forall v :: 0 <= v < |s.pcs| && v != t ==> Target(d, d.pcs[v]) == Target(s, s.pcs[v])
    requires d.pcs[u].i != x
    ensures AloneAt(d, u)
  {
    var n := Target(s, s.pcs[u]).value;
    StoredStays(s, d, t, n);
    assert Target(d, d.pcs[u]) == Some(n);
  }

  lemma AloneKept(s: State, d: State, t: nat, x: nat)
    requires Alone(s) && TargetsKept(s, d, t, x)
    requires forall u :: 0 <= u < |s.pcs| && ByRef(d.pcs[u]) ==> d.pcs[u].i != x
    requires forall u :: 0 <= u < |s.pcs| && s.pcs[u].RefRead? && u != t ==> s.pcs[u].i != x
    ensures Alone(d)
  {
    OtherTargetsKept(s, d, t, x);
    forall u | 0 <= u < |d.pcs| && ByRef(d.pcs[u])
      ensures AloneAt(d, u)
    {
      assert ByRef(s.pcs[u]) && AloneAt(s, u);
      AloneAtKept(s, d, t, x, u);
    }
  }

  lemma RefsFit(s: State)
    requires Slots(s) && Alone(s)
    ensures forall u :: 0 <= u < |s.pcs| && ByRef(s.pcs[u]) ==> s.pcs[u].i < |s.slots|
  {
    forall u | 0 <= u < |s.pcs| && ByRef(s.pcs[u])
      ensures s.pcs[u].i < |s.slots|
    {
      assert AloneAt(s, u);
    }
  }

  lemma TargetsKeepAlone(s: State, d: State, t: nat)
    requires Slots(s) && Alone(s) && TargetsKept(s, d, t, |s.slots|)
    ensures Alone(d)
  {
    RefsFit(s);
    AloneKept(s, d, t, |s.slots|);
  }

  // ---------- Calls ----------

  /** The caller's own target is new; everybody else's stays. */
  lemma NewTargetKeepsAlone(s: State, d: State, t: nat)
    requires Alone(s) && t < |s.pcs| == |d.pcs| && d == s.(pcs := s.pcs[t := d.pcs[t]])
    requires Target(d, d.pcs[t]).Some?
    requires forall u :: 0 <= u < |s.pcs| && ByRef(s.pcs[u]) && u != t ==> Target(s, s.pcs[u]) != Target(d, d.pcs[t])
    requires ByRef(d.pcs[t]) ==> AloneAt(d, t)
    ensures Alone(d)
  {
    forall u | 0 <= u < |d.pcs| && ByRef(d.pcs[u])
      ensures AloneAt(d, u)
    {
      if u != t {
        assert AloneAt(s, u) && d.pcs[u] == s.pcs[u];
        assert forall v :: 0 <= v < |s.pcs| && v != t ==> Target(d, d.pcs[v]) == Target(s, s.pcs[v]);
      }
    }
  }

  lemma CallAppendKeepsAlone(s: State, step: Step)
    requires Slots(s) && Alone(s) && Enabled(s, step) && (step.CallAppend? || step.CallAccess?)
    requires QuietMove(s, Do(s, step), step.t)
    ensures Alone(Do(s, step))
  {
    TargetsKeepAlone(s, Do(s, step), step.t);
  }

  lemma CallDeleteKeepsAlone(s: State, step: Step)
    requires Alone(s) && Enabled(s, step) && Careful(s, step) && step.CallDelete?
    ensures Alone(Do(s, step))
  {
    NewTargetKeepsAlone(s, Do(s, step), step.t);
  }

  /** The node a careful delete by reference is called for is in the table. */
  lemma CallByRefFinds(s: State, step: Step)
    requires Slots(s) && Keys(s) && Threads(s) && Enabled(s, step) && Careful(s, step)
    requires step.CallDeleteByRef? && s.slots[step.i].magic == step.m
    ensures s.slots[step.i].node.Some?
    ensures var n := s.slots[step.i].node.value; (InTable(s, n) && s.links[n].index == step.i && Stored(s, n))
  {
    ReturnedIsStored(s, s.slots[step.i].node.value);
    assert GoodSlot(s, step.i);
    assert s.owner[step.i].Appending? ==> GoodThread(s, s.owner[step.i].t);
  }

  lemma CallByRefKeepsAlone(s: State, step: Step)
    requires Alone(s) && Enabled(s, step) && Careful(s, step) && |s.slots| == |s.owner|
    requires step.CallDeleteByRef? && s.slots[step.i].magic == step.m && s.slots[step.i].node.Some?
    requires var n := s.slots[step.i].node.value; (InTable(s, n) && s.links[n].index == step.i && Stored(s, n))
    ensures Alone(Do(s, step))
  {
    var d := Do(s, step);
    assert forall u :: 0 <= u < |s.pcs| && u != step.t ==> Target(d, d.pcs[u]) == Target(s, s.pcs[u]);
    assert AloneAt(d, step.t);
    NewTargetKeepsAlone(s, d, step.t);
  }

  lemma CallKeepsAlone(s: State, step: Step)
    requires Inv(s) && Alone(s) && Enabled(s, step) && Careful(s, step) && !step.Go?
    ensures Alone(Do(s, step))
  {
    if step.CallAppend? || step.CallAccess? {
      CallIsQuiet(s, step);
      CallAppendKeepsAlone(s, step);
    } else if step.CallDelete? {
      CallDeleteKeepsAlone(s, step);
    } else if s.slots[step.i].magic == step.m {
      CallByRefFinds(s, step);
      CallByRefKeepsAlone(s, step);
    }
  }

  lemma CallKeepsRightKeys(s: State, step: Step)
    requires Inv(s) && RightKeys(s) && Enabled(s, step) && Careful(s, step) && !step.Go?
    ensures RightKeys(Do(s, step))
  {
    CallIsQuiet(s, step);
    if step.CallDelete? {
      ReturnedIsStored(s, step.node);
    }
    assert RightKey(s, step.t);
    RightKeysKept(s, Do(s, step), step.t);
  }

  // ---------- Steps of a call ----------

  lemma ClearKeepsAlone(s: State, d: State, t: nat)
    requires Slots(s) && Nodes(s) && Keys(s) && Threads(s) && Alone(s) && Clears(s, d, t)
    ensures Alone(d)
  {
    ClearFinds(s, d, t);
    ClearMove(s, d, t);
    forall u | 0 <= u < |s.pcs| && ByRef(s.pcs[u]) && u != t
      ensures s.pcs[u].i != s.pcs[t].i
    {
      assert AloneAt(s, u);
      assert Target(s, s.pcs[t]) != Target(s, s.pcs[u]);
    }
    AloneKept(s, d, t, s.pcs[t].i);
  }

  /** Quiet steps forget a target or keep it. */
  lemma QuietKeepsTargets(s: State, d: State, t: nat)
    requires QuietMove(s, d, t) && Follows(s, s.pcs[t], d.pcs[t]) && |s.slots| == |s.owner|
    ensures TargetsKept(s, d, t, |s.slots|)
  {
  }

  lemma GoQuietKeepsAlone(s: State, t: nat, pos: nat)
    requires Inv(s) && Alone(s) && Enabled(s, Go(t, pos)) && Stable(s, Go(t, pos)) && GoesQuietly(s.pcs[t])
    ensures Alone(DoGo(s, t, pos))
  {
    GoIsQuiet(s, t, pos);
    GoProceeds(s, t, pos);
    QuietKeepsTargets(s, DoGo(s, t, pos), t);
    TargetsKeepAlone(s, DoGo(s, t, pos), t);
  }

  /** A step of an append, or of a delete that is decided: no target, and linked slots stay. */
  lemma NoTargetKept(s: State, d: State, t: nat)
    requires Slots(s) && OwnMove(s, d, t) && !Deciding(d.pcs[t]) && !d.pcs[t].RefRead?
    requires forall j :: 0 <= j < |s.slots| && s.owner[j].Linked? ==>
               d.slots[j] == s.slots[j] && d.owner[j] == s.owner[j]
    ensures TargetsKept(s, d, t, |s.slots|)
  {
  }

  lemma LinkKeepsAlone(s: State, d: State, t: nat, pos: nat)
    requires Slots(s) && Keys(s) && Alone(s) && Links(s, d, t, pos)
    ensures Alone(d)
  {
    assert GoodSlot(s, s.pcs[t].i);
    LinkMove(s, d, t, pos);
    NoTargetKept(s, d, t);
    TargetsKeepAlone(s, d, t);
  }

  lemma PopKeepsAlone(s: State, d: State, t: nat, node: Node, key: nat)
    requires Slots(s) && Alone(s) && t < |s.pcs| && GoodThread(s, t) && s.pcs[t] == AppPop(node, key)
    requires QueueFits(s) && d == Pop(s, t, node, key)
    ensures Alone(d)
  {
    assert s.freeQ != [] ==> s.freeQ[0] in s.freeQ && GoodSlot(s, s.freeQ[0]);
    PopMove(s, d, t, node, key);
    NoTargetKept(s, d, t);
    TargetsKeepAlone(s, d, t);
  }

  lemma StoreKeepsAlone(s: State, d: State, t: nat, node: Node, key: nat, i: nat)
    requires Slots(s) && Alone(s) && t < |s.pcs| && GoodThread(s, t) && s.pcs[t] == AppStore(node, key, i)
    requires i < |s.slots| && d == Store(s, t, node, key, i)
    ensures Alone(d)
  {
    StoreMove(s, d, t, node, key, i);
    NoTargetKept(s, d, t);
    TargetsKeepAlone(s, d, t);
  }

  lemma PushKeepsAlone(s: State, d: State, t: nat, node: Node, i: nat, retire: bool)
    requires Slots(s) && Alone(s) && t < |s.pcs| && GoodThread(s, t) && s.pcs[t] == DelPush(node, i, retire)
    requires i < |s.owner| && d == Push(s, t, node, i, retire)
    ensures Alone(d)
  {
    PushMove(s, d, t, node, i, retire);
    NoTargetKept(s, d, t);
    TargetsKeepAlone(s, d, t);
  }

  lemma RetireKeepsAlone(s: State, d: State, t: nat, node: Node)
    requires Slots(s) && Alone(s) && t < |s.pcs| && GoodThread(s, t) && s.pcs[t] == DelRetire(node)
    requires d == Retire(s, t, node)
    ensures Alone(d)
  {
    RetireMove(s, d, t, node);
    NoTargetKept(s, d, t);
    TargetsKeepAlone(s, d, t);
  }

  lemma GoKeepsAlone(s: State, t: nat, pos: nat)
    requires Inv(s) && Alone(s) && Enabled(s, Go(t, pos)) && Stable(s, Go(t, pos))
    ensures Alone(DoGo(s, t, pos))
  {
    var d, pc := DoGo(s, t, pos), s.pcs[t];
    assert GoodThread(s, t);
    if GoesQuietly(pc) {
      GoQuietKeepsAlone(s, t, pos);
    } else if Clearing(pc) {
      GoClears(s, t, pos);
      ClearKeepsAlone(s, d, t);
    } else if pc.AppLink? {
      GoLinks(s, t, pos);
      LinkKeepsAlone(s, d, t, pos);
    } else if pc.AppPop? {
      PopKeepsAlone(s, d, t, pc.node, pc.key);
    } else if pc.AppStore? {
      StoreKeepsAlone(s, d, t, pc.node, pc.key, pc.i);
    } else if pc.DelPush? {
      PushKeepsAlone(s, d, t, pc.node, pc.i, pc.retire);
    } else {
      RetireKeepsAlone(s, d, t, pc.node);
    }
  }

  /** A delete keeps the key it has read, or reads one that is stored. */
  lemma GoKeepsRightKey(s: State, d: State, t: nat)
    requires Alone(s) && RightKeys(s) && OnlyMoves(s, d, t) && Follows(s, s.pcs[t], d.pcs[t])
    ensures RightKey(d, t)
  {
    assert RightKey(s, t);
    assert s.pcs[t].RefRead? ==> AloneAt(s, t);
  }

  // ---------- Runs ----------

  ghost predicate CarefulRun(states: seq<State>, steps: seq<Step>) {
    IsRun(states, steps) && forall i :: 0 <= i < |steps| ==> Careful(states[i], steps[i])
  }

  lemma CarefulStep(s: State, step: Step)
    requires Inv(s) && Alone(s) && RightKeys(s) && Enabled(s, step) && Careful(s, step)
    ensures Stable(s, step) && Inv(Do(s, step)) && Alone(Do(s, step)) && RightKeys(Do(s, step))
  {
    AloneIsStable(s, step);
    StepKeepsInv(s, step);
    if step.Go? {
      GoKeepsAlone(s, step.t, step.pos);
      StepMoves(s, step);
      GoProceeds(s, step.t, step.pos);
      GoKeepsRightKey(s, Do(s, step), step.t);
      RightKeysKept(s, Do(s, step), step.t);
    } else {
      CallKeepsAlone(s, step);
      CallKeepsRightKeys(s, step);
    }
  }

  lemma {:induction false} CarefulRunIsAlone(states: seq<State>, steps: seq<Step>, k: nat)
    requires CarefulRun(states, steps) && k <= |steps|
    ensures Inv(states[k]) && Alone(states[k]) && RightKeys(states[k])
  {
    if k == 0 {
      InitInv(states[0]);
    } else {
      CarefulRunIsAlone(states, steps, k - 1);
      CarefulStep(states[k - 1], steps[k - 1]);
    }
  }

  /** Careful callers make every run stable, so all that holds of stable runs holds of theirs. */
  lemma CarefulCallersAreSafe(states: seq<State>, steps: seq<Step>)
    requires CarefulRun(states, steps)
    ensures StableRun(states, steps)
  {
    forall i | 0 <= i < |steps|
      ensures Stable(states[i], steps[i])
    {
      CarefulRunIsAlone(states, steps, i);
      CarefulStep(states[i], steps[i]);
    }
  }

  /** Callers who never delete by reference, and a node only after its append has returned. */
  ghost predicate PlainRun(states: seq<State>, steps: seq<Step>) {
    && IsRun(states, steps)
    && forall i :: 0 <= i < |steps| ==>
         !steps[i].CallDeleteByRef? && (steps[i].CallDelete? ==> Returned(states[i], steps[i].node))
  }

  ghost predicate NoneByRef(s: State) {
    forall t :: 0 <= t < |s.pcs| ==> !ByRef(s.pcs[t])
  }

  lemma StepByRef(s: State, step: Step)
    requires Enabled(s, step) && !step.CallDeleteByRef? && NoneByRef(s)
    ensures NoneByRef(Do(s, step))
  {
    if step.Go? {
      GoProceeds(s, step.t, step.pos);
    }
  }

  lemma {:induction false} NobodyByRef(states: seq<State>, steps: seq<Step>, k: nat)
    requires PlainRun(states, steps) && k <= |steps|
    ensures NoneByRef(states[k])
  {
    if k > 0 {
      NobodyByRef(states, steps, k - 1);
      StepByRef(states[k - 1], steps[k - 1]);
      assert states[k] == Do(states[k - 1], steps[k - 1]);
    }
  }

  /** For MCHASH_DELETE_NODE alone it is enough to wait for the append, however many deletes race. */
  lemma PlainDeletesAreSafe(states: seq<State>, steps: seq<Step>)
    requires PlainRun(states, steps)
    ensures StableRun(states, steps)
  {
    forall i | 0 <= i < |steps|
      ensures Careful(states[i], steps[i])
    {
      NobodyByRef(states, steps, i);
    }
    CarefulCallersAreSafe(states, steps);
  }
}
