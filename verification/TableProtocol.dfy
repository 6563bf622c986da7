/**
 Threads that append to, delete from and look into one multi-core hash table at the same time
 (ofcdriver/include/mchash.h).  A step is what a thread does between two points at which others can
 interfere: a lock taken or released, or a field read or written that others use without the lock.

 Each bucket's chain is a sequence here; BucketReaders takes its stores apart.  A `Node` stands for
 one stay of an application node in the table, so a node is appended once.  `owner`,
 `appender`, `wins` and `over` are history variables.
 */
module TableProtocol {
  import opened Common
  import opened Magic

  type Node = nat

  datatype Slot = Slot(magic: nat, node: Option<Node>)   // array_indirect_entry
  datatype Link = Link(index: nat, key: nat)             // where an append puts its node

  datatype Pc =
    | Idle
    | AppLockTable(node: Node, key: nat)
    | AppPop(node: Node, key: nat)                       // table lock held
    | AppStore(node: Node, key: nat, i: nat)
    | AppLockBucket(node: Node, key: nat, i: nat)
    | AppLink(node: Node, key: nat, i: nat)              // bucket lock held
    | AppKey(node: Node, key: nat, i: nat)               // published; bucket lock held, key not stored yet
    | DelLockBucket(node: Node, key: nat, i: nat)        // key: as read from the node
    | DelCheck(node: Node, key: nat, i: nat)             // the lock of bucket `key` held
    | DelClear(node: Node, key: nat, i: nat)             // still held; the slot held the node
    | RefRead(i: nat)                                    // the magic matched; node_p not read yet
    | RefLockBucket(node: Node, key: nat, i: nat)        // key: as read from the node
    | RefCheck(node: Node, key: nat, i: nat)             // the lock of bucket `key` held
    | RefClear(node: Node, key: nat, i: nat)             // still held; the magic was not 0
    | DelLockTable(node: Node, i: nat, retire: bool)     // unlinked; retire: CALL_RCU still to come
    | DelPush(node: Node, i: nat, retire: bool)          // table lock held
    | DelRetire(node: Node)
    | AccRead(i: nat, m: nat)                            // the magic matched; node_p not read yet
    | Accessed(i: nat, m: nat, found: Option<Node>)      // about to return TRUE with this nodeobj_p
    | Fault                                              // followed a null or unset pointer, or left bucket_list

  datatype Owner = Free | Appending(t: nat) | Linked(n: Node) | Deleting(t: nat)

  datatype State = State(
    magicNo: nat,
    active: int,
    freeQ: seq<nat>,
    slots: seq<Slot>,
    lists: seq<seq<Node>>,
    counts: seq<int>,            // bucket counters, less what MCHASH_APPEND_NODE counts twice
    keys: map<Node, nat>,        // the key field of each node handed to an append
    links: map<Node, Link>,      // the nodes published so far
    tableLock: Option<nat>,
    bucketLocks: seq<Option<nat>>,
    pcs: seq<Pc>,
    retired: multiset<Node>,     // CALL_RCU calls made
    owner: seq<Owner>,
    appender: map<Node, nat>,
    wins: map<Node, seq<nat>>,   // threads whose delete of the node succeeded
    over: set<Node>)             // nodes some delete call has returned for

  datatype Step =
    | CallAppend(t: nat, node: Node, key: nat, stale: nat)   // stale: what the node's key field holds before
    | CallDelete(t: nat, node: Node)
    | CallDeleteByRef(t: nat, i: nat, m: nat)
    | CallAccess(t: nat, i: nat, m: nat)
    | Go(t: nat, pos: nat)       // the next step; pos: where AppLink links, or 0 for a null prev_p in a clear

  predicate HoldsTable(pc: Pc) {
    pc.AppPop? || pc.DelPush?
  }

  predicate Clearing(pc: Pc) {
    pc.DelClear? || pc.RefClear?
  }

  /** The bucket whose lock a thread at pc holds. */
  function Held(pc: Pc): Option<nat> {
    if pc.AppLink? || pc.AppKey? || pc.DelCheck? || pc.RefCheck? || Clearing(pc) then Some(pc.key) else None
  }

  function Wanted(pc: Pc): Option<nat> {
    if pc.AppLockBucket? || pc.DelLockBucket? || pc.RefLockBucket? then Some(pc.key) else None
  }

  /** What the thread's position takes for granted of the sizes of arrays. */
  predicate Fits(s: State, pc: Pc, pos: nat) {
    && |s.owner| == |s.slots| && |s.counts| == |s.lists|
    && (pc.AppPop? ==> QueueFits(s))
    && (pc.AppLink? ==> pc.key < |s.lists| && pos <= |s.lists[pc.key]|)
    && (Held(pc).Some? ==> Held(pc).value < |s.bucketLocks| && Held(pc).value < |s.lists| && pc.i < |s.slots|)
    && (pc.AppStore? || pc.RefRead? || pc.AccRead? || pc.DelPush? ==> pc.i < |s.slots|)
    && (Clearing(pc) && pc.node in s.links ==> pc.node in s.wins && s.links[pc.node].key < |s.lists|)
  }

  predicate Enabled(s: State, step: Step) {
    && step.t < |s.pcs|
    && match step
       case CallAppend(t, node, key, stale) => s.pcs[t].Idle? && node !in s.appender && key < |s.lists|
       case CallDelete(t, node) => s.pcs[t].Idle? && node in s.links && node in s.keys
       case CallDeleteByRef(t, i, m) => s.pcs[t].Idle? && m != 0 && i < |s.slots|
       case CallAccess(t, i, m) => s.pcs[t].Idle? && m != 0 && i < |s.slots|
       case Go(t, pos) =>
         var pc := s.pcs[t];
         && !pc.Idle? && !pc.Fault? && Fits(s, pc, pos)
         && (pc.AppLockTable? || pc.DelLockTable? ==> s.tableLock.None?)
         && (Wanted(pc).Some? && Wanted(pc).value < |s.bucketLocks| ==> s.bucketLocks[Wanted(pc).value].None?)
  }

  function Goto(s: State, t: nat, pc: Pc): State
    requires t < |s.pcs|
  {
    s.(pcs := s.pcs[t := pc])
  }

  function TakeTable(s: State, t: nat, pc: Pc): State
    requires t < |s.pcs|
  {
    Goto(s, t, pc).(tableLock := Some(t))
  }

  /** A key field that no append has stored yet may name a bucket that is not there. */
  function TakeBucket(s: State, t: nat, pc: Pc, key: nat): State
    requires t < |s.pcs|
  {
    if key < |s.bucketLocks| then Goto(s, t, pc).(bucketLocks := s.bucketLocks[key := Some(t)]) else Goto(s, t, Fault)
  }

  predicate QueueFits(s: State) {
    |s.owner| == |s.slots| && forall j :: 0 <= j < |s.freeQ| ==> s.freeQ[j] < |s.slots|
  }

  /** Under the table lock: the first free slot gets the next magic. */
  function Pop(s: State, t: nat, node: Node, key: nat): State
    requires t < |s.pcs| && QueueFits(s)
  {
    if s.freeQ == [] then Goto(s, t, Idle).(tableLock := None)
    else
      var i := s.freeQ[0];
      Goto(s, t, AppStore(node, key, i))
      .(tableLock := None, freeQ := s.freeQ[1..], slots := s.slots[i := s.slots[i].(magic := s.magicNo)],
        magicNo := NextMagic(s.magicNo), active := s.active + 1, owner := s.owner[i := Appending(t)])
  }

  function Store(s: State, t: nat, node: Node, key: nat, i: nat): State
    requires t < |s.pcs| && i < |s.slots|
  {
    Goto(s, t, AppLockBucket(node, key, i)).(slots := s.slots[i := s.slots[i].(node := Some(node))])
  }

  /** Under the bucket lock: the node enters its list, and scans can find it. */
  function LinkIn(s: State, t: nat, node: Node, key: nat, i: nat, pos: nat): State
    requires t < |s.pcs| && i < |s.owner| && key < |s.lists| == |s.counts| && pos <= |s.lists[key]|
  {
    Goto(s, t, AppKey(node, key, i))
    .(lists := s.lists[key := InsertAt(s.lists[key], pos, node)], counts := s.counts[key := s.counts[key] + 1],
      links := s.links[node := Link(i, key)], owner := s.owner[i := Linked(node)], wins := s.wins[node := []])
  }

  /** Only then its key is stored; still under the bucket lock. */
  function StoreKey(s: State, t: nat, node: Node, key: nat): State
    requires t < |s.pcs| && key < |s.bucketLocks|
  {
    Goto(s, t, Idle).(keys := s.keys[node := key], bucketLocks := s.bucketLocks[key := None])
  }

  /**
   Unlinking n, of bucket `own`, as a member of bucket `key`: a first node with a null prev_p leaves
   the next node to the head of bucket `key`, whichever that is.
   */
  function Unlinked(lists: seq<seq<Node>>, own: nat, key: nat, n: Node, pos: nat): seq<seq<Node>>
    requires own < |lists| && key < |lists|
  {
    if pos == 0 && lists[own] != [] && lists[own][0] == n then lists[key := lists[own][1..]]
    else lists[own := Without(lists[own], n)]
  }

  /** The bucket part of a successful delete, with these lists; by reference it calls CALL_RCU here. */
  function Cleared(s: State, t: nat, pc: Pc, lists: seq<seq<Node>>): State
    requires t < |s.pcs| && Clearing(pc)
    requires pc.i < |s.slots| == |s.owner| && pc.key < |s.bucketLocks| && pc.key < |s.counts| && pc.node in s.wins
  {
    Goto(s, t, DelLockTable(pc.node, pc.i, pc.DelClear?))
    .(slots := s.slots[pc.i := Slot(0, None)],
      lists := lists,
      counts := s.counts[pc.key := s.counts[pc.key] - 1],
      bucketLocks := s.bucketLocks[pc.key := None],
      owner := s.owner[pc.i := Deleting(t)],
      wins := s.wins[pc.node := s.wins[pc.node] + [t]],
      retired := if pc.RefClear? then s.retired + multiset{pc.node} else s.retired)
  }

  /** A node that was never published has no neighbours to unlink it from. */
  function Clear(s: State, t: nat, pc: Pc, pos: nat): State
    requires t < |s.pcs| && Clearing(pc) && Fits(s, pc, pos)
  {
    if pc.node in s.links then Cleared(s, t, pc, Unlinked(s.lists, s.links[pc.node].key, pc.key, pc.node, pos))
    else Goto(s, t, Fault)
  }

  /** A delete that finds nothing to do. */
  function Miss(s: State, t: nat, node: Node, key: nat): State
    requires t < |s.pcs| && key < |s.bucketLocks|
  {
    Goto(s, t, Idle).(bucketLocks := s.bucketLocks[key := None], over := s.over + {node})
  }

  /** The unlocked read of node_p, and of the key field of what it points to. */
  function ReadNode(s: State, t: nat, i: nat): State
    requires t < |s.pcs| && i < |s.slots|
  {
    var p := s.slots[i].node;
    Goto(s, t, if p.Some? && p.value in s.keys then RefLockBucket(p.value, s.keys[p.value], i) else Fault)
  }

  /** Under the table lock: the slot goes to the end of the free queue. */
  function Push(s: State, t: nat, node: Node, i: nat, retire: bool): State
    requires t < |s.pcs| && i < |s.owner|
  {
    Goto(s, t, if retire then DelRetire(node) else Idle)
    .(tableLock := None, active := s.active - 1, freeQ := s.freeQ + [i], owner := s.owner[i := Free],
      over := if retire then s.over else s.over + {node})
  }

  function Retire(s: State, t: nat, node: Node): State
    requires t < |s.pcs|
  {
    Goto(s, t, Idle).(retired := s.retired + multiset{node}, over := s.over + {node})
  }

  /** A delete that has read the key of its node and has not acted on it yet. */
  predicate Deciding(pc: Pc) {
    pc.DelLockBucket? || pc.DelCheck? || pc.RefLockBucket? || pc.RefCheck? || Clearing(pc)
  }

  predicate InAppend(pc: Pc) {
    pc.AppLockTable? || pc.AppPop? || pc.AppStore? || pc.AppLockBucket? || pc.AppLink? || pc.AppKey?
  }

  function GoAppend(s: State, t: nat, pos: nat): State
    requires Enabled(s, Go(t, pos)) && InAppend(s.pcs[t])
  {
    match s.pcs[t]
    case AppLockTable(node, key) => TakeTable(s, t, AppPop(node, key))
    case AppPop(node, key) => Pop(s, t, node, key)
    case AppStore(node, key, i) => Store(s, t, node, key, i)
    case AppLockBucket(node, key, i) => TakeBucket(s, t, AppLink(node, key, i), key)
    case AppLink(node, key, i) => LinkIn(s, t, node, key, i, pos)
    case AppKey(node, key, i) => StoreKey(s, t, node, key)
  }

  function GoDecide(s: State, t: nat, pos: nat): State
    requires Enabled(s, Go(t, pos)) && Deciding(s.pcs[t])
  {
    match s.pcs[t]
    case DelLockBucket(node, key, i) => TakeBucket(s, t, DelCheck(node, key, i), key)
    case DelCheck(node, key, i) =>
      if s.slots[i].node == Some(node) then Goto(s, t, DelClear(node, key, i)) else Miss(s, t, node, key)
    case DelClear(_, _, _) => Clear(s, t, s.pcs[t], pos)
    case RefLockBucket(node, key, i) => TakeBucket(s, t, RefCheck(node, key, i), key)
    case RefCheck(node, key, i) =>
      if s.slots[i].magic != 0 then Goto(s, t, RefClear(node, key, i)) else Miss(s, t, node, key)
    case RefClear(_, _, _) => Clear(s, t, s.pcs[t], pos)
  }

  function DoGo(s: State, t: nat, pos: nat): State
    requires Enabled(s, Go(t, pos))
  {
    var pc := s.pcs[t];
    if InAppend(pc) then GoAppend(s, t, pos)
    else if Deciding(pc) then GoDecide(s, t, pos)
    else
      match pc
      case RefRead(i) => ReadNode(s, t, i)
      case DelLockTable(node, i, retire) => TakeTable(s, t, DelPush(node, i, retire))
      case DelPush(node, i, retire) => Push(s, t, node, i, retire)
      case DelRetire(node) => Retire(s, t, node)
      case AccRead(i, m) => Goto(s, t, Accessed(i, m, s.slots[i].node))
      case Accessed(_, _, _) => Goto(s, t, Idle)
  }

  function Do(s: State, step: Step): State
    requires Enabled(s, step)
  {
    match step
    case CallAppend(t, node, key, stale) =>
      Goto(s, t, AppLockTable(node, key)).(appender := s.appender[node := t], keys := s.keys[node := stale])
    case CallDelete(t, node) => Goto(s, t, DelLockBucket(node, s.keys[node], s.links[node].index))
    case CallDeleteByRef(t, i, m) => if s.slots[i].magic == m then Goto(s, t, RefRead(i)) else s
    case CallAccess(t, i, m) => if s.slots[i].magic == m then Goto(s, t, AccRead(i, m)) else s
    case Go(t, pos) => DoGo(s, t, pos)
  }

  predicate Init(s: State) {
    && s.magicNo == 1 && s.active == 0 && s.freeQ == seq(|s.slots|, i => i)
    && (forall i :: 0 <= i < |s.slots| ==> s.slots[i] == Slot(0, None))
    && |s.counts| == |s.lists| && (forall b :: 0 <= b < |s.lists| ==> s.lists[b] == [] && s.counts[b] == 0)
    && s.keys == map[] && s.links == map[] && s.tableLock == None
    && |s.bucketLocks| == |s.lists| && (forall b :: 0 <= b < |s.bucketLocks| ==> s.bucketLocks[b] == None)
    && (forall t :: 0 <= t < |s.pcs| ==> s.pcs[t] == Idle)
    && s.retired == multiset{} && s.appender == map[] && s.wins == map[] && s.over == {}
    && |s.owner| == |s.slots| && forall i :: 0 <= i < |s.owner| ==> s.owner[i] == Free
  }

  // ---------- Invariant ----------

  ghost predicate TableLocked(s: State) {
    && (s.tableLock.Some? ==> s.tableLock.value < |s.pcs|)
    && forall t :: 0 <= t < |s.pcs| ==> (HoldsTable(s.pcs[t]) <==> s.tableLock == Some(t))
  }

  ghost predicate BucketsLocked(s: State) {
    && |s.bucketLocks| == |s.lists|
    && (forall b :: 0 <= b < |s.bucketLocks| && s.bucketLocks[b].Some? ==>
          s.bucketLocks[b].value < |s.pcs| && Held(s.pcs[s.bucketLocks[b].value]) == Some(b))
    && (forall t :: 0 <= t < |s.pcs| && Held(s.pcs[t]).Some? ==>
          Held(s.pcs[t]).value < |s.bucketLocks| && s.bucketLocks[Held(s.pcs[t]).value] == Some(t))
  }

  /** A lock is held by exactly the thread whose program counter says so. */
  ghost predicate Locks(s: State) {
    TableLocked(s) && BucketsLocked(s)
  }

  function AppSlot(pc: Pc): Option<nat> {
    if pc.AppStore? || pc.AppLockBucket? || pc.AppLink? then Some(pc.i) else None
  }

  function DelSlot(pc: Pc): Option<nat> {
    if pc.DelLockTable? || pc.DelPush? then Some(pc.i) else None
  }

  ghost predicate GoodSlot(s: State, i: nat)
    requires i < |s.slots| == |s.owner|
  {
    match s.owner[i]
    case Free => i in s.freeQ && s.slots[i] == Slot(0, None)
    case Appending(t) => t < |s.pcs| && AppSlot(s.pcs[t]) == Some(i) && s.slots[i].magic != 0
    case Linked(n) => n in s.links && s.links[n].index == i && s.slots[i].node == Some(n) && s.slots[i].magic != 0
    case Deleting(t) => t < |s.pcs| && DelSlot(s.pcs[t]) == Some(i) && s.slots[i] == Slot(0, None)
  }

  ghost predicate Slots(s: State) {
    && |s.slots| == |s.owner|
    && (forall i :: 0 <= i < |s.slots| ==> GoodSlot(s, i))
    && Distinct(s.freeQ)
    && (forall i :: i in s.freeQ ==> i < |s.slots| && s.owner[i] == Free)
    && s.active + |s.freeQ| == |s.slots|
    && 1 <= s.magicNo < UINT32
  }

  /** The append of n has got slot i. */
  ghost predicate Allocated(s: State, i: nat, n: Node) {
    && n in s.appender
    && if n in s.links then s.links[n].index == i
       else s.appender[n] < |s.pcs| && AppSlot(s.pcs[s.appender[n]]) == Some(i) && s.pcs[s.appender[n]].node == n
  }

  /** A thread in the middle of an append or delete owns the slot it works on. */
  ghost predicate Threads(s: State) {
    forall t :: 0 <= t < |s.pcs| ==> GoodThread(s, t)
  }

  /** Thread t is about to clear the slot of its node under the lock of the node's own bucket. */
  ghost predicate Checked(s: State, t: nat)
    requires t < |s.pcs|
  {
    var pc := s.pcs[t];
    pc.DelClear? && pc.i < |s.slots| && pc.node in s.links && s.links[pc.node].key == pc.key
  }

  ghost predicate GoodAppend(s: State, t: nat)
    requires t < |s.pcs|
  {
    var pc := s.pcs[t];
    && (AppSlot(pc).Some? ==> pc.i < |s.owner| && s.owner[pc.i] == Appending(t))
    && (pc.AppStore? && pc.i < |s.slots| ==> s.slots[pc.i].node == None)
    && (pc.AppLockBucket? || pc.AppLink? ==> pc.i < |s.slots| && s.slots[pc.i].node == Some(pc.node))
    && (pc.AppLockTable? || pc.AppPop? || AppSlot(pc).Some? ==>
          pc.key < |s.lists| && pc.node in s.appender && s.appender[pc.node] == t && pc.node !in s.links)
    && (pc.AppKey? ==>
          && pc.node in s.links && s.links[pc.node] == Link(pc.i, pc.key)
          && pc.node in s.appender && s.appender[pc.node] == t)
  }

  ghost predicate GoodDelete(s: State, t: nat)
    requires t < |s.pcs|
  {
    var pc := s.pcs[t];
    && (DelSlot(pc).Some? ==> pc.i < |s.owner| && s.owner[pc.i] == Deleting(t))
    && (pc.DelLockBucket? || pc.DelCheck? || pc.DelClear? ==> pc.node in s.links && s.links[pc.node].index == pc.i)
    && (Checked(s, t) ==> s.slots[pc.i].node == Some(pc.node))
    && (pc.RefLockBucket? || pc.RefCheck? || pc.RefClear? ==> Allocated(s, pc.i, pc.node))
    && (pc.RefRead? || pc.AccRead? ==> pc.i < |s.slots|)
    && (pc.DelLockTable? || pc.DelPush? || pc.DelRetire? ==>
          pc.node in s.links && pc.node in s.wins && s.wins[pc.node] == [t])
  }

  ghost predicate GoodThread(s: State, t: nat)
    requires t < |s.pcs|
  {
    !s.pcs[t].Fault? && GoodAppend(s, t) && GoodDelete(s, t)
  }

  ghost predicate InTable(s: State, n: Node) {
    n in s.links && s.links[n].index < |s.owner| && s.owner[s.links[n].index] == Linked(n)
  }

  ghost predicate Lists(s: State) {
    && (forall b :: 0 <= b < |s.lists| ==> Distinct(s.lists[b]))
    && (forall b, n :: 0 <= b < |s.lists| && n in s.lists[b] ==> n in s.links && s.links[n].key == b && InTable(s, n))
    && (forall n :: n in s.links && InTable(s, n) ==> s.links[n].key < |s.lists| && n in s.lists[s.links[n].key])
  }

  ghost predicate Counts(s: State) {
    |s.counts| == |s.lists| && forall b :: 0 <= b < |s.lists| ==> s.counts[b] == |s.lists[b]|
  }

  /** The key field of a published node is right, or its append is about to store it. */
  ghost predicate GoodKey(s: State, n: Node)
    requires n in s.links
  {
    && n in s.appender && n in s.keys
    && (s.keys[n] == s.links[n].key
        || (s.appender[n] < |s.pcs| && s.pcs[s.appender[n]] == AppKey(n, s.links[n].key, s.links[n].index)))
  }

  ghost predicate Keys(s: State) {
    && (forall n :: n in s.appender ==> n in s.keys)
    && (forall n :: n in s.links ==> GoodKey(s, n))
  }

  /** The thread still owes the node its CALL_RCU. */
  predicate Owes(pc: Pc, n: Node) {
    ((pc.DelLockTable? || pc.DelPush?) && pc.retire && pc.node == n) || pc == DelRetire(n)
  }

  ghost predicate GoodNode(s: State, n: Node)
    requires n in s.links && n in s.wins
  {
    && n in s.appender
    && s.links[n].index < |s.slots| && s.links[n].key < |s.lists|
    && (s.wins[n] == [] <==> InTable(s, n))
    && (s.wins[n] == [] ==> s.retired[n] == 0)
    && (s.wins[n] != [] ==> |s.wins[n]| == 1 && s.wins[n][0] < |s.pcs|
                            && s.retired[n] == if Owes(s.pcs[s.wins[n][0]], n) then 0 else 1)
  }

  ghost predicate Nodes(s: State) {
    && s.links.Keys == s.wins.Keys
    && (forall n :: n in s.links ==> GoodNode(s, n))
    && (forall n :: n !in s.links ==> s.retired[n] == 0)
    && (forall n :: n in s.over ==> n in s.wins && s.wins[n] != [])
  }

  ghost predicate Inv(s: State) {
    Locks(s) && Slots(s) && Lists(s) && Counts(s) && Keys(s) && Nodes(s) && Threads(s)
  }

  /**
   What the deletes take for granted.  Neither macro may act on a node whose key field its append
   has yet to store, unless the field happens to hold that key already: it would lock another
   bucket, or none.  A delete by reference also needs its slot to hold a node when it reads node_p,
   and when it clears the slot the node it read, published; MCHASH_DELETE_NODE checks the latter.
   */
  predicate Stable(s: State, step: Step) {
    step.Go? && step.t < |s.pcs| ==>
      var pc := s.pcs[step.t];
      && (pc.RefRead? && pc.i < |s.slots| ==> s.slots[pc.i].node.Some?)
      && (Wanted(pc).Some? ==> Wanted(pc).value < |s.bucketLocks|)
      && (Clearing(pc) ==> pc.node in s.links && s.links[pc.node].key == pc.key)
      && (pc.RefClear? && pc.i < |s.slots| ==> s.slots[pc.i].node == Some(pc.node))
  }

  // ---------- What one thread's step leaves alone ----------

  ghost predicate OnlyMoves(s: State, d: State, t: nat) {
    && t < |s.pcs| == |d.pcs| && (forall u :: 0 <= u < |s.pcs| && u != t ==> d.pcs[u] == s.pcs[u])
    && |d.slots| == |s.slots| && |d.owner| == |s.owner| && |d.lists| == |s.lists|
    && (forall n :: n in s.appender ==> n in d.appender && d.appender[n] == s.appender[n])
    && (forall n :: n in s.links ==> n in d.links && d.links[n] == s.links[n])
  }

  ghost predicate TableLockMove(s: State, d: State, t: nat)
    requires t < |s.pcs| == |d.pcs|
  {
    if HoldsTable(s.pcs[t]) == HoldsTable(d.pcs[t]) then d.tableLock == s.tableLock
    else if HoldsTable(d.pcs[t]) then s.tableLock == None && d.tableLock == Some(t)
    else d.tableLock == None
  }

  ghost predicate BucketLockMove(s: State, d: State, t: nat)
    requires t < |s.pcs| == |d.pcs|
  {
    if Held(s.pcs[t]) == Held(d.pcs[t]) then d.bucketLocks == s.bucketLocks
    else if Held(d.pcs[t]).Some? then
      && Held(s.pcs[t]).None? && Held(d.pcs[t]).value < |s.bucketLocks|
      && s.bucketLocks[Held(d.pcs[t]).value] == None
      && d.bucketLocks == s.bucketLocks[Held(d.pcs[t]).value := Some(t)]
    else Held(s.pcs[t]).value < |s.bucketLocks| && d.bucketLocks == s.bucketLocks[Held(s.pcs[t]).value := None]
  }

  /** Thread t keeps what it holds, takes one free lock, or releases one. */
  ghost predicate LockMove(s: State, d: State, t: nat)
    requires t < |s.pcs| == |d.pcs|
  {
    TableLockMove(s, d, t) && BucketLockMove(s, d, t)
  }

  lemma TableLockKept(s: State, d: State, t: nat)
    requires TableLocked(s) && OnlyMoves(s, d, t) && TableLockMove(s, d, t)
    ensures TableLocked(d)
  {
  }

  lemma BucketHolderKept(s: State, d: State, t: nat, b: nat)
    requires BucketsLocked(s) && OnlyMoves(s, d, t) && BucketLockMove(s, d, t)
    requires b < |d.bucketLocks| && d.bucketLocks[b].Some?
    ensures d.bucketLocks[b].value < |d.pcs| && Held(d.pcs[d.bucketLocks[b].value]) == Some(b)
  {
    assert b < |s.bucketLocks| && (s.bucketLocks[b].Some? || Held(d.pcs[t]) == Some(b));
  }

  lemma HeldBucketKept(s: State, d: State, t: nat, u: nat)
    requires BucketsLocked(s) && OnlyMoves(s, d, t) && BucketLockMove(s, d, t)
    requires u < |d.pcs| && Held(d.pcs[u]).Some?
    ensures Held(d.pcs[u]).value < |d.bucketLocks| && d.bucketLocks[Held(d.pcs[u]).value] == Some(u)
  {
    assert u != t ==> Held(s.pcs[u]) == Held(d.pcs[u]);
  }

  lemma BucketLocksKept(s: State, d: State, t: nat)
    requires BucketsLocked(s) && OnlyMoves(s, d, t) && BucketLockMove(s, d, t)
    ensures BucketsLocked(d)
  {
    forall b | 0 <= b < |d.bucketLocks| && d.bucketLocks[b].Some?
      ensures d.bucketLocks[b].value < |d.pcs| && Held(d.pcs[d.bucketLocks[b].value]) == Some(b)
    {
      BucketHolderKept(s, d, t, b);
    }
    forall u | 0 <= u < |d.pcs| && Held(d.pcs[u]).Some?
      ensures Held(d.pcs[u]).value < |d.bucketLocks| && d.bucketLocks[Held(d.pcs[u]).value] == Some(u)
    {
      HeldBucketKept(s, d, t, u);
    }
  }

  lemma LocksKept(s: State, d: State, t: nat)
    requires Locks(s) && OnlyMoves(s, d, t) && LockMove(s, d, t)
    ensures Locks(d)
  {
    TableLockKept(s, d, t);
    BucketLocksKept(s, d, t);
  }

  /** Slots that other appends and deletes own stay as they are. */
  ghost predicate OwnedSlotsStay(s: State, d: State, t: nat) {
    && |s.slots| == |s.owner| == |d.slots| == |d.owner|
    && forall j :: 0 <= j < |s.owner| && (s.owner[j].Appending? || s.owner[j].Deleting?) && s.owner[j].t != t ==>
         d.owner[j] == s.owner[j] && d.slots[j] == s.slots[j]
  }

  /** Slots that other deletes have checked keep their nodes. */
  ghost predicate CheckedSlotsStay(s: State, d: State, t: nat) {
    && |d.slots| == |s.slots|
    && forall u :: 0 <= u < |s.pcs| && u != t && Checked(s, u) ==>
         d.slots[s.pcs[u].i].node == s.slots[s.pcs[u].i].node
  }

  /** An append goes on with the node and the slot it has, or publishes the node with that slot. */
  ghost predicate AppendGoesOn(s: State, d: State, t: nat)
    requires t < |s.pcs| == |d.pcs|
  {
    var pc := s.pcs[t];
    && (AppSlot(pc).Some? ==>
          if pc.node in d.links then d.links[pc.node].index == pc.i
          else AppSlot(d.pcs[t]) == AppSlot(pc) && d.pcs[t].node == pc.node)
    && (forall n :: n in d.links && n !in s.links ==> n in s.appender && s.appender[n] == t)
  }

  lemma AllocatedKept(s: State, d: State, t: nat, i: nat, n: Node)
    requires OnlyMoves(s, d, t) && AppendGoesOn(s, d, t) && Allocated(s, i, n)
    ensures Allocated(d, i, n)
  {
  }

  lemma AppendKept(s: State, d: State, t: nat, u: nat)
    requires OnlyMoves(s, d, t) && OwnedSlotsStay(s, d, t) && AppendGoesOn(s, d, t)
    requires u < |s.pcs| && u != t && GoodAppend(s, u)
    ensures GoodAppend(d, u)
  {
  }

  lemma DeleteKept(s: State, d: State, t: nat, u: nat)
    requires OnlyMoves(s, d, t) && OwnedSlotsStay(s, d, t) && CheckedSlotsStay(s, d, t) && AppendGoesOn(s, d, t)
    requires forall n :: n in s.wins && s.wins[n] != [] ==> n in d.wins && d.wins[n] == s.wins[n]
    requires u < |s.pcs| && u != t && GoodDelete(s, u)
    ensures GoodDelete(d, u)
  {
    var pc := s.pcs[u];
    if pc.RefLockBucket? || pc.RefCheck? || pc.RefClear? {
      AllocatedKept(s, d, t, pc.i, pc.node);
    }
  }

  lemma ThreadsKept(s: State, d: State, t: nat)
    requires Threads(s) && OnlyMoves(s, d, t) && OwnedSlotsStay(s, d, t) && CheckedSlotsStay(s, d, t)
    requires AppendGoesOn(s, d, t)
    requires forall n :: n in s.wins && s.wins[n] != [] ==> n in d.wins && d.wins[n] == s.wins[n]
    requires GoodThread(d, t)
    ensures Threads(d)
  {
    forall u | 0 <= u < |d.pcs|
      ensures GoodThread(d, u)
    {
      assert GoodThread(s, u);
      if u != t {
        AppendKept(s, d, t, u);
        DeleteKept(s, d, t, u);
      }
    }
  }

  /** No slot loses or changes a node. */
  lemma NodesStay(s: State, d: State, t: nat)
    requires Threads(s) && |d.slots| == |s.slots|
    requires forall j :: 0 <= j < |s.slots| && s.slots[j].node.Some? ==> d.slots[j].node == s.slots[j].node
    ensures CheckedSlotsStay(s, d, t)
  {
    forall u | 0 <= u < |s.pcs| && Checked(s, u)
      ensures s.slots[s.pcs[u].i].node.Some?
    {
      assert GoodThread(s, u);
    }
  }

  /** Key fields change only as thread t's append says. */
  ghost predicate KeysMove(s: State, d: State, t: nat)
    requires t < |s.pcs|
  {
    var pc := s.pcs[t];
    && (forall n :: n in s.keys ==> n in d.keys)
    && (forall n :: n in d.appender ==> n in s.appender || n in d.keys)
    && (forall n :: n in s.links && n in s.keys ==>
          d.keys[n] == if pc.AppKey? && pc.node == n then pc.key else s.keys[n])
    && (pc.AppKey? ==> pc.node in s.links && s.links[pc.node].key == pc.key)
    && (forall n :: n in d.links && n !in s.links ==> GoodKey(d, n))
  }

  lemma KeysKept(s: State, d: State, t: nat)
    requires Keys(s) && OnlyMoves(s, d, t) && KeysMove(s, d, t)
    ensures Keys(d)
  {
    forall n | n in d.links
      ensures GoodKey(d, n)
    {
      if n in s.links {
        assert GoodKey(s, n);
      }
    }
  }

  /** Nodes other than x keep their standing. */
  lemma NodesKept(s: State, d: State, t: nat, x: Node)
    requires Nodes(s) && OnlyMoves(s, d, t)
    requires d.links.Keys == d.wins.Keys && d.links.Keys <= s.links.Keys + {x}
    requires forall n :: n != x ==> d.retired[n] == s.retired[n] && Owes(d.pcs[t], n) == Owes(s.pcs[t], n)
    requires forall n :: n in s.links && n != x ==> d.wins[n] == s.wins[n] && InTable(d, n) == InTable(s, n)
    requires forall n :: n in s.wins && s.wins[n] != [] ==> d.wins[n] != []
    requires forall n :: n in d.over ==> n in s.over || (n in d.wins && d.wins[n] != [])
    requires if x in d.links then GoodNode(d, x) else d.retired[x] == 0
    ensures Nodes(d)
  {
    forall n | n in d.links
      ensures GoodNode(d, n)
    {
      if n != x {
        assert GoodNode(s, n);
      }
    }
  }

  /** Slots other than i keep their owner. */
  lemma SlotsKept(s: State, d: State, t: nat, i: nat)
    requires Slots(s) && OnlyMoves(s, d, t)
    requires i < |s.slots| && d.slots == s.slots[i := d.slots[i]] && d.owner == s.owner[i := d.owner[i]]
    requires GoodSlot(d, i)
    requires forall j :: 0 <= j < |s.slots| && j != i ==> (j in d.freeQ <==> j in s.freeQ)
    requires i in d.freeQ ==> d.owner[i] == Free
    requires Distinct(d.freeQ) && d.active + |d.freeQ| == |d.slots| && 1 <= d.magicNo < UINT32
    requires AppSlot(s.pcs[t]).Some? ==> AppSlot(s.pcs[t]) == Some(i) || AppSlot(d.pcs[t]) == AppSlot(s.pcs[t])
    requires DelSlot(s.pcs[t]).Some? ==> DelSlot(s.pcs[t]) == Some(i) || DelSlot(d.pcs[t]) == DelSlot(s.pcs[t])
    requires forall j :: j in d.freeQ ==> j < |s.slots|
    ensures Slots(d)
  {
    forall j | 0 <= j < |d.slots|
      ensures GoodSlot(d, j)
    {
      if j != i {
        assert GoodSlot(s, j);
      }
    }
  }

  /** Steps that only move a thread, take or release locks, or note that a delete is over. */
  ghost predicate Quiet(s: State, d: State, t: nat) {
    && OnlyMoves(s, d, t)
    && d == s.(pcs := d.pcs, tableLock := d.tableLock, bucketLocks := d.bucketLocks, keys := d.keys,
               appender := d.appender, over := d.over)
    && AppSlot(d.pcs[t]) == AppSlot(s.pcs[t]) && DelSlot(d.pcs[t]) == DelSlot(s.pcs[t])
    && (AppSlot(s.pcs[t]).Some? ==> d.pcs[t].node == s.pcs[t].node)
    && (forall n :: Owes(d.pcs[t], n) == Owes(s.pcs[t], n))
    && (forall n :: n in d.over && n !in s.over ==> n in s.wins && s.wins[n] != [])
  }

  lemma SlotsUntouched(s: State, d: State, t: nat)
    requires Slots(s) && OnlyMoves(s, d, t)
    requires d.slots == s.slots && d.owner == s.owner && d.freeQ == s.freeQ && d.active == s.active
    requires d.magicNo == s.magicNo
    requires AppSlot(d.pcs[t]) == AppSlot(s.pcs[t]) && DelSlot(d.pcs[t]) == DelSlot(s.pcs[t])
    ensures Slots(d)
  {
    forall j | 0 <= j < |d.slots|
      ensures GoodSlot(d, j)
    {
      assert GoodSlot(s, j);
    }
  }

  lemma QuietKeepsNodes(s: State, d: State, t: nat)
    requires Nodes(s) && Quiet(s, d, t)
    ensures Nodes(d)
  {
    forall n | n in d.links
      ensures GoodNode(d, n)
    {
      assert GoodNode(s, n);
    }
  }

  lemma QuietKeepsSlots(s: State, d: State, t: nat)
    requires Slots(s) && Quiet(s, d, t)
    ensures Slots(d)
  {
    SlotsUntouched(s, d, t);
  }

  lemma QuietKeepsLists(s: State, d: State, t: nat)
    requires Lists(s) && Quiet(s, d, t)
    ensures Lists(d)
  {
  }

  lemma QuietKeepsThreads(s: State, d: State, t: nat)
    requires Threads(s) && |s.slots| == |s.owner| && Quiet(s, d, t) && GoodThread(d, t)
    ensures Threads(d)
  {
    ThreadsKept(s, d, t);
  }

  lemma QuietKeepsCounts(s: State, d: State, t: nat)
    requires Counts(s) && Quiet(s, d, t)
    ensures Counts(d)
  {
  }

  lemma QuietKeepsInv(s: State, d: State, t: nat)
    requires Inv(s) && Quiet(s, d, t)
    requires LockMove(s, d, t) && KeysMove(s, d, t) && GoodThread(d, t)
    ensures Inv(d)
  {
    LocksKept(s, d, t);
    KeysKept(s, d, t);
    QuietKeepsCounts(s, d, t);
    QuietKeepsSlots(s, d, t);
    QuietKeepsLists(s, d, t);
    QuietKeepsNodes(s, d, t);
    QuietKeepsThreads(s, d, t);
  }

  // ---------- Every step keeps the invariant ----------

  /** A step that is quiet for a thread that stays good. */
  ghost predicate QuietMove(s: State, d: State, t: nat) {
    Quiet(s, d, t) && LockMove(s, d, t) && KeysMove(s, d, t) && GoodThread(d, t)
  }

  /** A thread begins to append a node never appended before, whose key field holds `stale`. */
  ghost predicate Begins(s: State, d: State, t: nat, node: Node, key: nat, stale: nat) {
    && t < |s.pcs| && s.pcs[t].Idle? && node !in s.appender && node !in s.links && key < |s.lists|
    && d == Goto(s, t, AppLockTable(node, key)).(appender := s.appender[node := t], keys := s.keys[node := stale])
  }

  lemma BeginMove(s: State, d: State, t: nat, node: Node, key: nat, stale: nat)
    requires Begins(s, d, t, node, key, stale)
    ensures Quiet(s, d, t) && LockMove(s, d, t)
  {
  }

  lemma BeginIsGood(s: State, d: State, t: nat, node: Node, key: nat, stale: nat)
    requires Begins(s, d, t, node, key, stale)
    ensures KeysMove(s, d, t) && GoodThread(d, t)
  {
  }

  predicate NoSlot(pc: Pc) {
    AppSlot(pc).None? && DelSlot(pc).None? && !HoldsTable(pc) && !pc.AppKey? && !pc.DelRetire?
  }

  /** A thread that has no slot moves on with the locks it has. */
  lemma GotoIsQuiet(s: State, d: State, t: nat, pc: Pc)
    requires t < |s.pcs| && d == Goto(s, t, pc) && NoSlot(pc) && NoSlot(s.pcs[t]) && Held(pc) == Held(s.pcs[t])
    ensures Quiet(s, d, t) && LockMove(s, d, t) && KeysMove(s, d, t)
  {
  }

  /** Where a call of a delete or an access leaves its thread: after its first reads, or back already. */
  predicate Starts(s: State, pc: Pc) {
    || pc.Idle? || (pc.DelLockBucket? && pc.node in s.links && pc.i == s.links[pc.node].index)
    || ((pc.RefRead? || pc.AccRead?) && pc.i < |s.slots|)
  }

  lemma CallStarts(s: State, step: Step)
    requires Enabled(s, step) && (step.CallDelete? || step.CallDeleteByRef? || step.CallAccess?)
    ensures var d := Do(s, step);
              |d.pcs| == |s.pcs| && d == Goto(s, step.t, d.pcs[step.t]) && Starts(s, d.pcs[step.t])
  {
    assert s.pcs[step.t := Idle] == s.pcs;
  }

  lemma StartIsGood(s: State, d: State, t: nat, pc: Pc)
    requires t < |s.pcs| && Starts(s, pc) && d == Goto(s, t, pc)
    ensures GoodThread(d, t)
  {
  }

  lemma StartIsQuiet(s: State, d: State, t: nat, pc: Pc)
    requires t < |s.pcs| && s.pcs[t].Idle? && Starts(s, pc) && d == Goto(s, t, pc)
    ensures QuietMove(s, d, t)
  {
    StartIsGood(s, d, t, pc);
    GotoIsQuiet(s, d, t, pc);
  }

  lemma CallIsQuiet(s: State, step: Step)
    requires Nodes(s) && Threads(s) && Enabled(s, step) && !step.Go?
    ensures QuietMove(s, Do(s, step), step.t)
  {
    assert GoodThread(s, step.t);
    if step.CallAppend? {
      assert step.node in s.links ==> GoodNode(s, step.node);
      BeginMove(s, Do(s, step), step.t, step.node, step.key, step.stale);
      BeginIsGood(s, Do(s, step), step.t, step.node, step.key, step.stale);
    } else {
      CallStarts(s, step);
      StartIsQuiet(s, Do(s, step), step.t, Do(s, step).pcs[step.t]);
    }
  }

  lemma CallKeepsInv(s: State, step: Step)
    requires Inv(s) && Enabled(s, step) && !step.Go?
    ensures Inv(Do(s, step))
  {
    CallIsQuiet(s, step);
    QuietKeepsInv(s, Do(s, step), step.t);
  }

  /** From waiting for the table lock to holding it. */
  predicate GetsTable(from: Pc, to: Pc) {
    || (from.AppLockTable? && to == AppPop(from.node, from.key))
    || (from.DelLockTable? && to == DelPush(from.node, from.i, from.retire))
  }

  lemma TakeTableIsQuiet(s: State, d: State, t: nat, pc: Pc)
    requires t < |s.pcs| && GoodThread(s, t) && s.tableLock == None && GetsTable(s.pcs[t], pc)
    requires d == TakeTable(s, t, pc)
    ensures QuietMove(s, d, t)
  {
  }

  /** From waiting for a bucket lock to holding it. */
  predicate GetsBucket(from: Pc, to: Pc) {
    || (from.AppLockBucket? && to == AppLink(from.node, from.key, from.i))
    || (from.DelLockBucket? && to == DelCheck(from.node, from.key, from.i))
    || (from.RefLockBucket? && to == RefCheck(from.node, from.key, from.i))
  }

  /** A delete that has found its node, and keeps the lock. */
  lemma CheckIsQuiet(s: State, d: State, t: nat, pc: Pc)
    requires t < |s.pcs| && GoodThread(s, t) && d == Goto(s, t, pc)
    requires var p := s.pcs[t]; (
               || (p.DelCheck? && pc == DelClear(p.node, p.key, p.i)
                   && p.i < |s.slots| && s.slots[p.i].node == Some(p.node))
               || (p.RefCheck? && pc == RefClear(p.node, p.key, p.i)))
    ensures QuietMove(s, d, t)
  {
    GotoIsQuiet(s, d, t, d.pcs[t]);
  }

  /** An append that stores its key and returns. */
  lemma StoreKeyIsQuiet(s: State, d: State, t: nat, node: Node, key: nat)
    requires t < |s.pcs| && GoodThread(s, t) && s.pcs[t].AppKey? && s.pcs[t].node == node && s.pcs[t].key == key
    requires key < |s.bucketLocks| && d == StoreKey(s, t, node, key)
    ensures QuietMove(s, d, t)
  {
  }

  lemma TakeBucketIsGood(s: State, d: State, t: nat, pc: Pc, key: nat)
    requires t < |s.pcs| && GoodThread(s, t) && key < |s.bucketLocks|
    requires GetsBucket(s.pcs[t], pc) && pc.key == key && d == TakeBucket(s, t, pc, key)
    ensures GoodThread(d, t)
  {
  }

  lemma TakeBucketIsQuiet(s: State, d: State, t: nat, pc: Pc, key: nat)
    requires t < |s.pcs| && GoodThread(s, t) && key < |s.bucketLocks| && s.bucketLocks[key] == None
    requires GetsBucket(s.pcs[t], pc) && pc.key == key && d == TakeBucket(s, t, pc, key)
    ensures QuietMove(s, d, t)
  {
    TakeBucketIsGood(s, d, t, pc, key);
  }

  /** The two steps of an access after its comparison. */
  lemma AccessIsQuiet(s: State, d: State, t: nat, pc: Pc)
    requires t < |s.pcs| && GoodThread(s, t) && d == Goto(s, t, pc)
    requires (s.pcs[t].AccRead? && pc.Accessed?) || (s.pcs[t].Accessed? && pc.Idle?)
    ensures QuietMove(s, d, t)
  {
    GotoIsQuiet(s, d, t, d.pcs[t]);
  }

  /** A slot holds a node whose append has got the slot. */
  lemma SlotIsAllocated(s: State, i: nat)
    requires Slots(s) && Nodes(s) && Threads(s) && i < |s.slots| && s.slots[i].node.Some?
    ensures Allocated(s, i, s.slots[i].node.value)
  {
    assert GoodSlot(s, i);
    if s.owner[i].Appending? {
      assert GoodThread(s, s.owner[i].t);
    } else {
      assert GoodNode(s, s.slots[i].node.value);
    }
  }

  lemma RefReadFinds(s: State, t: nat)
    requires Slots(s) && Nodes(s) && Threads(s) && t < |s.pcs| && s.pcs[t].RefRead? && Stable(s, Go(t, 0))
    ensures s.pcs[t].i < |s.slots| && s.slots[s.pcs[t].i].node.Some?
    ensures Allocated(s, s.pcs[t].i, s.slots[s.pcs[t].i].node.value)
  {
    var i := s.pcs[t].i;
    assert GoodThread(s, t);
    SlotIsAllocated(s, i);
  }

  lemma RefReadIsQuiet(s: State, d: State, t: nat)
    requires t < |s.pcs| && GoodThread(s, t) && s.pcs[t].RefRead? && s.pcs[t].i < |s.slots|
    requires d == ReadNode(s, t, s.pcs[t].i) && (forall n :: n in s.appender ==> n in s.keys)
    requires s.slots[s.pcs[t].i].node.Some? && Allocated(s, s.pcs[t].i, s.slots[s.pcs[t].i].node.value)
    ensures QuietMove(s, d, t)
  {
    GotoIsQuiet(s, d, t, d.pcs[t]);
  }

  /** Nodes and lists when no link, owner of a linked slot, win or CALL_RCU changes. */
  ghost predicate SameNodes(s: State, d: State, t: nat) {
    && OnlyMoves(s, d, t)
    && d.lists == s.lists && d.counts == s.counts && d.links == s.links && d.wins == s.wins
    && (forall n :: n in d.over && n !in s.over ==> n in s.wins && s.wins[n] != [])
    && d.retired == s.retired
    && (forall n :: Owes(d.pcs[t], n) == Owes(s.pcs[t], n))
    && forall i :: 0 <= i < |s.owner| ==> d.owner[i] == s.owner[i] || (!d.owner[i].Linked? && !s.owner[i].Linked?)
  }

  lemma SameNodesKept(s: State, d: State, t: nat)
    requires Nodes(s) && SameNodes(s, d, t)
    ensures Nodes(d)
  {
    forall n | n in s.links ensures InTable(d, n) == InTable(s, n) {}
    forall n | n in d.links
      ensures GoodNode(d, n)
    {
      assert GoodNode(s, n);
    }
  }

  lemma SameListsKept(s: State, d: State, t: nat)
    requires Lists(s) && SameNodes(s, d, t)
    ensures Lists(d)
  {
    forall n | n in s.links ensures InTable(d, n) == InTable(s, n) {}
  }

  /** What thread t does to its own slots, and to key fields. */
  ghost predicate OwnMove(s: State, d: State, t: nat) {
    && OnlyMoves(s, d, t) && LockMove(s, d, t) && KeysMove(s, d, t) && OwnedSlotsStay(s, d, t)
    && AppendGoesOn(s, d, t) && GoodThread(d, t)
  }

  /** What a step that leaves nodes and lists alone owes to the rest of the invariant. */
  lemma SameNodesKeepInv(s: State, d: State, t: nat)
    requires Lists(s) && Counts(s) && Keys(s) && Nodes(s) && Threads(s) && Locks(s)
    requires SameNodes(s, d, t) && OwnMove(s, d, t)
    requires forall j :: 0 <= j < |s.slots| && s.slots[j].node.Some? ==> d.slots[j].node == s.slots[j].node
    ensures Lists(d) && Counts(d) && Keys(d) && Nodes(d) && Threads(d) && Locks(d)
  {
    SameNodesKept(s, d, t);
    SameListsKept(s, d, t);
    KeysKept(s, d, t);
    NodesStay(s, d, t);
    ThreadsKept(s, d, t);
    LocksKept(s, d, t);
  }

  lemma PopSlots(s: State, d: State, t: nat, node: Node, key: nat)
    requires Slots(s) && t < |s.pcs| && s.pcs[t] == AppPop(node, key) && QueueFits(s) && d == Pop(s, t, node, key)
    ensures Slots(d)
  {
    if s.freeQ == [] {
      SlotsUntouched(s, d, t);
    } else {
      var i := s.freeQ[0];
      assert i in s.freeQ && s.owner[i] == Free && GoodSlot(s, i);
      SlotsKept(s, d, t, i);
    }
  }

  /** Pop seen from outside the slots. */
  lemma PopSame(s: State, d: State, t: nat, node: Node, key: nat)
    requires t < |s.pcs| && s.pcs[t] == AppPop(node, key) && QueueFits(s) && d == Pop(s, t, node, key)
    requires GoodThread(s, t)
    requires s.freeQ != [] ==> s.owner[s.freeQ[0]] == Free && s.slots[s.freeQ[0]] == Slot(0, None)
    ensures SameNodes(s, d, t)
  {
  }

  lemma PopGood(s: State, d: State, t: nat, node: Node, key: nat)
    requires t < |s.pcs| && s.pcs[t] == AppPop(node, key) && QueueFits(s) && d == Pop(s, t, node, key)
    requires GoodThread(s, t)
    requires s.freeQ != [] ==> s.owner[s.freeQ[0]] == Free && s.slots[s.freeQ[0]] == Slot(0, None)
    ensures AppendGoesOn(s, d, t) && GoodThread(d, t)
  {
  }

  lemma PopOwn(s: State, d: State, t: nat, node: Node, key: nat)
    requires t < |s.pcs| && s.pcs[t] == AppPop(node, key) && QueueFits(s) && d == Pop(s, t, node, key)
    requires GoodThread(s, t)
    requires s.freeQ != [] ==> s.owner[s.freeQ[0]] == Free && s.slots[s.freeQ[0]] == Slot(0, None)
    ensures OwnMove(s, d, t)
  {
    PopGood(s, d, t, node, key);
  }

  lemma PopMove(s: State, d: State, t: nat, node: Node, key: nat)
    requires t < |s.pcs| && s.pcs[t] == AppPop(node, key) && QueueFits(s) && d == Pop(s, t, node, key)
    requires GoodThread(s, t)
    requires s.freeQ != [] ==> s.owner[s.freeQ[0]] == Free && s.slots[s.freeQ[0]] == Slot(0, None)
    ensures SameNodes(s, d, t) && OwnMove(s, d, t)
    ensures forall j :: 0 <= j < |s.slots| ==> d.slots[j].node == s.slots[j].node
  {
    PopSame(s, d, t, node, key);
    PopOwn(s, d, t, node, key);
  }

  lemma PopKeepsInv(s: State, d: State, t: nat, node: Node, key: nat)
    requires Inv(s) && t < |s.pcs| && s.pcs[t] == AppPop(node, key) && QueueFits(s) && d == Pop(s, t, node, key)
    ensures Inv(d)
  {
    assert GoodThread(s, t);
    if s.freeQ != [] {
      assert s.freeQ[0] in s.freeQ && GoodSlot(s, s.freeQ[0]);
    }
    PopMove(s, d, t, node, key);
    PopSlots(s, d, t, node, key);
    SameNodesKeepInv(s, d, t);
  }

  lemma StoreSlots(s: State, d: State, t: nat, node: Node, key: nat, i: nat)
    requires Slots(s) && t < |s.pcs| && s.pcs[t] == AppStore(node, key, i) && i < |s.slots| && GoodThread(s, t)
    requires d == Store(s, t, node, key, i)
    ensures Slots(d)
  {
    assert GoodSlot(s, i);
    SlotsKept(s, d, t, i);
  }

  lemma StoreMove(s: State, d: State, t: nat, node: Node, key: nat, i: nat)
    requires t < |s.pcs| && s.pcs[t] == AppStore(node, key, i) && i < |s.slots| == |s.owner| && GoodThread(s, t)
    requires d == Store(s, t, node, key, i)
    ensures SameNodes(s, d, t) && OwnMove(s, d, t)
    ensures forall j :: 0 <= j < |s.slots| && s.slots[j].node.Some? ==> d.slots[j].node == s.slots[j].node
  {
  }

  lemma StoreKeepsInv(s: State, d: State, t: nat, node: Node, key: nat, i: nat)
    requires Inv(s) && t < |s.pcs| && s.pcs[t] == AppStore(node, key, i) && i < |s.slots|
    requires d == Store(s, t, node, key, i)
    ensures Inv(d)
  {
    assert GoodThread(s, t);
    StoreSlots(s, d, t, node, key, i);
    StoreMove(s, d, t, node, key, i);
    SameNodesKeepInv(s, d, t);
  }

  lemma PushSlots(s: State, d: State, t: nat, node: Node, i: nat, retire: bool)
    requires Slots(s) && t < |s.pcs| && s.pcs[t] == DelPush(node, i, retire) && i < |s.owner| && GoodThread(s, t)
    requires d == Push(s, t, node, i, retire)
    ensures Slots(d)
  {
    assert GoodSlot(s, i);
    assert i !in s.freeQ;
    SlotsKept(s, d, t, i);
  }

  lemma PushSame(s: State, d: State, t: nat, node: Node, i: nat, retire: bool)
    requires t < |s.pcs| && s.pcs[t] == DelPush(node, i, retire) && i < |s.owner| && GoodThread(s, t)
    requires |s.slots| == |s.owner| && d == Push(s, t, node, i, retire)
    ensures SameNodes(s, d, t)
  {
  }

  lemma PushGood(s: State, d: State, t: nat, node: Node, i: nat, retire: bool)
    requires t < |s.pcs| && s.pcs[t] == DelPush(node, i, retire) && i < |s.owner| && GoodThread(s, t)
    requires |s.slots| == |s.owner| && d == Push(s, t, node, i, retire)
    ensures AppendGoesOn(s, d, t) && GoodThread(d, t)
  {
  }

  lemma PushOwn(s: State, d: State, t: nat, node: Node, i: nat, retire: bool)
    requires t < |s.pcs| && s.pcs[t] == DelPush(node, i, retire) && i < |s.owner| && GoodThread(s, t)
    requires |s.slots| == |s.owner| && d == Push(s, t, node, i, retire)
    ensures OwnMove(s, d, t)
  {
    PushGood(s, d, t, node, i, retire);
  }

  lemma PushMove(s: State, d: State, t: nat, node: Node, i: nat, retire: bool)
    requires t < |s.pcs| && s.pcs[t] == DelPush(node, i, retire) && i < |s.owner| && GoodThread(s, t)
    requires |s.slots| == |s.owner| && d == Push(s, t, node, i, retire)
    ensures SameNodes(s, d, t) && OwnMove(s, d, t) && d.slots == s.slots
  {
    PushSame(s, d, t, node, i, retire);
    PushOwn(s, d, t, node, i, retire);
  }

  lemma PushKeepsInv(s: State, d: State, t: nat, node: Node, i: nat, retire: bool)
    requires Inv(s) && t < |s.pcs| && s.pcs[t] == DelPush(node, i, retire) && i < |s.owner|
    requires d == Push(s, t, node, i, retire)
    ensures Inv(d)
  {
    assert GoodThread(s, t);
    PushSlots(s, d, t, node, i, retire);
    PushMove(s, d, t, node, i, retire);
    SameNodesKeepInv(s, d, t);
  }

  /** A CALL_RCU made, as far as nodes are concerned. */
  lemma RetireEffect(s: State, d: State, t: nat, node: Node)
    requires t < |s.pcs| && s.pcs[t] == DelRetire(node) && GoodThread(s, t) && d == Retire(s, t, node)
    ensures OnlyMoves(s, d, t) && d.links == s.links && d.wins == s.wins && d.owner == s.owner
    ensures node in s.links && s.wins[node] == [t] && d.over == s.over + {node}
    ensures forall n :: d.retired[n] == s.retired[n] + (if n == node then 1 else 0)
    ensures forall n :: Owes(s.pcs[t], n) == (n == node) && !Owes(d.pcs[t], n)
  {
  }

  lemma RetireNodes(s: State, d: State, t: nat, node: Node)
    requires Nodes(s) && t < |s.pcs| && s.pcs[t] == DelRetire(node) && GoodThread(s, t) && d == Retire(s, t, node)
    ensures Nodes(d)
  {
    RetireEffect(s, d, t, node);
    assert GoodNode(s, node);
    assert GoodNode(d, node);
    NodesKept(s, d, t, node);
  }

  lemma RetireMove(s: State, d: State, t: nat, node: Node)
    requires t < |s.pcs| && s.pcs[t] == DelRetire(node) && GoodThread(s, t) && d == Retire(s, t, node)
    requires |s.slots| == |s.owner|
    ensures OwnMove(s, d, t) && d.slots == s.slots && d.wins == s.wins
  {
  }

  lemma RetireSlots(s: State, d: State, t: nat, node: Node)
    requires Slots(s) && t < |s.pcs| && s.pcs[t] == DelRetire(node) && d == Retire(s, t, node) && OnlyMoves(s, d, t)
    ensures Slots(d)
  {
    SlotsUntouched(s, d, t);
  }

  lemma RetireLists(s: State, d: State, t: nat, node: Node)
    requires Lists(s) && Counts(s) && t < |s.pcs| && d == Retire(s, t, node)
    ensures Lists(d) && Counts(d)
  {
    forall n | n in s.links ensures InTable(d, n) == InTable(s, n) {}
  }

  lemma RetireKeepsInv(s: State, d: State, t: nat, node: Node)
    requires Inv(s) && t < |s.pcs| && s.pcs[t] == DelRetire(node) && d == Retire(s, t, node)
    ensures Inv(d)
  {
    assert GoodThread(s, t);
    RetireMove(s, d, t, node);
    RetireNodes(s, d, t, node);
    RetireSlots(s, d, t, node);
    RetireLists(s, d, t, node);
    KeysKept(s, d, t);
    NodesStay(s, d, t);
    ThreadsKept(s, d, t);
    LocksKept(s, d, t);
  }

  /** Linking and clearing slot i change the standing of node n and of no other. */
  lemma OthersStand(s: State, d: State, n: Node, i: nat)
    requires Nodes(s) && Slots(s) && i < |s.slots| == |d.owner| && d.owner == s.owner[i := d.owner[i]]
    requires s.owner[i] == Linked(n) || !s.owner[i].Linked?
    requires d.owner[i] == Linked(n) || !d.owner[i].Linked?
    requires forall m :: m in s.links ==> m in d.links && d.links[m] == s.links[m]
    ensures forall m :: m in s.links && m != n ==> InTable(d, m) == InTable(s, m)
  {
    forall m | m in s.links && m != n
      ensures InTable(d, m) == InTable(s, m)
    {
      assert GoodNode(s, m);
    }
  }

  /** Thread t is about to link its node at position pos, and d is what comes of it. */
  ghost predicate Links(s: State, d: State, t: nat, pos: nat) {
    && t < |s.pcs| && GoodThread(s, t) && s.pcs[t].AppLink? && |s.slots| == |s.owner|
    && var AppLink(node, key, i) := s.pcs[t];
       && i < |s.owner| && key < |s.lists| == |s.counts| && pos <= |s.lists[key]|
       && d == LinkIn(s, t, node, key, i, pos)
  }

  lemma LinkMove(s: State, d: State, t: nat, pos: nat)
    requires Links(s, d, t, pos) && s.pcs[t].node in s.keys
    ensures OwnMove(s, d, t)
    ensures d.slots == s.slots && d.owner == s.owner[s.pcs[t].i := Linked(s.pcs[t].node)]
    ensures d.wins == s.wins[s.pcs[t].node := []]
  {
  }

  /** Linking, as far as nodes and lists are concerned. */
  lemma LinkEffect(s: State, d: State, t: nat, pos: nat)
    requires Links(s, d, t, pos)
    ensures var AppLink(n, key, i) := s.pcs[t]; (
              && n !in s.links && n in s.appender && d.links == s.links[n := Link(i, key)] && InTable(d, n)
              && d.lists == s.lists[key := InsertAt(s.lists[key], pos, n)]
              && d.counts == s.counts[key := s.counts[key] + 1]
              && d.wins == s.wins[n := []] && d.retired == s.retired && d.over == s.over
              && forall m :: Owes(d.pcs[t], m) == Owes(s.pcs[t], m))
  {
  }

  lemma LinkNodes(s: State, d: State, t: nat, n: Node)
    requires Nodes(s) && OnlyMoves(s, d, t) && n !in s.links && n in s.appender && n in d.links && InTable(d, n)
    requires d.links.Keys == s.links.Keys + {n} && d.wins == s.wins[n := []] && d.retired == s.retired
    requires d.over == s.over
    requires d.links[n].index < |s.slots| && d.links[n].key < |s.lists|
    requires forall m :: Owes(d.pcs[t], m) == Owes(s.pcs[t], m)
    requires forall m :: m in s.links && m != n ==> InTable(d, m) == InTable(s, m)
    ensures Nodes(d)
  {
    assert n !in s.wins.Keys;
    NodesKept(s, d, t, n);
  }

  lemma LinkLists(s: State, d: State, n: Node, key: nat, pos: nat)
    requires Lists(s) && key < |s.lists| && pos <= |s.lists[key]| && n !in s.links && n in d.links && InTable(d, n)
    requires d.lists == s.lists[key := InsertAt(s.lists[key], pos, n)] && d.links.Keys == s.links.Keys + {n}
    requires d.links[n].key == key
    requires forall m :: m in s.links ==> d.links[m] == s.links[m] && InTable(d, m) == InTable(s, m)
    ensures Lists(d)
  {
    assert n !in s.lists[key];
    InsertDistinct(s.lists[key], pos, n);
  }

  lemma LinkCounts(s: State, d: State, t: nat, pos: nat)
    requires Counts(s) && Links(s, d, t, pos)
    ensures Counts(d)
  {
  }

  lemma LinkSlots(s: State, d: State, t: nat, pos: nat)
    requires Slots(s) && Links(s, d, t, pos) && OnlyMoves(s, d, t)
    ensures Slots(d)
  {
    assert GoodSlot(s, s.pcs[t].i);
    assert s.pcs[t].i !in s.freeQ;
    SlotsKept(s, d, t, s.pcs[t].i);
  }

  lemma LinkKeepsNodes(s: State, d: State, t: nat, pos: nat)
    requires Nodes(s) && Slots(s) && Lists(s) && Links(s, d, t, pos) && OnlyMoves(s, d, t)
    requires d.owner == s.owner[s.pcs[t].i := Linked(s.pcs[t].node)]
    ensures Nodes(d) && Lists(d)
  {
    OthersStand(s, d, s.pcs[t].node, s.pcs[t].i);
    forall m | m in s.links ensures s.links[m].index < |s.slots| { assert GoodNode(s, m); }
    LinkEffect(s, d, t, pos);
    LinkNodes(s, d, t, s.pcs[t].node);
    LinkLists(s, d, s.pcs[t].node, s.pcs[t].key, pos);
  }

  lemma LinkKeepsThreads(s: State, d: State, t: nat, pos: nat)
    requires Threads(s) && Links(s, d, t, pos) && s.links.Keys == s.wins.Keys && s.pcs[t].node in s.keys
    ensures Threads(d)
  {
    LinkMove(s, d, t, pos);
    NodesStay(s, d, t);
    ThreadsKept(s, d, t);
  }

  lemma LinkKeepsInv(s: State, d: State, t: nat, pos: nat)
    requires Inv(s) && Links(s, d, t, pos)
    ensures Inv(d)
  {
    LinkMove(s, d, t, pos);
    LinkCounts(s, d, t, pos);
    KeysKept(s, d, t);
    LinkSlots(s, d, t, pos);
    LinkKeepsNodes(s, d, t, pos);
    LinkKeepsThreads(s, d, t, pos);
    LocksKept(s, d, t);
  }

  /** A delete clears the slot of its node under the right lock: the node leaves its list, the thread wins. */
  ghost predicate Clears(s: State, d: State, t: nat) {
    && t < |s.pcs| && GoodThread(s, t)
    && var pc := s.pcs[t];
       && Clearing(pc)
       && pc.i < |s.slots| == |s.owner| && pc.key < |s.bucketLocks| && pc.key < |s.lists| == |s.counts|
       && pc.node in s.wins && pc.node in s.links && s.links[pc.node].key == pc.key
       && s.slots[pc.i].node == Some(pc.node)
       && d == Cleared(s, t, pc, s.lists[pc.key := Without(s.lists[pc.key], pc.node)])
  }

  lemma ClearFinds(s: State, d: State, t: nat)
    requires Slots(s) && Nodes(s) && Threads(s) && Clears(s, d, t)
    ensures s.owner[s.pcs[t].i] == Linked(s.pcs[t].node) && InTable(s, s.pcs[t].node)
    ensures s.wins[s.pcs[t].node] == [] && s.retired[s.pcs[t].node] == 0
  {
    assert GoodSlot(s, s.pcs[t].i);
    assert GoodNode(s, s.pcs[t].node);
    assert s.owner[s.pcs[t].i].Appending? ==> GoodThread(s, s.owner[s.pcs[t].i].t);
  }

  lemma ClearSlots(s: State, d: State, t: nat)
    requires Slots(s) && Clears(s, d, t) && s.owner[s.pcs[t].i] == Linked(s.pcs[t].node)
    ensures Slots(d)
  {
    assert s.pcs[t].i !in s.freeQ;
    SlotsKept(s, d, t, s.pcs[t].i);
  }

  /** Clearing, as far as nodes are concerned. */
  lemma ClearEffect(s: State, d: State, t: nat)
    requires Clears(s, d, t)
    ensures var n := s.pcs[t].node; (
              && d.links == s.links && d.appender == s.appender && d.over == s.over && |d.pcs| == |s.pcs|
              && d.wins == s.wins[n := s.wins[n] + [t]]
              && d.retired[n] == s.retired[n] + (if Owes(d.pcs[t], n) then 0 else 1)
              && forall m :: m != n ==> d.retired[m] == s.retired[m] && !Owes(s.pcs[t], m) && !Owes(d.pcs[t], m))
    ensures d.owner == s.owner[s.pcs[t].i := Deleting(t)] && |d.slots| == |s.slots| && |d.lists| == |s.lists|
  {
  }

  lemma ClearNodes(s: State, d: State, t: nat, n: Node)
    requires Nodes(s) && OnlyMoves(s, d, t) && n in s.links && !InTable(d, n)
    requires s.wins[n] == [] && s.retired[n] == 0
    requires d.links == s.links && d.over == s.over && d.wins == s.wins[n := [t]]
    requires d.retired[n] == if Owes(d.pcs[t], n) then 0 else 1
    requires forall m :: m != n ==> d.retired[m] == s.retired[m] && Owes(d.pcs[t], m) == Owes(s.pcs[t], m)
    requires forall m :: m in s.links && m != n ==> InTable(d, m) == InTable(s, m)
    ensures Nodes(d)
  {
    assert GoodNode(s, n);
    assert GoodNode(d, n);
    NodesKept(s, d, t, n);
  }

  lemma ClearLists(s: State, d: State, n: Node, key: nat)
    requires Lists(s) && key < |s.lists| && n in s.links && s.links[n].key == key && !InTable(d, n)
    requires d.lists == s.lists[key := Without(s.lists[key], n)] && d.links == s.links
    requires forall m :: m in s.links && m != n ==> InTable(d, m) == InTable(s, m)
    ensures Lists(d)
  {
    WithoutDistinct(s.lists[key], n);
  }

  lemma ClearCounts(s: State, d: State, t: nat)
    requires Counts(s) && Lists(s) && Clears(s, d, t) && InTable(s, s.pcs[t].node)
    ensures Counts(d)
  {
    WithoutDistinct(s.lists[s.pcs[t].key], s.pcs[t].node);
  }

  /** Whoever else has checked this slot would hold the same lock. */
  lemma ClearIsAlone(s: State, d: State, t: nat)
    requires BucketsLocked(s) && Threads(s) && Clears(s, d, t)
    ensures CheckedSlotsStay(s, d, t)
  {
    forall u | 0 <= u < |s.pcs| && u != t && Checked(s, u)
      ensures s.pcs[u].i != s.pcs[t].i
    {
      assert GoodThread(s, u);
      assert Held(s.pcs[u]) == Some(s.pcs[u].key) && Held(s.pcs[t]) == Some(s.pcs[t].key);
    }
  }

  lemma ClearMove(s: State, d: State, t: nat)
    requires Clears(s, d, t) && s.wins[s.pcs[t].node] == [] && s.owner[s.pcs[t].i].Linked?
    ensures OwnMove(s, d, t) && d.links == s.links
    ensures forall j :: 0 <= j < |s.owner| && j != s.pcs[t].i ==> d.owner[j] == s.owner[j] && d.slots[j] == s.slots[j]
    ensures forall n :: n in s.wins && n != s.pcs[t].node ==> n in d.wins && d.wins[n] == s.wins[n]
  {
  }

  lemma ClearKeepsNodes(s: State, d: State, t: nat)
    requires Nodes(s) && Slots(s) && Lists(s) && Clears(s, d, t) && OnlyMoves(s, d, t)
    requires s.owner[s.pcs[t].i] == Linked(s.pcs[t].node) && InTable(s, s.pcs[t].node)
    requires s.wins[s.pcs[t].node] == [] && s.retired[s.pcs[t].node] == 0
    ensures Nodes(d) && Lists(d)
  {
    OthersStand(s, d, s.pcs[t].node, s.pcs[t].i);
    ClearEffect(s, d, t);
    assert s.wins[s.pcs[t].node] + [t] == [t];
    ClearNodes(s, d, t, s.pcs[t].node);
    ClearLists(s, d, s.pcs[t].node, s.pcs[t].key);
  }

  lemma ClearKeepsInv(s: State, d: State, t: nat)
    requires Inv(s) && Clears(s, d, t)
    ensures Inv(d)
  {
    ClearFinds(s, d, t);
    ClearMove(s, d, t);
    ClearSlots(s, d, t);
    ClearKeepsNodes(s, d, t);
    ClearCounts(s, d, t);
    KeysKept(s, d, t);
    ClearIsAlone(s, d, t);
    ThreadsKept(s, d, t);
    LocksKept(s, d, t);
  }

  /** A delete that does not find its node: somebody has deleted it already. */
  lemma MissFinds(s: State, t: nat)
    requires Slots(s) && Nodes(s) && Threads(s) && t < |s.pcs| && (s.pcs[t].DelCheck? || s.pcs[t].RefCheck?)
    requires s.pcs[t].i < |s.slots|
    requires if s.pcs[t].DelCheck? then s.slots[s.pcs[t].i].node != Some(s.pcs[t].node)
             else s.slots[s.pcs[t].i].magic == 0
    ensures s.pcs[t].node in s.wins && s.wins[s.pcs[t].node] != []
  {
    var n := s.pcs[t].node;
    assert GoodThread(s, t);
    assert n in s.links ==> GoodNode(s, n);
    assert n !in s.links ==> GoodThread(s, s.appender[n]);
    assert GoodSlot(s, s.pcs[t].i);
  }

  lemma MissIsQuiet(s: State, d: State, t: nat)
    requires t < |s.pcs| && GoodThread(s, t) && (s.pcs[t].DelCheck? || s.pcs[t].RefCheck?)
    requires s.pcs[t].key < |s.bucketLocks| && d == Miss(s, t, s.pcs[t].node, s.pcs[t].key)
    requires s.pcs[t].node in s.wins && s.wins[s.pcs[t].node] != []
    ensures QuietMove(s, d, t)
  {
  }

  /** The steps after which only program counters, locks and key fields are different. */
  predicate GoesQuietly(pc: Pc) {
    || pc.AppLockTable? || pc.AppKey? || pc.DelLockTable? || Wanted(pc).Some? || pc.DelCheck? || pc.RefCheck?
    || pc.RefRead? || pc.AccRead? || pc.Accessed?
  }

  lemma GoChecks(s: State, d: State, t: nat)
    requires Slots(s) && Nodes(s) && Threads(s) && t < |s.pcs| && (s.pcs[t].DelCheck? || s.pcs[t].RefCheck?)
    requires var p := s.pcs[t];
               && p.i < |s.slots| && p.key < |s.bucketLocks|
               && var found := if p.DelCheck? then s.slots[p.i].node == Some(p.node) else s.slots[p.i].magic != 0;
                  d == if !found then Miss(s, t, p.node, p.key)
                       else if p.DelCheck? then Goto(s, t, DelClear(p.node, p.key, p.i))
                       else Goto(s, t, RefClear(p.node, p.key, p.i))
    ensures QuietMove(s, d, t)
  {
    var p := s.pcs[t];
    assert GoodThread(s, t);
    if p.DelCheck? && s.slots[p.i].node == Some(p.node) {
      CheckIsQuiet(s, d, t, DelClear(p.node, p.key, p.i));
    } else if p.RefCheck? && s.slots[p.i].magic != 0 {
      CheckIsQuiet(s, d, t, RefClear(p.node, p.key, p.i));
    } else {
      MissFinds(s, t);
      MissIsQuiet(s, d, t);
    }
  }

  lemma GoLocks(s: State, t: nat, pos: nat)
    requires Threads(s) && Enabled(s, Go(t, pos)) && Stable(s, Go(t, pos))
    requires s.pcs[t].AppLockTable? || s.pcs[t].DelLockTable? || Wanted(s.pcs[t]).Some?
    ensures QuietMove(s, DoGo(s, t, pos), t)
  {
    var d, pc := DoGo(s, t, pos), s.pcs[t];
    assert GoodThread(s, t);
    if Wanted(pc).Some? {
      TakeBucketIsQuiet(s, d, t, d.pcs[t], pc.key);
    } else {
      TakeTableIsQuiet(s, d, t, d.pcs[t]);
    }
  }

  lemma GoReads(s: State, t: nat, pos: nat)
    requires Slots(s) && Nodes(s) && Keys(s) && Threads(s) && Enabled(s, Go(t, pos)) && Stable(s, Go(t, pos))
    requires s.pcs[t].RefRead? || s.pcs[t].AccRead? || s.pcs[t].Accessed?
    ensures QuietMove(s, DoGo(s, t, pos), t)
  {
    var d, pc := DoGo(s, t, pos), s.pcs[t];
    assert GoodThread(s, t);
    if pc.RefRead? {
      RefReadFinds(s, t);
      RefReadIsQuiet(s, d, t);
    } else {
      AccessIsQuiet(s, d, t, d.pcs[t]);
    }
  }

  lemma GoIsQuiet(s: State, t: nat, pos: nat)
    requires Slots(s) && Nodes(s) && Keys(s) && Threads(s) && Enabled(s, Go(t, pos)) && Stable(s, Go(t, pos))
    requires GoesQuietly(s.pcs[t])
    ensures QuietMove(s, DoGo(s, t, pos), t)
  {
    var pc := s.pcs[t];
    if pc.AppLockTable? || pc.DelLockTable? || Wanted(pc).Some? {
      GoLocks(s, t, pos);
    } else if pc.AppKey? {
      assert GoodThread(s, t);
      StoreKeyIsQuiet(s, DoGo(s, t, pos), t, pc.node, pc.key);
    } else if pc.DelCheck? || pc.RefCheck? {
      GoChecks(s, DoGo(s, t, pos), t);
    } else {
      GoReads(s, t, pos);
    }
  }

  /** Under the right lock a null prev_p and one that is not come to the same. */
  lemma UnlinkedOwn(lists: seq<seq<Node>>, key: nat, n: Node, pos: nat)
    requires key < |lists| && Distinct(lists[key])
    ensures Unlinked(lists, key, key, n, pos) == lists[key := Without(lists[key], n)]
  {
    if lists[key] != [] && lists[key][0] == n {
      WithoutAt(lists[key], 0);
    }
  }

  lemma GoClears(s: State, t: nat, pos: nat)
    requires Lists(s) && Threads(s) && Enabled(s, Go(t, pos)) && Stable(s, Go(t, pos)) && Clearing(s.pcs[t])
    ensures Clears(s, DoGo(s, t, pos), t)
  {
    assert GoodThread(s, t);
    UnlinkedOwn(s.lists, s.pcs[t].key, s.pcs[t].node, pos);
  }

  lemma GoLinks(s: State, t: nat, pos: nat)
    requires Threads(s) && Enabled(s, Go(t, pos)) && s.pcs[t].AppLink?
    ensures Links(s, DoGo(s, t, pos), t, pos)
  {
    assert GoodThread(s, t);
  }

  lemma GoKeepsInv(s: State, t: nat, pos: nat)
    requires Inv(s) && Enabled(s, Go(t, pos)) && Stable(s, Go(t, pos))
    ensures Inv(DoGo(s, t, pos))
  {
    var d, pc := DoGo(s, t, pos), s.pcs[t];
    if GoesQuietly(pc) {
      GoIsQuiet(s, t, pos);
      QuietKeepsInv(s, d, t);
    } else if Clearing(pc) {
      GoClears(s, t, pos);
      ClearKeepsInv(s, d, t);
    } else if pc.AppLink? {
      GoLinks(s, t, pos);
      LinkKeepsInv(s, d, t, pos);
    } else if pc.AppPop? {
      PopKeepsInv(s, d, t, pc.node, pc.key);
    } else if pc.AppStore? {
      StoreKeepsInv(s, d, t, pc.node, pc.key, pc.i);
    } else if pc.DelPush? {
      PushKeepsInv(s, d, t, pc.node, pc.i, pc.retire);
    } else {
      RetireKeepsInv(s, d, t, pc.node);
    }
  }

  /** Every step keeps the invariant, as long as deletes act on stored keys and on slots that hold their nodes. */
  lemma StepKeepsInv(s: State, step: Step)
    requires Inv(s) && Enabled(s, step) && Stable(s, step)
    ensures Inv(Do(s, step))
  {
    if step.Go? {
      GoKeepsInv(s, step.t, step.pos);
    } else {
      CallKeepsInv(s, step);
    }
  }

  lemma GoMoves(s: State, t: nat, pos: nat)
    requires Inv(s) && Enabled(s, Go(t, pos)) && Stable(s, Go(t, pos))
    ensures OnlyMoves(s, DoGo(s, t, pos), t)
  {
    var d, pc := DoGo(s, t, pos), s.pcs[t];
    if GoesQuietly(pc) {
      GoIsQuiet(s, t, pos);
    } else if Clearing(pc) {
      GoClears(s, t, pos);
      ClearFinds(s, d, t);
      ClearMove(s, d, t);
    } else if pc.AppLink? {
      GoLinks(s, t, pos);
      LinkMove(s, d, t, pos);
    } else {
      GoSlotMoves(s, t, pos);
    }
  }

  lemma GoSlotMoves(s: State, t: nat, pos: nat)
    requires Slots(s) && Threads(s) && Enabled(s, Go(t, pos))
    requires s.pcs[t].AppPop? || s.pcs[t].AppStore? || s.pcs[t].DelPush? || s.pcs[t].DelRetire?
    ensures OnlyMoves(s, DoGo(s, t, pos), t)
  {
    var d, pc := DoGo(s, t, pos), s.pcs[t];
    assert GoodThread(s, t);
    if pc.AppPop? {
      assert s.freeQ != [] ==> s.freeQ[0] in s.freeQ && GoodSlot(s, s.freeQ[0]);
      PopMove(s, d, t, pc.node, pc.key);
    } else if pc.AppStore? {
      StoreMove(s, d, t, pc.node, pc.key, pc.i);
    } else if pc.DelPush? {
      PushMove(s, d, t, pc.node, pc.i, pc.retire);
    } else {
      RetireMove(s, d, t, pc.node);
    }
  }

  lemma StepMoves(s: State, step: Step)
    requires Inv(s) && Enabled(s, step) && Stable(s, step)
    ensures OnlyMoves(s, Do(s, step), step.t)
  {
    if step.Go? {
      GoMoves(s, step.t, step.pos);
    } else {
      CallIsQuiet(s, step);
    }
  }

  // ---------- Whole runs ----------

  ghost predicate IsRun(states: seq<State>, steps: seq<Step>) {
    && |states| == |steps| + 1
    && Init(states[0])
    && forall i :: 0 <= i < |steps| ==> Enabled(states[i], steps[i]) && states[i + 1] == Do(states[i], steps[i])
  }

  ghost predicate StableRun(states: seq<State>, steps: seq<Step>) {
    IsRun(states, steps) && forall i :: 0 <= i < |steps| ==> Stable(states[i], steps[i])
  }

  lemma InitInv(s: State)
    requires Init(s)
    ensures Inv(s)
  {
    forall i | 0 <= i < |s.slots|
      ensures GoodSlot(s, i)
    {
      assert s.freeQ[i] == i;
    }
  }

  lemma {:induction false} RunInv(states: seq<State>, steps: seq<Step>, k: nat)
    requires StableRun(states, steps) && k <= |steps|
    ensures Inv(states[k])
  {
    if k == 0 {
      InitInv(states[0]);
    } else {
      RunInv(states, steps, k - 1);
      StepKeepsInv(states[k - 1], steps[k - 1]);
    }
  }

  /** o is the one place slot i is in: the free queue, one append, one delete, or one bucket list. */
  ghost predicate OnlyIn(s: State, i: nat, o: Owner) {
    && (i in s.freeQ <==> o == Free)
    && (forall t :: 0 <= t < |s.pcs| ==> (AppSlot(s.pcs[t]) == Some(i) <==> o == Appending(t)))
    && (forall t :: 0 <= t < |s.pcs| ==> (DelSlot(s.pcs[t]) == Some(i) <==> o == Deleting(t)))
    && (forall n :: n in s.links ==>
          ((s.links[n].index == i && s.links[n].key < |s.lists| && n in s.lists[s.links[n].key]) <==> o == Linked(n)))
  }

  lemma SlotIsOnlyIn(s: State, i: nat)
    requires Inv(s) && i < |s.slots|
    ensures OnlyIn(s, i, s.owner[i])
  {
    assert GoodSlot(s, i);
    forall t | 0 <= t < |s.pcs|
      ensures AppSlot(s.pcs[t]) == Some(i) <==> s.owner[i] == Appending(t)
      ensures DelSlot(s.pcs[t]) == Some(i) <==> s.owner[i] == Deleting(t)
    {
      assert GoodThread(s, t);
    }
  }

  /** Slots are conserved: each is in exactly one place, and the counter complements the free queue. */
  lemma SlotsAreConserved(states: seq<State>, steps: seq<Step>, k: nat, i: nat)
    requires StableRun(states, steps) && k <= |steps| && i < |states[k].slots|
    ensures exists o :: OnlyIn(states[k], i, o)
    ensures states[k].active + |states[k].freeQ| == |states[k].slots|
    ensures 0 <= states[k].active <= |states[k].slots|
  {
    RunInv(states, steps, k);
    SlotIsOnlyIn(states[k], i);
    Pigeonhole(states[k].freeQ, |states[k].slots|);
  }

  /** How many locks a thread at pc holds. */
  function LocksHeld(s: State, t: nat): nat {
    |(set b | 0 <= b < |s.bucketLocks| && s.bucketLocks[b] == Some(t))| + if s.tableLock == Some(t) then 1 else 0
  }

  lemma HeldAreFew(s: State, t: nat)
    requires Locks(s) && t < |s.pcs|
    ensures LocksHeld(s, t) == (if HoldsTable(s.pcs[t]) then 1 else 0) + (if Held(s.pcs[t]).Some? then 1 else 0)
  {
    var held := set b | 0 <= b < |s.bucketLocks| && s.bucketLocks[b] == Some(t);
    if Held(s.pcs[t]).Some? {
      assert held == {Held(s.pcs[t]).value};
    } else {
      assert held == {};
    }
  }

  /** No thread ever holds two locks, and a thread that has returned holds none. */
  lemma OneLockAtATime(states: seq<State>, steps: seq<Step>, k: nat, t: nat)
    requires StableRun(states, steps) && k <= |steps| && t < |states[k].pcs|
    ensures LocksHeld(states[k], t) <= 1
    ensures states[k].pcs[t].Idle? ==> LocksHeld(states[k], t) == 0
  {
    RunInv(states, steps, k);
    HeldAreFew(states[k], t);
  }

  lemma AllocatedFits(s: State, i: nat, n: Node)
    requires Inv(s) && Allocated(s, i, n)
    ensures i < |s.slots|
  {
    if n in s.links {
      assert GoodNode(s, n);
    } else {
      assert GoodThread(s, s.appender[n]);
    }
  }

  lemma HolderFits(s: State, t: nat)
    requires Inv(s) && t < |s.pcs| && Held(s.pcs[t]).Some?
    ensures Fits(s, s.pcs[t], 0)
  {
    var pc := s.pcs[t];
    assert GoodThread(s, t);
    if pc.node in s.links {
      assert GoodNode(s, pc.node);
    }
    if pc.RefCheck? || pc.RefClear? {
      AllocatedFits(s, pc.i, pc.node);
    }
  }

  lemma LockHolderCanGo(s: State, t: nat)
    requires Inv(s) && t < |s.pcs| && (HoldsTable(s.pcs[t]) || Held(s.pcs[t]).Some?)
    ensures Enabled(s, Go(t, 0))
  {
    assert GoodThread(s, t);
    if s.pcs[t].AppPop? {
      forall j | 0 <= j < |s.freeQ| ensures s.freeQ[j] < |s.slots| { assert s.freeQ[j] in s.freeQ; }
    }
    if Held(s.pcs[t]).Some? {
      HolderFits(s, t);
    }
  }

  /** Thread u holds the lock that a thread at pc waits for. */
  predicate HoldsWanted(s: State, pc: Pc, u: nat) {
    if pc.AppLockTable? || pc.DelLockTable? then s.tableLock == Some(u)
    else Wanted(pc).Some? && Wanted(pc).value < |s.bucketLocks| && s.bucketLocks[Wanted(pc).value] == Some(u)
  }

  lemma GoesOrWaits(s: State, t: nat)
    requires Inv(s) && t < |s.pcs| && !s.pcs[t].Idle?
    ensures Enabled(s, Go(t, 0)) || exists u: nat :: HoldsWanted(s, s.pcs[t], u) && Enabled(s, Go(u, 0))
  {
    var pc := s.pcs[t];
    assert GoodThread(s, t);
    if HoldsTable(pc) || Held(pc).Some? {
      LockHolderCanGo(s, t);
    } else if (pc.AppLockTable? || pc.DelLockTable?) && s.tableLock.Some? {
      LockHolderCanGo(s, s.tableLock.value);
      assert HoldsWanted(s, pc, s.tableLock.value);
    } else if Wanted(pc).Some? && Wanted(pc).value < |s.bucketLocks| && s.bucketLocks[Wanted(pc).value].Some? {
      LockHolderCanGo(s, s.bucketLocks[Wanted(pc).value].value);
      assert HoldsWanted(s, pc, s.bucketLocks[Wanted(pc).value].value);
    }
  }

  /** No run deadlocks: every thread inside a call can move, or waits for a lock whose holder can. */
  lemma NoDeadlock(states: seq<State>, steps: seq<Step>, k: nat, t: nat)
    requires StableRun(states, steps) && k <= |steps| && t < |states[k].pcs| && !states[k].pcs[t].Idle?
    ensures Enabled(states[k], Go(t, 0))
            || exists u: nat :: HoldsWanted(states[k], states[k].pcs[t], u) && Enabled(states[k], Go(u, 0))
  {
    RunInv(states, steps, k);
    GoesOrWaits(states[k], t);
  }

  /**
   Delete happens exactly once.  However many deletes of a published node run, at most one succeeds,
   and once any of them has returned exactly one has; the node goes to CALL_RCU at most once, and
   exactly once when no thread is left inside a call.
   */
  lemma DeleteExactlyOnce(states: seq<State>, steps: seq<Step>, k: nat, n: Node)
    requires StableRun(states, steps) && k <= |steps| && n in states[k].links
    ensures n in states[k].wins && |states[k].wins[n]| <= 1
    ensures n in states[k].over ==> |states[k].wins[n]| == 1
    ensures states[k].links[n].key < |states[k].lists|
    ensures |states[k].wins[n]| == 0 <==> n in states[k].lists[states[k].links[n].key]
    ensures states[k].retired[n] <= |states[k].wins[n]|
    ensures (forall t :: 0 <= t < |states[k].pcs| ==> states[k].pcs[t].Idle?) ==>
            states[k].retired[n] == |states[k].wins[n]|
  {
    RunInv(states, steps, k);
    assert GoodNode(states[k], n);
  }

  /** A thread inside a delete whose node it knows. */
  predicate InDelete(pc: Pc) {
    Deciding(pc) || pc.DelLockTable? || pc.DelPush? || pc.DelRetire?
  }

  lemma TakeGoesOn(s: State, t: nat, pc: Pc, key: nat)
    requires t < |s.pcs| && !pc.Idle?
    ensures |TakeBucket(s, t, pc, key).pcs| == |s.pcs| && !TakeBucket(s, t, pc, key).pcs[t].Idle?
  {
  }

  lemma ClearGoesOn(s: State, t: nat, pos: nat)
    requires t < |s.pcs| && Clearing(s.pcs[t]) && Fits(s, s.pcs[t], pos)
    ensures |Clear(s, t, s.pcs[t], pos).pcs| == |s.pcs| && !Clear(s, t, s.pcs[t], pos).pcs[t].Idle?
  {
  }

  lemma CheckReturns(s: State, d: State, t: nat, pos: nat)
    requires Enabled(s, Go(t, pos)) && (s.pcs[t].DelCheck? || s.pcs[t].RefCheck?) && d == GoDecide(s, t, pos)
    requires |d.pcs| == |s.pcs| && d.pcs[t].Idle?
    ensures s.pcs[t].node in d.over
  {
    var pc := s.pcs[t];
    if pc.DelCheck? {
      assert d == Goto(s, t, DelClear(pc.node, pc.key, pc.i)) || d == Miss(s, t, pc.node, pc.key);
    } else {
      assert d == Goto(s, t, RefClear(pc.node, pc.key, pc.i)) || d == Miss(s, t, pc.node, pc.key);
    }
  }

  lemma LockGoesOn(s: State, t: nat, pos: nat)
    requires Enabled(s, Go(t, pos)) && (s.pcs[t].DelLockBucket? || s.pcs[t].RefLockBucket?)
    ensures |GoDecide(s, t, pos).pcs| == |s.pcs| && !GoDecide(s, t, pos).pcs[t].Idle?
  {
    var pc := s.pcs[t];
    TakeGoesOn(s, t, if pc.DelLockBucket? then DelCheck(pc.node, pc.key, pc.i) else RefCheck(pc.node, pc.key, pc.i),
               pc.key);
  }

  /** Of the steps of a delete not yet decided, only a failed test returns. */
  lemma DecideReturns(s: State, d: State, t: nat, pos: nat)
    requires Enabled(s, Go(t, pos)) && Deciding(s.pcs[t]) && d == GoDecide(s, t, pos)
    requires |d.pcs| == |s.pcs| && d.pcs[t].Idle?
    ensures s.pcs[t].node in d.over
  {
    if s.pcs[t].DelCheck? || s.pcs[t].RefCheck? {
      CheckReturns(s, d, t, pos);
    } else if Clearing(s.pcs[t]) {
      ClearGoesOn(s, t, pos);
    } else {
      LockGoesOn(s, t, pos);
    }
  }

  lemma PushReturns(s: State, d: State, t: nat, node: Node, i: nat, retire: bool)
    requires t < |s.pcs| && i < |s.owner| && d == Push(s, t, node, i, retire) && d.pcs[t].Idle?
    ensures node in d.over && d.wins == s.wins
  {
  }

  lemma DecidedReturns(s: State, d: State, t: nat, pos: nat)
    requires Enabled(s, Go(t, pos)) && (s.pcs[t].DelLockTable? || s.pcs[t].DelPush? || s.pcs[t].DelRetire?)
    requires d == DoGo(s, t, pos) && |d.pcs| == |s.pcs| && d.pcs[t].Idle?
    ensures s.pcs[t].node in d.over && d.wins == s.wins
  {
    var pc := s.pcs[t];
    if pc.DelPush? {
      PushReturns(s, d, t, pc.node, pc.i, pc.retire);
    } else if pc.DelRetire? {
      assert d == Retire(s, t, pc.node);
    }
  }

  /**
   When a delete returns, TRUE or FALSE, exactly one delete of its node has succeeded: its own if it returns TRUE,
   which it does once it has released the lock of the node's bucket with the slot cleared.
   */
  lemma DeleteReturns(states: seq<State>, steps: seq<Step>, k: nat, t: nat, pos: nat)
    requires StableRun(states, steps) && k < |steps| && steps[k] == Go(t, pos)
    requires t < |states[k].pcs| == |states[k + 1].pcs| && InDelete(states[k].pcs[t]) && states[k + 1].pcs[t].Idle?
    ensures var n := states[k].pcs[t].node; (
              && n in states[k + 1].over && n in states[k + 1].wins && |states[k + 1].wins[n]| == 1
              && (!Deciding(states[k].pcs[t]) ==> states[k + 1].wins[n] == [t]))
  {
    var n := states[k].pcs[t].node;
    RunInv(states, steps, k);
    RunInv(states, steps, k + 1);
    assert GoodThread(states[k], t);
    if Deciding(states[k].pcs[t]) {
      DecideReturns(states[k], states[k + 1], t, pos);
    } else {
      DecidedReturns(states[k], states[k + 1], t, pos);
    }
    assert GoodNode(states[k + 1], n);
  }

  /** What CALL_RCU is given is in no list any more, so scans that begin later do not find it. */
  lemma RetiredIsUnlinked(states: seq<State>, steps: seq<Step>, k: nat, n: Node, b: nat)
    requires StableRun(states, steps) && k <= |steps| && states[k].retired[n] > 0 && b < |states[k].lists|
    ensures n !in states[k].lists[b]
  {
    RunInv(states, steps, k);
    assert n in states[k].links && GoodNode(states[k], n);
  }

  // ---------- Exactly when deletes are right ----------

  /** A published node is in its list, or one delete of it has succeeded. */
  ghost predicate Settled(s: State, n: Node)
    requires n in s.links
  {
    && n in s.wins && |s.wins[n]| <= 1
    && s.links[n].key < |s.lists| && (s.wins[n] == [] <==> n in s.lists[s.links[n].key])
  }

  /**
   No thread has followed a bad pointer, every published node is in its list until exactly one
   delete of it succeeds, and each bucket's counter is the length of its list.
   */
  ghost predicate Correct(s: State) {
    && (forall t :: 0 <= t < |s.pcs| ==> !s.pcs[t].Fault?)
    && (forall n :: n in s.links ==> Settled(s, n))
    && Counts(s)
  }

  lemma InvIsCorrect(s: State)
    requires Lists(s) && Counts(s) && Threads(s) && Nodes(s)
    ensures Correct(s)
  {
    forall t | 0 <= t < |s.pcs|
      ensures !s.pcs[t].Fault?
    {
      assert GoodThread(s, t);
    }
    forall n | n in s.links
      ensures Settled(s, n)
    {
      assert GoodNode(s, n);
    }
  }

  /** Following a null pointer. */
  lemma ReadsNull(s: State, t: nat, pos: nat)
    requires Enabled(s, Go(t, pos)) && !Stable(s, Go(t, pos)) && s.pcs[t].RefRead?
    ensures |DoGo(s, t, pos).pcs| == |s.pcs| && DoGo(s, t, pos).pcs[t].Fault?
  {
  }

  /** Taking the lock of a bucket that is not there. */
  lemma LocksNothing(s: State, t: nat, pos: nat)
    requires Enabled(s, Go(t, pos)) && !Stable(s, Go(t, pos)) && Wanted(s.pcs[t]).Some?
    ensures |DoGo(s, t, pos).pcs| == |s.pcs| && DoGo(s, t, pos).pcs[t].Fault?
  {
  }

  /** Unlinking a node that was never linked. */
  lemma NeverLinked(s: State, t: nat, pos: nat)
    requires Enabled(s, Go(t, pos)) && Clearing(s.pcs[t]) && s.pcs[t].node !in s.links
    ensures |DoGo(s, t, pos).pcs| == |s.pcs| && DoGo(s, t, pos).pcs[t].Fault?
  {
  }

  /** A node already deleted is deleted again. */
  lemma DeletedTwice(s: State, t: nat, pos: nat)
    requires Nodes(s) && Enabled(s, Go(t, pos)) && Clearing(s.pcs[t])
    requires s.pcs[t].node in s.links && s.wins[s.pcs[t].node] != []
    ensures var n, d := s.pcs[t].node, DoGo(s, t, pos); n in d.links && n in d.wins && |d.wins[n]| == 2
  {
    assert GoodNode(s, s.pcs[t].node);
  }

  /** A node still in the table is unlinked as a member of another bucket. */
  lemma WrongBucket(s: State, t: nat, pos: nat)
    requires Lists(s) && Counts(s) && Nodes(s) && Enabled(s, Go(t, pos)) && Clearing(s.pcs[t])
    requires s.pcs[t].node in s.links && s.wins[s.pcs[t].node] == [] && s.links[s.pcs[t].node].key != s.pcs[t].key
    ensures !Correct(DoGo(s, t, pos))
  {
    var pc, d := s.pcs[t], DoGo(s, t, pos);
    var n := pc.node;
    var own := s.links[n].key;
    assert GoodNode(s, n);
    assert d.wins[n] == [t] && d.counts[own] == s.counts[own];
    if d.lists[own] != s.lists[own] {
      WithoutDistinct(s.lists[own], n);
    } else {
      assert !Settled(d, n);
    }
  }

  /** The slot no longer holds the node: a delete by reference, too late. */
  lemma SlotIsGone(s: State, n: Node)
    requires Slots(s) && Nodes(s) && n in s.links
    ensures s.links[n].index < |s.slots|
    ensures s.slots[s.links[n].index].node != Some(n) ==> s.wins[n] != []
  {
    assert GoodNode(s, n);
    assert GoodSlot(s, s.links[n].index);
  }

  lemma UnstableIsIncorrect(s: State, step: Step)
    requires Inv(s) && Enabled(s, step) && !Stable(s, step)
    ensures !Correct(Do(s, step))
  {
    var t := step.t;
    var pc, d := s.pcs[t], DoGo(s, t, step.pos);
    assert GoodThread(s, t);
    if pc.RefRead? {
      ReadsNull(s, t, step.pos);
    } else if Wanted(pc).Some? {
      LocksNothing(s, t, step.pos);
    } else if pc.node !in s.links {
      NeverLinked(s, t, step.pos);
    } else if s.wins[pc.node] != [] {
      DeletedTwice(s, t, step.pos);
      assert !Settled(d, pc.node);
    } else {
      SlotIsGone(s, pc.node);
      WrongBucket(s, t, step.pos);
    }
  }

  /** From a good state, a step goes right exactly when it is not a delete with a wrong key or a stale slot. */
  lemma StepIsCorrectIff(s: State, step: Step)
    requires Inv(s) && Enabled(s, step)
    ensures Correct(Do(s, step)) <==> Stable(s, step)
    ensures Stable(s, step) ==> Inv(Do(s, step))
  {
    if Stable(s, step) {
      StepKeepsInv(s, step);
      InvIsCorrect(Do(s, step));
    } else {
      UnstableIsIncorrect(s, step);
    }
  }

  /** The same of the whole invariant. */
  lemma StepKeepsInvIff(s: State, step: Step)
    requires Inv(s) && Enabled(s, step)
    ensures Inv(Do(s, step)) <==> Stable(s, step)
  {
    StepIsCorrectIff(s, step);
    if Inv(Do(s, step)) {
      InvIsCorrect(Do(s, step));
    }
  }

  lemma {:induction false} CorrectRunIsStable(states: seq<State>, steps: seq<Step>, k: nat)
    requires IsRun(states, steps) && (forall i :: 0 <= i < |states| ==> Correct(states[i])) && k <= |steps|
    ensures Inv(states[k]) && forall i :: 0 <= i < k ==> Stable(states[i], steps[i])
  {
    if k == 0 {
      InitInv(states[0]);
    } else {
      CorrectRunIsStable(states, steps, k - 1);
      StepIsCorrectIff(states[k - 1], steps[k - 1]);
    }
  }

  /**
   A run goes right all along, with no bad pointer followed, each node in its list until exactly one
   delete of it succeeds and the counters right, exactly when none of its deletes uses a key its
   append has not stored in place of another, and none by reference a slot that is no longer its node's.
   */
  lemma CorrectIffStable(states: seq<State>, steps: seq<Step>)
    requires IsRun(states, steps)
    ensures (forall k :: 0 <= k < |states| ==> Correct(states[k])) <==> StableRun(states, steps)
  {
    if StableRun(states, steps) {
      forall k | 0 <= k < |states|
        ensures Correct(states[k])
      {
        RunInv(states, steps, k);
        InvIsCorrect(states[k]);
      }
    }
    if forall k :: 0 <= k < |states| ==> Correct(states[k]) {
      CorrectRunIsStable(states, steps, |steps|);
    }
  }
}
