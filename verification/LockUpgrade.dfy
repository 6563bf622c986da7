/**
 Scanning a list under a read-write lock that cannot be upgraded (ofcdriver/include/dll.h, lines 259
 to 267 and 401 to 503).  DLL_QUEUE_DYN_SCAN_WITH_LOCK_WRITE_CNTR searches under the read lock, takes a
 reference on the node it matched, lets the read lock go, takes the write lock, gives the reference
 back and calls Delete_fn, which unlinks and frees a node whose count is zero and leaves others alone.
 Threads also append, and delete without looking at the count.  One step per shared access.
 */
module LockUpgrade {
  import opened Common

  type Node = nat

  datatype Edit = Append(n: Node) | Delete(n: Node)

  datatype Pc =
    | Idle
    | Start                                             // spinning until writeCntr is 0
    | ReadWait                                          // about to take the read lock
    | Scanning(cur: Option<Node>, next: Option<Node>)   // pNode and pNext, under the read lock
    | Matched(n: Node)                                  // reference taken, still under the read lock
    | Released(n: Node)                                 // no lock
    | Counted(n: Node)                                  // writeCntr raised, about to take the write lock
    | Writing(n: Node)                                  // under the write lock
    | Uncounted(n: Node)                                // writeCntr lowered, about to call UpdateRefCnt
    | Deleting(n: Node)                                 // about to call Delete_fn
    | Deleted
    | Rereading                                         // about to take the read lock once more
    | Leaving                                           // about to release it
    | EditStart(e: Edit)
    | EditCounted(e: Edit)
    | EditWriting(e: Edit)
    | EditUncounted(e: Edit)
    | EditDone

  /** unlinks, tried and known are history: unlinks done, nodes Delete_fn was called on, nodes ever appended. */
  datatype State = State(
    pcs: seq<Pc>, list: seq<Node>, refcnt: map<Node, int>,
    readers: set<nat>, writer: Option<nat>, writeCntr: int,
    freed: set<Node>, unlinks: map<Node, int>, tried: set<Node>, known: set<Node>)

  datatype Step =
    | CallScan(t: nat)
    | CallEdit(t: nat, e: Edit)
    | Compare(t: nat, hit: bool)    // CmpAndIncRefCnt_fn on pNode
    | Go(t: nat)

  predicate HoldsRead(pc: Pc) {
    pc.Scanning? || pc.Matched? || pc.Leaving?
  }

  predicate HoldsWrite(pc: Pc) {
    pc.Writing? || pc.Uncounted? || pc.Deleting? || pc.Deleted? || pc.EditWriting? || pc.EditUncounted? || pc.EditDone?
  }

  /** Between the match and UpdateRefCnt. */
  predicate RefersTo(pc: Pc, n: Node) {
    (pc.Matched? || pc.Released? || pc.Counted? || pc.Writing? || pc.Uncounted?) && pc.n == n
  }

  /** Counted in writeCntr. */
  predicate Announced(pc: Pc) {
    pc.Counted? || pc.Writing? || pc.EditCounted? || pc.EditWriting?
  }

  predicate Appending(pc: Pc, n: Node) {
    (pc.EditStart? || pc.EditCounted? || pc.EditWriting? || pc.EditUncounted?) && pc.e == Append(n)
  }

  predicate NeedsWriteLock(pc: Pc) {
    pc.Counted? || pc.EditCounted?
  }

  function First(list: seq<Node>): Option<Node> {
    if list == [] then None else Some(list[0])
  }

  /** DLL_QUEUE_NEXT. */
  function After(list: seq<Node>, n: Node): Option<Node> {
    if list == [] then None else if list[0] == n then First(list[1..]) else After(list[1..], n)
  }

  function NextOf(list: seq<Node>, cur: Option<Node>): Option<Node> {
    if cur.None? then None else After(list, cur.value)
  }

  /** What m has for n; nodes it does not have are at 0. */
  function Value(m: map<Node, int>, n: Node): int {
    if n in m then m[n] else 0
  }

  ghost predicate Enabled(s: State, step: Step) {
    && step.t < |s.pcs|
    && var pc := s.pcs[step.t];
       match step
       case CallScan(_) => pc.Idle?
       case CallEdit(_, e) => pc.Idle? && (e.Append? ==> e.n !in s.known)
       case Compare(_, _) => pc.Scanning? && pc.cur.Some?
       case Go(_) =>
         && !pc.Idle? && (pc.Scanning? ==> pc.cur.None?)
         && (pc.Start? ==> s.writeCntr == 0)
         && (pc.ReadWait? || pc.Rereading? ==> s.writer.None?)
         && (NeedsWriteLock(pc) ==> s.writer.None? && s.readers == {})
  }

  function At(s: State, t: nat, pc: Pc): State
    requires t < |s.pcs|
  {
    s.(pcs := s.pcs[t := pc])
  }

  /** DLL_QUEUE_DELETE_NODE: nothing happens to a node that is not in the list. */
  function Unlink(s: State, n: Node): State {
    if n in s.list then s.(list := Without(s.list, n), unlinks := s.unlinks[n := Value(s.unlinks, n) + 1]) else s
  }

  /** The Delete_fn of the comments: at count zero, unlink and free. */
  function DeleteFn(s: State, n: Node): State {
    if Value(s.refcnt, n) == 0 then Unlink(s, n).(freed := s.freed + {n}) else s
  }

  /** What an edit makes of the list. */
  function EditedList(list: seq<Node>, e: Edit): seq<Node> {
    match e
    case Append(n) => list + [n]
    case Delete(n) => Without(list, n)
  }

  function DoEdit(s: State, e: Edit): State {
    match e
    case Append(n) => s.(list := s.list + [n])
    case Delete(n) => Unlink(s, n)
  }

  /** Searching, under the read lock. */
  function DoSearch(s: State, t: nat): State
    requires t < |s.pcs|
  {
    match s.pcs[t]
    case Start => At(s, t, ReadWait)
    case ReadWait => At(s, t, Scanning(First(s.list), NextOf(s.list, First(s.list)))).(readers := s.readers + {t})
    case Scanning(_, _) => At(s, t, Idle).(readers := s.readers - {t})
    case Matched(n) => At(s, t, Released(n)).(readers := s.readers - {t})
    case Rereading => At(s, t, Leaving).(readers := s.readers + {t})
    case Leaving => At(s, t, Idle).(readers := s.readers - {t})
    case _ => s
  }

  /** From the lock upgrade to the release of the write lock. */
  function DoUpgrade(s: State, t: nat): State
    requires t < |s.pcs|
  {
    match s.pcs[t]
    case Released(n) => At(s, t, Counted(n)).(writeCntr := s.writeCntr + 1)
    case Counted(n) => At(s, t, Writing(n)).(writer := Some(t))
    case Writing(n) => At(s, t, Uncounted(n)).(writeCntr := s.writeCntr - 1)
    case Uncounted(n) => At(s, t, Deleting(n)).(refcnt := s.refcnt[n := Value(s.refcnt, n) - 1])
    case Deleting(n) => At(DeleteFn(s, n), t, Deleted).(tried := s.tried + {n})
    case Deleted => At(s, t, Rereading).(writer := None)
    case _ => s
  }

  /** The append and the unconditional delete. */
  function DoEditing(s: State, t: nat): State
    requires t < |s.pcs|
  {
    match s.pcs[t]
    case EditStart(e) => At(s, t, EditCounted(e)).(writeCntr := s.writeCntr + 1)
    case EditCounted(e) => At(s, t, EditWriting(e)).(writer := Some(t))
    case EditWriting(e) => At(s, t, EditUncounted(e)).(writeCntr := s.writeCntr - 1)
    case EditUncounted(e) => At(DoEdit(s, e), t, EditDone)
    case EditDone => At(s, t, Idle).(writer := None)
    case _ => s
  }

  predicate Upgrading(pc: Pc) {
    pc.Released? || pc.Counted? || pc.Writing? || pc.Uncounted? || pc.Deleting? || pc.Deleted?
  }

  predicate Editing(pc: Pc) {
    pc.EditStart? || pc.EditCounted? || pc.EditWriting? || pc.EditUncounted? || pc.EditDone?
  }

  function DoGo(s: State, t: nat): (d: State)
    requires t < |s.pcs|
    ensures |d.pcs| == |s.pcs|
  {
    if Upgrading(s.pcs[t]) then DoUpgrade(s, t) else if Editing(s.pcs[t]) then DoEditing(s, t) else DoSearch(s, t)
  }

  function Do(s: State, step: Step): (d: State)
    requires Enabled(s, step)
    ensures |d.pcs| == |s.pcs|
  {
    var t := step.t;
    match step
    case CallScan(_) => At(s, t, Start)
    case CallEdit(_, e) => At(s, t, EditStart(e)).(known := if e.Append? then s.known + {e.n} else s.known)
    case Compare(_, hit) =>
      var pc := s.pcs[t];
      if hit then
        var n := pc.cur.value;
        At(s, t, Matched(n)).(refcnt := s.refcnt[n := Value(s.refcnt, n) + 1])
      else At(s, t, Scanning(pc.next, NextOf(s.list, pc.next)))
    case Go(_) => DoGo(s, t)
  }

  ghost predicate Init(s: State) {
    && (forall t :: 0 <= t < |s.pcs| ==> s.pcs[t].Idle?)
    && s.list == [] && s.refcnt == map[] && s.readers == {} && s.writer == None && s.writeCntr == 0
    && s.freed == {} && s.unlinks == map[] && s.tried == {} && s.known == {}
  }

  // ---------- Counting threads ----------

  datatype Role = Referrer(n: Node) | Announcer

  predicate Plays(pc: Pc, role: Role) {
    match role
    case Referrer(n) => RefersTo(pc, n)
    case Announcer => Announced(pc)
  }

  function Tally(pcs: seq<Pc>, role: Role): nat {
    if pcs == [] then 0 else B(Plays(pcs[0], role)) + Tally(pcs[1..], role)
  }

  lemma {:induction false} TallyUpdate(pcs: seq<Pc>, t: nat, pc: Pc, role: Role)
    requires t < |pcs|
    ensures Tally(pcs[t := pc], role) == Tally(pcs, role) - B(Plays(pcs[t], role)) + B(Plays(pc, role))
  {
    if t == 0 {
      assert pcs[0 := pc][1..] == pcs[1..];
    } else {
      assert pcs[t := pc][1..] == pcs[1..][t - 1 := pc];
      TallyUpdate(pcs[1..], t - 1, pc, role);
    }
  }

  lemma {:induction false} TallyZero(pcs: seq<Pc>, role: Role)
    ensures Tally(pcs, role) == 0 <==> forall t :: 0 <= t < |pcs| ==> !Plays(pcs[t], role)
  {
    if pcs != [] {
      TallyZero(pcs[1..], role);
      assert forall t :: 1 <= t < |pcs| ==> pcs[t] == pcs[1..][t - 1];
    }
  }

  // ---------- Invariant ----------

  ghost predicate LockInv(s: State) {
    && (forall t :: t in s.readers <==> 0 <= t < |s.pcs| && HoldsRead(s.pcs[t]))
    && (forall t :: 0 <= t < |s.pcs| ==> (s.writer == Some(t) <==> HoldsWrite(s.pcs[t])))
    && (s.writer.Some? ==> s.writer.value < |s.pcs| && s.readers == {})
  }

  ghost predicate CountInv(s: State) {
    && (forall n :: Value(s.refcnt, n) == Tally(s.pcs, Referrer(n)))
    && s.writeCntr == Tally(s.pcs, Announcer)
  }

  /** A node is in the list, or was unlinked once, or was never linked; only unlinked nodes are freed. */
  ghost predicate NodeInv(s: State) {
    && Distinct(s.list)
    && (forall n :: n in s.list ==> n in s.known && Value(s.unlinks, n) == 0)
    && (forall n :: 0 <= Value(s.unlinks, n) <= 1 && (Value(s.unlinks, n) == 1 ==> n in s.known))
    && (forall n :: n in s.freed ==> Value(s.unlinks, n) == 1)
  }

  ghost predicate PcInv(s: State, pc: Pc) {
    && (forall n :: RefersTo(pc, n) ==> n in s.list)
    && (pc.Deleting? ==> pc.n in s.list)
    && (pc.Scanning? && pc.cur.Some? ==> pc.cur.value in s.list && pc.next == After(s.list, pc.cur.value))
    && (forall n :: Appending(pc, n) ==> n in s.known && n !in s.list && Value(s.unlinks, n) == 0)
  }

  ghost predicate ThreadInv(s: State) {
    && (forall t :: 0 <= t < |s.pcs| ==> PcInv(s, s.pcs[t]))
    && (forall t, u, n :: 0 <= t < |s.pcs| && 0 <= u < |s.pcs| && Appending(s.pcs[t], n) && Appending(s.pcs[u], n) ==>
        t == u)
  }

  /** A node Delete_fn saw is gone, or referred to, or about to be seen again. */
  ghost predicate TriedInv(s: State) {
    forall n :: n in s.tried ==> Value(s.unlinks, n) == 1 || Wanted(s, n)
  }

  ghost predicate Wanted(s: State, n: Node) {
    exists t :: 0 <= t < |s.pcs| && (RefersTo(s.pcs[t], n) || s.pcs[t] == Deleting(n))
  }

  ghost predicate Inv(s: State) {
    LockInv(s) && CountInv(s) && NodeInv(s) && ThreadInv(s) && TriedInv(s)
  }

  /** Every step but one: the deletion that ignores the count, done to a node that has referrers. */
  predicate Harmless(s: State, step: Step) {
    step.Go? && step.t < |s.pcs| && s.pcs[step.t].EditUncounted? && s.pcs[step.t].e.Delete? ==>
      var n := s.pcs[step.t].e.n; n in s.list ==> Value(s.refcnt, n) == 0
  }

  /** Each thread's lock bookkeeping follows its program counter. */
  ghost predicate LockShape(s: State, d: State, t: nat) {
    && t < |s.pcs| == |d.pcs| && d.pcs == s.pcs[t := d.pcs[t]]
    && d.readers == (if HoldsRead(d.pcs[t]) then s.readers + {t} else s.readers - {t})
    && d.writer == (if HoldsWrite(d.pcs[t]) then Some(t) else if HoldsWrite(s.pcs[t]) then None else s.writer)
    && (HoldsRead(d.pcs[t]) ==> s.writer.None?)
    && (HoldsWrite(d.pcs[t]) ==> s.readers - {t} == {} && (s.writer.Some? ==> s.writer.value == t))
  }

  lemma UpgradeLockShape(s: State, t: nat)
    requires Enabled(s, Go(t)) && Upgrading(s.pcs[t])
    requires (t in s.readers <==> HoldsRead(s.pcs[t])) && (s.writer == Some(t) <==> HoldsWrite(s.pcs[t]))
    requires s.writer.Some? ==> s.readers == {}
    ensures LockShape(s, DoUpgrade(s, t), t)
  {
  }

  lemma EditLockShape(s: State, t: nat)
    requires Enabled(s, Go(t)) && Editing(s.pcs[t])
    requires (t in s.readers <==> HoldsRead(s.pcs[t])) && (s.writer == Some(t) <==> HoldsWrite(s.pcs[t]))
    requires s.writer.Some? ==> s.readers == {}
    ensures LockShape(s, DoEditing(s, t), t)
  {
  }

  lemma SearchLockShape(s: State, t: nat)
    requires Enabled(s, Go(t)) && !Upgrading(s.pcs[t]) && !Editing(s.pcs[t])
    requires (t in s.readers <==> HoldsRead(s.pcs[t])) && (s.writer == Some(t) <==> HoldsWrite(s.pcs[t]))
    requires s.writer.Some? ==> s.readers == {}
    ensures LockShape(s, DoSearch(s, t), t)
  {
  }

  lemma GoLockShape(s: State, t: nat)
    requires Enabled(s, Go(t))
    requires (t in s.readers <==> HoldsRead(s.pcs[t])) && (s.writer == Some(t) <==> HoldsWrite(s.pcs[t]))
    requires s.writer.Some? ==> s.readers == {}
    ensures LockShape(s, DoGo(s, t), t)
  {
    if Upgrading(s.pcs[t]) {
      UpgradeLockShape(s, t);
    } else if Editing(s.pcs[t]) {
      EditLockShape(s, t);
    } else {
      SearchLockShape(s, t);
    }
  }

  lemma StepLockShape(s: State, step: Step)
    requires LockInv(s) && Enabled(s, step)
    ensures LockShape(s, Do(s, step), step.t)
  {
    if step.Go? {
      GoLockShape(s, step.t);
    } else {
      assert step.t in s.readers <==> HoldsRead(s.pcs[step.t]);
      assert s.writer == Some(step.t) <==> HoldsWrite(s.pcs[step.t]);
    }
  }

  lemma StepKeepsLock(s: State, step: Step)
    requires LockInv(s) && Enabled(s, step)
    ensures LockInv(Do(s, step))
  {
    StepLockShape(s, step);
  }

  /** Each thread's counting follows its program counter. */
  ghost predicate CountShape(s: State, d: State, t: nat, n: Node) {
    && t < |s.pcs| == |d.pcs| && d.pcs == s.pcs[t := d.pcs[t]]
    && Value(d.refcnt, n) == Value(s.refcnt, n) + B(RefersTo(d.pcs[t], n)) - B(RefersTo(s.pcs[t], n))
    && d.writeCntr == s.writeCntr + B(Announced(d.pcs[t])) - B(Announced(s.pcs[t]))
  }

  lemma UpgradeCountShape(s: State, t: nat, n: Node)
    requires t < |s.pcs| && Upgrading(s.pcs[t])
    ensures CountShape(s, DoUpgrade(s, t), t, n)
  {
  }

  lemma EditCountShape(s: State, t: nat, n: Node)
    requires t < |s.pcs| && Editing(s.pcs[t])
    ensures CountShape(s, DoEditing(s, t), t, n)
  {
  }

  lemma GoCountShape(s: State, t: nat, n: Node)
    requires Enabled(s, Go(t))
    ensures CountShape(s, DoGo(s, t), t, n)
  {
    if Upgrading(s.pcs[t]) {
      UpgradeCountShape(s, t, n);
    } else if Editing(s.pcs[t]) {
      EditCountShape(s, t, n);
    }
  }

  lemma StepCountShape(s: State, step: Step, n: Node)
    requires Enabled(s, step)
    ensures CountShape(s, Do(s, step), step.t, n)
  {
    if step.Go? {
      GoCountShape(s, step.t, n);
    }
  }

  lemma StepKeepsCount(s: State, step: Step)
    requires CountInv(s) && Enabled(s, step)
    ensures CountInv(Do(s, step))
  {
    var d := Do(s, step);
    forall n
      ensures Value(d.refcnt, n) == Tally(d.pcs, Referrer(n)) && d.writeCntr == Tally(d.pcs, Announcer)
    {
      StepCountShape(s, step, n);
      TallyUpdate(s.pcs, step.t, d.pcs[step.t], Referrer(n));
      TallyUpdate(s.pcs, step.t, d.pcs[step.t], Announcer);
    }
    assert Value(d.refcnt, 0) == Tally(d.pcs, Referrer(0));
  }

  lemma NoReferrers(s: State, n: Node)
    requires CountInv(s)
    ensures Value(s.refcnt, n) == 0 <==> forall t :: 0 <= t < |s.pcs| ==> !RefersTo(s.pcs[t], n)
  {
    TallyZero(s.pcs, Referrer(n));
    assert forall t :: 0 <= t < |s.pcs| ==> (Plays(s.pcs[t], Referrer(n)) <==> RefersTo(s.pcs[t], n));
  }

  lemma UnlinkKeepsNodes(s: State, n: Node)
    requires NodeInv(s)
    ensures NodeInv(Unlink(s, n))
  {
    WithoutDistinct(s.list, n);
    var d := Unlink(s, n);
    forall m
      ensures Value(d.unlinks, m) == if m == n && n in s.list then 1 else Value(s.unlinks, m)
    {
    }
  }

  lemma AppendKeepsNodes(s: State, n: Node)
    requires NodeInv(s) && n in s.known && n !in s.list && Value(s.unlinks, n) == 0
    ensures NodeInv(s.(list := s.list + [n]))
  {
  }

  lemma EditKeepsNodes(s: State, e: Edit)
    requires NodeInv(s) && (e.Append? ==> e.n in s.known && e.n !in s.list && Value(s.unlinks, e.n) == 0)
    ensures NodeInv(DoEdit(s, e))
  {
    if e.Append? {
      AppendKeepsNodes(s, e.n);
    } else {
      UnlinkKeepsNodes(s, e.n);
    }
  }

  lemma UpgradeKeepsNodes(s: State, t: nat)
    requires NodeInv(s) && t < |s.pcs| && PcInv(s, s.pcs[t]) && Upgrading(s.pcs[t])
    ensures NodeInv(DoUpgrade(s, t))
  {
    if s.pcs[t].Deleting? {
      UnlinkKeepsNodes(s, s.pcs[t].n);
    }
  }

  lemma EditingKeepsNodes(s: State, t: nat)
    requires NodeInv(s) && t < |s.pcs| && PcInv(s, s.pcs[t]) && Editing(s.pcs[t])
    ensures NodeInv(DoEditing(s, t))
  {
    var pc := s.pcs[t];
    if pc.EditUncounted? {
      assert pc.e.Append? ==> Appending(pc, pc.e.n);
      EditKeepsNodes(s, pc.e);
    }
  }

  lemma SearchKeepsNodes(s: State, t: nat)
    requires NodeInv(s) && t < |s.pcs|
    ensures NodeInv(DoSearch(s, t))
  {
  }

  lemma GoKeepsNodes(s: State, t: nat)
    requires NodeInv(s) && t < |s.pcs| && PcInv(s, s.pcs[t])
    ensures NodeInv(DoGo(s, t))
  {
    if Upgrading(s.pcs[t]) {
      UpgradeKeepsNodes(s, t);
    } else if Editing(s.pcs[t]) {
      EditingKeepsNodes(s, t);
    } else {
      SearchKeepsNodes(s, t);
    }
  }

  lemma StepKeepsNodes(s: State, step: Step)
    requires NodeInv(s) && Enabled(s, step) && PcInv(s, s.pcs[step.t])
    ensures NodeInv(Do(s, step))
  {
    if step.Go? {
      GoKeepsNodes(s, step.t);
    }
  }

  lemma {:induction false} AfterIn(list: seq<Node>, n: Node)
    ensures After(list, n).Some? ==> After(list, n).value in list
  {
    if list != [] && list[0] != n {
      AfterIn(list[1..], n);
    }
  }

  lemma PcFrame(s: State, d: State, pc: Pc)
    requires PcInv(s, pc) && d.list == s.list && d.unlinks == s.unlinks && s.known <= d.known
    ensures PcInv(d, pc)
  {
  }

  lemma PcAppend(s: State, d: State, pc: Pc, n: Node)
    requires PcInv(s, pc) && d.list == s.list + [n] && d.unlinks == s.unlinks && s.known <= d.known
    requires !pc.Scanning? && !Appending(pc, n)
    ensures PcInv(d, pc)
  {
  }

  lemma PcUnlink(s: State, d: State, pc: Pc, n: Node)
    requires PcInv(s, pc) && d.list == Unlink(s, n).list && d.unlinks == Unlink(s, n).unlinks && s.known <= d.known
    requires !pc.Scanning? && !pc.Deleting? && (n in s.list ==> !RefersTo(pc, n))
    ensures PcInv(d, pc)
  {
  }

  lemma UpgradeOwnPc(s: State, t: nat)
    requires t < |s.pcs| && Upgrading(s.pcs[t]) && PcInv(s, s.pcs[t])
    ensures PcInv(DoUpgrade(s, t), DoUpgrade(s, t).pcs[t])
  {
    assert s.pcs[t].Deleted? || s.pcs[t].Deleting? || RefersTo(s.pcs[t], s.pcs[t].n);
  }

  lemma GoOwnPc(s: State, t: nat)
    requires Enabled(s, Go(t)) && PcInv(s, s.pcs[t])
    ensures PcInv(DoGo(s, t), DoGo(s, t).pcs[t])
  {
    if Upgrading(s.pcs[t]) {
      UpgradeOwnPc(s, t);
    }
  }

  /** What another thread's step leaves of a thread's invariant. */
  lemma GoOtherPc(s: State, t: nat, u: nat)
    requires LockInv(s) && CountInv(s) && ThreadInv(s) && Enabled(s, Go(t)) && Harmless(s, Go(t)) && u < |s.pcs|
    requires u != t
    ensures PcInv(DoGo(s, t), s.pcs[u])
  {
    var pc := s.pcs[t];
    if pc.Deleting? || pc.EditUncounted? {
      assert s.writer == Some(t) && !HoldsWrite(s.pcs[u]) && !HoldsRead(s.pcs[u]);
    }
    if pc.Deleting? {
      GoOtherDelete(s, t, u);
    } else if pc.EditUncounted? {
      GoOtherEdit(s, t, u);
    } else {
      GoLeavesList(s, t);
      PcFrame(s, DoGo(s, t), s.pcs[u]);
    }
  }

  lemma GoLeavesList(s: State, t: nat)
    requires t < |s.pcs| && !s.pcs[t].Deleting? && !s.pcs[t].EditUncounted?
    ensures var d := DoGo(s, t); d.list == s.list && d.unlinks == s.unlinks && d.known == s.known
  {
  }

  lemma GoOtherDelete(s: State, t: nat, u: nat)
    requires CountInv(s) && ThreadInv(s) && t < |s.pcs| && u < |s.pcs| && u != t
    requires s.pcs[t].Deleting? && !HoldsWrite(s.pcs[u]) && !HoldsRead(s.pcs[u])
    ensures PcInv(DoGo(s, t), s.pcs[u])
  {
    var n := s.pcs[t].n;
    NoReferrers(s, n);
    if Value(s.refcnt, n) == 0 {
      PcUnlink(s, DoGo(s, t), s.pcs[u], n);
    } else {
      PcFrame(s, DoGo(s, t), s.pcs[u]);
    }
  }

  lemma GoOtherEdit(s: State, t: nat, u: nat)
    requires CountInv(s) && ThreadInv(s) && Harmless(s, Go(t)) && t < |s.pcs| && u < |s.pcs| && u != t
    requires s.pcs[t].EditUncounted? && !HoldsWrite(s.pcs[u]) && !HoldsRead(s.pcs[u])
    ensures PcInv(DoGo(s, t), s.pcs[u])
  {
    var n := s.pcs[t].e.n;
    if s.pcs[t].e.Append? {
      assert Appending(s.pcs[t], n);
      PcAppend(s, DoGo(s, t), s.pcs[u], n);
    } else {
      NoReferrers(s, n);
      PcUnlink(s, DoGo(s, t), s.pcs[u], n);
    }
  }

  lemma StepPcs(s: State, d: State, step: Step, u: nat)
    requires LockInv(s) && CountInv(s) && ThreadInv(s) && Enabled(s, step) && Harmless(s, step) && u < |s.pcs|
    requires NodeInv(s) && d == Do(s, step) && d.pcs == s.pcs[step.t := d.pcs[step.t]]
    ensures PcInv(d, d.pcs[u])
  {
    if step.Go? {
      if u == step.t {
        GoOwnPc(s, u);
      } else {
        GoOtherPc(s, step.t, u);
      }
    } else if u != step.t {
      PcFrame(s, d, s.pcs[u]);
    } else {
      CallOwnPc(s, step);
    }
  }

  lemma CallOwnPc(s: State, step: Step)
    requires NodeInv(s) && Enabled(s, step) && PcInv(s, s.pcs[step.t]) && !step.Go?
    ensures PcInv(Do(s, step), Do(s, step).pcs[step.t])
  {
    if step.Compare? {
      AfterIn(s.list, s.pcs[step.t].cur.value);
    }
  }

  lemma EditAppending(s: State, t: nat, n: Node)
    requires t < |s.pcs| && Editing(s.pcs[t]) && Appending(DoEditing(s, t).pcs[t], n)
    ensures Appending(s.pcs[t], n)
  {
  }

  lemma UpgradeAppending(s: State, t: nat, n: Node)
    requires t < |s.pcs| && Upgrading(s.pcs[t])
    ensures !Appending(DoUpgrade(s, t).pcs[t], n)
  {
  }

  lemma SearchAppending(s: State, t: nat, n: Node)
    requires t < |s.pcs| && !Upgrading(s.pcs[t]) && !Editing(s.pcs[t])
    ensures !Appending(DoSearch(s, t).pcs[t], n)
  {
  }

  lemma GoAppending(s: State, t: nat, n: Node)
    requires t < |s.pcs| && Appending(DoGo(s, t).pcs[t], n)
    ensures Appending(s.pcs[t], n)
  {
    if Upgrading(s.pcs[t]) {
      UpgradeAppending(s, t, n);
    } else if Editing(s.pcs[t]) {
      EditAppending(s, t, n);
    } else {
      SearchAppending(s, t, n);
    }
  }

  lemma StepAppending(s: State, d: State, step: Step, t: nat, n: Node)
    requires Enabled(s, step) && d == Do(s, step) && d.pcs == s.pcs[step.t := d.pcs[step.t]] && t < |s.pcs|
    requires Appending(d.pcs[t], n)
    ensures Appending(s.pcs[t], n) || (t == step.t && n !in s.known)
  {
    if t == step.t && step.Go? {
      GoAppending(s, t, n);
    }
  }

  lemma StepAppenders(s: State, d: State, step: Step, t: nat, u: nat, n: Node)
    requires ThreadInv(s) && Enabled(s, step) && d == Do(s, step) && d.pcs == s.pcs[step.t := d.pcs[step.t]]
    requires t < |s.pcs| && u < |s.pcs| && Appending(d.pcs[t], n) && Appending(d.pcs[u], n)
    ensures t == u
  {
    StepAppending(s, d, step, t, n);
    StepAppending(s, d, step, u, n);
    assert PcInv(s, s.pcs[t]) && PcInv(s, s.pcs[u]);
  }

  lemma StepKeepsThreads(s: State, step: Step)
    requires LockInv(s) && CountInv(s) && NodeInv(s) && ThreadInv(s) && Enabled(s, step) && Harmless(s, step)
    ensures ThreadInv(Do(s, step))
  {
    var d := Do(s, step);
    StepLockShape(s, step);
    forall u | 0 <= u < |d.pcs|
      ensures PcInv(d, d.pcs[u])
    {
      StepPcs(s, d, step, u);
    }
    forall t, u, n | 0 <= t < |d.pcs| && 0 <= u < |d.pcs| && Appending(d.pcs[t], n) && Appending(d.pcs[u], n)
      ensures t == u
    {
      StepAppenders(s, d, step, t, u, n);
    }
  }

  /** A thread that wants n still does after the step, unless it calls Delete_fn on it. */
  lemma StepKeepsWanted(s: State, step: Step, n: Node)
    requires LockInv(s) && Enabled(s, step) && Wanted(s, n) && !(step.Go? && s.pcs[step.t] == Deleting(n))
    ensures Wanted(Do(s, step), n)
  {
    StepLockShape(s, step);
    var d := Do(s, step);
    var u :| 0 <= u < |s.pcs| && (RefersTo(s.pcs[u], n) || s.pcs[u] == Deleting(n));
    assert RefersTo(d.pcs[u], n) || d.pcs[u] == Deleting(n);
  }

  lemma DeleteFnTries(s: State, t: nat)
    requires LockInv(s) && CountInv(s) && NodeInv(s) && ThreadInv(s) && Enabled(s, Go(t)) && s.pcs[t].Deleting?
    ensures var n, d := s.pcs[t].n, DoGo(s, t); Value(d.unlinks, n) == 1 || Wanted(d, n)
  {
    var n, d := s.pcs[t].n, DoGo(s, t);
    NoReferrers(s, n);
    if Value(s.refcnt, n) != 0 {
      var u :| 0 <= u < |s.pcs| && RefersTo(s.pcs[u], n);
      assert RefersTo(d.pcs[u], n);
    }
  }

  lemma StepKeepsUnlinks(s: State, step: Step, n: Node)
    requires NodeInv(s) && Enabled(s, step) && PcInv(s, s.pcs[step.t]) && Value(s.unlinks, n) == 1
    ensures Value(Do(s, step).unlinks, n) == 1
  {
  }

  lemma StepKeepsTried(s: State, step: Step)
    requires LockInv(s) && CountInv(s) && NodeInv(s) && ThreadInv(s) && TriedInv(s) && Enabled(s, step)
    ensures TriedInv(Do(s, step))
  {
    var d := Do(s, step);
    forall n | n in d.tried
      ensures Value(d.unlinks, n) == 1 || Wanted(d, n)
    {
      if step.Go? && s.pcs[step.t] == Deleting(n) {
        DeleteFnTries(s, step.t);
      } else if Value(s.unlinks, n) == 1 {
        StepKeepsUnlinks(s, step, n);
      } else {
        StepKeepsWanted(s, step, n);
      }
    }
  }

  /** What a harmful delete leaves behind: a thread with a reference to a node that is not in the list. */
  lemma HarmLeavesReferrer(s: State, step: Step) returns (u: nat, n: Node)
    requires CountInv(s) && Enabled(s, step) && !Harmless(s, step)
    ensures u < |Do(s, step).pcs| && RefersTo(Do(s, step).pcs[u], n) && n !in Do(s, step).list
  {
    n := s.pcs[step.t].e.n;
    NoReferrers(s, n);
    u :| 0 <= u < |s.pcs| && RefersTo(s.pcs[u], n);
  }

  /** From the match until Delete_fn a node is linked and not freed. */
  ghost predicate Alive(s: State) {
    forall t, n :: 0 <= t < |s.pcs| && (RefersTo(s.pcs[t], n) || s.pcs[t] == Deleting(n)) ==>
      n in s.list && n !in s.freed
  }

  lemma InvIsAlive(s: State)
    requires NodeInv(s) && ThreadInv(s)
    ensures Alive(s)
  {
    forall t, n | 0 <= t < |s.pcs| && (RefersTo(s.pcs[t], n) || s.pcs[t] == Deleting(n))
      ensures n in s.list && n !in s.freed
    {
      assert PcInv(s, s.pcs[t]);
    }
  }

  lemma StepKeepsInv(s: State, step: Step)
    requires Inv(s) && Enabled(s, step) && Harmless(s, step)
    ensures Inv(Do(s, step))
  {
    StepKeepsLock(s, step);
    StepKeepsCount(s, step);
    StepKeepsNodes(s, step);
    StepKeepsThreads(s, step);
    StepKeepsTried(s, step);
  }

  /** Matched nodes stay alive through exactly the steps that do not delete a node some thread refers to. */
  lemma StepKeepsInvIff(s: State, step: Step)
    requires Inv(s) && Enabled(s, step)
    ensures Alive(Do(s, step)) <==> Harmless(s, step)
    ensures Inv(Do(s, step)) <==> Harmless(s, step)
  {
    if Harmless(s, step) {
      StepKeepsInv(s, step);
      InvIsAlive(Do(s, step));
    } else {
      var u, n := HarmLeavesReferrer(s, step);
      if Inv(Do(s, step)) {
        InvIsAlive(Do(s, step));
      }
    }
  }

  // ---------- Runs ----------

  /** A run from an empty list. */
  ghost predicate IsRun(states: seq<State>, steps: seq<Step>) {
    && |states| == |steps| + 1 && Init(states[0])
    && forall i :: 0 <= i < |steps| ==> Enabled(states[i], steps[i]) && states[i + 1] == Do(states[i], steps[i])
  }

  /** A run in which no delete ignores a nonzero count. */
  ghost predicate CarefulRun(states: seq<State>, steps: seq<Step>) {
    IsRun(states, steps) && forall i :: 0 <= i < |steps| ==> Harmless(states[i], steps[i])
  }

  lemma InitInv(s: State)
    requires Init(s)
    ensures Inv(s)
  {
    forall n
      ensures Value(s.refcnt, n) == Tally(s.pcs, Referrer(n))
    {
      TallyZero(s.pcs, Referrer(n));
    }
    TallyZero(s.pcs, Announcer);
  }

  lemma {:induction false} RunInv(states: seq<State>, steps: seq<Step>, i: nat)
    requires CarefulRun(states, steps) && i < |states|
    ensures Inv(states[i])
  {
    if i == 0 {
      InitInv(states[0]);
    } else {
      RunInv(states, steps, i - 1);
      StepKeepsInv(states[i - 1], steps[i - 1]);
    }
  }

  lemma {:induction false} AliveRunIsCareful(states: seq<State>, steps: seq<Step>, k: nat)
    requires IsRun(states, steps) && (forall i :: 0 <= i < |states| ==> Alive(states[i])) && k <= |steps|
    ensures Inv(states[k]) && forall i :: 0 <= i < k ==> Harmless(states[i], steps[i])
  {
    if k == 0 {
      InitInv(states[0]);
    } else {
      AliveRunIsCareful(states, steps, k - 1);
      StepKeepsInvIff(states[k - 1], steps[k - 1]);
    }
  }

  /** Matched nodes stay alive all along a run exactly when no delete in it ignores a nonzero count. */
  lemma AliveIffCareful(states: seq<State>, steps: seq<Step>)
    requires IsRun(states, steps)
    ensures (forall k :: 0 <= k < |states| ==> Alive(states[k])) <==> CarefulRun(states, steps)
  {
    if CarefulRun(states, steps) {
      forall k | 0 <= k < |states|
        ensures Alive(states[k])
      {
        RunInv(states, steps, k);
        InvIsAlive(states[k]);
      }
    }
    if forall k :: 0 <= k < |states| ==> Alive(states[k]) {
      AliveRunIsCareful(states, steps, |steps|);
    }
  }

  /** refcnt is the number of threads between a match and its UpdateRefCnt. */
  lemma RefcntCountsMatchers(states: seq<State>, steps: seq<Step>, i: nat, n: Node)
    requires CarefulRun(states, steps) && i < |states|
    ensures Value(states[i].refcnt, n) == Tally(states[i].pcs, Referrer(n))
  {
    RunInv(states, steps, i);
  }

  /**
   The lock upgrade keeps the node alive: from the match until the thread's own Delete_fn runs it is
   linked, was never unlinked and is not freed; and a scan only ever stands on such nodes.
   */
  lemma MatchedNodeStaysAlive(states: seq<State>, steps: seq<Step>, i: nat, t: nat, n: Node)
    requires CarefulRun(states, steps) && i < |states| && t < |states[i].pcs|
    requires var pc := states[i].pcs[t];
               RefersTo(pc, n) || pc == Deleting(n) || (pc.Scanning? && pc.cur == Some(n))
    ensures n in states[i].list && Value(states[i].unlinks, n) == 0 && n !in states[i].freed
  {
    RunInv(states, steps, i);
  }

  /** Over the whole run a node is unlinked at most once, and before it is freed. */
  lemma UnlinkedAtMostOnce(states: seq<State>, steps: seq<Step>, i: nat, n: Node)
    requires CarefulRun(states, steps) && i < |states|
    ensures 0 <= Value(states[i].unlinks, n) <= 1
    ensures n in states[i].freed ==> Value(states[i].unlinks, n) == 1 && n !in states[i].list
  {
    RunInv(states, steps, i);
  }

  /** Whoever gives up the last reference deletes: a node Delete_fn was called on outlives no reference. */
  lemma LastReferrerDeletes(states: seq<State>, steps: seq<Step>, i: nat, n: Node)
    requires CarefulRun(states, steps) && i < |states|
    requires n in states[i].tried && Value(states[i].refcnt, n) == 0
    requires forall t :: 0 <= t < |states[i].pcs| ==> states[i].pcs[t] != Deleting(n)
    ensures n !in states[i].list && Value(states[i].unlinks, n) == 1
  {
    RunInv(states, steps, i);
    NoReferrers(states[i], n);
  }

  /** The write lock excludes everybody else. */
  lemma WriterIsAlone(states: seq<State>, steps: seq<Step>, i: nat, t: nat, u: nat)
    requires CarefulRun(states, steps) && i < |states| && t < |states[i].pcs| && u < |states[i].pcs| && t != u
    requires HoldsWrite(states[i].pcs[t])
    ensures !HoldsWrite(states[i].pcs[u]) && !HoldsRead(states[i].pcs[u])
  {
    RunInv(states, steps, i);
    assert states[i].writer == Some(t);
  }

  ghost predicate CanStep(s: State, t: nat) {
    Enabled(s, Go(t)) || Enabled(s, Compare(t, false))
  }

  /** As long as some thread is inside a macro, some thread inside a macro can move. */
  lemma NoDeadlock(states: seq<State>, steps: seq<Step>, i: nat, t: nat)
    requires CarefulRun(states, steps) && i < |states| && t < |states[i].pcs| && !states[i].pcs[t].Idle?
    ensures exists u :: 0 <= u < |states[i].pcs| && CanStep(states[i], u)
  {
    RunInv(states, steps, i);
    var s := states[i];
    if s.writer.Some? {
      assert HoldsWrite(s.pcs[s.writer.value]);
      assert CanStep(s, s.writer.value);
    } else if s.readers != {} {
      var u :| u in s.readers;
      assert CanStep(s, u);
    } else if s.writeCntr != 0 {
      TallyZero(s.pcs, Announcer);
      var u :| 0 <= u < |s.pcs| && Plays(s.pcs[u], Announcer);
      assert CanStep(s, u);
    } else {
      assert CanStep(s, t);
    }
  }

  // ---------- The delete that ignores the count ----------

  ghost predicate RunsTo(states: seq<State>, steps: seq<Step>, s: State) {
    IsRun(states, steps) && states[|steps|] == s
  }

  ghost predicate Reaches(s: State) {
    exists states, steps :: RunsTo(states, steps, s)
  }

  lemma Take(s: State, step: Step) returns (d: State)
    requires Reaches(s) && Enabled(s, step)
    ensures d == Do(s, step) && Reaches(d)
  {
    d := Do(s, step);
    var states, steps :| RunsTo(states, steps, s);
    assert RunsTo(states + [d], steps + [step], d);
  }

  lemma TakeEdit(s: State) returns (d: State)
    requires Reaches(s) && 1 < |s.pcs| && Editing(s.pcs[1])
    requires s.pcs[1].EditCounted? ==> s.writer.None? && s.readers == {}
    ensures d == DoEditing(s, 1) && Reaches(d)
  {
    d := Take(s, Go(1));
  }

  lemma TakeSearch(s: State) returns (d: State)
    requires Reaches(s) && 0 < |s.pcs| && !Upgrading(s.pcs[0]) && !Editing(s.pcs[0]) && Enabled(s, Go(0))
    ensures d == DoSearch(s, 0) && Reaches(d)
  {
    d := Take(s, Go(0));
  }

  lemma StartEdit(s: State, e: Edit) returns (d: State)
    requires Reaches(s) && |s.pcs| == 2 && s.pcs[1].Idle? && (e.Append? ==> e.n !in s.known)
    ensures Reaches(d)
    ensures d == s.(pcs := s.pcs[1 := EditStart(e)], known := if e.Append? then s.known + {e.n} else s.known)
  {
    d := Take(s, CallEdit(1, e));
  }

  lemma AnnounceEdit(s: State, e: Edit) returns (d: State)
    requires Reaches(s) && |s.pcs| == 2 && s.pcs[1] == EditStart(e)
    ensures Reaches(d) && d == s.(pcs := s.pcs[1 := EditCounted(e)], writeCntr := s.writeCntr + 1)
  {
    d := TakeEdit(s);
  }

  lemma LockEdit(s: State, e: Edit) returns (d: State)
    requires Reaches(s) && |s.pcs| == 2 && s.pcs[1] == EditCounted(e) && s.writer == None && s.readers == {}
    ensures Reaches(d) && d == s.(pcs := s.pcs[1 := EditWriting(e)], writer := Some(1))
  {
    d := TakeEdit(s);
  }

  lemma UncountEdit(s: State, e: Edit) returns (d: State)
    requires Reaches(s) && |s.pcs| == 2 && s.pcs[1] == EditWriting(e)
    ensures Reaches(d) && d == s.(pcs := s.pcs[1 := EditUncounted(e)], writeCntr := s.writeCntr - 1)
  {
    d := TakeEdit(s);
  }

  lemma MakeEdit(s: State, e: Edit) returns (d: State)
    requires Reaches(s) && |s.pcs| == 2 && s.pcs[1] == EditUncounted(e)
    ensures Reaches(d) && d.list == EditedList(s.list, e) && d.pcs == s.pcs[1 := EditDone]
    ensures d.writeCntr == s.writeCntr && d.readers == s.readers
  {
    d := TakeEdit(s);
  }

  lemma UnlockEdit(s: State) returns (d: State)
    requires Reaches(s) && |s.pcs| == 2 && s.pcs[1] == EditDone
    ensures Reaches(d) && d == s.(pcs := s.pcs[1 := Idle], writer := None)
  {
    d := TakeEdit(s);
  }

  /** Thread 1 gets as far as the write lock. */
  lemma BeginEdit(s: State, pc: Pc, e: Edit) returns (d: State)
    requires Reaches(s) && s.pcs == [pc, Idle] && s.writer == None && s.readers == {} && (e.Append? ==> e.n !in s.known)
    ensures Reaches(d) && d.pcs == [pc, EditWriting(e)] && d.list == s.list && d.readers == {}
    ensures d.writeCntr == s.writeCntr + 1
  {
    d := StartEdit(s, e);
    d := AnnounceEdit(d, e);
    d := LockEdit(d, e);
  }

  /** It makes its change and lets the lock go. */
  lemma EndEdit(s: State, pc: Pc, e: Edit) returns (d: State)
    requires Reaches(s) && s.pcs == [pc, EditWriting(e)]
    ensures Reaches(d) && d.pcs == [pc, Idle] && d.list == EditedList(s.list, e) && d.readers == s.readers
    ensures d.writer == None && d.writeCntr == s.writeCntr - 1
  {
    d := UncountEdit(s, e);
    d := MakeEdit(d, e);
    d := UnlockEdit(d);
  }

  /** Thread 1 carries out a whole edit while nobody holds a lock. */
  lemma WholeEdit(s: State, pc: Pc, e: Edit) returns (d: State)
    requires Reaches(s) && s.pcs == [pc, Idle] && s.writer == None && s.readers == {} && (e.Append? ==> e.n !in s.known)
    ensures Reaches(d) && d.list == EditedList(s.list, e) && d.pcs == s.pcs
    ensures d.writer == None && d.readers == {} && d.writeCntr == s.writeCntr
  {
    d := BeginEdit(s, pc, e);
    d := EndEdit(d, pc, e);
  }

  lemma StartScan(s: State) returns (d: State)
    requires Reaches(s) && s.pcs == [Idle, Idle] && s.writeCntr == 0
    ensures Reaches(d) && d == s.(pcs := [ReadWait, Idle])
  {
    d := Take(s, CallScan(0));
    d := TakeSearch(d);
    assert d.pcs == [ReadWait, Idle];
  }

  lemma ScanToSeven(s: State) returns (d: State)
    requires Reaches(s) && s.pcs == [Idle, Idle] && s.writer == None && s.readers == {} && s.list == [7]
    requires s.writeCntr == 0
    ensures Reaches(d) && d == s.(pcs := [Scanning(Some(7), None), Idle], readers := {0})
  {
    d := StartScan(s);
    d := TakeSearch(d);
    assert d.pcs == [Scanning(Some(7), None), Idle];
  }

  /** Thread 0 matches the only node and lets the read lock go. */
  lemma MatchSeven(s: State) returns (d: State)
    requires Reaches(s) && s.pcs == [Idle, Idle] && s.writer == None && s.readers == {} && s.list == [7]
    requires s.writeCntr == 0
    ensures Reaches(d) && d.pcs == [Released(7), Idle] && d.list == [7] && d.writer == None && d.readers == {}
  {
    d := ScanToSeven(s);
    d := Take(d, Compare(0, true));
    d := TakeSearch(d);
    assert d.pcs == [Released(7), Idle];
    assert d.readers == s.readers;
  }

  lemma TakeUpgrade(s: State) returns (d: State)
    requires Reaches(s) && 0 < |s.pcs| && Upgrading(s.pcs[0])
    requires s.pcs[0].Counted? ==> s.writer.None? && s.readers == {}
    ensures d == DoUpgrade(s, 0) && Reaches(d)
  {
    d := Take(s, Go(0));
  }

  /** Thread 0 goes on to the write lock. */
  lemma LockSeven(s: State) returns (d: State)
    requires Reaches(s) && s.pcs == [Released(7), Idle] && s.writer == None && s.readers == {}
    ensures Reaches(d) && d.pcs == [Writing(7), Idle] && d.list == s.list
  {
    d := TakeUpgrade(s);
    d := TakeUpgrade(d);
  }

  /** And on to Delete_fn. */
  lemma UpgradeSeven(s: State) returns (d: State)
    requires Reaches(s) && s.pcs == [Writing(7), Idle]
    ensures Reaches(d) && d.pcs == [Deleting(7), Idle] && d.list == s.list
  {
    d := TakeUpgrade(s);
    d := TakeUpgrade(d);
  }

  /** With it, a thread can reach its Delete_fn holding a node that is no longer in the list. */
  lemma UnconditionalDeleteUnlinksMatchedNode()
    ensures exists s: State, n :: Reaches(s) && 0 < |s.pcs| && s.pcs[0] == Deleting(n) && n !in s.list
  {
    var s := State([Idle, Idle], [], map[], {}, None, 0, {}, map[], {}, {});
    assert RunsTo([s], [], s);
    s := WholeEdit(s, Idle, Append(7));
    s := MatchSeven(s);
    s := WholeEdit(s, Released(7), Delete(7));
    s := LockSeven(s);
    s := UpgradeSeven(s);
    assert s.pcs[0] == Deleting(7) && 7 !in s.list;
  }
}
