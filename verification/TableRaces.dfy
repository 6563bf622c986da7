/** Runs of TableProtocol in which deletes go wrong (ofcdriver/include/mchash.h). */
module TableRaces {
  import opened Common
  import opened Magic
  import opened TableProtocol

  ghost predicate Reaches(s: State) {
    exists states, steps :: RunsTo(states, steps, s)
  }

  ghost predicate RunsTo(states: seq<State>, steps: seq<Step>, s: State) {
    IsRun(states, steps) && states[|steps|] == s
  }

  lemma RunsOn(states: seq<State>, steps: seq<Step>, s: State, step: Step, d: State)
    requires RunsTo(states, steps, s) && Enabled(s, step) && d == Do(s, step)
    ensures RunsTo(states + [d], steps + [step], d)
  {
  }

  lemma Take(s: State, step: Step) returns (d: State)
    requires Reaches(s) && Enabled(s, step)
    ensures d == Do(s, step) && Reaches(d)
  {
    d := Do(s, step);
    var states, steps :| RunsTo(states, steps, s);
    RunsOn(states, steps, s, step, d);
  }

  /** Take, for a thread in the middle of a call. */
  lemma TakeGo(s: State, t: nat) returns (d: State)
    requires Reaches(s) && Enabled(s, Go(t, 0))
    ensures d == DoGo(s, t, 0) && Reaches(d)
  {
    d := Take(s, Go(t, 0));
  }

  /** A table of one slot. */
  ghost predicate OneSlot(s: State) {
    |s.slots| == |s.owner| == 1 && |s.lists| == |s.bucketLocks| == |s.counts|
  }

  ghost predicate Unlocked(s: State, key: nat) {
    key < |s.bucketLocks| && s.bucketLocks[key] == None
  }

  lemma EmptyTable(buckets: nat, threads: nat) returns (s: State)
    ensures Reaches(s) && OneSlot(s) && |s.lists| == buckets && |s.pcs| == threads
    ensures s == State(1, 0, [0], [Slot(0, None)], s.lists, s.counts, map[], map[], None, s.bucketLocks, s.pcs,
                       multiset{}, [Free], map[], map[], {})
    ensures forall b :: 0 <= b < buckets ==> s.lists[b] == [] && s.counts[b] == 0 && s.bucketLocks[b] == None
    ensures forall t :: 0 <= t < threads ==> s.pcs[t] == Idle
  {
    s := State(1, 0, [0], [Slot(0, None)], seq(buckets, b => []), seq(buckets, b => 0), map[], map[], None,
               seq(buckets, b => None), seq(threads, t => Idle), multiset{}, [Free], map[], map[], {});
    assert s.freeQ == seq(|s.slots|, i => i);
    assert RunsTo([s], [], s);
  }

  // ---------- An append, step by step ----------

  lemma StartAppend(s: State, t: nat, n: Node, key: nat, stale: nat) returns (d: State)
    requires Reaches(s) && t < |s.pcs| && s.pcs[t].Idle? && n !in s.appender && key < |s.lists|
    ensures Reaches(d)
    ensures d == s.(appender := s.appender[n := t], keys := s.keys[n := stale], pcs := s.pcs[t := AppLockTable(n, key)])
  {
    d := Take(s, CallAppend(t, n, key, stale));
  }

  lemma LockForPop(s: State, t: nat, n: Node, key: nat) returns (d: State)
    requires Reaches(s) && OneSlot(s) && t < |s.pcs| && s.pcs[t] == AppLockTable(n, key) && s.tableLock == None
    ensures Reaches(d) && d == s.(tableLock := Some(t), pcs := s.pcs[t := AppPop(n, key)])
  {
    d := TakeGo(s, t);
  }

  lemma PopSlot(s: State, t: nat, n: Node, key: nat) returns (d: State)
    requires Reaches(s) && OneSlot(s) && t < |s.pcs| && s.pcs[t] == AppPop(n, key) && s.freeQ == [0]
    ensures Reaches(d)
    ensures d == s.(magicNo := NextMagic(s.magicNo), active := s.active + 1, freeQ := [], tableLock := None,
                    slots := s.slots[0 := s.slots[0].(magic := s.magicNo)], owner := s.owner[0 := Appending(t)],
                    pcs := s.pcs[t := AppStore(n, key, 0)])
  {
    d := TakeGo(s, t);
    assert d.freeQ == [];
  }

  lemma AllocateSlot(s: State, t: nat, n: Node, key: nat, stale: nat) returns (d: State)
    requires Reaches(s) && OneSlot(s) && t < |s.pcs| && s.pcs[t].Idle? && n !in s.appender && key < |s.lists|
    requires s.freeQ == [0] && s.tableLock == None
    ensures Reaches(d)
    ensures d == s.(magicNo := NextMagic(s.magicNo), active := s.active + 1, freeQ := [],
                    appender := s.appender[n := t], keys := s.keys[n := stale],
                    slots := s.slots[0 := s.slots[0].(magic := s.magicNo)], owner := s.owner[0 := Appending(t)],
                    pcs := s.pcs[t := AppStore(n, key, 0)])
  {
    d := StartAppend(s, t, n, key, stale);
    d := LockForPop(d, t, n, key);
    d := PopSlot(d, t, n, key);
    assert d.pcs == s.pcs[t := AppStore(n, key, 0)];
  }

  lemma StoreNode(s: State, t: nat, n: Node, key: nat) returns (d: State)
    requires Reaches(s) && OneSlot(s) && t < |s.pcs| && s.pcs[t] == AppStore(n, key, 0)
    ensures Reaches(d)
    ensures d == s.(slots := s.slots[0 := s.slots[0].(node := Some(n))], pcs := s.pcs[t := AppLockBucket(n, key, 0)])
  {
    d := TakeGo(s, t);
  }

  lemma LockForLink(s: State, t: nat, n: Node, key: nat) returns (d: State)
    requires Reaches(s) && OneSlot(s) && t < |s.pcs| && s.pcs[t] == AppLockBucket(n, key, 0) && Unlocked(s, key)
    ensures Reaches(d)
    ensures d == s.(bucketLocks := s.bucketLocks[key := Some(t)], pcs := s.pcs[t := AppLink(n, key, 0)])
  {
    d := TakeGo(s, t);
  }

  lemma LinkLocked(s: State, t: nat, n: Node, key: nat) returns (d: State)
    requires Reaches(s) && OneSlot(s) && t < |s.pcs| && s.pcs[t] == AppLink(n, key, 0) && key < |s.lists|
    ensures Reaches(d)
    ensures d == s.(lists := s.lists[key := [n] + s.lists[key]], counts := s.counts[key := s.counts[key] + 1],
                    links := s.links[n := Link(0, key)], owner := s.owner[0 := Linked(n)], wins := s.wins[n := []],
                    pcs := s.pcs[t := AppKey(n, key, 0)])
  {
    d := TakeGo(s, t);
    assert InsertAt(s.lists[key], 0, n) == [n] + s.lists[key];
  }

  /** Published, with the bucket lock held and the key not stored. */
  lemma Publish(s: State, t: nat, n: Node, key: nat) returns (d: State)
    requires Reaches(s) && OneSlot(s) && t < |s.pcs| && s.pcs[t] == AppLockBucket(n, key, 0) && Unlocked(s, key)
    ensures Reaches(d)
    ensures d == s.(lists := s.lists[key := [n] + s.lists[key]], counts := s.counts[key := s.counts[key] + 1],
                    links := s.links[n := Link(0, key)], owner := s.owner[0 := Linked(n)], wins := s.wins[n := []],
                    bucketLocks := s.bucketLocks[key := Some(t)], pcs := s.pcs[t := AppKey(n, key, 0)])
  {
    d := LockForLink(s, t, n, key);
    d := LinkLocked(d, t, n, key);
    assert d.pcs == s.pcs[t := AppKey(n, key, 0)];
  }

  lemma FinishAppend(s: State, t: nat, n: Node, key: nat) returns (d: State)
    requires Reaches(s) && OneSlot(s) && t < |s.pcs| && s.pcs[t] == AppKey(n, key, 0) && key < |s.bucketLocks|
    ensures Reaches(d)
    ensures d == s.(keys := s.keys[n := key], bucketLocks := s.bucketLocks[key := None], pcs := s.pcs[t := Idle])
  {
    d := TakeGo(s, t);
  }

  // ---------- A delete, step by step ----------

  lemma CallIt(s: State, u: nat, n: Node) returns (d: State)
    requires Reaches(s) && u < |s.pcs| && s.pcs[u].Idle? && n in s.links && n in s.keys
    ensures Reaches(d) && d == s.(pcs := s.pcs[u := DelLockBucket(n, s.keys[n], s.links[n].index)])
  {
    d := Take(s, CallDelete(u, n));
  }

  lemma LockIt(s: State, u: nat, n: Node, key: nat) returns (d: State)
    requires Reaches(s) && OneSlot(s) && u < |s.pcs| && s.pcs[u] == DelLockBucket(n, key, 0) && Unlocked(s, key)
    ensures Reaches(d)
    ensures d == s.(bucketLocks := s.bucketLocks[key := Some(u)], pcs := s.pcs[u := DelCheck(n, key, 0)])
  {
    d := TakeGo(s, u);
  }

  lemma CheckIt(s: State, u: nat, n: Node, key: nat) returns (d: State)
    requires Reaches(s) && OneSlot(s) && u < |s.pcs| && s.pcs[u] == DelCheck(n, key, 0) && key < |s.lists|
    requires s.slots[0].node == Some(n)
    ensures Reaches(d) && d == s.(pcs := s.pcs[u := DelClear(n, key, 0)])
  {
    d := TakeGo(s, u);
  }

  /** From the call to the test passed. */
  lemma FindIt(s: State, u: nat, n: Node) returns (d: State)
    requires Reaches(s) && OneSlot(s) && u < |s.pcs| && s.pcs[u].Idle?
    requires n in s.links && s.links[n].index == 0 && n in s.keys && Unlocked(s, s.keys[n])
    requires s.slots[0].node == Some(n)
    ensures Reaches(d)
    ensures d == s.(bucketLocks := s.bucketLocks[s.keys[n] := Some(u)], pcs := s.pcs[u := DelClear(n, s.keys[n], 0)])
  {
    d := CallIt(s, u, n);
    d := LockIt(d, u, n, s.keys[n]);
    d := CheckIt(d, u, n, s.keys[n]);
    assert d.pcs == s.pcs[u := DelClear(n, s.keys[n], 0)];
  }

  lemma ClearIt(s: State, u: nat, n: Node, key: nat) returns (d: State)
    requires Reaches(s) && OneSlot(s) && u < |s.pcs| && s.pcs[u] == DelClear(n, key, 0) && key < |s.lists|
    requires n in s.links && n in s.wins && s.links[n].key < |s.lists|
    ensures Reaches(d)
    ensures d == s.(slots := s.slots[0 := Slot(0, None)], lists := Unlinked(s.lists, s.links[n].key, key, n, 0),
                    counts := s.counts[key := s.counts[key] - 1], bucketLocks := s.bucketLocks[key := None],
                    owner := s.owner[0 := Deleting(u)], wins := s.wins[n := s.wins[n] + [u]],
                    pcs := s.pcs[u := DelLockTable(n, 0, true)])
  {
    d := TakeGo(s, u);
  }

  /** A node alone in its bucket is the first there. */
  lemma UnlinkedAlone(lists: seq<seq<Node>>, own: nat, key: nat, n: Node)
    requires own < |lists| && key < |lists| && lists[own] == [n]
    ensures Unlinked(lists, own, key, n, 0) == lists[key := []]
  {
    assert lists[own][1..] == [];
  }

  /** Clearing with a node that is alone in its bucket. */
  lemma ClearAlone(s: State, u: nat, n: Node, key: nat) returns (d: State)
    requires Reaches(s) && OneSlot(s) && u < |s.pcs| && s.pcs[u] == DelClear(n, key, 0) && key < |s.lists|
    requires n in s.links && n in s.wins && s.links[n].key < |s.lists| && s.lists[s.links[n].key] == [n]
    ensures Reaches(d)
    ensures d == s.(slots := s.slots[0 := Slot(0, None)], lists := s.lists[key := []],
                    counts := s.counts[key := s.counts[key] - 1], bucketLocks := s.bucketLocks[key := None],
                    owner := s.owner[0 := Deleting(u)], wins := s.wins[n := s.wins[n] + [u]],
                    pcs := s.pcs[u := DelLockTable(n, 0, true)])
  {
    d := ClearIt(s, u, n, key);
    UnlinkedAlone(s.lists, s.links[n].key, key, n);
  }

  lemma LockForPush(s: State, u: nat, n: Node) returns (d: State)
    requires Reaches(s) && OneSlot(s) && u < |s.pcs| && s.pcs[u] == DelLockTable(n, 0, true) && s.tableLock == None
    ensures Reaches(d) && d == s.(tableLock := Some(u), pcs := s.pcs[u := DelPush(n, 0, true)])
  {
    d := TakeGo(s, u);
  }

  lemma PushIt(s: State, u: nat, n: Node) returns (d: State)
    requires Reaches(s) && OneSlot(s) && u < |s.pcs| && s.pcs[u] == DelPush(n, 0, true)
    ensures Reaches(d)
    ensures d == s.(freeQ := s.freeQ + [0], owner := s.owner[0 := Free], active := s.active - 1, tableLock := None,
                    pcs := s.pcs[u := DelRetire(n)])
  {
    d := TakeGo(s, u);
  }

  lemma RetireIt(s: State, u: nat, n: Node) returns (d: State)
    requires Reaches(s) && OneSlot(s) && u < |s.pcs| && s.pcs[u] == DelRetire(n)
    ensures Reaches(d)
    ensures d == s.(retired := s.retired + multiset{n}, over := s.over + {n}, pcs := s.pcs[u := Idle])
  {
    d := TakeGo(s, u);
  }

  /** From the bucket lock released to the return. */
  lemma FreeIt(s: State, u: nat, n: Node) returns (d: State)
    requires Reaches(s) && OneSlot(s) && u < |s.pcs| && s.pcs[u] == DelLockTable(n, 0, true) && s.tableLock == None
    ensures Reaches(d)
    ensures d == s.(freeQ := s.freeQ + [0], owner := s.owner[0 := Free], active := s.active - 1,
                    retired := s.retired + multiset{n}, over := s.over + {n}, pcs := s.pcs[u := Idle])
  {
    d := LockForPush(s, u, n);
    d := PushIt(d, u, n);
    d := RetireIt(d, u, n);
    assert d.pcs == s.pcs[u := Idle];
  }

  // ---------- A delete between publication and key ----------

  /** Node 7 is in bucket 1, its key field still says 0, and thread 0 is about to store 1. */
  ghost predicate SevenPublished(s: State, threads: nat) {
    && OneSlot(s) && |s.pcs| == threads && threads > 0 && s.pcs[0] == AppKey(7, 1, 0)
    && (forall t :: 1 <= t < threads ==> s.pcs[t] == Idle)
    && s.slots == [Slot(1, Some(7))] && s.lists == [[], [7]] && s.counts == [0, 1]
    && s.keys == map[7 := 0] && s.links == map[7 := Link(0, 1)] && s.wins == map[7 := []]
    && s.tableLock == None && s.bucketLocks == [None, Some(0)] && s.freeQ == [] && s.retired == multiset{}
  }

  lemma StoreSeven(threads: nat) returns (s: State)
    requires threads > 0
    ensures Reaches(s) && OneSlot(s) && |s.pcs| == threads && s.pcs[0] == AppLockBucket(7, 1, 0)
    ensures forall t :: 1 <= t < threads ==> s.pcs[t] == Idle
    ensures s.slots == [Slot(1, Some(7))] && s.lists == [[], []] && s.counts == [0, 0] && s.keys == map[7 := 0]
    ensures s.links == map[] && s.wins == map[] && s.tableLock == None && s.bucketLocks == [None, None]
    ensures s.freeQ == [] && s.retired == multiset{}
  {
    s := EmptyTable(2, threads);
    s := AllocateSlot(s, 0, 7, 1, 0);
    s := StoreNode(s, 0, 7, 1);
    assert s.slots == [Slot(1, Some(7))] && s.lists == [[], []] && s.counts == [0, 0];
    assert s.bucketLocks == [None, None];
  }

  lemma PublishSeven(threads: nat) returns (s: State)
    requires threads > 0
    ensures Reaches(s) && SevenPublished(s, threads)
  {
    s := StoreSeven(threads);
    s := Publish(s, 0, 7, 1);
    assert s.lists[1] == [7];
    assert s.lists == [[], [7]] && s.counts == [0, 1] && s.bucketLocks == [None, Some(0)];
  }

  /** Thread 1 locks bucket 0 for node 7, and finds the node in its slot. */
  lemma FindSevenInZero(threads: nat) returns (s: State)
    requires threads > 1
    ensures Reaches(s) && OneSlot(s) && |s.pcs| == threads
    ensures s.pcs[0] == AppKey(7, 1, 0) && s.pcs[1] == DelClear(7, 0, 0)
    ensures forall t :: 2 <= t < threads ==> s.pcs[t] == Idle
    ensures s.slots == [Slot(1, Some(7))] && s.lists == [[], [7]] && s.counts == [0, 1]
    ensures s.links == map[7 := Link(0, 1)] && s.wins == map[7 := []] && 7 in s.keys
    ensures s.tableLock == None && s.bucketLocks == [Some(1), Some(0)] && s.freeQ == [] && s.retired == multiset{}
  {
    s := PublishSeven(threads);
    s := FindIt(s, 1, 7);
    assert s.bucketLocks == [Some(1), Some(0)];
  }

  lemma ClearSevenInZero() returns (s: State)
    ensures Reaches(s) && OneSlot(s) && s.pcs == [AppKey(7, 1, 0), DelLockTable(7, 0, true)]
    ensures s.slots == [Slot(0, None)] && s.lists == [[], [7]] && s.wins == map[7 := [1]]
    ensures s.tableLock == None && s.freeQ == [] && s.retired == multiset{}
  {
    s := FindSevenInZero(2);
    var was := s;
    s := ClearAlone(s, 1, 7, 0);
    assert s.pcs == [AppKey(7, 1, 0), DelLockTable(7, 0, true)];
    assert s.slots == [Slot(0, None)] && s.lists == [[], [7]];
    assert s.wins == map[7 := [1]] by { assert was.wins[7] + [1] == [1]; }
  }

  /**
   MCHASH_DELETE_NODE reads the key of a node that is published and has no key yet, and locks the bucket
   that the old content of the field names.  It returns TRUE and hands the node to call_rcu, but the node's
   own bucket still has it once everybody has returned.
   */
  lemma DeleteBeforeKeyStaysLinked()
    ensures exists s :: Reaches(s) && s.pcs == [Idle, Idle] && 7 in s.wins && s.wins[7] == [1] && s.retired[7] == 1
                        && s.lists == [[], [7]] && s.slots == [Slot(0, None)] && s.freeQ == [0]
  {
    var s := ClearSevenInZero();
    s := FreeIt(s, 1, 7);
    s := FinishAppend(s, 0, 7, 1);
    assert s.pcs == [Idle, Idle];
    assert s.freeQ == [0];
  }

  /** The append returns, and thread 2 finds node 7 under the lock of bucket 1. */
  lemma FindSevenInOne() returns (s: State)
    ensures Reaches(s) && OneSlot(s) && s.pcs == [Idle, DelClear(7, 0, 0), DelClear(7, 1, 0)]
    ensures s.lists == [[], [7]] && s.links == map[7 := Link(0, 1)] && s.wins == map[7 := []]
    ensures s.tableLock == None && s.freeQ == [] && s.retired == multiset{}
  {
    s := FindSevenInZero(3);
    s := FinishAppend(s, 0, 7, 1);
    s := FindIt(s, 2, 7);
    assert s.pcs == [Idle, DelClear(7, 0, 0), DelClear(7, 1, 0)];
  }

  lemma ClearSevenInOne() returns (s: State)
    ensures Reaches(s) && OneSlot(s) && s.pcs == [Idle, DelClear(7, 0, 0), DelLockTable(7, 0, true)]
    ensures s.lists == [[], []] && s.links == map[7 := Link(0, 1)] && s.wins == map[7 := [2]]
    ensures s.tableLock == None && s.freeQ == [] && s.retired == multiset{}
  {
    s := FindSevenInOne();
    var was := s;
    s := ClearAlone(s, 2, 7, 1);
    assert s.pcs == [Idle, DelClear(7, 0, 0), DelLockTable(7, 0, true)];
    assert s.lists == [[], []];
    assert s.wins == map[7 := [2]] by { assert was.wins[7] + [2] == [2]; }
  }

  /**
   Two deletes of one node under two different locks both find it in its slot: both return TRUE, the node
   goes to call_rcu twice, and the slot is in the free queue twice.
   */
  lemma TwoLocksDeleteTwice()
    ensures exists s :: Reaches(s) && s.pcs == [Idle, Idle, Idle] && 7 in s.wins && s.wins[7] == [2, 1]
                        && s.retired[7] == 2 && s.freeQ == [0, 0]
  {
    var s := ClearSevenInOne();
    s := ClearIt(s, 1, 7, 0);
    assert s.wins[7] == [2, 1];
    s := FreeIt(s, 2, 7);
    s := FreeIt(s, 1, 7);
    assert s.pcs == [Idle, Idle, Idle];
    assert s.freeQ == [0, 0];
  }

  // ---------- Deletes by reference that race ----------

  lemma OneStored() returns (s: State)
    ensures Reaches(s) && OneSlot(s) && s.pcs == [AppLockBucket(7, 0, 0), Idle] && s.slots == [Slot(1, Some(7))]
    ensures s.lists == [[]] && s.keys == map[7 := 0] && s.links == map[] && s.wins == map[] && s.freeQ == []
    ensures s.tableLock == None && s.bucketLocks == [None] && s.magicNo == 2 && s.appender == map[7 := 0]
    ensures s.retired == multiset{}
  {
    s := EmptyTable(1, 2);
    s := AllocateSlot(s, 0, 7, 0, 0);
    s := StoreNode(s, 0, 7, 0);
    assert s.pcs == [AppLockBucket(7, 0, 0), Idle] && s.slots == [Slot(1, Some(7))];
    assert s.lists == [[]] && s.bucketLocks == [None];
  }

  /** Two threads; node 7 sits in the only slot under reference (0, 1). */
  lemma OneAppended() returns (s: State)
    ensures Reaches(s) && OnlySeven(s, Idle) && s.magicNo == 2 && 8 !in s.appender && s.retired == multiset{}
  {
    s := OneStored();
    s := Publish(s, 0, 7, 0);
    s := FinishAppend(s, 0, 7, 0);
    assert s.lists[0] == [7];
    assert s.lists == [[7]] && s.pcs == [Idle, Idle] && s.bucketLocks == [None];
  }

  /** Node 7 is the only one, and thread 0 waits at pc. */
  ghost predicate OnlySeven(s: State, pc: Pc) {
    && OneSlot(s) && s.tableLock == None && s.bucketLocks == [None] && s.pcs == [pc, Idle] && s.freeQ == []
    && s.slots == [Slot(1, Some(7))] && s.lists == [[7]] && s.keys == map[7 := 0]
    && s.links == map[7 := Link(0, 0)] && s.wins == map[7 := []]
  }

  /** Node 7 is gone, the table is empty, and thread 0 still waits at pc. */
  ghost predicate SevenGone(s: State, pc: Pc) {
    && OneSlot(s) && s.tableLock == None && s.bucketLocks == [None] && s.pcs == [pc, Idle] && s.freeQ == [0]
    && s.slots == [Slot(0, None)] && s.lists == [[]] && s.wins == map[7 := [1]] && s.links == map[7 := Link(0, 0)]
  }

  lemma FindSeven(s: State, pc: Pc) returns (d: State)
    requires Reaches(s) && OnlySeven(s, pc)
    ensures Reaches(d) && d == s.(bucketLocks := [Some(1)], pcs := [pc, DelClear(7, 0, 0)])
  {
    d := FindIt(s, 1, 7);
    assert d.bucketLocks == [Some(1)] && d.pcs == [pc, DelClear(7, 0, 0)];
  }

  lemma ClearSeven(s: State, pc: Pc) returns (d: State)
    requires Reaches(s) && OnlySeven(s, pc)
    ensures Reaches(d) && OneSlot(d)
    ensures d == s.(slots := [Slot(0, None)], lists := [[]], counts := d.counts, owner := d.owner,
                    wins := map[7 := [1]], pcs := [pc, DelLockTable(7, 0, true)])
  {
    d := FindSeven(s, pc);
    d := ClearAlone(d, 1, 7, 0);
    assert d.pcs == [pc, DelLockTable(7, 0, true)] && d.slots == [Slot(0, None)] && d.bucketLocks == [None];
    assert d.lists == [[]];
    assert d.wins == map[7 := [1]] by { assert s.wins[7] + [1] == [1]; }
  }

  /** Thread 1 deletes node 7 with MCHASH_DELETE_NODE, start to end. */
  lemma DeleteSeven(s: State, pc: Pc) returns (d: State)
    requires Reaches(s) && OnlySeven(s, pc)
    ensures Reaches(d) && SevenGone(d, pc) && d.retired == s.retired + multiset{7}
    ensures d.magicNo == s.magicNo && d.appender == s.appender
  {
    d := ClearSeven(s, pc);
    d := FreeIt(d, 1, 7);
    assert d.pcs == [pc, Idle] && d.freeQ == [0];
  }

  lemma MatchSeven() returns (s: State)
    ensures Reaches(s) && OnlySeven(s, RefRead(0)) && s.retired == multiset{} && s.magicNo == 2 && 8 !in s.appender
  {
    s := OneAppended();
    s := Take(s, CallDeleteByRef(0, 0, 1));
    assert s.pcs == [RefRead(0), Idle];
  }

  lemma ReadNull(s: State) returns (d: State)
    requires Reaches(s) && OneSlot(s) && |s.pcs| > 0 && s.pcs[0] == RefRead(0) && s.slots[0].node == None
    ensures Reaches(d) && |d.pcs| > 0 && d.pcs[0].Fault?
  {
    d := TakeGo(s, 0);
  }

  /** A delete between the magic check and the read of node_p: the macro follows a null pointer. */
  lemma RacingDeleteByRefFaults()
    ensures exists s :: Reaches(s) && |s.pcs| > 0 && s.pcs[0].Fault?
  {
    var s := MatchSeven();
    s := DeleteSeven(s, RefRead(0));
    s := ReadNull(s);
  }

  lemma ReadSeven() returns (s: State)
    ensures Reaches(s) && OnlySeven(s, RefLockBucket(7, 0, 0)) && s.retired == multiset{} && s.magicNo == 2
    ensures 8 !in s.appender
  {
    s := MatchSeven();
    s := TakeGo(s, 0);
    assert s.pcs == [RefLockBucket(7, 0, 0), Idle];
  }

  lemma StoreEight(s: State, pc: Pc) returns (d: State)
    requires Reaches(s) && SevenGone(s, pc) && 8 !in s.appender
    ensures Reaches(d) && OneSlot(d) && d.tableLock == None && d.bucketLocks == [None]
    ensures d.pcs == [pc, AppLockBucket(8, 0, 0)] && d.slots == [Slot(s.magicNo, Some(8))]
    ensures d.lists == [[]] && d.wins == s.wins && d.retired == s.retired && d.links == s.links
  {
    d := AllocateSlot(s, 1, 8, 0, 0);
    d := StoreNode(d, 1, 8, 0);
    assert d.pcs == [pc, AppLockBucket(8, 0, 0)] && d.slots == [Slot(s.magicNo, Some(8))];
  }

  lemma PublishEight(s: State, pc: Pc) returns (d: State)
    requires Reaches(s) && SevenGone(s, pc) && 8 !in s.appender
    ensures Reaches(d) && OneSlot(d) && d.bucketLocks == [Some(1)] && d.pcs == [pc, AppKey(8, 0, 0)]
    ensures d.slots == [Slot(s.magicNo, Some(8))] && d.lists == [[8]] && d.retired == s.retired
    ensures 7 in d.wins && 8 in d.links && 7 in d.links && d.links[7] == Link(0, 0)
  {
    d := StoreEight(s, pc);
    d := Publish(d, 1, 8, 0);
    assert d.lists[0] == [8];
    assert d.lists == [[8]] && d.pcs == [pc, AppKey(8, 0, 0)] && d.bucketLocks == [Some(1)];
  }

  lemma AppendEight(s: State, pc: Pc) returns (d: State)
    requires Reaches(s) && SevenGone(s, pc) && 8 !in s.appender
    ensures Reaches(d) && OneSlot(d) && d.bucketLocks == [None] && d.pcs == [pc, Idle]
    ensures d.slots == [Slot(s.magicNo, Some(8))] && d.lists == [[8]] && d.retired == s.retired
    ensures 7 in d.wins && 8 in d.links && 7 in d.links && d.links[7] == Link(0, 0)
  {
    d := PublishEight(s, pc);
    d := FinishAppend(d, 1, 8, 0);
    assert d.pcs == [pc, Idle] && d.bucketLocks == [None];
  }

  lemma LockSeven(s: State) returns (d: State)
    requires Reaches(s) && OneSlot(s) && s.bucketLocks == [None] && s.pcs == [RefLockBucket(7, 0, 0), Idle]
    ensures Reaches(d) && d == s.(bucketLocks := [Some(0)], pcs := [RefCheck(7, 0, 0), Idle])
  {
    d := TakeGo(s, 0);
    assert d.bucketLocks == [Some(0)] && d.pcs == [RefCheck(7, 0, 0), Idle];
  }

  lemma RecheckSeven(s: State) returns (d: State)
    requires Reaches(s) && OneSlot(s) && |s.lists| == 1 && s.pcs == [RefCheck(7, 0, 0), Idle]
    requires s.slots[0].magic != 0
    ensures Reaches(d) && d == s.(pcs := [RefClear(7, 0, 0), Idle])
  {
    d := TakeGo(s, 0);
    assert d.pcs == [RefClear(7, 0, 0), Idle];
  }

  lemma ClearSevenAgain(s: State) returns (d: State)
    requires Reaches(s) && OneSlot(s) && s.pcs == [RefClear(7, 0, 0), Idle] && s.lists == [[8]]
    requires 7 in s.wins && 7 in s.links && s.links[7].key == 0
    ensures Reaches(d) && d.slots == [Slot(0, None)] && d.lists == [[8]] && d.retired == s.retired + multiset{7}
  {
    d := TakeGo(s, 0);
    assert Without([8], 7) == [8];
    assert d.lists == [[8]] && d.slots == [Slot(0, None)];
  }

  /**
   The slot is reallocated between the read of node_p and the bucket lock: the recheck passes on
   the new node's magic, the deleted node goes to CALL_RCU again, and the new node, still linked,
   loses its slot.
   */
  lemma StaleDeleteByRefFreesTwice()
    ensures exists s :: Reaches(s) && s.retired[7] == 2 && s.lists == [[8]] && s.slots == [Slot(0, None)]
  {
    var s := ReadSeven();
    s := DeleteSeven(s, RefLockBucket(7, 0, 0));
    s := AppendEight(s, RefLockBucket(7, 0, 0));
    s := LockSeven(s);
    s := RecheckSeven(s);
    s := ClearSevenAgain(s);
  }
}
