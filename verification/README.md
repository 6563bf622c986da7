# Verification of the OpenFlow driver's shared infrastructure

This project models the parts of the OpenFlow controller driver in which a mistake is hardest to see by
reading one function: the multi-core hash table with safe references, the futex semaphore, the doubly
linked queue with its deletion-safe and lock-upgrading scans, the IPsec selector encoder with its length
pre-pass, and two small loops (a hex dump and a cyclic id generator). `dafny verify dfyconfig.toml` checks
everything.

Code that changes memory is modelled by classes, arrays and methods with loops; code that several threads
run is modelled as a transition system with one program counter per thread and a step for what it does
between two points at which others can interfere, and the theorems range over every run.

## The files

| file | what it holds |
|---|---|
| `Common.dfy` | option, 32-bit counters, small sequence facts |
| `BucketReaders.dfy` | lock-free scans of one bucket against a writer that publishes, unlinks and retires nodes |
| `BucketChain.dfy` | the order in which such a bucket's nodes stand |
| `Magic.dfy` | the magic numbers of the hash table and their period |
| `TableProtocol.dfy` | appends, deletes and accesses of many threads on one hash table, with all locks |
| `TableCallers.dfy` | what callers can do so that no delete goes wrong |
| `TableRaces.dfy` | runs in which a delete does |
| `TableQueue.dfy` | the order in which slots are given out |
| `TableAccess.dfy` | what an access by safe reference finds while other threads append and delete |
| `HashTableSpec.dfy` | what one hash table means: references, buckets, free queue, magics, counters; laws of its runs |
| `Bucket.dfy`, `SlotArray.dfy`, `HashTable.dfy` | the hash table on the heap, proved against `HashTableSpec` |
| `Futex.dfy`, `FutexCalls.dfy` | the futex semaphore, and what each call of it comes to |
| `LockUpgrade.dfy`, `LockUpgradeSearch.dfy` | the scan that gives up a read lock, takes the write lock and deletes, and what it searches |
| `DynScan.dfy`, `DllQueue.dfy` | the doubly linked queue, and the scan whose body deletes |
| `Numbers.dfy`, `PrefixMask.dfy` | bits, bytes, and masks of prefixes |
| `Oxm.dfy`, `IpsecSelector.dfy`, `IpsecFill.dfy` | match fields as bytes, what a selector's fields mean, the length pre-pass and the filler |
| `SaProperty.dfy` | the structures of a security association's action as bytes |
| `SaContext.dfy`, `SaWriter.dfy` | which structures an association has, the length computed beforehand, the writer |
| `HexDump.dfy`, `GroupId.dfy` | the packet dump and the group ids |

## How the models stand to the program

- Steps are sequentially consistent; memory barriers and weak memory are not modelled. RCU is the rule
  that a node handed to `call_rcu` is reclaimed after every scan running at that moment has ended.
- In `BucketReaders`, `TableProtocol` and `LockUpgrade` a node is one stay of an application node in the
  structure, so the same memory appended again is a new node. `TableProtocol` keeps a bucket's chain as a
  sequence; `BucketReaders` takes the stores to it apart.
- In `TableProtocol` an append publishes its node and stores the node's key in two steps, as the macros do,
  and what the key field holds before is arbitrary. A delete can be called for every node published so far
  (`MCHASH_DELETE_NODE` is given a pointer, and pointers come from scans or from the caller's own append),
  and a delete or an access by reference with any index in range and any magic other than 0. Publication,
  the store of the key, the test of a delete and its stores are separate steps, so that deletes under two
  different locks can interleave; the stores of one delete to its slot and its list are one step. The
  theorems are about stable runs, and `CorrectIffStable` says which those are. Beyond the first unstable
  step a run follows the macros only as far as the failing runs of `TableRaces` need: the wrong bucket's
  tail pointer is not followed.
- `BucketReaders` has one writer at a time in the bucket, and its theorems are about runs in which a node is
  handed to `call_rcu` after it has been unlinked; `ProperIffSafe` says that scans need exactly that. Stable
  runs of `TableProtocol` are like that: only holders of a bucket's lock change its list, and
  `RetiredIsUnlinked` holds. The node an insertion goes after or before is linked when the insertion runs;
  the macros do not check it.
- In `Futex` only a thread that holds calls up; `futex_up` itself does not check it.
- An application node and the `mchash_table_link` or `dll_queue_node` inside it are one object, so the
  `offset` arguments disappear. A pointer into the indirection array is an index, and null is -1.
- Variables called history in the comments (`owner`, `wins`, `seen`, `decs`, ...) are read by no step of
  the program.
- `rwlock_futex_down` and `rwlock_futex_up` are not defined in the repository under those names. `Futex`
  allows both what the comments in `pspsem.h` promise and what `__futex_down` of
  `ofcdriver/ext/futex/i386.h` does, in every mixture of the two. `__futex_down` of
  `ofcdriver/ext/futex/ppc.h` names the counter twice where it finds it negative; if that is compiled to
  two loads, the second may see another value, which the model does not allow.
- `CmpAndIncRefCnt_fn`, `UpdateRefCnt_fn` and `Delete_fn` are supplied by callers. `LockUpgrade` takes them
  as the comments of `dll.h` describe them; whether a node matches is left open.
- What a thread does under a lock is one step, except where said above or where others look without the
  lock; logging, asserts and memory allocation failure are left out. An
  assert on a parameter is a precondition.
- In the C unions of `ipsec_selector` both views of an address are given; the code reads one of them.
- A security association's numbers that the writer stores without converting them (ports of selectors, the
  header's flags) are given as their bytes lie in memory, and `unset` is what a byte that nobody writes holds.
- Where the code ORs header parts or shifts masks, the model adds numbers that do not overlap or shifts
  modulo the width.

## Where the code differs from what it is documented to do

- `MCHASH_APPEND_NODE` counts a node twice: `mchash_insert_node_in_middle` (`mchash.c:129`) raises the
  counter and so does the macro (`mchash.h:323`). `MCHASH_BUCKET_NODE_COUNT` therefore reports the length
  plus the number of appends ever made to the bucket.
- `MCHASH_DELETE_NODE_BY_REF` rechecks under the lock only that the magic is not 0. A delete between its
  first check and its read of `node_p` makes it follow a null pointer; a slot reused in between makes it
  delete again a node that is gone. `MCHASH_DELETE_NODE` compares the node under the lock and has neither
  problem.
- The append and insert macros publish a node (`mchash.h:321`, `:567`, `:607`) before they store its key
  (`:322`, `:568`, `:608`), and both delete macros read the key before they take any lock (`:427`, `:376`). A
  node that a lock-free scan finds in between, as those of `udp_db.c` and `cntlr_xtn.c` can, is deleted
  under the lock of whatever bucket its key field named before. The test of `MCHASH_DELETE_NODE` passes all
  the same: it returns TRUE and hands the node to `call_rcu`, but the node's own bucket may keep it, and the
  wrong bucket's counter goes down. A second delete that reads the stored key holds another lock, so both can
  pass the test, and the slot enters the free queue twice.
- `MCHASH_ACCESS_NODE` takes no lock and loads first the magic and then `node_p`. A delete between the two
  leaves it to return TRUE with a null node, or, when the slot has been given out again, with another node.
- `DLL_QUEUE_DYN_SCAN` is meant for bodies that delete. Since `dll_queue_delete_in_middle` clears the
  pointers of what it deletes, a body that deletes the node saved in `pTmp` ends the scan there.
- `dll_queue_prepend_list` sets the counter of an empty queue and then adds to it, so it ends at twice the
  length.
- The length pre-pass gives an IPv6 range source the 12 bytes of an IPv4 field (`ipsec_nb_utils.h:371`);
  the filler writes 36.
- `of_ipsec_calculate_sa_ctx_msg_len` tests `auth_algo` with `||`, so the authentication part is always
  counted; the writer tests with `&&`.
- `fslx_action_create_sa_context` gives up on an algorithm it has no number for, while the pre-pass counts it
  (`ipsec_of_extn.c:48-128`). It sends an IPv6 range as its start twice, lets the source's address type decide
  for the destination too, and stores the ports of selectors in the order of the machine.
- Group ids are described by a minimum of 1000, but `group_id_g` starts at 0, so the first 999 are below it.
- The semaphore's token-passing value is reached after 2^30 - 1 decrements since `count` was last stored,
  one fewer than the constant 2^30 suggests; a thread that then wakes up holds beside the one that holds.
- The filler writes no field for the IP version, so a selector that names no address matches packets of
  both versions.

## Model

| member | source | states |
|---|---|---|
| BucketReaders.ScanVisitsExactlyOnce | ofcdriver/include/mchash.h:497-501 | in every run in which nodes are handed to call_rcu only once unlinked, a finished scan has visited exactly once each node that was linked when it began and has not been unlinked |
| BucketReaders.ScanIsSafe | ofcdriver/include/mchash.h:381-391 | in every run in which nodes are handed to call_rcu only once unlinked, a scan visits no node twice, none that was unlinked before it began, and never stands on reclaimed memory, because an unlinked node keeps its next_p and call_rcu waits |
| BucketReaders.ChainIsLinked | ofcdriver/include/mchash.h:434-445 | the next_p pointers in memory reach exactly the nodes published and not yet unlinked, after any such run |
| BucketChain.ChainIsPlanned | ofcdriver/utils/mchash.c:112-130 | at every moment of every proper run, next_p from the head on gives the list that the run's publications and unlinks make, each publication putting its node right behind the predecessor it was prepared with |
| BucketChain.PublishGoesBehind | ofcdriver/include/mchash.h:321 | whatever happens between preparing a publication and publishing, the chain afterwards is the chain before with the node right behind its predecessor, or in front for none |
| BucketChain.UnlinkTakesOut | ofcdriver/include/mchash.h:434-445 | an unlink takes its node out of the chain and leaves the rest in order |
| BucketReaders.StepKeepsInv | ofcdriver/utils/mchash.c:112-130 | every store of a publication or an unlink, every load of a reader and every call_rcu of an unlinked node keeps the reader invariant |
| BucketReaders.ProperIffSafe | ofcdriver/include/mchash.h:434-465 | a run hands nodes to call_rcu only once unlinked exactly when, however it goes on from any of its states by the same rule, no scan comes to stand on reclaimed memory |
| BucketReaders.SafeIffProper | ofcdriver/include/mchash.h:434-465 | the same of one step: call_rcu of a node still linked lets it be reclaimed, and a scan that begins then reaches it |
| BucketReaders.CurIsLive | ofcdriver/include/mchash.h:465 | under the invariant no scan holds a pointer to a reclaimed node |
| TableProtocol.StepKeepsInv | ofcdriver/include/mchash.h:292-470 | every step of an append, an access, a delete or a delete by reference keeps the table invariant if it is stable: it locks a bucket that is there, clears under the lock of the node's own bucket, and by reference reads and clears a slot that still holds the node |
| TableProtocol.CorrectIffStable | ofcdriver/include/mchash.h:321-436 | in a run no thread follows a null or unset pointer or leaves the bucket array, every published node is in its list until exactly one delete of it succeeds, and each counter, less what an append counts twice, is the length of its list, exactly when every step is stable; deletes of nodes whose key is not stored yet are among the runs |
| TableProtocol.StepIsCorrectIff | ofcdriver/include/mchash.h:373-436 | the same of one step from a state that satisfies the invariant |
| TableProtocol.StepKeepsInvIff | ofcdriver/include/mchash.h:373-436 | and the whole invariant survives exactly those steps |
| TableProtocol.SlotsAreConserved | ofcdriver/include/mchash.h:299-328 | in every stable run each indirection slot is in exactly one of the free queue, one append, one bucket list, one delete, and active_nodes + free slots is the size of the table |
| TableProtocol.OneLockAtATime | ofcdriver/include/mchash.h:429-469 | no thread holds two locks, and a thread that has returned holds none |
| TableProtocol.NoDeadlock | ofcdriver/include/mchash.h:377-414 | a thread inside a call can move, or waits for a lock and the holder of that very lock can |
| TableProtocol.DeleteExactlyOnce | ofcdriver/include/mchash.h:427-436 | in every stable run, of all deletes of a published node, its key stored or not, at most one succeeds; once any has returned exactly one has; the node is in its list until then; call_rcu is called at most once for it |
| TableProtocol.DeleteReturns | ofcdriver/include/mchash.h:430-469 | when a delete returns, with TRUE or FALSE, exactly one delete of its node has succeeded, and its own if it returns TRUE |
| TableQueue.SlotsGoInTurn | ofcdriver/include/mchash.h:304-409 | in every run of many threads, unstable ones included, slots are given out in their order and then in the order in which deletes gave them back |
| TableProtocol.RetiredIsUnlinked | ofcdriver/include/mchash.h:434-465 | in every stable run a node handed to call_rcu is in no list |
| TableCallers.CarefulCallersAreSafe | ofcdriver/include/mchash.h:364-436 | if nodes are deleted only after their append has returned, and deletes by reference are the only deletes of their node while they run, every step of every run is stable |
| TableCallers.PlainDeletesAreSafe | ofcdriver/include/mchash.h:418-470 | without deletes by reference it is enough that nodes are deleted only after their append has returned, however many deletes of a node race |
| TableRaces.DeleteBeforeKeyStaysLinked | ofcdriver/include/mchash.h:321-441 | a run in which MCHASH_DELETE_NODE reads the key of a node published without one: it returns TRUE, the node goes to call_rcu, and its bucket still lists it when all threads are done |
| TableRaces.TwoLocksDeleteTwice | ofcdriver/include/mchash.h:427-465 | a run in which two deletes of one node hold different locks: both succeed, call_rcu is called twice and the slot is in the free queue twice |
| TableRaces.RacingDeleteByRefFaults | ofcdriver/include/mchash.h:373-375 | a run in which a delete by reference follows a null node_p |
| TableRaces.StaleDeleteByRefFreesTwice | ofcdriver/include/mchash.h:378-391 | a run in which a delete by reference hands the same node to call_rcu a second time |
| TableAccess.RefersInRun | ofcdriver/include/mchash.h:310-312 | in every interleaving, while fewer than 2^32 - 1 allocations have followed the one that gave node n slot i and magic m, the slot shows m exactly as long as n has it |
| TableAccess.AccessCompares | ofcdriver/include/mchash.h:341-345 | within that bound, and once n has been published, an access through (i, m) passes its comparison exactly when no delete of n has succeeded, and returns FALSE otherwise |
| TableAccess.AccessIsRightIff | ofcdriver/include/mchash.h:345-349 | an access that has passed its comparison returns TRUE, and returns n exactly when no delete of n has succeeded by its load of node_p, whatever other threads do in between |
| TableAccess.AccessReturnsNull | ofcdriver/include/mchash.h:345-349 | a run in which a delete falls between the two loads and the access returns TRUE with a null node |
| TableAccess.AccessReturnsAnother | ofcdriver/include/mchash.h:345-349 | a run in which the slot is given out again between them and the access returns the node of another reference |
| HashTableSpec.ApplyKeepsWellFormed | ofcdriver/include/mchash.h:292-614 | append, insert and delete keep references, buckets and free queue consistent: one reference per node, one bucket per node, distinct free slots |
| HashTableSpec.SafeReference | ofcdriver/include/mchash.h:341-350 | for one thread at a time: while fewer than 2^32 - 1 allocations have followed, access through a returned reference finds that very node until it is deleted, and nothing afterwards (for many threads see TableAccess) |
| HashTableSpec.ReferencesAliasAfterFullPeriod | ofcdriver/include/mchash.h:310-312 | the bound is exact: with 2^32 - 1 allocations a dead reference can name another node |
| HashTableSpec.MagicRepeatsIff | ofcdriver/include/mchash.h:310-312 | over every run the next magic is never 0 and is the same again exactly when a multiple of 2^32 - 1 allocations has been made |
| Magic.MagicPeriod | ofcdriver/include/mchash.h:310-312 | the increment that skips 0, done k times, comes back exactly when 2^32 - 1 divides k |
| HashTableSpec.FreeSlotWaits | ofcdriver/include/mchash.h:399-409 | the free queue is first in, first out over every run |
| HashTableSpec.CountIsLengthPlusAppends | ofcdriver/include/mchash.h:316-323 | a bucket's counter is its length plus the appends ever made to it modulo 2^32, hence its length exactly when those are a multiple of 2^32 |
| HashTableSpec.AppendedComesLast | ofcdriver/include/mchash.h:321 | a node appended stands behind every node that was in the bucket before it, as long as both are there |
| HashTableSpec.OrderStays | ofcdriver/include/mchash.h:292-614 | two nodes of a bucket never change their order, over every run |
| HashTableSpec.ScanGoesByKey | ofcdriver/include/mchash.h:482-501 | a scan of all buckets takes the buckets by their keys and each bucket in list order |
| HashTableSpec.ScanYieldsEachNodeOnce | ofcdriver/include/mchash.h:482-501 | a scan of all buckets yields each node of the table at exactly one moment, and nothing else |
| SlotArray.SlotArray.Take | ofcdriver/include/mchash.h:304-313 | the head of the free queue leaves it and gets the next magic; the queue's links stay a proper list |
| SlotArray.SlotArray.Release | ofcdriver/include/mchash.h:395-409 | the slot joins the free queue at its end |
| Bucket.Bucket.UpdatePrefetchNodes | ofcdriver/include/mchash.h:202-220 | the prefetch array holds the first ten nodes of the list in order, then zeros |
| Bucket.Bucket.InsertNodeInMiddle | ofcdriver/utils/mchash.c:112-130 | the list gains the node at its place, with next, prev, prefetch and count as they should be |
| Bucket.Bucket.Unlink | ofcdriver/include/mchash.h:434-447 | the list loses exactly the node, whose own pointers stay, with prev of the first node null or the head |
| Bucket.Bucket.Scan | ofcdriver/include/mchash.h:497-501 | a scan of a quiet bucket sees its nodes in list order |
| HashTable.HashTable.constructor | ofcdriver/utils/mchash.c:5-85 | a new table is the empty one: every slot free in order with magic 0, every bucket empty |
| HashTable.HashTable.AppendNode | ofcdriver/include/mchash.h:292-329 | refines the abstract append at the end of the bucket, returns the new reference, fails exactly when no slot is free |
| HashTable.HashTable.InsertNodeAfter | ofcdriver/include/mchash.h:532-576 | refines the abstract insertion behind the anchor |
| HashTable.HashTable.InsertNodeBefore | ofcdriver/include/mchash.h:578-614 | refines the abstract insertion in front of the anchor |
| HashTable.HashTable.DeleteNode | ofcdriver/include/mchash.h:418-470 | succeeds exactly when the table holds the node, stale nodes included; then refines the abstract delete and hands that node to call_rcu with its own pointers intact |
| HashTable.HashTable.DeleteNodeByRef | ofcdriver/include/mchash.h:364-416 | succeeds exactly when the reference is live; then refines the abstract delete |
| HashTable.HashTable.AccessNode | ofcdriver/include/mchash.h:341-350 | finds exactly what the abstract table has under the reference |
| HashTable.HashTable.TableScan | ofcdriver/include/mchash.h:482-501 | sees each bucket's nodes in order, every node under its stored key |
| HashTable.HashTable.BucketFollowsList | ofcdriver/include/mchash.h:202-220 | in every valid table prefetch arrays agree with the lists and the null-or-head conventions hold |
| HashTable.HashTable.BucketNodeCount | ofcdriver/include/mchash.h:276-287 | reports the abstract counter |
| HashTable.HashTable.DeleteTable | ofcdriver/utils/mchash.c:87-99 | refuses exactly when nodes are left |
| Futex.MutualExclusion | ofcdriver/include/pspsem.h:88-126 | holders, including threads part way through a slow release, plus one if count is 1, are always 1 while fewer than 2^30 - 1 decrements separate stores to count |
| Futex.NoLostWakeup | ofcdriver/include/pspsem.h:56-106 | in every run in which no woken thread mistakes a low count for a passed token, with no bound assumed: if a thread sleeps, count is negative or some thread is bound to look again or wake somebody |
| Futex.QuiescentIsFree | ofcdriver/include/pspsem.h:114-126 | in those runs, once every thread is outside or asleep, none is asleep and the semaphore is free |
| Futex.BoundedRunsNeverPass | ofcdriver/include/pspsem.h:53-67 | runs with fewer than 2^30 - 1 decrements between stores are among them |
| Futex.ExclusionIffNeverPasses | ofcdriver/include/pspsem.h:63-67 | at most one thread holds all along a run exactly when no woken thread in it reads a count of FUTEX_PASSED or less; no bound is assumed |
| Futex.BoundIsExact | ofcdriver/include/pspsem.h:53-67 | with at most b decrements between stores to count, at most one thread holds in every run exactly when b is less than 2^30 - 1 |
| Futex.OneMoreDecrementBreaksExclusion | ofcdriver/include/pspsem.h:63-67 | with one more decrement than the bound two threads can hold at once |
| Futex.StepKeepsExclusiveIff | ofcdriver/include/pspsem.h:56-126 | from a state that satisfies the exclusion invariant a step keeps it, and keeps at most one thread holding, exactly when it is not that read |
| Futex.StepKeepsExclusive | ofcdriver/include/pspsem.h:56-126 | every other step keeps the exclusion invariant |
| Futex.StepKeepsAttended | ofcdriver/include/pspsem.h:56-126 | every other step keeps the no-lost-wakeup invariant, for failing and timed-out waiters and trydown too |
| FutexCalls.DownEndsHolding | ofcdriver/include/pspsem.h:88-107 | in every run a thread that has called futex_down is outside again only after the call failed, or after it held and released |
| FutexCalls.DownTries | ofcdriver/include/pspsem.h:70-99 | after the call, after EWOULDBLOCK and after a wake-up that was no token the thread's next step is another try |
| FutexCalls.TryFromDown | ofcdriver/include/pspsem.h:93-107 | a try takes the semaphore exactly when it takes count from 1 to 0, and otherwise goes to wait for the value it was given |
| FutexCalls.AcquiredHolds | ofcdriver/include/pspsem.h:101-106 | a woken thread that has taken the semaphore next stores -1 and holds |
| FutexCalls.WokenStores | ofcdriver/include/pspsem.h:101-104 | a thread that has been woken holds only after it has stored -1 |
| FutexCalls.FailedIsOutside | ofcdriver/include/pspsem.h:95-96 | a wait that fails leaves its thread outside and count alone |
| FutexCalls.TryDownHoldsIff | ofcdriver/include/pspsem.h:114-117 | futex_trydown tries once and holds exactly when its try took count from 1 to 0 |
| FutexCalls.UpFrees | ofcdriver/include/pspsem.h:121-126 | a thread that has called futex_up is outside again only after count went from 0 to 1, or after it stored 1 and woke somebody or found nobody asleep |
| FutexCalls.WakeWakes | ofcdriver/include/pspsem.h:76-86 | that wake-up wakes one sleeper exactly when there is one |
| LockUpgradeSearch.SearchGoesThroughList | ofcdriver/include/dll.h:479-487 | in every run the nodes a search has compared are the first of the list it found under the read lock, in order; a hit is on the next one; without a hit it ends only after all of them |
| LockUpgradeSearch.SearchYieldsToWriters | ofcdriver/include/dll.h:477 | a search begins only while no thread is between raising writeCntr and lowering it |
| LockUpgradeSearch.MatchIsDeleted | ofcdriver/include/dll.h:487-497 | a thread that has matched a node leaves the macro only after its own Delete_fn on that node |
| LockUpgradeSearch.DeleteFnDecides | ofcdriver/include/dll.h:408-413 | Delete_fn unlinks and frees the node exactly when no thread refers to it |
| LockUpgradeSearch.DeleterRereads | ofcdriver/include/dll.h:498-502 | and then the thread leaves only after it has taken the read lock once more |
| LockUpgradeSearch.ListIsAppended | ofcdriver/include/dll.h:231-238 | the list always holds the nodes appended and not unlinked since, in the order of their appends |
| LockUpgrade.AliveIffCareful | ofcdriver/include/dll.h:473-503 | all along a run every node between its match and Delete_fn is in the list and not freed, exactly when no delete in the run ignores a nonzero count |
| LockUpgrade.StepKeepsInvIff | ofcdriver/include/dll.h:473-503 | the same of one step, and of the whole invariant |
| LockUpgrade.HarmLeavesReferrer | ofcdriver/include/dll.h:259-267 | after a delete that ignores a nonzero count some thread refers to a node that is not in the list |
| LockUpgrade.MatchedNodeStaysAlive | ofcdriver/include/dll.h:423-430 | from the match until the thread's own Delete_fn a node is linked, never unlinked and not freed; so is the node any scan stands on |
| LockUpgrade.RefcntCountsMatchers | ofcdriver/include/dll.h:489-497 | the reference count is the number of threads between a match and UpdateRefCnt |
| LockUpgrade.UnlinkedAtMostOnce | ofcdriver/include/dll.h:408-413 | over a whole run a node is unlinked at most once, and is unlinked before it is freed |
| LockUpgrade.LastReferrerDeletes | ofcdriver/include/dll.h:408-413 | a node that Delete_fn was called on and nobody refers to any more has been unlinked |
| LockUpgrade.WriterIsAlone | ofcdriver/include/dll.h:492-500 | under the write lock no other thread holds either lock |
| LockUpgrade.NoDeadlock | ofcdriver/include/dll.h:473-503 | while some thread is inside a macro some thread inside a macro can move, write-counter spin included |
| LockUpgrade.UnconditionalDeleteUnlinksMatchedNode | ofcdriver/include/dll.h:259-267 | with the delete that ignores the count, a thread can reach its Delete_fn with a node no longer in the list |
| DynScan.VisitsAllIffCareful | ofcdriver/include/dll.h:200-207 | the scan visits the whole initial list in order exactly when no round deletes a node not yet reached, save a pTmp that is the last of all |
| DynScan.DeletingVisitedNodesIsCareful | ofcdriver/include/dll.h:200-207 | so it does when each round deletes only nodes of its own or earlier rounds |
| DynScan.DeletingNextLosesTheRest | ofcdriver/include/dll.h:200-207 | a body that deletes the saved next node can make the scan miss a node nobody deletes |
| DynScan.ScanInOrder | ofcdriver/include/dll.h:200-207 | whatever the body deletes, the scan keeps the initial order and visits nothing twice |
| DynScan.NothingElseIsMissed | ofcdriver/include/dll.h:200-207 | unless the last node visited was deleted the round before, every node is visited or was deleted by some round |
| DllQueue.Queue.Scan | ofcdriver/include/dll.h:200-207 | on the heap the macro terminates, visits what DynScan says, and leaves the initial list without what its rounds deleted |
| DllQueue.Queue.InsertInMiddle | ofcdriver/utils/dll.c:219-242 | the node goes between its neighbours; chains and count stay right |
| DllQueue.Queue.Append | ofcdriver/include/dll.h:134-135 | the node becomes the last |
| DllQueue.Queue.Prepend | ofcdriver/include/dll.h:140-141 | the node becomes the first |
| DllQueue.Queue.InsertAtPosition | ofcdriver/utils/dll.c:121-168 | succeeds exactly for positions 1 to count + 1, and then the node is at that position |
| DllQueue.Queue.Delete | ofcdriver/include/dll.h:164-167 | removes exactly the node and clears its pointers; a node already deleted is left alone |
| DllQueue.Queue.PrependList | ofcdriver/utils/dll.c:361-388 | the nodes of both lists in order, the other queue empty; the counter is right exactly when this queue was not empty or the other was |
| Numbers.MaskedAgree | ofcdriver/include/ipsec_nb_utils.h:31-41 | two addresses agree under a prefix mask exactly when what lies above its lowest bit agrees |
| Numbers.AgreeUnderMask | ofcdriver/include/ipsec_ldef.h:140-145 | two addresses agree under a mask exactly when each of the leading bits does |
| Numbers.LongerPrefixMatchesLess | ofcdriver/include/ipsec_ldef.h:140-145 | a longer prefix matches no address that a shorter one does not |
| PrefixMask.Ipv4MaskIs | ofcdriver/include/ipsec_ldef.h:140-145 | the macro's mask of b bits is 2^32 - 2^(32 - b) |
| PrefixMask.Ipv6MaskIs | ofcdriver/include/ipsec_nb_utils.h:31-41 | the sixteen mask bytes read as a number are 2^128 - 2^(128 - plen) |
| PrefixMask.Ipv6AddrPrefixToMask | ofcdriver/include/ipsec_nb_utils.h:31-41 | the function leaves exactly those bytes |
| PrefixMask.Ipv4PrefixMatch | ofcdriver/include/ipsec_ldef.h:140-145 | agreement under the IPv4 mask is agreement of the leading bits |
| PrefixMask.Ipv6PrefixMatch | ofcdriver/include/ipsec_nb_utils.h:31-41 | agreement under the IPv6 mask is agreement of the leading bits |
| Oxm.ParseEncoded | ofcdriver/ofproto/src/include/openflow.h:459-468 | match fields written one after the other are read back by the header macros, all of them and nothing else |
| Oxm.KnownHeaders | ofcdriver/ofproto/src/include/openflow.h:459-468 | the headers of four fields as numbers: class, field, mask bit and length each at its place |
| Oxm.EncodeAllInjective | ofcdriver/ofproto/src/include/openflow.h:459-468 | two field lists have the same bytes only if they are the same |
| Oxm.Message.Set | ofcdriver/ofproto/src/messages/of_msg_utils.c:567-603 | header, value and mask are appended behind ptr1 exactly when they fit; every other byte of the buffer stays |
| IpsecSelector.FieldsMeanSelector | ofcdriver/include/ipsec_nb_utils.h:48-321 | the fields set for a selector match exactly the packets it selects: IP version where it names an address, leading bits, protocol, ports, ICMP type and code |
| IpsecSelector.MessageMeansSelector | ofcdriver/include/ipsec_nb_utils.h:48-321 | the bytes written parse, and the parsed match selects exactly those packets |
| IpsecFill.CalculateSelectorMsgLen | ofcdriver/include/ipsec_nb_utils.h:330-433 | accepts exactly IPv4 and IPv6 selectors of the known protocols; the length never needs more than 16 bits |
| IpsecFill.FillSelectorInfo | ofcdriver/include/ipsec_nb_utils.h:48-321 | succeeds exactly when the protocol is known and all fields fit; in every case the message gains the fields that fit, in order |
| IpsecFill.LengthCoversIff | ofcdriver/include/ipsec_nb_utils.h:330-433 | the computed length covers the bytes written, except exactly for an IPv6 selector with a nonzero range source and a destination |
| IpsecFill.LengthIsExact | ofcdriver/include/ipsec_nb_utils.h:330-433 | the computed length is that of a selector that says everything: exact exactly if both addresses and, with a protocol, both ports are named, over by precisely what is left out otherwise, and 24 bytes less than all that for an IPv6 range source |
| IpsecFill.RangeSourceIsShort | ofcdriver/include/ipsec_nb_utils.h:369-372 | such a selector: 48 bytes computed, 72 written |
| IpsecFill.FillIntoComputedRoom | ofcdriver/include/ipsec_nb_utils.h:330-433 | in a buffer of the computed length the filler succeeds for every other accepted selector, and its bytes parse back |
| SaContext.LoopEndsIff | ofcdriver/include/ipsec_nb_utils.h:488-498 | a loop with a 16-bit index over n selectors ends exactly when n is at most 65535, one with an 8-bit index when it is at most 255 |
| SaProperty.StructureSizes | ofcdriver/l3extutils/include/fsl_ext.h:2474-2795 | the fields of every structure add up to the size its header file asserts |
| SaProperty.ParseEncoded | ofcdriver/l3extutils/include/fsl_ext.h:2316-2323 | structures written one after the other are read back by their types and lengths, all of them and nothing else |
| SaContext.CalculateSaCtxMsgLen | ofcdriver/include/ipsec_nb_utils.h:442-518 | the result is the number of bytes, modulo 2^16, of the header and of the structures the association asks for, an authentication structure always among them |
| SaContext.CompleteIff | ofcdriver/l3extutils/ipsec_of_extn.c:505-618 | the writer gives up exactly on a part with a key or vector of no bits, NULL encryption apart, or on an algorithm outside the tables |
| SaWriter.CreateSaContext | ofcdriver/l3extutils/ipsec_of_extn.c:449-803 | it succeeds exactly with room for the header and without such a part; then the bytes written are header and structures in order, the header holds their number modulo 2^16, and length3 has moved by it; when it gives up, length3 has moved by what came before |
| SaWriter.ActionParses | ofcdriver/l3extutils/ipsec_of_extn.c:449-803 | an action shorter than 2^16 bytes is read back by the lengths it contains: exactly the structures of the association |
| SaWriter.PresentIff | ofcdriver/l3extutils/ipsec_of_extn.c:621-798 | encapsulation, tunnel and DSCP structures are there exactly when the association asks for them, of its IP version |
| SaWriter.SelectorsInOrder | ofcdriver/l3extutils/ipsec_of_extn.c:662-748 | one structure for each selector, in order, of the selector's IP version |
| SaWriter.SelectorProperty4Means | ofcdriver/l3extutils/ipsec_of_extn.c:681-691 | address and mask of a subnet pick the addresses with its leading bits, source and destination each at its place |
| SaWriter.SelectorProperty6Means | ofcdriver/l3extutils/ipsec_of_extn.c:717-729 | the same for IPv6 |
| SaWriter.Range4Reads | ofcdriver/l3extutils/ipsec_of_extn.c:692-698 | an IPv4 range goes out as its ends, at the offsets of the structure |
| SaWriter.Range6Reads | ofcdriver/l3extutils/ipsec_of_extn.c:730-744 | an IPv6 range goes out as its start in both places |
| SaWriter.Selector4Reads | ofcdriver/l3extutils/include/fsl_ext.h:2717-2743 | ports and protocol of an IPv4 selector stand at the offsets of the structure |
| SaWriter.Selector6Reads | ofcdriver/l3extutils/include/fsl_ext.h:2751-2775 | the same for IPv6 |
| SaWriter.AuthReads | ofcdriver/l3extutils/include/fsl_ext.h:2474-2490 | algorithm, ICV bits, key bits and key of authentication, at their offsets |
| SaWriter.EncReads | ofcdriver/l3extutils/include/fsl_ext.h:2520-2532 | algorithm, key bits and key of encryption, at their offsets |
| SaWriter.NullEncReads | ofcdriver/l3extutils/ipsec_of_extn.c:558-562 | NULL encryption carries no key and says so |
| SaWriter.CombReads | ofcdriver/l3extutils/include/fsl_ext.h:2564-2580 | algorithm, ICV bits, key bits and key of a combined mode, at their offsets |
| SaWriter.SaltReads | ofcdriver/l3extutils/include/fsl_ext.h:2602-2614 | bits and bytes of the vector, at their offsets |
| SaWriter.Encap4Reads | ofcdriver/l3extutils/include/fsl_ext.h:2622-2638 | type, ports and address of an IPv4 encapsulation, at their offsets |
| SaWriter.Encap6Reads | ofcdriver/l3extutils/include/fsl_ext.h:2653-2669 | the same for IPv6 |
| SaWriter.TunnelReads | ofcdriver/l3extutils/include/fsl_ext.h:2677-2709 | the tunnel's ends, at their offsets, for both versions |
| SaWriter.DscpReads | ofcdriver/l3extutils/include/fsl_ext.h:2783-2795 | the ends of the DSCP range, at their offsets |
| SaWriter.HeaderReads | ofcdriver/l3extutils/include/fsl_ext.h:2340-2370 | the header's fields, at their offsets |
| SaWriter.AlgorithmNumbers | ofcdriver/l3extutils/ipsec_of_extn.c:48-128 | the numbers of the algorithms by the names both enumerations give them |
| SaWriter.AlgorithmsDiffer | ofcdriver/l3extutils/ipsec_of_extn.c:48-128 | distinct algorithms have distinct numbers |
| SaWriter.LengthCoversSaContext | ofcdriver/include/ipsec_nb_utils.h:442-518 | with authentication, or an authentication key under 2^16 bytes, the computed length covers the action exactly when it does not wrap; unwrapped it is exact exactly with authentication; the wrapped length in the header equals it exactly with authentication or when the authentication part is a multiple of 2^16 |
| HexDump.PrintPktData | ofcdriver/include/ipfwd_db.h:75-95 | every write and the final NUL are inside the 1024 bytes and nothing behind the NUL changes; exactly the first min(length, 307) bytes are dumped; j is 3i + ceil(i/16) + 2 ceil(i/8); a length of 0 or less writes nothing |
| HexDump.RoomLeftIff | ofcdriver/include/ipfwd_db.h:81 | the loop's second test holds for exactly the first 307 rounds |
| HexDump.NewlineIff | ofcdriver/include/ipfwd_db.h:83-87 | a line begins before every sixteenth byte and nowhere else |
| HexDump.ParseText | ofcdriver/include/ipfwd_db.h:75-95 | the text parses back to the bytes dumped |
| GroupId.Generator.Generate | ofcdriver/include/cntrlappcmn.h:143-150 | the next id, kept in group_id_g |
| GroupId.Generator.GenerateAll | ofcdriver/include/cntrlappcmn.h:143-150 | a run of calls yields the ids the laws below speak of |
| GroupId.InRangeIff | ofcdriver/include/cntrlappcmn.h:140-150 | every id is in [1000, 4094] exactly when the generator starts in [999, 4094] |
| GroupId.FirstIdsAreBelowRange | ofcdriver/ofproto/src/main.c:64 | from the program's start of 0 exactly the first 999 ids are below the range |
| GroupId.PeriodIsExact | ofcdriver/include/cntrlappcmn.h:140-150 | two ids are equal exactly when a multiple of 3095 calls lies between them, so any 3095 in a row differ |

## Left out

- Futex.MutualExclusion: real futex system calls and signals are outside the model.
- Futex.ExclusionIffNeverPasses: `count` does not wrap. A 32-bit word would after 2^31 decrements without a store, twice as many as it takes to reach the token-passing value.
- TableAccess.AccessIsRightIff: whether the memory of the node returned is still there is the reclamation question of BucketReaders, not asked again here.
- LockUpgrade.LastReferrerDeletes: says nothing about fairness; a thread may wait for the write lock for ever.
- HashTable.HashTable.DeleteNodeByRef: the second test of the magic under the lock cannot fail for one thread and appears only in TableProtocol.
- SaWriter.CreateSaContext: the bytes are given in the order in which they are written. Where they fall when length3 wraps, or behind the buffer, since room is checked for the header only, is not modelled.
- SaContext.CalculateSaCtxMsgLen: stated for at most 65535 selectors, because beyond that it never returns.
- HexDump.PrintPktData: packet bytes are unsigned. The macro takes any pointer, and `%02x` of a byte from 0x80 up behind a pointer to a signed char prints eight digits, which the bound does not cover. For a length of 0 or less the macro prints a buffer nobody wrote.
- GroupId.Generator.Generate: 32-bit overflow, which needs a start above 4094.
- PrefixMask.Ipv6AddrPrefixToMask: prefix lengths above 128, which `fsl_nfapi_ipsec.h` excludes and which write behind the address.
- What an unstable delete does to the chains afterwards: TableRaces shows the null pointer, the second success, the second call_rcu, the node left in its list and the slot freed twice, and stops there.
- TableRaces.DeleteBeforeKeyStaysLinked: memory that the application reuses holds a stale key; a key field never written at all is the same with an arbitrary value.
- `MCHASH_ACCESS_NODE_AND_HASHKEY`, which reads the key field without a lock too.
- `DLL_QUEUE_SCAN_WITH_LOCK_WRITE_CNTR` and the application's own release of the reference it returns.
- The debug configuration of `dll.h`, its RCU variants, the SMP aliases, and `DLL_QUEUE_INSERT_BEFORE_NODE` with a null anchor.
- Safe references with magic 0, which callers never receive.
- Header files that only declare functions (timers, memory pools, resource databases, XML): their behaviour is decided elsewhere.
- The metadata macros of `cntrlappcmn.h` and the id macros of `genid.h`: each is one shift and mask, without state or branches.
- Message framing, connections and the flow, group and meter messages of `ofproto`.
