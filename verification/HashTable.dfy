/**
 The hash table on the heap (ofcdriver/include/mchash.h, ofcdriver/utils/mchash.c), used by one
 thread at a time.  Every operation is proved
 to do what HashTableSpec says.  An application node and the mchash_table_link inside it are one
 object here.
 */
module HashTable {
  import opened Common
  import opened Magic
  import opened Bucket
  import opened HashTableSpec
  import SlotArray

  /** counts as the specification keeps them. */
  lemma CountsAgree(c: nat)
    requires c < UINT32
    ensures Increment(c) == Bump(c, 1) && Decrement(c) == Bump(c, -1) && Increment(Increment(c)) == Bump(c, 2)
  {
  }

  ghost function Links(owned: seq<set<TableLink>>): (r: set<TableLink>)
    ensures forall b, n :: 0 <= b < |owned| && n in owned[b] ==> n in r
  {
    set s, n | s in owned && n in s :: n
  }

  ghost function Prefetches(bs: seq<Bucket>): (r: set<array<TableLink?>>)
    ensures forall b :: 0 <= b < |bs| ==> bs[b].prefetch in r
  {
    set b | b in bs :: b.prefetch
  }

  /** No two buckets share an object; owned holds the head and the nodes of each. */
  ghost predicate Apart(bs: seq<Bucket>, owned: seq<set<TableLink>>) {
    && |owned| == |bs|
    && (forall b, c :: 0 <= b < c < |bs| ==> bs[b] != bs[c] && bs[b].prefetch != bs[c].prefetch)
    && (forall b, c :: 0 <= b < c < |bs| ==> owned[b] !! owned[c])
  }

  ghost predicate BucketMatches(b: Bucket, list: seq<TableLink>, count: nat, nodes: set<TableLink>)
    reads b, nodes`next, nodes`prev, b.prefetch
  {
    && b.list == list && b.count == count && b.nodes == nodes
    && b.head in nodes && (forall i :: 0 <= i < |b.list| ==> b.list[i] in nodes) && b.Valid()
  }

  ghost predicate BucketsMatch(bs: seq<Bucket>, lists: seq<seq<TableLink>>, counts: seq<nat>,
      owned: seq<set<TableLink>>)
    reads bs, Links(owned)`next, Links(owned)`prev, Prefetches(bs)
  {
    && |bs| == |lists| == |counts| == |owned|
    && forall b :: 0 <= b < |bs| ==> BucketMatches(bs[b], lists[b], counts[b], owned[b])
  }

  lemma ChangeOneBucket(bs: seq<Bucket>, key: nat, lists: seq<seq<TableLink>>, counts: seq<nat>,
      owned: seq<set<TableLink>>)
    requires |bs| == |lists| == |counts| == |owned| && key < |bs|
    requires BucketMatches(bs[key], bs[key].list, bs[key].count, bs[key].nodes)
    requires forall b :: 0 <= b < |bs| && b != key ==> BucketMatches(bs[b], lists[b], counts[b], owned[b])
    ensures BucketsMatch(bs, lists[key := bs[key].list], counts[key := bs[key].count], owned[key := bs[key].nodes])
  {
  }

  /** mchash_insert_node_in_middle on bucket key: the other buckets stay as they are. */
  method InsertInBucket(bs: seq<Bucket>, key: nat, prev: TableLink?, node: TableLink, next: TableLink?,
                        ghost k: nat, ghost lists: seq<seq<TableLink>>, ghost counts: seq<nat>,
                            ghost owned: seq<set<TableLink>>)
    requires Apart(bs, owned) && BucketsMatch(bs, lists, counts, owned) && key < |bs|
    requires forall b :: 0 <= b < |bs| ==> node !in owned[b]
    requires k <= |lists[key]| && next == NodeAt(lists[key], k) && bs[key].IsPrev(lists[key], k, prev)
    modifies bs[key], bs[key].prefetch, bs[key].nodes`prev, bs[key].nodes`next, node`prev, node`next
    ensures BucketsMatch(bs, lists[key := InsertAt(lists[key], k, node)], counts[key := Increment(counts[key])],
                         owned[key := owned[key] + {node}])
  {
    assert BucketMatches(bs[key], lists[key], counts[key], owned[key]);
    bs[key].InsertNodeInMiddle(prev, node, next, k);
    ChangeOneBucket(bs, key, lists, counts, owned);
  }

  /** The bucket's part of a delete: the other buckets stay as they are. */
  method UnlinkInBucket(bs: seq<Bucket>, key: nat, node: TableLink,
                        ghost k: nat, ghost lists: seq<seq<TableLink>>, ghost counts: seq<nat>,
                            ghost owned: seq<set<TableLink>>)
    requires Apart(bs, owned) && BucketsMatch(bs, lists, counts, owned) && key < |bs|
    requires k < |lists[key]| && lists[key][k] == node
    modifies bs[key], bs[key].prefetch, bs[key].nodes`prev, bs[key].nodes`next
    ensures BucketsMatch(bs, lists[key := RemoveAt(lists[key], k)], counts[key := Decrement(counts[key])],
                         owned[key := owned[key] - {node}])
    ensures node.prev == old(node.prev) && node.next == old(node.next)
  {
    assert BucketMatches(bs[key], lists[key], counts[key], owned[key]);
    bs[key].Unlink(node, k);
    ChangeOneBucket(bs, key, lists, counts, owned);
  }

  /** The bucket loop of mchash_table_create. */
  method CreateBuckets(n: nat) returns (bs: seq<Bucket>, ghost owned: seq<set<TableLink>>)
    ensures Apart(bs, owned) && BucketsMatch(bs, seq(n, _ => []), seq(n, _ => 0), owned)
    ensures forall b :: 0 <= b < n ==> owned[b] == {bs[b].head}
    ensures forall b :: 0 <= b < n ==> fresh(bs[b]) && fresh(bs[b].head) && fresh(bs[b].prefetch)
  {
    bs, owned := [], [];
    for ii := 0 to n
      invariant |bs| == ii && Apart(bs, owned)
      invariant forall b :: 0 <= b < ii ==> BucketMatches(bs[b], [], 0, owned[b])
      invariant forall b :: 0 <= b < ii ==> owned[b] == {bs[b].head}
      invariant forall b :: 0 <= b < ii ==> fresh(bs[b]) && fresh(bs[b].head) && fresh(bs[b].prefetch)
    {
      var bucket := new Bucket();
      bs, owned := bs + [bucket], owned + [{bucket.head}];
    }
  }

  // ---------- Slots ----------

  /** A slot with a nonzero magic holds the node of that reference; the others hold nothing. */
  ghost predicate SlotsMatch(sa: SlotArray.SlotArray, live: map<Ref, TableLink>)
    reads sa, sa.slots
  {
    && sa.Valid()
    && (forall r :: r in live ==>
          r.index < sa.slots.Length && sa.Contents()[r.index] == SlotArray.Entry(r.magic, live[r]))
    && (forall i :: 0 <= i < sa.slots.Length && sa.Contents()[i].magic == 0 ==> sa.Contents()[i].node == null)
    && (forall i :: 0 <= i < sa.slots.Length && sa.Contents()[i].magic != 0 ==> Ref(i, sa.Contents()[i].magic) in live)
  }

  /** The first free slot gets the next magic and the node. */
  method Allocate(sa: SlotArray.SlotArray, node: TableLink, ghost live: map<Ref, TableLink>) returns (i: nat, m: nat)
    requires SlotsMatch(sa, live) && sa.freeHead != -1 && forall r :: r in live ==> r.index !in sa.freeQ
    modifies sa, sa.slots
    ensures old(sa.freeQ) != [] && i == old(sa.freeQ)[0] && m == old(sa.magicNo)
    ensures SlotsMatch(sa, live[Ref(i, m) := node])
    ensures sa.freeQ == old(sa.freeQ)[1..] && sa.magicNo == NextMagic(m)
  {
    assert forall r :: r in live ==> r.index != sa.freeQ[0];
    i := sa.Take();
    assert sa.slots[i].magic == sa.Contents()[i].magic;
    sa.SetNode(i, node);
    m := sa.slots[i].magic;
    assert m == sa.Contents()[i].magic;
  }

  /** Allocate, and the index written into the node: the buckets see nothing of it. */
  method AttachSlot(sa: SlotArray.SlotArray, bs: seq<Bucket>, node: TableLink, ghost live: map<Ref, TableLink>,
                    ghost lists: seq<seq<TableLink>>, ghost counts: seq<nat>, ghost owned: seq<set<TableLink>>)
                        returns (ref: Ref)
    requires SlotsMatch(sa, live) && sa.freeHead != -1 && forall r :: r in live ==> r.index !in sa.freeQ
    requires BucketsMatch(bs, lists, counts, owned)
    modifies sa, sa.slots, node`index
    ensures old(sa.freeQ) != [] && ref == Ref(old(sa.freeQ)[0], old(sa.magicNo)) && node.index == ref.index
    ensures SlotsMatch(sa, live[ref := node]) && sa.freeQ == old(sa.freeQ)[1..]
    ensures sa.magicNo == NextMagic(old(sa.magicNo))
    ensures BucketsMatch(bs, lists, counts, owned)
  {
    var i, m := Allocate(sa, node, live);
    node.index := i;
    ref := Ref(i, m);
  }

  /** The slot of r forgets its node; it is not yet in the free queue. */
  method Forget(sa: SlotArray.SlotArray, i: nat, ghost r: Ref, ghost live: map<Ref, TableLink>)
    requires SlotsMatch(sa, live) && r in live && i == r.index && forall q :: q in live ==> q.index !in sa.freeQ
    requires forall q :: q in live && q.index == r.index ==> q == r
    modifies sa.slots
    ensures SlotsMatch(sa, live - {r}) && sa.Contents()[i] == SlotArray.Entry(0, null)
  {
    sa.Clear(i);
  }

  // ---------- The table ----------

  ghost predicate Owns(bs: seq<Bucket>, lists: seq<seq<TableLink>>, owned: seq<set<TableLink>>) {
    |bs| == |lists| == |owned| && forall b, n :: 0 <= b < |bs| && n in owned[b] ==> n == bs[b].head || n in lists[b]
  }

  /** Every node carries its slot and its bucket. */
  ghost predicate Labelled(t: Table<TableLink>)
    reads t.live.Values`index, t.live.Values`key
  {
    && (forall r :: r in t.live ==> t.live[r].index == r.index)
    && (forall b, n :: 0 <= b < |t.lists| && n in t.lists[b] && n in t.live.Values ==> n.key == b)
  }

  /** The slots and buckets hold the table t. */
  ghost predicate Represents(sa: SlotArray.SlotArray, bs: seq<Bucket>, t: Table<TableLink>, owned: seq<set<TableLink>>)
    reads sa, sa.slots, bs, Links(owned)`next, Links(owned)`prev, Prefetches(bs), t.live.Values`index, t.live.Values`key
  {
    && WellFormed(t, sa.slots.Length)
    && SlotsMatch(sa, t.live) && sa.freeQ == t.freeQ && sa.magicNo == t.magicNo
    && Apart(bs, owned) && Owns(bs, t.lists, owned) && BucketsMatch(bs, t.lists, t.counts, owned)
    && Labelled(t)
  }

  lemma GainNode(bs: seq<Bucket>, t: Table<TableLink>, owned: seq<set<TableLink>>, key: nat, k: nat, node: TableLink,
      gain: nat)
    requires Apart(bs, owned) && Owns(bs, t.lists, owned) && GoodLists(t)
    requires key < |bs| && k <= |t.lists[key]| && t.freeQ != []
    requires node !in t.live.Values && forall b :: 0 <= b < |bs| ==> node != bs[b].head
    ensures forall b :: 0 <= b < |bs| ==> node !in owned[b]
    ensures Apart(bs, owned[key := owned[key] + {node}])
    ensures Owns(bs, Add(t, key, k, node, gain).lists, owned[key := owned[key] + {node}])
  {
    InsertDistinct(t.lists[key], k, node);
  }

  lemma GainLabel(t: Table<TableLink>, key: nat, k: nat, node: TableLink, gain: nat)
    requires Labelled(t) && GoodLists(t) && key < |t.lists| && k <= |t.lists[key]| && t.freeQ != []
    requires node.key == key && node.index == t.freeQ[0] && node !in t.live.Values
    ensures Labelled(Add(t, key, k, node, gain))
  {
    InsertDistinct(t.lists[key], k, node);
  }

  /** mchash_insert_node_in_middle, and the key written into the node. */
  method LinkInBucket(bs: seq<Bucket>, key: nat, prev: TableLink?, node: TableLink, next: TableLink?,
                      ghost k: nat, ghost lists: seq<seq<TableLink>>, ghost counts: seq<nat>,
                      ghost owned: seq<set<TableLink>>)
    requires Apart(bs, owned) && BucketsMatch(bs, lists, counts, owned) && key < |bs|
    requires forall b :: 0 <= b < |bs| ==> node !in owned[b]
    requires k <= |lists[key]| && next == NodeAt(lists[key], k) && bs[key].IsPrev(lists[key], k, prev)
    modifies bs[key], bs[key].prefetch, bs[key].nodes`prev, bs[key].nodes`next, node`prev, node`next, node`key
    ensures BucketsMatch(bs, lists[key := InsertAt(lists[key], k, node)], counts[key := Increment(counts[key])],
                         owned[key := owned[key] + {node}])
    ensures node.key == key
  {
    InsertInBucket(bs, key, prev, node, next, k, lists, counts, owned);
    node.key := key;
  }

  /** The slots and the other nodes see nothing of it. */
  method AttachLink(sa: SlotArray.SlotArray, bs: seq<Bucket>, key: nat, prev: TableLink?, node: TableLink,
                    next: TableLink?, ghost k: nat, ghost t: Table<TableLink>, ghost live: map<Ref, TableLink>,
                    ghost owned: seq<set<TableLink>>)
    requires Apart(bs, owned) && BucketsMatch(bs, t.lists, t.counts, owned) && key < |bs|
    requires forall b :: 0 <= b < |bs| ==> node !in owned[b]
    requires k <= |t.lists[key]| && next == NodeAt(t.lists[key], k) && bs[key].IsPrev(t.lists[key], k, prev)
    requires SlotsMatch(sa, live) && Labelled(t) && node !in t.live.Values
    modifies bs[key], bs[key].prefetch, bs[key].nodes`prev, bs[key].nodes`next, node`prev, node`next, node`key
    ensures BucketsMatch(bs, t.lists[key := InsertAt(t.lists[key], k, node)], t.counts[key := Increment(t.counts[key])],
                         owned[key := owned[key] + {node}])
    ensures SlotsMatch(sa, live) && Labelled(t) && node.key == key
  {
    LinkInBucket(bs, key, prev, node, next, k, t.lists, t.counts, owned);
  }

  lemma Attached(sa: SlotArray.SlotArray, bs: seq<Bucket>, t: Table<TableLink>, owned: seq<set<TableLink>>,
                 key: nat, k: nat, node: TableLink)
    requires WellFormed(t, sa.slots.Length) && Apart(bs, owned) && Owns(bs, t.lists, owned) && Labelled(t)
    requires key < |bs| && k <= |t.lists[key]| && t.freeQ != []
    requires node !in t.live.Values && (forall b :: 0 <= b < |bs| ==> node != bs[b].head)
    requires node.key == key && node.index == t.freeQ[0] && t.counts[key] < UINT32
    requires SlotsMatch(sa, t.live[Ref(t.freeQ[0], t.magicNo) := node]) && sa.freeQ == t.freeQ[1..]
    requires sa.magicNo == NextMagic(t.magicNo)
    requires BucketsMatch(bs, t.lists[key := InsertAt(t.lists[key], k, node)],
             t.counts[key := Increment(t.counts[key])],
                         owned[key := owned[key] + {node}])
    ensures Represents(sa, bs, Add(t, key, k, node, 1), owned[key := owned[key] + {node}])
  {
    GainNode(bs, t, owned, key, k, node, 1);
    GainLabel(t, key, k, node, 1);
    CountsAgree(t.counts[key]);
    AddKeepsWellFormed(t, key, k, node, 1, sa.slots.Length);
  }

  /** Slot and link together. */
  method AttachBoth(sa: SlotArray.SlotArray, bs: seq<Bucket>, key: nat, prev: TableLink?, node: TableLink,
      next: TableLink?,
                    ghost k: nat, ghost t: Table<TableLink>, ghost owned: seq<set<TableLink>>) returns (ref: Ref)
    requires SlotsMatch(sa, t.live) && sa.freeHead != -1 && forall r :: r in t.live ==> r.index !in sa.freeQ
    requires Apart(bs, owned) && BucketsMatch(bs, t.lists, t.counts, owned) && key < |bs|
    requires forall b :: 0 <= b < |bs| ==> node !in owned[b]
    requires k <= |t.lists[key]| && next == NodeAt(t.lists[key], k) && bs[key].IsPrev(t.lists[key], k, prev)
    requires Labelled(t) && node !in t.live.Values
    modifies sa, sa.slots, bs[key], bs[key].prefetch, bs[key].nodes`prev, bs[key].nodes`next, node
    ensures old(sa.freeQ) != [] && ref == Ref(old(sa.freeQ)[0], old(sa.magicNo))
    ensures node.index == ref.index && node.key == key && Labelled(t)
    ensures SlotsMatch(sa, t.live[ref := node]) && sa.freeQ == old(sa.freeQ)[1..]
    ensures sa.magicNo == NextMagic(old(sa.magicNo))
    ensures BucketsMatch(bs, t.lists[key := InsertAt(t.lists[key], k, node)], t.counts[key := Increment(t.counts[key])],
                         owned[key := owned[key] + {node}])
  {
    ref := AttachSlot(sa, bs, node, t.live, t.lists, t.counts, owned);
    AttachLink(sa, bs, key, prev, node, next, k, t, t.live[ref := node], owned);
  }

  /** What the append and insert macros share. */
  method AttachNode(sa: SlotArray.SlotArray, bs: seq<Bucket>, key: nat, prev: TableLink?, node: TableLink,
      next: TableLink?,
                    ghost k: nat, ghost t: Table<TableLink>, ghost owned: seq<set<TableLink>>) returns (ref: Ref)
    requires Represents(sa, bs, t, owned) && key < |bs| && sa.freeHead != -1
    requires node !in t.live.Values && forall b :: 0 <= b < |bs| ==> node != bs[b].head
    requires k <= |t.lists[key]| && next == NodeAt(t.lists[key], k) && bs[key].IsPrev(t.lists[key], k, prev)
    modifies sa, sa.slots, bs[key], bs[key].prefetch, bs[key].nodes`prev, bs[key].nodes`next, node
    ensures t.freeQ != [] && ref == Ref(t.freeQ[0], t.magicNo)
    ensures Represents(sa, bs, Add(t, key, k, node, 1), owned[key := owned[key] + {node}])
  {
    GainNode(bs, t, owned, key, k, node, 1);
    ref := AttachBoth(sa, bs, key, prev, node, next, k, t, owned);
    Attached(sa, bs, t, owned, key, k, node);
  }

  /** The slot forgets the node, the bucket unlinks it. */
  method DetachLink(sa: SlotArray.SlotArray, bs: seq<Bucket>, i: nat, key: nat, node: TableLink,
                    ghost r: Ref, ghost k: nat, ghost t: Table<TableLink>, ghost owned: seq<set<TableLink>>)
    requires SlotsMatch(sa, t.live) && r in t.live && i == r.index
    requires (forall q :: q in t.live ==> q.index !in sa.freeQ) && forall q :: q in t.live && q.index == r.index ==>
             q == r
    requires Apart(bs, owned) && BucketsMatch(bs, t.lists, t.counts, owned) && key < |bs|
    requires k < |t.lists[key]| && t.lists[key][k] == node
    requires Labelled(t)
    modifies sa.slots, bs[key], bs[key].prefetch, bs[key].nodes`prev, bs[key].nodes`next
    ensures node.prev == old(node.prev) && node.next == old(node.next)
    ensures SlotsMatch(sa, t.live - {r}) && sa.Contents()[i] == SlotArray.Entry(0, null) && Labelled(t)
    ensures BucketsMatch(bs, t.lists[key := RemoveAt(t.lists[key], k)], t.counts[key := Decrement(t.counts[key])],
                         owned[key := owned[key] - {node}])
  {
    Forget(sa, i, r, t.live);
    UnlinkInBucket(bs, key, node, k, t.lists, t.counts, owned);
  }

  /** The slot goes to the end of the free queue. */
  method FreeSlot(sa: SlotArray.SlotArray, bs: seq<Bucket>, i: nat, ghost t: Table<TableLink>,
                  ghost live: map<Ref, TableLink>,
                  ghost lists: seq<seq<TableLink>>, ghost counts: seq<nat>, ghost owned: seq<set<TableLink>>)
    requires SlotsMatch(sa, live) && i < sa.slots.Length && i !in sa.freeQ && sa.active > 0
    requires sa.Contents()[i] == SlotArray.Entry(0, null) && BucketsMatch(bs, lists, counts, owned) && Labelled(t)
    modifies sa, sa.slots
    ensures SlotsMatch(sa, live) && sa.freeQ == old(sa.freeQ) + [i] && sa.magicNo == old(sa.magicNo)
    ensures BucketsMatch(bs, lists, counts, owned) && Labelled(t)
  {
    assert sa.Contents()[i].magic == sa.slots[i].magic && sa.Contents()[i].node == sa.slots[i].node;
    sa.Release(i);
  }

  /** What the delete macros share: the slot forgets the node, the bucket unlinks it, the slot is freed. */
  method DetachBoth(sa: SlotArray.SlotArray, bs: seq<Bucket>, i: nat, key: nat, node: TableLink,
                    ghost r: Ref, ghost k: nat, ghost t: Table<TableLink>, ghost owned: seq<set<TableLink>>)
    requires SlotsMatch(sa, t.live) && r in t.live && i == r.index && sa.active > 0
    requires (forall q :: q in t.live ==> q.index !in sa.freeQ) && forall q :: q in t.live && q.index == r.index ==>
             q == r
    requires Apart(bs, owned) && BucketsMatch(bs, t.lists, t.counts, owned) && key < |bs|
    requires k < |t.lists[key]| && t.lists[key][k] == node
    requires Labelled(t)
    modifies sa, sa.slots, bs[key], bs[key].prefetch, bs[key].nodes`prev, bs[key].nodes`next
    ensures node.prev == old(node.prev) && node.next == old(node.next)
    ensures SlotsMatch(sa, t.live - {r}) && sa.freeQ == old(sa.freeQ) + [i] && sa.magicNo == old(sa.magicNo)
    ensures Labelled(t)
    ensures BucketsMatch(bs, t.lists[key := RemoveAt(t.lists[key], k)], t.counts[key := Decrement(t.counts[key])],
                         owned[key := owned[key] - {node}])
  {
    DetachLink(sa, bs, i, key, node, r, k, t, owned);
    FreeSlot(sa, bs, i, t, t.live - {r}, t.lists[key := RemoveAt(t.lists[key], k)],
             t.counts[key := Decrement(t.counts[key])], owned[key := owned[key] - {node}]);
  }

  lemma LoseNode(bs: seq<Bucket>, t: Table<TableLink>, owned: seq<set<TableLink>>, key: nat, k: nat, r: Ref)
    requires Apart(bs, owned) && Owns(bs, t.lists, owned) && GoodLists(t) && UniqueRefs(t.live) && Labelled(t)
    requires r in t.live && key < |bs| && k < |t.lists[key]| && t.live[r] == t.lists[key][k]
    ensures Remove(t, key, r).lists == t.lists[key := RemoveAt(t.lists[key], k)]
    ensures Apart(bs, owned[key := owned[key] - {t.live[r]}])
    ensures Owns(bs, Remove(t, key, r).lists, owned[key := owned[key] - {t.live[r]}])
    ensures Labelled(Remove(t, key, r))
  {
    WithoutAt(t.lists[key], k);
    RemoveDistinct(t.lists[key], k);
  }

  lemma Detached(sa: SlotArray.SlotArray, bs: seq<Bucket>, t: Table<TableLink>, owned: seq<set<TableLink>>, key: nat,
      k: nat, r: Ref)
    requires WellFormed(t, sa.slots.Length) && Apart(bs, owned) && Owns(bs, t.lists, owned) && Labelled(t)
    requires r in t.live && key < |bs| && k < |t.lists[key]| && t.live[r] == t.lists[key][k] && t.counts[key] < UINT32
    requires SlotsMatch(sa, t.live - {r}) && sa.freeQ == t.freeQ + [r.index] && sa.magicNo == t.magicNo
    requires BucketsMatch(bs, t.lists[key := RemoveAt(t.lists[key], k)], t.counts[key := Decrement(t.counts[key])],
                         owned[key := owned[key] - {t.live[r]}])
    ensures Represents(sa, bs, Remove(t, key, r), owned[key := owned[key] - {t.live[r]}])
  {
    LoseNode(bs, t, owned, key, k, r);
    CountsAgree(t.counts[key]);
    ApplyKeepsWellFormed(t, Delete(key, r), sa.slots.Length);
  }

  method DetachNode(sa: SlotArray.SlotArray, bs: seq<Bucket>, i: nat, key: nat, node: TableLink,
                    ghost r: Ref, ghost k: nat, ghost t: Table<TableLink>, ghost owned: seq<set<TableLink>>)
    requires Represents(sa, bs, t, owned) && r in t.live && t.live[r] == node && i == r.index
    requires key < |bs| && k < |t.lists[key]| && t.lists[key][k] == node
    modifies sa, sa.slots, bs[key], bs[key].prefetch, bs[key].nodes`prev, bs[key].nodes`next
    ensures node.prev == old(node.prev) && node.next == old(node.next)
    ensures Represents(sa, bs, Remove(t, key, r), owned[key := owned[key] - {node}])
  {
    assert sa.active == |t.live|;
    DetachBoth(sa, bs, i, key, node, r, k, t, owned);
    Detached(sa, bs, t, owned, key, k, r);
  }

  /** The macro's own count++. */
  method CountAgain(sa: SlotArray.SlotArray, bs: seq<Bucket>, key: nat, ghost t: Table<TableLink>,
      ghost owned: seq<set<TableLink>>)
    requires SlotsMatch(sa, t.live) && BucketsMatch(bs, t.lists, t.counts, owned) && Apart(bs, owned) && Labelled(t)
    requires key < |bs|
    modifies {bs[key]}`count
    ensures SlotsMatch(sa, t.live) && BucketsMatch(bs, t.lists, t.counts[key := Increment(t.counts[key])], owned)
    ensures Labelled(t)
    ensures t.counts[key] < UINT32
  {
    assert BucketMatches(bs[key], t.lists[key], t.counts[key], owned[key]);
    bs[key].count := Increment(bs[key].count);
    ChangeOneBucket(bs, key, t.lists, t.counts, owned);
    assert t.lists[key := t.lists[key]] == t.lists && owned[key := owned[key]] == owned;
  }

  method CountNode(sa: SlotArray.SlotArray, bs: seq<Bucket>, key: nat, ghost t: Table<TableLink>,
      ghost owned: seq<set<TableLink>>)
    requires Represents(sa, bs, t, owned) && key < |bs|
    modifies {bs[key]}`count
    ensures Represents(sa, bs, t.(counts := t.counts[key := Bump(t.counts[key], 1)]), owned)
  {
    CountAgain(sa, bs, key, t, owned);
    CountsAgree(t.counts[key]);
    Recounted(t, t.counts[key := Bump(t.counts[key], 1)], sa.slots.Length);
  }

  lemma Recounted(t: Table<TableLink>, counts: seq<nat>, max: nat)
    requires WellFormed(t, max) && |counts| == |t.counts|
    ensures WellFormed(t.(counts := counts), max)
  {
  }

  lemma AppendIsInsertAndCount(t: Table<TableLink>, key: nat, node: TableLink)
    requires Enabled(t, Append(key, node)) && t.counts[key] < UINT32
    ensures var u := Apply(t, Insert(key, |t.lists[key]|, node));
              Apply(t, Append(key, node)) == u.(counts := u.counts[key := Bump(u.counts[key], 1)])
  {
    CountsAgree(t.counts[key]);
    CountsAgree(Increment(t.counts[key]));
  }

  method ScanBuckets(bs: seq<Bucket>, ghost lists: seq<seq<TableLink>>, ghost counts: seq<nat>,
      ghost owned: seq<set<TableLink>>)
    returns (seen: seq<(nat, TableLink)>)
    requires BucketsMatch(bs, lists, counts, owned)
    ensures seen == Scanned(lists, |lists|)
  {
    seen := [];
    var key := 0;
    while key < |bs|
      invariant key <= |bs| && seen == Scanned(lists, key)
    {
      assert BucketMatches(bs[key], lists[key], counts[key], owned[key]);
      var nodes := bs[key].Scan();
      seen := seen + Tagged(key, nodes);
      key := key + 1;
    }
  }

  // ---------- What the heap stands for ----------

  ghost function Live(sa: SlotArray.SlotArray): map<Ref, TableLink>
    reads sa.slots
  {
    map i: nat | i < sa.slots.Length && sa.slots[i].magic != 0 && sa.slots[i].node != null ::
      Ref(i, sa.slots[i].magic) := sa.slots[i].node as TableLink
  }

  ghost function Contents(sa: SlotArray.SlotArray, bs: seq<Bucket>): Table<TableLink>
    reads sa, sa.slots, bs
  {
    Table(Live(sa), seq(|bs|, b requires 0 <= b < |bs| reads bs => bs[b].list), sa.freeQ, sa.magicNo,
          seq(|bs|, b requires 0 <= b < |bs| reads bs => bs[b].count))
  }

  ghost function Owned(bs: seq<Bucket>): seq<set<TableLink>>
    reads bs
  {
    seq(|bs|, b requires 0 <= b < |bs| reads bs => bs[b].nodes)
  }

  lemma LiveIs(sa: SlotArray.SlotArray, live: map<Ref, TableLink>)
    requires SlotsMatch(sa, live) && forall r :: r in live ==> r.magic != 0
    ensures Live(sa) == live
  {
    forall i: nat | i < sa.slots.Length
      ensures sa.Contents()[i] == SlotArray.Entry(sa.slots[i].magic, sa.slots[i].node)
    {
    }
  }

  lemma BucketsAre(bs: seq<Bucket>, lists: seq<seq<TableLink>>, counts: seq<nat>, owned: seq<set<TableLink>>)
    requires BucketsMatch(bs, lists, counts, owned)
    ensures lists == seq(|bs|, b requires 0 <= b < |bs| reads bs => bs[b].list)
    ensures counts == seq(|bs|, b requires 0 <= b < |bs| reads bs => bs[b].count)
    ensures owned == Owned(bs)
  {
    assert forall b :: 0 <= b < |bs| ==> BucketMatches(bs[b], lists[b], counts[b], owned[b]);
  }

  lemma ContentsAre(sa: SlotArray.SlotArray, bs: seq<Bucket>, t: Table<TableLink>, owned: seq<set<TableLink>>)
    requires Represents(sa, bs, t, owned)
    ensures Contents(sa, bs) == t && Owned(bs) == owned
  {
    LiveIs(sa, t.live);
    BucketsAre(bs, t.lists, t.counts, owned);
  }

  class HashTable {
    const slots: SlotArray.SlotArray
    const buckets: seq<Bucket>

    /** The abstract table. */
    ghost function Model(): Table<TableLink>
      reads slots, slots.slots, buckets
    {
      Contents(slots, buckets)
    }

    ghost predicate Valid()
      reads slots, slots.slots, buckets, Links(Owned(buckets))`next, Links(Owned(buckets))`prev, Prefetches(buckets)
      reads Model().live.Values`index, Model().live.Values`key
    {
      Represents(slots, buckets, Model(), Owned(buckets))
    }

    /** mchash_table_create. */
    constructor (n: nat, max: nat)
      requires n > 0 && max > 0
      ensures Valid() && slots.slots.Length == max && |buckets| == n && Model() == Empty(n, max)
    {
      slots := new SlotArray.SlotArray(max);
      var bs, owned := CreateBuckets(n);
      buckets := bs;
      new;
      EmptyIsWellFormed<TableLink>(n, max);
      ContentsAre(slots, buckets, Empty(n, max), owned);
    }

    /** A node the table does not hold. */
    ghost predicate IsNew(node: TableLink)
      reads slots, slots.slots, buckets
    {
      node !in Model().live.Values && forall b :: 0 <= b < |buckets| ==> node != buckets[b].head
    }

    /** What the append and insert macros share. */
    method Attach(key: nat, prev: TableLink?, node: TableLink, next: TableLink?, ghost k: nat) returns (ref: Ref)
      requires Valid() && IsNew(node) && key < |buckets| && slots.freeHead != -1
      requires k <= |Model().lists[key]| && next == NodeAt(Model().lists[key], k)
      requires buckets[key].IsPrev(Model().lists[key], k, prev)
      modifies slots, slots.slots, buckets[key], buckets[key].prefetch, buckets[key].nodes`prev,
          buckets[key].nodes`next, node
      ensures Valid() && Enabled(old(Model()), Insert(key, k, node))
      ensures Model() == Apply(old(Model()), Insert(key, k, node))
      ensures ref == Ref(old(Model()).freeQ[0], old(Model()).magicNo)
    {
      ghost var t, owned := Model(), Owned(buckets);
      ref := AttachNode(slots, buckets, key, prev, node, next, k, t, owned);
      ContentsAre(slots, buckets, Add(t, key, k, node, 1), owned[key := owned[key] + {node}]);
    }

    /** Where a node of the table is. */
    lemma Whereabouts(node: TableLink, r: Ref) returns (k: nat)
      requires Valid() && r in Model().live && Model().live[r] == node
      ensures r.index < slots.slots.Length && slots.slots[r.index].magic == r.magic && slots.slots[r.index].node == node
      ensures node.index == r.index && node.key < |buckets|
      ensures k < |Model().lists[node.key]| && Model().lists[node.key][k] == node
    {
      assert slots.Contents()[r.index] == SlotArray.Entry(r.magic, node);
      var b :| 0 <= b < |Model().lists| && node in Model().lists[b];
      k :| 0 <= k < |Model().lists[b]| && Model().lists[b][k] == node;
    }

    /** What a slot with a nonzero magic refers to. */
    lemma SlotRefers(i: nat)
      requires Valid() && i < slots.slots.Length
      ensures var s := slots.slots[i]; (
                && (s.magic == 0 <==> s.node == null)
                && (s.magic != 0 ==> Ref(i, s.magic) in Model().live && Model().live[Ref(i, s.magic)] == s.node))
    {
      assert slots.Contents()[i] == SlotArray.Entry(slots.slots[i].magic, slots.slots[i].node);
    }

    /** What the delete macros share. */
    method Detach(node: TableLink, ghost r: Ref, ghost k: nat)
      requires Valid() && r in Model().live && Model().live[r] == node && node.index == r.index
      requires node.key < |buckets| && k < |Model().lists[node.key]| && Model().lists[node.key][k] == node
      modifies slots, slots.slots, buckets[node.key], buckets[node.key].prefetch
      modifies buckets[node.key].nodes`prev, buckets[node.key].nodes`next
      ensures Valid() && Enabled(old(Model()), Delete(node.key, r))
      ensures Model() == Apply(old(Model()), Delete(node.key, r))
      ensures node.prev == old(node.prev) && node.next == old(node.next)
    {
      ghost var t, owned := Model(), Owned(buckets);
      DetachNode(slots, buckets, node.index, node.key, node, r, k, t, owned);
      ContentsAre(slots, buckets, Remove(t, node.key, r), owned[node.key := owned[node.key] - {node}]);
    }

    /** A node's slot tells whether the table holds it. */
    lemma SlotDecides(node: TableLink) returns (r: Ref, k: nat)
      requires Valid() && node.index < slots.slots.Length
      ensures node == slots.slots[node.index].node <==> node in Model().live.Values
      ensures r == Ref(node.index, slots.slots[node.index].magic)
      ensures node in Model().live.Values ==> (
                && r in Model().live && Model().live[r] == node && node.key < |buckets|
                && k < |Model().lists[node.key]| && Model().lists[node.key][k] == node)
    {
      SlotRefers(node.index);
      r, k := Ref(node.index, slots.slots[node.index].magic), 0;
      if node in Model().live.Values {
        var q :| q in Model().live && Model().live[q] == node;
        k := Whereabouts(node, q);
      }
    }

    /** MCHASH_DELETE_NODE; `retired` is the node handed to call_rcu. */
    method DeleteNode(node: TableLink) returns (status: bool, retired: TableLink?)
      requires Valid() && node.key < |buckets| && node.index < slots.slots.Length
      modifies slots, slots.slots, buckets[node.key], buckets[node.key].prefetch
      modifies buckets[node.key].nodes`prev, buckets[node.key].nodes`next
      ensures Valid() && status == (node in old(Model()).live.Values)
      ensures node.prev == old(node.prev) && node.next == old(node.next)
      ensures !status ==> Model() == old(Model()) && retired == null
      ensures status ==> retired == node && exists op: Op<TableLink> ::
                op.Delete? && Enabled(old(Model()), op) && old(Model()).live[op.ref] == node
                    && Model() == Apply(old(Model()), op)
    {
      status, retired := false, null;
      ghost var r, k := SlotDecides(node);
      if node == slots.slots[node.index].node {
        ghost var op: Op<TableLink> := Delete(node.key, r);
        Detach(node, r, k);
        assert Enabled(old(Model()), op);
        status, retired := true, node;
      }
    }

    /** The slot of a reference tells whether it is good. */
    lemma RefDecides(ref: Ref) returns (k: nat)
      requires Valid() && ref.index < slots.slots.Length && ref.magic != 0
      ensures ref.magic == slots.slots[ref.index].magic <==> ref in Model().live
      ensures ref in Model().live ==> var node := Model().live[ref]; (
                && slots.slots[ref.index].node == node && node.index == ref.index && node.key < |buckets|
                && k < |Model().lists[node.key]| && Model().lists[node.key][k] == node)
    {
      SlotRefers(ref.index);
      k := 0;
      if ref in Model().live {
        k := Whereabouts(Model().live[ref], ref);
      }
    }

    /** MCHASH_DELETE_NODE_BY_REF. */
    method DeleteNodeByRef(ref: Ref) returns (status: bool, retired: TableLink?)
      requires Valid() && ref.index < slots.slots.Length && ref.magic != 0
      modifies slots, slots.slots, buckets, Prefetches(buckets), Links(Owned(buckets))`prev, Links(Owned(buckets))`next
      ensures Valid() && status == (ref in old(Model()).live)
      ensures !status ==> Model() == old(Model()) && retired == null
      ensures status ==> retired == old(Model()).live[ref] && exists key ::
                Enabled(old(Model()), Delete(key, ref)) && Model() == Apply(old(Model()), Delete(key, ref))
      ensures forall n :: n in old(Model()).live.Values && n == retired ==>
              n.prev == old(n.prev) && n.next == old(n.next)
    {
      status, retired := false, null;
      ghost var k := RefDecides(ref);
      if ref.magic == slots.slots[ref.index].magic {
        var node: TableLink := slots.slots[ref.index].node;
        ghost var key := node.key;
        Detach(node, ref, k);
        assert Enabled(old(Model()), Delete(key, ref));
        status, retired := true, node;
      }
    }

    /** MCHASH_APPEND_NODE. */
    method AppendNode(key: nat, node: TableLink) returns (status: bool, ref: Ref)
      requires Valid() && IsNew(node) && key < |buckets|
      modifies slots, slots.slots, buckets[key], buckets[key].prefetch, buckets[key].nodes`prev,
          buckets[key].nodes`next, node
      ensures Valid() && status == (old(Model()).freeQ != [])
      ensures !status ==> Model() == old(Model())
      ensures status ==> ref == Ref(old(Model()).freeQ[0], old(Model()).magicNo)
      ensures status ==> Enabled(old(Model()), Append(key, node)) && Model() == Apply(old(Model()), Append(key, node))
    {
      status, ref := false, Ref(0, 0);
      if slots.freeHead != -1 {
        ghost var t := Model();
        LastIsPrev(key);
        ref := Attach(key, buckets[key].head.prev, node, null, |t.lists[key]|);
        AppendIsInsertAndCount(t, key, node);
        CountTwice(key);
        status := true;
      }
    }

    method CountTwice(key: nat)
      requires Valid() && key < |buckets|
      modifies {buckets[key]}`count
      ensures Valid()
      ensures Model() == old(Model()).(counts := old(Model()).counts[key := Bump(old(Model()).counts[key], 1)])
    {
      ghost var t, owned := Model(), Owned(buckets);
      CountNode(slots, buckets, key, t, owned);
      ContentsAre(slots, buckets, t.(counts := t.counts[key := Bump(t.counts[key], 1)]), owned);
    }

    /** The head's prev_p is what an insertion at the end names as its predecessor. */
    lemma LastIsPrev(key: nat)
      requires Valid() && key < |buckets|
      ensures buckets[key].IsPrev(Model().lists[key], |Model().lists[key]|, buckets[key].head.prev)
      ensures Model().counts[key] < UINT32
    {
      assert BucketMatches(buckets[key], Model().lists[key], Model().counts[key], Owned(buckets)[key]);
    }

    lemma Successor(key: nat, k: nat)
      requires Valid() && key < |buckets| && k < |Model().lists[key]|
      ensures var l := Model().lists[key]; l[k].next == NodeAt(l, k + 1) && buckets[key].IsPrev(l, k + 1, l[k])
    {
      assert BucketMatches(buckets[key], Model().lists[key], Model().counts[key], Owned(buckets)[key]);
    }

    lemma Predecessor(key: nat, k: nat)
      requires Valid() && key < |buckets| && k < |Model().lists[key]|
      ensures var l := Model().lists[key]; NodeAt(l, k) == l[k] && buckets[key].IsPrev(l, k, l[k].prev)
    {
      assert BucketMatches(buckets[key], Model().lists[key], Model().counts[key], Owned(buckets)[key]);
    }

    /** MCHASH_INSERT_NODE_AFTER; the anchor is the k-th node of bucket key. */
    method InsertNodeAfter(anchor: TableLink, key: nat, node: TableLink, ghost k: nat) returns (status: bool, ref: Ref)
      requires Valid() && IsNew(node) && key < |buckets|
      requires k < |Model().lists[key]| && Model().lists[key][k] == anchor
      modifies slots, slots.slots, buckets[key], buckets[key].prefetch, buckets[key].nodes`prev,
          buckets[key].nodes`next, node
      ensures Valid() && status == (old(Model()).freeQ != [])
      ensures !status ==> Model() == old(Model())
      ensures status ==> ref == Ref(old(Model()).freeQ[0], old(Model()).magicNo)
      ensures status ==>
              Enabled(old(Model()), Insert(key, k + 1, node))
                  && Model() == Apply(old(Model()), Insert(key, k + 1, node))
    {
      status, ref := false, Ref(0, 0);
      if slots.freeHead != -1 {
        Successor(key, k);
        ref := Attach(key, anchor, node, anchor.next, k + 1);
        status := true;
      }
    }

    /** MCHASH_INSERT_NODE_BEFORE; the anchor is the k-th node of bucket key. */
    method InsertNodeBefore(anchor: TableLink, key: nat, node: TableLink, ghost k: nat) returns (status: bool, ref: Ref)
      requires Valid() && IsNew(node) && key < |buckets|
      requires k < |Model().lists[key]| && Model().lists[key][k] == anchor
      modifies slots, slots.slots, buckets[key], buckets[key].prefetch, buckets[key].nodes`prev,
          buckets[key].nodes`next, node
      ensures Valid() && status == (old(Model()).freeQ != [])
      ensures !status ==> Model() == old(Model())
      ensures status ==> ref == Ref(old(Model()).freeQ[0], old(Model()).magicNo)
      ensures status ==>
              Enabled(old(Model()), Insert(key, k, node)) && Model() == Apply(old(Model()), Insert(key, k, node))
    {
      status, ref := false, Ref(0, 0);
      if slots.freeHead != -1 {
        Predecessor(key, k);
        ref := Attach(key, anchor.prev, node, anchor, k);
        status := true;
      }
    }

    /** MCHASH_ACCESS_NODE. */
    method AccessNode(ref: Ref) returns (status: bool, node: TableLink?)
      requires Valid() && ref.index < slots.slots.Length && ref.magic != 0
      ensures status == Access(Model(), ref).Some?
      ensures status ==> Access(Model(), ref) == Some(node)
    {
      status, node := false, null;
      ghost var k := RefDecides(ref);
      if ref.magic == slots.slots[ref.index].magic {
        node := slots.slots[ref.index].node;
        status := true;
      }
    }

    /** The prefetch entries follow the list; first and empty prev_p are null or the head. */
    lemma BucketFollowsList(key: nat)
      requires Valid() && key < |buckets|
      ensures buckets[key].prefetch.Length == MAX_CACHE_NODES
      ensures forall i :: 0 <= i < MAX_CACHE_NODES ==> buckets[key].prefetch[i] == NodeAt(Model().lists[key], i)
      ensures var b, l := buckets[key], Model().lists[key]; (
                && (l == [] ==> b.head.next == null && (b.head.prev == null || b.head.prev == b.head))
                && (l != [] ==>
                      && b.head.next == l[0] && b.head.prev == l[|l| - 1]
                      && (l[0].prev == null || l[0].prev == b.head)))
    {
      assert BucketMatches(buckets[key], Model().lists[key], Model().counts[key], Owned(buckets)[key]);
    }

    /** mchash_table_delete: an error exactly when the table still holds nodes. */
    method DeleteTable() returns (ok: bool)
      requires Valid()
      ensures ok == (Model().live == map[])
    {
      ok := slots.active == 0;
      assert slots.active == |Model().live|;
    }

    /** MCHASH_BUCKET_NODE_COUNT. */
    method BucketNodeCount(key: nat) returns (count: nat)
      requires Valid() && key < |buckets|
      ensures count == Model().counts[key]
    {
      count := buckets[key].count;
    }

    /** MCHASH_TABLE_SCAN over MCHASH_BUCKET_SCAN: the key and node of every round of the body. */
    method TableScan() returns (seen: seq<(nat, TableLink)>)
      requires Valid()
      ensures seen == Scanned(Model().lists, |Model().lists|)
      ensures forall i :: 0 <= i < |seen| ==> seen[i].1.key == seen[i].0
    {
      seen := ScanBuckets(buckets, Model().lists, Model().counts, Owned(buckets));
      TableScanned(Model());
    }
  }
}
