/**
 One hash bucket on the heap (ofcdriver/include/mchash.h, ofcdriver/utils/mchash.c): a doubly
 linked list that ends in null at both ends, with a head node and a ten-entry copy of its front.
 */
module Bucket {
  import opened Common

  const MAX_CACHE_NODES := 10

  /** mchash_table_link: the links, and where its table keeps the node. */
  class TableLink {
    var prev: TableLink?
    var next: TableLink?
    var index: nat
    var key: nat

    constructor ()
      ensures prev == null && next == null && index == 0 && key == 0
    {
      prev, next, index, key := null, null, 0, 0;
    }
  }

  /** The i-th node of a list, or null at its end. */
  function NodeAt(s: seq<TableLink>, i: nat): (r: TableLink?) {
    if i < |s| then s[i] else null
  }

  class Bucket {
    const head: TableLink
    var count: nat
    const prefetch: array<TableLink?>
    ghost var list: seq<TableLink>
    ghost var nodes: set<TableLink>   // the head and the nodes of the list


    /** next_p from the head runs through l and ends in null. */
    ghost predicate NextChain(l: seq<TableLink>)
      reads head`next, l`next
    {
      head.next == NodeAt(l, 0) && forall i {:trigger l[i].next} :: 0 <= i < |l| ==> l[i].next == NodeAt(l, i + 1)
    }

    /**
     prev_p runs back through l, except in two places: the first node's prev_p, and the head's
     prev_p when l is empty, are null or the head itself.
     */
    ghost predicate PrevChain(l: seq<TableLink>)
      reads head`prev, l`prev
    {
      && (forall i {:trigger l[i].prev} :: 1 <= i < |l| ==> l[i].prev == l[i - 1])
      && (if l == [] then head.prev == null || head.prev == head
          else head.prev == l[|l| - 1] && (l[0].prev == null || l[0].prev == head))
    }

    /** What an insertion at k names as its predecessor. */
    ghost predicate IsPrev(l: seq<TableLink>, k: nat, prev: TableLink?)
      requires k <= |l|
    {
      if k == 0 then prev == null || prev == head else prev == l[k - 1]
    }

    /** The nodes of l are pairwise different, none is the head, and ns holds them all and the head. */
    ghost predicate Members(l: seq<TableLink>, ns: set<TableLink>) {
      Distinct(l) && head in ns && forall i :: 0 <= i < |l| ==> l[i] in ns && l[i] != head
    }

    ghost predicate ShapeOf(l: seq<TableLink>, ns: set<TableLink>)
      reads head`next, head`prev, l`next, l`prev
    {
      Members(l, ns) && NextChain(l) && PrevChain(l)
    }

    ghost predicate Shape()
      reads this`list, this`nodes, head`next, head`prev, list`next, list`prev
    {
      ShapeOf(list, nodes)
    }

    /** The prefetch entries are the first nodes of the list in order, then zeros. */
    ghost predicate Prefetched()
      reads this`list, prefetch
    {
      prefetch.Length == MAX_CACHE_NODES && forall i :: 0 <= i < MAX_CACHE_NODES ==> prefetch[i] == NodeAt(list, i)
    }

    ghost predicate Valid()
      reads this, head`next, head`prev, list`next, list`prev, prefetch
    {
      Shape() && Prefetched() && count < UINT32
    }

    constructor ()
      ensures Valid() && list == [] && nodes == {head} && count == 0 && fresh(this) && fresh(head) && fresh(prefetch)
    {
      head := new TableLink();
      prefetch := new TableLink?[MAX_CACHE_NODES](_ => null);
      count := 0;
      list, nodes := [], {head};
    }

    /** mchash_update_prefetch_nodes. */
    method UpdatePrefetchNodes()
      requires Shape() && prefetch.Length == MAX_CACHE_NODES
      modifies prefetch
      ensures Shape() && Prefetched()
    {
      var node := head.next;
      var ii := 0;
      while ii < MAX_CACHE_NODES && node != null
        invariant ii <= MAX_CACHE_NODES && node == NodeAt(list, ii)
        invariant forall i :: 0 <= i < ii ==> prefetch[i] == NodeAt(list, i)
      {
        prefetch[ii] := node;
        node := node.next;
        ii := ii + 1;
      }
      while ii < MAX_CACHE_NODES
        invariant ii <= MAX_CACHE_NODES && (ii < MAX_CACHE_NODES ==> |list| <= ii)
        invariant forall i :: 0 <= i < ii ==> prefetch[i] == NodeAt(list, i)
      {
        prefetch[ii] := null;
        ii := ii + 1;
      }
    }

    lemma InsertKeepsNext(l: seq<TableLink>, ns: set<TableLink>, k: nat, node: TableLink, before: TableLink)
      requires Members(l, ns) && node !in ns && k <= |l|
      requires before == (if k == 0 then head else l[k - 1])
      requires node.next == NodeAt(l, k) && before.next == node
      requires forall i {:trigger l[i].next} :: 0 <= i < |l| && l[i] != before ==> l[i].next == NodeAt(l, i + 1)
      requires head != before ==> head.next == NodeAt(l, 0)
      ensures NextChain(InsertAt(l, k, node))
    {
      var r := InsertAt(l, k, node);
      forall i | 0 <= i < |r|
        ensures r[i].next == NodeAt(r, i + 1)
      {
        if i < k {
          assert r[i] == l[i];
        } else if i > k {
          assert r[i] == l[i - 1];
        }
      }
    }

    lemma InsertKeepsPrev(l: seq<TableLink>, ns: set<TableLink>, k: nat, node: TableLink, prev: TableLink?,
        after: TableLink)
      requires Members(l, ns) && node !in ns && k <= |l|
      requires IsPrev(l, k, prev)
      requires after == (if k == |l| then head else l[k])
      requires node.prev == prev && after.prev == node
      requires forall i {:trigger l[i].prev} :: 1 <= i < |l| && l[i] != after ==> l[i].prev == l[i - 1]
      requires l != [] && l[0] != after ==> l[0].prev == null || l[0].prev == head
      requires l != [] && head != after ==> head.prev == l[|l| - 1]
      ensures PrevChain(InsertAt(l, k, node))
    {
      var r := InsertAt(l, k, node);
      forall i | 1 <= i < |r|
        ensures r[i].prev == r[i - 1]
      {
        if i < k {
          assert r[i] == l[i];
        } else if i > k {
          assert r[i] == l[i - 1];
        }
      }
      if 0 < k {
        assert r[0] == l[0];
      }
      if k < |l| {
        assert r[|r| - 1] == l[|l| - 1];
      }
    }

    /** Filling the new node and publishing it: from here on readers see it. */
    method PublishNode(prev: TableLink?, node: TableLink, next: TableLink?, ghost k: nat)
      requires Shape() && node !in nodes
      requires k <= |list| && next == NodeAt(list, k) && IsPrev(list, k, prev)
      modifies nodes`next, node`prev, node`next
      ensures NextChain(InsertAt(list, k, node)) && node.prev == prev
    {
      node.next := next;
      node.prev := prev;
      var before: TableLink := if prev == null then head else prev;
      before.next := node;
      InsertKeepsNext(list, nodes, k, node, before);
    }

    /** The pointer stores of an insertion; a null neighbour stands for the head. */
    method LinkBetween(prev: TableLink?, node: TableLink, next: TableLink?, ghost k: nat)
      requires Shape() && node !in nodes
      requires k <= |list| && next == NodeAt(list, k) && IsPrev(list, k, prev)
      modifies nodes`prev, nodes`next, node`prev, node`next
      ensures NextChain(InsertAt(list, k, node)) && PrevChain(InsertAt(list, k, node))
    {
      PublishNode(prev, node, next, k);
      var after: TableLink := if next == null then head else next;
      after.prev := node;
      InsertKeepsPrev(list, nodes, k, node, prev, after);
    }

    lemma InsertShape(l: seq<TableLink>, ns: set<TableLink>, k: nat, node: TableLink)
      requires Members(l, ns) && node !in ns && k <= |l|
      requires NextChain(InsertAt(l, k, node)) && PrevChain(InsertAt(l, k, node))
      ensures ShapeOf(InsertAt(l, k, node), ns + {node})
    {
      var r := InsertAt(l, k, node);
      assert forall i :: 0 <= i < k ==> r[i] == l[i];
      assert forall i :: k < i < |r| ==> r[i] == l[i - 1];
    }

    lemma RemoveShape(l: seq<TableLink>, ns: set<TableLink>, k: nat)
      requires Members(l, ns) && k < |l|
      requires NextChain(RemoveAt(l, k)) && PrevChain(RemoveAt(l, k))
      ensures ShapeOf(RemoveAt(l, k), ns - {l[k]})
    {
      var r := RemoveAt(l, k);
      assert forall i :: 0 <= i < k ==> r[i] == l[i];
      assert forall i :: k <= i < |r| ==> r[i] == l[i + 1];
    }

    /** mchash_insert_node_in_middle. */
    method InsertNodeInMiddle(prev: TableLink?, node: TableLink, next: TableLink?, ghost k: nat)
      requires Valid() && node !in nodes
      requires k <= |list| && next == NodeAt(list, k)
      requires IsPrev(list, k, prev)
      modifies this`list, this`count, prefetch, this`nodes, nodes`prev, nodes`next, node`prev, node`next
      ensures Valid() && list == InsertAt(old(list), k, node) && nodes == old(nodes) + {node}
      ensures count == Increment(old(count))
    {
      LinkBetween(prev, node, next, k);
      InsertShape(list, nodes, k, node);
      list, nodes := InsertAt(list, k, node), nodes + {node};
      UpdatePrefetchNodes();
      count := Increment(count);
    }

    lemma RemoveKeepsNext(l: seq<TableLink>, ns: set<TableLink>, k: nat, before: TableLink)
      requires Members(l, ns) && k < |l|
      requires before == (if k == 0 then head else l[k - 1])
      requires before.next == NodeAt(l, k + 1)
      requires forall i {:trigger l[i].next} :: 0 <= i < |l| && l[i] != before ==> l[i].next == NodeAt(l, i + 1)
      requires head != before ==> head.next == NodeAt(l, 0)
      ensures NextChain(RemoveAt(l, k))
    {
      var r := RemoveAt(l, k);
      forall i | 0 <= i < |r|
        ensures r[i].next == NodeAt(r, i + 1)
      {
        if i < k {
          assert r[i] == l[i];
        } else {
          assert r[i] == l[i + 1];
        }
      }
    }

    lemma RemoveKeepsPrev(l: seq<TableLink>, ns: set<TableLink>, k: nat, before: TableLink, after: TableLink)
      requires Members(l, ns) && k < |l|
      requires before == (if k == 0 then head else l[k - 1])
      requires after == (if k == |l| - 1 then head else l[k + 1])
      requires after.prev == before
      requires forall i {:trigger l[i].prev} :: 1 <= i < |l| && l[i] != after ==> l[i].prev == l[i - 1]
      requires l != [] && l[0] != after ==> l[0].prev == null || l[0].prev == head
      requires l != [] && head != after ==> head.prev == l[|l| - 1]
      ensures PrevChain(RemoveAt(l, k))
    {
      var r := RemoveAt(l, k);
      forall i | 1 <= i < |r|
        ensures r[i].prev == r[i - 1]
      {
        if i < k {
          assert r[i] == l[i];
        } else {
          assert r[i] == l[i + 1];
        }
      }
      if r != [] {
        assert r[0] == l[if k == 0 then 1 else 0];
        assert r[|r| - 1] == l[if k == |r| then |r| - 1 else |r|];
      }
    }

    /** The pointer stores both delete macros share; the node's own pointers stay as they were. */
    method UnlinkStores(node: TableLink, ghost k: nat)
      requires Shape() && k < |list| && list[k] == node
      modifies nodes`prev, nodes`next
      ensures NextChain(RemoveAt(list, k)) && PrevChain(RemoveAt(list, k))
      ensures node.prev == old(node.prev) && node.next == old(node.next)
    {
      var next := node.next;
      var before: TableLink := if node.prev == null then head else node.prev;
      assert before == if k == 0 then head else list[k - 1];
      before.next := next;
      var after: TableLink := if next == null then head else next;
      after.prev := before;
      RemoveKeepsNext(list, nodes, k, before);
      RemoveKeepsPrev(list, nodes, k, before, after);
    }

    /** The bucket's part of a delete. */
    method Unlink(node: TableLink, ghost k: nat)
      requires Valid() && k < |list| && list[k] == node
      modifies this`list, this`count, prefetch, this`nodes, nodes`prev, nodes`next
      ensures node.prev == old(node.prev) && node.next == old(node.next)
      ensures Valid() && list == RemoveAt(old(list), k) && nodes == old(nodes) - {node}
      ensures count == Decrement(old(count))
    {
      UnlinkStores(node, k);
      RemoveShape(list, nodes, k);
      list, nodes := RemoveAt(list, k), nodes - {node};
      count := Decrement(count);
      UpdatePrefetchNodes();
    }

    /** MCHASH_BUCKET_SCAN on a bucket nobody is changing: the nodes the loop body sees, in order. */
    method Scan() returns (seen: seq<TableLink>)
      requires Valid()
      ensures seen == list
    {
      seen := [];
      var link := head.next;
      while link != null
        invariant |seen| <= |list| && seen == list[..|seen|] && link == NodeAt(list, |seen|)
        decreases |list| - |seen|
      {
        seen := seen + [link];
        link := link.next;
      }
    }
  }
}
