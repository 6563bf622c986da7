/**
 The doubly linked queue of ofcdriver/include/dll.h and ofcdriver/utils/dll.c, without its debug
 configuration, and the scan that lets its body delete nodes.
 */
module DllQueue {
  import opened Common
  import opened DynScan

  /** dll_queue_node. */
  class Node {
    var prev: Node?
    var next: Node?

    constructor ()
      ensures prev == null && next == null
    {
      prev, next := null, null;
    }
  }

  function NodeAt(s: seq<Node>, i: int): (r: Node?) {
    if 0 <= i < |s| then s[i] else null
  }

  /** What a uint32_t counter shows for n. */
  function Wrapped(n: nat): (r: nat)
    ensures r < UINT32
  {
    n % UINT32
  }

  lemma WrappedStep(n: nat)
    ensures Wrapped(n + 1) == Increment(Wrapped(n))
    ensures n > 0 ==> Wrapped(n - 1) == Decrement(Wrapped(n))
  {
  }

  lemma CountedTwice(n: nat)
    requires 0 < n < UINT32
    ensures Wrapped(n) == n && (n + n) % UINT32 == Wrapped(2 * n) != Wrapped(n)
  {
  }

  class Queue {
    const head: Node
    var count: nat
    ghost var list: seq<Node>
    ghost var nodes: set<Node>   // the head and the nodes of the list

    /** pNext from the head runs through l and ends in null. */
    ghost predicate NextChain(l: seq<Node>)
      reads head`next, l`next
    {
      head.next == NodeAt(l, 0) && forall i {:trigger l[i].next} :: 0 <= i < |l| ==> l[i].next == NodeAt(l, i + 1)
    }

    /** pPrev from the head runs back through l and ends in null. */
    ghost predicate PrevChain(l: seq<Node>)
      reads head`prev, l`prev
    {
      head.prev == NodeAt(l, |l| - 1) && forall i {:trigger l[i].prev} :: 0 <= i < |l| ==> l[i].prev == NodeAt(l, i - 1)
    }

    /** The nodes of l are pairwise different, none is the head, and ns holds them all and the head. */
    ghost predicate Members(l: seq<Node>, ns: set<Node>) {
      Distinct(l) && head in ns && forall i :: 0 <= i < |l| ==> l[i] in ns && l[i] != head
    }

    ghost predicate ShapeOf(l: seq<Node>, ns: set<Node>)
      reads head`next, head`prev, l`next, l`prev
    {
      Members(l, ns) && NextChain(l) && PrevChain(l)
    }

    ghost predicate Shape()
      reads this`list, this`nodes, head`next, head`prev, list`next, list`prev
    {
      ShapeOf(list, nodes)
    }

    ghost predicate Valid()
      reads this, head`next, head`prev, list`next, list`prev
    {
      Shape() && count == Wrapped(|list|)
    }

    /** dll_queue_init_list. */
    constructor ()
      ensures Valid() && list == [] && nodes == {head} && fresh(head)
    {
      head := new Node();
      count := 0;
      list, nodes := [], {head};
    }

    lemma InsertKeepsNext(l: seq<Node>, ns: set<Node>, k: nat, node: Node, before: Node)
      requires Members(l, ns) && node !in ns && k <= |l|
      requires before == (if k == 0 then head else l[k - 1])
      requires node.next == NodeAt(l, k) && before.next == node
      requires forall i {:trigger l[i].next} :: 0 <= i < |l| && l[i] != before ==> l[i].next == NodeAt(l, i + 1)
      requires head != before ==> head.next == NodeAt(l, 0)
      ensures NextChain(InsertAt(l, k, node))
    {
      var r := InsertAt(l, k, node);
      forall i | 0 <= i < |r|
        ensures r[i].next == NodeAt(r, i + 1)
      {
        if i < k {
          assert r[i] == l[i];
        } else if i > k {
          assert r[i] == l[i - 1];
        }
      }
    }

    lemma InsertKeepsPrev(l: seq<Node>, ns: set<Node>, k: nat, node: Node, after: Node)
      requires Members(l, ns) && node !in ns && k <= |l|
      requires after == (if k == |l| then head else l[k])
      requires node.prev == NodeAt(l, k - 1) && after.prev == node
      requires forall i {:trigger l[i].prev} :: 0 <= i < |l| && l[i] != after ==> l[i].prev == NodeAt(l, i - 1)
      requires head != after ==> head.prev == NodeAt(l, |l| - 1)
      ensures PrevChain(InsertAt(l, k, node))
    {
      var r := InsertAt(l, k, node);
      forall i | 0 <= i < |r|
        ensures r[i].prev == NodeAt(r, i - 1)
      {
        if i < k {
          assert r[i] == l[i];
        } else if i > k {
          assert r[i] == l[i - 1];
        }
      }
      if k < |l| {
        assert r[|r| - 1] == l[|l| - 1];
      }
    }

    method LinkBefore(prev: Node?, node: Node, next: Node?, ghost k: nat)
      requires Shape() && node !in nodes && k <= |list| && prev == NodeAt(list, k - 1) && next == NodeAt(list, k)
      modifies nodes`next, node`next, node`prev
      ensures NextChain(InsertAt(list, k, node)) && node.prev == prev
    {
      node.next := next;
      node.prev := prev;
      var before: Node := if prev == null then head else prev;
      before.next := node;
      InsertKeepsNext(list, nodes, k, node, before);
    }

    method LinkBetween(prev: Node?, node: Node, next: Node?, ghost k: nat)
      requires Shape() && node !in nodes && k <= |list| && prev == NodeAt(list, k - 1) && next == NodeAt(list, k)
      modifies nodes`prev, nodes`next, node
      ensures NextChain(InsertAt(list, k, node)) && PrevChain(InsertAt(list, k, node))
    {
      LinkBefore(prev, node, next, k);
      var after: Node := if next == null then head else next;
      after.prev := node;
      InsertKeepsPrev(list, nodes, k, node, after);
    }

    lemma InsertShape(l: seq<Node>, ns: set<Node>, k: nat, node: Node)
      requires Members(l, ns) && node !in ns && k <= |l|
      requires NextChain(InsertAt(l, k, node)) && PrevChain(InsertAt(l, k, node))
      ensures ShapeOf(InsertAt(l, k, node), ns + {node})
    {
      var r := InsertAt(l, k, node);
      assert forall i :: 0 <= i < k ==> r[i] == l[i];
      assert forall i :: k < i < |r| ==> r[i] == l[i - 1];
    }

    lemma RemoveShape(l: seq<Node>, ns: set<Node>, k: nat)
      requires Members(l, ns) && k < |l|
      requires NextChain(RemoveAt(l, k)) && PrevChain(RemoveAt(l, k))
      ensures ShapeOf(RemoveAt(l, k), ns - {l[k]})
    {
      var r := RemoveAt(l, k);
      assert forall i :: 0 <= i < k ==> r[i] == l[i];
      assert forall i :: k <= i < |r| ==> r[i] == l[i + 1];
    }

    /** dll_queue_insert_in_middle; k is where the node goes. */
    method InsertInMiddle(prev: Node?, node: Node, next: Node?, ghost k: nat)
      requires Valid() && node !in nodes && k <= |list| && prev == NodeAt(list, k - 1) && next == NodeAt(list, k)
      modifies this`list, this`count, this`nodes, nodes`prev, nodes`next, node
      ensures Valid() && list == InsertAt(old(list), k, node) && nodes == old(nodes) + {node}
    {
      WrappedStep(|list|);
      LinkBetween(prev, node, next, k);
      InsertShape(list, nodes, k, node);
      count, list, nodes := Increment(count), InsertAt(list, k, node), nodes + {node};
    }

    /** DLL_QUEUE_APPEND_NODE. */
    method Append(node: Node)
      requires Valid() && node !in nodes
      modifies this`list, this`count, this`nodes, nodes`prev, nodes`next, node
      ensures Valid() && list == old(list) + [node] && nodes == old(nodes) + {node}
    {
      InsertInMiddle(head.prev, node, null, |list|);
    }

    /** DLL_QUEUE_PREPEND_NODE. */
    method Prepend(node: Node)
      requires Valid() && node !in nodes
      modifies this`list, this`count, this`nodes, nodes`prev, nodes`next, node
      ensures Valid() && list == [node] + old(list) && nodes == old(nodes) + {node}
    {
      InsertInMiddle(null, node, head.next, 0);
    }

    /** dll_queue_insert_node_at_list_position; positions count from 1. */
    method InsertAtPosition(node: Node, pos: nat) returns (ok: bool)
      requires Valid() && node !in nodes && |list| < UINT32
      modifies this`list, this`count, this`nodes, nodes`prev, nodes`next, node
      ensures Valid() && ok == (1 <= pos <= Increment(|old(list)|))
      ensures ok ==> list == InsertAt(old(list), pos - 1, node) && nodes == old(nodes) + {node}
      ensures !ok ==> list == old(list) && nodes == old(nodes)
    {
      ok := pos != 0 && pos <= Increment(count);
      if ok {
        if pos == 1 {
          InsertInMiddle(null, node, head.next, 0);
        } else if pos == Increment(count) {
          InsertInMiddle(head.prev, node, null, |list|);
        } else {
          var at := Walk(pos - 1);
          InsertInMiddle(at, node, at.next, pos - 1);
        }
      }
    }

    /** The loop of dll_queue_insert_node_at_list_position: to the n-th node. */
    method Walk(n: nat) returns (at: Node)
      requires Valid() && 1 <= n <= |list|
      ensures at == list[n - 1]
    {
      var i := 0;
      var link := head.next;
      while link != null
        invariant i < n && link == NodeAt(list, i)
        decreases n - i
      {
        i := i + 1;
        if i == n {
          break;
        }
        link := link.next;
      }
      at := link;
    }

    lemma RemoveKeepsNext(l: seq<Node>, ns: set<Node>, k: nat, before: Node)
      requires Members(l, ns) && k < |l|
      requires before == (if k == 0 then head else l[k - 1])
      requires before.next == NodeAt(l, k + 1)
      requires forall i {:trigger l[i].next} :: 0 <= i < |l| && l[i] != before && i != k ==>
               l[i].next == NodeAt(l, i + 1)
      requires head != before ==> head.next == NodeAt(l, 0)
      ensures NextChain(RemoveAt(l, k))
    {
      var r := RemoveAt(l, k);
      forall i | 0 <= i < |r|
        ensures r[i].next == NodeAt(r, i + 1)
      {
        if i < k {
          assert r[i] == l[i];
        } else {
          assert r[i] == l[i + 1];
        }
      }
    }

    lemma RemoveKeepsPrev(l: seq<Node>, ns: set<Node>, k: nat, after: Node)
      requires Members(l, ns) && k < |l|
      requires after == (if k == |l| - 1 then head else l[k + 1])
      requires after.prev == NodeAt(l, k - 1)
      requires forall i {:trigger l[i].prev} :: 0 <= i < |l| && l[i] != after && i != k ==>
               l[i].prev == NodeAt(l, i - 1)
      requires head != after ==> head.prev == NodeAt(l, |l| - 1)
      ensures PrevChain(RemoveAt(l, k))
    {
      var r := RemoveAt(l, k);
      forall i | 0 <= i < |r|
        ensures r[i].prev == NodeAt(r, i - 1)
      {
        if i < k {
          assert r[i] == l[i];
        } else {
          assert r[i] == l[i + 1];
        }
      }
      if r != [] {
        assert r[|r| - 1] == l[if k == |r| then |r| - 1 else |r|];
      }
    }

    /** The stores of dll_queue_delete_in_middle on a node of the list. */
    method UnlinkStores(node: Node, ghost k: nat)
      requires Shape() && k < |list| && list[k] == node
      modifies nodes`prev, nodes`next
      ensures NextChain(RemoveAt(list, k)) && PrevChain(RemoveAt(list, k)) && node.prev == null && node.next == null
    {
      var prev, next := node.prev, node.next;
      var before: Node := if prev == null then head else prev;
      before.next := next;
      var after: Node := if next == null then head else next;
      after.prev := if prev == null then null else before;
      node.next := null;
      node.prev := null;
      RemoveKeepsNext(list, nodes, k, before);
      RemoveKeepsPrev(list, nodes, k, after);
    }

    /** A node outside the queue whose pointers are clear. */
    ghost predicate Loose(node: Node)
      reads this`nodes, node
    {
      node !in nodes && node.prev == null && node.next == null
    }

    method DeleteLinked(node: Node, ghost k: nat)
      requires Valid() && k < |list| && list[k] == node
      modifies this`list, this`count, this`nodes, nodes`prev, nodes`next
      ensures Valid() && list == RemoveAt(old(list), k) && nodes == old(nodes) - {node} && Loose(node)
    {
      WrappedStep(|list|);
      UnlinkStores(node, k);
      RemoveShape(list, nodes, k);
      count, list, nodes := Decrement(count), RemoveAt(list, k), nodes - {node};
    }

    /** DLL_QUEUE_DELETE_NODE: a node that was already deleted is left alone. */
    method Delete(node: Node)
      requires Valid() && (node in list || Loose(node))
      modifies this`list, this`count, this`nodes, nodes`prev, nodes`next
      ensures Valid() && list == Without(old(list), node) && nodes == old(nodes) - {node} && Loose(node)
    {
      if node.prev == null && node.next == null && head.next != node {
        return;
      }
      ghost var k :| 0 <= k < |list| && list[k] == node;
      WithoutAt(list, k);
      DeleteLinked(node, k);
    }

    /** The nodes of all are in the queue or were deleted from it. */
    ghost predicate Accounts(all: seq<Node>)
      reads this`list, this`nodes, all
    {
      forall i :: 0 <= i < |all| ==> all[i] in list || Loose(all[i])
    }

    /** One round of a scan's body: DLL_QUEUE_DELETE_NODE on each of gone. */
    method DeleteAll(gone: seq<Node>, ghost all: seq<Node>)
      requires Valid() && Accounts(all) && forall n :: n in gone ==> n in all
      modifies this`list, this`count, this`nodes, nodes`prev, nodes`next
      ensures Valid() && list == Minus(old(list), gone) && nodes <= old(nodes) && Accounts(all)
    {
      MinusNothing(list);
      for i := 0 to |gone|
        invariant Valid() && list == Minus(old(list), gone[..i]) && nodes <= old(nodes) && Accounts(all)
      {
        MinusPrefix(old(list), gone, i);
        DeleteOne(gone[i], all);
      }
      assert gone[..|gone|] == gone;
    }

    method DeleteOne(node: Node, ghost all: seq<Node>)
      requires Valid() && Accounts(all) && node in all
      modifies this`list, this`count, this`nodes, nodes`prev, nodes`next
      ensures Valid() && list == Without(old(list), node) && nodes <= old(nodes) && Accounts(all)
    {
      Delete(node);
    }

    /** ahead ends the list. */
    ghost predicate EndsWith(ahead: seq<Node>)
      reads this`list
    {
      |ahead| <= |list| && list[|list| - |ahead|..] == ahead
    }

    /**
     DLL_QUEUE_DYN_SCAN whose body deletes the nodes body(i) in round i, each a node of the initial
     list, perhaps deleted before.
     */
    method Scan(body: nat -> seq<Node>) returns (visited: seq<Node>)
      requires Valid() && forall i, n :: n in body(i) ==> n in list
      modifies this`list, this`count, this`nodes, nodes`prev, nodes`next
      ensures Valid() && visited == ScanOf(old(list), body)
      ensures list == Minus(old(list), Deleted(body, |visited|))
    {
      visited := [];
      ghost var was: seq<Node>, ahead: seq<Node> := list, if list == [] then [] else list[1..];
      MinusNothing(list);
      var pNode := head.next;
      var pTmp := if pNode == null then null else pNode.next;
      while pNode != null
        invariant Valid() && nodes <= old(nodes) && list == Minus(was, Deleted(body, |visited|)) && Accounts(was)
        invariant pTmp == NodeAt(ahead, 0) && EndsWith(ahead)
        invariant if pNode == null then visited == ScanOf<Node>(was, body)
                  else visited + Visits<Node>(pNode, ahead, body, |visited|) == ScanOf<Node>(was, body)
        decreases if pNode == null then 0 else 1 + |ahead|
      {
        var node: Node := pNode;
        VisitsStep<Node>(ScanOf<Node>(was, body), visited, node, ahead, body);
        MinusRound(was, body, |visited|);
        pNode, pTmp, ahead := Round(pTmp, body(|visited|), was, ahead);
        visited := visited + [node];
      }
    }

    /** The body, and the loop's step to the saved node. */
    method Round(pTmp: Node?, gone: seq<Node>, ghost was: seq<Node>, ghost ahead: seq<Node>)
      returns (node: Node?, tmp: Node?, ghost rest: seq<Node>)
      requires Valid() && Accounts(was) && (forall n :: n in gone ==> n in was) && (forall n :: n in list ==> n in was)
      requires pTmp == NodeAt(ahead, 0) && EndsWith(ahead)
      modifies this`list, this`count, this`nodes, nodes`prev, nodes`next
      ensures Valid() && list == Minus(old(list), gone) && nodes <= old(nodes) && Accounts(was)
      ensures node == pTmp && rest == (if ahead == [] then [] else Rest(ahead, gone))
      ensures tmp == NodeAt(rest, 0) && EndsWith(rest)
    {
      if ahead != [] {
        SuffixOfMinus(list, ahead, gone);
      }
      DeleteAll(gone, was);
      node, rest := pTmp, if ahead == [] then [] else Rest(ahead, gone);
      tmp := if node == null then null else node.next;
    }

    lemma ConcatKeepsChains(l: seq<Node>, m: seq<Node>)
      requires l != [] && m != [] && head.next == m[0] && head.prev == l[|l| - 1]
      requires forall i {:trigger m[i].next} :: 0 <= i < |m| ==> m[i].next == if i == |m| - 1 then l[0] else m[i + 1]
      requires forall i {:trigger l[i].next} :: 0 <= i < |l| ==> l[i].next == NodeAt(l, i + 1)
      requires forall i {:trigger m[i].prev} :: 0 <= i < |m| ==> m[i].prev == NodeAt(m, i - 1)
      requires forall i {:trigger l[i].prev} :: 0 <= i < |l| ==> l[i].prev == if i == 0 then m[|m| - 1] else l[i - 1]
      ensures NextChain(m + l) && PrevChain(m + l)
    {
    }

    /** The pointer stores of dll_queue_prepend_list, and the counter copied into an empty queue. */
    method PrependStores(other: Queue)
      requires Valid() && other.Valid() && nodes !! other.nodes && other.list != []
      requires |list| < UINT32 && |other.list| < UINT32
      modifies this`count, nodes`prev, nodes`next, other.nodes`prev, other.nodes`next
      ensures NextChain(other.list + list) && PrevChain(other.list + list)
      ensures count == if list == [] then other.count else old(count)
    {
      if count == 0 {
        head.next := other.head.next;
        head.prev := other.head.prev;
        count := other.count;
        assert other.list + list == other.list;
      } else {
        var first: Node, last: Node := head.next, other.head.prev;
        first.prev := last;
        last.next := first;
        head.next := other.head.next;
        ConcatKeepsChains(list, other.list);
      }
    }

    /** The counter after both of the program's assignments to it. */
    method CountBoth(more: nat, ghost m: nat, ghost n: nat)
      requires 0 < n < UINT32 && m < UINT32 && more == n && count == if m == 0 then n else m
      modifies this`count
      ensures count == Wrapped(if m == 0 then 2 * n else m + n)
      ensures count == Wrapped(m + n) <==> m != 0
    {
      CountedTwice(n);
      count := (count + more) % UINT32;
    }

    /** The list as the stores leave it, and the other queue emptied. */
    method PrependNodes(other: Queue)
      requires Valid() && other.Valid() && nodes !! other.nodes && other.list != []
      requires |list| < UINT32 && |other.list| < UINT32
      modifies this, other, nodes`prev, nodes`next, other.nodes`prev, other.nodes`next
      ensures Shape() && list == old(other.list) + old(list) && other.Valid() && other.list == []
      ensures count == if old(list) == [] then |old(other.list)| else |old(list)|
    {
      PrependStores(other);
      list, nodes := other.list + list, nodes + (other.nodes - {other.head});
      other.Clear();
    }

    /** dll_queue_init_list on a queue in use. */
    method Clear()
      modifies this, head`next, head`prev
      ensures Valid() && list == [] && nodes == {head}
    {
      head.next, head.prev, count := null, null, 0;
      list, nodes := [], {head};
    }

    /**
     dll_queue_prepend_list: the nodes of other, then those of this.  When this queue is empty the
     counter is first copied and then added to.
     */
    method PrependList(other: Queue)
      requires Valid() && other.Valid() && nodes !! other.nodes
      requires |list| < UINT32 && |other.list| < UINT32
      modifies this, other, nodes`prev, nodes`next, other.nodes`prev, other.nodes`next
      ensures Shape() && list == old(other.list) + old(list) && other.Valid() && other.list == []
      ensures count == Wrapped(if old(list) == [] then 2 * |list| else |list|)
      ensures Valid() <==> old(list) != [] || old(other.list) == []
    {
      var more := other.count;
      if more == 0 {
        return;
      }
      ghost var m, n := |list|, |other.list|;
      PrependNodes(other);
      CountBoth(more, m, n);
    }
  }
}
