/**
 DLL_QUEUE_DYN_SCAN (ofcdriver/include/dll.h, lines 200 to 207) on values: which nodes it visits when
 round i of its body deletes the nodes body(i).  dll_queue_delete_in_middle clears a deleted node's
 pointers, so a scan that has saved a node in pTmp ends there if the body deletes that node.
 */
module DynScan {
  import opened Common

  /** s without the nodes in gone. */
  function Minus<N(==)>(s: seq<N>, gone: seq<N>): (r: seq<N>)
    ensures |r| <= |s|
    ensures forall x :: x in s && x !in gone ==> x in r
    ensures forall x :: x in r ==> x in s && x !in gone
  {
    if s == [] then [] else (if s[0] in gone then [] else [s[0]]) + Minus(s[1..], gone)
  }

  /** What lies ahead of pTmp once round i is over. */
  function Rest<N(==)>(ahead: seq<N>, gone: seq<N>): (r: seq<N>)
    requires ahead != []
    ensures |r| < |ahead|
  {
    if ahead[0] in gone then [] else Minus(ahead[1..], gone)
  }

  /** The rounds from i on: pNode is node, and ahead, whose first is pTmp, follows it in the queue. */
  function Visits<N(==)>(node: N, ahead: seq<N>, body: nat -> seq<N>, i: nat): (r: seq<N>)
    ensures 1 <= |r| <= 1 + |ahead| && r[0] == node
    decreases |ahead|
  {
    [node] + if ahead == [] then [] else Visits(ahead[0], Rest(ahead, body(i)), body, i + 1)
  }

  function ScanOf<N(==)>(l: seq<N>, body: nat -> seq<N>): (r: seq<N>) {
    if l == [] then [] else Visits(l[0], l[1..], body, 0)
  }

  /** Everything the first k rounds delete. */
  function Deleted<N>(body: nat -> seq<N>, k: nat): (r: seq<N>) {
    if k == 0 then [] else Deleted(body, k - 1) + body(k - 1)
  }

  /** No round deletes a node the scan has not reached, save a pTmp that is the last of all. */
  ghost predicate CarefulFrom<N>(l: seq<N>, body: nat -> seq<N>, k: nat) {
    forall i, j :: k <= i < j < |l| && l[j] in body(i) ==> j == i + 1 == |l| - 1
  }

  ghost predicate Careful<N>(l: seq<N>, body: nat -> seq<N>) {
    CarefulFrom(l, body, 0)
  }

  lemma {:induction false} MinusAll<N>(s: seq<N>, gone: seq<N>)
    ensures |Minus(s, gone)| == |s| <==> forall x :: x in s ==> x !in gone
    ensures |Minus(s, gone)| == |s| ==> Minus(s, gone) == s
  {
    if s != [] {
      var rest := s[1..];
      MinusAll(rest, gone);
      assert s[0] in s && s == [s[0]] + rest;
      assert (forall x :: x in s ==> x !in gone) <==> s[0] !in gone && forall x :: x in rest ==> x !in gone;
    }
  }

  lemma {:induction false} VisitsAllFrom<N>(l: seq<N>, body: nat -> seq<N>, i: nat)
    requires i < |l|
    ensures Visits(l[i], l[i + 1..], body, i) == l[i..] <==> CarefulFrom(l, body, i)
    decreases |l| - i
  {
    if i + 1 < |l| {
      var ahead, gone := l[i + 1..], body(i);
      var rest, onward := Rest(ahead, gone), Visits(l[i + 1], Rest(ahead, gone), body, i + 1);
      assert Visits(l[i], ahead, body, i) == [l[i]] + onward;
      assert l[i..] == [l[i]] + l[i + 1..];
      assert Visits(l[i], ahead, body, i) == l[i..] <==> onward == l[i + 1..];
      assert ahead[1..] == l[i + 2..];
      MinusAll(l[i + 2..], gone);
      if rest == l[i + 2..] {
        VisitsAllFrom(l, body, i + 1);
        RestIsCareful(l, body, i);
      } else {
        RestIsCareless(l, body, i);
      }
    }
  }

  lemma RestIsCareful<N>(l: seq<N>, body: nat -> seq<N>, i: nat)
    requires i + 1 < |l| && Rest(l[i + 1..], body(i)) == l[i + 2..]
    ensures CarefulFrom(l, body, i) <==> CarefulFrom(l, body, i + 1)
  {
    MinusAll(l[i + 2..], body(i));
    assert l[i + 1..][1..] == l[i + 2..];
    assert forall j :: i + 2 <= j < |l| ==> l[j] in l[i + 2..];
  }

  lemma RestIsCareless<N>(l: seq<N>, body: nat -> seq<N>, i: nat)
    requires i + 1 < |l| && Rest(l[i + 1..], body(i)) != l[i + 2..]
    ensures !CarefulFrom(l, body, i) && |Visits(l[i + 1], Rest(l[i + 1..], body(i)), body, i + 1)| < |l| - i - 1
  {
    MinusAll(l[i + 2..], body(i));
    assert l[i + 1..][1..] == l[i + 2..];
    if l[i + 1] !in body(i) {
      var x :| x in l[i + 2..] && x in body(i);
      var j :| 0 <= j < |l[i + 2..]| && l[i + 2..][j] == x;
      assert l[i + 2 + j] in body(i);
    }
  }

  /** The scan visits the whole initial list, in order, exactly when the body is careful. */
  lemma VisitsAllIffCareful<N>(l: seq<N>, body: nat -> seq<N>)
    ensures ScanOf(l, body) == l <==> Careful(l, body)
  {
    if l != [] {
      assert l[0..] == l;
      VisitsAllFrom(l, body, 0);
    }
  }

  /** A body that deletes nothing but the node of its own round or an earlier one is careful. */
  lemma DeletingVisitedNodesIsCareful<N>(l: seq<N>, body: nat -> seq<N>)
    requires Distinct(l) && forall i, n :: 0 <= i < |l| && n in body(i) ==> n in l[..i + 1]
    ensures ScanOf(l, body) == l
  {
    forall i, j | 0 <= i < j < |l|
      ensures l[j] !in body(i)
    {
      assert forall k :: 0 <= k < i + 1 ==> l[k] != l[j];
    }
    VisitsAllIffCareful(l, body);
  }

  /** Deleting the next node loses the rest: 3 is never deleted and never visited. */
  lemma DeletingNextLosesTheRest()
    ensures exists l: seq<nat>, body: nat -> seq<nat>, n ::
              Distinct(l) && n in l && n !in ScanOf(l, body) && forall i :: n !in body(i)
  {
    var l: seq<nat> := [1, 2, 3];
    var body: nat -> seq<nat> := i => if i == 0 then [2] else [];
    assert l[1..] == [2, 3];
    assert Rest([2, 3], body(0)) == [];
    assert Visits(2, [], body, 1) == [2];
    assert ScanOf(l, body) == [1, 2];
    assert 3 in l && 3 !in ScanOf(l, body);
  }

  lemma MinusCons<N>(x: N, s: seq<N>, gone: seq<N>)
    ensures Minus([x] + s, gone) == (if x in gone then [] else [x]) + Minus(s, gone)
  {
    assert ([x] + s)[1..] == s;
  }

  lemma WithoutCons<N>(x: N, s: seq<N>, y: N)
    ensures Without([x] + s, y) == (if x == y then [] else [x]) + Without(s, y)
  {
    assert ([x] + s)[1..] == s;
  }

  lemma {:induction false} MinusOneMore<N>(s: seq<N>, gone: seq<N>, x: N)
    ensures Without(Minus(s, gone), x) == Minus(s, gone + [x])
  {
    if s != [] {
      MinusOneMore(s[1..], gone, x);
      WithoutCons(s[0], Minus(s[1..], gone), x);
      if s[0] in gone {
        assert Minus(s, gone) == Minus(s[1..], gone);
      }
    }
  }

  lemma {:induction false} MinusTwice<N>(s: seq<N>, a: seq<N>, b: seq<N>)
    ensures Minus(Minus(s, a), b) == Minus(s, a + b)
  {
    if s != [] {
      MinusTwice(s[1..], a, b);
      MinusCons(s[0], Minus(s[1..], a), b);
      if s[0] in a {
        assert Minus(s, a) == Minus(s[1..], a);
      }
    }
  }

  lemma {:induction false} MinusConcat<N>(s: seq<N>, t: seq<N>, gone: seq<N>)
    ensures Minus(s + t, gone) == Minus(s, gone) + Minus(t, gone)
  {
    if s == [] {
      assert s + t == t;
    } else {
      assert (s + t)[1..] == s[1..] + t;
      MinusConcat(s[1..], t, gone);
    }
  }

  lemma {:induction false} MinusNothing<N>(s: seq<N>)
    ensures Minus(s, []) == s
  {
    MinusAll(s, []);
  }

  lemma SuffixMinus<N>(l: seq<N>, ahead: seq<N>, gone: seq<N>)
    requires |ahead| <= |l| && l[|l| - |ahead|..] == ahead
    ensures Minus(l, gone) == Minus(l[..|l| - |ahead|], gone) + Minus(ahead, gone)
  {
    assert l == l[..|l| - |ahead|] + ahead;
    MinusConcat(l[..|l| - |ahead|], ahead, gone);
  }

  lemma SuffixParts<N>(pre: seq<N>, x: N, rest: seq<N>)
    ensures var m := pre + ([x] + rest);
              |rest| < |m| && m[|m| - |rest|..] == rest && m[|m| - |rest| - 1] == x
  {
  }

  /** Where pTmp and its successors are once a round's deletions are done. */
  lemma SuffixOfMinus<N>(l: seq<N>, ahead: seq<N>, gone: seq<N>)
    requires ahead != [] && |ahead| <= |l| && l[|l| - |ahead|..] == ahead
    ensures var m, rest := Minus(l, gone), Rest(ahead, gone); (
              && |rest| <= |m| && m[|m| - |rest|..] == rest
              && (ahead[0] !in gone ==> |rest| < |m| && m[|m| - |rest| - 1] == ahead[0]))
  {
    SuffixMinus(l, ahead, gone);
    if ahead[0] !in gone {
      var x, rest := ahead[0], Rest(ahead, gone);
      assert Minus(ahead, gone) == [x] + rest;
      SuffixParts(Minus(l[..|l| - |ahead|], gone), x, rest);
    }
  }

  /** One round: node is visited, and the rounds from the next one on follow. */
  lemma VisitsStep<N>(total: seq<N>, seen: seq<N>, node: N, ahead: seq<N>, body: nat -> seq<N>)
    requires seen + Visits(node, ahead, body, |seen|) == total
    ensures total == seen + [node] + if ahead == [] then []
                     else Visits(ahead[0], Rest(ahead, body(|seen|)), body, |seen| + 1)
  {
    var onward: seq<N> := if ahead == [] then [] else Visits(ahead[0], Rest(ahead, body(|seen|)), body, |seen| + 1);
    assert Visits(node, ahead, body, |seen|) == [node] + onward;
    assert seen + ([node] + onward) == seen + [node] + onward;
  }

  /** A round's own deletions, one after the other. */
  lemma MinusPrefix<N>(s: seq<N>, gone: seq<N>, i: nat)
    requires i < |gone|
    ensures Without(Minus(s, gone[..i]), gone[i]) == Minus(s, gone[..i + 1])
  {
    MinusOneMore(s, gone[..i], gone[i]);
    assert gone[..i + 1] == gone[..i] + [gone[i]];
  }

  /** The deletions of round k, after those of the rounds before. */
  lemma MinusRound<N>(s: seq<N>, body: nat -> seq<N>, k: nat)
    ensures Minus(Minus(s, Deleted(body, k)), body(k)) == Minus(s, Deleted(body, k + 1))
  {
    MinusTwice(s, Deleted(body, k), body(k));
  }

  // ---------- Any body at all ----------

  /** p lists increasing positions of s, where v is found. */
  ghost predicate Picks<N>(s: seq<N>, v: seq<N>, p: seq<nat>) {
    && |p| == |v| && (forall k :: 0 <= k < |p| ==> p[k] < |s| && s[p[k]] == v[k])
    && forall j, k :: 0 <= j < k < |p| ==> p[j] < p[k]
  }

  lemma ConsPicks<N>(x: N, s: seq<N>, v: seq<N>, q: seq<nat>) returns (p: seq<nat>)
    requires Picks(s, v, q)
    ensures Picks([x] + s, [x] + v, p)
  {
    p := [0] + seq(|q|, k requires 0 <= k < |q| => q[k] + 1);
  }

  lemma ShiftPicks<N>(x: N, s: seq<N>, v: seq<N>, q: seq<nat>) returns (p: seq<nat>)
    requires Picks(s, v, q)
    ensures Picks([x] + s, v, p)
  {
    p := seq(|q|, k requires 0 <= k < |q| => q[k] + 1);
  }

  lemma {:induction false} MinusPicks<N>(s: seq<N>, gone: seq<N>) returns (p: seq<nat>)
    ensures Picks(s, Minus(s, gone), p)
  {
    p := [];
    if s != [] {
      var x, rest := s[0], s[1..];
      assert s == [x] + rest;
      MinusCons(x, rest, gone);
      p := MinusPicks(rest, gone);
      if x in gone {
        assert [] + Minus(rest, gone) == Minus(rest, gone);
        p := ShiftPicks(x, rest, Minus(rest, gone), p);
      } else {
        p := ConsPicks(x, rest, Minus(rest, gone), p);
      }
    }
  }

  lemma ComposePicks<N>(s: seq<N>, v: seq<N>, w: seq<N>, q: seq<nat>, r: seq<nat>) returns (p: seq<nat>)
    requires Picks(s, v, q) && Picks(v, w, r)
    ensures Picks(s, w, p)
  {
    p := seq(|r|, k requires 0 <= k < |r| => q[r[k]]);
  }

  lemma RestPicks<N>(ahead: seq<N>, gone: seq<N>) returns (p: seq<nat>)
    requires ahead != []
    ensures Picks(ahead, [ahead[0]] + Rest(ahead, gone), p)
  {
    if ahead[0] in gone {
      p := [0];
    } else {
      var q := MinusPicks(ahead[1..], gone);
      p := ConsPicks(ahead[0], ahead[1..], Minus(ahead[1..], gone), q);
      assert [ahead[0]] + ahead[1..] == ahead;
    }
  }

  lemma {:induction false} VisitsInOrder<N>(node: N, ahead: seq<N>, body: nat -> seq<N>, i: nat) returns (p: seq<nat>)
    ensures Picks([node] + ahead, Visits(node, ahead, body, i), p)
    decreases |ahead|
  {
    if ahead == [] {
      p := [0];
    } else {
      var rest := Rest(ahead, body(i));
      var onward := Visits(ahead[0], rest, body, i + 1);
      var q := RestPicks(ahead, body(i));
      var r := VisitsInOrder(ahead[0], rest, body, i + 1);
      p := ComposePicks(ahead, [ahead[0]] + rest, onward, q, r);
      p := ConsPicks(node, ahead, onward, p);
    }
  }

  /** Whatever the body deletes, the scan ends, keeps the initial order and visits nothing twice. */
  lemma ScanInOrder<N>(l: seq<N>, body: nat -> seq<N>) returns (p: seq<nat>)
    ensures Picks(l, ScanOf(l, body), p)
    ensures Distinct(l) ==> Distinct(ScanOf(l, body))
  {
    p := [];
    if l != [] {
      assert [l[0]] + l[1..] == l;
      p := VisitsInOrder(l[0], l[1..], body, 0);
    }
  }

  /** The last node visited was not deleted in the round before its own; v are the visits from round i on. */
  predicate LastSpared<N(==)>(v: seq<N>, body: nat -> seq<N>, i: nat) {
    |v| >= 2 ==> v[|v| - 1] !in body(i + |v| - 2)
  }

  lemma OnwardSpared<N>(node: N, onward: seq<N>, body: nat -> seq<N>, i: nat)
    requires onward != [] && LastSpared([node] + onward, body, i)
    ensures LastSpared(onward, body, i + 1)
    ensures |onward| == 1 ==> onward[0] !in body(i)
  {
    var v := [node] + onward;
    assert v[|v| - 1] == onward[|onward| - 1];
    assert i + |v| - 2 == i + 1 + |onward| - 2;
  }

  /** r is a round, counted from the first one of the scan. */
  lemma {:induction false} Reached<N>(node: N, ahead: seq<N>, body: nat -> seq<N>, i: nat, n: N) returns (r: nat)
    requires n in ahead && LastSpared(Visits(node, ahead, body, i), body, i)
    ensures i <= r < i + |Visits(node, ahead, body, i)|
    ensures n in body(r) || n in Visits(node, ahead, body, i)
    decreases |ahead|
  {
    var rest := Rest(ahead, body(i));
    var onward := Visits(ahead[0], rest, body, i + 1);
    OnwardSpared(node, onward, body, i);
    r := i;
    if n !in body(i) {
      assert ahead[0] in onward;
      if n != ahead[0] {
        assert n in rest;
        r := Reached(ahead[0], rest, body, i + 1, n);
      }
    }
  }

  /** Unless the last node visited was deleted the round before, nothing is missed but what some round deleted. */
  lemma NothingElseIsMissed<N>(l: seq<N>, body: nat -> seq<N>, n: N)
    requires n in l && LastSpared(ScanOf(l, body), body, 0)
    ensures n in ScanOf(l, body) || exists k :: 0 <= k < |ScanOf(l, body)| && n in body(k)
  {
    if n != l[0] {
      assert n in l[1..];
      var r := Reached(l[0], l[1..], body, 0, n);
    }
  }
}
