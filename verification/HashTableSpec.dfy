/**
 What one hash table means (ofcdriver/include/mchash.h): a map from safe references to nodes,
 one sequence of nodes per bucket, a FIFO queue of free slots, the next magic number, and the
 node counter of every bucket.  The class HashTable implements it; here are the laws of its runs.
 */
module HashTableSpec {
  import opened Common
  import opened Magic

  /** mchash_noderef. */
  datatype Ref = Ref(index: nat, magic: nat)

  datatype Table<!N(==)> = Table(live: map<Ref, N>, lists: seq<seq<N>>, freeQ: seq<nat>, magicNo: nat, counts: seq<nat>)

  datatype Op<N(==)> =
    | Append(key: nat, n: N)
    | Insert(key: nat, pos: nat, n: N)
    | Delete(key: nat, ref: Ref)

  function Bump(c: nat, gain: int): (r: nat) {
    (c + gain) % UINT32
  }

  /** A node taken in at position pos of bucket key; `gain` is what its counter gains. */
  function Add<N>(t: Table<N>, key: nat, pos: nat, n: N, gain: nat): Table<N>
    requires t.freeQ != [] && key < |t.lists| == |t.counts| && pos <= |t.lists[key]|
  {
    Table(t.live[Ref(t.freeQ[0], t.magicNo) := n],
          t.lists[key := InsertAt(t.lists[key], pos, n)],
          t.freeQ[1..], NextMagic(t.magicNo), t.counts[key := Bump(t.counts[key], gain)])
  }

  function Remove<N>(t: Table<N>, key: nat, r: Ref): Table<N>
    requires r in t.live && key < |t.lists| == |t.counts|
  {
    Table(t.live - {r}, t.lists[key := Without(t.lists[key], t.live[r])],
          t.freeQ + [r.index], t.magicNo, t.counts[key := Bump(t.counts[key], -1)])
  }

  ghost predicate Enabled<N>(t: Table<N>, op: Op<N>) {
    && op.key < |t.lists| == |t.counts|
    && match op
       case Append(key, n) => t.freeQ != [] && n !in t.live.Values
       case Insert(key, pos, n) => t.freeQ != [] && n !in t.live.Values && pos <= |t.lists[key]|
       case Delete(key, ref) => ref in t.live && t.live[ref] in t.lists[key]
  }

  /** MCHASH_APPEND_NODE raises the counter twice: in mchash_insert_node_in_middle and after it. */
  function Apply<N>(t: Table<N>, op: Op<N>): Table<N>
    requires Enabled(t, op)
  {
    match op
    case Append(key, n) => Add(t, key, |t.lists[key]|, n, 2)
    case Insert(key, pos, n) => Add(t, key, pos, n, 1)
    case Delete(key, ref) => Remove(t, key, ref)
  }

  // ---------- What every table satisfies ----------

  ghost predicate GoodRefs<N>(t: Table<N>, max: nat) {
    && (forall r :: r in t.live ==> r.index < max && r.index !in t.freeQ && 1 <= r.magic < UINT32)
    && 1 <= t.magicNo < UINT32
  }

  ghost predicate UniqueRefs<N>(live: map<Ref, N>) {
    forall r, q :: r in live && q in live && (r.index == q.index || live[r] == live[q]) ==> r == q
  }

  ghost predicate GoodQueue<N>(t: Table<N>, max: nat) {
    Distinct(t.freeQ) && (forall i :: i in t.freeQ ==> i < max) && |t.live| + |t.freeQ| == max
  }

  ghost predicate GoodLists<N>(t: Table<N>) {
    && |t.lists| == |t.counts|
    && (forall b :: 0 <= b < |t.lists| ==> Distinct(t.lists[b]))
    && (forall b, c, n :: 0 <= b < |t.lists| && 0 <= c < |t.lists| && n in t.lists[b] && n in t.lists[c] ==> b == c)
    && (forall b, n :: 0 <= b < |t.lists| && n in t.lists[b] ==> n in t.live.Values)
    && (forall r :: r in t.live ==> exists b :: 0 <= b < |t.lists| && t.live[r] in t.lists[b])
  }

  ghost predicate WellFormed<N>(t: Table<N>, max: nat) {
    GoodRefs(t, max) && UniqueRefs(t.live) && GoodQueue(t, max) && GoodLists(t)
  }

  lemma AddKeepsUnique<N>(live: map<Ref, N>, r: Ref, n: N)
    requires UniqueRefs(live) && n !in live.Values && forall q :: q in live ==> q.index != r.index
    ensures UniqueRefs(live[r := n])
  {
    forall q, p | q in live[r := n] && p in live[r := n] && (q.index == p.index || live[r := n][q] == live[r := n][p])
      ensures q == p
    {
      assert q in live ==> live[q] in live.Values;
      assert p in live ==> live[p] in live.Values;
    }
  }

  lemma AddKeepsQueue<N>(t: Table<N>, key: nat, pos: nat, n: N, gain: nat, max: nat)
    requires GoodRefs(t, max) && GoodQueue(t, max) && t.freeQ != [] && key < |t.lists| == |t.counts|
    requires pos <= |t.lists[key]|
    ensures GoodRefs(Add(t, key, pos, n, gain), max) && GoodQueue(Add(t, key, pos, n, gain), max)
  {
    var d := Add(t, key, pos, n, gain);
    assert t.freeQ[0] in t.freeQ;
    assert forall i :: i in d.freeQ ==> i in t.freeQ;
    assert Ref(t.freeQ[0], t.magicNo) !in t.live;
  }

  lemma RemoveKeepsRefs<N>(t: Table<N>, key: nat, r: Ref, max: nat)
    requires GoodRefs(t, max) && UniqueRefs(t.live) && r in t.live && key < |t.lists| == |t.counts|
    ensures GoodRefs(Remove(t, key, r), max) && UniqueRefs(Remove(t, key, r).live)
  {
    var live := Remove(t, key, r).live;
    assert forall q :: q in live ==> q in t.live && q != r && q.index != r.index && live[q] == t.live[q];
  }

  lemma RemoveKeepsQueue<N>(t: Table<N>, key: nat, r: Ref, max: nat)
    requires GoodRefs(t, max) && GoodQueue(t, max) && r in t.live && key < |t.lists| == |t.counts|
    ensures GoodQueue(Remove(t, key, r), max)
  {
    var d := Remove(t, key, r);
    assert t.live.Keys == d.live.Keys + {r};
    assert r.index !in t.freeQ;
  }

  /** Who is in which list after an insertion. */
  lemma AddMembers<N>(t: Table<N>, key: nat, pos: nat, n: N, gain: nat)
    requires t.freeQ != [] && key < |t.lists| == |t.counts| && pos <= |t.lists[key]|
    ensures var d := Add(t, key, pos, n, gain);
              forall b, m :: 0 <= b < |d.lists| ==> (m in d.lists[b] <==> m in t.lists[b] || (b == key && m == n))
  {
    var l, r := t.lists[key], InsertAt(t.lists[key], pos, n);
    assert r[pos] == n;
    forall m | m in l
      ensures m in r
    {
      var i :| 0 <= i < |l| && l[i] == m;
      assert r[if i < pos then i else i + 1] == m;
    }
  }

  lemma AddKeepsApart<N>(t: Table<N>, key: nat, pos: nat, n: N, gain: nat)
    requires GoodLists(t) && t.freeQ != [] && key < |t.lists| && pos <= |t.lists[key]| && n !in t.live.Values
    ensures var d := Add(t, key, pos, n, gain); (
              && |d.lists| == |d.counts| && (forall b :: 0 <= b < |d.lists| ==> Distinct(d.lists[b]))
              && forall b, c, m :: 0 <= b < |d.lists| && 0 <= c < |d.lists| && m in d.lists[b] && m in d.lists[c] ==>
                  b == c)
  {
    assert forall b :: 0 <= b < |t.lists| ==> n !in t.lists[b];
    AddMembers(t, key, pos, n, gain);
    InsertDistinct(t.lists[key], pos, n);
  }

  lemma AddKeepsLists<N>(t: Table<N>, key: nat, pos: nat, n: N, gain: nat)
    requires GoodLists(t) && t.freeQ != [] && key < |t.lists| && pos <= |t.lists[key]|
    requires n !in t.live.Values && Ref(t.freeQ[0], t.magicNo) !in t.live
    ensures GoodLists(Add(t, key, pos, n, gain))
  {
    var d, r := Add(t, key, pos, n, gain), Ref(t.freeQ[0], t.magicNo);
    AddMembers(t, key, pos, n, gain);
    AddKeepsApart(t, key, pos, n, gain);
    assert d.live[r] == n;
    forall m | m in t.live.Values
      ensures m in d.live.Values
    {
      var q :| q in t.live && t.live[q] == m;
      assert d.live[q] == m;
    }
    forall q | q in d.live
      ensures exists b :: 0 <= b < |d.lists| && d.live[q] in d.lists[b]
    {
      if q != r {
        var b :| 0 <= b < |t.lists| && t.live[q] in t.lists[b];
        assert d.live[q] in d.lists[b];
      } else {
        assert d.live[q] in d.lists[key];
      }
    }
  }

  lemma RemoveKeepsLists<N>(t: Table<N>, key: nat, r: Ref)
    requires GoodLists(t) && UniqueRefs(t.live) && r in t.live && key < |t.lists| && t.live[r] in t.lists[key]
    ensures GoodLists(Remove(t, key, r))
  {
    var d := Remove(t, key, r);
    var n := t.live[r];
    WithoutDistinct(t.lists[key], n);
    assert forall b, m :: 0 <= b < |d.lists| ==> (m in d.lists[b] <==> m in t.lists[b] && m != n);
    forall m | m in t.live.Values && m != n
      ensures m in d.live.Values
    {
      var q :| q in t.live && t.live[q] == m;
      assert d.live[q] == m;
    }
    forall q | q in d.live
      ensures exists b :: 0 <= b < |d.lists| && d.live[q] in d.lists[b]
    {
      var b :| 0 <= b < |t.lists| && t.live[q] in t.lists[b];
      assert d.live[q] in d.lists[b];
    }
  }

  lemma ApplyKeepsWellFormed<N>(t: Table<N>, op: Op<N>, max: nat)
    requires WellFormed(t, max) && Enabled(t, op)
    ensures WellFormed(Apply(t, op), max)
  {
    match op
    case Append(key, n) => AddKeepsWellFormed(t, key, |t.lists[key]|, n, 2, max);
    case Insert(key, pos, n) => AddKeepsWellFormed(t, key, pos, n, 1, max);
    case Delete(key, ref) =>
      RemoveKeepsRefs(t, key, ref, max);
      RemoveKeepsQueue(t, key, ref, max);
      RemoveKeepsLists(t, key, ref);
  }

  lemma AddKeepsWellFormed<N>(t: Table<N>, key: nat, pos: nat, n: N, gain: nat, max: nat)
    requires WellFormed(t, max) && t.freeQ != [] && key < |t.lists| && pos <= |t.lists[key]| && n !in t.live.Values
    ensures WellFormed(Add(t, key, pos, n, gain), max)
  {
    assert t.freeQ[0] in t.freeQ;
    AddKeepsUnique(t.live, Ref(t.freeQ[0], t.magicNo), n);
    AddKeepsQueue(t, key, pos, n, gain, max);
    AddKeepsLists(t, key, pos, n, gain);
  }

  // ---------- Runs ----------

  /** The operations, all enabled in turn, lead from t to d. */
  ghost predicate Leads<N>(t: Table<N>, ops: seq<Op<N>>, d: Table<N>)
    decreases |ops|
  {
    if ops == [] then d == t else Enabled(t, ops[0]) && Leads(Apply(t, ops[0]), ops[1..], d)
  }

  function Empty<N>(buckets: nat, max: nat): Table<N> {
    Table(map[], seq(buckets, _ => []), seq(max, i => i), 1, seq(buckets, _ => 0))
  }

  function Allocations<N>(ops: seq<Op<N>>): nat {
    if ops == [] then 0 else Allocations(ops[1..]) + if ops[0].Delete? then 0 else 1
  }

  predicate AppendsTo<N>(op: Op<N>, b: nat) {
    op.Append? && op.key == b
  }

  function Appends<N>(ops: seq<Op<N>>, b: nat): nat {
    if ops == [] then 0 else Appends(ops[1..], b) + if AppendsTo(ops[0], b) then 1 else 0
  }

  /** MCHASH_ACCESS_NODE. */
  function Access<N>(t: Table<N>, r: Ref): Option<N> {
    if r in t.live then Some(t.live[r]) else None
  }

  lemma EmptyIsWellFormed<N>(buckets: nat, max: nat)
    ensures WellFormed<N>(Empty(buckets, max), max)
  {
    var t := Empty<N>(buckets, max);
    assert forall i :: 0 <= i < max ==> t.freeQ[i] == i;
  }

  lemma {:induction false} RunKeepsWellFormed<N>(t: Table<N>, ops: seq<Op<N>>, d: Table<N>, max: nat)
    requires WellFormed(t, max) && Leads(t, ops, d)
    ensures WellFormed(d, max)
    decreases |ops|
  {
    if ops != [] {
      ApplyKeepsWellFormed(t, ops[0], max);
      RunKeepsWellFormed(Apply(t, ops[0]), ops[1..], d, max);
    }
  }

  // ---------- The order in a bucket ----------

  /** m stands before n. */
  ghost predicate Precedes<N(!new)>(l: seq<N>, m: N, n: N) {
    exists i, j :: 0 <= i < j < |l| && l[i] == m && l[j] == n
  }

  lemma InsertKeepsOrder<N(!new)>(l: seq<N>, k: nat, x: N, m: N, n: N)
    requires k <= |l| && Precedes(l, m, n)
    ensures Precedes(InsertAt(l, k, x), m, n)
  {
    var i, j :| 0 <= i < j < |l| && l[i] == m && l[j] == n;
    var r, p, q := InsertAt(l, k, x), if i < k then i else i + 1, if j < k then j else j + 1;
    assert r[p] == m && r[q] == n;
  }

  lemma RemoveKeepsOrder<N(!new)>(l: seq<N>, k: nat, m: N, n: N)
    requires k < |l| && Precedes(l, m, n) && l[k] != m && l[k] != n
    ensures Precedes(RemoveAt(l, k), m, n)
  {
    var i, j :| 0 <= i < j < |l| && l[i] == m && l[j] == n;
    var r, p, q := RemoveAt(l, k), if i < k then i else i - 1, if j < k then j else j - 1;
    assert r[p] == m && r[q] == n;
  }

  lemma WithoutKeepsOrder<N(!new)>(l: seq<N>, x: N, m: N, n: N)
    requires Distinct(l) && Precedes(l, m, n) && x != m && x != n
    ensures Precedes(Without(l, x), m, n)
  {
    if x in l {
      var k :| 0 <= k < |l| && l[k] == x;
      WithoutAt(l, k);
      RemoveKeepsOrder(l, k, m, n);
    }
  }

  lemma ApplyKeepsOrder<N(!new)>(t: Table<N>, op: Op<N>, b: nat, m: N, n: N)
    requires GoodLists(t) && Enabled(t, op) && b < |t.lists| && Precedes(t.lists[b], m, n)
    requires op.Delete? ==> t.live[op.ref] != m && t.live[op.ref] != n
    ensures Precedes(Apply(t, op).lists[b], m, n)
  {
    if op.key == b {
      var l := t.lists[b];
      match op
      case Append(_, x) => InsertKeepsOrder(l, |l|, x, m, n);
      case Insert(_, pos, x) => InsertKeepsOrder(l, pos, x, m, n);
      case Delete(_, ref) => WithoutKeepsOrder(l, t.live[ref], m, n);
    }
  }

  /** The run deletes neither of the two nodes. */
  ghost predicate Spares<N(!new)>(t: Table<N>, ops: seq<Op<N>>, m: N, n: N)
    decreases |ops|
  {
    ops == [] || (
      && Enabled(t, ops[0])
      && (ops[0].Delete? ==> t.live[ops[0].ref] != m && t.live[ops[0].ref] != n)
      && Spares(Apply(t, ops[0]), ops[1..], m, n))
  }

  /** Two nodes of a bucket stay in their order as long as both are there. */
  lemma {:induction false} OrderStays<N(!new)>(t: Table<N>, ops: seq<Op<N>>, d: Table<N>, max: nat, b: nat, m: N, n: N)
    requires WellFormed(t, max) && Leads(t, ops, d) && Spares(t, ops, m, n)
    requires b < |t.lists| && Precedes(t.lists[b], m, n)
    ensures b < |d.lists| && Precedes(d.lists[b], m, n)
    decreases |ops|
  {
    if ops != [] {
      ApplyKeepsOrder(t, ops[0], b, m, n);
      ApplyKeepsWellFormed(t, ops[0], max);
      OrderStays(Apply(t, ops[0]), ops[1..], d, max, b, m, n);
    }
  }

  /** And a node appended stands behind those that were there before it, however the run goes on. */
  lemma AppendedComesLast<N(!new)>(t: Table<N>, key: nat, n: N, ops: seq<Op<N>>, d: Table<N>, max: nat, m: N)
    requires WellFormed(t, max) && Enabled(t, Append(key, n)) && m in t.lists[key]
    requires Leads(Apply(t, Append(key, n)), ops, d) && Spares(Apply(t, Append(key, n)), ops, m, n)
    ensures key < |d.lists| && Precedes(d.lists[key], m, n)
  {
    var l, u := t.lists[key], Apply(t, Append(key, n));
    var i :| 0 <= i < |l| && l[i] == m;
    assert u.lists[key][i] == m && u.lists[key][|l|] == n;
    ApplyKeepsWellFormed(t, Append(key, n), max);
    OrderStays(u, ops, d, max, key, m, n);
  }

  // ---------- References over runs ----------

  /** The run's allocations take the magics in turn. */
  lemma {:induction false} MagicsInTurn<N>(t: Table<N>, ops: seq<Op<N>>, d: Table<N>)
    requires Leads(t, ops, d) && 1 <= t.magicNo < UINT32
    ensures d.magicNo == MagicAfter(t.magicNo, Allocations(ops))
    decreases |ops|
  {
    if ops != [] {
      if !ops[0].Delete? {
        MagicAfterNext(t.magicNo, 1);
        MagicAfterNext(t.magicNo, Allocations(ops));
      }
      MagicsInTurn(Apply(t, ops[0]), ops[1..], d);
    }
  }

  /** Over every run the magic about to be issued is not 0, and is the same again exactly after whole periods. */
  lemma MagicRepeatsIff<N>(t: Table<N>, ops: seq<Op<N>>, d: Table<N>, max: nat)
    requires WellFormed(t, max) && Leads(t, ops, d)
    ensures d.magicNo != 0 && (d.magicNo == t.magicNo <==> Allocations(ops) % (UINT32 - 1) == 0)
  {
    MagicsInTurn(t, ops, d);
    MagicPeriod(t.magicNo, Allocations(ops));
  }

  ghost predicate Deletes<N>(ops: seq<Op<N>>, r: Ref) {
    exists i :: 0 <= i < |ops| && ops[i].Delete? && ops[i].ref == r
  }

  /** r was handed out j allocations ago, and the run is too short to hand out its magic again. */
  lemma {:induction false} ReferenceInRun<N>(t: Table<N>, ops: seq<Op<N>>, d: Table<N>, r: Ref, j: nat)
    requires Leads(t, ops, d) && 1 <= r.magic < UINT32
    requires 1 <= j && j + Allocations(ops) <= UINT32 - 1 && t.magicNo == MagicAfter(r.magic, j)
    ensures r in d.live <==> r in t.live && !Deletes(ops, r)
    ensures r in d.live ==> d.live[r] == t.live[r]
    decreases |ops|
  {
    if ops != [] {
      var op, u := ops[0], Apply(t, ops[0]);
      if !op.Delete? {
        assert MagicAfter(r.magic, j + 1) == NextMagic(MagicAfter(r.magic, j));
        MagicIsNew(r.magic, j);
        ReferenceInRun(u, ops[1..], d, r, j + 1);
      } else {
        ReferenceInRun(u, ops[1..], d, r, j);
      }
      assert Deletes(ops, r) <==> Deletes(ops[1..], r) || (op.Delete? && op.ref == r) by {
        if Deletes(ops[1..], r) {
          var i :| 0 <= i < |ops[1..]| && ops[1..][i].Delete? && ops[1..][i].ref == r;
          assert ops[i + 1] == ops[1..][i];
        }
        if Deletes(ops, r) {
          var i :| 0 <= i < |ops| && ops[i].Delete? && ops[i].ref == r;
          assert i > 0 ==> ops[1..][i - 1] == ops[i];
        }
      }
    }
  }

  lemma AfterAllocation<N>(t: Table<N>, op: Op<N>, ops: seq<Op<N>>, d: Table<N>, max: nat)
    requires GoodRefs(t, max) && !op.Delete? && Enabled(t, op) && Leads(Apply(t, op), ops, d)
    requires Allocations(ops) < UINT32 - 1
    ensures t.freeQ != []
    ensures Access(d, Ref(t.freeQ[0], t.magicNo)) ==
            if Deletes(ops, Ref(t.freeQ[0], t.magicNo)) then None else Some(op.n)
  {
    var r := Ref(t.freeQ[0], t.magicNo);
    assert MagicAfter(r.magic, 0) == r.magic;
    ReferenceInRun(Apply(t, op), ops, d, r, 1);
  }

  /**
   Safe references.  After an append or insert of n returns r, and while fewer than 2^32 - 1
   allocations have followed, access through r finds n until r itself is deleted and nothing after.
   */
  lemma SafeReference<N>(t: Table<N>, op: Op<N>, ops: seq<Op<N>>, d: Table<N>, max: nat)
    requires WellFormed(t, max) && !op.Delete? && Leads(t, [op] + ops, d)
    requires Allocations(ops) < UINT32 - 1
    ensures t.freeQ != []
    ensures Access(d, Ref(t.freeQ[0], t.magicNo)) ==
            if Deletes(ops, Ref(t.freeQ[0], t.magicNo)) then None else Some(op.n)
  {
    assert ([op] + ops)[1..] == ops && Leads(Apply(t, op), ops, d);
    AfterAllocation(t, op, ops, d, max);
  }

  /** One slot holding node n under magic m. */
  function OneNode(m: nat, n: nat, c: nat): Table<nat> {
    Table(map[Ref(0, m) := n], [[n]], [], NextMagic(m), [c])
  }

  /** Delete the node and append the next, k times over. */
  function Churn(m: nat, n: nat, k: nat): seq<Op<nat>>
    decreases k
  {
    if k == 0 then [] else [Delete(0, Ref(0, m)), Append(0, n + 1)] + Churn(NextMagic(m), n + 1, k - 1)
  }

  lemma ChurnOnce(m: nat, n: nat, c: nat)
    requires 1 <= m < UINT32
    ensures var t := OneNode(m, n, c); (
              && Enabled(t, Delete(0, Ref(0, m)))
              && Enabled(Apply(t, Delete(0, Ref(0, m))), Append(0, n + 1))
              && Apply(Apply(t, Delete(0, Ref(0, m))), Append(0, n + 1)) ==
                  OneNode(NextMagic(m), n + 1, Bump(Bump(c, -1), 2)))
  {
    var t := OneNode(m, n, c);
    assert t.live[Ref(0, m)] in t.lists[0];
    var u := Apply(t, Delete(0, Ref(0, m)));
    assert Without([n], n) == [];
    assert u == Table(map[], [[]], [0], NextMagic(m), [Bump(c, -1)]);
    assert InsertAt([], 0, n + 1) == [n + 1];
  }

  lemma {:induction false} ChurnLeads(m: nat, n: nat, c: nat, k: nat) returns (c': nat)
    requires 1 <= m < UINT32
    ensures Leads(OneNode(m, n, c), Churn(m, n, k), OneNode(MagicAfter(m, k), n + k, c'))
    ensures Allocations(Churn(m, n, k)) == k
    decreases k
  {
    if k == 0 {
      c' := c;
      assert MagicAfter(m, 0) == m;
    } else {
      var ops := Churn(m, n, k);
      ChurnOnce(m, n, c);
      MagicAfterNext(m, k);
      c' := ChurnLeads(NextMagic(m), n + 1, Bump(Bump(c, -1), 2), k - 1);
      assert ops[1..][1..] == Churn(NextMagic(m), n + 1, k - 1);
    }
  }

  lemma FirstAppend()
    ensures Enabled(Empty<nat>(1, 1), Append(0, 0)) && Apply(Empty<nat>(1, 1), Append(0, 0)) == OneNode(1, 0, 2)
  {
    assert InsertAt<nat>([], 0, 0) == [0];
  }

  lemma FullChurn() returns (d: Table<nat>)
    ensures Leads(OneNode(1, 0, 2), Churn(1, 0, UINT32 - 1), d) && Access(d, Ref(0, 1)) == Some(UINT32 - 1)
    ensures Allocations(Churn(1, 0, UINT32 - 1)) == UINT32 - 1
  {
    var c := ChurnLeads(1, 0, 2, UINT32 - 1);
    MagicPeriod(1, UINT32 - 1);
    d := OneNode(1, UINT32 - 1, c);
  }

  /** The bound is exact: after 2^32 - 1 more allocations a dead reference can name another node. */
  lemma ReferencesAliasAfterFullPeriod()
    ensures exists t: Table<nat>, op: Op<nat>, ops: seq<Op<nat>>, d: Table<nat> ::
              && WellFormed(t, 1) && !op.Delete? && Leads(t, [op] + ops, d)
              && Allocations(ops) == UINT32 - 1 && t.freeQ != []
              && Deletes(ops, Ref(t.freeQ[0], t.magicNo))
              && Access(d, Ref(t.freeQ[0], t.magicNo)).Some? && Access(d, Ref(t.freeQ[0], t.magicNo)) != Some(op.n)
  {
    var t: Table<nat> := Empty(1, 1);
    EmptyIsWellFormed<nat>(1, 1);
    FirstAppend();
    var op, ops := Append(0, 0), Churn(1, 0, UINT32 - 1);
    var d := FullChurn();
    assert ([op] + ops)[1..] == ops;
    assert Leads(t, [op] + ops, d);
    assert ops[0] == Delete(0, Ref(0, 1));
    assert Deletes(ops, Ref(0, 1));
  }

  // ---------- Free slots and counters ----------

  /** The free queue is FIFO: a slot with k others before it is untouched by the next k allocations. */
  lemma {:induction false} FreeSlotWaits<N>(t: Table<N>, ops: seq<Op<N>>, d: Table<N>, k: nat)
    requires Leads(t, ops, d) && k < |t.freeQ| && Allocations(ops) <= k
    ensures k - Allocations(ops) < |d.freeQ| && d.freeQ[k - Allocations(ops)] == t.freeQ[k]
    decreases |ops|
  {
    if ops != [] {
      FreeSlotWaits(Apply(t, ops[0]), ops[1..], d, if ops[0].Delete? then k else k - 1);
    }
  }

  /** The counter of a bucket of length l with a appends in its past. */
  function Counter(l: nat, a: nat): nat {
    (l + a) % UINT32
  }

  lemma BumpCount(l: nat, a: nat, gain: int)
    requires -1 <= gain && 0 <= l + a + gain
    ensures Bump((l + a) % UINT32, gain) == (l + a + gain) % UINT32
  {
    var q, r := (l + a) / UINT32, (l + a) % UINT32;
    assert l + a + gain == q * UINT32 + (r + gain);
  }

  lemma CountStep<N>(t: Table<N>, op: Op<N>, b: nat, a: nat)
    requires GoodLists(t) && Enabled(t, op) && b < |t.lists| && t.counts[b] == Counter(|t.lists[b]|, a)
    ensures var u := Apply(t, op); (
              && |u.lists| == |u.counts| == |t.lists|
              && u.counts[b] == Counter(|u.lists[b]|, if AppendsTo(op, b) then a + 1 else a))
  {
    var l := |t.lists[b]|;
    if op.key == b {
      match op
      case Append(_, _) => BumpCount(l, a, 2);
      case Insert(_, _, _) => BumpCount(l, a, 1);
      case Delete(_, ref) =>
        WithoutDistinct(t.lists[b], t.live[ref]);
        BumpCount(l, a, -1);
    }
  }

  lemma CountStepKeeps<N>(t: Table<N>, op: Op<N>, max: nat, b: nat, a: nat)
    requires WellFormed(t, max) && Enabled(t, op) && b < |t.lists| && t.counts[b] == Counter(|t.lists[b]|, a)
    ensures WellFormed(Apply(t, op), max) && |Apply(t, op).lists| == |Apply(t, op).counts| == |t.lists|
    ensures var u := Apply(t, op); u.counts[b] == Counter(|u.lists[b]|, if AppendsTo(op, b) then a + 1 else a)
  {
    CountStep(t, op, b, a);
    ApplyKeepsWellFormed(t, op, max);
  }

  lemma {:induction false} CountInRun<N>(t: Table<N>, ops: seq<Op<N>>, d: Table<N>, max: nat, b: nat, a: nat,
      total: nat)
    requires total == a + Appends(ops, b)
    requires WellFormed(t, max) && Leads(t, ops, d) && b < |t.lists|
    requires t.counts[b] == Counter(|t.lists[b]|, a)
    ensures |d.lists| == |d.counts| == |t.lists| && d.counts[b] == Counter(|d.lists[b]|, total)
    decreases |ops|
  {
    if ops != [] {
      CountStepKeeps(t, ops[0], max, b, a);
      CountInRun(Apply(t, ops[0]), ops[1..], d, max, b, if AppendsTo(ops[0], b) then a + 1 else a, total);
    }
  }

  /**
   The counter MCHASH_BUCKET_NODE_COUNT reports is the length of the bucket plus the number of
   appends ever made to it, modulo 2^32, so it is the length exactly when that number is a
   multiple of 2^32.
   */
  lemma CountIsLengthPlusAppends<N>(buckets: nat, max: nat, ops: seq<Op<N>>, d: Table<N>, b: nat)
    requires Leads(Empty(buckets, max), ops, d) && b < buckets && max < UINT32
    ensures |d.lists| == |d.counts| == buckets && d.counts[b] == Counter(|d.lists[b]|, Appends(ops, b))
    ensures d.counts[b] == |d.lists[b]| <==> Appends(ops, b) % UINT32 == 0
  {
    EmptyIsWellFormed<N>(buckets, max);
    CountInRun(Empty<N>(buckets, max), ops, d, max, b, 0, Appends(ops, b));
    RunKeepsWellFormed(Empty<N>(buckets, max), ops, d, max);
    ListFits(d, b, max);
    CountIsLength(|d.lists[b]|, Appends(ops, b));
  }

  lemma CountIsLength(l: nat, a: nat)
    requires l < UINT32
    ensures Counter(l, a) == l <==> a % UINT32 == 0
  {
    var q, r := a / UINT32, a % UINT32;
    assert l + a == q * UINT32 + (l + r);
    assert l + r >= UINT32 ==> l + a == (q + 1) * UINT32 + (l + r - UINT32);
  }

  lemma ListFits<N>(t: Table<N>, b: nat, max: nat)
    requires WellFormed(t, max) && b < |t.lists|
    ensures |t.lists[b]| <= max
  {
    forall n | n in t.lists[b] ensures exists r :: r in t.live && t.live[r] == n { assert n in t.live.Values; }
    RefsOfList(t.live, t.lists[b]);
  }

  /** Distinct nodes that all have references: no more of them than references. */
  lemma {:induction false} RefsOfList<N>(live: map<Ref, N>, l: seq<N>)
    requires UniqueRefs(live) && Distinct(l) && forall n :: n in l ==> exists r :: r in live && live[r] == n
    ensures |l| <= |live|
    decreases |l|
  {
    if l != [] {
      var n := l[0];
      assert n in l;
      var r :| r in live && live[r] == n;
      var rest := live - {r};
      assert live.Keys == rest.Keys + {r};
      forall m | m in l[1..]
        ensures exists q :: q in rest && rest[q] == m
      {
        assert m in l;
        var q :| q in live && live[q] == m;
        assert q in rest && rest[q] == m;
      }
      RefsOfList(rest, l[1..]);
    }
  }

  // ---------- Scanning the whole table ----------

  /** What a scan of buckets 0 to b - 1 yields: each node with the key of its bucket. */
  function Scanned<N>(lists: seq<seq<N>>, b: nat): (r: seq<(nat, N)>)
    requires b <= |lists|
  {
    if b == 0 then [] else Scanned(lists, b - 1) + Tagged(b - 1, lists[b - 1])
  }

  /** One bucket's share of the scan. */
  function Tagged<N>(key: nat, l: seq<N>): (r: seq<(nat, N)>)
    ensures |r| == |l| && forall i :: 0 <= i < |l| ==> r[i] == (key, l[i])
  {
    seq(|l|, i requires 0 <= i < |l| => (key, l[i]))
  }

  lemma {:induction false} ScannedHolds<N>(lists: seq<seq<N>>, b: nat)
    requires b <= |lists| && forall c :: 0 <= c < b ==> Distinct(lists[c])
    ensures Distinct(Scanned(lists, b))
    ensures forall x :: x in Scanned(lists, b) ==> x.0 < b && x.1 in lists[x.0]
    ensures forall c: nat, n :: c < b && n in lists[c] ==> (c, n) in Scanned(lists, b)
  {
    if b > 0 {
      ScannedHolds(lists, b - 1);
      var s, last := Scanned(lists, b - 1), Tagged(b - 1, lists[b - 1]);
      DisjointDistinct(s, last);
      var l := lists[b - 1];
      forall n | n in l
        ensures (b - 1, n) in last
      {
        var i :| 0 <= i < |last| && l[i] == n;
        assert last[i] == (b - 1, n);
      }
    }
  }

  /** How many nodes the buckets before b have. */
  function Ahead<N>(lists: seq<seq<N>>, b: nat): (r: nat)
    requires b <= |lists|
  {
    if b == 0 then 0 else Ahead(lists, b - 1) + |lists[b - 1]|
  }

  lemma {:induction false} ScannedLength<N>(lists: seq<seq<N>>, b: nat)
    requires b <= |lists|
    ensures |Scanned(lists, b)| == Ahead(lists, b)
  {
    if b > 0 {
      ScannedLength(lists, b - 1);
    }
  }

  /** The scan goes through the buckets by their keys, and through each bucket in list order. */
  lemma {:induction false} ScanGoesByKey<N>(lists: seq<seq<N>>, n: nat, b: nat, i: nat)
    requires b < n <= |lists| && i < |lists[b]|
    ensures Ahead(lists, b) + i < |Scanned(lists, n)|
    ensures Scanned(lists, n)[Ahead(lists, b) + i] == (b, lists[b][i])
  {
    ScannedLength(lists, n - 1);
    if b < n - 1 {
      ScanGoesByKey(lists, n - 1, b, i);
    }
  }

  lemma DisjointDistinct<T>(s: seq<T>, t: seq<T>)
    requires Distinct(s) && Distinct(t) && forall x :: x in s ==> x !in t
    ensures Distinct(s + t)
  {
    forall i, j | 0 <= i < j < |s + t|
      ensures (s + t)[i] != (s + t)[j]
    {
      if i < |s| <= j {
        assert s[i] in s && t[j - |s|] in t;
      }
    }
  }

  lemma TableScanned<N>(t: Table<N>)
    requires GoodLists(t)
    ensures var s := Scanned(t.lists, |t.lists|);
              Distinct(s) && forall i :: 0 <= i < |s| ==> s[i].0 < |t.lists| && s[i].1 in t.lists[s[i].0]
  {
    var s := Scanned(t.lists, |t.lists|);
    ScannedHolds(t.lists, |t.lists|);
    assert forall i :: 0 <= i < |s| ==> s[i] in s;
  }

  lemma ScanFinds<N>(t: Table<N>, n: N) returns (i: nat)
    requires GoodLists(t) && n in t.live.Values
    ensures i < |Scanned(t.lists, |t.lists|)| && Scanned(t.lists, |t.lists|)[i].1 == n
  {
    var s := Scanned(t.lists, |t.lists|);
    ScannedHolds(t.lists, |t.lists|);
    var r :| r in t.live && t.live[r] == n;
    var b: nat :| b < |t.lists| && n in t.lists[b];
    i :| 0 <= i < |s| && s[i] == (b, n);
  }

  /** MCHASH_TABLE_SCAN over MCHASH_BUCKET_SCAN yields every node of the table at exactly one moment. */
  lemma ScanYieldsEachNodeOnce<N>(t: Table<N>, max: nat, n: N)
    requires WellFormed(t, max)
    ensures var s := Scanned(t.lists, |t.lists|); (
              && (n in t.live.Values <==> exists i :: 0 <= i < |s| && s[i].1 == n)
              && (forall i, j :: 0 <= i < |s| && 0 <= j < |s| && s[i].1 == n && s[j].1 == n ==> i == j))
  {
    TableScanned(t);
    if n in t.live.Values {
      var i := ScanFinds(t, n);
    }
  }
}
