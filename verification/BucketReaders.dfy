/**
 Lock-free readers of one hash bucket (ofcdriver/include/mchash.h).

 Writers hold the bucket lock, so at most one of them is inside a critical section.  What a
 reader can see of a critical section is one store to a `next_p` on the chain: publishing a
 node whose own `next_p` is already filled, or stepping a predecessor over a removed node.
 Those stores are separate steps here, interleaved freely with the loads of every reader.
 A removed node keeps its own `next_p`; CALL_RCU postpones reclaiming it until every scan
 that was running when it was retired has ended.

 A `Node` stands for one stay of an application node in the bucket.  The `History`, `now`,
 `since` and `seen` are history variables: the memory never depends on them, except that a
 step on a linked node asks whether the node is linked.
 */
module BucketReaders {
  import opened Common

  type Node = nat

  /** When every node was published and unlinked, and where it stands in list order. */
  datatype History = History(rank: map<Node, nat>, linkedAt: map<Node, nat>, unlinkedAt: map<Node, nat>) {
    ghost predicate Valid(now: nat) {
      && rank.Keys == linkedAt.Keys
      && (forall m, n :: m in rank && n in rank && m != n ==> rank[m] != rank[n])
      && (forall n :: n in linkedAt ==> linkedAt[n] < now)
      && (forall n :: n in unlinkedAt ==> n in linkedAt && linkedAt[n] < unlinkedAt[n] < now)
    }

    predicate Linked(n: Node) {
      n in linkedAt && n !in unlinkedAt
    }

    /** Publish x right after p (None: at the front): everything behind moves up one place. */
    function Publish(x: Node, p: Option<Node>, now: nat): History {
      var k := if p.Some? && p.value in rank then rank[p.value] + 1 else 0;
      History((map n | n in rank :: if rank[n] < k then rank[n] else rank[n] + 1)[x := k],
              linkedAt[x := now], unlinkedAt)
    }

    function Unlink(x: Node, now: nat): History {
      this.(unlinkedAt := unlinkedAt[x := now])
    }
  }

  datatype Writer = NoWriter | Publishing(node: Node, pred: Option<Node>)

  datatype Reader = Idle | Scanning(since: nat, cur: Option<Node>, seen: seq<Node>)

  datatype State = State(
    now: nat,
    h: History,
    retiredAt: map<Node, nat>,
    freed: set<Node>,
    head: Option<Node>,            // head.next_p
    next: map<Node, Option<Node>>, // next_p of every node that still has memory
    writer: Writer,
    readers: seq<Reader>)

  datatype Step =
    | Prepare(node: Node, pred: Option<Node>)
    | Publish
    | Unlink(node: Node, pred: Option<Node>)
    | Retire(node: Node)
    | Reclaim(node: Node)
    | Begin(r: nat)
    | Advance(r: nat)
    | End(r: nat)

  predicate HeadOrLinked(s: State, p: Option<Node>) {
    p.None? || (s.h.Linked(p.value) && p.value in s.next)
  }

  /** The pointer stored in p, where None is the bucket's own head. */
  function NextOf(s: State, p: Option<Node>): Option<Node> {
    if p.None? then s.head else if p.value in s.next then s.next[p.value] else None
  }

  function StoreNext(s: State, p: Option<Node>, o: Option<Node>): State {
    if p.None? then s.(head := o) else s.(next := s.next[p.value := o])
  }

  predicate Enabled(s: State, step: Step) {
    match step
    case Prepare(n, pred) => s.writer.NoWriter? && n !in s.h.linkedAt && HeadOrLinked(s, pred)
    case Publish => s.writer.Publishing?
    case Unlink(n, pred) => s.writer.NoWriter? && s.h.Linked(n) && HeadOrLinked(s, pred) && NextOf(s, pred) == Some(n)
    case Retire(n) => n in s.h.linkedAt && n !in s.retiredAt
    case Reclaim(n) => n in s.retiredAt && n !in s.freed
                       && forall r :: 0 <= r < |s.readers| && s.readers[r].Scanning? ==>
                           s.retiredAt[n] < s.readers[r].since
    case Begin(r) => r < |s.readers| && s.readers[r].Idle?
    case Advance(r) => r < |s.readers| && s.readers[r].Scanning? && s.readers[r].cur.Some?
    case End(r) => r < |s.readers| && s.readers[r].Scanning?
  }

  function Do(s: State, step: Step): State
    requires Enabled(s, step)
  {
    match step
    case Prepare(n, pred) =>
      s.(next := s.next[n := NextOf(s, pred)], writer := Publishing(n, pred))
    case Publish =>
      var Publishing(n, pred) := s.writer;
      StoreNext(s, pred, Some(n)).(h := s.h.Publish(n, pred, s.now), now := s.now + 1, writer := NoWriter)
    case Unlink(n, pred) =>
      StoreNext(s, pred, NextOf(s, Some(n))).(h := s.h.Unlink(n, s.now), now := s.now + 1)
    case Retire(n) =>
      s.(retiredAt := s.retiredAt[n := s.now], now := s.now + 1)
    case Reclaim(n) =>
      s.(freed := s.freed + {n}, next := s.next - {n})
    case Begin(r) =>
      s.(readers := s.readers[r := Scanning(s.now, s.head, [])], now := s.now + 1)
    case Advance(r) =>
      var Scanning(since, cur, seen) := s.readers[r];
      s.(readers := s.readers[r := Scanning(since, NextOf(s, cur), seen + [cur.value])])
    case End(r) =>
      s.(readers := s.readers[r := Idle])
  }

  /** CALL_RCU is called for a node only once it is unlinked. */
  predicate Proper(s: State, step: Step) {
    step.Retire? ==> step.node in s.h.unlinkedAt
  }

  predicate Init(s: State) {
    && s.h == History(map[], map[], map[]) && s.retiredAt == map[]
    && s.freed == {} && s.head == None && s.next == map[] && s.writer == NoWriter
    && forall r :: 0 <= r < |s.readers| ==> s.readers[r] == Idle
  }

  // ---------- Invariant ----------

  /** x stands strictly before o; the end of the list is behind every node. */
  ghost predicate Before(h: History, x: Node, o: Option<Node>) {
    x in h.rank && (o.None? || (o.value in h.rank && h.rank[x] < h.rank[o.value]))
  }

  /** x stands strictly after p; the head is before every node. */
  ghost predicate After(h: History, x: Node, p: Option<Node>) {
    x in h.rank && (p.None? || (p.value in h.rank && h.rank[p.value] < h.rank[x]))
  }

  /** The time from which a pointer stored in p may be out of date: never for a linked node or the head. */
  function Cut(h: History, p: Option<Node>): Option<nat> {
    if p.Some? && p.value in h.unlinkedAt then Some(h.unlinkedAt[p.value]) else None
  }

  /**
   A pointer o stored in p leads forward to a node unlinked, if at all, later than p, and every
   linked node it jumps over was published after p was unlinked.
   */
  ghost predicate GoodPointer(h: History, p: Option<Node>, o: Option<Node>) {
    && (o.Some? ==>
          && o.value in h.linkedAt && After(h, o.value, p)
          && (o.value in h.unlinkedAt ==> Cut(h, p).Some? && Cut(h, p).value < h.unlinkedAt[o.value]))
    && forall x :: h.Linked(x) && After(h, x, p) && Before(h, x, o) ==>
        Cut(h, p).Some? && Cut(h, p).value < h.linkedAt[x]
  }

  ghost predicate Retirement(s: State) {
    && (forall n :: n in s.retiredAt ==> n in s.h.unlinkedAt && s.h.unlinkedAt[n] < s.retiredAt[n] < s.now)
    && (forall n :: n in s.freed ==> n in s.retiredAt)
  }

  ghost predicate Memory(s: State) {
    && (forall n :: n in s.h.linkedAt ==> (n in s.next <==> n !in s.freed))
    && (s.writer.Publishing? ==>
          && s.writer.node !in s.h.linkedAt && s.writer.node in s.next && HeadOrLinked(s, s.writer.pred)
          && s.next[s.writer.node] == NextOf(s, s.writer.pred))
  }

  ghost predicate Pointers(s: State) {
    && GoodPointer(s.h, None, s.head)
    && forall n :: n in s.next && n in s.h.linkedAt ==> GoodPointer(s.h, Some(n), s.next[n])
  }

  /** Everything linked since before the scan and linked now is either seen or still ahead. */
  ghost predicate Covers(h: History, since: nat, cur: Option<Node>, seen: seq<Node>) {
    forall x :: h.Linked(x) && h.linkedAt[x] < since && Before(h, x, cur) ==> x in seen
  }

  /** Visited nodes stand in list order, the current one last; none was unlinked before the scan began. */
  ghost predicate Ascending(h: History, since: nat, cur: Option<Node>, seen: seq<Node>) {
    && (forall i :: 0 <= i < |seen| ==> Before(h, seen[i], cur) && Reached(h, since, Some(seen[i])))
    && forall i, j :: 0 <= i < j < |seen| ==> Before(h, seen[i], Some(seen[j]))
  }

  /** The scan stands on a node that was still linked when the scan began, or was linked later. */
  ghost predicate Reached(h: History, since: nat, cur: Option<Node>) {
    cur.Some? ==> cur.value in h.linkedAt && (cur.value in h.unlinkedAt ==> since < h.unlinkedAt[cur.value])
  }

  ghost predicate GoodReader(s: State, rd: Reader) {
    rd.Scanning? ==>
      && rd.since < s.now
      && (forall n :: n in s.freed && n in s.retiredAt ==> s.retiredAt[n] < rd.since)
      && Reached(s.h, rd.since, rd.cur)
      && Covers(s.h, rd.since, rd.cur, rd.seen)
      && Ascending(s.h, rd.since, rd.cur, rd.seen)
  }

  ghost predicate Readers(s: State) {
    forall r :: 0 <= r < |s.readers| ==> GoodReader(s, s.readers[r])
  }

  ghost predicate Inv(s: State) {
    s.h.Valid(s.now) && Retirement(s) && Memory(s) && Pointers(s) && Readers(s)
  }

  // ---------- What publishing and unlinking do to a pointer ----------

  /** Publishing moves exactly the nodes behind p up by one place, and x takes the gap. */
  lemma PublishRank(h: History, x: Node, p: Option<Node>, now: nat)
    requires h.Valid(now) && x !in h.linkedAt && (p.Some? ==> p.value in h.linkedAt)
    ensures h.Publish(x, p, now).rank.Keys == h.rank.Keys + {x}
    ensures h.Publish(x, p, now).rank[x] == if p.Some? then h.rank[p.value] + 1 else 0
    ensures forall a :: a in h.rank ==> h.Publish(x, p, now).rank[a] == h.rank[a] + if After(h, a, p) then 1 else 0
  {
  }

  lemma PublishRanksDiffer(h: History, x: Node, p: Option<Node>, now: nat, m: Node, n: Node)
    requires h.Valid(now) && x !in h.linkedAt && (p.Some? ==> p.value in h.linkedAt)
    requires m in h.linkedAt && n in h.Publish(x, p, now).rank && m != n
    ensures m in h.Publish(x, p, now).rank && h.Publish(x, p, now).rank[m] != h.Publish(x, p, now).rank[n]
  {
    PublishRank(h, x, p, now);
    if n != x {
      assert h.rank[m] != h.rank[n];
    }
  }

  lemma PublishRanks(h: History, x: Node, p: Option<Node>, now: nat)
    requires h.Valid(now) && x !in h.linkedAt && (p.Some? ==> p.value in h.linkedAt)
    ensures var g := h.Publish(x, p, now);
              forall m, n :: m in g.rank && n in g.rank && m != n ==> g.rank[m] != g.rank[n]
  {
    var g := h.Publish(x, p, now);
    assert g.rank.Keys == h.linkedAt.Keys + {x};
    forall m, n | m in g.rank && n in g.rank && m != n
      ensures g.rank[m] != g.rank[n]
    {
      if m != x {
        PublishRanksDiffer(h, x, p, now, m, n);
      } else {
        PublishRanksDiffer(h, x, p, now, n, m);
      }
    }
  }

  lemma PublishValid(h: History, x: Node, p: Option<Node>, now: nat)
    requires h.Valid(now) && x !in h.linkedAt && (p.Some? ==> p.value in h.linkedAt)
    ensures h.Publish(x, p, now).Valid(now + 1)
  {
    var g := h.Publish(x, p, now);
    PublishRanks(h, x, p, now);
    assert g.rank.Keys == g.linkedAt.Keys;
  }

  lemma PublishPointer(h: History, g: History, x: Node, p: Option<Node>, now: nat, q: Option<Node>, o: Option<Node>)
    requires h.Valid(now) && x !in h.linkedAt && (p.Some? ==> h.Linked(p.value))
    requires g == h.Publish(x, p, now)
    requires q.Some? ==> q.value in h.linkedAt
    requires q != p && GoodPointer(h, q, o)
    ensures GoodPointer(g, q, o)
  {
    PublishRank(h, x, p, now);
    forall y | g.Linked(y) && After(g, y, q) && Before(g, y, o)
      ensures Cut(g, q).Some? && Cut(g, q).value < g.linkedAt[y]
    {
      if y == x {
        if q.Some? && q.value in h.unlinkedAt {
        } else {
          // x would lie right behind p, and q would jump over p, which is linked.
          assert p.Some? && After(h, p.value, q) && Before(h, p.value, o);
        }
      } else {
        assert h.Linked(y) && After(h, y, q) && Before(h, y, o);
      }
    }
  }

  lemma PublishedPointer(h: History, g: History, x: Node, p: Option<Node>, now: nat)
    requires h.Valid(now) && x !in h.linkedAt && (p.Some? ==> h.Linked(p.value))
    requires g == h.Publish(x, p, now)
    ensures GoodPointer(g, p, Some(x))
  {
    PublishRank(h, x, p, now);
  }

  lemma PublishNewPointers(h: History, g: History, x: Node, p: Option<Node>, now: nat, o: Option<Node>)
    requires h.Valid(now) && x !in h.linkedAt && (p.Some? ==> h.Linked(p.value))
    requires g == h.Publish(x, p, now)
    requires GoodPointer(h, p, o)
    ensures GoodPointer(g, p, Some(x))
    ensures GoodPointer(g, Some(x), o)
  {
    PublishedPointer(h, g, x, p, now);
    PublishRank(h, x, p, now);
    forall y | g.Linked(y) && After(g, y, Some(x)) && Before(g, y, o)
      ensures false
    {
      assert h.Linked(y) && After(h, y, p) && Before(h, y, o);
    }
  }

  lemma UnlinkPointer(h: History, x: Node, now: nat, q: Option<Node>, o: Option<Node>)
    requires h.Valid(now) && h.Linked(x)
    requires q.Some? ==> q.value in h.linkedAt
    requires GoodPointer(h, q, o) && (o == Some(x) ==> q.Some? && (q.value in h.unlinkedAt || q.value == x))
    ensures GoodPointer(h.Unlink(x, now), q, o)
  {
    var g := h.Unlink(x, now);
    forall y | g.Linked(y) && After(g, y, q) && Before(g, y, o)
      ensures Cut(g, q).Some? && Cut(g, q).value < g.linkedAt[y]
    {
      assert h.Linked(y) && After(h, y, q) && Before(h, y, o);
    }
  }

  lemma UnlinkNewPointer(h: History, x: Node, now: nat, p: Option<Node>, o: Option<Node>)
    requires h.Valid(now) && h.Linked(x) && (p.Some? ==> h.Linked(p.value))
    requires GoodPointer(h, p, Some(x)) && GoodPointer(h, Some(x), o)
    ensures GoodPointer(h.Unlink(x, now), p, o)
  {
  }

  /** Among the head and the linked nodes, only one points at a linked node. */
  lemma UniquePredecessor(h: History, now: nat, x: Node, p: Option<Node>, q: Option<Node>)
    requires h.Valid(now) && h.Linked(x)
    requires (p.Some? ==> h.Linked(p.value)) && (q.Some? ==> h.Linked(q.value))
    requires GoodPointer(h, p, Some(x)) && GoodPointer(h, q, Some(x))
    ensures p == q
  {
  }

  // ---------- What publishing and unlinking do to a scan ----------

  /** Publishing keeps what stands before what. */
  lemma PublishBefore(h: History, g: History, x: Node, p: Option<Node>, now: nat, y: Node, o: Option<Node>)
    requires h.Valid(now) && x !in h.linkedAt && (p.Some? ==> h.Linked(p.value)) && g == h.Publish(x, p, now)
    requires y != x && (o.Some? ==> o.value in h.linkedAt)
    ensures Before(g, y, o) <==> Before(h, y, o)
  {
    PublishRank(h, x, p, now);
  }

  lemma PublishAscending(h: History, g: History, x: Node, p: Option<Node>, now: nat, since: nat,
                         cur: Option<Node>, seen: seq<Node>)
    requires h.Valid(now) && x !in h.linkedAt && (p.Some? ==> h.Linked(p.value)) && g == h.Publish(x, p, now)
    requires Reached(h, since, cur) && Ascending(h, since, cur, seen)
    ensures Ascending(g, since, cur, seen)
  {
    forall i | 0 <= i < |seen|
      ensures seen[i] in h.linkedAt && Before(g, seen[i], cur) && Reached(g, since, Some(seen[i]))
    {
      assert Before(h, seen[i], cur) && Reached(h, since, Some(seen[i]));
      PublishBefore(h, g, x, p, now, seen[i], cur);
    }
    forall i, j | 0 <= i < j < |seen|
      ensures Before(g, seen[i], Some(seen[j]))
    {
      assert Before(h, seen[i], Some(seen[j]));
      PublishBefore(h, g, x, p, now, seen[i], Some(seen[j]));
    }
  }

  lemma PublishCovers(h: History, g: History, x: Node, p: Option<Node>, now: nat, since: nat,
                      cur: Option<Node>, seen: seq<Node>)
    requires h.Valid(now) && x !in h.linkedAt && (p.Some? ==> h.Linked(p.value)) && since < now
    requires g == h.Publish(x, p, now) && Reached(h, since, cur) && Covers(h, since, cur, seen)
    ensures Covers(g, since, cur, seen)
  {
    forall y | g.Linked(y) && g.linkedAt[y] < since && Before(g, y, cur)
      ensures y in seen
    {
      assert y != x;
      PublishBefore(h, g, x, p, now, y, cur);
    }
  }

  lemma PublishReader(h: History, g: History, x: Node, p: Option<Node>, now: nat, since: nat,
                      cur: Option<Node>, seen: seq<Node>)
    requires h.Valid(now) && x !in h.linkedAt && (p.Some? ==> h.Linked(p.value)) && since < now
    requires g == h.Publish(x, p, now)
    requires Reached(h, since, cur) && Covers(h, since, cur, seen) && Ascending(h, since, cur, seen)
    ensures Reached(g, since, cur) && Covers(g, since, cur, seen) && Ascending(g, since, cur, seen)
  {
    PublishCovers(h, g, x, p, now, since, cur, seen);
    PublishAscending(h, g, x, p, now, since, cur, seen);
  }

  /** Following a good pointer, the scan passes nothing it still owes a visit, except the node it leaves. */
  lemma AdvanceReader(h: History, now: nat, since: nat, c: Node, o: Option<Node>, seen: seq<Node>)
    requires h.Valid(now) && c in h.linkedAt
    requires Reached(h, since, Some(c)) && Covers(h, since, Some(c), seen) && Ascending(h, since, Some(c), seen)
    requires GoodPointer(h, Some(c), o)
    ensures Reached(h, since, o) && Covers(h, since, o, seen + [c]) && Ascending(h, since, o, seen + [c])
  {
    forall x | h.Linked(x) && h.linkedAt[x] < since && Before(h, x, o)
      ensures x in seen + [c]
    {
      if x != c {
        assert h.rank[x] != h.rank[c];
      }
    }
    forall i | 0 <= i < |seen + [c]|
      ensures Before(h, (seen + [c])[i], o) && Reached(h, since, Some((seen + [c])[i]))
    {
      if i < |seen| {
        assert Before(h, seen[i], Some(c));
      }
    }
    forall i, j | 0 <= i < j < |seen + [c]|
      ensures Before(h, (seen + [c])[i], Some((seen + [c])[j]))
    {
      assert Before(h, seen[i], Some(c));
      if j < |seen| {
        assert Before(h, seen[i], Some(seen[j]));
      }
    }
  }

  /** A scan never holds a pointer to reclaimed memory. */
  lemma CurIsLive(s: State, r: nat)
    requires Inv(s) && r < |s.readers| && s.readers[r].Scanning? && s.readers[r].cur.Some?
    ensures s.readers[r].cur.value !in s.freed && s.readers[r].cur.value in s.next
  {
    assert GoodReader(s, s.readers[r]);
  }

  // ---------- Every step keeps the invariant ----------

  lemma PublishKeepsPointers(s: State, x: Node, p: Option<Node>)
    requires s.h.Valid(s.now) && Memory(s) && Pointers(s) && s.writer == Publishing(x, p)
    ensures Pointers(Do(s, Publish))
  {
    var t := Do(s, Publish);
    assert GoodPointer(s.h, p, NextOf(s, p)) by {
      if p.Some? { assert GoodPointer(s.h, Some(p.value), s.next[p.value]); }
    }
    PublishNewPointers(s.h, t.h, x, p, s.now, NextOf(s, p));
    if p.Some? {
      PublishPointer(s.h, t.h, x, p, s.now, None, s.head);
    }
    forall n | n in t.next && n in t.h.linkedAt
      ensures GoodPointer(t.h, Some(n), t.next[n])
    {
      if n != x && Some(n) != p {
        assert GoodPointer(s.h, Some(n), s.next[n]);
        PublishPointer(s.h, t.h, x, p, s.now, Some(n), s.next[n]);
      }
    }
  }

  lemma PublishKeepsReaders(s: State, x: Node, p: Option<Node>)
    requires s.h.Valid(s.now) && Memory(s) && Readers(s) && s.writer == Publishing(x, p)
    ensures Readers(Do(s, Publish))
  {
    var t := Do(s, Publish);
    forall r | 0 <= r < |t.readers|
      ensures GoodReader(t, t.readers[r])
    {
      assert GoodReader(s, s.readers[r]);
      if s.readers[r].Scanning? {
        PublishReader(s.h, t.h, x, p, s.now, s.readers[r].since, s.readers[r].cur, s.readers[r].seen);
      }
    }
  }

  lemma PublishKeepsMemory(s: State)
    requires s.h.Valid(s.now) && Retirement(s) && Memory(s) && Enabled(s, Publish)
    ensures Retirement(Do(s, Publish)) && Memory(Do(s, Publish))
  {
  }

  lemma PublishKeepsInv(s: State)
    requires Inv(s) && Enabled(s, Publish)
    ensures Inv(Do(s, Publish))
  {
    var Publishing(x, p) := s.writer;
    PublishValid(s.h, x, p, s.now);
    PublishKeepsMemory(s);
    PublishKeepsPointers(s, x, p);
    PublishKeepsReaders(s, x, p);
  }

  lemma UnlinkReader(h: History, x: Node, now: nat, since: nat, cur: Option<Node>, seen: seq<Node>)
    requires h.Valid(now) && h.Linked(x) && since < now
    requires Reached(h, since, cur) && Covers(h, since, cur, seen) && Ascending(h, since, cur, seen)
    ensures h.Unlink(x, now).Valid(now + 1)
    ensures Reached(h.Unlink(x, now), since, cur) && Covers(h.Unlink(x, now), since, cur, seen)
    ensures Ascending(h.Unlink(x, now), since, cur, seen)
  {
    var g := h.Unlink(x, now);
    forall i | 0 <= i < |seen|
      ensures Before(g, seen[i], cur) && Reached(g, since, Some(seen[i]))
    {
      assert Before(h, seen[i], cur) && Reached(h, since, Some(seen[i]));
    }
    forall i, j | 0 <= i < j < |seen|
      ensures Before(g, seen[i], Some(seen[j]))
    {
      assert Before(h, seen[i], Some(seen[j]));
    }
  }

  lemma UnlinkKeepsPointers(s: State, x: Node, p: Option<Node>)
    requires Inv(s) && Enabled(s, Unlink(x, p))
    ensures Pointers(Do(s, Unlink(x, p)))
  {
    var t := Do(s, Unlink(x, p));
    assert GoodPointer(s.h, Some(x), s.next[x]);
    assert GoodPointer(s.h, p, Some(x)) by {
      if p.Some? { assert GoodPointer(s.h, Some(p.value), s.next[p.value]); }
    }
    UnlinkNewPointer(s.h, x, s.now, p, s.next[x]);
    if p.Some? {
      if s.head == Some(x) { UniquePredecessor(s.h, s.now, x, p, None); }
      UnlinkPointer(s.h, x, s.now, None, s.head);
    }
    forall n | n in t.next && n in t.h.linkedAt
      ensures GoodPointer(t.h, Some(n), t.next[n])
    {
      if Some(n) != p {
        assert GoodPointer(s.h, Some(n), s.next[n]);
        if s.next[n] == Some(x) && s.h.Linked(n) { UniquePredecessor(s.h, s.now, x, p, Some(n)); }
        UnlinkPointer(s.h, x, s.now, Some(n), s.next[n]);
      }
    }
  }

  lemma UnlinkKeepsMemory(s: State, x: Node, p: Option<Node>)
    requires Inv(s) && Enabled(s, Unlink(x, p))
    ensures Memory(Do(s, Unlink(x, p))) && Retirement(Do(s, Unlink(x, p)))
  {
  }

  lemma UnlinkKeepsInv(s: State, x: Node, p: Option<Node>)
    requires Inv(s) && Enabled(s, Unlink(x, p))
    ensures Inv(Do(s, Unlink(x, p)))
  {
    var t := Do(s, Unlink(x, p));
    UnlinkKeepsPointers(s, x, p);
    UnlinkKeepsMemory(s, x, p);
    assert t.h.Valid(t.now) by { UnlinkReader(s.h, x, s.now, 0, None, []); }
    forall r | 0 <= r < |t.readers|
      ensures GoodReader(t, t.readers[r])
    {
      assert GoodReader(s, s.readers[r]);
      if s.readers[r].Scanning? {
        UnlinkReader(s.h, x, s.now, s.readers[r].since, s.readers[r].cur, s.readers[r].seen);
      }
    }
  }

  lemma AdvanceKeepsReaders(s: State, r: nat)
    requires Inv(s) && Enabled(s, Advance(r))
    ensures Readers(Do(s, Advance(r)))
  {
    var t := Do(s, Advance(r));
    var Scanning(since, cur, seen) := s.readers[r];
    CurIsLive(s, r);
    assert GoodReader(s, s.readers[r]);
    assert GoodPointer(s.h, Some(cur.value), s.next[cur.value]);
    AdvanceReader(s.h, s.now, since, cur.value, s.next[cur.value], seen);
    forall q | 0 <= q < |t.readers|
      ensures GoodReader(t, t.readers[q])
    {
      assert GoodReader(s, s.readers[q]);
    }
  }

  lemma AdvanceKeepsMemory(s: State, r: nat)
    requires s.h.Valid(s.now) && Retirement(s) && Memory(s) && Enabled(s, Advance(r))
    ensures var t := Do(s, Advance(r)); t.h.Valid(t.now) && Retirement(t) && Memory(t)
  {
  }

  lemma AdvanceKeepsInv(s: State, r: nat)
    requires Inv(s) && Enabled(s, Advance(r))
    ensures Inv(Do(s, Advance(r)))
  {
    AdvanceKeepsReaders(s, r);
    AdvanceKeepsMemory(s, r);
    SamePointers(s, Do(s, Advance(r)));
  }

  lemma BeginKeepsReaders(s: State, r: nat)
    requires s.h.Valid(s.now) && Retirement(s) && Pointers(s) && Readers(s) && Enabled(s, Begin(r))
    ensures Readers(Do(s, Begin(r)))
  {
    var t := Do(s, Begin(r));
    forall q | 0 <= q < |t.readers|
      ensures GoodReader(t, t.readers[q])
    {
      assert GoodReader(s, s.readers[q]);
    }
  }

  lemma BeginKeepsMemory(s: State, r: nat)
    requires s.h.Valid(s.now) && Retirement(s) && Memory(s) && Enabled(s, Begin(r))
    ensures var t := Do(s, Begin(r)); t.h.Valid(t.now) && Retirement(t) && Memory(t)
  {
  }

  lemma BeginKeepsInv(s: State, r: nat)
    requires Inv(s) && Enabled(s, Begin(r))
    ensures Inv(Do(s, Begin(r)))
  {
    BeginKeepsReaders(s, r);
    BeginKeepsMemory(s, r);
    SamePointers(s, Do(s, Begin(r)));
  }

  /** The remaining steps leave the history alone and every scan where it is, or drop one. */
  lemma PrepareKeepsMemory(s: State, n: Node, p: Option<Node>)
    requires s.h.Valid(s.now) && Retirement(s) && Memory(s) && Enabled(s, Prepare(n, p))
    ensures Memory(Do(s, Prepare(n, p))) && Retirement(Do(s, Prepare(n, p)))
  {
  }

  lemma PrepareKeepsPointers(s: State, n: Node, p: Option<Node>)
    requires Inv(s) && Enabled(s, Prepare(n, p))
    ensures Pointers(Do(s, Prepare(n, p)))
  {
    var t := Do(s, Prepare(n, p));
    forall m | m in t.next && m in t.h.linkedAt
      ensures GoodPointer(t.h, Some(m), t.next[m])
    {
      assert GoodPointer(s.h, Some(m), s.next[m]);
    }
  }

  lemma PrepareKeepsInv(s: State, n: Node, p: Option<Node>)
    requires Inv(s) && Enabled(s, Prepare(n, p))
    ensures Inv(Do(s, Prepare(n, p)))
  {
    PrepareKeepsMemory(s, n, p);
    PrepareKeepsPointers(s, n, p);
    KeepsReaders(s, Do(s, Prepare(n, p)));
  }

  lemma RetireKeepsMemory(s: State, n: Node)
    requires s.h.Valid(s.now) && Retirement(s) && Memory(s) && Enabled(s, Retire(n)) && n in s.h.unlinkedAt
    ensures Do(s, Retire(n)).h.Valid(s.now + 1) && Retirement(Do(s, Retire(n))) && Memory(Do(s, Retire(n)))
  {
  }

  lemma RetireKeepsInv(s: State, n: Node)
    requires Inv(s) && Enabled(s, Retire(n)) && n in s.h.unlinkedAt
    ensures Inv(Do(s, Retire(n)))
  {
    RetireKeepsMemory(s, n);
    SamePointers(s, Do(s, Retire(n)));
    KeepsReaders(s, Do(s, Retire(n)));
  }

  /** Pointers are good as long as neither they nor the history change; reclaimed nodes have none. */
  lemma SamePointers(s: State, t: State)
    requires Pointers(s) && t.h == s.h && t.head == s.head
    requires forall n :: n in t.next ==> n in s.next && t.next[n] == s.next[n]
    ensures Pointers(t)
  {
    forall n | n in t.next && n in t.h.linkedAt
      ensures GoodPointer(t.h, Some(n), t.next[n])
    {
      assert GoodPointer(s.h, Some(n), s.next[n]);
    }
  }

  lemma KeepsReaders(s: State, t: State)
    requires Readers(s) && t.readers == s.readers && t.h == s.h && s.now <= t.now && t.freed == s.freed
    requires forall n :: n in s.freed ==> n in s.retiredAt && n in t.retiredAt && t.retiredAt[n] == s.retiredAt[n]
    ensures Readers(t)
  {
    forall q | 0 <= q < |t.readers|
      ensures GoodReader(t, t.readers[q])
    {
      assert GoodReader(s, s.readers[q]);
    }
  }

  lemma ReclaimKeepsMemory(s: State, n: Node)
    requires s.h.Valid(s.now) && Retirement(s) && Memory(s) && Enabled(s, Reclaim(n))
    ensures Retirement(Do(s, Reclaim(n))) && Memory(Do(s, Reclaim(n)))
  {
    assert n in s.h.unlinkedAt;
  }

  lemma ReclaimKeepsReaders(s: State, n: Node)
    requires Readers(s) && Enabled(s, Reclaim(n))
    ensures Readers(Do(s, Reclaim(n)))
  {
    var t := Do(s, Reclaim(n));
    forall q | 0 <= q < |t.readers|
      ensures GoodReader(t, t.readers[q])
    {
      assert GoodReader(s, s.readers[q]);
    }
  }

  lemma ReclaimKeepsInv(s: State, n: Node)
    requires Inv(s) && Enabled(s, Reclaim(n))
    ensures Inv(Do(s, Reclaim(n)))
  {
    ReclaimKeepsMemory(s, n);
    SamePointers(s, Do(s, Reclaim(n)));
    ReclaimKeepsReaders(s, n);
  }

  lemma EndKeepsInv(s: State, r: nat)
    requires Inv(s) && Enabled(s, End(r))
    ensures Inv(Do(s, End(r)))
  {
    var t := Do(s, End(r));
    forall q | 0 <= q < |t.readers|
      ensures GoodReader(t, t.readers[q])
    {
      assert GoodReader(s, s.readers[q]);
    }
  }

  lemma StepKeepsInv(s: State, step: Step)
    requires Inv(s) && Enabled(s, step) && Proper(s, step)
    ensures Inv(Do(s, step))
  {
    match step
    case Publish => PublishKeepsInv(s);
    case Unlink(n, pred) => UnlinkKeepsInv(s, n, pred);
    case Advance(r) => AdvanceKeepsInv(s, r);
    case Begin(r) => BeginKeepsInv(s, r);
    case Prepare(n, pred) => PrepareKeepsInv(s, n, pred);
    case Retire(n) => RetireKeepsInv(s, n);
    case Reclaim(n) => ReclaimKeepsInv(s, n);
    case End(r) => EndKeepsInv(s, r);
  }

  // ---------- Whole runs ----------

  ghost predicate IsRun(states: seq<State>, steps: seq<Step>) {
    && |states| == |steps| + 1
    && Init(states[0])
    && forall i :: 0 <= i < |steps| ==> Enabled(states[i], steps[i]) && states[i + 1] == Do(states[i], steps[i])
  }

  ghost predicate ProperRun(states: seq<State>, steps: seq<Step>) {
    IsRun(states, steps) && forall i :: 0 <= i < |steps| ==> Proper(states[i], steps[i])
  }

  lemma InitInv(s: State)
    requires Init(s)
    ensures Inv(s)
  {
    assert GoodPointer(s.h, None, s.head);
  }

  lemma {:induction false} RunInv(states: seq<State>, steps: seq<Step>, k: nat)
    requires ProperRun(states, steps) && k <= |steps|
    ensures Inv(states[k])
  {
    if k == 0 {
      InitInv(states[0]);
    } else {
      RunInv(states, steps, k - 1);
      StepKeepsInv(states[k - 1], steps[k - 1]);
    }
  }

  /** The node reached from the head by k + 1 loads of `next_p`. */
  function Walk(s: State, k: nat): Option<Node> {
    if k == 0 then s.head else if Walk(s, k - 1).None? then None else NextOf(s, Walk(s, k - 1))
  }

  ghost predicate OnChain(s: State, x: Node) {
    exists k: nat :: Walk(s, k) == Some(x)
  }

  lemma {:induction false} WalkLinked(s: State, k: nat)
    requires Inv(s)
    ensures Walk(s, k).Some? ==> s.h.Linked(Walk(s, k).value)
  {
    if k > 0 {
      WalkLinked(s, k - 1);
      if Walk(s, k - 1).Some? {
        var c := Walk(s, k - 1).value;
        assert c in s.next && GoodPointer(s.h, Some(c), s.next[c]);
      }
    }
  }

  /** The pointer in the head or in a linked node leads towards every linked node behind it. */
  lemma NextTowards(s: State, p: Option<Node>, x: Node)
    requires Inv(s) && s.h.Linked(x) && After(s.h, x, p) && (p.Some? ==> s.h.Linked(p.value))
    ensures p.Some? ==> p.value in s.next
    ensures var o := NextOf(s, p); (o.Some? && s.h.Linked(o.value) && s.h.rank[o.value] <= s.h.rank[x])
  {
    if p.Some? {
      assert p.value in s.next && GoodPointer(s.h, p, s.next[p.value]);
    }
    assert GoodPointer(s.h, p, NextOf(s, p)) && !Before(s.h, x, NextOf(s, p));
  }

  lemma {:induction false} WalkReaches(s: State, k: nat, x: Node)
    requires Inv(s) && s.h.Linked(x)
    requires Walk(s, k).Some? && s.h.Linked(Walk(s, k).value) && s.h.rank[Walk(s, k).value] <= s.h.rank[x]
    ensures OnChain(s, x)
    decreases s.h.rank[x] - s.h.rank[Walk(s, k).value]
  {
    var c := Walk(s, k).value;
    if c != x {
      assert s.h.rank[c] != s.h.rank[x];
      NextTowards(s, Some(c), x);
      assert Walk(s, k + 1) == NextOf(s, Some(c));
      WalkReaches(s, k + 1, x);
    }
  }

  /** The pointers in memory reach exactly the nodes published and not unlinked. */
  lemma ChainIsLinked(s: State, x: Node)
    requires Inv(s)
    ensures OnChain(s, x) <==> s.h.Linked(x)
  {
    if OnChain(s, x) {
      var k: nat :| Walk(s, k) == Some(x);
      WalkLinked(s, k);
    }
    if s.h.Linked(x) {
      NextTowards(s, None, x);
      assert Walk(s, 0) == s.head;
      WalkReaches(s, 0, x);
    }
  }

  /** Reader r's scan began at step i and has neither ended nor restarted before state j. */
  ghost predicate SameScan(states: seq<State>, steps: seq<Step>, r: nat, i: nat, j: nat) {
    && ProperRun(states, steps) && i < j <= |steps|
    && steps[i] == Begin(r)
    && forall k :: i < k < j ==> steps[k] != Begin(r) && steps[k] != End(r)
  }

  lemma {:induction false} ScanSince(states: seq<State>, steps: seq<Step>, r: nat, i: nat, j: nat)
    requires SameScan(states, steps, r, i, j)
    ensures r < |states[j].readers| && states[j].readers[r].Scanning? && states[j].readers[r].since == states[i].now
    decreases j
  {
    if j > i + 1 {
      ScanSince(states, steps, r, i, j - 1);
    }
    assert Enabled(states[j - 1], steps[j - 1]) && states[j] == Do(states[j - 1], steps[j - 1]);
  }

  lemma StepKeepsTimes(s: State, step: Step, x: Node)
    requires Memory(s) && Enabled(s, step) && x in s.h.linkedAt
    ensures x in Do(s, step).h.linkedAt && Do(s, step).h.linkedAt[x] == s.h.linkedAt[x]
    ensures x in s.h.unlinkedAt ==> x in Do(s, step).h.unlinkedAt && Do(s, step).h.unlinkedAt[x] == s.h.unlinkedAt[x]
  {
  }

  lemma {:induction false} PublishTimeStays(states: seq<State>, steps: seq<Step>, i: nat, j: nat, x: Node)
    requires ProperRun(states, steps) && i <= j <= |steps| && x in states[i].h.linkedAt
    ensures x in states[j].h.linkedAt && states[j].h.linkedAt[x] == states[i].h.linkedAt[x]
    ensures x in states[i].h.unlinkedAt ==>
            x in states[j].h.unlinkedAt && states[j].h.unlinkedAt[x] == states[i].h.unlinkedAt[x]
    decreases j
  {
    if i < j {
      PublishTimeStays(states, steps, i, j - 1, x);
      RunInv(states, steps, j - 1);
      StepKeepsTimes(states[j - 1], steps[j - 1], x);
    }
  }

  /**
   The reader guarantee.  In every proper run, a node on the chain when a scan begins and still on it
   when the scan has run off the end of the list was visited exactly once.
   */
  lemma ScanVisitsExactlyOnce(states: seq<State>, steps: seq<Step>, r: nat, i: nat, j: nat, x: Node)
    requires SameScan(states, steps, r, i, j)
    requires r < |states[j].readers| && states[j].readers[r].Scanning? && states[j].readers[r].cur == None
    requires OnChain(states[i], x) && OnChain(states[j], x)
    ensures multiset(states[j].readers[r].seen)[x] == 1
  {
    var t := states[j];
    RunInv(states, steps, i);
    RunInv(states, steps, j);
    ChainIsLinked(states[i], x);
    ChainIsLinked(t, x);
    ScanSince(states, steps, r, i, j);
    PublishTimeStays(states, steps, i, j, x);
    assert GoodReader(t, t.readers[r]);
    assert x in t.readers[r].seen;
    OnceWhenAscending(t.h, t.readers[r].since, None, t.readers[r].seen, x);
  }

  lemma {:induction false} OnceWhenAscending(h: History, since: nat, cur: Option<Node>, seen: seq<Node>, x: Node)
    requires Ascending(h, since, cur, seen)
    ensures multiset(seen)[x] == if x in seen then 1 else 0
  {
    if seen != [] {
      var init, last := seen[..|seen| - 1], seen[|seen| - 1];
      assert seen == init + [last];
      OnceWhenAscending(h, since, cur, init, x);
      assert forall i :: 0 <= i < |init| ==> Before(h, init[i], Some(last));
    }
  }

  /**
   At every moment of every proper run, a scan stands on memory that has not been reclaimed, has visited
   no node twice, and has visited only nodes that were on the chain at some moment since it began.
   */
  lemma ScanIsSafe(states: seq<State>, steps: seq<Step>, r: nat, i: nat, j: nat)
    requires SameScan(states, steps, r, i, j)
    ensures r < |states[j].readers| && states[j].readers[r].Scanning?
    ensures var rd := states[j].readers[r];
            && (rd.cur.Some? ==> rd.cur.value in states[j].next && rd.cur.value !in states[j].freed)
            && (forall a, b :: 0 <= a < b < |rd.seen| ==> rd.seen[a] != rd.seen[b])
            && forall a :: 0 <= a < |rd.seen| ==>
                 rd.seen[a] in states[j].h.linkedAt
                     && (OnChain(states[i], rd.seen[a]) || rd.seen[a] !in states[i].h.linkedAt)
  {
    ScanSince(states, steps, r, i, j);
    RunInv(states, steps, i);
    RunInv(states, steps, j);
    var rd := states[j].readers[r];
    assert GoodReader(states[j], rd);
    if rd.cur.Some? {
      CurIsLive(states[j], r);
    }
    SeenDiffer(states[j].h, rd.since, rd.cur, rd.seen);
    forall a | 0 <= a < |rd.seen|
      ensures rd.seen[a] in states[j].h.linkedAt
      ensures (OnChain(states[i], rd.seen[a]) || rd.seen[a] !in states[i].h.linkedAt)
    {
      assert Reached(states[j].h, rd.since, Some(rd.seen[a]));
      SeenWasLinked(states, steps, r, i, j, rd.seen[a]);
    }
  }

  lemma SeenDiffer(h: History, since: nat, cur: Option<Node>, seen: seq<Node>)
    requires Ascending(h, since, cur, seen)
    ensures forall a, b :: 0 <= a < b < |seen| ==> seen[a] != seen[b]
  {
    forall a, b | 0 <= a < b < |seen|
      ensures seen[a] != seen[b]
    {
      assert Before(h, seen[a], Some(seen[b]));
    }
  }

  /** A node the scan has reached was on the chain when it began, or was published later. */
  lemma SeenWasLinked(states: seq<State>, steps: seq<Step>, r: nat, i: nat, j: nat, x: Node)
    requires SameScan(states, steps, r, i, j) && Reached(states[j].h, states[i].now, Some(x))
    ensures OnChain(states[i], x) || x !in states[i].h.linkedAt
  {
    RunInv(states, steps, i);
    RunInv(states, steps, j);
    ChainIsLinked(states[i], x);
    if x in states[i].h.unlinkedAt {
      PublishTimeStays(states, steps, i, j, x);
    }
  }

  // ---------- Why nodes must be unlinked first ----------

  /** Reader r's scan stands on memory that has been reclaimed. */
  predicate OnReclaimed(s: State, r: nat) {
    && r < |s.readers| && s.readers[r].Scanning? && s.readers[r].cur.Some?
    && s.readers[r].cur.value in s.freed && s.readers[r].cur.value !in s.next
  }

  ghost predicate Leads(states: seq<State>, steps: seq<Step>, s: State, d: State) {
    && |states| == |steps| + 1 && states[0] == s && states[|steps|] == d
    && forall i :: 0 <= i < |steps| ==>
         Enabled(states[i], steps[i]) && Proper(states[i], steps[i]) && states[i + 1] == Do(states[i], steps[i])
  }

  /** d can follow s by proper steps. */
  ghost predicate CanFollow(s: State, d: State) {
    exists states, steps :: Leads(states, steps, s, d)
  }

  /** However the run goes on properly, no scan will stand on reclaimed memory. */
  ghost predicate Safe(s: State) {
    forall d, r: nat :: CanFollow(s, d) ==> !OnReclaimed(d, r)
  }

  lemma FollowNone(s: State)
    ensures CanFollow(s, s)
  {
    assert Leads([s], [], s, s);
  }

  lemma FollowOn(s: State, d: State, step: Step)
    requires CanFollow(s, d) && Enabled(d, step) && Proper(d, step)
    ensures CanFollow(s, Do(d, step))
  {
    var states, steps :| Leads(states, steps, s, d);
    assert Leads(states + [Do(d, step)], steps + [step], s, Do(d, step));
  }

  lemma {:induction false} LeadsKeepInv(states: seq<State>, steps: seq<Step>, s: State, d: State, k: nat)
    requires Leads(states, steps, s, d) && Inv(s) && k <= |steps|
    ensures Inv(states[k])
  {
    if k > 0 {
      LeadsKeepInv(states, steps, s, d, k - 1);
      StepKeepsInv(states[k - 1], steps[k - 1]);
    }
  }

  lemma InvIsSafe(s: State)
    requires Inv(s)
    ensures Safe(s)
  {
    forall d, r: nat | CanFollow(s, d)
      ensures !OnReclaimed(d, r)
    {
      var states, steps :| Leads(states, steps, s, d);
      LeadsKeepInv(states, steps, s, d, |steps|);
      if OnReclaimed(d, r) {
        CurIsLive(d, r);
      }
    }
  }

  /** The scans of the first k readers come to an end. */
  lemma {:induction false} EndScans(s: State, k: nat) returns (d: State)
    requires k <= |s.readers|
    ensures CanFollow(s, d) && d == s.(readers := d.readers) && |d.readers| == |s.readers|
    ensures forall r :: 0 <= r < k ==> d.readers[r].Idle?
  {
    if k == 0 {
      d := s;
      FollowNone(s);
    } else {
      d := EndScans(s, k - 1);
      if d.readers[k - 1].Scanning? {
        FollowOn(s, d, End(k - 1));
        d := Do(d, End(k - 1));
      }
    }
  }

  /** e is `was` without the memory of x, and reader 0 is on its way to x. */
  ghost predicate OnTheWay(was: State, e: State, x: Node) {
    && was.h.Linked(x) && e.next == was.next - {x} && x in e.freed && |e.readers| > 0 && e.readers[0].Scanning?
    && x in was.h.rank
    && var c := e.readers[0].cur;
       c.Some? && was.h.Linked(c.value) && c.value in was.h.rank && was.h.rank[c.value] <= was.h.rank[x]
  }

  lemma AdvanceOnTheWay(was: State, e: State, x: Node)
    requires Inv(was) && OnTheWay(was, e, x) && e.readers[0].cur != Some(x)
    ensures Enabled(e, Advance(0)) && OnTheWay(was, Do(e, Advance(0)), x)
    ensures was.h.rank[e.readers[0].cur.value] < was.h.rank[Do(e, Advance(0)).readers[0].cur.value]
  {
    var c := e.readers[0].cur.value;
    assert was.h.rank[c] != was.h.rank[x];
    NextTowards(was, Some(c), x);
    assert GoodPointer(was.h, Some(c), was.next[c]);
  }

  lemma {:induction false} ScanReaches(was: State, s: State, e: State, x: Node)
    requires Inv(was) && CanFollow(s, e) && OnTheWay(was, e, x)
    ensures !Safe(s)
    decreases was.h.rank[x] - was.h.rank[e.readers[0].cur.value]
  {
    if e.readers[0].cur == Some(x) {
      assert OnReclaimed(e, 0);
    } else {
      AdvanceOnTheWay(was, e, x);
      FollowOn(s, e, Advance(0));
      ScanReaches(was, s, Do(e, Advance(0)), x);
    }
  }

  /** A node handed to CALL_RCU while linked: all scans end, it is reclaimed, and the next scan finds it. */
  lemma RetiringLinkedIsUnsafe(s: State, x: Node)
    requires Inv(s) && Enabled(s, Retire(x)) && s.h.Linked(x) && |s.readers| > 0
    ensures !Safe(Do(s, Retire(x)))
  {
    var t := Do(s, Retire(x));
    var d := EndScans(t, |t.readers|);
    FollowOn(t, d, Reclaim(x));
    d := Do(d, Reclaim(x));
    FollowOn(t, d, Begin(0));
    d := Do(d, Begin(0));
    NextTowards(s, None, x);
    ScanReaches(s, t, d, x);
  }

  /** From a good state a step leaves all scans safe for ever exactly when it retires no linked node. */
  lemma SafeIffProper(s: State, step: Step)
    requires Inv(s) && Enabled(s, step) && |s.readers| > 0
    ensures Safe(Do(s, step)) <==> Proper(s, step)
  {
    if Proper(s, step) {
      StepKeepsInv(s, step);
      InvIsSafe(Do(s, step));
    } else {
      RetiringLinkedIsUnsafe(s, step.node);
    }
  }

  lemma SafeStepIsProper(s: State, step: Step)
    requires Inv(s) && Enabled(s, step) && |s.readers| > 0 && Safe(Do(s, step))
    ensures Proper(s, step) && Inv(Do(s, step)) && |Do(s, step).readers| == |s.readers|
  {
    SafeIffProper(s, step);
    StepKeepsInv(s, step);
  }

  lemma {:induction false} SafeRunIsProper(states: seq<State>, steps: seq<Step>, k: nat)
    requires IsRun(states, steps) && |states[0].readers| > 0 && k <= |steps|
    requires forall i :: 0 <= i <= k ==> Safe(states[i])
    ensures Inv(states[k]) && |states[k].readers| == |states[0].readers|
    ensures forall i :: 0 <= i < k ==> Proper(states[i], steps[i])
  {
    if k == 0 {
      InitInv(states[0]);
    } else {
      SafeRunIsProper(states, steps, k - 1);
      assert Enabled(states[k - 1], steps[k - 1]) && states[k] == Do(states[k - 1], steps[k - 1]);
      SafeStepIsProper(states[k - 1], steps[k - 1]);
    }
  }

  /** The rule is exactly what lock-free scans need: a run keeps to it exactly when all of its states are safe. */
  lemma ProperIffSafe(states: seq<State>, steps: seq<Step>)
    requires IsRun(states, steps) && |states[0].readers| > 0
    ensures ProperRun(states, steps) <==> forall k :: 0 <= k < |states| ==> Safe(states[k])
  {
    if ProperRun(states, steps) {
      forall k | 0 <= k < |states|
        ensures Safe(states[k])
      {
        RunInv(states, steps, k);
        InvIsSafe(states[k]);
      }
    }
    if forall k :: 0 <= k < |states| ==> Safe(states[k]) {
      SafeRunIsProper(states, steps, |steps|);
    }
  }
}
