/** The magic numbers a hash table gives its slots (ofcdriver/include/mchash.h, lines 310 to 312). */
module Magic {
  import opened Common

  /** The magic number after m: a uint32_t increment that skips 0. */
  function NextMagic(m: nat): (r: nat) {
    if (m + 1) % UINT32 == 0 then 1 else (m + 1) % UINT32
  }

  /** The magic number handed out k allocations after m. */
  function MagicAfter(m: nat, k: nat): (r: nat)
    requires 1 <= m < UINT32
    ensures 1 <= r < UINT32
  {
    if k == 0 then m else NextMagic(MagicAfter(m, k - 1))
  }

  lemma {:induction false} MagicAfterNext(m: nat, k: nat)
    requires 1 <= m < UINT32 && k > 0
    ensures MagicAfter(NextMagic(m), k - 1) == MagicAfter(m, k)
    decreases k
  {
    if k > 1 {
      MagicAfterNext(m, k - 1);
    } else {
      assert MagicAfter(m, 0) == m;
    }
  }

  lemma Remainder(q: int, r: nat)
    requires r < UINT32 - 1
    ensures (q * (UINT32 - 1) + r) % (UINT32 - 1) == r
  {
  }

  /** Counting on modulo 2^32 - 1. */
  lemma RemainderNext(n: nat)
    ensures (n + 1) % (UINT32 - 1) == if n % (UINT32 - 1) == UINT32 - 2 then 0 else n % (UINT32 - 1) + 1
  {
    var q, r := n / (UINT32 - 1), n % (UINT32 - 1);
    assert n + 1 == q * (UINT32 - 1) + r + 1;
    if r == UINT32 - 2 {
      assert n + 1 == (q + 1) * (UINT32 - 1);
      Remainder(q + 1, 0);
    } else {
      Remainder(q, r + 1);
    }
  }

  lemma NextIs(r: nat)
    requires r < UINT32 - 1
    ensures NextMagic(r + 1) == if r == UINT32 - 2 then 1 else r + 2
  {
  }

  lemma {:induction false} MagicIs(m: nat, k: nat)
    requires 1 <= m < UINT32
    ensures MagicAfter(m, k) == (m - 1 + k) % (UINT32 - 1) + 1
  {
    if k == 0 {
      Remainder(0, m - 1);
    } else {
      MagicIs(m, k - 1);
      RemainderNext(m - 1 + k - 1);
      NextIs((m - 1 + k - 1) % (UINT32 - 1));
      assert m - 1 + k - 1 + 1 == m - 1 + k;
    }
  }

  /** Counting k on from a comes back to a exactly after whole periods. */
  lemma SameRemainder(a: nat, k: nat)
    requires a < UINT32 - 1
    ensures (a + k) % (UINT32 - 1) == a <==> k % (UINT32 - 1) == 0
  {
    var q, r := k / (UINT32 - 1), k % (UINT32 - 1);
    assert a + k == q * (UINT32 - 1) + (a + r);
    if a + r < UINT32 - 1 {
      Remainder(q, a + r);
    } else {
      assert a + k == (q + 1) * (UINT32 - 1) + (a + r - (UINT32 - 1));
      Remainder(q + 1, a + r - (UINT32 - 1));
    }
  }

  /** Issued magics are never 0 and repeat with period exactly 2^32 - 1. */
  lemma MagicPeriod(m: nat, k: nat)
    requires 1 <= m < UINT32
    ensures MagicAfter(m, k) != 0
    ensures MagicAfter(m, k) == m <==> k % (UINT32 - 1) == 0
  {
    MagicIs(m, k);
    SameRemainder(m - 1, k);
  }

  /** Within a period no magic comes back. */
  lemma MagicIsNew(m: nat, k: nat)
    requires 1 <= m < UINT32 && 1 <= k < UINT32 - 1
    ensures MagicAfter(m, k) != m
  {
    MagicPeriod(m, k);
  }
}
