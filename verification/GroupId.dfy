/** The cyclic group id generator OF_GROUP_GENERATE_GROUP_ID (ofcdriver/include/cntrlappcmn.h, lines 140 to 150). */
module GroupId {
  const MAX_GROUP_ID := 4095
  const MIN_GROUP_ID := 1000
  const PERIOD := MAX_GROUP_ID - MIN_GROUP_ID

  function Next(g: int): (r: int) {
    if g + 1 == MAX_GROUP_ID then MIN_GROUP_ID else g + 1
  }

  class Generator {
    var groupId: int   // group_id_g, which the program starts at 0

    constructor (start: int)
      ensures groupId == start
    {
      groupId := start;
    }

    method Generate() returns (id: int)
      modifies this
      ensures id == groupId == Next(old(groupId))
    {
      groupId := groupId + 1;
      if groupId == MAX_GROUP_ID {
        groupId := MIN_GROUP_ID;
      }
      id := groupId;
    }

    /** n ids in a row. */
    method GenerateAll(n: nat) returns (ids: seq<int>)
      modifies this
      ensures |ids| == n && groupId == Id(old(groupId), n)
      ensures forall k :: 0 <= k < n ==> ids[k] == Id(old(groupId), k + 1)
    {
      ids := [];
      for i := 0 to n
        invariant |ids| == i && groupId == Id(old(groupId), i)
        invariant forall k :: 0 <= k < i ==> ids[k] == Id(old(groupId), k + 1)
      {
        var id := Generate();
        ids := ids + [id];
      }
    }
  }

  /** The k-th id from start on; the start itself is the 0-th. */
  function Id(start: int, k: nat): (r: int) {
    if k == 0 then start else Next(Id(start, k - 1))
  }

  /** Up to the maximum the ids just count. */
  lemma {:induction false} Climbs(start: int, k: nat)
    requires start + k < MAX_GROUP_ID
    ensures Id(start, k) == start + k
  {
    if k > 0 {
      Climbs(start, k - 1);
    }
  }

  /** From a start in the cycle the ids are the start plus their number, modulo the period. */
  lemma {:induction false} InCycle(start: int, k: nat)
    requires MIN_GROUP_ID <= start < MAX_GROUP_ID
    ensures Id(start, k) == MIN_GROUP_ID + (start - MIN_GROUP_ID + k) % PERIOD
  {
    if k > 0 {
      InCycle(start, k - 1);
      var n := start - MIN_GROUP_ID + k - 1;
      var q, r := n / PERIOD, n % PERIOD;
      assert n + 1 == q * PERIOD + (r + 1);
      if r + 1 == PERIOD {
        assert n + 1 == (q + 1) * PERIOD;
      }
    }
  }

  lemma {:induction false} Later(start: int, j: nat, k: nat)
    ensures Id(start, j + k) == Id(Id(start, j), k)
    decreases k
  {
    if k > 0 {
      Later(start, j, k - 1);
      assert Id(start, j + k) == Next(Id(start, j + (k - 1)));
    }
  }

  /** Every id is in [1000, 4094] exactly when the generator starts in [999, 4094]. */
  lemma InRangeIff(start: int)
    ensures (forall k: nat :: k >= 1 ==> MIN_GROUP_ID <= Id(start, k) < MAX_GROUP_ID) <==>
            MIN_GROUP_ID - 1 <= start < MAX_GROUP_ID
  {
    if MIN_GROUP_ID - 1 <= start < MAX_GROUP_ID {
      forall k: nat | k >= 1
        ensures MIN_GROUP_ID <= Id(start, k) < MAX_GROUP_ID
      {
        Later(start, 1, k - 1);
        assert Id(start, 1) == Next(Id(start, 0));
        InCycle(Id(start, 1), k - 1);
      }
    } else {
      assert Id(start, 1) == Next(Id(start, 0));
      assert !(MIN_GROUP_ID <= Id(start, 1) < MAX_GROUP_ID);
    }
  }

  /** The program starts at 0, so its first 999 ids are below the range and all later ones in it. */
  lemma FirstIdsAreBelowRange(k: nat)
    requires k >= 1
    ensures 1 <= Id(0, k) < MAX_GROUP_ID && (Id(0, k) < MIN_GROUP_ID <==> k < MIN_GROUP_ID)
  {
    if k < MIN_GROUP_ID {
      Climbs(0, k);
    } else {
      Climbs(0, MIN_GROUP_ID - 1);
      Later(0, MIN_GROUP_ID - 1, k - (MIN_GROUP_ID - 1));
      InRangeIff(MIN_GROUP_ID - 1);
    }
  }

  lemma EqualRemainders(a: nat, b: nat)
    requires a <= b
    ensures a % PERIOD == b % PERIOD <==> (b - a) % PERIOD == 0
  {
    var p, r := a / PERIOD, a % PERIOD;
    var q, s := b / PERIOD, b % PERIOD;
    assert a == p * PERIOD + r && b == q * PERIOD + s;
    if r == s {
      assert b - a == (q - p) * PERIOD;
    } else if s > r {
      assert b - a == (q - p) * PERIOD + (s - r);
    } else {
      assert b - a == (q - p - 1) * PERIOD + (PERIOD + s - r);
    }
  }

  /** Two ids of a run are equal exactly when a multiple of 3095 calls lies between them: any 3095 in a row differ. */
  lemma PeriodIsExact(start: int, j: nat, k: nat)
    requires MIN_GROUP_ID - 1 <= start < MAX_GROUP_ID && 1 <= j <= k
    ensures Id(start, j) == Id(start, k) <==> (k - j) % PERIOD == 0
  {
    var first := Id(start, 1);
    assert first == Next(Id(start, 0));
    Later(start, 1, j - 1);
    Later(start, 1, k - 1);
    InCycle(first, j - 1);
    InCycle(first, k - 1);
    EqualRemainders(first - MIN_GROUP_ID + j - 1, first - MIN_GROUP_ID + k - 1);
  }
}
