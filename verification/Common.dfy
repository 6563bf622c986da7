/** Small vocabulary shared by the models. */
module Common {
  /** What a uint32_t wraps around at. */
  const UINT32: nat := 0x1_0000_0000

  /** uint32_t ++ and --. */
  function Increment(c: nat): (r: nat)
    requires c < UINT32
    ensures r < UINT32 && r == (c + 1) % UINT32
  {
    if c == UINT32 - 1 then 0 else c + 1
  }

  function Decrement(c: nat): (r: nat)
    requires c < UINT32
    ensures r < UINT32 && c == (r + 1) % UINT32
  {
    if c == 0 then UINT32 - 1 else c - 1
  }

  datatype Option<+T> = None | Some(value: T)

  /** 1 for true. */
  function B(b: bool): nat { if b then 1 else 0 }

  ghost predicate Distinct<T>(s: seq<T>) {
    forall i, j :: 0 <= i < j < |s| ==> s[i] != s[j]
  }

  function InsertAt<T>(s: seq<T>, k: nat, x: T): (r: seq<T>)
    requires k <= |s|
  {
    s[..k] + [x] + s[k..]
  }

  function RemoveAt<T>(s: seq<T>, k: nat): (r: seq<T>)
    requires k < |s|
  {
    s[..k] + s[k + 1..]
  }

  /** s with every x taken out. */
  function Without<T(==)>(s: seq<T>, x: T): (r: seq<T>)
    ensures x !in r && |r| <= |s|
    ensures forall y :: y in s && y != x ==> y in r
    ensures forall y :: y in r ==> y in s
    ensures x !in s ==> r == s
  {
    if s == [] then [] else if s[0] == x then Without(s[1..], x) else [s[0]] + Without(s[1..], x)
  }

  lemma {:induction false} WithoutDistinct<T>(s: seq<T>, x: T)
    requires Distinct(s)
    ensures Distinct(Without(s, x))
    ensures x in s ==> |Without(s, x)| == |s| - 1
  {
    if s != [] {
      WithoutDistinct(s[1..], x);
      assert s[0] !in s[1..] && s[0] !in Without(s[1..], x);
    }
  }

  /** Distinct numbers below n: at most n of them. */
  lemma {:induction false} Pigeonhole(s: seq<int>, n: nat)
    requires Distinct(s) && forall i :: i in s ==> 0 <= i < n
    ensures |s| <= n
    decreases n
  {
    if n == 0 {
      assert forall i :: 0 <= i < |s| ==> s[i] in s;
    } else {
      WithoutDistinct(s, n - 1);
      Pigeonhole(Without(s, n - 1), n - 1);
    }
  }

  lemma InsertDistinct<T>(s: seq<T>, k: nat, x: T)
    requires Distinct(s) && x !in s && k <= |s|
    ensures Distinct(InsertAt(s, k, x))
    ensures forall y :: y in s || y == x <==> y in InsertAt(s, k, x)
  {
    var r := InsertAt(s, k, x);
    forall y | y in s
      ensures y in r
    {
      var i :| 0 <= i < |s| && s[i] == y;
      assert r[if i < k then i else i + 1] == y;
    }
    assert r[k] == x;
  }

  lemma RemoveDistinct<T>(s: seq<T>, k: nat)
    requires Distinct(s) && k < |s|
    ensures Distinct(RemoveAt(s, k))
    ensures forall y :: y in RemoveAt(s, k) <==> y in s && y != s[k]
  {
    var r := RemoveAt(s, k);
    forall y | y in s && y != s[k]
      ensures y in r
    {
      var i :| 0 <= i < |s| && s[i] == y;
      assert r[if i < k then i else i - 1] == y;
    }
  }

  lemma {:induction false} WithoutAt<T>(s: seq<T>, k: nat)
    requires Distinct(s) && k < |s|
    ensures Without(s, s[k]) == RemoveAt(s, k)
  {
    var rest := s[1..];
    if k == 0 {
      assert s[0] !in rest;
      assert RemoveAt(s, 0) == rest;
    } else {
      WithoutAt(rest, k - 1);
      assert rest[k - 1] == s[k];
      assert [s[0]] + RemoveAt(rest, k - 1) == RemoveAt(s, k);
    }
  }
}
