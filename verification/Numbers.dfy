/** Bytes, bits and big-endian numbers, without any wide bit-vector. */
module Numbers {
  type byte = x: int | 0 <= x < 256

  function Pow2(n: nat): (r: nat)
    ensures r >= 1
  {
    if n == 0 then 1 else 2 * Pow2(n - 1)
  }

  lemma {:induction false} Pow2Sum(m: nat, n: nat)
    ensures Pow2(m + n) == Pow2(m) * Pow2(n)
  {
    if m > 0 {
      Pow2Sum(m - 1, n);
      assert Pow2(m + n) == 2 * Pow2(m - 1 + n);
    }
  }

  lemma Pow2Words()
    ensures Pow2(8) == 0x100 && Pow2(16) == 0x1_0000 && Pow2(32) == 0x1_0000_0000
  {
    Pow2Sum(8, 8);
    Pow2Sum(16, 16);
  }

  lemma {:induction false} Pow2Monotone(m: nat, n: nat)
    requires m <= n
    ensures Pow2(m) <= Pow2(n)
  {
    if m < n {
      Pow2Monotone(m, n - 1);
    }
  }

  /** a >> k. */
  function Shr(a: nat, k: nat): (r: nat) {
    if k == 0 then a else Shr(a / 2, k - 1)
  }

  /** a << k in an unsigned integer of w bits. */
  function Shl(a: nat, k: nat, w: nat): (r: nat)
    decreases k
  {
    if k == 0 then a else Shl((2 * a) % Pow2(w), k - 1, w)
  }

  /** a & b. */
  function And(a: nat, b: nat): (r: nat) {
    if a == 0 || b == 0 then 0 else 2 * And(a / 2, b / 2) + (a % 2) * (b % 2)
  }

  predicate Bit(a: nat, i: nat) {
    Shr(a, i) % 2 == 1
  }

  /** The mask of the leading p bits of w. */
  function HighMask(w: nat, p: nat): (r: nat)
    requires p <= w
  {
    Pow2Monotone(w - p, w);
    Pow2(w) - Pow2(w - p)
  }

  lemma ModOnce(m: nat, r: nat)
    requires r < m
    ensures (m + r) % m == r
  {
  }

  /** Shifting a mask left takes the ones that leave the word away. */
  lemma {:induction false} ShlMask(w: nat, j: nat, k: nat)
    requires j + k <= w && Pow2(j) <= Pow2(w)
    ensures Pow2(j + k) <= Pow2(w) && Shl(Pow2(w) - Pow2(j), k, w) == Pow2(w) - Pow2(j + k)
    decreases k
  {
    if k > 0 {
      Pow2Monotone(j + 1, w);
      ModOnce(Pow2(w), Pow2(w) - Pow2(j + 1));
      assert 2 * (Pow2(w) - Pow2(j)) == Pow2(w) + (Pow2(w) - Pow2(j + 1));
      ShlMask(w, j + 1, k - 1);
      assert j + 1 + (k - 1) == j + k;
    }
  }

  lemma {:induction false} AndAllOnes(a: nat, w: nat)
    requires a < Pow2(w)
    ensures And(a, Pow2(w) - 1) == a
  {
    if a > 0 {
      assert w > 0 && (Pow2(w) - 1) / 2 == Pow2(w - 1) - 1 && (Pow2(w) - 1) % 2 == 1;
      AndAllOnes(a / 2, w - 1);
    }
  }

  /** Below the mask's lowest bit nothing counts: the masked values agree exactly when what is above it does. */
  lemma {:induction false} MaskedAgree(a: nat, b: nat, w: nat, k: nat)
    requires a < Pow2(w) && b < Pow2(w) && k <= w && Pow2(k) <= Pow2(w)
    ensures And(a, Pow2(w) - Pow2(k)) == And(b, Pow2(w) - Pow2(k)) <==> Shr(a, k) == Shr(b, k)
    decreases k
  {
    if k == 0 {
      AndAllOnes(a, w);
      AndAllOnes(b, w);
    } else {
      var m := Pow2(w) - Pow2(k);
      assert m == 2 * (Pow2(w - 1) - Pow2(k - 1));
      assert m / 2 == Pow2(w - 1) - Pow2(k - 1) && m % 2 == 0;
      MaskedAgree(a / 2, b / 2, w - 1, k - 1);
      AndEven(a, m);
      AndEven(b, m);
    }
  }

  lemma AndEven(a: nat, m: nat)
    requires m % 2 == 0
    ensures And(a, m) == 2 * And(a / 2, m / 2)
  {
  }

  lemma {:induction false} ShrSmall(a: nat, w: nat)
    requires a < Pow2(w)
    ensures Shr(a, w) == 0
  {
    if w > 0 {
      ShrSmall(a / 2, w - 1);
    }
  }

  lemma {:induction false} ShrStep(a: nat, k: nat)
    ensures Shr(a, k + 1) == Shr(a, k) / 2
  {
    if k > 0 {
      ShrStep(a / 2, k - 1);
    }
  }

  /** What is above bit k agrees exactly when each of those bits does. */
  lemma {:induction false} ShrAgree(a: nat, b: nat, w: nat, k: nat)
    requires a < Pow2(w) && b < Pow2(w) && k <= w
    ensures Shr(a, k) == Shr(b, k) <==> forall i :: k <= i < w ==> Bit(a, i) == Bit(b, i)
    decreases w - k
  {
    if k == w {
      ShrSmall(a, w);
      ShrSmall(b, w);
    } else {
      ShrStep(a, k);
      ShrStep(b, k);
      ShrAgree(a, b, w, k + 1);
      assert Bit(a, k) == Bit(b, k) <==> Shr(a, k) % 2 == Shr(b, k) % 2;
    }
  }

  /** Two w-bit numbers agree under the mask of the leading p bits exactly when those bits agree. */
  lemma AgreeUnderMask(a: nat, b: nat, w: nat, p: nat)
    requires a < Pow2(w) && b < Pow2(w) && p <= w
    ensures And(a, HighMask(w, p)) == And(b, HighMask(w, p)) <==> forall i :: w - p <= i < w ==> Bit(a, i) == Bit(b, i)
  {
    Pow2Monotone(w - p, w);
    MaskedAgree(a, b, w, w - p);
    ShrAgree(a, b, w, w - p);
  }

  /** A longer prefix matches no more than a shorter one. */
  lemma LongerPrefixMatchesLess(a: nat, b: nat, w: nat, p: nat, q: nat)
    requires a < Pow2(w) && b < Pow2(w) && p <= q <= w && And(a, HighMask(w, q)) == And(b, HighMask(w, q))
    ensures And(a, HighMask(w, p)) == And(b, HighMask(w, p))
  {
    AgreeUnderMask(a, b, w, p);
    AgreeUnderMask(a, b, w, q);
  }

  // ---------- Big-endian bytes ----------

  /** The number b spells in network byte order. */
  function Num(b: seq<byte>): (r: nat) {
    if b == [] then 0 else 256 * Num(b[..|b| - 1]) + b[|b| - 1]
  }

  /** htons and htonl: the low k bytes of n in network byte order. */
  function Be(n: nat, k: nat): (r: seq<byte>)
    ensures |r| == k
    decreases k
  {
    if k == 0 then [] else Be(n / 256, k - 1) + [n % 256]
  }

  lemma {:induction false} NumOfBe(n: nat, k: nat)
    requires n < Pow2(8 * k)
    ensures Num(Be(n, k)) == n
    decreases k
  {
    if k > 0 {
      Pow2Sum(8, 8 * (k - 1));
      assert Pow2(8) == 256;
      assert 8 * k == 8 + 8 * (k - 1);
      NumOfBe(n / 256, k - 1);
      assert Be(n, k)[..k - 1] == Be(n / 256, k - 1);
    }
  }

  lemma {:induction false} NumBound(b: seq<byte>)
    ensures Num(b) < Pow2(8 * |b|)
  {
    if b != [] {
      NumBound(b[..|b| - 1]);
      Pow2Sum(8, 8 * (|b| - 1));
      assert Pow2(8) == 256;
      assert 8 * |b| == 8 + 8 * (|b| - 1);
    }
  }

  /** The low byte alone. */
  lemma LowByte(n: nat)
    ensures Num(Be(n, 1)) == n % 0x100
  {
    assert Be(n / 256, 0) == [];
    assert Be(n, 1) == [n % 256];
  }
}
