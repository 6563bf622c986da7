/**
 Prefix lengths to masks: IPV4_BITS_TO_MASK (ofcdriver/include/ipsec_ldef.h) and
 of_ipsec_ipv6_addr_prefix_to_mask (ofcdriver/include/ipsec_nb_utils.h).  A prefix of p bits selects
 the addresses whose leading p bits are given: section 3.1 of RFC 4632, section 2.3 of RFC 4291.
 */
module PrefixMask {
  import opened Numbers

  /** IPV4_BITS_TO_MASK. */
  function Ipv4Mask(bits: nat): (r: nat) {
    if bits > 32 then 0xffff_ffff else if bits == 0 then 0 else Shl(0xffff_ffff, 32 - bits, 32)
  }

  /** As a number, the mask of b bits is 2^32 - 2^(32 - b). */
  lemma Ipv4MaskIs(bits: nat)
    ensures Ipv4Mask(bits) == HighMask(32, if bits > 32 then 32 else bits)
  {
    Pow2Words();
    assert Pow2(0) == 1;
    if 0 < bits <= 32 {
      ShlMask(32, 0, 32 - bits);
    }
  }

  /** The byte 0xff << (8 - bits). */
  lemma PartialByte(bits: nat)
    requires 0 < bits < 8
    ensures Pow2(8 - bits) <= 256 && Shl(0xff, 8 - bits, 8) == 256 - Pow2(8 - bits) < 256
  {
    Pow2Words();
    assert Pow2(0) == 1;
    ShlMask(8, 0, 8 - bits);
  }

  /** Byte k of the mask of plen bits. */
  function MaskByte(plen: nat, k: nat): (r: byte) {
    if k < plen / 8 then 0xff
    else if k == plen / 8 && plen % 8 != 0 then
      PartialByte(plen % 8);
      Shl(0xff, 8 - plen % 8, 8)
    else 0
  }

  /** The sixteen bytes of_ipsec_ipv6_addr_prefix_to_mask leaves. */
  function Ipv6Mask(plen: nat): (r: seq<byte>)
    ensures |r| == 16 && forall k :: 0 <= k < 16 ==> r[k] == MaskByte(plen, k)
  {
    seq(16, k requires 0 <= k => MaskByte(plen, k))
  }

  /** of_ipsec_ipv6_addr_prefix_to_mask. */
  method Ipv6AddrPrefixToMask(plen: nat, addr: array<byte>)
    requires plen <= 128 && addr.Length == 16
    modifies addr
    ensures addr[..] == Ipv6Mask(plen)
  {
    var bytes, bits := plen / 8, plen % 8;
    for i := 0 to 16
      invariant forall k :: 0 <= k < i ==> addr[k] == 0
    {
      addr[i] := 0;
    }
    for i := 0 to bytes
      invariant forall k :: 0 <= k < 16 ==> addr[k] == if k < i then 0xff else 0
    {
      addr[i] := 0xff;
    }
    if bits != 0 {
      PartialByte(bits);
      addr[bytes] := Shl(0xff, 8 - bits, 8);
    }
    assert forall k :: 0 <= k < 16 ==> addr[k] == MaskByte(plen, k);
  }

  lemma MaskByteValue(plen: nat, k: nat)
    ensures var p, n := plen, 8 * (k + 1);
              MaskByte(plen, k) == if n <= p then 255 else if p <= 8 * k then 0 else 256 - Pow2(n - p)
  {
    if k == plen / 8 && plen % 8 != 0 {
      PartialByte(plen % 8);
      assert 8 * (k + 1) - plen == 8 - plen % 8;
    }
  }

  /** One more byte of mask. */
  lemma MaskGrows(plen: nat, k: nat)
    ensures var m, n := 8 * k, 8 * (k + 1);
              HighMask(n, if plen <= n then plen else n) ==
                  256 * HighMask(m, if plen <= m then plen else m) + MaskByte(plen, k)
  {
    MaskByteValue(plen, k);
    Pow2Words();
    assert Pow2(0) == 1;
    Pow2Sum(8, 8 * k);
    assert 8 + 8 * k == 8 * (k + 1);
    if plen <= 8 * k {
      Pow2Sum(8, 8 * k - plen);
      assert 8 + (8 * k - plen) == 8 * (k + 1) - plen;
    }
  }

  lemma {:induction false} MaskPrefix(plen: nat, n: nat)
    requires n <= 16
    ensures Num(Ipv6Mask(plen)[..n]) == HighMask(8 * n, if plen <= 8 * n then plen else 8 * n)
  {
    if n > 0 {
      MaskPrefix(plen, n - 1);
      MaskGrows(plen, n - 1);
      var b := Ipv6Mask(plen);
      assert b[..n][..n - 1] == b[..n - 1];
    }
  }

  /** As a number, the mask of plen bits is 2^128 - 2^(128 - plen). */
  lemma Ipv6MaskIs(plen: nat)
    requires plen <= 128
    ensures Num(Ipv6Mask(plen)) == HighMask(128, plen)
  {
    MaskPrefix(plen, 16);
    assert Ipv6Mask(plen)[..16] == Ipv6Mask(plen);
  }

  /** Two IPv4 addresses agree under the macro's mask exactly when their leading bits agree. */
  lemma Ipv4PrefixMatch(a: nat, b: nat, bits: nat)
    requires a <= 0xffff_ffff && b <= 0xffff_ffff && bits <= 32
    ensures And(a, Ipv4Mask(bits)) == And(b, Ipv4Mask(bits)) <==>
              forall i :: 32 - bits <= i < 32 ==> Bit(a, i) == Bit(b, i)
  {
    Pow2Words();
    Ipv4MaskIs(bits);
    AgreeUnderMask(a, b, 32, bits);
  }

  /** Two IPv6 addresses agree under the function's mask exactly when their leading bits agree. */
  lemma Ipv6PrefixMatch(a: nat, b: nat, plen: nat)
    requires a < Pow2(128) && b < Pow2(128) && plen <= 128
    ensures And(a, Num(Ipv6Mask(plen))) == And(b, Num(Ipv6Mask(plen))) <==>
              forall i :: 128 - plen <= i < 128 ==> Bit(a, i) == Bit(b, i)
  {
    Ipv6MaskIs(plen);
    AgreeUnderMask(a, b, 128, plen);
  }
}
