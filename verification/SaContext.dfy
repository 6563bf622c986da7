/**
 A security association's OpenFlow action: the properties it consists of
 (ofcdriver/l3extutils/ipsec_of_extn.c, lines 449 to 803), and the length
 of_ipsec_calculate_sa_ctx_msg_len computes for it (ofcdriver/include/ipsec_nb_utils.h, lines 442 to 518).
 */
module SaContext {
  import opened Common
  import opened Numbers
  import opened PrefixMask
  import IpsecSelector
  import opened SaProperty

  const UINT8: nat := 0x100

  const AUTH_ALG_NONE: nat := 1
  const ENC_ALG_NULL: nat := 1
  const NATV1: nat := 1
  const NATV2: nat := 2

  /** sizeof of the structures, as ofcdriver/l3extutils/include/fsl_ext.h names them. */
  const SA_CREATE_LEN: nat := 24
  const AUTH_ALGO_INFO_LEN: nat := 16
  const ENC_ALGO_INFO_LEN: nat := 8
  const ENC_AUTH_ALGO_INFO_LEN: nat := 16
  const IV_INFO_LEN: nat := 8
  const IPV4_UDP_ENCAP_INFO_LEN: nat := 16
  const IPV6_UDP_ENCAP_INFO_LEN: nat := 32
  const IPV4_SELECTOR_INFO_LEN: nat := 32
  const IPV6_SELECTOR_INFO_LEN: nat := 78
  const IPV4_TUNNEL_ENDS_INFO_LEN: nat := 16
  const IPV6_TUNNEL_ENDS_INFO_LEN: nat := 40
  const DSCP_RANGE_INFO_LEN: nat := 8

  /** An algorithm and its key, as long as keyBits says. */
  datatype Crypto = Crypto(algo: nat, keyBits: nat, key: seq<byte>)

  /** An address of either version; the program overlays the two. */
  datatype Ip = Ip(version: nat, v4: nat, v6: seq<byte>)

  /** Ports are given as their two bytes lie in memory: the writer does not convert them. */
  datatype SaSelector = SaSelector(
    version: nat, protocol: byte, ports: seq<seq<byte>>, src: IpsecSelector.Address, dst: IpsecSelector.Address)

  /** The parts of ipsec_sa that go into properties; `unset` is what a byte nobody writes holds. */
  datatype Sa = Sa(
    auth: Crypto, enc: Crypto, comb: Crypto, icvBits: nat, iv: Option<Crypto>,
    natVersion: nat, natSrcPort: nat, natDstPort: nat, natPeer: Ip,
    tunnel: nat, tunnelSrc: Ip, tunnelDst: Ip, dscpStart: byte, dscpEnd: byte,
    selectors: seq<SaSelector>, unset: byte)

  predicate TypedCrypto(c: Crypto) {
    |c.key| == c.keyBits / 8
  }

  predicate TypedSelector(s: SaSelector) {
    && IpsecSelector.TypedAddress(s.src) && IpsecSelector.TypedAddress(s.dst)
    && |s.ports| == 4 && |s.ports[0]| == |s.ports[1]| == |s.ports[2]| == |s.ports[3]| == 2
  }

  predicate Typed(sa: Sa) {
    && TypedCrypto(sa.auth) && TypedCrypto(sa.enc) && TypedCrypto(sa.comb)
    && (sa.iv.Some? ==> TypedCrypto(sa.iv.value))
    && |sa.natPeer.v6| == |sa.tunnelSrc.v6| == |sa.tunnelDst.v6| == 16
    && forall i :: 0 <= i < |sa.selectors| ==> TypedSelector(sa.selectors[i])
  }

  // ---------- Algorithms ----------

  /** IPSEC_SA_MAP_AUTH_ALGO_NF_API_TO_OF; an algorithm it does not know ends the writer. */
  function OfAuthAlgo(algo: nat): (r: Option<nat>) {
    if algo == 2 then Some(0)
    else if algo == 3 then Some(1)
    else if algo == 4 then Some(6)
    else if 5 <= algo <= 7 then Some(algo - 3)
    else None
  }

  /** IPSEC_SA_MAP_ENC_ALGO_NF_API_TO_OF. */
  function OfEncAlgo(algo: nat): (r: Option<nat>) {
    if algo == ENC_ALG_NULL then Some(4)
    else if 2 <= algo <= 3 then Some(algo - 2)
    else if 4 <= algo <= 5 then Some(algo + 1)
    else None
  }

  /** IPSEC_SA_MAP_COMB_MODE_ALGO_NF_API_TO_OF. */
  function OfCombAlgo(algo: nat): (r: Option<nat>) {
    if 1 <= algo <= 3 then Some(algo - 1) else None
  }

  // ---------- The properties ----------

  function Zeros(n: nat): (r: seq<byte>)
    ensures |r| == n && forall i :: 0 <= i < n ==> r[i] == 0
  {
    seq(n, i => 0)
  }

  predicate HasAuth(sa: Sa) {
    sa.auth.algo != 0 && sa.auth.algo != AUTH_ALG_NONE
  }

  function AuthProperty(sa: Sa, of: nat): (p: Property) {
    Property(AUTH_ALGO, [Be(of, 2), Be(sa.icvBits, 2), Be(sa.auth.keyBits, 2), Zeros(6)], sa.auth.key)
  }

  function EncProperty(sa: Sa, of: nat): (p: Property) {
    if sa.enc.algo == ENC_ALG_NULL then Property(ENCRYPT_ALGO, [Be(of, 2), Be(0, 2)], [])
    else Property(ENCRYPT_ALGO, [Be(of, 2), Be(sa.enc.keyBits, 2)], sa.enc.key)
  }

  function CombProperty(sa: Sa, of: nat): (p: Property) {
    Property(CMB_MODE_ALGO, [Be(of, 2), Be(sa.icvBits, 2), Be(sa.comb.keyBits, 2), Zeros(6)], sa.comb.key)
  }

  function SaltProperty(iv: Crypto): (p: Property) {
    Property(SALT, [Be(iv.keyBits, 2), Zeros(2)], iv.key)
  }

  function NatType(sa: Sa): (r: byte) {
    if sa.natVersion == NATV1 then 1 else if sa.natVersion == NATV2 then 2 else sa.unset
  }

  function Encap4Property(sa: Sa): (p: Property) {
    Property(IPV4_UDP_ENCAP,
             [[NatType(sa)], Zeros(3), Be(sa.natSrcPort, 2), Be(sa.natDstPort, 2), Be(sa.natPeer.v4, 4)], [])
  }

  function Encap6Property(sa: Sa): (p: Property) {
    Property(IPV6_UDP_ENCAP, [[NatType(sa)], Zeros(7), Be(sa.natSrcPort, 2), Be(sa.natDstPort, 2), sa.natPeer.v6], [])
  }

  function Tunnel4Property(sa: Sa): (p: Property) {
    Property(IPV4_TUNNEL_ENDS, [Be(sa.tunnelSrc.v4, 4), Be(sa.tunnelDst.v4, 4), Zeros(4)], [])
  }

  function Tunnel6Property(sa: Sa): (p: Property) {
    Property(IPV6_TUNNEL_ENDS, [Zeros(4), sa.tunnelSrc.v6, sa.tunnelDst.v6], [])
  }

  function DscpProperty(sa: Sa): (p: Property) {
    Property(DSCP_RANGE, [[sa.dscpStart], [sa.dscpEnd], Zeros(2)], [])
  }

  /** The source's address type decides for both addresses. */
  function Addresses4(s: SaSelector): (r: seq<seq<byte>>) {
    var a, b := s.src.v4, s.dst.v4;
    if s.src.addrType == IpsecSelector.ADDR_TYPE_SUBNET
    then [Be(a.addr, 4), Be(Ipv4Mask(a.plen), 4), Be(b.addr, 4), Be(Ipv4Mask(b.plen), 4)]
    else [Be(a.start, 4), Be(a.end, 4), Be(b.start, 4), Be(b.end, 4)]
  }

  /** For a range the writer takes the prefix view's address four times. */
  function Addresses6(s: SaSelector): (r: seq<seq<byte>>) {
    var a, b := s.src.v6, s.dst.v6;
    if s.src.addrType == IpsecSelector.ADDR_TYPE_SUBNET
    then [a.addr, Ipv6Mask(a.plen), b.addr, Ipv6Mask(b.plen)]
    else [a.addr, a.addr, b.addr, b.addr]
  }

  function SelectorProperty(s: SaSelector, unset: byte): (p: Property) {
    if s.version == IpsecSelector.IP_V4
    then Property(IPV4_SELECTOR, Addresses4(s) + s.ports + [[s.protocol], Zeros(3)], [])
    else Property(IPV6_SELECTOR, Addresses6(s) + s.ports + [[s.protocol], [unset]], [])
  }

  /** A part the writer comes to: a property, or None where it gives up. */
  type Part = Option<Property>

  function AuthPart(sa: Sa): (r: seq<Part>) {
    if !HasAuth(sa) then []
    else if sa.auth.keyBits == 0 || OfAuthAlgo(sa.auth.algo).None? then [None]
    else [Some(AuthProperty(sa, OfAuthAlgo(sa.auth.algo).value))]
  }

  function EncPart(sa: Sa): (r: seq<Part>) {
    if sa.enc.algo == 0 then []
    else if (sa.enc.algo != ENC_ALG_NULL && sa.enc.keyBits == 0) || OfEncAlgo(sa.enc.algo).None? then [None]
    else [Some(EncProperty(sa, OfEncAlgo(sa.enc.algo).value))]
  }

  function CombPart(sa: Sa): (r: seq<Part>) {
    if sa.comb.algo == 0 then []
    else if sa.comb.keyBits == 0 || OfCombAlgo(sa.comb.algo).None? then [None]
    else [Some(CombProperty(sa, OfCombAlgo(sa.comb.algo).value))]
  }

  function SaltPart(sa: Sa): (r: seq<Part>) {
    if sa.iv.None? then [] else if sa.iv.value.keyBits == 0 then [None] else [Some(SaltProperty(sa.iv.value))]
  }

  function NatPart(sa: Sa): (r: seq<Property>) {
    if sa.natPeer.version == IpsecSelector.IP_V4 then [Encap4Property(sa)]
    else if sa.natPeer.version == IpsecSelector.IP_V6 then [Encap6Property(sa)]
    else []
  }

  function SelectorPart(selectors: seq<SaSelector>, unset: byte): (r: seq<Property>) {
    if selectors == [] then []
    else
      var k := |selectors| - 1;
      SelectorPart(selectors[..k], unset) + [SelectorProperty(selectors[k], unset)]
  }

  function TunnelPart(sa: Sa): (r: seq<Property>) {
    if sa.tunnel == IpsecSelector.IP_V4 then [Tunnel4Property(sa)]
    else if sa.tunnel == IpsecSelector.IP_V6 then [Tunnel6Property(sa)]
    else []
  }

  function DscpPart(sa: Sa): (r: seq<Property>) {
    if sa.dscpStart == 0 && sa.dscpEnd == 0 then [] else [DscpProperty(sa)]
  }

  /** The parts with a key or a vector; the writer can fail in these. */
  function KeyParts(sa: Sa): (r: seq<Part>) {
    AuthPart(sa) + EncPart(sa) + CombPart(sa) + SaltPart(sa)
  }

  /** The parts without. */
  function PlainParts(sa: Sa): (r: seq<Property>) {
    NatPart(sa) + SelectorPart(sa.selectors, sa.unset) + TunnelPart(sa) + DscpPart(sa)
  }

  ghost predicate Complete(parts: seq<Part>) {
    forall i :: 0 <= i < |parts| ==> parts[i].Some?
  }

  /** The properties in front of the first part that fails. */
  function Done(parts: seq<Part>): (r: seq<Property>) {
    if parts == [] || parts[0].None? then [] else [parts[0].value] + Done(parts[1..])
  }

  function Properties(sa: Sa): (r: seq<Property>) {
    Done(KeyParts(sa)) + PlainParts(sa)
  }

  /**
   When the writer gives up: a part that carries a key or a vector has no bits of it, or its algorithm is none
   of those the protocol has a number for.  NULL encryption carries no key.
   */
  lemma CompleteIff(sa: Sa)
    ensures Complete(KeyParts(sa)) <==>
              && (sa.auth.algo > AUTH_ALG_NONE ==> sa.auth.keyBits != 0 && sa.auth.algo <= 7)
              && (sa.enc.algo > ENC_ALG_NULL ==> sa.enc.keyBits != 0 && sa.enc.algo <= 5)
              && (sa.comb.algo > 0 ==> sa.comb.keyBits != 0 && sa.comb.algo <= 3)
              && (sa.iv.Some? ==> sa.iv.value.keyBits != 0)
  {
    OnePart(AuthPart(sa));
    OnePart(EncPart(sa));
    OnePart(CombPart(sa));
    OnePart(SaltPart(sa));
    CompleteBoth(AuthPart(sa), EncPart(sa));
    CompleteBoth(AuthPart(sa) + EncPart(sa), CombPart(sa));
    CompleteBoth(AuthPart(sa) + EncPart(sa) + CombPart(sa), SaltPart(sa));
  }

  lemma OnePart(parts: seq<Part>)
    requires |parts| <= 1
    ensures Complete(parts) <==> parts == [] || parts[0].Some?
  {
  }

  lemma CompleteBoth(a: seq<Part>, b: seq<Part>)
    ensures Complete(a + b) <==> Complete(a) && Complete(b)
  {
    if Complete(a + b) {
      assert forall i :: 0 <= i < |a| ==> a[i] == (a + b)[i];
      assert forall i :: 0 <= i < |b| ==> b[i] == (a + b)[|a| + i];
    }
  }

  lemma Associate(a: seq<Property>, b: seq<Property>, c: seq<Property>)
    ensures a + (b + c) == a + b + c
  {
  }

  lemma CompleteFirst(a: seq<Part>)
    requires a != []
    ensures Complete(a) <==> a[0].Some? && Complete(a[1..])
  {
    assert forall i :: 1 <= i < |a| ==> a[i] == a[1..][i - 1];
  }

  lemma {:induction false} DoneBoth(a: seq<Part>, b: seq<Part>)
    ensures Done(a + b) == if Complete(a) then Done(a) + Done(b) else Done(a)
  {
    if a == [] {
      assert a + b == b;
    } else {
      assert (a + b)[1..] == a[1..] + b;
      CompleteFirst(a);
      DoneBoth(a[1..], b);
      if a[0].Some? {
        Associate([a[0].value], Done(a[1..]), Done(b));
      }
    }
  }

  // ---------- Every property has the layout of its structure ----------

  lemma KeyPropertiesFit(sa: Sa, of: nat)
    ensures WellFormed(AuthProperty(sa, of)) && WellFormed(EncProperty(sa, of)) && WellFormed(CombProperty(sa, of))
    ensures sa.iv.Some? ==> WellFormed(SaltProperty(sa.iv.value))
  {
  }

  lemma PlainPropertiesFit(sa: Sa)
    requires Typed(sa)
    ensures WellFormed(Encap4Property(sa)) && WellFormed(Encap6Property(sa))
    ensures WellFormed(Tunnel4Property(sa)) && WellFormed(Tunnel6Property(sa)) && WellFormed(DscpProperty(sa))
  {
  }

  lemma SelectorPropertyFits(s: SaSelector, unset: byte)
    requires TypedSelector(s)
    ensures WellFormed(SelectorProperty(s, unset))
  {
    if s.version == IpsecSelector.IP_V4 {
      Selector4Fits(s);
    } else {
      Selector6Fits(s, unset);
    }
  }

  lemma SelectorLayouts()
    ensures [4, 4, 4, 4] + [2, 2, 2, 2] + [1, 3] == Layout(IPV4_SELECTOR)
    ensures [16, 16, 16, 16] + [2, 2, 2, 2] + [1, 1] == Layout(IPV6_SELECTOR)
  {
  }

  lemma Addresses4Fit(s: SaSelector)
    requires TypedSelector(s)
    ensures Fits(Addresses4(s), [4, 4, 4, 4])
  {
  }

  lemma Selector4Fits(s: SaSelector)
    requires TypedSelector(s)
    ensures Fits(Addresses4(s) + s.ports + [[s.protocol], Zeros(3)], Layout(IPV4_SELECTOR))
  {
    Addresses4Fit(s);
    FieldsFit(Addresses4(s), s.ports, [[s.protocol], Zeros(3)], [4, 4, 4, 4], [2, 2, 2, 2], [1, 3]);
    SelectorLayouts();
  }

  lemma Selector6Fits(s: SaSelector, unset: byte)
    requires TypedSelector(s)
    ensures Fits(Addresses6(s) + s.ports + [[s.protocol], [unset]], Layout(IPV6_SELECTOR))
  {
    FieldsFit(Addresses6(s), s.ports, [[s.protocol], [unset]], [16, 16, 16, 16], [2, 2, 2, 2], [1, 1]);
    SelectorLayouts();
  }

  lemma FieldsFit(a: seq<seq<byte>>, b: seq<seq<byte>>, c: seq<seq<byte>>, l: seq<nat>, m: seq<nat>, n: seq<nat>)
    requires Fits(a, l) && Fits(b, m) && Fits(c, n)
    ensures Fits(a + b + c, l + m + n)
  {
  }

  /** Their sizes are the ones the program adds up. */
  lemma KeySizes(sa: Sa, of: nat)
    requires Typed(sa)
    ensures |Encode(AuthProperty(sa, of))| == AUTH_ALGO_INFO_LEN + sa.auth.keyBits / 8
    ensures |Encode(EncProperty(sa, of))| ==
              ENC_ALGO_INFO_LEN + if sa.enc.algo == ENC_ALG_NULL then 0 else sa.enc.keyBits / 8
    ensures |Encode(CombProperty(sa, of))| == ENC_AUTH_ALGO_INFO_LEN + sa.comb.keyBits / 8
    ensures sa.iv.Some? ==> |Encode(SaltProperty(sa.iv.value))| == IV_INFO_LEN + sa.iv.value.keyBits / 8
  {
    StructureSizes();
    KeyPropertiesFit(sa, of);
    EncodedSize(AuthProperty(sa, of));
    EncodedSize(EncProperty(sa, of));
    EncodedSize(CombProperty(sa, of));
    if sa.iv.Some? {
      EncodedSize(SaltProperty(sa.iv.value));
    }
  }

  lemma PlainSizes(sa: Sa)
    requires Typed(sa)
    ensures |Encode(Encap4Property(sa))| == IPV4_UDP_ENCAP_INFO_LEN
    ensures |Encode(Encap6Property(sa))| == IPV6_UDP_ENCAP_INFO_LEN
    ensures |Encode(Tunnel4Property(sa))| == IPV4_TUNNEL_ENDS_INFO_LEN
    ensures |Encode(Tunnel6Property(sa))| == IPV6_TUNNEL_ENDS_INFO_LEN
    ensures |Encode(DscpProperty(sa))| == DSCP_RANGE_INFO_LEN
  {
    StructureSizes();
    PlainPropertiesFit(sa);
    EncodedSize(Encap4Property(sa));
    EncodedSize(Encap6Property(sa));
    EncodedSize(Tunnel4Property(sa));
    EncodedSize(Tunnel6Property(sa));
    EncodedSize(DscpProperty(sa));
  }

  lemma SelectorSize(s: SaSelector, unset: byte)
    requires TypedSelector(s)
    ensures |Encode(SelectorProperty(s, unset))| ==
              if s.version == IpsecSelector.IP_V4 then IPV4_SELECTOR_INFO_LEN else IPV6_SELECTOR_INFO_LEN
  {
    StructureSizes();
    SelectorPropertyFits(s, unset);
    EncodedSize(SelectorProperty(s, unset));
  }

  lemma EncodeOneMore(ps: seq<Property>, p: Property)
    ensures EncodeAll(ps + [p]) == EncodeAll(ps) + Encode(p)
  {
    EncodeMore(ps, [p]);
    assert [p][1..] == [];
    assert Encode(p) + EncodeAll([]) == Encode(p);
    assert EncodeAll([p]) == Encode(p) + EncodeAll([p][1..]);
  }

  // ---------- The loop over the selectors ----------

  /** A loop `for (i = 0; i < n; i++)` makes k more rounds from i, when i wraps around at `width`. */
  predicate Rounds(n: nat, i: nat, k: nat, width: nat)
    requires width > 0
    decreases k
  {
    k == 0 || (i < n && Rounds(n, (i + 1) % width, k - 1, width))
  }

  ghost predicate LoopEnds(n: nat, width: nat)
    requires width > 0
  {
    exists k: nat :: !Rounds(n, 0, k, width)
  }

  lemma {:induction false} RoundsLeft(n: nat, i: nat, k: nat, width: nat)
    requires width > 0 && i <= n < width
    ensures Rounds(n, i, k, width) <==> k <= n - i
    decreases k
  {
    if k > 0 && i < n {
      assert (i + 1) % width == i + 1;
      RoundsLeft(n, i + 1, k - 1, width);
    }
  }

  lemma {:induction false} RoundsForever(n: nat, i: nat, k: nat, width: nat)
    requires width > 0 && i < width <= n
    ensures Rounds(n, i, k, width)
    decreases k
  {
    if k > 0 {
      RoundsForever(n, (i + 1) % width, k - 1, width);
    }
  }

  /** The loop ends exactly when its index can reach the number of selectors. */
  lemma LoopEndsIff(n: nat, width: nat)
    requires width > 0
    ensures LoopEnds(n, width) <==> n <= width - 1
  {
    if n < width {
      RoundsLeft(n, 0, n + 1, width);
    } else {
      forall k: nat
        ensures Rounds(n, 0, k, width)
      {
        RoundsForever(n, 0, k, width);
      }
    }
  }
  function Add16(len: nat, more: nat): (r: nat)
    ensures r < UINT16
  {
    (len + more) % UINT16
  }

  lemma Add16Twice(a: nat, b: nat, c: nat)
    ensures Add16(Add16(a, b), c) == Add16(a, b + c)
  {
    var q, r := (a + b) / UINT16, (a + b) % UINT16;
    assert a + (b + c) == q * UINT16 + (r + c);
    ModMultiple(q, r + c);
  }

  lemma ModMultiple(q: nat, r: nat)
    ensures (q * UINT16 + r) % UINT16 == r % UINT16
  {
  }

  lemma Add16Part(a: nat, b: nat)
    ensures Add16(a, Add16(0, b)) == Add16(a, b)
  {
    var q, r := b / UINT16, b % UINT16;
    assert a + b == q * UINT16 + (a + r);
    ModMultiple(q, a + r);
  }

  // ---------- The length computed beforehand ----------

  /**
   The properties the pre-pass reckons with: whatever the algorithms are and however many bits their keys have,
   and always one for authentication.  Which number an algorithm has does not matter for the length.
   */
  function Counted(sa: Sa): (r: seq<Property>) {
    [AuthProperty(sa, 0)] + CountedKeys(sa) + PlainParts(sa)
  }

  function CountedKeys(sa: Sa): (r: seq<Property>) {
    CountedEnc(sa) + CountedComb(sa) + CountedSalt(sa)
  }

  function CountedEnc(sa: Sa): (r: seq<Property>) {
    if sa.enc.algo != 0 then [EncProperty(sa, 0)] else []
  }

  function CountedComb(sa: Sa): (r: seq<Property>) {
    if sa.comb.algo != 0 then [CombProperty(sa, 0)] else []
  }

  function CountedSalt(sa: Sa): (r: seq<Property>) {
    if sa.iv.Some? then [SaltProperty(sa.iv.value)] else []
  }

  /** The length of an action with these properties, in 16 bits. */
  function Total(ps: seq<Property>): (r: nat) {
    Add16(0, SA_CREATE_LEN + |EncodeAll(ps)|)
  }

  /** msg_len += more; and, for a property with a key, msg_len += bits >> 3. */
  method Count(len: nat, info: nat, bits: nat, ghost ps: seq<Property>, ghost p: Property) returns (len': nat)
    requires len == Total(ps) && |Encode(p)| == info + bits / 8
    ensures len' == Total(ps + [p])
  {
    EncodeOneMore(ps, p);
    Add16Twice(0, SA_CREATE_LEN + |EncodeAll(ps)|, info);
    len' := Add16(len, info);
    Add16Twice(0, SA_CREATE_LEN + |EncodeAll(ps)| + info, bits / 8);
    len' := Add16(len', bits / 8);
  }

  /**
   of_ipsec_calculate_sa_ctx_msg_len.  Its index has 16 bits, so by LoopEndsIff it returns for at most
   65535 selectors; the result is the length of an action with the properties it counts, modulo 2^16.
   */
  method CalculateSaCtxMsgLen(sa: Sa) returns (len: nat)
    requires Typed(sa) && |sa.selectors| <= UINT16 - 1
    ensures len == Add16(0, SA_CREATE_LEN + |EncodeAll(Counted(sa))|)
  {
    ghost var ps := [AuthProperty(sa, 0)];
    len := CountAuth(sa);
    len, ps := CountKeys(sa, len, ps);
    len, ps := CountPlain(sa, len, ps);
  }

  /** The header, and an authentication part whatever the algorithm: no number is both 0 and 1. */
  method CountAuth(sa: Sa) returns (len: nat)
    requires Typed(sa)
    ensures len == Total([AuthProperty(sa, 0)])
  {
    KeySizes(sa, 0);
    len := Add16(0, SA_CREATE_LEN);
    assert [] + [AuthProperty(sa, 0)] == [AuthProperty(sa, 0)];
    if sa.auth.algo != 0 || sa.auth.algo != AUTH_ALG_NONE {
      len := Count(len, AUTH_ALGO_INFO_LEN, sa.auth.keyBits, [], AuthProperty(sa, 0));
    }
  }

  method CountKeys(sa: Sa, len: nat, ghost ps: seq<Property>) returns (len': nat, ghost qs: seq<Property>)
    requires Typed(sa) && len == Total(ps)
    ensures qs == ps + CountedKeys(sa) && len' == Total(qs)
  {
    KeySizes(sa, 0);
    len', qs := len, ps;
    if sa.enc.algo != 0 {
      if sa.enc.algo != ENC_ALG_NULL {
        len' := Count(len', ENC_ALGO_INFO_LEN, sa.enc.keyBits, qs, EncProperty(sa, 0));
      } else {
        len' := Count(len', ENC_ALGO_INFO_LEN, 0, qs, EncProperty(sa, 0));
      }
    }
    qs := AddOne(qs, CountedEnc(sa));
    if sa.comb.algo != 0 {
      len' := Count(len', ENC_AUTH_ALGO_INFO_LEN, sa.comb.keyBits, qs, CombProperty(sa, 0));
    }
    qs := AddOne(qs, CountedComb(sa));
    if sa.iv.Some? {
      len' := Count(len', IV_INFO_LEN, sa.iv.value.keyBits, qs, SaltProperty(sa.iv.value));
    }
    qs := AddOne(qs, CountedSalt(sa));
    PlainTogether(ps, CountedEnc(sa), CountedComb(sa), CountedSalt(sa), []);
    assert CountedKeys(sa) + [] == CountedKeys(sa);
  }

  ghost function AddOne(ps: seq<Property>, more: seq<Property>): (r: seq<Property>)
    ensures more == [] ==> r == ps
  {
    ps + more
  }

  /** One of two properties, or neither. */
  method CountEither(len: nat, version: nat, len4: nat, len6: nat, ghost ps: seq<Property>, ghost p4: Property,
      ghost p6: Property) returns (len': nat, ghost qs: seq<Property>)
    requires len == Total(ps) && |Encode(p4)| == len4 && |Encode(p6)| == len6
    ensures qs == ps + (if version == IpsecSelector.IP_V4 then [p4]
                        else if version == IpsecSelector.IP_V6 then [p6] else [])
    ensures len' == Total(qs)
  {
    len', qs := len, ps;
    if version == IpsecSelector.IP_V4 {
      len' := Count(len', len4, 0, ps, p4);
      qs := ps + [p4];
    } else if version == IpsecSelector.IP_V6 {
      len' := Count(len', len6, 0, ps, p6);
      qs := ps + [p6];
    }
  }

  lemma PlainTogether(ps: seq<Property>, a: seq<Property>, b: seq<Property>, c: seq<Property>, d: seq<Property>)
    ensures ps + (a + b + c + d) == ps + a + b + c + d && (d == [] ==> ps + a + b + c + d == ps + a + b + c)
  {
    Associate(ps, a + b + c, d);
    Associate(ps, a + b, c);
    Associate(ps, a, b);
  }

  method CountPlain(sa: Sa, len: nat, ghost ps: seq<Property>) returns (len': nat, ghost qs: seq<Property>)
    requires Typed(sa) && |sa.selectors| <= UINT16 - 1 && len == Total(ps)
    ensures qs == ps + PlainParts(sa) && len' == Total(qs)
  {
    PlainSizes(sa);
    len', qs := CountEither(len, sa.natPeer.version, IPV4_UDP_ENCAP_INFO_LEN, IPV6_UDP_ENCAP_INFO_LEN, ps,
                            Encap4Property(sa), Encap6Property(sa));
    assert qs == ps + NatPart(sa);
    len', qs := CountSelectors(sa, len', qs);
    len', qs := CountEither(len', sa.tunnel, IPV4_TUNNEL_ENDS_INFO_LEN, IPV6_TUNNEL_ENDS_INFO_LEN, qs,
                            Tunnel4Property(sa), Tunnel6Property(sa));
    if !(sa.dscpStart == 0 && sa.dscpEnd == 0) {
      len' := Count(len', DSCP_RANGE_INFO_LEN, 0, qs, DscpProperty(sa));
      qs := qs + [DscpProperty(sa)];
    }
    PlainTogether(ps, NatPart(sa), SelectorPart(sa.selectors, sa.unset), TunnelPart(sa), DscpPart(sa));
  }

  lemma OneMoreSelector(ps: seq<Property>, selectors: seq<SaSelector>, ii: nat, unset: byte)
    requires ii < |selectors|
    ensures ps + SelectorPart(selectors[..ii + 1], unset) ==
              ps + SelectorPart(selectors[..ii], unset) + [SelectorProperty(selectors[ii], unset)]
  {
    assert selectors[..ii + 1][..ii] == selectors[..ii];
    Associate(ps, SelectorPart(selectors[..ii], unset), [SelectorProperty(selectors[ii], unset)]);
  }

  method CountSelector(s: SaSelector, len: nat, ghost unset: byte, ghost ps: seq<Property>) returns (len': nat)
    requires TypedSelector(s) && len == Total(ps)
    ensures len' == Total(ps + [SelectorProperty(s, unset)])
  {
    ghost var p := SelectorProperty(s, unset);
    SelectorSize(s, unset);
    if s.version == IpsecSelector.IP_V4 {
      len' := Count(len, IPV4_SELECTOR_INFO_LEN, 0, ps, p);
    } else {
      len' := Count(len, IPV6_SELECTOR_INFO_LEN, 0, ps, p);
    }
  }

  lemma NoWrap(i: nat, width: nat)
    requires i < width
    ensures i % width == i
  {
  }

  method CountSelectors(sa: Sa, len: nat, ghost ps: seq<Property>) returns (len': nat, ghost qs: seq<Property>)
    requires Typed(sa) && |sa.selectors| <= UINT16 - 1 && len == Total(ps)
    ensures qs == ps + SelectorPart(sa.selectors, sa.unset) && len' == Total(qs)
  {
    len', qs := len, ps;
    var ii := 0;
    while ii < |sa.selectors|
      invariant ii <= |sa.selectors| && len' == Total(qs)
      invariant qs == ps + SelectorPart(sa.selectors[..ii], sa.unset)
    {
      OneMoreSelector(ps, sa.selectors, ii, sa.unset);
      NoWrap(ii + 1, UINT16);
      len' := CountSelector(sa.selectors[ii], len', sa.unset, qs);
      qs := qs + [SelectorProperty(sa.selectors[ii], sa.unset)];
      ii := (ii + 1) % UINT16;
    }
    assert sa.selectors[..ii] == sa.selectors;
  }
}
