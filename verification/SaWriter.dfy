/**
 What fslx_action_create_sa_context writes (ofcdriver/l3extutils/ipsec_of_extn.c, lines 449 to 803), what a
 reader makes of it, and how its length compares with the one computed beforehand.
 */
module SaWriter {
  import opened Common
  import opened Numbers
  import opened PrefixMask
  import IpsecSelector
  import opened SaProperty
  import opened SaContext

  // ---------- What is written ----------

  /** enum ipsec_auth_alg, ipsec_enc_alg and ipsec_combined_alg of fsl_nfapi_ipsec.h. */
  const MD5HMAC: nat := 2
  const SHA1HMAC: nat := 3
  const AESXCBC: nat := 4
  const SHA2_256_HMAC: nat := 5
  const SHA2_384_HMAC: nat := 6
  const SHA2_512_HMAC: nat := 7
  const DES_CBC: nat := 2
  const TRIPLE_DES_CBC: nat := 3
  const AES_CBC: nat := 4
  const AES_CTR: nat := 5
  const AES_CCM: nat := 1
  const AES_GCM: nat := 2
  const AES_GMAC: nat := 3

  /** The numbers of fsl_ext.h. */
  const HMAC_MD5: nat := 0
  const HMAC_SHA1: nat := 1
  const HMAC_SHA2_256: nat := 2
  const HMAC_SHA2_384: nat := 3
  const HMAC_SHA2_512: nat := 4
  const AES_XCBC_MAC: nat := 6
  const ENCR_CBC_DES: nat := 0
  const ENCR_CBC_3DES: nat := 1
  const ENCR_NULL: nat := 4
  const ENCR_AES_CBC: nat := 5
  const ENCR_AES_CTR: nat := 6
  const CM_AES_CCM: nat := 0
  const CM_AES_GCM: nat := 1
  const CM_AES_GMAC: nat := 2

  const OFPAT_EXPERIMENTER: nat := 0xffff
  const FSLX_VENDOR_ID: nat := 0x49f
  const FSLXAT_CREATE_SA_CNTXT: nat := 25

  /** The rest of the action's header; flags are given as their two bytes lie in memory. */
  datatype Head = Head(flags: seq<byte>, spi: nat, protocol: byte, dscp: byte, transport: bool, replay: nat)

  /** struct fslx_create_ipsec_sa. */
  function Header(h: Head, len: nat, unset: byte): (r: seq<byte>)
    requires |h.flags| == 2
    ensures |r| == SA_CREATE_LEN && r[2..4] == Be(len, 2)
  {
    Be(OFPAT_EXPERIMENTER, 2) + Be(len, 2) + HeaderRest(h, unset)
  }

  function HeaderRest(h: Head, unset: byte): (r: seq<byte>)
    requires |h.flags| == 2
    ensures |r| == SA_CREATE_LEN - 4
  {
    Be(FSLX_VENDOR_ID, 4) + Be(FSLXAT_CREATE_SA_CNTXT, 2) + h.flags + Be(h.spi, 4)
    + [h.protocol, unset, h.dscp, if h.transport then 1 else 0] + Be(h.replay, 4)
  }

  /** The bytes behind the header, and how far length3 and the writer's total have moved, both in 16 bits. */
  predicate Wrote(len3: nat, total: nat, out: seq<byte>, base: nat, ps: seq<Property>) {
    out == EncodeAll(ps) && len3 == Add16(base, SA_CREATE_LEN + |out|) && total == Add16(0, SA_CREATE_LEN + |out|)
  }

  lemma LowBytes(n: nat)
    ensures Be(Add16(0, n), 2) == Be(n, 2)
  {
    var q, r := n / UINT16, n % UINT16;
    assert n == q * UINT16 + r;
    assert n / 256 == q * 256 + r / 256 && n % 256 == r % 256;
    assert (n / 256) % 256 == (r / 256) % 256;
    assert Be(r / 256, 1) == Be(r / 256 / 256, 0) + [(r / 256) % 256];
    assert Be(n / 256, 1) == Be(n / 256 / 256, 0) + [(n / 256) % 256];
  }

  /** One structure: type, length, fields and key; then both counters move by its length. */
  method Emit(len3: nat, total: nat, out: seq<byte>, p: Property, len: nat, ghost base: nat, ghost ps: seq<Property>)
      returns (len3': nat, total': nat, out': seq<byte>)
    requires Wrote(len3, total, out, base, ps) && len == Add16(0, |Encode(p)|)
    ensures Wrote(len3', total', out', base, ps + [p])
  {
    LowBytes(|Encode(p)|);
    EncodeOneMore(ps, p);
    Add16Part(SA_CREATE_LEN + |out|, |Encode(p)|);
    Add16Part(base + SA_CREATE_LEN + |out|, |Encode(p)|);
    Add16Twice(base, SA_CREATE_LEN + |out|, len);
    Add16Twice(0, SA_CREATE_LEN + |out|, len);
    out' := out + (Be(p.kind, 2) + Be(len, 2) + (Join(p.fields) + p.tail));
    len3', total' := Add16(len3, len), Add16(total, len);
  }

  lemma DoneOne(part: Part)
    ensures Done([part]) == if part.Some? then [part.value] else []
  {
    assert [part][1..] == [];
  }

  method WriteAuth(sa: Sa, len3: nat, total: nat, out: seq<byte>, ghost base: nat, ghost ps: seq<Property>)
      returns (ok: bool, len3': nat, total': nat, out': seq<byte>)
    requires Typed(sa) && Wrote(len3, total, out, base, ps)
    ensures ok <==> Complete(AuthPart(sa))
    ensures Wrote(len3', total', out', base, ps + Done(AuthPart(sa)))
  {
    ok, len3', total', out' := true, len3, total, out;
    assert ps + [] == ps;
    if sa.auth.algo != 0 && sa.auth.algo != AUTH_ALG_NONE {
      DoneOne(AuthPart(sa)[0]);
      var of := OfAuthAlgo(sa.auth.algo);
      if sa.auth.keyBits == 0 || of.None? {
        ok := false;
        return;
      }
      KeySizes(sa, of.value);
      len3', total', out' := Emit(len3, total, out, AuthProperty(sa, of.value),
                                  Add16(AUTH_ALGO_INFO_LEN, sa.auth.keyBits / 8), base, ps);
    }
  }

  method WriteEnc(sa: Sa, len3: nat, total: nat, out: seq<byte>, ghost base: nat, ghost ps: seq<Property>)
      returns (ok: bool, len3': nat, total': nat, out': seq<byte>)
    requires Typed(sa) && Wrote(len3, total, out, base, ps)
    ensures ok <==> Complete(EncPart(sa))
    ensures Wrote(len3', total', out', base, ps + Done(EncPart(sa)))
  {
    ok, len3', total', out' := true, len3, total, out;
    assert ps + [] == ps;
    if sa.enc.algo != 0 {
      DoneOne(EncPart(sa)[0]);
      var of := OfEncAlgo(sa.enc.algo);
      if (sa.enc.algo != ENC_ALG_NULL && sa.enc.keyBits == 0) || of.None? {
        ok := false;
        return;
      }
      KeySizes(sa, of.value);
      var len := ENC_ALGO_INFO_LEN;
      if sa.enc.algo != ENC_ALG_NULL {
        len := Add16(ENC_ALGO_INFO_LEN, sa.enc.keyBits / 8);
      }
      len3', total', out' := Emit(len3, total, out, EncProperty(sa, of.value), len, base, ps);
    }
  }

  method WriteComb(sa: Sa, len3: nat, total: nat, out: seq<byte>, ghost base: nat, ghost ps: seq<Property>)
      returns (ok: bool, len3': nat, total': nat, out': seq<byte>)
    requires Typed(sa) && Wrote(len3, total, out, base, ps)
    ensures ok <==> Complete(CombPart(sa))
    ensures Wrote(len3', total', out', base, ps + Done(CombPart(sa)))
  {
    ok, len3', total', out' := true, len3, total, out;
    assert ps + [] == ps;
    if sa.comb.algo != 0 {
      DoneOne(CombPart(sa)[0]);
      var of := OfCombAlgo(sa.comb.algo);
      if sa.comb.keyBits == 0 || of.None? {
        ok := false;
        return;
      }
      KeySizes(sa, of.value);
      len3', total', out' := Emit(len3, total, out, CombProperty(sa, of.value),
                                  Add16(ENC_AUTH_ALGO_INFO_LEN, sa.comb.keyBits / 8), base, ps);
    }
  }

  method WriteSalt(sa: Sa, len3: nat, total: nat, out: seq<byte>, ghost base: nat, ghost ps: seq<Property>)
      returns (ok: bool, len3': nat, total': nat, out': seq<byte>)
    requires Typed(sa) && Wrote(len3, total, out, base, ps)
    ensures ok <==> Complete(SaltPart(sa))
    ensures Wrote(len3', total', out', base, ps + Done(SaltPart(sa)))
  {
    ok, len3', total', out' := true, len3, total, out;
    assert ps + [] == ps;
    if sa.iv.Some? {
      DoneOne(SaltPart(sa)[0]);
      if sa.iv.value.keyBits == 0 {
        ok := false;
        return;
      }
      KeySizes(sa, 0);
      len3', total', out' := Emit(len3, total, out, SaltProperty(sa.iv.value),
                                  Add16(IV_INFO_LEN, sa.iv.value.keyBits / 8), base, ps);
    }
  }

  method WriteKeys(sa: Sa, len3: nat, total: nat, out: seq<byte>, ghost base: nat)
      returns (ok: bool, len3': nat, total': nat, out': seq<byte>)
    requires Typed(sa) && Wrote(len3, total, out, base, [])
    ensures ok <==> Complete(KeyParts(sa))
    ensures Wrote(len3', total', out', base, Done(KeyParts(sa)))
  {
    ghost var a, b, c, d := AuthPart(sa), EncPart(sa), CombPart(sa), SaltPart(sa);
    DoneBoth(a, b);
    DoneBoth(a + b, c);
    DoneBoth(a + b + c, d);
    CompleteBoth(a, b);
    CompleteBoth(a + b, c);
    CompleteBoth(a + b + c, d);
    assert [] + Done(a) == Done(a);
    ok, len3', total', out' := WriteAuth(sa, len3, total, out, base, []);
    if !ok { return; }
    ok, len3', total', out' := WriteEnc(sa, len3', total', out', base, Done(a));
    if !ok { return; }
    ok, len3', total', out' := WriteComb(sa, len3', total', out', base, Done(a + b));
    if !ok { return; }
    ok, len3', total', out' := WriteSalt(sa, len3', total', out', base, Done(a + b + c));
  }

  /** One of two structures, or neither. */
  method WriteEither(version: nat, p4: Property, p6: Property, len4: nat, len6: nat, len3: nat, total: nat,
      out: seq<byte>, ghost base: nat, ghost ps: seq<Property>) returns (len3': nat, total': nat, out': seq<byte>)
    requires Wrote(len3, total, out, base, ps)
    requires |Encode(p4)| == len4 < UINT16 && |Encode(p6)| == len6 < UINT16
    ensures Wrote(len3', total', out', base, ps + (if version == IpsecSelector.IP_V4 then [p4]
                                                   else if version == IpsecSelector.IP_V6 then [p6] else []))
  {
    len3', total', out' := len3, total, out;
    assert ps + [] == ps;
    if version == IpsecSelector.IP_V4 {
      len3', total', out' := Emit(len3, total, out, p4, len4, base, ps);
    } else if version == IpsecSelector.IP_V6 {
      len3', total', out' := Emit(len3, total, out, p6, len6, base, ps);
    }
  }

  method WriteSelector(s: SaSelector, unset: byte, len3: nat, total: nat, out: seq<byte>, ghost base: nat,
      ghost ps: seq<Property>) returns (len3': nat, total': nat, out': seq<byte>)
    requires TypedSelector(s) && Wrote(len3, total, out, base, ps)
    ensures Wrote(len3', total', out', base, ps + [SelectorProperty(s, unset)])
  {
    SelectorSize(s, unset);
    if s.version == IpsecSelector.IP_V4 {
      len3', total', out' := Emit(len3, total, out, SelectorProperty(s, unset), IPV4_SELECTOR_INFO_LEN, base, ps);
    } else {
      len3', total', out' := Emit(len3, total, out, SelectorProperty(s, unset), IPV6_SELECTOR_INFO_LEN, base, ps);
    }
  }

  method WriteSelectors(sa: Sa, len3: nat, total: nat, out: seq<byte>, ghost base: nat, ghost ps: seq<Property>)
      returns (len3': nat, total': nat, out': seq<byte>)
    requires Typed(sa) && |sa.selectors| <= UINT8 - 1 && Wrote(len3, total, out, base, ps)
    ensures Wrote(len3', total', out', base, ps + SelectorPart(sa.selectors, sa.unset))
  {
    len3', total', out' := len3, total, out;
    assert ps + [] == ps;
    var ii := 0;
    while ii < |sa.selectors|
      invariant ii <= |sa.selectors|
      invariant Wrote(len3', total', out', base, ps + SelectorPart(sa.selectors[..ii], sa.unset))
    {
      OneMoreSelector(ps, sa.selectors, ii, sa.unset);
      NoWrap(ii + 1, UINT8);
      len3', total', out' := WriteSelector(sa.selectors[ii], sa.unset, len3', total', out', base,
                                           ps + SelectorPart(sa.selectors[..ii], sa.unset));
      ii := (ii + 1) % UINT8;
    }
    assert sa.selectors[..ii] == sa.selectors;
  }

  method WritePlain(sa: Sa, len3: nat, total: nat, out: seq<byte>, ghost base: nat, ghost ps: seq<Property>)
      returns (len3': nat, total': nat, out': seq<byte>)
    requires Typed(sa) && |sa.selectors| <= UINT8 - 1 && Wrote(len3, total, out, base, ps)
    ensures Wrote(len3', total', out', base, ps + PlainParts(sa))
  {
    PlainSizes(sa);
    ghost var a, b, c := NatPart(sa), SelectorPart(sa.selectors, sa.unset), TunnelPart(sa);
    len3', total', out' := WriteEither(sa.natPeer.version, Encap4Property(sa), Encap6Property(sa),
      IPV4_UDP_ENCAP_INFO_LEN, IPV6_UDP_ENCAP_INFO_LEN, len3, total, out, base, ps);
    len3', total', out' := WriteSelectors(sa, len3', total', out', base, ps + a);
    len3', total', out' := WriteEither(sa.tunnel, Tunnel4Property(sa), Tunnel6Property(sa),
      IPV4_TUNNEL_ENDS_INFO_LEN, IPV6_TUNNEL_ENDS_INFO_LEN, len3', total', out', base, ps + a + b);
    if !(sa.dscpStart == 0 && sa.dscpEnd == 0) {
      len3', total', out' := Emit(len3', total', out', DscpProperty(sa), DSCP_RANGE_INFO_LEN, base, ps + a + b + c);
    }
    PlainTogether(ps, a, b, c, DscpPart(sa));
  }

  /** The whole action, header and properties. */
  function Action(sa: Sa, h: Head): (r: seq<byte>)
    requires |h.flags| == 2
    ensures |r| == SA_CREATE_LEN + |EncodeAll(Properties(sa))|
  {
    Framed(h, EncodeAll(Properties(sa)), sa.unset)
  }

  function Framed(h: Head, body: seq<byte>, unset: byte): (r: seq<byte>)
    requires |h.flags| == 2
    ensures |r| == SA_CREATE_LEN + |body| && r[2..4] == Be(|r|, 2) && r[SA_CREATE_LEN..] == body
  {
    var r := Header(h, SA_CREATE_LEN + |body|, unset) + body;
    assert r[2..4] == Header(h, SA_CREATE_LEN + |body|, unset)[2..4];
    r
  }

  /**
   fslx_action_create_sa_context.  It writes the action, whose header holds its length, unless there is no room
   for the header or a part cannot be written; what it wrote before that part stays behind.  length3 has 16 bits.
   Its index has 8, so by LoopEndsIff it returns for at most 255 selectors.
   */
  method CreateSaContext(sa: Sa, h: Head, length3: nat, room: nat) returns (ok: bool, len3: nat, action: seq<byte>)
    requires Typed(sa) && |h.flags| == 2 && |sa.selectors| <= UINT8 - 1 && length3 < UINT16
    ensures ok <==> room >= SA_CREATE_LEN && Complete(KeyParts(sa))
    ensures ok ==> action == Action(sa, h) && len3 == Add16(length3, |action|)
    ensures !ok ==> len3 == if room < SA_CREATE_LEN then length3
                            else Add16(length3, SA_CREATE_LEN + |EncodeAll(Done(KeyParts(sa)))|)
  {
    ok, len3, action := false, length3, [];
    if SA_CREATE_LEN > room {
      return;
    }
    var total := SA_CREATE_LEN;
    len3 := Add16(len3, SA_CREATE_LEN);
    ok, len3, total, action := WriteKeys(sa, len3, total, action, length3);
    if ok {
      len3, action := Finish(sa, h, len3, total, action, length3);
    }
  }

  /** The parts that cannot fail, and the length into the header. */
  method Finish(sa: Sa, h: Head, len3: nat, total: nat, out: seq<byte>, ghost base: nat)
      returns (len3': nat, action: seq<byte>)
    requires Typed(sa) && |h.flags| == 2 && |sa.selectors| <= UINT8 - 1
    requires Wrote(len3, total, out, base, Done(KeyParts(sa)))
    ensures action == Action(sa, h) && len3' == Add16(base, |action|)
  {
    var total', body;
    len3', total', body := WritePlain(sa, len3, total, out, base, Done(KeyParts(sa)));
    HeaderLow(h, SA_CREATE_LEN + |body|, sa.unset);
    action := Header(h, total', sa.unset) + body;
  }

  /** Only the low 16 bits of the length go into the header. */
  lemma HeaderLow(h: Head, len: nat, unset: byte)
    requires |h.flags| == 2
    ensures Header(h, Add16(0, len), unset) == Header(h, len, unset)
  {
    LowBytes(len);
  }

  // ---------- What the bytes say ----------

  /** A reader goes by the length in the header, and from property to property. */
  function ParseAction(b: seq<byte>): (r: Option<seq<Property>>) {
    if |b| < SA_CREATE_LEN then None
    else
      var len := Num(b[2..4]);
      if len < SA_CREATE_LEN || |b| < len then None else Parse(b[SA_CREATE_LEN..len])
  }

  ghost predicate AllWellFormed(ps: seq<Property>) {
    forall i :: 0 <= i < |ps| ==> WellFormed(ps[i])
  }

  lemma WellFormedBoth(a: seq<Property>, b: seq<Property>)
    requires AllWellFormed(a) && AllWellFormed(b)
    ensures AllWellFormed(a + b)
  {
  }

  ghost predicate PartsFit(parts: seq<Part>) {
    forall i :: 0 <= i < |parts| && parts[i].Some? ==> WellFormed(parts[i].value)
  }

  lemma {:induction false} DoneFit(parts: seq<Part>)
    requires PartsFit(parts)
    ensures AllWellFormed(Done(parts))
  {
    if parts != [] && parts[0].Some? {
      DoneFit(parts[1..]);
      WellFormedBoth([parts[0].value], Done(parts[1..]));
    }
  }

  lemma {:induction false} SelectorsFit(selectors: seq<SaSelector>, unset: byte)
    requires forall i :: 0 <= i < |selectors| ==> TypedSelector(selectors[i])
    ensures AllWellFormed(SelectorPart(selectors, unset))
  {
    if selectors != [] {
      var k := |selectors| - 1;
      SelectorsFit(selectors[..k], unset);
      SelectorPropertyFits(selectors[k], unset);
      WellFormedBoth(SelectorPart(selectors[..k], unset), [SelectorProperty(selectors[k], unset)]);
    }
  }

  lemma PartsFitBoth(a: seq<Part>, b: seq<Part>)
    requires PartsFit(a) && PartsFit(b)
    ensures PartsFit(a + b)
  {
  }

  lemma AuthPartFits(sa: Sa)
    ensures PartsFit(AuthPart(sa))
  {
    if OfAuthAlgo(sa.auth.algo).Some? {
      KeyPropertiesFit(sa, OfAuthAlgo(sa.auth.algo).value);
    }
  }

  lemma EncPartFits(sa: Sa)
    ensures PartsFit(EncPart(sa))
  {
    if OfEncAlgo(sa.enc.algo).Some? {
      KeyPropertiesFit(sa, OfEncAlgo(sa.enc.algo).value);
    }
  }

  lemma CombPartFits(sa: Sa)
    ensures PartsFit(CombPart(sa))
  {
    if OfCombAlgo(sa.comb.algo).Some? {
      KeyPropertiesFit(sa, OfCombAlgo(sa.comb.algo).value);
    }
  }

  lemma KeyPartsFit(sa: Sa)
    ensures PartsFit(KeyParts(sa))
  {
    AuthPartFits(sa);
    EncPartFits(sa);
    CombPartFits(sa);
    KeyPropertiesFit(sa, 0);
    PartsFitBoth(AuthPart(sa), EncPart(sa));
    PartsFitBoth(AuthPart(sa) + EncPart(sa), CombPart(sa));
    PartsFitBoth(AuthPart(sa) + EncPart(sa) + CombPart(sa), SaltPart(sa));
  }

  lemma PropertiesFit(sa: Sa)
    requires Typed(sa)
    ensures AllWellFormed(Properties(sa))
  {
    KeyPartsFit(sa);
    DoneFit(KeyParts(sa));
    PlainPropertiesFit(sa);
    SelectorsFit(sa.selectors, sa.unset);
    WellFormedBoth(NatPart(sa), SelectorPart(sa.selectors, sa.unset));
    WellFormedBoth(NatPart(sa) + SelectorPart(sa.selectors, sa.unset), TunnelPart(sa));
    WellFormedBoth(NatPart(sa) + SelectorPart(sa.selectors, sa.unset) + TunnelPart(sa), DscpPart(sa));
    WellFormedBoth(Done(KeyParts(sa)), PlainParts(sa));
  }

  lemma {:induction false} EachIsShorter(ps: seq<Property>)
    ensures forall i :: 0 <= i < |ps| ==> |Encode(ps[i])| <= |EncodeAll(ps)|
  {
    if ps != [] {
      EachIsShorter(ps[1..]);
      assert forall i :: 1 <= i < |ps| ==> ps[i] == ps[1..][i - 1];
    }
  }

  lemma ParseFramed(h: Head, body: seq<byte>, unset: byte, rest: seq<byte>)
    requires |h.flags| == 2 && |Framed(h, body, unset)| < UINT16
    ensures ParseAction(Framed(h, body, unset) + rest) == Parse(body)
  {
    var r := Framed(h, body, unset);
    TwoBytes(|r|);
    SliceFront(r, rest, 2, 4);
    SliceFront(r, rest, SA_CREATE_LEN, |r|);
    assert r[SA_CREATE_LEN..|r|] == r[SA_CREATE_LEN..];
  }

  lemma SliceFront(r: seq<byte>, rest: seq<byte>, i: nat, j: nat)
    requires i <= j <= |r|
    ensures (r + rest)[i..j] == r[i..j]
  {
  }

  /** An action whose length fits into its header is read back: exactly the properties written. */
  lemma ActionParses(sa: Sa, h: Head, rest: seq<byte>)
    requires Typed(sa) && |h.flags| == 2 && |Action(sa, h)| < UINT16
    ensures ParseAction(Action(sa, h) + rest) == Some(Properties(sa))
  {
    var ps := Properties(sa);
    ParseFramed(h, EncodeAll(ps), sa.unset, rest);
    PropertiesFit(sa);
    EachIsShorter(ps);
    ParseEncoded(ps);
  }

  // ---------- Which properties there are ----------

  ghost predicate Has(ps: seq<Property>, kind: nat) {
    exists i :: 0 <= i < |ps| && ps[i].kind == kind
  }

  lemma HasBoth(a: seq<Property>, b: seq<Property>, kind: nat)
    ensures Has(a + b, kind) <==> Has(a, kind) || Has(b, kind)
  {
    if i :| 0 <= i < |a| && a[i].kind == kind {
      assert (a + b)[i].kind == kind;
    }
    if i :| 0 <= i < |b| && b[i].kind == kind {
      assert (a + b)[|a| + i].kind == kind;
    }
  }

  lemma HasOne(ps: seq<Property>, kind: nat)
    requires |ps| <= 1
    ensures Has(ps, kind) <==> ps != [] && ps[0].kind == kind
  {
  }

  lemma {:induction false} SelectorKinds(selectors: seq<SaSelector>, unset: byte, kind: nat)
    requires kind != IPV4_SELECTOR && kind != IPV6_SELECTOR
    ensures !Has(SelectorPart(selectors, unset), kind)
  {
    if selectors != [] {
      var k := |selectors| - 1;
      SelectorKinds(selectors[..k], unset, kind);
      HasOne([SelectorProperty(selectors[k], unset)], kind);
      HasBoth(SelectorPart(selectors[..k], unset), [SelectorProperty(selectors[k], unset)], kind);
    }
  }

  lemma PlainHas(sa: Sa, kind: nat)
    requires kind != IPV4_SELECTOR && kind != IPV6_SELECTOR
    ensures Has(PlainParts(sa), kind) <==>
              Has(NatPart(sa), kind) || Has(TunnelPart(sa), kind) || Has(DscpPart(sa), kind)
  {
    var a, b, c, d := NatPart(sa), SelectorPart(sa.selectors, sa.unset), TunnelPart(sa), DscpPart(sa);
    SelectorKinds(sa.selectors, sa.unset, kind);
    HasBoth(a, b, kind);
    HasBoth(a + b, c, kind);
    HasBoth(a + b + c, d, kind);
  }

  lemma PlainOnes(sa: Sa, kind: nat)
    ensures Has(NatPart(sa), kind) <==> NatPart(sa) != [] && NatPart(sa)[0].kind == kind
    ensures Has(TunnelPart(sa), kind) <==> TunnelPart(sa) != [] && TunnelPart(sa)[0].kind == kind
    ensures Has(DscpPart(sa), kind) <==> DscpPart(sa) != [] && kind == DSCP_RANGE
  {
    HasOne(NatPart(sa), kind);
    HasOne(TunnelPart(sa), kind);
    HasOne(DscpPart(sa), kind);
  }

  /** Each kind of structure without a key is there exactly when the association asks for it. */
  lemma PresentIff(sa: Sa)
    ensures var ps := PlainParts(sa); (
              && (Has(ps, IPV4_UDP_ENCAP) <==> sa.natPeer.version == IpsecSelector.IP_V4)
              && (Has(ps, IPV6_UDP_ENCAP) <==> sa.natPeer.version == IpsecSelector.IP_V6)
              && (Has(ps, IPV4_TUNNEL_ENDS) <==> sa.tunnel == IpsecSelector.IP_V4)
              && (Has(ps, IPV6_TUNNEL_ENDS) <==> sa.tunnel == IpsecSelector.IP_V6)
              && (Has(ps, DSCP_RANGE) <==> sa.dscpStart != 0 || sa.dscpEnd != 0))
  {
    PlainHas(sa, IPV4_UDP_ENCAP);
    PlainOnes(sa, IPV4_UDP_ENCAP);
    PlainHas(sa, IPV6_UDP_ENCAP);
    PlainOnes(sa, IPV6_UDP_ENCAP);
    PlainHas(sa, IPV4_TUNNEL_ENDS);
    PlainOnes(sa, IPV4_TUNNEL_ENDS);
    PlainHas(sa, IPV6_TUNNEL_ENDS);
    PlainOnes(sa, IPV6_TUNNEL_ENDS);
    PlainHas(sa, DSCP_RANGE);
    PlainOnes(sa, DSCP_RANGE);
  }

  /** There is one structure for each selector, in their order, of the selector's version. */
  lemma {:induction false} SelectorsInOrder(selectors: seq<SaSelector>, unset: byte, i: nat)
    requires i < |selectors|
    ensures |SelectorPart(selectors, unset)| == |selectors|
    ensures SelectorPart(selectors, unset)[i] == SelectorProperty(selectors[i], unset)
    ensures SelectorPart(selectors, unset)[i].kind ==
              if selectors[i].version == IpsecSelector.IP_V4 then IPV4_SELECTOR else IPV6_SELECTOR
  {
    var k := |selectors| - 1;
    if k == 0 {
      assert SelectorPart(selectors[..0], unset) == [];
    } else {
      SelectorsInOrder(selectors[..k], unset, if i < k then i else 0);
    }
  }

  // ---------- What stands where in each structure ----------

  lemma HeaderReads(h: Head, len: nat, unset: byte)
    requires |h.flags| == 2
    ensures var b := Header(h, len, unset); (
              && b[0..2] == Be(OFPAT_EXPERIMENTER, 2) && b[2..4] == Be(len, 2) && b[4..8] == Be(FSLX_VENDOR_ID, 4)
              && b[8..10] == Be(FSLXAT_CREATE_SA_CNTXT, 2) && b[10..12] == h.flags && b[12..16] == Be(h.spi, 4)
              && b[16] == h.protocol && b[18] == h.dscp && (b[19] == 1 <==> h.transport)
              && b[20..24] == Be(h.replay, 4))
  {
    HeaderRestReads(h, unset);
    var front, rest := Be(OFPAT_EXPERIMENTER, 2) + Be(len, 2), HeaderRest(h, unset);
    assert (front + rest)[4..8] == rest[0..4] && (front + rest)[8..10] == rest[4..6];
    assert (front + rest)[10..12] == rest[6..8] && (front + rest)[12..16] == rest[8..12];
    assert (front + rest)[20..24] == rest[16..20];
  }

  lemma HeaderRestReads(h: Head, unset: byte)
    requires |h.flags| == 2
    ensures var b := HeaderRest(h, unset); (
              && b[0..4] == Be(FSLX_VENDOR_ID, 4) && b[4..6] == Be(FSLXAT_CREATE_SA_CNTXT, 2) && b[6..8] == h.flags
              && b[8..12] == Be(h.spi, 4) && b[12] == h.protocol && b[14] == h.dscp && (b[15] == 1 <==> h.transport)
              && b[16..20] == Be(h.replay, 4))
  {
  }

  lemma AuthReads(sa: Sa, of: nat)
    ensures var b := Encode(AuthProperty(sa, of)); (
              && |b| >= 16 && b[4..6] == Be(of, 2) && b[6..8] == Be(sa.icvBits, 2) && b[8..10] == Be(sa.auth.keyBits, 2)
              && b[16..] == sa.auth.key)
  {
    var p := AuthProperty(sa, of);
    KeyPropertiesFit(sa, of);
    StructureSizes();
    FieldAt(p, 0, 4);
    FieldAt(p, 1, 6);
    FieldAt(p, 2, 8);
    TailAt(p);
  }

  lemma EncReads(sa: Sa, of: nat)
    requires sa.enc.algo != ENC_ALG_NULL
    ensures var b := Encode(EncProperty(sa, of)); (
              |b| >= 8 && b[4..6] == Be(of, 2) && b[6..8] == Be(sa.enc.keyBits, 2) && b[8..] == sa.enc.key)
  {
    var p := EncProperty(sa, of);
    KeyPropertiesFit(sa, of);
    StructureSizes();
    FieldAt(p, 0, 4);
    FieldAt(p, 1, 6);
    TailAt(p);
  }

  /** NULL encryption: a key of no bits, and nothing behind the structure. */
  lemma NullEncReads(sa: Sa, of: nat)
    requires sa.enc.algo == ENC_ALG_NULL
    ensures var b := Encode(EncProperty(sa, of)); |b| == 8 && b[4..6] == Be(of, 2) && b[6..8] == Be(0, 2)
  {
    var p := EncProperty(sa, of);
    KeyPropertiesFit(sa, of);
    StructureSizes();
    EncodedSize(p);
    FieldAt(p, 0, 4);
    FieldAt(p, 1, 6);
  }

  lemma CombReads(sa: Sa, of: nat)
    ensures var b := Encode(CombProperty(sa, of)); (
              && |b| >= 16 && b[4..6] == Be(of, 2) && b[6..8] == Be(sa.icvBits, 2) && b[8..10] == Be(sa.comb.keyBits, 2)
              && b[16..] == sa.comb.key)
  {
    var p := CombProperty(sa, of);
    KeyPropertiesFit(sa, of);
    StructureSizes();
    FieldAt(p, 0, 4);
    FieldAt(p, 1, 6);
    FieldAt(p, 2, 8);
    TailAt(p);
  }

  lemma SaltReads(iv: Crypto)
    ensures var b := Encode(SaltProperty(iv)); |b| >= 8 && b[4..6] == Be(iv.keyBits, 2) && b[8..] == iv.key
  {
    var p := SaltProperty(iv);
    StructureSizes();
    FieldAt(p, 0, 4);
    TailAt(p);
  }

  /** ESP in UDP for the first version of NAT traversal, the form without IKE for the second. */
  predicate NatTypeReads(sa: Sa, b: byte) {
    (sa.natVersion == NATV1 ==> b == 1) && (sa.natVersion == NATV2 ==> b == 2)
  }

  lemma Encap4Reads(sa: Sa)
    requires Typed(sa)
    ensures var b := Encode(Encap4Property(sa)); (
              && |b| == 16 && NatTypeReads(sa, b[4]) && b[8..10] == Be(sa.natSrcPort, 2)
              && b[10..12] == Be(sa.natDstPort, 2) && b[12..16] == Be(sa.natPeer.v4, 4))
  {
    var p := Encap4Property(sa);
    PlainSizes(sa);
    PlainPropertiesFit(sa);
    FieldAt(p, 0, 4);
    FieldAt(p, 2, 8);
    FieldAt(p, 3, 10);
    FieldAt(p, 4, 12);
  }

  lemma Encap6Reads(sa: Sa)
    requires Typed(sa)
    ensures var b := Encode(Encap6Property(sa)); (
              && |b| == 32 && NatTypeReads(sa, b[4]) && b[12..14] == Be(sa.natSrcPort, 2)
              && b[14..16] == Be(sa.natDstPort, 2) && b[16..32] == sa.natPeer.v6)
  {
    var p := Encap6Property(sa);
    PlainSizes(sa);
    PlainPropertiesFit(sa);
    FieldAt(p, 0, 4);
    FieldAt(p, 2, 12);
    FieldAt(p, 3, 14);
    FieldAt(p, 4, 16);
  }

  lemma TunnelReads(sa: Sa)
    requires Typed(sa)
    ensures var b := Encode(Tunnel4Property(sa));
              |b| == 16 && b[4..8] == Be(sa.tunnelSrc.v4, 4) && b[8..12] == Be(sa.tunnelDst.v4, 4)
    ensures var b := Encode(Tunnel6Property(sa));
              |b| == 40 && b[8..24] == sa.tunnelSrc.v6 && b[24..40] == sa.tunnelDst.v6
  {
    PlainSizes(sa);
    PlainPropertiesFit(sa);
    FieldAt(Tunnel4Property(sa), 0, 4);
    FieldAt(Tunnel4Property(sa), 1, 8);
    FieldAt(Tunnel6Property(sa), 1, 8);
    FieldAt(Tunnel6Property(sa), 2, 24);
  }

  lemma DscpReads(sa: Sa)
    requires Typed(sa)
    ensures var b := Encode(DscpProperty(sa)); |b| == 8 && b[4..5] == [sa.dscpStart] && b[5..6] == [sa.dscpEnd]
  {
    PlainSizes(sa);
    PlainPropertiesFit(sa);
    FieldAt(DscpProperty(sa), 0, 4);
    FieldAt(DscpProperty(sa), 1, 5);
  }

  /** Ports and protocol; for addresses and masks of subnets see SelectorProperty4Means and SelectorProperty6Means. */
  lemma Selector4Reads(s: SaSelector, unset: byte)
    requires TypedSelector(s) && s.version == IpsecSelector.IP_V4
    ensures var b := Encode(SelectorProperty(s, unset)); (
              && |b| == 32 && b[20..22] == s.ports[0] && b[22..24] == s.ports[1] && b[24..26] == s.ports[2]
              && b[26..28] == s.ports[3] && b[28..29] == [s.protocol])
  {
    var p := SelectorProperty(s, unset);
    SelectorSize(s, unset);
    SelectorPropertyFits(s, unset);
    PortFields(s, unset);
    FieldAt(p, 4, 20);
    FieldAt(p, 5, 22);
    FieldAt(p, 6, 24);
    FieldAt(p, 7, 26);
    FieldAt(p, 8, 28);
  }

  lemma PortFields(s: SaSelector, unset: byte)
    requires TypedSelector(s)
    ensures var f := SelectorProperty(s, unset).fields; (
              && |f| == 10 && f[4] == s.ports[0] && f[5] == s.ports[1] && f[6] == s.ports[2] && f[7] == s.ports[3]
              && f[8] == [s.protocol])
  {
  }

  lemma Selector6Reads(s: SaSelector, unset: byte)
    requires TypedSelector(s) && s.version != IpsecSelector.IP_V4
    ensures var b := Encode(SelectorProperty(s, unset)); (
              && |b| == 78 && b[68..70] == s.ports[0] && b[70..72] == s.ports[1] && b[72..74] == s.ports[2]
              && b[74..76] == s.ports[3] && b[76..77] == [s.protocol])
  {
    var p := SelectorProperty(s, unset);
    SelectorSize(s, unset);
    SelectorPropertyFits(s, unset);
    PortFields(s, unset);
    FieldAt(p, 4, 68);
    FieldAt(p, 5, 70);
    FieldAt(p, 6, 72);
    FieldAt(p, 7, 74);
    FieldAt(p, 8, 76);
  }

  /** An IPv4 range goes out as its ends. */
  lemma Range4Reads(s: SaSelector, unset: byte)
    requires TypedSelector(s) && s.version == IpsecSelector.IP_V4 && s.src.addrType != IpsecSelector.ADDR_TYPE_SUBNET
    ensures var b := Encode(SelectorProperty(s, unset)); (
              && |b| == 32 && b[4..8] == Be(s.src.v4.start, 4) && b[8..12] == Be(s.src.v4.end, 4)
              && b[12..16] == Be(s.dst.v4.start, 4) && b[16..20] == Be(s.dst.v4.end, 4))
  {
    var p := SelectorProperty(s, unset);
    SelectorSize(s, unset);
    SelectorPropertyFits(s, unset);
    FieldAt(p, 0, 4);
    FieldAt(p, 1, 8);
    FieldAt(p, 2, 12);
    FieldAt(p, 3, 16);
  }

  /** Where an IPv6 range ends is not in the action: its start goes out in both places. */
  lemma Range6Reads(s: SaSelector, unset: byte)
    requires TypedSelector(s) && s.version != IpsecSelector.IP_V4 && s.src.addrType != IpsecSelector.ADDR_TYPE_SUBNET
    ensures var b := Encode(SelectorProperty(s, unset)); (
              && |b| == 78 && b[4..20] == b[20..36] == s.src.v6.addr && b[36..52] == b[52..68] == s.dst.v6.addr)
  {
    var p := SelectorProperty(s, unset);
    SelectorSize(s, unset);
    SelectorPropertyFits(s, unset);
    FieldAt(p, 0, 4);
    FieldAt(p, 1, 20);
    FieldAt(p, 2, 36);
    FieldAt(p, 3, 52);
  }

  /** The numbers of the algorithms, by the names both enumerations give them. */
  lemma AlgorithmNumbers()
    ensures OfAuthAlgo(MD5HMAC) == Some(HMAC_MD5) && OfAuthAlgo(SHA1HMAC) == Some(HMAC_SHA1)
    ensures OfAuthAlgo(AESXCBC) == Some(AES_XCBC_MAC) && OfAuthAlgo(SHA2_256_HMAC) == Some(HMAC_SHA2_256)
    ensures OfAuthAlgo(SHA2_384_HMAC) == Some(HMAC_SHA2_384) && OfAuthAlgo(SHA2_512_HMAC) == Some(HMAC_SHA2_512)
    ensures OfEncAlgo(ENC_ALG_NULL) == Some(ENCR_NULL) && OfEncAlgo(DES_CBC) == Some(ENCR_CBC_DES)
    ensures OfEncAlgo(TRIPLE_DES_CBC) == Some(ENCR_CBC_3DES) && OfEncAlgo(AES_CBC) == Some(ENCR_AES_CBC)
    ensures OfEncAlgo(AES_CTR) == Some(ENCR_AES_CTR)
    ensures OfCombAlgo(AES_CCM) == Some(CM_AES_CCM) && OfCombAlgo(AES_GCM) == Some(CM_AES_GCM)
    ensures OfCombAlgo(AES_GMAC) == Some(CM_AES_GMAC)
  {
  }

  /** Distinct algorithms have distinct numbers. */
  lemma AlgorithmsDiffer(a: nat, b: nat)
    ensures OfAuthAlgo(a).Some? && OfAuthAlgo(a) == OfAuthAlgo(b) ==> a == b
    ensures OfEncAlgo(a).Some? && OfEncAlgo(a) == OfEncAlgo(b) ==> a == b
    ensures OfCombAlgo(a).Some? && OfCombAlgo(a) == OfCombAlgo(b) ==> a == b
  {
  }

  /** Two addresses agree with a field and its mask. */
  predicate Under(x: nat, address: seq<byte>, mask: seq<byte>) {
    And(x, Num(mask)) == And(Num(address), Num(mask))
  }

  lemma FourBytes(n: nat)
    requires n < UINT32
    ensures Num(Be(n, 4)) == n
  {
    Pow2Words();
    NumOfBe(n, 4);
  }

  /**
   A subnet selector's property picks the packets whose addresses have the leading bits of its source and of
   its destination prefix.
   */
  lemma SelectorProperty4Means(s: SaSelector, unset: byte, x: nat, y: nat)
    requires TypedSelector(s) && s.version == IpsecSelector.IP_V4 && s.src.addrType == IpsecSelector.ADDR_TYPE_SUBNET
    requires s.src.v4.plen <= 32 && s.dst.v4.plen <= 32 && x < UINT32 && y < UINT32
    ensures var f := SelectorProperty(s, unset).fields; |f| == 10
    ensures var f := SelectorProperty(s, unset).fields; (
              && (Under(x, f[0], f[1]) <==> IpsecSelector.SameLeadingBits(x, s.src.v4.addr, 32, s.src.v4.plen))
              && (Under(y, f[2], f[3]) <==> IpsecSelector.SameLeadingBits(y, s.dst.v4.addr, 32, s.dst.v4.plen)))
  {
    FourBytes(s.src.v4.addr);
    FourBytes(s.dst.v4.addr);
    MaskFits(s.src.v4.plen);
    MaskFits(s.dst.v4.plen);
    Ipv4PrefixMatch(x, s.src.v4.addr, s.src.v4.plen);
    Ipv4PrefixMatch(y, s.dst.v4.addr, s.dst.v4.plen);
  }

  lemma MaskFits(bits: nat)
    requires bits <= 32
    ensures Num(Be(Ipv4Mask(bits), 4)) == Ipv4Mask(bits)
  {
    Ipv4MaskIs(bits);
    Pow2Words();
    FourBytes(Ipv4Mask(bits));
  }

  lemma SelectorProperty6Means(s: SaSelector, unset: byte, x: nat, y: nat)
    requires TypedSelector(s) && s.version == IpsecSelector.IP_V6 && s.src.addrType == IpsecSelector.ADDR_TYPE_SUBNET
    requires x < Pow2(128) && y < Pow2(128)
    ensures var f := SelectorProperty(s, unset).fields; |f| == 10
    ensures var f := SelectorProperty(s, unset).fields; (
              && (Under(x, f[0], f[1]) <==> IpsecSelector.SameLeadingBits(x, Num(s.src.v6.addr), 128, s.src.v6.plen))
              && (Under(y, f[2], f[3]) <==> IpsecSelector.SameLeadingBits(y, Num(s.dst.v6.addr), 128, s.dst.v6.plen)))
  {
    NumBound(s.src.v6.addr);
    NumBound(s.dst.v6.addr);
    Ipv6PrefixMatch(x, Num(s.src.v6.addr), s.src.v6.plen);
    Ipv6PrefixMatch(y, Num(s.dst.v6.addr), s.dst.v6.plen);
  }

  // ---------- The two lengths ----------

  function AuthLen(sa: Sa): (r: nat) {
    AUTH_ALGO_INFO_LEN + sa.auth.keyBits / 8
  }

  lemma EncodeThree(a: seq<Property>, b: seq<Property>, c: seq<Property>)
    ensures |EncodeAll(a + b + c)| == |EncodeAll(a)| + |EncodeAll(b)| + |EncodeAll(c)|
  {
    EncodeMore(a, b);
    EncodeMore(a + b, c);
  }

  lemma EncodeOnly(p: Property)
    ensures EncodeAll([p]) == Encode(p)
  {
    EncodeOneMore([], p);
    assert [] + [p] == [p];
    assert [] + Encode(p) == Encode(p);
  }

  /** The sizes of what the four key parts come to. */
  lemma KeyPartSizes(sa: Sa)
    requires Typed(sa) && Complete(KeyParts(sa))
    ensures |EncodeAll(Done(AuthPart(sa)))| == (if HasAuth(sa) then AuthLen(sa) else 0)
    ensures |EncodeAll(Done(EncPart(sa)) + Done(CombPart(sa)) + Done(SaltPart(sa)))| == |EncodeAll(CountedKeys(sa))|
    ensures Done(KeyParts(sa)) == Done(AuthPart(sa)) + (Done(EncPart(sa)) + Done(CombPart(sa)) + Done(SaltPart(sa)))
  {
    var a, b, c, d := AuthPart(sa), EncPart(sa), CombPart(sa), SaltPart(sa);
    CompleteBoth(a, b);
    CompleteBoth(a + b, c);
    CompleteBoth(a + b + c, d);
    DoneBoth(a, b);
    DoneBoth(a + b, c);
    DoneBoth(a + b + c, d);
    Regrouped(Done(a), Done(b), Done(c), Done(d));
    AuthPartSize(sa);
    OtherPartSizes(sa);
  }

  lemma Regrouped(a: seq<Property>, b: seq<Property>, c: seq<Property>, d: seq<Property>)
    ensures a + b + c + d == a + (b + c + d)
  {
  }

  lemma AuthPartSize(sa: Sa)
    requires Typed(sa) && Complete(AuthPart(sa))
    ensures |EncodeAll(Done(AuthPart(sa)))| == (if HasAuth(sa) then AuthLen(sa) else 0)
  {
    if HasAuth(sa) {
      assert AuthPart(sa)[0].Some?;
      var of := OfAuthAlgo(sa.auth.algo).value;
      KeySizes(sa, of);
      DoneOne(AuthPart(sa)[0]);
      EncodeOnly(AuthProperty(sa, of));
    }
  }

  lemma PartSize(parts: seq<Part>, counted: seq<Property>)
    requires |parts| == |counted| <= 1 && Complete(parts)
    requires parts != [] ==> |Encode(parts[0].value)| == |Encode(counted[0])|
    ensures |EncodeAll(Done(parts))| == |EncodeAll(counted)|
  {
    if parts != [] {
      assert parts[0].Some? && parts == [parts[0]] && counted == [counted[0]];
      DoneOne(parts[0]);
      EncodeOnly(parts[0].value);
      EncodeOnly(counted[0]);
    }
  }

  lemma EncPartSize(sa: Sa)
    requires Typed(sa) && Complete(EncPart(sa))
    ensures |EncodeAll(Done(EncPart(sa)))| == |EncodeAll(CountedEnc(sa))|
  {
    if sa.enc.algo != 0 {
      assert EncPart(sa)[0].Some?;
      KeySizes(sa, 0);
      KeySizes(sa, OfEncAlgo(sa.enc.algo).value);
    }
    PartSize(EncPart(sa), CountedEnc(sa));
  }

  lemma CombPartSize(sa: Sa)
    requires Typed(sa) && Complete(CombPart(sa))
    ensures |EncodeAll(Done(CombPart(sa)))| == |EncodeAll(CountedComb(sa))|
  {
    if sa.comb.algo != 0 {
      assert CombPart(sa)[0].Some?;
      KeySizes(sa, 0);
      KeySizes(sa, OfCombAlgo(sa.comb.algo).value);
    }
    PartSize(CombPart(sa), CountedComb(sa));
  }

  lemma SaltPartSize(sa: Sa)
    requires Typed(sa) && Complete(SaltPart(sa))
    ensures |EncodeAll(Done(SaltPart(sa)))| == |EncodeAll(CountedSalt(sa))|
  {
    if sa.iv.Some? {
      assert SaltPart(sa)[0].Some?;
    }
    PartSize(SaltPart(sa), CountedSalt(sa));
  }

  lemma OtherPartSizes(sa: Sa)
    requires Typed(sa) && Complete(EncPart(sa)) && Complete(CombPart(sa)) && Complete(SaltPart(sa))
    ensures |EncodeAll(Done(EncPart(sa)) + Done(CombPart(sa)) + Done(SaltPart(sa)))| == |EncodeAll(CountedKeys(sa))|
  {
    EncPartSize(sa);
    CombPartSize(sa);
    SaltPartSize(sa);
    EncodeThree(Done(EncPart(sa)), Done(CombPart(sa)), Done(SaltPart(sa)));
    EncodeThree(CountedEnc(sa), CountedComb(sa), CountedSalt(sa));
  }

  /** The pre-pass counts what is written, and an authentication part in any case. */
  lemma CountedAndWritten(sa: Sa)
    requires Typed(sa) && Complete(KeyParts(sa))
    ensures |EncodeAll(Counted(sa))| == |EncodeAll(Properties(sa))| + if HasAuth(sa) then 0 else AuthLen(sa)
  {
    var keys := Done(EncPart(sa)) + Done(CombPart(sa)) + Done(SaltPart(sa));
    KeyPartSizes(sa);
    KeySizes(sa, 0);
    EncodeOnly(AuthProperty(sa, 0));
    EncodeThree([AuthProperty(sa, 0)], CountedKeys(sa), PlainParts(sa));
    EncodeThree(Done(AuthPart(sa)), keys, PlainParts(sa));
  }

  /** A length that has wrapped covers less than what was added up. */
  lemma WrappedShort(n: nat)
    ensures Add16(0, n) <= n && (Add16(0, n) == n <==> n < UINT16)
  {
  }

  /** A wrapped length falls short of everything but the part that made it wrap. */
  lemma WrappedUnder(rest: nat, part: nat)
    requires part < UINT16
    ensures rest <= Add16(0, rest + part) <==> rest + part < UINT16
  {
    var q, r := (rest + part) / UINT16, (rest + part) % UINT16;
    assert rest + part == q * UINT16 + r;
  }

  /** The writer's own 16-bit total is the computed length exactly when what only the latter counts vanishes. */
  lemma TotalsAgree(rest: nat, part: nat)
    ensures Add16(0, rest) == Add16(0, rest + part) <==> part % UINT16 == 0
  {
    var q, r := rest / UINT16, rest % UINT16;
    var p, t := part / UINT16, part % UINT16;
    assert rest + part == (q + p) * UINT16 + (r + t);
    ModMultiple(q + p, r + t);
  }

  lemma CountedIs(sa: Sa, h: Head)
    requires Typed(sa) && |h.flags| == 2 && Complete(KeyParts(sa))
    ensures SA_CREATE_LEN + |EncodeAll(Counted(sa))| == |Action(sa, h)| + if HasAuth(sa) then 0 else AuthLen(sa)
  {
    CountedAndWritten(sa);
  }

  /** How a length computed for `counted` bytes compares with an action that has `written`. */
  ghost predicate Compares(counted: nat, written: nat, part: nat, auth: bool) {
    var len := Add16(0, counted);
    && (counted < UINT16 ==> written <= len && (written == len <==> auth))
    && (auth || part < UINT16 ==> (written <= len <==> counted < UINT16))
    && (Add16(0, written) == len <==> auth || part % UINT16 == 0)
  }

  lemma LengthsCompare(counted: nat, written: nat, part: nat, auth: bool)
    requires part > 0 && counted == written + if auth then 0 else part
    ensures Compares(counted, written, part, auth)
  {
    WrappedShort(counted);
    TotalsAgree(written, part);
    if part < UINT16 {
      WrappedUnder(written, part);
    }
  }

  /**
   The computed length covers the action exactly when it does not wrap; with an authentication key of 2^16
   bytes or more, which is counted but not written when there is no authentication, it may cover all the same.
   It is exact, short of wrapping, exactly with authentication.  The length in the action's own header, which
   wraps too, is the computed one exactly with authentication, or when the part counted without being written
   is a multiple of 2^16.
   */
  lemma LengthCoversSaContext(sa: Sa, h: Head)
    requires Typed(sa) && |h.flags| == 2 && Complete(KeyParts(sa))
    ensures Compares(SA_CREATE_LEN + |EncodeAll(Counted(sa))|, |Action(sa, h)|, AuthLen(sa), HasAuth(sa))
  {
    var counted, written := SA_CREATE_LEN + |EncodeAll(Counted(sa))|, |Action(sa, h)|;
    CountedIs(sa, h);
    LengthsCompare(counted, written, AuthLen(sa), HasAuth(sa));
  }
}
