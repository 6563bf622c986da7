/**
 Putting an IPsec selector into an OpenFlow match (ofcdriver/include/ipsec_nb_utils.h, lines 48 to 433):
 the length computed beforehand, the fields written, and what a switch that reads them back will match.
 */
module IpsecSelector {
  import opened Common
  import opened Numbers
  import opened PrefixMask
  import opened Oxm

  const IP_V4: nat := 1
  const IP_V6: nat := 2
  const ADDR_TYPE_SUBNET: nat := 0
  const TCP: nat := 0x06
  const UDP: nat := 0x11
  const ICMP: nat := 0x01

  /** Field lengths of ofcdriver/include/of_utilities.h. */
  const IP_PROTO_FIELD_LEN: nat := 5
  const IPV4_MASK_LEN: nat := 12
  const IPV6_MASK_LEN: nat := 36
  const PORT_FIELD_LEN: nat := 6
  const ICMPV4_FIELD_LEN: nat := 5

  /** The IPv4 and the IPv6 view of a selector address; the program overlays them. */
  datatype View4 = View4(addr: nat, plen: nat, start: nat, end: nat)
  datatype View6 = View6(addr: seq<byte>, plen: nat, start: seq<byte>, end: seq<byte>)
  datatype Address = Address(addrType: nat, v4: View4, v6: View6)

  /** srcPort and dstPort are the `start` of each port range. */
  datatype Selector = Selector(ipVersion: nat, protocol: nat, srcPort: nat, dstPort: nat, src: Address, dst: Address)

  predicate TypedAddress(a: Address) {
    && a.v4.addr < UINT32 && a.v4.start < UINT32 && a.v4.end < UINT32 && a.v4.plen < 0x100
    && |a.v6.addr| == |a.v6.start| == |a.v6.end| == 16 && a.v6.plen <= 128
  }

  predicate Typed(s: Selector) {
    s.protocol < 0x100 && s.srcPort < 0x1_0000 && s.dstPort < 0x1_0000 && TypedAddress(s.src) && TypedAddress(s.dst)
  }

  /** The protocols both functions know; 0 is any. */
  predicate Supported(s: Selector) {
    s.protocol == 0 || s.protocol == TCP || s.protocol == UDP || s.protocol == ICMP
  }

  const ZEROS: seq<byte> := [0, 0, 0, 0, 0, 0, 0, 0, 0, 0, 0, 0, 0, 0, 0, 0]

  // ---------- The fields ----------

  function Address4(code: nat, addrType: nat, v: View4): (fs: seq<Field>) {
    if addrType == ADDR_TYPE_SUBNET then
      if v.plen != 0 then [Field(code, Be(v.addr, 4), Some(Be(Ipv4Mask(v.plen), 4)))] else []
    else if v.start != 0 || v.end != 0 then [Field(code, Be(v.start, 4), Some(Be(v.end, 4)))] else []
  }

  function Address6(code: nat, addrType: nat, v: View6): (fs: seq<Field>)
    requires v.plen <= 128
  {
    if addrType == ADDR_TYPE_SUBNET then
      if v.plen != 0 then [Field(code, v.addr, Some(Ipv6Mask(v.plen)))] else []
    else if v.start != ZEROS || v.end != ZEROS then [Field(code, v.start, Some(v.end))] else []
  }

  function SrcField(s: Selector): (fs: seq<Field>)
    requires Typed(s)
  {
    if s.ipVersion == IP_V4 then Address4(IPV4_SRC, s.src.addrType, s.src.v4)
    else Address6(IPV6_SRC, s.src.addrType, s.src.v6)
  }

  function DstField(s: Selector): (fs: seq<Field>)
    requires Typed(s)
  {
    if s.ipVersion == IP_V4 then Address4(IPV4_DST, s.dst.addrType, s.dst.v4)
    else Address6(IPV6_DST, s.dst.addrType, s.dst.v6)
  }

  function ProtocolField(protocol: nat): (fs: seq<Field>)
    requires protocol < 0x100
  {
    if protocol != 0 then [Field(IP_PROTO, [protocol], None)] else []
  }

  function Port(code: nat, width: nat, start: nat): (fs: seq<Field>) {
    if start != 0 then [Field(code, Be(start, width), None)] else []
  }

  function SrcPort(s: Selector): (fs: seq<Field>) {
    if s.protocol == TCP then Port(TCP_SRC, 2, s.srcPort)
    else if s.protocol == UDP then Port(UDP_SRC, 2, s.srcPort)
    else if s.protocol == ICMP then Port(ICMPV4_TYPE, 1, s.srcPort)
    else []
  }

  function DstPort(s: Selector): (fs: seq<Field>) {
    if s.protocol == TCP then Port(TCP_DST, 2, s.dstPort)
    else if s.protocol == UDP then Port(UDP_DST, 2, s.dstPort)
    else if s.protocol == ICMP then Port(ICMPV4_CODE, 1, s.dstPort)
    else []
  }

  /** Everything of_ipsec_fill_selector_info_in_of_msg sets, in its order. */
  function Fields(s: Selector): (fs: seq<Field>)
    requires Typed(s)
  {
    SrcField(s) + DstField(s) + ProtocolField(s.protocol) + SrcPort(s) + DstPort(s)
  }

  ghost predicate AllValid(fs: seq<Field>) {
    forall i :: 0 <= i < |fs| ==> ValidField(fs[i])
  }

  lemma FieldsAreValid(s: Selector)
    requires Typed(s)
    ensures AllValid(SrcField(s)) && AllValid(DstField(s)) && AllValid(ProtocolField(s.protocol))
    ensures AllValid(SrcPort(s)) && AllValid(DstPort(s)) && AllValid(Fields(s))
  {
    AddressesAreValid(s);
    PortsAreValid(s);
  }

  lemma AddressesAreValid(s: Selector)
    requires Typed(s)
    ensures AllValid(SrcField(s)) && AllValid(DstField(s))
  {
  }

  lemma PortsAreValid(s: Selector)
    ensures AllValid(SrcPort(s)) && AllValid(DstPort(s))
  {
  }

  // ---------- What the match means ----------

  /** sport and dport are the type and code of an ICMP packet. */
  datatype Packet = Packet(ipVersion: nat, src: nat, dst: nat, proto: nat, sport: nat, dport: nat)

  predicate Agree(f: Field, x: nat) {
    if f.mask.Some? then And(x, Num(f.mask.value)) == And(Num(f.value), Num(f.mask.value)) else x == Num(f.value)
  }

  /** A switch compares the field's part of the packet; addresses need their IP version, ports their protocol. */
  predicate Matches(f: Field, p: Packet) {
    if f.code == IPV4_SRC then p.ipVersion == IP_V4 && Agree(f, p.src)
    else if f.code == IPV6_SRC then p.ipVersion == IP_V6 && Agree(f, p.src)
    else if f.code == IPV4_DST then p.ipVersion == IP_V4 && Agree(f, p.dst)
    else if f.code == IPV6_DST then p.ipVersion == IP_V6 && Agree(f, p.dst)
    else if f.code == IP_PROTO then Agree(f, p.proto)
    else if f.code == TCP_SRC then p.proto == TCP && Agree(f, p.sport)
    else if f.code == TCP_DST then p.proto == TCP && Agree(f, p.dport)
    else if f.code == UDP_SRC then p.proto == UDP && Agree(f, p.sport)
    else if f.code == UDP_DST then p.proto == UDP && Agree(f, p.dport)
    else if f.code == ICMPV4_TYPE then p.proto == ICMP && Agree(f, p.sport)
    else if f.code == ICMPV4_CODE then p.proto == ICMP && Agree(f, p.dport)
    else false
  }

  ghost predicate MatchesAll(fs: seq<Field>, p: Packet) {
    forall i :: 0 <= i < |fs| ==> Matches(fs[i], p)
  }

  ghost predicate SameLeadingBits(a: nat, b: nat, w: nat, p: nat) {
    forall i: nat :: w - p <= i < w ==> Bit(a, i) == Bit(b, i)
  }

  /**
   What a selector address selects: a subnet, the addresses with its leading plen bits; a range, the
   program's reading of it, an address and a mask, with 0 and 0 for any.
   */
  ghost predicate Selects(version: nat, a: Address, x: nat) {
    if version == IP_V4 then
      if a.addrType == ADDR_TYPE_SUBNET then SameLeadingBits(x, a.v4.addr, 32, if a.v4.plen > 32 then 32 else a.v4.plen)
      else (a.v4.start == 0 && a.v4.end == 0) || And(x, a.v4.end) == And(a.v4.start, a.v4.end)
    else
      if a.addrType == ADDR_TYPE_SUBNET then SameLeadingBits(x, Num(a.v6.addr), 128, a.v6.plen)
      else (a.v6.start == ZEROS && a.v6.end == ZEROS) || And(x, Num(a.v6.end)) == And(Num(a.v6.start), Num(a.v6.end))
  }

  /** Port 0 is any; an ICMP type or code is the low byte of the port. */
  predicate PortSelects(protocol: nat, start: nat, x: nat) {
    start == 0 || x == if protocol == ICMP then start % 0x100 else start
  }

  /** Not a subnet of no bits, nor a range of two zero addresses. */
  predicate Narrows(version: nat, a: Address) {
    if version == IP_V4 then
      if a.addrType == ADDR_TYPE_SUBNET then a.v4.plen != 0 else a.v4.start != 0 || a.v4.end != 0
    else
      if a.addrType == ADDR_TYPE_SUBNET then a.v6.plen != 0 else a.v6.start != ZEROS || a.v6.end != ZEROS
  }

  predicate NamesAddress(s: Selector) {
    Narrows(s.ipVersion, s.src) || Narrows(s.ipVersion, s.dst)
  }

  /**
   The packets a selector selects once it is in a match.  Nothing in the match speaks of the IP version but
   the address fields, so a selector that names no address selects packets of both versions.
   */
  ghost predicate SelectorMatches(s: Selector, p: Packet) {
    && (NamesAddress(s) ==> p.ipVersion == s.ipVersion)
    && Selects(s.ipVersion, s.src, p.src) && Selects(s.ipVersion, s.dst, p.dst)
    && (s.protocol == 0 ||
        (p.proto == s.protocol && PortSelects(s.protocol, s.srcPort, p.sport)
            && PortSelects(s.protocol, s.dstPort, p.dport)))
  }

  lemma MatchesConcat(fs: seq<Field>, gs: seq<Field>, p: Packet)
    ensures MatchesAll(fs + gs, p) <==> MatchesAll(fs, p) && MatchesAll(gs, p)
  {
    if MatchesAll(fs + gs, p) {
      assert forall i :: 0 <= i < |fs| ==> fs[i] == (fs + gs)[i];
      assert forall i :: 0 <= i < |gs| ==> gs[i] == (fs + gs)[|fs| + i];
    }
  }

  lemma MatchesOne(fs: seq<Field>, p: Packet)
    requires |fs| == 1
    ensures MatchesAll(fs, p) <==> Matches(fs[0], p)
  {
  }

  lemma Address4Means(code: nat, a: Address, x: nat)
    requires TypedAddress(a) && x < UINT32
    ensures var fs := Address4(code, a.addrType, a.v4);
              |fs| <= 1 && ((fs == [] || Agree(fs[0], x)) <==> Selects(IP_V4, a, x))
  {
    Pow2Words();
    NumOfBe(a.v4.addr, 4);
    NumOfBe(a.v4.start, 4);
    NumOfBe(a.v4.end, 4);
    var p := if a.v4.plen > 32 then 32 else a.v4.plen;
    Ipv4MaskIs(a.v4.plen);
    Ipv4MaskIs(p);
    NumOfBe(Ipv4Mask(a.v4.plen), 4);
    Ipv4PrefixMatch(x, a.v4.addr, p);
  }

  lemma Address6Means(code: nat, a: Address, x: nat)
    requires TypedAddress(a) && x < Pow2(128)
    ensures var fs := Address6(code, a.addrType, a.v6);
              |fs| <= 1 && ((fs == [] || Agree(fs[0], x)) <==> Selects(IP_V6, a, x))
  {
    if a.addrType == ADDR_TYPE_SUBNET {
      NumBound(a.v6.addr);
      Ipv6PrefixMatch(x, Num(a.v6.addr), a.v6.plen);
    }
  }

  predicate KnownVersion(s: Selector) {
    s.ipVersion == IP_V4 || s.ipVersion == IP_V6
  }

  /** An address no wider than its packet's version allows. */
  predicate InRange(p: Packet) {
    if p.ipVersion == IP_V4 then p.src < UINT32 && p.dst < UINT32 else p.src < Pow2(128) && p.dst < Pow2(128)
  }

  /** No field is written only where every address is selected. */
  lemma NoFieldSelectsAll(s: Selector, x: nat)
    requires Typed(s) && KnownVersion(s)
    ensures SrcField(s) == [] ==> Selects(s.ipVersion, s.src, x)
    ensures DstField(s) == [] ==> Selects(s.ipVersion, s.dst, x)
  {
  }

  lemma SrcMeans(s: Selector, p: Packet)
    requires Typed(s) && KnownVersion(s) && InRange(p)
    ensures MatchesAll(SrcField(s), p) <==>
              (Narrows(s.ipVersion, s.src) ==> p.ipVersion == s.ipVersion) && Selects(s.ipVersion, s.src, p.src)
  {
    if SrcField(s) == [] {
      NoFieldSelectsAll(s, p.src);
    } else {
      MatchesOne(SrcField(s), p);
      if p.ipVersion == s.ipVersion {
        if s.ipVersion == IP_V4 {
          Address4Means(IPV4_SRC, s.src, p.src);
        } else {
          Address6Means(IPV6_SRC, s.src, p.src);
        }
      }
    }
  }

  lemma DstMeans(s: Selector, p: Packet)
    requires Typed(s) && KnownVersion(s) && InRange(p)
    ensures MatchesAll(DstField(s), p) <==>
              (Narrows(s.ipVersion, s.dst) ==> p.ipVersion == s.ipVersion) && Selects(s.ipVersion, s.dst, p.dst)
  {
    if DstField(s) == [] {
      NoFieldSelectsAll(s, p.dst);
    } else {
      MatchesOne(DstField(s), p);
      if p.ipVersion == s.ipVersion {
        if s.ipVersion == IP_V4 {
          Address4Means(IPV4_DST, s.dst, p.dst);
        } else {
          Address6Means(IPV6_DST, s.dst, p.dst);
        }
      }
    }
  }

  lemma PortMeans(code: nat, width: nat, start: nat, x: nat)
    requires width == 1 || width == 2
    requires start < 0x1_0000
    ensures var fs := Port(code, width, start);
              |fs| <= 1 && ((fs == [] || Agree(fs[0], x)) <==>
                  (start == 0 || x == if width == 1 then start % 0x100 else start))
  {
    if width == 1 {
      LowByte(start);
    } else {
      Pow2Words();
      NumOfBe(start, 2);
    }
  }

  lemma PortsMean(s: Selector, p: Packet)
    requires Typed(s) && Supported(s) && s.protocol != 0 && p.proto == s.protocol
    ensures MatchesAll(SrcPort(s), p) <==> PortSelects(s.protocol, s.srcPort, p.sport)
    ensures MatchesAll(DstPort(s), p) <==> PortSelects(s.protocol, s.dstPort, p.dport)
  {
    var w := if s.protocol == ICMP then 1 else 2;
    var c, d := if s.protocol == TCP then TCP_SRC else if s.protocol == UDP then UDP_SRC else ICMPV4_TYPE,
                if s.protocol == TCP then TCP_DST else if s.protocol == UDP then UDP_DST else ICMPV4_CODE;
    PortMeans(c, w, s.srcPort, p.sport);
    PortMeans(d, w, s.dstPort, p.dport);
    assert SrcPort(s) == Port(c, w, s.srcPort) && DstPort(s) == Port(d, w, s.dstPort);
  }

  lemma ProtocolMeans(s: Selector, p: Packet)
    requires Typed(s)
    ensures MatchesAll(ProtocolField(s.protocol), p) <==> s.protocol == 0 || p.proto == s.protocol
  {
    if s.protocol != 0 {
      var b: seq<byte> := [s.protocol];
      assert Num(b) == s.protocol;
      MatchesOne(ProtocolField(s.protocol), p);
    }
  }

  /** The fields match exactly the packets the selector selects. */
  lemma FieldsMeanSelector(s: Selector, p: Packet)
    requires Typed(s) && KnownVersion(s) && Supported(s) && InRange(p)
    ensures MatchesAll(Fields(s), p) <==> SelectorMatches(s, p)
  {
    var a, b, c, d, e := SrcField(s), DstField(s), ProtocolField(s.protocol), SrcPort(s), DstPort(s);
    MatchesConcat(a, b, p);
    MatchesConcat(a + b, c, p);
    MatchesConcat(a + b + c, d, p);
    MatchesConcat(a + b + c + d, e, p);
    SrcMeans(s, p);
    DstMeans(s, p);
    ProtocolMeans(s, p);
    if s.protocol != 0 && p.proto == s.protocol {
      PortsMean(s, p);
    }
  }

  /** What the filler writes, read back by OXM's own rules, matches exactly the packets the selector selects. */
  lemma MessageMeansSelector(s: Selector, p: Packet)
    requires Typed(s) && KnownVersion(s) && Supported(s) && InRange(p)
    ensures Parse(EncodeAll(Fields(s))).Some?
    ensures MatchesAll(Parse(EncodeAll(Fields(s))).value, p) <==> SelectorMatches(s, p)
  {
    FieldsAreValid(s);
    ParseEncoded(Fields(s));
    FieldsMeanSelector(s, p);
  }
}
