/**
 The length pre-pass and the filler of ofcdriver/include/ipsec_nb_utils.h, lines 48 to 433.
 */
module IpsecFill {
  import opened Common
  import opened Numbers
  import opened PrefixMask
  import opened Oxm
  import opened IpsecSelector

  // ---------- The length computed beforehand ----------

  /** A range source of an IPv6 selector is given the length of an IPv4 field. */
  function SrcLen(s: Selector): (r: nat) {
    if s.ipVersion == IP_V4 || s.src.addrType != ADDR_TYPE_SUBNET then IPV4_MASK_LEN else IPV6_MASK_LEN
  }

  function DstLen(s: Selector): (r: nat) {
    if s.ipVersion == IP_V4 then IPV4_MASK_LEN else IPV6_MASK_LEN
  }

  function ProtocolLen(s: Selector): (r: nat) {
    if s.protocol == 0 then 0
    else if s.protocol == ICMP then IP_PROTO_FIELD_LEN + 2 * ICMPV4_FIELD_LEN
    else IP_PROTO_FIELD_LEN + 2 * PORT_FIELD_LEN
  }

  function MsgLen(s: Selector): (r: nat) {
    SrcLen(s) + DstLen(s) + ProtocolLen(s)
  }

  /** of_ipsec_calculate_selector_msg_len. */
  method CalculateSelectorMsgLen(s: Selector) returns (ok: bool, len: nat)
    ensures ok <==> KnownVersion(s) && Supported(s)
    ensures ok ==> len == MsgLen(s) <= 89
  {
    len := 0;
    if s.ipVersion == IP_V4 {
      if s.src.addrType == ADDR_TYPE_SUBNET {
        len := len + IPV4_MASK_LEN;
      } else {
        len := len + IPV4_MASK_LEN;
      }
      if s.dst.addrType == ADDR_TYPE_SUBNET {
        len := len + IPV4_MASK_LEN;
      } else {
        len := len + IPV4_MASK_LEN;
      }
    } else if s.ipVersion == IP_V6 {
      if s.src.addrType == ADDR_TYPE_SUBNET {
        len := len + IPV6_MASK_LEN;
      } else {
        len := len + IPV4_MASK_LEN;
      }
      if s.dst.addrType == ADDR_TYPE_SUBNET {
        len := len + IPV6_MASK_LEN;
      } else {
        len := len + IPV6_MASK_LEN;
      }
    } else {
      return false, 0;
    }
    if s.protocol == 0 {
      return true, len;
    }
    len := len + IP_PROTO_FIELD_LEN;
    if s.protocol == TCP {
      len := len + PORT_FIELD_LEN + PORT_FIELD_LEN;
    } else if s.protocol == UDP {
      len := len + PORT_FIELD_LEN + PORT_FIELD_LEN;
    } else if s.protocol == ICMP {
      len := len + ICMPV4_FIELD_LEN + ICMPV4_FIELD_LEN;
    } else {
      return false, 0;
    }
    ok := true;
  }

  lemma {:induction false} SizeConcat(fs: seq<Field>, gs: seq<Field>)
    ensures Size(fs + gs) == Size(fs) + Size(gs)
  {
    if gs == [] {
      assert fs + gs == fs;
    } else {
      var k := |gs| - 1;
      SizeConcat(fs, gs[..k]);
      assert (fs + gs)[..|fs + gs| - 1] == fs + gs[..k];
    }
  }

  lemma SizeOne(fs: seq<Field>)
    requires |fs| <= 1
    ensures Size(fs) == if fs == [] then 0 else OXM_HDR_LEN + Payload(fs[0])
  {
    if fs != [] {
      assert fs[..0] == [];
    }
  }

  lemma SizeOfFields(s: Selector)
    requires Typed(s)
    ensures Size(Fields(s)) ==
              Size(SrcField(s)) + Size(DstField(s)) + Size(ProtocolField(s.protocol))
              + Size(SrcPort(s)) + Size(DstPort(s))
  {
    var a, b, c, d := SrcField(s), DstField(s), ProtocolField(s.protocol), SrcPort(s);
    SizeConcat(a, b);
    SizeConcat(a + b, c);
    SizeConcat(a + b + c, d);
    SizeConcat(a + b + c + d, DstPort(s));
  }

  /** A field of the selector that says nothing is not written: what it would have taken, header included. */
  function Absent(s: Selector): (r: nat) {
    var address, port := OXM_HDR_LEN + 2 * AddressBytes(s), OXM_HDR_LEN + PortBytes(s);
    (if Narrows(s.ipVersion, s.src) then 0 else address) + (if Narrows(s.ipVersion, s.dst) then 0 else address)
    + if s.protocol == 0 then 0
      else (if s.srcPort != 0 then 0 else port) + if s.dstPort != 0 then 0 else port
  }

  function AddressBytes(s: Selector): (r: nat) {
    if s.ipVersion == IP_V4 then 4 else 16
  }

  /** An ICMP type or code has one byte. */
  function PortBytes(s: Selector): (r: nat) {
    if s.protocol == ICMP then 1 else 2
  }

  predicate RangeSource6(s: Selector) {
    s.ipVersion == IP_V6 && s.src.addrType != ADDR_TYPE_SUBNET
  }

  /** The selector says something of both addresses and, if it names a protocol, of both its ports. */
  predicate NamesAll(s: Selector) {
    && Narrows(s.ipVersion, s.src) && Narrows(s.ipVersion, s.dst)
    && (s.protocol != 0 ==> s.srcPort != 0 && s.dstPort != 0)
  }

  lemma AddressesWritten(s: Selector)
    requires Typed(s) && KnownVersion(s)
    ensures var address := OXM_HDR_LEN + 2 * AddressBytes(s); (
              && Size(SrcField(s)) == (if Narrows(s.ipVersion, s.src) then address else 0)
              && Size(DstField(s)) == (if Narrows(s.ipVersion, s.dst) then address else 0))
  {
    SizeOne(SrcField(s));
    SizeOne(DstField(s));
  }

  lemma PortsWritten(s: Selector)
    requires Typed(s) && Supported(s)
    ensures var port := OXM_HDR_LEN + PortBytes(s); (
              && Size(ProtocolField(s.protocol)) == (if s.protocol == 0 then 0 else OXM_HDR_LEN + 1)
              && Size(SrcPort(s)) == (if s.protocol != 0 && s.srcPort != 0 then port else 0)
              && Size(DstPort(s)) == (if s.protocol != 0 && s.dstPort != 0 then port else 0))
  {
    SizeOne(ProtocolField(s.protocol));
    SizeOne(SrcPort(s));
    SizeOne(DstPort(s));
  }

  /**
   The length is computed for a selector that says everything.  It is exact for those, and over by what the
   selector leaves out otherwise; for an IPv6 range source it is 24 bytes less than that.
   */
  lemma LengthIsExact(s: Selector)
    requires Typed(s) && KnownVersion(s) && Supported(s)
    ensures |EncodeAll(Fields(s))| + Absent(s) == MsgLen(s) + if RangeSource6(s) then 24 else 0
    ensures !RangeSource6(s) ==> (|EncodeAll(Fields(s))| == MsgLen(s) <==> NamesAll(s))
    ensures RangeSource6(s) ==> (|EncodeAll(Fields(s))| == MsgLen(s) + 24 <==> NamesAll(s))
  {
    FieldsAreValid(s);
    SizeOfEncoded(Fields(s));
    SizeOfFields(s);
    AddressesWritten(s);
    PortsWritten(s);
  }

  /** The computed length falls short exactly for an IPv6 selector with a range source that writes both addresses. */
  lemma LengthCoversIff(s: Selector)
    requires Typed(s) && KnownVersion(s) && Supported(s)
    ensures |EncodeAll(Fields(s))| <= MsgLen(s) <==>
              !(s.ipVersion == IP_V6 && s.src.addrType != ADDR_TYPE_SUBNET && SrcField(s) != [] && DstField(s) != [])
  {
    LengthIsExact(s);
  }

  /** An IPv6 range source with a destination prefix needs 72 bytes; 48 are computed. */
  lemma RangeSourceIsShort()
    ensures exists s :: Typed(s) && KnownVersion(s) && Supported(s) && MsgLen(s) == 48 && |EncodeAll(Fields(s))| == 72
  {
    var one: seq<byte> := ZEROS[0 := 1];
    var src := Address(1, View4(0, 0, 0, 0), View6(ZEROS, 0, one, one));
    var dst := Address(ADDR_TYPE_SUBNET, View4(0, 0, 0, 0), View6(one, 64, ZEROS, ZEROS));
    var s := Selector(IP_V6, 0, 0, 0, src, dst);
    assert one[0] == 1 && one != ZEROS;
    LengthIsExact(s);
  }

  // ---------- The filler ----------

  lemma {:induction false} FitStops(fs: seq<Field>, gs: seq<Field>, room: nat)
    requires Size(fs) > room
    ensures Fit(fs + gs, room) == Fit(fs, room)
    decreases |gs|
  {
    SizeConcat(fs, gs);
    if gs == [] {
      assert fs + gs == fs;
    } else {
      var k := |gs| - 1;
      assert (fs + gs)[..|fs + gs| - 1] == fs + gs[..k];
      FitStops(fs, gs[..k], room);
    }
  }

  /** Of fs, the message has taken what fits in room bytes behind `was`; ok says whether all of it fitted. */
  ghost predicate Sent(msg: Message, was: seq<byte>, room: nat, fs: seq<Field>, ok: bool)
    reads msg, msg.data
  {
    && msg.Valid() && msg.Written() == was + EncodeAll(Fit(fs, room)) && ok == (Size(fs) <= room)
    && (ok ==> msg.Room() == room - Size(fs))
  }

  lemma EncodeOneMore(was: seq<byte>, fs: seq<Field>, f: Field)
    ensures was + EncodeAll(fs + [f]) == was + EncodeAll(fs) + Encode(f)
    ensures Size(fs + [f]) == Size(fs) + OXM_HDR_LEN + Payload(f)
  {
    assert (fs + [f])[..|fs + [f]| - 1] == fs;
  }

  lemma FitOneMore(fs: seq<Field>, f: Field, room: nat)
    requires Size(fs) <= room
    ensures Fit(fs, room) == fs
    ensures Fit(fs + [f], room) == if Size(fs + [f]) <= room then fs + [f] else fs
  {
    assert (fs + [f])[..|fs + [f]| - 1] == fs;
  }

  lemma SentOne(msg: Message, was: seq<byte>, room: nat, fs: seq<Field>, f: Field, ok: bool)
    requires msg.Valid() && Size(fs) <= room && ok == (OXM_HDR_LEN + Payload(f) <= room - Size(fs))
    requires msg.Written() == was + EncodeAll(fs) + if ok then Encode(f) else []
    requires ok ==> msg.Room() == room - Size(fs) - OXM_HDR_LEN - Payload(f)
    ensures Sent(msg, was, room, fs + [f], ok)
  {
    EncodeOneMore(was, fs, f);
    FitOneMore(fs, f, room);
  }

  /** The call of one of_set function and the early return after it. */
  method Send(msg: Message, f: Field, ghost was: seq<byte>, ghost room: nat, ghost fs: seq<Field>) returns (ok: bool)
    requires Sent(msg, was, room, fs, true) && ValidField(f)
    modifies msg, msg.data
    ensures Sent(msg, was, room, fs + [f], ok)
  {
    FitOneMore(fs, f, room);
    ok := msg.Set(f);
    SentOne(msg, was, room, fs, f, ok);
  }

  method FillAddress4(msg: Message, code: nat, a: Address, ghost was: seq<byte>, ghost room: nat, ghost fs: seq<Field>)
      returns (ok: bool)
    requires Sent(msg, was, room, fs, true) && TypedAddress(a) && code < 128
    modifies msg, msg.data
    ensures Sent(msg, was, room, fs + Address4(code, a.addrType, a.v4), ok)
  {
    ok := true;
    assert fs + [] == fs;
    if a.addrType == ADDR_TYPE_SUBNET {
      if a.v4.plen != 0 {
        var mask := Ipv4Mask(a.v4.plen);
        ok := Send(msg, Field(code, Be(a.v4.addr, 4), Some(Be(mask, 4))), was, room, fs);
      }
    } else {
      if a.v4.start != 0 || a.v4.end != 0 {
        ok := Send(msg, Field(code, Be(a.v4.start, 4), Some(Be(a.v4.end, 4))), was, room, fs);
      }
    }
  }

  method FillAddress6(msg: Message, code: nat, a: Address, ghost was: seq<byte>, ghost room: nat, ghost fs: seq<Field>)
      returns (ok: bool)
    requires Sent(msg, was, room, fs, true) && TypedAddress(a) && code < 128
    modifies msg, msg.data
    ensures Sent(msg, was, room, fs + Address6(code, a.addrType, a.v6), ok)
  {
    ok := true;
    assert fs + [] == fs;
    if a.addrType == ADDR_TYPE_SUBNET {
      if a.v6.plen != 0 {
        var mask := new byte[16](_ => 0);
        Ipv6AddrPrefixToMask(a.v6.plen, mask);
        ok := Send(msg, Field(code, a.v6.addr, Some(mask[..])), was, room, fs);
      }
    } else {
      if a.v6.start != ZEROS || a.v6.end != ZEROS {
        ok := Send(msg, Field(code, a.v6.start, Some(a.v6.end)), was, room, fs);
      }
    }
  }

  method FillPort(msg: Message, code: nat, width: nat, start: nat, ghost was: seq<byte>, ghost room: nat,
      ghost fs: seq<Field>) returns (ok: bool)
    requires Sent(msg, was, room, fs, true) && code < 128 && 0 < width <= 2
    modifies msg, msg.data
    ensures Sent(msg, was, room, fs + Port(code, width, start), ok)
  {
    ok := true;
    assert fs + [] == fs;
    if start != 0 {
      ok := Send(msg, Field(code, Be(start, width), None), was, room, fs);
    }
  }

  /** An early return: the fields that would have followed do not matter. */
  lemma Stopped(msg: Message, was: seq<byte>, room: nat, fs: seq<Field>, gs: seq<Field>)
    requires Sent(msg, was, room, fs, false)
    ensures Sent(msg, was, room, fs + gs, false)
  {
    FitStops(fs, gs, room);
    SizeConcat(fs, gs);
  }

  /** Source and destination addresses. */
  method FillAddresses(s: Selector, msg: Message, ghost was: seq<byte>, ghost room: nat) returns (ok: bool)
    requires Typed(s) && Sent(msg, was, room, [], true)
    modifies msg, msg.data
    ensures Sent(msg, was, room, SrcField(s) + DstField(s), ok)
  {
    assert [] + SrcField(s) == SrcField(s);
    if s.ipVersion == IP_V4 {
      ok := FillAddress4(msg, IPV4_SRC, s.src, was, room, []);
    } else {
      ok := FillAddress6(msg, IPV6_SRC, s.src, was, room, []);
    }
    if !ok {
      Stopped(msg, was, room, SrcField(s), DstField(s));
      return;
    }
    if s.ipVersion == IP_V4 {
      ok := FillAddress4(msg, IPV4_DST, s.dst, was, room, SrcField(s));
    } else {
      ok := FillAddress6(msg, IPV6_DST, s.dst, was, room, SrcField(s));
    }
  }

  /** The ports of a supported protocol. */
  method FillPorts(s: Selector, msg: Message, ghost was: seq<byte>, ghost room: nat, ghost fs: seq<Field>)
      returns (ok: bool)
    requires Typed(s) && Supported(s) && s.protocol != 0 && Sent(msg, was, room, fs, true)
    modifies msg, msg.data
    ensures Sent(msg, was, room, fs + SrcPort(s) + DstPort(s), ok)
  {
    if s.protocol == TCP {
      ok := FillPort(msg, TCP_SRC, 2, s.srcPort, was, room, fs);
    } else if s.protocol == UDP {
      ok := FillPort(msg, UDP_SRC, 2, s.srcPort, was, room, fs);
    } else {
      ok := FillPort(msg, ICMPV4_TYPE, 1, s.srcPort, was, room, fs);
    }
    if !ok {
      Stopped(msg, was, room, fs + SrcPort(s), DstPort(s));
      return;
    }
    if s.protocol == TCP {
      ok := FillPort(msg, TCP_DST, 2, s.dstPort, was, room, fs + SrcPort(s));
    } else if s.protocol == UDP {
      ok := FillPort(msg, UDP_DST, 2, s.dstPort, was, room, fs + SrcPort(s));
    } else {
      ok := FillPort(msg, ICMPV4_CODE, 1, s.dstPort, was, room, fs + SrcPort(s));
    }
  }

  lemma StoppedTwice(msg: Message, was: seq<byte>, room: nat, fs: seq<Field>, gs: seq<Field>, hs: seq<Field>)
    requires Sent(msg, was, room, fs, false)
    ensures Sent(msg, was, room, fs + gs + hs, false)
  {
    Stopped(msg, was, room, fs, gs);
    Stopped(msg, was, room, fs + gs, hs);
  }

  /** Without a protocol that has ports nothing follows. */
  lemma NoPorts(s: Selector, fs: seq<Field>)
    requires s.protocol != TCP && s.protocol != UDP && s.protocol != ICMP
    ensures fs + SrcPort(s) + DstPort(s) == fs
  {
  }

  /** The protocol, if the selector names one. */
  method FillProtocol(s: Selector, msg: Message, ghost was: seq<byte>, ghost room: nat, ghost fs: seq<Field>)
      returns (ok: bool)
    requires Typed(s) && Sent(msg, was, room, fs, true)
    modifies msg, msg.data
    ensures Sent(msg, was, room, fs + ProtocolField(s.protocol), ok)
  {
    ok := true;
    assert fs + [] == fs;
    if s.protocol != 0 {
      ok := Send(msg, Field(IP_PROTO, [s.protocol], None), was, room, fs);
    }
  }

  /** The switch on the protocol; `sent` says whether everything fitted. */
  method FillSwitch(s: Selector, msg: Message, ghost was: seq<byte>, ghost room: nat, ghost fs: seq<Field>)
    returns (ok: bool, ghost sent: bool)
    requires Typed(s) && Sent(msg, was, room, fs, true)
    modifies msg, msg.data
    ensures Sent(msg, was, room, fs + SrcPort(s) + DstPort(s), sent) && ok == (sent && Supported(s))
  {
    if s.protocol == TCP || s.protocol == UDP || s.protocol == ICMP {
      ok := FillPorts(s, msg, was, room, fs);
      sent := ok;
    } else {
      NoPorts(s, fs);
      ok, sent := s.protocol == 0, true;
    }
  }

  lemma AllSent(msg: Message, was: seq<byte>, room: nat, s: Selector, sent: bool)
    requires Typed(s)
    requires Sent(msg, was, room, SrcField(s) + DstField(s) + ProtocolField(s.protocol) + SrcPort(s) + DstPort(s), sent)
    ensures msg.Written() == was + EncodeAll(Fit(Fields(s), room)) && sent == (|EncodeAll(Fields(s))| <= room)
  {
    FieldsAreValid(s);
    SizeOfEncoded(Fields(s));
  }

  /**
   of_ipsec_fill_selector_info_in_of_msg: it succeeds exactly when the protocol is supported and the
   fields fit; whatever happens, the message has gained the fields that fit, in order.
   */
  method FillSelectorInfo(s: Selector, msg: Message) returns (ok: bool)
    requires Typed(s) && msg.Valid()
    modifies msg, msg.data
    ensures msg.Valid() && ok == (Supported(s) && |EncodeAll(Fields(s))| <= old(msg.Room()))
    ensures msg.Written() == old(msg.Written()) + EncodeAll(Fit(Fields(s), old(msg.Room())))
  {
    ghost var was, room, fs := msg.Written(), msg.Room(), SrcField(s) + DstField(s);
    ghost var gs, sent := fs + ProtocolField(s.protocol), false;
    assert was + EncodeAll([]) == was;
    ok := FillAddresses(s, msg, was, room);
    if !ok {
      Stopped(msg, was, room, fs, ProtocolField(s.protocol));
    } else {
      ok := FillProtocol(s, msg, was, room, fs);
    }
    if !ok {
      StoppedTwice(msg, was, room, gs, SrcPort(s), DstPort(s));
    } else {
      ok, sent := FillSwitch(s, msg, was, room, gs);
    }
    AllSent(msg, was, room, s, sent);
  }

  /** With the computed room, and outside that case, the filler succeeds for all selectors the pre-pass accepts. */
  method FillIntoComputedRoom(s: Selector, data: array<byte>) returns (msg: Message, ok: bool)
    requires Typed(s) && KnownVersion(s) && Supported(s) && data.Length == MsgLen(s)
    requires !(s.ipVersion == IP_V6 && s.src.addrType != ADDR_TYPE_SUBNET && SrcField(s) != [] && DstField(s) != [])
    modifies data
    ensures ok && msg.Valid() && Parse(msg.Written()) == Some(Fields(s))
  {
    LengthCoversIff(s);
    FieldsAreValid(s);
    ParseEncoded(Fields(s));
    SizeOfEncoded(Fields(s));
    msg := new Message(data, 0);
    ok := FillSelectorInfo(s, msg);
    assert [] + EncodeAll(Fields(s)) == EncodeAll(Fields(s));
  }
}
