/**
 OpenFlow match fields (ofcdriver/ofproto/src/include/openflow.h, lines 455 to 805) and the message
 buffer the of_set functions of ofcdriver/ofproto/src/messages/of_msg_utils.c append them to.
 */
module Oxm {
  import opened Common
  import opened Numbers

  const OXM_HDR_LEN: nat := 4
  const OPENFLOW_BASIC: nat := 0x8000

  /** enum oxm_ofb_match_fields. */
  const IP_PROTO: nat := 10
  const IPV4_SRC: nat := 11
  const IPV4_DST: nat := 12
  const TCP_SRC: nat := 13
  const TCP_DST: nat := 14
  const UDP_SRC: nat := 15
  const UDP_DST: nat := 16
  const ICMPV4_TYPE: nat := 19
  const ICMPV4_CODE: nat := 20
  const IPV6_SRC: nat := 26
  const IPV6_DST: nat := 27

  datatype Field = Field(code: nat, value: seq<byte>, mask: Option<seq<byte>>)

  predicate ValidField(f: Field) {
    && f.code < 128 && 0 < |f.value| && Payload(f) < 256
    && (f.mask.Some? ==> |f.mask.value| == |f.value|)
  }

  function Payload(f: Field): (r: nat) {
    if f.mask.Some? then 2 * |f.value| else |f.value|
  }

  /** OXM_HEADER and OXM_HEADER_W; the parts do not overlap, so + stands for |. */
  function Header(f: Field): (r: nat) {
    OPENFLOW_BASIC * 0x1_0000 + f.code * 0x200 + (if f.mask.Some? then 0x100 else 0) + Payload(f)
  }

  /** What the macros give for an address of each version with its mask, a protocol and a port. */
  lemma KnownHeaders(v4: seq<byte>, v6: seq<byte>, proto: seq<byte>, port: seq<byte>)
    requires |v4| == 4 && |v6| == 16 && |proto| == 1 && |port| == 2
    ensures Header(Field(IPV4_SRC, v4, Some(v4))) == 0x8000_1708
    ensures Header(Field(IPV6_DST, v6, Some(v6))) == 0x8000_3720
    ensures Header(Field(IP_PROTO, proto, None)) == 0x8000_1401
    ensures Header(Field(TCP_DST, port, None)) == 0x8000_1c02
  {
  }

  function Encode(f: Field): (r: seq<byte>) {
    Be(Header(f), OXM_HDR_LEN) + f.value + if f.mask.Some? then f.mask.value else []
  }

  function EncodeAll(fs: seq<Field>): (r: seq<byte>) {
    if fs == [] then [] else EncodeAll(fs[..|fs| - 1]) + Encode(fs[|fs| - 1])
  }

  /** OXM_CLASS, OXM_FIELD, OXM_HASMASK and OXM_LENGTH take a header apart. */
  function ParseOne(b: seq<byte>): (r: Option<Field>) {
    if |b| < OXM_HDR_LEN then None else
      var h := Num(b[..OXM_HDR_LEN]);
      var len, masked, code := h % 0x100, (h / 0x100) % 2 == 1, (h / 0x200) % 128;
      if h / 0x1_0000 != OPENFLOW_BASIC || |b| < OXM_HDR_LEN + len || (masked && len % 2 == 1) then None
      else if masked then
        var half := OXM_HDR_LEN + len / 2;
        Some(Field(code, b[OXM_HDR_LEN..half], Some(b[half..OXM_HDR_LEN + len])))
      else Some(Field(code, b[OXM_HDR_LEN..OXM_HDR_LEN + len], None))
  }

  /** The fields that b holds one after the other. */
  function Parse(b: seq<byte>): (r: Option<seq<Field>>) {
    if b == [] then Some([]) else
      var f := ParseOne(b);
      if f.None? then None else
        assert |b| >= OXM_HDR_LEN;
        var size := OXM_HDR_LEN + Num(b[..OXM_HDR_LEN]) % 0x100;
        var rest := Parse(b[size..]);
        if rest.None? then None else Some([f.value] + rest.value)
  }

  lemma Split2(x: nat, r: nat)
    requires r < 2
    ensures (2 * x + r) % 2 == r && (2 * x + r) / 2 == x
  {
  }

  lemma Split128(x: nat, r: nat)
    requires r < 128
    ensures (128 * x + r) % 128 == r && (128 * x + r) / 128 == x
  {
  }

  lemma Split256(x: nat, r: nat)
    requires r < 0x100
    ensures (0x100 * x + r) % 0x100 == r && (0x100 * x + r) / 0x100 == x
  {
  }

  lemma Split512(x: nat, r: nat)
    requires r < 0x200
    ensures (0x200 * x + r) / 0x200 == x
  {
  }

  lemma Split65536(x: nat, r: nat)
    requires r < 0x1_0000
    ensures (0x1_0000 * x + r) / 0x1_0000 == x
  {
  }

  lemma HeaderDigits(h: nat, code: nat, masked: nat, len: nat)
    requires code < 128 && masked < 2 && len < 0x100
    requires h == OPENFLOW_BASIC * 0x1_0000 + code * 0x200 + masked * 0x100 + len
    ensures h % 0x100 == len && (h / 0x100) % 2 == masked
    ensures (h / 0x200) % 128 == code && h / 0x1_0000 == OPENFLOW_BASIC
    ensures h < 0x1_0000_0000
  {
    var field := OPENFLOW_BASIC * 128 + code;
    Split256(2 * field + masked, len);
    Split2(field, masked);
    Split512(field, masked * 0x100 + len);
    Split128(OPENFLOW_BASIC, code);
    Split65536(OPENFLOW_BASIC, code * 0x200 + masked * 0x100 + len);
  }

  lemma HeaderParts(f: Field)
    requires ValidField(f)
    ensures Num(Be(Header(f), OXM_HDR_LEN)) == Header(f)
    ensures var h := Header(f); (
              && h % 0x100 == Payload(f) && ((h / 0x100) % 2 == 1 <==> f.mask.Some?)
              && (h / 0x200) % 128 == f.code && h / 0x1_0000 == OPENFLOW_BASIC)
  {
    HeaderDigits(Header(f), f.code, if f.mask.Some? then 1 else 0, Payload(f));
    Pow2Words();
    NumOfBe(Header(f), OXM_HDR_LEN);
  }

  lemma ParseEncodedOne(f: Field, rest: seq<byte>)
    requires ValidField(f)
    ensures |Encode(f)| == OXM_HDR_LEN + Payload(f) && Num((Encode(f) + rest)[..OXM_HDR_LEN]) % 0x100 == Payload(f)
    ensures ParseOne(Encode(f) + rest) == Some(f)
  {
    HeaderParts(f);
    var b, n := Encode(f) + rest, |f.value|;
    assert b[..OXM_HDR_LEN] == Be(Header(f), OXM_HDR_LEN);
    assert b[OXM_HDR_LEN..OXM_HDR_LEN + n] == f.value;
    if f.mask.Some? {
      assert b[OXM_HDR_LEN + n..OXM_HDR_LEN + 2 * n] == f.mask.value;
    }
  }

  lemma {:induction false} EncodeAllFirst(fs: seq<Field>)
    requires fs != []
    ensures EncodeAll(fs) == Encode(fs[0]) + EncodeAll(fs[1..])
  {
    if |fs| > 1 {
      var k := |fs| - 1;
      EncodeAllFirst(fs[..k]);
      assert fs[..k][1..] == fs[1..][..k - 1];
      assert EncodeAll(fs) == Encode(fs[0]) + EncodeAll(fs[..k][1..]) + Encode(fs[k]);
    }
  }

  /** One field read off the front, the rest parsed as it is. */
  lemma ParseCons(f: Field, rest: seq<byte>)
    requires ValidField(f) && Parse(rest).Some?
    ensures Parse(Encode(f) + rest) == Some([f] + Parse(rest).value)
  {
    ParseEncodedOne(f, rest);
    assert (Encode(f) + rest)[|Encode(f)|..] == rest;
  }

  /** Whatever is encoded parses back. */
  lemma {:induction false} ParseEncoded(fs: seq<Field>)
    requires forall i :: 0 <= i < |fs| ==> ValidField(fs[i])
    ensures Parse(EncodeAll(fs)) == Some(fs)
  {
    if fs != [] {
      EncodeAllFirst(fs);
      ParseEncoded(fs[1..]);
      ParseCons(fs[0], EncodeAll(fs[1..]));
      assert [fs[0]] + fs[1..] == fs;
    }
  }

  /** Encoded field lists differ when the fields do. */
  lemma EncodeAllInjective(fs: seq<Field>, gs: seq<Field>)
    requires (forall i :: 0 <= i < |fs| ==> ValidField(fs[i])) && forall i :: 0 <= i < |gs| ==> ValidField(gs[i])
    ensures EncodeAll(fs) == EncodeAll(gs) <==> fs == gs
  {
    ParseEncoded(fs);
    ParseEncoded(gs);
  }

  // ---------- Appending to a message ----------

  function Size(fs: seq<Field>): (r: nat) {
    if fs == [] then 0 else Size(fs[..|fs| - 1]) + OXM_HDR_LEN + Payload(fs[|fs| - 1])
  }

  lemma {:induction false} SizeOfEncoded(fs: seq<Field>)
    requires forall i :: 0 <= i < |fs| ==> ValidField(fs[i])
    ensures |EncodeAll(fs)| == Size(fs)
  {
    if fs != [] {
      SizeOfEncoded(fs[..|fs| - 1]);
    }
  }

  /** The fields that get in when they are appended in order and the first one without room stops it all. */
  function Fit(fs: seq<Field>, room: nat): (r: seq<Field>)
    ensures |r| <= |fs| && r == fs[..|r|]
    ensures r == fs <==> Size(fs) <= room
  {
    if fs == [] || Size(fs) <= room then fs else Fit(fs[..|fs| - 1], room)
  }

  /** of_msg: data holds buffer_len bytes, ptr1 is `base` bytes into it, and length1 bytes follow ptr1. */
  class Message {
    const data: array<byte>
    const base: nat
    var length1: nat

    predicate Valid()
      reads this
    {
      base + length1 <= data.Length <= 0xffff
    }

    function Written(): (r: seq<byte>)
      requires Valid()
      reads this, data
    {
      data[base..base + length1]
    }

    function Room(): (r: nat)
      requires Valid()
      reads this
    {
      data.Length - base - length1
    }

    constructor (data: array<byte>, base: nat)
      requires base <= data.Length <= 0xffff
      ensures Valid() && this.data == data && this.base == base && length1 == 0
    {
      this.data, this.base, length1 := data, base, 0;
    }

    method Append(bytes: seq<byte>)
      requires Valid() && |bytes| <= Room()
      modifies this, data
      ensures Valid() && length1 == old(length1) + |bytes| && Written() == old(Written()) + bytes
      ensures forall k :: 0 <= k < data.Length && !(base + old(length1) <= k < base + length1) ==>
              data[k] == old(data[k])
    {
      ghost var was := data[..];
      Store(bytes);
      ghost var start := base + length1;
      assert data[base..start] == was[base..start];
      assert data[base..start + |bytes|] == data[base..start] + data[start..start + |bytes|];
      length1 := length1 + |bytes|;
    }

    /** The stores behind ptr1 + length1. */
    method Store(bytes: seq<byte>)
      requires Valid() && |bytes| <= Room()
      modifies data
      ensures data[base + length1..base + length1 + |bytes|] == bytes
      ensures forall k :: 0 <= k < data.Length && !(base + length1 <= k < base + length1 + |bytes|) ==>
              data[k] == old(data[k])
    {
      var start := base + length1;
      for i := 0 to |bytes|
        invariant forall k :: 0 <= k < i ==> data[start + k] == bytes[k]
        invariant forall k :: 0 <= k < data.Length && !(start <= k < start + i) ==> data[k] == old(data[k])
      {
        data[start + i] := bytes[i];
      }
    }

    /** What every of_set function does with its field: header, value and mask, or nothing if they do not fit. */
    method Set(f: Field) returns (ok: bool)
      requires Valid() && ValidField(f)
      modifies this, data
      ensures Valid() && ok == (OXM_HDR_LEN + Payload(f) <= old(Room()))
      ensures length1 == old(length1) + if ok then OXM_HDR_LEN + Payload(f) else 0
      ensures Written() == if ok then old(Written()) + Encode(f) else old(Written())
      ensures forall k :: 0 <= k < data.Length && !(base + old(length1) <= k < base + length1) ==>
              data[k] == old(data[k])
    {
      ok := base + length1 + OXM_HDR_LEN + Payload(f) <= data.Length;
      if ok {
        var bytes := Encode(f);
        Append(bytes);
      }
    }
  }
}
