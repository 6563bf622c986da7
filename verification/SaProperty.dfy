/**
 The properties of a security association's action as bytes: the structures of
 ofcdriver/l3extutils/include/fsl_ext.h, lines 2316 to 2792.  Each begins with its type and its length in
 two bytes each, so a reader can walk from one to the next.
 */
module SaProperty {
  import opened Common
  import opened Numbers

  /** enum fslx_ipsec_sa_properity_type. */
  const AUTH_ALGO: nat := 0
  const ENCRYPT_ALGO: nat := 1
  const CMB_MODE_ALGO: nat := 2
  const SALT: nat := 3
  const IPV4_UDP_ENCAP: nat := 5
  const IPV6_UDP_ENCAP: nat := 6
  const IPV4_TUNNEL_ENDS: nat := 7
  const IPV6_TUNNEL_ENDS: nat := 8
  const IPV4_SELECTOR: nat := 9
  const IPV6_SELECTOR: nat := 10
  const DSCP_RANGE: nat := 11

  const UINT16: nat := 0x1_0000

  /** What stands behind type and length: the fields of the structure, and a key or vector. */
  datatype Property = Property(kind: nat, fields: seq<seq<byte>>, tail: seq<byte>)

  /** The widths of the fields of each structure, in its order. */
  function Layout(kind: nat): (r: seq<nat>) {
    if kind == AUTH_ALGO || kind == CMB_MODE_ALGO then [2, 2, 2, 6]       // algorithm, ICV and key bits, pad
    else if kind == ENCRYPT_ALGO || kind == SALT then [2, 2]               // algorithm, key bits; vector bits, pad
    else if kind == IPV4_UDP_ENCAP then [1, 3, 2, 2, 4]                    // type, pad, ports, address
    else if kind == IPV6_UDP_ENCAP then [1, 7, 2, 2, 16]
    else if kind == IPV4_TUNNEL_ENDS then [4, 4, 4]                        // addresses, pad
    else if kind == IPV6_TUNNEL_ENDS then [4, 16, 16]                      // pad, addresses
    else if kind == IPV4_SELECTOR then [4, 4, 4, 4, 2, 2, 2, 2, 1, 3]      // addresses and masks, ports, protocol, pad
    else if kind == IPV6_SELECTOR then [16, 16, 16, 16, 2, 2, 2, 2, 1, 1]   // and a byte of padding to an even size
    else if kind == DSCP_RANGE then [1, 1, 2]                              // start, end, pad
    else []
  }

  /** Only these go on with a key or a vector. */
  predicate Keyed(kind: nat) {
    kind == AUTH_ALGO || kind == ENCRYPT_ALGO || kind == CMB_MODE_ALGO || kind == SALT
  }

  function Sum(widths: seq<nat>): (r: nat) {
    if widths == [] then 0 else widths[0] + Sum(widths[1..])
  }

  lemma Sum2(a: nat, b: nat)
    ensures Sum([a, b]) == a + b
  {
    assert [a, b][1..] == [b];
    assert [b][1..] == [];
    assert Sum([b]) == b + Sum([]);
  }

  lemma Sum3(a: nat, b: nat, c: nat)
    ensures Sum([a, b, c]) == a + b + c
  {
    assert [a, b, c][1..] == [b, c];
    Sum2(b, c);
  }

  lemma Sum4(a: nat, b: nat, c: nat, d: nat)
    ensures Sum([a, b, c, d]) == a + b + c + d
  {
    assert [a, b, c, d][1..] == [b, c, d];
    Sum3(b, c, d);
  }

  lemma Sum5(a: nat, b: nat, c: nat, d: nat, e: nat)
    ensures Sum([a, b, c, d, e]) == a + b + c + d + e
  {
    assert [a, b, c, d, e][1..] == [b, c, d, e];
    Sum4(b, c, d, e);
  }

  lemma {:induction false} SumBoth(a: seq<nat>, b: seq<nat>)
    ensures Sum(a + b) == Sum(a) + Sum(b)
  {
    if a == [] {
      assert a + b == b;
    } else {
      assert (a + b)[1..] == a[1..] + b;
      SumBoth(a[1..], b);
    }
  }

  /** Selectors have four addresses or masks of the same width, four ports and a protocol. */
  lemma SelectorSizes()
    ensures Sum(Layout(IPV4_SELECTOR)) == 28 && Sum(Layout(IPV6_SELECTOR)) == 74
  {
    Sum5(2, 2, 2, 1, 3);
    Sum5(4, 4, 4, 4, 2);
    SumBoth([4, 4, 4, 4, 2], [2, 2, 2, 1, 3]);
    assert Layout(IPV4_SELECTOR) == [4, 4, 4, 4, 2] + [2, 2, 2, 1, 3];
    Sum5(2, 2, 2, 1, 1);
    Sum5(16, 16, 16, 16, 2);
    SumBoth([16, 16, 16, 16, 2], [2, 2, 2, 1, 1]);
    assert Layout(IPV6_SELECTOR) == [16, 16, 16, 16, 2] + [2, 2, 2, 1, 1];
  }

  /** The sizes that the header file asserts of its structures. */
  lemma StructureSizes()
    ensures 4 + Sum(Layout(AUTH_ALGO)) == 16 && 4 + Sum(Layout(ENCRYPT_ALGO)) == 8
    ensures 4 + Sum(Layout(CMB_MODE_ALGO)) == 16 && 4 + Sum(Layout(SALT)) == 8
    ensures 4 + Sum(Layout(IPV4_UDP_ENCAP)) == 16 && 4 + Sum(Layout(IPV6_UDP_ENCAP)) == 32
    ensures 4 + Sum(Layout(IPV4_TUNNEL_ENDS)) == 16 && 4 + Sum(Layout(IPV6_TUNNEL_ENDS)) == 40
    ensures 4 + Sum(Layout(IPV4_SELECTOR)) == 32 && 4 + Sum(Layout(IPV6_SELECTOR)) == 78
    ensures 4 + Sum(Layout(DSCP_RANGE)) == 8
  {
    Sum4(2, 2, 2, 6);
    Sum2(2, 2);
    Sum5(1, 3, 2, 2, 4);
    Sum5(1, 7, 2, 2, 16);
    Sum3(4, 4, 4);
    Sum3(4, 16, 16);
    Sum3(1, 1, 2);
    SelectorSizes();
  }

  /** The fields have the widths of the structure. */
  ghost predicate Fits(fields: seq<seq<byte>>, widths: seq<nat>) {
    |fields| == |widths| && forall i :: 0 <= i < |fields| ==> |fields[i]| == widths[i]
  }

  ghost predicate WellFormed(p: Property) {
    Fits(p.fields, Layout(p.kind)) && p.kind < UINT16 && (!Keyed(p.kind) ==> p.tail == [])
  }

  // ---------- Bytes ----------

  function Join(fields: seq<seq<byte>>): (r: seq<byte>) {
    if fields == [] then [] else fields[0] + Join(fields[1..])
  }

  lemma {:induction false} JoinSize(fields: seq<seq<byte>>, widths: seq<nat>)
    requires Fits(fields, widths)
    ensures |Join(fields)| == Sum(widths)
  {
    if fields != [] {
      JoinSize(fields[1..], widths[1..]);
    }
  }

  /** Type, length, fields, key; the length has 16 bits. */
  function Encode(p: Property): (r: seq<byte>) {
    var body := Join(p.fields) + p.tail;
    Be(p.kind, 2) + Be(4 + |body|, 2) + body
  }

  /** How long a structure of its kind is, key included. */
  lemma EncodedSize(p: Property)
    requires WellFormed(p)
    ensures |Encode(p)| == 4 + Sum(Layout(p.kind)) + |p.tail|
  {
    JoinSize(p.fields, Layout(p.kind));
  }

  function EncodeAll(ps: seq<Property>): (r: seq<byte>) {
    if ps == [] then [] else Encode(ps[0]) + EncodeAll(ps[1..])
  }

  // ---------- Where a field is ----------

  /** The offsets of those fields in the structures, type and length included. */
  function Offsets(kind: nat): (r: seq<nat>) {
    if kind == AUTH_ALGO || kind == CMB_MODE_ALGO then [4, 6, 8, 10]
    else if kind == ENCRYPT_ALGO || kind == SALT then [4, 6]
    else if kind == IPV4_UDP_ENCAP then [4, 5, 8, 10, 12]
    else if kind == IPV6_UDP_ENCAP then [4, 5, 12, 14, 16]
    else if kind == IPV4_TUNNEL_ENDS then [4, 8, 12]
    else if kind == IPV6_TUNNEL_ENDS then [4, 8, 24]
    else if kind == IPV4_SELECTOR then [4, 8, 12, 16, 20, 22, 24, 26, 28, 29]
    else if kind == IPV6_SELECTOR then [4, 20, 36, 52, 68, 70, 72, 74, 76, 77]
    else if kind == DSCP_RANGE then [4, 5, 6]
    else []
  }

  lemma OffsetsFollow(kind: nat, i: nat)
    requires i < |Layout(kind)|
    ensures |Offsets(kind)| == |Layout(kind)|
    ensures Offsets(kind)[i] == if i == 0 then 4 else Offsets(kind)[i - 1] + Layout(kind)[i - 1]
  {
  }

  lemma {:induction false} JoinAt(fields: seq<seq<byte>>, i: nat)
    requires i < |fields|
    ensures |Join(fields[..i])| + |fields[i]| <= |Join(fields)|
    ensures Join(fields)[|Join(fields[..i])|..|Join(fields[..i])| + |fields[i]|] == fields[i]
  {
    if i > 0 {
      assert fields[..i][1..] == fields[1..][..i - 1];
      JoinAt(fields[1..], i - 1);
    }
  }

  lemma {:induction false} OffsetIs(p: Property, i: nat)
    requires WellFormed(p) && i < |p.fields|
    ensures |Offsets(p.kind)| == |p.fields| && Offsets(p.kind)[i] == 4 + |Join(p.fields[..i])|
  {
    OffsetsFollow(p.kind, i);
    if i > 0 {
      OffsetIs(p, i - 1);
      JoinMore(p.fields, i - 1);
    }
  }

  lemma {:induction false} JoinMore(fields: seq<seq<byte>>, i: nat)
    requires i < |fields|
    ensures |Join(fields[..i + 1])| == |Join(fields[..i])| + |fields[i]|
  {
    if i > 0 {
      assert fields[..i + 1][1..] == fields[1..][..i] && fields[..i][1..] == fields[1..][..i - 1];
      JoinMore(fields[1..], i - 1);
    } else {
      assert fields[..1][1..] == [];
    }
  }

  /** A field stands at its offset. */
  lemma FieldAt(p: Property, i: nat, offset: nat)
    requires WellFormed(p) && i < |p.fields| && |Offsets(p.kind)| == |p.fields| && offset == Offsets(p.kind)[i]
    ensures offset + |p.fields[i]| <= |Encode(p)| && Encode(p)[offset..offset + |p.fields[i]|] == p.fields[i]
  {
    var body := Join(p.fields) + p.tail;
    var front := Be(p.kind, 2) + Be(4 + |body|, 2);
    OffsetIs(p, i);
    JoinAt(p.fields, i);
    SliceBetween(front, Join(p.fields), p.tail, |Join(p.fields[..i])|, |p.fields[i]|);
  }

  lemma SliceBetween(front: seq<byte>, a: seq<byte>, tail: seq<byte>, o: nat, n: nat)
    requires o + n <= |a|
    ensures (front + (a + tail))[|front| + o..|front| + o + n] == a[o..o + n]
  {
  }

  /** A key stands behind the structure. */
  lemma TailAt(p: Property)
    requires WellFormed(p)
    ensures 4 + Sum(Layout(p.kind)) <= |Encode(p)| && Encode(p)[4 + Sum(Layout(p.kind))..] == p.tail
  {
    JoinSize(p.fields, Layout(p.kind));
    var body := Join(p.fields) + p.tail;
    assert Encode(p) == Be(p.kind, 2) + Be(4 + |body|, 2) + body;
  }

  // ---------- Reading them back ----------

  /** b cut into pieces of the given widths, and what is left. */
  function Cut(b: seq<byte>, widths: seq<nat>): (r: Option<(seq<seq<byte>>, seq<byte>)>)
    decreases |widths|
  {
    if widths == [] then Some(([], b))
    else if |b| < widths[0] then None
    else
      var rest := Cut(b[widths[0]..], widths[1..]);
      if rest.None? then None else Some(([b[..widths[0]]] + rest.value.0, rest.value.1))
  }

  function Parse(b: seq<byte>): (r: Option<seq<Property>>) {
    if b == [] then Some([])
    else if |b| < 4 then None
    else
      var kind, len := Num(b[..2]), Num(b[2..4]);
      if len < 4 || |b| < len then None
      else
        var cut, rest := Cut(b[4..len], Layout(kind)), Parse(b[len..]);
        if cut.None? || rest.None? then None
        else Some([Property(kind, cut.value.0, cut.value.1)] + rest.value)
  }

  lemma {:induction false} CutJoin(fields: seq<seq<byte>>, widths: seq<nat>, tail: seq<byte>)
    requires Fits(fields, widths)
    ensures Cut(Join(fields) + tail, widths) == Some((fields, tail))
  {
    if fields == [] {
      assert Join(fields) + tail == tail;
    } else {
      var b, rest := Join(fields) + tail, Join(fields[1..]) + tail;
      assert b == fields[0] + rest;
      assert b[..widths[0]] == fields[0] && b[widths[0]..] == rest;
      CutJoin(fields[1..], widths[1..], tail);
      assert [fields[0]] + fields[1..] == fields;
    }
  }

  lemma TwoBytes(n: nat)
    requires n < UINT16
    ensures Num(Be(n, 2)) == n
  {
    Pow2Words();
    NumOfBe(n, 2);
  }

  lemma ParseOne(p: Property, rest: seq<byte>)
    requires WellFormed(p) && |Encode(p)| < UINT16
    ensures Parse(Encode(p) + rest) ==
              if Parse(rest).None? then None else Some([p] + Parse(rest).value)
  {
    var body := Join(p.fields) + p.tail;
    var b := Encode(p) + rest;
    var len := 4 + |body|;
    assert b[..2] == Be(p.kind, 2) && b[2..4] == Be(len, 2) && b[4..len] == body && b[len..] == rest;
    TwoBytes(p.kind);
    TwoBytes(len);
    CutJoin(p.fields, Layout(p.kind), p.tail);
  }

  ghost predicate AllFit(ps: seq<Property>) {
    forall i :: 0 <= i < |ps| ==> WellFormed(ps[i]) && |Encode(ps[i])| < UINT16
  }

  lemma ParseRest(ps: seq<Property>)
    requires ps != [] && AllFit(ps)
    ensures var rest := Parse(EncodeAll(ps[1..]));
              Parse(EncodeAll(ps)) == if rest.None? then None else Some([ps[0]] + rest.value)
  {
    ParseOne(ps[0], EncodeAll(ps[1..]));
  }

  /** Properties whose lengths fit the two bytes are read back, all of them and nothing else. */
  lemma {:induction false} ParseEncoded(ps: seq<Property>)
    requires AllFit(ps)
    ensures Parse(EncodeAll(ps)) == Some(ps)
  {
    if ps != [] {
      ParseRest(ps);
      ParseEncoded(ps[1..]);
      assert [ps[0]] + ps[1..] == ps;
    }
  }

  lemma Regroup(a: seq<byte>, b: seq<byte>, c: seq<byte>)
    ensures a + b + c == a + (b + c)
  {
  }

  lemma {:induction false} EncodeMore(ps: seq<Property>, qs: seq<Property>)
    ensures EncodeAll(ps + qs) == EncodeAll(ps) + EncodeAll(qs)
  {
    if ps == [] {
      assert ps + qs == qs;
    } else {
      assert (ps + qs)[1..] == ps[1..] + qs;
      EncodeMore(ps[1..], qs);
      Regroup(Encode(ps[0]), EncodeAll(ps[1..]), EncodeAll(qs));
    }
  }
}
