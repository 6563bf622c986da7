/** CNTLR_PRINT_PKT_DATA (ofcdriver/include/ipfwd_db.h, lines 75 to 95): a packet as text in a buffer of 1024. */
module HexDump {
  import opened Numbers

  const BUFFER: nat := 1024

  /** As many bytes as are ever dumped. */
  const DUMPED: nat := 307

  const DIGITS: seq<char> := ['0', '1', '2', '3', '4', '5', '6', '7', '8', '9', 'a', 'b', 'c', 'd', 'e', 'f']

  function Digit(d: nat): (r: char)
    requires d < 16
    ensures r != ' ' && r != '\n' && r != '\0'
  {
    DIGITS[d]
  }

  /** What comes before byte i: a new line every sixteen, two spaces every eight. */
  function Gap(i: nat): (r: seq<char>) {
    if i % 16 == 0 then ['\n', ' ', ' '] else if i % 8 == 0 then [' ', ' '] else []
  }

  function Hex(b: byte): (r: seq<char>)
    ensures |r| == 3
  {
    [Digit(b / 16), Digit(b % 16), ' ']
  }

  function Text(pkt: seq<byte>, n: nat): (r: seq<char>)
    requires n <= |pkt|
  {
    if n == 0 then [] else Text(pkt, n - 1) + Gap(n - 1) + Hex(pkt[n - 1])
  }

  /** The j of the loop before round i. */
  function Position(i: nat): (r: nat) {
    3 * i + (i + 15) / 16 + 2 * ((i + 7) / 8)
  }

  lemma PositionStep(i: nat)
    ensures Position(i + 1) == Position(i) + |Gap(i)| + 3
  {
    var q, r := i / 16, i % 16;
    assert i == 16 * q + r;
    assert (i + 15) / 16 == if r == 0 then q else q + 1;
    assert (i + 16) / 16 == q + 1;
    assert (i + 7) / 8 == 2 * q + if r == 0 then 0 else if r <= 8 then 1 else 2;
    assert (i + 8) / 8 == 2 * q + if r < 8 then 1 else 2;
  }

  lemma {:induction false} PositionMonotone(m: nat, n: nat)
    requires m <= n
    ensures Position(m) <= Position(n)
  {
    if m < n {
      PositionStep(n - 1);
      PositionMonotone(m, n - 1);
    }
  }

  /** The loop's second test lets exactly the first 307 bytes through. */
  lemma RoomLeftIff(i: nat)
    ensures Position(i) < BUFFER - 6 <==> i < DUMPED
  {
    assert Position(DUMPED) == 1019 && Position(DUMPED - 1) == 1016;
    if i < DUMPED {
      PositionMonotone(i, DUMPED - 1);
    } else {
      PositionMonotone(DUMPED, i);
    }
  }

  function Count(length: int): (r: nat) {
    if length <= 0 then 0 else if length <= DUMPED then length else DUMPED
  }

  /** sprintf at data + j: the text and a NUL; `end` is where the NUL is. */
  method Sprintf(data: array<char>, j: nat, text: seq<char>) returns (end: nat)
    requires j + |text| < data.Length
    modifies data
    ensures end == j + |text| && data[..end] == old(data[..j]) + text && data[end] == '\0'
    ensures forall k :: end < k < data.Length ==> data[k] == old(data[k])
  {
    for i := 0 to |text|
      modifies data
      invariant data[..j] == old(data[..j]) && forall k :: j + i <= k < data.Length ==> data[k] == old(data[k])
      invariant forall k :: 0 <= k < i ==> data[j + k] == text[k]
    {
      data[j + i] := text[i];
    }
    end := j + |text|;
    data[end] := '\0';
    assert data[..j + |text|] == data[..j] + data[j..j + |text|];
  }

  /** The body of the loop, with its own steps of j. */
  method Round(data: array<char>, pkt: seq<byte>, i: nat, j: nat) returns (j': nat)
    requires data.Length == BUFFER && i < |pkt| && j < BUFFER - 6 && data[..j] == Text(pkt, i)
    modifies data
    ensures j' == j + |Gap(i)| + 3 < BUFFER && data[..j'] == Text(pkt, i + 1) && data[j'] == '\0'
    ensures forall k :: j' < k < BUFFER ==> data[k] == old(data[k])
  {
    GapParts(i);
    j' := j;
    if i % 16 == 0 {
      j' := Sprintf(data, j', ['\n']);
    }
    assert data[..j'] == Text(pkt, i) + Line(i);
    if i % 8 == 0 {
      j' := Sprintf(data, j', [' ', ' ']);
    }
    assert data[..j'] == Text(pkt, i) + Line(i) + Column(i);
    assert Text(pkt, i) + Line(i) + Column(i) == Text(pkt, i) + Gap(i);
    j' := Sprintf(data, j', Hex(pkt[i]));
  }

  function Line(i: nat): (r: seq<char>) {
    if i % 16 == 0 then ['\n'] else []
  }

  function Column(i: nat): (r: seq<char>) {
    if i % 8 == 0 then [' ', ' '] else []
  }

  lemma GapParts(i: nat)
    ensures Gap(i) == Line(i) + Column(i)
  {
  }

  /**
   The macro on its buffer.  Every write, the closing NUL included, falls inside the buffer and not behind that
   NUL; the text is that of the first min(length, 307) bytes.  A length of 0 or less leaves the buffer as it
   was, and the macro then prints that.
   */
  method PrintPktData(pkt: seq<byte>, length: int, data: array<char>) returns (dumped: nat)
    requires length <= |pkt| && data.Length == BUFFER
    modifies data
    ensures dumped == Count(length) && Position(dumped) < BUFFER
    ensures data[..Position(dumped)] == Text(pkt, dumped)
    ensures length >= 1 ==> data[Position(dumped)] == '\0'
    ensures forall k :: (if length >= 1 then Position(dumped) + 1 else 0) <= k < BUFFER ==> data[k] == old(data[k])
  {
    var i, j := 0, 0;
    while i < length && j < BUFFER - 6
      invariant i <= Count(length) && j == Position(i) < BUFFER
      invariant data[..j] == Text(pkt, i)
      invariant i >= 1 ==> data[j] == '\0'
      invariant forall k :: (if i >= 1 then j + 1 else 0) <= k < BUFFER ==> data[k] == old(data[k])
      decreases Count(length) - i
    {
      RoomLeftIff(i);
      PositionStep(i);
      j := Round(data, pkt, i, j);
      i := i + 1;
    }
    RoomLeftIff(i);
    dumped := i;
  }

  // ---------- Its lines ----------

  lemma {:induction false} TextLength(pkt: seq<byte>, n: nat)
    requires n <= |pkt|
    ensures |Text(pkt, n)| == Position(n)
  {
    if n > 0 {
      var m := n - 1;
      TextLength(pkt, m);
      PositionStep(m);
      TextStep(pkt, m);
    }
  }

  lemma TextStep(pkt: seq<byte>, m: nat)
    requires m < |pkt|
    ensures |Text(pkt, m + 1)| == |Text(pkt, m)| + |Gap(m)| + 3
  {
  }

  lemma NewlineInByte(i: nat, b: byte, k: nat)
    requires k < |Gap(i) + Hex(b)|
    ensures (Gap(i) + Hex(b))[k] == '\n' <==> k == 0 && i % 16 == 0
  {
    var h := Hex(b);
    assert h[0] != '\n' && h[1] != '\n' && h[2] != '\n';
  }

  /** One of the first n bytes begins a line at position k. */
  ghost predicate StartsLine(n: nat, k: nat) {
    exists i :: 0 <= i < n && i % 16 == 0 && k == Position(i)
  }

  lemma NewlineLast(n: nat, k: nat, m: nat)
    requires n > 0 && AtPosition(m, n - 1) && k >= m
    ensures StartsLine(n, k) <==> k == m && (n - 1) % 16 == 0
  {
    forall i | 0 <= i < n - 1
      ensures Position(i) < Position(n - 1)
    {
      PositionMonotone(i + 1, n - 1);
      PositionStep(i);
    }
  }

  lemma NewlineFirst(n: nat, k: nat, m: nat)
    requires n > 0 && AtPosition(m, n - 1) && k < m
    ensures StartsLine(n, k) <==> StartsLine(n - 1, k)
  {
  }

  /** A line begins before every sixteenth byte, and nowhere else. */
  lemma {:induction false} NewlineIff(pkt: seq<byte>, n: nat, k: nat)
    requires n <= |pkt| && k < |Text(pkt, n)|
    ensures Text(pkt, n)[k] == '\n' <==> StartsLine(n, k)
  {
    var m := |Text(pkt, n - 1)|;
    LastByte(pkt, n);
    if k < m {
      NewlineIff(pkt, n - 1, k);
      NewlineFirst(n, k, m);
    } else {
      NewlineInByte(n - 1, pkt[n - 1], k - m);
      NewlineLast(n, k, m);
    }
  }

  lemma LastByte(pkt: seq<byte>, n: nat)
    requires 0 < n <= |pkt|
    ensures Text(pkt, n) == Text(pkt, n - 1) + (Gap(n - 1) + Hex(pkt[n - 1]))
    ensures AtPosition(|Text(pkt, n - 1)|, n - 1)
  {
    TextLength(pkt, n - 1);
  }

  /** k is where the loop's j stands before round i. */
  predicate AtPosition(k: nat, i: nat) {
    k == Position(i)
  }

  // ---------- Reading it back ----------

  function Value(c: char): (r: nat)
    ensures r < 16
  {
    if '0' <= c <= '9' then c as int - '0' as int else if 'a' <= c <= 'f' then c as int - 'a' as int + 10 else 0
  }

  predicate Blank(c: char) {
    c == ' ' || c == '\n'
  }

  /** Skip blanks, take two digits, and so on. */
  function Parse(text: seq<char>): (r: seq<byte>)
    decreases |text|
  {
    if text == [] then []
    else if Blank(text[0]) then Parse(text[1..])
    else if |text| == 1 then []
    else [16 * Value(text[0]) + Value(text[1])] + Parse(text[2..])
  }

  lemma DigitValue(d: nat)
    requires d < 16
    ensures Value(Digit(d)) == d && !Blank(Digit(d))
  {
  }

  lemma {:induction false} SkipBlanks(gap: seq<char>, rest: seq<char>)
    requires forall k :: 0 <= k < |gap| ==> Blank(gap[k])
    ensures Parse(gap + rest) == Parse(rest)
  {
    if gap == [] {
      assert gap + rest == rest;
    } else {
      assert (gap + rest)[1..] == gap[1..] + rest;
      SkipBlanks(gap[1..], rest);
    }
  }

  lemma ParseHex(b: byte, rest: seq<char>)
    ensures Parse(Hex(b) + rest) == [b] + Parse(rest)
  {
    DigitValue(b / 16);
    DigitValue(b % 16);
    var t := Hex(b) + rest;
    assert t[2..] == [' '] + rest;
    SkipBlanks([' '], rest);
  }

  lemma ParseByte(i: nat, b: byte, rest: seq<char>)
    ensures Parse(Gap(i) + (Hex(b) + rest)) == [b] + Parse(rest)
  {
    SkipBlanks(Gap(i), Hex(b) + rest);
    ParseHex(b, rest);
  }

  lemma Associate<T>(a: seq<T>, b: seq<T>, c: seq<T>, d: seq<T>)
    ensures a + b + c + d == a + (b + (c + d))
  {
  }

  lemma {:induction false} ParseTextThen(pkt: seq<byte>, n: nat, rest: seq<char>)
    requires n <= |pkt|
    ensures Parse(Text(pkt, n) + rest) == pkt[..n] + Parse(rest)
  {
    if n == 0 {
      assert Text(pkt, 0) + rest == rest;
    } else {
      var b := pkt[n - 1];
      var tail := Gap(n - 1) + (Hex(b) + rest);
      Associate(Text(pkt, n - 1), Gap(n - 1), Hex(b), rest);
      assert Text(pkt, n) + rest == Text(pkt, n - 1) + tail;
      ParseTextThen(pkt, n - 1, tail);
      ParseByte(n - 1, b, rest);
      FrontAndByte(pkt, n, Parse(rest));
    }
  }

  lemma FrontAndByte(pkt: seq<byte>, n: nat, rest: seq<byte>)
    requires 0 < n <= |pkt|
    ensures pkt[..n - 1] + ([pkt[n - 1]] + rest) == pkt[..n] + rest
  {
  }

  /** The text of a dump parses back to the bytes that were dumped. */
  lemma ParseText(pkt: seq<byte>, length: int)
    requires length <= |pkt|
    ensures Parse(Text(pkt, Count(length))) == pkt[..Count(length)]
  {
    ParseTextThen(pkt, Count(length), []);
    assert Text(pkt, Count(length)) + [] == Text(pkt, Count(length));
  }
}
