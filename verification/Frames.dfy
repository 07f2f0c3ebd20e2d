/**
 The wire format: one type byte, a four-byte big-endian length, the payload. The C encoder and
 decoder work on buffers, the Python reader on a stream that arrives in arbitrary pieces.
 */
module Frames {
  import opened Wrappers
  import opened Bytes

  const HEADER := 5
  const MAX_PAYLOAD := 0x10_0000
  const TWO_32 := 0x1_0000_0000

  datatype Message = Message(kind: byte, payload: bytes)

  // ---------------------------------------------------------------- header arithmetic

  /** The low 32 bits of `n`, most significant byte first. */
  function BigEndian(n: nat): (b: bytes)
    ensures |b| == 4
  {
    [n / 0x100_0000 % 0x100, n / 0x1_0000 % 0x100, n / 0x100 % 0x100, n % 0x100]
  }

  function Compose(b0: int, b1: int, b2: int, b3: int): int
  {
    0x100_0000 * b0 + 0x1_0000 * b1 + 0x100 * b2 + b3
  }

  function Length(b: bytes): (n: nat)
    requires |b| == 4
    ensures n < TWO_32
  {
    Compose(b[0], b[1], b[2], b[3])
  }

  lemma LowByte(q: nat, b: byte)
    ensures (0x100 * q + b) % 0x100 == b
  {
  }

  lemma Byte24(n: nat, q: nat, b: byte, low: nat)
    requires n == 0x100_0000 * (0x100 * q + b) + low && low < 0x100_0000
    ensures n / 0x100_0000 % 0x100 == b
  {
    assert n / 0x100_0000 == 0x100 * q + b;
    LowByte(q, b);
  }

  lemma Byte16(n: nat, q: nat, b: byte, low: nat)
    requires n == 0x1_0000 * (0x100 * q + b) + low && low < 0x1_0000
    ensures n / 0x1_0000 % 0x100 == b
  {
    assert n / 0x1_0000 == 0x100 * q + b;
    LowByte(q, b);
  }

  lemma Byte8(n: nat, q: nat, b: byte, low: byte)
    requires n == 0x100 * (0x100 * q + b) + low
    ensures n / 0x100 % 0x100 == b && n % 0x100 == low
  {
    assert n / 0x100 == 0x100 * q + b;
    LowByte(q, b);
    LowByte(0x100 * q + b, low);
  }

  /** The bytes of a number below 2^32, and what the shifts see when more bits are above. */
  lemma ShiftedBytes(high: nat, b0: byte, b1: byte, b2: byte, b3: byte)
    ensures var n := TWO_32 * high + Compose(b0, b1, b2, b3);
      n >= 0 && BigEndian(n) == [b0, b1, b2, b3]
  {
    var n := TWO_32 * high + Compose(b0, b1, b2, b3);
    Byte24(n, high, b0, 0x1_0000 * b1 + 0x100 * b2 + b3);
    Byte16(n, 0x100 * high + b0, b1, 0x100 * b2 + b3);
    Byte8(n, 0x1_0000 * high + 0x100 * b0 + b1, b2, b3);
  }

  lemma LengthOfBigEndian(n: nat)
    ensures Length(BigEndian(n)) == n % TWO_32
  {
    var q, r := n / TWO_32, n % TWO_32;
    var r0, s := r / 0x100_0000, r % 0x100_0000;
    var r1, t := s / 0x1_0000, s % 0x1_0000;
    assert n == TWO_32 * q + Compose(r0, r1, t / 0x100, t % 0x100);
    ShiftedBytes(q, r0, r1, t / 0x100, t % 0x100);
  }

  lemma BigEndianOfLength(b: bytes)
    requires |b| == 4
    ensures BigEndian(Length(b)) == b
  {
    ShiftedBytes(0, b[0], b[1], b[2], b[3]);
  }

  function Encode(m: Message): bytes
  {
    [m.kind] + BigEndian(|m.payload|) + m.payload
  }

  /** A message at the start of `buf`; whatever follows it is ignored. */
  function Decode(buf: bytes): Option<Message>
  {
    if |buf| < HEADER then None
    else
      var n := Length(buf[1..5]);
      if HEADER + n > |buf| then None else Some(Message(buf[0], buf[HEADER..HEADER + n]))
  }

  lemma EncodedParts(m: Message, rest: bytes)
    ensures var buf := Encode(m) + rest;
      && |buf| == HEADER + |m.payload| + |rest|
      && buf[0] == m.kind && buf[1..5] == BigEndian(|m.payload|) && buf[HEADER..] == m.payload + rest
  {
    assert Encode(m) + rest == ([m.kind] + BigEndian(|m.payload|)) + (m.payload + rest);
  }

  /** The wire format by position: the kind, the length with its most significant byte first, the payload. */
  lemma WireFormat(m: Message)
    ensures var buf := Encode(m);
      && |buf| == 5 + |m.payload|
      && buf[0] == m.kind
      && 0x100_0000 * (buf[1] as int) + 0x1_0000 * (buf[2] as int) + 0x100 * (buf[3] as int) + buf[4]
         == |m.payload| % 0x1_0000_0000
      && buf[5..] == m.payload
  {
    EncodedParts(m, []);
    assert Encode(m) + [] == Encode(m);
    LengthOfBigEndian(|m.payload|);
    var header := BigEndian(|m.payload|);
    assert Encode(m)[1..5][0] == Encode(m)[1] && Encode(m)[1..5][1] == Encode(m)[2];
    assert Encode(m)[1..5][2] == Encode(m)[3] && Encode(m)[1..5][3] == Encode(m)[4];
    assert m.payload + [] == m.payload;
  }

  lemma DecodeParts(buf: bytes, header: bytes, tail: bytes)
    requires |buf| >= HEADER && buf[1..5] == header && buf[HEADER..] == tail && Length(header) <= |tail|
    ensures Decode(buf) == Some(Message(buf[0], tail[..Length(header)]))
  {
    assert buf[HEADER..HEADER + Length(header)] == tail[..Length(header)];
  }

  /** Decoding an encoded message that trailing bytes may follow gives the first |payload| mod 2^32
      bytes of its payload, so the decoder inverts the encoder if and only if the payload is
      shorter than 2^32 bytes. */
  lemma DecodeInvertsEncode(m: Message, rest: bytes)
    ensures Decode(Encode(m) + rest) == Some(Message(m.kind, m.payload[..|m.payload| % TWO_32]))
    ensures Decode(Encode(m) + rest) == Some(m) <==> |m.payload| < TWO_32
  {
    DecodeEncoded(m, rest);
    Truncation(m);
  }

  /** What is left of a payload modulo 2^32 is all of it exactly when it is shorter. */
  lemma Truncation(m: Message)
    ensures |m.payload| % TWO_32 <= |m.payload|
    ensures Message(m.kind, m.payload[..|m.payload| % TWO_32]) == m <==> |m.payload| < TWO_32
  {
    var n := |m.payload| % TWO_32;
    Remainder(|m.payload|);
    WholeIffSameLength(m.payload, n);
    assert Message(m.kind, m.payload[..n]).payload == m.payload[..n];
  }

  lemma Remainder(n: nat)
    ensures n % TWO_32 <= n && (n % TWO_32 == n <==> n < TWO_32)
  {
  }

  lemma DecodeEncoded(m: Message, rest: bytes)
    ensures Decode(Encode(m) + rest) == Some(Message(m.kind, m.payload[..|m.payload| % TWO_32]))
  {
    var header, n := BigEndian(|m.payload|), |m.payload| % TWO_32;
    EncodedParts(m, rest);
    LengthOfBigEndian(|m.payload|);
    DecodeParts(Encode(m) + rest, header, m.payload + rest);
    TakeFirst(m.payload, rest, n);
  }

  lemma TakeFirst(a: bytes, b: bytes, n: nat)
    requires n <= |a|
    ensures (a + b)[..n] == a[..n]
  {
  }

  lemma WholeIffSameLength(s: bytes, n: nat)
    requires n <= |s|
    ensures s[..n] == s <==> n == |s|
  {
  }

  /** Encoding what a buffer decodes to gives back the part of the buffer that was read. */
  lemma EncodeInvertsDecode(buf: bytes)
    requires Decode(buf).Some?
    ensures var m := Decode(buf).value; Encode(m) == buf[..HEADER + |m.payload|]
  {
    BigEndianOfLength(buf[1..5]);
    var m := Decode(buf).value;
    assert buf[..HEADER + |m.payload|] == [buf[0]] + buf[1..5] + buf[HEADER..HEADER + |m.payload|];
  }

  /** No encoding is a proper prefix of another. */
  lemma EncodingsArePrefixFree(a: Message, b: Message)
    requires |a.payload| < TWO_32 && |b.payload| < TWO_32
    requires Encode(a) <= Encode(b)
    ensures a == b
  {
    var rest := Encode(b)[|Encode(a)|..];
    assert Encode(b) == Encode(a) + rest;
    assert Encode(b) + [] == Encode(b);
    DecodeInvertsEncode(a, rest);
    DecodeInvertsEncode(b, []);
  }

  // ---------------------------------------------------------------- the C buffers

  /** Header bytes first, then the payload copied behind them. */
  method LmFrameEncode(kind: byte, payload: array<byte>) returns (buf: array<byte>)
    ensures fresh(buf) && buf[..] == Encode(Message(kind, payload[..]))
  {
    var plen := payload.Length;
    buf := new byte[HEADER + plen];
    buf[0] := kind;
    buf[1] := plen / 0x100_0000 % 0x100;
    buf[2] := plen / 0x1_0000 % 0x100;
    buf[3] := plen / 0x100 % 0x100;
    buf[4] := plen % 0x100;
    var i := 0;
    while i < plen
      invariant i <= plen
      invariant buf[..HEADER] == [kind] + BigEndian(plen)
      invariant buf[HEADER..HEADER + i] == payload[..i]
    {
      buf[HEADER + i] := payload[i];
      i := i + 1;
    }
    assert buf[..] == buf[..HEADER] + buf[HEADER..HEADER + plen];
    assert payload[..plen] == payload[..];
  }

  /** The decoder returns a view of the buffer: where the payload starts and how long it is. */
  method LmFrameDecode(buf: array<byte>) returns (rc: int, kind: byte, start: nat, plen: nat)
    ensures rc == 0 || rc == -1
    ensures rc == 0 <==> Decode(buf[..]).Some?
    ensures rc == 0 ==> start + plen <= buf.Length && Decode(buf[..]) == Some(Message(kind, buf[start..start + plen]))
  {
    kind, start, plen := 0, 0, 0;
    if buf.Length < HEADER { return -1, kind, start, plen; }
    var len := Compose(buf[1], buf[2], buf[3], buf[4]);
    assert buf[..][1..5] == [buf[1], buf[2], buf[3], buf[4]];
    if HEADER + len > buf.Length { return -1, kind, start, plen; }
    assert buf[..][HEADER..HEADER + len] == buf[HEADER..HEADER + len];
    return 0, buf[0], HEADER, len;
  }
}
