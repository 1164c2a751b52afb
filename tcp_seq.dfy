/** `get_TCP_seq`: the 32-bit TCP Sequence Number field (section 3.1 of
    RFC 793), read in network byte order out of the received Ethernet
    frame. */
module TcpSeq {

  /** Offset of the Sequence Number field in the frame buffer: a 14-byte
      Ethernet header, a 20-byte IPv4 header, then 4 bytes of TCP ports.
      The firmware takes it from the EtherCard library as `TCP_SEQ_H_P`. */
  const TCP_SEQ_H_P: nat := 0x26

  /** The shift-and-or expression of `get_TCP_seq`, on 32-bit integers. */
  function GetTcpSeq(ethBuf: seq<bv8>): bv32
    requires |ethBuf| >= TCP_SEQ_H_P + 4
  {
    BigEndian32(ethBuf[TCP_SEQ_H_P], ethBuf[TCP_SEQ_H_P + 1],
                ethBuf[TCP_SEQ_H_P + 2], ethBuf[TCP_SEQ_H_P + 3])
  }

  /** `b0 << 24 | b1 << 16 | b2 << 8 | b3` on 32-bit operands. */
  function BigEndian32(b0: bv8, b1: bv8, b2: bv8, b3: bv8): bv32 {
    ((b0 as bv32) << 24) | ((b1 as bv32) << 16) | ((b2 as bv32) << 8) | (b3 as bv32)
  }

  /** The four bytes of a 32-bit value, most significant first. */
  function SplitBigEndian(x: bv32): (bytes: seq<bv8>)
    ensures |bytes| == 4
  {
    [((x >> 24) & 0xFF) as bv8, ((x >> 16) & 0xFF) as bv8,
     ((x >> 8) & 0xFF) as bv8, (x & 0xFF) as bv8]
  }

  /** The unsigned value of a byte, a 16-bit and a 32-bit word. */
  function Value8(x: bv8): (v: nat)
    ensures v < 0x100
  {
    x as int
  }

  function Value16(x: bv16): (v: nat)
    ensures v < 0x1_0000
  {
    x as int
  }

  function Value32(x: bv32): (v: nat)
    ensures v < 0x1_0000_0000
  {
    x as int
  }

  /** The result is the big-endian number `b0 * 2^24 + b1 * 2^16 + b2 * 2^8 + b3`
      of the field's bytes `b0 b1 b2 b3`. */
  lemma GetTcpSeqValue(ethBuf: seq<bv8>)
    requires |ethBuf| >= TCP_SEQ_H_P + 4
    ensures Value32(GetTcpSeq(ethBuf)) ==
      Value8(ethBuf[TCP_SEQ_H_P]) * 0x100_0000 + Value8(ethBuf[TCP_SEQ_H_P + 1]) * 0x1_0000
      + Value8(ethBuf[TCP_SEQ_H_P + 2]) * 0x100 + Value8(ethBuf[TCP_SEQ_H_P + 3])
  {
    BigEndianValue(ethBuf[TCP_SEQ_H_P], ethBuf[TCP_SEQ_H_P + 1],
                   ethBuf[TCP_SEQ_H_P + 2], ethBuf[TCP_SEQ_H_P + 3]);
  }

  lemma BigEndianValue(b0: bv8, b1: bv8, b2: bv8, b3: bv8)
    ensures Value32(BigEndian32(b0, b1, b2, b3))
            == Value8(b0) * 0x100_0000 + Value8(b1) * 0x1_0000 + Value8(b2) * 0x100 + Value8(b3)
  {
    var hi, lo := BigEndian16(b0, b1), BigEndian16(b2, b3);
    Halves(b0, b1, b2, b3);
    HalvesValue(hi, lo);
    BytesValue(b0, b1);
    BytesValue(b2, b3);
  }

  /** `b0 << 8 | b1` on 16-bit operands. */
  function BigEndian16(b0: bv8, b1: bv8): bv16 {
    ((b0 as bv16) << 8) | (b1 as bv16)
  }

  lemma Halves(b0: bv8, b1: bv8, b2: bv8, b3: bv8)
    ensures BigEndian32(b0, b1, b2, b3)
            == ((BigEndian16(b0, b1) as bv32) << 16) | (BigEndian16(b2, b3) as bv32)
  {
  }

  lemma BytesValue(b0: bv8, b1: bv8)
    ensures Value16(BigEndian16(b0, b1)) == Value8(b0) * 0x100 + Value8(b1)
  {
  }

  lemma HalvesValue(hi: bv16, lo: bv16)
    ensures Value32(((hi as bv32) << 16) | (lo as bv32)) == Value16(hi) * 0x1_0000 + Value16(lo)
  {
  }

  /** Writing a value's bytes big-endian into the field and reading the
      field back gives the value. */
  lemma ReadWrittenSeq(pre: seq<bv8>, x: bv32, post: seq<bv8>)
    requires |pre| == TCP_SEQ_H_P
    ensures GetTcpSeq(pre + SplitBigEndian(x) + post) == x
  {
    var buf := pre + SplitBigEndian(x) + post;
    assert buf[TCP_SEQ_H_P..TCP_SEQ_H_P + 4] == SplitBigEndian(x);
    JoinSplit(x);
  }

  /** Splitting what was read gives back the field's four bytes. */
  lemma SplitReadSeq(ethBuf: seq<bv8>)
    requires |ethBuf| >= TCP_SEQ_H_P + 4
    ensures SplitBigEndian(GetTcpSeq(ethBuf)) == ethBuf[TCP_SEQ_H_P..TCP_SEQ_H_P + 4]
  {
    var b0, b1, b2, b3 := ethBuf[TCP_SEQ_H_P], ethBuf[TCP_SEQ_H_P + 1],
                          ethBuf[TCP_SEQ_H_P + 2], ethBuf[TCP_SEQ_H_P + 3];
    SplitJoin(b0, b1, b2, b3);
  }

  lemma JoinSplit(x: bv32)
    ensures var b := SplitBigEndian(x); BigEndian32(b[0], b[1], b[2], b[3]) == x
  {
  }

  lemma SplitJoin(b0: bv8, b1: bv8, b2: bv8, b3: bv8)
    ensures SplitBigEndian(BigEndian32(b0, b1, b2, b3)) == [b0, b1, b2, b3]
  {
  }

  // ---------------------------------------------------------------------
  // The declared result type, on the 16-bit `unsigned int` of the target.

  /** `get_TCP_seq` as declared, returning `unsigned int`, on a target whose
      `unsigned int` has 16 bits. There the shifts by 16 and 24 are by at
      least the operand's width, which C++ leaves undefined. This function
      models the usual outcome, in which only the low two bytes of the field
      survive. Whatever those two shifts yield, a 16-bit result cannot tell
      apart all 2^32 sequence numbers. */
  function GetTcpSeq16(ethBuf: seq<bv8>): bv16
    requires |ethBuf| >= TCP_SEQ_H_P + 4
  {
    BigEndian16(ethBuf[TCP_SEQ_H_P + 2], ethBuf[TCP_SEQ_H_P + 3])
  }

  /** The 16-bit result is the 32-bit field reduced modulo 2^16. */
  lemma GetTcpSeq16Truncates(ethBuf: seq<bv8>)
    requires |ethBuf| >= TCP_SEQ_H_P + 4
    ensures Value16(GetTcpSeq16(ethBuf)) == Value32(GetTcpSeq(ethBuf)) % 0x1_0000
  {
    var b0, b1, b2, b3 := ethBuf[TCP_SEQ_H_P], ethBuf[TCP_SEQ_H_P + 1],
                          ethBuf[TCP_SEQ_H_P + 2], ethBuf[TCP_SEQ_H_P + 3];
    BigEndianValue(b0, b1, b2, b3);
    BytesValue(b2, b3);
    var high := Value8(b0) * 0x100 + Value8(b1);
    var low := Value16(GetTcpSeq16(ethBuf));
    assert Value32(GetTcpSeq(ethBuf)) == high * 0x1_0000 + low;
    LowHalfIsRemainder(high, low);
  }

  lemma LowHalfIsRemainder(high: nat, low: nat)
    requires low < 0x1_0000
    ensures (high * 0x1_0000 + low) % 0x1_0000 == low
  {
  }

  /** Two segments whose sequence numbers differ by 2^16 read as the same
      16-bit value. */
  lemma SequenceNumbersCollideOn16Bits()
    ensures var zero := seq(TCP_SEQ_H_P + 4, _ => 0 as bv8);
      var other := zero[TCP_SEQ_H_P + 1 := 1];
      && GetTcpSeq(zero) != GetTcpSeq(other)
      && GetTcpSeq16(zero) == GetTcpSeq16(other)
  {
    var zero := seq(TCP_SEQ_H_P + 4, _ => 0 as bv8);
    var other := zero[TCP_SEQ_H_P + 1 := 1];
    assert GetTcpSeq(zero) == 0;
    assert GetTcpSeq(other) == 0x1_0000;
  }
}
