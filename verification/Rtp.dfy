/**
  RTP packets and the NAL-unit header bytes carried in them (RFC 6184).  Sequence numbers live
  modulo 2^16 and timestamps modulo 2^32.  A payload byte is an integer below 256: the mask
  0x1f is a remainder by 32, and single header bits are quotients by powers of two.
 */
module Rtp {
  import opened Sequences

  type byte = x: int | 0 <= x < 0x100
  type u16 = x: int | 0 <= x < 0x1_0000
  type u32 = x: int | 0 <= x < 0x1_0000_0000

  type Bytes = seq<byte>

  /** headerSize counts the encoded bytes outside the payload: fixed header, extensions and padding. */
  datatype Packet = Packet(
    ssrc: u32,
    seqNo: u16,
    timestamp: u32,
    payloadType: byte,
    marker: bool,
    headerSize: nat,
    payload: Bytes)

  function Add16(s: u16, n: nat): u16 {
    (s + n) % 0x1_0000
  }

  function NextSeq(s: u16): u16 {
    Add16(s, 1)
  }

  /** Sequence numbers count up and start again after 65535. */
  lemma NextSeqWraps(s: u16)
    ensures NextSeq(s) == if s == 65535 then 0 else s + 1
  {
  }

  lemma Add16Next(s: u16, i: nat)
    ensures NextSeq(Add16(s, i)) == Add16(s, i + 1)
  {
  }

  function MarshalSize(p: Packet): nat {
    p.headerSize + |p.payload|
  }

  /** Sequence numbers follow each other modulo 2^16. */
  predicate Consecutive(packets: seq<Packet>) {
    forall i :: 0 <= i < |packets| - 1 ==> packets[i + 1].seqNo == NextSeq(packets[i].seqNo)
  }

  const FU_A: byte := 28
  const STAP_A: byte := 24

  /** The type field of a NAL unit header, and of an FU header. */
  function NalType(b: byte): byte {
    b % 32
  }

  /** The F and NRI bits of a NAL unit header. */
  function RefBits(b: byte): byte {
    b - b % 32
  }

  predicate StartBit(fuHeader: byte) {
    fuHeader >= 128
  }

  predicate EndBit(fuHeader: byte) {
    fuHeader / 64 % 2 == 1
  }

  lemma ByteParts(b: bv8)
    ensures b as int == 32 * ((b >> 5) as int) + ((b & 0x1f) as int) && b & 0x1f <= 31
  {
    var high, low := b >> 5, b & 0x1f;
    assert b == 32 * high + low && high <= 7 && low <= 31;
  }

  /** The mask forms used on real bytes agree with the quotient forms above. */
  lemma MasksAsQuotients(b: bv8)
    ensures NalType(b as byte) == (b & 0x1f) as int
    ensures RefBits(b as byte) == (b & 0xe0) as int
  {
    ByteParts(b);
    assert b & 0xe0 == 32 * (b >> 5) && b >> 5 <= 7;
  }

  lemma BitsAsQuotients(b: bv8)
    ensures StartBit(b as byte) <==> b & 0x80 != 0
    ensures EndBit(b as byte) <==> b & 0x40 != 0
  {
    var high, low := b >> 6, b & 0x3f;
    assert b == 64 * high + low && high <= 3 && low <= 63;
    assert b as int == 64 * (high as int) + (low as int);
    assert b & 0x80 != 0 <==> high >= 2;
    assert b & 0x40 != 0 <==> high == 1 || high == 3;
  }

  function Flatten(parts: seq<Bytes>): Bytes {
    if parts == [] then [] else parts[0] + Flatten(parts[1..])
  }

  lemma {:induction false} FlattenAppend(a: seq<Bytes>, b: seq<Bytes>)
    ensures Flatten(a + b) == Flatten(a) + Flatten(b)
  {
    if a == [] {
      assert a + b == b;
    } else {
      FlattenAppend(a[1..], b);
      DropAppend(a, b, 1);
      ConcatAssoc(a[0], Flatten(a[1..]), Flatten(b));
    }
  }

  lemma FlattenSnoc(a: seq<Bytes>, last: Bytes)
    ensures Flatten(a + [last]) == Flatten(a) + last
  {
    FlattenAppend(a, [last]);
    assert Flatten([last]) == last + Flatten([]);
  }
}
