/**
 * The bitwise CRC-32 of the diagnostics archive. The register starts at all ones and the stored
 * value is its complement, as PKWARE APPNOTE section 4.4.7 asks.
 */
module Crc32 {
  import opened LinearIteration

  type byte = x: int | 0 <= x < 256

  const POLYNOMIAL: bv32 := 0xedb8_8320
  const ALL_ONES: bv32 := 0xffff_ffff

  function Shift(crc: bv32): bv32 {
    if crc & 1 == 1 then POLYNOMIAL ^ (crc >> 1) else crc >> 1
  }

  function Value(b: byte): bv32 {
    b as bv32
  }

  function Xor(a: bv32, b: bv32): bv32 {
    a ^ b
  }

  function Feed(crc: bv32, b: byte): bv32 {
    Iterate(Shift, Xor(crc, Value(b)), 8)
  }

  /** The register after feeding `bytes` to it in order. */
  function Register(crc: bv32, bytes: seq<byte>): bv32 {
    Fold(Feed, crc, bytes)
  }

  function Crc(bytes: seq<byte>): bv32 {
    Xor(Register(ALL_ONES, bytes), ALL_ONES)
  }

  function LowByte(w: bv32): (b: byte) {
    LowByteFits(w);
    (w & 0xff) as int
  }

  /** The bytes of a word, lowest first. */
  function LeWord(w: bv32): (bytes: seq<byte>)
    ensures |bytes| == 4
  {
    [LowByte(w), LowByte(w >> 8), LowByte(w >> 16), LowByte(w >> 24)]
  }

  function WordAt(bytes: seq<byte>, i: nat): bv32
    requires i + 4 <= |bytes|
  {
    Value(bytes[i]) | (Value(bytes[i + 1]) << 8) | (Value(bytes[i + 2]) << 16) | (Value(bytes[i + 3]) << 24)
  }

  lemma LowByteFits(w: bv32)
    ensures 0 <= (w & 0xff) as int < 256
  {
  }

  lemma BackAndForth(w: bv32)
    ensures (w as int) as bv32 == w
  {
  }

  lemma LowByteValue(w: bv32)
    ensures Value(LowByte(w)) == w & 0xff
  {
    BackAndForth(w & 0xff);
  }

  lemma WordRoundTrip(w: bv32)
    ensures WordAt(LeWord(w), 0) == w
  {
    LowByteValue(w);
    LowByteValue(w >> 8);
    LowByteValue(w >> 16);
    LowByteValue(w >> 24);
    BytesMakeWord(w);
  }

  lemma BytesMakeWord(w: bv32)
    ensures (w & 0xff) | (((w >> 8) & 0xff) << 8) | (((w >> 16) & 0xff) << 16) | (((w >> 24) & 0xff) << 24) == w
  {
  }

  function Concat(chunks: seq<seq<byte>>): seq<byte> {
    if chunks == [] then [] else Concat(chunks[..|chunks| - 1]) + chunks[|chunks| - 1]
  }

  /** Main result: feeding chunk after chunk gives the register, and the CRC, of the whole. */
  lemma {:induction false} CrcOfAnySplit(crc: bv32, chunks: seq<seq<byte>>)
    ensures Fold(Register, crc, chunks) == Register(crc, Concat(chunks))
  {
    if chunks != [] {
      var front, last := chunks[..|chunks| - 1], chunks[|chunks| - 1];
      CrcOfAnySplit(crc, front);
      FoldAppend(Feed, crc, Concat(front), last);
    }
  }
}
