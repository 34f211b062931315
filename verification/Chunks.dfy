/** Chunk types, chunks, their byte layout, and the cut of a data chunk in two. */
module Chunks {
  import opened Basics
  import opened Octets

  /** A 4-byte type code. The case of the first letter tells critical from ancillary. */
  datatype ChunkType = ChunkType(b0: Byte, b1: Byte, b2: Byte, b3: Byte)

  const AEND := ChunkType(0x41, 0x45, 0x4E, 0x44)
  const FHED := ChunkType(0x46, 0x48, 0x45, 0x44)
  const PHSF := ChunkType(0x50, 0x48, 0x53, 0x46)
  const FDAT := ChunkType(0x46, 0x44, 0x41, 0x54)
  const FEND := ChunkType(0x46, 0x45, 0x4E, 0x44)
  const SHED := ChunkType(0x53, 0x48, 0x45, 0x44)
  const SDAT := ChunkType(0x53, 0x44, 0x41, 0x54)
  const SEND := ChunkType(0x53, 0x45, 0x4E, 0x44)
  const fSIZ := ChunkType(0x66, 0x53, 0x49, 0x5A)
  const cTIM := ChunkType(0x63, 0x54, 0x49, 0x4D)
  const mTIM := ChunkType(0x6D, 0x54, 0x49, 0x4D)
  const aTIM := ChunkType(0x61, 0x54, 0x49, 0x4D)
  const cTNS := ChunkType(0x63, 0x54, 0x4E, 0x53)
  const mTNS := ChunkType(0x6D, 0x54, 0x4E, 0x53)
  const aTNS := ChunkType(0x61, 0x54, 0x4E, 0x53)
  const fPRM := ChunkType(0x66, 0x50, 0x52, 0x4D)
  const xATR := ChunkType(0x78, 0x41, 0x54, 0x52)
  const fLTP := ChunkType(0x66, 0x4C, 0x54, 0x50)
  const fUId := ChunkType(0x66, 0x55, 0x49, 0x64)
  const fGId := ChunkType(0x66, 0x47, 0x49, 0x64)
  const fONm := ChunkType(0x66, 0x4F, 0x4E, 0x6D)
  const fGNm := ChunkType(0x66, 0x47, 0x4E, 0x6D)
  const fOSi := ChunkType(0x66, 0x4F, 0x53, 0x69)
  const fGSi := ChunkType(0x66, 0x47, 0x53, 0x69)
  const fMOd := ChunkType(0x66, 0x4D, 0x4F, 0x64)

  predicate IsAsciiAlphabetic(b: Byte) {
    0x41 <= b <= 0x5A || 0x61 <= b <= 0x7A
  }

  /** The codes that `ChunkType::new` accepts. */
  predicate IsValidType(ty: ChunkType) {
    IsAsciiAlphabetic(ty.b0) && IsAsciiAlphabetic(ty.b1) &&
    IsAsciiAlphabetic(ty.b2) && IsAsciiAlphabetic(ty.b3)
  }

  /** Bit 5 of the first byte is clear: an upper-case first letter. */
  predicate IsCritical(ty: ChunkType) {
    ty.b0 / 32 % 2 == 0
  }

  /** A letter is critical exactly when it is upper-case. */
  lemma CriticalIsUpperCase(ty: ChunkType)
    requires IsAsciiAlphabetic(ty.b0)
    ensures IsCritical(ty) <==> 0x41 <= ty.b0 <= 0x5A
  {
  }

  /** Types whose consecutive chunks form one data stream and may be cut anywhere. */
  predicate IsStream(ty: ChunkType) {
    ty == FDAT || ty == SDAT
  }

  /** The type's code is its name, a byte for each letter. */
  predicate Spells(ty: ChunkType, name: string) {
    |name| == 4 && ty.b0 == name[0] as int && ty.b1 == name[1] as int && ty.b2 == name[2] as int &&
    ty.b3 == name[3] as int
  }

  /** The codes of the types that are named here. */
  lemma TypesBearTheirNames()
    ensures Spells(AEND, "AEND") && Spells(FHED, "FHED") && Spells(PHSF, "PHSF") && Spells(FDAT, "FDAT")
    ensures Spells(FEND, "FEND") && Spells(SHED, "SHED") && Spells(SDAT, "SDAT") && Spells(SEND, "SEND")
    ensures Spells(fSIZ, "fSIZ") && Spells(cTIM, "cTIM") && Spells(mTIM, "mTIM") && Spells(aTIM, "aTIM")
    ensures Spells(cTNS, "cTNS") && Spells(mTNS, "mTNS") && Spells(aTNS, "aTNS") && Spells(fPRM, "fPRM")
    ensures Spells(xATR, "xATR") && Spells(fLTP, "fLTP") && Spells(fUId, "fUId") && Spells(fGId, "fGId")
    ensures Spells(fONm, "fONm") && Spells(fGNm, "fGNm") && Spells(fOSi, "fOSi") && Spells(fGSi, "fGSi")
    ensures Spells(fMOd, "fMOd")
  {
  }

  function TypeBytes(ty: ChunkType): (s: Bytes)
    ensures |s| == 4
  {
    [ty.b0, ty.b1, ty.b2, ty.b3]
  }

  function TypeOf(s: Bytes): (ty: ChunkType)
    requires |s| == 4
    ensures TypeBytes(ty) == s
  {
    ChunkType(s[0], s[1], s[2], s[3])
  }

  lemma TypeRoundTrip(ty: ChunkType)
    ensures TypeOf(TypeBytes(ty)) == ty
  {
  }

  /** The checksum over a type and data: any total function to 32 bits will do here. */
  const ChunkCrc: (ChunkType, Bytes) -> U32

  /** A chunk as stored: its length and checksum fields may disagree with its data. */
  datatype RawChunk = RawChunk(length: U32, ty: ChunkType, data: Bytes, crc: U32)

  const MIN_CHUNK_BYTES_SIZE := 12

  /** A chunk made from a type and data; the length field is the `u32` cast of the size. */
  function FromData(ty: ChunkType, data: Bytes): RawChunk {
    RawChunk(|data| % 0x1_0000_0000, ty, data, ChunkCrc(ty, data))
  }

  /** What a reader accepts: both derived fields agree and the type is alphabetic. */
  predicate WellFormed(c: RawChunk) {
    IsValidType(c.ty) && |c.data| <= U32_MAX && c == FromData(c.ty, c.data)
  }

  /** `ChunkExt::bytes_len`. */
  function BytesLen(c: RawChunk): nat {
    MIN_CHUNK_BYTES_SIZE + |c.data|
  }

  /** The layout of section 5.3 of the PNG specification: length, type, data, checksum. */
  function Encode(c: RawChunk): (s: Bytes)
    ensures |s| == BytesLen(c)
  {
    U32Bytes(c.length) + TypeBytes(c.ty) + c.data + U32Bytes(c.crc)
  }

  /** Where each field of an encoded chunk lies. */
  lemma EncodedFields(c: RawChunk)
    ensures var (s, n) := (Encode(c), |c.data|);
            && |s| == 12 + n
            && s[..4] == BigEndian(c.length, 4)
            && s[4] == c.ty.b0 && s[5] == c.ty.b1 && s[6] == c.ty.b2 && s[7] == c.ty.b3
            && s[8..8 + n] == c.data
            && s[8 + n..] == BigEndian(c.crc, 4)
  {
    hide BigEndian;
  }

  function EncodeAll(cs: seq<RawChunk>): Bytes {
    if cs == [] then [] else Encode(cs[0]) + EncodeAll(cs[1..])
  }

  /** The total size of a list of chunks: `EntryPart::bytes_len`. */
  function TotalLen(cs: seq<RawChunk>): nat {
    if cs == [] then 0 else BytesLen(cs[0]) + TotalLen(cs[1..])
  }

  lemma {:induction false} EncodeAllAppend(a: seq<RawChunk>, b: seq<RawChunk>)
    ensures EncodeAll(a + b) == EncodeAll(a) + EncodeAll(b)
  {
    if a == [] {
      assert a + b == b;
    } else {
      assert (a + b)[1..] == a[1..] + b;
      EncodeAllAppend(a[1..], b);
    }
  }

  lemma {:induction false} TotalLenAppend(a: seq<RawChunk>, b: seq<RawChunk>)
    ensures TotalLen(a + b) == TotalLen(a) + TotalLen(b)
  {
    if a == [] {
      assert a + b == b;
    } else {
      assert (a + b)[1..] == a[1..] + b;
      TotalLenAppend(a[1..], b);
    }
  }

  lemma TotalLenOne(c: RawChunk)
    ensures TotalLen([c]) == BytesLen(c)
    ensures EncodeAll([c]) == Encode(c)
  {
    assert [c][1..] == [];
  }

  /** The size that a part reports is the number of bytes its chunks take. */
  lemma {:induction false} TotalLenIsEncodedLength(cs: seq<RawChunk>)
    ensures |EncodeAll(cs)| == TotalLen(cs)
  {
    if cs != [] {
      TotalLenIsEncodedLength(cs[1..]);
    }
  }

  lemma {:induction false} TotalLenAtLeast(cs: seq<RawChunk>)
    ensures TotalLen(cs) >= 12 * |cs|
  {
    if cs != [] {
      TotalLenAtLeast(cs[1..]);
    }
  }

  /** `chunk_data_split`: the second piece is absent when the cut is at or past the end. */
  function ChunkDataSplit(ty: ChunkType, data: Bytes, mid: nat): (RawChunk, Option<RawChunk>) {
    if mid <= |data| then
      if data[mid..] == [] then (FromData(ty, data[..mid]), None)
      else (FromData(ty, data[..mid]), Some(FromData(ty, data[mid..])))
    else (FromData(ty, data), None)
  }
}
