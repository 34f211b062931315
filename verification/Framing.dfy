/** Reading chunks from a byte slice and from a reader, and writing them to a writer. */
module Framing {
  import opened Basics
  import opened Octets
  import opened Chunks

  const PNA_SIGNATURE: Bytes := [0x89, 0x50, 0x4E, 0x41, 0x0D, 0x0A, 0x1A, 0x0A]

  // ---------------------------------------------------------------- byte slices

  /** `bytes::read_signature`: the bytes after the signature. */
  function ReadSignature(bytes: Bytes): IoResult<Bytes> {
    if |bytes| < 8 then Err(UnexpectedEof)
    else if bytes[..8] != PNA_SIGNATURE then Err(InvalidData)
    else Ok(bytes[8..])
  }

  /** `bytes::read_chunk`: one chunk and the bytes after it. */
  function ReadChunk(bytes: Bytes, maxDataLen: U32): (r: IoResult<(RawChunk, Bytes)>)
    ensures r.Ok? ==> WellFormed(r.value.0) && |r.value.0.data| <= maxDataLen
    ensures r.Ok? ==> bytes == Encode(r.value.0) + r.value.1
    ensures r.Err? ==> r.error in {UnexpectedEof, InvalidData}
  {
    if |bytes| < 4 then Err(UnexpectedEof)
    else
      var length := U32Of(bytes[..4]);
      if length > maxDataLen then Err(InvalidData)
      else if |bytes| < 8 then Err(UnexpectedEof)
      else
        var ty := TypeOf(bytes[4..8]);
        if !IsValidType(ty) then Err(InvalidData)
        else if |bytes| < 8 + length then Err(UnexpectedEof)
        else
          var data := bytes[8..8 + length];
          if |bytes| < 12 + length then Err(UnexpectedEof)
          else
            var crc := U32Of(bytes[8 + length..12 + length]);
            if crc != ChunkCrc(ty, data) then Err(InvalidData)
            else
              var chunk := RawChunk(length, ty, data, crc);
              U32BytesOf(bytes[..4]);
              U32BytesOf(bytes[8 + length..12 + length]);
              assert bytes == bytes[..4] + bytes[4..8] + data + bytes[8 + length..12 + length]
                              + bytes[12 + length..];
              Ok((chunk, bytes[12 + length..]))
  }

  /** `bytes::skip_chunk`: the type of the next chunk and the bytes after it, unchecked. */
  function SkipChunk(bytes: Bytes): IoResult<(ChunkType, Bytes)> {
    if |bytes| < 8 then Err(UnexpectedEof)
    else
      var length := U32Of(bytes[..4]);
      var ty := TypeOf(bytes[4..8]);
      if !IsValidType(ty) then Err(InvalidData)
      else if |bytes| < 12 + length then Err(UnexpectedEof)
      else Ok((ty, bytes[12 + length..]))
  }

  /** Every well-formed chunk within the limit is read back, leaving what follows it. */
  lemma ReadEncoded(c: RawChunk, rest: Bytes, maxDataLen: U32)
    requires WellFormed(c) && |c.data| <= maxDataLen
    ensures ReadChunk(Encode(c) + rest, maxDataLen) == Ok((c, rest))
  {
    hide U32Bytes, U32Of, TypeOf, TypeBytes;
    TypeRoundTrip(c.ty);
    FieldsOf(U32Bytes(c.length), TypeBytes(c.ty), c.data, U32Bytes(c.crc), rest);
    U32RoundTrip(c.length);
    U32RoundTrip(c.crc);
  }

  /** Where the fields of a chunk lie in the bytes that begin with it. */
  lemma FieldsOf(length: Bytes, ty: Bytes, data: Bytes, crc: Bytes, rest: Bytes)
    requires |length| == |ty| == |crc| == 4
    ensures var bytes := length + ty + data + crc + rest;
            var n := |data|;
            && bytes[..4] == length && bytes[4..8] == ty && bytes[8..8 + n] == data
            && bytes[8 + n..12 + n] == crc && bytes[12 + n..] == rest
  {
  }

  /** Reading succeeds exactly on the inputs that begin with a well-formed chunk. */
  lemma ReadSucceedsIff(bytes: Bytes, maxDataLen: U32)
    ensures ReadChunk(bytes, maxDataLen).Ok? <==>
            exists c, rest :: WellFormed(c) && |c.data| <= maxDataLen && bytes == Encode(c) + rest
  {
    if c, rest :| WellFormed(c) && |c.data| <= maxDataLen && bytes == Encode(c) + rest {
      ReadEncoded(c, rest, maxDataLen);
    }
    if ReadChunk(bytes, maxDataLen).Ok? {
      var (c, rest) := ReadChunk(bytes, maxDataLen).value;
      assert WellFormed(c) && |c.data| <= maxDataLen && bytes == Encode(c) + rest;
    }
  }

  /** Skipping agrees with reading wherever reading succeeds. */
  lemma SkipAgreesWithRead(bytes: Bytes, maxDataLen: U32)
    requires ReadChunk(bytes, maxDataLen).Ok?
    ensures var (c, rest) := ReadChunk(bytes, maxDataLen).value;
            SkipChunk(bytes) == Ok((c.ty, rest))
  {
  }

  /** A chunk encoding cut anywhere before its end reads as an unexpected end of input. */
  lemma ReadTruncated(c: RawChunk, cut: nat)
    requires WellFormed(c) && cut < |Encode(c)|
    ensures ReadChunk(Encode(c)[..cut], U32_MAX) == Err(UnexpectedEof)
  {
    hide U32Bytes, U32Of, TypeOf, TypeBytes;
    var whole := Encode(c);
    var bytes := whole[..cut];
    if cut >= 4 {
      assert bytes[..4] == whole[..4] == U32Bytes(c.length);
      U32RoundTrip(c.length);
    }
    if cut >= 8 {
      assert bytes[4..8] == whole[4..8] == TypeBytes(c.ty);
      TypeRoundTrip(c.ty);
    }
  }

  // ---------------------------------------------------------------- which failure is which

  /** Fewer than 8 bytes end too early; other 8 bytes than the signature are invalid. */
  lemma SignatureVerdict(bytes: Bytes)
    ensures ReadSignature(bytes) == Err(UnexpectedEof) <==> |bytes| < 8
    ensures ReadSignature(bytes).Ok? <==> PNA_SIGNATURE <= bytes
    ensures ReadSignature(bytes).Err? ==> ReadSignature(bytes).error in {UnexpectedEof, InvalidData}
  {
    if PNA_SIGNATURE <= bytes {
      assert bytes[..8] == PNA_SIGNATURE;
    }
  }

  /** The length that the first four bytes announce. */
  function Announced(bytes: Bytes): nat
    requires |bytes| >= 4
  {
    FromBigEndian(bytes[..4])
  }

  predicate HasBadType(bytes: Bytes) {
    |bytes| >= 8 && !IsValidType(ChunkType(bytes[4], bytes[5], bytes[6], bytes[7]))
  }

  /** All the fields are there, but the checksum is not that of type and data. */
  predicate HasBadChecksum(bytes: Bytes) {
    |bytes| >= 8 && |bytes| >= 12 + Announced(bytes) &&
    var n := 8 + Announced(bytes);
    FromBigEndian(bytes[n..n + 4]) != ChunkCrc(ChunkType(bytes[4], bytes[5], bytes[6], bytes[7]), bytes[8..n])
  }

  /**
    * Every way that reading can end. Data is invalid for a length over the limit, a bad type,
    * or a wrong checksum after all the data; the input ends too early when a field is missing
    * and none of those was found before it.
    */
  lemma ReadVerdict(bytes: Bytes, maxDataLen: U32)
    ensures var invalid := |bytes| >= 4 &&
              (Announced(bytes) > maxDataLen || HasBadType(bytes) || HasBadChecksum(bytes));
            var short := |bytes| < 8 || |bytes| < 12 + Announced(bytes);
            ReadChunk(bytes, maxDataLen).Ok? == (!invalid && !short) &&
            (ReadChunk(bytes, maxDataLen) == Err(InvalidData) <==> invalid) &&
            (ReadChunk(bytes, maxDataLen) == Err(UnexpectedEof) <==> !invalid && short)
  {
    hide FromBigEndian;
    if |bytes| >= 8 {
      assert bytes[4..8] == [bytes[4], bytes[5], bytes[6], bytes[7]];
    }
  }

  /** A chunk whose stored length is right and whose checksum is wrong, or whose type is. */
  predicate IsCorrupted(c: RawChunk) {
    c.length == |c.data| && (!IsValidType(c.ty) || c.crc != ChunkCrc(c.ty, c.data))
  }

  /** A corrupted chunk is invalid data, whatever follows it. */
  lemma ReadCorrupted(c: RawChunk, rest: Bytes, maxDataLen: U32)
    requires IsCorrupted(c)
    ensures ReadChunk(Encode(c) + rest, maxDataLen) == Err(InvalidData)
  {
    hide U32Bytes, U32Of, TypeOf, TypeBytes;
    TypeRoundTrip(c.ty);
    FieldsOf(U32Bytes(c.length), TypeBytes(c.ty), c.data, U32Bytes(c.crc), rest);
    U32RoundTrip(c.length);
    U32RoundTrip(c.crc);
  }

  /**
    * Skipping checks only the type. It passes every complete chunk of a valid type, whatever
    * its checksum, and leaves what follows.
    */
  lemma SkipVerdict(bytes: Bytes)
    ensures SkipChunk(bytes) == Err(InvalidData) <==> HasBadType(bytes)
    ensures SkipChunk(bytes) == Err(UnexpectedEof) <==>
            !HasBadType(bytes) && (|bytes| < 8 || |bytes| < 12 + Announced(bytes))
    ensures SkipChunk(bytes).Ok? ==>
            SkipChunk(bytes).value ==
              (ChunkType(bytes[4], bytes[5], bytes[6], bytes[7]), bytes[12 + Announced(bytes)..])
    ensures SkipChunk(bytes).Err? ==> SkipChunk(bytes).error in {UnexpectedEof, InvalidData}
  {
    hide FromBigEndian;
    if |bytes| >= 8 {
      assert bytes[4..8] == [bytes[4], bytes[5], bytes[6], bytes[7]];
    }
  }

  // ---------------------------------------------------------------- readers and writers

  /** An `io::Read` over bytes in memory; a short read leaves nothing unread. */
  class Reader {
    var rest: Bytes

    constructor (bytes: Bytes)
      ensures rest == bytes
    {
      rest := bytes;
    }

    method ReadExact(n: nat) returns (r: IoResult<Bytes>)
      modifies this
      ensures n <= |old(rest)| ==> r == Ok(old(rest)[..n]) && rest == old(rest)[n..]
      ensures n > |old(rest)| ==> r == Err(UnexpectedEof) && rest == []
    {
      if n <= |rest| {
        r := Ok(rest[..n]);
        rest := rest[n..];
      } else {
        r := Err(UnexpectedEof);
        rest := [];
      }
    }

    /** Moves past the end without failing, as a seek does. */
    method SeekRelative(n: nat)
      modifies this
      ensures rest == if n <= |old(rest)| then old(rest)[n..] else []
    {
      rest := if n <= |rest| then rest[n..] else [];
    }
  }

  /** `io::read_signature`. */
  method IoReadSignature(reader: Reader) returns (r: IoResult<()>)
    modifies reader
    ensures match ReadSignature(old(reader.rest))
            case Ok(rest) => r == Ok(()) && reader.rest == rest
            case Err(e) => r == Err(e)
  {
    var signature :- reader.ReadExact(8);
    if signature != PNA_SIGNATURE {
      return Err(InvalidData);
    }
    r := Ok(());
  }

  /**
    * `io::read_chunk`: field by field off the reader. It returns the chunk that the slice
    * form returns, leaves what that form leaves, and fails with the same kind of error.
    */
  method IoReadChunk(reader: Reader, maxDataLen: U32) returns (r: IoResult<RawChunk>)
    modifies reader
    ensures match ReadChunk(old(reader.rest), maxDataLen)
            case Ok((c, rest)) => r == Ok(c) && reader.rest == rest
            case Err(e) => r == Err(e)
  {
    hide U32Of, TypeOf;
    ghost var bytes := reader.rest;
    var lengthBytes :- reader.ReadExact(4);
    var length := U32Of(lengthBytes);
    if length > maxDataLen {
      return Err(InvalidData);
    }
    var tyBytes :- reader.ReadExact(4);
    TakeAfterDrop(bytes, 4, 4);
    var ty := TypeOf(tyBytes);
    if !IsValidType(ty) {
      return Err(InvalidData);
    }
    var data :- reader.ReadExact(length);
    TakeAfterDrop(bytes, 8, length);
    var crcBytes :- reader.ReadExact(4);
    TakeAfterDrop(bytes, 8 + length, 4);
    var crc := U32Of(crcBytes);
    if crc != ChunkCrc(ty, data) {
      return Err(InvalidData);
    }
    r := Ok(RawChunk(length, ty, data, crc));
  }

  /** `io::skip_chunk`: the type and the number of bytes passed over. */
  method IoSkipChunk(reader: Reader) returns (r: IoResult<(ChunkType, nat)>)
    modifies reader
    ensures match SkipChunk(old(reader.rest))
            case Ok((ty, rest)) =>
              r == Ok((ty, |old(reader.rest)| - |rest|)) && reader.rest == rest
            case Err(e) => r == Err(e)
  {
    hide U32Of, TypeOf;
    ghost var bytes := reader.rest;
    var lengthBytes :- reader.ReadExact(4);
    var length := U32Of(lengthBytes);
    var tyBytes :- reader.ReadExact(4);
    TakeAfterDrop(bytes, 4, 4);
    var ty := TypeOf(tyBytes);
    if !IsValidType(ty) {
      return Err(InvalidData);
    }
    reader.SeekRelative(length);
    if 8 + length <= |bytes| {
      TakeAfterDrop(bytes, 8, length);
    }
    var crcBytes :- reader.ReadExact(4);
    TakeAfterDrop(bytes, 8 + length, 4);
    r := Ok((ty, MIN_CHUNK_BYTES_SIZE + length));
  }

  /** An `io::Write` that keeps everything written to it. */
  class Writer {
    var written: Bytes

    constructor ()
      ensures written == []
    {
      written := [];
    }

    method WriteAll(bytes: Bytes)
      modifies this
      ensures written == old(written) + bytes
    {
      written := written + bytes;
    }
  }

  /**
    * `io::write_chunk`: the stored fields as they are, in order. The count returned is the
    * number of bytes appended, even when the stored length field disagrees with the data.
    */
  method WriteChunk(writer: Writer, chunk: RawChunk) returns (bytesLen: nat)
    modifies writer
    ensures writer.written == old(writer.written) + Encode(chunk)
    ensures bytesLen == |writer.written| - |old(writer.written)|
  {
    bytesLen := MIN_CHUNK_BYTES_SIZE + |chunk.data|;
    writer.WriteAll(U32Bytes(chunk.length));
    writer.WriteAll(TypeBytes(chunk.ty));
    writer.WriteAll(chunk.data);
    writer.WriteAll(U32Bytes(chunk.crc));
  }
}
