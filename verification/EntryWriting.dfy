/** Writing normal entries: the field order, the two sinks, and the exact round trip. */
module EntryWriting {
  import opened Basics
  import opened Octets
  import opened Chunks
  import opened Framing
  import opened EntryMetadata
  import opened Entries
  import opened EntryMeaning

  // ---------------------------------------------------------------- what is written

  // The body written for an optional field; an absent field has none.

  function SecondsBody(d: Option<Duration>): Option<Bytes> {
    if d.Some? then Some(SecondsBytes(ToSecondsNanos(d.value).0)) else None
  }

  /** The nanoseconds are left out when they would say zero. */
  function NanosBody(d: Option<Duration>): Option<Bytes> {
    if d.Some? && ToSecondsNanos(d.value).1 != 0
    then Some(NanosBytes(ToSecondsNanos(d.value).1)) else None
  }

  function IdBody(id: Option<U64>): Option<Bytes> {
    if id.Some? then Some(IdBytes(id.value)) else None
  }

  function OwnerStringBody(s: Option<OwnerString>): Option<Bytes> {
    if s.Some? then Some(OwnerStringBytes(s.value)) else None
  }

  function ModeBody(mode: Option<PermissionMode>): Option<Bytes> {
    if mode.Some? then Some(ModeBytes(mode.value)) else None
  }

  function LinkTargetBody(t: Option<LinkTarget>): Option<Bytes> {
    if t.Some? then Some(LinkTargetBytes(t.value)) else None
  }

  function SizeBody(size: Option<U128>): Option<Bytes> {
    if size.Some? then Some(SizeBytes(size.value)) else None
  }

  /** `if let Some(value) { write(ty, value) }`: the chunk of an optional field. */
  function OptionalChunk(ty: ChunkType, body: Option<Bytes>): seq<RawChunk> {
    if body.Some? then [FromData(ty, body.value)] else []
  }

  function XattrChunks(xs: seq<Xattr>): seq<RawChunk> {
    if xs == [] then []
    else XattrChunks(xs[..|xs| - 1]) + [FromData(xATR, XattrBytes(xs[|xs| - 1]))]
  }

  function DataChunks(ty: ChunkType, data: seq<Bytes>): seq<RawChunk> {
    if data == [] then []
    else DataChunks(ty, data[..|data| - 1]) + [FromData(ty, data[|data| - 1])]
  }

  function TimeChunks(m: Metadata): seq<RawChunk> {
    OptionalChunk(cTIM, SecondsBody(m.created)) + OptionalChunk(cTNS, NanosBody(m.created))
    + OptionalChunk(mTIM, SecondsBody(m.modified)) + OptionalChunk(mTNS, NanosBody(m.modified))
    + OptionalChunk(aTIM, SecondsBody(m.accessed)) + OptionalChunk(aTNS, NanosBody(m.accessed))
  }

  function OwnerChunks(m: Metadata): seq<RawChunk> {
    OptionalChunk(fUId, IdBody(m.ownerUid)) + OptionalChunk(fGId, IdBody(m.ownerGid))
    + OptionalChunk(fONm, OwnerStringBody(m.ownerUserName))
    + OptionalChunk(fGNm, OwnerStringBody(m.ownerGroupName))
    + OptionalChunk(fOSi, OwnerStringBody(m.ownerUserSid))
    + OptionalChunk(fGSi, OwnerStringBody(m.ownerGroupSid))
    + OptionalChunk(fMOd, ModeBody(m.permissionMode))
    + OptionalChunk(fLTP, LinkTargetBody(m.linkTargetType))
  }

  /** Everything between the header and the end. A legacy permission is never written. */
  function Contents(e: NormalEntry): seq<RawChunk> {
    e.extra + OptionalChunk(fSIZ, SizeBody(e.metadata.rawFileSize)) + TimeChunks(e.metadata)
    + OwnerChunks(e.metadata) + XattrChunks(e.metadata.xattrs) + OptionalChunk(PHSF, e.phsf)
    + DataChunks(FDAT, e.data)
  }

  /** The chunks of an entry in wire order. */
  function WriteChunks(e: NormalEntry): seq<RawChunk> {
    Framed(FromData(FHED, HeaderBytes(e.header)), Contents(e), FromData(FEND, []), [])
  }

  // ---------------------------------------------------------------- sinks

  lemma Appended(before: Bytes, cs: seq<RawChunk>, c: RawChunk)
    ensures before + EncodeAll(cs + [c]) == before + EncodeAll(cs) + Encode(c)
    ensures TotalLen(cs + [c]) == TotalLen(cs) + |Encode(c)|
  {
    hide Encode;
    EncodeAllAppend(cs, [c]);
    TotalLenAppend(cs, [c]);
    TotalLenOne(c);
    Assoc(before, EncodeAll(cs), Encode(c));
  }

  /**
    * Where an entry's chunks go: either `RawChunkCollector`, which keeps them, or
    * `EntryChunkWriter`, which encodes them to a writer and adds up what it wrote.
    */
  class EntrySink {
    const collecting: bool
    const writer: Writer
    var collected: seq<RawChunk>
    var writtenLen: nat
    ghost var emitted: seq<RawChunk>
    ghost const before: Bytes

    ghost predicate Valid()
      reads this, writer
    {
      if collecting then collected == emitted
      else writer.written == before + EncodeAll(emitted) && writtenLen == TotalLen(emitted)
    }

    constructor (collecting: bool, writer: Writer)
      ensures Valid() && emitted == []
      ensures this.collecting == collecting && this.writer == writer
      ensures before == writer.written
    {
      this.collecting := collecting;
      this.writer := writer;
      collected := [];
      writtenLen := 0;
      emitted := [];
      before := writer.written;
    }

    method Put(chunk: RawChunk)
      requires Valid()
      modifies this, writer
      ensures Valid() && emitted == old(emitted) + [chunk]
    {
      hide Encode, EncodeAll, TotalLen;
      Appended(before, emitted, chunk);
      if collecting {
        collected := collected + [chunk];
      } else {
        var n := WriteChunk(writer, chunk);
        writtenLen := writtenLen + n;
      }
      emitted := emitted + [chunk];
    }
  }

  /** `if let Some(value) { sink.write_chunk((ty, value)) }`. */
  method PutOptional(sink: EntrySink, ty: ChunkType, body: Option<Bytes>)
    requires sink.Valid()
    modifies sink, sink.writer
    ensures sink.Valid() && sink.emitted == old(sink.emitted) + OptionalChunk(ty, body)
  {
    if body.Some? {
      sink.Put(FromData(ty, body.value));
    }
  }

  /** `try_for_each_metadata_facet`: every recorded facet, from timestamps to attributes. */
  method PutMetadataFacets(sink: EntrySink, m: Metadata)
    requires sink.Valid()
    modifies sink, sink.writer
    ensures sink.Valid()
    ensures sink.emitted == old(sink.emitted) + TimeChunks(m) + OwnerChunks(m) + XattrChunks(m.xattrs)
  {
    hide FromData, XattrBytes, TimeChunks, OwnerChunks, sink.Valid;
    PutTimes(sink, m);
    PutOwnerFacets(sink, m);
    ghost var before := sink.emitted;
    var i := 0;
    while i < |m.xattrs|
      invariant i <= |m.xattrs| && sink.Valid()
      invariant sink.emitted == before + XattrChunks(m.xattrs[..i])
    {
      sink.Put(FromData(xATR, XattrBytes(m.xattrs[i])));
      assert m.xattrs[..i + 1][..i] == m.xattrs[..i];
      i := i + 1;
    }
    assert m.xattrs[..i] == m.xattrs;
  }

  method PutTimes(sink: EntrySink, m: Metadata)
    requires sink.Valid()
    modifies sink, sink.writer
    ensures sink.Valid() && sink.emitted == old(sink.emitted) + TimeChunks(m)
  {
    hide SecondsBody, NanosBody, OptionalChunk, sink.Valid;
    PutOptional(sink, cTIM, SecondsBody(m.created));
    PutOptional(sink, cTNS, NanosBody(m.created));
    PutOptional(sink, mTIM, SecondsBody(m.modified));
    PutOptional(sink, mTNS, NanosBody(m.modified));
    PutOptional(sink, aTIM, SecondsBody(m.accessed));
    PutOptional(sink, aTNS, NanosBody(m.accessed));
  }

  /** The owner facets and the link target type. */
  method PutOwnerFacets(sink: EntrySink, m: Metadata)
    requires sink.Valid()
    modifies sink, sink.writer
    ensures sink.Valid() && sink.emitted == old(sink.emitted) + OwnerChunks(m)
  {
    hide IdBody, OwnerStringBody, ModeBody, LinkTargetBody, OptionalChunk, sink.Valid;
    PutOptional(sink, fUId, IdBody(m.ownerUid));
    PutOptional(sink, fGId, IdBody(m.ownerGid));
    PutOptional(sink, fONm, OwnerStringBody(m.ownerUserName));
    PutOptional(sink, fGNm, OwnerStringBody(m.ownerGroupName));
    PutOptional(sink, fOSi, OwnerStringBody(m.ownerUserSid));
    PutOptional(sink, fGSi, OwnerStringBody(m.ownerGroupSid));
    PutOptional(sink, fMOd, ModeBody(m.permissionMode));
    PutOptional(sink, fLTP, LinkTargetBody(m.linkTargetType));
  }

  /** A list of chunks as they are: extra chunks, or a `RawEntry`. */
  method PutAll(sink: EntrySink, chunks: seq<RawChunk>)
    requires sink.Valid()
    modifies sink, sink.writer
    ensures sink.Valid() && sink.emitted == old(sink.emitted) + chunks
  {
    hide sink.Valid;
    var i := 0;
    while i < |chunks|
      invariant i <= |chunks| && sink.Valid()
      invariant sink.emitted == old(sink.emitted) + chunks[..i]
    {
      sink.Put(chunks[i]);
      i := i + 1;
    }
  }

  /** The data bodies, each in a chunk of its own. */
  method PutData(sink: EntrySink, ty: ChunkType, data: seq<Bytes>)
    requires sink.Valid()
    modifies sink, sink.writer
    ensures sink.Valid() && sink.emitted == old(sink.emitted) + DataChunks(ty, data)
  {
    hide sink.Valid, FromData;
    var i := 0;
    while i < |data|
      invariant i <= |data| && sink.Valid()
      invariant sink.emitted == old(sink.emitted) + DataChunks(ty, data[..i])
    {
      sink.Put(FromData(ty, data[i]));
      assert data[..i + 1][..i] == data[..i];
      i := i + 1;
    }
    assert data[..i] == data;
  }

  /** `NormalEntry::write_chunks_to`. */
  method WriteChunksTo(e: NormalEntry, sink: EntrySink)
    requires sink.Valid()
    modifies sink, sink.writer
    ensures sink.Valid() && sink.emitted == old(sink.emitted) + WriteChunks(e)
  {
    hide HeaderBytes, FromData, OptionalChunk, DropWhile, XattrChunks, DataChunks, TimeChunks,
         OwnerChunks, BigEndian, sink.Valid;
    var m := e.metadata;
    var head := FromData(FHED, HeaderBytes(e.header));
    sink.Put(head);
    PutAll(sink, e.extra);
    if m.rawFileSize.Some? {
      var body := SkipWhile(BigEndian(m.rawFileSize.value, 16), IsZero);
      PutOptional(sink, fSIZ, Some(body));
    } else {
      PutOptional(sink, fSIZ, None);
    }
    PutMetadataFacets(sink, m);
    PutOptional(sink, PHSF, e.phsf);
    PutData(sink, FDAT, e.data);
    var end := FromData(FEND, []);
    sink.Put(end);
    Regroup(old(sink.emitted), head, e.extra, OptionalChunk(fSIZ, SizeBody(m.rawFileSize)),
            TimeChunks(m), OwnerChunks(m), XattrChunks(m.xattrs), OptionalChunk(PHSF, e.phsf),
            DataChunks(FDAT, e.data), end);
  }

  lemma Regroup(before: seq<RawChunk>, head: RawChunk, a: seq<RawChunk>, b: seq<RawChunk>,
                c: seq<RawChunk>, d: seq<RawChunk>, e: seq<RawChunk>, f: seq<RawChunk>,
                g: seq<RawChunk>, end: RawChunk)
    ensures before + [head] + a + b + c + d + e + f + g + [end]
            == before + Framed(head, a + b + c + d + e + f + g, end, [])
  {
  }

  /** `into_chunks`: the entry through the collecting sink. */
  method IntoChunks(e: NormalEntry) returns (chunks: seq<RawChunk>)
    ensures chunks == WriteChunks(e)
  {
    hide WriteChunks;
    var unused := new Writer();
    var sink := new EntrySink(true, unused);
    WriteChunksTo(e, sink);
    chunks := sink.collected;
    assert [] + WriteChunks(e) == WriteChunks(e);
  }

  /**
    * `write_in`: the entry through the writing sink. What it appends is the encoding of what
    * the other sink collects, and the count it returns is the number of bytes appended.
    */
  method WriteIn(e: NormalEntry, writer: Writer) returns (writtenLen: nat)
    modifies writer
    ensures writer.written == old(writer.written) + EncodeAll(WriteChunks(e))
    ensures writtenLen == |writer.written| - |old(writer.written)| == TotalLen(WriteChunks(e))
  {
    hide WriteChunks;
    var sink := new EntrySink(false, writer);
    WriteChunksTo(e, sink);
    writtenLen := sink.writtenLen;
    assert [] + WriteChunks(e) == WriteChunks(e);
    TotalLenIsEncodedLength(WriteChunks(e));
  }
}
