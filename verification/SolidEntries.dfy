/** Solid entries: parsing, writing, and the exact round trip between the two. */
module SolidEntries {
  import opened Basics
  import opened Octets
  import opened Utf8
  import opened Chunks
  import opened Entries
  import opened EntryWriting

  datatype SolidHeader = SolidHeader(
    major: Byte, minor: Byte, compression: Byte, encryption: Byte, cipherMode: Byte)

  datatype SolidEntry = SolidEntry(
    header: SolidHeader, phsf: Option<Utf8String>, data: seq<Bytes>, extra: seq<RawChunk>)

  function SolidHeaderBytes(h: SolidHeader): Bytes {
    [h.major, h.minor, h.compression, h.encryption, h.cipherMode]
  }

  function SolidHeaderOf(s: Bytes): IoResult<SolidHeader> {
    if |s| != 5 then Err(InvalidData) else Ok(SolidHeader(s[0], s[1], s[2], s[3], s[4]))
  }

  // ---------------------------------------------------------------- parsing

  /** The parser's locals. */
  datatype SolidFields = SolidFields(phsf: Option<Utf8String>, data: seq<Bytes>, extra: seq<RawChunk>)

  const NO_SOLID_FIELDS := SolidFields(None, [], [])

  /** The loop: up to the first `SEND`, ignoring what follows it. */
  function SolidBody(f: SolidFields, cs: seq<RawChunk>): IoResult<SolidFields>
    decreases |cs|
  {
    if cs == [] then Err(InvalidData)
    else
      var c := cs[0];
      if c.ty == SEND then Ok(f)
      else if c.ty == SDAT then SolidBody(f.(data := f.data + [c.data]), cs[1..])
      else if c.ty == PHSF then
        var phsf :- PhsfOf(c.data);
        SolidBody(f.(phsf := Some(phsf)), cs[1..])
      else if IsCritical(c.ty) then Err(InvalidData)
      else SolidBody(f.(extra := f.extra + [c]), cs[1..])
  }

  function ParseSolidHeader(cs: seq<RawChunk>): IoResult<SolidHeader> {
    if cs == [] || cs[0].ty != SHED then Err(InvalidData)
    else
      var h :- SolidHeaderOf(cs[0].data);
      if h.major != 0 || h.minor != 0 then Err(Unsupported) else Ok(h)
  }

  /** `SolidEntry::parse_chunks` as a function. */
  function ParseSolid(cs: seq<RawChunk>): IoResult<SolidEntry> {
    var header :- ParseSolidHeader(cs);
    var f :- SolidBody(NO_SOLID_FIELDS, cs[1..]);
    Ok(SolidEntry(header, f.phsf, f.data, f.extra))
  }

  /** `SolidEntry::parse_chunks` as the source runs it. */
  method ParseSolidChunks(chunks: seq<RawChunk>) returns (r: IoResult<SolidEntry>)
    ensures r == ParseSolid(chunks)
  {
    hide IsUtf8;
    if chunks == [] {
      return Err(InvalidData);
    }
    if chunks[0].ty != SHED {
      return Err(InvalidData);
    }
    var header :- SolidHeaderOf(chunks[0].data);
    if header.major != 0 || header.minor != 0 {
      return Err(Unsupported);
    }
    var extra: seq<RawChunk> := [];
    var data: seq<Bytes> := [];
    var phsf: Option<Utf8String> := None;
    var terminated := false;
    var i := 1;
    while i < |chunks| && !terminated
      invariant 1 <= i <= |chunks|
      invariant SolidBody(NO_SOLID_FIELDS, chunks[1..]) ==
                if terminated then Ok(SolidFields(phsf, data, extra))
                else SolidBody(SolidFields(phsf, data, extra), chunks[i..])
      decreases |chunks| - i, !terminated
    {
      var chunk := chunks[i];
      assert chunks[i..][0] == chunk && chunks[i..][1..] == chunks[i + 1..];
      if chunk.ty == SEND {
        terminated := true;
      } else {
        if chunk.ty == SDAT {
          data := data + [chunk.data];
        } else if chunk.ty == PHSF {
          var v :- PhsfOf(chunk.data);
          phsf := Some(v);
        } else {
          if IsCritical(chunk.ty) {
            return Err(InvalidData);
          }
          extra := extra + [chunk];
        }
        i := i + 1;
      }
    }
    if !terminated {
      return Err(InvalidData);
    }
    r := Ok(SolidEntry(header, phsf, data, extra));
  }

  // ---------------------------------------------------------------- writing

  /** The chunks of a solid entry in wire order. */
  function WriteSolid(e: SolidEntry): seq<RawChunk> {
    [FromData(SHED, SolidHeaderBytes(e.header))]
    + (e.extra + (OptionalChunk(PHSF, e.phsf) + (DataChunks(SDAT, e.data) + [FromData(SEND, [])])))
  }

  /** `SolidEntry::write_chunks_to`. */
  method WriteSolidTo(e: SolidEntry, sink: EntrySink)
    requires sink.Valid()
    modifies sink, sink.writer
    ensures sink.Valid() && sink.emitted == old(sink.emitted) + WriteSolid(e)
  {
    hide SolidHeaderBytes, FromData, OptionalChunk, DataChunks, sink.Valid;
    var head := FromData(SHED, SolidHeaderBytes(e.header));
    sink.Put(head);
    PutAll(sink, e.extra);
    PutOptional(sink, PHSF, e.phsf);
    PutData(sink, SDAT, e.data);
    var end := FromData(SEND, []);
    sink.Put(end);
    RegroupSolid(old(sink.emitted), head, e.extra, OptionalChunk(PHSF, e.phsf),
                 DataChunks(SDAT, e.data), end);
  }

  lemma RegroupSolid(before: seq<RawChunk>, head: RawChunk, a: seq<RawChunk>, b: seq<RawChunk>,
                     c: seq<RawChunk>, end: RawChunk)
    ensures before + [head] + a + b + c + [end] == before + ([head] + (a + (b + (c + [end]))))
  {
  }

  // ---------------------------------------------------------------- the exact round trip

  lemma {:induction false} BodyOfExtras(f: SolidFields, extra: seq<RawChunk>, rest: seq<RawChunk>)
    requires forall i :: 0 <= i < |extra| ==> !IsCritical(extra[i].ty)
    ensures SolidBody(f, extra + rest) == SolidBody(f.(extra := f.extra + extra), rest)
    decreases |extra|
  {
    if extra == [] {
      assert extra + rest == rest && f.extra + extra == f.extra;
    } else {
      assert (extra + rest)[0] == extra[0] && (extra + rest)[1..] == extra[1..] + rest;
      BodyOfExtras(f.(extra := f.extra + [extra[0]]), extra[1..], rest);
      assert f.extra + [extra[0]] + extra[1..] == f.extra + extra;
    }
  }

  lemma {:induction false} BodyOfData(f: SolidFields, data: seq<Bytes>, rest: seq<RawChunk>)
    ensures SolidBody(f, DataChunks(SDAT, data) + rest) == SolidBody(f.(data := f.data + data), rest)
  {
    if data == [] {
      assert DataChunks(SDAT, data) + rest == rest && f.data + data == f.data;
    } else {
      var init, last := data[..|data| - 1], data[|data| - 1];
      var one := FromData(SDAT, last);
      assert DataChunks(SDAT, data) + rest == DataChunks(SDAT, init) + ([one] + rest);
      BodyOfData(f, init, [one] + rest);
      assert ([one] + rest)[1..] == rest;
      assert f.data + init + [last] == f.data + data;
    }
  }

  function CountAncillary(cs: seq<RawChunk>): (n: nat)
    ensures n <= |cs|
  {
    if cs == [] then 0 else (if IsCritical(cs[0].ty) then 0 else 1) + CountAncillary(cs[1..])
  }

  lemma {:induction false} CountAppend(a: seq<RawChunk>, b: seq<RawChunk>)
    ensures CountAncillary(a + b) == CountAncillary(a) + CountAncillary(b)
  {
    if a == [] {
      assert a + b == b;
    } else {
      assert (a + b)[0] == a[0] && (a + b)[1..] == a[1..] + b;
      CountAppend(a[1..], b);
    }
  }

  /** Only ancillary chunks can become extras. */
  lemma {:induction false} ExtrasAreAncillary(f: SolidFields, cs: seq<RawChunk>)
    requires SolidBody(f, cs).Ok?
    ensures |SolidBody(f, cs).value.extra| <= |f.extra| + CountAncillary(cs)
    decreases |cs|
  {
    var c := cs[0];
    if c.ty == SDAT {
      ExtrasAreAncillary(f.(data := f.data + [c.data]), cs[1..]);
    } else if c.ty == PHSF {
      ExtrasAreAncillary(f.(phsf := Some(PhsfOf(c.data).value)), cs[1..]);
    } else if c.ty != SEND {
      ExtrasAreAncillary(f.(extra := f.extra + [c]), cs[1..]);
    }
  }

  lemma {:induction false} AllCounted(cs: seq<RawChunk>)
    requires CountAncillary(cs) == |cs|
    ensures forall i :: 0 <= i < |cs| ==> !IsCritical(cs[i].ty)
  {
    if cs != [] {
      AllCounted(cs[1..]);
      assert forall i :: 0 < i < |cs| ==> cs[i] == cs[1..][i - 1];
    }
  }

  lemma {:induction false} DataIsCritical(data: seq<Bytes>)
    ensures CountAncillary(DataChunks(SDAT, data)) == 0
  {
    if data != [] {
      var init, one := data[..|data| - 1], FromData(SDAT, data[|data| - 1]);
      DataIsCritical(init);
      CountAppend(DataChunks(SDAT, init), [one]);
      assert [one][1..] == [];
    }
  }

  lemma WrittenCount(e: SolidEntry)
    ensures CountAncillary(WriteSolid(e)[1..]) == CountAncillary(e.extra)
  {
    var p, d, end := OptionalChunk(PHSF, e.phsf), DataChunks(SDAT, e.data), [FromData(SEND, [])];
    CountAppend(e.extra, p + (d + end));
    CountAppend(p, d + end);
    CountAppend(d, end);
    DataIsCritical(e.data);
    assert end[1..] == [];
    assert p != [] ==> p[1..] == [];
    assert WriteSolid(e)[1..] == e.extra + (p + (d + end));
  }

  /** What a caller can check before writing a solid entry. */
  ghost predicate SolidSurvives(e: SolidEntry) {
    && e.header.major == 0 && e.header.minor == 0
    && (forall i :: 0 <= i < |e.extra| ==> !IsCritical(e.extra[i].ty))
  }

  /**
    * A solid entry comes back from being written and parsed exactly when its version is 0.0
    * and its extra chunks are all ancillary.
    */
  lemma SolidRoundTripIff(e: SolidEntry)
    ensures ParseSolid(WriteSolid(e)) == Ok(e) <==> SolidSurvives(e)
  {
    hide CountAncillary, SolidBody, IsUtf8;
    var cs := WriteSolid(e);
    assert cs[0] == FromData(SHED, SolidHeaderBytes(e.header));
    assert ParseSolid(cs) == Ok(e) ==> SolidBody(NO_SOLID_FIELDS, cs[1..]).Ok?;
    if SolidSurvives(e) {
      SurvivorsReturn(e);
    } else if ParseSolid(cs) == Ok(e) {
      ExtrasAreAncillary(NO_SOLID_FIELDS, cs[1..]);
      WrittenCount(e);
      AllCounted(e.extra);
    }
  }

  lemma SurvivorsReturn(e: SolidEntry)
    requires SolidSurvives(e)
    ensures SolidBody(NO_SOLID_FIELDS, WriteSolid(e)[1..]) == Ok(SolidFields(e.phsf, e.data, e.extra))
  {
    hide IsUtf8;
    var p, d, end := OptionalChunk(PHSF, e.phsf), DataChunks(SDAT, e.data), [FromData(SEND, [])];
    assert WriteSolid(e)[1..] == e.extra + (p + (d + end));
    BodyOfExtras(NO_SOLID_FIELDS, e.extra, p + (d + end));
    var f := SolidFields(None, [], e.extra);
    assert [] + e.extra == e.extra;
    if e.phsf.Some? {
      assert (p + (d + end))[0] == p[0] && (p + (d + end))[1..] == d + end;
    } else {
      assert p + (d + end) == d + end;
    }
    var g := f.(phsf := e.phsf);
    assert SolidBody(f, p + (d + end)) == SolidBody(g, d + end);
    BodyOfData(g, e.data, end);
    assert [] + e.data == e.data;
  }

  // ---------------------------------------------------------------- any list at all

  /** The bodies of the data chunks, in order. */
  function SolidData(cs: seq<RawChunk>): seq<Bytes> {
    if cs == [] then [] else (if cs[0].ty == SDAT then [cs[0].data] else []) + SolidData(cs[1..])
  }

  /** The chunks that are neither data nor a password hash, in order. */
  function SolidExtra(cs: seq<RawChunk>): seq<RawChunk> {
    if cs == [] then []
    else (if cs[0].ty == SDAT || cs[0].ty == PHSF then [] else [cs[0]]) + SolidExtra(cs[1..])
  }

  /** The body of the last password hash chunk. */
  function LastPhsf(cs: seq<RawChunk>): Option<Bytes> {
    if cs == [] then None
    else if LastPhsf(cs[1..]).Some? then LastPhsf(cs[1..])
    else if cs[0].ty == PHSF then Some(cs[0].data)
    else None
  }

  predicate IsSolidAcceptable(c: RawChunk) {
    (c.ty == PHSF ==> IsUtf8(c.data)) && (c.ty != PHSF && c.ty != SDAT ==> !IsCritical(c.ty))
  }

  predicate AllSolidAcceptable(cs: seq<RawChunk>) {
    forall c <- cs :: c.ty != SEND && IsSolidAcceptable(c)
  }

  /** The same fields as `f`, then what the chunks add to them. */
  ghost predicate SolidAdds(f: SolidFields, cs: seq<RawChunk>, g: SolidFields) {
    g.data == f.data + SolidData(cs) && g.extra == f.extra + SolidExtra(cs) &&
    g.phsf == (if LastPhsf(cs).Some? then LastPhsf(cs) else f.phsf)
  }

  /** The parser's locals after one chunk that it takes. */
  function AfterChunk(f: SolidFields, c: RawChunk): SolidFields {
    if c.ty == SDAT then f.(data := f.data + [c.data])
    else if c.ty == PHSF then (if IsUtf8(c.data) then f.(phsf := Some(c.data)) else f)
    else f.(extra := f.extra + [c])
  }

  lemma SolidBodyStep(f: SolidFields, c: RawChunk, later: seq<RawChunk>)
    ensures SolidBody(f, [c] + later) ==
            if c.ty == SEND then Ok(f)
            else if IsSolidAcceptable(c) then SolidBody(AfterChunk(f, c), later)
            else Err(InvalidData)
  {
    hide IsUtf8, IsCritical;
    assert ([c] + later)[1..] == later;
  }

  lemma SolidAddsStep(f: SolidFields, c: RawChunk, later: seq<RawChunk>, g: SolidFields)
    requires SolidAdds(AfterChunk(f, c), later, g) && (c.ty == PHSF ==> IsUtf8(c.data))
    ensures SolidAdds(f, [c] + later, g)
  {
    hide IsUtf8, SolidData, SolidExtra, LastPhsf;
    SolidCons(c, later);
    Assoc(f.data, [c.data], SolidData(later));
    Assoc(f.extra, [c], SolidExtra(later));
    assert [] + SolidData(later) == SolidData(later) && [] + SolidExtra(later) == SolidExtra(later);
  }

  lemma {:induction false} SolidCons(c: RawChunk, later: seq<RawChunk>)
    ensures SolidData([c] + later) == (if c.ty == SDAT then [c.data] else []) + SolidData(later)
    ensures SolidExtra([c] + later) == (if c.ty == SDAT || c.ty == PHSF then [] else [c]) + SolidExtra(later)
    ensures LastPhsf([c] + later) ==
            if LastPhsf(later).Some? then LastPhsf(later) else if c.ty == PHSF then Some(c.data) else None
  {
    assert ([c] + later)[1..] == later;
  }

  lemma {:induction false} SolidBodyMeans(f: SolidFields, cs: seq<RawChunk>, end: RawChunk, tail: seq<RawChunk>)
    requires end.ty == SEND && forall c <- cs :: c.ty != SEND
    ensures SolidBody(f, cs + [end] + tail).Ok? <==> AllSolidAcceptable(cs)
    ensures SolidBody(f, cs + [end] + tail).Ok? ==> SolidAdds(f, cs, SolidBody(f, cs + [end] + tail).value)
    ensures SolidBody(f, cs + [end] + tail).Err? ==> SolidBody(f, cs + [end] + tail) == Err(InvalidData)
    decreases |cs|
  {
    hide IsCritical, IsUtf8, SolidBody, AfterChunk, SolidAdds;
    if cs == [] {
      assert cs + [end] + tail == [end] + tail;
      SolidBodyStep(f, end, tail);
      NothingAdded(f);
    } else {
      var c, later := cs[0], cs[1..];
      assert cs + [end] + tail == [c] + (later + [end] + tail) && cs == [c] + later;
      SolidBodyStep(f, c, later + [end] + tail);
      if IsSolidAcceptable(c) {
        SolidBodyMeans(AfterChunk(f, c), later, end, tail);
        if AllSolidAcceptable(later) {
          SolidAddsStep(f, c, later, SolidBody(f, cs + [end] + tail).value);
        }
      }
    }
  }

  lemma NothingAdded(f: SolidFields)
    ensures SolidAdds(f, [], f)
  {
    assert f.data + [] == f.data && f.extra + [] == f.extra;
  }

  lemma {:induction false} SolidUnterminated(f: SolidFields, cs: seq<RawChunk>)
    requires forall c <- cs :: c.ty != SEND
    ensures SolidBody(f, cs) == Err(InvalidData)
    decreases |cs|
  {
    hide IsUtf8, IsCritical;
    if cs != [] {
      var c, later := cs[0], cs[1..];
      assert cs == [c] + later;
      if c.ty == SDAT {
        SolidUnterminated(f.(data := f.data + [c.data]), later);
      } else if c.ty == PHSF {
        if IsUtf8(c.data) {
          SolidUnterminated(f.(phsf := Some(c.data)), later);
        }
      } else if !IsCritical(c.ty) {
        SolidUnterminated(f.(extra := f.extra + [c]), later);
      }
    }
  }

  /** A header chunk that the parser accepts: five bytes, the first two of them zero. */
  predicate IsSolidHeader(head: RawChunk) {
    head.ty == SHED && |head.data| == 5 && head.data[0] == 0 && head.data[1] == 0
  }

  /**
    * Which solid entries parse, and what they say. After a good header only the chunks up to the
    * first end count: data in order, unclaimed chunks in order, and the last password hash.
    */
  lemma SolidMeaning(head: RawChunk, cs: seq<RawChunk>, end: RawChunk, tail: seq<RawChunk>)
    requires end.ty == SEND && forall c <- cs :: c.ty != SEND
    ensures var r := ParseSolid([head] + (cs + [end] + tail));
            && (r.Ok? <==> IsSolidHeader(head) && AllSolidAcceptable(cs))
            && (r.Ok? ==>
                  && r.value.header == SolidHeader(0, 0, head.data[2], head.data[3], head.data[4])
                  && SolidHeaderBytes(r.value.header) == head.data && r.value.data == SolidData(cs)
                  && r.value.extra == SolidExtra(cs) && r.value.phsf == LastPhsf(cs))
            && (r == Err(Unsupported) <==> head.ty == SHED && |head.data| == 5 && !IsSolidHeader(head))
            && (r.Err? ==> r.error in {InvalidData, Unsupported})
  {
    hide SolidBody, SolidData, SolidExtra, LastPhsf, AllSolidAcceptable;
    var all := [head] + (cs + [end] + tail);
    assert all[0] == head && all[1..] == cs + [end] + tail;
    SolidBodyMeans(NO_SOLID_FIELDS, cs, end, tail);
    assert [] + SolidData(cs) == SolidData(cs) && [] + SolidExtra(cs) == SolidExtra(cs);
  }

  /** Without an end chunk nothing parses, and it is only the version that is judged before that. */
  lemma SolidNeedsEnd(cs: seq<RawChunk>)
    requires forall c <- cs :: c.ty != SEND
    ensures ParseSolid(cs) ==
            Err(if cs != [] && cs[0].ty == SHED && |cs[0].data| == 5 && !IsSolidHeader(cs[0]) then Unsupported
                else InvalidData)
  {
    hide SolidBody;
    if cs != [] {
      assert forall c <- cs[1..] :: c in cs;
      SolidUnterminated(NO_SOLID_FIELDS, cs[1..]);
    }
  }
}
