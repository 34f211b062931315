/** Reading an archive's entries, those inside solid entries among them. */
module ExtractEntries {
  import opened Basics
  import opened Octets
  import opened Chunks
  import opened Framing
  import opened Entries
  import opened EntryWriting
  import opened SolidEntries
  import opened SolidStream
  import opened SplitMeaning
  import opened SplitArchive
  import opened JoinArchive

  datatype ReadEntry = Normal(entry: NormalEntry) | Solid(solid: SolidEntry)

  /** `ReadEntry::try_from`: the first chunk tells the two kinds apart. */
  function ReadEntryOf(raw: seq<RawChunk>): IoResult<ReadEntry> {
    if raw == [] then Err(InvalidData)
    else if raw[0].ty == SHED then
      var s :- ParseSolid(raw);
      Ok(Solid(s))
    else if raw[0].ty == FHED then
      var e :- Parse(raw);
      Ok(Normal(e))
    else Err(InvalidData)
  }

  // ---------------------------------------------------------------- extracting

  /** The entries that come out before the first error, and that error. */
  type Extracted = (seq<NormalEntry>, Option<ErrorKind>)

  /** These entries, then what comes after them unless an error did. */
  function AndThen(first: Extracted, later: Extracted): Extracted {
    if first.1.Some? then first else (first.0 + later.0, later.1)
  }

  function Extract(entries: seq<IoResult<ReadEntry>>, decode: Decoder): Extracted {
    if entries == [] then ([], None)
    else AndThen(ExtractOne(entries[0], decode), Extract(entries[1..], decode))
  }

  function ExtractOne(entry: IoResult<ReadEntry>, decode: Decoder): Extracted {
    match entry
    case Err(e) => ([], Some(e))
    case Ok(Normal(e)) => ([e], None)
    case Ok(Solid(s)) =>
      var inner := InnerEntries(s, decode);
      if inner.Err? then ([], Some(inner.error)) else inner.value
  }

  /** `ExtractSolidEntries`: an iterator over entries, and over those of the solid entry it is in. */
  class ExtractSolidEntries {
    var entries: seq<IoResult<ReadEntry>>
    var solidIter: Reader?
    const decode: Decoder

    constructor (entries: seq<IoResult<ReadEntry>>, decode: Decoder)
      ensures solidIter == null && Ahead() == Extract(entries, decode)
    {
      this.entries, this.decode, solidIter := entries, decode, null;
    }

    /** What the iterator has still to yield. */
    ghost function Ahead(): Extracted
      reads this, solidIter
    {
      if solidIter == null then Extract(entries, decode)
      else AndThen(Drain(solidIter.rest), Extract(entries, decode))
    }

    /** Each call yields the next entry or the error that comes instead, and leaves the rest ahead. */
    method Next() returns (item: Option<IoResult<NormalEntry>>)
      modifies this, solidIter
      ensures solidIter == null || solidIter == old(solidIter) || fresh(solidIter)
      ensures match item
        case None => old(Ahead()) == ([], None)
        case Some(Err(e)) => old(Ahead()) == ([], Some(e))
        case Some(Ok(e)) => old(Ahead()) == AndThen(([e], None), Ahead())
    {
      hide Drain, Extract, AndThen, InnerEntries;
      while true
        invariant solidIter == null || solidIter == old(solidIter) || fresh(solidIter)
        invariant Ahead() == old(Ahead())
        decreases |entries|
      {
        if solidIter != null {
          DrainStep(solidIter.rest, Extract(entries, decode));
          item := ReadNextNormalEntry(solidIter);
          if item.Some? {
            return item;
          }
          solidIter := null;
        }
        ExtractStep(entries, decode);
        if entries == [] {
          return None;
        }
        var entry := entries[0];
        entries := entries[1..];
        match entry {
          case Ok(Normal(e)) => return Some(Ok(e));
          case Ok(Solid(s)) =>
            InnerSteps(s, decode);
            var bytes := decode(s.header, s.phsf, Concat(s.data));
            if bytes.Err? {
              return Some(Err(bytes.error));
            }
            solidIter := new Reader(bytes.value);
          case Err(e) => return Some(Err(e));
        }
      }
    }
  }

  lemma ExtractStep(entries: seq<IoResult<ReadEntry>>, decode: Decoder)
    ensures Extract(entries, decode) ==
      if entries == [] then ([], None) else AndThen(ExtractOne(entries[0], decode), Extract(entries[1..], decode))
    ensures forall e: ErrorKind, r: Extracted :: AndThen(([], Some(e)), r) == ([], Some(e))
  {
    hide ExtractOne;
  }

  lemma InnerSteps(s: SolidEntry, decode: Decoder)
    ensures var bytes := decode(s.header, s.phsf, Concat(s.data));
      InnerEntries(s, decode) == if bytes.Err? then Err(bytes.error) else Ok(Drain(bytes.value))
  {
    hide Drain, Concat;
  }

  lemma DrainStep(bytes: Bytes, later: Extracted)
    ensures match NextEntry([], bytes)
      case Finished => AndThen(Drain(bytes), later) == later
      case Broken(e) => AndThen(Drain(bytes), later) == ([], Some(e))
      case Parsed(Err(e), _) => AndThen(Drain(bytes), later) == ([], Some(e))
      case Parsed(Ok(entry), rest) =>
        AndThen(Drain(bytes), later) == AndThen(([entry], None), AndThen(Drain(rest), later))
  {
    hide NextEntry;
    assert [] + later.0 == later.0;
    match NextEntry([], bytes)
    case Parsed(Ok(entry), rest) => Assoc([entry], Drain(rest).0, later.0);
    case _ =>
  }

  // ---------------------------------------------------------------- what is extracted

  /** The entry yields all of these and then no error. */
  ghost predicate Completes(entry: IoResult<ReadEntry>, inner: seq<NormalEntry>, decode: Decoder) {
    match entry
    case Err(_) => false
    case Ok(Normal(e)) => inner == [e]
    case Ok(Solid(s)) =>
      var bytes := decode(s.header, s.phsf, Concat(s.data));
      bytes.Ok? && Drain(bytes.value) == (inner, None)
  }

  /** The entry yields these and then the error: its own, its decoder's, or one in its stream. */
  ghost predicate Fails(entry: IoResult<ReadEntry>, inner: seq<NormalEntry>, e: ErrorKind, decode: Decoder) {
    match entry
    case Err(own) => e == own && inner == []
    case Ok(Normal(_)) => false
    case Ok(Solid(s)) =>
      match decode(s.header, s.phsf, Concat(s.data))
      case Err(own) => e == own && inner == []
      case Ok(bytes) => Drain(bytes) == (inner, Some(e))
  }

  lemma OneMeans(entry: IoResult<ReadEntry>, decode: Decoder)
    ensures var got := ExtractOne(entry, decode);
      if got.1.None? then Completes(entry, got.0, decode) else Fails(entry, got.0, got.1.value, decode)
    ensures forall inner :: Completes(entry, inner, decode) ==> ExtractOne(entry, decode) == (inner, None)
    ensures forall inner, e :: Fails(entry, inner, e, decode) ==> ExtractOne(entry, decode) == (inner, Some(e))
  {
    hide Drain, Concat;
  }

  /**
   * Nothing is dropped and no failure is passed over: without an error every entry completed
   * and all that they yielded came out in order; with one, the entries before some place did, and
   * the error and the last entries are those of the entry at that place.
   */
  lemma {:induction false} ExtractMeans(entries: seq<IoResult<ReadEntry>>, decode: Decoder)
    returns (inners: seq<seq<NormalEntry>>)
    ensures var got := Extract(entries, decode);
      got.0 == Concat(inners) && |inners| <= |entries| &&
      match got.1
      case None => |inners| == |entries| && forall i :: 0 <= i < |inners| ==> Completes(entries[i], inners[i], decode)
      case Some(e) =>
        inners != [] && Fails(entries[|inners| - 1], inners[|inners| - 1], e, decode) &&
        forall i :: 0 <= i < |inners| - 1 ==> Completes(entries[i], inners[i], decode)
  {
    hide ExtractOne, Completes, Fails;
    if entries == [] {
      inners := [];
    } else {
      OneMeans(entries[0], decode);
      var first := ExtractOne(entries[0], decode);
      if first.1.Some? {
        inners := [first.0];
        ConcatOne(first.0);
      } else {
        var more := ExtractMeans(entries[1..], decode);
        inners := [first.0] + more;
        assert inners[1..] == more;
        assert forall i :: 0 < i < |inners| ==> entries[i] == entries[1..][i - 1] && inners[i] == more[i - 1];
      }
    }
  }

  ghost predicate CanComplete(entry: IoResult<ReadEntry>, decode: Decoder) {
    exists inner :: Completes(entry, inner, decode)
  }

  /** Extraction ends without an error exactly when every entry was read and every solid one drains. */
  lemma ExtractSucceedsIff(entries: seq<IoResult<ReadEntry>>, decode: Decoder)
    ensures Extract(entries, decode).1 == None <==>
      forall i :: 0 <= i < |entries| ==> CanComplete(entries[i], decode)
  {
    hide Extract, Completes, Fails;
    var inners := ExtractMeans(entries, decode);
    if Extract(entries, decode).1.Some? {
      var k := |inners| - 1;
      FailsOnly(entries[k], inners[k], Extract(entries, decode).1.value, decode);
    } else {
      forall i | 0 <= i < |entries| ensures CanComplete(entries[i], decode) {
        assert Completes(entries[i], inners[i], decode);
      }
    }
  }

  lemma FailsOnly(entry: IoResult<ReadEntry>, inner: seq<NormalEntry>, e: ErrorKind, decode: Decoder)
    requires Fails(entry, inner, e, decode)
    ensures !CanComplete(entry, decode)
  {
    hide Drain, Concat;
  }

  /** An entry that is neither kind is invalid data; one of a kind is what that kind's parser makes of it. */
  lemma ReadEntryVerdict(raw: seq<RawChunk>)
    ensures raw == [] || (raw[0].ty != FHED && raw[0].ty != SHED) ==> ReadEntryOf(raw) == Err(InvalidData)
    ensures raw != [] && raw[0].ty == FHED ==>
      (Parse(raw).Err? ==> ReadEntryOf(raw) == Err(Parse(raw).error)) &&
      (Parse(raw).Ok? ==> ReadEntryOf(raw) == Ok(Normal(Parse(raw).value)))
    ensures raw != [] && raw[0].ty == SHED ==>
      (ParseSolid(raw).Err? ==> ReadEntryOf(raw) == Err(ParseSolid(raw).error)) &&
      (ParseSolid(raw).Ok? ==> ReadEntryOf(raw) == Ok(Solid(ParseSolid(raw).value)))
  {
    hide Parse, ParseSolid;
  }

  // ---------------------------------------------------------------- solid entries as chunks

  /** A solid entry that survives being written and whose chunks a reader accepts. */
  ghost predicate SolidStorable(s: SolidEntry) {
    SolidSurvives(s) && forall c <- WriteSolid(s) :: WellFormed(c)
  }

  lemma {:induction false} DataTypes(ty: ChunkType, data: seq<Bytes>)
    ensures forall c <- DataChunks(ty, data) :: c.ty == ty
  {
    if data != [] {
      DataTypes(ty, data[..|data| - 1]);
    }
  }

  /** The types that end an entry or a part. */
  predicate IsMarker(ty: ChunkType) {
    ty == FEND || ty == SEND || ty == ANXT || ty == AEND
  }

  lemma SolidIsRaw(s: SolidEntry)
    requires SolidStorable(s)
    ensures IsRaw(WriteSolid(s))
  {
    hide WellFormed, IsCritical, SolidHeaderBytes;
    var r, body := WriteSolid(s), OptionalChunk(PHSF, s.phsf) + DataChunks(SDAT, s.data);
    UnclaimedTypes();
    SolidTypes();
    DataTypes(SDAT, s.data);
    assert r == [FromData(SHED, SolidHeaderBytes(s.header))] + s.extra + body + [FromData(SEND, [])];
    forall i | 0 <= i < |r| - 1
      ensures !IsMarker(r[i].ty)
    {
      if 0 < i <= |s.extra| {
        assert r[i] == s.extra[i - 1];
      } else if i > 0 {
        assert r[i] == body[i - 1 - |s.extra|];
      }
    }
  }

  lemma SolidTypes()
    ensures !IsMarker(SHED) && !IsMarker(PHSF) && !IsMarker(SDAT)
    ensures SEND != ANXT && SEND != AEND && IsCritical(FEND)
  {
  }

  // ---------------------------------------------------------------- a whole archive, solid entries and all

  function WriteEntry(e: ReadEntry): seq<RawChunk> {
    match e
    case Normal(n) => WriteChunks(n)
    case Solid(s) => WriteSolid(s)
  }

  /** `inner` is what the entry holds: itself, or what its data decodes to the stream of. */
  ghost predicate Holds(e: ReadEntry, inner: seq<NormalEntry>, decode: Decoder) {
    match e
    case Normal(n) => Storable(n) && inner == [n]
    case Solid(s) =>
      SolidStorable(s) && (forall n <- inner :: Storable(n)) &&
      decode(s.header, s.phsf, Concat(s.data)) == Ok(StreamBytes(inner))
  }

  /** The same entries in the same order, up to how their data is chunked. */
  ghost predicate SameEntries(a: seq<NormalEntry>, b: seq<NormalEntry>) {
    |b| == |a| && forall i :: 0 <= i < |a| ==> SameEntry(Ok(a[i]), Ok(b[i]))
  }

  lemma HeldIsRaw(e: ReadEntry, inner: seq<NormalEntry>, decode: Decoder)
    requires Holds(e, inner, decode)
    ensures IsRaw(WriteEntry(e))
  {
    hide Storable, SolidStorable, IsRaw, WriteChunks, WriteSolid, StreamBytes;
    match e
    case Normal(n) => WrittenIsRaw(n);
    case Solid(s) => SolidIsRaw(s);
  }

  /** One entry, with its stream chunks cut anywhere, still yields what it holds. */
  lemma HeldIsExtracted(e: ReadEntry, inner: seq<NormalEntry>, raw: seq<RawChunk>, decode: Decoder)
    requires Holds(e, inner, decode) && Recut(WriteEntry(e), raw)
    ensures var got := ExtractOne(ReadEntryOf(raw), decode);
      got.1 == None && SameEntries(inner, got.0)
  {
    hide Storable, SolidStorable, WriteChunks, WriteSolid, StreamBytes, Recut, Parse, ParseSolid, Drain, Concat, IsRun;
    match e
    case Normal(n) =>
      WrittenIsRun(n);
      RecutParse(WriteChunks(n), raw);
      HeadType(raw);
    case Solid(s) =>
      SolidReturns(s);
      RecutParseSolid(WriteSolid(s), raw);
      SolidHeadType(raw);
      WholeStream(inner);
      SameItself(inner);
  }

  lemma SolidReturns(s: SolidEntry)
    requires SolidStorable(s)
    ensures ParseSolid(WriteSolid(s)) == Ok(s)
  {
    hide SolidSurvives, ParseSolid, WriteSolid;
    SolidRoundTripIff(s);
  }

  lemma SolidHeadType(raw: seq<RawChunk>)
    requires ParseSolid(raw).Ok?
    ensures raw != [] && raw[0].ty == SHED && SHED != FHED
  {
    hide SolidBody, SolidHeaderOf;
  }

  lemma SameItself(es: seq<NormalEntry>)
    ensures SameEntries(es, es)
  {
  }

  function ReadEntriesOf(raws: RawEntries): seq<IoResult<ReadEntry>> {
    if raws == [] then [] else [ReadEntryOf(raws[0])] + ReadEntriesOf(raws[1..])
  }

  function WriteEntries(es: seq<ReadEntry>): RawEntries {
    if es == [] then [] else [WriteEntry(es[0])] + WriteEntries(es[1..])
  }

  /** Each of the entries holds the list in its place. */
  ghost predicate AllHold(es: seq<ReadEntry>, inners: seq<seq<NormalEntry>>, decode: Decoder) {
    |es| == |inners| && forall i :: 0 <= i < |es| ==> Holds(es[i], inners[i], decode)
  }

  lemma {:induction false} AllHeldAreRaw(es: seq<ReadEntry>, inners: seq<seq<NormalEntry>>, decode: Decoder)
    requires AllHold(es, inners, decode)
    ensures forall r <- WriteEntries(es) :: IsRaw(r)
  {
    hide Holds, IsRaw, WriteEntry;
    if es != [] {
      HeldIsRaw(es[0], inners[0], decode);
      AllHeldAreRaw(es[1..], inners[1..], decode);
    }
  }

  lemma {:induction false} AllHeldAreExtracted(
    es: seq<ReadEntry>, inners: seq<seq<NormalEntry>>, raws: RawEntries, decode: Decoder)
    requires AllHold(es, inners, decode) && AllRecut(WriteEntries(es), raws)
    ensures var got := Extract(ReadEntriesOf(raws), decode);
      got.1 == None && SameEntries(Concat(inners), got.0)
  {
    hide Holds, Recut, WriteEntry, ReadEntryOf, ExtractOne, SameEntry;
    if es != [] {
      var written := WriteEntries(es);
      assert Recut(written[0], raws[0]);
      HeldIsExtracted(es[0], inners[0], raws[0], decode);
      assert written[1..] == WriteEntries(es[1..]);
      assert forall i :: 0 <= i < |raws[1..]| ==> raws[1..][i] == raws[i + 1] && written[1..][i] == written[i + 1];
      AllHeldAreExtracted(es[1..], inners[1..], raws[1..], decode);
      assert ReadEntriesOf(raws)[1..] == ReadEntriesOf(raws[1..]);
    }
  }

  /**
   * A whole archive and back. Normal and solid entries in any order are written as a split
   * archive of any size; reading its parts in order and extracting the solid entries yields,
   * without an error, every normal entry and every entry inside a solid one, each in its place
   * and with the header, metadata, extras and data bytes it had.
   */
  lemma ArchiveRoundTrip(es: seq<ReadEntry>, inners: seq<seq<NormalEntry>>, budget: nat, decode: Decoder)
    returns (raws: RawEntries)
    requires AllHold(es, inners, decode)
    requires BodiesOf(Concat(WriteEntries(es)), budget).Ok?
    ensures PartsEntries(ArchiveParts(BodiesOf(Concat(WriteEntries(es)), budget).value)) == Ok(raws)
    ensures var got := Extract(ReadEntriesOf(raws), decode);
      got.1 == None && SameEntries(Concat(inners), got.0)
  {
    hide *;
    AllHeldAreRaw(es, inners, decode);
    raws := SplitArchiveRoundTrip(WriteEntries(es), budget);
    AllHeldAreExtracted(es, inners, raws, decode);
  }
}
