/** Reading a split archive part by part, and what comes back of what was written. */
module JoinArchive {
  import opened Basics
  import opened Octets
  import opened Chunks
  import opened Framing
  import opened Entries
  import opened EntryMeaning
  import opened EntryWriting
  import opened SolidEntries
  import opened SolidStream
  import opened Splitting
  import opened SplitMeaning
  import opened SplitArchive

  predicate IsEnd(c: RawChunk) {
    c.ty == FEND || c.ty == SEND
  }

  // ---------------------------------------------------------------- reading

  /** What `next_raw_item` comes to: an error, an entry's chunks, or the end of the part. */
  datatype RawItem =
    | Damaged(error: ErrorKind)
    | RawEntry(chunks: seq<RawChunk>, rest: Bytes, next: bool)
    | PartEnd(buffered: seq<RawChunk>, rest: Bytes, next: bool)

  /** The next item, given the chunks of it already read and whether `ANXT` was seen. */
  function NextRaw(chunks: seq<RawChunk>, bytes: Bytes, next: bool): (item: RawItem)
    ensures !item.Damaged? ==> |item.rest| < |bytes|
    decreases |bytes|
  {
    match ReadChunk(bytes, U32_MAX)
    case Err(e) => Damaged(e)
    case Ok((c, rest)) =>
      if IsEnd(c) then RawEntry(chunks + [c], rest, next)
      else if c.ty == ANXT then NextRaw(chunks, rest, true)
      else if c.ty == AEND then PartEnd(chunks, rest, next)
      else NextRaw(chunks + [c], rest, next)
  }

  type RawEntries = seq<seq<RawChunk>>

  /**
   * A part read to its end: its entries, the chunks of an unfinished one, the bytes after the
   * end, and whether another part follows.
   */
  datatype PartRead = PartRead(entries: RawEntries, buffered: seq<RawChunk>, rest: Bytes, next: bool)

  function Prefixed(entries: RawEntries, r: IoResult<PartRead>): IoResult<PartRead> {
    if r.Err? then r else Ok(r.value.(entries := entries + r.value.entries))
  }

  function PartEntries(buffered: seq<RawChunk>, bytes: Bytes, next: bool): (r: IoResult<PartRead>)
    ensures r.Ok? ==> |r.value.rest| < |bytes|
    decreases |bytes|
  {
    match NextRaw(buffered, bytes, next)
    case Damaged(e) => Err(e)
    case PartEnd(b, rest, n) => Ok(PartRead([], b, rest, n))
    case RawEntry(chunks, rest, n) => Prefixed([chunks], PartEntries([], rest, n))
  }

  /** `read_header_with_buffer`: the part's number, and the bytes after its header. */
  datatype PartHead = PartHead(number: U32, rest: Bytes)

  function HeadOf(bytes: Bytes): (r: IoResult<PartHead>)
    ensures r.Ok? ==> |r.value.rest| < |bytes|
  {
    var body :- ReadSignature(bytes);
    match ReadChunk(body, U32_MAX)
    case Err(e) => Err(e)
    case Ok((c, rest)) =>
      if c.ty != AHED then Err(InvalidData)
      else if |c.data| != 8 then Err(InvalidInput)
      else Ok(PartHead(U32Of(c.data[4..]), rest))
  }

  function PrefixedAll(entries: RawEntries, r: IoResult<RawEntries>): IoResult<RawEntries> {
    if r.Err? then r else Ok(entries + r.value)
  }

  /** `map_missing_next_archive`: a stream that just ends there is a missing part. */
  function MissingNext<T>(r: IoResult<T>): IoResult<T> {
    if r == Err(UnexpectedEof) then Err(NotFound) else r
  }

  /** `verify_next_archive_number`. */
  function Following(previous: U32, head: PartHead): (r: IoResult<PartHead>)
    ensures r.Ok? ==> r.value == head
  {
    if previous == U32_MAX || head.number != previous + 1 then Err(InvalidData) else Ok(head)
  }

  /** `next_archive_part_reader`: the part handed out, or else what follows in the same stream. */
  function NextHead(previous: U32, rest: Bytes, next: Option<Bytes>): (r: IoResult<PartHead>)
    ensures r.Ok? ==> |r.value.rest| < if next.Some? then |next.value| else |rest|
  {
    match next
    case Some(bytes) =>
      var head :- HeadOf(bytes);
      Following(previous, head)
    case None =>
      var head :- MissingNext(HeadOf(rest));
      Following(previous, head)
  }

  /** The part that a provider hands out next, and those after it. */
  function FirstOf(later: seq<Bytes>): Option<Bytes> {
    if later == [] then None else Some(later[0])
  }

  function AfterFirst(later: seq<Bytes>): (tail: seq<Bytes>)
    ensures later != [] ==> |tail| < |later|
  {
    if later == [] then [] else later[1..]
  }

  /** The entries from an opened part on, as long as each part says that another follows. */
  function EntriesFrom(head: PartHead, buffered: seq<RawChunk>, later: seq<Bytes>): IoResult<RawEntries>
    decreases |later|, |head.rest|
  {
    var part :- PartEntries(buffered, head.rest, false);
    if !part.next then Ok(part.entries)
    else
      match NextHead(head.number, part.rest, FirstOf(later))
      case Err(e) => Err(e)
      case Ok(next) => PrefixedAll(part.entries, EntriesFrom(next, part.buffered, AfterFirst(later)))
  }

  /** `run_across_archive_readers`, collecting raw entries; a provider of no parts panics. */
  function PartsEntries(parts: seq<Bytes>): IoResult<RawEntries>
    requires parts != []
  {
    var head :- HeadOf(parts[0]);
    EntriesFrom(head, [], parts[1..])
  }

  /** The reading side of `Archive`. */
  class ArchiveReader {
    var inner: Reader
    var number: U32
    var nextArchive: bool
    var buffered: seq<RawChunk>

    /** Holds no part until one is opened. */
    constructor ()
      ensures fresh(inner) && buffered == []
    {
      inner := new Reader([]);
      number, nextArchive, buffered := 0, false, [];
    }

    /** What is open: the number of the part and the bytes of it still to be read. */
    function Head(): PartHead
      reads this, inner
    {
      PartHead(number, inner.rest)
    }

    /** `read_header_with_buffer`. */
    method ReadHeader(reader: Reader) returns (r: IoResult<()>)
      modifies this, reader
      ensures HeadOf(old(reader.rest)).Err? ==> r == Err(HeadOf(old(reader.rest)).error)
      ensures HeadOf(old(reader.rest)).Ok? ==>
        r.Ok? && inner == reader && Head() == HeadOf(old(reader.rest)).value && !nextArchive &&
        buffered == old(buffered)
    {
      hide ReadChunk;
      inner := reader;
      var signature := IoReadSignature(inner);
      if signature.Err? {
        return Err(signature.error);
      }
      var chunk := IoReadChunk(inner, U32_MAX);
      if chunk.Err? {
        return Err(chunk.error);
      }
      if chunk.value.ty != AHED {
        return Err(InvalidData);
      }
      if |chunk.value.data| != 8 {
        return Err(InvalidInput);
      }
      number, nextArchive := U32Of(chunk.value.data[4..]), false;
      return Ok(());
    }

    /** `read_next_archive` and `read_next_archive_in_stream`. */
    method ReadNextHeader(reader: Reader) returns (r: IoResult<()>)
      modifies this, reader
      ensures HeadOf(old(reader.rest)).Err? ==> r == Err(HeadOf(old(reader.rest)).error)
      ensures HeadOf(old(reader.rest)).Ok? ==>
        var next := Following(old(number), HeadOf(old(reader.rest)).value);
        if next.Err? then r == Err(next.error)
        else r.Ok? && inner == reader && Head() == next.value && !nextArchive && buffered == old(buffered)
    {
      hide HeadOf;
      var previous := number;
      var read := ReadHeader(reader);
      if read.Err? {
        return read;
      }
      if previous == U32_MAX || number != previous + 1 {
        return Err(InvalidData);
      }
      return Ok(());
    }

    /** `next_archive_part_reader`. */
    method OpenNext(next: Option<Bytes>) returns (r: IoResult<()>)
      modifies this, inner
      ensures var head := NextHead(old(number), old(inner.rest), next);
        if head.Err? then r == Err(head.error)
        else r.Ok? && (inner == old(inner) || fresh(inner)) && Head() == head.value && !nextArchive &&
             buffered == old(buffered)
    {
      hide HeadOf;
      match next
      case Some(bytes) =>
        var reader := new Reader(bytes);
        r := ReadNextHeader(reader);
      case None =>
        r := ReadNextHeader(inner);
        r := MissingNext(r);
    }

    /** `next_raw_item`. */
    method NextRawItem() returns (r: IoResult<Option<seq<RawChunk>>>)
      modifies this, inner
      ensures inner == old(inner) && number == old(number)
      ensures var item := NextRaw(old(buffered), old(inner.rest), old(nextArchive));
        match item
        case Damaged(e) => r == Err(e)
        case PartEnd(b, rest, n) => r == Ok(None) && buffered == b && inner.rest == rest && nextArchive == n
        case RawEntry(cs, rest, n) => r == Ok(Some(cs)) && buffered == [] && inner.rest == rest && nextArchive == n
    {
      hide ReadChunk;
      var chunks := buffered;
      buffered := [];
      while true
        invariant buffered == [] && inner == old(inner) && number == old(number)
        invariant NextRaw(chunks, inner.rest, nextArchive) == NextRaw(old(buffered), old(inner.rest), old(nextArchive))
        decreases |inner.rest|
      {
        ghost var before := inner.rest;
        var chunk := IoReadChunk(inner, U32_MAX);
        if chunk.Err? {
          return Err(chunk.error);
        }
        ReadShortens(before);
        if IsEnd(chunk.value) {
          return Ok(Some(chunks + [chunk.value]));
        } else if chunk.value.ty == ANXT {
          nextArchive := true;
        } else if chunk.value.ty == AEND {
          buffered := chunks;
          return Ok(None);
        } else {
          chunks := chunks + [chunk.value];
        }
      }
    }

    /** The entries of the open part, to its end. */
    method ReadPart() returns (r: IoResult<RawEntries>)
      modifies this, inner
      ensures number == old(number) && inner == old(inner)
      ensures var part := PartEntries(old(buffered), old(inner.rest), old(nextArchive));
        if part.Err? then r == Err(part.error)
        else r.Ok? && part.value == PartRead(r.value, buffered, inner.rest, nextArchive)
    {
      hide NextRaw, Prefixed;
      var entries: RawEntries := [];
      ghost var whole := PartEntries(buffered, inner.rest, nextArchive);
      PrefixedTwice([], [], whole);
      while true
        invariant inner == old(inner) && number == old(number)
        invariant whole == Prefixed(entries, PartEntries(buffered, inner.rest, nextArchive))
        decreases |inner.rest|
      {
        ghost var chunks, bytes, next := buffered, inner.rest, nextArchive;
        RawShortens(chunks, bytes, next);
        var item := NextRawItem();
        PrefixedErr(entries);
        if item.Err? {
          return Err(item.error);
        }
        if item.value.None? {
          PrefixedEnd(entries, buffered, inner.rest, nextArchive);
          return Ok(entries);
        }
        PrefixedTwice(entries, [item.value.value], PartEntries(buffered, inner.rest, nextArchive));
        entries := entries + [item.value.value];
      }
    }
  }

  lemma RawShortens(chunks: seq<RawChunk>, bytes: Bytes, next: bool)
    ensures NextRaw(chunks, bytes, next).RawEntry? ==> |NextRaw(chunks, bytes, next).rest| < |bytes|
  {
  }

  lemma PrefixedTwice(a: RawEntries, b: RawEntries, r: IoResult<PartRead>)
    ensures Prefixed(a, Prefixed(b, r)) == Prefixed(a + b, r) && Prefixed([], r) == r
  {
    if r.Ok? {
      Assoc(a, b, r.value.entries);
      assert [] + r.value.entries == r.value.entries;
    }
  }

  lemma PrefixedErr(entries: RawEntries)
    ensures forall e :: Prefixed(entries, Err(e)) == Err(e)
  {
  }

  lemma PrefixedEnd(entries: RawEntries, buffered: seq<RawChunk>, rest: Bytes, next: bool)
    ensures Prefixed(entries, Ok(PartRead([], buffered, rest, next))) == Ok(PartRead(entries, buffered, rest, next))
  {
    assert entries + [] == entries;
  }

  lemma PrefixedAllTwice(a: RawEntries, b: RawEntries, r: IoResult<RawEntries>)
    ensures PrefixedAll(a, PrefixedAll(b, r)) == PrefixedAll(a + b, r) && PrefixedAll([], r) == r
    ensures PrefixedAll(a, Ok([])) == Ok(a) && PrefixedAll(a, Ok(b)) == Ok(a + b)
    ensures forall e :: PrefixedAll(a, Err(e)) == Err(e)
  {
    if r.Ok? {
      Assoc(a, b, r.value);
      assert [] + r.value == r.value;
    }
    assert a + [] == a;
  }

  /** `run_across_archive_readers`: part after part, each read to its end. */
  method ReadAllParts(parts: seq<Bytes>) returns (r: IoResult<RawEntries>)
    requires parts != []
    ensures r == PartsEntries(parts)
  {
    hide *;
    var archive := new ArchiveReader();
    var entries: RawEntries := [];
    var reader := new Reader(parts[0]);
    PartsStart(parts);
    var start := archive.ReadHeader(reader);
    if start.Err? {
      return Err(start.error);
    }
    var left := parts[1..];
    PrefixedAllTwice([], [], PartsEntries(parts));
    while true
      invariant fresh(archive) && fresh(archive.inner) && !archive.nextArchive
      invariant PartsEntries(parts) == PrefixedAll(entries, EntriesFrom(archive.Head(), archive.buffered, left))
      decreases |left|, |archive.inner.rest|
    {
      ghost var before := archive.Head();
      HeadRest(archive);
      PrefixedAllTwice(entries, [], Ok([]));
      EntriesStep(before, archive.buffered, left);
      var some := archive.ReadPart();
      if some.Err? {
        return Err(some.error);
      }
      PrefixedAllTwice(entries, some.value, Ok([]));
      if !archive.nextArchive {
        return Ok(entries + some.value);
      }
      var moved := archive.OpenNext(FirstOf(left));
      if moved.Err? {
        return Err(moved.error);
      }
      HeadRest(archive);
      FirstAndRest(left);
      left := AfterFirst(left);
      PrefixedAllTwice(entries, some.value, EntriesFrom(archive.Head(), archive.buffered, left));
      entries := entries + some.value;
    }
  }

  lemma HeadRest(archive: ArchiveReader)
    ensures archive.Head() == PartHead(archive.number, archive.inner.rest)
  {
  }

  lemma FirstAndRest(later: seq<Bytes>)
    ensures FirstOf(later) == if later == [] then None else Some(later[0])
    ensures |AfterFirst(later)| <= |later|
  {
  }

  lemma PartsStart(parts: seq<Bytes>)
    requires parts != []
    ensures var head := HeadOf(parts[0]);
      PartsEntries(parts) == if head.Err? then Err(head.error) else EntriesFrom(head.value, [], parts[1..])
  {
    hide HeadOf, EntriesFrom;
  }

  lemma EntriesStep(head: PartHead, buffered: seq<RawChunk>, later: seq<Bytes>)
    ensures var part := PartEntries(buffered, head.rest, false);
      EntriesFrom(head, buffered, later) ==
        if part.Err? then Err(part.error)
        else if !part.value.next then Ok(part.value.entries)
        else
          var next := NextHead(head.number, part.value.rest, FirstOf(later));
          if next.Err? then Err(next.error)
          else PrefixedAll(part.value.entries, EntriesFrom(next.value, part.value.buffered, AfterFirst(later)))
  {
    hide PartEntries, NextHead, PrefixedAll, FirstOf, AfterFirst;
  }

  // ---------------------------------------------------------------- any bytes at all

  /** Where a part's header can go wrong, and what its number is. */
  lemma HeadVerdict(bytes: Bytes)
    ensures ReadSignature(bytes).Err? ==> HeadOf(bytes) == Err(ReadSignature(bytes).error)
    ensures ReadSignature(bytes).Ok? ==>
      match ReadChunk(bytes[8..], U32_MAX)
      case Err(e) => HeadOf(bytes) == Err(e)
      case Ok((c, rest)) =>
        (c.ty != AHED ==> HeadOf(bytes) == Err(InvalidData)) &&
        (c.ty == AHED && |c.data| != 8 ==> HeadOf(bytes) == Err(InvalidInput)) &&
        (c.ty == AHED && |c.data| == 8 ==>
           HeadOf(bytes).Ok? && BigEndian(HeadOf(bytes).value.number, 4) == c.data[4..] &&
           HeadOf(bytes).value.rest == rest)
  {
    hide ReadChunk, BigEndian;
    match ReadChunk(bytes[if |bytes| < 8 then 0 else 8..], U32_MAX)
    case Ok((c, rest)) =>
      if |c.data| == 8 {
        U32BytesOf(c.data[4..]);
      }
    case Err(_) =>
  }

  /**
   * Going on to the next part: one that was handed over fails as it does by itself, and only a
   * stream that ends too early is a missing part; a part that opens must have the next number.
   */
  lemma NextHeadVerdict(previous: U32, rest: Bytes, next: Option<Bytes>)
    ensures var own := HeadOf(if next.Some? then next.value else rest);
      (NextHead(previous, rest, next) == Err(NotFound) <==> next.None? && own == Err(UnexpectedEof)) &&
      (own.Err? && !(next.None? && own == Err(UnexpectedEof)) ==> NextHead(previous, rest, next) == own) &&
      (own.Ok? ==>
         NextHead(previous, rest, next) == if own.value.number == previous as int + 1 then own else Err(InvalidData))
  {
    hide ReadChunk;
    HeadErrors(if next.Some? then next.value else rest);
  }

  lemma HeadErrors(bytes: Bytes)
    ensures HeadOf(bytes) != Err(NotFound)
  {
    hide ReadChunk;
  }

  /** The chunks that are collected for an entry: all but the next-part markers. */
  function Collected(cs: seq<RawChunk>): seq<RawChunk> {
    if cs == [] then [] else (if cs[0].ty == ANXT then [] else [cs[0]]) + Collected(cs[1..])
  }

  predicate HasNext(cs: seq<RawChunk>) {
    exists c <- cs :: c.ty == ANXT
  }

  /** Well-formed chunks that end neither an entry nor the part. */
  ghost predicate IsUnended(cs: seq<RawChunk>) {
    forall c <- cs :: WellFormed(c) && !IsEnd(c) && c.ty != AEND
  }

  /**
   * One call on arbitrary bytes: chunks are collected, next-part markers noted and left out, up
   * to the end of an entry or of the part, or to what reads as no chunk.
   */
  lemma {:induction false} NextRawMeans(chunks: seq<RawChunk>, bytes: Bytes, next: bool)
    returns (read: seq<RawChunk>, last: Option<RawChunk>, rest: Bytes)
    ensures IsUnended(read) && (last.Some? ==> WellFormed(last.value))
    ensures bytes == EncodeAll(read) + (if last.Some? then Encode(last.value) else []) + rest
    ensures match NextRaw(chunks, bytes, next)
      case Damaged(e) => last == None && ReadChunk(rest, U32_MAX) == Err(e)
      case RawEntry(cs, after, n) =>
        last.Some? && IsEnd(last.value) && cs == chunks + Collected(read) + [last.value] && after == rest &&
        n == (next || HasNext(read))
      case PartEnd(cs, after, n) =>
        last.Some? && last.value.ty == AEND && cs == chunks + Collected(read) && after == rest &&
        n == (next || HasNext(read))
    decreases |bytes|
  {
    hide ReadChunk, Encode, WellFormed, IsEnd;
    assert chunks + Collected([]) == chunks && EncodeAll([]) == [];
    match ReadChunk(bytes, U32_MAX)
    case Err(_) =>
      read, last, rest := [], None, bytes;
      assert [] + [] + bytes == bytes;
    case Ok((c, after)) =>
      if IsEnd(c) || (c.ty != ANXT && c.ty == AEND) {
        read, last, rest := [], Some(c), after;
        assert [] + Encode(c) + after == Encode(c) + after;
      } else {
        RawRest(bytes);
        var more: seq<RawChunk>;
        var kept := if c.ty == ANXT then chunks else chunks + [c];
        more, last, rest := NextRawMeans(kept, after, next || c.ty == ANXT);
        read := [c] + more;
        UnendedCons(c, more);
        assert read[1..] == more;
        var ending := if last.Some? then Encode(last.value) else [];
        Assoc(Encode(c), EncodeAll(more), ending);
        Assoc(Encode(c), EncodeAll(more) + ending, rest);
        assert kept + Collected(more) == chunks + Collected(read);
      }
  }

  lemma RawRest(bytes: Bytes)
    requires ReadChunk(bytes, U32_MAX).Ok?
    ensures |ReadChunk(bytes, U32_MAX).value.1| < |bytes|
  {
  }

  lemma UnendedCons(c: RawChunk, cs: seq<RawChunk>)
    requires WellFormed(c) && !IsEnd(c) && c.ty != AEND && IsUnended(cs)
    ensures IsUnended([c] + cs) && (HasNext([c] + cs) <==> c.ty == ANXT || HasNext(cs))
  {
    hide WellFormed, IsEnd;
    var all := [c] + cs;
    assert c in all && forall x <- cs :: x in all;
  }

  // ---------------------------------------------------------------- what was written is read

  /** The entries in a list of chunks, cut after each end chunk. */
  function RunsOf(buffered: seq<RawChunk>, cs: seq<RawChunk>): RawEntries
    decreases |cs|
  {
    if cs == [] then []
    else if IsEnd(cs[0]) then [buffered + [cs[0]]] + RunsOf([], cs[1..])
    else RunsOf(buffered + [cs[0]], cs[1..])
  }

  /** The chunks after the last end chunk. */
  function LeftOver(buffered: seq<RawChunk>, cs: seq<RawChunk>): seq<RawChunk>
    decreases |cs|
  {
    if cs == [] then buffered
    else if IsEnd(cs[0]) then LeftOver([], cs[1..])
    else LeftOver(buffered + [cs[0]], cs[1..])
  }

  lemma {:induction false} RunsAppend(buffered: seq<RawChunk>, a: seq<RawChunk>, b: seq<RawChunk>)
    ensures RunsOf(buffered, a + b) == RunsOf(buffered, a) + RunsOf(LeftOver(buffered, a), b)
    decreases |a|
  {
    if a == [] {
      assert a + b == b;
    } else {
      assert (a + b)[1..] == a[1..] + b;
      if IsEnd(a[0]) {
        RunsAppend([], a[1..], b);
        Assoc([buffered + [a[0]]], RunsOf([], a[1..]), RunsOf(LeftOver([], a[1..]), b));
      } else {
        RunsAppend(buffered + [a[0]], a[1..], b);
      }
    }
  }

  /** A chunk that may stand between a part's header and its closing chunks. */
  predicate IsInner(c: RawChunk) {
    WellFormed(c) && c.ty != ANXT && c.ty != AEND
  }

  lemma ReadOne(buffered: seq<RawChunk>, c: RawChunk, rest: Bytes, next: bool)
    requires WellFormed(c)
    ensures var read := PartEntries(buffered, Encode(c) + rest, next);
      if IsEnd(c) then read == Prefixed([buffered + [c]], PartEntries([], rest, next))
      else if c.ty == ANXT then read == PartEntries(buffered, rest, true)
      else if c.ty == AEND then read == Ok(PartRead([], buffered, rest, next))
      else read == PartEntries(buffered + [c], rest, next)
  {
    hide Encode, WellFormed, Prefixed;
    DataWithinLimit(c);
    ReadEncoded(c, rest, U32_MAX);
  }

  lemma DataWithinLimit(c: RawChunk)
    requires WellFormed(c)
    ensures |c.data| <= U32_MAX
  {
  }

  lemma {:induction false} BodyReads(buffered: seq<RawChunk>, body: seq<RawChunk>, rest: Bytes)
    requires forall c <- body :: IsInner(c)
    ensures PartEntries(buffered, EncodeAll(body) + rest, false) ==
            Prefixed(RunsOf(buffered, body), PartEntries(LeftOver(buffered, body), rest, false))
    decreases |body|
  {
    hide Encode, WellFormed, Prefixed, PartEntries;
    if body == [] {
      assert EncodeAll(body) + rest == rest;
      PrefixedTwice([], [], PartEntries(buffered, rest, false));
    } else {
      var c, tail := body[0], body[1..];
      assert IsInner(c);
      Assoc(Encode(c), EncodeAll(tail), rest);
      ReadOne(buffered, c, EncodeAll(tail) + rest, false);
      if IsEnd(c) {
        BodyReads([], tail, rest);
        PrefixedTwice([buffered + [c]], RunsOf([], tail), PartEntries(LeftOver([], tail), rest, false));
      } else {
        BodyReads(buffered + [c], tail, rest);
      }
    }
  }

  lemma ClosingChunks()
    ensures var next, end := FromData(ANXT, []), FromData(AEND, []);
      WellFormed(next) && WellFormed(end) && next.ty == ANXT && end.ty == AEND && !IsEnd(next) && !IsEnd(end)
    ensures ANXT != AEND
  {
  }

  /**
   * A finished part reads as the entries that end in it, and leaves the start of the next and
   * whatever comes after the part in the same stream.
   */
  lemma PartReads(number: U32, body: seq<RawChunk>, last: bool, buffered: seq<RawChunk>, after: Bytes)
    requires forall c <- body :: IsInner(c)
    ensures HeadOf(PartBytes(number, body, last) + after).Ok?
    ensures HeadOf(PartBytes(number, body, last) + after).value.number == number
    ensures PartEntries(buffered, HeadOf(PartBytes(number, body, last) + after).value.rest, false) ==
            Ok(PartRead(RunsOf(buffered, body), LeftOver(buffered, body), after, !last))
  {
    hide Encode, FromData, WellFormed, Prefixed, PartEntries, Opening, EncodeAll, PartBytes, ReadChunk, HeadOf;
    var next, end := FromData(ANXT, []), FromData(AEND, []);
    var closing := if last then Encode(end) else Encode(next) + Encode(end);
    PartLayout(number, body, last);
    Assoc(Opening(number), EncodeAll(body) + closing, after);
    Assoc(EncodeAll(body), closing, after);
    HeadReads(number, EncodeAll(body) + (closing + after));
    BodyReads(buffered, body, closing + after);
    ClosingChunks();
    var left := LeftOver(buffered, body);
    ReadOne(left, end, after, !last);
    if !last {
      Assoc(Encode(next), Encode(end), after);
      ReadOne(left, next, Encode(end) + after, false);
    }
    PrefixedEnd(RunsOf(buffered, body), left, after, !last);
  }

  lemma PartLayout(number: U32, body: seq<RawChunk>, last: bool)
    ensures var next, end := FromData(ANXT, []), FromData(AEND, []);
      PartBytes(number, body, last) ==
        Opening(number) + (EncodeAll(body) + if last then Encode(end) else Encode(next) + Encode(end))
  {
    hide Encode, FromData, Opening, EncodeAll, PartBytes;
    var next, end := FromData(ANXT, []), FromData(AEND, []);
    ClosedBytes(number, body, last);
    if last {
      Assoc(Opening(number), EncodeAll(body), Encode(end));
    } else {
      Assoc(Opening(number) + EncodeAll(body), Encode(next), Encode(end));
      Assoc(Opening(number), EncodeAll(body), Encode(next) + Encode(end));
    }
  }

  lemma HeadReads(number: U32, rest: Bytes)
    ensures HeadOf(Opening(number) + rest) == Ok(PartHead(number, rest))
  {
    hide Encode, ReadChunk, FromData, WellFormed;
    var header := HeaderChunk(number);
    HeaderFacts(number);
    var bytes := Opening(number) + rest;
    Assoc(PNA_SIGNATURE, Encode(header), rest);
    assert bytes[..8] == PNA_SIGNATURE && bytes[8..] == Encode(header) + rest;
    ReadEncoded(header, rest, U32_MAX);
  }

  lemma HeaderFacts(number: U32)
    ensures var header := HeaderChunk(number);
      WellFormed(header) && header.ty == AHED && |header.data| == 8 && U32Of(header.data[4..]) == number
  {
    hide U32Bytes, U32Of;
    var body: Bytes := [0, 0, 0, 0] + U32Bytes(number);
    assert body[4..] == U32Bytes(number);
    U32RoundTrip(number);
  }

  predicate AllBelow(order: seq<nat>, n: nat) {
    forall i :: 0 <= i < |order| ==> order[i] < n
  }

  /** Finished parts in any order, some perhaps left out or repeated. */
  function Picked(bodies: Bodies, order: seq<nat>): seq<Bytes>
    requires 0 < |bodies| <= U32_MAX && AllBelow(order, |bodies|)
    ensures |Picked(bodies, order)| == |order|
  {
    seq(|order|, j requires 0 <= j < |order| =>
      PartBytes(order[j], bodies[order[j]], order[j] == |bodies| - 1))
  }

  /** Each number is one more than the one before it. */
  predicate Consecutive(order: seq<nat>) {
    forall j :: 0 < j < |order| ==> order[j] == order[j - 1] + 1
  }

  /** From the first number on, every number up to the last of `n` comes in its place. */
  predicate ReachesLast(order: seq<nat>, n: nat) {
    order != [] && order[0] < n <= order[0] + |order| && Consecutive(order[..n - order[0]])
  }

  /** What reading parts picked in this order comes to, with the chunks already buffered. */
  function PickedEntries(bodies: Bodies, order: seq<nat>, buffered: seq<RawChunk>): IoResult<RawEntries>
    requires order != [] && order[0] <= |bodies|
  {
    if ReachesLast(order, |bodies|) then Ok(RunsOf(buffered, Concat(bodies[order[0]..])))
    else if Consecutive(order) then Err(NotFound)
    else Err(InvalidData)
  }

  lemma {:induction false} PickedReads(bodies: Bodies, order: seq<nat>, buffered: seq<RawChunk>)
    requires 0 < |bodies| <= U32_MAX && order != [] && AllBelow(order, |bodies|)
    requires forall b <- bodies, c <- b :: IsInner(c)
    ensures var parts := Picked(bodies, order);
      HeadOf(parts[0]).Ok? && HeadOf(parts[0]).value.number == order[0] &&
      EntriesFrom(HeadOf(parts[0]).value, buffered, parts[1..]) == PickedEntries(bodies, order, buffered)
    decreases |order|
  {
    hide HeadOf, PartEntries, EntriesFrom, RunsOf, LeftOver, PrefixedAll, PartBytes, Consecutive, ReachesLast, Concat,
      NextHead;
    var parts, k := Picked(bodies, order), order[0];
    var body, last, left := bodies[k], k == |bodies| - 1, LeftOver(buffered, bodies[k]);
    assert body in bodies;
    PartReads(k, body, last, buffered, []);
    assert parts[0] + [] == parts[0];
    EntriesStep(HeadOf(parts[0]).value, buffered, parts[1..]);
    PrefixedAllTwice(RunsOf(buffered, body), [], Ok([]));
    OrderStep(order, |bodies|);
    ConcatFrom(bodies, k);
    if last {
      NoRuns(left);
      RunsAppend(buffered, body, []);
      assert body + [] == body && RunsOf(buffered, body) + [] == RunsOf(buffered, body);
    } else if |order| == 1 {
      NoneLeft(k);
    } else {
      var later := order[1..];
      assert parts[1..] == Picked(bodies, later);
      PickedReads(bodies, later, left);
      NextInOrder(k, parts[1], HeadOf(parts[1]).value);
      if order[1] == k + 1 {
        RunsAppend(buffered, body, Concat(bodies[k + 1..]));
        PrefixedAllTwice(RunsOf(buffered, body), RunsOf(left, Concat(bodies[k + 1..])), Ok([]));
      }
    }
  }

  lemma ConcatFrom(bodies: Bodies, k: nat)
    requires k < |bodies|
    ensures Concat(bodies[k..]) == bodies[k] + Concat(bodies[k + 1..])
    ensures k == |bodies| - 1 ==> Concat(bodies[k + 1..]) == []
  {
    assert bodies[k..][1..] == bodies[k + 1..];
  }

  /** Whether an order reaches the last part, or is consecutive, by its first two numbers and its tail. */
  lemma OrderStep(order: seq<nat>, n: nat)
    requires order != [] && order[0] < n
    ensures order[0] == n - 1 ==> ReachesLast(order, n)
    ensures |order| == 1 ==> Consecutive(order) && (ReachesLast(order, n) <==> order[0] == n - 1)
    ensures |order| > 1 && order[0] < n - 1 ==>
      (Consecutive(order) <==> order[1] == order[0] + 1 && Consecutive(order[1..])) &&
      (ReachesLast(order, n) <==> order[1] == order[0] + 1 && ReachesLast(order[1..], n))
  {
    if |order| > 1 && order[0] < n - 1 {
      ConsecutiveStep(order);
      if n <= order[0] + |order| {
        var reached := order[..n - order[0]];
        ConsecutiveStep(reached);
        assert order[1] == order[0] + 1 ==> reached[1..] == order[1..][..n - order[1]];
      }
    }
  }

  lemma ConsecutiveStep(order: seq<nat>)
    requires |order| > 1
    ensures Consecutive(order) <==> order[1] == order[0] + 1 && Consecutive(order[1..])
  {
    var tail := order[1..];
    if Consecutive(order) {
      forall j | 0 < j < |tail| ensures tail[j] == tail[j - 1] + 1 {
        assert order[j + 1] == order[j] + 1;
      }
    }
    if order[1] == order[0] + 1 && Consecutive(tail) {
      forall j | 0 < j < |order| ensures order[j] == order[j - 1] + 1 {
        assert j > 1 ==> tail[j - 1] == tail[j - 2] + 1;
      }
    }
  }

  lemma NoneLeft(previous: U32)
    ensures NextHead(previous, [], FirstOf([])) == Err(NotFound)
  {
  }

  lemma NextInOrder(previous: U32, part: Bytes, head: PartHead)
    requires HeadOf(part) == Ok(head)
    ensures NextHead(previous, [], Some(part)) ==
      if previous < U32_MAX && head.number == previous + 1 then Ok(head) else Err(InvalidData)
  {
    hide HeadOf;
  }

  /** A part whose bytes cannot be read from some chunk on fails, whatever was read before. */
  lemma BodyFails(buffered: seq<RawChunk>, body: seq<RawChunk>, rest: Bytes, e: ErrorKind)
    requires (forall c <- body :: IsInner(c)) && ReadChunk(rest, U32_MAX) == Err(e)
    ensures PartEntries(buffered, EncodeAll(body) + rest, false) == Err(e)
  {
    hide Encode, WellFormed, Prefixed, PartEntries, EncodeAll, ReadChunk;
    BodyReads(buffered, body, rest);
    NothingReads(LeftOver(buffered, body), rest, e);
    PrefixedErr(RunsOf(buffered, body));
  }

  lemma NothingReads(buffered: seq<RawChunk>, rest: Bytes, e: ErrorKind)
    requires ReadChunk(rest, U32_MAX) == Err(e)
    ensures PartEntries(buffered, rest, false) == Err(e)
  {
    hide ReadChunk;
  }

  /**
   * A damaged part: after whole parts comes one that is all right up to some chunk and then cut
   * short or corrupted. Reading fails with just the error of what stands there; in particular a
   * part cut short is never taken for a missing one.
   */
  lemma {:induction false} DamagedPart(
    bodies: Bodies, i: nat, m: nat, buffered: seq<RawChunk>, a: seq<RawChunk>, rest: Bytes, e: ErrorKind)
    requires i <= m < |bodies| <= U32_MAX && (forall b <- bodies, c <- b :: IsInner(c))
    requires (forall c <- a :: IsInner(c)) && ReadChunk(rest, U32_MAX) == Err(e)
    ensures var parts := ArchiveParts(bodies)[i..m] + [Opening(m) + (EncodeAll(a) + rest)];
      HeadOf(parts[0]).Ok? && HeadOf(parts[0]).value.number == i &&
      EntriesFrom(HeadOf(parts[0]).value, buffered, parts[1..]) == Err(e)
    decreases m - i
  {
    hide HeadOf, PartEntries, EntriesFrom, RunsOf, LeftOver, PrefixedAll, PartBytes, Opening, EncodeAll, ReadChunk,
      NextHead;
    var damaged := Opening(m) + (EncodeAll(a) + rest);
    var parts := ArchiveParts(bodies)[i..m] + [damaged];
    if i == m {
      assert parts[0] == damaged;
      HeadReads(m, EncodeAll(a) + rest);
      BodyFails(buffered, a, rest, e);
      EntriesStep(PartHead(m, EncodeAll(a) + rest), buffered, parts[1..]);
    } else {
      var body := bodies[i];
      assert body in bodies && parts[0] == PartBytes(i, body, false) && parts[0] + [] == parts[0];
      PartReads(i, body, false, buffered, []);
      EntriesStep(HeadOf(parts[0]).value, buffered, parts[1..]);
      var later := ArchiveParts(bodies)[i + 1..m] + [damaged];
      assert parts[1..] == later;
      DamagedPart(bodies, i + 1, m, LeftOver(buffered, body), a, rest, e);
      NextInOrder(i, later[0], HeadOf(later[0]).value);
      PrefixedAllTwice(RunsOf(buffered, body), [], Ok([]));
    }
  }

  /** A corrupted chunk in any part is invalid data, and a part cut short is an unexpected end. */
  lemma DamageIsReported(bodies: Bodies, m: nat, a: seq<RawChunk>, bad: RawChunk, tail: Bytes, c: RawChunk, cut: nat)
    requires m < |bodies| <= U32_MAX && (forall b <- bodies, c <- b :: IsInner(c)) && forall x <- a :: IsInner(x)
    ensures IsCorrupted(bad) ==>
      PartsEntries(ArchiveParts(bodies)[..m] + [Opening(m) + (EncodeAll(a) + (Encode(bad) + tail))]) == Err(InvalidData)
    ensures WellFormed(c) && cut < |Encode(c)| ==>
      PartsEntries(ArchiveParts(bodies)[..m] + [Opening(m) + (EncodeAll(a) + Encode(c)[..cut])]) == Err(UnexpectedEof)
  {
    hide HeadOf, EntriesFrom, ArchiveParts, Opening, EncodeAll, ReadChunk, Encode, WellFormed, IsCorrupted;
    assert ArchiveParts(bodies)[0..m] == ArchiveParts(bodies)[..m];
    if IsCorrupted(bad) {
      ReadCorrupted(bad, tail, U32_MAX);
      DamagedPart(bodies, 0, m, [], a, Encode(bad) + tail, InvalidData);
    }
    if WellFormed(c) && cut < |Encode(c)| {
      ReadTruncated(c, cut);
      DamagedPart(bodies, 0, m, [], a, Encode(c)[..cut], UnexpectedEof);
    }
  }

  /**
   * Parts handed over in any order are read exactly when, from whichever comes first, every
   * part up to the last comes in its place, and then as the entries of their chunks, joined.
   * A wrong part is invalid data and a missing one is not found. The first part's own number
   * is never compared with anything, so parts missing at the front go unnoticed.
   */
  lemma PartsInOrder(bodies: Bodies, order: seq<nat>)
    requires 0 < |bodies| <= U32_MAX && order != [] && AllBelow(order, |bodies|)
    requires forall b <- bodies, c <- b :: IsInner(c)
    ensures PartsEntries(Picked(bodies, order)) ==
      if ReachesLast(order, |bodies|) then Ok(RunsOf([], Concat(bodies[order[0]..])))
      else if Consecutive(order) then Err(NotFound)
      else Err(InvalidData)
  {
    hide HeadOf, EntriesFrom, Picked, RunsOf, Consecutive, ReachesLast, Concat;
    PickedReads(bodies, order, []);
  }

  /** All the parts in order read as the entries of their chunks, and too few of them do not read. */
  lemma PartsRead(bodies: Bodies, m: nat)
    requires 0 < m <= |bodies| <= U32_MAX
    requires forall b <- bodies, c <- b :: IsInner(c)
    ensures PartsEntries(ArchiveParts(bodies)[..m]) ==
      if m == |bodies| then Ok(RunsOf([], Concat(bodies))) else Err(NotFound)
  {
    hide PartsEntries, PartBytes, RunsOf, Concat;
    var order := seq(m, i requires 0 <= i < m => i as nat);
    assert ArchiveParts(bodies)[..m] == Picked(bodies, order);
    assert order[..m] == order && bodies[0..] == bodies;
    PartsInOrder(bodies, order);
  }

  lemma {:induction false} StreamReads(bodies: Bodies, i: nat, m: nat, buffered: seq<RawChunk>)
    requires i < m <= |bodies| <= U32_MAX
    requires forall b <- bodies, c <- b :: IsInner(c)
    ensures var head := HeadOf(Concat(ArchiveParts(bodies)[i..m]));
      head.Ok? && head.value.number == i &&
      EntriesFrom(head.value, buffered, []) ==
        if m == |bodies| then Ok(RunsOf(buffered, Concat(bodies[i..]))) else Err(NotFound)
    decreases m - i
  {
    hide HeadOf, PartEntries, EntriesFrom, RunsOf, LeftOver, PrefixedAll, PartBytes, Concat, NextHead;
    var parts, body, last := ArchiveParts(bodies), bodies[i], i == |bodies| - 1;
    var after, left := Concat(parts[i + 1..m]), LeftOver(buffered, bodies[i]);
    assert body in bodies;
    FirstOfParts(parts, i, m);
    PartReads(i, body, last, buffered, after);
    EntriesStep(HeadOf(Concat(parts[i..m])).value, buffered, []);
    PrefixedAllTwice(RunsOf(buffered, body), [], Ok([]));
    ConcatFrom(bodies, i);
    NothingFurther();
    if last {
      NoRuns(left);
      RunsAppend(buffered, body, []);
      assert body + [] == body && RunsOf(buffered, body) + [] == RunsOf(buffered, body);
    } else if i + 1 == m {
      NoneLeft(i);
    } else {
      StreamReads(bodies, i + 1, m, left);
      NextInStream(i, after, HeadOf(after).value);
      RunsAppend(buffered, body, Concat(bodies[i + 1..]));
      PrefixedAllTwice(RunsOf(buffered, body), RunsOf(left, Concat(bodies[i + 1..])), Ok([]));
    }
  }

  lemma FirstOfParts(parts: seq<Bytes>, i: nat, m: nat)
    requires i < m <= |parts|
    ensures Concat(parts[i..m]) == parts[i] + Concat(parts[i + 1..m])
    ensures i + 1 == m ==> Concat(parts[i + 1..m]) == []
  {
    assert parts[i..m][1..] == parts[i + 1..m];
  }

  lemma NothingFurther()
    ensures FirstOf([]) == None && AfterFirst([]) == []
  {
  }

  lemma NextInStream(previous: U32, rest: Bytes, head: PartHead)
    requires HeadOf(rest) == Ok(head) && previous < U32_MAX && head.number == previous + 1
    ensures NextHead(previous, rest, None) == Ok(head)
  {
    hide HeadOf;
  }

  /** Parts that follow each other in one stream read as they do when handed over one by one. */
  lemma PartsInOneStream(bodies: Bodies, m: nat)
    requires 0 < m <= |bodies| <= U32_MAX
    requires forall b <- bodies, c <- b :: IsInner(c)
    ensures PartsEntries([Concat(ArchiveParts(bodies)[..m])]) == PartsEntries(ArchiveParts(bodies)[..m])
  {
    hide HeadOf, EntriesFrom, RunsOf, Concat, ArchiveParts;
    StreamReads(bodies, 0, m, []);
    assert bodies[0..] == bodies && ArchiveParts(bodies)[0..m] == ArchiveParts(bodies)[..m];
    var stream := [Concat(ArchiveParts(bodies)[..m])];
    assert stream[1..] == [];
    PartsRead(bodies, m);
  }

  lemma NoRuns(buffered: seq<RawChunk>)
    ensures RunsOf(buffered, []) == []
  {
  }

  lemma {:induction false} RecutKeepsInner(a: seq<RawChunk>, b: seq<RawChunk>)
    requires Recut(a, b) && forall c <- a :: IsInner(c)
    ensures forall c <- b :: IsInner(c)
    decreases |b|
  {
    hide IsHeadPiece, WellFormed, FromData;
    if a != [] {
      assert IsInner(a[0]) && a == [a[0]] + a[1..] && b == [b[0]] + b[1..];
      if b[0] == a[0] && Recut(a[1..], b[1..]) {
        RecutKeepsInner(a[1..], b[1..]);
      } else {
        PieceIsInner(a[0], b[0]);
        RecutKeepsInner([TailPiece(a[0], b[0])] + a[1..], b[1..]);
      }
    }
  }

  lemma PieceIsInner(c: RawChunk, x: RawChunk)
    requires IsHeadPiece(c, x) && IsInner(c)
    ensures IsInner(x) && IsInner(TailPiece(c, x)) && !IsEnd(c) && !IsEnd(x) && !IsEnd(TailPiece(c, x))
  {
    PiecesStayWellFormed(c, |x.data|);
  }

  /** Cutting a list of chunks never joins across a place in it. */
  lemma {:induction false} RecutSplit(a: seq<RawChunk>, later: seq<RawChunk>, b: seq<RawChunk>) returns (k: nat)
    requires Recut(a + later, b)
    ensures k <= |b| && Recut(a, b[..k]) && Recut(later, b[k..])
    decreases |b|
  {
    hide IsHeadPiece;
    if a == [] {
      k := 0;
      assert a + later == later && b[..0] == [] && b[0..] == b;
    } else {
      var all := a + later;
      assert all[0] == a[0] && all[1..] == a[1..] + later;
      if b[0] == a[0] && Recut(all[1..], b[1..]) {
        var j := RecutSplit(a[1..], later, b[1..]);
        k := j + 1;
      } else {
        var tail := TailPiece(a[0], b[0]);
        assert [tail] + all[1..] == ([tail] + a[1..]) + later;
        var j := RecutSplit([tail] + a[1..], later, b[1..]);
        k := j + 1;
      }
      assert b[..k][1..] == b[1..][..k - 1] && b[k..] == b[1..][k - 1..];
    }
  }

  /** An entry's chunks: the last one, and no other, ends an entry. */
  ghost predicate IsRaw(r: seq<RawChunk>) {
    r != [] && IsEnd(r[|r| - 1]) && (forall i :: 0 <= i < |r| - 1 ==> !IsEnd(r[i])) && forall c <- r :: IsInner(c)
  }

  lemma {:induction false} RecutKeepsRaw(a: seq<RawChunk>, b: seq<RawChunk>)
    requires Recut(a, b) && IsRaw(a)
    ensures IsRaw(b)
    decreases |b|
  {
    hide IsHeadPiece, WellFormed, FromData, IsEnd;
    RecutKeepsInner(a, b);
    if b[0] == a[0] && Recut(a[1..], b[1..]) {
      if |a| > 1 {
        assert forall i :: 0 <= i < |a[1..]| ==> a[1..][i] == a[i + 1];
        assert forall c <- a[1..] :: c in a;
        RecutKeepsRaw(a[1..], b[1..]);
        assert forall i :: 0 < i < |b| ==> b[i] == b[1..][i - 1];
      }
    } else {
      PieceIsInner(a[0], b[0]);
      var pieces := [TailPiece(a[0], b[0])] + a[1..];
      assert forall i :: 0 < i < |a| ==> pieces[i] == a[i];
      assert forall c <- pieces :: c == pieces[0] || c in a;
      RecutKeepsRaw(pieces, b[1..]);
      assert forall i :: 0 < i < |b| ==> b[i] == b[1..][i - 1];
    }
  }

  lemma {:induction false} RawIsOneRun(buffered: seq<RawChunk>, r: seq<RawChunk>, later: seq<RawChunk>)
    requires IsRaw(r)
    ensures RunsOf(buffered, r + later) == [buffered + r] + RunsOf([], later)
    decreases |r|
  {
    hide IsInner, IsEnd;
    var tail := r[1..];
    assert (r + later)[1..] == tail + later && r == [r[0]] + tail;
    if |r| > 1 {
      assert forall i :: 0 <= i < |tail| ==> tail[i] == r[i + 1];
      assert forall c <- tail :: c in r;
      RawIsOneRun(buffered + [r[0]], tail, later);
      Assoc(buffered, [r[0]], tail);
    } else {
      assert tail == [] && tail + later == later && r == [r[0]];
    }
  }

  /** Each entry of the one list, with some of its stream chunks cut, is the entry of the other. */
  ghost predicate AllRecut(es: RawEntries, rs: RawEntries) {
    |rs| == |es| && forall i :: 0 <= i < |es| ==> Recut(es[i], rs[i])
  }

  lemma {:induction false} RunsAreRecut(es: RawEntries, b: seq<RawChunk>)
    requires (forall e <- es :: IsRaw(e)) && Recut(Concat(es), b)
    ensures AllRecut(es, RunsOf([], b))
  {
    hide Recut, IsRaw, RunsOf;
    if es == [] {
      NothingRecut(b);
      NoRuns([]);
    } else {
      var e := es[0];
      assert e in es;
      var k := RecutSplit(e, Concat(es[1..]), b);
      RecutKeepsRaw(e, b[..k]);
      assert b == b[..k] + b[k..];
      RawIsOneRun([], b[..k], b[k..]);
      assert [] + b[..k] == b[..k];
      RunsAreRecut(es[1..], b[k..]);
      var rs := RunsOf([], b);
      assert rs[1..] == RunsOf([], b[k..]);
      assert forall i :: 0 < i < |es| ==> es[i] == es[1..][i - 1] && rs[i] == rs[1..][i - 1];
    }
  }

  lemma NothingRecut(b: seq<RawChunk>)
    requires Recut([], b)
    ensures b == []
  {
  }

  lemma {:induction false} ConcatMembers<T>(parts: seq<seq<T>>, part: seq<T>, x: T)
    requires part in parts && x in part
    ensures x in Concat(parts)
  {
    if part != parts[0] {
      ConcatMembers(parts[1..], part, x);
    }
  }

  lemma {:induction false} ConcatInner(es: RawEntries)
    requires forall e <- es :: IsRaw(e)
    ensures forall c <- Concat(es) :: IsInner(c)
  {
    hide IsInner, IsEnd;
    if es != [] {
      assert es[0] in es;
      ConcatInner(es[1..]);
    }
  }

  /**
   * Writing entries as a split archive and reading the parts in order: whatever the size of
   * the parts, the entries come back one for one, in order, with at most their stream chunks
   * cut, so each parses to what it parsed to, normal or solid, up to how its data is chunked.
   */
  lemma SplitArchiveRoundTrip(es: RawEntries, budget: nat) returns (rs: RawEntries)
    requires forall e <- es :: IsRaw(e)
    requires BodiesOf(Concat(es), budget).Ok?
    ensures PartsEntries(ArchiveParts(BodiesOf(Concat(es), budget).value)) == Ok(rs)
    ensures AllRecut(es, rs)
    ensures forall i :: 0 <= i < |es| ==>
      SameEntry(Parse(es[i]), Parse(rs[i])) && SameSolid(ParseSolid(es[i]), ParseSolid(rs[i]))
  {
    hide BodiesOf, RunsOf, Recut, IsRaw, WellFormed, ArchiveParts, PartsEntries, Parse, ParseSolid, SameEntry,
      SameSolid,
      AllFit, Packed, AllPlaceable, Concat;
    ConcatInner(es);
    PartsHoldChunks(Concat(es), budget);
    var bodies := BodiesOf(Concat(es), budget).value;
    var joined := Concat(bodies);
    RecutKeepsInner(Concat(es), joined);
    forall b <- bodies, c <- b ensures IsInner(c) {
      ConcatMembers(bodies, b, c);
    }
    PartsRead(bodies, |bodies|);
    assert ArchiveParts(bodies)[..|bodies|] == ArchiveParts(bodies);
    rs := RunsOf([], joined);
    RunsAreRecut(es, joined);
    forall i | 0 <= i < |es|
      ensures SameEntry(Parse(es[i]), Parse(rs[i])) && SameSolid(ParseSolid(es[i]), ParseSolid(rs[i]))
    {
      RecutParse(es[i], rs[i]);
      RecutParseSolid(es[i], rs[i]);
    }
  }

  // ---------------------------------------------------------------- entries written by the library

  lemma StructuralTypesRefused(c: RawChunk)
    requires Check(c).Ok?
    ensures c.ty != SEND && c.ty != ANXT && c.ty != AEND
  {
    UnclaimedTypes();
  }

  lemma UnclaimedTypes()
    ensures FieldOf(SEND) == FieldOf(ANXT) == FieldOf(AEND) == Field.Other
    ensures IsCritical(SEND) && IsCritical(ANXT) && IsCritical(AEND)
    ensures FHED != FEND && FHED != SEND && FHED != ANXT && FHED != AEND && FEND != ANXT && FEND != AEND
  {
  }

  lemma WrittenIsRaw(e: NormalEntry)
    requires Storable(e)
    ensures IsRaw(WriteChunks(e))
  {
    hide Check, FieldOf, WellFormed, WriteChunks, Storable, Parse, Meaning, Finish, FirstError, HeaderOf;
    var run := WriteChunks(e);
    WrittenIsRun(e);
    UnclaimedTypes();
    var header, a, end, tail := ParsedShape(run);
    assert run[1 + |a|] == end;
    assert tail == [];
    HeadType(run);
    FirstErrorIff(a);
    forall i | 0 <= i < |run|
      ensures run[i].ty != SEND && run[i].ty != ANXT && run[i].ty != AEND
    {
      if 0 < i <= |a| {
        assert run[i] == a[i - 1] && a[i - 1] in a;
        StructuralTypesRefused(run[i]);
      }
    }
  }

  lemma HeadType(cs: seq<RawChunk>)
    requires Parse(cs).Ok?
    ensures cs != [] && cs[0].ty == FHED
  {
    hide Body, HeaderOf, Finish;
  }

  function AsRaw(es: seq<NormalEntry>): RawEntries {
    if es == [] then [] else [WriteChunks(es[0])] + AsRaw(es[1..])
  }

  lemma {:induction false} WrittenAre(es: seq<NormalEntry>)
    requires forall e <- es :: Storable(e)
    ensures |AsRaw(es)| == |es| && forall i :: 0 <= i < |es| ==> AsRaw(es)[i] == WriteChunks(es[i])
    ensures forall r <- AsRaw(es) :: IsRaw(r)
  {
    hide WriteChunks, Storable, IsRaw;
    if es != [] {
      assert es[0] in es;
      WrittenIsRaw(es[0]);
      WrittenAre(es[1..]);
    }
  }

  /**
   * Entries that survive being written survive being written as a split archive: each comes
   * back, in its place, with the same header, metadata, extras and data bytes.
   */
  lemma EntriesSurviveSplitArchive(es: seq<NormalEntry>, budget: nat) returns (rs: RawEntries)
    requires forall e <- es :: Storable(e)
    requires BodiesOf(Concat(AsRaw(es)), budget).Ok?
    ensures PartsEntries(ArchiveParts(BodiesOf(Concat(AsRaw(es)), budget).value)) == Ok(rs)
    ensures |rs| == |es| && forall i :: 0 <= i < |es| ==> SameEntry(Ok(es[i]), Parse(rs[i]))
  {
    hide BodiesOf, IsRaw, ArchiveParts, PartsEntries, Parse, ParseSolid, SameEntry,
      SameSolid, Concat, WriteChunks,
      Storable, AsRaw, IsRun, Recut;
    WrittenAre(es);
    rs := SplitArchiveRoundTrip(AsRaw(es), budget);
    forall i | 0 <= i < |es| ensures SameEntry(Ok(es[i]), Parse(rs[i])) {
      assert es[i] in es;
      WrittenIsRun(es[i]);
    }
  }
}
