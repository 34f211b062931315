/** Reading entries one after another from the decoded bytes of a solid entry. */
module SolidStream {
  import opened Basics
  import opened Octets
  import opened Chunks
  import opened Framing
  import opened Entries
  import opened EntryMeaning
  import opened EntryWriting
  import opened EntryRoundTrip

  // ---------------------------------------------------------------- one entry

  /** What one call of the iterator comes to. */
  datatype Next =
    | Finished
    | Broken(error: ErrorKind)
    | Parsed(entry: IoResult<NormalEntry>, rest: Bytes)

  /** The next entry, given the chunks of it already read. */
  function NextEntry(chunks: seq<RawChunk>, bytes: Bytes): (next: Next)
    ensures next.Parsed? ==> |next.rest| < |bytes|
    decreases |bytes|
  {
    match ReadChunk(bytes, U32_MAX)
    case Err(e) => if e == UnexpectedEof && chunks == [] then Finished else Broken(e)
    case Ok((c, rest)) =>
      if c.ty == FEND then Parsed(Parse(chunks + [c]), rest) else NextEntry(chunks + [c], rest)
  }

  /** `read_next_normal_entry_from_stream`: chunks up to an end chunk, then parsed. */
  method ReadNextNormalEntry(reader: Reader) returns (item: Option<IoResult<NormalEntry>>)
    modifies reader
    ensures match NextEntry([], old(reader.rest))
            case Finished => item == None
            case Broken(e) => item == Some(Err(e))
            case Parsed(entry, rest) => item == Some(entry) && reader.rest == rest
  {
    hide ReadChunk, Parse;
    var chunks: seq<RawChunk> := [];
    while true
      invariant NextEntry(chunks, reader.rest) == NextEntry([], old(reader.rest))
      decreases |reader.rest|
    {
      ghost var before := reader.rest;
      var chunk := IoReadChunk(reader, U32_MAX);
      match chunk {
        case Ok(c) =>
          chunks := chunks + [c];
          ReadShortens(before);
          if c.ty == FEND {
            break;
          }
        case Err(e) =>
          if e == UnexpectedEof {
            return if chunks == [] then None else Some(Err(e));
          }
          return Some(Err(e));
      }
    }
    var entry := ParseChunks(chunks);
    item := Some(entry);
  }

  lemma ReadShortens(bytes: Bytes)
    requires ReadChunk(bytes, U32_MAX).Ok?
    ensures |ReadChunk(bytes, U32_MAX).value.1| < |bytes|
  {
  }

  /** The chunks of one entry: none of them an end chunk but the last. */
  ghost predicate IsRun(run: seq<RawChunk>) {
    && run != [] && run[|run| - 1].ty == FEND
    && forall i :: 0 <= i < |run| ==> WellFormed(run[i]) && (i < |run| - 1 ==> run[i].ty != FEND)
  }

  lemma RunTail(run: seq<RawChunk>)
    requires IsRun(run) && run[0].ty != FEND
    ensures IsRun(run[1..])
  {
    hide WellFormed;
    assert run[1..][|run| - 2] == run[|run| - 1];
  }

  /** A whole run is read and parsed, leaving what follows it. */
  lemma {:induction false} WholeRun(chunks: seq<RawChunk>, run: seq<RawChunk>, rest: Bytes)
    requires IsRun(run)
    ensures NextEntry(chunks, EncodeAll(run) + rest) == Parsed(Parse(chunks + run), rest)
    decreases |run|
  {
    hide ReadChunk, Parse, Encode, FromData, IsValidType;
    var c, later := run[0], run[1..];
    Assoc(Encode(c), EncodeAll(later), rest);
    ReadEncoded(c, EncodeAll(later) + rest, U32_MAX);
    if c.ty == FEND {
      assert |run| == 1;
      assert run == [c];
      assert EncodeAll(later) + rest == rest;
    } else {
      RunTail(run);
      WholeRun(chunks + [c], later, rest);
      assert chunks + [c] + later == chunks + run;
    }
  }

  /**
    * A run cut short anywhere: the iterator ends quietly when the cut is inside the first
    * chunk of the entry, and reports an unexpected end of input otherwise.
    */
  lemma {:induction false} CutRun(chunks: seq<RawChunk>, run: seq<RawChunk>, cut: nat)
    requires IsRun(run) && cut < |EncodeAll(run)|
    ensures NextEntry(chunks, EncodeAll(run)[..cut])
            == if chunks == [] && cut < BytesLen(run[0]) then Finished else Broken(UnexpectedEof)
    decreases |run|
  {
    hide ReadChunk, Parse, Encode, FromData, IsValidType;
    var c, later := run[0], run[1..];
    if cut < BytesLen(c) {
      assert EncodeAll(run)[..cut] == Encode(c)[..cut];
      ReadTruncated(c, cut);
    } else {
      var rest := EncodeAll(later)[..cut - BytesLen(c)];
      assert EncodeAll(run)[..cut] == Encode(c) + rest;
      ReadEncoded(c, rest, U32_MAX);
      assert |run| == 1 ==> EncodeAll(later) == [];
      RunTail(run);
      CutRun(chunks + [c], later, cut - BytesLen(c));
    }
  }

  // ---------------------------------------------------------------- a stream of entries

  /** The entries read before the iterator ends, and the error it ends with, if any. */
  function Drain(bytes: Bytes): (seq<NormalEntry>, Option<ErrorKind>)
    decreases |bytes|
  {
    match NextEntry([], bytes)
    case Finished => ([], None)
    case Broken(e) => ([], Some(e))
    case Parsed(Err(e), _) => ([], Some(e))
    case Parsed(Ok(entry), rest) =>
      var (entries, ending) := Drain(rest);
      ([entry] + entries, ending)
  }

  /** An entry that survives being written and whose chunks a reader accepts. */
  ghost predicate Storable(e: NormalEntry) {
    Survives(e) && forall i :: 0 <= i < |WriteChunks(e)| ==> WellFormed(WriteChunks(e)[i])
  }

  function EntryBytes(e: NormalEntry): Bytes {
    EncodeAll(WriteChunks(e))
  }

  function StreamBytes(es: seq<NormalEntry>): Bytes {
    if es == [] then [] else EntryBytes(es[0]) + StreamBytes(es[1..])
  }

  /** The size of the header chunk of an entry's encoding. */
  function HeadLen(e: NormalEntry): nat {
    BytesLen(WriteChunks(e)[0])
  }

  lemma WrittenIsRun(e: NormalEntry)
    requires Storable(e)
    ensures IsRun(WriteChunks(e)) && Parse(WriteChunks(e)) == Ok(e)
  {
    hide Contents, WellFormed, FieldOf, IsCritical, Parse, HeaderBytes;
    RoundTripIff(e);
    EndIsClaimed();
    assert !HasEnd(e.extra);
    ContentsEndIff(e);
  }

  lemma NextWhole(e: NormalEntry, rest: Bytes)
    requires Storable(e)
    ensures NextEntry([], EntryBytes(e) + rest) == Parsed(Ok(e), rest)
  {
    hide NextEntry, Parse, Storable, WriteChunks, IsRun;
    WrittenIsRun(e);
    WholeRun([], WriteChunks(e), rest);
    assert [] + WriteChunks(e) == WriteChunks(e);
  }

  lemma NextCut(e: NormalEntry, cut: nat)
    requires Storable(e) && cut < |EntryBytes(e)|
    ensures NextEntry([], EntryBytes(e)[..cut])
            == if cut < HeadLen(e) then Finished else Broken(UnexpectedEof)
  {
    hide NextEntry, Parse, Storable, IsRun, Contents;
    WrittenIsRun(e);
    CutRun([], WriteChunks(e), cut);
  }

  /** A cut point falls after `k` whole entries and before the end of the next, if any. */
  ghost predicate CutFallsAfter(es: seq<NormalEntry>, cut: nat, k: nat) {
    && k <= |es|
    && |StreamBytes(es[..k])| <= cut
    && (if k < |es| then cut < |StreamBytes(es[..k])| + |EntryBytes(es[k])|
        else cut == |StreamBytes(es)|)
  }

  /**
    * Truncation, exactly. Cut the concatenated encodings anywhere: the iterator yields just
    * the entries that end at or before the cut. Then it ends quietly if the cut is at an entry
    * boundary or inside the next entry's header chunk, and with an unexpected end otherwise.
    */
  lemma {:induction false} TruncatedStream(es: seq<NormalEntry>, cut: nat) returns (k: nat)
    requires forall e <- es :: Storable(e)
    requires cut <= |StreamBytes(es)|
    ensures CutFallsAfter(es, cut, k)
    ensures Drain(StreamBytes(es)[..cut]) ==
            (es[..k],
             if k == |es| || cut - |StreamBytes(es[..k])| < HeadLen(es[k]) then None
             else Some(UnexpectedEof))
    decreases |es|
  {
    hide NextEntry, EntryBytes, Storable, HeadLen, Survives;
    var bytes := StreamBytes(es)[..cut];
    if es == [] {
      k := 0;
      NothingLeft();
      assert bytes == [] && es[..k] == [];
    } else if cut < |EntryBytes(es[0])| {
      k := 0;
      assert es[0] in es && es[..0] == [];
      assert bytes == EntryBytes(es[0])[..cut];
      NextCut(es[0], cut);
    } else {
      var rest := StreamBytes(es[1..])[..cut - |EntryBytes(es[0])|];
      assert es[0] in es && bytes == EntryBytes(es[0]) + rest;
      NextWhole(es[0], rest);
      var j := TruncatedStream(es[1..], cut - |EntryBytes(es[0])|);
      k := j + 1;
      StreamTake(es, k);
      if k < |es| {
        assert es[1..][k - 1] == es[k];
      }
      assert es[..k] == [es[0]] + es[1..][..k - 1];
    }
  }

  lemma StreamTake(es: seq<NormalEntry>, k: nat)
    requires 0 < k <= |es|
    ensures |StreamBytes(es[..k])| == |EntryBytes(es[0])| + |StreamBytes(es[1..][..k - 1])|
  {
    hide EntryBytes;
    assert es[..k][1..] == es[1..][..k - 1];
  }

  lemma NothingLeft()
    ensures NextEntry([], []) == Finished
  {
  }

  /** Uncut, the stream gives back every entry. */
  lemma {:induction false} WholeStream(es: seq<NormalEntry>)
    requires forall e <- es :: Storable(e)
    ensures Drain(StreamBytes(es)) == (es, None)
  {
    hide NextEntry, EntryBytes, Storable;
    if es == [] {
      NothingLeft();
    } else {
      assert es[0] in es && es == [es[0]] + es[1..];
      NextWhole(es[0], StreamBytes(es[1..]));
      WholeStream(es[1..]);
    }
  }

  // ---------------------------------------------------------------- any stream at all

  /** Well-formed chunks, none of which ends an entry. */
  ghost predicate IsOpenRun(cs: seq<RawChunk>) {
    forall c <- cs :: WellFormed(c) && c.ty != FEND
  }

  /**
    * One call on arbitrary bytes: the chunks up to an end chunk are parsed; without one, what
    * reads as no chunk decides, and is an end only if it is the input's and no chunk was read.
    */
  lemma {:induction false} NextMeans(chunks: seq<RawChunk>, bytes: Bytes)
    returns (read: seq<RawChunk>, rest: Bytes)
    ensures bytes == EncodeAll(read) + rest
    ensures match NextEntry(chunks, bytes)
            case Parsed(entry, after) => IsRun(read) && rest == after && entry == Parse(chunks + read)
            case Finished => chunks == read == [] && ReadChunk(rest, U32_MAX) == Err(UnexpectedEof)
            case Broken(e) =>
              IsOpenRun(read) && ReadChunk(rest, U32_MAX) == Err(e) && (chunks == read == [] ==> e != UnexpectedEof)
    decreases |bytes|
  {
    hide ReadChunk, Parse, Encode, WellFormed;
    var first := ReadChunk(bytes, U32_MAX);
    if first.Err? {
      read, rest := [], bytes;
      assert EncodeAll([]) + bytes == bytes;
    } else {
      var (c, later) := first.value;
      if c.ty == FEND {
        read, rest := [c], later;
        TotalLenOne(c);
      } else {
        ReadShortens(bytes);
        var more: seq<RawChunk>;
        more, rest := NextMeans(chunks + [c], later);
        read := [c] + more;
        assert read[1..] == more && chunks + [c] + more == chunks + read;
        Assoc(Encode(c), EncodeAll(more), rest);
        RunCons(c, more);
      }
    }
  }

  lemma RunCons(c: RawChunk, run: seq<RawChunk>)
    requires WellFormed(c) && c.ty != FEND
    ensures IsRun(run) ==> IsRun([c] + run)
    ensures IsOpenRun(run) ==> IsOpenRun([c] + run)
  {
    hide WellFormed;
  }

  /**
    * Draining arbitrary bytes: they are whole runs, the chunks of one more, and bytes that begin
    * no chunk. Every run yields the entry that it parses to. The stream ends quietly only if the
    * input ends where an entry would begin; otherwise the error is that of the first run that
    * does not parse, or of the bytes that could not be read.
    */
  lemma {:induction false} DrainMeans(bytes: Bytes)
    returns (runs: seq<seq<RawChunk>>, open: seq<RawChunk>, rest: Bytes)
    ensures bytes == EncodeAll(Concat(runs)) + (EncodeAll(open) + rest)
    ensures (forall r <- runs :: IsRun(r)) && IsOpenRun(open)
    ensures var (es, ending) := Drain(bytes);
            && |es| <= |runs| && (forall i :: 0 <= i < |es| ==> Parse(runs[i]) == Ok(es[i]))
            && match ending
               case None => |runs| == |es| && open == [] && ReadChunk(rest, U32_MAX) == Err(UnexpectedEof)
               case Some(e) =>
                 (|runs| == |es| + 1 && open == [] && Parse(runs[|es|]) == Err(e)) ||
                 (|runs| == |es| && ReadChunk(rest, U32_MAX) == Err(e) && (open == [] ==> e != UnexpectedEof))
    decreases |bytes|
  {
    hide ReadChunk, Parse, NextEntry, IsRun, IsOpenRun, EncodeAll;
    var read, after := NextMeans([], bytes);
    assert [] + read == read;
    NoBytes();
    match NextEntry([], bytes)
    case Finished => runs, open, rest := [], [], after;
    case Broken(_) => runs, open, rest := [], read, after;
    case Parsed(Err(_), _) =>
      runs, open, rest := [read], [], after;
      ConcatOne(read);
    case Parsed(Ok(entry), _) =>
      DrainShrinks(bytes);
      var more: seq<seq<RawChunk>>;
      more, open, rest := DrainMeans(after);
      runs := [read] + more;
      assert runs[1..] == more;
      EncodeAllAppend(read, Concat(more));
      Assoc(EncodeAll(read), EncodeAll(Concat(more)), EncodeAll(open) + rest);
  }

  lemma NoBytes()
    ensures EncodeAll([]) == [] && Concat<RawChunk>([]) == [] && IsOpenRun([])
    ensures forall s: Bytes :: [] + s == s
  {
    assert forall s: Bytes :: [] + s == s;
  }

  lemma DrainShrinks(bytes: Bytes)
    ensures NextEntry([], bytes).Parsed? ==> |NextEntry([], bytes).rest| < |bytes|
  {
  }

  /** Entries in front of a stream come out first, and the rest of it as if it stood alone. */
  lemma {:induction false} DrainAfter(es: seq<NormalEntry>, bytes: Bytes)
    requires forall e <- es :: Storable(e)
    ensures Drain(StreamBytes(es) + bytes) == (es + Drain(bytes).0, Drain(bytes).1)
  {
    hide NextEntry, EntryBytes, Storable;
    if es == [] {
      assert StreamBytes(es) + bytes == bytes && es + Drain(bytes).0 == Drain(bytes).0;
    } else {
      assert es[0] in es && es == [es[0]] + es[1..];
      Assoc(EntryBytes(es[0]), StreamBytes(es[1..]), bytes);
      NextWhole(es[0], StreamBytes(es[1..]) + bytes);
      DrainAfter(es[1..], bytes);
      Assoc([es[0]], es[1..], Drain(bytes).0);
    }
  }

  lemma {:induction false} NextCorrupted(chunks: seq<RawChunk>, open: seq<RawChunk>, bad: RawChunk, rest: Bytes)
    requires IsOpenRun(open) && IsCorrupted(bad)
    ensures NextEntry(chunks, EncodeAll(open) + (Encode(bad) + rest)) == Broken(InvalidData)
    decreases |open|
  {
    hide ReadChunk, Parse, Encode, WellFormed, IsCorrupted;
    if open == [] {
      assert EncodeAll(open) + (Encode(bad) + rest) == Encode(bad) + rest;
      ReadCorrupted(bad, rest, U32_MAX);
    } else {
      var c, later := open[0], open[1..];
      assert c in open && forall x <- later :: x in open;
      Assoc(Encode(c), EncodeAll(later), Encode(bad) + rest);
      LengthFits(c);
      ReadEncoded(c, EncodeAll(later) + (Encode(bad) + rest), U32_MAX);
      NextCorrupted(chunks + [c], later, bad, rest);
    }
  }

  lemma LengthFits(c: RawChunk)
    requires WellFormed(c)
    ensures |c.data| <= U32_MAX
  {
  }

  /**
    * A corrupted chunk never goes unnoticed, not even where an entry would begin: the entries
    * before the one it is in come out, and then invalid data is reported.
    */
  lemma CorruptedStream(es: seq<NormalEntry>, open: seq<RawChunk>, bad: RawChunk, rest: Bytes)
    requires (forall e <- es :: Storable(e)) && IsOpenRun(open) && IsCorrupted(bad)
    ensures Drain(StreamBytes(es) + (EncodeAll(open) + (Encode(bad) + rest))) == (es, Some(InvalidData))
  {
    hide NextEntry, Storable, IsOpenRun, IsCorrupted, Encode;
    var bytes := EncodeAll(open) + (Encode(bad) + rest);
    DrainAfter(es, bytes);
    NextCorrupted([], open, bad, rest);
    assert es + [] == es;
  }
}
