/** The two iterators over the chunks of an archive, and the offsets of a chunk listing. */
module ChunkIteration {
  import opened Basics
  import opened Octets
  import opened Chunks
  import opened Framing

  type Item = IoResult<RawChunk>

  /** Everything an iterator over `bytes` yields, up to the archive end or the first error. */
  function Items(bytes: Bytes): (items: seq<Item>)
    decreases |bytes|
  {
    match ReadChunk(bytes, U32_MAX)
    case Err(e) => [Err(e)]
    case Ok((c, rest)) => [Ok(c)] + if c.ty == AEND then [] else Items(rest)
  }

  /** What an iterator in a given state will still yield. */
  function Pending(done: bool, bytes: Bytes): seq<Item> {
    if done then [] else Items(bytes)
  }

  /** The iterator of `read_as_chunks`: it owns a reader. */
  class OwnedChunks {
    const reader: Reader
    var done: bool

    constructor (reader: Reader)
      ensures this.reader == reader && !done
    {
      this.reader := reader;
      done := false;
    }

    method Next() returns (item: Option<Item>)
      modifies this, reader
      ensures var before := Pending(old(done), old(reader.rest));
              if before == [] then item == None && done
              else item == Some(before[0]) && Pending(done, reader.rest) == before[1..]
      ensures !done ==> |reader.rest| < |old(reader.rest)|
    {
      if done {
        return None;
      }
      var chunk := IoReadChunk(reader, U32_MAX);
      done := if chunk.Ok? then chunk.value.ty == AEND else true;
      item := Some(chunk);
    }
  }

  /** The iterator of `read_chunks_from_slice`: it keeps the slice not yet read. */
  class SliceChunks {
    var reader: Bytes
    var done: bool

    constructor (archive: Bytes)
      ensures reader == archive && !done
    {
      reader := archive;
      done := false;
    }

    method Next() returns (item: Option<Item>)
      modifies this
      ensures var before := Pending(old(done), old(reader));
              if before == [] then item == None && done
              else item == Some(before[0]) && Pending(done, reader) == before[1..]
      ensures !done ==> |reader| < |old(reader)|
    {
      if done {
        return None;
      }
      match ReadChunk(reader, U32_MAX) {
        case Ok((chunk, bytes)) =>
          done := chunk.ty == AEND;
          reader := bytes;
          item := Some(Ok(chunk));
        case Err(error) =>
          done := true;
          item := Some(Err(error));
      }
    }
  }

  /** The chunks among the items. */
  function ChunksOf(items: seq<Item>): seq<RawChunk> {
    if items == [] then []
    else (if items[0].Ok? then [items[0].value] else []) + ChunksOf(items[1..])
  }

  /** The bytes that the iteration leaves unread. */
  function Unread(bytes: Bytes): Bytes
    decreases |bytes|
  {
    match ReadChunk(bytes, U32_MAX)
    case Err(_) => bytes
    case Ok((c, rest)) => if c.ty == AEND then rest else Unread(rest)
  }

  /** A chunk list up to and including its first archive end. */
  function UpToArchiveEnd(cs: seq<RawChunk>): seq<RawChunk> {
    if cs == [] then [] else [cs[0]] + if cs[0].ty == AEND then [] else UpToArchiveEnd(cs[1..])
  }

  predicate HasArchiveEnd(cs: seq<RawChunk>) {
    cs != [] && (cs[0].ty == AEND || HasArchiveEnd(cs[1..]))
  }

  function AllOk(cs: seq<RawChunk>): seq<Item> {
    if cs == [] then [] else [Ok(cs[0])] + AllOk(cs[1..])
  }

  /**
    * Encoded chunks come back in order up to the first archive end, whatever follows it;
    * with no archive end among them, iteration goes on with the bytes that follow.
    */
  lemma {:induction false} IterationDecodes(cs: seq<RawChunk>, tail: Bytes)
    requires forall c :: c in cs ==> WellFormed(c)
    ensures Items(EncodeAll(cs) + tail) ==
            AllOk(UpToArchiveEnd(cs)) + if HasArchiveEnd(cs) then [] else Items(tail)
  {
    hide ReadChunk, Encode, Items, FromData;
    if cs == [] {
      assert EncodeAll(cs) + tail == tail;
      assert AllOk([]) + Items(tail) == Items(tail);
    } else {
      var c, later := cs[0], UpToArchiveEnd(cs[1..]);
      var rest := EncodeAll(cs[1..]) + tail;
      Assoc(Encode(c), EncodeAll(cs[1..]), tail);
      ItemsStep(c, rest);
      if c.ty == AEND {
        AllOkCons(c, []);
        Assoc([c], [], []);
      } else {
        IterationDecodes(cs[1..], tail);
        AllOkCons(c, later);
        Assoc([Ok(c)], AllOk(later), if HasArchiveEnd(cs[1..]) then [] else Items(tail));
      }
    }
  }

  lemma ItemsStep(c: RawChunk, rest: Bytes)
    requires WellFormed(c)
    ensures Items(Encode(c) + rest) == [Ok(c)] + if c.ty == AEND then [] else Items(rest)
  {
    ReadEncoded(c, rest, U32_MAX);
  }

  lemma AllOkCons(c: RawChunk, cs: seq<RawChunk>)
    ensures AllOk([c] + cs) == [Ok(c)] + AllOk(cs)
  {
    assert ([c] + cs)[1..] == cs;
  }

  /** An archive (signature, chunks, archive end, anything) yields exactly its chunks. */
  lemma ArchiveDecodes(cs: seq<RawChunk>, end: RawChunk, tail: Bytes)
    requires forall c :: c in cs ==> WellFormed(c) && c.ty != AEND
    requires WellFormed(end) && end.ty == AEND
    ensures ReadSignature(PNA_SIGNATURE + EncodeAll(cs + [end]) + tail).Ok?
    ensures Items(ReadSignature(PNA_SIGNATURE + EncodeAll(cs + [end]) + tail).value)
            == AllOk(cs + [end])
  {
    var body := EncodeAll(cs + [end]) + tail;
    var archive := PNA_SIGNATURE + EncodeAll(cs + [end]) + tail;
    assert archive == PNA_SIGNATURE + body;
    assert archive[..8] == PNA_SIGNATURE && archive[8..] == body;
    IterationDecodes(cs + [end], tail);
    UpToFirst(cs, end);
  }

  lemma {:induction false} UpToFirst(cs: seq<RawChunk>, end: RawChunk)
    requires forall c :: c in cs ==> c.ty != AEND
    requires end.ty == AEND
    ensures UpToArchiveEnd(cs + [end]) == cs + [end]
    ensures HasArchiveEnd(cs + [end])
  {
    if cs == [] {
      assert cs + [end] == [end];
    } else {
      UpToFirst(cs[1..], end);
      var all := cs + [end];
      assert all[0] == cs[0] && all[1..] == cs[1..] + [end];
      assert all == [cs[0]] + all[1..];
    }
  }

  /**
    * On arbitrary bytes: the chunks yielded re-encode to exactly the bytes consumed, an
    * error can only be the last item, and the iteration ends within |bytes|/12 + 1 items.
    */
  lemma {:induction false} IterationIsLossless(bytes: Bytes)
    ensures var items := Items(bytes);
            && bytes == EncodeAll(ChunksOf(items)) + Unread(bytes)
            && (forall i :: 0 <= i < |items| - 1 ==> items[i].Ok?)
            && 1 <= |items| <= |bytes| / 12 + 1
    decreases |bytes|
  {
    hide ReadChunk, Encode, FromData;
    var items := Items(bytes);
    match ReadChunk(bytes, U32_MAX)
    case Err(e) =>
      assert items[1..] == [];
      assert EncodeAll(ChunksOf(items)) == [];
    case Ok((c, rest)) =>
      TotalLenOne(c);
      if c.ty == AEND {
        assert items[1..] == [];
        assert ChunksOf(items) == [c];
      } else {
        IterationIsLossless(rest);
        assert items[1..] == Items(rest);
        assert ChunksOf(items)[1..] == ChunksOf(Items(rest));
        assert bytes == Encode(c) + (EncodeAll(ChunksOf(Items(rest))) + Unread(rest));
        assert |bytes| >= 12 + |rest|;
      }
  }

  /**
    * Iteration goes on over every chunk but an archive end, and stops there or at bytes that do
    * not read as a chunk, with the error that they give.
    */
  lemma {:induction false} IterationEnds(bytes: Bytes)
    ensures var items := Items(bytes);
            && items != []
            && (forall i :: 0 <= i < |items| - 1 ==> items[i].Ok? && items[i].value.ty != AEND)
            && var last := items[|items| - 1];
            if last.Ok? then last.value.ty == AEND else ReadChunk(Unread(bytes), U32_MAX) == Err(last.error)
    decreases |bytes|
  {
    hide ReadChunk, Encode, FromData;
    match ReadChunk(bytes, U32_MAX)
    case Err(_) =>
    case Ok((c, rest)) =>
      ReadLeavesLess(bytes, U32_MAX);
      if c.ty != AEND {
        IterationEnds(rest);
        var items := Items(bytes);
        assert items == [Ok(c)] + Items(rest);
        assert items[|items| - 1] == Items(rest)[|Items(rest)| - 1];
      }
  }

  lemma ReadLeavesLess(bytes: Bytes, maxDataLen: U32)
    requires ReadChunk(bytes, maxDataLen).Ok?
    ensures |ReadChunk(bytes, maxDataLen).value.1| < |bytes|
  {
  }

  // ---------------------------------------------------------------- chunk list

  /** One line of the chunk listing. */
  datatype Row = Row(index: nat, ty: ChunkType, length: U32, offset: nat)

  /** The row of a chunk, if the type filters accept it. */
  function RowOf(c: RawChunk, index: nat, offset: nat, wanted: set<ChunkType>,
                 excluded: set<ChunkType>): seq<Row> {
    if (wanted == {} || c.ty in wanted) && c.ty !in excluded
    then [Row(index + 1, c.ty, c.length, offset)] else []
  }

  /** The rows shown for a list of chunks whose first one starts at `offset`. */
  function Rows(cs: seq<RawChunk>, index: nat, offset: nat, wanted: set<ChunkType>,
                excluded: set<ChunkType>): seq<Row> {
    if cs == [] then []
    else RowOf(cs[0], index, offset, wanted, excluded)
         + Rows(cs[1..], index + 1, offset + cs[0].length + MIN_CHUNK_BYTES_SIZE, wanted, excluded)
  }

  /** The rows shown for what an iterator yields: an error discards the table. */
  function ListItems(items: seq<Item>, index: nat, offset: nat, wanted: set<ChunkType>,
                     excluded: set<ChunkType>): IoResult<seq<Row>> {
    if items == [] then Ok([])
    else
      match items[0]
      case Err(e) => Err(e)
      case Ok(c) =>
        var later := ListItems(items[1..], index + 1, offset + c.length + MIN_CHUNK_BYTES_SIZE,
                               wanted, excluded);
        Prepend(RowOf(c, index, offset, wanted, excluded), later)
  }

  function Prepend(rows: seq<Row>, later: IoResult<seq<Row>>): IoResult<seq<Row>> {
    if later.Ok? then Ok(rows + later.value) else later
  }

  lemma PrependNothing(rows: seq<Row>, later: IoResult<seq<Row>>)
    ensures Prepend([], later) == later
    ensures Prepend(rows, Ok([])) == Ok(rows)
  {
    assert rows + [] == rows;
    if later.Ok? {
      assert [] + later.value == later.value;
    }
  }

  lemma PrependTwice(a: seq<Row>, b: seq<Row>, later: IoResult<seq<Row>>)
    ensures Prepend(a, Prepend(b, later)) == Prepend(a + b, later)
  {
    if later.Ok? {
      assert a + (b + later.value) == a + b + later.value;
    }
  }

  function Listing(archive: Bytes, wanted: set<ChunkType>, excluded: set<ChunkType>)
    : IoResult<seq<Row>>
  {
    match ReadSignature(archive)
    case Err(e) => Err(e)
    case Ok(body) => ListItems(Items(body), 0, 8, wanted, excluded)
  }

  /** Listing on from a table: it is done, discarded, or goes on with the next row. */
  lemma ListStep(items: seq<Item>, table: seq<Row>, index: nat, offset: nat, wanted: set<ChunkType>,
                 excluded: set<ChunkType>)
    ensures Prepend(table, ListItems(items, index, offset, wanted, excluded)) ==
            if items == [] then Ok(table)
            else if items[0].Err? then Err(items[0].error)
            else
              var c := items[0].value;
              Prepend(table + RowOf(c, index, offset, wanted, excluded),
                      ListItems(items[1..], index + 1, offset + c.length + MIN_CHUNK_BYTES_SIZE,
                                wanted, excluded))
  {
    hide RowOf, Items;
    if items == [] {
      PrependNothing(table, Ok([]));
    } else if items[0].Ok? {
      var c := items[0].value;
      PrependTwice(table, RowOf(c, index, offset, wanted, excluded),
                   ListItems(items[1..], index + 1, offset + c.length + MIN_CHUNK_BYTES_SIZE,
                             wanted, excluded));
    }
  }

  /** `list_archive_chunks`: runs the owned iterator, counting chunks and bytes. */
  method ListArchiveChunks(archive: Bytes, wanted: set<ChunkType>, excluded: set<ChunkType>)
    returns (r: IoResult<seq<Row>>)
    ensures r == Listing(archive, wanted, excluded)
  {
    hide ReadChunk, Items, ListItems, Prepend;
    var reader := new Reader(archive);
    var signature := IoReadSignature(reader);
    if signature.Err? {
      return Err(signature.error);
    }
    var chunks := new OwnedChunks(reader);
    var table: seq<Row> := [];
    var offset: nat := |PNA_SIGNATURE|;
    var idx: nat := 0;
    PrependNothing(table, Listing(archive, wanted, excluded));
    while true
      invariant chunks.reader == reader && fresh(chunks) && fresh(reader)
      invariant Listing(archive, wanted, excluded) == Prepend(table,
                  ListItems(Pending(chunks.done, reader.rest), idx, offset, wanted, excluded))
      decreases !chunks.done, |reader.rest|
    {
      ghost var before := Pending(chunks.done, reader.rest);
      ListStep(before, table, idx, offset, wanted, excluded);
      var item := chunks.Next();
      if item.None? {
        return Ok(table);
      }
      assert before[1..] == Pending(chunks.done, reader.rest);
      if item.value.Err? {
        return Err(item.value.error);
      }
      var chunk := item.value.value;
      idx := idx + 1;
      if (wanted == {} || chunk.ty in wanted) && chunk.ty !in excluded {
        table := table + [Row(idx, chunk.ty, chunk.length, offset)];
      } else {
        assert table + [] == table;
      }
      offset := offset + chunk.length + MIN_CHUNK_BYTES_SIZE;
    }
  }

  lemma {:induction false} ListItemsShowsChunks(items: seq<Item>, index: nat, offset: nat,
                                                wanted: set<ChunkType>, excluded: set<ChunkType>)
    requires ListItems(items, index, offset, wanted, excluded).Ok?
    ensures ListItems(items, index, offset, wanted, excluded).value
            == Rows(ChunksOf(items), index, offset, wanted, excluded)
  {
    if items != [] {
      var c := items[0].value;
      ListItemsShowsChunks(items[1..], index + 1, offset + c.length + MIN_CHUNK_BYTES_SIZE,
                           wanted, excluded);
      assert ChunksOf(items) == [c] + ChunksOf(items[1..]);
      assert ChunksOf(items)[1..] == ChunksOf(items[1..]);
    }
  }

  /** `row` shows the chunk at position `i` of the list, at its true byte position. */
  predicate Shows(row: Row, cs: seq<RawChunk>, i: nat, index: nat, offset: nat) {
    i < |cs| && row == Row(index + i + 1, cs[i].ty, cs[i].length, offset + TotalLen(cs[..i]))
  }

  ghost predicate IsShown(row: Row, cs: seq<RawChunk>, index: nat, offset: nat) {
    exists i: nat :: Shows(row, cs, i, index, offset)
  }

  lemma ShowsInTail(row: Row, cs: seq<RawChunk>, i: nat, index: nat, offset: nat)
    requires cs != [] && WellFormed(cs[0])
    ensures Shows(row, cs, i + 1, index, offset) <==>
            Shows(row, cs[1..], i, index + 1, offset + cs[0].length + MIN_CHUNK_BYTES_SIZE)
  {
    if i + 1 < |cs| {
      assert cs[..i + 1][1..] == cs[1..][..i];
      assert TotalLen(cs[..i + 1]) == BytesLen(cs[0]) + TotalLen(cs[1..][..i]);
    }
  }

  /** The rows are the accepted chunks, each with the byte position where it really starts. */
  lemma {:induction false} RowsAreChunkPositions(cs: seq<RawChunk>, index: nat, offset: nat,
                              wanted: set<ChunkType>, excluded: set<ChunkType>, row: Row)
    requires forall c :: c in cs ==> WellFormed(c)
    ensures row in Rows(cs, index, offset, wanted, excluded) <==>
            (wanted == {} || row.ty in wanted) && row.ty !in excluded
            && IsShown(row, cs, index, offset)
  {
    hide Rows, RowOf, Shows, WellFormed;
    NoRows(index, offset, wanted, excluded);
    if cs == [] {
      NothingShown(row, index, offset);
    } else {
      var next := offset + cs[0].length + MIN_CHUNK_BYTES_SIZE;
      RowsAreChunkPositions(cs[1..], index + 1, next, wanted, excluded, row);
      RowsStep(cs, index, offset, wanted, excluded, row);
      ShownStep(cs, index, offset, row);
    }
  }

  lemma NoRows(index: nat, offset: nat, wanted: set<ChunkType>, excluded: set<ChunkType>)
    ensures Rows([], index, offset, wanted, excluded) == []
  {
  }

  lemma NothingShown(row: Row, index: nat, offset: nat)
    ensures !IsShown(row, [], index, offset)
  {
  }

  lemma RowsStep(cs: seq<RawChunk>, index: nat, offset: nat, wanted: set<ChunkType>,
                 excluded: set<ChunkType>, row: Row)
    requires cs != []
    ensures row in Rows(cs, index, offset, wanted, excluded) <==>
            ((wanted == {} || row.ty in wanted) && row.ty !in excluded
             && row == Row(index + 1, cs[0].ty, cs[0].length, offset))
            || row in Rows(cs[1..], index + 1, offset + cs[0].length + MIN_CHUNK_BYTES_SIZE, wanted, excluded)
  {
  }

  /** A row shows the first chunk or one of the others. */
  lemma ShownStep(cs: seq<RawChunk>, index: nat, offset: nat, row: Row)
    requires cs != [] && WellFormed(cs[0])
    ensures IsShown(row, cs, index, offset) <==>
            row == Row(index + 1, cs[0].ty, cs[0].length, offset)
            || IsShown(row, cs[1..], index + 1, offset + cs[0].length + MIN_CHUNK_BYTES_SIZE)
  {
    hide Shows, WellFormed;
    var tail, next := cs[1..], offset + cs[0].length + MIN_CHUNK_BYTES_SIZE;
    ShowsFirst(row, cs, index, offset);
    if i: nat :| Shows(row, cs, i, index, offset) && i > 0 {
      ShowsInTail(row, cs, i - 1, index, offset);
      assert Shows(row, tail, i - 1, index + 1, next);
    }
    if IsShown(row, tail, index + 1, next) {
      var i: nat :| Shows(row, tail, i, index + 1, next);
      ShowsInTail(row, cs, i, index, offset);
      assert Shows(row, cs, i + 1, index, offset);
    }
  }

  lemma ShowsFirst(row: Row, cs: seq<RawChunk>, index: nat, offset: nat)
    requires cs != []
    ensures Shows(row, cs, 0, index, offset) <==> row == Row(index + 1, cs[0].ty, cs[0].length, offset)
  {
    assert cs[..0] == [];
  }

  lemma {:induction false} RowsAscend(cs: seq<RawChunk>, index: nat, offset: nat, wanted: set<ChunkType>,
                                      excluded: set<ChunkType>)
    ensures var rows := Rows(cs, index, offset, wanted, excluded);
            && (forall i :: 0 <= i < |rows| ==> rows[i].index > index)
            && (forall i, j :: 0 <= i < j < |rows| ==> rows[i].index < rows[j].index)
  {
    hide RowOf;
    NoRows(index, offset, wanted, excluded);
    if cs != [] {
      var next := offset + cs[0].length + MIN_CHUNK_BYTES_SIZE;
      RowsAscend(cs[1..], index + 1, next, wanted, excluded);
      var rows, later := Rows(cs, index, offset, wanted, excluded), Rows(cs[1..], index + 1, next, wanted, excluded);
      RowsCons(cs, index, offset, wanted, excluded);
      if rows != later {
        assert forall i :: 0 <= i < |rows| ==> if i == 0 then rows[i].index == index + 1 else rows[i] == later[i - 1];
      }
    }
  }

  lemma RowsCons(cs: seq<RawChunk>, index: nat, offset: nat, wanted: set<ChunkType>, excluded: set<ChunkType>)
    requires cs != []
    ensures var rows := Rows(cs, index, offset, wanted, excluded);
            var later := Rows(cs[1..], index + 1, offset + cs[0].length + MIN_CHUNK_BYTES_SIZE, wanted, excluded);
            rows == later || exists row: Row :: row.index == index + 1 && rows == [row] + later
  {
    var later := Rows(cs[1..], index + 1, offset + cs[0].length + MIN_CHUNK_BYTES_SIZE, wanted, excluded);
    assert [] + later == later;
  }

  /** A listing shows its table unless an item is an error; that is then the listing's. */
  lemma {:induction false} ListItemsVerdict(items: seq<Item>, index: nat, offset: nat, wanted: set<ChunkType>,
                                            excluded: set<ChunkType>)
    requires items != [] && forall i :: 0 <= i < |items| - 1 ==> items[i].Ok?
    ensures var last := items[|items| - 1];
            if last.Ok? then ListItems(items, index, offset, wanted, excluded).Ok?
            else ListItems(items, index, offset, wanted, excluded) == Err(last.error)
  {
    hide RowOf;
    if items[0].Ok? {
      var next := offset + items[0].value.length + MIN_CHUNK_BYTES_SIZE;
      if |items| > 1 {
        forall i | 0 <= i < |items[1..]| - 1 ensures items[1..][i].Ok? {
          assert items[1..][i] == items[i + 1];
        }
        ListItemsVerdict(items[1..], index + 1, next, wanted, excluded);
      } else {
        assert ListItems(items[1..], index + 1, next, wanted, excluded) == Ok([]);
      }
    }
  }

  /**
    * A listing is refused for its signature, or else for bytes that do not read as a chunk with
    * no archive end before them. Otherwise it shows exactly the accepted chunks, in order.
    */
  lemma ListingVerdict(archive: Bytes, wanted: set<ChunkType>, excluded: set<ChunkType>)
    ensures var listing, body := Listing(archive, wanted, excluded), ReadSignature(archive);
            if body.Err? then listing == Err(body.error)
            else
              var items := Items(body.value);
              var last := items[|items| - 1];
              if last.Err? then listing == Err(last.error)
              else listing.Ok? && ShowsAccepted(listing.value, ChunksOf(items), wanted, excluded)
  {
    hide ReadChunk, Encode, FromData, Items, ChunksOf, Rows, ListItems, WellFormed, IsShown;
    var body := ReadSignature(archive);
    if body.Ok? {
      var items := Items(body.value);
      var cs := ChunksOf(items);
      IterationEnds(body.value);
      ListItemsVerdict(items, 0, 8, wanted, excluded);
      if items[|items| - 1].Ok? {
        ListItemsShowsChunks(items, 0, 8, wanted, excluded);
        RowsAscend(cs, 0, 8, wanted, excluded);
        ChunksAreWellFormed(body.value);
        forall row {
          RowsAreChunkPositions(cs, 0, 8, wanted, excluded, row);
        }
      }
    }
  }

  /** The rows are those of the accepted chunks, each once and in order. */
  ghost predicate ShowsAccepted(rows: seq<Row>, cs: seq<RawChunk>, wanted: set<ChunkType>, excluded: set<ChunkType>) {
    && (forall i, j :: 0 <= i < j < |rows| ==> rows[i].index < rows[j].index)
    && (forall row :: row in rows <==>
          (wanted == {} || row.ty in wanted) && row.ty !in excluded && IsShown(row, cs, 0, 8))
  }

  /** The archive holds a well-formed chunk of the row's type and size at the row's offset. */
  ghost predicate PointsAtChunk(row: Row, archive: Bytes, c: RawChunk) {
    && WellFormed(c) && c.ty == row.ty && c.length == row.length
    && row.offset + BytesLen(c) <= |archive|
    && archive[row.offset..row.offset + BytesLen(c)] == Encode(c)
  }

  /** In a listing that succeeds, every row's offset is where its chunk starts in the file. */
  lemma ListedOffsetsAreTrue(archive: Bytes, wanted: set<ChunkType>, excluded: set<ChunkType>,
                             row: Row)
    requires Listing(archive, wanted, excluded).Ok?
    requires row in Listing(archive, wanted, excluded).value
    ensures exists c :: PointsAtChunk(row, archive, c)
  {
    hide ReadChunk, Encode, FromData, Items, ChunksOf, EncodeAll, TotalLen, Rows, ListItems, Unread, WellFormed;
    var body := archive[8..];
    var cs := ChunksOf(Items(body));
    ListItemsShowsChunks(Items(body), 0, 8, wanted, excluded);
    ChunksAreWellFormed(body);
    RowsAreChunkPositions(cs, 0, 8, wanted, excluded, row);
    var i: nat :| Shows(row, cs, i, 0, 8);
    IterationIsLossless(body);
    EncodedAt(cs, i);
    AtOffset(archive, EncodeAll(cs), TotalLen(cs[..i]), BytesLen(cs[i]));
    assert PointsAtChunk(row, archive, cs[i]);
  }

  lemma AtOffset(archive: Bytes, encoded: Bytes, start: nat, len: nat)
    requires |archive| >= 8 + |encoded| && archive[8..][..|encoded|] == encoded
    requires start + len <= |encoded|
    ensures archive[8 + start..8 + start + len] == encoded[start..start + len]
  {
    assert archive[8..][..|encoded|][start..start + len] == archive[8 + start..8 + start + len];
  }

  /** The encoding of a list holds each chunk's encoding where the sizes before it say. */
  lemma {:induction false} EncodedAt(cs: seq<RawChunk>, i: nat)
    requires i < |cs|
    ensures TotalLen(cs[..i]) + BytesLen(cs[i]) <= |EncodeAll(cs)|
    ensures EncodeAll(cs)[TotalLen(cs[..i])..TotalLen(cs[..i]) + BytesLen(cs[i])] == Encode(cs[i])
  {
    if i > 0 {
      EncodedAt(cs[1..], i - 1);
      assert cs[..i][1..] == cs[1..][..i - 1];
    }
  }

  lemma {:induction false} ChunksAreWellFormed(bytes: Bytes)
    ensures forall c :: c in ChunksOf(Items(bytes)) ==> WellFormed(c)
    decreases |bytes|
  {
    hide ReadChunk, Encode, FromData;
    var items := Items(bytes);
    match ReadChunk(bytes, U32_MAX)
    case Err(_) =>
      assert items[1..] == [];
    case Ok((c, rest)) =>
      if c.ty == AEND {
        assert items[1..] == [];
      } else {
        ChunksAreWellFormed(rest);
        assert items[1..] == Items(rest);
      }
  }
}
