/** Writing an archive as a sequence of parts of a bounded size. */
module SplitArchive {
  import opened Basics
  import opened Octets
  import opened Chunks
  import opened Framing
  import opened Splitting
  import opened SplitMeaning

  const AHED := ChunkType(0x41, 0x48, 0x45, 0x44)
  const ANXT := ChunkType(0x41, 0x4E, 0x58, 0x54)

  /** Signature and `AHED` chunk: 8 + 12 + 8. */
  const PART_HEADER_BYTES := 28

  /** What every part sets aside: its header, `ANXT` and `AEND`. */
  const SPLIT_ARCHIVE_OVERHEAD_BYTES := PART_HEADER_BYTES + 2 * MIN_CHUNK_BYTES_SIZE

  const MIN_SPLIT_PART_BYTES := SPLIT_ARCHIVE_OVERHEAD_BYTES + MIN_CHUNK_BYTES_SIZE

  datatype SplitError = PartsTooSmall | ChunkDoesNotFit | TooManyParts

  // ---------------------------------------------------------------- what goes where

  /** The chunks of each part between its header and its closing chunks; the last part is open. */
  type Bodies = seq<seq<RawChunk>>

  ghost predicate AllFit(bodies: Bodies, budget: nat) {
    bodies != [] && forall b <- bodies :: TotalLen(b) <= budget
  }

  function Last(bodies: Bodies): seq<RawChunk>
    requires bodies != []
  {
    bodies[|bodies| - 1]
  }

  /** What is left of the open part's budget. */
  function Room(bodies: Bodies, budget: nat): int
    requires bodies != []
  {
    budget - TotalLen(Last(bodies))
  }

  function AddLast(bodies: Bodies, c: RawChunk): Bodies
    requires bodies != []
  {
    bodies[|bodies| - 1 := Last(bodies) + [c]]
  }

  /** The size of all the chunks in the parts. */
  function Written(bodies: Bodies): nat {
    TotalLen(Concat(bodies))
  }

  type Placing = Result<Bodies, SplitError>

  /** A new part, unless its number would not fit in 32 bits. */
  function Opened(bodies: Bodies): (r: Placing)
    ensures r.Ok? ==> |r.value| <= U32_MAX
  {
    if |bodies| >= U32_MAX then Err(TooManyParts) else Ok(bodies + [[]])
  }

  /** `put_stream`: cut at the budget's end, go on in the next part. */
  function PutStream(bodies: Bodies, ty: ChunkType, data: Bytes, budget: nat): (r: Placing)
    requires bodies != []
    ensures r.Ok? ==> r.value != [] && (|bodies| <= U32_MAX ==> |r.value| <= U32_MAX)
    ensures r.Err? ==> r.error != PartsTooSmall
    decreases |data|, if Room(bodies, budget) > MIN_CHUNK_BYTES_SIZE then 0 else 1
  {
    var room := Room(bodies, budget);
    if MIN_CHUNK_BYTES_SIZE + |data| <= room then Ok(AddLast(bodies, FromData(ty, data)))
    else if room > MIN_CHUNK_BYTES_SIZE then
      var take := room - MIN_CHUNK_BYTES_SIZE;
      var next :- Opened(AddLast(bodies, FromData(ty, data[..take])));
      PutStream(next, ty, data[take..], budget)
    else if budget <= MIN_CHUNK_BYTES_SIZE then Err(ChunkDoesNotFit)
    else
      var next :- Opened(bodies);
      assert Last(next) == [] && Room(next, budget) == budget;
      PutStream(next, ty, data, budget)
  }

  /** `put_chunk`. */
  function Put(bodies: Bodies, c: RawChunk, budget: nat): (r: Placing)
    requires bodies != []
    ensures r.Ok? ==> r.value != [] && (|bodies| <= U32_MAX ==> |r.value| <= U32_MAX)
    ensures r.Err? ==> r.error != PartsTooSmall
  {
    var room := Room(bodies, budget);
    if BytesLen(c) <= room then Ok(AddLast(bodies, c))
    else if !IsStream(c.ty) then
      if BytesLen(c) > budget then Err(ChunkDoesNotFit)
      else
        var next :- Opened(bodies);
        Ok(AddLast(next, c))
    else if BytesLen(c) <= budget && room <= MIN_CHUNK_BYTES_SIZE then
      var next :- Opened(bodies);
      Ok(AddLast(next, c))
    else PutStream(bodies, c.ty, c.data, budget)
  }

  /** Every chunk in turn. */
  function PutAll(bodies: Bodies, cs: seq<RawChunk>, budget: nat): (r: Placing)
    requires bodies != []
    ensures r.Ok? ==> r.value != [] && (|bodies| <= U32_MAX ==> |r.value| <= U32_MAX)
    ensures r.Err? ==> r.error != PartsTooSmall
    decreases |cs|
  {
    if cs == [] then Ok(bodies)
    else
      var next :- Put(bodies, cs[0], budget);
      PutAll(next, cs[1..], budget)
  }

  // ---------------------------------------------------------------- the bytes of a part

  /** The `AHED` body of version 0.0: two version bytes, two unused ones, and the part number. */
  function HeaderChunk(number: U32): RawChunk {
    FromData(AHED, [0, 0, 0, 0] + U32Bytes(number))
  }

  function Opening(number: U32): (s: Bytes)
    ensures |s| == PART_HEADER_BYTES
  {
    PNA_SIGNATURE + Encode(HeaderChunk(number))
  }

  function Closing(last: bool): seq<RawChunk> {
    if last then [FromData(AEND, [])] else [FromData(ANXT, []), FromData(AEND, [])]
  }

  function PartBytes(number: U32, body: seq<RawChunk>, last: bool): Bytes {
    Opening(number) + EncodeAll(body + Closing(last))
  }

  // ---------------------------------------------------------------- the sink

  method OpenPart(number: U32) returns (w: Writer)
    ensures fresh(w) && w.written == Opening(number)
  {
    w := new Writer();
    w.WriteAll(PNA_SIGNATURE);
    var n := WriteChunk(w, HeaderChunk(number));
  }

  class SplitParts {
    var current: Writer
    var parts: U32
    const chunkBudget: nat
    var remaining: nat
    /** What has been closed: the bytes of the writers that were let go. */
    ghost var closed: seq<Bytes>
    ghost var bodies: Bodies

    ghost predicate Valid()
      reads this, current
    {
      |bodies| == parts && bodies != [] && |closed| == parts - 1 && AllFit(bodies, chunkBudget) &&
      remaining == Room(bodies, chunkBudget) &&
      current.written == Opening(parts - 1) + EncodeAll(Last(bodies)) &&
      forall i :: 0 <= i < |closed| ==> closed[i] == PartBytes(i, bodies[i], false)
    }

    constructor (maxPartBytes: nat)
      requires maxPartBytes >= MIN_SPLIT_PART_BYTES
      ensures Valid() && fresh(current) && bodies == [[]]
      ensures chunkBudget == maxPartBytes - SPLIT_ARCHIVE_OVERHEAD_BYTES
    {
      hide Opening, EncodeAll, TotalLen;
      parts, remaining := 1, maxPartBytes - SPLIT_ARCHIVE_OVERHEAD_BYTES;
      chunkBudget := maxPartBytes - SPLIT_ARCHIVE_OVERHEAD_BYTES;
      closed, bodies := [], [[]];
      var first := OpenPart(0);
      current := first;
      new;
      EmptyBody();
    }

    /** `roll_over`. */
    method RollOver() returns (r: Result<(), SplitError>)
      requires Valid()
      modifies this, current
      ensures Opened(old(bodies)).Err? ==> r == Err(Opened(old(bodies)).error)
      ensures Opened(old(bodies)).Ok? ==> r.Ok? && Valid() && fresh(current) && bodies == Opened(old(bodies)).value
      ensures r.Ok? ==> remaining == chunkBudget == Room(bodies, chunkBudget) && Written(bodies) == Written(old(bodies))
    {
      hide Opening, EncodeAll, TotalLen, AllFit, PartBytes, FromData, Encode, Written;
      WrittenAfter(bodies, FromData(AEND, []));
      if parts == U32_MAX {
        return Err(TooManyParts);
      }
      ghost var body := Last(bodies);
      var n := WriteChunk(current, FromData(ANXT, []));
      var m := WriteChunk(current, FromData(AEND, []));
      ClosedBytes(parts - 1, body, false);
      var next := OpenPart(parts);
      closed := closed + [current.written];
      FitsAfter(bodies, FromData(AEND, []), chunkBudget);
      bodies := bodies + [[]];
      EmptyBody();
      current, parts, remaining := next, parts + 1, chunkBudget;
      return Ok(());
    }

    /** `write_chunk_value`: what is written is debited. */
    method WriteChunkValue(c: RawChunk) returns (written: nat)
      requires Valid() && BytesLen(c) <= remaining
      modifies this, current
      ensures Valid() && current == old(current) && bodies == AddLast(old(bodies), c) && written == BytesLen(c)
      ensures remaining == Room(bodies, chunkBudget) && Written(bodies) == Written(old(bodies)) + written
    {
      hide Opening, Written;
      WrittenAfter(bodies, c);
      AddedLen(bodies, c);
      Assoc(Opening(parts - 1), EncodeAll(Last(bodies)), Encode(c));
      written := WriteChunk(current, c);
      remaining := remaining - written;
      bodies := AddLast(bodies, c);
    }

    lemma Consistent()
      requires Valid()
      ensures 0 < |bodies| <= U32_MAX && remaining == Room(bodies, chunkBudget)
    {
    }

    /** `put_stream`; on success the count is what was written in all. */
    method PutStreamData(ty: ChunkType, all: Bytes) returns (r: Result<nat, SplitError>)
      requires Valid()
      modifies this, current
      ensures var placing := PutStream(old(bodies), ty, all, chunkBudget);
        if placing.Err? then r == Err(placing.error)
        else r.Ok? && Valid() && (current == old(current) || fresh(current)) && bodies == placing.value
      ensures r.Ok? ==> Written(bodies) == Written(old(bodies)) + r.value
    {
      hide Valid, TotalLen, Room, AddLast, Written;
      Consistent();
      var data, total := all, 0;
      while true
        invariant Valid() && (current == old(current) || fresh(current))
        invariant bodies != [] && remaining == Room(bodies, chunkBudget)
        invariant Written(bodies) == Written(old(bodies)) + total
        invariant PutStream(old(bodies), ty, all, chunkBudget) == PutStream(bodies, ty, data, chunkBudget)
        decreases |data|, if remaining > MIN_CHUNK_BYTES_SIZE then 0 else 1
      {
        var chunkLen := MIN_CHUNK_BYTES_SIZE + |data|;
        if chunkLen <= remaining {
          var n := WriteChunkValue(FromData(ty, data));
          return Ok(total + n);
        }
        if remaining > MIN_CHUNK_BYTES_SIZE {
          var take := remaining - MIN_CHUNK_BYTES_SIZE;
          var n := WriteChunkValue(FromData(ty, data[..take]));
          total := total + n;
          data := data[take..];
        } else if chunkBudget <= MIN_CHUNK_BYTES_SIZE {
          return Err(ChunkDoesNotFit);
        }
        var rolled := RollOver();
        if rolled.Err? {
          return Err(rolled.error);
        }
      }
    }

    /** `put_chunk`. */
    method PutChunk(c: RawChunk) returns (r: Result<nat, SplitError>)
      requires Valid()
      modifies this, current
      ensures var placing := Put(old(bodies), c, chunkBudget);
        if placing.Err? then r == Err(placing.error)
        else r.Ok? && Valid() && (current == old(current) || fresh(current)) && bodies == placing.value
      ensures r.Ok? ==> Written(bodies) == Written(old(bodies)) + r.value
    {
      hide PutStream, TotalLen, Valid, Room, AddLast, Written;
      Consistent();
      var chunkLen := BytesLen(c);
      if chunkLen <= remaining {
        var n := WriteChunkValue(c);
        return Ok(n);
      }
      if !IsStream(c.ty) {
        if chunkLen > chunkBudget {
          return Err(ChunkDoesNotFit);
        }
        var rolled := RollOver();
        if rolled.Err? {
          return Err(rolled.error);
        }
        var n := WriteChunkValue(c);
        return Ok(n);
      }
      if chunkLen <= chunkBudget && remaining <= MIN_CHUNK_BYTES_SIZE {
        var rolled := RollOver();
        if rolled.Err? {
          return Err(rolled.error);
        }
        var n := WriteChunkValue(c);
        return Ok(n);
      }
      r := PutStreamData(c.ty, c.data);
    }

    /** Chunk after chunk, up to the first that is refused. */
    method PutEvery(cs: seq<RawChunk>) returns (r: Result<(), SplitError>)
      requires Valid()
      modifies this, current
      ensures var placing := PutAll(old(bodies), cs, chunkBudget);
        if placing.Err? then r == Err(placing.error)
        else r.Ok? && Valid() && (current == old(current) || fresh(current)) && bodies == placing.value
    {
      hide *;
      Consistent();
      var left := cs;
      while left != []
        invariant Valid() && (current == old(current) || fresh(current))
        invariant bodies != [] && PutAll(old(bodies), cs, chunkBudget) == PutAll(bodies, left, chunkBudget)
        decreases |left|
      {
        PutAllStep(bodies, left, chunkBudget);
        var put := PutChunk(left[0]);
        if put.Err? {
          return Err(put.error);
        }
        Consistent();
        left := left[1..];
      }
      PutAllStep(bodies, left, chunkBudget);
      return Ok(());
    }

    /** `finalize_archive`: the last part is closed, and all parts are complete. */
    method Finalize() returns (ghost archive: seq<Bytes>)
      requires Valid()
      modifies current
      ensures archive == ArchiveParts(bodies)
      ensures closed + [current.written] == archive
    {
      hide Valid, Opening, EncodeAll, PartBytes, FromData, Encode, Last, ArchiveParts;
      ClosedParts();
      ClosedBytes(parts - 1, Last(bodies), true);
      AllClosed(closed, bodies);
      var n := WriteChunk(current, FromData(AEND, []));
      archive := closed + [current.written];
    }

    lemma ClosedParts()
      requires Valid()
      ensures |bodies| == parts && bodies != [] && |closed| == parts - 1
      ensures current.written == Opening(parts - 1) + EncodeAll(Last(bodies))
      ensures forall i :: 0 <= i < |closed| ==> closed[i] == PartBytes(i, bodies[i], false)
    {
      hide Opening, EncodeAll, PartBytes, AllFit, Room;
    }
  }

  lemma AllClosed(closed: seq<Bytes>, bodies: Bodies)
    requires 0 < |bodies| <= U32_MAX && |closed| == |bodies| - 1
    requires forall i :: 0 <= i < |closed| ==> closed[i] == PartBytes(i, bodies[i], false)
    ensures closed + [PartBytes(|bodies| - 1, Last(bodies), true)] == ArchiveParts(bodies)
  {
    hide PartBytes;
  }

  /** `SplitParts::new`. */
  method NewSplitParts(maxPartBytes: nat) returns (r: Result<SplitParts, SplitError>)
    ensures r.Err? <==> maxPartBytes < MIN_SPLIT_PART_BYTES
    ensures r.Ok? ==> r.value.Valid() && fresh(r.value) && fresh(r.value.current) && r.value.bodies == [[]] &&
                      r.value.chunkBudget == maxPartBytes - SPLIT_ARCHIVE_OVERHEAD_BYTES
  {
    if maxPartBytes < MIN_SPLIT_PART_BYTES {
      return Err(PartsTooSmall);
    }
    var sink := new SplitParts(maxPartBytes);
    return Ok(sink);
  }

  /** The finished parts of an archive with these bodies. */
  function ArchiveParts(bodies: Bodies): seq<Bytes>
    requires 0 < |bodies| <= U32_MAX
    ensures |ArchiveParts(bodies)| == |bodies|
  {
    seq(|bodies|, i requires 0 <= i < |bodies| => PartBytes(i, bodies[i], i == |bodies| - 1))
  }

  lemma EmptyBody()
    ensures TotalLen([]) == 0 && EncodeAll([]) == []
  {
  }

  lemma AddedLen(bodies: Bodies, c: RawChunk)
    requires bodies != []
    ensures TotalLen(Last(bodies) + [c]) == TotalLen(Last(bodies)) + BytesLen(c)
    ensures EncodeAll(Last(bodies) + [c]) == EncodeAll(Last(bodies)) + Encode(c)
  {
    hide Encode;
    TotalLenAppend(Last(bodies), [c]);
    EncodeAllAppend(Last(bodies), [c]);
    TotalLenOne(c);
  }

  lemma WrittenAfter(bodies: Bodies, c: RawChunk)
    requires bodies != []
    ensures Written(AddLast(bodies, c)) == Written(bodies) + BytesLen(c)
    ensures Written(bodies + [[]]) == Written(bodies)
  {
    hide TotalLen;
    ConcatAdd(bodies, c);
    TotalLenAppend(Concat(bodies), [c]);
    TotalLenOne(c);
  }

  lemma ClosedBytes(number: U32, body: seq<RawChunk>, last: bool)
    ensures var next, end := FromData(ANXT, []), FromData(AEND, []);
      PartBytes(number, body, last) ==
        if last then Opening(number) + EncodeAll(body) + Encode(end)
        else Opening(number) + EncodeAll(body) + Encode(next) + Encode(end)
  {
    hide Opening, Encode, FromData;
    var next, end := FromData(ANXT, []), FromData(AEND, []);
    EncodeAllAppend(body, Closing(last));
    TotalLenOne(end);
    TotalLenOne(next);
    if last {
      Assoc(Opening(number), EncodeAll(body), Encode(end));
    } else {
      assert [next, end] == [next] + [end];
      EncodeAllAppend([next], [end]);
      Assoc(Opening(number), EncodeAll(body), Encode(next) + Encode(end));
      Assoc(Opening(number) + EncodeAll(body), Encode(next), Encode(end));
    }
  }

  // ---------------------------------------------------------------- what the parts hold

  lemma {:induction false} RecutAppend(a: seq<RawChunk>, b: seq<RawChunk>, c: seq<RawChunk>, d: seq<RawChunk>)
    requires Recut(a, b) && Recut(c, d)
    ensures Recut(a + c, b + d)
    decreases |b|
  {
    hide IsHeadPiece;
    if a == [] {
      assert a + c == c && b + d == d;
    } else {
      assert (a + c)[1..] == a[1..] + c && (b + d)[1..] == b[1..] + d;
      if b[0] == a[0] && Recut(a[1..], b[1..]) {
        RecutAppend(a[1..], b[1..], c, d);
      } else {
        var pieces := [TailPiece(a[0], b[0])] + a[1..];
        RecutAppend(pieces, b[1..], c, d);
        Assoc([TailPiece(a[0], b[0])], a[1..], c);
      }
    }
  }

  lemma ConcatAdd(bodies: Bodies, c: RawChunk)
    requires bodies != []
    ensures Concat(AddLast(bodies, c)) == Concat(bodies) + [c]
    ensures Concat(bodies + [[]]) == Concat(bodies)
  {
    var init := bodies[..|bodies| - 1];
    assert bodies == init + [Last(bodies)];
    assert AddLast(bodies, c) == init + [Last(bodies) + [c]];
    ConcatAppend(init, [Last(bodies)]);
    ConcatAppend(init, [Last(bodies) + [c]]);
    ConcatOne(Last(bodies));
    ConcatOne(Last(bodies) + [c]);
    Assoc(Concat(init), Last(bodies), [c]);
    ConcatAppend(bodies, [[]]);
    ConcatOne<RawChunk>([]);
    assert Concat(bodies) + [] == Concat(bodies);
  }

  lemma FitsAfter(bodies: Bodies, c: RawChunk, budget: nat)
    requires AllFit(bodies, budget)
    ensures BytesLen(c) <= Room(bodies, budget) ==> AllFit(AddLast(bodies, c), budget)
    ensures AllFit(bodies + [[]], budget) && Room(bodies + [[]], budget) == budget && Last(bodies + [[]]) == []
    ensures Room(AddLast(bodies, c), budget) == Room(bodies, budget) - BytesLen(c)
  {
    hide TotalLen;
    AddedLen(bodies, c);
    EmptyBody();
  }

  /** A chunk of a part was put there because the part before it had no place for it. */
  ghost predicate Refused(before: seq<RawChunk>, c: RawChunk, budget: nat) {
    var room := budget - TotalLen(before);
    BytesLen(c) > room && (IsStream(c.ty) ==> room <= MIN_CHUNK_BYTES_SIZE)
  }

  /** Each part but the first begins with what the part before it refused. */
  ghost predicate Packed(bodies: Bodies, budget: nat) {
    forall i :: 0 < i < |bodies| && bodies[i] != [] ==> Refused(bodies[i - 1], bodies[i][0], budget)
  }

  /** A chunk may go to the open part: it is not empty, or the part before refuses the chunk. */
  ghost predicate MayAdd(bodies: Bodies, c: RawChunk, budget: nat)
    requires bodies != []
  {
    Last(bodies) != [] || |bodies| == 1 || Refused(bodies[|bodies| - 2], c, budget)
  }

  lemma PackedAfter(bodies: Bodies, c: RawChunk, budget: nat)
    requires bodies != [] && Packed(bodies, budget)
    ensures MayAdd(bodies, c, budget) ==> Packed(AddLast(bodies, c), budget)
    ensures Packed(bodies + [[]], budget)
    ensures Refused(Last(bodies), c, budget) ==> MayAdd(bodies + [[]], c, budget)
  {
    hide Refused;
    if MayAdd(bodies, c, budget) {
      var added := AddLast(bodies, c);
      forall i | 0 < i < |added| && added[i] != [] ensures Refused(added[i - 1], added[i][0], budget) {
        assert added[i - 1] == bodies[i - 1];
      }
    }
  }

  /** What putting one chunk does to a sink that was in order. */
  ghost predicate Step(bodies: Bodies, next: Bodies, pieces: seq<RawChunk>, budget: nat) {
    next != [] && Last(next) != [] &&
    Concat(next) == Concat(bodies) + pieces && AllFit(next, budget) && Packed(next, budget)
  }

  /** The open part, if it was just opened for this stream, was opened for want of room. */
  ghost predicate OpenedForStream(bodies: Bodies, data: Bytes, budget: nat)
    requires bodies != []
  {
    Last(bodies) == [] && |bodies| > 1 ==>
      var room := budget - TotalLen(bodies[|bodies| - 2]);
      room <= MIN_CHUNK_BYTES_SIZE && (data == [] ==> room < MIN_CHUNK_BYTES_SIZE)
  }

  /** Data that `put_stream` writes as one chunk, here or in a new part. */
  predicate FitsWhole(bodies: Bodies, len: nat, budget: nat)
    requires bodies != []
  {
    var room := Room(bodies, budget);
    MIN_CHUNK_BYTES_SIZE + len <= room || (room <= MIN_CHUNK_BYTES_SIZE && MIN_CHUNK_BYTES_SIZE + len <= budget)
  }

  lemma MayAddStream(bodies: Bodies, ty: ChunkType, data: Bytes, k: nat, budget: nat)
    requires bodies != [] && OpenedForStream(bodies, data, budget) && k <= |data| && (data != [] ==> k > 0)
    ensures MayAdd(bodies, FromData(ty, data[..k]), budget)
  {
    hide TotalLen;
  }

  lemma {:induction false} StreamPieces(bodies: Bodies, ty: ChunkType, data: Bytes, budget: nat)
    returns (pieces: seq<RawChunk>)
    requires bodies != [] && AllFit(bodies, budget) && Packed(bodies, budget) && IsStream(ty)
    requires OpenedForStream(bodies, data, budget)
    ensures PutStream(bodies, ty, data, budget).Ok? ==>
      Recut([FromData(ty, data)], pieces) && Step(bodies, PutStream(bodies, ty, data, budget).value, pieces, budget)
    ensures PutStream(bodies, ty, data, budget).Ok? && !FitsWhole(bodies, |data|, budget) ==>
      pieces != [] && IsHeadPiece(FromData(ty, data), pieces[0]) &&
      Recut([TailPiece(FromData(ty, data), pieces[0])], pieces[1..])
    ensures PutStream(bodies, ty, data, budget) == Err(ChunkDoesNotFit) ==> budget <= MIN_CHUNK_BYTES_SIZE
    decreases |data|, if Room(bodies, budget) > MIN_CHUNK_BYTES_SIZE then 0 else 1
  {
    hide TotalLen, Concat, AllFit, Packed, Recut, MayAdd, AddLast, FromData;
    var c, room := FromData(ty, data), Room(bodies, budget);
    pieces := [];
    DataOf(ty, data);
    if MIN_CHUNK_BYTES_SIZE + |data| <= room {
      pieces := [c];
      assert data[..|data|] == data;
      MayAddStream(bodies, ty, data, |data|, budget);
      StepByAdding(bodies, c, budget);
      RecutItself([c]);
    } else if room > MIN_CHUNK_BYTES_SIZE {
      var take := room - MIN_CHUNK_BYTES_SIZE;
      var x := FromData(ty, data[..take]);
      DataOf(ty, data[..take]);
      MayAddStream(bodies, ty, data, take, budget);
      StepByAdding(bodies, x, budget);
      var mid := AddLast(bodies, x);
      if |mid| < U32_MAX {
        var next := mid + [[]];
        FitsAfter(bodies, x, budget);
        FitsAfter(mid, x, budget);
        PackedAfter(mid, x, budget);
        ConcatAdd(mid, x);
        var later := StreamPieces(next, ty, data[take..], budget);
        pieces := [x] + later;
        if PutStream(next, ty, data[take..], budget).Ok? {
          CutRecut(ty, data, take, later);
          assert pieces[1..] == later;
          Assoc(Concat(bodies), [x], later);
        }
      }
    } else if budget > MIN_CHUNK_BYTES_SIZE && |bodies| < U32_MAX {
      var next := bodies + [[]];
      FitsAfter(bodies, c, budget);
      PackedAfter(bodies, c, budget);
      ConcatAdd(bodies, c);
      pieces := StreamPieces(next, ty, data, budget);
    }
  }

  lemma DataOf(ty: ChunkType, data: Bytes)
    ensures FromData(ty, data).data == data && FromData(ty, data).ty == ty
    ensures BytesLen(FromData(ty, data)) == 12 + |data|
  {
  }

  lemma CutRecut(ty: ChunkType, data: Bytes, take: nat, later: seq<RawChunk>)
    requires IsStream(ty) && 0 < take < |data| && Recut([FromData(ty, data[take..])], later)
    ensures Recut([FromData(ty, data)], [FromData(ty, data[..take])] + later)
    ensures IsHeadPiece(FromData(ty, data), FromData(ty, data[..take]))
    ensures TailPiece(FromData(ty, data), FromData(ty, data[..take])) == FromData(ty, data[take..])
  {
    var c, x := FromData(ty, data), FromData(ty, data[..take]);
    assert IsHeadPiece(c, x) && TailPiece(c, x) == FromData(ty, data[take..]);
    assert [TailPiece(c, x)] + [c][1..] == [TailPiece(c, x)];
    assert ([x] + later)[1..] == later;
  }

  lemma StepByAdding(bodies: Bodies, c: RawChunk, budget: nat)
    requires AllFit(bodies, budget) && Packed(bodies, budget) && MayAdd(bodies, c, budget)
    requires BytesLen(c) <= Room(bodies, budget)
    ensures Step(bodies, AddLast(bodies, c), [c], budget) && |AddLast(bodies, c)| == |bodies|
  {
    hide TotalLen, Concat, AllFit, Packed, MayAdd;
    assert bodies != [] by { SomeBody(bodies, budget); }
    FitsAfter(bodies, c, budget);
    PackedAfter(bodies, c, budget);
    ConcatAdd(bodies, c);
  }

  lemma SomeBody(bodies: Bodies, budget: nat)
    requires AllFit(bodies, budget)
    ensures bodies != []
  {
  }

  /**
   * Putting one chunk: it ends up in the parts whole, or cut if it is a stream chunk; it is
   * refused only if no part could hold it; and the parts stay in order.
   */
  lemma PutPieces(bodies: Bodies, c: RawChunk, budget: nat) returns (pieces: seq<RawChunk>)
    requires bodies != [] && AllFit(bodies, budget) && Packed(bodies, budget)
    requires Last(bodies) != [] || |bodies| == 1
    ensures Put(bodies, c, budget).Ok? ==>
      Recut([c], pieces) && Step(bodies, Put(bodies, c, budget).value, pieces, budget)
    ensures Put(bodies, c, budget) == Err(ChunkDoesNotFit) <==> !Placeable(c, budget)
  {
    hide TotalLen, Concat, AllFit, Packed, Recut, AddLast, FromData, PutStream;
    pieces := [c];
    RecutItself([c]);
    var room := Room(bodies, budget);
    assert room <= budget;
    if BytesLen(c) <= room {
      StepByAdding(bodies, c, budget);
    } else if !IsStream(c.ty) || (BytesLen(c) <= budget && room <= MIN_CHUNK_BYTES_SIZE) {
      if BytesLen(c) <= budget && |bodies| < U32_MAX {
        var next := bodies + [[]];
        FitsAfter(bodies, c, budget);
        PackedAfter(bodies, c, budget);
        StepByAdding(next, c, budget);
        ConcatAdd(bodies, c);
      }
    } else {
      pieces := StreamPieces(bodies, c.ty, c.data, budget);
      PutStreamPlaceable(bodies, c.ty, c.data, budget);
      if PutStream(bodies, c.ty, c.data, budget).Ok? {
        CutAlike(c, pieces);
      }
    }
  }

  /** How a chunk is cut depends on its type and data alone, not on its stored length or checksum. */
  lemma CutAlike(c: RawChunk, pieces: seq<RawChunk>)
    requires pieces != [] && IsHeadPiece(FromData(c.ty, c.data), pieces[0])
    requires Recut([TailPiece(FromData(c.ty, c.data), pieces[0])], pieces[1..])
    ensures Recut([c], pieces)
  {
    assert IsHeadPiece(c, pieces[0]);
    assert [TailPiece(c, pieces[0])] + [c][1..] == [TailPiece(c, pieces[0])];
  }

  lemma PutStreamPlaceable(bodies: Bodies, ty: ChunkType, data: Bytes, budget: nat)
    requires bodies != [] && Room(bodies, budget) <= budget
    ensures 12 + |data| > Room(bodies, budget) && budget <= MIN_CHUNK_BYTES_SIZE ==>
      PutStream(bodies, ty, data, budget) == Err(ChunkDoesNotFit)
  {
  }

  lemma {:induction false} PutAllPieces(bodies: Bodies, cs: seq<RawChunk>, budget: nat)
    returns (pieces: seq<RawChunk>)
    requires bodies != [] && AllFit(bodies, budget) && Packed(bodies, budget)
    requires Last(bodies) != [] || |bodies| == 1
    ensures PutAll(bodies, cs, budget).Ok? ==>
      var r := PutAll(bodies, cs, budget).value;
      Recut(cs, pieces) && Concat(r) == Concat(bodies) + pieces && AllFit(r, budget) && Packed(r, budget)
    ensures PutAll(bodies, cs, budget) != Err(TooManyParts) ==>
      (PutAll(bodies, cs, budget).Ok? <==> forall c <- cs :: Placeable(c, budget))
    ensures PutAll(bodies, cs, budget).Ok? ==> forall c <- cs :: Placeable(c, budget)
    decreases |cs|
  {
    hide TotalLen, Concat, AllFit, Packed, Recut, Placeable, Put;
    pieces := [];
    if cs == [] {
      assert Recut([], []) by { RecutItself([]); }
      assert Concat(bodies) + [] == Concat(bodies);
    } else {
      assert cs[0] in cs && cs == [cs[0]] + cs[1..];
      var first := PutPieces(bodies, cs[0], budget);
      var next := Put(bodies, cs[0], budget);
      if next.Ok? {
        var later := PutAllPieces(next.value, cs[1..], budget);
        pieces := first + later;
        if PutAll(next.value, cs[1..], budget).Ok? {
          RecutAppend([cs[0]], first, cs[1..], later);
          Assoc(Concat(bodies), first, later);
        }
      }
    }
  }

  // ---------------------------------------------------------------- how the parts are filled

  /** At most one chunk has been added to the open part, and one to each part after it. */
  ghost predicate Extends(before: Bodies, after: Bodies)
    requires before != []
  {
    var n := |before| - 1;
    |after| > n && after[..n] == before[..n] &&
    (after[n] == before[n] || (|after[n]| == |before[n]| + 1 && after[n][..|before[n]|] == before[n])) &&
    forall i :: n < i < |after| ==> |after[i]| == 1
  }

  /**
   * Every part closed on the way is full to the byte, but the open part may stay as it was, for
   * lack of room for as many bytes as are needed.
   */
  ghost predicate Fills(before: Bodies, after: Bodies, budget: nat, needed: nat)
    requires before != []
  {
    var n := |before| - 1;
    Extends(before, after) &&
    (forall i :: n < i < |after| - 1 ==> TotalLen(after[i]) == budget) &&
    (|after| > |before| && TotalLen(after[n]) != budget ==> after[n] == before[n]) &&
    (after[n] == before[n] ==> |after| > |before| && Room(before, budget) < needed)
  }

  lemma FillsAtOnce(bodies: Bodies, c: RawChunk, budget: nat, needed: nat)
    requires bodies != []
    ensures Fills(bodies, AddLast(bodies, c), budget, needed)
    ensures Room(bodies, budget) < needed ==> Fills(bodies, AddLast(bodies + [[]], c), budget, needed)
  {
    hide TotalLen;
  }

  lemma FillsNext(bodies: Bodies, after: Bodies, budget: nat, needed: nat)
    requires bodies != [] && Fills(bodies + [[]], after, budget, needed) && needed <= budget
    requires TotalLen(Last(bodies)) == budget || Room(bodies, budget) < needed
    ensures Room(bodies, budget) < needed ==> Fills(bodies, after, budget, needed)
    ensures TotalLen(Last(bodies)) == budget && |Last(bodies)| > 0 ==>
      var n := |bodies| - 1;
      Fills(bodies[n := bodies[n][..|bodies[n]| - 1]], after, budget, needed)
  {
    var n, next := |bodies| - 1, bodies + [[]];
    EmptyBody();
    hide TotalLen;
    assert Room(next, budget) == budget;
    assert |next| - 1 == n + 1 && after[n + 1] != [];
    assert after[..n + 1] == bodies;
    assert after[n] == after[..n + 1][n] == bodies[n];
    assert after[..n] == after[..n + 1][..n] == bodies[..n];
    assert |after[n + 1]| == 1;
  }

  lemma {:induction false} StreamFills(bodies: Bodies, ty: ChunkType, data: Bytes, budget: nat)
    requires bodies != []
    ensures var put := PutStream(bodies, ty, data, budget);
      put.Ok? ==> Fills(bodies, put.value, budget, MIN_CHUNK_BYTES_SIZE + 1)
    decreases |data|, if Room(bodies, budget) > MIN_CHUNK_BYTES_SIZE then 0 else 1
  {
    hide TotalLen, Fills, FromData, AddLast;
    var room := Room(bodies, budget);
    if MIN_CHUNK_BYTES_SIZE + |data| <= room {
      FillsAtOnce(bodies, FromData(ty, data), budget, MIN_CHUNK_BYTES_SIZE + 1);
    } else {
      var take := if room > MIN_CHUNK_BYTES_SIZE then room - MIN_CHUNK_BYTES_SIZE else 0;
      var x := FromData(ty, data[..take]);
      DataOf(ty, data[..take]);
      var mid := if take > 0 then AddLast(bodies, x) else bodies;
      AddedParts(bodies, x);
      FitsRoom(bodies, x, budget);
      FitsRoom(mid, x, budget);
      var put := PutStream(bodies, ty, data, budget);
      if put.Ok? {
        StreamFills(mid + [[]], ty, data[take..], budget);
        FillsNext(mid, put.value, budget, MIN_CHUNK_BYTES_SIZE + 1);
        if take > 0 {
          AddedThenCut(bodies, x);
        }
      }
    }
  }

  lemma AddedThenCut(bodies: Bodies, c: RawChunk)
    requires bodies != []
    ensures var n, added := |bodies| - 1, AddLast(bodies, c);
      |added| == |bodies| && |added[n]| > 0 && added[n := added[n][..|added[n]| - 1]] == bodies
  {
  }

  /**
   * Where a chunk goes: whole into the open part if it fits there. Otherwise each part closed
   * for it is full to the byte, except that the open part is passed over if it has no room for
   * a frame and a byte, or for a chunk that may not be cut.
   */
  lemma PutFills(bodies: Bodies, c: RawChunk, budget: nat)
    requires bodies != [] && Put(bodies, c, budget).Ok?
    ensures BytesLen(c) <= Room(bodies, budget) ==> Put(bodies, c, budget).value == AddLast(bodies, c)
    ensures Fills(bodies, Put(bodies, c, budget).value, budget,
                  if IsStream(c.ty) then MIN_CHUNK_BYTES_SIZE + 1 else BytesLen(c))
  {
    hide TotalLen, Fills, PutStream, AddLast;
    var needed := if IsStream(c.ty) then MIN_CHUNK_BYTES_SIZE + 1 else BytesLen(c);
    FillsAtOnce(bodies, c, budget, needed);
    StreamFills(bodies, c.ty, c.data, budget);
  }

  /** A part opens with the signature and an archive header of version 0.0 that bears its number. */
  lemma PartOpens(number: U32, body: seq<RawChunk>, last: bool)
    ensures PartBytes(number, body, last) ==
      PNA_SIGNATURE
      + ([0, 0, 0, 8] + [0x41, 0x48, 0x45, 0x44] + HeaderBody(number) + U32Bytes(ChunkCrc(AHED, HeaderBody(number))))
      + EncodeAll(body + Closing(last))
  {
    hide EncodeAll, Closing, U32Bytes, HeaderChunk, HeaderBody;
    HeaderFields(number);
  }

  /** What a part takes up besides its chunks, and that the minimum is such a part with an empty chunk. */
  lemma PartSize(number: U32, body: seq<RawChunk>, last: bool)
    ensures |PartBytes(number, body, last)| + (if last then 12 else 0) == SPLIT_ARCHIVE_OVERHEAD_BYTES + TotalLen(body)
    ensures |body| == 1 && body[0].data == [] ==> |PartBytes(number, body, false)| == MIN_SPLIT_PART_BYTES
    ensures Spells(AHED, "AHED") && Spells(ANXT, "ANXT")
  {
    hide Opening, EncodeAll, Encode;
    ClosedBytes(number, body, last);
    ClosedBytes(number, body, false);
    TotalLenIsEncodedLength(body);
    if |body| == 1 {
      TotalLenOne(body[0]);
      assert body == [body[0]];
    }
  }

  function HeaderBody(number: U32): Bytes {
    [0, 0, 0, 0, number / 0x100_0000, number / 0x1_0000 % 256, number / 256 % 256, number % 256]
  }

  lemma HeaderFields(number: U32)
    ensures var c := HeaderChunk(number);
      c.ty == AHED && c.data == HeaderBody(number) && U32Bytes(c.length) == [0, 0, 0, 8] &&
      c.crc == ChunkCrc(AHED, HeaderBody(number))
  {
    hide U32Bytes;
    NumberBytes(number);
    NumberBytes(8);
    var c := HeaderChunk(number);
    assert c.data == HeaderBody(number);
    assert c.length == 8;
  }

  lemma NumberBytes(n: U32)
    ensures U32Bytes(n) == [n / 0x100_0000, n / 0x1_0000 % 256, n / 256 % 256, n % 256]
  {
    assert BigEndian(n, 4) == BigEndian(n / 256, 3) + [n % 256];
    assert BigEndian(n / 256, 3) == BigEndian(n / 256 / 256, 2) + [n / 256 % 256];
    assert BigEndian(n / 256 / 256, 2) == BigEndian(n / 256 / 256 / 256, 1) + [n / 256 / 256 % 256];
    assert BigEndian(n / 256 / 256 / 256, 1) == [n / 256 / 256 / 256 % 256];
    assert n / 256 / 256 / 256 == n / 0x100_0000 && n / 256 / 256 == n / 0x1_0000;
  }

  // ---------------------------------------------------------------- how many parts there are

  /**
   * What a part that another follows takes off the whole, at least: its budget less the slack
   * that a frame or a chunk of the largest fixed size can leave. With room for one bare frame
   * only, every part holds just that.
   */
  function Share(budget: nat, largest: nat): int {
    if budget > MIN_CHUNK_BYTES_SIZE then budget - Slack(largest) else MIN_CHUNK_BYTES_SIZE
  }

  /** A share for each part but the last, and what the last one holds. */
  function Shares(bodies: Bodies, share: int): int
    requires bodies != []
  {
    (|bodies| - 1) * share + TotalLen(Last(bodies))
  }

  lemma SharesAfter(bodies: Bodies, c: RawChunk, share: int)
    requires bodies != []
    ensures Shares(AddLast(bodies, c), share) == Shares(bodies, share) + BytesLen(c)
    ensures Shares(bodies + [[]], share) == Shares(bodies, share) + share - TotalLen(Last(bodies))
  {
    hide TotalLen;
    AddedLen(bodies, c);
    EmptyBody();
    assert |bodies| * share == (|bodies| - 1) * share + share;
  }

  /** A part with only a frame's worth of room or less can be closed at no loss. */
  lemma SharesOfClosed(bodies: Bodies, budget: nat, largest: nat, room: int)
    requires bodies != [] && budget > MIN_CHUNK_BYTES_SIZE && Room(bodies, budget) == room
    ensures Shares(bodies + [[]], Share(budget, largest)) ==
            Shares(bodies, Share(budget, largest)) + room - Slack(largest)
  {
    hide Shares, TotalLen, Slack;
    SharesAfter(bodies, FromData(AEND, []), Share(budget, largest));
  }

  lemma {:induction false} StreamShares(bodies: Bodies, ty: ChunkType, data: Bytes, budget: nat, largest: nat)
    requires bodies != [] && |bodies| <= U32_MAX && budget > MIN_CHUNK_BYTES_SIZE
    ensures var share, put := Share(budget, largest), PutStream(bodies, ty, data, budget);
      var most := Shares(bodies, share) + MIN_CHUNK_BYTES_SIZE + |data|;
      (put.Ok? ==> Shares(put.value, share) <= most) && (put == Err(TooManyParts) ==> U32_MAX * share <= most)
    decreases |data|, if Room(bodies, budget) > MIN_CHUNK_BYTES_SIZE then 0 else 1
  {
    hide Shares, TotalLen, Share, FromData, AddLast;
    var share, room := Share(budget, largest), Room(bodies, budget);
    var c := FromData(ty, data);
    DataOf(ty, data);
    if MIN_CHUNK_BYTES_SIZE + |data| <= room {
      SharesAfter(bodies, c, share);
    } else {
      var take := if room > MIN_CHUNK_BYTES_SIZE then room - MIN_CHUNK_BYTES_SIZE else 0;
      var x := FromData(ty, data[..take]);
      DataOf(ty, data[..take]);
      var mid := if take > 0 then AddLast(bodies, x) else bodies;
      AddedParts(bodies, x);
      SharesAfter(bodies, x, share);
      FitsRoom(bodies, x, budget);
      FitsRoom(mid, x, budget);
      SharesOfClosed(mid, budget, largest, Room(mid, budget));
      var next := mid + [[]];
      if |mid| < U32_MAX {
        StreamShares(next, ty, data[take..], budget, largest);
      } else {
        SharesAtLimit(next, share);
      }
    }
  }

  lemma AddedParts(bodies: Bodies, c: RawChunk)
    requires bodies != []
    ensures |AddLast(bodies, c)| == |bodies|
  {
  }

  lemma FitsRoom(bodies: Bodies, c: RawChunk, budget: nat)
    requires bodies != []
    ensures Room(bodies + [[]], budget) == budget
    ensures Room(AddLast(bodies, c), budget) == Room(bodies, budget) - BytesLen(c)
  {
    hide TotalLen;
    AddedLen(bodies, c);
    EmptyBody();
  }

  lemma SharesAtLimit(bodies: Bodies, share: int)
    requires |bodies| == U32_MAX + 1
    ensures U32_MAX * share <= Shares(bodies, share)
  {
    hide TotalLen;
  }

  /** Putting a chunk costs no more shares than its size, and part numbers run out only with them. */
  lemma PutShares(bodies: Bodies, c: RawChunk, budget: nat, largest: nat)
    requires bodies != [] && |bodies| <= U32_MAX && AllFit(bodies, budget)
    requires !IsStream(c.ty) ==> BytesLen(c) <= largest
    ensures var share, put := Share(budget, largest), Put(bodies, c, budget);
      var most := Shares(bodies, share) + BytesLen(c);
      (put.Ok? ==> Shares(put.value, share) <= most) && (put == Err(TooManyParts) ==> U32_MAX * share <= most)
  {
    hide Shares, TotalLen, AllFit, PutStream, FromData, AddLast;
    var share, room, next := Share(budget, largest), Room(bodies, budget), bodies + [[]];
    SharesAfter(bodies, c, share);
    SharesAfter(next, c, share);
    if BytesLen(c) > room {
      if budget <= MIN_CHUNK_BYTES_SIZE {
        PutStreamPlaceable(bodies, c.ty, c.data, budget);
        BareFrame(bodies, budget);
      } else if IsStream(c.ty) && !(BytesLen(c) <= budget && room <= MIN_CHUNK_BYTES_SIZE) {
        StreamShares(bodies, c.ty, c.data, budget, largest);
      }
      if |bodies| == U32_MAX {
        SharesAtLimit(next, share);
      }
    }
  }

  /** A part with room for one bare frame holds none or is full. */
  lemma BareFrame(bodies: Bodies, budget: nat)
    requires AllFit(bodies, budget) && budget <= MIN_CHUNK_BYTES_SIZE
    ensures TotalLen(Last(bodies)) == 0 || TotalLen(Last(bodies)) == MIN_CHUNK_BYTES_SIZE == budget
    ensures TotalLen(Last(bodies)) <= budget
  {
    assert Last(bodies) in bodies;
    TotalLenAtLeast(Last(bodies));
  }

  lemma {:induction false} PutAllShares(bodies: Bodies, cs: seq<RawChunk>, budget: nat, largest: nat)
    requires bodies != [] && |bodies| <= U32_MAX && AllFit(bodies, budget) && Packed(bodies, budget)
    requires Last(bodies) != [] || |bodies| == 1
    requires LargestFixed(cs) <= largest
    ensures var share, put := Share(budget, largest), PutAll(bodies, cs, budget);
      var most := Shares(bodies, share) + TotalLen(cs);
      (put.Ok? ==> Shares(put.value, share) <= most) && (put == Err(TooManyParts) ==> U32_MAX * share <= most)
    decreases |cs|
  {
    hide Shares, AllFit, Packed, Put, Share, Recut, Concat, Placeable;
    if cs != [] {
      PutShares(bodies, cs[0], budget, largest);
      var pieces := PutPieces(bodies, cs[0], budget);
      var next := Put(bodies, cs[0], budget);
      if next.Ok? {
        PutAllShares(next.value, cs[1..], budget, largest);
      }
    }
  }

  // ---------------------------------------------------------------- a whole run

  /** The bodies that a fresh sink ends up with. */
  function BodiesOf(cs: seq<RawChunk>, budget: nat): (r: Placing)
    ensures r.Ok? ==> 0 < |r.value| <= U32_MAX
  {
    PutAll([[]], cs, budget)
  }

  /**
   * Any run of chunks: the parts' chunks, joined, are the run with stream chunks cut; every
   * part keeps to its budget, and each begins with what the one before it had no place for.
   * It fails only when some chunk fits in no part, or part numbers run out.
   */
  lemma PartsHoldChunks(cs: seq<RawChunk>, budget: nat)
    ensures BodiesOf(cs, budget).Ok? ==>
      var bodies := BodiesOf(cs, budget).value;
      Recut(cs, Concat(bodies)) && AllFit(bodies, budget) && Packed(bodies, budget) && AllPlaceable(cs, budget)
    ensures BodiesOf(cs, budget) == Err(ChunkDoesNotFit) ==> !AllPlaceable(cs, budget)
  {
    hide PutAll, TotalLen, Concat, Recut, Placeable;
    assert AllFit([[]], budget) by { EmptyBody(); }
    var pieces := PutAllPieces([[]], cs, budget);
    assert Concat<RawChunk>([[]]) == [] by { ConcatOne<RawChunk>([]); }
    assert [] + pieces == pieces;
  }

  /**
   * How many parts there are: each but the last takes its share of the bytes given. So as long
   * as those bytes are fewer than the shares of all part numbers, writing succeeds exactly
   * when every chunk fits in some part.
   */
  lemma NumberOfBodies(cs: seq<RawChunk>, budget: nat)
    ensures var share := Share(budget, LargestFixed(cs));
      (BodiesOf(cs, budget).Ok? ==>
         var bodies := BodiesOf(cs, budget).value;
         (|bodies| - 1) * share + TotalLen(Last(bodies)) <= TotalLen(cs)) &&
      (TotalLen(cs) < U32_MAX * share ==> (BodiesOf(cs, budget).Ok? <==> AllPlaceable(cs, budget)))
  {
    hide PutAll, TotalLen, Share, AllPlaceable, LargestFixed;
    EmptyBody();
    assert AllFit([[]], budget);
    PutAllShares([[]], cs, budget, LargestFixed(cs));
    PartsHoldChunks(cs, budget);
  }

  /** No finished part is larger than the maximum it was made for. */
  lemma PartsKeepToMaximum(bodies: Bodies, maxPartBytes: nat, i: nat)
    requires maxPartBytes >= MIN_SPLIT_PART_BYTES && AllFit(bodies, maxPartBytes - SPLIT_ARCHIVE_OVERHEAD_BYTES)
    requires |bodies| <= U32_MAX && i < |bodies|
    ensures |ArchiveParts(bodies)[i]| <= maxPartBytes
  {
    hide Opening, EncodeAll, TotalLen;
    var last := i == |bodies| - 1;
    TotalLenIsEncodedLength(bodies[i]);
    assert bodies[i] in bodies;
    ClosedBytes(i, bodies[i], last);
  }

  lemma BodiesArePut(cs: seq<RawChunk>, budget: nat)
    ensures BodiesOf(cs, budget) == PutAll([[]], cs, budget)
  {
  }

  lemma PutAllStep(bodies: Bodies, cs: seq<RawChunk>, budget: nat)
    requires bodies != []
    ensures PutAll(bodies, cs, budget) ==
      if cs == [] then Ok(bodies)
      else
        var put := Put(bodies, cs[0], budget);
        if put.Err? then Err(put.error) else PutAll(put.value, cs[1..], budget)
  {
    hide Put;
  }

  /** The whole run of a sink: put every chunk, then finalize. */
  method WriteSplit(cs: seq<RawChunk>, maxPartBytes: nat) returns (r: Result<(), SplitError>, ghost archive: seq<Bytes>)
    ensures maxPartBytes < MIN_SPLIT_PART_BYTES ==> r == Err(PartsTooSmall)
    ensures maxPartBytes >= MIN_SPLIT_PART_BYTES ==>
      var bodies := BodiesOf(cs, maxPartBytes - SPLIT_ARCHIVE_OVERHEAD_BYTES);
      if bodies.Err? then r == Err(bodies.error)
      else r.Ok? && archive == ArchiveParts(bodies.value)
  {
    hide *;
    archive := [];
    var created := NewSplitParts(maxPartBytes);
    if created.Err? {
      return Err(PartsTooSmall), [];
    }
    var sink := created.value;
    BodiesArePut(cs, sink.chunkBudget);
    var put := sink.PutEvery(cs);
    if put.Err? {
      return Err(put.error), [];
    }
    sink.Consistent();
    archive := sink.Finalize();
    return Ok(()), archive;
  }
}
