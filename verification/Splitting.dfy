/** Splitting an entry's chunks into parts of a bounded size. */
module Splitting {
  import opened Basics
  import opened Chunks

  /** The parts of a split: the chunks that were taken and those that remain. */
  datatype Cut = Cut(first: seq<RawChunk>, rest: seq<RawChunk>)

  /** Takes chunks while they fit in `room`; a stream chunk that does not fit may be cut. */
  function Fill(cs: seq<RawChunk>, room: nat): Cut {
    if cs == [] then Cut([], [])
    else
      var c := cs[0];
      if BytesLen(c) <= room then
        var later := Fill(cs[1..], room - BytesLen(c));
        Cut([c] + later.first, later.rest)
      else if IsStream(c.ty) && MIN_CHUNK_BYTES_SIZE < room then
        var (x, y) := ChunkDataSplit(c.ty, c.data, room - MIN_CHUNK_BYTES_SIZE);
        Cut([x], if y.Some? then [y.value] + cs[1..] else cs[1..])
      else Cut([], cs)
  }

  /** `Ok((whole, None))`, `Ok((first, Some(rest)))` or `Err(original)`. */
  datatype SplitResult =
    | Whole(part: seq<RawChunk>)
    | Parts(first: seq<RawChunk>, rest: seq<RawChunk>)
    | Unsplit(original: seq<RawChunk>)

  /** `EntryPart::try_split` as a function. */
  function Split(cs: seq<RawChunk>, max: nat): SplitResult {
    if TotalLen(cs) <= max then Whole(cs)
    else
      var cut := Fill(cs, max);
      if cut.first == [] then Unsplit(cut.rest) else Parts(cut.first, cut.rest)
  }

  /** `EntryPart::bytes_len`: the sizes of the chunks, added up in order. */
  method PartBytesLen(part: seq<RawChunk>) returns (n: nat)
    ensures n == TotalLen(part) == |EncodeAll(part)|
  {
    n := 0;
    var i := 0;
    while i < |part|
      invariant i <= |part|
      invariant n == TotalLen(part[..i])
    {
      n := n + BytesLen(part[i]);
      assert part[..i + 1] == part[..i] + [part[i]];
      TotalLenAppend(part[..i], [part[i]]);
      TotalLenOne(part[i]);
      i := i + 1;
    }
    assert part[..i] == part;
    TotalLenIsEncodedLength(part);
  }

  /** One step of the deque loop: the chunk fits, is cut, or goes back. */
  lemma FillStep(cs: seq<RawChunk>, room: nat)
    requires cs != []
    ensures var c, cut := cs[0], Fill(cs, room);
            if BytesLen(c) <= room then
              var later := Fill(cs[1..], room - BytesLen(c));
              cut == Cut([c] + later.first, later.rest)
            else if IsStream(c.ty) && MIN_CHUNK_BYTES_SIZE < room then
              var (x, y) := ChunkDataSplit(c.ty, c.data, room - MIN_CHUNK_BYTES_SIZE);
              cut == Cut([x], (if y.Some? then [y.value] else []) + cs[1..])
            else cut == Cut([], cs) && cs == [c] + cs[1..]
  {
    hide FromData, IsStream, ChunkDataSplit;
    assert [] + cs[1..] == cs[1..];
  }

  lemma NothingFilled(first: seq<RawChunk>, room: nat)
    ensures Fill([], room) == Cut([], []) && first + [] == first
  {
    hide FromData;
  }

  /** `EntryPart::try_split` as the source runs it, popping and pushing a deque of chunks. */
  method TrySplit(part: seq<RawChunk>, maxBytesLen: nat) returns (r: SplitResult)
    ensures r == Split(part, maxBytesLen)
  {
    hide FromData, TotalLen, Fill, IsStream, ChunkDataSplit;
    var len := PartBytesLen(part);
    if len <= maxBytesLen {
      return Whole(part);
    }
    var remaining := part;
    var first: seq<RawChunk> := [];
    var totalSize: nat := 0;
    assert [] + Fill(part, maxBytesLen).first == Fill(part, maxBytesLen).first;
    while remaining != []
      invariant totalSize <= maxBytesLen
      invariant var cut := Fill(remaining, maxBytesLen - totalSize);
                Fill(part, maxBytesLen) == Cut(first + cut.first, cut.rest)
      decreases |remaining|
    {
      var chunk := remaining[0];
      FillStep(remaining, maxBytesLen - totalSize);
      remaining := remaining[1..];
      if maxBytesLen < totalSize + BytesLen(chunk) {
        if IsStream(chunk.ty) && totalSize + MIN_CHUNK_BYTES_SIZE < maxBytesLen {
          var availableBytesLen := maxBytesLen - totalSize;
          var chunkSplitIndex := availableBytesLen - MIN_CHUNK_BYTES_SIZE;
          var (x, y) := ChunkDataSplit(chunk.ty, chunk.data, chunkSplitIndex);
          first := first + [x];
          if y.Some? {
            remaining := [y.value] + remaining;
          }
        } else {
          remaining := [chunk] + remaining;
          assert first + [] == first;
        }
        assert Fill(part, maxBytesLen) == Cut(first, remaining);
        break;
      }
      Assoc(first, [chunk], Fill(remaining, maxBytesLen - totalSize - BytesLen(chunk)).first);
      totalSize := totalSize + BytesLen(chunk);
      first := first + [chunk];
    }
    NothingFilled(first, maxBytesLen - totalSize);
    assert Fill(part, maxBytesLen) == Cut(first, remaining);
    if first == [] {
      return Unsplit(remaining);
    }
    r := Parts(first, remaining);
  }

  // ---------------------------------------------------------------- one split, exactly

  /** The list is divided between two chunks, and the next one had to stay out. */
  ghost predicate DividesBetween(cs: seq<RawChunk>, max: nat, first: seq<RawChunk>, rest: seq<RawChunk>) {
    && cs == first + rest && rest != []
    && TotalLen(first) <= max < TotalLen(first) + BytesLen(rest[0])
    && !(IsStream(rest[0].ty) && TotalLen(first) + MIN_CHUNK_BYTES_SIZE < max)
  }

  /** The stream chunk at `i` is cut in two non-empty pieces that fill the first part. */
  ghost predicate CutsAt(cs: seq<RawChunk>, max: nat, first: seq<RawChunk>, rest: seq<RawChunk>, i: nat) {
    && i < |cs| && IsStream(cs[i].ty)
    && var k := max - TotalLen(cs[..i]) - MIN_CHUNK_BYTES_SIZE;
    && 0 < k < |cs[i].data|
    && first == cs[..i] + [FromData(cs[i].ty, cs[i].data[..k])]
    && rest == [FromData(cs[i].ty, cs[i].data[k..])] + cs[i + 1..]
  }

  /** The two ways that a list can be divided. */
  ghost predicate Divided(cs: seq<RawChunk>, max: nat, first: seq<RawChunk>, rest: seq<RawChunk>) {
    DividesBetween(cs, max, first, rest) || exists i: nat :: CutsAt(cs, max, first, rest, i)
  }

  lemma {:induction false} FillDivides(cs: seq<RawChunk>, room: nat)
    requires TotalLen(cs) > room
    ensures Divided(cs, room, Fill(cs, room).first, Fill(cs, room).rest)
  {
    hide FromData, TotalLen, Fill, DividesBetween, CutsAt, IsStream;
    var c := cs[0] by { TotalStep(cs); }
    TotalStep(cs);
    FillStep(cs, room);
    if BytesLen(c) <= room {
      var later := Fill(cs[1..], room - BytesLen(c));
      FillDivides(cs[1..], room - BytesLen(c));
      if DividesBetween(cs[1..], room - BytesLen(c), later.first, later.rest) {
        DividesInTail(cs, room, later);
      } else {
        var i: nat :| CutsAt(cs[1..], room - BytesLen(c), later.first, later.rest, i);
        CutsInTail(cs, room, later, i);
      }
    } else if IsStream(c.ty) && MIN_CHUNK_BYTES_SIZE < room {
      CutsFirst(cs, room);
    } else {
      StopsAtFirst(cs, room);
    }
  }

  lemma TotalStep(cs: seq<RawChunk>)
    ensures TotalLen(cs) == if cs == [] then 0 else BytesLen(cs[0]) + TotalLen(cs[1..])
  {
  }

  lemma CutsFirst(cs: seq<RawChunk>, room: nat)
    requires cs != [] && BytesLen(cs[0]) > room > MIN_CHUNK_BYTES_SIZE && IsStream(cs[0].ty)
    ensures CutsAt(cs, room, Fill(cs, room).first, Fill(cs, room).rest, 0)
  {
    hide FromData;
    assert cs[..0] == [];
  }

  lemma StopsAtFirst(cs: seq<RawChunk>, room: nat)
    requires cs != [] && BytesLen(cs[0]) > room && !(IsStream(cs[0].ty) && MIN_CHUNK_BYTES_SIZE < room)
    ensures DividesBetween(cs, room, [], cs)
  {
    assert cs == [] + cs;
  }

  lemma DividesInTail(cs: seq<RawChunk>, room: nat, later: Cut)
    requires cs != [] && BytesLen(cs[0]) <= room
    requires DividesBetween(cs[1..], room - BytesLen(cs[0]), later.first, later.rest)
    ensures DividesBetween(cs, room, [cs[0]] + later.first, later.rest)
  {
    hide TotalLen;
    TotalStep([cs[0]] + later.first);
    assert ([cs[0]] + later.first)[1..] == later.first;
    assert cs == [cs[0]] + cs[1..];
    Assoc([cs[0]], later.first, later.rest);
  }

  lemma CutsInTail(cs: seq<RawChunk>, room: nat, later: Cut, i: nat)
    requires cs != [] && BytesLen(cs[0]) <= room
    requires CutsAt(cs[1..], room - BytesLen(cs[0]), later.first, later.rest, i)
    ensures CutsAt(cs, room, [cs[0]] + later.first, later.rest, i + 1)
  {
    hide FromData, TotalLen;
    TotalStep(cs[..i + 1]);
    TakeStep(cs, i + 1);
  }

  /** What stands before and after a place, seen from the second chunk on. */
  lemma TakeStep(cs: seq<RawChunk>, i: nat)
    requires 0 < i < |cs|
    ensures cs[..i][1..] == cs[1..][..i - 1] && cs[..i] == [cs[0]] + cs[1..][..i - 1]
    ensures cs[1..][i..] == cs[i + 1..] && cs[1..][i - 1] == cs[i]
  {
  }

  /** Sizes, for the two ways of dividing. Cutting a chunk costs one more frame. */
  lemma DividedSizes(cs: seq<RawChunk>, max: nat, first: seq<RawChunk>, rest: seq<RawChunk>)
    requires DividesBetween(cs, max, first, rest)
    ensures TotalLen(first) <= max && TotalLen(first) + TotalLen(rest) == TotalLen(cs)
  {
    TotalLenAppend(first, rest);
  }

  lemma CutSizes(cs: seq<RawChunk>, max: nat, first: seq<RawChunk>, rest: seq<RawChunk>, i: nat)
    requires CutsAt(cs, max, first, rest, i)
    ensures TotalLen(first) == max && TotalLen(first) + TotalLen(rest) == TotalLen(cs) + 12
  {
    hide FromData, TotalLen, CutsAt;
    CutShape(cs, max, first, rest, i);
    CutSums(cs[..i], cs[i], cs[i + 1..], max - TotalLen(cs[..i]) - MIN_CHUNK_BYTES_SIZE);
  }

  lemma CutSums(before: seq<RawChunk>, c: RawChunk, after: seq<RawChunk>, k: nat)
    requires k <= |c.data|
    ensures var x, y := FromData(c.ty, c.data[..k]), FromData(c.ty, c.data[k..]);
            && TotalLen(before + [x]) == TotalLen(before) + 12 + k
            && TotalLen([y] + after) == 12 + |c.data| - k + TotalLen(after)
            && TotalLen(before + ([c] + after)) == TotalLen(before) + 12 + |c.data| + TotalLen(after)
  {
    hide FromData, TotalLen;
    AroundOne(before, c, after);
    AroundOne(before, FromData(c.ty, c.data[..k]), []);
    AroundOne([], FromData(c.ty, c.data[k..]), after);
    PieceSizes(c, k);
  }

  lemma AroundOne(before: seq<RawChunk>, c: RawChunk, after: seq<RawChunk>)
    ensures TotalLen(before + ([c] + after)) == TotalLen(before) + BytesLen(c) + TotalLen(after)
    ensures TotalLen(before + [c]) == TotalLen(before) + BytesLen(c)
    ensures TotalLen([c] + after) == BytesLen(c) + TotalLen(after)
  {
    hide TotalLen;
    TotalLenAppend(before, [c] + after);
    TotalLenAppend(before, [c]);
    TotalLenAppend([c], after);
    TotalLenOne(c);
  }

  lemma CutShape(cs: seq<RawChunk>, max: nat, first: seq<RawChunk>, rest: seq<RawChunk>, i: nat)
    requires CutsAt(cs, max, first, rest, i)
    ensures i < |cs| && IsStream(cs[i].ty) && cs == cs[..i] + ([cs[i]] + cs[i + 1..])
    ensures var c, k := cs[i], max - TotalLen(cs[..i]) - MIN_CHUNK_BYTES_SIZE;
            && 0 < k < |c.data|
            && first == cs[..i] + [FromData(c.ty, c.data[..k])]
            && rest == [FromData(c.ty, c.data[k..])] + cs[i + 1..]
  {
    hide FromData, TotalLen;
  }

  lemma PieceSizes(c: RawChunk, k: nat)
    requires k <= |c.data|
    ensures BytesLen(FromData(c.ty, c.data[..k])) == 12 + k
    ensures BytesLen(FromData(c.ty, c.data[k..])) == 12 + |c.data| - k
  {
  }

  /**
    * What one split comes to. A part that fits is returned whole. Otherwise the first part is
    * as long as it can be; when not even one chunk fits, the original comes back unchanged.
    */
  lemma SplitVerdict(cs: seq<RawChunk>, max: nat)
    ensures Split(cs, max).Whole? ==> TotalLen(cs) <= max && Split(cs, max).part == cs
    ensures Split(cs, max).Parts? ==>
              && TotalLen(cs) > max && Split(cs, max).first != [] && Split(cs, max).rest != []
              && Divided(cs, max, Split(cs, max).first, Split(cs, max).rest)
    ensures Split(cs, max).Unsplit? ==>
              && TotalLen(cs) > max && Split(cs, max).original == cs
              && BytesLen(cs[0]) > max && !(IsStream(cs[0].ty) && MIN_CHUNK_BYTES_SIZE < max)
  {
    hide FromData;
    if TotalLen(cs) > max {
      FillDivides(cs, max);
    }
  }

  /** Greedy and conservative: the two descriptions leave no other split possible. */
  lemma {:induction false} FillDetermined(cs: seq<RawChunk>, max: nat, first: seq<RawChunk>,
                                          rest: seq<RawChunk>)
    requires Divided(cs, max, first, rest)
    ensures Fill(cs, max) == Cut(first, rest)
    decreases |cs|
  {
    hide FromData, TotalLen, Fill, DividesBetween, CutsAt, IsStream;
    if DividesBetween(cs, max, first, rest) {
      if first == [] {
        NothingTaken(cs, max, rest);
      } else {
        TailDivides(cs, max, first, rest);
        FillStep(cs, max);
        FillDetermined(cs[1..], max - BytesLen(cs[0]), first[1..], rest);
      }
    } else {
      var i: nat :| CutsAt(cs, max, first, rest, i);
      if i == 0 {
        FirstIsCut(cs, max, first, rest);
      } else {
        TailIsCut(cs, max, first, rest, i);
        FillStep(cs, max);
        FillDetermined(cs[1..], max - BytesLen(cs[0]), first[1..], rest);
      }
    }
  }

  lemma NothingTaken(cs: seq<RawChunk>, max: nat, rest: seq<RawChunk>)
    requires DividesBetween(cs, max, [], rest)
    ensures Fill(cs, max) == Cut([], rest)
  {
    hide FromData;
    assert cs == rest;
  }

  lemma TailDivides(cs: seq<RawChunk>, max: nat, first: seq<RawChunk>, rest: seq<RawChunk>)
    requires DividesBetween(cs, max, first, rest) && first != []
    ensures cs != [] && BytesLen(cs[0]) <= max && first == [cs[0]] + first[1..]
    ensures DividesBetween(cs[1..], max - BytesLen(cs[0]), first[1..], rest)
  {
    hide TotalLen;
    TotalStep(first);
    assert cs[1..] == first[1..] + rest;
  }

  lemma FirstIsCut(cs: seq<RawChunk>, max: nat, first: seq<RawChunk>, rest: seq<RawChunk>)
    requires CutsAt(cs, max, first, rest, 0)
    ensures Fill(cs, max) == Cut(first, rest)
  {
    hide FromData;
    assert cs[..0] == [];
  }

  lemma TailIsCut(cs: seq<RawChunk>, max: nat, first: seq<RawChunk>, rest: seq<RawChunk>, i: nat)
    requires CutsAt(cs, max, first, rest, i) && i > 0
    ensures cs != [] && BytesLen(cs[0]) <= max && first != [] && first == [cs[0]] + first[1..]
    ensures CutsAt(cs[1..], max - BytesLen(cs[0]), first[1..], rest, i - 1)
  {
    hide FromData, TotalLen;
    TotalStep(cs[..i]);
    TakeStep(cs, i);
  }

  lemma SplitDetermined(cs: seq<RawChunk>, max: nat, first: seq<RawChunk>, rest: seq<RawChunk>)
    requires TotalLen(cs) > max && first != []
    requires Divided(cs, max, first, rest)
    ensures Split(cs, max) == Parts(first, rest)
  {
    hide FromData, Fill;
    FillDetermined(cs, max, first, rest);
  }

  /** Both parts of a split are made of well-formed chunks if the original is. */
  lemma SplitStaysWellFormed(cs: seq<RawChunk>, max: nat, first: seq<RawChunk>, rest: seq<RawChunk>)
    requires Split(cs, max) == Parts(first, rest)
    requires forall c :: c in cs ==> WellFormed(c)
    ensures forall c :: c in first || c in rest ==> WellFormed(c)
  {
    hide FromData, IsValidType, Split;
    SplitVerdict(cs, max);
    if DividesBetween(cs, max, first, rest) {
      assert forall c :: c in first || c in rest ==> c in cs;
    } else {
      var i: nat :| CutsAt(cs, max, first, rest, i);
      PiecesStayWellFormed(cs[i], max - TotalLen(cs[..i]) - MIN_CHUNK_BYTES_SIZE);
    }
  }

  lemma PiecesStayWellFormed(c: RawChunk, k: nat)
    requires WellFormed(c) && k <= |c.data|
    ensures WellFormed(FromData(c.ty, c.data[..k])) && WellFormed(FromData(c.ty, c.data[k..]))
  {
  }

  // ---------------------------------------------------------------- splitting until everything fits

  /** Splits, and splits what remains, until everything fits or a chunk cannot be placed. */
  function SplitAll(cs: seq<RawChunk>, max: nat): Result<seq<seq<RawChunk>>, seq<RawChunk>>
    decreases TotalLen(cs)
  {
    match Split(cs, max)
    case Unsplit(original) => Err(original)
    case Whole(part) => Ok([part])
    case Parts(first, rest) =>
      RestIsShorter(cs, max, first, rest);
      var later :- SplitAll(rest, max);
      Ok([first] + later)
  }

  /** The size of the largest chunk that may not be cut, or 0. */
  function LargestFixed(cs: seq<RawChunk>): nat {
    if cs == [] then 0
    else
      var later := LargestFixed(cs[1..]);
      if !IsStream(cs[0].ty) && BytesLen(cs[0]) > later then BytesLen(cs[0]) else later
  }

  /** The most room that a part can be left with: a whole frame, or almost a fixed chunk. */
  function Slack(largest: nat): nat {
    if largest - 1 > MIN_CHUNK_BYTES_SIZE then largest - 1 else MIN_CHUNK_BYTES_SIZE
  }

  lemma {:induction false} LargestFixedAppend(a: seq<RawChunk>, b: seq<RawChunk>)
    ensures LargestFixed(a + b) >= LargestFixed(b)
    ensures b != [] && !IsStream(b[0].ty) ==> LargestFixed(a + b) >= BytesLen(b[0])
  {
    if a == [] {
      assert a + b == b;
    } else {
      assert (a + b)[1..] == a[1..] + b;
      LargestFixedAppend(a[1..], b);
    }
  }

  lemma CutKeepsLargest(cs: seq<RawChunk>, max: nat, first: seq<RawChunk>, rest: seq<RawChunk>, i: nat)
    requires CutsAt(cs, max, first, rest, i)
    ensures LargestFixed(rest) <= LargestFixed(cs)
  {
    assert cs == cs[..i] + cs[i..];
    assert cs[i..][1..] == cs[i + 1..] && rest[1..] == cs[i + 1..];
    LargestFixedAppend(cs[..i], cs[i..]);
  }

  /** A split takes at least all but the slack off what remains. */
  lemma SplitProgress(cs: seq<RawChunk>, max: nat, first: seq<RawChunk>, rest: seq<RawChunk>)
    requires Split(cs, max) == Parts(first, rest)
    ensures TotalLen(rest) + max <= TotalLen(cs) + Slack(LargestFixed(cs))
    ensures LargestFixed(rest) <= LargestFixed(cs)
    ensures TotalLen(rest) < TotalLen(cs)
    ensures TotalLen(first) <= max && TotalLen(cs) <= TotalLen(first) + TotalLen(rest)
  {
    hide FromData, LargestFixed, TotalLen, Split;
    SplitVerdict(cs, max);
    if DividesBetween(cs, max, first, rest) {
      DividedSizes(cs, max, first, rest);
      LargestFixedAppend(first, rest);
      TotalLenAtLeast(first);
    } else {
      var i: nat :| CutsAt(cs, max, first, rest, i);
      CutSizes(cs, max, first, rest, i);
      CutKeepsLargest(cs, max, first, rest, i);
      assert max >= 12 + 1;
    }
  }

  lemma RestIsShorter(cs: seq<RawChunk>, max: nat, first: seq<RawChunk>, rest: seq<RawChunk>)
    requires Split(cs, max) == Parts(first, rest)
    ensures TotalLen(rest) < TotalLen(cs)
  {
    SplitProgress(cs, max, first, rest);
  }

  /** A chunk that some part can hold, whole or in pieces of at least one byte. */
  predicate Placeable(c: RawChunk, max: nat) {
    BytesLen(c) <= max || (IsStream(c.ty) && max > MIN_CHUNK_BYTES_SIZE)
  }

  ghost predicate AllPlaceable(cs: seq<RawChunk>, max: nat) {
    forall i :: 0 <= i < |cs| ==> Placeable(cs[i], max)
  }

  lemma {:induction false} FitsImpliesPlaceable(cs: seq<RawChunk>, max: nat)
    requires TotalLen(cs) <= max
    ensures AllPlaceable(cs, max)
  {
    if cs != [] {
      FitsImpliesPlaceable(cs[1..], max);
      assert forall i :: 0 < i < |cs| ==> cs[i] == cs[1..][i - 1];
    }
  }

  lemma {:induction false} MemberFits(cs: seq<RawChunk>, i: nat)
    requires i < |cs|
    ensures BytesLen(cs[i]) <= TotalLen(cs)
  {
    if i > 0 {
      MemberFits(cs[1..], i - 1);
    }
  }

  /** What remains can be placed exactly when the whole could be. */
  lemma RestPlaceable(cs: seq<RawChunk>, max: nat, first: seq<RawChunk>, rest: seq<RawChunk>)
    requires Split(cs, max) == Parts(first, rest)
    ensures AllPlaceable(cs, max) <==> AllPlaceable(rest, max)
  {
    hide FromData, TotalLen, Split, Placeable, CutsAt;
    SplitVerdict(cs, max);
    if DividesBetween(cs, max, first, rest) {
      forall i | 0 <= i < |first|
        ensures Placeable(cs[i], max)
      {
        MemberFits(first, i);
        FittingPlaceable(first[i], max);
      }
      assert forall i :: 0 <= i < |rest| ==> rest[i] == cs[|first| + i];
      assert forall i :: |first| <= i < |cs| ==> cs[i] == rest[i - |first|];
    } else {
      var i: nat :| CutsAt(cs, max, first, rest, i);
      CutSizes(cs, max, first, rest, i);
      CutShape(cs, max, first, rest, i);
      forall j | 0 <= j < i
        ensures Placeable(cs[j], max)
      {
        MemberFits(first, j);
        FittingPlaceable(first[j], max);
      }
      PiecePlaceable(cs[i], max - TotalLen(cs[..i]) - MIN_CHUNK_BYTES_SIZE, max);
      assert forall j :: 0 < j < |rest| ==> rest[j] == cs[i + j];
      assert forall j :: i < j < |cs| ==> cs[j] == rest[j - i];
    }
  }

  lemma FittingPlaceable(c: RawChunk, max: nat)
    requires BytesLen(c) <= max
    ensures Placeable(c, max)
  {
  }

  lemma PiecePlaceable(c: RawChunk, k: nat, max: nat)
    requires k <= |c.data| && IsStream(c.ty) && max > MIN_CHUNK_BYTES_SIZE
    ensures Placeable(c, max) && Placeable(FromData(c.ty, c.data[k..]), max)
  {
  }

  /**
    * Iterated splitting places everything exactly when every chunk either fits in a part or
    * is a stream chunk and a part has room for a frame and a byte.
    */
  lemma {:induction false} SplitAllSucceedsIff(cs: seq<RawChunk>, max: nat)
    ensures SplitAll(cs, max).Ok? <==> AllPlaceable(cs, max)
    decreases TotalLen(cs)
  {
    hide Split, Placeable;
    SplitVerdict(cs, max);
    match Split(cs, max)
    case Whole(_) => FitsImpliesPlaceable(cs, max);
    case Parts(first, rest) =>
      RestIsShorter(cs, max, first, rest);
      SplitAllSucceedsIff(rest, max);
      RestPlaceable(cs, max, first, rest);
    case Unsplit(_) => FirstUnplaceable(cs, max);
  }

  lemma FirstUnplaceable(cs: seq<RawChunk>, max: nat)
    requires cs != [] && BytesLen(cs[0]) > max && !(IsStream(cs[0].ty) && MIN_CHUNK_BYTES_SIZE < max)
    ensures !AllPlaceable(cs, max)
  {
  }

  /**
    * At 12 bytes just the lists of empty chunks can be split, whatever their total. So neither
    * a maximum of 13 nor a list that fits is needed: an empty data chunk and an entry's end do
    * not fit together, but each makes a part of its own.
    */
  lemma BareFramesSplit(cs: seq<RawChunk>)
    ensures SplitAll(cs, 12).Ok? <==> forall c <- cs :: c.data == []
    ensures var two := [FromData(FDAT, []), FromData(FEND, [])];
            TotalLen(two) == 24 && SplitAll(two, 12).Ok?
  {
    hide SplitAll;
    SplitAllSucceedsIff(cs, 12);
    assert SplitAll(cs, 12).Ok? <==> forall c <- cs :: c.data == [] by {
      if AllPlaceable(cs, 12) {
        forall c <- cs ensures c.data == [] {
          var i :| 0 <= i < |cs| && cs[i] == c;
          assert Placeable(cs[i], 12);
        }
      }
    }
    var two := [FromData(FDAT, []), FromData(FEND, [])];
    SplitAllSucceedsIff(two, 12);
    TotalLenOne(two[1]);
    assert two[1..] == [two[1]];
  }

  /**
    * How many parts there are: every part but the last is full up to the slack, and no part
    * is larger than the bound.
    */
  lemma {:induction false} NumberOfParts(cs: seq<RawChunk>, max: nat)
    requires SplitAll(cs, max).Ok?
    ensures var n := |SplitAll(cs, max).value|;
            && n >= 1
            && TotalLen(cs) <= n * max
            && (n > 1 ==> (n - 1) * (max - Slack(LargestFixed(cs))) <= TotalLen(cs) - 12)
            && forall i :: 0 <= i < n ==> TotalLen(SplitAll(cs, max).value[i]) <= max
    decreases TotalLen(cs)
  {
    hide Split, LargestFixed, TotalLen, Slack;
    SplitVerdict(cs, max);
    match Split(cs, max)
    case Whole(_) =>
    case Parts(first, rest) =>
      SplitProgress(cs, max, first, rest);
      NumberOfParts(rest, max);
      var n := |SplitAll(rest, max).value|;
      TotalLenAtLeast(rest);
      SlackGrows(LargestFixed(rest), LargestFixed(cs));
      PartsStep(n, max, Slack(LargestFixed(rest)), Slack(LargestFixed(cs)), TotalLen(rest), TotalLen(cs));
  }

  lemma SlackGrows(a: nat, b: nat)
    requires a <= b
    ensures Slack(a) <= Slack(b)
  {
  }

  lemma PartsStep(n: nat, max: nat, slackOfRest: nat, slack: nat, rest: nat, total: nat)
    requires n >= 1 && slackOfRest <= slack && rest + max <= total + slack && rest >= 12
    requires n > 1 ==> (n - 1) * (max - slackOfRest) <= rest - 12
    ensures n * (max - slack) <= total - 12
    ensures n * max + max == (n + 1) * max
  {
    assert n * (max - slack) == (n - 1) * (max - slack) + (max - slack);
    assert (n - 1) * (max - slack) <= (n - 1) * (max - slackOfRest);
  }
}
