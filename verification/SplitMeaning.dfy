/** Splitting and joining the parts again keeps what an entry means. */
module SplitMeaning {
  import opened Basics
  import opened Octets
  import opened Utf8
  import opened Chunks
  import opened EntryMetadata
  import opened Entries
  import opened SolidEntries
  import opened SolidStream
  import opened Splitting

  // ---------------------------------------------------------------- cutting chunks

  /** `x` carries the first bytes of the stream chunk `c`, in a frame of its own. */
  predicate IsHeadPiece(c: RawChunk, x: RawChunk) {
    IsStream(c.ty) && 0 < |x.data| < |c.data| && x == FromData(c.ty, c.data[..|x.data|])
  }

  function TailPiece(c: RawChunk, x: RawChunk): RawChunk
    requires IsHeadPiece(c, x)
  {
    FromData(c.ty, c.data[|x.data|..])
  }

  /** `b` is `a` with some of its stream chunks cut into pieces. */
  predicate Recut(a: seq<RawChunk>, b: seq<RawChunk>)
    decreases |b|
  {
    if a == [] then b == []
    else
      b != []
      && ((b[0] == a[0] && Recut(a[1..], b[1..]))
          || (IsHeadPiece(a[0], b[0]) && Recut([TailPiece(a[0], b[0])] + a[1..], b[1..])))
  }

  lemma {:induction false} RecutPrefix(p: seq<RawChunk>, a: seq<RawChunk>, b: seq<RawChunk>)
    requires Recut(a, b)
    ensures Recut(p + a, p + b)
  {
    hide IsHeadPiece;
    if p == [] {
      assert p + a == a && p + b == b;
    } else {
      RecutPrefix(p[1..], a, b);
      assert (p + a)[1..] == p[1..] + a && (p + b)[1..] == p[1..] + b;
    }
  }

  /** Joining what a split leaves, with what remains itself recut, only cuts stream chunks. */
  lemma JoinedSplit(cs: seq<RawChunk>, max: nat, first: seq<RawChunk>, rest: seq<RawChunk>,
                    later: seq<RawChunk>)
    requires Divided(cs, max, first, rest) && Recut(rest, later)
    ensures Recut(cs, first + later)
  {
    hide FromData, TotalLen;
    if DividesBetween(cs, max, first, rest) {
      RecutPrefix(first, rest, later);
    } else {
      var i: nat :| CutsAt(cs, max, first, rest, i);
      var c, p, q := cs[i], cs[..i], cs[i + 1..];
      var k := max - TotalLen(p) - MIN_CHUNK_BYTES_SIZE;
      var x := FromData(c.ty, c.data[..k]);
      PieceData(c, k);
      assert IsHeadPiece(c, x) && [TailPiece(c, x)] + q == rest;
      assert ([c] + q)[1..] == q && ([x] + later)[1..] == later;
      assert Recut([c] + q, [x] + later);
      RecutPrefix(p, [c] + q, [x] + later);
      assert p + ([c] + q) == cs && p + ([x] + later) == first + later;
    }
  }

  lemma PieceData(c: RawChunk, k: nat)
    requires k <= |c.data|
    ensures FromData(c.ty, c.data[..k]).data == c.data[..k]
  {
  }

  lemma RecutItself(cs: seq<RawChunk>)
    ensures Recut(cs, cs)
  {
    assert Recut([], []);
    RecutPrefix(cs, [], []);
    assert cs + [] == cs;
  }

  /** The parts of an iterated split, joined, are the original with stream chunks cut. */
  lemma {:induction false} PartsRecut(cs: seq<RawChunk>, max: nat)
    requires SplitAll(cs, max).Ok?
    ensures Recut(cs, Concat(SplitAll(cs, max).value))
    decreases TotalLen(cs)
  {
    hide Split, Recut, Divided;
    SplitVerdict(cs, max);
    var r := Split(cs, max);
    if r.Whole? {
      ConcatOne(cs);
      RecutItself(cs);
    } else {
      RestIsShorter(cs, max, r.first, r.rest);
      PartsRecut(r.rest, max);
      var later := SplitAll(r.rest, max).value;
      assert ([r.first] + later)[1..] == later;
      JoinedSplit(cs, max, r.first, r.rest, Concat(later));
    }
  }

  // ---------------------------------------------------------------- normal entries

  /** The same locals, up to how the data is chunked. */
  ghost predicate SameButChunking(f: Fields, g: Fields) {
    f.(data := []) == g.(data := []) && Concat(f.data) == Concat(g.data)
  }

  ghost predicate SameBody(a: IoResult<Fields>, b: IoResult<Fields>) {
    match (a, b)
    case (Ok(f), Ok(g)) => SameButChunking(f, g)
    case (Err(x), Err(y)) => x == y
    case _ => false
  }

  lemma SetAlike(f: Fields, g: Fields, c: RawChunk)
    requires SameButChunking(f, g) && Check(c).Ok?
    ensures SameButChunking(Set(f, c), Set(g, c))
  {
    hide Check, Concat, SecondsAt, NanosAt, LegacyAt, IdAt, OwnerStringAt, ModeAt, LinkTargetAt,
         SizeAt, PhsfAt, XattrOf, FieldOf;
    if FieldOf(c.ty) == Data {
      ConcatAppend(f.data, [c.data]);
      ConcatAppend(g.data, [c.data]);
    }
  }

  lemma {:induction false} BodyAlike(f: Fields, g: Fields, cs: seq<RawChunk>)
    requires SameButChunking(f, g)
    ensures SameBody(Body(f, cs), Body(g, cs))
    decreases |cs|
  {
    hide Check, Set, SameButChunking;
    if cs != [] && cs[0].ty != FEND && Check(cs[0]).Ok? {
      SetAlike(f, g, cs[0]);
      BodyAlike(Set(f, cs[0]), Set(g, cs[0]), cs[1..]);
    }
  }

  /** Taking the two pieces of a data chunk sets what taking the whole chunk would. */
  lemma PiecesSetAlike(f: Fields, c: RawChunk, x: RawChunk)
    requires IsHeadPiece(c, x) && c.ty == FDAT
    ensures Check(c).Ok? && Check(x).Ok? && Check(TailPiece(c, x)).Ok?
    ensures x.ty == TailPiece(c, x).ty == FDAT
    ensures SameButChunking(Set(f, c), Set(Set(f, x), TailPiece(c, x)))
  {
    hide Concat, XattrOf;
    var y := TailPiece(c, x);
    DataIsData();
    assert c.data == x.data + y.data;
    ConcatAppend(f.data, [c.data]);
    ConcatAppend(f.data, [x.data]);
    ConcatAppend(f.data + [x.data], [y.data]);
    ConcatOne(c.data);
    ConcatOne(x.data);
    ConcatOne(y.data);
    Assoc(Concat(f.data), x.data, y.data);
  }

  lemma DataIsData()
    ensures FieldOf(FDAT) == Data && FieldOf(SDAT) == Other && IsCritical(SDAT)
  {
  }

  lemma {:induction false} RecutBody(f: Fields, g: Fields, a: seq<RawChunk>, b: seq<RawChunk>)
    requires Recut(a, b) && SameButChunking(f, g)
    ensures SameBody(Body(f, a), Body(g, b))
    decreases |b|
  {
    hide Check, Set, SameButChunking, IsHeadPiece, FieldOf;
    if a != [] {
      var c, x := a[0], b[0];
      if x == c && Recut(a[1..], b[1..]) {
        if c.ty != FEND && Check(c).Ok? {
          SetAlike(f, g, c);
          RecutBody(Set(f, c), Set(g, c), a[1..], b[1..]);
        }
      } else {
        PieceTypes(c, x);
        if c.ty == FDAT {
          PiecesSetAlike(f, c, x);
          SetAlike(f, g, x);
          var pieces := [TailPiece(c, x)] + a[1..];
          RecutBody(Set(f, x), Set(g, x), pieces, b[1..]);
          assert pieces[1..] == a[1..];
          BodyAlike(Set(f, c), Set(Set(f, x), TailPiece(c, x)), a[1..]);
          SameBodyTransitive(Body(f, a), Body(Set(f, x), pieces), Body(g, b));
        } else {
          SolidDataRefused(c);
          SolidDataRefused(x);
        }
      }
    }
  }

  lemma PieceTypes(c: RawChunk, x: RawChunk)
    requires IsHeadPiece(c, x)
    ensures x.ty == c.ty && (c.ty == FDAT || c.ty == SDAT) && FDAT != FEND && SDAT != FEND
  {
  }

  lemma SolidDataRefused(c: RawChunk)
    requires c.ty == SDAT
    ensures Check(c) == Err(InvalidData)
  {
    DataIsData();
  }

  lemma SameBodyTransitive(a: IoResult<Fields>, b: IoResult<Fields>, c: IoResult<Fields>)
    requires SameBody(a, b) && SameBody(b, c)
    ensures SameBody(a, c)
  {
    hide Concat;
  }

  /** The same entry, up to how its data is chunked: everything else is equal. */
  ghost predicate SameEntry(a: IoResult<NormalEntry>, b: IoResult<NormalEntry>) {
    match (a, b)
    case (Ok(x), Ok(y)) => x.(data := []) == y.(data := []) && Concat(x.data) == Concat(y.data)
    case (Err(x), Err(y)) => x == y
    case _ => false
  }

  lemma RecutParse(a: seq<RawChunk>, b: seq<RawChunk>)
    requires Recut(a, b)
    ensures SameEntry(Parse(a), Parse(b))
  {
    hide Body, HeaderOf, Concat, Timestamp, FillFacets, IsHeadPiece;
    if a != [] {
      if b[0] == a[0] && Recut(a[1..], b[1..]) {
        assert SameButChunking(NO_FIELDS, NO_FIELDS);
        RecutBody(NO_FIELDS, NO_FIELDS, a[1..], b[1..]);
      } else {
        PieceTypes(a[0], b[0]);
      }
    }
  }

  /**
    * Splitting preserves meaning: whatever the bound, the joined parts of an entry parse to
    * the same header, password hash, metadata, extras and flattened data, or fail with the
    * same error.
    */
  lemma SplittingKeepsEntry(cs: seq<RawChunk>, max: nat)
    requires SplitAll(cs, max).Ok?
    ensures SameEntry(Parse(cs), Parse(Concat(SplitAll(cs, max).value)))
  {
    hide SplitAll, Parse, Recut;
    PartsRecut(cs, max);
    RecutParse(cs, Concat(SplitAll(cs, max).value));
  }

  // ---------------------------------------------------------------- solid entries

  ghost predicate SameSolidFields(f: SolidFields, g: SolidFields) {
    f.phsf == g.phsf && f.extra == g.extra && Concat(f.data) == Concat(g.data)
  }

  ghost predicate SameSolidBody(a: IoResult<SolidFields>, b: IoResult<SolidFields>) {
    match (a, b)
    case (Ok(f), Ok(g)) => SameSolidFields(f, g)
    case (Err(x), Err(y)) => x == y
    case _ => false
  }

  lemma {:induction false} RecutSolidBody(f: SolidFields, g: SolidFields, a: seq<RawChunk>,
                                          b: seq<RawChunk>)
    requires Recut(a, b) && SameSolidFields(f, g)
    ensures SameSolidBody(SolidBody(f, a), SolidBody(g, b))
    decreases |b|
  {
    hide IsHeadPiece, Concat, PhsfOf;
    if a != [] {
      var c, x := a[0], b[0];
      if x == c && Recut(a[1..], b[1..]) {
        if c.ty == SDAT {
          ConcatAppend(f.data, [c.data]);
          ConcatAppend(g.data, [c.data]);
          RecutSolidBody(f.(data := f.data + [c.data]), g.(data := g.data + [c.data]), a[1..], b[1..]);
        } else if c.ty == PHSF {
          if PhsfOf(c.data).Ok? {
            var phsf := Some(PhsfOf(c.data).value);
            RecutSolidBody(f.(phsf := phsf), g.(phsf := phsf), a[1..], b[1..]);
          }
        } else if c.ty != SEND && !IsCritical(c.ty) {
          RecutSolidBody(f.(extra := f.extra + [c]), g.(extra := g.extra + [c]), a[1..], b[1..]);
        }
      } else {
        PieceTypes(c, x);
        if c.ty == SDAT {
          SolidPieces(f, g, a, b);
        }
      }
    }
  }

  lemma {:induction false} SolidPieces(f: SolidFields, g: SolidFields, a: seq<RawChunk>, b: seq<RawChunk>)
    requires a != [] && b != [] && a[0].ty == SDAT && IsHeadPiece(a[0], b[0])
    requires Recut([TailPiece(a[0], b[0])] + a[1..], b[1..]) && SameSolidFields(f, g)
    ensures SameSolidBody(SolidBody(f, a), SolidBody(g, b))
    decreases |b|, 0
  {
    hide Concat, PhsfOf, Recut;
    var c, x := a[0], b[0];
    var y := TailPiece(c, x);
    var pieces := [y] + a[1..];
    var fx, gx := f.(data := f.data + [x.data]), g.(data := g.data + [x.data]);
    ConcatAppend(f.data, [x.data]);
    ConcatAppend(g.data, [x.data]);
    RecutSolidBody(fx, gx, pieces, b[1..]);
    assert pieces[1..] == a[1..];
    var fxy, fc := fx.(data := fx.data + [y.data]), f.(data := f.data + [c.data]);
    assert c.data == x.data + y.data;
    ConcatAppend(f.data, [c.data]);
    ConcatAppend(fx.data, [y.data]);
    ConcatOne(c.data);
    ConcatOne(x.data);
    ConcatOne(y.data);
    Assoc(Concat(f.data), x.data, y.data);
    SolidBodyAlike(fc, fxy, a[1..]);
  }

  lemma {:induction false} SolidBodyAlike(f: SolidFields, g: SolidFields, cs: seq<RawChunk>)
    requires SameSolidFields(f, g)
    ensures SameSolidBody(SolidBody(f, cs), SolidBody(g, cs))
    decreases |cs|
  {
    hide Concat, PhsfOf;
    if cs != [] && cs[0].ty != SEND {
      var c := cs[0];
      if c.ty == SDAT {
        ConcatAppend(f.data, [c.data]);
        ConcatAppend(g.data, [c.data]);
        SolidBodyAlike(f.(data := f.data + [c.data]), g.(data := g.data + [c.data]), cs[1..]);
      } else if c.ty == PHSF {
        if PhsfOf(c.data).Ok? {
          var phsf := Some(PhsfOf(c.data).value);
          SolidBodyAlike(f.(phsf := phsf), g.(phsf := phsf), cs[1..]);
        }
      } else if !IsCritical(c.ty) {
        SolidBodyAlike(f.(extra := f.extra + [c]), g.(extra := g.extra + [c]), cs[1..]);
      }
    }
  }

  /** Decryption and decompression: any function of the header, password hash and data bytes. */
  type Decoder = (SolidHeader, Option<Utf8String>, Bytes) -> IoResult<Bytes>

  /** `SolidEntry::entries`: the entries in the decoded data, up to the first error. */
  function InnerEntries(e: SolidEntry, decode: Decoder): IoResult<(seq<NormalEntry>, Option<ErrorKind>)> {
    var bytes :- decode(e.header, e.phsf, Concat(e.data));
    Ok(Drain(bytes))
  }

  ghost predicate SameSolid(a: IoResult<SolidEntry>, b: IoResult<SolidEntry>) {
    match (a, b)
    case (Ok(x), Ok(y)) => x.(data := []) == y.(data := []) && Concat(x.data) == Concat(y.data)
    case (Err(x), Err(y)) => x == y
    case _ => false
  }

  lemma RecutParseSolid(a: seq<RawChunk>, b: seq<RawChunk>)
    requires Recut(a, b)
    ensures SameSolid(ParseSolid(a), ParseSolid(b))
  {
    hide SolidBody, SolidHeaderOf, Concat, IsHeadPiece;
    if a != [] {
      if b[0] == a[0] && Recut(a[1..], b[1..]) {
        RecutSolidBody(NO_SOLID_FIELDS, NO_SOLID_FIELDS, a[1..], b[1..]);
      } else {
        PieceTypes(a[0], b[0]);
      }
    }
  }

  /**
    * For a solid entry the joined parts also hold the same sequence of inner entries, under
    * any decoder of the flattened data.
    */
  lemma SplittingKeepsSolid(cs: seq<RawChunk>, max: nat, decode: Decoder)
    requires SplitAll(cs, max).Ok?
    ensures var joined := ParseSolid(Concat(SplitAll(cs, max).value));
            && SameSolid(ParseSolid(cs), joined)
            && (joined.Ok? ==>
                  InnerEntries(ParseSolid(cs).value, decode) == InnerEntries(joined.value, decode))
  {
    hide SplitAll, ParseSolid, Recut, Drain;
    PartsRecut(cs, max);
    RecutParseSolid(cs, Concat(SplitAll(cs, max).value));
  }
}
