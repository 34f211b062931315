/**
  * What an entry's chunks mean, with no loop in sight: each field of the parsed entry is a
  * function of the chunks of one kind. The parser agrees, so chunk order matters only
  * among chunks that feed the same field.
  */
module EntryMeaning {
  import opened Basics
  import opened Octets
  import opened Chunks
  import opened EntryMetadata
  import opened Entries

  /** The chunks that feed one field, in order. */
  function Only(cs: seq<RawChunk>, field: Field): seq<RawChunk> {
    if cs == [] then []
    else
      var last := cs[|cs| - 1];
      Only(cs[..|cs| - 1], field) + if FieldOf(last.ty) == field then [last] else []
  }

  /** The body of the last chunk that feeds a field: later ones win. */
  function LastBody(cs: seq<RawChunk>, field: Field): Option<Bytes> {
    var s := Only(cs, field);
    if s == [] then None else Some(s[|s| - 1].data)
  }

  function Bodies(cs: seq<RawChunk>): seq<Bytes> {
    if cs == [] then [] else Bodies(cs[..|cs| - 1]) + [cs[|cs| - 1].data]
  }

  function SumOfLengths(data: seq<Bytes>): nat {
    if data == [] then 0 else SumOfLengths(data[..|data| - 1]) + |data[|data| - 1]|
  }

  function XattrsOf(cs: seq<RawChunk>): seq<Xattr> {
    if cs == [] then []
    else
      var x := XattrOf(cs[|cs| - 1].data);
      XattrsOf(cs[..|cs| - 1]) + if x.Ok? then [x.value] else []
  }

  function TimesMeaning(cs: seq<RawChunk>): Times {
    Times(SecondsAt(LastBody(cs, CTime)), SecondsAt(LastBody(cs, MTime)),
          SecondsAt(LastBody(cs, ATime)), NanosAt(LastBody(cs, CTimeNanos)),
          NanosAt(LastBody(cs, MTimeNanos)), NanosAt(LastBody(cs, ATimeNanos)))
  }

  function FacetsMeaning(cs: seq<RawChunk>): Facets {
    Facets(IdAt(LastBody(cs, Uid)), IdAt(LastBody(cs, Gid)),
           OwnerStringAt(LastBody(cs, UserName)), OwnerStringAt(LastBody(cs, GroupName)),
           OwnerStringAt(LastBody(cs, UserSid)), OwnerStringAt(LastBody(cs, GroupSid)),
           ModeAt(LastBody(cs, Mode)))
  }

  /** The fields that a list of chunks sets, read off kind by kind. */
  function Meaning(cs: seq<RawChunk>): Fields {
    var data := Bodies(Only(cs, Data));
    Fields(SumOfLengths(data), Only(cs, Other), data, XattrsOf(Only(cs, XattrField)),
           SizeAt(LastBody(cs, Size)), PhsfAt(LastBody(cs, Phsf)), TimesMeaning(cs),
           LegacyAt(LastBody(cs, Legacy)), FacetsMeaning(cs),
           LinkTargetAt(LastBody(cs, LinkField)))
  }

  lemma OnlySnoc(cs: seq<RawChunk>, c: RawChunk)
    ensures forall field :: Only(cs + [c], field)
                            == if FieldOf(c.ty) == field then Only(cs, field) + [c] else Only(cs, field)
    ensures forall field :: LastBody(cs + [c], field)
                            == if FieldOf(c.ty) == field then Some(c.data) else LastBody(cs, field)
  {
    var all := cs + [c];
    assert all[..|all| - 1] == cs;
    forall field
      ensures Only(all, field) == if FieldOf(c.ty) == field then Only(cs, field) + [c] else Only(cs, field)
    {
      assert Only(cs, field) + [] == Only(cs, field);
    }
  }

  lemma BodiesSnoc(cs: seq<RawChunk>, c: RawChunk)
    ensures Bodies(cs + [c]) == Bodies(cs) + [c.data]
    ensures SumOfLengths(Bodies(cs + [c])) == SumOfLengths(Bodies(cs)) + |c.data|
  {
    var all := cs + [c];
    assert all[..|all| - 1] == cs;
    var data := Bodies(all);
    assert data[..|data| - 1] == Bodies(cs);
  }

  lemma XattrsSnoc(cs: seq<RawChunk>, c: RawChunk)
    requires XattrOf(c.data).Ok?
    ensures XattrsOf(cs + [c]) == XattrsOf(cs) + [XattrOf(c.data).value]
  {
    var all := cs + [c];
    assert all[..|all| - 1] == cs;
  }

  /** A chunk the parser can take turns the meaning of a list into that of the longer one. */
  lemma MeaningSnoc(cs: seq<RawChunk>, c: RawChunk)
    requires c.ty != FEND && Check(c).Ok?
    ensures Meaning(cs + [c]) == Set(Meaning(cs), c)
  {
    OnlySnoc(cs, c);
    if FieldOf(c.ty) == Data {
      DataSnoc(cs, c);
    } else if FieldOf(c.ty) == XattrField {
      XattrSnoc(cs, c);
    } else {
      LastWinsSnoc(cs, c);
    }
  }

  /** Data and attribute chunks leave the meaning of every other field as it was. */
  lemma OthersKept(cs: seq<RawChunk>, c: RawChunk)
    requires FieldOf(c.ty) == Data || FieldOf(c.ty) == XattrField
    ensures Meaning(cs + [c]).(compressedSize := 0, data := [], xattrs := [])
            == Meaning(cs).(compressedSize := 0, data := [], xattrs := [])
  {
    hide SecondsAt, NanosAt, LegacyAt, IdAt, OwnerStringAt, ModeAt, LinkTargetAt, SizeAt, PhsfAt,
         XattrOf, Only, LastBody, Bodies, SumOfLengths, XattrsOf, FieldOf;
    OnlySnoc(cs, c);
  }

  lemma DataSnoc(cs: seq<RawChunk>, c: RawChunk)
    requires FieldOf(c.ty) == Data
    ensures Meaning(cs + [c]) == Set(Meaning(cs), c)
  {
    hide Only, Bodies, SumOfLengths, XattrsOf, FieldOf, LastBody, TimesMeaning, FacetsMeaning;
    OthersKept(cs, c);
    OnlySnoc(cs, c);
    BodiesSnoc(Only(cs, Data), c);
  }

  lemma XattrSnoc(cs: seq<RawChunk>, c: RawChunk)
    requires FieldOf(c.ty) == XattrField && Check(c).Ok?
    ensures Meaning(cs + [c]) == Set(Meaning(cs), c)
  {
    hide XattrOf, Only, Bodies, SumOfLengths, XattrsOf, FieldOf, LastBody, TimesMeaning,
         FacetsMeaning;
    OthersKept(cs, c);
    OnlySnoc(cs, c);
    XattrsSnoc(Only(cs, XattrField), c);
  }

  lemma TimesSnoc(f: Fields, cs: seq<RawChunk>, c: RawChunk)
    requires f.times == TimesMeaning(cs) && Check(c).Ok?
    ensures Set(f, c).times == TimesMeaning(cs + [c])
  {
    hide SecondsAt, NanosAt, LegacyAt, IdAt, OwnerStringAt, ModeAt, LinkTargetAt, SizeAt, PhsfAt,
         XattrOf, Only, LastBody, Bodies, SumOfLengths, XattrsOf, FieldOf, Check;
    OnlySnoc(cs, c);
  }

  lemma FacetsSnoc(f: Fields, cs: seq<RawChunk>, c: RawChunk)
    requires f.facets == FacetsMeaning(cs) && Check(c).Ok?
    ensures Set(f, c).facets == FacetsMeaning(cs + [c])
  {
    hide SecondsAt, NanosAt, LegacyAt, IdAt, OwnerStringAt, ModeAt, LinkTargetAt, SizeAt, PhsfAt,
         XattrOf, Only, LastBody, Bodies, SumOfLengths, XattrsOf, FieldOf, Check;
    OnlySnoc(cs, c);
  }

  /** What one more chunk does to the fields outside `times` and `facets`. */
  lemma PlainSnoc(cs: seq<RawChunk>, c: RawChunk)
    requires FieldOf(c.ty) != Data && FieldOf(c.ty) != XattrField
    ensures var field, was, now := FieldOf(c.ty), Meaning(cs), Meaning(cs + [c]);
            && now.compressedSize == was.compressedSize && now.data == was.data && now.xattrs == was.xattrs
            && now.extra == (if field == Other then was.extra + [c] else was.extra)
            && now.size == (if field == Size then SizeAt(Some(c.data)) else was.size)
            && now.phsf == (if field == Phsf then PhsfAt(Some(c.data)) else was.phsf)
            && now.permission == (if field == Legacy then LegacyAt(Some(c.data)) else was.permission)
            && now.linkTargetType == (if field == LinkField then LinkTargetAt(Some(c.data)) else was.linkTargetType)
            && was.times == TimesMeaning(cs) && now.times == TimesMeaning(cs + [c])
            && was.facets == FacetsMeaning(cs) && now.facets == FacetsMeaning(cs + [c])
  {
    hide LegacyAt, LinkTargetAt, SizeAt, PhsfAt, Only, LastBody, Bodies, SumOfLengths, XattrsOf, FieldOf,
         TimesMeaning, FacetsMeaning;
    OnlySnoc(cs, c);
  }

  lemma LastWinsSnoc(cs: seq<RawChunk>, c: RawChunk)
    requires !FieldOf(c.ty).End? && !FieldOf(c.ty).Data? && !FieldOf(c.ty).XattrField? && Check(c).Ok?
    ensures Meaning(cs + [c]) == Set(Meaning(cs), c)
  {
    hide SecondsAt, NanosAt, LegacyAt, IdAt, OwnerStringAt, ModeAt, LinkTargetAt, SizeAt, PhsfAt,
         Meaning, FieldOf, Check, TimesMeaning, FacetsMeaning;
    PlainSnoc(cs, c);
    TimesSnoc(Meaning(cs), cs, c);
    FacetsSnoc(Meaning(cs), cs, c);
  }

  // ---------------------------------------------------------------- the parser agrees

  /** The error of the first chunk that the parser cannot take. */
  function FirstError(cs: seq<RawChunk>): Option<ErrorKind> {
    if cs == [] then None
    else if Check(cs[0]).Err? then Some(Check(cs[0]).error)
    else FirstError(cs[1..])
  }

  predicate HasEnd(cs: seq<RawChunk>) {
    exists i :: 0 <= i < |cs| && cs[i].ty == FEND
  }

  /** The position of the first end chunk. */
  lemma {:induction false} FirstEnd(cs: seq<RawChunk>) returns (i: nat)
    requires HasEnd(cs)
    ensures i < |cs| && cs[i].ty == FEND && !HasEnd(cs[..i])
    decreases |cs|
  {
    if cs[0].ty == FEND {
      i := 0;
    } else {
      var j :| 0 <= j < |cs| && cs[j].ty == FEND;
      assert cs[1..][j - 1].ty == FEND;
      var k := FirstEnd(cs[1..]);
      i := k + 1;
      assert forall n :: 0 < n < i ==> cs[..i][n] == cs[1..][..k][n - 1];
    }
  }

  function Outcome(fields: Fields, error: Option<ErrorKind>): IoResult<Fields> {
    if error.Some? then Err(error.value) else Ok(fields)
  }

  lemma {:induction false} BodyMeaning(before: seq<RawChunk>, cs: seq<RawChunk>, end: RawChunk,
                                       tail: seq<RawChunk>)
    requires !HasEnd(cs) && end.ty == FEND
    ensures Body(Meaning(before), cs + [end] + tail)
            == Outcome(Meaning(before + cs), FirstError(cs))
    decreases |cs|
  {
    hide Meaning, Check, Set;
    var all := cs + [end] + tail;
    if cs == [] {
      assert before + cs == before;
    } else {
      var c, later := cs[0], cs[1..];
      assert cs[0].ty != FEND;
      assert all[0] == c && all[1..] == later + [end] + tail;
      if Check(c).Ok? {
        MeaningSnoc(before, c);
        assert before + [c] + later == before + cs;
        assert !HasEnd(later) by {
          assert forall i :: 0 <= i < |later| ==> later[i] == cs[i + 1];
        }
        BodyMeaning(before + [c], later, end, tail);
      }
    }
  }

  lemma {:induction false} UnterminatedFails(f: Fields, cs: seq<RawChunk>)
    requires !HasEnd(cs)
    ensures Body(f, cs).Err?
    decreases |cs|
  {
    hide Check, Set;
    if cs != [] && Check(cs[0]).Ok? {
      assert cs[0].ty != FEND;
      assert forall i :: 0 <= i < |cs[1..]| ==> cs[1..][i] == cs[i + 1];
      UnterminatedFails(Set(f, cs[0]), cs[1..]);
    }
  }

  /** An entry from its parts: a header chunk, what it holds, an end chunk, and the rest. */
  function Framed(head: RawChunk, cs: seq<RawChunk>, end: RawChunk, tail: seq<RawChunk>)
    : seq<RawChunk>
  {
    [head] + (cs + [end] + tail)
  }

  /**
    * What parsing comes to: the header's verdict, then the first chunk that cannot be taken,
    * and otherwise the entry whose every field is read off the chunks of its own kind.
    */
  lemma ParseMeaning(head: RawChunk, cs: seq<RawChunk>, end: RawChunk, tail: seq<RawChunk>)
    requires !HasEnd(cs) && end.ty == FEND
    ensures Parse(Framed(head, cs, end, tail)) ==
            match ParseHeader([head])
            case Err(e) => Err(e)
            case Ok(header) =>
              match FirstError(cs)
              case Some(e) => Err(e)
              case None => Ok(Finish(header, Meaning(cs)))
  {
    hide Check, Set, Finish, Body, Meaning, HeaderOf, Only;
    var all := Framed(head, cs, end, tail);
    assert all[0] == head && all[1..] == cs + [end] + tail;
    assert ParseHeader(all) == ParseHeader([head]);
    BodyMeaning([], cs, end, tail);
    assert [] + cs == cs;
    NothingMeansNothing();
  }

  /** A chunk list that parses is a framed one whose chunks the parser can all take. */
  lemma ParsedShape(cs: seq<RawChunk>)
    returns (header: EntryHeader, a: seq<RawChunk>, end: RawChunk, tail: seq<RawChunk>)
    requires Parse(cs).Ok?
    ensures cs != [] && cs == Framed(cs[0], a, end, tail)
    ensures !HasEnd(a) && end.ty == FEND && FirstError(a).None?
    ensures header.major == 0 && header.minor == 0
    ensures Parse(cs) == Ok(Finish(header, Meaning(a)))
  {
    hide HeaderOf, Finish, Meaning, FirstError, Body;
    assert cs != [];
    var body := cs[1..];
    if !HasEnd(body) {
      UnterminatedFails(NO_FIELDS, body);
    }
    var i := FirstEnd(body);
    a, end, tail := body[..i], body[i], body[i + 1..];
    assert body == a + [end] + tail;
    assert cs == Framed(cs[0], a, end, tail);
    ParseMeaning(cs[0], a, end, tail);
    header := ParseHeader([cs[0]]).value;
  }

  lemma NothingMeansNothing()
    ensures Meaning([]) == NO_FIELDS
  {
  }

  // ---------------------------------------------------------------- order independence

  lemma {:induction false} OnlyKeeps(cs: seq<RawChunk>, c: RawChunk)
    ensures c in cs <==> c in Only(cs, FieldOf(c.ty))
  {
    hide FieldOf;
    if cs != [] {
      OnlyKeeps(cs[..|cs| - 1], c);
      assert cs == cs[..|cs| - 1] + [cs[|cs| - 1]];
    }
  }

  lemma {:induction false} FirstErrorIff(cs: seq<RawChunk>)
    ensures FirstError(cs).Some? <==> exists c :: c in cs && Check(c).Err?
  {
    hide Check;
    if cs != [] {
      FirstErrorIff(cs[1..]);
      assert cs == [cs[0]] + cs[1..];
    }
  }

  /** Chunk lists that feed every field the same chunks in the same order. */
  ghost predicate FeedAlike(a: seq<RawChunk>, b: seq<RawChunk>) {
    forall field :: Only(a, field) == Only(b, field)
  }

  lemma FeedAlikeFailAlike(a: seq<RawChunk>, b: seq<RawChunk>)
    requires FeedAlike(a, b)
    ensures FirstError(a).Some? <==> FirstError(b).Some?
  {
    hide Check, Only, FieldOf;
    FirstErrorIff(a);
    FirstErrorIff(b);
    forall c
      ensures c in a <==> c in b
    {
      OnlyKeeps(a, c);
      OnlyKeeps(b, c);
    }
  }

  /**
    * Any reordering that keeps the order among chunks feeding the same field gives the same
    * entry, or fails both ways. In particular the legacy fill cannot see arrival order.
    */
  lemma ReorderingKeepsEntry(head: RawChunk, a: seq<RawChunk>, b: seq<RawChunk>,
                             end: RawChunk, tail: seq<RawChunk>)
    requires !HasEnd(a) && !HasEnd(b) && end.ty == FEND
    requires FeedAlike(a, b)
    ensures SameOutcome(Parse(Framed(head, a, end, tail)), Parse(Framed(head, b, end, tail)))
  {
    ParseMeaning(head, a, end, tail);
    ParseMeaning(head, b, end, tail);
    FeedAlikeFailAlike(a, b);
    FeedAlikeMeanAlike(a, b);
  }

  lemma FeedAlikeMeanAlike(a: seq<RawChunk>, b: seq<RawChunk>)
    requires FeedAlike(a, b)
    ensures Meaning(a) == Meaning(b)
  {
    hide SecondsAt, NanosAt, LegacyAt, IdAt, OwnerStringAt, ModeAt, LinkTargetAt, SizeAt, PhsfAt,
         XattrOf, Only, Bodies, SumOfLengths, XattrsOf;
  }

  lemma {:induction false} OnlyAppend(a: seq<RawChunk>, b: seq<RawChunk>, field: Field)
    ensures Only(a + b, field) == Only(a, field) + Only(b, field)
  {
    hide FieldOf;
    if b == [] {
      assert a + b == a;
    } else {
      var init := b[..|b| - 1];
      OnlyAppend(a, init, field);
      assert (a + b)[..|a + b| - 1] == a + init;
    }
  }

  /**
    * Swapping two adjacent chunks of different types, unless both are types the parser does
    * not claim, gives the same entry or fails both ways.
    */
  lemma SwapKeepsEntry(head: RawChunk, before: seq<RawChunk>, x: RawChunk, y: RawChunk,
                       after: seq<RawChunk>, end: RawChunk, tail: seq<RawChunk>)
    requires !HasEnd(before + [x, y] + after) && end.ty == FEND
    requires x.ty != y.ty && !(FieldOf(x.ty) == Other && FieldOf(y.ty) == Other)
    ensures SameOutcome(Parse(Framed(head, before + [x, y] + after, end, tail)),
                        Parse(Framed(head, before + [y, x] + after, end, tail)))
  {
    var a, b := before + [x, y] + after, before + [y, x] + after;
    if FieldOf(x.ty) == FieldOf(y.ty) {
      FieldsAreDistinct(x.ty, y.ty);
    }
    SwapFeedsAlike(before, x, y, after);
    assert !HasEnd(b) by {
      forall i | 0 <= i < |b|
        ensures b[i].ty != FEND
      {
        assert b[i] == a[if i == |before| then i + 1 else if i == |before| + 1 then i - 1 else i];
      }
    }
    ReorderingKeepsEntry(head, a, b, end, tail);
  }

  lemma SwapFeedsAlike(before: seq<RawChunk>, x: RawChunk, y: RawChunk, after: seq<RawChunk>)
    requires FieldOf(x.ty) != FieldOf(y.ty)
    ensures FeedAlike(before + [x, y] + after, before + [y, x] + after)
  {
    hide FieldOf, Only;
    forall field
      ensures Only(before + [x, y] + after, field) == Only(before + [y, x] + after, field)
    {
      OnlyAppend(before + [x, y], after, field);
      OnlyAppend(before, [x, y], field);
      OnlyAppend(before + [y, x], after, field);
      OnlyAppend(before, [y, x], field);
      OnlyPair(x, y, field);
      OnlyPair(y, x, field);
    }
  }

  lemma OnlyPair(x: RawChunk, y: RawChunk, field: Field)
    ensures Only([x, y], field) == (if FieldOf(x.ty) == field then [x] else [])
                                   + (if FieldOf(y.ty) == field then [y] else [])
  {
    hide FieldOf;
    assert [x, y] == [x] + [y] && [x][..0] == [] && [y][..0] == [];
    OnlyAppend([x], [y], field);
  }
}
