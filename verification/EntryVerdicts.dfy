/** Which chunk lists parse, with which error the others fail, and what each field then says. */
module EntryVerdicts {
  import opened Basics
  import opened Octets
  import opened Utf8
  import opened Chunks
  import opened EntryMetadata
  import opened Entries
  import opened EntryMeaning
  import opened EntryRoundTrip
  import opened FieldVerdicts
  import opened LegacyPermissions

  // ---------------------------------------------------------------- one chunk

  /** The types that the parser knows inside an entry. */
  predicate IsKnownType(ty: ChunkType) {
    ty == FEND || ty == PHSF || ty == FDAT || ty == fSIZ || ty == cTIM || ty == mTIM || ty == aTIM ||
    ty == cTNS || ty == mTNS || ty == aTNS || ty == fPRM || ty == fUId || ty == fGId || ty == fONm || ty == fGNm ||
    ty == fOSi || ty == fGSi || ty == fMOd || ty == xATR || ty == fLTP
  }

  ghost predicate IsText(s: Bytes) {
    exists text :: s == TextBytes(text)
  }

  /** What a chunk must be for the parser to take it, in terms of what a writer could have put there. */
  ghost predicate IsAcceptable(c: RawChunk) {
    TimeIsAcceptable(c) && OwnerIsAcceptable(c) && OtherIsAcceptable(c)
  }

  ghost predicate TimeIsAcceptable(c: RawChunk) {
    (c.ty == cTIM || c.ty == mTIM || c.ty == aTIM ==> exists n: I64 :: c.data == SecondsBytes(n)) &&
    (c.ty == cTNS || c.ty == mTNS || c.ty == aTNS ==> exists n: Nanos :: c.data == NanosBytes(n))
  }

  ghost predicate OwnerIsAcceptable(c: RawChunk) {
    (c.ty == fPRM ==> exists p :: LegacyBytes(p) <= c.data) &&
    (c.ty == fUId || c.ty == fGId ==> exists n: U64 :: c.data == IdBytes(n)) &&
    (c.ty == fONm || c.ty == fGNm || c.ty == fOSi || c.ty == fGSi ==>
      exists v: OwnerString :: OwnerStringBytes(v) <= c.data) &&
    (c.ty == fMOd ==> |c.data| == 2)
  }

  ghost predicate OtherIsAcceptable(c: RawChunk) {
    (c.ty == PHSF ==> IsText(c.data)) &&
    (c.ty == xATR ==> exists x: Xattr :: XattrBytes(x) <= c.data) &&
    (c.ty == fLTP ==> c.data != []) &&
    (!IsKnownType(c.ty) ==> !IsCritical(c.ty))
  }

  predicate IsTimeType(ty: ChunkType) {
    ty == cTIM || ty == mTIM || ty == aTIM || ty == cTNS || ty == mTNS || ty == aTNS
  }

  predicate IsOwnerType(ty: ChunkType) {
    ty == fPRM || ty == fUId || ty == fGId || ty == fONm || ty == fGNm || ty == fOSi || ty == fGSi || ty == fMOd
  }

  lemma UnknownIsOther(ty: ChunkType)
    ensures IsKnownType(ty) <==> FieldOf(ty) != Field.Other
  {
  }

  lemma TextVerdict(s: Bytes)
    ensures PhsfOf(s).Ok? <==> IsText(s)
  {
    hide TextBytes, TextOf, IsUtf8;
    BytesRoundTrip(s);
    if text :| s == TextBytes(text) {
      TextRoundTrip(text);
    }
    if IsUtf8(s) {
      assert s == TextBytes(TextOf(s).value);
    }
  }

  lemma SecondsReadIff(s: Bytes)
    ensures Seconds(s).Ok? <==> exists n: I64 :: s == SecondsBytes(n)
  {
    hide BigEndian, FromBigEndian;
    if |s| == 8 {
      SecondsVerdict(s);
      FromBigEndianRoundTrip(s);
      Widths();
      FromBigEndianBound(s);
      assert s == SecondsBytes(Seconds(s).value);
    }
  }

  lemma IdReadIff(s: Bytes)
    ensures IdOf(s).Ok? <==> exists n: U64 :: s == IdBytes(n)
  {
    hide BigEndian, FromBigEndian;
    IdVerdict(s);
    if |s| == 8 {
      assert s == IdBytes(IdOf(s).value);
    }
  }

  lemma OwnerStringReadIff(s: Bytes)
    ensures OwnerStringOf(s).Ok? <==> exists v: OwnerString :: OwnerStringBytes(v) <= s
  {
    hide OwnerStringOf, OwnerStringBytes;
    OwnerStringVerdict(s);
    if v: OwnerString :| OwnerStringBytes(v) <= s {
      assert s == OwnerStringBytes(v) + s[|OwnerStringBytes(v)|..];
    }
  }

  lemma XattrReadIff(s: Bytes)
    ensures XattrOf(s).Ok? <==> exists x: Xattr :: XattrBytes(x) <= s
  {
    hide XattrOf, XattrBytes, U32Of;
    XattrVerdict(s);
    if x: Xattr :| XattrBytes(x) <= s {
      assert s == XattrBytes(x) + s[|XattrBytes(x)|..];
    }
  }

  /** A chunk is taken exactly when its body is one that its type can have. */
  lemma CheckVerdict(c: RawChunk)
    ensures Check(c).Ok? <==> IsAcceptable(c)
  {
    hide Check, TimeIsAcceptable, OwnerIsAcceptable, OtherIsAcceptable, IsTimeType, IsOwnerType;
    TimeCheck(c);
    OwnerCheck(c);
    OtherCheck(c);
    OneGroupOnly(c.ty);
  }

  lemma OneGroupOnly(ty: ChunkType)
    ensures !(IsTimeType(ty) && IsOwnerType(ty))
  {
  }

  lemma TimeCheck(c: RawChunk)
    ensures TimeIsAcceptable(c) <==> IsTimeType(c.ty) ==> Check(c).Ok?
  {
    hide Seconds, NanosOf, SecondsBytes, NanosBytes;
    SecondsReadIff(c.data);
    NanosVerdict(c.data);
  }

  lemma OwnerCheck(c: RawChunk)
    ensures OwnerIsAcceptable(c) <==> IsOwnerType(c.ty) ==> Check(c).Ok?
  {
    hide LegacyPermissionOf, IdOf, OwnerStringOf, ModeOf, LegacyBytes, IdBytes, OwnerStringBytes;
    ModeVerdict(c.data);
    LegacyReadsIff(c.data);
    IdReadIff(c.data);
    OwnerStringReadIff(c.data);
  }

  lemma OtherCheck(c: RawChunk)
    ensures OtherIsAcceptable(c) <==> !IsTimeType(c.ty) && !IsOwnerType(c.ty) ==> Check(c).Ok?
  {
    hide PhsfOf, XattrOf, IsCritical, IsText, XattrBytes;
    TextVerdict(c.data);
    XattrReadIff(c.data);
    UnknownIsOther(c.ty);
  }

  lemma ClaimedBy(ty: ChunkType)
    ensures FieldOf(ty) == LinkField ==> ty == fLTP
    ensures FieldOf(ty) == XattrField ==> ty == xATR
    ensures FieldOf(ty) == Legacy ==> ty == fPRM
    ensures FieldOf(ty) in {UserName, GroupName, UserSid, GroupSid} ==>
      ty == fONm || ty == fGNm || ty == fOSi || ty == fGSi
  {
  }

  /** A refused body is invalid data, unless it is one that ends before the lengths in it say. */
  lemma CheckErrors(c: RawChunk)
    ensures Check(c).Err? ==> Check(c).error in {UnexpectedEof, InvalidData}
    ensures Check(c) == Err(UnexpectedEof) <==>
      (c.ty == fLTP && c.data == []) || (c.ty == xATR && XattrOf(c.data) == Err(UnexpectedEof)) ||
      (c.ty == fPRM && LegacyPermissionOf(c.data) == Err(UnexpectedEof)) ||
      ((c.ty == fONm || c.ty == fGNm || c.ty == fOSi || c.ty == fGSi) && OwnerStringOf(c.data) == Err(UnexpectedEof))
  {
    hide IsUtf8, LegacyPermissionOf, OwnerStringOf, XattrOf, IsCritical, FromBigEndian, Seconds, NanosOf, IdOf, ModeOf,
      LinkTargetOf, FieldOf;
    KnownFields();
    LegacyIsClaimed();
    ClaimedBy(c.ty);
    match FieldOf(c.ty) {
      case CTime | MTime | ATime => SecondsVerdict(c.data);
      case CTimeNanos | MTimeNanos | ATimeNanos => NanosVerdict(c.data);
      case Uid | Gid => IdVerdict(c.data);
      case UserName | GroupName | UserSid | GroupSid => OwnerStringVerdict(c.data);
      case Mode => ModeVerdict(c.data);
      case Legacy => LegacyReadsIff(c.data);
      case XattrField => XattrVerdict(c.data);
      case LinkField => LinkTargetVerdict(c.data);
      case _ =>
    }
  }

  // ---------------------------------------------------------------- a whole list

  /** The header comes first: its type, its body and its version are judged before anything else. */
  lemma HeaderDecides(head: RawChunk, rest: seq<RawChunk>)
    ensures Parse([]) == Err(InvalidData)
    ensures head.ty != FHED || (forall h :: head.data != HeaderBytes(h)) ==> Parse([head] + rest) == Err(InvalidData)
    ensures forall h :: head.ty == FHED && head.data == HeaderBytes(h) && (h.major != 0 || h.minor != 0) ==>
      Parse([head] + rest) == Err(Unsupported)
  {
    hide HeaderOf, HeaderBytes, Body;
    HeaderBodyVerdict(head.data);
    forall h | head.data == HeaderBytes(h) ensures HeaderOf(head.data) == Ok(h) {
      HeaderRoundTrip(h, []);
    }
  }

  lemma {:induction false} BodyRefuses(f: Fields, a: seq<RawChunk>, c: RawChunk, b: seq<RawChunk>)
    requires !HasEnd(a) && FirstError(a) == None && c.ty != FEND && Check(c).Err?
    ensures Body(f, a + [c] + b) == Err(Check(c).error)
    decreases |a|
  {
    hide Check, Set;
    var all := a + [c] + b;
    if a == [] {
      assert all[0] == c;
    } else {
      assert all[0] == a[0] && all[1..] == a[1..] + [c] + b;
      assert forall i :: 0 <= i < |a[1..]| ==> a[1..][i] == a[i + 1];
      BodyRefuses(Set(f, a[0]), a[1..], c, b);
    }
  }

  lemma {:induction false} BodyUnterminated(f: Fields, a: seq<RawChunk>)
    requires !HasEnd(a) && FirstError(a) == None
    ensures Body(f, a) == Err(InvalidData)
    decreases |a|
  {
    hide Check, Set;
    if a != [] {
      assert forall i :: 0 <= i < |a[1..]| ==> a[1..][i] == a[i + 1];
      BodyUnterminated(Set(f, a[0]), a[1..]);
    }
  }

  /** A header chunk of version 0.0. */
  ghost predicate IsGoodHeader(head: RawChunk) {
    head.ty == FHED && exists h :: head.data == HeaderBytes(h) && h.major == 0 && h.minor == 0
  }

  lemma GoodHeader(head: RawChunk)
    ensures IsGoodHeader(head) <==> ParseHeader([head]).Ok?
  {
    hide HeaderOf, HeaderBytes;
    HeaderBodyVerdict(head.data);
    forall h | head.data == HeaderBytes(h) ensures HeaderOf(head.data) == Ok(h) {
      HeaderRoundTrip(h, []);
    }
  }

  ghost predicate AllAcceptable(cs: seq<RawChunk>) {
    forall c <- cs :: IsAcceptable(c)
  }

  lemma AcceptableIff(cs: seq<RawChunk>)
    ensures FirstError(cs) == None <==> AllAcceptable(cs)
  {
    hide Check, FirstError, IsAcceptable;
    FirstErrorIff(cs);
    forall c ensures Check(c).Ok? <==> IsAcceptable(c) {
      CheckVerdict(c);
    }
  }

  /**
   * After a good header the first chunk before the end that is not acceptable decides, and with
   * none the end must be there: so a list parses exactly when it is a good header, acceptable
   * chunks, an end chunk, and anything.
   */
  lemma ParseSucceedsIff(cs: seq<RawChunk>)
    ensures Parse(cs).Ok? <==> exists head, a, end, tail ::
      cs == Framed(head, a, end, tail) && IsGoodHeader(head) && AllAcceptable(a) && !HasEnd(a) && end.ty == FEND
  {
    hide Parse, IsGoodHeader, AllAcceptable, Framed, ParseHeader, Meaning, Finish, FirstError, HasEnd;
    if Parse(cs).Ok? {
      var header, a, end, tail := ParsedShape(cs);
      AcceptableIff(a);
      GoodHeader(cs[0]);
      ParseMeaning(cs[0], a, end, tail);
      assert cs == Framed(cs[0], a, end, tail);
    }
    if head, a, end, tail :|
      cs == Framed(head, a, end, tail) && IsGoodHeader(head) && AllAcceptable(a) && !HasEnd(a) && end.ty == FEND {
      AcceptableIff(a);
      GoodHeader(head);
      ParseMeaning(head, a, end, tail);
    }
  }

  /** Which error: that of the first chunk that is refused, or invalid data when the end is missing. */
  lemma ParseFailure(head: RawChunk, a: seq<RawChunk>, c: RawChunk, b: seq<RawChunk>)
    requires IsGoodHeader(head) && !HasEnd(a) && AllAcceptable(a)
    ensures c.ty != FEND && !IsAcceptable(c) ==>
      Check(c).Err? && Parse([head] + (a + [c] + b)) == Err(Check(c).error)
    ensures !IsKnownType(c.ty) && IsCritical(c.ty) ==> Parse([head] + (a + [c] + b)) == Err(InvalidData)
    ensures Parse([head] + a) == Err(InvalidData)
  {
    hide Check, Body, HeaderOf, IsAcceptable, AllAcceptable, IsGoodHeader, FirstError, HasEnd, FieldOf, IsCritical;
    AcceptableIff(a);
    GoodHeader(head);
    CheckVerdict(c);
    BodyUnterminated(NO_FIELDS, a);
    assert ([head] + a)[1..] == a;
    UnknownRefused(c);
    var all := [head] + (a + [c] + b);
    assert all[0] == head && all[1..] == a + [c] + b;
    if c.ty != FEND && !IsAcceptable(c) {
      BodyRefuses(NO_FIELDS, a, c, b);
    }
  }

  lemma UnknownRefused(c: RawChunk)
    ensures !IsKnownType(c.ty) && IsCritical(c.ty) ==>
      c.ty != FEND && !IsAcceptable(c) && Check(c) == Err(InvalidData)
  {
    hide IsCritical, IsText, SecondsBytes, NanosBytes, LegacyBytes, IdBytes, OwnerStringBytes, XattrBytes;
    UnknownIsOther(c.ty);
  }

  // ---------------------------------------------------------------- what an entry's fields say

  /** An instant is recorded exactly when seconds are, with the nanoseconds or none. */
  ghost predicate SaysTime(d: Option<Duration>, seconds: Option<Bytes>, nanos: Option<Bytes>) {
    (d.Some? <==> seconds.Some?) &&
    (d.Some? ==>
      Seconds(seconds.value).Ok? &&
      TotalNanos(d.value.seconds, d.value.nanos) ==
        TotalNanos(Seconds(seconds.value).value, if nanos.Some? then FromBigEndian(nanos.value) else 0))
  }

  lemma TimestampSays(seconds: Option<Bytes>, nanos: Option<Bytes>)
    requires (seconds.Some? ==> Seconds(seconds.value).Ok?) && (nanos.Some? ==> NanosOf(nanos.value).Ok?)
    ensures SaysTime(Timestamp(SecondsAt(seconds), NanosAt(nanos)), seconds, nanos)
  {
    hide FromBigEndian, FromSecondsNanos, Seconds;
    if seconds.Some? {
      var n: Nanos := if nanos.Some? then NanosOf(nanos.value).value else 0;
      SameInstant(Duration(0, 0), Seconds(seconds.value).value, n);
    }
  }

  lemma LastIsChecked(cs: seq<RawChunk>, field: Field) returns (c: RawChunk)
    requires FirstError(cs) == None && LastBody(cs, field).Some?
    ensures c.data == LastBody(cs, field).value && FieldOf(c.ty) == field && Check(c).Ok?
  {
    hide Check, FieldOf, FirstError;
    var own := Only(cs, field);
    c := own[|own| - 1];
    OnlyMembers(cs, field, c);
    FirstErrorIff(cs);
  }

  lemma TimeBodiesDecode(cs: seq<RawChunk>, seconds: Field, nanos: Field)
    requires FirstError(cs) == None
    requires seconds.CTime? || seconds.MTime? || seconds.ATime?
    requires nanos.CTimeNanos? || nanos.MTimeNanos? || nanos.ATimeNanos?
    ensures LastBody(cs, seconds).Some? ==> Seconds(LastBody(cs, seconds).value).Ok?
    ensures LastBody(cs, nanos).Some? ==> NanosOf(LastBody(cs, nanos).value).Ok?
  {
    hide LastBody, FieldOf, Seconds, NanosOf, FirstError;
    if LastBody(cs, seconds).Some? {
      var c := LastIsChecked(cs, seconds);
    }
    if LastBody(cs, nanos).Some? {
      var c := LastIsChecked(cs, nanos);
    }
  }

  /**
   * What the entry says, read off its chunks: the header is the header chunk's; instants are
   * their last seconds and nanoseconds; data is the data chunks' in order, with their total
   * size; unclaimed chunks are kept in order; and without a legacy permission each owner field
   * is its own last chunk's.
   */
  lemma ParsedFields(head: RawChunk, cs: seq<RawChunk>, end: RawChunk, tail: seq<RawChunk>)
    requires !HasEnd(cs) && end.ty == FEND && Parse(Framed(head, cs, end, tail)).Ok?
    ensures var e := Parse(Framed(head, cs, end, tail)).value;
      var m := e.metadata;
      HeaderBytes(e.header) == head.data && e.extra == Only(cs, Field.Other) &&
      e.data == Bodies(Only(cs, Data)) && m.compressedSize == SumOfLengths(e.data) &&
      m.xattrs == XattrsOf(Only(cs, XattrField)) &&
      e.phsf == LastBody(cs, Phsf) &&
      SaysTime(m.created, LastBody(cs, CTime), LastBody(cs, CTimeNanos)) &&
      SaysTime(m.modified, LastBody(cs, MTime), LastBody(cs, MTimeNanos)) &&
      SaysTime(m.accessed, LastBody(cs, ATime), LastBody(cs, ATimeNanos)) &&
      m.rawFileSize == SizeAt(LastBody(cs, Size)) && m.linkTargetType == LinkTargetAt(LastBody(cs, LinkField))
    ensures (forall c <- cs :: c.ty != fPRM) ==>
      var m := Parse(Framed(head, cs, end, tail)).value.metadata;
      m.ownerUid == IdAt(LastBody(cs, Uid)) && m.ownerGid == IdAt(LastBody(cs, Gid)) &&
      m.ownerUserName == OwnerStringAt(LastBody(cs, UserName)) &&
      m.ownerGroupName == OwnerStringAt(LastBody(cs, GroupName)) &&
      m.ownerUserSid == OwnerStringAt(LastBody(cs, UserSid)) &&
      m.ownerGroupSid == OwnerStringAt(LastBody(cs, GroupSid)) && m.permissionMode == ModeAt(LastBody(cs, Mode))
  {
    hide Parse, FirstError, FieldOf, Only, LastBody, Timestamp, Bodies, SumOfLengths, XattrsOf, SaysTime, Check,
      HeaderOf, HeaderBytes, SecondsAt, NanosAt, IdAt, OwnerStringAt, ModeAt, SizeAt, LinkTargetAt, LegacyAt;
    ParseMeaning(head, cs, end, tail);
    HeaderRoundTrip(HeaderOf(head.data).value, head.data);
    TimeBodiesDecode(cs, CTime, CTimeNanos);
    TimeBodiesDecode(cs, MTime, MTimeNanos);
    TimeBodiesDecode(cs, ATime, ATimeNanos);
    TimestampSays(LastBody(cs, CTime), LastBody(cs, CTimeNanos));
    TimestampSays(LastBody(cs, MTime), LastBody(cs, MTimeNanos));
    TimestampSays(LastBody(cs, ATime), LastBody(cs, ATimeNanos));
    PhsfKept(cs);
    if forall c <- cs :: c.ty != fPRM {
      NoLegacy(cs);
    }
  }

  lemma PhsfKept(cs: seq<RawChunk>)
    requires FirstError(cs) == None
    ensures PhsfAt(LastBody(cs, Phsf)) == LastBody(cs, Phsf)
  {
    hide LastBody, FieldOf, FirstError, IsUtf8;
    if LastBody(cs, Phsf).Some? {
      var c := LastIsChecked(cs, Phsf);
    }
  }

  lemma NoLegacy(cs: seq<RawChunk>)
    requires forall c <- cs :: c.ty != fPRM
    ensures LegacyAt(LastBody(cs, Legacy)) == None
  {
    hide FieldOf, LastBody;
    LegacyIsClaimed();
    forall c <- cs ensures FieldOf(c.ty) != Legacy {
      if FieldOf(c.ty) == Legacy {
        FieldsAreDistinct(c.ty, fPRM);
      }
    }
    NoneOfField(cs, Legacy);
  }
}
