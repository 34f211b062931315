/** Which entries survive being written and parsed, exactly; every parsed entry does. */
module EntryRoundTrip {
  import opened Basics
  import opened Octets
  import opened Utf8
  import opened Chunks
  import opened EntryMetadata
  import opened Entries
  import opened EntryMeaning
  import opened EntryWriting

  // ---------------------------------------------------------------- reading back what is written

  /** The fields of the types that an entry is written with. */
  lemma KnownFields()
    ensures FieldOf(fSIZ) == Size && FieldOf(PHSF) == Phsf && FieldOf(FDAT) == Data
    ensures FieldOf(cTIM) == CTime && FieldOf(mTIM) == MTime && FieldOf(aTIM) == ATime
    ensures FieldOf(cTNS) == CTimeNanos && FieldOf(mTNS) == MTimeNanos && FieldOf(aTNS) == ATimeNanos
    ensures FieldOf(fUId) == Uid && FieldOf(fGId) == Gid
    ensures FieldOf(fONm) == UserName && FieldOf(fGNm) == GroupName
    ensures FieldOf(fOSi) == UserSid && FieldOf(fGSi) == GroupSid
    ensures FieldOf(fMOd) == Mode && FieldOf(fLTP) == LinkField && FieldOf(xATR) == XattrField
  {
    hide FieldOf;
    KnownDataFields();
    KnownTimeFields();
    KnownOwnerFields();
  }

  lemma KnownDataFields()
    ensures FieldOf(fSIZ) == Size && FieldOf(PHSF) == Phsf && FieldOf(FDAT) == Data
    ensures FieldOf(fLTP) == LinkField && FieldOf(xATR) == XattrField
  {
  }

  lemma KnownTimeFields()
    ensures FieldOf(cTIM) == CTime && FieldOf(mTIM) == MTime && FieldOf(aTIM) == ATime
    ensures FieldOf(cTNS) == CTimeNanos && FieldOf(mTNS) == MTimeNanos && FieldOf(aTNS) == ATimeNanos
  {
  }

  lemma KnownOwnerFields()
    ensures FieldOf(fUId) == Uid && FieldOf(fGId) == Gid
    ensures FieldOf(fONm) == UserName && FieldOf(fGNm) == GroupName
    ensures FieldOf(fOSi) == UserSid && FieldOf(fGSi) == GroupSid && FieldOf(fMOd) == Mode
  {
    hide FieldOf;
    KnownNumericFields();
    KnownNameFields();
  }

  lemma KnownNumericFields()
    ensures FieldOf(fUId) == Uid && FieldOf(fGId) == Gid && FieldOf(fMOd) == Mode
  {
  }

  lemma KnownNameFields()
    ensures FieldOf(fONm) == UserName && FieldOf(fGNm) == GroupName
    ensures FieldOf(fOSi) == UserSid && FieldOf(fGSi) == GroupSid
  {
  }

  /** Every chunk of the list feeds the same field. */
  ghost predicate AllFeed(cs: seq<RawChunk>, field: Field) {
    forall i :: 0 <= i < |cs| ==> FieldOf(cs[i].ty) == field
  }

  lemma {:induction false} OnlyHomogeneous(cs: seq<RawChunk>, own: Field, field: Field)
    requires AllFeed(cs, own)
    ensures Only(cs, field) == if field == own then cs else []
  {
    hide FieldOf;
    if cs != [] {
      var init, last := cs[..|cs| - 1], cs[|cs| - 1];
      OnlyHomogeneous(init, own, field);
      assert FieldOf(last.ty) == own;
      if field == own {
        assert cs == init + [last];
      }
    }
  }

  lemma OnlyOptional(ty: ChunkType, body: Option<Bytes>, field: Field)
    ensures Only(OptionalChunk(ty, body), field)
            == if field == FieldOf(ty) then OptionalChunk(ty, body) else []
  {
    hide FieldOf;
    OnlyHomogeneous(OptionalChunk(ty, body), FieldOf(ty), field);
  }

  lemma OnlyTimes(m: Metadata, field: Field)
    ensures Only(TimeChunks(m), field) ==
            match field
            case CTime => OptionalChunk(cTIM, SecondsBody(m.created))
            case CTimeNanos => OptionalChunk(cTNS, NanosBody(m.created))
            case MTime => OptionalChunk(mTIM, SecondsBody(m.modified))
            case MTimeNanos => OptionalChunk(mTNS, NanosBody(m.modified))
            case ATime => OptionalChunk(aTIM, SecondsBody(m.accessed))
            case ATimeNanos => OptionalChunk(aTNS, NanosBody(m.accessed))
            case _ => []
  {
    hide Only, OptionalChunk, SecondsBody, NanosBody, FieldOf;
    KnownFields();
    var c, cn := OptionalChunk(cTIM, SecondsBody(m.created)), OptionalChunk(cTNS, NanosBody(m.created));
    var d, dn := OptionalChunk(mTIM, SecondsBody(m.modified)), OptionalChunk(mTNS, NanosBody(m.modified));
    var a, an := OptionalChunk(aTIM, SecondsBody(m.accessed)), OptionalChunk(aTNS, NanosBody(m.accessed));
    OnlyAppend(c, cn, field);
    OnlyAppend(c + cn, d, field);
    OnlyAppend(c + cn + d, dn, field);
    OnlyAppend(c + cn + d + dn, a, field);
    OnlyAppend(c + cn + d + dn + a, an, field);
    OnlyOptional(cTIM, SecondsBody(m.created), field);
    OnlyOptional(cTNS, NanosBody(m.created), field);
    OnlyOptional(mTIM, SecondsBody(m.modified), field);
    OnlyOptional(mTNS, NanosBody(m.modified), field);
    OnlyOptional(aTIM, SecondsBody(m.accessed), field);
    OnlyOptional(aTNS, NanosBody(m.accessed), field);
  }

  lemma OnlyOwner(m: Metadata, field: Field)
    ensures Only(OwnerChunks(m), field) ==
            match field
            case Uid => OptionalChunk(fUId, IdBody(m.ownerUid))
            case Gid => OptionalChunk(fGId, IdBody(m.ownerGid))
            case UserName => OptionalChunk(fONm, OwnerStringBody(m.ownerUserName))
            case GroupName => OptionalChunk(fGNm, OwnerStringBody(m.ownerGroupName))
            case UserSid => OptionalChunk(fOSi, OwnerStringBody(m.ownerUserSid))
            case GroupSid => OptionalChunk(fGSi, OwnerStringBody(m.ownerGroupSid))
            case Mode => OptionalChunk(fMOd, ModeBody(m.permissionMode))
            case LinkField => OptionalChunk(fLTP, LinkTargetBody(m.linkTargetType))
            case _ => []
  {
    hide Only, OptionalChunk, IdBody, OwnerStringBody, ModeBody, LinkTargetBody, FieldOf;
    KnownFields();
    var u, g := OptionalChunk(fUId, IdBody(m.ownerUid)), OptionalChunk(fGId, IdBody(m.ownerGid));
    var un := OptionalChunk(fONm, OwnerStringBody(m.ownerUserName));
    var gn := OptionalChunk(fGNm, OwnerStringBody(m.ownerGroupName));
    var us := OptionalChunk(fOSi, OwnerStringBody(m.ownerUserSid));
    var gs := OptionalChunk(fGSi, OwnerStringBody(m.ownerGroupSid));
    var mo := OptionalChunk(fMOd, ModeBody(m.permissionMode));
    var lt := OptionalChunk(fLTP, LinkTargetBody(m.linkTargetType));
    OnlyAppend(u, g, field);
    OnlyAppend(u + g, un, field);
    OnlyAppend(u + g + un, gn, field);
    OnlyAppend(u + g + un + gn, us, field);
    OnlyAppend(u + g + un + gn + us, gs, field);
    OnlyAppend(u + g + un + gn + us + gs, mo, field);
    OnlyAppend(u + g + un + gn + us + gs + mo, lt, field);
    OnlyOptional(fUId, IdBody(m.ownerUid), field);
    OnlyOptional(fGId, IdBody(m.ownerGid), field);
    OnlyOptional(fONm, OwnerStringBody(m.ownerUserName), field);
    OnlyOptional(fGNm, OwnerStringBody(m.ownerGroupName), field);
    OnlyOptional(fOSi, OwnerStringBody(m.ownerUserSid), field);
    OnlyOptional(fGSi, OwnerStringBody(m.ownerGroupSid), field);
    OnlyOptional(fMOd, ModeBody(m.permissionMode), field);
    OnlyOptional(fLTP, LinkTargetBody(m.linkTargetType), field);
  }

  lemma {:induction false} XattrChunksFeed(xs: seq<Xattr>)
    ensures AllFeed(XattrChunks(xs), XattrField)
  {
    hide XattrBytes;
    if xs != [] {
      XattrChunksFeed(xs[..|xs| - 1]);
    }
  }

  lemma {:induction false} DataChunksFeed(data: seq<Bytes>)
    ensures AllFeed(DataChunks(FDAT, data), Data)
  {
    if data != [] {
      DataChunksFeed(data[..|data| - 1]);
    }
  }

  /** Among what is written after the extra chunks, each field finds exactly its own chunks. */
  function OwnChunks(e: NormalEntry, field: Field): seq<RawChunk> {
    match field
    case Size => OptionalChunk(fSIZ, SizeBody(e.metadata.rawFileSize))
    case XattrField => XattrChunks(e.metadata.xattrs)
    case Phsf => OptionalChunk(PHSF, e.phsf)
    case Data => DataChunks(FDAT, e.data)
    case CTime => OptionalChunk(cTIM, SecondsBody(e.metadata.created))
    case CTimeNanos => OptionalChunk(cTNS, NanosBody(e.metadata.created))
    case MTime => OptionalChunk(mTIM, SecondsBody(e.metadata.modified))
    case MTimeNanos => OptionalChunk(mTNS, NanosBody(e.metadata.modified))
    case ATime => OptionalChunk(aTIM, SecondsBody(e.metadata.accessed))
    case ATimeNanos => OptionalChunk(aTNS, NanosBody(e.metadata.accessed))
    case Uid => OptionalChunk(fUId, IdBody(e.metadata.ownerUid))
    case Gid => OptionalChunk(fGId, IdBody(e.metadata.ownerGid))
    case UserName => OptionalChunk(fONm, OwnerStringBody(e.metadata.ownerUserName))
    case GroupName => OptionalChunk(fGNm, OwnerStringBody(e.metadata.ownerGroupName))
    case UserSid => OptionalChunk(fOSi, OwnerStringBody(e.metadata.ownerUserSid))
    case GroupSid => OptionalChunk(fGSi, OwnerStringBody(e.metadata.ownerGroupSid))
    case Mode => OptionalChunk(fMOd, ModeBody(e.metadata.permissionMode))
    case LinkField => OptionalChunk(fLTP, LinkTargetBody(e.metadata.linkTargetType))
    case _ => []
  }

  lemma OnlyContents(e: NormalEntry, field: Field)
    ensures Only(Contents(e), field) == Only(e.extra, field) + OwnChunks(e, field)
  {
    hide Only, OptionalChunk, FieldOf, TimeChunks, OwnerChunks, XattrChunks, DataChunks,
         SecondsBody, NanosBody, IdBody, OwnerStringBody, ModeBody, LinkTargetBody, SizeBody;
    KnownFields();
    var m := e.metadata;
    var s, t, o := OptionalChunk(fSIZ, SizeBody(m.rawFileSize)), TimeChunks(m), OwnerChunks(m);
    var x, p, d := XattrChunks(m.xattrs), OptionalChunk(PHSF, e.phsf), DataChunks(FDAT, e.data);
    OnlyAppend(e.extra, s, field);
    OnlyAppend(e.extra + s, t, field);
    OnlyAppend(e.extra + s + t, o, field);
    OnlyAppend(e.extra + s + t + o, x, field);
    OnlyAppend(e.extra + s + t + o + x, p, field);
    OnlyAppend(e.extra + s + t + o + x + p, d, field);
    OnlyOptional(fSIZ, SizeBody(m.rawFileSize), field);
    OnlyTimes(m, field);
    OnlyOwner(m, field);
    XattrChunksFeed(m.xattrs);
    OnlyHomogeneous(x, XattrField, field);
    OnlyOptional(PHSF, e.phsf, field);
    DataChunksFeed(e.data);
    OnlyHomogeneous(d, Data, field);
  }

  lemma OptionalChunkHas(ty: ChunkType, body: Option<Bytes>, c: RawChunk)
    requires c in OptionalChunk(ty, body)
    ensures body == Some(c.data) && c.ty == ty
  {
  }

  /** Every timestamp chunk that is written is one that the parser can take. */
  lemma TimeChunksCheck(e: NormalEntry, field: Field, c: RawChunk)
    requires field in {CTime, CTimeNanos, MTime, MTimeNanos, ATime, ATimeNanos}
    requires c in OwnChunks(e, field)
    ensures Check(c).Ok?
  {
    hide FieldOf, OptionalChunk, Seconds, NanosOf, IdOf, OwnerStringOf, ModeOf,
         LinkTargetOf, XattrOf, SecondsBytes, NanosBytes, IdBytes, OwnerStringBytes, ModeBytes,
         LinkTargetBytes, ToSecondsNanos;
    KnownFields();
    var m := e.metadata;
    match field {
      case CTime =>
        OptionalChunkHas(cTIM, SecondsBody(m.created), c);
        SecondsRoundTrip(ToSecondsNanos(m.created.value).0);
      case MTime =>
        OptionalChunkHas(mTIM, SecondsBody(m.modified), c);
        SecondsRoundTrip(ToSecondsNanos(m.modified.value).0);
      case ATime =>
        OptionalChunkHas(aTIM, SecondsBody(m.accessed), c);
        SecondsRoundTrip(ToSecondsNanos(m.accessed.value).0);
      case CTimeNanos =>
        OptionalChunkHas(cTNS, NanosBody(m.created), c);
        NanosRoundTrip(ToSecondsNanos(m.created.value).1);
      case MTimeNanos =>
        OptionalChunkHas(mTNS, NanosBody(m.modified), c);
        NanosRoundTrip(ToSecondsNanos(m.modified.value).1);
      case ATimeNanos =>
        OptionalChunkHas(aTNS, NanosBody(m.accessed), c);
        NanosRoundTrip(ToSecondsNanos(m.accessed.value).1);
    }
  }

  lemma OwnerChunksCheck(e: NormalEntry, field: Field, c: RawChunk)
    requires field in {Uid, Gid, UserName, GroupName, UserSid, GroupSid, Mode, LinkField}
    requires c in OwnChunks(e, field)
    ensures Check(c).Ok?
  {
    hide FieldOf, OptionalChunk, Seconds, NanosOf, IdOf, OwnerStringOf, ModeOf,
         LinkTargetOf, XattrOf, SecondsBytes, NanosBytes, IdBytes, OwnerStringBytes, ModeBytes,
         LinkTargetBytes, ToSecondsNanos;
    KnownFields();
    var m := e.metadata;
    match field {
      case Uid =>
        OptionalChunkHas(fUId, IdBody(m.ownerUid), c);
        IdRoundTrip(m.ownerUid.value);
      case Gid =>
        OptionalChunkHas(fGId, IdBody(m.ownerGid), c);
        IdRoundTrip(m.ownerGid.value);
      case UserName =>
        OptionalChunkHas(fONm, OwnerStringBody(m.ownerUserName), c);
        OwnerStringRoundTrip(m.ownerUserName.value);
      case GroupName =>
        OptionalChunkHas(fGNm, OwnerStringBody(m.ownerGroupName), c);
        OwnerStringRoundTrip(m.ownerGroupName.value);
      case UserSid =>
        OptionalChunkHas(fOSi, OwnerStringBody(m.ownerUserSid), c);
        OwnerStringRoundTrip(m.ownerUserSid.value);
      case GroupSid =>
        OptionalChunkHas(fGSi, OwnerStringBody(m.ownerGroupSid), c);
        OwnerStringRoundTrip(m.ownerGroupSid.value);
      case Mode =>
        OptionalChunkHas(fMOd, ModeBody(m.permissionMode), c);
        ModeRoundTrip(m.permissionMode.value);
      case LinkField =>
        OptionalChunkHas(fLTP, LinkTargetBody(m.linkTargetType), c);
        LinkTargetRoundTrip(m.linkTargetType.value);
    }
  }

  lemma {:induction false} XattrChunkCheck(xs: seq<Xattr>, c: RawChunk)
    requires c in XattrChunks(xs)
    ensures c.ty == xATR && XattrOf(c.data).Ok?
  {
    hide XattrBytes, XattrOf;
    var last := xs[|xs| - 1];
    if c == FromData(xATR, XattrBytes(last)) {
      XattrRoundTrip(last);
    } else {
      XattrChunkCheck(xs[..|xs| - 1], c);
    }
  }

  /** Every chunk that is written after the extra chunks is one that the parser can take. */
  lemma OwnChunksCheck(e: NormalEntry, c: RawChunk)
    requires c in OwnChunks(e, FieldOf(c.ty))
    ensures Check(c).Ok?
  {
    hide FieldOf, OptionalChunk, XattrOf, XattrChunks, DataChunks, IsUtf8;
    KnownFields();
    match FieldOf(c.ty) {
      case CTime | CTimeNanos | MTime | MTimeNanos | ATime | ATimeNanos =>
        TimeChunksCheck(e, FieldOf(c.ty), c);
      case Uid | Gid | UserName | GroupName | UserSid | GroupSid | Mode | LinkField =>
        OwnerChunksCheck(e, FieldOf(c.ty), c);
      case XattrField => XattrChunkCheck(e.metadata.xattrs, c);
      case Phsf => OptionalChunkHas(PHSF, e.phsf, c);
      case _ =>
    }
  }

  /** A written chunk is either one of the extras or one of its own field's. */
  lemma ContentsMember(e: NormalEntry, c: RawChunk)
    requires c in Contents(e)
    ensures c in e.extra || c in OwnChunks(e, FieldOf(c.ty))
  {
    hide Contents, OwnChunks, FieldOf, Only;
    OnlyKeeps(Contents(e), c);
    OnlyContents(e, FieldOf(c.ty));
    OnlyKeeps(e.extra, c);
  }

  /** The parser can take what is written exactly when it can take the extra chunks. */
  lemma ContentsFailIff(e: NormalEntry)
    ensures FirstError(Contents(e)).Some? <==> FirstError(e.extra).Some?
  {
    hide Check, OwnChunks, FieldOf, OptionalChunk, TimeChunks, OwnerChunks, XattrChunks, DataChunks;
    FirstErrorIff(Contents(e));
    FirstErrorIff(e.extra);
    forall c | c in Contents(e) && Check(c).Err?
      ensures c in e.extra
    {
      ContentsMember(e, c);
      if c in OwnChunks(e, FieldOf(c.ty)) {
        OwnChunksCheck(e, c);
      }
    }
    forall c | c in e.extra
      ensures c in Contents(e)
    {
    }
  }

  lemma ContentsEndIff(e: NormalEntry)
    requires !HasEnd(e.extra)
    ensures !HasEnd(Contents(e))
  {
    hide Contents, OwnChunks, FieldOf, Only;
    var cs := Contents(e);
    forall i | 0 <= i < |cs|
      ensures cs[i].ty != FEND
    {
      ContentsMember(e, cs[i]);
      if cs[i] in OwnChunks(e, FieldOf(cs[i].ty)) {
        NothingOwnsEnd(e, cs[i]);
      }
    }
  }

  lemma NothingOwnsEnd(e: NormalEntry, c: RawChunk)
    requires c in OwnChunks(e, FieldOf(c.ty))
    ensures c.ty != FEND
  {
    hide OptionalChunk, XattrChunks, DataChunks;
  }

  // ---------------------------------------------------------------- what the written chunks mean

  lemma LastOptional(cs: seq<RawChunk>, field: Field, ty: ChunkType, body: Option<Bytes>)
    requires Only(cs, field) == OptionalChunk(ty, body)
    ensures LastBody(cs, field) == body
  {
  }

  lemma NoBodies()
    ensures Bodies([]) == []
  {
  }

  lemma {:induction false} DataChunksMean(data: seq<Bytes>)
    ensures Bodies(DataChunks(FDAT, data)) == data
  {
    hide Bodies, SumOfLengths;
    NoBodies();
    if data != [] {
      DataChunksMean(data[..|data| - 1]);
      BodiesSnoc(DataChunks(FDAT, data[..|data| - 1]), FromData(FDAT, data[|data| - 1]));
      assert data == data[..|data| - 1] + [data[|data| - 1]];
    }
  }

  lemma {:induction false} XattrChunksMean(xs: seq<Xattr>)
    ensures XattrsOf(XattrChunks(xs)) == xs
  {
    hide XattrBytes, XattrOf;
    if xs != [] {
      var init, last := xs[..|xs| - 1], xs[|xs| - 1];
      XattrChunksMean(init);
      XattrRoundTrip(last);
      XattrsSnoc(XattrChunks(init), FromData(xATR, XattrBytes(last)));
      assert xs == init + [last];
    }
  }

  /** A timestamp comes back exactly when flooring it does not saturate. */
  lemma TimeSurvivesIff(d: Option<Duration>)
    ensures Timestamp(SecondsAt(SecondsBody(d)), NanosAt(NanosBody(d))) == d
            <==> (d.Some? ==> IsStorable(d.value))
  {
    hide Seconds, SecondsBytes, NanosOf, NanosBytes;
    if d.Some? {
      var (s, n) := ToSecondsNanos(d.value);
      SecondsRoundTrip(s);
      NanosRoundTrip(n);
      DurationSurvivesIff(d.value);
    }
  }

  /** The facets and other optional fields always come back. */
  lemma OptionalFieldsSurvive(m: Metadata, phsf: Option<Utf8String>)
    ensures SizeAt(SizeBody(m.rawFileSize)) == m.rawFileSize
    ensures PhsfAt(phsf) == phsf
    ensures LinkTargetAt(LinkTargetBody(m.linkTargetType)) == m.linkTargetType
    ensures IdAt(IdBody(m.ownerUid)) == m.ownerUid && IdAt(IdBody(m.ownerGid)) == m.ownerGid
    ensures ModeAt(ModeBody(m.permissionMode)) == m.permissionMode
  {
    hide SizeOf, SizeBytes, IdOf, IdBytes, ModeOf, ModeBytes, LinkTargetOf, LinkTargetBytes;
    if m.rawFileSize.Some? { SizeRoundTrip(m.rawFileSize.value); }
    if m.linkTargetType.Some? { LinkTargetRoundTrip(m.linkTargetType.value); }
    if m.ownerUid.Some? { IdRoundTrip(m.ownerUid.value); }
    if m.ownerGid.Some? { IdRoundTrip(m.ownerGid.value); }
    if m.permissionMode.Some? { ModeRoundTrip(m.permissionMode.value); }
  }

  lemma OwnerStringSurvives(s: Option<OwnerString>)
    ensures OwnerStringAt(OwnerStringBody(s)) == s
  {
    hide OwnerStringOf, OwnerStringBytes;
    if s.Some? {
      OwnerStringRoundTrip(s.value);
    }
  }

  /** The fields that the written chunks set, in terms of the entry. */
  function WrittenFields(e: NormalEntry): Fields {
    var m := e.metadata;
    Fields(SumOfLengths(e.data), Only(e.extra, Other), e.data, m.xattrs, m.rawFileSize, e.phsf,
           Times(SecondsAt(SecondsBody(m.created)), SecondsAt(SecondsBody(m.modified)),
                 SecondsAt(SecondsBody(m.accessed)), NanosAt(NanosBody(m.created)),
                 NanosAt(NanosBody(m.modified)), NanosAt(NanosBody(m.accessed))),
           None,
           Facets(m.ownerUid, m.ownerGid, m.ownerUserName, m.ownerGroupName, m.ownerUserSid,
                  m.ownerGroupSid, m.permissionMode),
           m.linkTargetType)
  }

  lemma OnlyOwnChunks(e: NormalEntry, field: Field)
    requires AllFeed(e.extra, Other) && field != Other
    ensures Only(Contents(e), field) == OwnChunks(e, field)
  {
    hide Only, OwnChunks, Contents;
    OnlyContents(e, field);
    OnlyHomogeneous(e.extra, Other, field);
    assert [] + OwnChunks(e, field) == OwnChunks(e, field);
  }

  lemma TimesOfContents(e: NormalEntry)
    requires AllFeed(e.extra, Other)
    ensures TimesMeaning(Contents(e)) == WrittenFields(e).times
  {
    hide Only, Contents, OptionalChunk, LastBody, SecondsBody, NanosBody, SecondsAt, NanosAt;
    var cs, m := Contents(e), e.metadata;
    OnlyOwnChunks(e, CTime);
    OnlyOwnChunks(e, CTimeNanos);
    OnlyOwnChunks(e, MTime);
    OnlyOwnChunks(e, MTimeNanos);
    OnlyOwnChunks(e, ATime);
    OnlyOwnChunks(e, ATimeNanos);
    LastOptional(cs, CTime, cTIM, SecondsBody(m.created));
    LastOptional(cs, CTimeNanos, cTNS, NanosBody(m.created));
    LastOptional(cs, MTime, mTIM, SecondsBody(m.modified));
    LastOptional(cs, MTimeNanos, mTNS, NanosBody(m.modified));
    LastOptional(cs, ATime, aTIM, SecondsBody(m.accessed));
    LastOptional(cs, ATimeNanos, aTNS, NanosBody(m.accessed));
  }

  lemma FacetsOfContents(e: NormalEntry)
    requires AllFeed(e.extra, Other)
    ensures FacetsMeaning(Contents(e)) == WrittenFields(e).facets
  {
    hide Only, Contents, OptionalChunk, LastBody, IdBody, IdAt, OwnerStringBody, OwnerStringAt,
         ModeBody, ModeAt;
    var cs, m := Contents(e), e.metadata;
    OnlyOwnChunks(e, Uid);
    OnlyOwnChunks(e, Gid);
    OnlyOwnChunks(e, UserName);
    OnlyOwnChunks(e, GroupName);
    OnlyOwnChunks(e, UserSid);
    OnlyOwnChunks(e, GroupSid);
    OnlyOwnChunks(e, Mode);
    LastOptional(cs, Uid, fUId, IdBody(m.ownerUid));
    LastOptional(cs, Gid, fGId, IdBody(m.ownerGid));
    LastOptional(cs, UserName, fONm, OwnerStringBody(m.ownerUserName));
    LastOptional(cs, GroupName, fGNm, OwnerStringBody(m.ownerGroupName));
    LastOptional(cs, UserSid, fOSi, OwnerStringBody(m.ownerUserSid));
    LastOptional(cs, GroupSid, fGSi, OwnerStringBody(m.ownerGroupSid));
    LastOptional(cs, Mode, fMOd, ModeBody(m.permissionMode));
    OptionalFieldsSurvive(m, e.phsf);
    OwnerStringSurvives(m.ownerUserName);
    OwnerStringSurvives(m.ownerGroupName);
    OwnerStringSurvives(m.ownerUserSid);
    OwnerStringSurvives(m.ownerGroupSid);
  }

  lemma ContentsMean(e: NormalEntry)
    requires AllFeed(e.extra, Other)
    ensures Meaning(Contents(e)) == WrittenFields(e)
  {
    hide Only, Contents, OptionalChunk, LastBody, TimesMeaning, FacetsMeaning, Bodies,
         SumOfLengths, XattrsOf, XattrChunks, DataChunks, SizeAt, SizeBody, PhsfAt, LegacyAt,
         LinkTargetAt, LinkTargetBody, SecondsBody, NanosBody, SecondsAt, NanosAt;
    var cs, m := Contents(e), e.metadata;
    TimesOfContents(e);
    FacetsOfContents(e);
    OptionalFieldsSurvive(m, e.phsf);
    OnlyOwnChunks(e, Size);
    OnlyOwnChunks(e, Phsf);
    OnlyOwnChunks(e, LinkField);
    OnlyOwnChunks(e, Legacy);
    OnlyOwnChunks(e, Data);
    OnlyOwnChunks(e, XattrField);
    LastOptional(cs, Size, fSIZ, SizeBody(m.rawFileSize));
    LastOptional(cs, Phsf, PHSF, e.phsf);
    LastOptional(cs, LinkField, fLTP, LinkTargetBody(m.linkTargetType));
    NothingMeansNoLegacy(cs);
    DataChunksMean(e.data);
    XattrChunksMean(m.xattrs);
    ExtraOfContents(e);
  }

  lemma NothingMeansNoLegacy(cs: seq<RawChunk>)
    requires Only(cs, Legacy) == []
    ensures LegacyAt(LastBody(cs, Legacy)) == None
  {
  }

  /** Whatever the extra chunks are, those the parser does not claim come back as extras. */
  lemma ExtraOfContents(e: NormalEntry)
    ensures Only(Contents(e), Other) == Only(e.extra, Other)
  {
    hide Only, Contents;
    OnlyContents(e, Other);
    assert Only(e.extra, Other) + [] == Only(e.extra, Other);
  }

  // ---------------------------------------------------------------- the exact round trip

  /** A timestamp that the two-field form can hold. */
  predicate StorableTime(d: Option<Duration>) {
    d.Some? ==> IsStorable(d.value)
  }

  /** What a caller can check before writing: nothing here mentions the parser's result. */
  ghost predicate Survives(e: NormalEntry) {
    && e.header.major == 0 && e.header.minor == 0
    && (forall i :: 0 <= i < |e.extra| ==> FieldOf(e.extra[i].ty) == Other && !IsCritical(e.extra[i].ty))
    && e.metadata.compressedSize == SumOfLengths(e.data)
    && StorableTime(e.metadata.created) && StorableTime(e.metadata.modified)
    && StorableTime(e.metadata.accessed)
  }

  /** The entry that comes back when the extra chunks are all unclaimed. */
  lemma FinishedWritten(e: NormalEntry)
    requires AllFeed(e.extra, Other)
    ensures Finish(e.header, Meaning(Contents(e))) == e <==>
            && e.metadata.compressedSize == SumOfLengths(e.data)
            && StorableTime(e.metadata.created) && StorableTime(e.metadata.modified)
            && StorableTime(e.metadata.accessed)
  {
    hide Contents, Meaning, Only, SumOfLengths, Timestamp, SecondsAt, NanosAt, SecondsBody,
         NanosBody, IsStorable;
    ContentsMean(e);
    OnlyHomogeneous(e.extra, Other, Other);
    TimeSurvivesIff(e.metadata.created);
    TimeSurvivesIff(e.metadata.modified);
    TimeSurvivesIff(e.metadata.accessed);
  }

  lemma HeaderVerdict(e: NormalEntry)
    ensures ParseHeader([FromData(FHED, HeaderBytes(e.header))])
            == if e.header.major != 0 || e.header.minor != 0 then Err(Unsupported) else Ok(e.header)
  {
    hide HeaderOf, HeaderBytes;
    HeaderRoundTrip(e.header, []);
  }

  lemma UnclaimedPassIff(e: NormalEntry)
    requires AllFeed(e.extra, Other)
    ensures FirstError(e.extra).None? <==>
            forall i :: 0 <= i < |e.extra| ==> !IsCritical(e.extra[i].ty)
  {
    hide IsCritical, FieldOf, FirstError;
    FirstErrorIff(e.extra);
    forall i | 0 <= i < |e.extra|
      ensures Check(e.extra[i]).Err? <==> IsCritical(e.extra[i].ty)
    {
      assert FieldOf(e.extra[i].ty) == Other;
    }
    if i :| 0 <= i < |e.extra| && IsCritical(e.extra[i].ty) {
      assert e.extra[i] in e.extra && Check(e.extra[i]).Err?;
    }
  }

  /**
    * An entry comes back from being written and parsed exactly when: its version is 0.0, its
    * extra chunks are ancillary and of types the parser does not claim, its compressed size
    * is that of its data, and its timestamps do not saturate when floored to seconds.
    */
  lemma RoundTripIff(e: NormalEntry)
    ensures Parse(WriteChunks(e)) == Ok(e) <==> Survives(e)
  {
    hide Contents, Meaning, Only, Finish, FieldOf, ParseHeader, FirstError, Parse;
    if HasEnd(e.extra) {
      EndAmongExtras(e);
    } else {
      ContentsEndIff(e);
      ParseMeaning(FromData(FHED, HeaderBytes(e.header)), Contents(e), FromData(FEND, []), []);
      HeaderVerdict(e);
      ContentsFailIff(e);
      if AllFeed(e.extra, Other) {
        FinishedWritten(e);
        UnclaimedPassIff(e);
      } else {
        ClaimedExtrasAreLost(e);
      }
    }
  }

  /** An end chunk among the extras cuts the entry short: something is always lost. */
  lemma EndAmongExtras(e: NormalEntry)
    requires HasEnd(e.extra)
    ensures Parse(WriteChunks(e)) != Ok(e) && !Survives(e)
  {
    hide Only, Meaning, FieldOf, ParseHeader, FirstError, Parse, Finish, HeaderBytes, FromData, StorableTime,
      SumOfLengths, Contents;
    var i := FirstEnd(e.extra);
    EndIsClaimed();
    ContentsBegin(e);
    var head, a := FromData(FHED, HeaderBytes(e.header)), e.extra[..i];
    var others := Contents(e)[i + 1..] + [FromData(FEND, [])] + [];
    assert Contents(e)[..|e.extra|] == e.extra;
    assert Contents(e) == a + [e.extra[i]] + Contents(e)[i + 1..];
    assert WriteChunks(e) == Framed(head, a, e.extra[i], others);
    ParseMeaning(head, a, e.extra[i], others);
    OnlySomeIff(a, Other);
    FinishedExtra(a);
  }

  lemma ContentsBegin(e: NormalEntry)
    ensures e.extra <= Contents(e)
  {
  }

  lemma EndIsClaimed()
    ensures FieldOf(FEND) == End
  {
  }

  lemma FinishedExtra(cs: seq<RawChunk>)
    ensures forall h :: Finish(h, Meaning(cs)).extra == Only(cs, Other)
  {
    hide Only, FieldOf, Bodies, SumOfLengths, XattrsOf, TimesMeaning, FacetsMeaning;
  }

  lemma {:induction false} OnlySomeIff(cs: seq<RawChunk>, field: Field)
    ensures |Only(cs, field)| <= |cs|
    ensures |Only(cs, field)| == |cs| ==> AllFeed(cs, field)
  {
    hide FieldOf;
    if cs != [] {
      OnlySomeIff(cs[..|cs| - 1], field);
      assert cs == cs[..|cs| - 1] + [cs[|cs| - 1]];
    }
  }

  lemma ClaimedExtrasAreLost(e: NormalEntry)
    requires !AllFeed(e.extra, Other)
    ensures Finish(e.header, Meaning(Contents(e))) != e
  {
    hide Contents, Only, FieldOf, Meaning, Finish;
    FinishedExtra(Contents(e));
    ExtraOfContents(e);
    OnlySomeIff(e.extra, Other);
  }

  // ---------------------------------------------------------------- normalising rewrite

  /** Every entry that parsing yields is one that survives. */
  lemma ParsedSurvives(cs: seq<RawChunk>)
    requires Parse(cs).Ok?
    ensures Survives(Parse(cs).value)
  {
    hide Parse, Finish, Meaning, FirstError, Survives;
    var header, a, end, tail := ParsedShape(cs);
    FinishedSurvives(header, a);
  }

  lemma FinishedSurvives(header: EntryHeader, cs: seq<RawChunk>)
    requires header.major == 0 && header.minor == 0 && FirstError(cs).None?
    ensures Survives(Finish(header, Meaning(cs)))
  {
    hide FieldOf, Only, LastBody, Bodies, XattrsOf, FacetsMeaning, SecondsAt, NanosAt, IsStorable,
         FromSecondsNanos, Check, FirstError, IsCritical, Timestamp, SumOfLengths;
    TimestampIsStorable(TimesMeaning(cs).ctime, TimesMeaning(cs).ctimeNs);
    TimestampIsStorable(TimesMeaning(cs).mtime, TimesMeaning(cs).mtimeNs);
    TimestampIsStorable(TimesMeaning(cs).atime, TimesMeaning(cs).atimeNs);
    ExtrasAreUnclaimed(cs);
  }

  lemma TimestampIsStorable(seconds: Option<I64>, nanos: Option<Nanos>)
    ensures StorableTime(Timestamp(seconds, nanos))
  {
    if seconds.Some? {
      DurationFieldsSurvive(seconds.value, if nanos.Some? then nanos.value else 0);
    }
  }

  lemma {:induction false} ExtrasAreUnclaimed(cs: seq<RawChunk>)
    requires FirstError(cs).None?
    ensures forall i :: 0 <= i < |Only(cs, Other)| ==>
              FieldOf(Only(cs, Other)[i].ty) == Other && !IsCritical(Only(cs, Other)[i].ty)
  {
    hide FieldOf, IsCritical, Only, Check, FirstError;
    FirstErrorIff(cs);
    var extra := Only(cs, Other);
    forall i | 0 <= i < |extra|
      ensures FieldOf(extra[i].ty) == Other && !IsCritical(extra[i].ty)
    {
      OnlyMembers(cs, Other, extra[i]);
      AcceptedOther(extra[i]);
    }
  }

  lemma {:induction false} OnlyMembers(cs: seq<RawChunk>, field: Field, c: RawChunk)
    requires c in Only(cs, field)
    ensures c in cs && FieldOf(c.ty) == field
  {
    hide FieldOf;
    var init, last := cs[..|cs| - 1], cs[|cs| - 1];
    if c in Only(init, field) {
      OnlyMembers(init, field, c);
    }
  }

  lemma AcceptedOther(c: RawChunk)
    requires FieldOf(c.ty) == Other && Check(c).Ok?
    ensures !IsCritical(c.ty)
  {
    hide FieldOf, IsCritical;
  }

  /**
    * Writing what was parsed and parsing it again gives the same entry, however irregular the
    * original chunks were, and the rewritten chunks hold no legacy permission.
    */
  lemma NormalisingRewrite(cs: seq<RawChunk>)
    requires Parse(cs).Ok?
    ensures Parse(WriteChunks(Parse(cs).value)) == Parse(cs)
    ensures forall c :: c in WriteChunks(Parse(cs).value) ==> c.ty != fPRM
  {
    hide Parse, Survives, WriteChunks;
    var e := Parse(cs).value;
    ParsedSurvives(cs);
    RoundTripIff(e);
    forall c | c in WriteChunks(e)
      ensures c.ty != fPRM
    {
      WrittenTypes(e, c);
    }
  }

  lemma WrittenTypes(e: NormalEntry, c: RawChunk)
    requires Survives(e) && c in WriteChunks(e)
    ensures c.ty != fPRM
  {
    hide Contents, OwnChunks, FieldOf;
    LegacyIsClaimed();
    if c in Contents(e) {
      ContentsMember(e, c);
      if c !in e.extra {
        NothingOwnsLegacy(e, c);
      }
    }
  }

  lemma LegacyIsClaimed()
    ensures FieldOf(fPRM) == Legacy
  {
  }

  lemma NothingOwnsLegacy(e: NormalEntry, c: RawChunk)
    requires c in OwnChunks(e, FieldOf(c.ty))
    ensures c.ty != fPRM
  {
    hide OptionalChunk, XattrChunks, DataChunks;
  }
}
