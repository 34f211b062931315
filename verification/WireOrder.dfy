/** The order in which an entry's chunks are written, which no reader depends on but every archive shows. */
module WireOrder {
  import opened Basics
  import opened Octets
  import opened Chunks
  import opened EntryMetadata
  import opened Entries
  import opened EntryWriting
  import opened SolidEntries

  /** Where a type stands among what is written between the extra chunks and the end. */
  function Place(ty: ChunkType): nat {
    if ty == fSIZ then 1
    else if ty == cTIM then 2
    else if ty == cTNS then 3
    else if ty == mTIM then 4
    else if ty == mTNS then 5
    else if ty == aTIM then 6
    else if ty == aTNS then 7
    else if ty == fUId then 8
    else if ty == fGId then 9
    else if ty == fONm then 10
    else if ty == fGNm then 11
    else if ty == fOSi then 12
    else if ty == fGSi then 13
    else if ty == fMOd then 14
    else if ty == fLTP then 15
    else if ty == xATR then 16
    else if ty == PHSF then 17
    else if ty == FDAT then 18
    else 0
  }

  predicate MayRepeat(ty: ChunkType) {
    ty == xATR || ty == FDAT
  }

  /** One chunk may be written right before or further before another. */
  predicate InPlace(first: RawChunk, second: RawChunk) {
    Place(first.ty) < Place(second.ty) || (first.ty == second.ty && MayRepeat(first.ty))
  }

  /** The chunks have places from `from` to `to`, in order. */
  ghost predicate InOrder(cs: seq<RawChunk>, from: nat, to: nat) {
    (forall c <- cs :: from <= Place(c.ty) <= to) &&
    forall i, j :: 0 <= i < j < |cs| ==> InPlace(cs[i], cs[j])
  }

  lemma InOrderAppend(a: seq<RawChunk>, b: seq<RawChunk>, from: nat, between: nat, to: nat)
    requires InOrder(a, from, between) && InOrder(b, between + 1, to) && from <= between + 1 && between <= to
    ensures InOrder(a + b, from, to)
  {
    hide Place;
    var cs := a + b;
    forall i, j | 0 <= i < j < |cs| ensures InPlace(cs[i], cs[j]) {
      if i < |a| <= j {
        assert a[i] in a && b[j - |a|] in b;
      }
    }
  }

  lemma OptionalInOrder(ty: ChunkType, body: Option<Bytes>)
    ensures InOrder(OptionalChunk(ty, body), Place(ty), Place(ty))
  {
    hide Place;
  }

  lemma {:induction false} XattrsInOrder(xs: seq<Xattr>)
    ensures forall c <- XattrChunks(xs) :: c.ty == xATR
  {
    hide XattrBytes, xATR;
    if xs != [] {
      XattrsInOrder(xs[..|xs| - 1]);
    }
  }

  lemma {:induction false} DataInOrder(ty: ChunkType, data: seq<Bytes>)
    ensures forall c <- DataChunks(ty, data) :: c.ty == ty
  {
    if data != [] {
      DataInOrder(ty, data[..|data| - 1]);
    }
  }

  lemma RepeatsInOrder(cs: seq<RawChunk>, ty: ChunkType)
    requires MayRepeat(ty) && forall c <- cs :: c.ty == ty
    ensures InOrder(cs, Place(ty), Place(ty))
  {
    hide Place;
    assert forall i :: 0 <= i < |cs| ==> cs[i] in cs;
  }

  lemma Places()
    ensures Place(fSIZ) == 1 && Place(cTIM) == 2 && Place(cTNS) == 3 && Place(mTIM) == 4
    ensures Place(mTNS) == 5 && Place(aTIM) == 6 && Place(aTNS) == 7 && Place(fUId) == 8
    ensures Place(fGId) == 9 && Place(fONm) == 10 && Place(fGNm) == 11 && Place(fOSi) == 12
    ensures Place(fGSi) == 13 && Place(fMOd) == 14 && Place(fLTP) == 15 && Place(xATR) == 16
    ensures Place(PHSF) == 17 && Place(FDAT) == 18
  {
    hide Place;
    TimePlaces();
    OwnerPlaces();
    OtherPlaces();
  }

  lemma TimePlaces()
    ensures Place(cTIM) == 2 && Place(cTNS) == 3 && Place(mTIM) == 4
    ensures Place(mTNS) == 5 && Place(aTIM) == 6 && Place(aTNS) == 7
  {
  }

  lemma OwnerPlaces()
    ensures Place(fUId) == 8 && Place(fGId) == 9 && Place(fONm) == 10 && Place(fGNm) == 11
    ensures Place(fOSi) == 12 && Place(fGSi) == 13
  {
  }

  lemma OtherPlaces()
    ensures Place(fSIZ) == 1 && Place(fMOd) == 14 && Place(fLTP) == 15 && Place(xATR) == 16
    ensures Place(PHSF) == 17 && Place(FDAT) == 18
  {
  }

  lemma TimesInOrder(m: Metadata)
    ensures InOrder(TimeChunks(m), 2, 7)
  {
    hide InOrder, Place, OptionalChunk, SecondsBody, NanosBody;
    Places();
    var c, cn := OptionalChunk(cTIM, SecondsBody(m.created)), OptionalChunk(cTNS, NanosBody(m.created));
    var t, tn := OptionalChunk(mTIM, SecondsBody(m.modified)), OptionalChunk(mTNS, NanosBody(m.modified));
    var a, an := OptionalChunk(aTIM, SecondsBody(m.accessed)), OptionalChunk(aTNS, NanosBody(m.accessed));
    OptionalInOrder(cTIM, SecondsBody(m.created));
    OptionalInOrder(cTNS, NanosBody(m.created));
    OptionalInOrder(mTIM, SecondsBody(m.modified));
    OptionalInOrder(mTNS, NanosBody(m.modified));
    OptionalInOrder(aTIM, SecondsBody(m.accessed));
    OptionalInOrder(aTNS, NanosBody(m.accessed));
    InOrderAppend(c, cn, 2, 2, 3);
    InOrderAppend(c + cn, t, 2, 3, 4);
    InOrderAppend(c + cn + t, tn, 2, 4, 5);
    InOrderAppend(c + cn + t + tn, a, 2, 5, 6);
    InOrderAppend(c + cn + t + tn + a, an, 2, 6, 7);
  }

  lemma OwnersInOrder(m: Metadata)
    ensures InOrder(OwnerChunks(m), 8, 15)
  {
    hide InOrder, Place, OptionalChunk, IdBody, OwnerStringBody, ModeBody, LinkTargetBody;
    Places();
    var u, g := OptionalChunk(fUId, IdBody(m.ownerUid)), OptionalChunk(fGId, IdBody(m.ownerGid));
    var un := OptionalChunk(fONm, OwnerStringBody(m.ownerUserName));
    var gn := OptionalChunk(fGNm, OwnerStringBody(m.ownerGroupName));
    var us := OptionalChunk(fOSi, OwnerStringBody(m.ownerUserSid));
    var gs := OptionalChunk(fGSi, OwnerStringBody(m.ownerGroupSid));
    var p, l := OptionalChunk(fMOd, ModeBody(m.permissionMode)), OptionalChunk(fLTP, LinkTargetBody(m.linkTargetType));
    OptionalInOrder(fUId, IdBody(m.ownerUid));
    OptionalInOrder(fGId, IdBody(m.ownerGid));
    OptionalInOrder(fONm, OwnerStringBody(m.ownerUserName));
    OptionalInOrder(fGNm, OwnerStringBody(m.ownerGroupName));
    OptionalInOrder(fOSi, OwnerStringBody(m.ownerUserSid));
    OptionalInOrder(fGSi, OwnerStringBody(m.ownerGroupSid));
    OptionalInOrder(fMOd, ModeBody(m.permissionMode));
    OptionalInOrder(fLTP, LinkTargetBody(m.linkTargetType));
    InOrderAppend(u, g, 8, 8, 9);
    InOrderAppend(u + g, un, 8, 9, 10);
    InOrderAppend(u + g + un, gn, 8, 10, 11);
    InOrderAppend(u + g + un + gn, us, 8, 11, 12);
    InOrderAppend(u + g + un + gn + us, gs, 8, 12, 13);
    InOrderAppend(u + g + un + gn + us + gs, p, 8, 13, 14);
    InOrderAppend(u + g + un + gn + us + gs + p, l, 8, 14, 15);
  }

  /** What follows the extra chunks and precedes the end. */
  function AfterExtra(e: NormalEntry): seq<RawChunk> {
    OptionalChunk(fSIZ, SizeBody(e.metadata.rawFileSize)) + TimeChunks(e.metadata) + OwnerChunks(e.metadata)
    + XattrChunks(e.metadata.xattrs) + OptionalChunk(PHSF, e.phsf) + DataChunks(FDAT, e.data)
  }

  lemma AfterExtraInOrder(e: NormalEntry)
    ensures InOrder(AfterExtra(e), 1, 18)
  {
    hide InOrder, Place, OptionalChunk, SizeBody, TimeChunks, OwnerChunks, XattrChunks, DataChunks;
    Places();
    var m := e.metadata;
    var s, t, o := OptionalChunk(fSIZ, SizeBody(m.rawFileSize)), TimeChunks(m), OwnerChunks(m);
    var x, p, d := XattrChunks(m.xattrs), OptionalChunk(PHSF, e.phsf), DataChunks(FDAT, e.data);
    OptionalInOrder(fSIZ, SizeBody(m.rawFileSize));
    TimesInOrder(m);
    OwnersInOrder(m);
    XattrsInOrder(m.xattrs);
    RepeatsInOrder(x, xATR);
    OptionalInOrder(PHSF, e.phsf);
    DataInOrder(FDAT, e.data);
    RepeatsInOrder(d, FDAT);
    InOrderAppend(s, t, 1, 1, 7);
    InOrderAppend(s + t, o, 1, 7, 15);
    InOrderAppend(s + t + o, x, 1, 15, 16);
    InOrderAppend(s + t + o + x, p, 1, 16, 17);
    InOrderAppend(s + t + o + x + p, d, 1, 17, 18);
  }

  /**
   * A normal entry is written as its header, its extra chunks as they are, every recorded facet
   * in its place, at most one of each but attributes and data, and an empty end chunk.
   */
  lemma WrittenInOrder(e: NormalEntry)
    ensures
      var cs, n := WriteChunks(e), 1 + |e.extra|;
      |cs| > n && cs[0].ty == FHED && cs[1..n] == e.extra &&
      InOrder(cs[n..|cs| - 1], 1, 18) && cs[|cs| - 1] == FromData(FEND, [])
  {
    hide InOrder, OptionalChunk, SizeBody, TimeChunks, OwnerChunks, XattrChunks, DataChunks, HeaderBytes;
    AfterExtraInOrder(e);
    var cs, n := WriteChunks(e), 1 + |e.extra|;
    var head := FromData(FHED, HeaderBytes(e.header));
    assert Contents(e) == e.extra + AfterExtra(e);
    assert cs == [head] + e.extra + AfterExtra(e) + [FromData(FEND, [])];
    assert cs[n..|cs| - 1] == AfterExtra(e);
  }

  /** A solid entry is written as header, extra chunks as they are, password hash, data and an empty end. */
  lemma SolidWrittenInOrder(e: SolidEntry)
    ensures
      var cs, n := WriteSolid(e), 1 + |e.extra|;
      |cs| > n && cs[0].ty == SHED && cs[1..n] == e.extra && cs[|cs| - 1] == FromData(SEND, []) &&
      forall i :: n <= i < |cs| - 1 ==> cs[i].ty == if i == n && e.phsf.Some? then PHSF else SDAT
  {
    hide DataChunks, SolidHeaderBytes;
    var cs, n := WriteSolid(e), 1 + |e.extra|;
    var head := FromData(SHED, SolidHeaderBytes(e.header));
    var hash, data := OptionalChunk(PHSF, e.phsf), DataChunks(SDAT, e.data);
    DataInOrder(SDAT, e.data);
    assert cs == [head] + e.extra + hash + data + [FromData(SEND, [])];
    forall i | n <= i < |cs| - 1 ensures cs[i] == (hash + data)[i - n] {
    }
    forall i | n <= i < |cs| - 1 ensures cs[i].ty == if i == n && e.phsf.Some? then PHSF else SDAT {
      if i >= n + |hash| {
        assert cs[i] == data[i - n - |hash|] && cs[i] in data;
      }
    }
  }

  predicate IsNanosType(ty: ChunkType) {
    ty == cTNS || ty == mTNS || ty == aTNS
  }

  /** Nanoseconds are written only when there are any: none of these chunks says zero. */
  lemma NoZeroNanos(e: NormalEntry, c: RawChunk)
    requires c in WriteChunks(e) && c !in e.extra && IsNanosType(c.ty)
    ensures c.data != [0, 0, 0, 0]
  {
    hide InOrder, OptionalChunk, SizeBody, TimeChunks, OwnerChunks, XattrChunks, DataChunks, HeaderBytes, Place;
    Places();
    assert c in Contents(e);
    var m := e.metadata;
    OptionalInOrder(fSIZ, SizeBody(m.rawFileSize));
    OwnersInOrder(m);
    XattrsInOrder(m.xattrs);
    OptionalInOrder(PHSF, e.phsf);
    DataInOrder(FDAT, e.data);
    InOrderAmong(OptionalChunk(fSIZ, SizeBody(m.rawFileSize)), 1, 1, c);
    InOrderAmong(OwnerChunks(m), 8, 15, c);
    InOrderAmong(OptionalChunk(PHSF, e.phsf), 17, 17, c);
    assert c in TimeChunks(m);
    TimeChunkNanos(m, c);
  }

  lemma InOrderAmong(cs: seq<RawChunk>, from: nat, to: nat, c: RawChunk)
    requires InOrder(cs, from, to)
    ensures c in cs ==> from <= Place(c.ty) <= to
  {
  }

  lemma TimeChunkNanos(m: Metadata, c: RawChunk)
    requires c in TimeChunks(m) && IsNanosType(c.ty)
    ensures c.data != [0, 0, 0, 0]
  {
    hide OptionalChunk, SecondsBody, NanosBody, IsNanosType;
    assert c in OptionalChunk(cTIM, SecondsBody(m.created)) || c in OptionalChunk(cTNS, NanosBody(m.created)) ||
           c in OptionalChunk(mTIM, SecondsBody(m.modified)) || c in OptionalChunk(mTNS, NanosBody(m.modified)) ||
           c in OptionalChunk(aTIM, SecondsBody(m.accessed)) || c in OptionalChunk(aTNS, NanosBody(m.accessed));
    SecondsAreNoNanos(cTIM, SecondsBody(m.created), c);
    SecondsAreNoNanos(mTIM, SecondsBody(m.modified), c);
    SecondsAreNoNanos(aTIM, SecondsBody(m.accessed), c);
    NanosAreNotZero(cTNS, m.created, c);
    NanosAreNotZero(mTNS, m.modified, c);
    NanosAreNotZero(aTNS, m.accessed, c);
  }

  lemma SecondsAreNoNanos(ty: ChunkType, body: Option<Bytes>, c: RawChunk)
    requires ty == cTIM || ty == mTIM || ty == aTIM
    ensures c in OptionalChunk(ty, body) ==> !IsNanosType(c.ty)
  {
  }

  lemma NanosAreNotZero(ty: ChunkType, d: Option<Duration>, c: RawChunk)
    ensures c in OptionalChunk(ty, NanosBody(d)) ==> c.data != [0, 0, 0, 0]
  {
    hide NanosBytes, ToSecondsNanos;
    if d.Some? {
      NanosRoundTrip(ToSecondsNanos(d.value).1);
    }
    NanosRoundTrip(0);
    ZeroNanos();
  }

  lemma ZeroNanos()
    ensures NanosBytes(0) == [0, 0, 0, 0]
  {
  }
}
