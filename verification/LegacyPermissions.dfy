/** The legacy permission chunk `fPRM`: its bytes, and what it fills in for an entry. */
module LegacyPermissions {
  import opened Basics
  import opened Octets
  import opened Utf8
  import opened Chunks
  import opened EntryMetadata
  import opened Entries
  import opened EntryMeaning
  import opened EntryRoundTrip

  // ---------------------------------------------------------------- the body

  /** Both ids in eight bytes, both names with their length before them, and two bytes of permission bits. */
  function LegacyBytes(p: LegacyPermission): Bytes {
    BigEndian(p.uid, 8) + ([|p.uname|] + p.uname + (BigEndian(p.gid, 8) + ([|p.gname|] + p.gname +
    BigEndian(p.permission, 2))))
  }

  lemma IntThenTail(n: nat, k: nat, tail: Bytes)
    requires n < Pow256(k)
    ensures PrefixedInt(BigEndian(n, k) + tail, k) == Ok((n, tail))
  {
    hide BigEndian, FromBigEndian, Pow256;
    var s := BigEndian(n, k) + tail;
    BigEndianExact(n, k);
    assert s[..k] == BigEndian(n, k) && s[k..] == tail;
  }

  lemma StringThenTail(v: OwnerString, tail: Bytes)
    ensures PrefixedString([|v|] + v + tail) == Ok((v, tail))
  {
    hide IsUtf8;
    var s := [|v|] + v + tail;
    assert s[1..1 + |v|] == v && s[1 + |v|..] == tail;
  }

  /** A legacy permission is read from its bytes, whatever follows them. */
  lemma LegacyThenTail(p: LegacyPermission, tail: Bytes)
    ensures LegacyPermissionOf(LegacyBytes(p) + tail) == Ok(p)
  {
    hide BigEndian, FromBigEndian, PrefixedInt, PrefixedString, IsUtf8;
    Widths();
    var s4 := BigEndian(p.permission, 2) + tail;
    var s3 := [|p.gname|] + p.gname + s4;
    var s2 := BigEndian(p.gid, 8) + s3;
    var s1 := [|p.uname|] + p.uname + s2;
    assert LegacyBytes(p) + tail == BigEndian(p.uid, 8) + s1;
    IntThenTail(p.uid, 8, s1);
    StringThenTail(p.uname, s2);
    IntThenTail(p.gid, 8, s3);
    StringThenTail(p.gname, s4);
    IntThenTail(p.permission, 2, tail);
  }

  lemma IntLayout(s: Bytes, k: nat)
    requires PrefixedInt(s, k).Ok?
    ensures s == BigEndian(PrefixedInt(s, k).value.0, k) + PrefixedInt(s, k).value.1
  {
    hide BigEndian, FromBigEndian, Pow256;
    FromBigEndianRoundTrip(s[..k]);
  }

  lemma StringLayout(s: Bytes)
    requires PrefixedString(s).Ok?
    ensures var (v, rest) := PrefixedString(s).value; s == [|v|] + v + rest
  {
    hide IsUtf8;
    assert s == [s[0]] + s[1..1 + s[0]] + s[1 + s[0]..];
  }

  /** A body reads exactly when it begins with the bytes of a legacy permission, namely the one read. */
  lemma LegacyReadsIff(s: Bytes)
    ensures LegacyPermissionOf(s).Ok? <==> exists p :: LegacyBytes(p) <= s
    ensures LegacyPermissionOf(s).Ok? ==> LegacyBytes(LegacyPermissionOf(s).value) <= s
    ensures LegacyPermissionOf(s).Err? ==> LegacyPermissionOf(s).error in {UnexpectedEof, InvalidData}
  {
    hide LegacyBytes, LegacyPermissionOf;
    if p :| LegacyBytes(p) <= s {
      LegacyThenTail(p, s[|LegacyBytes(p)|..]);
      assert s == LegacyBytes(p) + s[|LegacyBytes(p)|..];
    }
    if LegacyPermissionOf(s).Ok? {
      LegacyLayout(s);
    }
    LegacyErrors(s);
  }

  lemma LegacyErrors(s: Bytes)
    ensures LegacyPermissionOf(s).Err? ==> LegacyPermissionOf(s).error in {UnexpectedEof, InvalidData}
  {
    hide BigEndian, FromBigEndian, IsUtf8, Pow256;
  }

  lemma LegacyLayout(s: Bytes)
    requires LegacyPermissionOf(s).Ok?
    ensures LegacyBytes(LegacyPermissionOf(s).value) <= s
  {
    hide BigEndian, FromBigEndian, PrefixedInt, PrefixedString, IsUtf8, Pow256;
    var (uid, s1) := PrefixedInt(s, 8).value;
    var (uname, s2) := PrefixedString(s1).value;
    var (gid, s3) := PrefixedInt(s2, 8).value;
    var (gname, s4) := PrefixedString(s3).value;
    var (permission, s5) := PrefixedInt(s4, 2).value;
    IntLayout(s, 8);
    StringLayout(s1);
    IntLayout(s2, 8);
    StringLayout(s3);
    IntLayout(s4, 2);
    var p := LegacyPermissionOf(s).value;
    assert s == LegacyBytes(p) + s5;
  }

  /** A body cut short is an unexpected end of input. */
  lemma LegacyTruncated(p: LegacyPermission, cut: nat)
    requires cut < |LegacyBytes(p)|
    ensures LegacyPermissionOf(LegacyBytes(p)[..cut]) == Err(UnexpectedEof)
  {
    hide BigEndian, FromBigEndian, PrefixedInt, PrefixedString, IsUtf8;
    Widths();
    var s4 := BigEndian(p.permission, 2);
    var s3 := [|p.gname|] + p.gname + s4;
    var s2 := BigEndian(p.gid, 8) + s3;
    var s1 := [|p.uname|] + p.uname + s2;
    IntCut(p.uid, 8, s1, cut);
    if cut >= 8 {
      var cut1 := cut - 8;
      StringCut(p.uname, s2, cut1);
      if cut1 >= 1 + |p.uname| {
        var cut2 := cut1 - 1 - |p.uname|;
        IntCut(p.gid, 8, s3, cut2);
        if cut2 >= 8 {
          StringCut(p.gname, s4, cut2 - 8);
          if cut2 - 8 >= 1 + |p.gname| {
            IntCut(p.permission, 2, [], cut2 - 9 - |p.gname|);
            assert s4 + [] == s4;
          }
        }
      }
    }
  }

  lemma IntCut(n: nat, k: nat, tail: Bytes, cut: nat)
    requires n < Pow256(k) && cut <= k + |tail|
    ensures PrefixedInt((BigEndian(n, k) + tail)[..cut], k) ==
            if cut < k then Err(UnexpectedEof) else Ok((n, tail[..cut - k]))
  {
    hide BigEndian, FromBigEndian, PrefixedInt, Pow256;
    if cut < k {
      TooShortForInt((BigEndian(n, k) + tail)[..cut], k);
    } else {
      IntThenTail(n, k, tail[..cut - k]);
      assert (BigEndian(n, k) + tail)[..cut] == BigEndian(n, k) + tail[..cut - k];
    }
  }

  lemma TooShortForInt(s: Bytes, k: nat)
    requires |s| < k
    ensures PrefixedInt(s, k) == Err(UnexpectedEof)
  {
  }

  lemma StringCut(v: OwnerString, tail: Bytes, cut: nat)
    requires cut <= 1 + |v| + |tail|
    ensures PrefixedString(([|v|] + v + tail)[..cut]) ==
            if cut < 1 + |v| then Err(UnexpectedEof) else Ok((v, tail[..cut - 1 - |v|]))
  {
    hide IsUtf8;
    var s := ([|v|] + v + tail)[..cut];
    if cut >= 1 + |v| {
      StringThenTail(v, tail[..cut - 1 - |v|]);
      assert s == [|v|] + v + tail[..cut - 1 - |v|];
    } else if cut > 0 {
      assert s[0] == |v|;
    }
  }

  /** A complete name that is not UTF-8 is invalid data. */
  lemma LegacyBadName(uid: U64, name: Bytes, tail: Bytes)
    requires |name| <= 255 && !IsUtf8(name)
    ensures LegacyPermissionOf(BigEndian(uid, 8) + ([|name|] + name + tail)) == Err(InvalidData)
  {
    hide BigEndian, FromBigEndian, PrefixedInt, IsUtf8;
    Widths();
    var s := [|name|] + name + tail;
    IntThenTail(uid, 8, s);
    assert s[1..1 + |name|] == name;
  }

  // ---------------------------------------------------------------- what it fills in

  /** One of the five chunks that a legacy permission stands in for. */
  predicate IsFacetType(ty: ChunkType) {
    ty == fUId || ty == fGId || ty == fONm || ty == fGNm || ty == fMOd
  }

  predicate HasFacet(cs: seq<RawChunk>) {
    exists c <- cs :: IsFacetType(c.ty)
  }

  lemma FacetFields(ty: ChunkType)
    ensures IsFacetType(ty) <==> FieldOf(ty) in {Uid, Gid, UserName, GroupName, Mode}
  {
    hide FieldOf;
    KnownFields();
    if FieldOf(ty) == Uid {
      FieldsAreDistinct(ty, fUId);
    } else if FieldOf(ty) == Gid {
      FieldsAreDistinct(ty, fGId);
    } else if FieldOf(ty) == UserName {
      FieldsAreDistinct(ty, fONm);
    } else if FieldOf(ty) == GroupName {
      FieldsAreDistinct(ty, fGNm);
    } else if FieldOf(ty) == Mode {
      FieldsAreDistinct(ty, fMOd);
    }
  }

  lemma {:induction false} NoneOfField(cs: seq<RawChunk>, field: Field)
    requires forall c <- cs :: FieldOf(c.ty) != field
    ensures Only(cs, field) == [] && LastBody(cs, field) == None
  {
    hide FieldOf;
    if cs != [] {
      NoneOfField(cs[..|cs| - 1], field);
    }
  }

  /** The last chunk that feeds a field, by its place. */
  lemma {:induction false} LastBodyIs(cs: seq<RawChunk>, i: nat)
    requires i < |cs| && forall j :: i < j < |cs| ==> FieldOf(cs[j].ty) != FieldOf(cs[i].ty)
    ensures LastBody(cs, FieldOf(cs[i].ty)) == Some(cs[i].data)
  {
    hide FieldOf;
    if i < |cs| - 1 {
      LastBodyIs(cs[..|cs| - 1], i);
    }
  }

  /**
   * An entry with none of the five owner chunks takes all five from its last legacy permission:
   * both ids, both names, and the low twelve permission bits. What the chunk does not carry,
   * the two security identifiers, it leaves alone.
   */
  lemma LegacyFills(head: RawChunk, cs: seq<RawChunk>, end: RawChunk, tail: seq<RawChunk>, i: nat,
                    p: LegacyPermission, after: Bytes)
    requires !HasEnd(cs) && end.ty == FEND && Parse(Framed(head, cs, end, tail)).Ok?
    requires !HasFacet(cs) && i < |cs| && cs[i].ty == fPRM && cs[i].data == LegacyBytes(p) + after
    requires forall j :: i < j < |cs| ==> cs[j].ty != fPRM
    ensures var m := Parse(Framed(head, cs, end, tail)).value.metadata;
      m.ownerUid == Some(p.uid) && m.ownerGid == Some(p.gid) && m.ownerUserName == Some(p.uname) &&
      m.ownerGroupName == Some(p.gname) && m.permissionMode == Some(p.permission % 0x1000) &&
      m.ownerUserSid == OwnerStringAt(LastBody(cs, UserSid)) &&
      m.ownerGroupSid == OwnerStringAt(LastBody(cs, GroupSid))
  {
    hide Parse, FirstError, FieldOf, LegacyBytes, LegacyPermissionOf, Only, LastBody, Timestamp, Bodies, SumOfLengths,
      XattrsOf, TimesMeaning, IsFacetType;
    ParseMeaning(head, cs, end, tail);
    LegacyIsClaimed();
    forall j | i < j < |cs| ensures FieldOf(cs[j].ty) != Legacy {
      if FieldOf(cs[j].ty) == Legacy {
        FieldsAreDistinct(cs[j].ty, fPRM);
      }
    }
    LastBodyIs(cs, i);
    LegacyThenTail(p, after);
    NoFacets(cs);
  }

  lemma NoFacets(cs: seq<RawChunk>)
    requires !HasFacet(cs)
    ensures forall field <- {Uid, Gid, UserName, GroupName, Mode} :: LastBody(cs, field) == None
  {
    hide FieldOf, IsFacetType, LastBody;
    forall field <- {Uid, Gid, UserName, GroupName, Mode} ensures LastBody(cs, field) == None {
      forall c <- cs ensures FieldOf(c.ty) != field {
        FacetFields(c.ty);
      }
      NoneOfField(cs, field);
    }
  }

  // ---------------------------------------------------------------- what it does not change

  function WithoutLegacy(cs: seq<RawChunk>): seq<RawChunk> {
    if cs == [] then []
    else
      var last := cs[|cs| - 1];
      WithoutLegacy(cs[..|cs| - 1]) + if last.ty == fPRM then [] else [last]
  }

  lemma {:induction false} OnlyWithoutLegacy(cs: seq<RawChunk>, field: Field)
    ensures Only(WithoutLegacy(cs), field) == if field == Legacy then [] else Only(cs, field)
  {
    hide FieldOf;
    if cs != [] {
      var init, last := cs[..|cs| - 1], cs[|cs| - 1];
      OnlyWithoutLegacy(init, field);
      LegacyIsClaimed();
      if last.ty == fPRM {
        assert WithoutLegacy(init) + [] == WithoutLegacy(init);
        assert Only(init, field) + [] == Only(init, field);
      } else {
        if FieldOf(last.ty) == Legacy {
          FieldsAreDistinct(last.ty, fPRM);
        }
        var shorter := WithoutLegacy(cs);
        assert shorter[..|shorter| - 1] == WithoutLegacy(init);
        assert field == Legacy ==> Only(init, field) + [] == Only(init, field);
      }
    }
  }

  lemma {:induction false} MembersWithoutLegacy(cs: seq<RawChunk>, c: RawChunk)
    ensures c in WithoutLegacy(cs) <==> c in cs && c.ty != fPRM
  {
    if cs != [] {
      MembersWithoutLegacy(cs[..|cs| - 1], c);
      assert cs == cs[..|cs| - 1] + [cs[|cs| - 1]];
    }
  }

  lemma LastWithoutLegacy(cs: seq<RawChunk>, field: Field)
    ensures LastBody(WithoutLegacy(cs), field) == if field == Legacy then None else LastBody(cs, field)
  {
    hide Only, WithoutLegacy;
    OnlyWithoutLegacy(cs, field);
  }

  lemma TimesWithoutLegacy(cs: seq<RawChunk>)
    ensures TimesMeaning(WithoutLegacy(cs)) == TimesMeaning(cs)
  {
    hide LastBody, WithoutLegacy, SecondsAt, NanosAt;
    LastWithoutLegacy(cs, CTime);
    LastWithoutLegacy(cs, MTime);
    LastWithoutLegacy(cs, ATime);
    LastWithoutLegacy(cs, CTimeNanos);
    LastWithoutLegacy(cs, MTimeNanos);
    LastWithoutLegacy(cs, ATimeNanos);
  }

  lemma FacetsWithoutLegacy(cs: seq<RawChunk>)
    ensures FacetsMeaning(WithoutLegacy(cs)) == FacetsMeaning(cs)
  {
    hide LastBody, WithoutLegacy, IdAt, OwnerStringAt, ModeAt;
    LastWithoutLegacy(cs, Uid);
    LastWithoutLegacy(cs, Gid);
    LastWithoutLegacy(cs, UserName);
    LastWithoutLegacy(cs, GroupName);
    LastWithoutLegacy(cs, UserSid);
    LastWithoutLegacy(cs, GroupSid);
    LastWithoutLegacy(cs, Mode);
  }

  lemma MeaningWithoutLegacy(cs: seq<RawChunk>)
    ensures Meaning(WithoutLegacy(cs)) == Meaning(cs).(permission := None)
  {
    hide Only, LastBody, WithoutLegacy, Bodies, SumOfLengths, XattrsOf, TimesMeaning, FacetsMeaning, SizeAt, PhsfAt,
      LinkTargetAt;
    OnlyWithoutLegacy(cs, Data);
    OnlyWithoutLegacy(cs, Other);
    OnlyWithoutLegacy(cs, XattrField);
    LastWithoutLegacy(cs, Size);
    LastWithoutLegacy(cs, Phsf);
    LastWithoutLegacy(cs, Legacy);
    LastWithoutLegacy(cs, LinkField);
    TimesWithoutLegacy(cs);
    FacetsWithoutLegacy(cs);
  }

  lemma ErrorWithoutLegacy(cs: seq<RawChunk>)
    requires FirstError(cs) == None
    ensures FirstError(WithoutLegacy(cs)) == None && (HasEnd(WithoutLegacy(cs)) ==> HasEnd(cs))
  {
    hide Check, WithoutLegacy, FirstError;
    FirstErrorIff(cs);
    FirstErrorIff(WithoutLegacy(cs));
    forall c <- WithoutLegacy(cs) ensures c in cs {
      MembersWithoutLegacy(cs, c);
    }
    if HasEnd(WithoutLegacy(cs)) {
      var i :| 0 <= i < |WithoutLegacy(cs)| && WithoutLegacy(cs)[i].ty == FEND;
      assert WithoutLegacy(cs)[i] in cs;
    }
  }

  /**
   * As soon as one of the five owner chunks is there, legacy permissions that can be read change
   * nothing: the entry is what it would be without them.
   */
  lemma LegacyYields(head: RawChunk, cs: seq<RawChunk>, end: RawChunk, tail: seq<RawChunk>)
    requires !HasEnd(cs) && end.ty == FEND && Parse(Framed(head, cs, end, tail)).Ok? && HasFacet(cs)
    ensures Parse(Framed(head, cs, end, tail)) == Parse(Framed(head, WithoutLegacy(cs), end, tail))
  {
    hide Parse, FirstError, FieldOf, WithoutLegacy, Meaning, HasEnd, Timestamp, IsFacetType, ParseHeader;
    ParseMeaning(head, cs, end, tail);
    ErrorWithoutLegacy(cs);
    ParseMeaning(head, WithoutLegacy(cs), end, tail);
    MeaningWithoutLegacy(cs);
    FacetIsSet(cs);
  }

  lemma FacetIsSet(cs: seq<RawChunk>)
    requires FirstError(cs) == None && HasFacet(cs)
    ensures !LacksFacets(Meaning(cs).facets)
  {
    hide FieldOf, Only, FirstError, Bodies, SumOfLengths, XattrsOf, TimesMeaning, IsFacetType, IdOf, OwnerStringOf,
      ModeOf;
    var c :| c in cs && IsFacetType(c.ty);
    FacetFields(c.ty);
    FirstErrorIff(cs);
    OnlyKeeps(cs, c);
    var field := FieldOf(c.ty);
    var own := Only(cs, field);
    var last := own[|own| - 1];
    OnlyMembers(cs, field, last);
    assert Check(last).Ok?;
  }
}
