/** Normal entries: the header, the chunk-by-chunk parser, and the entry it builds. */
module Entries {
  import opened Basics
  import opened Octets
  import opened Utf8
  import opened Chunks
  import opened EntryMetadata

  // ---------------------------------------------------------------- header

  /** Algorithm and kind codes are kept as read, known or not. */
  datatype EntryHeader = EntryHeader(
    major: Byte, minor: Byte, dataKind: Byte, compression: Byte, encryption: Byte,
    cipherMode: Byte, name: Utf8String)

  function HeaderBytes(h: EntryHeader): Bytes {
    [h.major, h.minor, h.dataKind, h.compression, h.encryption, h.cipherMode] + h.name
  }

  function HeaderOf(s: Bytes): IoResult<EntryHeader> {
    if |s| < 6 then Err(InvalidData)
    else if !IsUtf8(s[6..]) then Err(InvalidData)
    else Ok(EntryHeader(s[0], s[1], s[2], s[3], s[4], s[5], s[6..]))
  }

  /** The header codec loses nothing either way; key derivation relies on the second half. */
  lemma HeaderRoundTrip(h: EntryHeader, s: Bytes)
    ensures HeaderOf(HeaderBytes(h)) == Ok(h)
    ensures HeaderOf(s).Ok? ==> HeaderBytes(HeaderOf(s).value) == s
  {
    assert HeaderBytes(h)[6..] == h.name;
  }

  // ---------------------------------------------------------------- entries

  datatype NormalEntry = NormalEntry(
    header: EntryHeader,
    phsf: Option<Utf8String>,
    extra: seq<RawChunk>,
    data: seq<Bytes>,
    metadata: Metadata)

  /** What the parser takes a chunk type to mean inside an entry. */
  datatype Field =
    | End | Phsf | Data | Size
    | CTime | MTime | ATime | CTimeNanos | MTimeNanos | ATimeNanos
    | Legacy | Uid | Gid | UserName | GroupName | UserSid | GroupSid | Mode
    | XattrField | LinkField | Other

  function FieldOf(ty: ChunkType): Field {
    if ty == FEND then End
    else if ty == PHSF then Phsf
    else if ty == FDAT then Data
    else if ty == fSIZ then Size
    else if ty == cTIM then CTime
    else if ty == mTIM then MTime
    else if ty == aTIM then ATime
    else if ty == cTNS then CTimeNanos
    else if ty == mTNS then MTimeNanos
    else if ty == aTNS then ATimeNanos
    else if ty == fPRM then Legacy
    else if ty == fUId then Uid
    else if ty == fGId then Gid
    else if ty == fONm then UserName
    else if ty == fGNm then GroupName
    else if ty == fOSi then UserSid
    else if ty == fGSi then GroupSid
    else if ty == fMOd then Mode
    else if ty == xATR then XattrField
    else if ty == fLTP then LinkField
    else Other
  }

  /** Two chunk types mean the same field only if they are equal or both are unclaimed. */
  lemma FieldsAreDistinct(a: ChunkType, b: ChunkType)
    requires FieldOf(a) == FieldOf(b) && FieldOf(a) != Other
    ensures a == b
  {
  }

  /** The timestamp fields seen so far. */
  datatype Times = Times(
    ctime: Option<I64>, mtime: Option<I64>, atime: Option<I64>,
    ctimeNs: Option<Nanos>, mtimeNs: Option<Nanos>, atimeNs: Option<Nanos>)

  /** The owner facets seen so far. */
  datatype Facets = Facets(
    uid: Option<U64>, gid: Option<U64>, userName: Option<OwnerString>,
    groupName: Option<OwnerString>, userSid: Option<OwnerString>, groupSid: Option<OwnerString>,
    mode: Option<PermissionMode>)

  /** The parser's locals, apart from its termination flag. */
  datatype Fields = Fields(
    compressedSize: nat,
    extra: seq<RawChunk>,
    data: seq<Bytes>,
    xattrs: seq<Xattr>,
    size: Option<U128>,
    phsf: Option<Utf8String>,
    times: Times,
    permission: Option<LegacyPermission>,
    facets: Facets,
    linkTargetType: Option<LinkTarget>)

  const NO_TIMES := Times(None, None, None, None, None, None)
  const NO_FACETS := Facets(None, None, None, None, None, None, None)
  const NO_FIELDS := Fields(0, [], [], [], None, None, NO_TIMES, None, NO_FACETS, None)

  function PhsfOf(s: Bytes): IoResult<Utf8String> {
    if IsUtf8(s) then Ok(s) else Err(InvalidData)
  }

  // The decoded value of an optional body, when there is one and it decodes.

  function PhsfAt(body: Option<Bytes>): Option<Utf8String> {
    if body.Some? then ToOption(PhsfOf(body.value)) else None
  }

  function SizeAt(body: Option<Bytes>): Option<U128> {
    if body.Some? then Some(SizeOf(body.value)) else None
  }

  function SecondsAt(body: Option<Bytes>): Option<I64> {
    if body.Some? then ToOption(Seconds(body.value)) else None
  }

  function NanosAt(body: Option<Bytes>): Option<Nanos> {
    if body.Some? then ToOption(NanosOf(body.value)) else None
  }

  function LegacyAt(body: Option<Bytes>): Option<LegacyPermission> {
    if body.Some? then ToOption(LegacyPermissionOf(body.value)) else None
  }

  function IdAt(body: Option<Bytes>): Option<U64> {
    if body.Some? then ToOption(IdOf(body.value)) else None
  }

  function OwnerStringAt(body: Option<Bytes>): Option<OwnerString> {
    if body.Some? then ToOption(OwnerStringOf(body.value)) else None
  }

  function ModeAt(body: Option<Bytes>): Option<PermissionMode> {
    if body.Some? then ToOption(ModeOf(body.value)) else None
  }

  function LinkTargetAt(body: Option<Bytes>): Option<LinkTarget> {
    if body.Some? && LinkTargetOf(body.value).Ok? then LinkTargetOf(body.value).value else None
  }

  function Unit<T>(r: IoResult<T>): IoResult<()> {
    var _ :- r;
    Ok(())
  }

  /** Whether the parser can take a chunk, whatever came before it. */
  function Check(c: RawChunk): IoResult<()> {
    match FieldOf(c.ty)
    case End | Data | Size => Ok(())
    case Phsf => Unit(PhsfOf(c.data))
    case CTime | MTime | ATime => Unit(Seconds(c.data))
    case CTimeNanos | MTimeNanos | ATimeNanos => Unit(NanosOf(c.data))
    case Legacy => Unit(LegacyPermissionOf(c.data))
    case Uid | Gid => Unit(IdOf(c.data))
    case UserName | GroupName | UserSid | GroupSid => Unit(OwnerStringOf(c.data))
    case Mode => Unit(ModeOf(c.data))
    case XattrField => Unit(XattrOf(c.data))
    case LinkField => Unit(LinkTargetOf(c.data))
    case Other => if IsCritical(c.ty) then Err(InvalidData) else Ok(())
  }

  /** What the parser's locals become when it takes a chunk. */
  function Set(f: Fields, c: RawChunk): Fields
    requires Check(c).Ok?
  {
    match FieldOf(c.ty)
    case End => f
    case Data => f.(compressedSize := f.compressedSize + |c.data|, data := f.data + [c.data])
    case Size => f.(size := SizeAt(Some(c.data)))
    case Phsf => f.(phsf := PhsfAt(Some(c.data)))
    case CTime => f.(times := f.times.(ctime := SecondsAt(Some(c.data))))
    case MTime => f.(times := f.times.(mtime := SecondsAt(Some(c.data))))
    case ATime => f.(times := f.times.(atime := SecondsAt(Some(c.data))))
    case CTimeNanos => f.(times := f.times.(ctimeNs := NanosAt(Some(c.data))))
    case MTimeNanos => f.(times := f.times.(mtimeNs := NanosAt(Some(c.data))))
    case ATimeNanos => f.(times := f.times.(atimeNs := NanosAt(Some(c.data))))
    case Legacy => f.(permission := LegacyAt(Some(c.data)))
    case Uid => f.(facets := f.facets.(uid := IdAt(Some(c.data))))
    case Gid => f.(facets := f.facets.(gid := IdAt(Some(c.data))))
    case UserName => f.(facets := f.facets.(userName := OwnerStringAt(Some(c.data))))
    case GroupName => f.(facets := f.facets.(groupName := OwnerStringAt(Some(c.data))))
    case UserSid => f.(facets := f.facets.(userSid := OwnerStringAt(Some(c.data))))
    case GroupSid => f.(facets := f.facets.(groupSid := OwnerStringAt(Some(c.data))))
    case Mode => f.(facets := f.facets.(mode := ModeAt(Some(c.data))))
    case XattrField => f.(xattrs := f.xattrs + [XattrOf(c.data).value])
    case LinkField => f.(linkTargetType := LinkTargetAt(Some(c.data)))
    case Other => f.(extra := f.extra + [c])
  }

  /** The loop: up to the first `FEND`, ignoring what follows it. */
  function Body(f: Fields, cs: seq<RawChunk>): IoResult<Fields>
    decreases |cs|
  {
    if cs == [] then Err(InvalidData)
    else if cs[0].ty == FEND then Ok(f)
    else
      var _ :- Check(cs[0]);
      Body(Set(f, cs[0]), cs[1..])
  }

  function Timestamp(seconds: Option<I64>, nanos: Option<Nanos>): Option<Duration> {
    match seconds
    case None => None
    case Some(s) => Some(FromSecondsNanos(s, if nanos.Some? then nanos.value else 0))
  }

  /** The five owner facets that a legacy permission can supply are all absent. */
  predicate LacksFacets(o: Facets) {
    o.uid.None? && o.gid.None? && o.userName.None? && o.groupName.None? && o.mode.None?
  }

  /** The fold of a legacy `fPRM` into the facets, after the loop. */
  function FillFacets(o: Facets, permission: Option<LegacyPermission>): Facets {
    if permission.Some? && LacksFacets(o) then
      var p := permission.value;
      o.(uid := Some(p.uid), gid := Some(p.gid), userName := Some(p.uname),
         groupName := Some(p.gname), mode := Some(p.permission % 0x1000))
    else o
  }

  function MetadataOf(f: Fields): Metadata {
    var t, o := f.times, FillFacets(f.facets, f.permission);
    Metadata(f.size, f.compressedSize, Timestamp(t.ctime, t.ctimeNs),
             Timestamp(t.mtime, t.mtimeNs), Timestamp(t.atime, t.atimeNs), f.linkTargetType,
             o.uid, o.gid, o.userName, o.groupName, o.userSid, o.groupSid, o.mode, f.xattrs)
  }

  function Finish(header: EntryHeader, f: Fields): NormalEntry {
    NormalEntry(header, f.phsf, f.extra, f.data, MetadataOf(f))
  }

  /** The header chunk, checked for its type, its body and its version. */
  function ParseHeader(cs: seq<RawChunk>): IoResult<EntryHeader> {
    if cs == [] then Err(InvalidData)
    else if cs[0].ty != FHED then Err(InvalidData)
    else
      var h :- HeaderOf(cs[0].data);
      if h.major != 0 || h.minor != 0 then Err(Unsupported) else Ok(h)
  }

  /** `NormalEntry::parse_chunks` as a function. */
  function Parse(cs: seq<RawChunk>): IoResult<NormalEntry> {
    var header :- ParseHeader(cs);
    var fields :- Body(NO_FIELDS, cs[1..]);
    Ok(Finish(header, fields))
  }

  lemma BodyStep(f: Fields, cs: seq<RawChunk>, i: nat)
    requires i < |cs|
    ensures Body(f, cs[i..]) ==
            if cs[i].ty == FEND then Ok(f)
            else if Check(cs[i]).Err? then Err(Check(cs[i]).error)
            else Body(Set(f, cs[i]), cs[i + 1..])
  {
    hide Check, Set;
    assert cs[i..][0] == cs[i] && cs[i..][1..] == cs[i + 1..];
  }

  lemma NothingTerminates()
    ensures forall f :: Body(f, []) == Err(InvalidData)
  {
  }

  /** `NormalEntry::parse_chunks` as the source runs it. */
  method ParseChunks(chunks: seq<RawChunk>) returns (r: IoResult<NormalEntry>)
    ensures r == Parse(chunks)
  {
    hide SizeOf, IsUtf8, HeaderOf, LegacyPermissionOf, XattrOf, IdOf, OwnerStringOf, ModeOf,
         NanosOf, Seconds, LinkTargetOf, FromSecondsNanos, FieldOf, IsCritical, Timestamp, Body;
    if chunks == [] {
      return Err(InvalidData);
    }
    if chunks[0].ty != FHED {
      return Err(InvalidData);
    }
    var header :- HeaderOf(chunks[0].data);
    if header.major != 0 || header.minor != 0 {
      return Err(Unsupported);
    }
    var compressedSize: nat := 0;
    var extra: seq<RawChunk> := [];
    var data: seq<Bytes> := [];
    var xattrs: seq<Xattr> := [];
    var size: Option<U128> := None;
    var phsf: Option<Utf8String> := None;
    var ctime: Option<I64> := None;
    var mtime: Option<I64> := None;
    var atime: Option<I64> := None;
    var ctimeNs: Option<Nanos> := None;
    var mtimeNs: Option<Nanos> := None;
    var atimeNs: Option<Nanos> := None;
    var permission: Option<LegacyPermission> := None;
    var ownerUid: Option<U64> := None;
    var ownerGid: Option<U64> := None;
    var ownerUserName: Option<OwnerString> := None;
    var ownerGroupName: Option<OwnerString> := None;
    var ownerUserSid: Option<OwnerString> := None;
    var ownerGroupSid: Option<OwnerString> := None;
    var permissionMode: Option<PermissionMode> := None;
    var linkTargetType: Option<LinkTarget> := None;
    var terminated := false;
    var i := 1;
    while i < |chunks| && !terminated
      invariant 1 <= i <= |chunks|
      invariant Body(NO_FIELDS, chunks[1..]) ==
                var f := Fields(compressedSize, extra, data, xattrs, size, phsf,
                                Times(ctime, mtime, atime, ctimeNs, mtimeNs, atimeNs), permission,
                                Facets(ownerUid, ownerGid, ownerUserName, ownerGroupName,
                                       ownerUserSid, ownerGroupSid, permissionMode),
                                linkTargetType);
                if terminated then Ok(f) else Body(f, chunks[i..])
      decreases |chunks| - i, !terminated
    {
      var chunk := chunks[i];
      BodyStep(Fields(compressedSize, extra, data, xattrs, size, phsf,
                      Times(ctime, mtime, atime, ctimeNs, mtimeNs, atimeNs), permission,
                      Facets(ownerUid, ownerGid, ownerUserName, ownerGroupName,
                             ownerUserSid, ownerGroupSid, permissionMode),
                      linkTargetType), chunks, i);
      if chunk.ty == FEND {
        terminated := true;
      } else {
        match FieldOf(chunk.ty) {
          case End =>
          case Phsf =>
            var v :- PhsfOf(chunk.data);
            phsf := Some(v);
          case Data =>
            compressedSize := compressedSize + |chunk.data|;
            data := data + [chunk.data];
          case Size =>
            size := Some(SizeOf(chunk.data));
          case CTime =>
            var v :- Seconds(chunk.data);
            ctime := Some(v);
          case MTime =>
            var v :- Seconds(chunk.data);
            mtime := Some(v);
          case ATime =>
            var v :- Seconds(chunk.data);
            atime := Some(v);
          case CTimeNanos =>
            var v :- NanosOf(chunk.data);
            ctimeNs := Some(v);
          case MTimeNanos =>
            var v :- NanosOf(chunk.data);
            mtimeNs := Some(v);
          case ATimeNanos =>
            var v :- NanosOf(chunk.data);
            atimeNs := Some(v);
          case Legacy =>
            var v :- LegacyPermissionOf(chunk.data);
            permission := Some(v);
          case Uid =>
            var v :- IdOf(chunk.data);
            ownerUid := Some(v);
          case Gid =>
            var v :- IdOf(chunk.data);
            ownerGid := Some(v);
          case UserName =>
            var v :- OwnerStringOf(chunk.data);
            ownerUserName := Some(v);
          case GroupName =>
            var v :- OwnerStringOf(chunk.data);
            ownerGroupName := Some(v);
          case UserSid =>
            var v :- OwnerStringOf(chunk.data);
            ownerUserSid := Some(v);
          case GroupSid =>
            var v :- OwnerStringOf(chunk.data);
            ownerGroupSid := Some(v);
          case Mode =>
            var v :- ModeOf(chunk.data);
            permissionMode := Some(v);
          case XattrField =>
            var v :- XattrOf(chunk.data);
            xattrs := xattrs + [v];
          case LinkField =>
            var v :- LinkTargetOf(chunk.data);
            linkTargetType := v;
          case Other =>
            if IsCritical(chunk.ty) {
              return Err(InvalidData);
            }
            extra := extra + [chunk];
        }
        i := i + 1;
      }
    }
    if !terminated {
      NothingTerminates();
      assert chunks[i..] == [];
      return Err(InvalidData);
    }
    var created := Timestamp(ctime, ctimeNs);
    var modified := Timestamp(mtime, mtimeNs);
    var accessed := Timestamp(atime, atimeNs);
    if permission.Some? && ownerUid.None? && ownerGid.None? && ownerUserName.None?
       && ownerGroupName.None? && permissionMode.None? {
      var p := permission.value;
      ownerUid := Some(p.uid);
      ownerGid := Some(p.gid);
      ownerUserName := Some(p.uname);
      ownerGroupName := Some(p.gname);
      permissionMode := Some(p.permission % 0x1000);
    }
    r := Ok(NormalEntry(header, phsf, extra, data,
                        Metadata(size, compressedSize, created, modified, accessed,
                                 linkTargetType, ownerUid, ownerGid, ownerUserName,
                                 ownerGroupName, ownerUserSid, ownerGroupSid, permissionMode,
                                 xattrs)));
  }
}
