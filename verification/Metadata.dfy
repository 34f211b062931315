/** Entry metadata and the chunk bodies that carry its fields. */
module EntryMetadata {
  import opened Basics
  import opened Octets
  import opened Utf8

  // ---------------------------------------------------------------- field types

  const NANOS_PER_SECOND := 1_000_000_000

  type Nanos = n: int | 0 <= n < NANOS_PER_SECOND

  /** A signed duration whose two components never have opposite signs. */
  datatype RawDuration = Duration(seconds: I64, nanos: int)

  type Duration = d: RawDuration |
    -NANOS_PER_SECOND < d.nanos < NANOS_PER_SECOND
    && (d.seconds > 0 ==> d.nanos >= 0) && (d.seconds < 0 ==> d.nanos <= 0)
    witness Duration(0, 0)

  /** A string of at most 255 bytes, as its one-byte length prefix can describe. */
  type OwnerString = s: Bytes | IsUtf8(s) && |s| <= 255 witness []

  type XattrName = s: Bytes | IsUtf8(s) && |s| <= U32_MAX witness []
  type XattrValue = s: Bytes | |s| <= U32_MAX witness []
  datatype Xattr = Xattr(name: XattrName, value: XattrValue)

  /** Permission bits, masked to 0o7777. */
  type PermissionMode = n: int | 0 <= n < 0x1000

  datatype LinkTarget = Unknown | File | Directory

  datatype Metadata = Metadata(
    rawFileSize: Option<U128>,
    compressedSize: nat,
    created: Option<Duration>,
    modified: Option<Duration>,
    accessed: Option<Duration>,
    linkTargetType: Option<LinkTarget>,
    ownerUid: Option<U64>,
    ownerGid: Option<U64>,
    ownerUserName: Option<OwnerString>,
    ownerGroupName: Option<OwnerString>,
    ownerUserSid: Option<OwnerString>,
    ownerGroupSid: Option<OwnerString>,
    permissionMode: Option<PermissionMode>,
    xattrs: seq<Xattr>)

  // ---------------------------------------------------------------- timestamps

  const I64_MIN: I64 := -0x8000_0000_0000_0000

  /** `to_seconds_nanos`: floored seconds, saturating, and the remainder. */
  function ToSecondsNanos(d: Duration): (I64, Nanos) {
    if d.nanos < 0 then
      (if d.seconds == I64_MIN then I64_MIN else d.seconds - 1, d.nanos + NANOS_PER_SECOND)
    else (d.seconds, d.nanos)
  }

  /** `from_seconds_nanos`; with a remainder below one second it never saturates. */
  function FromSecondsNanos(seconds: I64, nanos: Nanos): Duration {
    if seconds < 0 && nanos > 0 then Duration(seconds + 1, nanos - NANOS_PER_SECOND)
    else Duration(seconds, nanos)
  }

  /** The durations whose floored seconds are still an `i64`. */
  predicate IsStorable(d: Duration) {
    d.seconds > I64_MIN || d.nanos >= 0
  }

  /** A duration survives the two-field form exactly when flooring it does not saturate. */
  lemma DurationSurvivesIff(d: Duration)
    ensures var (s, n) := ToSecondsNanos(d); FromSecondsNanos(s, n) == d <==> IsStorable(d)
  {
  }

  /** Whatever the two fields say, the duration read from them writes the same fields. */
  lemma DurationFieldsSurvive(seconds: I64, nanos: Nanos)
    ensures ToSecondsNanos(FromSecondsNanos(seconds, nanos)) == (seconds, nanos)
    ensures IsStorable(FromSecondsNanos(seconds, nanos))
  {
  }

  /** Two's complement in eight bytes. */
  function SecondsBytes(n: I64): Bytes {
    BigEndian(if n < 0 then n + 0x1_0000_0000_0000_0000 else n, 8)
  }

  function Seconds(s: Bytes): IoResult<I64> {
    if |s| != 8 then Err(InvalidData)
    else
      FromBigEndianBound(s);
      Widths();
      var n := FromBigEndian(s);
      Ok(if n >= 0x8000_0000_0000_0000 then n - 0x1_0000_0000_0000_0000 else n)
  }

  lemma SecondsRoundTrip(n: I64)
    ensures Seconds(SecondsBytes(n)) == Ok(n)
  {
    Widths();
    BigEndianExact(if n < 0 then n + 0x1_0000_0000_0000_0000 else n, 8);
  }

  function NanosBytes(n: Nanos): Bytes {
    BigEndian(n, 4)
  }

  function NanosOf(s: Bytes): IoResult<Nanos> {
    if |s| != 4 then Err(InvalidData)
    else
      var n := FromBigEndian(s);
      if n >= NANOS_PER_SECOND then Err(InvalidData) else Ok(n)
  }

  lemma NanosRoundTrip(n: Nanos)
    ensures NanosOf(NanosBytes(n)) == Ok(n)
  {
    Widths();
    BigEndianExact(n, 4);
  }

  // ---------------------------------------------------------------- owner facets

  function IdBytes(n: U64): Bytes {
    BigEndian(n, 8)
  }

  function IdOf(s: Bytes): IoResult<U64> {
    if |s| != 8 then Err(InvalidData)
    else
      FromBigEndianBound(s);
      Widths();
      Ok(FromBigEndian(s))
  }

  lemma IdRoundTrip(n: U64)
    ensures IdOf(IdBytes(n)) == Ok(n)
  {
    Widths();
    BigEndianExact(n, 8);
  }

  function OwnerStringBytes(s: OwnerString): Bytes {
    [|s|] + s
  }

  /** Bytes past the announced length are ignored. */
  function OwnerStringOf(s: Bytes): IoResult<OwnerString> {
    if s == [] then Err(UnexpectedEof)
    else if |s| - 1 < s[0] then Err(UnexpectedEof)
    else if !IsUtf8(s[1..1 + s[0]]) then Err(InvalidData)
    else Ok(s[1..1 + s[0]])
  }

  lemma OwnerStringRoundTrip(s: OwnerString)
    ensures OwnerStringOf(OwnerStringBytes(s)) == Ok(s)
  {
    assert OwnerStringBytes(s)[1..1 + |s|] == s;
  }

  function ModeBytes(n: PermissionMode): Bytes {
    BigEndian(n, 2)
  }

  /** Bits outside 0o7777 are dropped. */
  function ModeOf(s: Bytes): IoResult<PermissionMode> {
    if |s| != 2 then Err(InvalidData) else Ok(FromBigEndian(s) % 0x1000)
  }

  lemma ModeRoundTrip(n: PermissionMode)
    ensures ModeOf(ModeBytes(n)) == Ok(n)
  {
    Widths();
    BigEndianExact(n, 2);
  }

  // ---------------------------------------------------------------- other fields

  function LinkTargetBytes(t: LinkTarget): Bytes {
    match t
    case Unknown => [0]
    case File => [1]
    case Directory => [2]
  }

  /** The first byte decides; a value this version does not know reads as absent. */
  function LinkTargetOf(s: Bytes): IoResult<Option<LinkTarget>> {
    if s == [] then Err(UnexpectedEof)
    else if s[0] == 0 then Ok(Some(Unknown))
    else if s[0] == 1 then Ok(Some(File))
    else if s[0] == 2 then Ok(Some(Directory))
    else Ok(None)
  }

  lemma LinkTargetRoundTrip(t: LinkTarget)
    ensures LinkTargetOf(LinkTargetBytes(t)) == Ok(Some(t))
  {
  }

  function XattrBytes(x: Xattr): Bytes {
    U32Bytes(|x.name|) + x.name + U32Bytes(|x.value|) + x.value
  }

  /** Bytes past the announced value length are ignored. */
  function XattrOf(s: Bytes): IoResult<Xattr> {
    if |s| < 4 then Err(UnexpectedEof)
    else
      var n := U32Of(s[..4]);
      if |s| < 4 + n then Err(UnexpectedEof)
      else if !IsUtf8(s[4..4 + n]) then Err(InvalidData)
      else if |s| < 8 + n then Err(UnexpectedEof)
      else
        var m := U32Of(s[4 + n..8 + n]);
        if |s| < 8 + n + m then Err(UnexpectedEof)
        else Ok(Xattr(s[4..4 + n], s[8 + n..8 + n + m]))
  }

  lemma XattrRoundTrip(x: Xattr)
    ensures XattrOf(XattrBytes(x)) == Ok(x)
  {
    hide U32Bytes, U32Of, IsUtf8;
    var s := XattrBytes(x);
    var n := |x.name|;
    assert s[..4] == U32Bytes(n);
    assert s[4..4 + n] == x.name;
    assert s[4 + n..8 + n] == U32Bytes(|x.value|);
    assert s[8 + n..8 + n + |x.value|] == x.value;
    U32RoundTrip(n);
    U32RoundTrip(|x.value|);
  }

  // ---------------------------------------------------------------- legacy permissions

  /** The body of a legacy `fPRM` chunk, which is read but never written. */
  datatype LegacyPermission = LegacyPermission(
    uid: U64, uname: OwnerString, gid: U64, gname: OwnerString, permission: U16)

  /** A one-byte length and that many bytes, at the front of `s`, and what follows them. */
  function PrefixedString(s: Bytes): IoResult<(OwnerString, Bytes)> {
    var v :- OwnerStringOf(s);
    Ok((v, s[1 + s[0]..]))
  }

  /** A big-endian integer of `k` bytes at the front of `s`, and what follows it. */
  function PrefixedInt(s: Bytes, k: nat): (r: IoResult<(nat, Bytes)>)
    ensures r.Ok? ==> r.value.0 < Pow256(k)
  {
    if |s| < k then Err(UnexpectedEof)
    else
      FromBigEndianBound(s[..k]);
      Ok((FromBigEndian(s[..k]), s[k..]))
  }

  /** `Permission::try_from_bytes`: fields in order, ignoring what follows the last one. */
  function LegacyPermissionOf(s: Bytes): IoResult<LegacyPermission> {
    Widths();
    var (uid, s1) :- PrefixedInt(s, 8);
    var (uname, s2) :- PrefixedString(s1);
    var (gid, s3) :- PrefixedInt(s2, 8);
    var (gname, s4) :- PrefixedString(s3);
    var (permission, _) :- PrefixedInt(s4, 2);
    Ok(LegacyPermission(uid, uname, gid, gname, permission))
  }
}
