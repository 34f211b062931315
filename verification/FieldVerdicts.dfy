/** What every field body means, byte by byte, and which bodies are refused with which error. */
module FieldVerdicts {
  import opened Basics
  import opened Octets
  import opened Utf8
  import opened EntryMetadata
  import opened Entries

  // ---------------------------------------------------------------- timestamps

  function TotalNanos(seconds: int, nanos: int): int {
    seconds * NANOS_PER_SECOND + nanos
  }

  /** Reading two fields keeps the instant; writing them keeps it unless flooring saturates. */
  lemma SameInstant(d: Duration, seconds: I64, nanos: Nanos)
    ensures var read := FromSecondsNanos(seconds, nanos);
            TotalNanos(read.seconds, read.nanos) == TotalNanos(seconds, nanos)
    ensures var (s, n) := ToSecondsNanos(d);
            if IsStorable(d) then TotalNanos(s, n) == TotalNanos(d.seconds, d.nanos)
            else s == I64_MIN && TotalNanos(s, n) == TotalNanos(d.seconds, d.nanos) + NANOS_PER_SECOND
  {
  }

  /** Seconds are eight bytes in two's complement; any other length is invalid data. */
  lemma SecondsVerdict(s: Bytes)
    ensures Seconds(s) == Err(InvalidData) <==> |s| != 8
    ensures |s| == 8 ==>
      Seconds(s).Ok? && Seconds(s).value % 0x1_0000_0000_0000_0000 == FromBigEndian(s)
  {
    hide FromBigEndian;
    Widths();
    FromBigEndianBound(s);
  }

  /** Nanoseconds are four bytes that denote less than a second; all else is invalid data. */
  lemma NanosVerdict(s: Bytes)
    ensures NanosOf(s).Ok? <==> exists n: Nanos :: s == NanosBytes(n)
    ensures NanosOf(s).Ok? ==> NanosBytes(NanosOf(s).value) == s
    ensures NanosOf(s).Err? ==> NanosOf(s) == Err(InvalidData)
  {
    hide FromBigEndian, BigEndian;
    FromBigEndianRoundTrip(s);
    if NanosOf(s).Ok? {
      assert s == NanosBytes(NanosOf(s).value);
    }
    if n: Nanos :| s == NanosBytes(n) {
      NanosRoundTrip(n);
    }
  }

  // ---------------------------------------------------------------- owner facets

  /** An id is eight bytes, all of which are ids; any other length is invalid data. */
  lemma IdVerdict(s: Bytes)
    ensures IdOf(s) == Err(InvalidData) <==> |s| != 8
    ensures |s| == 8 ==> IdOf(s).Ok? && IdBytes(IdOf(s).value) == s
  {
    hide BigEndian, FromBigEndian;
    FromBigEndianRoundTrip(s);
  }

  /** Permission bits are two bytes, of which the low twelve bits count. */
  lemma ModeVerdict(s: Bytes)
    ensures ModeOf(s) == Err(InvalidData) <==> |s| != 2
    ensures |s| == 2 ==> ModeOf(s) == Ok(s[0] as int % 16 * 256 + s[1])
  {
    if |s| == 2 {
      assert s[..1] == [s[0]] && [s[0]][..0] == [];
      assert FromBigEndian([s[0]]) == s[0];
      assert FromBigEndian(s) == FromBigEndian(s[..1]) * 256 + s[1];
      assert s[0] == s[0] / 16 * 16 + s[0] % 16;
      ModUnique(FromBigEndian(s), 0x1000, s[0] as int / 16, s[0] as int % 16 * 256 + s[1]);
    }
  }

  /** A prefixed string is read exactly from its bytes, whatever follows them. */
  lemma OwnerStringVerdict(s: Bytes)
    ensures forall v: OwnerString, tail: Bytes :: s == OwnerStringBytes(v) + tail ==> OwnerStringOf(s) == Ok(v)
    ensures OwnerStringOf(s).Ok? ==> OwnerStringBytes(OwnerStringOf(s).value) <= s
    ensures OwnerStringOf(s) == Err(UnexpectedEof) <==> s == [] || |s| - 1 < s[0]
    ensures OwnerStringOf(s).Err? ==> OwnerStringOf(s).error in {UnexpectedEof, InvalidData}
  {
    hide IsUtf8;
    forall v: OwnerString, tail: Bytes | s == OwnerStringBytes(v) + tail ensures OwnerStringOf(s) == Ok(v) {
      assert s[1..1 + |v|] == v;
    }
    if OwnerStringOf(s).Ok? {
      assert OwnerStringBytes(OwnerStringOf(s).value) == s[..1 + s[0]];
    }
  }

  // ---------------------------------------------------------------- other fields

  /** The first byte decides: one of the three written ones, or a value that reads as absent. */
  lemma LinkTargetVerdict(s: Bytes)
    ensures LinkTargetOf(s) == Err(UnexpectedEof) <==> s == []
    ensures forall t: LinkTarget :: LinkTargetOf(s) == Ok(Some(t)) <==> LinkTargetBytes(t) <= s
    ensures LinkTargetBytes(Unknown) == [0] && LinkTargetBytes(File) == [1] && LinkTargetBytes(Directory) == [2]
    ensures LinkTargetOf(s).Err? ==> s == []
  {
  }

  /** An attribute is read exactly from its bytes, whatever follows them. */
  lemma XattrVerdict(s: Bytes)
    ensures forall x: Xattr, tail: Bytes :: s == XattrBytes(x) + tail ==> XattrOf(s) == Ok(x)
    ensures XattrOf(s).Ok? ==> XattrBytes(XattrOf(s).value) <= s
    ensures XattrOf(s).Err? ==> XattrOf(s).error in {UnexpectedEof, InvalidData}
    ensures XattrOf(s) == Err(InvalidData) <==>
      |s| >= 4 && |s| >= 4 + U32Of(s[..4]) && !IsUtf8(s[4..4 + U32Of(s[..4])])
  {
    hide IsUtf8, U32Of, U32Bytes;
    forall x: Xattr, tail: Bytes | s == XattrBytes(x) + tail ensures XattrOf(s) == Ok(x) {
      XattrThenTail(x, tail);
    }
    if XattrOf(s).Ok? {
      XattrLayout(s);
    }
  }

  lemma XattrThenTail(x: Xattr, tail: Bytes)
    ensures XattrOf(XattrBytes(x) + tail) == Ok(x)
  {
    hide IsUtf8, U32Of, U32Bytes;
    var s, n, m := XattrBytes(x) + tail, |x.name|, |x.value|;
    U32RoundTrip(n);
    U32RoundTrip(m);
    assert s[..4] == U32Bytes(n) && s[4..4 + n] == x.name;
    assert s[4 + n..8 + n] == U32Bytes(m) && s[8 + n..8 + n + m] == x.value;
  }

  lemma XattrLayout(s: Bytes)
    requires XattrOf(s).Ok?
    ensures XattrBytes(XattrOf(s).value) <= s
  {
    hide IsUtf8, U32Of, U32Bytes;
    var n: nat := U32Of(s[..4]);
    var m: nat := U32Of(s[4 + n..8 + n]);
    U32BytesOf(s[..4]);
    U32BytesOf(s[4 + n..8 + n]);
    var x := XattrOf(s).value;
    assert |x.name| == n && |x.value| == m;
    assert XattrBytes(x) == s[..8 + n + m];
  }

  /** A header is read exactly from its bytes; anything else is invalid data. */
  lemma HeaderBodyVerdict(s: Bytes)
    ensures HeaderOf(s).Ok? <==> exists h: EntryHeader :: s == HeaderBytes(h)
    ensures HeaderOf(s).Err? ==> HeaderOf(s) == Err(InvalidData)
  {
    hide IsUtf8;
    if h: EntryHeader :| s == HeaderBytes(h) {
      HeaderRoundTrip(h, s);
    }
    if HeaderOf(s).Ok? {
      HeaderRoundTrip(HeaderOf(s).value, s);
    }
  }

  /** Where the header's fields lie. */
  lemma HeaderLayout(h: EntryHeader)
    ensures var s := HeaderBytes(h);
      |s| == 6 + |h.name| && s[0] == h.major && s[1] == h.minor && s[2] == h.dataKind && s[3] == h.compression &&
      s[4] == h.encryption && s[5] == h.cipherMode && s[6..] == h.name
  {
  }
}
