# A model of Portable Network Archive

PNA is an archive format whose files are a signature followed by chunks, each a length, a
type, data and a checksum, laid out as in section 5.3 of the PNG specification (ISO/IEC
15948). `libpna` writes entries as runs of chunks and reads them back; the `pna` command line
lists, edits and repacks archives. The modules below model that code in Dafny and prove what
it promises. `dafny verify dfyconfig.toml` checks all of it.

The modules follow the program.

- **Bytes and chunks.** `Octets`, `Utf8`, `Chunks`, `Framing` and `ChunkIteration` are the
  byte layer: integers of fixed and of variable length, chunk encodings, reading from a slice
  and from a reader, and iterating over the chunks of an archive. The checksum is any total
  function of type and data, since nothing here depends on which one it is.
- **Entries.** `EntryMetadata` and `Entries` hold the field codecs and the parser of normal
  entries, `EntryMeaning` says chunk kind by chunk kind what a parsed entry is, and
  `EntryWriting`, `EntryRoundTrip` and `WireOrder` relate the writer to the parser.
  `FieldVerdicts` and `EntryVerdicts` say which bodies and which entries are refused, with
  which error, and `LegacyPermissions` what the older permission chunk fills in. `SolidEntries` and
  `SolidStream` do the same for solid entries and for the stream of entries inside one.
- **Splitting.** `Splitting` and `SplitMeaning` are `EntryPart::try_split` and what it keeps.
  `SplitArchive` is the sink that writes an archive as size-bounded parts, and `JoinArchive`
  reads such parts, each from its own source or all from one stream. `ExtractEntries` takes
  the entries out, those inside solid entries among them; its last theorem goes from entries
  to the bytes of the parts and back.
- **Access control lists.** `Words` and `AclText` are the text of an access control entry,
  `AclChunks` its storage in extra chunks, `AclEditing` the editor, `AclDump` and
  `AclRestore` the dump, its parser, and backup and restore of a whole archive.
- **Small languages of the command line.** `FileTree` and `TreeListing` are the path tree of
  the tree listing, `Chmod` and `ChmodLetters` the mode language, `OldStyleArgs` the bsdtar argument rewriters.

Code that updates state is modelled by methods and classes that update it, each tied by its
postcondition to a function; the theorems are about those functions. Text is a sequence of
Unicode characters, file and archive contents are sequences of bytes, and an iteration over a
hash map takes its order as a parameter, about which nothing is assumed.

Some statements differ from what one might expect.

- Splitting at a maximum of 12 bytes succeeds if every chunk is empty, even when the whole
  list does not fit in 12 bytes, so "13 bytes or everything fits" is not the exact condition;
  `Splitting.SplitAllSucceedsIff` has it, and `Splitting.BareFramesSplit` such a list.
- An identifier with one colon can be stored and read back as another entry on another
  platform instead of failing (`AclText.ColonIdentifierMisreads`, with `ColonInstance`).
- A file name that ends in a carriage return loses it in a dump, so its ACLs are not restored to it
  (`AclDump.DumpRoundTrip` says when the dump is read back as it was printed).
- Reading a split archive compares each part's number with the last one's, but the first part's
  with nothing, so parts missing at the front go unnoticed (`JoinArchive.PartsInOrder`).
- Setting and modifying an ACL settles after one run, but modifying and removing in one
  command need not when the removal alone tells allowing from denying
  (`AclEditing.RepeatingSettlesIff`).
- Editing the ACL of an entry whose stored ACL does not decode starts from no ACL at all
  (`AclEditing.TransformEntry`).

## Model

| member | source | states |
|---|---|---|
| `Octets.SkipWhile` | lib/src/util.rs:11-22 | drops exactly the longest head whose elements all satisfy the predicate |
| `Octets.SizeOfAnyLength` | lib/src/entry.rs:1532-1538 | a size field of any length denotes its big-endian value modulo 2^128 |
| `Octets.SizeRoundTrip` | lib/src/entry.rs:1077-1080 | every size below 2^128 survives its zero-stripped field, which has at most 16 bytes and no leading zero |
| `Octets.BigEndianDigit` | lib/src/entry.rs:1509-1538 | the byte at a place is the quotient by the power of 256 that counts from the front, so the most significant byte comes first |
| `Utf8.TextRoundTrip` | cli/src/chunk/acl.rs:71-76 | every text is read back from its UTF-8 bytes |
| `Utf8.BytesRoundTrip` | cli/src/chunk/acl.rs:94-100 | bytes read as text exactly when they are well-formed UTF-8, and that text writes the same bytes |
| `Utf8.AsciiBytes` | cli/src/chunk/acl.rs:71-76 | ASCII text is stored one byte for each character |
| `Chunks.TotalLenIsEncodedLength` | lib/src/entry.rs:1443-1447 | the size a part reports is the number of bytes that its chunks encode to |
| `Chunks.EncodedFields` | lib/src/io.rs:220-234 | where length, type, data and checksum lie in an encoded chunk, with the most significant byte first |
| `Chunks.CriticalIsUpperCase` | lib/src/chunk/types.rs:284-286 | a type that starts with a letter is critical exactly when that is upper-case |
| `Chunks.TypesBearTheirNames` | lib/src/chunk/types.rs:98-171 | the code of each type is its name |
| `Framing.ReadEncoded` | lib/src/bytes.rs:66-97 | a well-formed chunk within the limit is read back, leaving exactly what follows it |
| `Framing.ReadSucceedsIff` | lib/src/bytes.rs:66-97 | reading succeeds exactly on inputs that begin with the encoding of a well-formed chunk within the limit |
| `Framing.ReadTruncated` | lib/src/bytes.rs:66-97 | every proper prefix of a chunk encoding reads as an unexpected end of input |
| `Framing.SkipAgreesWithRead` | lib/src/bytes.rs:112-132 | wherever reading succeeds, skipping gives the same type and the same remainder |
| `Framing.SignatureVerdict` | lib/src/bytes.rs:15-21 | fewer than 8 bytes end too early, 8 other bytes than the signature are invalid data |
| `Framing.ReadVerdict` | lib/src/bytes.rs:66-97 | every way that reading can end: invalid data exactly for a length over the limit, a bad type, or a complete chunk with a wrong checksum; an unexpected end exactly when a field is incomplete and none of these was found |
| `Framing.ReadCorrupted` | lib/src/bytes.rs:66-97 | a chunk of the right length with a bad type or a wrong checksum is invalid data, whatever follows it and whatever the limit |
| `Framing.SkipVerdict` | lib/src/bytes.rs:112-132 | skipping fails exactly on a bad type or an incomplete chunk, never on a checksum, and otherwise leaves what follows |
| `Framing.IoReadSignature` | lib/src/io.rs:85-97 | the reader form accepts what the slice form accepts, with the same remainder or the same kind of error |
| `Framing.IoReadChunk` | lib/src/io.rs:159-186 | the reader form agrees with the slice form on chunk, remainder and kind of error, for every input and limit |
| `Framing.IoSkipChunk` | lib/src/io.rs:257-272 | the seeking form agrees with the slice form, and reports the number of bytes it passed |
| `Framing.WriteChunk` | lib/src/io.rs:220-234 | appends exactly the encoding, and returns the number of bytes appended |
| `ChunkIteration.OwnedChunks.Next` | lib/src/chunk.rs:436-454 | each call yields the next of the items that the bytes hold, and nothing after an error or an archive end |
| `ChunkIteration.SliceChunks.Next` | lib/src/chunk.rs:504-522 | the borrowing iterator yields the same items as the owned one |
| `ChunkIteration.IterationDecodes` | lib/src/chunk.rs:497-530 | encoded chunks come back in order, up to and including the first archive end |
| `ChunkIteration.ArchiveDecodes` | lib/src/chunk.rs:429-461 | signature, chunks and archive end, whatever follows, yield exactly those chunks |
| `ChunkIteration.IterationIsLossless` | lib/src/chunk.rs:429-461 | on arbitrary bytes, re-encoding what was yielded gives the bytes consumed, an error can only come last, and there are at most |bytes|/12 + 1 items |
| `ChunkIteration.IterationEnds` | lib/src/chunk.rs:429-461 | the last item, and no other, is an archive end or an error, and that error is what the unread bytes give |
| `ChunkIteration.ListArchiveChunks` | cli/src/command/chunk.rs:65-108 | the listing loop shows the accepted chunks with their running index and offset, or fails as the reader does |
| `ChunkIteration.ListedOffsetsAreTrue` | cli/src/command/chunk.rs:77-102 | the archive holds, at every offset shown, the encoding of a chunk of the type and length shown |
| `ChunkIteration.ListingVerdict` | cli/src/command/chunk.rs:65-108 | a listing fails with the error of the signature or of the last item, and otherwise shows exactly the accepted chunks, each once, in order, with its index and offset |
| `EntryMetadata.DurationSurvivesIff` | lib/src/ext/time.rs:25-41 | a duration survives the seconds and nanoseconds form exactly when flooring it does not saturate |
| `EntryMetadata.DurationFieldsSurvive` | lib/src/ext/time.rs:25-41 | whatever two fields a duration is read from, it writes the same two fields |
| `EntryMetadata.SecondsRoundTrip` | lib/src/entry.rs:1509-1513 | signed seconds survive their chunk body |
| `EntryMetadata.NanosRoundTrip` | lib/src/entry.rs:1516-1530 | nanoseconds below one second survive their chunk body |
| `EntryMetadata.IdRoundTrip` | lib/src/entry/meta.rs:682-698 | an owner or group id survives its chunk body |
| `EntryMetadata.OwnerStringRoundTrip` | lib/src/entry/meta.rs:418-449 | a name or security identifier of up to 255 bytes survives its length-prefixed body |
| `EntryMetadata.ModeRoundTrip` | lib/src/entry/meta.rs:741-763 | masked permission bits survive their chunk body |
| `EntryMetadata.LinkTargetRoundTrip` | lib/src/entry/meta.rs:799-827 | a link target type survives its chunk body |
| `EntryMetadata.XattrRoundTrip` | lib/src/entry/attr.rs:206-241 | an extended attribute survives its two length-prefixed fields |
| `FieldVerdicts.SameInstant` | lib/src/ext/time.rs:25-41 | the two time fields denote the same instant as the duration they are read from or written for, unless flooring saturates, which is off by a second |
| `FieldVerdicts.SecondsVerdict` | lib/src/entry.rs:1509-1513 | seconds are eight bytes in two’s complement, any other length is invalid data |
| `FieldVerdicts.NanosVerdict` | lib/src/entry.rs:1516-1530 | nanoseconds are four bytes that denote less than a second, all else is invalid data |
| `FieldVerdicts.IdVerdict` | lib/src/entry/meta.rs:682-698 | all bodies of eight bytes are ids, any other length is invalid data |
| `FieldVerdicts.ModeVerdict` | lib/src/entry/meta.rs:741-763 | of two bytes the low twelve bits are the mode, any other length is invalid data |
| `FieldVerdicts.OwnerStringVerdict` | lib/src/entry/meta.rs:418-449 | a prefixed string is read from its bytes whatever follows; one cut short is an unexpected end, one that is not UTF-8 invalid data |
| `FieldVerdicts.LinkTargetVerdict` | lib/src/entry/meta.rs:799-827 | the first byte is one of the three that are written, or reads as absent; only an empty body fails |
| `FieldVerdicts.XattrVerdict` | lib/src/entry/attr.rs:206-241 | an attribute is read from its bytes whatever follows, and which bodies fail with which error |
| `Entries.HeaderRoundTrip` | lib/src/entry/header.rs:109-146 | a header survives its bytes, and header bytes that parse are reproduced byte for byte, as key derivation needs |
| `FieldVerdicts.HeaderBodyVerdict` | lib/src/entry/header.rs:123-146 | a header body reads exactly when it is the bytes of some header, and is invalid data otherwise |
| `Entries.FieldsAreDistinct` | lib/src/entry.rs:954-1016 | no two chunk types mean the same claimed field |
| `Entries.ParseChunks` | lib/src/entry.rs:903-1063 | the loop over mutable locals computes the parsed entry or the first error |
| `EntryMeaning.ParseMeaning` | lib/src/entry.rs:903-1063 | what an entry parses to, field by field: each field is read off the chunks of its own kind alone, last one wins or all accumulate, and a legacy permission fills in only if no facet chunk is present |
| `EntryVerdicts.ParsedFields` | lib/src/entry.rs:903-1063 | what a parsed entry says, field by field, in terms of its chunk bodies: the header’s bytes, the data in order and its size, unclaimed chunks in order, and instants as their total of nanoseconds |
| `EntryVerdicts.CheckVerdict` | lib/src/entry.rs:954-1016 | a chunk is taken exactly when its body is one that could have been written for its type, or its type is unknown and not critical |
| `EntryVerdicts.CheckErrors` | lib/src/entry.rs:954-1016 | a refused body is an unexpected end exactly when it stops before the lengths in it say, and invalid data otherwise |
| `EntryVerdicts.HeaderDecides` | lib/src/entry.rs:903-953 | a first chunk that is no header is invalid data, and a header of another version than 0.0 is unsupported, before anything else is judged |
| `EntryVerdicts.ParseSucceedsIff` | lib/src/entry.rs:903-1063 | a list parses exactly when it is a header of version 0.0, acceptable chunks and an end chunk, with anything after it |
| `EntryVerdicts.ParseFailure` | lib/src/entry.rs:954-1022 | the first chunk that is not acceptable gives its own error, an unknown critical one or a missing end invalid data |
| `LegacyPermissions.LegacyThenTail` | lib/src/entry/meta.rs:361-406 | a legacy permission is read from its bytes: id and prefixed name of owner and of group, and two bytes of permission bits, whatever follows |
| `LegacyPermissions.LegacyReadsIff` | lib/src/entry/meta.rs:361-406 | a body reads exactly when it begins with the bytes of a legacy permission, and as that one |
| `LegacyPermissions.LegacyTruncated` | lib/src/entry/meta.rs:361-406 | cut short anywhere, it is an unexpected end of input |
| `LegacyPermissions.LegacyBadName` | lib/src/entry/meta.rs:372-377 | a complete name that is not UTF-8 is invalid data |
| `LegacyPermissions.LegacyFills` | lib/src/entry.rs:1024-1038 | with none of the five owner chunks present, the last legacy permission gives owner id and name, group id and name, and the low twelve permission bits, and leaves the security identifiers alone |
| `LegacyPermissions.LegacyYields` | lib/src/entry.rs:1024-1038 | as soon as one of the five is present, the entry is what it would be without the legacy permissions |
| `EntryMeaning.ParsedShape` | lib/src/entry.rs:903-1063 | a list that parses is a header chunk, chunks the parser can all take, and an end chunk; what follows the end is ignored |
| `EntryMeaning.UnterminatedFails` | lib/src/entry.rs:954-1016 | without an end chunk parsing fails |
| `EntryMeaning.ReorderingKeepsEntry` | lib/src/entry.rs:954-1039 | any two orders that agree on the chunks of each kind parse to the same entry, or both fail |
| `EntryMeaning.SwapKeepsEntry` | lib/src/entry.rs:954-1039 | swapping two neighbours of different kinds, neither the end nor both unclaimed, changes nothing |
| `EntryWriting.EntrySink.Put` | lib/src/entry.rs:89-120 | one more chunk in either sink: collected, or encoded and counted |
| `EntryWriting.PutMetadataFacets` | lib/src/entry.rs:122-175 | emits every recorded facet in its place, nanoseconds only when they are not zero |
| `EntryWriting.WriteChunksTo` | lib/src/entry.rs:1072-1089 | emits the entry in wire order, whichever sink it is given |
| `EntryWriting.IntoChunks` | lib/src/entry.rs:58-66 | the collecting sink ends up with the entry’s chunks |
| `EntryWriting.WriteIn` | lib/src/entry.rs:68-79 | the writing sink appends the encoding of what the other collects; the count is the bytes appended and the size of the part |
| `WireOrder.WrittenInOrder` | lib/src/entry.rs:1072-1089 | an entry is written as a header, the extra chunks as they are, each facet in its place and at most once, attributes and data alone repeated, and an empty end chunk |
| `WireOrder.NoZeroNanos` | lib/src/entry.rs:122-175 | no nanoseconds chunk is written that says zero |
| `WireOrder.SolidWrittenInOrder` | lib/src/entry.rs:519-531 | a solid entry is written as a header, the extra chunks as they are, the password hash if there is one, data, and an empty end chunk |
| `EntryRoundTrip.RoundTripIff` | lib/src/entry.rs:1072-1089 | parsing what was written gives the entry back exactly when its version is 0.0, its extras are ancillary and unclaimed, its compressed size is the sum of its data, and its times are storable |
| `EntryRoundTrip.TimeSurvivesIff` | lib/src/entry.rs:122-175 | an optional time survives the two optional chunks exactly when it is storable |
| `EntryRoundTrip.ParsedSurvives` | lib/src/entry.rs:903-1063 | whatever parses meets those conditions |
| `EntryRoundTrip.NormalisingRewrite` | lib/src/entry.rs:903-1089 | for every list that parses, writing the entry and parsing again gives it back, and nothing written is a legacy permission |
| `EntryRoundTrip.ContentsMean` | lib/src/entry.rs:1072-1089 | every field is read back from what is written for it |
| `SolidEntries.ParseSolidChunks` | lib/src/entry.rs:789-859 | the solid parser’s loop computes the parsed entry or the first error |
| `SolidEntries.WriteSolidTo` | lib/src/entry.rs:519-531 | emits header, extras, password hash, data and end in this order |
| `SolidEntries.SolidRoundTripIff` | lib/src/entry.rs:519-531 | a solid entry is read back from what it writes exactly when its version is 0.0 and its extras are all ancillary |
| `SolidEntries.SolidMeaning` | lib/src/entry.rs:789-859 | for any list: which solid entries parse, what each field is read from, and that only another version is unsupported |
| `SolidEntries.SolidNeedsEnd` | lib/src/entry.rs:789-859 | without an end chunk nothing parses, and which error says so |
| `SolidStream.ReadNextNormalEntry` | lib/src/entry.rs:463-486 | reads chunks up to an end chunk and parses them; an end of input before the first chunk is the end of the stream |
| `SolidStream.TruncatedStream` | lib/src/entry.rs:463-495 | a stream of storable entries, cut at any byte, yields exactly the entries that end at or before the cut, then ends quietly if the cut is at an entry boundary or inside a header chunk, and with an unexpected end of input otherwise |
| `SolidStream.WholeStream` | lib/src/entry.rs:463-495 | an uncut stream yields its entries, all of them |
| `SolidStream.NextMeans` | lib/src/entry.rs:463-486 | one call on arbitrary bytes: the chunks up to an end chunk are parsed, and without one the bytes that read as no chunk decide |
| `SolidStream.DrainMeans` | lib/src/entry.rs:463-495 | a stream of arbitrary bytes is whole runs, the chunks of one more, and bytes that begin no chunk: every run yields what it parses to, the end is quiet only where an entry would begin, and otherwise the error is that of the first run that does not parse or of those bytes |
| `SolidStream.CorruptedStream` | lib/src/entry.rs:463-495 | a corrupted chunk anywhere, the first of an entry included, yields the entries before and then invalid data, never a quiet end |
| `Splitting.PartBytesLen` | lib/src/entry.rs:1443-1447 | the sum of the chunk sizes, which is the length of the part’s encoding |
| `Splitting.TrySplit` | lib/src/entry.rs:1466-1496 | the deque algorithm computes the greedy split |
| `Splitting.SplitVerdict` | lib/src/entry.rs:1466-1496 | a part that fits is returned whole; otherwise it is divided between two chunks or inside one stream chunk; on failure the original comes back and its first chunk is what fits nowhere |
| `Splitting.CutSizes` | lib/src/entry.rs:1466-1496 | when a chunk is cut the first part is exactly the maximum, and the total grows by 12 |
| `Splitting.SplitDetermined` | lib/src/entry.rs:1466-1496 | no other split satisfies the two descriptions: the split is the greedy one |
| `Splitting.SplitStaysWellFormed` | lib/src/chunk.rs:377-394 | both pieces of a cut chunk, and all others, are still well formed |
| `Splitting.SplitAllSucceedsIff` | lib/src/entry.rs:1466-1496 | repeated splitting places everything exactly when each chunk fits in a part or is a stream chunk and a part has room for a frame and a byte |
| `Splitting.BareFramesSplit` | lib/src/entry.rs:1466-1496 | at 12 bytes exactly the lists of empty chunks can be split, whatever their total; one of 24 bytes is given |
| `Splitting.SplitProgress` | lib/src/entry.rs:1466-1496 | each split makes the remaining bytes fewer, by at least the maximum less the slack |
| `Splitting.NumberOfParts` | lib/src/entry.rs:1466-1496 | with more than one part, (n - 1) times (max - max(12, B - 1)) is at most the total less 12, and no part is over the maximum |
| `SplitMeaning.PartsRecut` | lib/src/entry.rs:1466-1496 | the parts, joined, are the original with some stream chunks cut in pieces |
| `SplitMeaning.RecutParse` | lib/src/entry.rs:903-1063 | lists that differ only in how stream chunks are cut parse to the same entry up to data chunking, or fail alike |
| `SplitMeaning.SplittingKeepsEntry` | lib/src/entry.rs:1466-1496 | whatever the size, the joined parts parse to the same header, password hash, metadata, extras and data bytes, or fail alike |
| `SplitMeaning.SplittingKeepsSolid` | lib/src/entry.rs:619-635 | and a solid entry holds the same inner entries, under any decoder of the data bytes |
| `SplitArchive.NewSplitParts` | lib/src/archive/split_parts.rs:89-106 | refuses a maximum that could not hold the framing and one minimal chunk, and otherwise opens part 0 with its whole budget |
| `SplitArchive.SplitParts.RollOver` | lib/src/archive/split_parts.rs:110-127 | closes the part with its two closing chunks and opens the next with a full budget, unless part numbers run out |
| `SplitArchive.SplitParts.WriteChunkValue` | lib/src/archive/split_parts.rs:131-135 | writes the chunk as it is and debits its size |
| `SplitArchive.SplitParts.PutStreamData` | lib/src/archive/split_parts.rs:164-187 | cuts stream data at the end of each budget; the count is the size of all the pieces |
| `SplitArchive.SplitParts.PutChunk` | lib/src/archive/split_parts.rs:139-160 | a chunk goes whole where it fits, to the next part if it must, or is cut if it is a stream chunk; the count is what was written |
| `SplitArchive.SplitParts.Finalize` | lib/src/archive/split_parts.rs:215-225 | with the last archive end every part is complete |
| `SplitArchive.PutPieces` | lib/src/archive/split_parts.rs:139-187 | a chunk ends up in the parts whole or with only stream data cut, is refused exactly when no part could hold it, and leaves the parts packed and within budget |
| `SplitArchive.PutFills` | lib/src/archive/split_parts.rs:139-187 | a chunk that fits goes whole into the open part; otherwise every part closed for it is full to the byte, but for an open part with no room for a frame and a byte or for a chunk that is not cut, and each later part gets one piece |
| `SplitArchive.PartOpens` | lib/src/archive/header.rs:26-38 | a part begins with the signature and an archive header chunk of version 0.0 that bears the part’s number, byte by byte |
| `SplitArchive.PartSize` | lib/src/archive/split_parts.rs:14-24 | the bytes that a part takes besides its chunks, and that the smallest allowed maximum is just that and one empty chunk |
| `SplitArchive.PartsHoldChunks` | lib/src/archive/split_parts.rs:139-187 | for any run of chunks: the parts, joined, are the run with stream chunks cut; each keeps to its budget and begins with what the one before had no place for; the run fails only on a chunk that fits nowhere or when part numbers run out |
| `SplitArchive.NumberOfBodies` | lib/src/archive/split_parts.rs:110-187 | every part but the last takes at least its budget less max(12, B - 1) off the bytes given, B the size of the largest chunk that is not stream data; so while those bytes are fewer than 2^32 - 1 such shares, writing succeeds exactly when every chunk fits in some part |
| `SplitArchive.PartsKeepToMaximum` | lib/src/archive/split_parts.rs:21-27 | no finished part, framing included, is larger than the maximum |
| `SplitArchive.WriteSplit` | lib/src/archive/split_parts.rs:81-187 | the whole run of a sink produces those parts, or the first error |
| `JoinArchive.ArchiveReader.ReadHeader` | lib/src/archive/read.rs:45-56 | accepts a signature and an 8-byte archive header and takes the part number from it, keeping the buffered chunks |
| `JoinArchive.ArchiveReader.ReadNextHeader` | lib/src/archive/read.rs:143-148 | opens the next part and accepts it only if its number is one more than the last |
| `JoinArchive.ArchiveReader.OpenNext` | cli/src/command/core.rs:1420-1430 | takes the part handed out, or else what follows in the same stream, where an end of input means that no further part was found |
| `JoinArchive.ArchiveReader.NextRawItem` | lib/src/archive/read.rs:65-87 | collects chunks up to an entry’s end, notes a next-part marker, and buffers an unfinished entry at the end of a part |
| `JoinArchive.ReadAllParts` | cli/src/command/core.rs:1447-1473 | the loop reads part after part while each says another follows, and ends with the entries of all or the first error |
| `JoinArchive.PartReads` | lib/src/archive/read.rs:45-87 | a finished part reads as the entries that end in it, and leaves the start of the next and whatever follows in the stream |
| `JoinArchive.HeadVerdict` | lib/src/archive/read.rs:45-56 | each way that a part’s header is refused, with its error, and the number that an accepted one bears |
| `JoinArchive.NextHeadVerdict` | cli/src/command/core.rs:1420-1430 | only a stream that ends too early is a missing part, other failures stay what they are, and a part that opens must have the next number |
| `JoinArchive.NextRawMeans` | lib/src/archive/read.rs:65-87 | one call on arbitrary bytes: chunks are collected, next-part markers noted and left out, up to the end of an entry or of the part, or to what reads as no chunk |
| `JoinArchive.DamagedPart` | lib/src/archive/read.rs:65-87 | after whole parts one that is sound up to some chunk fails with just the error of what stands there |
| `JoinArchive.DamageIsReported` | lib/src/archive/read.rs:65-87 | a corrupted chunk in any part is invalid data, and a part cut inside a chunk is an unexpected end, never a missing part |
| `JoinArchive.PartsInOrder` | cli/src/command/core.rs:1420-1473 | finished parts in any order, with gaps or repeats, are read exactly when, from whichever comes first, every part up to the last comes in its place; a wrong part is invalid data, a missing one is not found, and the number of the first part is never checked |
| `JoinArchive.PartsRead` | cli/src/command/core.rs:1420-1473 | the parts in order read as the entries of their chunks, joined; any fewer of them are refused as not found |
| `JoinArchive.PartsInOneStream` | lib/src/archive/read.rs:160-173 | parts that follow each other in one stream read as they do when handed over one by one, complete or not |
| `JoinArchive.RecutSplit` | lib/src/chunk.rs:377-394 | cutting stream chunks never joins across a place in the list |
| `JoinArchive.SplitArchiveRoundTrip` | lib/src/archive/read.rs:65-148 | any entries written as a split archive and read back come one for one, in order, with only stream chunks cut, so each parses to what it did, normal or solid |
| `JoinArchive.WrittenIsRaw` | lib/src/entry.rs:1072-1089 | what the library writes for an entry has no end chunk but its last and no chunk that ends a part |
| `JoinArchive.EntriesSurviveSplitArchive` | lib/src/archive/split_parts.rs:139-187 | storable entries written as a split archive come back each in its place, with the same header, metadata, extras and data bytes |
| `ExtractEntries.ExtractSolidEntries.Next` | lib/src/archive/read.rs:418-448 | each call yields the next entry, from the solid entry it is in or from the archive, or the error that comes instead |
| `ExtractEntries.ExtractMeans` | lib/src/archive/read.rs:418-448 | without an error every entry was read, every solid one drained, and all they hold came out in order; with one, the entries before some place did, and the error is that of the entry at that place |
| `ExtractEntries.ExtractSucceedsIff` | lib/src/archive/read.rs:418-448 | extraction ends without an error exactly when every entry was read and every solid one decodes and drains to its end |
| `ExtractEntries.SolidIsRaw` | lib/src/entry.rs:519-531 | what is written for a solid entry has no end chunk but its last and no chunk that ends a part |
| `ExtractEntries.HeldIsExtracted` | lib/src/archive/read.rs:418-448 | one entry, with its stream chunks cut anywhere, still yields what it holds: itself, or the entries inside it |
| `ExtractEntries.ArchiveRoundTrip` | lib/src/archive/read.rs:65-148 | normal and solid entries in any order, written as a split archive of any size, read back and extracted, yield without an error every normal entry and every entry inside a solid one, in order, with the same header, metadata, extras and data bytes |
| `AclText.ParseAce` | cli/src/chunk/acl.rs:200-263 | the parser that advances a split iterator computes the entry, or the error that the source reports first |
| `AclText.AceVerdict` | cli/src/chunk/acl.rs:200-263 | going by the pieces between colons: which texts are entries, what they say, and which error the others give when several apply |
| `AclText.OwnerSpellings` | cli/src/chunk/acl.rs:206-228 | long owner types mean what the short ones do, a user or group without a name is the owning one, and any other type is refused |
| `AclText.ListSpellings` | cli/src/chunk/acl.rs:200-263 | items may be separated by commas or by bars, and each be given by any of its names |
| `AclText.NameAlone` | cli/src/chunk/acl.rs:200-263 | a single name, short or long, is read as the one flag or permission that bears it |
| `AclText.FlagSpellings` | cli/src/chunk/acl.rs:291-300 | what each flag name is read as |
| `AclText.PermissionSpellings` | cli/src/chunk/acl.rs:302-321 | what each permission name, short or long, is read as |
| `AclText.ListRoundTrip` | cli/src/chunk/acl.rs:178-198 | a printed list of flags or permissions reads back as the set it was printed from |
| `AclText.AceRoundTripIff` | cli/src/chunk/acl.rs:178-263 | an entry reads back from its text exactly when its identifier, if it has one, is non-empty and has no colon |
| `AclText.ParsedIsPlain` | cli/src/chunk/acl.rs:200-263 | whatever text is accepted, its identifier is non-empty and has no colon |
| `AclText.AceTextSettles` | cli/src/chunk/acl.rs:178-263 | for every accepted text, what it is printed as reads as the same entry |
| `AclText.PlatformRoundTripIff` | cli/src/chunk/acl.rs:57-92 | a platform survives its name exactly when an unknown one does not bear a known name, and every name survives |
| `AclText.QualifiedRoundTripIff` | cli/src/chunk/acl.rs:323-355 | the platform-qualified form reads back, a missing platform as the general one, exactly when platform and identifier have no colon, the identifier is not empty, and the platform is canonical |
| `AclText.UnqualifiedRoundTrip` | cli/src/chunk/acl.rs:335-355 | an entry printed without a platform reads as one that names none |
| `AclText.ColonIdentifierMisreads` | cli/src/chunk/acl.rs:335-355 | with a colon in the identifier the qualified parser fails, except on one colon after an owner type: then the flags are read as a platform and another owner comes out |
| `AclText.ColonInstance` | cli/src/chunk/acl.rs:335-355 | one such entry: the user g:y with the default flag comes back as the group y on a platform d |
| `AclChunks.Acl` | cli/src/ext.rs:26-48 | the loop over extra chunks gives each platform its entries, in order, or the first error |
| `AclChunks.AceChunkPlaces` | cli/src/ext.rs:26-48 | one more ACE chunk, anywhere: its entry joins the list of the platform that it names, or else of the one in force, in its place; all other lists and the platform in force stay |
| `AclChunks.SelfDescribingAce` | cli/src/ext.rs:26-48 | a chunk that names its own platform adds to that platform’s list, whatever platform is in force |
| `AclChunks.AclVerdict` | cli/src/ext.rs:26-48 | ACLs decode exactly when each of their chunks can be read, and otherwise with the error of the first that cannot |
| `AclChunks.DecodedIsPlain` | cli/src/ext.rs:26-48 | what is decoded has canonical platforms, plain identifiers and no empty list |
| `AclChunks.EncodeDecodeIff` | cli/src/command/acl.rs:424-438 | a map encoded in any platform order, before any other chunks, decodes to the map without its empty lists, exactly when every non-empty list has a canonical platform and plain identifiers |
| `AclEditing.AclList.Replace` | cli/src/command/acl.rs:523-528 | the list becomes the one new entry |
| `AclEditing.AclList.Modify` | cli/src/command/acl.rs:529-539 | the first match takes the new permission, or the new entry is pushed |
| `AclEditing.AclList.Remove` | cli/src/command/acl.rs:540-543 | the matching entries go |
| `AclEditing.TransformAcl` | cli/src/command/acl.rs:514-545 | set, modify and remove in this order on the list of the chosen platform |
| `AclEditing.CommandIsItsParts` | cli/src/command/acl.rs:514-545 | a command acts as its set, its modification and its removal would, one after the other; a part not given changes nothing |
| `AclEditing.SettingLeaves` | cli/src/command/acl.rs:181-190 | setting leaves one entry: for the owner and default flag asked for, denying only if the argument says so, granting just the permissions of which it lists a name |
| `AclEditing.AskedForExactly` | cli/src/command/acl.rs:181-190 | an edit made of an entry’s owner, default flag, verdict and the printed names of its permissions sets exactly that entry, adds it, or gives the first of its kind exactly its permissions |
| `AclEditing.ModifiedMeans` | cli/src/command/acl.rs:529-539 | a modification changes the permission of the first match and nothing else, or adds one entry at the end |
| `AclEditing.ModifyLeavesMatch` | cli/src/command/acl.rs:529-539 | a modification always leaves an entry that it matches |
| `AclEditing.WithoutMeans` | cli/src/command/acl.rs:540-543 | a removal keeps exactly the entries without a match, in their order |
| `AclEditing.EditLeaves` | cli/src/command/acl.rs:514-545 | after a command no match of its removal is left, and without one a match of its modification is |
| `AclEditing.OnlyPlatformTouched` | cli/src/command/acl.rs:514-545 | every other platform keeps its list, and the chosen one is there afterwards in any case |
| `AclEditing.RepeatingSettlesIff` | cli/src/command/acl.rs:514-545 | repeating a command changes nothing on any list exactly when its edits do not overlap: set and modify without remove never do |
| `AclEditing.ReplaceAcls` | cli/src/command/acl.rs:418-438 | the extra chunks become the encoded map followed by the other chunks in their order |
| `AclEditing.WithAclsMeans` | cli/src/command/acl.rs:481-512 | the other extra chunks stay, in order, and the new map is read back exactly when it can be stored |
| `AclEditing.TransformEntry` | cli/src/command/acl.rs:481-512 | only the extra chunks of the entry change, starting from no ACL when the stored one does not decode |
| `AclEditing.TransformedEntryDecodes` | cli/src/command/acl.rs:481-512 | after the command the chosen platform decodes to the edited list, every other to what it was, and the other extra chunks stand |
| `AclDump.LinesRoundTrip` | cli/src/command/acl.rs:547-554 | printed lines that hold no line feed are read back in order, each less a return that it may end in |
| `AclDump.LinesEnd` | cli/src/command/acl.rs:547-554 | a line ends at the first line feed, with a return right before it; what follows the last one is a line if there is anything, and keeps its return |
| `AclDump.ParseAclDump` | cli/src/command/acl.rs:547-580 | the loop over lines gives each file and platform its entries, in order, or the first error |
| `AclDump.KindVerdict` | cli/src/command/acl.rs:558-566 | which lines are blank, name a file, a platform, an owner or a group, and that every other line is an entry’s |
| `AclDump.TellsAppend` | cli/src/command/acl.rs:547-580 | what lines say follows from the lines before only through the last file and the last platform named, and stops at the first entry that does not parse |
| `AclDump.ListingShows` | cli/src/command/acl.rs:322-344 | name, owner and group come first, in this order, and a blank line last |
| `AclDump.AceLineKind` | cli/src/command/acl.rs:558-566 | no printed entry is mistaken for another kind of line |
| `AclDump.DumpRoundTrip` | cli/src/command/acl.rs:306-350 | a printed dump whose texts hold no line feed and whose platforms do not end in a return reads back as the map of its ACLs, names without a final return; that is the map it was printed from exactly when no entry with ACLs has a name that ends in a return |
| `AclRestore.PrintListing` | cli/src/command/acl.rs:322-344 | prints an entry’s file, owner and group lines, its chosen platforms with their entries, and a blank line; an ACL that does not decode stops it |
| `AclRestore.ArchiveGetAcl` | cli/src/command/acl.rs:306-350 | prints the picked entries’ listings, and succeeds exactly when all their ACLs decode |
| `AclRestore.RestoreEntry` | cli/src/command/acl.rs:417-442 | an entry named in the dump takes the dump’s ACL; any other is left alone |
| `AclRestore.BackupReads` | cli/src/command/acl.rs:306-350 | such a dump always reads back, whatever the names and owners in it |
| `AclRestore.BackupRestores` | cli/src/command/acl.rs:410-442 | if names are distinct, no text holds a line feed and no name or platform ends in a return, restoring from a dump leaves every entry with the ACL that was shown of it, or its own if none was, so with all platforms chosen nothing changes; other extra chunks keep their order, and iteration orders do not matter |
| `FileTree.Tree.Insert` | cli/src/command/list.rs:1530-1541 | walking down in place makes the missing nodes and sets the last one’s kind, as inserting in a flat map of paths would |
| `FileTree.TreeIsFlatMap` | cli/src/command/list.rs:1530-1541 | after any insertions there is a node at exactly the prefixes of what was inserted, empty components ignored, with the last kind inserted there |
| `FileTree.ComponentsJoin` | cli/src/command/list.rs:1530-1541 | a slash puts one name’s components after another’s |
| `TreeListing.SortedKeys` | cli/src/command/list.rs:1524-1528 | the children are met in ascending order, each once |
| `TreeListing.BeforeIff` | cli/src/command/list.rs:1524-1528 | names are in order when one is a proper prefix of the other or has the lower character where they first differ |
| `TreeListing.PathBeforeIff` | cli/src/command/list.rs:1601-1619 | paths are in order when one lies below the other or has the earlier name where they first differ |
| `TreeListing.AppendTreeChildren` | cli/src/command/list.rs:1601-1619 | what is pushed below a node shows every node below it, each once, in order |
| `TreeListing.TreeEntries` | cli/src/command/list.rs:1580-1599 | the listing shows every node of the tree built from the entries |
| `TreeListing.ListingMeans` | cli/src/command/list.rs:1580-1619 | a path is shown exactly when some entry lies there or below, with the last kind listed for it or as a directory, in strictly increasing order |
| `TreeListing.ListingIsUnique` | cli/src/command/list.rs:1601-1619 | two sorted listings of the same nodes are the same |
| `Chmod.ApplyTo` | cli/src/command/chmod.rs:342-369 | the nested loops apply the actions of the clauses in order |
| `Chmod.ListIsSplit` | cli/src/command/chmod.rs:372-395 | the greedy parser accepts a symbolic mode exactly when each piece between commas is one whole clause, and gives those clauses in order |
| `Chmod.CommaComposes` | cli/src/command/chmod.rs:340-395 | s1,s2 is a symbolic mode exactly when both sides are; it has the clauses of both and acts as the second after the first |
| `Chmod.ActionMeans` | cli/src/command/chmod.rs:348-365 | an action gives each named class what its sign says, and changes no other bit |
| `Chmod.OnlyNamedClassesChange` | cli/src/command/chmod.rs:342-369 | a symbolic mode changes no bit of a class it does not name, and none above the nine permission bits |
| `Chmod.NumericMeans` | cli/src/command/chmod.rs:375-382 | digits are a mode exactly when they are three octal ones, which set the three classes outright |
| `ChmodLetters.LettersMean` | cli/src/command/chmod.rs:342-395 | letter by letter: + gives each named class what is asked for, - takes it, = gives that and nothing else, classes that are not named stay, and no class letter names all |
| `ChmodLetters.ActionsInTurn` | cli/src/command/chmod.rs:342-369 | actions of one clause act one after the other, each as a clause of its own |
| `ChmodLetters.DigitsMean` | cli/src/command/chmod.rs:375-382 | three octal digits are the mode that they write |
| `ChmodLetters.ModeTextIff` | cli/src/command/chmod.rs:372-395 | a text is a mode exactly when it is three octal digits, or each piece between commas is class letters and then actions |
| `OldStyleArgs.FindBsdtarSubcommand` | cli/src/cli/old_style.rs:20-23 | finds the word after compat and bsdtar, passing options and their values |
| `OldStyleArgs.SkipKnownGlobalFlags` | cli/src/cli/old_style.rs:169-199 | passes known global options and the values that follow them, and stops at any other word |
| `OldStyleArgs.OptionsEndIff` | cli/src/cli/old_style.rs:154-199 | both loops stop at the one index before which every word is an option or the value of the option just before it, and at which no option stands |
| `OldStyleArgs.SubcommandIff` | cli/src/cli/old_style.rs:20-23 | the index is found exactly when only flags and their values stand before compat, and between compat and bsdtar |
| `OldStyleArgs.ExpandBsdtarOldStyleArgs` | cli/src/cli/old_style.rs:37-73 | the loop over a bundle’s letters unpacks it, each letter that takes an argument taking the next word |
| `OldStyleArgs.BundleIsUnpacked` | cli/src/cli/old_style.rs:37-73 | a bundle that only global options separate from the subcommand is unpacked where it stands and nothing else is touched; without one no word changes |
| `OldStyleArgs.LettersWithArgument` | cli/src/cli/old_style.rs:63-70 | which letters take the next word; any other leaves it to the letters after it |
| `OldStyleArgs.UnpackingKeepsWords` | cli/src/cli/old_style.rs:63-72 | given the letters, the words after the bundle are got back from what it was unpacked to, each once and in order |
| `OldStyleArgs.ExpandingBundleTwice` | cli/src/cli/old_style.rs:37-73 | expanding a second time changes nothing |
| `OldStyleArgs.SplitWOption` | cli/src/cli/old_style.rs:121-144 | splits a token at a W that comes before any other letter with an argument |
| `OldStyleArgs.SplitWIff` | cli/src/cli/old_style.rs:121-144 | a token is a -W option exactly when it is a dash, a group of letters without an argument, a W, and what is run into it, which are the two halves |
| `OldStyleArgs.ExpandBsdtarWOption` | cli/src/cli/old_style.rs:80-108 | the loop rewrites each -W option before the double dash to its long form |
| `OldStyleArgs.WIsLongOption` | cli/src/cli/old_style.rs:80-108 | the first -W option becomes its group, if any, and a long option made of what is run into it or else of the next word, and the rest is rewritten in turn; a last one without an argument and everything from a double dash on stay |
| `OldStyleArgs.RewritingIsAfterSubcommand` | cli/src/cli/old_style.rs:37-108 | words up to the subcommand stay, and without it all words do |
| `OldStyleArgs.RewritingWTwice` | cli/src/cli/old_style.rs:80-108 | rewriting a second time changes nothing |
| `OldStyleArgs.UnchangedIff` | cli/src/cli/old_style.rs:80-108 | the rewriter changes nothing exactly when no -W option is left, but for a last one without its argument, and leaves none itself |

## Left out

- The checksum polynomial: `ChunkCrc` is an arbitrary total function to 32 bits.
- Compression, encryption, key derivation and the GCM stream cipher: an arbitrary function of
  header, password hash and data bytes stands for them; it gives all its bytes or fails.
- I/O failures other than an end of input, memory exhaustion, flushing, and the failures of
  the closure that opens the next part: the readers and writers here work on memory.
- Machine-word overflow of byte totals: sizes and offsets are natural numbers. The `u32` cast
  of a chunk's length, the width of part numbers and of every stored field are modelled.
- EntryWriting.EntrySink.Put: the two sinks are one class with a flag, whose invariant says what each of
  them does.
- `NormalEntry::with_metadata`, `try_with_name` and the conversions between `Vec`, `Cow`, `Box` and slice payloads:
  record updates and identities on values.
- Sanitising of entry names, the other uses of names as paths, and the `Archive` methods that
  write streamed data directly: not part of this model.
- The reader's configurable chunk size limit: `JoinArchive` reads with the format's maximum.
- JoinArchive.ReadAllParts: the parts are given as bytes; finding the part files on disk, and
  going on to a second archive in the same stream when the caller allows that, are not modelled.
- Asynchronous readers and writers: the same functions with awaits.
- The grammar of `AclEntries` arguments: the editor takes already parsed values.
- The tables that convert ACLs from one platform to another.
- AclRestore.PrintListing: the owner and group texts are parameters; how they are made from
  metadata is not modelled.
- AclDump.ParseAclDump: the dump is text; input that is not UTF-8 is not modelled.
- TreeListing.TreeEntries: the root label, classification marks, hiding of control characters
  and the drawing of lines are not modelled.
- Chmod.ModeOf: error messages are reduced to failure, and the transform that stores the new mode in
  an entry's metadata is not modelled.
- Table, JSON, CSV and time rendering, file collection and extraction, and argument parsing
  beyond the two rewriters.
