# Verified model of simple_leveldb

A Dafny model of the data structures, codecs and protocols under
simple_leveldb's unfinished database layer, with proofs of what they are for.
`dafny verify dfyconfig.toml` checks the project, with the options set there.

| Files | What they model |
|---|---|
| `Crc32cSpec`, `Crc32cTables`, `Crc32c`, `Crc32cChecks` | CRC32C (section 12.1 of RFC 3720): the digest bit by bit, the five lookup tables, the strided algorithm of `Extend`, and what tells this digest from others |
| `Bits` | shifts, masks and or, bit by bit, and the quotients, remainders and sums they are |
| `Coding`, `CodingChecks` | varints (the unsigned LEB128 of section 7.6 of DWARF Version 4), fixed-width integers and length-prefixed slices; their formats in numbers |
| `LogFormat`, `LogWriter`, `LogReader` | the log: records cut into checksummed fragments in 32 KiB blocks, written and read by two state machines |
| `LogLayout`, `LogVerdicts` | where the writer puts which byte, and what the reader makes of every fragment and every bad header |
| `LogRoundTrip`, `LogTornTail`, `LogDamage`, `LogDamageReports` | what reading back a whole, a cut off and a damaged log gives, and what is reported |
| `VersionEdits`, `VersionEditFormat`, `VersionEditItems` | version edits as bytes: encoder and decoder, which strings are accepted, and what each field stands for |
| `VersionSets`, `RecoverVerdicts`, `ManifestRuns`, `ManifestRestarts` | the manifest as a log of edits, recovery from any file, a database from its creation through any number of sessions and crashes, and what each restart finds |
| `SkipOrder`, `SkipLists`, `ConcurrentSkipLists`, `ConcurrentScans`, `ConcurrentProgress` | the skip list as linked nodes with one thread, and as memory cells with one writer and any number of readers, one load or store a step; whole scans beside the writer; what is inserted, and that inserts and searches end |
| `CacheSpec`, `CacheOrder`, `HandleTables`, `LruRings`, `LruCaches`, `LruRuns`, `ShardedCaches`, `ShardedRuns` | one shard of the LRU cache: what it does without pointers, the order of its idle entries, the hash table, rings and reference counts that do it, and whole runs of that object from its constructor to its destructor; and sixteen shards together, as values and as objects |
| `Arenas`, `Limiters`, `DbFormats`, `FileNames` | the arena, the file limiter with any number of threads, internal keys, and file names |
| `Randoms`, `RandomPeriods` | the Lehmer generator, and that its seeds form one cycle |

Code that changes state in place is a class or a method over arrays here, and
each such method is proved equal to a function of the old state (`Crc`,
`Encode`, `NextRecord`, `Decode`, `Replay`, the functions of `CacheSpec`, ...);
the main theorems are about those functions. Bytes are integers from 0 to 255,
CRC words are `bv32`, and 32- and 64-bit integers are subset types. A file is
the sequence of its bytes.

## Where the code departs from its intent

The model follows the code; where the intent is plain, it has both versions.

- `log_write.cc:64` tests `begin` where `end` is meant, so the last fragment of
  a record is written as a middle one, and line 15 leaves the seed of the last
  type's CRC unset. The writer here has a parameter `intended`: with `true` it
  writes the last type, with `false` it does what the code does. `RoundTrip` and
  `TornTailIntended` cover the intended writer, `RoundTripAsWritten` says exactly
  when the written code round-trips (each record fits in one fragment where it
  starts), `LongRecordLost` is a record that is lost without a report, and
  `TornTail`, `CrashConsistent`, `RecoverRestores`, `Life`, `DamageConfined` and
  `DamageReported` cover both, the last two with a corollary for the intended one.
  `RecoverAsWritten` says what the written code makes of any manifest: a lost last
  edit goes unnoticed, an earlier one makes recovery fail.
- The reader passes over an empty fragment of type 0 without a report
  (`log_reader.cc:161-164`). Damage that turns the type of an empty record into 0
  therefore drops the rest of a block in silence; `DamageReported` says exactly
  when, and that all other damage of its kind is reported.
- A `version_set` that has not recovered has manifest number 0, which the name of a
  manifest asserts against, so `log_any_apply` follows a recovery. `ManifestRuns`
  starts, as a database does, with the manifest that `new_db` writes by hand.
- `encode_to` never writes `deleted_files_`, and `decode_from` reads the
  compact-pointer tag as a deleted file. `VersionEdits.RoundTrip` is an
  if-and-only-if: an edit survives exactly if it has no deleted files, no
  compact pointers, levels below 7, non-empty file keys and strings whose length
  fits in 32 bits.
- `recover` marks the recovered log numbers as used and then overwrites
  `next_file_number_`, so the marks have no effect. `MarksAreOverwritten` says
  for every manifest, by its last edit, exactly when the numbers are new all the
  same, `RecoveredNumbersAreNew` proves that manifests of ordinary runs are such,
  and `PrevLogNumberReused` is a manifest of two edits from which recovery hands
  out a recorded number again.
- The second assertion of `find_shortest_separator` rests on the user's comparator,
  which promises nothing in this repository. The method returns whether it holds,
  with the exact condition.
- `seek_to_first` calls `Next`, which does not exist; it is modelled as `next`.
- The reader's `skip_to_initial_block` is called the wrong way round; only
  `initial_offset == 0` is modelled, the one value that is used.
- The reader's own codes for the end of the file and for a bad record, 5 and 6, are
  also values that a type byte can have (`log_reader.cc:100-111`). A fragment of
  type 5 whose checksum is right ends the log in silence, and one of type 6 is
  passed over; `LogVerdicts.Unnamed` and `UnnamedInside` have both.
- `consume_decimal_number` leaves its input alone when it fails.

## Model

| member | source | states |
|---|---|---|
| Crc32cSpec.CrcConcat | include/util/crc32c.h:13-16 | extending the CRC of A by B gives the CRC of A followed by B, for any initial value |
| Crc32cSpec.RunWord | src/util/crc32c.cc:313-320 | four bytes at once: xor the little-endian word into the register and run it through four zero bytes |
| Crc32cSpec.Zero16Linear | src/util/crc32c.cc:294-301 | sixteen zero-byte steps distribute over exclusive or, which is what the stride tables rest on |
| Crc32cSpec.ZeroByteCommutes | src/util/crc32c.cc:294-320 | single zero-byte steps and sixteen of them commute |
| Crc32cSpec.ShortRunInjective | src/util/crc32c.cc:276-291 | from any register, different runs of at most four bytes end in different registers |
| Crc32cSpec.BurstDetected | include/util/crc32c.h:13-19 | two strings of any length that differ only within four consecutive bytes have different CRCs |
| Crc32cTables.ByteExtensionTableCorrect | src/util/crc32c.cc:20-62 | all 256 literals are eight bit steps of the reflected polynomial |
| Crc32cTables.StrideExtensionTable0Correct | src/util/crc32c.cc:65-107 | all 256 literals are the top byte after sixteen zero bytes |
| Crc32cTables.StrideExtensionTable1Correct | src/util/crc32c.cc:110-152 | the same for the third byte |
| Crc32cTables.StrideExtensionTable2Correct | src/util/crc32c.cc:155-197 | the same for the second byte |
| Crc32cTables.StrideExtensionTable3Correct | src/util/crc32c.cc:200-242 | the same for the lowest byte |
| Crc32c.Step1 | src/util/crc32c.cc:287-292 | one table step extends the register by one byte of the buffer |
| Crc32c.Step4W | src/util/crc32c.cc:313-320 | four table steps combine a stride register into the CRC register |
| Crc32c.CombineRotate | src/util/crc32c.cc:350-358 | stepping the first stride by a word and rotating the four strides stands for four more bytes |
| Crc32c.SwathIsFourRotations | src/util/crc32c.cc:303-310 | a sixteen-byte swath equals four rotations |
| Crc32c.LoadStrides | src/util/crc32c.cc:333-340 | the four strides stand for the register and the first sixteen bytes |
| Crc32c.StepSwaths | src/util/crc32c.cc:345-348 | the swath loop keeps the strides standing for the bytes consumed |
| Crc32c.StepWords | src/util/crc32c.cc:350-359 | the word loop does, and leaves fewer than four bytes |
| Crc32c.CombineStrides | src/util/crc32c.cc:361-366 | combining the four strides gives the register of all bytes consumed |
| Crc32c.Extend | src/util/crc32c.cc:276-377 | for every buffer, length, start address and initial value the strided algorithm equals the byte-at-a-time CRC |
| Crc32c.MaskRoundTrip | include/util/crc32c.h:23-37 | masking and unmasking undo each other, both ways |
| Crc32cChecks.Residue | src/util/crc32c.cc:276-377 | every string followed by its own checksum has the checksum 0x48674bc7 |
| Crc32cChecks.LeadingZeroCounts | src/util/crc32c.cc:284 | a zero byte in front of any string changes its checksum, as the register starts as ones |
| Crc32cChecks.TestBufferValue | src/util/crc32c.cc:269-271 | the checksum of "TestCRCBuffer" is 0xdcbc59fa, the value that the source tests for |
| Crc32cChecks.MaskInNumbers | include/util/crc32c.h:29-32 | a masked checksum has the lowest fifteen bits on top, the others below, and 0xa282ead8 added |
| Coding.Varint32RoundTrip | src/util/coding.cc:105-130 | decoding an encoded 32-bit value and any rest gives back the value and the rest |
| Coding.Varint64RoundTrip | src/util/coding.cc:132-141 | the same for all 64-bit values |
| Coding.VarintRoundTrip | src/util/coding.cc:66-80 | the same for any word width |
| Coding.VarintFits | src/util/coding.cc:19-29 | encodings fit the five- and ten-byte buffers |
| Coding.ReadVarintShrinks | src/util/coding.cc:66-80 | on any input, decoding yields a value within the width and a proper suffix of the input |
| Coding.OrAdds | src/util/coding.cc:162-170 | the bits that are or-ed in never meet bits that are there: or-ing the result and the shifted byte gives their sum, cut off at the width of the word |
| Coding.ByteBits | src/util/coding.cc:165-168 | `& 127` takes the low seven bits of a byte, and `& 128` is zero exactly if no byte follows |
| Coding.OrContinues | src/util/coding.cc:108-124 | or-ing 128 into a value and taking the byte gives its low seven bits with the top bit set |
| Bits.MaskIsRemainder | src/leveldb/cache.cc:120 | `x & (n - 1)` is the remainder by `n` for every power of two `n` |
| Bits.ShiftRightIsQuotient | src/leveldb/cache.cc:352 | `x >> k` is the quotient by 2^k |
| Bits.OrIsSum | src/util/coding.cc:165-168 | or-ing numbers without a common bit adds them |
| Coding.PutVarint32 | src/util/coding.cc:105-130 | the unrolled encoder writes the varint that the loop writes |
| Coding.PutVarint64 | src/util/coding.cc:132-141 | the loop writes the varint |
| Coding.GetVarint32 | src/util/coding.cc:55-64 | the one-byte fast path and the fallback together decode as the loop does |
| Coding.GetVarint64 | src/util/coding.cc:66-80 | decodes up to ten bytes, and fails exactly where the specification has no value |
| Coding.LengthPrefixedRoundTrip | src/util/coding.cc:143-156 | a length-prefixed string and any rest are given back |
| Coding.PutLengthPrefixedSlice | src/util/coding.cc:143-146 | appends the length and the bytes |
| Coding.GetLengthPrefixedSlice | src/util/coding.cc:148-156 | succeeds exactly if the length and that many bytes are there |
| Coding.Fixed64RoundTrip | include/util/coding.h:40-52 | decoding the eight little-endian bytes of a 64-bit value gives it back |
| Coding.Fixed32RoundTrip | include/util/coding.h:31-38 | the same for 32 bits, by shifts and masks |
| CodingChecks.VarintFormat | src/util/coding.cc:105-141 | the varint of a number is the one string of continued bytes and a last one, which is not a needless zero, whose digits in base 128 are the number's |
| CodingChecks.DecodedIs | src/util/coding.cc:55-80 | on any input, decoding succeeds exactly if a byte that is not continued comes among those the width has room for; then the value is that of the digits modulo the width, and the bytes behind are left |
| CodingChecks.LittleEndianAt | include/util/coding.h:40-52 | byte `i` of a fixed-width integer stands for 256 to the power of `i` |
| CodingChecks.Fixed32Bytes | include/util/coding.h:31-38 | the four bytes of a word, lowest first |
| LogFormat.StoredCrcMatches | src/leveldb/__detail/log_write.cc:88-90 | the stored checksum passes the reader's test |
| LogFormat.FragmentParts | src/leveldb/__detail/log_reader.cc:146-150 | the reader finds length, type, checksum, payload and rest of a written fragment |
| LogWriter.InitTypeCrc | src/leveldb/__detail/log_write.cc:14-19 | the array holds the CRC of each type byte up to the last one that is seeded |
| LogWriter.Writer.EmitPhysicalRecord | src/leveldb/__detail/log_write.cc:79-101 | appends one fragment, header and payload, and moves the block offset |
| LogWriter.Writer.AddFragment | src/leveldb/__detail/log_write.cc:42-74 | one turn of the loop appends the block trailer and the fragment due at this offset |
| LogWriter.Writer.AddRecord | src/leveldb/__detail/log_write.cc:35-77 | appends the encoding of the record at this block offset, and no asserted bound is broken |
| LogLayout.RecordLayout | src/leveldb/__detail/log_write.cc:35-101 | for every record and block offset: the bytes written are zeros up to the next block if less than a header fits, then the one layout of masked checksum, two length bytes, type and payload in which all pieces but the last fill their blocks of 32768 bytes, carry the record and have types 1, or 2, 3 and 4 (3 for the last as written) |
| LogLayout.OneLayout | src/leveldb/__detail/log_write.cc:55-68 | two such layouts of the same record have the same pieces |
| LogLayout.LayoutExists | src/leveldb/__detail/log_write.cc:42-74 | every record has one |
| LogReader.Reader.ReadPhysicalRecord | src/leveldb/__detail/log_reader.cc:124-187 | result, buffer, end of file and reports are those of the specification in every branch |
| LogReader.Reader.Switch | src/leveldb/__detail/log_reader.cc:61-120 | the nine cases of a fragment inside or outside a record |
| LogReader.Reader.ReadRecord | src/leveldb/__detail/log_reader.cc:30-122 | returns the next record of the specification, and ends on any file |
| LogVerdicts.Orphan | src/leveldb/__detail/log_reader.cc:82-99 | a middle or last fragment outside a record is dropped, and its length reported |
| LogVerdicts.Unnamed | src/leveldb/__detail/log_reader.cc:100-120 | types that the writer has no name for, outside a record: 5 ends the log in silence, 6 is passed over, any other is reported with its length and sign-extended type |
| LogVerdicts.Interrupted | src/leveldb/__detail/log_reader.cc:61-81 | a full or first fragment inside a record ends that record, with a report of its length unless it is empty |
| LogVerdicts.Gathering | src/leveldb/__detail/log_reader.cc:82-99 | a middle fragment adds to a record, and a last one delivers it |
| LogVerdicts.UnnamedInside | src/leveldb/__detail/log_reader.cc:100-120 | the unnamed types inside a record: the record is lost, with its length in the report |
| LogVerdicts.BadHeader | src/leveldb/__detail/log_reader.cc:151-175 | a length beyond the block, a zero header or a wrong checksum drops the rest of the block, with one report of its length and reason, none for a zero header, and one more for the record that it interrupts |
| LogVerdicts.TornEnd | src/leveldb/__detail/log_reader.cc:139-159 | in the last block too few bytes for a header, or for the fragment it announces, end the log without a report |
| LogVerdicts.ShortTail | src/leveldb/__detail/log_reader.cc:126-138 | in any other block too few bytes for a header are passed over, and the next 32768 are read |
| LogVerdicts.NothingElse | src/leveldb/__detail/log_reader.cc:146-186 | every buffer with room for a header is refused, or starts with a fragment, and not both |
| LogRoundTrip.ReadWritten | src/leveldb/__detail/log_reader.cc:30-187 | from any block offset and any reader state, what reading a written log delivers and reports, for both writers |
| LogRoundTrip.ReadFileOfWritten | src/leveldb/__detail/log_write.cc:60-68 | a log of the written code reads as exactly its records that fit in one fragment, in order; one of the intended writer as all of them |
| LogRoundTrip.RoundTrip | src/leveldb/__detail/log_write.cc:35-77 | the intended writer and the reader give back every sequence of records, with no report |
| LogRoundTrip.RoundTripAsWritten | src/leveldb/__detail/log_write.cc:60-68 | the code as written gives back the records exactly if each fits in one fragment where it starts |
| LogRoundTrip.LongRecordLost | src/leveldb/__detail/log_write.cc:64-68 | a longer record is lost, and nothing is reported |
| LogRoundTrip.Reopened | src/leveldb/__detail/log_write.cc:27-31 | a writer that continues a file from its length writes what one writer would have written |
| LogTornTail.TornTail | src/leveldb/__detail/log_reader.cc:100-104 | a log cut anywhere reads as the log of its complete records, and reports nothing that the whole log would not |
| LogTornTail.TornTailIntended | src/leveldb/__detail/log_reader.cc:126-159 | with the intended writer those are exactly the complete records, with no report |
| LogTornTail.TornTailIsPrefix | src/leveldb/__detail/log_reader.cc:126-159 | the records of a cut log are a prefix of those of the whole log |
| LogDamage.BurstMismatch | src/leveldb/__detail/log_reader.cc:166-175 | a burst of at most four bytes in type and payload fails the checksum |
| LogDamage.EncodeDamagedLength | src/leveldb/__detail/log_write.cc:79-101 | with either writer such a burst leaves the length of the log as it is |
| LogDamage.EncodeUndamaged | src/leveldb/__detail/log_write.cc:79-101 | with either writer, writing the original bytes over a fragment gives the log that was written |
| LogDamage.DamageConfined | src/leveldb/__detail/log_reader.cc:106-119 | with either writer, after such a burst in any fragment the reader returns what it returns of the records before and of those from the first that starts in a later block, and nothing else |
| LogDamage.DamageConfinedIntended | src/leveldb/__detail/log_reader.cc:106-119 | with the intended writer those are all records before and all from the first that starts in a later block |
| LogDamageReports.DamageReported | src/leveldb/__detail/log_reader.cc:161-175 | with either writer, exactly when such a burst goes unreported: an empty record whose type became 0, no record behind it in its block that runs on into the next, all records before it delivered, and nothing to report of the records from the next block on |
| LogDamageReports.DamageReportedIntended | src/leveldb/__detail/log_reader.cc:161-175 | with the intended writer the first two conditions are all |
| VersionEdits.VersionEdit.Clear | src/leveldb/__detail/version_edit.cc:24-38 | empties every field |
| VersionEdits.VersionEdit.SetLogNumber | src/leveldb/__detail/version_edit.cc:45-48 | sets this field and no other |
| VersionEdits.VersionEdit.AddFile | src/leveldb/__detail/version_edit.cc:206-214 | appends one file and changes nothing else |
| VersionEdits.VersionEdit.EncodeTo | src/leveldb/__detail/version_edit.cc:69-106 | appends the encoding of all fields that are written |
| VersionEdits.VersionEdit.DecodeFrom | src/leveldb/__detail/version_edit.cc:123-204 | status and fields are those of the specification on any bytes, and each turn consumes input |
| VersionEdits.RoundTrip | src/leveldb/__detail/version_edit.cc:69-204 | decoding the encoding of an edit succeeds and restores all of it exactly if it is representable and has no deleted files |
| VersionEdits.DeletedFileLost | src/leveldb/__detail/version_edit.cc:69-106 | a deleted file does not survive |
| VersionEdits.DecodedRepresentable | src/leveldb/__detail/version_edit.cc:108-121 | whatever bytes are decoded, the result is within the bounds of what can be encoded |
| VersionEdits.DecodeFieldShrinks | src/leveldb/__detail/version_edit.cc:135-194 | every field that is accepted consumes input |
| VersionEditFormat.AcceptedIsConsumed | src/leveldb/__detail/version_edit.cc:135-204 | if a string decodes well to an edit, decoding it and any more is decoding the rest from that edit on: all of it was consumed |
| VersionEditFormat.AcceptedIff | src/leveldb/__detail/version_edit.cc:123-204 | a string decodes well exactly if it is a concatenation of strings each of which is one accepted field |
| VersionEditItems.ReadItems | src/leveldb/__detail/version_edit.cc:135-194 | fields written with the tags 1 to 5, 7 and 9, in any order and number, set what they stand for, one after the other |
| VersionEditItems.EncodeIsItems | src/leveldb/__detail/version_edit.cc:69-106 | an edit's encoding is its fields: comparator, log, previous log, next file, sequence, compact pointers and new files, under tags 1, 2, 9, 3, 4, 5 and 7 |
| VersionEditItems.PointerIsMisread | src/leveldb/__detail/version_edit.cc:91-95 | a compact pointer that was written is read as the deleted file of its level and the length of its key, and the key's bytes as fields |
| VersionEditItems.TagAlone | src/leveldb/__detail/version_edit.cc:135-194 | a tag with nothing behind it is an error that names its field |
| VersionEditItems.UnknownTagRefused | src/leveldb/__detail/version_edit.cc:190-192 | after any accepted fields another tag is an unknown tag, whatever follows |
| VersionEditItems.NoTagRefused | src/leveldb/__detail/version_edit.cc:196-198 | after any accepted fields bytes that are no tag are an invalid tag |
| VersionEditItems.LevelRefused | src/leveldb/__detail/version_edit.cc:115-121 | levels from 7 on are refused, in deleted and in new files |
| VersionSets.VersionSet.LogAnyApply | src/leveldb/__detail/version_set.cc:190-262 | the edit gets the object's sequence number and next file number, each log number is its own or else the object's, and nothing else of it changes; its compaction pointers are adopted, a manifest is started with a snapshot of them if there is none, the edit is appended, and its log numbers are adopted |
| VersionSets.VersionSet.MarkFileNumberUsed | src/leveldb/__detail/version_set.cc:403-407 | a counter above the number stays; otherwise it becomes the one after the number, and 0 after the largest |
| VersionSets.VersionSet.ReplayLog | src/leveldb/__detail/version_set.cc:309-347 | the loop over the manifest's records replays their edits |
| VersionSets.VersionSet.Recover | src/leveldb/__detail/version_set.cc:298-391 | status and counters after recovery from any file |
| RecoverVerdicts.RecoverIff | src/leveldb/__detail/version_set.cc:309-360 | any file: recovery succeeds exactly if reading it reports nothing, every record decodes well for this comparator or none, and a next file number, a log number and a sequence number each occur |
| RecoverVerdicts.RecoverFinds | src/leveldb/__detail/version_set.cc:330-345 | each scalar that is found is that of the last record that has it |
| RecoverVerdicts.BadRecord | src/leveldb/__detail/version_set.cc:318-326 | the first record that is refused decides the status: its decoding error, or a comparator that does not match |
| RecoverVerdicts.DamagedManifest | src/leveldb/__detail/version_set.cc:270-276 | if all records are acceptable the first report decides |
| RecoverVerdicts.MissingScalar | src/leveldb/__detail/version_set.cc:352-360 | if there is no report either, the first scalar that is missing does, in the order next file, log, sequence |
| VersionSets.ReplayLogged | src/leveldb/__detail/version_set.cc:316-346 | replaying a log of readable edits overrides each scalar by the last edit that has it |
| VersionSets.CrashConsistent | src/leveldb/__detail/version_set.cc:269-391 | a manifest cut anywhere recovers the scalars of its last complete edit, or fails for want of one |
| VersionSets.RecoverRestores | src/leveldb/__detail/version_set.cc:225-249 | a whole manifest recovers the scalars of the last edit that was logged |
| VersionSets.RecoverAsWritten | src/leveldb/__detail/version_set.cc:309-391 | for any edits and the writer as written: recovery restores the last edit that fits if all but the last fit in one fragment, so a lost last edit gives older scalars in silence, and fails on a partial record if an earlier one does not fit |
| VersionSets.RecoveredNumbersAreNew | src/leveldb/__detail/version_set.cc:366-378 | after recovery the next file number exceeds the manifest's number and every log number in the manifest |
| VersionSets.MarksAreOverwritten | src/leveldb/__detail/version_set.cc:366-378 | recovery from any manifest leaves the counter above both log numbers exactly if the next file number of the last edit is not below them and can be incremented |
| VersionSets.PrevLogNumberReused | src/leveldb/__detail/version_set.cc:366-378 | a manifest of two edits: recovery from its bytes leaves the counter at 6, and file 100, its previous log, is handed out again after 94 others, although the marks would have prevented it |
| ManifestRuns.NewDb | src/leveldb/db_impl.cc:160-184 | the bytes of the first manifest of a database |
| ManifestRuns.FirstRecovers | src/leveldb/db_impl.cc:160-184 | recovery from it succeeds with log 0, next file 2 and sequence 0, with the writer as written if its one edit fits in a fragment |
| ManifestRestarts.FirstBytes | src/leveldb/db_impl.cc:161-176 | its one record: the comparator's name under tag 1, log 0 under tag 2, next file 2 under tag 3, sequence 0 under tag 4 |
| ManifestRuns.LogEdit | src/leveldb/__detail/version_set.cc:190-262 | on the object, log_any_apply does what it does to counters and history, whatever the edit |
| ManifestRuns.OneSession | src/leveldb/__detail/version_set.cc:190-391 | recover, any acts, crash: what survives is a cut of the session's manifest from the time CURRENT names it, and the old manifest before |
| ManifestRestarts.LogAndReopen | src/leveldb/__detail/version_set.cc:202-249 | log an edit and open the manifest with a new object: it has the sequence and log numbers of the old one, its manifest number is the old next file number and its next file number the one after |
| ManifestRestarts.CrashAndReopen | src/leveldb/__detail/version_set.cc:190-391 | open, any acts, a crash at any byte, open again: the counters are those at the time of the last edit that survived, the sequence number the largest advanced to before it; if none survived, those that the session began with |
| ManifestRestarts.RunLargest | src/leveldb/__detail/version_set.cc:264-267 | the sequence number of an object is the largest that it was advanced to |
| ManifestRuns.SurvivingRecovers | src/leveldb/__detail/version_set.cc:237-249 | recovery after the crash succeeds, with the last edit that survived or with the scalars of the old manifest |
| ManifestRuns.LifeNumbers | src/leveldb/__detail/version_set.cc:366-378 | after any sessions and crashes in which the counter never wraps, the next file number is beyond the manifest's and every log number in the manifest that is found |
| ManifestRuns.Life | src/leveldb/__detail/version_set.cc:190-391 | a new database, any number of sessions with any acts and crashes at any byte: the last recovery succeeds with the counters of the last edit that survived, and with new file numbers; with the writer as written if each edit fits in one fragment |
| SkipOrder.RankSplits | include/leveldb/__detail/skip_list.h:256-260 | in sorted keys exactly those before the rank of a key are smaller |
| SkipOrder.InsertSorted | include/leveldb/__detail/skip_list.h:365-373 | a new key put in at its rank keeps the keys sorted |
| SkipOrder.RaiseOne | include/leveldb/__detail/skip_list.h:371-372 | linking one node at one level changes the successor of its predecessor there and of no other node |
| SkipOrder.InsertUnlinked | include/leveldb/__detail/skip_list.h:365 | a node that is not linked changes no successor |
| SkipLists.LinkLevel | include/leveldb/__detail/skip_list.h:371-372 | the two stores at one level link the node there and keep every other link right |
| SkipLists.LinkNode | include/leveldb/__detail/skip_list.h:366-373 | the loop links the node at all its levels, and its links are final |
| SkipLists.SkipList.constructor | include/leveldb/__detail/skip_list.h:327-338 | an empty list with one level in use and the seed 0xdeadbeef, masked |
| SkipLists.SkipList.FindGreaterOrEqual | include/leveldb/__detail/skip_list.h:263-283 | returns the first node whose key is not smaller, fills `prev` with the predecessors at every level in use, and ends |
| SkipLists.SkipList.FindLessThan | include/leveldb/__detail/skip_list.h:286-304 | returns the last node with a smaller key, or the head |
| SkipLists.SkipList.FindLast | include/leveldb/__detail/skip_list.h:307-324 | returns the last node, or the head |
| SkipLists.SkipList.Contains | include/leveldb/__detail/skip_list.h:377-384 | true exactly if an equal key is in the list |
| SkipLists.SkipList.RandomHeight | include/leveldb/__detail/skip_list.h:244-254 | a height from 1 to 12, the one that `DrawnIs` characterises for the generator's seed, and the seed after as many draws |
| SkipLists.DrawnIs | include/leveldb/__detail/skip_list.h:244-254 | the height is one more than the number of draws before the first that 4 does not divide, and 12 at most |
| SkipLists.SkipList.RaiseMaxHeight | include/leveldb/__detail/skip_list.h:351-363 | the head is recorded as predecessor at the levels that come into use |
| SkipLists.SkipList.Insert | include/leveldb/__detail/skip_list.h:341-374 | adds exactly the new key, at its place in the order and with the height drawn from the seed, raises the list's height to it, and keeps sortedness, the other heights and all links |
| SkipLists.SkipList.MemberAtPosition | include/leveldb/__detail/skip_list.h:348 | an equal key is in the list exactly if the node found has an equal key |
| SkipLists.Iterator.Next | include/leveldb/__detail/skip_list.h:209-212 | moves to the next position |
| SkipLists.Iterator.Prev | include/leveldb/__detail/skip_list.h:215-223 | moves to the position before, or past the end from the first |
| SkipLists.Iterator.Seek | include/leveldb/__detail/skip_list.h:226-228 | moves to the position of the target |
| SkipLists.Iterator.SeekToLast | include/leveldb/__detail/skip_list.h:236-241 | moves to the last position, or past the end of an empty list |
| SkipLists.NextThenPrev | include/leveldb/__detail/skip_list.h:209-223 | `prev` undoes `next`, but for the step off the end |
| SkipLists.Scan | include/leveldb/__detail/skip_list.h:209-233 | a walk from the first node sees all keys in order |
| ConcurrentSkipLists.StepKeepsInv | include/leveldb/__detail/skip_list.h:263-374 | every single load or store of the writer or a reader keeps the invariant |
| ConcurrentSkipLists.RunIsSafe | include/leveldb/__detail/skip_list.h:263-374 | in every interleaving each step touches allocated cells only, whatever new cells hold and however stale a reader's height is |
| ConcurrentSkipLists.LevelsAreSorted | include/leveldb/__detail/skip_list.h:366-373 | in every reachable state the links of every level form a finite list with strictly ascending keys |
| ConcurrentSkipLists.LevelsAreNested | include/leveldb/__detail/skip_list.h:366-373 | in every reachable state every level is part of the level below |
| ConcurrentSkipLists.PathUnique | include/leveldb/__detail/skip_list.h:366-373 | the links of a level determine its list |
| ConcurrentSkipLists.FindIsAtomic | include/leveldb/__detail/skip_list.h:264-324 | each concurrent `find_greater_or_equal`, `find_less_than`, `find_last` and step of an iterator returns the ceiling, the strict predecessor, the last cell or the successor in the list of level 0 at the instant of its last load |
| ConcurrentSkipLists.LevelChanges | include/leveldb/__detail/skip_list.h:371-372 | only the store into the predecessor changes a level, and it adds the one new cell |
| ConcurrentSkipLists.LinkedStays | include/leveldb/__detail/skip_list.h:366-373 | a cell linked at a level stays linked there in every later state |
| ConcurrentSkipLists.FindSeesLinked | include/leveldb/__detail/skip_list.h:264-283 | a search that returns after a key was linked finds the cell of that key |
| ConcurrentSkipLists.IdleIsComplete | include/leveldb/__detail/skip_list.h:366-373 | between inserts every cell is on exactly the levels that it has links for |
| ConcurrentSkipLists.AssertionHolds | include/leveldb/__detail/skip_list.h:348 | in every run the writer's search never ends at an equal key |
| ConcurrentSkipLists.LessThanAssertion | include/leveldb/__detail/skip_list.h:290 | in every run, before every load of a concurrent `find_less_than`, the cell it stands at is the head or has a smaller key |
| ConcurrentScans.ScanAscends | include/leveldb/__detail/skip_list.h:209-233 | the keys that an iterator sees on its way from the head to the end ascend, whatever is inserted meanwhile |
| ConcurrentScans.ScanSeesLinked | include/leveldb/__detail/skip_list.h:209-233 | such a scan sees every cell that was linked at level 0 before it began |
| ConcurrentScans.ScanSeesOnlyLinked | include/leveldb/__detail/skip_list.h:209-212 | each cell that it comes to is in the list at that time |
| ConcurrentProgress.KeysAreInserted | include/leveldb/__detail/skip_list.h:341-366 | in every reachable state the cells in order of allocation, with the insert under way, hold the keys that inserts were called with, in order |
| ConcurrentProgress.HeightsAreDrawn | include/leveldb/__detail/skip_list.h:350-365 | and have the heights that were drawn for them |
| ConcurrentProgress.ListIsInserted | include/leveldb/__detail/skip_list.h:341-374 | between inserts the lowest level, followed from the head, holds exactly the keys inserted |
| ConcurrentProgress.WriterGetsOn | include/leveldb/__detail/skip_list.h:341-374 | every step of an insert brings it closer to its end, and no reader's step delays it |
| ConcurrentProgress.WriterIsNeverStuck | include/leveldb/__detail/skip_list.h:341-374 | an insert that has not ended has a next step, and a bounded number of them left |
| ConcurrentProgress.NobodyWaits | include/leveldb/__detail/skip_list.h:264-374 | a reader can take its next step in any state, and an insert of a new key can begin whenever none is under way |
| ConcurrentProgress.SearchIsBounded | include/leveldb/__detail/skip_list.h:264-324 | whatever the writer does meanwhile, a search makes at most as many loads as there are cells and levels |
| CacheSpec.EvictDrops | src/leveldb/cache.cc:297-304 | the eviction loop drops the shortest prefix of the idle entries, oldest first, that makes the rest fit, or all of them |
| CacheSpec.InsertSpec | src/leveldb/cache.cc:272-307 | `insert` binds the key to the new entry, which its caller holds once, displaces the old one, and evicts such a prefix; without capacity it caches nothing |
| CacheSpec.PruneDrops | src/leveldb/cache.cc:327-337 | `prune` drops all idle entries, oldest first |
| CacheSpec.DoKeeps | src/leveldb/cache.cc:258-337 | every operation keeps the cache consistent and loses no entry |
| CacheSpec.RunKeeps | src/leveldb/cache.cc:258-337 | so does every sequence of operations, and deleter calls are only ever added |
| CacheSpec.Lifetimes | src/leveldb/cache.cc:223-320 | after any run each entry ever inserted is cached, held, or was deleted exactly once, and no entry was deleted while cached or held |
| CacheSpec.Destroyed | src/leveldb/cache.cc:211-221 | once all handles are released, deleted and idle entries together are all that were inserted, each once |
| CacheOrder.IdleByRelease | src/leveldb/cache.cc:238-241 | after any run the idle entries are in the order of their last release, the latest newest |
| CacheOrder.EvictedFirst | src/leveldb/cache.cc:297-304 | each entry that an insert evicts was last released before every idle entry that stays |
| HandleTables.HandleTable.constructor | src/leveldb/cache.cc:73-76 | an empty table with buckets |
| HandleTables.HandleTable.FindPointer | src/leveldb/cache.cc:119-125 | returns the link to the entry with this key and hash, or else the last link of the bucket, so that the link holds what the map has |
| HandleTables.Masked | src/leveldb/cache.cc:120 | `hash & (length - 1)` is the remainder by the length, as the length is a power of two |
| HandleTables.HandleTable.LookUp | src/leveldb/cache.cc:79-81 | returns what the map from key and hash to entry has |
| HandleTables.HandleTable.Insert | src/leveldb/cache.cc:83-97 | updates the map at one key, returns the entry displaced, and keeps the count exact and at most the number of buckets |
| HandleTables.HandleTable.Remove | src/leveldb/cache.cc:99-107 | removes one key from the map and returns its entry |
| HandleTables.HandleTable.Resize | src/leveldb/cache.cc:127-151 | relinks every entry in place into its new bucket without changing the map; the number of buckets becomes the smallest power of two, from 4 on, that is not below the count |
| HandleTables.NewLength | src/leveldb/cache.cc:128-131 | the smallest power of two from 4 on that is not below the count |
| HandleTables.MoveBucket | src/leveldb/cache.cc:136-146 | the inner loop moves all entries of one bucket and counts them |
| HandleTables.Rehash | src/leveldb/cache.cc:132-147 | the loops move every entry once, and the count agrees with the number of entries |
| LruRings.LruRemove | src/leveldb/cache.cc:245-248 | takes one entry out of its ring and leaves the other ring alone |
| LruRings.LruAppend | src/leveldb/cache.cc:250-256 | makes an entry the newest of a ring and leaves the other ring alone |
| LruCaches.EraseSteps | src/leveldb/cache.cc:322-325 | removing from the table and finishing is forgetting the entry |
| LruCaches.BindSteps | src/leveldb/cache.cc:286-293 | appending the new entry, replacing the old one in the table and finishing the old one is binding the new one |
| LruCaches.LruCache.constructor | src/leveldb/cache.cc:201-209 | an empty cache without capacity |
| LruCaches.LruCache.Ref | src/leveldb/cache.cc:223-229 | an idle entry moves to the ring of those in use, and its count goes up |
| LruCaches.LruCache.UnRef | src/leveldb/cache.cc:231-243 | the last reference runs the deleter, the last client's makes a cached entry idle, and no assertion fails |
| LruCaches.LruCache.FinishErase | src/leveldb/cache.cc:309-320 | an entry that left the table leaves its ring, the usage and the cache's reference behind |
| LruCaches.LruCache.LookUp | src/leveldb/cache.cc:258-265 | returns the entry of the key and references it, as the specification does |
| LruCaches.LruCache.Release | src/leveldb/cache.cc:267-270 | gives one reference back, as the specification does |
| LruCaches.LruCache.Insert | src/leveldb/cache.cc:272-307 | rings, table, counts, usage and deleter calls end as the specification's insert of a new entry, and nothing but the cache's own objects and that entry can be reached afterwards |
| LruCaches.LruCache.EvictToFit | src/leveldb/cache.cc:297-304 | the loop evicts as the specification does; each eviction removes the oldest idle entry itself from the table |
| LruCaches.LruCache.Erase | src/leveldb/cache.cc:322-325 | forgets the entry of the key, as the specification does |
| LruCaches.LruCache.Prune | src/leveldb/cache.cc:327-337 | forgets all idle entries, as the specification does |
| LruCaches.LruCache.TotalCharge | src/leveldb/cache.cc:170-173 | the usage is the sum of the charges of all cached entries |
| LruCaches.LruCache.Destroy | src/leveldb/cache.cc:211-221 | the deleters of all idle entries run once, oldest first, and no assertion fails |
| LruRuns.Serve | src/leveldb/cache.cc:258-337 | any commands of any clients, one after the other, leave the object as the run of their operations leaves the specification |
| LruRuns.RunCommands | src/leveldb/cache.cc:201-337 | a new cache and any commands: every entry inserted is alive or had its deleter called once, never both, and a live one counts its clients' handles and the cache's reference; the idle ones are on the ring in the order of their last release |
| LruRuns.WholeLife | src/leveldb/cache.cc:201-337 | from the constructor to the destructor, with all handles given back, the deleter of every entry inserted runs exactly once |
| ShardedCaches.ShardsAreIndependent | src/leveldb/cache.cc:342-400 | in any run each shard ends as a cache of its own that only saw the operations for it |
| ShardedCaches.Shard | src/leveldb/cache.cc:352 | the shift selects one of sixteen shards, by the top four bits |
| ShardedCaches.ShardedLifetimes | src/leveldb/cache.cc:363-388 | after any run each entry ever inserted is cached, held or was deleted once in the shard of its hash, and no other shard knows it |
| ShardedCaches.CapacityIsShared | src/leveldb/cache.cc:356-362 | the shards together have the capacity asked for, and exceed it by fifteen at most if each keeps to its own |
| ShardedRuns.AskAny | src/leveldb/cache.cc:363-391 | a command to sixteen cache objects does to their states what the operation does to the specification, and leaves the objects of each apart |
| ShardedRuns.RunAllCommands | src/leveldb/cache.cc:342-400 | sixteen new caches and any commands: each entry inserted is known to the object of its hash alone, which keeps it alive or has called its deleter once |
| ShardedRuns.TotalChargeOf | src/leveldb/cache.cc:392-398 | the loop gives the total of the specification |
| Arenas.Arena.AllocateNewBlock | src/util/arena.cc:60-66 | adds one block and counts it with its pointer |
| Arenas.Arena.AllocateFallback | src/util/arena.cc:22-38 | a large object has a block of its own, any other starts a new block of 4096 bytes |
| Arenas.Arena.Allocate | include/util/arena.h:55-67 | hands out a region apart from all others inside an owned block, makes a block exactly if the current one is too short, and gives up at most 1030 bytes of a block |
| Arenas.Arena.AllocateAligned | src/util/arena.cc:40-58 | the same, aligned to eight bytes |
| Limiters.StepKeepsInv | src/leveldb/__detail/posix_env.cc:65-81 | each atomic step keeps permits allowed, held and about to be given back adding up |
| Limiters.NeverTooMany | src/leveldb/__detail/posix_env.cc:65-81 | in every reachable state of any number of threads at most the maximum is held, and the counter is bounded below by the number of threads |
| Limiters.AssertionsHold | src/leveldb/__detail/posix_env.cc:69-80 | both assertions hold at every step of every run |
| Limiters.FailureIsJustified | src/leveldb/__detail/posix_env.cc:65-74 | an acquire fails exactly if all permits are held or about to be given back |
| Randoms.Folded | include/util/random.h:40 | `(product >> 31) + (product & M)` is the sum of quotient and remainder by 2^31 |
| Randoms.FoldCorrect | include/util/random.h:38-45 | that sum fits in 32 bits, and less M if it exceeds M it is the remainder of the product by M |
| Randoms.Random.constructor | include/util/random.h:20-26 | bad seeds become 1 |
| Randoms.Random.Next | include/util/random.h:27-47 | the next seed is 16807 times the last modulo 2^31-1 and again a seed |
| Randoms.Injective | include/util/random.h:33-35 | no two seeds have the same successor |
| Randoms.Surjective | include/util/random.h:33-35 | every seed is the successor of a seed |
| RandomPeriods.NoShorterPeriod | include/util/random.h:33-35 | no fewer than 2^31-2 steps lead from seed 1 back to it, by the prime factors of 2^31-2 |
| RandomPeriods.FullCycle | include/util/random.h:33-35 | from every seed the generator cycles through every number from 1 to 2^31-2 |
| Randoms.StaysInRange | include/util/random.h:33-35 | a seed never becomes 0 or 2^31-1 |
| DbFormats.CompareIsOrder | src/leveldb/__detail/db_format.cc:20-33 | `compare` is a total order on internal keys that tells different keys apart |
| DbFormats.InternalByte | src/leveldb/__detail/db_format.cc:10-14 | behind the user key come the type and the seven bytes of the sequence number, lowest first, and sequence numbers are those that fit |
| DbFormats.SeekKeyBytes | include/leveldb/__detail/db_format.h:30-36 | the seek key's number is the value type and seven bytes of ones |
| DbFormats.CompareByParts | src/leveldb/__detail/db_format.cc:10-33 | user keys ascend, then sequence numbers and types descend |
| DbFormats.SeekKeyIsFirst | include/leveldb/__detail/db_format.h:30-36 | the seek key comes before all other entries of its user key |
| DbFormats.BeforeLimit | src/leveldb/__detail/db_format.cc:47 | exactly when the second assertion holds |
| DbFormats.FindShortestSeparator | src/leveldb/__detail/db_format.cc:39-50 | for any user separator the result is from start on and no longer, it is shortened exactly where the code does, the first assertion holds, and the second holds exactly if it is stated to; it always does if the user keys are in order and the separator lies between them |
| DbFormats.FindShortSuccessor | src/leveldb/__detail/db_format.cc:52-61 | the result is from the key on and no longer, it is shortened exactly where the code does, and the assertion holds |
| FileNames.ConsumeDecimalNumber | src/util/logging.cc:9-33 | succeeds exactly if there are digits and all of them together fit in 64 bits; then value and rest are those of the whole run |
| FileNames.OverflowTest | src/util/logging.cc:23-25 | the test before each digit is exact |
| FileNames.PaddedValue | src/leveldb/__detail/filename.cc:13-18 | a padded number denotes the number |
| FileNames.ParseFileName | src/leveldb/__detail/filename.cc:75-115 | finds number and type of every name that stands for a file, and rejects all other names |
| FileNames.StandsForOne | src/leveldb/__detail/filename.cc:75-115 | no name stands for two numbers or types |
| FileNames.PrintedStands | src/leveldb/__detail/filename.cc:20-28 | every printed log, table or temporary file name stands for its number and type |
| FileNames.ParsePrinted | src/leveldb/__detail/filename.cc:13-54 | parsing a printed name gives back its number and type |

## Left out

- The hardware CRC and the check whether to use it (`port::AcceleratedCRC32C` is not part of this model).
- I/O errors: files and memory are always there. A file is a byte sequence and `read(n)` is short only at its end.
- `initial_offset` other than 0 in the log reader, with resynchronising and record offsets.
- `reuse_manifest`, file lists, `builder`, `save_to` (a TODO in the source), `finalize` and compaction: recovery is modelled for the scalar fields and the comparator's name.
- VersionSets.VersionSet.LogAnyApply: demands a manifest number above 0 for a new manifest, as its file name asserts; the version's own file lists are not written to the snapshot; compaction pointers are keys that are not empty, as `internal_key::encode` asserts.
- LogDamage.DamageConfined: covers bursts of up to four bytes in the type and payload of one fragment; a damaged length or checksum field is caught or not depending on the bytes after it.
- `db_impl`, `write_batch`, the memory table, `posix_env` beyond `limiter`, the filter policies, the bytewise comparator (empty in the source) and `env`: stubs or I/O plumbing.
- `sharded_lru_cache::new_id` and its empty destructor; `Hash` is any function to 32 bits.
- Overflow of `usage_`, `refs`, `elems_` and `memory_usage_`, which are natural numbers here.
- ConcurrentSkipLists.FindIsAtomic: steps are sequentially consistent but for the readers' heights, which may be as old as they like.
- The assertion `next != this` in `lru_handle::key`.
- LruCaches.LruCache.Insert: runs under the mutex; freed entries are not reused, so a handle stands for one entry only.
- SkipLists.SkipList.RandomHeight: the height for each seed; nothing is said about how often each is drawn over a period.
- Arenas.Arena.Allocate: the address of a new block is a parameter that the memory allocator chooses.
- `set_current_file` and the fixed file names other than in the parser.
- `uniform` and `skewed` of the generator.
