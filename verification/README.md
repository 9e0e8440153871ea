# GICS in Dafny

GICS is a lossless codec for time series of snapshots, a segmented container whose parts are chained by hashes, and a
small storage daemon. This project models its hard parts and proves what they are for:

- **Codecs** (`bytes`, `varint`, `bits`, `bitpack`, `frameofreference`, `xorfloat`, `fixed64`, `fieldmath`): every
  integer and bit-pattern codec is a pair of functions with a round-trip theorem, and the source's loops, bit writers
  and in-place buffers are methods proved to compute them.
- **Shared context** (`context`, `blocks`, `metrics`, `drivers`, `segmentcodec`, `pipeline`): encoder and decoder replay
  one dictionary ring and one set of carried values. The theorems hold for every cutting into blocks, codec choice and
  quarantine route, and the encoder's own loops, codec selection and health monitor are proved to produce one of them.
  The VALUE stream is decoded exactly if and only if no delta-of-delta block meets a carried delta; the segment theorem
  is an equivalence.
- **Layout** (`snapshots`, `layout`, `grouping`): flattening, item-major transposition and segment grouping lose
  nothing, up to the 16-bit item count of the header.
- **Container** (`bloom`, `segmentindex`, `sections`, `integrity`, `container`, `gicsfile`, `decoder`, `append`,
  `sizes`, `tamper`): bytes of sections, indexes, segments and files, the parsers that find them again, the hash chain,
  queries, verification and appending; `sizes` bounds what the encoder writes, so that no field of an ordinary segment
  overflows, and `tamper` says what the readers refuse once a sealed file has been changed.
  Compression, the cipher, SHA-256 and the container's CRC are function parameters with the equations the format needs.
- **Write-ahead log** (`wal`, `crc`, `walframing`, `walrecovery`, `walruntime`): replay is a plain fold over the
  operations in every run, torn tails keep whole batches, the table CRC is the bit-serial CRC-32 of section 8 of RFC 1952.
- **Locks** (`rwlock`, `markerlock`), **state index** (`stateindex`), **sessions** (`rotation`, and over real files
  `sessionfiles`) and **quarantine** (`health`, and over the block driver `quarantine`): state machines over all
  interleavings or all runs.

Integers are mathematical and inputs bounded by 2^49 in absolute value, which keeps every number the codecs write
within 2^53 (`Blocks.NumbersAreSafe`, `Blocks.PackedAreSafe`), where doubles are exact. Classes carry the source's
mutable fields; each method states its new state through the functions the theorems are about.

Where the code does less than its design, the code is modelled, with a counterexample and the exact condition:

| what | counterexample | condition |
|---|---|---|
| DOD-coded VALUE blocks are read on a delta the encoder never carried: 60, 120, 240, 360 and 420, 480, 600, 720 in blocks of four | `Drivers.CarriedDeltaBreaksValues` | `Blocks.ValueStreamExact` |
| item-major segments keep 16 bits of the item count | `Layout.TooManyItems` | `SegmentCodec.SegmentExact` |
| a file can pass verification and not decode: two snapshots of the same 65537 ids, default options | `Sizes.SealWide` | `GicsFile.VerifiedMayNotDecode` |
| sealing before the first snapshot leaves a file that neither verifies nor ever decodes | `Append.EmptySealIsFatal` | `Append.GICSv2Encoder.Seal` |
| compaction behind a delete lowers the LSN a restart continues from | `Wal.DeleteThenCompact` | `Wal.NextWriteKept` |
| falling back behind a compaction can revive deleted keys | `Wal.DeletedKeyRevives` | `Wal.OldCheckpointExact` |
| a shared waiter can be overtaken, and only behind a timeout | `RWLock.SharedIsOvertaken` | `RWLock.GrantedAtOnce`, `RWLock.HeadExact` |
| the index depends on reading order | `StateIndex.TieDepends`, `StateIndex.TombstoneOfTombstoneDepends` | `StateIndex.ConvergesExact` |
| a live index need not equal its rebuild: a delete whose tombstone is refused | `StateIndex.BuriedDelete` | `StateIndex.LiveExact` |
| a damaged part can vanish from the middle of a session: the same snapshot in three parts | `Rotation.LoseMiddle`, `SessionFiles.EqualPartsLoop` | `Rotation.PrefixExact` |
| a footer's root is outside its CRC and only verification reads it: another one is refused there and decoded as before | `Tamper.FooterRootIsVerifiedOnly` | `Tamper.FooterRootIsVerifiedOnly` |
| reopening takes the root in the end record on trust, without its CRC | `Append.ReopenTrustsEndRecord` | `Append.ReopenTrustsEndRecord` |
| a sealed session need not read back | `Drivers.CarriedDeltaBreaksValues`, `Sizes.SealWide` | `SessionFiles.SessionExact`, `SessionFiles.EncodedSessionExact` |
| a quarantine can be without end: a price at 0 for two blocks of eight, then at 1 | `Quarantine.EndlessQuarantine` | `Quarantine.QuarantineEnds` |

## Model

| member | source | states |
|---|---|---|
| Bytes.FromLEToLE | src/gics/stream-section.ts:25-36 | a little-endian field wide enough for its value reads back as written |
| Varint.ZigZagBijection | src/gics-utils.ts:21-21 | zigzag and its inverse undo each other on every integer |
| Varint.VarintRoundTrip | src/gics-utils.ts:16-59 | decoding an encoded integer list gives the list |
| Varint.DecodeVarintAppend | src/gics-utils.ts:38-59 | an encoding followed by any bytes decodes to the list followed by whatever those bytes decode to |
| Varint.DecodeVarintCountAppend | src/gics-utils.ts:132-151 | decodeVarintN on an encoding with anything behind it gives exactly the list and the length of its encoding |
| Varint.StrictRejectsPrefix | src/gics-utils.ts:115-130 | decodeVarintAt rejects every proper prefix of a varint |
| Varint.EncodeVarint | src/gics-utils.ts:16-33 | the byte-pushing loop computes the varint encoding |
| Varint.DecodeVarint | src/gics-utils.ts:38-59 | the accumulating loop computes the varint decoding of any bytes, cut varints included |
| Varint.DecodeVarintAt | src/gics-utils.ts:115-130 | the loop finds the first varint and the position behind it, or fails if it is cut |
| Varint.DecodeVarintN | src/gics-utils.ts:132-151 | the nested loops find the first n varints and the position behind them, or fail |
| Varint.RleRoundTrip | src/gics-utils.ts:68-113 | run-length decoding inverts run-length encoding on every list, whatever its runs |
| Varint.EncodeRLE | src/gics-utils.ts:68-90 | the run-counting loop, runs capped at 255, computes the encoding |
| Varint.DecodeRLE | src/gics-utils.ts:92-113 | the expansion loop computes the decoding of any bytes |
| Bits.UnpackPack | src/gics/codecs.ts:408-471 | packing bits into bytes and back gives the bits and zero padding |
| Bits.SetBitInBytes | src/gics/codecs.ts:79-92 | OR-ing one bit into one byte changes exactly that bit of the byte string |
| Bits.GroupsOfFlatBits | src/gics/codecs.ts:97-126 | fixed-width groups of concatenated numbers are the numbers |
| Bits.BitWriter.WriteBit | src/gics/codecs.ts:413-424 | appends one bit to what has been written, across byte boundaries |
| Bits.BitWriter.WriteBits | src/gics/codecs.ts:426-431 | appends the low bits of a value, least significant first |
| Bits.BitWriter.Finish | src/gics/codecs.ts:433-440 | returns the bytes that hold exactly the written bits |
| Bits.BitReader.ReadBit | src/gics/codecs.ts:449-458 | takes the next bit, null at the end |
| Bits.BitReader.ReadBits | src/gics/codecs.ts:460-471 | takes the next bits as a number, short at the end |
| Bits.ReaderInvertsWriter | src/gics/codecs.ts:408-471 | a reader on a writer's output sees every written bit and then fewer than eight zeros |
| BitPack.BitPackRoundTrip | src/gics/codecs.ts:53-126 | BitPack decoding inverts encoding for every list in range |
| BitPack.WriteOne | src/gics/codecs.ts:79-92 | each bit write adds its bit and leaves the earlier ones |
| BitPack.EncodeBitPack | src/gics/codecs.ts:53-95 | the in-place loop over the zeroed buffer computes the encoding |
| BitPack.DecodeBitPack | src/gics/codecs.ts:97-126 | the bit loop computes the decoding of any bytes, short data included |
| FrameOfReference.ForRoundTrip | src/gics/codecs.ts:238-321 | FOR decoding inverts encoding for every list in range |
| FrameOfReference.ForRejectsPrefix | src/gics/codecs.ts:282-321 | decodeFOR rejects every proper prefix of an encodeFOR output for the original count |
| FrameOfReference.EncodeFOR | src/gics/codecs.ts:238-280 | the minimum, residual and bit-writing loops compute the encoding |
| FrameOfReference.DecodeFOR | src/gics/codecs.ts:282-321 | the checks and the bit-reading loop compute the decoding or the rejection of any bytes |
| XorFloat.HeaderFieldsFit | src/gics/codecs.ts:28-46 | a non-zero xor splits into leading zeros, a non-empty span and trailing zeros, and all three header fields fit six bits |
| XorFloat.ClampsAreNoOps | src/gics/codecs.ts:385-400 | the decoder's clamps change nothing on what the encoder writes |
| XorFloat.XorRoundTrip | src/gics/codecs.ts:329-405 | XOR-float coding is the identity on every sequence of 64-bit patterns |
| XorFloat.EncodeXorFloat | src/gics/codecs.ts:329-367 | the loop over a BitWriter computes the encoding |
| XorFloat.DecodeXorFloat | src/gics/codecs.ts:369-405 | the loop over a BitReader computes the decoding of any bytes |
| Fixed64.ToIntToDouble | src/gics/codecs.ts:189-197 | a safe integer survives its IEEE-754 bit pattern |
| Fixed64.PowersOfTwo | src/gics/codecs.ts:189-197 | plus or minus a power of two is written with its sign bit, its exponent biased by 1023 and no fraction |
| Fixed64.Fixed64RoundTrip | src/gics/codecs.ts:189-233 | FIXED64 decoding inverts encoding for safe integers |
| FieldMath.TimeRoundTrip | src/gics/field-math.ts:5-41 | time decoding inverts delta-of-delta coding from any equal carried state, and both end in equal states |
| FieldMath.DeltaRoundTrip | src/gics/field-math.ts:43-79 | plain value deltas are inverted, whatever delta is carried |
| FieldMath.DriftedAt | src/gics/field-math.ts:59-79 | entry j of a drifted list is the true value plus (j + 1) times the carried delta |
| FieldMath.DodDrift | src/gics/encode.ts:1388-1398 | a DOD-coded block decodes to the drifted list for the decoder's carried delta |
| FieldMath.DodExact | src/gics/field-math.ts:59-79 | a non-empty DOD-coded block is decoded exactly if and only if the carried delta is zero |
| FieldMath.ComputeTimeDeltas | src/gics/field-math.ts:5-22 | the loop carrying prev and prevDelta computes the time coding and its next state |
| FieldMath.DecodeTimeStream | src/gics/field-math.ts:24-41 | the loop computes the time decoding and its next state |
| FieldMath.ComputeValueDeltas | src/gics/field-math.ts:43-57 | the loop computes the deltas and the last value |
| FieldMath.DecodeValueStream | src/gics/field-math.ts:59-79 | the loop computes the value decoding, plain or DOD, and its next state |
| FieldMath.PrepareDODStream | src/gics/encode.ts:1388-1398 | the DOD stream is the deltas of the deltas |
| Context.UpdateCoherent | src/gics/context.ts:91-107 | dictMap[v] = i implies i < length and dictionary[i] = v, through any eviction |
| Context.DictLockstep | src/gics/codecs.ts:143-186 | decodeDict inverts encodeDict from any two contexts with equal rings, and the rings are equal afterwards |
| Context.DictUsed | src/gics/codecs.ts:143-161 | in a ring whose map covers it, a value it holds is one odd code that names its place and leaves the ring as it was; any other value is a literal and is taken in |
| Context.RingDistinct | src/gics/context.ts:91-107 | in every run of encodings from a fresh ring, evictions included, no value stands in the ring twice and the map finds each |
| Context.ContextV0.UpdateDictionary | src/gics/context.ts:91-107 | the ring and its map become those of the specification |
| Context.ContextV0.Restore | src/gics/context.ts:196-206 | brings a captured state back whole |
| Context.ContextV0.EncodeDict | src/gics/codecs.ts:143-161 | the loop writes the codes and moves the ring on |
| Context.ContextV0.DecodeDict | src/gics/codecs.ts:163-186 | the loop decodes non-negative codes, or fails on one out of the dictionary, and moves the ring on |
| Blocks.InnerLockstep | src/gics/decode.ts:1148-1171 | every inner codec is inverted by dispatchCodec and leaves equal dictionaries |
| Blocks.NumbersAreSafe | src/gics/encode.ts:1336-1386 | no number any tried codec writes as a varint, zigzagged, exceeds 2^53 |
| Blocks.PackedAreSafe | src/gics/codecs.ts:238-280 | nor does any number BitPack or FOR packs, nor the minimum in front |
| Blocks.BlockLockstep | src/gics/encode.ts:1123-1199 | after a block of any codec and route the decoder's context agrees with the encoder's |
| Blocks.StreamLockstep | src/gics/encode.ts:432-453 | a TIME, SNAPSHOT_LEN, ITEM_ID or QUANTITY stream is decoded exactly for any codecs and routes, and the contexts agree after it |
| Blocks.ValueBlockExact | src/gics/decode.ts:1126-1142 | a VALUE block is decoded exactly if and only if it is not DOD-coded on a carried delta |
| Blocks.ValueStreamAccepted | src/gics/decode.ts:1126-1142 | a VALUE stream is always accepted, with the right number of values and agreeing contexts |
| Blocks.ValueStreamExact | src/gics/encode.ts:1168-1176 | a multi-block VALUE stream comes back if and only if every DOD block starts on a carried delta of zero |
| Metrics.CalculateBlockMetrics | src/gics/metrics.ts:108-145 | the share of different numbers in a block, and of different steps inside it |
| Drivers.TryAll | src/gics/encode.ts:1336-1386 | the trial loop finds the first smallest candidate and restores the context |
| Drivers.SelectBestCodec | src/gics/encode.ts:1336-1386 | the codec found is the first of the smallest from the snapshot, its size is reported, and the context is back where it was |
| Drivers.BestIsSelected | src/gics/encode.ts:1336-1386 | among the candidates exactly one codec is the first of the smallest |
| Drivers.ProcessStructuralBlock | src/gics/encode.ts:977-1005 | the block and the context after all trials are those of one encoding with the winning codec, the first of the smallest |
| Drivers.ProcessStreamBlock | src/gics/encode.ts:1123-1199 | the tried codec is the first of the smallest; the monitor decides the route from its size and the block's metrics and is updated with what was written, in quarantine as many bytes as came in; block and context are those of one encoding on that route |
| Drivers.CommitState | src/gics/encode.ts:1168-1176 | the state committed for TIME and VALUE |
| Drivers.DecodeOne | src/gics/decode.ts:1120-1146 | decodeBlock computes the block's values and the next context |
| Drivers.DecodeSection | src/gics/decode.ts:1052-1066 | the block loop computes the section's values and the next context |
| Drivers.CarriedDeltaBreaksValues | src/gics/encode.ts:1336-1398 | two blocks of prices for which selection takes DOD_VARINT both times, whatever the dictionary holds, and whose decoding differs from the input |
| Drivers.StepsStayCore | src/gics/chm.ts:101-145 | a fresh monitor routes both blocks of the counterexample to core, without a flag |
| Snapshots.ReconstructFlatten | src/gics/decode.ts:1173-1209 | rebuilding the flattened columns gives the original maps |
| Snapshots.ReconstructDeterminesPrices | src/gics/decode.ts:1173-1209 | columns with another price column rebuild to the same snapshots only if the prices are the same |
| Snapshots.BuildShape | src/gics/decode.ts:1173-1209 | rebuilt snapshots are as many as the timestamps and mention only ids of the column |
| Layout.TransposeTwice | src/gics/decode.ts:1305-1313 | fromItemMajor undoes the encoder's transposition |
| Layout.TransposeLoop | src/gics/encode.ts:610-618 | the nested loops write every cell of the transposition once |
| Layout.RestoreWithPrices | src/gics/decode.ts:1295-1303 | below 65536 items the decoder's layout step undoes the encoder's for any prices |
| Layout.RestoreExact | src/gics/decode.ts:1295-1313 | fromItemMajor leaves no hole exactly when the header's count fits the columns, and then it restores them |
| Layout.HoleyAnswers | src/gics/decode.ts:1173-1209 | rebuilding snapshots from columns with holes answers as restoring them first, or fails where that fails |
| Layout.TooManyItems | src/gics/segment.ts:192-202 | with 65536 items or more an item-major segment is never rebuilt |
| Layout.CollectDataFeatures | src/gics/encode.ts:574-642 | the flattening, detection and transposition loops compute the columns and the layout flag |
| Layout.DetectStableColumns | src/gics/encode.ts:595-608 | the loops say item-major exactly for several snapshots of the same two or more ids |
| SegmentCodec.SectionsRoundTrip | src/gics/encode.ts:432-453 | all five columns come back for any plan, the prices exactly without a carry |
| SegmentCodec.SegmentExact | src/gics/decode.ts:982-993 | for any snapshots, block cutting, codecs and routes a segment decodes to its snapshots if and only if no DOD block meets a carried delta and an item-major count fits 16 bits |
| SegmentCodec.SegmentAlwaysVerifies | src/gics/decode.ts:969-980 | every encoded segment passes the payload check, whatever its item count |
| SegmentCodec.SegmentDecodesExact | src/gics/decode.ts:1295-1313 | an encoded segment decodes to anything at all if and only if its item count fits 16 bits or loses all of them |
| SegmentCodec.TooWideSegment | src/gics/decode.ts:969-980 | two snapshots of the same n ids, n above 65536 and no multiple of it: the segment verifies and never decodes |
| SegmentCodec.DecodedShape | src/gics/decode.ts:1173-1209 | whatever is decoded has as many snapshots and no foreign id |
| Pipeline.EncodeSnapshots | src/gics/encode.ts:380-430 | for some codecs and routes, cut at the block size and, item-major, at whole items, the sections written are the encoding of the snapshots under them |
| Pipeline.ProcessCoreComponents | src/gics/encode.ts:432-453 | the five stream loops on one fresh context compute the encoding of a fitting plan: TIME and SNAPSHOT_LEN cut at the block size, the other three at the item-aligned size |
| Pipeline.ProcessMonitored | src/gics/encode.ts:830-837 | the block loop of TIME and VALUE cuts the whole column into blocks of the given size, the last one perhaps shorter, and codes them in order |
| Pipeline.ProcessStructural | src/gics/encode.ts:839-860 | the same for SNAPSHOT_LEN, ITEM_ID and QUANTITY |
| Pipeline.AlignedWhole | src/gics/encode.ts:1113-1121 | the item-aligned size is a multiple of the snapshots per item: the largest not above the block size if there is one, else one item |
| Grouping.BuildBySize | src/gics/encode.ts:1040-1060 | the loop over a builder computes the groups by size: a group is sealed before its items exceed the limit and once its estimated bytes reach the size limit |
| Grouping.BuildStable | src/gics/encode.ts:1063-1081 | the slicing loop computes the groups of a fixed depth |
| Grouping.DetectStable | src/gics/encode.ts:1087-1111 | says stable exactly for two or more snapshots of the same two or more ids |
| Grouping.BuildSegmentGroups | src/gics/encode.ts:1026-1061 | computes the groups of the buffer |
| Grouping.GroupsExact | src/gics/encode.ts:1026-1061 | the groups concatenate to the buffer, none is empty, and none exceeds the item limit unless it is one snapshot |
| Grouping.BySizeTight | src/gics/encode.ts:1040-1060 | every group by size but the last has reached the size limit or was closed by the item limit, and none had reached the size limit before its last snapshot |
| Grouping.SlicesShape | src/gics/encode.ts:1076-1081 | every group by depth is full but the last, which is not empty |
| Grouping.DepthExact | src/gics/encode.ts:1067-1074 | a depth keeps within the caps, the item limit and the size limit, as far as one snapshot and the minimum allow, if and only if it is at most the one chosen |
| Bloom.NoFalseNegatives | src/gics/segment.ts:10-52 | every added id is reported |
| Bloom.FilterExact | src/gics/segment.ts:10-52 | a filter reports exactly the ids all of whose bits are bits of added ids |
| Bloom.HashesOfOne | src/gics/segment.ts:16-37 | the three hashes of the id 1 |
| Bloom.BloomFilter.Add | src/gics/segment.ts:16-37 | ORs the three bits of an id in place |
| Bloom.BloomFilter.Maybe | src/gics/segment.ts:39-52 | looks at exactly those three bits |
| SegmentIndex.DictRoundTrip | src/gics/string-dict.ts:40-123 | dictionary bytes decode to the dictionary |
| SegmentIndex.IdsRoundTrip | src/gics/segment.ts:116-149 | the boundary between ids and dictionary is found by re-encoding, whatever the dictionary bytes look like as varints |
| SegmentIndex.IndexRoundTrip | src/gics/segment.ts:65-152 | index bytes round-trip with and without a string dictionary |
| SegmentIndex.BuildDict | src/gics/string-dict.ts:23-30 | distinct keys are mapped to their positions |
| SegmentIndex.EncodeStringDict | src/gics/string-dict.ts:40-81 | the loops compute the dictionary bytes |
| SegmentIndex.DecodeStringDict | src/gics/string-dict.ts:86-123 | the loops compute the dictionary, or the failure |
| SegmentIndex.SerializeIndex | src/gics/segment.ts:65-101 | computes the index bytes |
| SegmentIndex.DeserializeIndex | src/gics/segment.ts:103-152 | computes the index, or the failure |
| SegmentIndex.CreateSegmentIndex | src/gics/encode.ts:546-551 | the index made of the distinct ids in order and a filter that every one of them was added to |
| SegmentIndex.ContainsExact | src/gics/encode.ts:546-551 | the index of a segment reports exactly its ids |
| SegmentIndex.FoundExact | src/gics/segment.ts:154-166 | among ascending ids binary search finds exactly those that are there |
| SegmentIndex.Lookup | src/gics/segment.ts:154-166 | filter and binary search on any ids, a filter of no bytes included |
| Sections.ReadManifestBack | src/gics/stream-section.ts:93-101 | manifest bytes read back to the manifest |
| Sections.ReadSectionBack | src/gics/stream-section.ts:41-119 | a section is found again, with its size, whatever follows it |
| Sections.ReadSectionsBack | src/gics/decode.ts:913-932 | the sections of a segment are found again, whatever follows them |
| Sections.SerializeManifest | src/gics/stream-section.ts:25-36 | the loop computes the manifest bytes |
| Sections.Serialize | src/gics/stream-section.ts:41-70 | computes the section bytes |
| Sections.DeserializeManifest | src/gics/stream-section.ts:93-101 | the loop reads the manifest or fails exactly when it is cut |
| Sections.Deserialize | src/gics/stream-section.ts:72-119 | the moving position finds the section at any offset of any bytes, or fails |
| Sections.ExtractSections | src/gics/decode.ts:913-932 | the loop reads the section area, or fails on an overrun |
| Integrity.WrapSections | src/gics/encode.ts:455-471 | the loop gives every section its link of the chain and ends on the root |
| Integrity.AssembleSegment | src/gics/encode.ts:553-572 | header with the true offsets, sections, index and a footer over all of it |
| Integrity.FinishSegment | src/gics/encode.ts:406-430 | the sections are wrapped on the chain and put together with their index; the chain ends on their root |
| Integrity.AdvanceSections | src/gics/decode.ts:964-967 | accepts exactly the sections whose stored hashes continue the chain |
| Container.CutPayloads | src/gics/decode.ts:1052-1066 | concatenated payloads are cut back into their blocks by the manifest |
| Container.UnwrapWrap | src/gics/encode.ts:495-531 | unpacking a wrapped section under its ordinal gives the section |
| Container.WrapAllBack | src/gics/encode.ts:455-471 | all sections come back, their hashes continue the chain and end in the root |
| Container.SegmentBack | src/gics/decode.ts:881-911 | a segment is parsed back whatever follows it, with its index, root, size, chain and sections |
| GicsFile.FileHeaderBack | src/gics/decode.ts:239-268 | a written file header is accepted and its end found |
| GicsFile.EncryptedHeaderExact | src/gics/decode.ts:270-302 | the header of an encrypted file is accepted by a reader with its key and by no other |
| GicsFile.EosBack | src/gics/decode.ts:637-654 | the end record is accepted for its root and no other |
| GicsFile.FrontSegment | src/gics/decode.ts:656-680 | the segment at the front of the data area is parsed, chained and decoded as encoded, and the rest begins right behind it |
| GicsFile.SegsBack | src/gics/decode.ts:611-635 | segments tile the data area, the chain verifies from its seed to the root whether or not they decode, and the decoder's ordinals are the encoder's |
| GicsFile.SealedShape | src/gics/encode.ts:1217-1224 | a sealed file is header, data area and end record, and only the true root is accepted |
| GicsFile.FileDecodes | src/gics/decode.ts:513-565 | a sealed file answers as its segments do, and it always verifies |
| GicsFile.DecodeLogOk | src/gics/decode.ts:611-624 | the decoder answers if and only if every segment's item count survives the header or is lost whole |
| GicsFile.VerifiedMayNotDecode | src/gics/decode.ts:513-590 | every sealed file verifies, and it does not decode if and only if an item-major segment has 65537 items or more and not a multiple of 65536 |
| GicsFile.DecodeLogExact | src/gics/decode.ts:611-624 | the decoder's answer is the input if and only if every segment is exact |
| GicsFile.FileExact | src/gics/decode.ts:85-108 | every sealed file decodes to the snapshots that went in if and only if each segment is exact; it verifies either way |
| GicsFile.SkippedIsEmpty | src/gics/decode.ts:666-669 | a segment a query skips would have contributed nothing |
| GicsFile.QueryIsFilter | src/gics/decode.ts:335-360 | a query on any encoded file that decodes is the full decode filtered by the id |
| Tamper.CrcRefused | src/gics/decode.ts:944-949 | in a sealed file other bytes under a segment's header, index included, are refused by verification, decoding and queries unless they have the stored CRC |
| Tamper.StoredCrcRefused | src/gics/decode.ts:571-573 | any change of a stored segment CRC is refused by all three |
| Tamper.FooterRootIsVerifiedOnly | src/gics/decode.ts:575-581 | another root in a footer is refused by verification; decoding and queries answer as before |
| Tamper.SectionHashRefused | src/gics/decode.ts:964-967 | another stored section hash, under a fitting CRC, is refused by verification and decoding; queries answer as before |
| Tamper.SectionLengthRefused | src/gics/decode.ts:1006-1016 | another uncompressed length, under a fitting CRC, is refused by verification and decoding, and by a query for an id of the segment |
| Tamper.EndRecordExact | src/gics/decode.ts:637-654 | of all end records a file verifies with the true one only, and decodes with no other |
| Tamper.RootCommits | src/gics/decode.ts:513-590 | two files that verify name one root if and only if they hold the same sections, stream, manifest and payload, in the same order, unless a hash collides |
| Decoder.RawsAreSections | src/gics/decode.ts:982-1018 | decoding while unwrapping answers as unwrapping everything first |
| Decoder.DecompressAndDecode | src/gics/decode.ts:982-993 | the section loop on one mutable context computes the columns |
| Decoder.ReverseItemMajor | src/gics/decode.ts:1295-1313 | the layout step on any columns and header count, holes included |
| Decoder.ValidateCrossStreams | src/gics/decode.ts:1211-1239 | accepts exactly the columns whose lengths agree, holes or not |
| Decoder.ReconstructSnapshots | src/gics/decode.ts:1173-1209 | the nested loops rebuild the snapshots of columns whose lengths agree and reject a hole |
| Decoder.ParseSegmentParts | src/gics/decode.ts:881-949 | header, section loop, index and CRC check answer as the segment parser, at any offset of any bytes |
| Decoder.GICSv2Decoder.GetAllSnapshots | src/gics/decode.ts:611-635 | the position loop answers as the file specification |
| Decoder.GICSv2Decoder.VerifyIntegrityOnly | src/gics/decode.ts:513-590 | the verification loop, which compares lengths and rebuilds nothing, accepts exactly the files the specification accepts |
| Decoder.GICSv2Decoder.Query | src/gics/decode.ts:335-360 | the query loop, filter and binary search first, answers as the query specification |
| Append.PrepareSealed | src/gics/file-access.ts:30-71 | reopening a sealed file finds its root and segment count and cuts off only the end record |
| Append.CountSegs | src/gics/file-access.ts:160-179 | the segment count of a sealed file is the number of its segments |
| Append.ReopenTrustsEndRecord | src/gics/file-access.ts:30-71 | of any 37 bytes at the end reopening asks only that they start with the marker, and takes the next 32 for the root |
| Append.Prepare | src/gics/file-access.ts:30-71 | prepareForAppend on any bytes |
| Append.CountSegmentsAt | src/gics/file-access.ts:160-179 | the counting loop on any bytes |
| Append.EmptySealIsFatal | src/gics/encode.ts:1201-1224 | a first seal without a snapshot leaves a file that counts as new when reopened and never decodes, whatever is written behind it |
| Append.GICSv2Encoder.OpenFile | src/gics/encode.ts:104-157 | on any file file-access accepts, the encoder stands where the file says; on an empty or sealed one its invariant holds: file, chain and ordinal are those of the log |
| Append.GICSv2Encoder.AddSnapshot | src/gics/encode.ts:211-217 | adds one snapshot to what the encoder holds |
| Append.GICSv2Encoder.Flush | src/gics/encode.ts:320-378 | cuts the buffer into groups, codes and writes each; the log grows by one segment per group, holding exactly its snapshots |
| Append.GICSv2Encoder.EncodeSegmentInto | src/gics/encode.ts:357-368 | one group, coded by the block drivers, goes behind the last segment under the next ordinal and advances the chain |
| Append.GICSv2Encoder.Seal | src/gics/encode.ts:1201-1224 | the file verifies if and only if it holds at least one segment, and then it is the sealed file of everything accepted, which OpenFile takes again |
| Append.KeysNeverRecur | src/gics/encode.ts:521-531 | no (ordinal, stream) pair is used twice in a file, however often it was reopened |
| Sizes.SegmentFits | src/gics/segment.ts:192-202 | a segment of at most a million snapshots and items, cut at 32 numbers or more, with whatever codecs and routes, overflows no field and no decoder limit |
| Sizes.OrdinaryBufferFits | src/gics/encode.ts:320-378 | a buffer of at most a million snapshots of at most a million items each can be flushed and sealed under every configuration with blocks of 32 or more and at most a million items to a segment |
| Sizes.SealWide | src/gics/encode.ts:1201-1224 | with the default options two snapshots of the same n ids, n above 65536 and no multiple of it, are sealed into a file that passes verification and never decodes |
| Wal.BinaryWALProvider.AppendBatch | src/daemon/wal.ts:317-357 | one entry under the next LSN for any batch, checkpoint exactly when due, the invariant kept |
| Wal.BinaryWALProvider.ApplyState | src/daemon/wal.ts:227-235 | the loop applies a batch under its LSN |
| Wal.BinaryWALProvider.MaybeCheckpointAndCompact | src/daemon/wal.ts:237-283 | a checkpoint holds the fold of everything appended; compaction happens only behind one |
| Wal.BinaryWALProvider.CompactToState | src/daemon/wal.ts:572-587 | the file becomes one put per key, oldest first, and still rebuilds the state |
| Wal.BinaryWALProvider.Replay | src/daemon/wal.ts:359-376 | in every run replay into an empty table is the fold of all operations, from the last readable checkpoint or any one not older than the last compaction, or from none |
| Wal.BinaryWALProvider.Restart | src/daemon/wal.ts:537-547 | a new process keeps state and invariant if and only if no checkpoint is ahead of the log's largest LSN |
| Wal.OldCheckpointExact | src/daemon/wal.ts:285-304 | an older checkpoint over a compacted log and anything appended to it replays to the state if and only if each of its keys deleted before the compaction was touched again since |
| Wal.DeletedKeyRevives | src/daemon/wal.ts:285-304 | put, checkpoint, delete, checkpoint and compaction, the newest checkpoint unreadable: the key is back |
| Wal.NextWriteKept | src/daemon/wal.ts:559-570 | after a restart every possible next write is replayed if and only if the log's largest LSN reaches the checkpoint's |
| Wal.DeleteThenCompact | src/daemon/wal.ts:572-587 | put, delete, checkpoint and compaction, restart: the next put is not replayed |
| Wal.TailOfAll | src/daemon/wal.ts:559-570 | without a checkpoint the whole log is replayed |
| Wal.StateOfPuts | src/daemon/wal.ts:572-587 | a compacted log rebuilds exactly the entries it was made from, with their LSNs |
| Crc.TableStep | src/daemon/wal.ts:57-63 | a table lookup does eight bit-serial steps |
| Crc.CrcTable | src/daemon/wal.ts:48-55 | the start-up loops fill the table with eight steps of every byte |
| Crc.ComputeCrc32 | src/daemon/wal.ts:57-63 | the table-driven checksum of any bytes is the bit-serial one |
| Crc.CheckValue | src/daemon/wal.ts:48-63 | the checksum of the digits 1 to 9 is the check value of CRC-32 |
| WalFraming.FrameBack | src/daemon/wal.ts:512-535 | an encoded entry is measured and read back whatever follows it |
| WalFraming.TornFrame | src/daemon/wal.ts:443-479 | a proper prefix of a frame is never taken for a frame |
| WalFraming.PrefixParses | src/daemon/wal.ts:443-480 | any byte prefix of a well-formed v2 log parses to exactly the entries wholly inside it |
| WalFraming.DamagedV2 | src/daemon/wal.ts:467-477 | behind any whole entries, a frame with a wrong checksum or a payload that is not JSON is skipped, any other is read, and parsing goes on behind it |
| WalFraming.MigrationKeepsEntries | src/daemon/wal.ts:500-509 | a migrated v1 log parses to the operations, LSNs included, the v1 log parsed to; it fails exactly on an entry v2 has no room for |
| WalFraming.ParsesV1 | src/daemon/wal.ts:404-441 | v1 frames of any content cut anywhere give exactly what the frames wholly in front of the cut hold: ops, keys and payloads of the sound ones, numbered by the sound ones so far |
| WalFraming.TornLogV1 | src/daemon/wal.ts:404-441 | a v1 log cut anywhere gives the entries wholly in front of the cut as they were written, under the LSNs 1, 2, 3 and so on |
| WalFraming.DamagedV1 | src/daemon/wal.ts:426-430 | a v1 frame with a wrong checksum is skipped and takes no LSN |
| WalFraming.UpgradeKeepsEntries | src/daemon/wal.ts:495-509 | a v1 log, cut anywhere, is never taken for v2, and its upgrade parses to its whole entries |
| WalFraming.LsnsRise | src/daemon/wal.ts:404-441 | the LSNs given to v1 entries rise strictly |
| WalFraming.ParseBinaryV1Entries | src/daemon/wal.ts:404-441 | the offset loop parses any bytes as specified |
| WalFraming.ParseBinaryV2Entries | src/daemon/wal.ts:443-480 | the offset loop parses any bytes as specified |
| WalFraming.EnsureWalReady | src/daemon/wal.ts:483-510 | a missing log gets a header, a v2 log is left alone, any other is migrated |
| WalRecovery.TornLog | src/daemon/wal.ts:537-547 | torn anywhere, a log opens to the fold of the batches wholly before the tear: a batch is all or nothing |
| WalRuntime.PlainestOk | src/daemon/wal.ts:512-535 | there are a text encoding and a stringification under which every log entry comes back |
| WalRuntime.PayloadsDiffer | src/daemon/wal.ts:512-535 | different payloads are written differently, whatever order their fields are taken in |
| RWLock.StepInv | src/daemon/file-lock.ts:32-98 | acquire, release and timeout keep the invariant |
| RWLock.RunSafe | src/daemon/file-lock.ts:27-99 | over all interleavings with paired releases an exclusive holder is alone and somebody waits only while somebody holds |
| RWLock.StepProgress | src/daemon/file-lock.ts:63-98 | while an exclusive waiter waits a release brings it closer and no event lets anybody new in front |
| RWLock.ExclusiveGranted | src/daemon/file-lock.ts:63-98 | an exclusive waiter with h holders and q waiters ahead is granted after at most h + q releases, and no later arrival overtakes it |
| RWLock.GrantedAtOnce | src/daemon/file-lock.ts:32-44 | an arrival walks past a waiting queue if and only if it is shared, nobody writes and no exclusive waiter is queued |
| RWLock.HeadExact | src/daemon/file-lock.ts:48-98 | a queue under readers keeps an exclusive waiter at its head through every event but the timeout of that waiter in front of a shared one |
| RWLock.FirstComeFirstServed | src/daemon/file-lock.ts:32-98 | in every run without a timeout the lock is granted in the order of arrival, shared and exclusive alike, and those left wait in that order |
| RWLock.SharedIsOvertaken | src/daemon/file-lock.ts:34-37 | a run with a timeout in which a queued shared waiter is overtaken |
| RWLock.AsyncRWLock.HasExclusiveWaiter | src/daemon/file-lock.ts:72-77 | the scan finds an exclusive waiter if there is one |
| RWLock.AsyncRWLock.TryAcquire | src/daemon/file-lock.ts:32-61 | the fast paths and the queueing are the acquire event |
| RWLock.AsyncRWLock.Expire | src/daemon/file-lock.ts:48-54 | a timeout removes its waiter and wakes nobody |
| RWLock.AsyncRWLock.Release | src/daemon/file-lock.ts:63-70 | a release by anybody is the release event, draining included; a holder's keeps the invariant |
| RWLock.AsyncRWLock.DrainQueue | src/daemon/file-lock.ts:79-98 | the loop grants exactly whom the specification grants |
| MarkerLock.RunExcludes | src/daemon/file-lock.ts:240-302 | from any good state and for any interleaving of any number of instances no exclusive holder has another holder beside it |
| MarkerLock.StartExcludes | src/daemon/file-lock.ts:138-176 | the same from an empty directory |
| MarkerLock.IdleIsClean | src/daemon/file-lock.ts:332-349 | with every instance idle no marker is left |
| MarkerLock.AloneExclusive | src/daemon/file-lock.ts:272-302 | an exclusive attempt that runs alone succeeds if and only if the directory is empty |
| MarkerLock.AloneShared | src/daemon/file-lock.ts:240-270 | a shared attempt that runs alone succeeds if and only if there is no exclusive marker |
| MarkerLock.BothBackOut | src/daemon/file-lock.ts:261-296 | two crossing attempts can both fail, and both clean up |
| StateIndex.RebuildNewest | src/daemon/state-index.ts:145-175 | a rebuild leaves every key at its greatest-timestamp record wherever that is a value or the work of a tombstone about whose own key nothing later is said |
| StateIndex.Converges | src/daemon/state-index.ts:145-192 | the same records in any order, repeats included, give the same entries if no key has a tie at its greatest timestamp and every deletion there has an undisturbed tombstone |
| StateIndex.ConvergesExact | src/daemon/state-index.ts:145-192 | for all records, tombstones of tombstones included: every order of reading gives the same entries if and only if no key has a tie at its greatest timestamp and, where a deletion stands there, some tombstone for it has nothing later said about its own key |
| StateIndex.TopReached | src/daemon/state-index.ts:151-153 | whatever stands at the top of its key is what some order of reading leaves there |
| StateIndex.TopMissed | src/daemon/state-index.ts:145-175 | a key whose top is only disturbed tombstones' work ends older than that, or absent, in some order |
| StateIndex.TieDepends | src/daemon/state-index.ts:151-153 | with a tie the later reader wins |
| StateIndex.TombstoneOfTombstoneDepends | src/daemon/state-index.ts:167-172 | a tombstone that deletes a tombstone makes the outcome depend on the order |
| StateIndex.DeleteIsPut | src/daemon/state-index.ts:177-192 | a delete changes the index as its tombstone's put does if and only if the tombstone is taken and names its key, or the key is already dead in the same way or newer |
| StateIndex.LiveIsRebuild | src/daemon/server.ts:673-691 | a live run of puts and deletes is the rebuild of what it wrote, if it does not delete the empty key and no tombstone it writes is itself deleted with a later time |
| StateIndex.BuriedDelete | src/daemon/server.ts:673-691 | a live delete whose tombstone is refused: the key is back after a rebuild |
| StateIndex.LiveExact | src/daemon/server.ts:673-691 | every rebuild of what a live run wrote gives the live index if and only if the records converge and the empty key was not left deleted |
| StateIndex.LiveEqualsRebuild | src/daemon/server.ts:673-691 | under that condition live index and index rebuilt in any order from anywhere have the same contents |
| StateIndex.RemapKeepsContents | src/daemon/state-index.ts:211-222 | compaction's remap changes places and nothing else |
| StateIndex.RemapMoves | src/daemon/state-index.ts:213-219 | exactly the entries at a replaced segment move, and to its replacement |
| StateIndex.RemapLeavesNone | src/daemon/state-index.ts:211-222 | no entry of any index is left at a replaced segment if and only if none is put in the place of another |
| StateIndex.Index.RecordPut | src/daemon/state-index.ts:145-175 | the entries after a put |
| StateIndex.Index.RecordDelete | src/daemon/state-index.ts:177-192 | the entries after a delete |
| StateIndex.Index.RemapSegments | src/daemon/state-index.ts:211-222 | after it every entry at a replaced segment stands at the replacement, every other where it stood, and nothing else is changed; none is left at a replaced segment when none replaces another |
| StateIndex.Index.RebuildFrom | src/daemon/server.ts:673-691 | the loop over decoded records is the rebuild |
| Rotation.ResumeKeeps | src/gics/rotating-encoder.ts:317-371 | whatever a crash did to the disk, the entries that stay live are intact, one chain from the zero hash, and strictly increasing |
| Rotation.PrefixExact | src/gics/rotating-encoder.ts:328-362 | after any crash a resume keeps exactly the parts before the first damaged one if and only if no stretch of the chain before the last part ends on the root it started from |
| Rotation.ResumeIsKept | src/gics/rotating-encoder.ts:328-362 | what a resume keeps: each intact part whose seed is the root of the last one kept |
| Rotation.EqualPartsHideDamage | src/gics/rotating-encoder.ts:346-350 | with equal roots a damaged part vanishes from the middle |
| Rotation.LoseMiddle | src/gics/rotating-encoder.ts:317-371 | a run of one snapshot in three parts, sealed, its middle file lost, and resumed: the first and the third part are left |
| Rotation.LoopOfThree | src/gics/rotating-encoder.ts:560-608 | three parts of one snapshot whose first two files have one root make a manifest with a loop |
| Rotation.PartByPartOk | src/gics/rotating-encoder.ts:548-558 | a session handed any parts one after the other holds one committed part for each, numbered from 1, under the manifest invariant |
| Rotation.SurvivorsUnchanged | src/gics/rotating-encoder.ts:337-350 | a part that passes the resume check is the part that was sealed, unless a different file under its number has its hash |
| Rotation.Commit | src/gics/rotating-encoder.ts:560-608 | committing appends one link and the part's snapshots and keeps the manifest invariant, for any content, whether or not it reads back |
| Rotation.ReaderExact | src/gics/rotating-encoder.ts:636-674 | a strict reader gives back everything committed if and only if each part's file verifies and decodes to its part, and answers at all if and only if each verifies and decodes |
| Rotation.ReaderAnswers | src/gics/rotating-encoder.ts:194-224 | on any disk a strict reader answers if and only if every live file has its root and hash, verifies and decodes |
| Rotation.StrictReader | src/gics/rotating-encoder.ts:636-674 | whatever happened to the disk, a strict reader answers if and only if every live file is still the one sealed and the sealed files verify and decode, and then as before, unless a hash collides |
| Rotation.GICSv2RotatingEncoder.Create | src/gics/rotating-encoder.ts:294-315 | a new session is empty and valid |
| Rotation.GICSv2RotatingEncoder.ResumeSession | src/gics/rotating-encoder.ts:317-371 | from a persisted manifest and any disk the session is valid and holds exactly the parts that are kept |
| Rotation.GICSv2RotatingEncoder.AddSnapshot | src/gics/rotating-encoder.ts:385-406 | adds one snapshot and rotates exactly when a flush is due and there is pressure or the limit is reached; no part exceeds the limit (a limit below 1 counts as 1), committed entries stay |
| Rotation.GICSv2RotatingEncoder.FlushAndEvaluate | src/gics/rotating-encoder.ts:484-492 | rotates exactly under pressure or at the limit, content kept |
| Rotation.GICSv2RotatingEncoder.Rotate | src/gics/rotating-encoder.ts:548-558 | commits the part and opens the next, content kept |
| Rotation.GICSv2RotatingEncoder.FinalizeCurrentPart | src/gics/rotating-encoder.ts:560-608 | an empty part leaves no entry and no file, any other exactly one, with its file, root and hash |
| Rotation.GICSv2RotatingEncoder.OpenNewPart | src/gics/rotating-encoder.ts:610-629 | truncates a file no live part is in |
| Rotation.GICSv2RotatingEncoder.Seal | src/gics/rotating-encoder.ts:418-428 | the content is all committed, and a strict reader reads it back if and only if every part's file does |
| SessionFiles.PartExact | src/gics/rotating-encoder.ts:194-224 | a part's real file has an end record and verifies; it decodes to its part if and only if each of its segments is exact |
| SessionFiles.PartRoot | src/gics/rotating-encoder.ts:135-144 | the root read from a part's end record is the root of the chain through its segments |
| SessionFiles.GicsCodecOk | src/gics/rotating-encoder.ts:560-608 | the real file format is one the session's invariants apply to, whatever its hash |
| SessionFiles.SessionExact | src/gics/rotating-encoder.ts:636-674 | a session of real files, each part cut and coded in any way that fits the format, gives back every snapshot if and only if every segment of every part is exact, and a strict reader fails if and only if a segment is too wide |
| SessionFiles.EncodePart | src/gics/rotating-encoder.ts:610-629 | a part through the encoder, opened empty, flushed batch by batch and sealed, is the sealed file of a log that holds its snapshots |
| SessionFiles.EncodeSession | src/gics/rotating-encoder.ts:436-463 | every part of a session through the encoder: the files are those of the session's codec under the logs obtained |
| SessionFiles.EncodedSessionExact | src/gics/rotating-encoder.ts:636-674 | a session of such files reads back whole if and only if every segment of every log is exact, and fails if and only if a segment is too wide |
| SessionFiles.EqualPartsLoop | src/gics/rotating-encoder.ts:346-350 | the same snapshot in three parts, the first two coded alike: real files of one root, and a manifest with a loop |
| Health.FlagsAreWord | src/gics/chm.ts:206-263 | in every run the flags are a word of (0* START MID* END)*, possibly cut short, give the state and the anomaly segments, and leave the absolute-value bit clear |
| Health.TotalsPartition | src/gics/chm.ts:186-196 | core and quarantine totals are the sums over their blocks, partition blocks and bytes, and match the flags |
| Health.CounterIsStreak | src/gics/chm.ts:265-280 | the recovery counter is the length of the latest streak of good probes |
| Health.BaselineFrozen | src/gics/chm.ts:302-307 | in quarantine the baseline stands still at its frozen value |
| Health.ThresholdConstant | src/gics/chm.ts:302-307 | every probe of a quarantine is held to one threshold |
| Health.QuarantineSpan | src/gics/chm.ts:130-145 | every completed quarantine spans at least 2 PROBE_INTERVAL + 1 blocks; with an interval of 0 none completes |
| Health.AtBaselineStaysCore | src/gics/chm.ts:319-341 | a block at least as good as the baseline stays in core exactly unless it is near-random |
| Health.CollapseIsQuarantined | src/gics/chm.ts:319-341 | in every run, a block at less than a tenth of the baseline is quarantined, and so is one below it that is half as varied again as usual |
| Health.RouteMonotone | src/gics/chm.ts:101-145 | a block that compresses better and varies no more than one left in core is left in core |
| Quarantine.DriverReports | src/gics/encode.ts:1123-1199 | what the monitor is told about a chunk is what the block driver reports of it |
| Quarantine.EightAtMost | src/gics/encode.ts:1336-1386 | eight values never take more than 55 bytes on the codec tried |
| Quarantine.QuarantineEnds | src/gics/chm.ts:130-145 | after any chunks a quarantine can end, by some further chunks, if and only if blocks are probed and its frozen baseline less ten deviations is at most 1 |
| Quarantine.EndlessQuarantine | src/gics/chm.ts:302-307 | prices of 0 for two blocks of eight and of 1 for a third: no later chunks end the quarantine |
| Health.HealthMonitor.DecideRoute | src/gics/chm.ts:101-145 | the route the specification decides |
| Health.HealthMonitor.UpdateBlock | src/gics/chm.ts:147-184 | the whole state after a block, and its flags |
| Health.HealthMonitor.UpdateStateLogic | src/gics/chm.ts:198-280 | state, counter and anomaly segments after a block |

## Left out

- Schema profiles, generic snapshots and `queryGeneric`: the legacy numeric path uses the same context, container and
  index.
- Non-integer VALUE and QUANTITY blocks, float deltas, -0 and NaN: IEEE-754 rounding; XOR-float is modelled on bit
  patterns, and XOR_FLOAT never occurs in the integer files.
- Integers beyond 2^49: outside the bound doubles may round.
- The subnormal fallback of `decodeFixed64` for old files, version 1.2 files, zero `totalLength` and recovery by
  scanning for segment magic.
- Non-strict `integrityMode`: strict mode only.
- Byte buffers filled at a moving offset are concatenations except in BitPack, the bit writer and the Bloom filter,
  which write in place; Map insertion order is not modelled.
- Strings in the index are their UTF-8 bytes; strings in the log are converted by an abstract encoder, which
  `WalRuntime.PlainestOk` shows to exist.
- Context.ContextV0.DecodeDict: rejects a negative code, from which the source computes a fraction; no encoder writes one.
- SegmentIndex.DecodeStringDict: rejects a negative length in malformed input, where the source moves its position back.
- SegmentIndex.DeserializeIndex: likewise for the dictionary inside an index.
- SegmentIndex.BuildDict: takes keys that are already distinct and sorted.
- Decoder.GICSv2Decoder.GetAllSnapshots: rejects a segment whose total length is below 50 and a block coded as
  XOR_FLOAT, which the source goes on to read.
- Decoder.GICSv2Decoder.VerifyIntegrityOnly: likewise.
- Decoder.GICSv2Decoder.Query: likewise.
- Block statistics, regimes, the metrics the monitor does not read, and telemetry.
- Changing encoder options between reopenings of one file, legacy encryption modes, key derivation, the file header as
  associated data of the cipher, and write errors
  inside `appendData`.
- Append.GICSv2Encoder.Flush: requires integers within 2^49 and that each group the buffer is cut into, at the
  configured block size and under any codecs and routes, fits the format's 16- and 32-bit fields and the decoder's 64 MB
  section limit; the source does not check this. `Sizes.OrdinaryBufferFits` says which buffers do.
- Append.GICSv2Encoder.EncodeSegmentInto: likewise for its group.
- Append.GICSv2Encoder.Seal: likewise.
- Sizes.OrdinaryBufferFits: takes a compressor that at most doubles its input give or take a thousand bytes, and a cipher
  that adds at most a thousand.
- Append.GICSv2Encoder.OpenFile: promises the invariant for an empty file or one sealed with at least one snapshot; the
  other case is `Append.EmptySealIsFatal`. A file `Append.Prepare` fails on is where the source throws.
- BitPack.EncodeBitPack: requires values within 2^52, whose codes fit 54 bits; the block drivers produce no others.
- Wal.BinaryWALProvider.Replay: takes every key alike; the source builds a checkpoint as a plain object, on which the key
  `__proto__` sets no entry, so a checkpoint drops that key.
- WAL `truncate`, appending behind a torn tail, the JSON-lines log, fsync failures, and the payload a delete may carry.
- WalRecovery.TornLog: the payload of a delete is modelled as empty, and numbers in payloads are the finite doubles but
  -0, which JSON does not carry; keys are well-formed Unicode.
- Stale marker removal, dead processes and wall-clock time in the marker lock: instances are live and every file-system
  call is one step.
- `scan`, its pagination and `sortedKeys` in the state index, and `updatedAt`.
- StateIndex.LiveIsRebuild: requires a run that deletes neither the empty key nor, later, one of its own tombstones;
  `StateIndex.LiveExact` covers every run.
- Session entries' timestamps, byte and segment counts and rotation reasons; `pressure` stands for the bytes, segments,
  age and adaptive reasons. The manifest file itself is never damaged, and a crash happens between its atomic rewrites.
- Rotation.StrictReader: requires that no file put in the place of a sealed one has its hash.
- Tamper.RootCommits: requires that no two of the chain's inputs have one hash and that none hashes to the zeros it starts
  from. The hash chain does not cover the header, the index, lengths and tags of sections: the CRC does.
- Rotation.SurvivorsUnchanged: requires that among the files a resume compares no two different ones have one hash; the
  source relies on SHA-256 for this.
- SessionFiles.SessionExact: all parts are under one encryption header; the source draws a fresh salt per part.
- Session read options `maxFiles`, `includeOrphaned` and `integrityOnly`, and the non-strict mode.
- Worst-block list, reason codes and the report of the health monitor; ratios are reals and the probe interval an
  integer.
- `memtable`, `supervisor`, `resilience`, `audit-chain`, `prompt-distiller`, `bandit-router`, `inference`, request
  handling, configuration and clients: counters, input and output, or heuristics.
