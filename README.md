# libdted in Dafny

A model of the libdted C++ reader for DTED files. DTED (Digital Terrain
Elevation Data) is a grid of elevation posts in one-degree tiles. Each tile
file starts with a chain of fixed-length text header records (VOL, HDR, UHL,
DSI, ACC). After them come one data record per longitude line. A data record
holds big-endian, signed-magnitude 16-bit posts, south to north, followed by
a checksum.

The model covers these parts of the library:

- **Endian.** The host byte order, given as a parameter, and the byte swap
  routines over a byte array. They are proved to reverse each value's bytes
  on either host, and to be their own inverses.
- **Post decoding.** The signed-magnitude decoding of a post in
  `Dted_Cell.h`, and the `Dted_Record` data record: its counters, posts and
  checksum.
- **Header records.** The five header records, as classes parsed from a file
  image. Each field is the text at its position when the recognition sentinel
  matches, and blank otherwise. The getters read the same text as C strings
  or as `atoi` values.
- **`Dted_Cell`.** A tile, modelled as a class. Its geometry is what the header
  chain parses. `loadCellFromDisk` copies exactly the post bytes into memory.
  The memory and disk lookups, the bilinear interpolation and the statistics
  are specified by pure functions over the file image.
- **Directory and path entries.** `Dted_Cell_Path_Entry` with its `<` and
  `==`, and `Dted_Directory`. The directory scans a directory tree, keys each
  DTED file by latitude and the enclosing meridian directory, and tracks the
  extreme parallels and meridians. A DTED file whose name starts with a dot
  makes the parallel comparison throw `std::out_of_range` while the minimum
  parallel starts with N or n or the maximum with S or s, as the initial N90
  and S90 do; the scan stops there and the population reports it.
- **`Dted_Database`.** The two per-level tile sets with their directories, the
  cached last tile and the last failed key. The elevation queries open a
  missing tile and answer from it. The statistics pass is also covered.

Files are values: a file is a `seq<bv8>` and the file system is a map from a
path to its bytes. Reads past the end of a file yield zero bytes. The source
reads into zero-filled buffers, so for the header records and for
`loadCellFromDisk` this is what it does. For the post reads of the disk
lookup, the statistics pass and `Dted_Record` it is not (see Left out). The host byte order is a boolean
parameter. Floating point is modelled by `real`.

## Model

| member | source | states |
|---|---|---|
| `DtedCommon.ByteAt` | src/Dted_Cell.cpp:123-136 | a byte inside the file is that byte; a byte past either end reads as 0, as in the zero-filled buffers the reads land in |
| `DtedCommon.Trunc` | src/Dted_Cell.cpp:179-180 | `static_cast<int>` of a double: truncation toward zero, bracketed from both sides for either sign |
| `DtedCommon.Abs` | src/Dted_Cell.cpp:175-176 | `fabs`: non-negative and equal to x or -x |
| `DtedCommon.Wrap16` | src/Dted_Database.cpp:105-113 | the cast to `short`: in range, congruent to the input modulo 65536, identity on values already in range |
| `Endian.ReverseAtIndex` | src/Endian.cpp:54-74 | reversing a w-byte group puts byte 2p+w-1-k at k inside the group and leaves every byte outside it unchanged |
| `Endian.ReverseAtInvolution` | src/Endian.cpp:54-74 | swapping one value's bytes twice restores the buffer |
| `Endian.ReverseAtCommute` | src/Endian.cpp:114-151 | swaps of two disjoint values commute |
| `Endian.ReverseGroupsCommute` | src/Endian.cpp:114-151 | a swap before the array commutes with swapping the whole array |
| `Endian.ReverseGroupsInvolution` | src/Endian.cpp:114-151 | applying any array swap twice restores the buffer |
| `Endian.GroupStartIsOffset` | src/Endian.cpp:114-151 | the g-th element of an array of w-byte values starts at at + g*w |
| `Endian.ReverseGroupsOutside` | src/Endian.cpp:114-151 | an array swap of count elements leaves every byte outside those elements unchanged |
| `Endian.ReverseGroupsInside` | src/Endian.cpp:114-151 | inside element g, an array swap mirrors that element's bytes and only them |
| `Endian.SwapShortExprSwapsBytes` | src/Endian.cpp:114-119 | `(buf[i] << 8) \| (buf[i] >> 8)` on an unsigned short in host order stores the two bytes exchanged, on either host |
| `Endian.SwapIntExprReversesBytes` | src/Endian.cpp:121-127 | the mask-and-shift expression on an unsigned int in host order stores the four bytes reversed, on either host |
| `Endian.Endian.constructor` | src/Endian.cpp:17-24 | byte order given as a parameter: the endian type is little-endian exactly when the host is |
| `Endian.Endian.SwapBytes` | src/Endian.cpp:76-80 | exchanges bytes i and j and changes nothing else |
| `Endian.Endian.SwapTwoBytes` | src/Endian.cpp:54-58 | the buffer afterwards is the old one with the 2-byte group at `at` reversed |
| `Endian.Endian.SwapFourBytes` | src/Endian.cpp:60-65 | the buffer afterwards is the old one with the 4-byte group at `at` reversed |
| `Endian.Endian.SwapEightBytes` | src/Endian.cpp:67-74 | the buffer afterwards is the old one with the 8-byte group at `at` reversed |
| `Endian.Endian.SwapValue` | src/Endian.cpp:30-52 | the single-value overloads (short, unsigned short, int, unsigned int, float, double) reverse the value's sizeof bytes |
| `Endian.Endian.SwapShortElement` | src/Endian.cpp:114-119 | one step of the unsigned short loop, as host-order load, shift and store, reverses the element's 2 bytes |
| `Endian.Endian.SwapIntElement` | src/Endian.cpp:121-127 | one step of the unsigned int loop, as host-order load, mask-and-shift and store, reverses the element's 4 bytes |
| `Endian.Endian.SwapTwoBytesArray` | src/Endian.cpp:114-119 | the buffer afterwards is ReverseGroups of the old one with width 2 over size elements |
| `Endian.Endian.SwapFourBytesArray` | src/Endian.cpp:121-127 | the buffer afterwards is ReverseGroups of the old one with width 4 over size elements |
| `Endian.Endian.SwapEightBytesArray` | src/Endian.cpp:129-151 | the buffer afterwards is ReverseGroups of the old one with width 8, in the per-element form compiled without HAS_LONG_LONG |
| `Endian.Endian.SwapArray` | src/Endian.cpp:82-112 | every array overload, long and unsigned long included, reverses each of the size elements' sizeof bytes |
| `DtedPost.ConvertSignedMagnitude` | src/Dted_Cell.h:113-120 | the returned post is within -32767..32767; the argument is left swapped exactly when the host is little-endian |
| `DtedPost.SwapShortOfHostLoad` | src/Dted_Cell.h:113-120 | swapping the host-order load of two file bytes on a little-endian host gives the big-endian value |
| `DtedPost.DecodeOnEitherHost` | src/Dted_Cell.h:113-120 | reading a post's two file bytes in host order and converting gives the same signed-magnitude value on both hosts |
| `DtedPost.PostValueCases` | src/Dted_Cell.h:113-120 | sign bit clear: the post is the 15-bit magnitude; sign bit set: it is minus the magnitude |
| `DtedPost.NegativeZero` | src/Dted_Cell.h:113-120 | 0x8000 (negative zero) decodes to 0 |
| `DtedPost.AllOnesIsNull` | src/Dted_Cell.h:113-120 | 0xFFFF decodes to the null post -32767 |
| `DtedPost.DecodeEncode` | src/Dted_Cell.h:113-120 | every value in -32767..32767 except 0 written in signed magnitude decodes back to itself |
| `DtedPost.DecodeEncodedBytes` | src/Dted_Cell.h:113-120 | the same round trip through the two big-endian file bytes |
| `DtedRecord.Convert` | src/Dted_Record.cpp:198-203 | the result is INT_NAN exactly when the value is -32767, and the value itself otherwise |
| `DtedRecord.SentinelTestRejects` | src/Dted_Record.cpp:76-81 | the sentinel test assigns instead of comparing and never rejects a record |
| `DtedRecord.SignMagnitude` | src/Dted_Record.cpp:148-150 | the masked and negated short is within -32767..32767 |
| `DtedRecord.ChecksumBytes` | src/Dted_Record.cpp:173-182 | the checksum runs over 8 + 2n bytes from the start of the record |
| `DtedRecord.StoredCheckSumHostIndependent` | src/Dted_Record.cpp:184-189 | the stored checksum reads the same on both hosts |
| `DtedRecord.StoredCheckSumRoundTrip` | src/Dted_Record.cpp:184-189 | writing a 32-bit sum big-endian after the posts and reading it back gives the sum |
| `DtedRecord.CounterCorrectIff` | src/Dted_Record.cpp:128-141 | on a little-endian host the counter swap through a sign-extended short is right exactly when the second byte is 0 |
| `DtedRecord.PostBitsCorrectIff` | src/Dted_Record.cpp:146-150 | the post swap on a little-endian host keeps the big-endian bits exactly when the second byte is below 0x80 or the first is 0xFF |
| `DtedRecord.PointHostIndependentIff` | src/Dted_Record.cpp:146-161 | a parsed point is the same on both hosts exactly under that byte condition |
| `DtedRecord.PostHostIndependentIff` | src/Dted_Record.cpp:146-151 | the converted post value agrees across hosts exactly under that byte condition |
| `DtedRecord.DtedRecord.constructor` | src/Dted_Record.cpp:55-106 | stop offset = offset + 12 + 2n; counters, points, raw point data and both checksums are the spec functions of the file bytes |
| `DtedRecord.DtedRecord.Parse` | src/Dted_Record.cpp:119-163 | the three counters and every point and raw point are read from their offsets; the checksums are untouched |
| `DtedRecord.DtedRecord.ValidateCheckSum` | src/Dted_Record.cpp:165-196 | computes the byte sum and reads the stored sum; reports corruption exactly when they differ |
| `DtedFields.FieldText` | src/Dted_Vol.cpp:57-100 | a field read is `size` characters, each the file byte at its position |
| `DtedFields.BlankFields` | src/Dted_Vol.h:72-79 | fields not yet read are NUL-filled |
| `DtedFields.ParseFields` | src/Dted_Vol.cpp:57-100 | reads the sentinel, then the remaining fields in order only when the sentinel matches; the result is ParsedFields |
| `DtedFields.OffsetsArePositions` | src/Dted_Vol.h:30-45 | with sizes laid end to end, the running offset of field k is its documented position less one, and the total is the record length |
| `DtedFields.ParsedFieldAt` | src/Dted_Vol.cpp:57-100 | parsed field k is the text at its position when the sentinel matches and blank when it does not |
| `DtedFields.ParsedFieldAtOffset` | src/Dted_Vol.cpp:57-100 | parsed field k, when not a scratch field, is the text at the running offset of the sizes before it, or blank on a mismatch |
| `DtedFields.ParsedFieldsAreSlots` | src/Dted_Vol.cpp:57-100 | for sizes laid end to end, every parsed field is its slot: the text at its documented position, blank on a mismatch, the prior value for a scratch field |
| `DtedFields.ParsedSentinelAt` | src/Dted_Vol.cpp:57-100 | the sentinel field is read whether or not it matches |
| `DtedFields.ScratchFieldKept` | src/Dted_Dsi.cpp:90-271 | a field read into a scratch buffer leaves the stored field unchanged |
| `DtedFields.BlankFieldValue` | src/Dted_Dsi.cpp:385-395 | a blank field reads as "" and as 0 |
| `DtedFields.DigitFieldValue` | src/Dted_Dsi.cpp:385-395 | an all-digit field reads as itself, and `atoi` gives its decimal value |
| `CText.CString` | src/Dted_Vol.h:72-79 | a char buffer read as a C string: the longest NUL-free prefix |
| `CText.CStringOfTerminated` | src/Dted_Vol.h:72-79 | a NUL-terminated text reads as that text |
| `CText.CStringOfNulFree` | src/Dted_Vol.h:72-79 | a field without NUL reads as the whole field |
| `CText.SkipSpaces` | src/Dted_Directory.cpp:130 | `atoi` skips exactly the leading white space |
| `CText.LeadingDigits` | src/Dted_Directory.cpp:130 | `atoi` reads exactly the longest run of digits |
| `CText.DigitsValueOfNatText` | src/Dted_Directory.cpp:130 | the decimal text of n has value n |
| `CText.AtoiOfIntText` | src/Dted_Directory.cpp:130 | `atoi` of the decimal text of any integer, optionally signed, followed by a non-digit, is that integer |
| `CText.AtoiOfDigitRun` | src/Dted_Directory.cpp:130 | `atoi` of a digit run followed by a non-digit is the run's decimal value |
| `CText.AtoiOfNegativeDigitRun` | src/Dted_Directory.cpp:130 | `atoi` of a minus sign and a digit run is minus the run's value |
| `CText.AtoiSkipsSpaces` | src/Dted_Directory.cpp:130 | leading white space does not change `atoi` |
| `CText.AtoiOfDigits` | src/Dted_Uhl.cpp:186-192 | `atoi` of an all-digit field is its decimal value |
| `CText.AtoiOfPaddedText` | src/Dted_Uhl.cpp:186-192 | `atoi` of a zero-padded count is the count |
| `CText.DigitsValueSkipsZeros` | src/Dted_Uhl.cpp:186-192 | leading zeros do not change a decimal value |
| `DtedVol.VolLayout` | src/Dted_Vol.h:30-45 | the VOL field sizes lie end to end at their documented positions and fill the 80-byte record |
| `DtedVol.VolField` | src/Dted_Vol.cpp:57-100 | VOL field k is the text at its position, or blank on a sentinel mismatch |
| `DtedVol.DtedVol.constructor` | src/Dted_Vol.cpp:48-55 | parses at the offset; the stop offset is non-zero exactly when the sentinel is "VOL" and is then offset + 80 |
| `DtedVol.DtedVol.Parse` | src/Dted_Vol.cpp:57-100 | the fields are ParsedFields; the stop offset moves to start + 80 only on a match |
| `DtedVol.DtedVol.RecognitionSentinel` | src/Dted_Vol.cpp:102-104 | the first three bytes as a C string |
| `DtedVol.DtedVol.ReelNumber` | src/Dted_Vol.cpp:106-108 | the 6-byte field at position 5 when parsed, else "" |
| `DtedVol.DtedVol.AccountNumber` | src/Dted_Vol.cpp:110-112 | the 14-byte field at position 38 when parsed, else "" |
| `DtedHdr.HdrLayout` | src/Dted_Hdr.h:32-59 | the HDR field sizes lie end to end at their documented positions and fill 80 bytes |
| `DtedHdr.HdrField` | src/Dted_Hdr.cpp:47-114 | HDR field k is the text at its position, or blank on a sentinel mismatch |
| `DtedHdr.DtedHdr.constructor` | src/Dted_Hdr.cpp:41-45 | stop offset non-zero exactly when the sentinel is "HDR", and then offset + 80 |
| `DtedHdr.DtedHdr.Parse` | src/Dted_Hdr.cpp:47-114 | fields are ParsedFields; stop offset start + 80 only on a match |
| `DtedHdr.DtedHdr.RecognitionSentinel` | src/Dted_Hdr.cpp:136-138 | the first three bytes as a C string |
| `DtedHdr.DtedHdr.FileName` | src/Dted_Hdr.cpp:140-142 | the 17-byte field at position 5 when parsed, else "" |
| `DtedHdr.DtedHdr.Version` | src/Dted_Hdr.cpp:144-146 | the 4-byte field at position 36, the generation number, which the member variable named version holds |
| `DtedHdr.DtedHdr.CreationDate` | src/Dted_Hdr.cpp:148-150 | the 2-byte field at position 40, the version number, and not the 6-byte creation date at 42 |
| `DtedUhl.UhlLayout` | src/Dted_Uhl.h:29-55 | fields 1-12 fill bytes 1-56 end to end, the unread 24-byte field 13 completes 80; the security code is read at 33, while the sizes place field 9 at 36 |
| `DtedUhl.UhlField` | src/Dted_Uhl.cpp:57-119 | UHL field k is the text at its position, or blank on a sentinel mismatch |
| `DtedUhl.HighByteDigitNegative` | src/Dted_Uhl.cpp:155-157 | with a signed `char`, a byte from 0x80 up counts as a digit of value byte - 256 - 48, below -48 |
| `DtedUhl.DegreesOfDmsText` | src/Dted_Uhl.cpp:141-165 | DDDMMSSH text gives deg + min/60 + sec/3600, negated for S/s/W/w |
| `DtedUhl.SpacingOfPaddedText` | src/Dted_Uhl.cpp:167-176 | a four-digit interval in tenths of a second gives n/36000 degrees |
| `DtedUhl.DtedUhl.constructor` | src/Dted_Uhl.cpp:51-55 | stop offset non-zero exactly when the sentinel is "UHL", and then offset + 80 |
| `DtedUhl.DtedUhl.Parse` | src/Dted_Uhl.cpp:57-119 | fields are ParsedFields; stop offset start + 80 only on a match |
| `DtedUhl.DtedUhl.RecognitionSentinel` | src/Dted_Uhl.cpp:121-123 | the first three bytes as a C string |
| `DtedUhl.DtedUhl.LonOrigin` | src/Dted_Uhl.cpp:125-127 | degreesFromString of the 8-byte field at 5, or 0.0 when not parsed |
| `DtedUhl.DtedUhl.LatOrigin` | src/Dted_Uhl.cpp:129-131 | degreesFromString of the 8-byte field at 13, or 0.0 |
| `DtedUhl.DtedUhl.LonInterval` | src/Dted_Uhl.cpp:133-135 | spacingFromString of the 4-byte field at 21, or 0.0 |
| `DtedUhl.DtedUhl.LatInterval` | src/Dted_Uhl.cpp:137-139 | spacingFromString of the 4-byte field at 25, or 0.0 |
| `DtedUhl.DtedUhl.AbsoluteLE` | src/Dted_Uhl.cpp:178-180 | `atoi` of the 4-byte field at 29, or 0 |
| `DtedUhl.DtedUhl.SecurityCode` | src/Dted_Uhl.cpp:182-184 | the 3-byte field read at 33, or "" |
| `DtedUhl.DtedUhl.NumLonLines` | src/Dted_Uhl.cpp:186-188 | `atoi` of the 4-byte field at 48 (its decimal value when all digits), or 0 |
| `DtedUhl.DtedUhl.NumLatPoints` | src/Dted_Uhl.cpp:190-192 | `atoi` of the 4-byte field at 52 (its decimal value when all digits), or 0 |
| `DtedUhl.DtedUhl.MultipleAccuracy` | src/Dted_Uhl.cpp:194-196 | `atoi` of the 1-byte field at 56, or 0 |
| `DtedDsi.DsiLayout` | src/Dted_Dsi.h:31-114 | the 42 DSI field sizes lie end to end at their documented positions and fill 648 bytes |
| `DtedDsi.DsiChainedLow` | src/Dted_Dsi.h:31-114 | positions of fields 1-21 follow from the sizes |
| `DtedDsi.DsiChainedHigh` | src/Dted_Dsi.h:31-114 | positions of fields 21-42 follow from the sizes |
| `DtedDsi.DsiFieldsAreSlots` | src/Dted_Dsi.cpp:90-271 | every parsed DSI field is its slot: text at its position, blank on a mismatch, and field 5 kept blank |
| `DtedDsi.DsiField` | src/Dted_Dsi.cpp:90-271 | a stored DSI field k is the text at its position, or blank on a sentinel mismatch |
| `DtedDsi.DtedDsi.constructor` | src/Dted_Dsi.cpp:84-88 | stop offset non-zero exactly when the sentinel is "DSI", and then offset + 648 |
| `DtedDsi.DtedDsi.Parse` | src/Dted_Dsi.cpp:90-271 | fields are ParsedFields with field 5 read into scratch; stop offset start + 648 only on a match |
| `DtedDsi.DtedDsi.RecognitionSentinel` | src/Dted_Dsi.cpp:273-275 | the first three bytes as a C string |
| `DtedDsi.DtedDsi.SecurityCode` | src/Dted_Dsi.cpp:277-279 | C string of its 1-byte field when parsed, else "" |
| `DtedDsi.DtedDsi.ProductLevel` | src/Dted_Dsi.cpp:281-283 | C string of the 5-byte DMA series field, else "" |
| `DtedDsi.DtedDsi.Edition` | src/Dted_Dsi.cpp:285-287 | C string of the 2-byte edition field, else "" |
| `DtedDsi.DtedDsi.MatchMergeVersion` | src/Dted_Dsi.cpp:289-291 | C string of its 1-byte field, else "" |
| `DtedDsi.DtedDsi.MaintenanceDate` | src/Dted_Dsi.cpp:293-295 | C string of its 4-byte field, else "" |
| `DtedDsi.DtedDsi.MatchMergeDate` | src/Dted_Dsi.cpp:297-299 | C string of its 4-byte field, else "" |
| `DtedDsi.DtedDsi.MaintenanceCode` | src/Dted_Dsi.cpp:301-303 | C string of its field, else "" |
| `DtedDsi.DtedDsi.ProducerCode` | src/Dted_Dsi.cpp:305-307 | C string of its field, else "" |
| `DtedDsi.DtedDsi.ProductStockSpecNumber` | src/Dted_Dsi.cpp:309-311 | C string of its field, else "" |
| `DtedDsi.DtedDsi.ProductSpecNumber` | src/Dted_Dsi.cpp:313-315 | C string of its field, else "" |
| `DtedDsi.DtedDsi.ProductSpecDate` | src/Dted_Dsi.cpp:317-319 | C string of its field, else "" |
| `DtedDsi.DtedDsi.VerticalDatum` | src/Dted_Dsi.cpp:321-323 | C string of its field, else "" |
| `DtedDsi.DtedDsi.HorizontalDatum` | src/Dted_Dsi.cpp:325-327 | C string of its field, else "" |
| `DtedDsi.DtedDsi.CompilationDate` | src/Dted_Dsi.cpp:329-331 | C string of its field, else "" |
| `DtedDsi.DtedDsi.LatOrigin` | src/Dted_Dsi.cpp:333-335 | C string of its field, else "" |
| `DtedDsi.DtedDsi.LonOrigin` | src/Dted_Dsi.cpp:337-339 | C string of its field, else "" |
| `DtedDsi.DtedDsi.LatSW` | src/Dted_Dsi.cpp:341-343 | C string of its field, else "" |
| `DtedDsi.DtedDsi.LonSW` | src/Dted_Dsi.cpp:345-347 | C string of its field, else "" |
| `DtedDsi.DtedDsi.LatNW` | src/Dted_Dsi.cpp:349-351 | C string of its field, else "" |
| `DtedDsi.DtedDsi.LonNW` | src/Dted_Dsi.cpp:353-355 | C string of its field, else "" |
| `DtedDsi.DtedDsi.LatNE` | src/Dted_Dsi.cpp:357-359 | C string of its field, else "" |
| `DtedDsi.DtedDsi.LonNE` | src/Dted_Dsi.cpp:361-363 | C string of its field, else "" |
| `DtedDsi.DtedDsi.LatSE` | src/Dted_Dsi.cpp:365-367 | C string of its field, else "" |
| `DtedDsi.DtedDsi.LonSE` | src/Dted_Dsi.cpp:369-371 | C string of its field, else "" |
| `DtedDsi.DtedDsi.Orientation` | src/Dted_Dsi.cpp:373-375 | C string of its field, else "" |
| `DtedDsi.DtedDsi.LatInterval` | src/Dted_Dsi.cpp:377-379 | C string of its field, else "" |
| `DtedDsi.DtedDsi.LonInterval` | src/Dted_Dsi.cpp:381-383 | C string of its field, else "" |
| `DtedDsi.DtedDsi.NumLatPoints` | src/Dted_Dsi.cpp:385-387 | `atoi` of its field's C string, else 0; an all-digit field gives its decimal value |
| `DtedDsi.DtedDsi.NumLonLines` | src/Dted_Dsi.cpp:389-391 | `atoi` of its field's C string, else 0; an all-digit field gives its decimal value |
| `DtedDsi.DtedDsi.CellIndicator` | src/Dted_Dsi.cpp:393-395 | `atoi` of its field's C string, else 0; an all-digit field gives its decimal value |
| `DtedAcc.AccLayout` | src/Dted_Acc.h:32-61 | the 17 ACC fields that are read fill the first bytes end to end, fewer than the 2700-byte record, which field 18 completes |
| `DtedAcc.AccField` | src/Dted_Acc.cpp:83-163 | ACC field k is the text at its position, or blank on a sentinel mismatch |
| `DtedAcc.DtedAcc.constructor` | src/Dted_Acc.cpp:57-81 | stop offset non-zero exactly when the sentinel is "ACC", and then offset + 2700 |
| `DtedAcc.DtedAcc.Parse` | src/Dted_Acc.cpp:83-163 | fields are ParsedFields; stop offset start + 2700 only on a match |
| `DtedAcc.DtedAcc.RecognitionSentinel` | src/Dted_Acc.cpp:83-163 | the first three bytes as a C string |
| `DtedAcc.DtedAcc.AbsCE` | src/Dted_Acc.cpp:165-167 | `atoi` of the absolute CE field (its decimal value when all digits), else 0 |
| `DtedAcc.DtedAcc.AbsLE` | src/Dted_Acc.cpp:169-171 | `atoi` of the absolute LE field, else 0 |
| `DtedAcc.DtedAcc.RelCE` | src/Dted_Acc.cpp:173-175 | `atoi` of the relative CE field, else 0 |
| `DtedAcc.DtedAcc.RelLE` | src/Dted_Acc.cpp:177-179 | `atoi` of the relative LE field, else 0 |
| `DtedCellLayout.UhlFirstChain` | src/Dted_Cell.cpp:66-84 | a file without VOL and HDR still parses: with UHL at 0, DSI at 80 and ACC at 728, the first data record is at 3428 |
| `DtedCellLayout.VolHdrChain` | src/Dted_Cell.cpp:66-84 | the full chain VOL, HDR, UHL, DSI, ACC puts the first data record at 3588 |
| `DtedCellLayout.MissingAccChain` | src/Dted_Cell.cpp:84 | when no ACC record is found the first data record offset is 0 |
| `DtedCellLayout.FilePost` | src/Dted_Cell.cpp:395-407 | a post read from the file is within -32767..32767 |
| `DtedCellLayout.RecordPostBytes` | src/Dted_Cell.cpp:130-139 | the 2m post bytes of a record are the file bytes 8 past the record start |
| `DtedCellLayout.MemoryImageAt` | src/Dted_Cell.cpp:118-140 | byte t of record x lands at 2mx + t of the memory image, skipping each record's 8 header and 4 checksum bytes |
| `DtedCellLayout.MemoryPostAt` | src/Dted_Cell.cpp:118-140 | the memory post at (x, y) equals the file post at (x, y) |
| `DtedCellLayout.MemoryCornersInBounds` | src/Dted_Cell.cpp:211-235 | when n <= m the four interpolation words lie inside the image |
| `DtedCellLayout.MemoryCornerPastEnd` | src/Dted_Cell.cpp:211-235 | when n > m the last corner of the last grid cell lies past the image |
| `DtedCellLayout.BilinearAllNull` | src/Dted_Cell.cpp:336-363 | four null posts interpolate to the null post |
| `DtedCellLayout.NullCornerIgnored` | src/Dted_Cell.cpp:336-363 | on a post, a null p00 gives the null post, and any other p00 is returned as is |
| `DtedCellLayout.WeightsPartitionUnity` | src/Dted_Cell.cpp:326-334 | with no null corner the four weights are non-negative and sum to 1 |
| `DtedCellLayout.BilinearWithinCorners` | src/Dted_Cell.cpp:314-364 | with no null corner the interpolated height lies between the least and the greatest corner |
| `DtedCellLayout.Min4` | src/Dted_Cell.cpp:314-364 | the least of four values |
| `DtedCellLayout.Max4` | src/Dted_Cell.cpp:314-364 | the greatest of four values |
| `DtedCellLayout.RecordPosts` | src/Dted_Cell.cpp:431-444 | the m posts of record x in order |
| `DtedCellLayout.FoldsStep` | src/Dted_Cell.cpp:438-443 | one scan step: the minimum takes a smaller non-null post, the maximum a larger post |
| `DtedCellLayout.MinNonNullIsLeast` | src/Dted_Cell.cpp:417-443 | the minimum is at most the start value and every non-null post, and is the start value or one of them |
| `DtedCellLayout.MaxOfIsGreatest` | src/Dted_Cell.cpp:417-443 | the maximum is at least the start value and every post, and is the start value or one of them |
| `DtedCellLayout.CellPostsAt` | src/Dted_Cell.cpp:427-447 | the scan visits post (x, y) at position mx + y |
| `DtedLookup.Count` | src/Dted_Cell.cpp:130 | a loop bound taken as a count: itself if non-negative, else 0 |
| `DtedLookup.Post` | src/Dted_Cell.cpp:395-407 | a grid post is within -32767..32767 |
| `DtedLookup.NeighbourOffsets` | src/Dted_Cell.cpp:263-290 | the disk reads step one post north, then one record less one post, then one post |
| `DtedLookup.DiskHeightInside` | src/Dted_Cell.cpp:243-312 | inside the grid the disk height is p00 without interpolation and the interpolation of posts (x0,y0), (x0,y0+1), (x0+1,y0-1), (x0+1,y0) with it |
| `DtedLookup.MemoryHeightInside` | src/Dted_Cell.cpp:173-241 | inside the grid the memory height is word k = m*x0 + y0, or the interpolation of words k, k+1, k+n, k+n+1 |
| `DtedLookup.MemoryHeightFromImage` | src/Dted_Cell.cpp:192-237 | the same, with the words read from the loaded memory image at byte offsets 2k, 2k+2, 2(k+n), 2(k+n+1) |
| `DtedLookup.CoversIffFloorOrigin` | src/Dted_Cell.cpp:95-116 | a tile with a whole-degree origin covers a point exactly when the floors of its coordinates are the origin |
| `DtedLookup.CoverageEdges` | src/Dted_Cell.cpp:95-116 | the south and west edges are covered, the north and east edges and anything south or west of the origin are not |
| `DtedLookup.GridCell` | src/Dted_Cell.cpp:175-183 | north-east of the origin the memory and disk range tests agree, and inside them x0, y0 index a grid cell |
| `DtedLookup.UninterpolatedPathsAgree` | src/Dted_Cell.cpp:173-312 | without interpolation, memory and disk access give the same height: post (x0, y0), or 0.0 outside |
| `DtedLookup.CoveredIsInside` | src/Dted_Cell.cpp:95-116 | a point the tile covers passes both range tests |
| `DtedLookup.SquareTileMemoryCorners` | src/Dted_Cell.cpp:210-235 | on a square tile the memory corners are the grid posts (x0,y0), (x0,y0+1), (x0+1,y0), (x0+1,y0+1) |
| `DtedLookup.DiskCornersShifted` | src/Dted_Cell.cpp:289-309 | the disk path's third corner is post (x0+1, y0-1) and its fourth is grid corner (x0+1, y0) |
| `DtedLookup.LastCellReadsPastEnd` | src/Dted_Cell.cpp:211-235 | with more longitude lines than latitude points, the last cell's fourth memory word lies past the image; the source's read is undefined, the model reads 0 |
| `DtedLookup.SquareTilePathsDisagree` | src/Dted_Cell.cpp:173-312 | between two posts of one latitude, interpolated memory and disk heights agree exactly when the grid corner equals the post the disk path reads |
| `DtedLookup.ThirdCornerDecides` | src/Dted_Cell.cpp:314-364 | on a latitude line the interpolation depends on the third corner: the two corner orders agree exactly when those corners are equal |
| `DtedLookup.OnPostLine` | src/Dted_Cell.cpp:326-361 | on a latitude post line, interpolation is linear between p00 and p10 |
| `DtedLookup.IntersectionIsPost` | src/Dted_Cell.cpp:173-312 | at a grid intersection both interpolated heights are the post there, unless it is null |
| `DtedLookup.Reflect` | src/Dted_Cell.cpp:246-247 | the mirror image of a point through the origin, north-east of the origin |
| `DtedLookup.WestSouthOfOrigin` | src/Dted_Cell.cpp:175-258 | south or west of the origin, memory gives 0.0 but disk answers as for the point mirrored through the origin (fabs) |
| `DtedLookup.DiskHeightOfGrid` | src/Dted_Cell.cpp:243-312 | the disk path's answer depends on a point only through its two grid coordinates |
| `DtedLookup.PostLookupIsWord` | src/Dted_Cell.cpp:366-408 | a post inside the grid reads word m*x + y, on both paths |
| `DtedLookup.StatisticsBound` | src/Dted_Cell.cpp:410-456 | the minimum is at most every non-null post and the maximum at least every post |
| `DtedLookup.StatisticsAttained` | src/Dted_Cell.cpp:410-456 | the minimum is 32767 or some non-null post; the maximum is -32767 or some post |
| `DtedCell.DtedCell.constructor` | src/Dted_Cell.cpp:32-93 | the geometry is the header chain's (HeaderOf the file); no posts in memory, no statistics; the interpolation flag, which the source leaves uninitialised, is the constructor's parameter |
| `DtedCell.DtedCell.Covers` | src/Dted_Cell.cpp:95-116 | true exactly when the point is within [0, 1) degree north and east of the south-west corner |
| `DtedCell.DtedCell.LoadCellFromDisk` | src/Dted_Cell.cpp:118-140 | allocates a fresh buffer holding exactly the memory image of the tile's posts |
| `DtedCell.DtedCell.SetBilinearInterpActive` | src/Dted_Cell.cpp:169-171 | sets the flag and changes nothing else |
| `DtedCell.DtedCell.MemoryPost` | src/Dted_Cell.cpp:203-204 | the decoded short at an even byte offset of memory is the word offset/2 of the tile |
| `DtedCell.DtedCell.DiskPost` | src/Dted_Cell.cpp:277-278 | the decoded short at a file offset is the post value of those two bytes |
| `DtedCell.DtedCell.MemoryLookup` | src/Dted_Cell.cpp:185-237 | the reads and interpolation on the loaded posts give MemoryHeight of the file at the point |
| `DtedCell.DtedCell.GetHeightAboveMSL` | src/Dted_Cell.cpp:173-241 | equals MemoryHeight of the file, geometry, interpolation flag and point |
| `DtedCell.DtedCell.GetHeightAboveMSLFromDisk` | src/Dted_Cell.cpp:243-312 | equals DiskHeight of the same |
| `DtedCell.DtedCell.GetPostValue` | src/Dted_Cell.cpp:366-383 | equals PostLookup: the post at (x, y) inside the grid, 0.0 outside |
| `DtedCell.DtedCell.GetPostValueFromDisk` | src/Dted_Cell.cpp:385-408 | equals PostLookup as well: both paths agree on posts |
| `DtedCell.DtedCell.GatherStatistics` | src/Dted_Cell.cpp:410-456 | the stored minimum and maximum are MinHeight and MaxHeight of the tile |
| `DtedCell.DtedCell.GetSizeOfElevCell` | src/Dted_Cell.cpp:458-464 | the header's longitude lines and latitude points |
| `DtedCell.DtedCell.Edition` | src/Dted_Cell.cpp:466-468 | the DSI edition of the header chain |
| `DtedCell.DtedCell.ProductLevel` | src/Dted_Cell.cpp:470-472 | the DSI product level |
| `DtedCell.DtedCell.CompilationDate` | src/Dted_Cell.cpp:474-476 | the DSI compilation date |
| `DtedCell.DtedCell.MinHeightAboveMSL` | src/Dted_Cell.cpp:478-480 | after gathering, MinHeight of the tile |
| `DtedCell.DtedCell.MaxHeightAboveMSL` | src/Dted_Cell.cpp:482-484 | after gathering, MaxHeight of the tile |
| `DtedCell.ReadHeader` | src/Dted_Cell.cpp:66-87 | parsing VOL, HDR, UHL, DSI, ACC in a chain yields HeaderOf the file |
| `DtedCell.ReadPosts` | src/Dted_Cell.cpp:123-139 | the zero-filled buffer with each record's posts read in is the memory image |
| `DtedCell.ReadBytes` | src/Dted_Cell.cpp:135-136 | a read fills exactly `count` bytes from the cursor and leaves the rest of the buffer |
| `DtedCell.StreamPost` | src/Dted_Cell.cpp:433-437 | a post read in host order and converted is the post value of its bytes |
| `DtedCell.ScanPosts` | src/Dted_Cell.cpp:417-447 | the scan's results are the non-null minimum from 32767 and the maximum from -32767 over all posts |
| `DtedCell.ScanRecord` | src/Dted_Cell.cpp:429-446 | one record's scan extends the running minimum and maximum by its m posts and moves the cursor by 2m |
| `DtedPathEntry.Less` | src/Dted_Cell_Path_Entry.cpp:18-29 | true exactly when the latitude or the longitude is smaller |
| `DtedPathEntry.Equal` | src/Dted_Cell_Path_Entry.cpp:31-38 | true exactly when latitude and longitude agree; the path is ignored |
| `DtedPathEntry.SecondTestUnreachable` | src/Dted_Cell_Path_Entry.cpp:20-23 | the second latitude test can never succeed after the first one failed |
| `DtedPathEntry.LessBySmallerLatitude` | src/Dted_Cell_Path_Entry.cpp:20-21 | a smaller latitude orders first |
| `DtedPathEntry.LessOnEqualLatitude` | src/Dted_Cell_Path_Entry.cpp:25-28 | on equal latitudes the longitudes decide |
| `DtedPathEntry.LessIrreflexive` | src/Dted_Cell_Path_Entry.cpp:18-29 | no entry is less than itself |
| `DtedPathEntry.LessNotAsymmetric` | src/Dted_Cell_Path_Entry.cpp:18-29 | (2, 0) < (1, 5) and (1, 5) < (2, 0) both hold: the operator is not a strict weak order |
| `DtedPathEntry.LessAgreesBelow` | src/Dted_Cell_Path_Entry.cpp:18-29 | for latitudes not above the other's, it is the lexicographic order; the lexicographic order implies it |
| `DtedPathEntry.IncomparableIffEqual` | src/Dted_Cell_Path_Entry.cpp:18-38 | neither is less exactly when they are equal |
| `DtedDirectory.Extension` | src/Dted_Directory.cpp:271-273 | the text after the last dot, or the whole name without a dot |
| `DtedDirectory.DtedFileExtension` | src/Dted_Directory.cpp:271-285 | a name is a DTED file exactly when its extension is dt0, dt1 or dt2 in any letter case |
| `DtedDirectory.ExtensionAfterDot` | src/Dted_Directory.cpp:271-273 | the extension of base.ext is ext |
| `DtedDirectory.FileLatitude` | src/Dted_Directory.cpp:121-136 | a file's latitude is a short |
| `DtedDirectory.DirectoryMeridian` | src/Dted_Directory.cpp:199-206 | a directory's meridian is a short |
| `DtedDirectory.FileLatitudeOfName` | src/Dted_Directory.cpp:121-136 | a name H + digits + "." + ext has latitude the digits' value, negated for S/s |
| `DtedDirectory.DirectoryMeridianOfName` | src/Dted_Directory.cpp:199-206 | a directory H + digits has meridian the digits' value, negated for W/w |
| `DtedDirectory.NextMinParallel` | src/Dted_Directory.cpp:81-99 | the new minimum parallel is the old one or the file's |
| `DtedDirectory.NextMaxParallel` | src/Dted_Directory.cpp:101-119 | the new maximum parallel is the old one or the file's |
| `DtedDirectory.NextMinMeridian` | src/Dted_Directory.cpp:161-178 | the new minimum meridian is the old one or the directory's |
| `DtedDirectory.NextMaxMeridian` | src/Dted_Directory.cpp:180-197 | the new maximum meridian is the old one or the directory's |
| `DtedDirectory.CompareTwoDigits` | src/Dted_Directory.cpp:88-95 | comparing two-digit texts orders them by value |
| `DtedDirectory.MinParallelSouthernmost` | src/Dted_Directory.cpp:81-99 | for well-formed texts, the new minimum parallel has the smaller signed latitude |
| `DtedDirectory.MaxParallelNorthernmost` | src/Dted_Directory.cpp:101-119 | the new maximum parallel has the larger signed latitude |
| `DtedDirectory.MinMeridianWesternmost` | src/Dted_Directory.cpp:161-178 | the new minimum meridian has the smaller signed longitude |
| `DtedDirectory.MaxMeridianEasternmost` | src/Dted_Directory.cpp:180-197 | the new maximum meridian has the larger signed longitude |
| `DtedDirectory.Find` | src/Dted_Directory.cpp:234-247 | the first entry equal to the key, or none exactly when no entry is equal |
| `DtedDirectory.InsertProperties` | src/Dted_Directory.cpp:146 | set insertion keeps keys unique, makes the key findable, and adds the entry only when no equal entry is present |
| `DtedDirectory.AddFile` | src/Dted_Directory.cpp:70-147 | adding a file keeps the directory state sound |
| `DtedDirectory.ParallelTextEmpty` | src/Dted_Directory.cpp:77-79 | the text before the first dot is empty exactly when the name starts with a dot |
| `DtedDirectory.DotFileAccepted` | src/Dted_Directory.cpp:77-146 | a name starting with a dot, while the minimum parallel does not start with N/n and the maximum not with S/s, keeps both bounds and is entered under its `atoi` latitude |
| `DtedDirectory.DotFileLatitude` | src/Dted_Directory.cpp:121-130 | the name `._n35.dt1` is keyed at latitude 0 |
| `DtedDirectory.NonNumericLatitude` | src/Dted_Directory.cpp:121-136 | a name whose second character is not a digit, white space, sign or dot is keyed at latitude 0 |
| `DtedDirectory.DotFileThrowsAtStart` | src/Dted_Directory.cpp:82-118 | on the initial bounds N90/S90 a name starting with a dot throws `std::out_of_range` |
| `DtedDirectory.AddFileEntries` | src/Dted_Directory.cpp:73-146 | the file throws exactly when its name starts with a dot while the minimum parallel starts with N/n or the maximum with S/s, and then nothing else changes; otherwise the entry added has the file's latitude, the current meridian and the full path |
| `DtedDirectory.EnterMeridian` | src/Dted_Directory.cpp:155-211 | entering a meridian directory keeps the state sound |
| `DtedDirectory.ScanListing` | src/Dted_Directory.cpp:35-232 | scanning a directory tree keeps the state sound |
| `DtedDirectory.ScanList` | src/Dted_Directory.cpp:51-223 | visiting a directory's entries in order keeps the state sound |
| `DtedDirectory.ScanListStep` | src/Dted_Directory.cpp:51-223 | from any position the loop visits that entry, then stops if it threw and otherwise goes on with the rest |
| `DtedDirectory.ScanEntry` | src/Dted_Directory.cpp:51-223 | visiting one entry (file, meridian directory or other) keeps the state sound |
| `DtedDirectory.ScanListKeepsEntries` | src/Dted_Directory.cpp:51-223 | a scan only adds entries: the old entries are a prefix of the new |
| `DtedDirectory.ScanEntryKeepsEntries` | src/Dted_Directory.cpp:51-223 | the same for one directory entry |
| `DtedDirectory.FileEntryKeepsEntries` | src/Dted_Directory.cpp:61-146 | a file entry keeps every entry held before |
| `DtedDirectory.ScanListKeepsMeridian` | src/Dted_Directory.cpp:51-223 | a scan that meets no meridian directory keeps the current meridian |
| `DtedDirectory.ScanEntryKeepsMeridian` | src/Dted_Directory.cpp:51-223 | the same for one entry |
| `DtedDirectory.MeridianNotRestored` | src/Dted_Directory.cpp:155-215 | after a meridian subdirectory the current meridian stays that directory's, and is not restored for later siblings |
| `DtedDirectory.ScanListPaths` | src/Dted_Directory.cpp:49-219 | every entry added by a scan has a path under the scanned directory |
| `DtedDirectory.ScanEntryPaths` | src/Dted_Directory.cpp:49-219 | the same for one entry |
| `DtedDirectory.FileEntryPaths` | src/Dted_Directory.cpp:49-146 | a file entry adds at most one entry, whose path is the directory's path, "/" and the file name |
| `DtedDirectory.InitialBounds` | src/Dted_Directory.cpp:249-258 | the initial bounds "N90", "S90", "E180", "W180" stand for 90, -90, 180, -180 |
| `DtedDirectory.DtedDirectory.constructor` | src/Dted_Directory.cpp:27-33 | the initial state: no entries, reset bounds, query position 0 |
| `DtedDirectory.DtedDirectory.PopulateDirectory` | src/Dted_Directory.cpp:35-232 | the new state is ScanListing of the old state; `thrown` reports the exception that stops the scan; the found result is false, as nothing sets it |
| `DtedDirectory.DtedDirectory.VisitEntry` | src/Dted_Directory.cpp:51-223 | one directory entry changes the state as ScanEntry |
| `DtedDirectory.DtedDirectory.VisitFile` | src/Dted_Directory.cpp:70-147 | a file entry changes the state as ScanEntry, and reports a throw |
| `DtedDirectory.DtedDirectory.VisitDirectory` | src/Dted_Directory.cpp:150-216 | a subdirectory entry changes the state as ScanEntry, and reports a throw from inside it |
| `DtedDirectory.DtedDirectory.EnterMeridianDirectory` | src/Dted_Directory.cpp:155-211 | updates the meridian bounds and current meridian as EnterMeridian |
| `DtedDirectory.DtedDirectory.AddDtedFile` | src/Dted_Directory.cpp:71-147 | updates the parallel bounds and entries as AddFile, or reports the throw and changes nothing |
| `DtedDirectory.DtedDirectory.RetrieveDtedEntry` | src/Dted_Directory.cpp:234-247 | found exactly when an equal entry exists; the result is the first such entry, else the key unchanged |
| `DtedDirectory.DtedDirectory.QueryReset` | src/Dted_Directory.cpp:287-289 | the query position returns to the first entry |
| `DtedDirectory.DtedDirectory.Query` | src/Dted_Directory.cpp:291-300 | yields the entry at the position and advances, or reports the end and leaves the argument unchanged |
| `DtedDirectory.DtedDirectory.ClearDtedDirectory` | src/Dted_Directory.cpp:249-258 | entries cleared and bounds reset; the current meridian is kept |
| `DtedDirectory.FileBranch` | src/Dted_Directory.cpp:73-146 | the file branch's updates to the bounds and entries are those of AddFile |
| `DtedDirectory.ReadLatitudeText` | src/Dted_Directory.cpp:121-128 | the characters from position 1 up to the first dot |
| `DtedDatabase.KeyBySignOfCoordinateIsFloor` | src/Dted_Database.cpp:105-113 | the level 1 geographic key is the floor of the coordinate, but one less at negative whole numbers |
| `DtedDatabase.KeyBySignOfCastIsFloor` | src/Dted_Database.cpp:186-194 | the other key rule is also the floor, except one less at negative whole numbers and 0 on (-1, 0) |
| `DtedDatabase.KeyRulesDisagree` | src/Dted_Database.cpp:105-194 | the two key rules differ exactly on (-1, 0) |
| `DtedDatabase.GeoKeyTileCovers` | src/Dted_Database.cpp:105-113 | the keyed tile covers the point exactly when neither coordinate is a negative whole number |
| `DtedDatabase.CastKeyTileCovers` | src/Dted_Database.cpp:186-194 | the keyed tile covers the point exactly when no coordinate is a negative whole number or in (-1, 0) |
| `DtedDatabase.FirstCovering` | src/Dted_Database.cpp:126-138 | the first tile in the set that covers the point, or none exactly when none covers |
| `DtedDatabase.Locate` | src/Dted_Database.cpp:119-138 | the remembered tile if it covers, else the first covering one; none exactly when no tile covers |
| `DtedDatabase.CacheIsTransparent` | src/Dted_Database.cpp:119-138 | when coverage does not overlap, the remembered tile does not change which tile answers |
| `DtedDatabase.FirstCoveringAppended` | src/Dted_Database.cpp:151-157 | after appending a tile to a set where none covered, the new tile is found exactly when it covers |
| `DtedDatabase.LocateCell` | src/Dted_Database.cpp:119-138 | the search finds Locate's tile, and updates the remembered tile only when found by the scan |
| `DtedDatabase.Nulled` | src/Dted_Database.cpp:166-168 | the null post comes back as 0.0; every other value is returned as is |
| `DtedDatabase.FailureAnswersZero` | src/Dted_Database.cpp:115-116 | after a miss, a later query with the same key answers 0.0 and opens nothing, at either level and for either query |
| `DtedDatabase.LowestIsLeast` | src/Dted_Database.cpp:483-501 | the lowest is at most every tile's minimum, and is 65536 or one of them |
| `DtedDatabase.HighestIsGreatest` | src/Dted_Database.cpp:483-501 | the highest is at least every tile's maximum, and is 0 or one of them |
| `DtedDatabase.HighestNotNegative` | src/Dted_Database.cpp:485 | the highest is never below 0, whatever the tiles hold |
| `DtedDatabase.LeastOfIsLeast` | src/Dted_Database.cpp:483-501 | the running minimum is at most every key, and is its start or one of the keys |
| `DtedDatabase.GreatestOfIsGreatest` | src/Dted_Database.cpp:483-501 | the running maximum is at least every key, and is its start or one of the keys |
| `DtedDatabase.GreatestOfAtLeastBase` | src/Dted_Database.cpp:485-498 | the running maximum never falls below its start |
| `DtedDatabase.OpenTile` | src/Dted_Database.cpp:151-155 | a fresh tile on the file at the path, with the header's geometry, loaded exactly when asked |
| `DtedDatabase.OpenListedLoaded` | src/Dted_Database.cpp:434-438 | a fresh loaded tile on the listed file |
| `DtedDatabase.OpenForRetry` | src/Dted_Database.cpp:150-158 | the tile opened for a retried query covers the point, and is loaded exactly in memory mode |
| `DtedDatabase.CellStore.constructor` | src/Dted_Database.cpp:19-23 | no tiles, nothing remembered, the directory in its initial state |
| `DtedDatabase.CellStore.Add` | src/Dted_Database.cpp:156 | the tile is appended to the set |
| `DtedDatabase.CellStore.Elevation` | src/Dted_Database.cpp:95-416 | the result, tile set, remembered tile and failure are those Answered gives; old tiles keep their posts |
| `DtedDatabase.CellStore.Search` | src/Dted_Database.cpp:117-163 | for a key that is not the last failure, the outcome is Answered with the tile's value before the null post becomes 0.0; old tiles keep their posts |
| `DtedDatabase.CellStore.ReadTile` | src/Dted_Database.cpp:140-149 | the tile's value for the request; a geographic query sets the tile's interpolation flag |
| `DtedDatabase.CellStore.OpenAndRetry` | src/Dted_Database.cpp:150-163 | a listed key opens one tile and answers from it; an unlisted key becomes the failure and answers 0.0 |
| `DtedDatabase.CellStore.OpenListed` | src/Dted_Database.cpp:150-158 | opening the listed file appends one tile, keeps the others, and the retried query is answered from it |
| `DtedDatabase.CellStore.AddForRetry` | src/Dted_Database.cpp:151-157 | the new tile is on the listed file, covers the location, is loaded exactly in memory mode and is appended after the others |
| `DtedDatabase.CellStore.RetryAppended` | src/Dted_Database.cpp:119-160 | with the listed file's tile appended and covering the location, the repeated query is answered from it as Answered requires, and it is remembered |
| `DtedDatabase.CellStore.ReadAppended` | src/Dted_Database.cpp:119-149 | the repeated query finds the appended tile, remembers it and answers with its value |
| `DtedDatabase.AnsweredByOpening` | src/Dted_Database.cpp:150-160 | the listed case of Answered holds once the tile on the listed file is appended, remembered and read |
| `DtedDatabase.CellStore.Populate` | src/Dted_Database.cpp:426-453 | the directory becomes ScanListing of the tree; the result is false exactly when the scan throws, and then nothing is preloaded; otherwise with preload one loaded tile per entry is appended in order |
| `DtedDatabase.CellStore.Preload` | src/Dted_Database.cpp:431-440 | one loaded tile per directory entry is appended in the directory's order |
| `DtedDatabase.CellStore.PreloadNext` | src/Dted_Database.cpp:434-439 | one query step appends the tile of the next entry |
| `DtedDatabase.CellStore.PreloadStep` | src/Dted_Database.cpp:433-439 | one loop turn appends the next entry's tile; the next Query yields the following entry or ends exactly after the last |
| `DtedDatabase.CellStore.GatherStats` | src/Dted_Database.cpp:483-506 | every tile gathers its statistics; the results are the lowest minimum from 65536 and the highest maximum from 0 |
| `DtedDatabase.CellStore.GatherAt` | src/Dted_Database.cpp:490-497 | one tile gathers its statistics and reports its MinHeight and MaxHeight; other tiles keep their flags |
| `DtedDatabase.CellStore.Clear` | src/Dted_Database.cpp:36-62 | no tiles, nothing remembered, the directory cleared |
| `DtedDatabase.DtedDatabase.constructor` | src/Dted_Database.cpp:19-34 | empty sets, cleared directories whose uninitialised current meridians are the constructor's parameters, memory access, level 1, no interpolation, failure key (-32767, -32767) |
| `DtedDatabase.DtedDatabase.Ask` | src/Dted_Database.cpp:73-93 | the chosen level's store answers as Answered |
| `DtedDatabase.DtedDatabase.GetGeoElev` | src/Dted_Database.cpp:73-82 | level 0 answers 0.0 and changes nothing; otherwise Answered at the current level with that level's key; the other level is unchanged |
| `DtedDatabase.DtedDatabase.GetPostElev` | src/Dted_Database.cpp:84-93 | the same for a post query, keyed by the cast rule at both levels |
| `DtedDatabase.DtedDatabase.SetBilinearInterpActive` | src/Dted_Database.cpp:69-71 | sets the flag |
| `DtedDatabase.DtedDatabase.SetDtedLevel` | src/Dted_Database.cpp:418-420 | sets the level |
| `DtedDatabase.DtedDatabase.SetAccessMethod` | src/Dted_Database.cpp:533-535 | sets the access method |
| `DtedDatabase.DtedDatabase.ClearDatabase` | src/Dted_Database.cpp:36-67 | both sets empty, nothing remembered, both directories cleared, failure key reset to (-32767, -32767) with its path kept |
| `DtedDatabase.DtedDatabase.PopulateDirectory` | src/Dted_Database.cpp:426-481 | populates the chosen level as CellStore.Populate and returns true unless the scan throws |
| `DtedDatabase.DtedDatabase.GatherStats` | src/Dted_Database.cpp:483-531 | the chosen level's lowest and highest, with every tile's statistics gathered |

## Left out

- File and directory I/O. A file is a byte sequence in a map from path to bytes, and the directory tree is a `Listing` value. `opendir`, `lstat`, `ifstream` and `seekg`/`read` become index arithmetic over those values. A missing file reads as empty.
- The host byte-order probe is a parameter: the `Endian` constructor and every place that constructs one take `hostLittleEndian`.
- Floating point is modelled by `real`. Rounding, NaN, the division by the weight sum when it is not exact, and the `float` of the statistics are not modelled.
- `Dted_Uhl::spacingFromString` uses `atof`, which is modelled as `atoi`. Decimal points and exponents in an interval field are not read.
- `DtedCell.DtedCell.GetPostValue` and `DtedCell.DtedCell.GetPostValueFromDisk`: the model takes integer grid indices. The source takes `Voxel` doubles and truncates the whole computed byte offset, not the coordinates. A fractional coordinate therefore reads a misaligned word: with x = 1.5 and 3 posts per record, the memory read starts at the odd byte 9 + 2y and mixes halves of two neighbouring posts. The model does not capture that.
- Logging to `cout`/`cerr`, the `debug` flags, `Dump_Path_Entry_Set`, and the `cout` report of `Gather_Stats_Dted1/2`. The model returns the two reported values instead.
- Memory management (`malloc`, `delete`, destructors, copy constructors) and the `boost::mutex` locks. Concurrency is not modelled.
- `Dted_Cell::open`/`close` and the constructors that take a file name instead of a stream.
- `getHeightAboveMSLFromDisk`'s end-of-file fallback (p10 := p00, p11 := p01). The model reads past the end as zero bytes, which the source does not do when the stream fails.
- `DtedCell.DtedCell.GetHeightAboveMSLFromDisk`: the disk reads are modelled for complete data records; a read the stream would leave unfinished keeps the previous value of `us` in the source.
- `std::set<Dted_Cell*>` is ordered by object address, so its iteration order is unspecified. The order becomes observable when two tiles share a south-west corner: the search in `Dted_Database.cpp:126-138` answers from whichever comes first. The model picks insertion order.
- `Path_Entry_Set` is a `std::set` with a `<` that is not a strict weak order. The model keeps the entries in insertion order, without duplicates under `==`, and does not model the tree's behaviour when the order is inconsistent.
- The recursive retry in `Get_Geo_Elev_Dted1/2` and `Get_Post_Elev_Dted1/2` terminates only when the opened tile covers the point. The model performs the one retry it needs and requires that the tile listed under the key covers the point. Without that, the source recurses forever; the keying lemmas show which points are affected.
- The `HAS_LONG_LONG` branch of `swapEightBytes(data, size)`, which the source never enables.
- Getters that only return a field: `Get_Dted_Level`, `Get_Access_Method`, `getSystemEndianType`, `Dted_Directory::getMin/MaxMeridian` and `getMin/MaxParallel`, the `Dted_Record` accessors, and every header record's `startOffset`/`stopOffset`. They are fields of the model's classes.
- `DtedDatabase.CellStore.Elevation`: in memory mode it requires every tile to have its posts loaded. Tiles opened in disk mode and queried after a switch to memory mode would be read through a null post buffer in the source.
- `DtedCell.DtedCell.GetHeightAboveMSL`: when a tile has more longitude lines than latitude points, the last cell's fourth read lies past the heap buffer. That read is undefined in the source; the model reads 0 there (see `DtedLookup.LastCellReadsPastEnd`). `DtedCell.DtedCell.MemoryLookup` does the same.
- `DtedCell.DtedCell.GetPostValueFromDisk`: a post read past the end of the file is 0 in the model. In the source the failed read leaves `us` uninitialised, and the stream's failbit makes every later read fail.
- `DtedCell.DtedCell.GatherStatistics`: the same holds for the statistics pass. The model reads past the end as 0; the source keeps an uninitialised `us` and the failed stream.
- `DtedCell.ScanPosts`: the specification of the statistics pass reads past the end of the file as 0, for the same reason.
- `DtedRecord.DtedRecord.Parse`: a record read past the end of the file yields 0 bytes in the model. In the source the failed read keeps the previous value of `s`, and later reads on the stream fail.
- `DtedRecord.DtedRecord.ValidateCheckSum`: bytes past the end of the file are summed as 0 in the model. In the source the `unsigned char c` that the failed read leaves unset is summed instead.
- `DtedDatabase.OpenTile`: a new tile's interpolation flag, which `Dted_Cell`'s constructor leaves uninitialised, starts false. No query observes the difference, because each geographic query calls `setBilinearInterpActive` before reading the flag and post queries never read it.
- `DtedCell.DtedCell.LoadCellFromDisk`: requires non-negative counts. With a negative count the source passes a negative size to `malloc`.
- `DtedUhl.DegreesFromString`: the digits are read as a signed `char`, as on the usual x86 targets. Where `char` is unsigned, a byte from 0x80 up would give a large positive digit instead.
- `DtedDatabase.CellStore.Populate`: preloading requires every listed file to have non-negative counts. The source would pass a negative size to `malloc`.
- A tile's geometry (the header chain of its file) is stated by the `DtedCell` constructor and `OpenTile`, not carried as an invariant of the tile set.
