/**
 * The data set identification record (DSI): 648 bytes recognised by the
 * sentinel "DSI", describing the product, its datums, the corners of the
 * tile and the size of its elevation matrix. Field 5 is read into a scratch
 * buffer and thrown away.
 */
module DtedDsi {
  import opened CText
  import opened DtedFields

  const DSI_LENGTH: nat := 648

  /** 1-based field positions named by the layout enumeration. */
  const DSI_SECURITY_CODE: nat := 4
  const DSI_SECURITY_CONTROL: nat := 5
  const DSI_SECURITY_HANDLING: nat := 7
  const DSI_RESERVED_1: nat := 34
  const DSI_DMA_SERIES: nat := 60
  const DSI_RESERVED_2: nat := 65
  const DSI_RESERVED_3: nat := 80
  const DSI_DATA_EDITION: nat := 88
  const DSI_MATCH_MERGE_VERSION: nat := 90
  const DSI_MAINTENANCE_DATE: nat := 91
  const DSI_MATCH_MERGE_DATE: nat := 95
  const DSI_MAINTENANCE_CODE: nat := 99
  const DSI_PRODUCER_CODE: nat := 103
  const DSI_RESERVED_4: nat := 111
  const DSI_PRODUCT_SPEC_STOCK_NUMBER: nat := 127
  const DSI_PRODUCT_SPEC_NUMBER: nat := 136
  const DSI_PRODUCT_SPEC_DATE: nat := 138
  const DSI_VERTICAL_DATUM: nat := 142
  const DSI_HORIZ_DATUM: nat := 145
  const DSI_DIGITIZING_SYSTEM: nat := 150
  const DSI_COMPILATION_DATE: nat := 160
  const DSI_RESERVED_5: nat := 164
  const DSI_LAT_ORIGIN: nat := 186
  const DSI_LON_ORIGIN: nat := 195
  const DSI_LAT_SW: nat := 205
  const DSI_LON_SW: nat := 212
  const DSI_LAT_NW: nat := 220
  const DSI_LON_NW: nat := 227
  const DSI_LAT_NE: nat := 235
  const DSI_LON_NE: nat := 242
  const DSI_LAT_SE: nat := 250
  const DSI_LON_SE: nat := 257
  const DSI_ORIENTATION: nat := 265
  const DSI_LAT_INTERVAL: nat := 274
  const DSI_LON_INTERVAL: nat := 278
  const DSI_NUM_LAT_LINES: nat := 282
  const DSI_NUM_LON_LINES: nat := 286
  const DSI_PARTIAL_CELL_INDICATOR: nat := 290
  const DSI_RESERVED: nat := 292

  /** Sizes of fields 1 to 42. */
  const DSI_SIZES: seq<nat> :=
    [3, 1, 2, 27, 26, 5, 15, 8, 2, 1, 4, 4, 4, 8, 16, 9, 2, 4, 3, 5, 10, 4, 22, 9, 10,
     7, 8, 7, 8, 7, 8, 7, 8, 9, 4, 4, 4, 4, 2, 101, 100, 156]

  /** Index of field 5, which is read but not kept. */
  const DSI_SCRATCH: set<nat> := {4}

  /**
   * Start of each field; fields 41 and 42 have no position constant and
   * start where field 40 (101 bytes) and field 41 (100 bytes) end.
   */
  const DSI_POSITIONS: seq<nat> :=
    [1, DSI_SECURITY_CODE, DSI_SECURITY_CONTROL, DSI_SECURITY_HANDLING, DSI_RESERVED_1,
     DSI_DMA_SERIES, DSI_RESERVED_2, DSI_RESERVED_3, DSI_DATA_EDITION, DSI_MATCH_MERGE_VERSION,
     DSI_MAINTENANCE_DATE, DSI_MATCH_MERGE_DATE, DSI_MAINTENANCE_CODE, DSI_PRODUCER_CODE,
     DSI_RESERVED_4, DSI_PRODUCT_SPEC_STOCK_NUMBER, DSI_PRODUCT_SPEC_NUMBER, DSI_PRODUCT_SPEC_DATE,
     DSI_VERTICAL_DATUM, DSI_HORIZ_DATUM, DSI_DIGITIZING_SYSTEM, DSI_COMPILATION_DATE,
     DSI_RESERVED_5, DSI_LAT_ORIGIN, DSI_LON_ORIGIN, DSI_LAT_SW, DSI_LON_SW, DSI_LAT_NW,
     DSI_LON_NW, DSI_LAT_NE, DSI_LON_NE, DSI_LAT_SE, DSI_LON_SE, DSI_ORIENTATION,
     DSI_LAT_INTERVAL, DSI_LON_INTERVAL, DSI_NUM_LAT_LINES, DSI_NUM_LON_LINES,
     DSI_PARTIAL_CELL_INDICATOR, DSI_RESERVED, DSI_RESERVED + 101, DSI_RESERVED + 201]

  function DsiFields(file: seq<bv8>, start: nat): seq<seq<char>> {
    ParsedFields(file, start, DSI_SIZES, "DSI", DSI_SCRATCH, BlankFields(DSI_SIZES))
  }

  function DsiStop(file: seq<bv8>, start: nat): nat {
    if SentinelMatches(file, start, "DSI") then start + DSI_LENGTH else 0
  }

  /** The 42 fields tile the whole 648-byte record, each starting where the one before ends. */
  lemma DsiLayout()
    ensures Consecutive(DSI_SIZES, DSI_POSITIONS, DSI_LENGTH)
    ensures Offset(DSI_SIZES, |DSI_SIZES|) == DSI_LENGTH
  {
    DsiChainedLow();
    DsiChainedHigh();
    OffsetsArePositions(DSI_SIZES, DSI_POSITIONS, DSI_LENGTH, |DSI_SIZES|);
  }

  lemma DsiChainedLow()
    ensures forall k :: 0 <= k < 20 ==> DSI_POSITIONS[k + 1] == DSI_POSITIONS[k] + DSI_SIZES[k]
  {
  }

  lemma DsiChainedHigh()
    ensures forall k :: 20 <= k < 41 ==> DSI_POSITIONS[k + 1] == DSI_POSITIONS[k] + DSI_SIZES[k]
  {
  }

  /** What buffer k holds once the record has been parsed. */
  function DsiSlot(file: seq<bv8>, start: nat, k: nat): seq<char>
    requires k < |DSI_SIZES|
  {
    Slot(file, start, DSI_SIZES, DSI_POSITIONS, "DSI", DSI_SCRATCH, k)
  }

  /** Parsing fills every buffer as `DsiSlot` describes. */
  lemma DsiFieldsAreSlots(file: seq<bv8>, start: nat)
    ensures |DsiFields(file, start)| == |DSI_SIZES|
    ensures forall k :: 0 <= k < |DSI_SIZES| ==> DsiFields(file, start)[k] == DsiSlot(file, start, k)
  {
    DsiLayout();
    ParsedFieldsAreSlots(file, start, DSI_SIZES, DSI_POSITIONS, DSI_LENGTH, "DSI", DSI_SCRATCH);
  }

  /** Buffer k of a field kept in its own buffer, for the position and size the caller names. */
  lemma DsiField(file: seq<bv8>, start: nat, k: nat, pos: nat, size: nat)
    requires 0 < k < |DSI_SIZES| && k !in DSI_SCRATCH && pos == DSI_POSITIONS[k] && size == DSI_SIZES[k]
    ensures DsiSlot(file, start, k) ==
      if SentinelMatches(file, start, "DSI") then FieldText(file, start + pos - 1, size) else Blank(size)
  {
  }

  /** The edition text a DSI record at start yields, empty without the sentinel. */
  function EditionOf(file: seq<bv8>, start: nat): string {
    if DsiStop(file, start) != 0 then CString(FieldText(file, start + DSI_DATA_EDITION - 1, 2))
    else ""
  }

  /** The product level text a DSI record at start yields, empty without the sentinel. */
  function ProductLevelOf(file: seq<bv8>, start: nat): string {
    if DsiStop(file, start) != 0 then CString(FieldText(file, start + DSI_DMA_SERIES - 1, 5))
    else ""
  }

  /** The compilation date text a DSI record at start yields, empty without the sentinel. */
  function CompilationDateOf(file: seq<bv8>, start: nat): string {
    if DsiStop(file, start) != 0 then CString(FieldText(file, start + DSI_COMPILATION_DATE - 1, 4))
    else ""
  }

  class DtedDsi {
    const file: seq<bv8>
    const startOffset: nat
    /** fields[k] is the buffer of field k+1; fields[4] is never filled. */
    var fields: seq<seq<char>>
    var stopOffset: nat

    ghost predicate Valid()
      reads this
    {
      |fields| == |DSI_SIZES| && stopOffset == DsiStop(file, startOffset) &&
      forall k :: 0 <= k < |DSI_SIZES| ==> fields[k] == DsiSlot(file, startOffset, k)
    }

    constructor(file: seq<bv8>, offset: nat)
      ensures this.file == file && startOffset == offset && Valid()
      ensures stopOffset != 0 <==> SentinelMatches(file, offset, "DSI")
      ensures stopOffset == DsiStop(file, offset)
    {
      this.file := file;
      startOffset := offset;
      fields := BlankFields(DSI_SIZES);
      stopOffset := 0;
      new;
      Parse();
      DsiFieldsAreSlots(file, offset);
    }

    /** The sentinel, then, if it is "DSI", fields 2 to 42 (field 5 into scratch space). */
    method Parse()
      requires |fields| == |DSI_SIZES|
      modifies this
      ensures fields == ParsedFields(file, startOffset, DSI_SIZES, "DSI", DSI_SCRATCH, old(fields))
      ensures stopOffset == if SentinelMatches(file, startOffset, "DSI")
                            then startOffset + DSI_LENGTH else old(stopOffset)
    {
      var matched;
      fields, matched := ParseFields(file, startOffset, DSI_SIZES, "DSI", DSI_SCRATCH, fields);
      if matched {
        stopOffset := startOffset + DSI_LENGTH;
      }
    }

    function RecognitionSentinel(): (r: string)
      reads this
      requires Valid()
      ensures r == CString(FieldText(file, startOffset, 3))
    {
      assert fields[0] == DsiSlot(file, startOffset, 0);
      assert DSI_SIZES[0] == 3;
      CString(fields[0])
    }

    /** Field 2, the security classification code. */
    function SecurityCode(): (r: string)
      reads this
      requires Valid()
      ensures stopOffset != 0 ==> r == CString(FieldText(file, startOffset + DSI_SECURITY_CODE - 1, 1))
      ensures stopOffset == 0 ==> r == ""
    {
      DsiField(file, startOffset, 1, DSI_SECURITY_CODE, 1);
      assert fields[1] == DsiSlot(file, startOffset, 1);
      assert fields[1] == if stopOffset != 0 then FieldText(file, startOffset + DSI_SECURITY_CODE - 1, 1) else Blank(1);
      BlankFieldValue(fields[1]);
      CString(fields[1])
    }

    /** Field 6, the series designator giving the product level. */
    function ProductLevel(): (r: string)
      reads this
      requires Valid()
      ensures stopOffset != 0 ==> r == CString(FieldText(file, startOffset + DSI_DMA_SERIES - 1, 5))
      ensures stopOffset == 0 ==> r == ""
      ensures r == ProductLevelOf(file, startOffset)
    {
      DsiField(file, startOffset, 5, DSI_DMA_SERIES, 5);
      assert fields[5] == DsiSlot(file, startOffset, 5);
      assert fields[5] == if stopOffset != 0 then FieldText(file, startOffset + DSI_DMA_SERIES - 1, 5) else Blank(5);
      BlankFieldValue(fields[5]);
      CString(fields[5])
    }

    /** Field 9, the edition number. */
    function Edition(): (r: string)
      reads this
      requires Valid()
      ensures stopOffset != 0 ==> r == CString(FieldText(file, startOffset + DSI_DATA_EDITION - 1, 2))
      ensures stopOffset == 0 ==> r == ""
      ensures r == EditionOf(file, startOffset)
    {
      DsiField(file, startOffset, 8, DSI_DATA_EDITION, 2);
      assert fields[8] == DsiSlot(file, startOffset, 8);
      assert fields[8] == if stopOffset != 0 then FieldText(file, startOffset + DSI_DATA_EDITION - 1, 2) else Blank(2);
      BlankFieldValue(fields[8]);
      CString(fields[8])
    }

    /** Field 10, the match/merge version letter. */
    function MatchMergeVersion(): (r: string)
      reads this
      requires Valid()
      ensures stopOffset != 0 ==> r == CString(FieldText(file, startOffset + DSI_MATCH_MERGE_VERSION - 1, 1))
      ensures stopOffset == 0 ==> r == ""
    {
      DsiField(file, startOffset, 9, DSI_MATCH_MERGE_VERSION, 1);
      assert fields[9] == DsiSlot(file, startOffset, 9);
      assert fields[9] == if stopOffset != 0 then FieldText(file, startOffset + DSI_MATCH_MERGE_VERSION - 1, 1) else Blank(1);
      BlankFieldValue(fields[9]);
      CString(fields[9])
    }

    /** Field 11, the maintenance date. */
    function MaintenanceDate(): (r: string)
      reads this
      requires Valid()
      ensures stopOffset != 0 ==> r == CString(FieldText(file, startOffset + DSI_MAINTENANCE_DATE - 1, 4))
      ensures stopOffset == 0 ==> r == ""
    {
      DsiField(file, startOffset, 10, DSI_MAINTENANCE_DATE, 4);
      assert fields[10] == DsiSlot(file, startOffset, 10);
      assert fields[10] == if stopOffset != 0 then FieldText(file, startOffset + DSI_MAINTENANCE_DATE - 1, 4) else Blank(4);
      BlankFieldValue(fields[10]);
      CString(fields[10])
    }

    /** Field 12, the match/merge date. */
    function MatchMergeDate(): (r: string)
      reads this
      requires Valid()
      ensures stopOffset != 0 ==> r == CString(FieldText(file, startOffset + DSI_MATCH_MERGE_DATE - 1, 4))
      ensures stopOffset == 0 ==> r == ""
    {
      DsiField(file, startOffset, 11, DSI_MATCH_MERGE_DATE, 4);
      assert fields[11] == DsiSlot(file, startOffset, 11);
      assert fields[11] == if stopOffset != 0 then FieldText(file, startOffset + DSI_MATCH_MERGE_DATE - 1, 4) else Blank(4);
      BlankFieldValue(fields[11]);
      CString(fields[11])
    }

    /** Field 13, the maintenance description code. */
    function MaintenanceCode(): (r: string)
      reads this
      requires Valid()
      ensures stopOffset != 0 ==> r == CString(FieldText(file, startOffset + DSI_MAINTENANCE_CODE - 1, 4))
      ensures stopOffset == 0 ==> r == ""
    {
      DsiField(file, startOffset, 12, DSI_MAINTENANCE_CODE, 4);
      assert fields[12] == DsiSlot(file, startOffset, 12);
      assert fields[12] == if stopOffset != 0 then FieldText(file, startOffset + DSI_MAINTENANCE_CODE - 1, 4) else Blank(4);
      BlankFieldValue(fields[12]);
      CString(fields[12])
    }

    /** Field 14, the producer code. */
    function ProducerCode(): (r: string)
      reads this
      requires Valid()
      ensures stopOffset != 0 ==> r == CString(FieldText(file, startOffset + DSI_PRODUCER_CODE - 1, 8))
      ensures stopOffset == 0 ==> r == ""
    {
      DsiField(file, startOffset, 13, DSI_PRODUCER_CODE, 8);
      assert fields[13] == DsiSlot(file, startOffset, 13);
      assert fields[13] == if stopOffset != 0 then FieldText(file, startOffset + DSI_PRODUCER_CODE - 1, 8) else Blank(8);
      BlankFieldValue(fields[13]);
      CString(fields[13])
    }

    /** Field 16, the product specification stock number. */
    function ProductStockSpecNumber(): (r: string)
      reads this
      requires Valid()
      ensures stopOffset != 0 ==> r == CString(FieldText(file, startOffset + DSI_PRODUCT_SPEC_STOCK_NUMBER - 1, 9))
      ensures stopOffset == 0 ==> r == ""
    {
      DsiField(file, startOffset, 15, DSI_PRODUCT_SPEC_STOCK_NUMBER, 9);
      assert fields[15] == DsiSlot(file, startOffset, 15);
      assert fields[15] == if stopOffset != 0 then FieldText(file, startOffset + DSI_PRODUCT_SPEC_STOCK_NUMBER - 1, 9) else Blank(9);
      BlankFieldValue(fields[15]);
      CString(fields[15])
    }

    /** Field 17, the product specification amendment number. */
    function ProductSpecNumber(): (r: string)
      reads this
      requires Valid()
      ensures stopOffset != 0 ==> r == CString(FieldText(file, startOffset + DSI_PRODUCT_SPEC_NUMBER - 1, 2))
      ensures stopOffset == 0 ==> r == ""
    {
      DsiField(file, startOffset, 16, DSI_PRODUCT_SPEC_NUMBER, 2);
      assert fields[16] == DsiSlot(file, startOffset, 16);
      assert fields[16] == if stopOffset != 0 then FieldText(file, startOffset + DSI_PRODUCT_SPEC_NUMBER - 1, 2) else Blank(2);
      BlankFieldValue(fields[16]);
      CString(fields[16])
    }

    /** Field 18, the product specification date. */
    function ProductSpecDate(): (r: string)
      reads this
      requires Valid()
      ensures stopOffset != 0 ==> r == CString(FieldText(file, startOffset + DSI_PRODUCT_SPEC_DATE - 1, 4))
      ensures stopOffset == 0 ==> r == ""
    {
      DsiField(file, startOffset, 17, DSI_PRODUCT_SPEC_DATE, 4);
      assert fields[17] == DsiSlot(file, startOffset, 17);
      assert fields[17] == if stopOffset != 0 then FieldText(file, startOffset + DSI_PRODUCT_SPEC_DATE - 1, 4) else Blank(4);
      BlankFieldValue(fields[17]);
      CString(fields[17])
    }

    /** Field 19, the vertical datum. */
    function VerticalDatum(): (r: string)
      reads this
      requires Valid()
      ensures stopOffset != 0 ==> r == CString(FieldText(file, startOffset + DSI_VERTICAL_DATUM - 1, 3))
      ensures stopOffset == 0 ==> r == ""
    {
      DsiField(file, startOffset, 18, DSI_VERTICAL_DATUM, 3);
      assert fields[18] == DsiSlot(file, startOffset, 18);
      assert fields[18] == if stopOffset != 0 then FieldText(file, startOffset + DSI_VERTICAL_DATUM - 1, 3) else Blank(3);
      BlankFieldValue(fields[18]);
      CString(fields[18])
    }

    /** Field 20, the horizontal datum code. */
    function HorizontalDatum(): (r: string)
      reads this
      requires Valid()
      ensures stopOffset != 0 ==> r == CString(FieldText(file, startOffset + DSI_HORIZ_DATUM - 1, 5))
      ensures stopOffset == 0 ==> r == ""
    {
      DsiField(file, startOffset, 19, DSI_HORIZ_DATUM, 5);
      assert fields[19] == DsiSlot(file, startOffset, 19);
      assert fields[19] == if stopOffset != 0 then FieldText(file, startOffset + DSI_HORIZ_DATUM - 1, 5) else Blank(5);
      BlankFieldValue(fields[19]);
      CString(fields[19])
    }

    /** Field 22, the compilation date. */
    function CompilationDate(): (r: string)
      reads this
      requires Valid()
      ensures stopOffset != 0 ==> r == CString(FieldText(file, startOffset + DSI_COMPILATION_DATE - 1, 4))
      ensures stopOffset == 0 ==> r == ""
      ensures r == CompilationDateOf(file, startOffset)
    {
      DsiField(file, startOffset, 21, DSI_COMPILATION_DATE, 4);
      assert fields[21] == DsiSlot(file, startOffset, 21);
      assert fields[21] == if stopOffset != 0 then FieldText(file, startOffset + DSI_COMPILATION_DATE - 1, 4) else Blank(4);
      BlankFieldValue(fields[21]);
      CString(fields[21])
    }

    /** Field 24, the latitude of the data origin. */
    function LatOrigin(): (r: string)
      reads this
      requires Valid()
      ensures stopOffset != 0 ==> r == CString(FieldText(file, startOffset + DSI_LAT_ORIGIN - 1, 9))
      ensures stopOffset == 0 ==> r == ""
    {
      DsiField(file, startOffset, 23, DSI_LAT_ORIGIN, 9);
      assert fields[23] == DsiSlot(file, startOffset, 23);
      assert fields[23] == if stopOffset != 0 then FieldText(file, startOffset + DSI_LAT_ORIGIN - 1, 9) else Blank(9);
      BlankFieldValue(fields[23]);
      CString(fields[23])
    }

    /** Field 25, the longitude of the data origin. */
    function LonOrigin(): (r: string)
      reads this
      requires Valid()
      ensures stopOffset != 0 ==> r == CString(FieldText(file, startOffset + DSI_LON_ORIGIN - 1, 10))
      ensures stopOffset == 0 ==> r == ""
    {
      DsiField(file, startOffset, 24, DSI_LON_ORIGIN, 10);
      assert fields[24] == DsiSlot(file, startOffset, 24);
      assert fields[24] == if stopOffset != 0 then FieldText(file, startOffset + DSI_LON_ORIGIN - 1, 10) else Blank(10);
      BlankFieldValue(fields[24]);
      CString(fields[24])
    }

    /** Field 26, the latitude of the south-west corner. */
    function LatSW(): (r: string)
      reads this
      requires Valid()
      ensures stopOffset != 0 ==> r == CString(FieldText(file, startOffset + DSI_LAT_SW - 1, 7))
      ensures stopOffset == 0 ==> r == ""
    {
      DsiField(file, startOffset, 25, DSI_LAT_SW, 7);
      assert fields[25] == DsiSlot(file, startOffset, 25);
      assert fields[25] == if stopOffset != 0 then FieldText(file, startOffset + DSI_LAT_SW - 1, 7) else Blank(7);
      BlankFieldValue(fields[25]);
      CString(fields[25])
    }

    /** Field 27, the longitude of the south-west corner. */
    function LonSW(): (r: string)
      reads this
      requires Valid()
      ensures stopOffset != 0 ==> r == CString(FieldText(file, startOffset + DSI_LON_SW - 1, 8))
      ensures stopOffset == 0 ==> r == ""
    {
      DsiField(file, startOffset, 26, DSI_LON_SW, 8);
      assert fields[26] == DsiSlot(file, startOffset, 26);
      assert fields[26] == if stopOffset != 0 then FieldText(file, startOffset + DSI_LON_SW - 1, 8) else Blank(8);
      BlankFieldValue(fields[26]);
      CString(fields[26])
    }

    /** Field 28, the latitude of the north-west corner. */
    function LatNW(): (r: string)
      reads this
      requires Valid()
      ensures stopOffset != 0 ==> r == CString(FieldText(file, startOffset + DSI_LAT_NW - 1, 7))
      ensures stopOffset == 0 ==> r == ""
    {
      DsiField(file, startOffset, 27, DSI_LAT_NW, 7);
      assert fields[27] == DsiSlot(file, startOffset, 27);
      assert fields[27] == if stopOffset != 0 then FieldText(file, startOffset + DSI_LAT_NW - 1, 7) else Blank(7);
      BlankFieldValue(fields[27]);
      CString(fields[27])
    }

    /** Field 29, the longitude of the north-west corner. */
    function LonNW(): (r: string)
      reads this
      requires Valid()
      ensures stopOffset != 0 ==> r == CString(FieldText(file, startOffset + DSI_LON_NW - 1, 8))
      ensures stopOffset == 0 ==> r == ""
    {
      DsiField(file, startOffset, 28, DSI_LON_NW, 8);
      assert fields[28] == DsiSlot(file, startOffset, 28);
      assert fields[28] == if stopOffset != 0 then FieldText(file, startOffset + DSI_LON_NW - 1, 8) else Blank(8);
      BlankFieldValue(fields[28]);
      CString(fields[28])
    }

    /** Field 30, the latitude of the north-east corner. */
    function LatNE(): (r: string)
      reads this
      requires Valid()
      ensures stopOffset != 0 ==> r == CString(FieldText(file, startOffset + DSI_LAT_NE - 1, 7))
      ensures stopOffset == 0 ==> r == ""
    {
      DsiField(file, startOffset, 29, DSI_LAT_NE, 7);
      assert fields[29] == DsiSlot(file, startOffset, 29);
      assert fields[29] == if stopOffset != 0 then FieldText(file, startOffset + DSI_LAT_NE - 1, 7) else Blank(7);
      BlankFieldValue(fields[29]);
      CString(fields[29])
    }

    /** Field 31, the longitude of the north-east corner. */
    function LonNE(): (r: string)
      reads this
      requires Valid()
      ensures stopOffset != 0 ==> r == CString(FieldText(file, startOffset + DSI_LON_NE - 1, 8))
      ensures stopOffset == 0 ==> r == ""
    {
      DsiField(file, startOffset, 30, DSI_LON_NE, 8);
      assert fields[30] == DsiSlot(file, startOffset, 30);
      assert fields[30] == if stopOffset != 0 then FieldText(file, startOffset + DSI_LON_NE - 1, 8) else Blank(8);
      BlankFieldValue(fields[30]);
      CString(fields[30])
    }

    /** Field 32, the latitude of the south-east corner. */
    function LatSE(): (r: string)
      reads this
      requires Valid()
      ensures stopOffset != 0 ==> r == CString(FieldText(file, startOffset + DSI_LAT_SE - 1, 7))
      ensures stopOffset == 0 ==> r == ""
    {
      DsiField(file, startOffset, 31, DSI_LAT_SE, 7);
      assert fields[31] == DsiSlot(file, startOffset, 31);
      assert fields[31] == if stopOffset != 0 then FieldText(file, startOffset + DSI_LAT_SE - 1, 7) else Blank(7);
      BlankFieldValue(fields[31]);
      CString(fields[31])
    }

    /** Field 33, the longitude of the south-east corner. */
    function LonSE(): (r: string)
      reads this
      requires Valid()
      ensures stopOffset != 0 ==> r == CString(FieldText(file, startOffset + DSI_LON_SE - 1, 8))
      ensures stopOffset == 0 ==> r == ""
    {
      DsiField(file, startOffset, 32, DSI_LON_SE, 8);
      assert fields[32] == DsiSlot(file, startOffset, 32);
      assert fields[32] == if stopOffset != 0 then FieldText(file, startOffset + DSI_LON_SE - 1, 8) else Blank(8);
      BlankFieldValue(fields[32]);
      CString(fields[32])
    }

    /** Field 34, the clockwise orientation angle. */
    function Orientation(): (r: string)
      reads this
      requires Valid()
      ensures stopOffset != 0 ==> r == CString(FieldText(file, startOffset + DSI_ORIENTATION - 1, 9))
      ensures stopOffset == 0 ==> r == ""
    {
      DsiField(file, startOffset, 33, DSI_ORIENTATION, 9);
      assert fields[33] == DsiSlot(file, startOffset, 33);
      assert fields[33] == if stopOffset != 0 then FieldText(file, startOffset + DSI_ORIENTATION - 1, 9) else Blank(9);
      BlankFieldValue(fields[33]);
      CString(fields[33])
    }

    /** Field 35, the latitude interval in tenths of seconds. */
    function LatInterval(): (r: string)
      reads this
      requires Valid()
      ensures stopOffset != 0 ==> r == CString(FieldText(file, startOffset + DSI_LAT_INTERVAL - 1, 4))
      ensures stopOffset == 0 ==> r == ""
    {
      DsiField(file, startOffset, 34, DSI_LAT_INTERVAL, 4);
      assert fields[34] == DsiSlot(file, startOffset, 34);
      assert fields[34] == if stopOffset != 0 then FieldText(file, startOffset + DSI_LAT_INTERVAL - 1, 4) else Blank(4);
      BlankFieldValue(fields[34]);
      CString(fields[34])
    }

    /** Field 36, the longitude interval in tenths of seconds. */
    function LonInterval(): (r: string)
      reads this
      requires Valid()
      ensures stopOffset != 0 ==> r == CString(FieldText(file, startOffset + DSI_LON_INTERVAL - 1, 4))
      ensures stopOffset == 0 ==> r == ""
    {
      DsiField(file, startOffset, 35, DSI_LON_INTERVAL, 4);
      assert fields[35] == DsiSlot(file, startOffset, 35);
      assert fields[35] == if stopOffset != 0 then FieldText(file, startOffset + DSI_LON_INTERVAL - 1, 4) else Blank(4);
      BlankFieldValue(fields[35]);
      CString(fields[35])
    }

    /** Field 37, the number of latitude lines, as its decimal value. */
    function NumLatPoints(): (r: int)
      reads this
      requires Valid()
      ensures stopOffset != 0 ==> r == Atoi(CString(FieldText(file, startOffset + DSI_NUM_LAT_LINES - 1, 4)))
      ensures stopOffset != 0 && AllDigits(FieldText(file, startOffset + DSI_NUM_LAT_LINES - 1, 4)) ==>
        r == DigitsValue(FieldText(file, startOffset + DSI_NUM_LAT_LINES - 1, 4))
      ensures stopOffset == 0 ==> r == 0
    {
      DsiField(file, startOffset, 36, DSI_NUM_LAT_LINES, 4);
      assert fields[36] == DsiSlot(file, startOffset, 36);
      assert fields[36] == if stopOffset != 0 then FieldText(file, startOffset + DSI_NUM_LAT_LINES - 1, 4) else Blank(4);
      BlankFieldValue(fields[36]);
      DigitFieldValue(fields[36]);
      Atoi(CString(fields[36]))
    }

    /** Field 38, the number of longitude lines, as its decimal value. */
    function NumLonLines(): (r: int)
      reads this
      requires Valid()
      ensures stopOffset != 0 ==> r == Atoi(CString(FieldText(file, startOffset + DSI_NUM_LON_LINES - 1, 4)))
      ensures stopOffset != 0 && AllDigits(FieldText(file, startOffset + DSI_NUM_LON_LINES - 1, 4)) ==>
        r == DigitsValue(FieldText(file, startOffset + DSI_NUM_LON_LINES - 1, 4))
      ensures stopOffset == 0 ==> r == 0
    {
      DsiField(file, startOffset, 37, DSI_NUM_LON_LINES, 4);
      assert fields[37] == DsiSlot(file, startOffset, 37);
      assert fields[37] == if stopOffset != 0 then FieldText(file, startOffset + DSI_NUM_LON_LINES - 1, 4) else Blank(4);
      BlankFieldValue(fields[37]);
      DigitFieldValue(fields[37]);
      Atoi(CString(fields[37]))
    }

    /** Field 39, the partial cell indicator, as its decimal value. */
    function CellIndicator(): (r: int)
      reads this
      requires Valid()
      ensures stopOffset != 0 ==> r == Atoi(CString(FieldText(file, startOffset + DSI_PARTIAL_CELL_INDICATOR - 1, 2)))
      ensures stopOffset != 0 && AllDigits(FieldText(file, startOffset + DSI_PARTIAL_CELL_INDICATOR - 1, 2)) ==>
        r == DigitsValue(FieldText(file, startOffset + DSI_PARTIAL_CELL_INDICATOR - 1, 2))
      ensures stopOffset == 0 ==> r == 0
    {
      DsiField(file, startOffset, 38, DSI_PARTIAL_CELL_INDICATOR, 2);
      assert fields[38] == DsiSlot(file, startOffset, 38);
      assert fields[38] == if stopOffset != 0 then FieldText(file, startOffset + DSI_PARTIAL_CELL_INDICATOR - 1, 2) else Blank(2);
      BlankFieldValue(fields[38]);
      DigitFieldValue(fields[38]);
      Atoi(CString(fields[38]))
    }
  }
}
