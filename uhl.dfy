/**
 * The user header label (UHL): the 80-byte record that gives the tile's
 * origin, its post spacing and the size of its elevation matrix. The parser
 * reads fields 1 to 12; the 24 reserved bytes of field 13 are never read.
 */
module DtedUhl {
  import opened CText
  import opened DtedFields

  const UHL_LENGTH: nat := 80

  /** 1-based field positions named by the layout enumeration. */
  const UHL_LON_ORIGIN: nat := 5
  const UHL_LAT_ORIGIN: nat := 13
  const UHL_LON_INTERVAL: nat := 21
  const UHL_LAT_INTERVAL: nat := 25
  const UHL_ABSOLUTE_LE: nat := 29
  const UHL_SECURITY_CODE: nat := 33
  const UHL_REFERENCE_NUM: nat := 33
  const UHL_NUM_LON_LINES: nat := 48
  const UHL_NUM_LAT_LINES: nat := 52
  const UHL_MULTIPLE_ACC: nat := 56
  const UHL_RESERVED: nat := 57

  /** Sizes of the twelve fields the parser reads. */
  const UHL_SIZES: seq<nat> := [3, 1, 8, 8, 4, 4, 4, 3, 12, 4, 4, 1]

  /** Size of the reserved field 13, which is skipped. */
  const UHL_FIELD13_SIZE: nat := 24

  /**
   * Start of each field read. Field 2 has no position constant; field 9 (the
   * unique reference number) starts at 36, while UHL_REFERENCE_NUM says 33.
   */
  const UHL_POSITIONS: seq<nat> :=
    [1, 4, UHL_LON_ORIGIN, UHL_LAT_ORIGIN, UHL_LON_INTERVAL, UHL_LAT_INTERVAL,
     UHL_ABSOLUTE_LE, UHL_SECURITY_CODE, 36, UHL_NUM_LON_LINES, UHL_NUM_LAT_LINES,
     UHL_MULTIPLE_ACC]

  function UhlFields(file: seq<bv8>, start: nat): seq<seq<char>> {
    ParsedFields(file, start, UHL_SIZES, "UHL", {}, BlankFields(UHL_SIZES))
  }

  function UhlStop(file: seq<bv8>, start: nat): nat {
    if SentinelMatches(file, start, "UHL") then start + UHL_LENGTH else 0
  }

  /**
   * The twelve fields read take the first 56 bytes and field 13 fills the
   * rest of the record from UHL_RESERVED on; of the position constants only
   * UHL_REFERENCE_NUM disagrees with the field sizes, repeating
   * UHL_SECURITY_CODE where field 9 actually starts at 36.
   */
  lemma UhlLayout()
    ensures Consecutive(UHL_SIZES, UHL_POSITIONS, UHL_RESERVED - 1)
    ensures Offset(UHL_SIZES, |UHL_SIZES|) == UHL_RESERVED - 1 == 56
    ensures UHL_RESERVED - 1 + UHL_FIELD13_SIZE == UHL_LENGTH
    ensures Offset(UHL_SIZES, 8) + 1 == 36 != UHL_REFERENCE_NUM == UHL_SECURITY_CODE
  {
    OffsetsArePositions(UHL_SIZES, UHL_POSITIONS, 56, |UHL_SIZES|);
    OffsetsArePositions(UHL_SIZES, UHL_POSITIONS, 56, 8);
  }

  /** Field k+1 of a UHL record: the text at its position, or blank without the sentinel. */
  lemma UhlField(file: seq<bv8>, start: nat, k: nat)
    requires 0 < k < |UHL_SIZES|
    ensures UhlFields(file, start)[k] ==
      if SentinelMatches(file, start, "UHL") then FieldText(file, start + UHL_POSITIONS[k] - 1, UHL_SIZES[k])
      else Blank(UHL_SIZES[k])
  {
    ParsedFieldAt(file, start, UHL_SIZES, UHL_POSITIONS, 56, "UHL", {}, k);
  }

  /**
   * The decimal value of the character c stands for, as (c - '0') in C with
   * a signed char: a byte from 0x80 up counts as that byte minus 256.
   */
  function DigitReal(c: char): real {
    var v := c as int;
    ((if 128 <= v < 256 then v - 256 else v) - '0' as int) as real
  }

  /** A file byte from 0x80 up stands for a negative digit value, below -48. */
  lemma HighByteDigitNegative(b: bv8)
    requires b >= 0x80
    ensures DigitReal(CharOf(b)) == (b as int - 256 - 48) as real
    ensures DigitReal(CharOf(b)) < -48.0
  {
  }

  /**
   * A DDDMMSSH angle as decimal degrees: 0.0 when the text is shorter than
   * eight characters, negative for a south or west hemisphere letter.
   */
  function DegreesFromString(str: seq<char>): real
  {
    if |str| < 8 then 0.0
    else
      var d := DigitReal(str[0]) * 100.0 + DigitReal(str[1]) * 10.0 + DigitReal(str[2])
               + DigitReal(str[3]) / 6.0 + DigitReal(str[4]) / 60.0
               + DigitReal(str[5]) / 360.0 + DigitReal(str[6]) / 3600.0;
      if str[7] == 'S' || str[7] == 's' || str[7] == 'W' || str[7] == 'w' then d * -1.0 else d
  }

  /** Tenths of arc seconds as decimal degrees. */
  function SpacingFromString(str: seq<char>): real
  {
    Atoi(str) as real / 36000.0
  }

  /** The DDDMMSSH text of an angle given in whole degrees, minutes and seconds. */
  function DmsText(deg: nat, min: nat, sec: nat, hemisphere: char): (t: seq<char>)
    requires deg < 1000 && min < 100 && sec < 100
    ensures |t| == 8
  {
    [DigitChar(deg / 100), DigitChar(deg / 10 % 10), DigitChar(deg % 10),
     DigitChar(min / 10), DigitChar(min % 10), DigitChar(sec / 10), DigitChar(sec % 10),
     hemisphere]
  }

  lemma DigitRealOfDigitChar(d: nat)
    requires d < 10
    ensures DigitReal(DigitChar(d)) == d as real
  {
  }

  /**
   * Decoding the text of an angle gives back the angle, degrees plus
   * minutes/60 plus seconds/3600, negated for S, s, W and w.
   */
  lemma DegreesOfDmsText(deg: nat, min: nat, sec: nat, hemisphere: char)
    requires deg < 1000 && min < 100 && sec < 100
    ensures DegreesFromString(DmsText(deg, min, sec, hemisphere)) ==
      (if hemisphere in "SsWw" then -1.0 else 1.0)
        * (deg as real + min as real / 60.0 + sec as real / 3600.0)
  {
    var t := DmsText(deg, min, sec, hemisphere);
    DigitRealOfDigitChar(deg / 100);
    DigitRealOfDigitChar(deg / 10 % 10);
    DigitRealOfDigitChar(deg % 10);
    DigitRealOfDigitChar(min / 10);
    DigitRealOfDigitChar(min % 10);
    DigitRealOfDigitChar(sec / 10);
    DigitRealOfDigitChar(sec % 10);
    assert deg == 100 * (deg / 100) + 10 * (deg / 10 % 10) + deg % 10;
    assert min == 10 * (min / 10) + min % 10;
    assert sec == 10 * (sec / 10) + sec % 10;
    assert hemisphere in "SsWw" <==>
      (t[7] == 'S' || t[7] == 's' || t[7] == 'W' || t[7] == 'w');
  }

  /** A spacing field holding n in decimal reads back as n tenths of a second. */
  lemma SpacingOfPaddedText(n: nat)
    ensures SpacingFromString(PaddedText(n, 4)) == n as real / 36000.0
  {
    AtoiOfPaddedText(n, 4);
  }

  /** The longitude line count a UHL record at start yields, 0 without the sentinel. */
  function NumLonLinesOf(file: seq<bv8>, start: nat): int {
    if UhlStop(file, start) != 0 then Atoi(CString(FieldText(file, start + UHL_NUM_LON_LINES - 1, 4)))
    else 0
  }

  /** The latitude point count a UHL record at start yields, 0 without the sentinel. */
  function NumLatPointsOf(file: seq<bv8>, start: nat): int {
    if UhlStop(file, start) != 0 then Atoi(CString(FieldText(file, start + UHL_NUM_LAT_LINES - 1, 4)))
    else 0
  }

  /** The latitude spacing a UHL record at start yields, 0.0 without the sentinel. */
  function LatIntervalOf(file: seq<bv8>, start: nat): real {
    if UhlStop(file, start) != 0 then SpacingFromString(CString(FieldText(file, start + UHL_LAT_INTERVAL - 1, 4)))
    else 0.0
  }

  /** The longitude spacing a UHL record at start yields, 0.0 without the sentinel. */
  function LonIntervalOf(file: seq<bv8>, start: nat): real {
    if UhlStop(file, start) != 0 then SpacingFromString(CString(FieldText(file, start + UHL_LON_INTERVAL - 1, 4)))
    else 0.0
  }

  /** The origin latitude a UHL record at start yields, 0.0 without the sentinel. */
  function LatOriginOf(file: seq<bv8>, start: nat): real {
    if UhlStop(file, start) != 0 then DegreesFromString(CString(FieldText(file, start + UHL_LAT_ORIGIN - 1, 8)))
    else 0.0
  }

  /** The origin longitude a UHL record at start yields, 0.0 without the sentinel. */
  function LonOriginOf(file: seq<bv8>, start: nat): real {
    if UhlStop(file, start) != 0 then DegreesFromString(CString(FieldText(file, start + UHL_LON_ORIGIN - 1, 8)))
    else 0.0
  }

  class DtedUhl {
    const file: seq<bv8>
    const startOffset: nat
    /** fields[k] is the buffer of field k+1 (without its terminating NUL). */
    var fields: seq<seq<char>>
    var stopOffset: nat

    ghost predicate Valid()
      reads this
    {
      fields == UhlFields(file, startOffset) && stopOffset == UhlStop(file, startOffset)
    }

    constructor(file: seq<bv8>, offset: nat)
      ensures this.file == file && startOffset == offset && Valid()
      ensures stopOffset != 0 <==> SentinelMatches(file, offset, "UHL")
      ensures stopOffset == UhlStop(file, offset)
    {
      this.file := file;
      startOffset := offset;
      fields := BlankFields(UHL_SIZES);
      stopOffset := 0;
      new;
      Parse();
    }

    /** The sentinel, then, if it is "UHL", fields 2 to 12 and the stop offset. */
    method Parse()
      requires |fields| == |UHL_SIZES|
      modifies this
      ensures fields == ParsedFields(file, startOffset, UHL_SIZES, "UHL", {}, old(fields))
      ensures stopOffset == if SentinelMatches(file, startOffset, "UHL")
                            then startOffset + UHL_LENGTH else old(stopOffset)
    {
      var matched;
      fields, matched := ParseFields(file, startOffset, UHL_SIZES, "UHL", {}, fields);
      if matched {
        stopOffset := startOffset + UHL_LENGTH;
      }
    }

    function RecognitionSentinel(): (r: string)
      reads this
      requires Valid()
      ensures r == CString(FieldText(file, startOffset, 3))
    {
      ParsedSentinelAt(file, startOffset, UHL_SIZES, "UHL", {}, BlankFields(UHL_SIZES));
      assert fields[0] == FieldText(file, startOffset, 3);
      CString(fields[0])
    }

    /** Longitude of the south-west corner, from the DDDMMSSH text at UHL_LON_ORIGIN. */
    function LonOrigin(): (r: real)
      reads this
      requires Valid()
      ensures stopOffset != 0 ==> r == DegreesFromString(CString(FieldText(file, startOffset + UHL_LON_ORIGIN - 1, 8)))
      ensures stopOffset == 0 ==> r == 0.0
      ensures r == LonOriginOf(file, startOffset)
    {
      UhlField(file, startOffset, 2);
      assert fields[2] == if stopOffset != 0 then FieldText(file, startOffset + UHL_LON_ORIGIN - 1, 8) else Blank(8);
      BlankFieldValue(fields[2]);
      DegreesFromString(CString(fields[2]))
    }

    /** Latitude of the south-west corner, from the DDDMMSSH text at UHL_LAT_ORIGIN. */
    function LatOrigin(): (r: real)
      reads this
      requires Valid()
      ensures stopOffset != 0 ==> r == DegreesFromString(CString(FieldText(file, startOffset + UHL_LAT_ORIGIN - 1, 8)))
      ensures stopOffset == 0 ==> r == 0.0
      ensures r == LatOriginOf(file, startOffset)
    {
      UhlField(file, startOffset, 3);
      assert fields[3] == if stopOffset != 0 then FieldText(file, startOffset + UHL_LAT_ORIGIN - 1, 8) else Blank(8);
      BlankFieldValue(fields[3]);
      DegreesFromString(CString(fields[3]))
    }

    /** Longitude spacing in degrees, from the tenths of seconds at UHL_LON_INTERVAL. */
    function LonInterval(): (r: real)
      reads this
      requires Valid()
      ensures stopOffset != 0 ==> r == SpacingFromString(CString(FieldText(file, startOffset + UHL_LON_INTERVAL - 1, 4)))
      ensures stopOffset == 0 ==> r == 0.0
      ensures r == LonIntervalOf(file, startOffset)
    {
      UhlField(file, startOffset, 4);
      assert fields[4] == if stopOffset != 0 then FieldText(file, startOffset + UHL_LON_INTERVAL - 1, 4) else Blank(4);
      BlankFieldValue(fields[4]);
      SpacingFromString(CString(fields[4]))
    }

    /** Latitude spacing in degrees, from the tenths of seconds at UHL_LAT_INTERVAL. */
    function LatInterval(): (r: real)
      reads this
      requires Valid()
      ensures stopOffset != 0 ==> r == SpacingFromString(CString(FieldText(file, startOffset + UHL_LAT_INTERVAL - 1, 4)))
      ensures stopOffset == 0 ==> r == 0.0
      ensures r == LatIntervalOf(file, startOffset)
    {
      UhlField(file, startOffset, 5);
      assert fields[5] == if stopOffset != 0 then FieldText(file, startOffset + UHL_LAT_INTERVAL - 1, 4) else Blank(4);
      BlankFieldValue(fields[5]);
      SpacingFromString(CString(fields[5]))
    }

    /** Absolute vertical accuracy, the decimal value at UHL_ABSOLUTE_LE. */
    function AbsoluteLE(): (r: real)
      reads this
      requires Valid()
      ensures stopOffset != 0 ==> r == Atoi(CString(FieldText(file, startOffset + UHL_ABSOLUTE_LE - 1, 4))) as real
      ensures stopOffset == 0 ==> r == 0.0
    {
      UhlField(file, startOffset, 6);
      assert fields[6] == if stopOffset != 0 then FieldText(file, startOffset + UHL_ABSOLUTE_LE - 1, 4) else Blank(4);
      BlankFieldValue(fields[6]);
      Atoi(CString(fields[6])) as real
    }

    function SecurityCode(): (r: string)
      reads this
      requires Valid()
      ensures stopOffset != 0 ==> r == CString(FieldText(file, startOffset + UHL_SECURITY_CODE - 1, 3))
      ensures stopOffset == 0 ==> r == ""
    {
      UhlField(file, startOffset, 7);
      assert fields[7] == if stopOffset != 0 then FieldText(file, startOffset + UHL_SECURITY_CODE - 1, 3) else Blank(3);
      BlankFieldValue(fields[7]);
      CString(fields[7])
    }

    /** Number of longitude lines: the value of the decimal digits at UHL_NUM_LON_LINES. */
    function NumLonLines(): (r: int)
      reads this
      requires Valid()
      ensures stopOffset != 0 ==> r == Atoi(CString(FieldText(file, startOffset + UHL_NUM_LON_LINES - 1, 4)))
      ensures stopOffset != 0 && AllDigits(FieldText(file, startOffset + UHL_NUM_LON_LINES - 1, 4)) ==>
        r == DigitsValue(FieldText(file, startOffset + UHL_NUM_LON_LINES - 1, 4))
      ensures stopOffset == 0 ==> r == 0
      ensures r == NumLonLinesOf(file, startOffset)
    {
      UhlField(file, startOffset, 9);
      assert fields[9] == if stopOffset != 0 then FieldText(file, startOffset + UHL_NUM_LON_LINES - 1, 4) else Blank(4);
      BlankFieldValue(fields[9]);
      DigitFieldValue(fields[9]);
      Atoi(CString(fields[9]))
    }

    /** Number of points per longitude line: the decimal digits at UHL_NUM_LAT_LINES. */
    function NumLatPoints(): (r: int)
      reads this
      requires Valid()
      ensures stopOffset != 0 ==> r == Atoi(CString(FieldText(file, startOffset + UHL_NUM_LAT_LINES - 1, 4)))
      ensures stopOffset != 0 && AllDigits(FieldText(file, startOffset + UHL_NUM_LAT_LINES - 1, 4)) ==>
        r == DigitsValue(FieldText(file, startOffset + UHL_NUM_LAT_LINES - 1, 4))
      ensures stopOffset == 0 ==> r == 0
      ensures r == NumLatPointsOf(file, startOffset)
    {
      UhlField(file, startOffset, 10);
      assert fields[10] == if stopOffset != 0 then FieldText(file, startOffset + UHL_NUM_LAT_LINES - 1, 4) else Blank(4);
      BlankFieldValue(fields[10]);
      DigitFieldValue(fields[10]);
      Atoi(CString(fields[10]))
    }

    function MultipleAccuracy(): (r: int)
      reads this
      requires Valid()
      ensures stopOffset != 0 ==> r == Atoi(CString(FieldText(file, startOffset + UHL_MULTIPLE_ACC - 1, 1)))
      ensures stopOffset == 0 ==> r == 0
    {
      UhlField(file, startOffset, 11);
      assert fields[11] == if stopOffset != 0 then FieldText(file, startOffset + UHL_MULTIPLE_ACC - 1, 1) else Blank(1);
      BlankFieldValue(fields[11]);
      Atoi(CString(fields[11]))
    }
  }
}
