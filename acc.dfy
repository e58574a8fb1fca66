/**
 * The accuracy description record (ACC): a 2700-byte record following the
 * DSI record. The parser reads fields 1 to 17, the first 112 bytes; the
 * accuracy subregion descriptions from field 18 on are skipped by the stop
 * offset.
 */
module DtedAcc {
  import opened CText
  import opened DtedFields

  const ACC_LENGTH: nat := 2700

  /** 1-based field positions named by the layout enumeration. */
  const ACC_ABSOLUTE_CE: nat := 4
  const ACC_ABSOLUTE_LE: nat := 8
  const ACC_RELATIVE_CE: nat := 12
  const ACC_RELATIVE_LE: nat := 16
  const ACC_RESERVED_1: nat := 20
  const ACC_RESERVED_2: nat := 24
  const ACC_RESERVED_3: nat := 25
  const ACC_MULTIPLE_FLAG: nat := 56
  const ACC_RESERVED: nat := 58

  /** Sizes of the seventeen fields the parser reads. */
  const ACC_SIZES: seq<nat> := [3, 4, 4, 4, 4, 4, 1, 31, 2, 4, 4, 4, 4, 2, 9, 10, 18]

  /** Size of field 18, the first field that is not read. */
  const ACC_FIELD18_SIZE: nat := 69

  /** Start of each field read; fields 10 to 17 have no position constant of their own. */
  const ACC_POSITIONS: seq<nat> :=
    [1, ACC_ABSOLUTE_CE, ACC_ABSOLUTE_LE, ACC_RELATIVE_CE, ACC_RELATIVE_LE, ACC_RESERVED_1,
     ACC_RESERVED_2, ACC_RESERVED_3, ACC_MULTIPLE_FLAG, ACC_RESERVED, 62, 66, 70, 74, 76, 85, 95]

  /** The part of the record the parser reads. */
  const ACC_READ_LENGTH: nat := 112

  function AccFields(file: seq<bv8>, start: nat): seq<seq<char>> {
    ParsedFields(file, start, ACC_SIZES, "ACC", {}, BlankFields(ACC_SIZES))
  }

  function AccStop(file: seq<bv8>, start: nat): nat {
    if SentinelMatches(file, start, "ACC") then start + ACC_LENGTH else 0
  }

  /**
   * The seventeen fields read lie back to back in the first 112 bytes, each
   * at its listed position, and field 18 starts right after them; the stop
   * offset skips the remaining 2588 bytes.
   */
  lemma AccLayout()
    ensures Consecutive(ACC_SIZES, ACC_POSITIONS, ACC_READ_LENGTH)
    ensures Offset(ACC_SIZES, |ACC_SIZES|) == ACC_READ_LENGTH < ACC_LENGTH
    ensures ACC_READ_LENGTH + ACC_FIELD18_SIZE <= ACC_LENGTH
  {
    OffsetsArePositions(ACC_SIZES, ACC_POSITIONS, ACC_READ_LENGTH, |ACC_SIZES|);
  }

  /** Field k+1 of an ACC record: the text at its position, or blank without the sentinel. */
  lemma AccField(file: seq<bv8>, start: nat, k: nat)
    requires 0 < k < |ACC_SIZES|
    ensures AccFields(file, start)[k] ==
      if SentinelMatches(file, start, "ACC") then FieldText(file, start + ACC_POSITIONS[k] - 1, ACC_SIZES[k])
      else Blank(ACC_SIZES[k])
  {
    ParsedFieldAt(file, start, ACC_SIZES, ACC_POSITIONS, ACC_READ_LENGTH, "ACC", {}, k);
  }

  class DtedAcc {
    const file: seq<bv8>
    const startOffset: nat
    /** fields[k] is the buffer of field k+1 (without its terminating NUL). */
    var fields: seq<seq<char>>
    var stopOffset: nat

    ghost predicate Valid()
      reads this
    {
      fields == AccFields(file, startOffset) && stopOffset == AccStop(file, startOffset)
    }

    constructor(file: seq<bv8>, offset: nat)
      ensures this.file == file && startOffset == offset && Valid()
      ensures stopOffset != 0 <==> SentinelMatches(file, offset, "ACC")
      ensures stopOffset == AccStop(file, offset)
    {
      this.file := file;
      startOffset := offset;
      fields := BlankFields(ACC_SIZES);
      stopOffset := 0;
      new;
      Parse();
    }

    /** The sentinel, then, if it is "ACC", fields 2 to 17 and the stop offset. */
    method Parse()
      requires |fields| == |ACC_SIZES|
      modifies this
      ensures fields == ParsedFields(file, startOffset, ACC_SIZES, "ACC", {}, old(fields))
      ensures stopOffset == if SentinelMatches(file, startOffset, "ACC")
                            then startOffset + ACC_LENGTH else old(stopOffset)
    {
      var matched;
      fields, matched := ParseFields(file, startOffset, ACC_SIZES, "ACC", {}, fields);
      if matched {
        stopOffset := startOffset + ACC_LENGTH;
      }
    }

    function RecognitionSentinel(): (r: string)
      reads this
      requires Valid()
      ensures r == CString(FieldText(file, startOffset, 3))
    {
      ParsedSentinelAt(file, startOffset, ACC_SIZES, "ACC", {}, BlankFields(ACC_SIZES));
      assert fields[0] == FieldText(file, startOffset, 3);
      CString(fields[0])
    }

    /** Absolute horizontal accuracy: the decimal value of the four bytes at ACC_ABSOLUTE_CE. */
    function AbsCE(): (r: int)
      reads this
      requires Valid()
      ensures stopOffset != 0 ==> r == Atoi(CString(FieldText(file, startOffset + ACC_ABSOLUTE_CE - 1, 4)))
      ensures stopOffset != 0 && AllDigits(FieldText(file, startOffset + ACC_ABSOLUTE_CE - 1, 4)) ==>
        r == DigitsValue(FieldText(file, startOffset + ACC_ABSOLUTE_CE - 1, 4))
      ensures stopOffset == 0 ==> r == 0
    {
      AccField(file, startOffset, 1);
      assert fields[1] == if stopOffset != 0 then FieldText(file, startOffset + ACC_ABSOLUTE_CE - 1, 4) else Blank(4);
      BlankFieldValue(fields[1]);
      DigitFieldValue(fields[1]);
      Atoi(CString(fields[1]))
    }

    /** Absolute vertical accuracy: the decimal value of the four bytes at ACC_ABSOLUTE_LE. */
    function AbsLE(): (r: int)
      reads this
      requires Valid()
      ensures stopOffset != 0 ==> r == Atoi(CString(FieldText(file, startOffset + ACC_ABSOLUTE_LE - 1, 4)))
      ensures stopOffset != 0 && AllDigits(FieldText(file, startOffset + ACC_ABSOLUTE_LE - 1, 4)) ==>
        r == DigitsValue(FieldText(file, startOffset + ACC_ABSOLUTE_LE - 1, 4))
      ensures stopOffset == 0 ==> r == 0
    {
      AccField(file, startOffset, 2);
      assert fields[2] == if stopOffset != 0 then FieldText(file, startOffset + ACC_ABSOLUTE_LE - 1, 4) else Blank(4);
      BlankFieldValue(fields[2]);
      DigitFieldValue(fields[2]);
      Atoi(CString(fields[2]))
    }

    /** Relative horizontal accuracy: the decimal value of the four bytes at ACC_RELATIVE_CE. */
    function RelCE(): (r: int)
      reads this
      requires Valid()
      ensures stopOffset != 0 ==> r == Atoi(CString(FieldText(file, startOffset + ACC_RELATIVE_CE - 1, 4)))
      ensures stopOffset != 0 && AllDigits(FieldText(file, startOffset + ACC_RELATIVE_CE - 1, 4)) ==>
        r == DigitsValue(FieldText(file, startOffset + ACC_RELATIVE_CE - 1, 4))
      ensures stopOffset == 0 ==> r == 0
    {
      AccField(file, startOffset, 3);
      assert fields[3] == if stopOffset != 0 then FieldText(file, startOffset + ACC_RELATIVE_CE - 1, 4) else Blank(4);
      BlankFieldValue(fields[3]);
      DigitFieldValue(fields[3]);
      Atoi(CString(fields[3]))
    }

    /** Relative vertical accuracy: the decimal value of the four bytes at ACC_RELATIVE_LE. */
    function RelLE(): (r: int)
      reads this
      requires Valid()
      ensures stopOffset != 0 ==> r == Atoi(CString(FieldText(file, startOffset + ACC_RELATIVE_LE - 1, 4)))
      ensures stopOffset != 0 && AllDigits(FieldText(file, startOffset + ACC_RELATIVE_LE - 1, 4)) ==>
        r == DigitsValue(FieldText(file, startOffset + ACC_RELATIVE_LE - 1, 4))
      ensures stopOffset == 0 ==> r == 0
    {
      AccField(file, startOffset, 4);
      assert fields[4] == if stopOffset != 0 then FieldText(file, startOffset + ACC_RELATIVE_LE - 1, 4) else Blank(4);
      BlankFieldValue(fields[4]);
      DigitFieldValue(fields[4]);
      Atoi(CString(fields[4]))
    }
  }
}
