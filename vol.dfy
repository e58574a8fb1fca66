/**
 * The volume header label (VOL): an optional 80-byte record at the very start
 * of a DTED file, recognised by the sentinel "VOL".
 */
module DtedVol {
  import opened CText
  import opened DtedFields

  const VOL_LENGTH: nat := 80

  /** 1-based field positions named by the layout enumeration. */
  const VOL_ONE_LABEL_1: nat := 4
  const VOL_REEL_NUMBER: nat := 5
  const VOL_REEL_ACCESS: nat := 11
  const VOL_SPACE: nat := 12
  const VOL_ACCOUNT_NUMBER: nat := 38
  const VOL_BLANKS: nat := 52
  const VOL_ONE_LABEL_2: nat := 80

  /** Sizes of fields 1 to 8. */
  const VOL_SIZES: seq<nat> := [3, 1, 6, 1, 26, 14, 28, 1]

  /** Start of each field; the sentinel opens the record. */
  const VOL_POSITIONS: seq<nat> :=
    [1, VOL_ONE_LABEL_1, VOL_REEL_NUMBER, VOL_REEL_ACCESS, VOL_SPACE,
     VOL_ACCOUNT_NUMBER, VOL_BLANKS, VOL_ONE_LABEL_2]

  /** The field buffers parse leaves behind, starting from value-initialised ones. */
  function VolFields(file: seq<bv8>, start: nat): seq<seq<char>> {
    ParsedFields(file, start, VOL_SIZES, "VOL", {}, BlankFields(VOL_SIZES))
  }

  /** The stop offset: the end of the record, or 0 when the sentinel is missing. */
  function VolStop(file: seq<bv8>, start: nat): nat {
    if SentinelMatches(file, start, "VOL") then start + VOL_LENGTH else 0
  }

  /** The eight fields tile the whole 80-byte record, each starting where the one before ends. */
  lemma VolLayout()
    ensures Consecutive(VOL_SIZES, VOL_POSITIONS, VOL_LENGTH)
    ensures Offset(VOL_SIZES, |VOL_SIZES|) == VOL_LENGTH
  {
    OffsetsArePositions(VOL_SIZES, VOL_POSITIONS, VOL_LENGTH, |VOL_SIZES|);
  }

  /** Field k+1 after parsing: the text at its listed position, or blank without the sentinel. */
  lemma VolField(file: seq<bv8>, start: nat, k: nat)
    requires 0 < k < |VOL_SIZES|
    ensures VolFields(file, start)[k] ==
      if SentinelMatches(file, start, "VOL") then FieldText(file, start + VOL_POSITIONS[k] - 1, VOL_SIZES[k])
      else Blank(VOL_SIZES[k])
  {
    ParsedFieldAt(file, start, VOL_SIZES, VOL_POSITIONS, VOL_LENGTH, "VOL", {}, k);
  }

  class DtedVol {
    const file: seq<bv8>
    const startOffset: nat
    /** fields[k] is the buffer of field k+1 (without its terminating NUL). */
    var fields: seq<seq<char>>
    var stopOffset: nat

    ghost predicate Valid()
      reads this
    {
      fields == VolFields(file, startOffset) && stopOffset == VolStop(file, startOffset)
    }

    /** Reads the record at `offset` of the file. */
    constructor(file: seq<bv8>, offset: nat)
      ensures this.file == file && startOffset == offset && Valid()
      ensures stopOffset != 0 <==> SentinelMatches(file, offset, "VOL")
      ensures stopOffset == VolStop(file, offset)
    {
      this.file := file;
      startOffset := offset;
      fields := BlankFields(VOL_SIZES);
      stopOffset := 0;
      new;
      Parse();
    }

    /** The sentinel, then, if it is "VOL", the other seven fields and the stop offset. */
    method Parse()
      requires |fields| == |VOL_SIZES|
      modifies this
      ensures fields == ParsedFields(file, startOffset, VOL_SIZES, "VOL", {}, old(fields))
      ensures stopOffset == if SentinelMatches(file, startOffset, "VOL")
                            then startOffset + VOL_LENGTH else old(stopOffset)
    {
      var matched;
      fields, matched := ParseFields(file, startOffset, VOL_SIZES, "VOL", {}, fields);
      if matched {
        stopOffset := startOffset + VOL_LENGTH;
      }
    }

    function RecognitionSentinel(): (r: string)
      reads this
      requires Valid()
      ensures r == CString(FieldText(file, startOffset, 3))
    {
      ParsedSentinelAt(file, startOffset, VOL_SIZES, "VOL", {}, BlankFields(VOL_SIZES));
      assert fields[0] == FieldText(file, startOffset, 3);
      CString(fields[0])
    }

    /** The six-byte reel number at position VOL_REEL_NUMBER, or "" without a VOL record. */
    function ReelNumber(): (r: string)
      reads this
      requires Valid()
      ensures stopOffset != 0 ==> r == CString(FieldText(file, startOffset + VOL_REEL_NUMBER - 1, 6))
      ensures stopOffset == 0 ==> r == ""
    {
      VolField(file, startOffset, 2);
      assert fields[2] == if stopOffset != 0 then FieldText(file, startOffset + VOL_REEL_NUMBER - 1, 6) else Blank(6);
      BlankFieldValue(fields[2]);
      CString(fields[2])
    }

    /** The fourteen-byte account number at position VOL_ACCOUNT_NUMBER, or "". */
    function AccountNumber(): (r: string)
      reads this
      requires Valid()
      ensures stopOffset != 0 ==> r == CString(FieldText(file, startOffset + VOL_ACCOUNT_NUMBER - 1, 14))
      ensures stopOffset == 0 ==> r == ""
    {
      VolField(file, startOffset, 5);
      assert VOL_POSITIONS[5] == VOL_ACCOUNT_NUMBER && VOL_SIZES[5] == 14;
      assert fields[5] == if stopOffset != 0 then FieldText(file, startOffset + VOL_ACCOUNT_NUMBER - 1, 14) else Blank(14);
      BlankFieldValue(fields[5]);
      CString(fields[5])
    }
  }
}
