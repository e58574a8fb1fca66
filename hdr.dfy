/**
 * The file header label (HDR): an optional 80-byte record recognised by the
 * sentinel "HDR", following the VOL record when there is one.
 */
module DtedHdr {
  import opened CText
  import opened DtedFields

  const HDR_LENGTH: nat := 80

  /** 1-based field positions named by the layout enumeration. */
  const HDR_ONE_LABEL_1: nat := 4
  const HDR_FILENAME: nat := 5
  const HDR_UNIVAC: nat := 22
  const HDR_REEL: nat := 28
  const HDR_FILE_NUM: nat := 32
  const HDR_GENERATION_NUM: nat := 36
  const HDR_VERSION_NUM: nat := 40
  const HDR_CREATION_DATE: nat := 42
  const HDR_EXPIRATION_DATE: nat := 48
  const HDR_ACCESS: nat := 54
  const HDR_BLOCK_COUNT: nat := 55
  const HDR_QUALIFIER: nat := 61
  const HDR_BLANKS: nat := 74

  /** Sizes of fields 1 to 14. */
  const HDR_SIZES: seq<nat> := [3, 1, 17, 6, 4, 4, 4, 2, 6, 6, 1, 6, 13, 7]

  /** Start of each field; the sentinel opens the record. */
  const HDR_POSITIONS: seq<nat> :=
    [1, HDR_ONE_LABEL_1, HDR_FILENAME, HDR_UNIVAC, HDR_REEL, HDR_FILE_NUM,
     HDR_GENERATION_NUM, HDR_VERSION_NUM, HDR_CREATION_DATE, HDR_EXPIRATION_DATE,
     HDR_ACCESS, HDR_BLOCK_COUNT, HDR_QUALIFIER, HDR_BLANKS]

  function HdrFields(file: seq<bv8>, start: nat): seq<seq<char>> {
    ParsedFields(file, start, HDR_SIZES, "HDR", {}, BlankFields(HDR_SIZES))
  }

  function HdrStop(file: seq<bv8>, start: nat): nat {
    if SentinelMatches(file, start, "HDR") then start + HDR_LENGTH else 0
  }

  /** The fourteen fields tile the whole 80-byte record, each starting where the one before ends. */
  lemma HdrLayout()
    ensures Consecutive(HDR_SIZES, HDR_POSITIONS, HDR_LENGTH)
    ensures Offset(HDR_SIZES, |HDR_SIZES|) == HDR_LENGTH
  {
    OffsetsArePositions(HDR_SIZES, HDR_POSITIONS, HDR_LENGTH, |HDR_SIZES|);
  }

  /** Field k+1 after parsing: the text at its listed position, or blank without the sentinel. */
  lemma HdrField(file: seq<bv8>, start: nat, k: nat)
    requires 0 < k < |HDR_SIZES|
    ensures HdrFields(file, start)[k] ==
      if SentinelMatches(file, start, "HDR") then FieldText(file, start + HDR_POSITIONS[k] - 1, HDR_SIZES[k])
      else Blank(HDR_SIZES[k])
  {
    ParsedFieldAt(file, start, HDR_SIZES, HDR_POSITIONS, HDR_LENGTH, "HDR", {}, k);
  }

  class DtedHdr {
    const file: seq<bv8>
    const startOffset: nat
    /** fields[k] is the buffer of field k+1 (without its terminating NUL). */
    var fields: seq<seq<char>>
    var stopOffset: nat

    ghost predicate Valid()
      reads this
    {
      fields == HdrFields(file, startOffset) && stopOffset == HdrStop(file, startOffset)
    }

    constructor(file: seq<bv8>, offset: nat)
      ensures this.file == file && startOffset == offset && Valid()
      ensures stopOffset != 0 <==> SentinelMatches(file, offset, "HDR")
      ensures stopOffset == HdrStop(file, offset)
    {
      this.file := file;
      startOffset := offset;
      fields := BlankFields(HDR_SIZES);
      stopOffset := 0;
      new;
      Parse();
    }

    /** The sentinel, then, if it is "HDR", the other thirteen fields and the stop offset. */
    method Parse()
      requires |fields| == |HDR_SIZES|
      modifies this
      ensures fields == ParsedFields(file, startOffset, HDR_SIZES, "HDR", {}, old(fields))
      ensures stopOffset == if SentinelMatches(file, startOffset, "HDR")
                            then startOffset + HDR_LENGTH else old(stopOffset)
    {
      var matched;
      fields, matched := ParseFields(file, startOffset, HDR_SIZES, "HDR", {}, fields);
      if matched {
        stopOffset := startOffset + HDR_LENGTH;
      }
    }

    function RecognitionSentinel(): (r: string)
      reads this
      requires Valid()
      ensures r == CString(FieldText(file, startOffset, 3))
    {
      ParsedSentinelAt(file, startOffset, HDR_SIZES, "HDR", {}, BlankFields(HDR_SIZES));
      assert fields[0] == FieldText(file, startOffset, 3);
      CString(fields[0])
    }

    /** The seventeen-byte file name at position HDR_FILENAME, or "" without an HDR record. */
    function FileName(): (r: string)
      reads this
      requires Valid()
      ensures stopOffset != 0 ==> r == CString(FieldText(file, startOffset + HDR_FILENAME - 1, 17))
      ensures stopOffset == 0 ==> r == ""
    {
      HdrField(file, startOffset, 2);
      assert fields[2] == if stopOffset != 0 then FieldText(file, startOffset + HDR_FILENAME - 1, 17) else Blank(17);
      BlankFieldValue(fields[2]);
      CString(fields[2])
    }

    /**
     * What the reader calls the version: field 7, the four bytes at the
     * position the enumeration names HDR_GENERATION_NUM.
     */
    function Version(): (r: string)
      reads this
      requires Valid()
      ensures stopOffset != 0 ==> r == CString(FieldText(file, startOffset + HDR_GENERATION_NUM - 1, 4))
      ensures stopOffset == 0 ==> r == ""
    {
      HdrField(file, startOffset, 6);
      assert fields[6] == if stopOffset != 0 then FieldText(file, startOffset + HDR_GENERATION_NUM - 1, 4) else Blank(4);
      BlankFieldValue(fields[6]);
      CString(fields[6])
    }

    /**
     * What the reader calls the creation date: field 8, the two bytes at the
     * position the enumeration names HDR_VERSION_NUM, not the six bytes at
     * HDR_CREATION_DATE.
     */
    function CreationDate(): (r: string)
      reads this
      requires Valid()
      ensures stopOffset != 0 ==> r == CString(FieldText(file, startOffset + HDR_VERSION_NUM - 1, 2))
      ensures |r| <= 2 < HDR_EXPIRATION_DATE - HDR_CREATION_DATE
      ensures stopOffset == 0 ==> r == ""
    {
      HdrField(file, startOffset, 7);
      assert fields[7] == if stopOffset != 0 then FieldText(file, startOffset + HDR_VERSION_NUM - 1, 2) else Blank(2);
      BlankFieldValue(fields[7]);
      CString(fields[7])
    }
  }
}
