/**
 * The fixed-width text records at the head of a DTED file (VOL, HDR, UHL,
 * DSI, ACC) share one reading discipline: seek to the record's start, read a
 * three-letter recognition sentinel, give up when it is not the expected one,
 * otherwise read each field of a fixed size back to back into a character
 * buffer one byte longer than the field, which is then NUL-terminated.
 *
 * A field is modelled as the characters of its bytes (without the extra NUL),
 * a record's parsed state as the sequence of its field buffers, index k
 * holding field k+1.
 */
module DtedFields {
  import opened DtedCommon
  import opened CText

  /** The characters of the `size` bytes read from position `pos`. */
  function FieldText(file: seq<bv8>, pos: int, size: nat): (t: seq<char>)
    ensures |t| == size
    ensures forall k :: 0 <= k < size ==> t[k] == CharOf(ByteAt(file, pos + k))
  {
    seq(size, k => CharOf(ByteAt(file, pos + k)))
  }

  /** Offset of field k within its record: the sizes of the fields before it. */
  function Offset(sizes: seq<nat>, k: nat): nat
    requires k <= |sizes|
  {
    if k == 0 then 0 else Offset(sizes, k - 1) + sizes[k - 1]
  }

  /** A value-initialised character buffer of n characters. */
  function Blank(n: nat): (b: seq<char>)
    ensures |b| == n && forall k :: 0 <= k < n ==> b[k] == '\0'
  {
    seq(n, _ => '\0')
  }

  /** The field buffers of a record before anything has been read. */
  function BlankFields(sizes: seq<nat>): (fs: seq<seq<char>>)
    ensures |fs| == |sizes|
    ensures forall k :: 0 <= k < |sizes| ==> fs[k] == Blank(sizes[k])
  {
    seq(|sizes|, k requires 0 <= k < |sizes| => Blank(sizes[k]))
  }

  /**
   * The field buffers after all fields were read from `start`; the fields
   * whose index is in `scratch` are read into a scratch buffer, so their own
   * buffer keeps its prior contents.
   */
  function FieldsRead(file: seq<bv8>, start: int, sizes: seq<nat>, scratch: set<nat>,
                      prior: seq<seq<char>>): (fs: seq<seq<char>>)
    requires |prior| == |sizes|
    ensures |fs| == |sizes|
  {
    seq(|sizes|, j requires 0 <= j < |sizes| => StoredField(file, start, sizes, scratch, prior, j))
  }

  /** The contents of buffer j once field j has been read. */
  function StoredField(file: seq<bv8>, start: int, sizes: seq<nat>, scratch: set<nat>,
                       prior: seq<seq<char>>, j: nat): seq<char>
    requires |prior| == |sizes| && j < |sizes|
  {
    if j in scratch then prior[j] else FieldText(file, start + Offset(sizes, j), sizes[j])
  }

  /** The sentinel test: strncmp over the three bytes read at the start. */
  predicate SentinelMatches(file: seq<bv8>, start: int, sentinel: seq<char>)
  {
    FieldText(file, start, |sentinel|) == sentinel
  }

  /**
   * The field buffers after parsing: everything read when the sentinel
   * matches, otherwise only the sentinel buffer is overwritten.
   */
  function ParsedFields(file: seq<bv8>, start: int, sizes: seq<nat>, sentinel: seq<char>,
                        scratch: set<nat>, prior: seq<seq<char>>): (fs: seq<seq<char>>)
    requires |prior| == |sizes| && |sizes| > 0
    ensures |fs| == |sizes|
  {
    if SentinelMatches(file, start, sentinel) then FieldsRead(file, start, sizes, scratch, prior)
    else prior[0 := FieldText(file, start, sizes[0])]
  }

  /**
   * The sequential read shared by every header record's parse: the sentinel
   * first, then, when it matches, each remaining field at the running cursor.
   */
  method ParseFields(file: seq<bv8>, start: int, sizes: seq<nat>, sentinel: seq<char>,
                     scratch: set<nat>, prior: seq<seq<char>>)
    returns (fs: seq<seq<char>>, matched: bool)
    requires |prior| == |sizes| && |sizes| > 0 && sizes[0] == |sentinel| && 0 !in scratch
    ensures matched <==> SentinelMatches(file, start, sentinel)
    ensures fs == ParsedFields(file, start, sizes, sentinel, scratch, prior)
  {
    var recSen := FieldText(file, start, sizes[0]);
    fs := prior[0 := recSen];
    assert recSen == StoredField(file, start, sizes, scratch, prior, 0);
    if recSen != sentinel {
      return fs, false;
    }
    var cursor := start + sizes[0];
    var k := 1;
    while k < |sizes|
      invariant 1 <= k <= |sizes| && |fs| == |sizes|
      invariant cursor == start + Offset(sizes, k)
      invariant forall j :: 0 <= j < |sizes| ==>
        fs[j] == if j < k then StoredField(file, start, sizes, scratch, prior, j) else prior[j]
    {
      if k !in scratch {
        fs := fs[k := FieldText(file, cursor, sizes[k])];
      }
      cursor := cursor + sizes[k];
      k := k + 1;
    }
    matched := true;
    assert forall j :: 0 <= j < |sizes| ==> fs[j] == FieldsRead(file, start, sizes, scratch, prior)[j];
  }

  /**
   * A table of 1-based field positions agrees with a table of sizes: the first
   * field starts at 1, every field starts where the previous one ends, and the
   * last one ends at `length`.
   */
  predicate Consecutive(sizes: seq<nat>, pos: seq<nat>, length: nat)
  {
    |pos| == |sizes| && |pos| > 0 && pos[0] == 1 &&
    (forall k :: 0 <= k < |pos| - 1 ==> pos[k + 1] == pos[k] + sizes[k]) &&
    pos[|pos| - 1] + sizes[|pos| - 1] == length + 1
  }

  /** Under such a table each field starts at its listed position. */
  lemma {:induction false} OffsetsArePositions(sizes: seq<nat>, pos: seq<nat>, length: nat, k: nat)
    requires Consecutive(sizes, pos, length) && k <= |sizes|
    ensures k < |sizes| ==> Offset(sizes, k) + 1 == pos[k]
    ensures k == |sizes| ==> Offset(sizes, k) == length
  {
    if k > 0 {
      OffsetsArePositions(sizes, pos, length, k - 1);
    }
  }

  /**
   * Field k of a record parsed from value-initialised buffers: the text at
   * its listed position when the sentinel matched, a blank buffer otherwise.
   */
  lemma ParsedFieldAt(file: seq<bv8>, start: int, sizes: seq<nat>, pos: seq<nat>, length: nat,
                      sentinel: seq<char>, scratch: set<nat>, k: nat)
    requires Consecutive(sizes, pos, length) && 0 < k < |sizes| && k !in scratch
    ensures ParsedFields(file, start, sizes, sentinel, scratch, BlankFields(sizes))[k] ==
      if SentinelMatches(file, start, sentinel) then FieldText(file, start + pos[k] - 1, sizes[k])
      else Blank(sizes[k])
  {
    OffsetsArePositions(sizes, pos, length, k);
    ParsedFieldAtOffset(file, start, sizes, sentinel, scratch, k);
  }

  /** Field k of a record parsed from value-initialised buffers, located by its offset. */
  lemma ParsedFieldAtOffset(file: seq<bv8>, start: int, sizes: seq<nat>, sentinel: seq<char>,
                            scratch: set<nat>, k: nat)
    requires 0 < k < |sizes| && k !in scratch
    ensures ParsedFields(file, start, sizes, sentinel, scratch, BlankFields(sizes))[k] ==
      if SentinelMatches(file, start, sentinel) then FieldText(file, start + Offset(sizes, k), sizes[k])
      else Blank(sizes[k])
  {
  }

  /** The sentinel buffer always holds the first bytes of the record. */
  lemma ParsedSentinelAt(file: seq<bv8>, start: int, sizes: seq<nat>, sentinel: seq<char>,
                         scratch: set<nat>, prior: seq<seq<char>>)
    requires |prior| == |sizes| && |sizes| > 0 && 0 !in scratch
    ensures ParsedFields(file, start, sizes, sentinel, scratch, prior)[0] == FieldText(file, start, sizes[0])
  {
  }

  /** A field read into scratch space leaves its own buffer as it was. */
  lemma ScratchFieldKept(file: seq<bv8>, start: int, sizes: seq<nat>, sentinel: seq<char>,
                         scratch: set<nat>, prior: seq<seq<char>>, k: nat)
    requires |prior| == |sizes| && 0 < k < |sizes| && k in scratch
    ensures ParsedFields(file, start, sizes, sentinel, scratch, prior)[k] == prior[k]
  {
  }

  /**
   * What buffer k holds once a record has been parsed into value-initialised
   * buffers: the sentinel bytes; the bytes at the field's listed position
   * when the sentinel matched; otherwise, and always for a field read into
   * scratch space, a blank buffer.
   */
  function Slot(file: seq<bv8>, start: int, sizes: seq<nat>, pos: seq<nat>, sentinel: seq<char>,
                scratch: set<nat>, k: nat): seq<char>
    requires k < |sizes| == |pos|
  {
    if k == 0 then FieldText(file, start, sizes[0])
    else if k in scratch || !SentinelMatches(file, start, sentinel) then Blank(sizes[k])
    else FieldText(file, start + pos[k] - 1, sizes[k])
  }

  /** Parsing into value-initialised buffers fills every buffer as `Slot` describes. */
  lemma ParsedFieldsAreSlots(file: seq<bv8>, start: int, sizes: seq<nat>, pos: seq<nat>, length: nat,
                             sentinel: seq<char>, scratch: set<nat>)
    requires Consecutive(sizes, pos, length) && 0 !in scratch
    ensures |ParsedFields(file, start, sizes, sentinel, scratch, BlankFields(sizes))| == |sizes|
    ensures forall k :: 0 <= k < |sizes| ==>
      ParsedFields(file, start, sizes, sentinel, scratch, BlankFields(sizes))[k] ==
      Slot(file, start, sizes, pos, sentinel, scratch, k)
  {
    forall k | 0 <= k < |sizes|
      ensures ParsedFields(file, start, sizes, sentinel, scratch, BlankFields(sizes))[k] ==
              Slot(file, start, sizes, pos, sentinel, scratch, k)
    {
      if k == 0 {
        ParsedSentinelAt(file, start, sizes, sentinel, scratch, BlankFields(sizes));
      } else if k in scratch {
        ScratchFieldKept(file, start, sizes, sentinel, scratch, BlankFields(sizes), k);
      } else {
        OffsetsArePositions(sizes, pos, length, k);
        ParsedFieldAtOffset(file, start, sizes, sentinel, scratch, k);
      }
    }
  }

  /** A field left value-initialised reads as the empty string, whose value is 0. */
  lemma BlankFieldValue(field: seq<char>)
    requires |field| > 0
    ensures field == Blank(|field|) ==> CString(field) == "" && Atoi(CString(field)) == 0
  {
  }

  /** A field made only of digits reads as the decimal value of all of them. */
  lemma DigitFieldValue(field: seq<char>)
    ensures AllDigits(field) ==> CString(field) == field && Atoi(CString(field)) == DigitsValue(field)
  {
    if AllDigits(field) {
      assert '\0' !in field;
      AtoiOfDigits(field);
    }
  }
}
