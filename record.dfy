/**
 * Dted_Record.cpp: one DTED data record (one longitude line): the
 * recognition sentinel, the block, longitude and latitude counters, the
 * elevation posts and the trailing checksum. The file is a byte image read
 * through a stream; a read past its end gives zero bytes.
 *
 * The record parser swaps bytes on a little-endian host with the
 * expression (s << 8) | (s >> 8) applied to a *signed* short promoted to
 * int. The C++ semantics of that expression (sign extension, arithmetic
 * right shift, truncation back to short where the result is stored into a
 * short) are written out on bit vectors.
 */
module DtedRecord {
  import opened DtedCommon
  import Endian

  const DATA_SIGN_MASK: bv16 := 0x8000
  const DATA_VALUE_MASK: bv16 := 0x7fff
  const DATA_RECOGNITION_SENTINEL: bv8 := 0xAA

  const BLOCK_COUNT_OFFSET: nat := 2
  const LON_INDEX_OFFSET: nat := 4
  const LAT_INDEX_OFFSET: nat := 6
  const ELEV_DATA_OFFSET: nat := 8
  const RECORD_HDR_LENGTH: nat := 12
  const BYTES_PER_POINT: nat := 2

  /** Sign extension of a short to a 32-bit int. */
  function SignExtend(u: bv16): bv32 {
    if u & 0x8000 != 0 then (u as bv32) | 0xFFFF_0000 else u as bv32
  }

  /** x >> 8 on a signed 32-bit int (arithmetic shift). */
  function AsrBy8(x: bv32): bv32 {
    if x & 0x8000_0000 != 0 then (x >> 8) | 0xFF00_0000 else x >> 8
  }

  /** The value of a 16-bit two's complement pattern. */
  function ToInt16(u: bv16): (r: int)
    ensures -0x8000 <= r < 0x8000
  {
    var n := u as int;
    if n < 0x8000 then n else n - 0x1_0000
  }

  /** The value of a 32-bit two's complement pattern. */
  function ToInt32(x: bv32): int {
    if x < 0x8000_0000 then x as int else x as int - 0x1_0000_0000
  }

  /** (s << 8) | (s >> 8) computed in int on the signed short whose bits are u. */
  function PromotedSwap(u: bv16): bv32 {
    (SignExtend(u) << 8) | AsrBy8(SignExtend(u))
  }

  /** The short read from two file bytes in host byte order. */
  function ReadShort(file: seq<bv8>, pos: int, littleEndian: bool): bv16 {
    Endian.Load16(ByteAt(file, pos), ByteAt(file, pos + 1), littleEndian)
  }

  /** The big-endian unsigned value of two bytes: what the format stores. */
  function BigEndian16(b0: bv8, b1: bv8): int {
    256 * (b0 as int) + b1 as int
  }

  /**
   * A counter: theXCount = swap ? ((s << 8) | (s >> 8)) : s, kept as an int
   * without truncation.
   */
  function CounterValue(s: bv16, swap: bool): int {
    if swap then ToInt32(PromotedSwap(s)) else ToInt16(s)
  }

  /** The short s after line 148: the swap expression truncated back to 16 bits. */
  function PostBits(s: bv16, swap: bool): bv16 {
    if swap then (PromotedSwap(s) & 0xFFFF) as bv16 else s
  }

  /**
   * The value of s after the sign handling, s = (s & DATA_VALUE_MASK) * -1
   * when the sign bit is set: the signed-magnitude reading of bits whose
   * unsigned value is u. The sign bit is set exactly when u >= 0x8000 and
   * the masked magnitude is then u - 0x8000.
   */
  function SignMagnitude(u: int): (v: int)
    requires 0 <= u < 0x1_0000
    ensures -32767 <= v <= 32767
  {
    if u >= 0x8000 then -(u - 0x8000) else u
  }

  /** convert(): the null post becomes INT_NAN, every other value is kept. */
  function Convert(v: int): (r: int)
    requires -0x8000 <= v < 0x8000
    ensures r == INT_NAN <==> v == NULL_POST
    ensures v != NULL_POST ==> r == v
  {
    if v == -32767 then INT_NAN else v
  }

  /**
   * The sentinel test as written, !(buf[0] = DATA_RECOGNITION_SENTINEL):
   * the byte read is overwritten by 0xAA and the test never rejects.
   */
  function SentinelTestRejects(firstByte: bv8): (rejects: bool)
    ensures !rejects
  {
    var buf0 := DATA_RECOGNITION_SENTINEL;
    buf0 == 0
  }

  /** The value stored for post i of the record starting at offset. */
  function PointAt(file: seq<bv8>, offset: int, i: int, swap: bool): int {
    PostValue(ReadShort(file, offset + 8 + 2 * i, swap), swap)
  }

  /** The value stored for a post whose short was read as s. */
  function PostValue(s: bv16, swap: bool): int {
    Convert(SignMagnitude(PostBits(s, swap) as int))
  }

  /** The unsigned short stored in thePointsData for post i: the value modulo 2^16. */
  function PointDataAt(file: seq<bv8>, offset: int, i: int, swap: bool): (d: int)
    ensures 0 <= d < 0x1_0000
  {
    SignMagnitude(PostBits(ReadShort(file, offset + 8 + 2 * i, swap), swap) as int) % 0x1_0000
  }

  /** The 8 + 2n bytes the checksum covers: sentinel, counters and posts. */
  function ChecksumBytes(file: seq<bv8>, offset: int, numPoints: nat): (r: seq<bv8>)
    ensures |r| == 8 + 2 * numPoints
  {
    seq(8 + 2 * numPoints, k => ByteAt(file, offset + k))
  }

  function ByteSum(bytes: seq<bv8>): nat
    decreases |bytes|
  {
    if |bytes| == 0 then 0 else ByteSum(bytes[..|bytes| - 1]) + bytes[|bytes| - 1] as nat
  }

  /** theComputedCheckSum: the byte sum in an unsigned int, so modulo 2^32. */
  function ComputedCheckSum(file: seq<bv8>, offset: int, numPoints: nat): nat {
    ByteSum(ChecksumBytes(file, offset, numPoints)) % 0x1_0000_0000
  }

  /** theCheckSum: four bytes read in host order, whose bytes are swapped on a little-endian host. */
  function StoredCheckSum(file: seq<bv8>, offset: int, numPoints: nat, swap: bool): bv32 {
    var p := offset + 8 + 2 * numPoints;
    var c0, c1, c2, c3 := ByteAt(file, p), ByteAt(file, p + 1), ByteAt(file, p + 2), ByteAt(file, p + 3);
    if swap then Endian.Load32(c3, c2, c1, c0, true) else Endian.Load32(c0, c1, c2, c3, false)
  }

  /** The stored checksum is the big-endian value of its four bytes on either host. */
  lemma StoredCheckSumHostIndependent(file: seq<bv8>, offset: int, numPoints: nat)
    ensures StoredCheckSum(file, offset, numPoints, true) == StoredCheckSum(file, offset, numPoints, false)
  {
  }

  /** Writing a checksum as four big-endian bytes makes it read back unchanged. */
  lemma StoredCheckSumRoundTrip(file: seq<bv8>, offset: nat, numPoints: nat, sum: bv32, swap: bool)
    requires offset + 12 + 2 * numPoints <= |file|
    ensures StoredCheckSum(file[offset + 8 + 2 * numPoints := ((sum >> 24) & 0xFF) as bv8]
                               [offset + 9 + 2 * numPoints := ((sum >> 16) & 0xFF) as bv8]
                               [offset + 10 + 2 * numPoints := ((sum >> 8) & 0xFF) as bv8]
                               [offset + 11 + 2 * numPoints := (sum & 0xFF) as bv8],
                           offset, numPoints, swap) == sum
  {
  }

  lemma PromotedSwapHighClear(b0: bv8, b1: bv8)
    requires b1 < 0x80
    ensures PromotedSwap(Endian.Load16(b0, b1, true)) == ((b1 as bv32) << 16) | ((b0 as bv32) << 8) | (b1 as bv32)
  {
  }

  lemma PromotedSwapHighSet(b0: bv8, b1: bv8)
    requires b1 >= 0x80
    ensures PromotedSwap(Endian.Load16(b0, b1, true)) == 0xFFFF_FF00 | (b1 as bv32)
  {
  }

  lemma ThreeBytesValue(b0: bv8, b1: bv8)
    ensures (((b1 as bv32) << 16) | ((b0 as bv32) << 8) | (b1 as bv32)) as int
            == 65536 * (b1 as int) + 256 * (b0 as int) + b1 as int
  {
  }

  lemma OnesAndByteValue(b1: bv8)
    ensures (0xFFFF_FF00 | (b1 as bv32)) as int == 0xFFFF_FF00 + b1 as int
  {
  }

  /**
   * On a little-endian host a counter equals the big-endian 16-bit value of
   * its two bytes exactly when the second byte is zero.
   */
  lemma CounterCorrectIff(b0: bv8, b1: bv8)
    ensures CounterValue(Endian.Load16(b0, b1, true), true) == BigEndian16(b0, b1) <==> b1 == 0
  {
    if b1 < 0x80 {
      PromotedSwapHighClear(b0, b1);
      ThreeBytesValue(b0, b1);
    } else {
      PromotedSwapHighSet(b0, b1);
      OnesAndByteValue(b1);
    }
  }

  lemma PostBitsHighClear(b0: bv8, b1: bv8)
    requires b1 < 0x80
    ensures PostBits(Endian.Load16(b0, b1, true), true) == Endian.Load16(b0, b1, false)
  {
  }

  lemma PostBitsHighSet(b0: bv8, b1: bv8)
    requires b1 >= 0x80
    ensures PostBits(Endian.Load16(b0, b1, true), true) == 0xFF00 | (b1 as bv16)
  {
  }

  /**
   * On a little-endian host the 16 bits of a post come out byte-swapped
   * correctly exactly when the second byte has its top bit clear or the
   * first byte is 0xFF; otherwise the sign extension fills the high byte
   * with ones.
   */
  lemma PostBitsCorrectIff(b0: bv8, b1: bv8)
    ensures PostBits(Endian.Load16(b0, b1, true), true) == Endian.Load16(b0, b1, false)
            <==> b1 < 0x80 || b0 == 0xFF
  {
    if b1 < 0x80 {
      PostBitsHighClear(b0, b1);
    } else {
      PostBitsHighSet(b0, b1);
      assert Endian.Load16(b0, b1, false) == ((b0 as bv16) << 8) | (b1 as bv16);
    }
  }

  lemma BigEndianBitsValue(b0: bv8, b1: bv8)
    ensures Endian.Load16(b0, b1, false) as int == BigEndian16(b0, b1)
  {
    assert Endian.Load16(b0, b1, false) == ((b0 as bv16) << 8) | (b1 as bv16);
    assert (((b0 as bv16) << 8) | (b1 as bv16)) as int == 256 * (b0 as int) + b1 as int;
  }

  lemma OnesAndByte16Value(b1: bv8)
    ensures (0xFF00 | (b1 as bv16)) as int == 0xFF00 + b1 as int
  {
  }

  /** The two hosts store the same post exactly when the little-endian swap is correct. */
  lemma PointHostIndependentIff(file: seq<bv8>, offset: int, i: int)
    ensures var b0, b1 := ByteAt(file, offset + 8 + 2 * i), ByteAt(file, offset + 9 + 2 * i);
            PointAt(file, offset, i, true) == PointAt(file, offset, i, false) <==> b1 < 0x80 || b0 == 0xFF
  {
    PostHostIndependentIff(ByteAt(file, offset + 8 + 2 * i), ByteAt(file, offset + 9 + 2 * i));
  }

  /** The same for the two bytes of one post. */
  lemma PostHostIndependentIff(b0: bv8, b1: bv8)
    ensures PostValue(Endian.Load16(b0, b1, true), true) == PostValue(Endian.Load16(b0, b1, false), false)
            <==> b1 < 0x80 || b0 == 0xFF
  {
    var le := PostBits(Endian.Load16(b0, b1, true), true);
    var be := Endian.Load16(b0, b1, false);
    PostBitsCorrectIff(b0, b1);
    if !(b1 < 0x80 || b0 == 0xFF) {
      PostBitsHighSet(b0, b1);
      OnesAndByte16Value(b1);
      BigEndianBitsValue(b0, b1);
      ValuesDiffer(b0 as int, b1 as int);
    }
  }

  /**
   * With b0 != 0xFF and b1 >= 0x80 the all-ones high byte yields a different
   * stored value from the big-endian pattern.
   */
  lemma ValuesDiffer(b0: int, b1: int)
    requires 0 <= b0 < 0xFF && 0x80 <= b1 < 0x100
    ensures Convert(SignMagnitude(0xFF00 + b1)) != Convert(SignMagnitude(256 * b0 + b1))
  {
  }

  lemma ByteSumStep(bytes: seq<bv8>, b: bv8)
    ensures ByteSum(bytes + [b]) == ByteSum(bytes) + b as nat
  {
    assert (bytes + [b])[..|bytes|] == bytes;
  }

  lemma ModAddStep(a: nat, c: nat)
    ensures (a % 0x1_0000_0000 + c) % 0x1_0000_0000 == (a + c) % 0x1_0000_0000
  {
    var q := a / 0x1_0000_0000;
    assert a == q * 0x1_0000_0000 + a % 0x1_0000_0000;
    assert a + c == q * 0x1_0000_0000 + (a % 0x1_0000_0000 + c);
  }

  class DtedRecord {
    const file: seq<bv8>
    const byteSwap: bool
    const numPoints: nat
    const startOffset: nat
    const stopOffset: nat
    const points: array<int>
    const pointsData: array<int>
    var dataBlockCount: int
    var lonCount: int
    var latCount: int
    var checkSum: bv32
    var computedCheckSum: nat

    ghost predicate Valid()
      reads this
    {
      points.Length == numPoints && pointsData.Length == numPoints && points != pointsData
    }

    /**
     * Dted_Record(in, offset, num_points): the sentinel test never rejects,
     * so the record is always parsed and its checksum computed; a checksum
     * mismatch is only reported and the parsed values are kept.
     */
    constructor (file: seq<bv8>, offset: nat, num_points: nat, hostLittleEndian: bool)
      ensures Valid()
      ensures this.file == file && byteSwap == hostLittleEndian
      ensures startOffset == offset && numPoints == num_points
      ensures stopOffset == offset + RECORD_HDR_LENGTH + num_points * BYTES_PER_POINT
      ensures dataBlockCount == CounterValue(ReadShort(file, offset + BLOCK_COUNT_OFFSET, hostLittleEndian), hostLittleEndian)
      ensures lonCount == CounterValue(ReadShort(file, offset + LON_INDEX_OFFSET, hostLittleEndian), hostLittleEndian)
      ensures latCount == CounterValue(ReadShort(file, offset + LAT_INDEX_OFFSET, hostLittleEndian), hostLittleEndian)
      ensures forall i :: 0 <= i < num_points ==> points[i] == PointAt(file, offset, i, hostLittleEndian)
      ensures forall i :: 0 <= i < num_points ==> pointsData[i] == PointDataAt(file, offset, i, hostLittleEndian)
      ensures computedCheckSum == ComputedCheckSum(file, offset, num_points)
      ensures checkSum == StoredCheckSum(file, offset, num_points, hostLittleEndian)
      ensures fresh(points) && fresh(pointsData)
    {
      this.file := file;
      byteSwap := hostLittleEndian;
      numPoints := num_points;
      startOffset := offset;
      stopOffset := offset + RECORD_HDR_LENGTH + num_points * BYTES_PER_POINT;
      points := new int[num_points];
      pointsData := new int[num_points];
      new;
      var rejects := SentinelTestRejects(ByteAt(file, offset));
      if !rejects {
        Parse();
        var corrupted := ValidateCheckSum();
      }
    }

    /** parse(): the three counters, then every post in file order. */
    method Parse()
      requires Valid()
      modifies this, points, pointsData
      ensures Valid() && unchanged(this`checkSum, this`computedCheckSum)
      ensures dataBlockCount == CounterValue(ReadShort(file, startOffset + BLOCK_COUNT_OFFSET, byteSwap), byteSwap)
      ensures lonCount == CounterValue(ReadShort(file, startOffset + LON_INDEX_OFFSET, byteSwap), byteSwap)
      ensures latCount == CounterValue(ReadShort(file, startOffset + LAT_INDEX_OFFSET, byteSwap), byteSwap)
      ensures forall i :: 0 <= i < numPoints ==> points[i] == PointAt(file, startOffset, i, byteSwap)
      ensures forall i :: 0 <= i < numPoints ==> pointsData[i] == PointDataAt(file, startOffset, i, byteSwap)
    {
      var s := ReadShort(file, startOffset + BLOCK_COUNT_OFFSET, byteSwap);
      dataBlockCount := CounterValue(s, byteSwap);
      s := ReadShort(file, startOffset + LON_INDEX_OFFSET, byteSwap);
      lonCount := CounterValue(s, byteSwap);
      s := ReadShort(file, startOffset + LAT_INDEX_OFFSET, byteSwap);
      latCount := CounterValue(s, byteSwap);
      var i := 0;
      while i < numPoints
        modifies points, pointsData
        invariant 0 <= i <= numPoints
        invariant forall k :: 0 <= k < i ==> points[k] == PointAt(file, startOffset, k, byteSwap)
        invariant forall k :: 0 <= k < i ==> pointsData[k] == PointDataAt(file, startOffset, k, byteSwap)
      {
        s := ReadShort(file, startOffset + ELEV_DATA_OFFSET + BYTES_PER_POINT * i, byteSwap);
        s := PostBits(s, byteSwap);
        var signed := SignMagnitude(s as int);
        var value := Convert(signed);
        assert value == PointAt(file, startOffset, i, byteSwap);
        assert signed % 0x1_0000 == PointDataAt(file, startOffset, i, byteSwap);
        points[i] := value;
        pointsData[i] := signed % 0x1_0000;
        i := i + 1;
      }
    }

    /**
     * validateCheckSum(): sums the bytes before the checksum modulo 2^32,
     * reads the stored big-endian checksum and reports a mismatch.
     */
    method ValidateCheckSum() returns (corrupted: bool)
      modifies this`checkSum, this`computedCheckSum
      ensures computedCheckSum == ComputedCheckSum(file, startOffset, numPoints)
      ensures checkSum == StoredCheckSum(file, startOffset, numPoints, byteSwap)
      ensures corrupted <==> checkSum as int != computedCheckSum
    {
      computedCheckSum := 0;
      var bytesToRead := numPoints * 2 + ELEV_DATA_OFFSET;
      var i := 0;
      while i < bytesToRead
        invariant 0 <= i <= bytesToRead
        invariant computedCheckSum == ByteSum(ChecksumBytes(file, startOffset, numPoints)[..i]) % 0x1_0000_0000
      {
        var c := ByteAt(file, startOffset + i);
        ghost var prefix := ChecksumBytes(file, startOffset, numPoints)[..i];
        assert ChecksumBytes(file, startOffset, numPoints)[..i + 1] == prefix + [c];
        ByteSumStep(prefix, c);
        ModAddStep(ByteSum(prefix), c as nat);
        computedCheckSum := (computedCheckSum + c as nat) % 0x1_0000_0000;
        i := i + 1;
      }
      assert ChecksumBytes(file, startOffset, numPoints)[..bytesToRead] == ChecksumBytes(file, startOffset, numPoints);
      checkSum := StoredCheckSum(file, startOffset, numPoints, byteSwap);
      corrupted := checkSum as int != computedCheckSum;
    }
  }
}
