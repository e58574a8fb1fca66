/**
 * Elevation posts as a tile reads them (Dted_Cell.h): two bytes stored
 * big-endian, in signed-magnitude form, decoded by convertSignedMagnitude.
 * The bytes are copied into an unsigned short in host order, swapped on a
 * little-endian host and then read as sign bit plus magnitude.
 */
module DtedPost {
  import opened DtedCommon
  import Endian
  import opened DtedRecord

  /** The layout constants of a data record as the tile sees it. */
  const DATA_RECORD_OFFSET_TO_POST: nat := 8
  const DATA_RECORD_CHECKSUM_SIZE: nat := 4
  const POST_SIZE: nat := 2

  /**
   * (s << 8) | (s >> 8) on an unsigned short: promoted with zero extension
   * and truncated when stored back, so it exchanges the two bytes.
   */
  function SwappedShort(s: bv16, byteSwap: bool): bv16 {
    if byteSwap then Endian.SwapShortExpr(s) else s
  }

  /**
   * convertSignedMagnitude(s): the decoded post, paired with the value left
   * in s, which is overwritten through the reference parameter by its
   * swapped value.
   */
  function ConvertSignedMagnitude(s: bv16, byteSwap: bool): (r: (int, bv16))
    ensures -32767 <= r.0 <= 32767
    ensures r.1 == SwappedShort(s, byteSwap)
  {
    var t := SwappedShort(s, byteSwap);
    (SignMagnitude(t as int), t)
  }

  /** The post two big-endian bytes stand for: sign bit plus 15-bit magnitude. */
  function PostValueOf(b0: bv8, b1: bv8): (v: int)
    ensures -32767 <= v <= 32767
  {
    SignMagnitude(BigEndian16(b0, b1))
  }

  lemma SwapShortOfHostLoad(b0: bv8, b1: bv8)
    ensures Endian.SwapShortExpr(Endian.Load16(b0, b1, true)) == Endian.Load16(b0, b1, false)
  {
  }

  /**
   * Copying the two bytes in host order and byte-swapping exactly on a
   * little-endian host decodes the big-endian post on either host, and
   * leaves the big-endian bit pattern in the argument.
   */
  lemma DecodeOnEitherHost(b0: bv8, b1: bv8, hostLittleEndian: bool)
    ensures ConvertSignedMagnitude(Endian.Load16(b0, b1, hostLittleEndian), hostLittleEndian).1
            == Endian.Load16(b0, b1, false)
    ensures ConvertSignedMagnitude(Endian.Load16(b0, b1, hostLittleEndian), hostLittleEndian).0
            == PostValueOf(b0, b1)
  {
    if hostLittleEndian {
      SwapShortOfHostLoad(b0, b1);
    }
    BigEndianBitsValue(b0, b1);
  }

  /** With the sign bit set the post is minus the low fifteen bits, otherwise the bits themselves. */
  lemma PostValueCases(b0: bv8, b1: bv8)
    ensures b0 >= 0x80 ==> PostValueOf(b0, b1) == -(256 * (b0 as int - 0x80) + b1 as int)
    ensures b0 < 0x80 ==> PostValueOf(b0, b1) == 256 * (b0 as int) + b1 as int
  {
  }

  /** 0x8000, the signed-magnitude negative zero, decodes to 0. */
  lemma NegativeZero()
    ensures PostValueOf(0x80, 0x00) == 0 == PostValueOf(0x00, 0x00)
  {
  }

  /** 0xFFFF decodes to the null post. */
  lemma AllOnesIsNull()
    ensures PostValueOf(0xFF, 0xFF) == NULL_POST
  {
  }

  /** The signed-magnitude pattern of v: v itself when v >= 0, else 0x8000 | -v. */
  function EncodedPost(v: int): (u: int)
    requires -32767 <= v <= 32767
    ensures 0 <= u < 0x1_0000
  {
    if v >= 0 then v else 0x8000 + -v
  }

  /** Encoding a post in signed-magnitude form and decoding the pattern gives the post back. */
  lemma DecodeEncode(v: int)
    requires -32767 <= v <= 32767
    ensures SignMagnitude(EncodedPost(v)) == v
  {
  }

  /** Two bytes whose big-endian value is the pattern of v decode to v. */
  lemma DecodeEncodedBytes(b0: bv8, b1: bv8, v: int)
    requires -32767 <= v <= 32767 && BigEndian16(b0, b1) == EncodedPost(v)
    ensures PostValueOf(b0, b1) == v
  {
    DecodeEncode(v);
  }
}
