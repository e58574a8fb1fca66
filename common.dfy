/**
 * Shared vocabulary of the DTED reader: the constants and enumerations of
 * Dted_Common.h, the geographic point and grid point records, the C++
 * conversions the reader relies on (truncation of a double to an int,
 * storage of an int into a 16-bit short) and byte reads from a file image.
 */
module DtedCommon {

  datatype Option<T> = None | Some(value: T)

  /** Elevation value reserved for "no data" by the DTED format. */
  const NULL_POST: int := -32767

  /** The integer not-a-number marker: 0x80000000 stored into a 32-bit int. */
  const INT_NAN: int := -0x8000_0000

  datatype ByteOrder = ArchLittleEndian | ArchBigEndian

  datatype AccessMethod = MemoryAccess | DiskAccess

  datatype DtedLevel = Level0 | Level1 | Level2

  /** A geographic location in decimal degrees. */
  datatype GeoLocation = GeoLocation(lat: real, lon: real)

  /** The number of longitude lines and of latitude points of a tile. */
  datatype CellSize = CellSize(lonLines: int, latPoints: int)

  /** A grid point: x indexes longitude lines, y latitude points. */
  datatype Voxel = Voxel(x: real, y: real, z: real)

  /**
   * The byte at position i of a file image. A read past either end of the
   * file yields zero, which is what a zero-initialised buffer keeps when the
   * stream read fails.
   */
  function ByteAt(file: seq<bv8>, i: int): (b: bv8)
    ensures 0 <= i < |file| ==> b == file[i]
    ensures !(0 <= i < |file|) ==> b == 0
  {
    if 0 <= i < |file| then file[i] else 0
  }

  /** A C++ static_cast<int> of a double: rounds toward zero. */
  function Trunc(x: real): (r: int)
    ensures x >= 0.0 ==> 0 <= r && r as real <= x < r as real + 1.0
    ensures x < 0.0 ==> r <= 0 && r as real - 1.0 < x <= r as real
  {
    if x >= 0.0 then x.Floor else -((-x).Floor)
  }

  function Abs(x: real): (r: real)
    ensures r >= 0.0 && (r == x || r == -x)
  {
    if x < 0.0 then -x else x
  }

  /** The value an int takes when stored into a 16-bit two's complement short. */
  function Wrap16(v: int): (r: int)
    ensures -0x8000 <= r < 0x8000
    ensures (r - v) % 0x1_0000 == 0
    ensures -0x8000 <= v < 0x8000 ==> r == v
  {
    (v + 0x8000) % 0x1_0000 - 0x8000
  }
}
