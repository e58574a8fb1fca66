/**
 * What a DTED tile (Dted_Cell) computes, stated over the file image: where
 * the header records are parsed and what they yield, where each elevation
 * post lies in the file and in the in-memory copy, the bilinear weighting
 * of four posts and the statistics folds.
 *
 * A data record holds one longitude line: 8 bytes of sentinel and counters,
 * the posts of that line from south to north, 2 bytes each, and a 4-byte
 * checksum. Post (x, y) is post y of record x.
 */
module DtedCellLayout {
  import opened DtedCommon
  import opened CText
  import opened DtedFields
  import opened DtedPost
  import DtedVol
  import DtedHdr
  import DtedUhl
  import DtedDsi
  import DtedAcc

  /** Dted_Record::DATA_LENGTH: the bytes of a data record besides its posts. */
  const DATA_LENGTH: nat := 12

  // The header chain: each record is parsed at the stop offset of the
  // previous one, which is 0 when that record's sentinel was missing.

  function HdrStart(file: seq<bv8>): nat {
    DtedVol.VolStop(file, 0)
  }

  function UhlStart(file: seq<bv8>): nat {
    DtedHdr.HdrStop(file, HdrStart(file))
  }

  function DsiStart(file: seq<bv8>): nat {
    DtedUhl.UhlStop(file, UhlStart(file))
  }

  function AccStart(file: seq<bv8>): nat {
    DtedDsi.DsiStop(file, DsiStart(file))
  }

  /** The offset of the first data record: the stop offset of the ACC record. */
  function FirstDataRecord(file: seq<bv8>): nat {
    DtedAcc.AccStop(file, AccStart(file))
  }

  /** The values a tile takes from its header records. */
  datatype Header = Header(numLonLines: int, numLatPoints: int, latSpacing: real, lonSpacing: real,
                           edition: string, productLevel: string, compilationDate: string,
                           firstDataRecord: nat, swCorner: GeoLocation)

  /**
   * The header of a file: counts, spacings and origin from the UHL record
   * (zero when it was not found), edition, product level and compilation
   * date from the DSI record (empty when it was not found).
   */
  function HeaderOf(file: seq<bv8>): Header {
    var u, d := UhlStart(file), DsiStart(file);
    Header(DtedUhl.NumLonLinesOf(file, u), DtedUhl.NumLatPointsOf(file, u),
           DtedUhl.LatIntervalOf(file, u), DtedUhl.LonIntervalOf(file, u),
           DtedDsi.EditionOf(file, d), DtedDsi.ProductLevelOf(file, d), DtedDsi.CompilationDateOf(file, d),
           FirstDataRecord(file),
           GeoLocation(DtedUhl.LatOriginOf(file, u), DtedUhl.LonOriginOf(file, u)))
  }

  /** A file opening with UHL, DSI and ACC records has its data at 80 + 648 + 2700. */
  lemma UhlFirstChain(file: seq<bv8>)
    requires SentinelMatches(file, 0, "UHL") && SentinelMatches(file, 80, "DSI")
    requires SentinelMatches(file, 728, "ACC")
    ensures UhlStart(file) == 0 && DsiStart(file) == 80 && AccStart(file) == 728
    ensures FirstDataRecord(file) == 3428
  {
    assert FieldText(file, 0, 3) == "UHL";
  }

  /** A file opening with VOL and HDR records has its data 160 bytes further on. */
  lemma VolHdrChain(file: seq<bv8>)
    requires SentinelMatches(file, 0, "VOL") && SentinelMatches(file, 80, "HDR")
    requires SentinelMatches(file, 160, "UHL") && SentinelMatches(file, 240, "DSI")
    requires SentinelMatches(file, 888, "ACC")
    ensures HdrStart(file) == 80 && UhlStart(file) == 160 && DsiStart(file) == 240 && AccStart(file) == 888
    ensures FirstDataRecord(file) == 3588
  {
  }

  /** Without an ACC record where the chain expects one the data offset is 0. */
  lemma MissingAccChain(file: seq<bv8>)
    requires !SentinelMatches(file, AccStart(file), "ACC")
    ensures FirstDataRecord(file) == 0
  {
  }

  /** theDtedRecordSizeInBytes: two bytes per post plus DATA_LENGTH. */
  function RecordSize(numLatPoints: int): int {
    numLatPoints * POST_SIZE + DATA_LENGTH
  }

  /** The file offset of post (x, y). */
  function PostOffset(first: int, recordSize: int, x: int, y: int): int {
    first + x * recordSize + DATA_RECORD_OFFSET_TO_POST + y * POST_SIZE
  }

  /** Post (x, y) decoded from the file. */
  function FilePost(file: seq<bv8>, first: int, recordSize: int, x: int, y: int): (v: int)
    ensures -32767 <= v <= 32767
  {
    var p := PostOffset(first, recordSize, x, y);
    PostValueOf(ByteAt(file, p), ByteAt(file, p + 1))
  }

  /** The post bytes of the record at recordStart. */
  function RecordPostBytes(file: seq<bv8>, recordStart: int, m: nat): (r: seq<bv8>)
    ensures |r| == 2 * m
    ensures forall t :: 0 <= t < 2 * m ==> r[t] == ByteAt(file, recordStart + DATA_RECORD_OFFSET_TO_POST + t)
  {
    seq(2 * m, t => ByteAt(file, recordStart + DATA_RECORD_OFFSET_TO_POST + t))
  }

  /**
   * The in-memory copy of a tile with n records of m posts: the post bytes
   * of each record in turn, without the 8 prefix and 4 checksum bytes.
   */
  function MemoryImage(file: seq<bv8>, first: int, n: nat, m: nat): (r: seq<bv8>)
    ensures |r| == 2 * m * n
  {
    if n == 0 then []
    else MemoryImage(file, first, n - 1, m) + RecordPostBytes(file, first + (n - 1) * RecordSize(m), m)
  }

  /** Byte t of the posts of record x sits at 2mx + t in the in-memory copy. */
  lemma {:induction false} MemoryImageAt(file: seq<bv8>, first: int, n: nat, m: nat, x: nat, t: nat)
    requires x < n && t < 2 * m
    ensures 2 * m * x + t < 2 * m * n
    ensures MemoryImage(file, first, n, m)[2 * m * x + t] ==
            ByteAt(file, first + x * RecordSize(m) + DATA_RECORD_OFFSET_TO_POST + t)
  {
    var prefix := MemoryImage(file, first, n - 1, m);
    assert MemoryImage(file, first, n, m) == prefix + RecordPostBytes(file, first + (n - 1) * RecordSize(m), m);
    assert 2 * m * n == 2 * m * (n - 1) + 2 * m;
    if x == n - 1 {
      assert 2 * m * x == |prefix|;
    } else {
      MemoryImageAt(file, first, n - 1, m, x, t);
    }
  }

  lemma {:induction false} MulMonotoneNat(m: nat, a: nat, b: nat)
    requires a <= b
    ensures m * a <= m * b
    decreases b - a
  {
    if a < b {
      MulMonotoneNat(m, a, b - 1);
      assert m * b == m * (b - 1) + m;
    }
  }

  /** Euclidean division by a positive divisor has a unique quotient and remainder. */
  lemma DivModUnique(k: int, m: int, q: int, r: int)
    requires m > 0 && 0 <= r < m && k == m * q + r
    ensures k / m == q && k % m == r
  {
    var q', r' := k / m, k % m;
    assert k == m * q' + r' && 0 <= r' < m;
    if q' > q {
      assert m * q' == m * q + m * (q' - q);
      MulMonotoneNat(m, 1, q' - q);
    } else if q' < q {
      assert m * q == m * q' + m * (q - q');
      MulMonotoneNat(m, 1, q - q');
    }
  }

  /**
   * The post word k of the in-memory copy: post (k / m, k % m) inside the
   * buffer, and zero bytes, which decode to 0, past its end.
   */
  function MemoryWordPost(file: seq<bv8>, first: int, n: nat, m: nat, k: int): int
  {
    if 0 <= k < n * m && m > 0 then FilePost(file, first, RecordSize(m), k / m, k % m) else 0
  }

  /** Post (x, y) is word m*x + y of the in-memory copy. */
  lemma MemoryPostAt(file: seq<bv8>, first: int, n: nat, m: nat, x: nat, y: nat)
    requires x < n && y < m
    ensures 2 * (m * x + y) + 1 < |MemoryImage(file, first, n, m)|
    ensures PostValueOf(MemoryImage(file, first, n, m)[2 * (m * x + y)],
                        MemoryImage(file, first, n, m)[2 * (m * x + y) + 1]) ==
            FilePost(file, first, RecordSize(m), x, y)
  {
    var i := 2 * (m * x + y);
    var p := PostOffset(first, RecordSize(m), x, y);
    MemoryBytesAt(file, first, n, m, x, y, i, p);
  }

  lemma MemoryBytesAt(file: seq<bv8>, first: int, n: nat, m: nat, x: nat, y: nat, i: int, p: int)
    requires x < n && y < m
    requires i == 2 * m * x + 2 * y && p == first + x * RecordSize(m) + DATA_RECORD_OFFSET_TO_POST + 2 * y
    ensures 0 <= i && i + 1 < |MemoryImage(file, first, n, m)|
    ensures MemoryImage(file, first, n, m)[i] == ByteAt(file, p)
    ensures MemoryImage(file, first, n, m)[i + 1] == ByteAt(file, p + 1)
  {
    MemoryImageAt(file, first, n, m, x, 2 * y);
    MemoryImageAt(file, first, n, m, x, 2 * y + 1);
  }

  /** Word k of the in-memory copy decodes to the post MemoryWordPost names. */
  lemma MemoryWord(file: seq<bv8>, first: int, n: nat, m: nat, k: nat)
    requires 0 < m && k < n * m
    ensures 2 * k + 1 < |MemoryImage(file, first, n, m)|
    ensures PostValueOf(MemoryImage(file, first, n, m)[2 * k], MemoryImage(file, first, n, m)[2 * k + 1]) ==
            MemoryWordPost(file, first, n, m, k)
  {
    DivModBounds(k, n, m);
    var x, y := k / m, k % m;
    assert k == m * x + y;
    MemoryPostAt(file, first, n, m, x, y);
  }

  /**
   * Two bytes at an even offset o of the in-memory copy decode to word
   * o / 2; an offset whose bytes are not both inside it names a word that
   * reads as 0.
   */
  lemma MemoryBytesDecode(file: seq<bv8>, first: int, n: nat, m: nat, o: int)
    requires o % 2 == 0
    ensures 0 <= o && o + 1 < |MemoryImage(file, first, n, m)| ==>
              PostValueOf(MemoryImage(file, first, n, m)[o], MemoryImage(file, first, n, m)[o + 1]) ==
              MemoryWordPost(file, first, n, m, o / 2)
    ensures !(0 <= o && o + 1 < |MemoryImage(file, first, n, m)|) ==> MemoryWordPost(file, first, n, m, o / 2) == 0
  {
    var k := o / 2;
    assert o == 2 * k;
    assert 2 * m * n == 2 * (n * m);
    if 0 <= o && o + 1 < 2 * m * n {
      MemoryWord(file, first, n, m, k);
    }
  }

  /** The post read from bytes o and o + 1 of a buffer, or 0 when they are not both inside it. */
  function ImagePost(img: seq<bv8>, o: int): int {
    if 0 <= o && o + 1 < |img| then PostValueOf(img[o], img[o + 1]) else 0
  }

  /** Bytes 2k and 2k + 1 of the in-memory copy hold word k. */
  lemma ImageWord(file: seq<bv8>, first: int, n: nat, m: nat, k: int)
    ensures ImagePost(MemoryImage(file, first, n, m), 2 * k) == MemoryWordPost(file, first, n, m, k)
  {
    assert (2 * k) % 2 == 0 && (2 * k) / 2 == k;
    MemoryBytesDecode(file, first, n, m, 2 * k);
  }

  /** The quotient and remainder of a word index within n records of m posts. */
  lemma DivModBounds(k: nat, n: nat, m: nat)
    requires 0 < m && k < n * m
    ensures k == m * (k / m) + k % m && 0 <= k % m < m && 0 <= k / m < n
  {
    var x := k / m;
    if x >= n {
      MulMonotoneNat(m, n, x);
    }
  }

  /** The word of post (x, y) in the in-memory copy. */
  lemma MemoryWordOfPost(n: nat, m: nat, x: int, y: int)
    requires 0 <= x < n && 0 <= y < m
    ensures 0 <= m * x + y < n * m
    ensures (m * x + y) / m == x && (m * x + y) % m == y
  {
    DivModUnique(m * x + y, m, x, y);
    assert m * x + y < m * x + m == m * (x + 1) <= m * n;
  }

  /**
   * The memory path of the height lookup reads its third and fourth corner
   * n words after the first and second: word m*x0 + y0 + n. When n == m this
   * is post (x0 + 1, y0), the neighbour to the east.
   */
  lemma SquareMemoryCorner(n: nat, x0: int, y0: int)
    requires 0 <= x0 < n - 1 && 0 <= y0 < n
    ensures (n * x0 + y0 + n) / n == x0 + 1 && (n * x0 + y0 + n) % n == y0
  {
    DivModUnique(n * x0 + y0 + n, n, x0 + 1, y0);
  }

  /** With n <= m every corner word the memory path reads lies inside the buffer. */
  lemma MemoryCornersInBounds(n: nat, m: nat, x0: int, y0: int)
    requires n <= m && 0 <= x0 < n - 1 && 0 <= y0 < m - 1
    ensures m * x0 + y0 + n + 1 < n * m
  {
    assert m * x0 <= m * (n - 2);
  }

  /** With n > m the fourth corner of the last cell lies past the end of the buffer. */
  lemma MemoryCornerPastEnd(n: nat, m: nat)
    requires n > m >= 2
    ensures m * (n - 2) + (m - 2) + n + 1 >= n * m
  {
  }

  // Bilinear weighting of four posts.

  /** The corner weights, after the weight of a null corner has been set to 0. */
  function Weights(xi: real, yi: real, p00: real, p01: real, p10: real, p11: real): (real, real, real, real)
  {
    var x0 := Trunc(xi);
    var y0 := Trunc(yi);
    var wx1 := xi - x0 as real;
    var wy1 := yi - y0 as real;
    var wx0 := 1.0 - wx1;
    var wy0 := 1.0 - wy1;
    (if p00 == NULL_POST as real then 0.0 else wx0 * wy0,
     if p01 == NULL_POST as real then 0.0 else wx0 * wy1,
     if p10 == NULL_POST as real then 0.0 else wx1 * wy0,
     if p11 == NULL_POST as real then 0.0 else wx1 * wy1)
  }

  /**
   * bilinearInterpolate: the weighted mean of the corners that are not
   * null, or NULL_POST when no weight is left.
   */
  function BilinearInterpolate(xi: real, yi: real, p00: real, p01: real, p10: real, p11: real): real
  {
    WeightedMean(p00, p01, p10, p11, Weights(xi, yi, p00, p01, p10, p11))
  }

  /** The corners' weighted sum divided by the sum of the weights, or NULL_POST when that is 0. */
  function WeightedMean(p00: real, p01: real, p10: real, p11: real, w: (real, real, real, real)): real
  {
    var sum := w.0 + w.1 + w.2 + w.3;
    if sum != 0.0 then (p00 * w.0 + p01 * w.1 + p10 * w.2 + p11 * w.3) / sum
    else NULL_POST as real
  }

  /** Four null corners leave no weight, so the result is NULL_POST. */
  lemma BilinearAllNull(xi: real, yi: real)
    ensures BilinearInterpolate(xi, yi, NULL_POST as real, NULL_POST as real, NULL_POST as real, NULL_POST as real)
            == NULL_POST as real
  {
  }

  /** At a grid intersection only p00 counts: a null p00 gives the null post, any other p00 is the result. */
  lemma NullCornerIgnored(xi: real, yi: real, p01: real, p10: real, p11: real, q: real)
    requires q != NULL_POST as real && xi >= 0.0 && yi >= 0.0 && Trunc(xi) as real == xi && Trunc(yi) as real == yi
    ensures BilinearInterpolate(xi, yi, NULL_POST as real, p01, p10, p11) == NULL_POST as real
    ensures BilinearInterpolate(xi, yi, q, p01, p10, p11) == q
  {
  }

  lemma MulNonNegative(a: real, b: real)
    requires a >= 0.0 && b >= 0.0
    ensures a * b >= 0.0
  {
  }

  function Min4(a: real, b: real, c: real, d: real): (r: real)
    ensures r <= a && r <= b && r <= c && r <= d
    ensures r == a || r == b || r == c || r == d
  {
    var ab := if a <= b then a else b;
    var cd := if c <= d then c else d;
    if ab <= cd then ab else cd
  }

  function Max4(a: real, b: real, c: real, d: real): (r: real)
    ensures r >= a && r >= b && r >= c && r >= d
    ensures r == a || r == b || r == c || r == d
  {
    var ab := if a >= b then a else b;
    var cd := if c >= d then c else d;
    if ab >= cd then ab else cd
  }

  /** For a point at or after the cell's lower-left post the weights are non-negative and sum to 1. */
  lemma WeightsPartitionUnity(xi: real, yi: real, p00: real, p01: real, p10: real, p11: real)
    requires xi >= 0.0 && yi >= 0.0
    requires p00 != NULL_POST as real && p01 != NULL_POST as real
    requires p10 != NULL_POST as real && p11 != NULL_POST as real
    ensures var w := Weights(xi, yi, p00, p01, p10, p11);
            w.0 >= 0.0 && w.1 >= 0.0 && w.2 >= 0.0 && w.3 >= 0.0 && w.0 + w.1 + w.2 + w.3 == 1.0
  {
    var wx1 := xi - Trunc(xi) as real;
    var wy1 := yi - Trunc(yi) as real;
    MulNonNegative(1.0 - wx1, 1.0 - wy1);
    MulNonNegative(1.0 - wx1, wy1);
    MulNonNegative(wx1, 1.0 - wy1);
    MulNonNegative(wx1, wy1);
  }

  /**
   * With no null corner, a point at or after the lower-left post is
   * interpolated to a value between the lowest and the highest corner.
   */
  lemma BilinearWithinCorners(xi: real, yi: real, p00: real, p01: real, p10: real, p11: real)
    requires xi >= 0.0 && yi >= 0.0
    requires p00 != NULL_POST as real && p01 != NULL_POST as real
    requires p10 != NULL_POST as real && p11 != NULL_POST as real
    ensures Min4(p00, p01, p10, p11) <= BilinearInterpolate(xi, yi, p00, p01, p10, p11) <= Max4(p00, p01, p10, p11)
  {
    WeightsPartitionUnity(xi, yi, p00, p01, p10, p11);
    MeanWithinCorners(p00, p01, p10, p11, Weights(xi, yi, p00, p01, p10, p11));
  }

  /** With non-negative weights summing to 1 the weighted mean lies between the lowest and highest corner. */
  lemma MeanWithinCorners(p00: real, p01: real, p10: real, p11: real, w: (real, real, real, real))
    requires w.0 >= 0.0 && w.1 >= 0.0 && w.2 >= 0.0 && w.3 >= 0.0 && w.0 + w.1 + w.2 + w.3 == 1.0
    ensures Min4(p00, p01, p10, p11) <= WeightedMean(p00, p01, p10, p11, w) <= Max4(p00, p01, p10, p11)
  {
    ConvexCombination(Min4(p00, p01, p10, p11), Max4(p00, p01, p10, p11), p00, p01, p10, p11, w.0, w.1, w.2, w.3);
    assert WeightedMean(p00, p01, p10, p11, w) == (p00 * w.0 + p01 * w.1 + p10 * w.2 + p11 * w.3) / 1.0;
  }

  /** A combination of four values with non-negative weights summing to 1 lies within their bounds. */
  lemma ConvexCombination(lo: real, hi: real, p0: real, p1: real, p2: real, p3: real,
                          w0: real, w1: real, w2: real, w3: real)
    requires lo <= p0 <= hi && lo <= p1 <= hi && lo <= p2 <= hi && lo <= p3 <= hi
    requires w0 >= 0.0 && w1 >= 0.0 && w2 >= 0.0 && w3 >= 0.0 && w0 + w1 + w2 + w3 == 1.0
    ensures lo <= p0 * w0 + p1 * w1 + p2 * w2 + p3 * w3 <= hi
  {
    MulNonNegative(p0 - lo, w0);
    MulNonNegative(p1 - lo, w1);
    MulNonNegative(p2 - lo, w2);
    MulNonNegative(p3 - lo, w3);
    MulNonNegative(hi - p0, w0);
    MulNonNegative(hi - p1, w1);
    MulNonNegative(hi - p2, w2);
    MulNonNegative(hi - p3, w3);
    Excess(lo, p0, p1, p2, p3, w0, w1, w2, w3);
    Excess(hi, p0, p1, p2, p3, w0, w1, w2, w3);
  }

  /** How far a weighted sum with weights summing to 1 lies above c. */
  lemma Excess(c: real, p0: real, p1: real, p2: real, p3: real, w0: real, w1: real, w2: real, w3: real)
    requires w0 + w1 + w2 + w3 == 1.0
    ensures p0 * w0 + p1 * w1 + p2 * w2 + p3 * w3 - c ==
            (p0 - c) * w0 + (p1 - c) * w1 + (p2 - c) * w2 + (p3 - c) * w3
  {
    assert c * w0 + c * w1 + c * w2 + c * w3 == c * (w0 + w1 + w2 + w3);
  }

  // The statistics folds of gatherStatistics, over the posts in file order.

  /** The posts of record x in order, south to north. */
  function RecordPosts(file: seq<bv8>, first: int, recordSize: int, x: int, m: nat): (r: seq<int>)
    ensures |r| == m && forall y :: 0 <= y < m ==> r[y] == FilePost(file, first, recordSize, x, y)
  {
    seq(m, y => FilePost(file, first, recordSize, x, y))
  }

  /** The posts of the first n records in file order. */
  function CellPosts(file: seq<bv8>, first: int, recordSize: int, n: nat, m: nat): (r: seq<int>)
    ensures |r| == m * n
  {
    if n == 0 then [] else CellPosts(file, first, recordSize, n - 1, m) + RecordPosts(file, first, recordSize, n - 1, m)
  }

  /** The running minimum of the non-null values, starting from init. */
  function MinNonNull(s: seq<int>, init: int): int
    decreases |s|
  {
    if |s| == 0 then init
    else
      var m := MinNonNull(s[..|s| - 1], init);
      if s[|s| - 1] < m && s[|s| - 1] != NULL_POST then s[|s| - 1] else m
  }

  /** The running maximum, starting from init. */
  function MaxOf(s: seq<int>, init: int): int
    decreases |s|
  {
    if |s| == 0 then init
    else
      var m := MaxOf(s[..|s| - 1], init);
      if s[|s| - 1] > m then s[|s| - 1] else m
  }

  /** One more value extends both folds by one step. */
  lemma FoldsStep(s: seq<int>, v: int, lo: int, hi: int)
    ensures MinNonNull(s + [v], lo) == if v < MinNonNull(s, lo) && v != NULL_POST then v else MinNonNull(s, lo)
    ensures MaxOf(s + [v], hi) == if v > MaxOf(s, hi) then v else MaxOf(s, hi)
  {
    assert (s + [v])[..|s|] == s;
  }

  /** The running minimum is the least of init and the non-null values, and one of them. */
  lemma {:induction false} MinNonNullIsLeast(s: seq<int>, init: int)
    ensures MinNonNull(s, init) <= init
    ensures forall k :: 0 <= k < |s| && s[k] != NULL_POST ==> MinNonNull(s, init) <= s[k]
    ensures MinNonNull(s, init) == init ||
            exists k :: 0 <= k < |s| && s[k] != NULL_POST && s[k] == MinNonNull(s, init)
    decreases |s|
  {
    if |s| > 0 {
      var p := s[..|s| - 1];
      MinNonNullIsLeast(p, init);
      assert forall k :: 0 <= k < |p| ==> p[k] == s[k];
    }
  }

  /** The running maximum is the greatest of init and the values, and one of them. */
  lemma {:induction false} MaxOfIsGreatest(s: seq<int>, init: int)
    ensures MaxOf(s, init) >= init
    ensures forall k :: 0 <= k < |s| ==> MaxOf(s, init) >= s[k]
    ensures MaxOf(s, init) == init || exists k :: 0 <= k < |s| && s[k] == MaxOf(s, init)
    decreases |s|
  {
    if |s| > 0 {
      var p := s[..|s| - 1];
      MaxOfIsGreatest(p, init);
      assert forall k :: 0 <= k < |p| ==> p[k] == s[k];
    }
  }

  /** Every post of the tile appears in the visit order, post (x, y) at m*x + y. */
  lemma {:induction false} CellPostsAt(file: seq<bv8>, first: int, recordSize: int, n: nat, m: nat, x: nat, y: nat)
    requires x < n && y < m
    ensures m * x + y < m * n
    ensures CellPosts(file, first, recordSize, n, m)[m * x + y] == FilePost(file, first, recordSize, x, y)
  {
    var prefix := CellPosts(file, first, recordSize, n - 1, m);
    assert m * n == m * (n - 1) + m;
    if x == n - 1 {
      assert m * x == |prefix|;
    } else {
      CellPostsAt(file, first, recordSize, n - 1, m, x, y);
    }
  }
}
