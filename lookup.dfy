/**
 * What the lookups of a DTED tile return, stated over the file image and
 * the header values: the coverage test, the grid coordinates of a point,
 * the height lookup of the in-memory and of the disk access paths, and the
 * single-post lookup. Dted_Cell's accessors are proved to compute these.
 */
module DtedLookup {
  import opened DtedCommon
  import opened DtedPost
  import opened DtedCellLayout

  /** A count taken from the header as a number of posts: a negative count gives none. */
  function Count(v: int): (n: nat)
    ensures v >= 0 ==> n == v
    ensures v < 0 ==> n == 0
  {
    if v < 0 then 0 else v
  }

  /** The tile with this south-west origin covers the half-open one-degree square above and right of it. */
  predicate CellCovers(origin: GeoLocation, gpt: GeoLocation) {
    origin.lat <= gpt.lat < origin.lat + 1.0 && origin.lon <= gpt.lon < origin.lon + 1.0
  }

  /** Grid coordinate along longitude: the distance from the origin in units of post spacing. */
  function GridX(h: Header, gpt: GeoLocation): real {
    Abs(gpt.lon - h.swCorner.lon) * (h.numLonLines - 1) as real
  }

  /** Grid coordinate along latitude. */
  function GridY(h: Header, gpt: GeoLocation): real {
    Abs(gpt.lat - h.swCorner.lat) * (h.numLatPoints - 1) as real
  }

  /** Post (x, y) of the tile, as a double. */
  function Post(file: seq<bv8>, h: Header, x: int, y: int): (v: real)
    ensures -32767.0 <= v <= 32767.0
  {
    FilePost(file, h.firstDataRecord, RecordSize(h.numLatPoints), x, y) as real
  }

  /** Word k of the tile's in-memory copy, as a double. */
  function Word(file: seq<bv8>, h: Header, k: int): real {
    MemoryWordPost(file, h.firstDataRecord, Count(h.numLonLines), Count(h.numLatPoints), k) as real
  }

  /** The memory path's range test: the point lies west or south of the origin, or past the last interior post. */
  predicate MemoryOutside(h: Header, gpt: GeoLocation) {
    gpt.lon < h.swCorner.lon || gpt.lat < h.swCorner.lat ||
    Trunc(GridX(h, gpt)) >= h.numLonLines - 1 || Trunc(GridY(h, gpt)) >= h.numLatPoints - 1
  }

  /** The disk path's range test, which checks the sign of the grid coordinates instead. */
  predicate DiskOutside(h: Header, gpt: GeoLocation) {
    GridX(h, gpt) < 0.0 || GridY(h, gpt) < 0.0 ||
    Trunc(GridX(h, gpt)) >= h.numLonLines - 1 || Trunc(GridY(h, gpt)) >= h.numLatPoints - 1
  }

  /** The value a lookup returns from its four corners: the first, or their bilinear mean. */
  function Lookup(interp: bool, xi: real, yi: real, c: (real, real, real, real)): real {
    if !interp then c.0 else BilinearInterpolate(xi, yi, c.0, c.1, c.2, c.3)
  }

  /**
   * The corners the memory path reads: words k, k + 1, k + n and k + n + 1
   * of the in-memory copy, for k = m*x0 + y0; the third is n words on.
   */
  function MemoryCorners(file: seq<bv8>, h: Header, gpt: GeoLocation): (real, real, real, real) {
    var k := h.numLatPoints * Trunc(GridX(h, gpt)) + Trunc(GridY(h, gpt));
    var n := h.numLonLines;
    (Word(file, h, k), Word(file, h, k + 1), Word(file, h, k + n), Word(file, h, k + n + 1))
  }

  /**
   * The corners the disk path reads: posts (x0, y0) and (x0, y0 + 1), then
   * two posts one record size minus one post further on, (x0 + 1, y0 - 1)
   * and (x0 + 1, y0).
   */
  function DiskCorners(file: seq<bv8>, h: Header, gpt: GeoLocation): (real, real, real, real) {
    var x0, y0 := Trunc(GridX(h, gpt)), Trunc(GridY(h, gpt));
    (Post(file, h, x0, y0), Post(file, h, x0, y0 + 1), Post(file, h, x0 + 1, y0 - 1), Post(file, h, x0 + 1, y0))
  }

  /** The four posts around a point: (x0, y0), (x0, y0 + 1), (x0 + 1, y0) and (x0 + 1, y0 + 1). */
  function GridCorners(file: seq<bv8>, h: Header, gpt: GeoLocation): (real, real, real, real) {
    var x0, y0 := Trunc(GridX(h, gpt)), Trunc(GridY(h, gpt));
    (Post(file, h, x0, y0), Post(file, h, x0, y0 + 1), Post(file, h, x0 + 1, y0), Post(file, h, x0 + 1, y0 + 1))
  }

  /** getHeightAboveMSL: 0.0 outside the grid, otherwise the lookup of the memory corners. */
  function MemoryHeight(file: seq<bv8>, h: Header, interp: bool, gpt: GeoLocation): real {
    if MemoryOutside(h, gpt) then 0.0
    else Lookup(interp, GridX(h, gpt), GridY(h, gpt), MemoryCorners(file, h, gpt))
  }

  /** getHeightAboveMSLFromDisk: 0.0 outside the grid, otherwise the lookup of the disk corners. */
  function DiskHeight(file: seq<bv8>, h: Header, interp: bool, gpt: GeoLocation): real {
    if DiskOutside(h, gpt) then 0.0
    else Lookup(interp, GridX(h, gpt), GridY(h, gpt), DiskCorners(file, h, gpt))
  }

  /** getPostValue and getPostValueFromDisk at integer indices: 0.0 off the grid, post (x, y) on it. */
  function PostLookup(file: seq<bv8>, h: Header, x: int, y: int): real {
    if x < 0 || y < 0 || x > h.numLonLines - 1 || y > h.numLatPoints - 1 then 0.0
    else Post(file, h, x, y)
  }

  // Steps of the accessors' proofs.

  /** Offsets of the posts next to post (x, y): one post on, one record on, and one record less one post on. */
  lemma NeighbourOffsets(first: int, recordSize: int, x: int, y: int)
    ensures PostOffset(first, recordSize, x, y + 1) == PostOffset(first, recordSize, x, y) + POST_SIZE
    ensures PostOffset(first, recordSize, x + 1, y - 1) == PostOffset(first, recordSize, x, y) + recordSize - POST_SIZE
    ensures PostOffset(first, recordSize, x + 1, y) == PostOffset(first, recordSize, x, y) + recordSize
  {
    assert (x + 1) * recordSize == x * recordSize + recordSize;
  }

  /** Inside the grid the disk path's height is post (x0, y0), or the interpolation of its four corners. */
  lemma DiskHeightInside(file: seq<bv8>, h: Header, interp: bool, gpt: GeoLocation, x0: int, y0: int,
                         p00: real, p01: real, p10: real, p11: real)
    requires !DiskOutside(h, gpt) && x0 == Trunc(GridX(h, gpt)) && y0 == Trunc(GridY(h, gpt))
    requires p00 == Post(file, h, x0, y0) && p01 == Post(file, h, x0, y0 + 1)
    requires p10 == Post(file, h, x0 + 1, y0 - 1) && p11 == Post(file, h, x0 + 1, y0)
    ensures !interp ==> DiskHeight(file, h, interp, gpt) == p00
    ensures interp ==> DiskHeight(file, h, interp, gpt) == BilinearInterpolate(GridX(h, gpt), GridY(h, gpt), p00, p01, p10, p11)
  {
  }

  /** Inside the grid the memory path's height is word k, or the interpolation of its four corners. */
  lemma MemoryHeightInside(file: seq<bv8>, h: Header, interp: bool, gpt: GeoLocation, k: int,
                           p00: real, p01: real, p10: real, p11: real)
    requires !MemoryOutside(h, gpt) && k == h.numLatPoints * Trunc(GridX(h, gpt)) + Trunc(GridY(h, gpt))
    requires p00 == Word(file, h, k) && p01 == Word(file, h, k + 1)
    requires p10 == Word(file, h, k + h.numLonLines) && p11 == Word(file, h, k + h.numLonLines + 1)
    ensures !interp ==> MemoryHeight(file, h, interp, gpt) == p00
    ensures interp ==> MemoryHeight(file, h, interp, gpt) == BilinearInterpolate(GridX(h, gpt), GridY(h, gpt), p00, p01, p10, p11)
  {
  }

  /**
   * Inside the grid the memory path's height is the post at bytes 2k of
   * the in-memory copy, or the interpolation of the posts at 2k, 2(k + 1),
   * 2(k + n) and 2(k + n + 1).
   */
  lemma MemoryHeightFromImage(file: seq<bv8>, h: Header, interp: bool, gpt: GeoLocation, k: int,
                              img: seq<bv8>, o00: int, o01: int, o10: int, o11: int,
                              p00: real, p01: real, p10: real, p11: real)
    requires h.numLonLines >= 0 && h.numLatPoints >= 0
    requires img == MemoryImage(file, h.firstDataRecord, h.numLonLines, h.numLatPoints)
    requires !MemoryOutside(h, gpt) && k == h.numLatPoints * Trunc(GridX(h, gpt)) + Trunc(GridY(h, gpt))
    requires o00 == 2 * k && o01 == 2 * (k + 1) && o10 == 2 * (k + h.numLonLines) && o11 == 2 * (k + h.numLonLines + 1)
    requires p00 == ImagePost(img, o00) as real && p01 == ImagePost(img, o01) as real
    requires p10 == ImagePost(img, o10) as real && p11 == ImagePost(img, o11) as real
    ensures !interp ==> MemoryHeight(file, h, interp, gpt) == p00
    ensures interp ==> MemoryHeight(file, h, interp, gpt) == BilinearInterpolate(GridX(h, gpt), GridY(h, gpt), p00, p01, p10, p11)
  {
    var n, m := h.numLonLines, h.numLatPoints;
    ImageWord(file, h.firstDataRecord, n, m, k);
    ImageWord(file, h.firstDataRecord, n, m, k + 1);
    ImageWord(file, h.firstDataRecord, n, m, k + n);
    ImageWord(file, h.firstDataRecord, n, m, k + n + 1);
    MemoryHeightInside(file, h, interp, gpt, k, p00, p01, p10, p11);
  }

  // Coverage.

  /** With a whole-degree origin, a tile covers exactly the points whose floored coordinates are that origin. */
  lemma CoversIffFloorOrigin(origin: GeoLocation, gpt: GeoLocation)
    requires origin.lat == origin.lat.Floor as real && origin.lon == origin.lon.Floor as real
    ensures CellCovers(origin, gpt) <==>
            gpt.lat.Floor as real == origin.lat && gpt.lon.Floor as real == origin.lon
  {
    FloorWithin(gpt.lat, origin.lat.Floor);
    FloorWithin(gpt.lon, origin.lon.Floor);
  }

  /** x lies in [o, o + 1) exactly when o is the floor of x. */
  lemma FloorWithin(x: real, o: int)
    ensures o as real <= x < o as real + 1.0 <==> x.Floor == o
  {
  }

  /** The origin is covered, the northern and eastern edges and everything south or west are not. */
  lemma CoverageEdges(origin: GeoLocation, d: real)
    requires d > 0.0
    ensures CellCovers(origin, origin)
    ensures !CellCovers(origin, GeoLocation(origin.lat + 1.0, origin.lon))
    ensures !CellCovers(origin, GeoLocation(origin.lat, origin.lon + 1.0))
    ensures !CellCovers(origin, GeoLocation(origin.lat - d, origin.lon))
    ensures !CellCovers(origin, GeoLocation(origin.lat, origin.lon - d))
  {
  }

  // The two access paths compared.

  /** The grid cell of a point at or north-east of the origin of a tile with posts. */
  lemma GridCell(h: Header, gpt: GeoLocation)
    requires h.numLonLines >= 1 && h.numLatPoints >= 1
    requires gpt.lon >= h.swCorner.lon && gpt.lat >= h.swCorner.lat
    ensures GridX(h, gpt) >= 0.0 && GridY(h, gpt) >= 0.0
    ensures MemoryOutside(h, gpt) <==> DiskOutside(h, gpt)
    ensures !MemoryOutside(h, gpt) ==>
              0 <= Trunc(GridX(h, gpt)) < h.numLonLines - 1 && 0 <= Trunc(GridY(h, gpt)) < h.numLatPoints - 1
  {
    MulNonNegative(gpt.lon - h.swCorner.lon, (h.numLonLines - 1) as real);
    MulNonNegative(gpt.lat - h.swCorner.lat, (h.numLatPoints - 1) as real);
  }

  /** Inside the grid, word m*x + y of the in-memory copy is post (x, y). */
  lemma WordIsPost(file: seq<bv8>, h: Header, x: int, y: int)
    requires 0 <= x < h.numLonLines && 0 <= y < h.numLatPoints
    ensures Word(file, h, h.numLatPoints * x + y) == Post(file, h, x, y)
  {
    MemoryWordOfPost(h.numLonLines, h.numLatPoints, x, y);
  }

  /**
   * Without interpolation both paths return 0.0 outside the grid and post
   * (x0, y0) inside it, for every point at or north-east of the origin.
   */
  lemma UninterpolatedPathsAgree(file: seq<bv8>, h: Header, gpt: GeoLocation)
    requires h.numLonLines >= 1 && h.numLatPoints >= 1
    requires gpt.lon >= h.swCorner.lon && gpt.lat >= h.swCorner.lat
    ensures MemoryHeight(file, h, false, gpt) == DiskHeight(file, h, false, gpt)
    ensures MemoryHeight(file, h, false, gpt) ==
            if MemoryOutside(h, gpt) then 0.0 else Post(file, h, Trunc(GridX(h, gpt)), Trunc(GridY(h, gpt)))
  {
    GridCell(h, gpt);
    if !MemoryOutside(h, gpt) {
      WordIsPost(file, h, Trunc(GridX(h, gpt)), Trunc(GridY(h, gpt)));
    }
  }

  /** A point the tile covers lies inside the grid of a tile with at least two posts each way. */
  lemma CoveredIsInside(h: Header, gpt: GeoLocation)
    requires h.numLonLines >= 2 && h.numLatPoints >= 2 && CellCovers(h.swCorner, gpt)
    ensures !MemoryOutside(h, gpt) && !DiskOutside(h, gpt)
  {
    GridCell(h, gpt);
    AxisInside(gpt.lon - h.swCorner.lon, h.numLonLines);
    AxisInside(gpt.lat - h.swCorner.lat, h.numLatPoints);
  }

  /** Less than one degree from the origin lies before the last of n posts. */
  lemma AxisInside(d: real, n: int)
    requires 0.0 <= d < 1.0 && n >= 2
    ensures Trunc(Abs(d) * (n - 1) as real) < n - 1
  {
    var s := (n - 1) as real;
    BelowScale(d, s);
    MulNonNegative(d, s);
    TruncBelow(d * s, n - 1);
    assert Abs(d) == d;
  }

  lemma TruncBelow(x: real, bound: int)
    requires 0.0 <= x < bound as real
    ensures Trunc(x) < bound
  {
  }

  lemma BelowScale(d: real, s: real)
    requires 0.0 <= d < 1.0 && s > 0.0
    ensures d * s < s
  {
    assert s - d * s == (1.0 - d) * s;
    MulPositive(1.0 - d, s);
  }

  lemma MulPositive(a: real, b: real)
    requires a > 0.0 && b > 0.0
    ensures a * b > 0.0
  {
  }

  /** On a square tile the memory path reads the four posts around the point. */
  lemma SquareTileMemoryCorners(file: seq<bv8>, h: Header, gpt: GeoLocation)
    requires h.numLonLines == h.numLatPoints >= 1
    requires !MemoryOutside(h, gpt)
    ensures MemoryCorners(file, h, gpt) == GridCorners(file, h, gpt)
  {
    GridCell(h, gpt);
    var x0, y0 := Trunc(GridX(h, gpt)), Trunc(GridY(h, gpt));
    var m := h.numLatPoints;
    var k := m * x0 + y0;
    WordAt(file, h, k, x0, y0);
    WordAt(file, h, k + 1, x0, y0 + 1);
    WordAt(file, h, k + m, x0 + 1, y0);
    WordAt(file, h, k + m + 1, x0 + 1, y0 + 1);
  }

  /** Word k of the in-memory copy is post (x, y) when k = m*x + y inside the grid. */
  lemma WordAt(file: seq<bv8>, h: Header, k: int, x: int, y: int)
    requires 0 <= x < h.numLonLines && 0 <= y < h.numLatPoints
    requires k == h.numLatPoints * x + y || k == h.numLatPoints * (x - 1) + y + h.numLatPoints
    ensures Word(file, h, k) == Post(file, h, x, y)
  {
    assert h.numLatPoints * (x - 1) + h.numLatPoints == h.numLatPoints * x;
    WordIsPost(file, h, x, y);
  }

  /** The disk path's third and fourth corners are those of the cell one post to the south. */
  lemma DiskCornersShifted(file: seq<bv8>, h: Header, gpt: GeoLocation)
    ensures var c, g := DiskCorners(file, h, gpt), GridCorners(file, h, gpt);
            c.0 == g.0 && c.1 == g.1 && c.3 == g.2 &&
            c.2 == Post(file, h, Trunc(GridX(h, gpt)) + 1, Trunc(GridY(h, gpt)) - 1)
  {
  }

  /**
   * On a tile with fewer latitude points than longitude lines the fourth
   * word the memory path reads for the last cell lies past the end of the
   * in-memory copy, so it reads as 0.
   */
  lemma LastCellReadsPastEnd(file: seq<bv8>, h: Header)
    requires h.numLonLines > h.numLatPoints >= 2
    ensures var n, m := h.numLonLines, h.numLatPoints;
            Word(file, h, m * (n - 2) + (m - 2) + n + 1) == 0.0
  {
    MemoryCornerPastEnd(h.numLonLines, h.numLatPoints);
  }

  /**
   * On a square tile, at a point on a latitude post line strictly between
   * two longitude lines, the two paths agree exactly when post (x0 + 1, y0),
   * which the memory path reads, equals post (x0 + 1, y0 - 1), which the
   * disk path reads, provided none of the three is null.
   */
  lemma SquareTilePathsDisagree(file: seq<bv8>, h: Header, gpt: GeoLocation)
    requires h.numLonLines == h.numLatPoints >= 1
    requires gpt.lon >= h.swCorner.lon && gpt.lat >= h.swCorner.lat && !MemoryOutside(h, gpt)
    requires Trunc(GridY(h, gpt)) as real == GridY(h, gpt) && Trunc(GridX(h, gpt)) as real < GridX(h, gpt)
    requires var g := GridCorners(file, h, gpt);
             g.0 != NULL_POST as real && g.2 != NULL_POST as real && DiskCorners(file, h, gpt).2 != NULL_POST as real
    ensures MemoryHeight(file, h, true, gpt) == DiskHeight(file, h, true, gpt) <==>
            GridCorners(file, h, gpt).2 == DiskCorners(file, h, gpt).2
  {
    GridCell(h, gpt);
    SquareTileMemoryCorners(file, h, gpt);
    DiskCornersShifted(file, h, gpt);
    var g, c := GridCorners(file, h, gpt), DiskCorners(file, h, gpt);
    ThirdCornerDecides(GridX(h, gpt), GridY(h, gpt), g.0, g.1, g.2, g.3, c.2);
  }

  /**
   * At a point on a latitude post line strictly between two longitude lines,
   * the bilinear mean with non-null p00 changes with the third corner: two
   * means whose third corners are a and b, both non-null, agree iff a == b.
   */
  lemma ThirdCornerDecides(xi: real, yi: real, p00: real, p01: real, a: real, p11: real, b: real)
    requires xi >= 0.0 && yi >= 0.0 && Trunc(yi) as real == yi && Trunc(xi) as real < xi
    requires p00 != NULL_POST as real && a != NULL_POST as real && b != NULL_POST as real
    ensures BilinearInterpolate(xi, yi, p00, p01, a, p11) == BilinearInterpolate(xi, yi, p00, p01, b, a) <==> a == b
  {
    var wx1 := xi - Trunc(xi) as real;
    OnPostLine(xi, yi, p00, p01, a, p11);
    OnPostLine(xi, yi, p00, p01, b, a);
    LinearCancel(p00 * (1.0 - wx1), wx1, a, b);
  }

  /** With a positive weight w, c + a w and c + b w agree exactly when a and b do. */
  lemma LinearCancel(c: real, w: real, a: real, b: real)
    requires w > 0.0
    ensures c + a * w == c + b * w <==> a == b
  {
    if c + a * w == c + b * w {
      CancelFactor(a, b, w);
    }
  }

  /**
   * On a latitude post line only the two southern corners carry weight:
   * the result is p00 (1 - wx1) + p10 wx1 when neither of them is null.
   */
  lemma OnPostLine(xi: real, yi: real, p00: real, p01: real, p10: real, p11: real)
    requires xi >= 0.0 && yi >= 0.0 && Trunc(yi) as real == yi
    requires p00 != NULL_POST as real && p10 != NULL_POST as real
    ensures var wx1 := xi - Trunc(xi) as real;
            BilinearInterpolate(xi, yi, p00, p01, p10, p11) == p00 * (1.0 - wx1) + p10 * wx1
  {
    var wx1 := xi - Trunc(xi) as real;
    var w := Weights(xi, yi, p00, p01, p10, p11);
    assert w.0 == 1.0 - wx1 && w.1 == 0.0 && w.2 == wx1 && w.3 == 0.0;
  }

  lemma CancelFactor(a: real, b: real, w: real)
    requires w > 0.0 && a * w == b * w
    ensures a == b
  {
    if a < b {
      MulPositive(b - a, w);
    } else if a > b {
      MulPositive(a - b, w);
    }
  }

  /**
   * At a point on a grid intersection both paths return the post there,
   * whatever the other corners hold, unless that post is null.
   */
  lemma IntersectionIsPost(file: seq<bv8>, h: Header, gpt: GeoLocation)
    requires h.numLonLines >= 1 && h.numLatPoints >= 1
    requires gpt.lon >= h.swCorner.lon && gpt.lat >= h.swCorner.lat && !MemoryOutside(h, gpt)
    requires Trunc(GridX(h, gpt)) as real == GridX(h, gpt) && Trunc(GridY(h, gpt)) as real == GridY(h, gpt)
    ensures var p := GridCorners(file, h, gpt).0;
            p != NULL_POST as real ==> MemoryHeight(file, h, true, gpt) == p && DiskHeight(file, h, true, gpt) == p
  {
    GridCell(h, gpt);
    var xi, yi := GridX(h, gpt), GridY(h, gpt);
    WordIsPost(file, h, Trunc(xi), Trunc(yi));
    var p := GridCorners(file, h, gpt).0;
    if p != NULL_POST as real {
      var mc, dc := MemoryCorners(file, h, gpt), DiskCorners(file, h, gpt);
      assert mc.0 == p && dc.0 == p;
      NullCornerIgnored(xi, yi, mc.1, mc.2, mc.3, p);
      NullCornerIgnored(xi, yi, dc.1, dc.2, dc.3, p);
    }
  }

  /** The mirror image of a point in the tile's origin: a point west or south of it is reflected north-east. */
  function Reflect(h: Header, gpt: GeoLocation): (q: GeoLocation)
    ensures q.lat >= h.swCorner.lat && q.lon >= h.swCorner.lon
  {
    GeoLocation(h.swCorner.lat + Abs(gpt.lat - h.swCorner.lat), h.swCorner.lon + Abs(gpt.lon - h.swCorner.lon))
  }

  /**
   * The memory path returns 0.0 west or south of the origin, while the
   * disk path, whose grid coordinates are absolute distances, returns the
   * height at the reflected point north-east of it.
   */
  lemma WestSouthOfOrigin(file: seq<bv8>, h: Header, interp: bool, gpt: GeoLocation)
    requires gpt.lon < h.swCorner.lon || gpt.lat < h.swCorner.lat
    ensures MemoryHeight(file, h, interp, gpt) == 0.0
    ensures DiskHeight(file, h, interp, gpt) == DiskHeight(file, h, interp, Reflect(h, gpt))
    ensures Reflect(h, Reflect(h, gpt)) == Reflect(h, gpt) && Reflect(h, gpt) != gpt
  {
    var r := Reflect(h, gpt);
    assert Abs(r.lon - h.swCorner.lon) == Abs(gpt.lon - h.swCorner.lon);
    assert Abs(r.lat - h.swCorner.lat) == Abs(gpt.lat - h.swCorner.lat);
    DiskHeightOfGrid(file, h, interp, gpt, r);
  }

  /** The disk path sees a point only through its grid coordinates. */
  lemma DiskHeightOfGrid(file: seq<bv8>, h: Header, interp: bool, p: GeoLocation, q: GeoLocation)
    requires GridX(h, p) == GridX(h, q) && GridY(h, p) == GridY(h, q)
    ensures DiskHeight(file, h, interp, p) == DiskHeight(file, h, interp, q)
  {
    assert DiskOutside(h, p) == DiskOutside(h, q);
    assert DiskCorners(file, h, p) == DiskCorners(file, h, q);
  }

  /** The single-post lookups read post (x, y) of the in-memory copy as word m*x + y. */
  lemma PostLookupIsWord(file: seq<bv8>, h: Header, x: int, y: int)
    requires 0 <= x <= h.numLonLines - 1 && 0 <= y <= h.numLatPoints - 1
    ensures PostLookup(file, h, x, y) == Word(file, h, h.numLatPoints * x + y)
  {
    WordIsPost(file, h, x, y);
  }

  // Statistics.

  /** The posts of the tile in the order gatherStatistics reads them, record after record. */
  function TilePosts(file: seq<bv8>, h: Header): seq<int> {
    CellPosts(file, h.firstDataRecord, RecordSize(h.numLatPoints), Count(h.numLonLines), Count(h.numLatPoints))
  }

  /** The least non-null post, starting from 32767, and the greatest post, starting from -32767. */
  function MinHeight(file: seq<bv8>, h: Header): int {
    MinNonNull(TilePosts(file, h), 32767)
  }

  function MaxHeight(file: seq<bv8>, h: Header): int {
    MaxOf(TilePosts(file, h), -32767)
  }

  /**
   * The minimum is at most every non-null post of the grid and the maximum
   * at least every post; each is its starting value or a post of the tile.
   */
  lemma StatisticsBound(file: seq<bv8>, h: Header, x: int, y: int)
    requires 0 <= x < h.numLonLines && 0 <= y < h.numLatPoints
    ensures Post(file, h, x, y) != NULL_POST as real ==> MinHeight(file, h) as real <= Post(file, h, x, y)
    ensures MaxHeight(file, h) as real >= Post(file, h, x, y)
  {
    var s := TilePosts(file, h);
    var k := h.numLatPoints * x + y;
    var v := FilePost(file, h.firstDataRecord, RecordSize(h.numLatPoints), x, y);
    CellPostsAt(file, h.firstDataRecord, RecordSize(h.numLatPoints), h.numLonLines, h.numLatPoints, x, y);
    assert 0 <= k < |s| && s[k] == v;
    MinNonNullIsLeast(s, 32767);
    MaxOfIsGreatest(s, -32767);
    assert v != NULL_POST ==> MinNonNull(s, 32767) <= v;
    assert MaxOf(s, -32767) >= v;
  }

  /** Each statistic is its starting value or the value of some post of the tile, non-null for the minimum. */
  lemma StatisticsAttained(file: seq<bv8>, h: Header)
    ensures MinHeight(file, h) == 32767 ||
            exists k :: 0 <= k < |TilePosts(file, h)| && TilePosts(file, h)[k] == MinHeight(file, h) != NULL_POST
    ensures MaxHeight(file, h) == -32767 ||
            exists k :: 0 <= k < |TilePosts(file, h)| && TilePosts(file, h)[k] == MaxHeight(file, h)
  {
    MinNonNullIsLeast(TilePosts(file, h), 32767);
    MaxOfIsGreatest(TilePosts(file, h), -32767);
  }
}
