/**
 * Dted_Cell: one DTED tile. The constructor parses the header records in a
 * chain and keeps the values the lookups need; loadCellFromDisk copies the
 * elevation posts into a buffer; the height and post lookups read either
 * that buffer or the file; gatherStatistics scans the posts for the lowest
 * and highest elevation.
 *
 * The open file stream is the byte sequence `file`; the host byte order is
 * a constructor parameter.
 */
module DtedCell {
  import opened DtedCommon
  import Endian
  import opened DtedPost
  import opened DtedCellLayout
  import opened DtedLookup
  import DtedVol
  import DtedHdr
  import DtedUhl
  import DtedDsi
  import DtedAcc

  class DtedCell {
    const file: seq<bv8>
    const hostLittleEndian: bool
    const byteSwap: bool
    const numLonLines: int
    const numLatPoints: int
    const recordSize: int
    const edition: string
    const productLevel: string
    const compilationDate: string
    const offsetToFirstDataRecord: nat
    const latSpacing: real
    const lonSpacing: real
    const swCorner: GeoLocation
    const nullHeightValue: real
    var bilinearInterpActive: bool
    var minHeightAboveMSL: int
    var maxHeightAboveMSL: int
    /** The in-memory copy of the posts: null until loadCellFromDisk. */
    var posts: array?<bv8>
    /** Whether gatherStatistics has run, so that the minimum and maximum are meaningful. */
    ghost var statisticsGathered: bool

    /** The header values the tile holds. */
    function Geometry(): Header {
      Header(numLonLines, numLatPoints, latSpacing, lonSpacing, edition, productLevel, compilationDate,
             offsetToFirstDataRecord, swCorner)
    }

    /** The tile holds the header values parsed from its file; constant once constructed. */
    ghost predicate HeaderParsed() {
      Geometry() == HeaderOf(file)
    }

    /** The tile swaps bytes exactly on a little-endian host and sizes its records from the UHL count. */
    predicate Coherent() {
      byteSwap == hostLittleEndian && recordSize == RecordSize(numLatPoints) && nullHeightValue == 0.0
    }

    /** Once loaded, the buffer holds the in-memory copy of the posts. */
    ghost predicate Loaded()
      reads this`posts, posts
    {
      posts != null ==>
        numLonLines >= 0 && numLatPoints >= 0 &&
        posts[..] == MemoryImage(file, offsetToFirstDataRecord, numLonLines, numLatPoints)
    }

    /** Once gathered, the statistics are the folds over the posts. */
    ghost predicate Gathered()
      reads this`statisticsGathered, this`minHeightAboveMSL, this`maxHeightAboveMSL
    {
      statisticsGathered ==>
        minHeightAboveMSL == MinHeight(file, Geometry()) && maxHeightAboveMSL == MaxHeight(file, Geometry())
    }

    ghost predicate Valid()
      reads this, posts
    {
      Coherent() && Loaded() && Gathered()
    }

    /**
     * Dted_Cell(file): reads the header records, then takes counts,
     * spacings and origin from the UHL, edition, product level and
     * compilation date from the DSI and the first data record from the ACC
     * stop offset. The constructor leaves bilinearInterpActive
     * uninitialised; here it is the parameter interp.
     */
    constructor(file: seq<bv8>, hostLittleEndian: bool, interp: bool)
      ensures this.file == file && this.hostLittleEndian == hostLittleEndian && HeaderParsed() && Valid()
      ensures posts == null && bilinearInterpActive == interp && !statisticsGathered
    {
      var endianObj := new Endian.Endian(hostLittleEndian);
      var h := ReadHeader(file);
      this.file := file;
      this.hostLittleEndian := hostLittleEndian;
      byteSwap := endianObj.systemEndianType == ArchLittleEndian;
      numLonLines := h.numLonLines;
      numLatPoints := h.numLatPoints;
      latSpacing := h.latSpacing;
      lonSpacing := h.lonSpacing;
      recordSize := h.numLatPoints * POST_SIZE + DATA_LENGTH;
      edition := h.edition;
      productLevel := h.productLevel;
      compilationDate := h.compilationDate;
      offsetToFirstDataRecord := h.firstDataRecord;
      swCorner := h.swCorner;
      nullHeightValue := 0.0;
      bilinearInterpActive := interp;
      minHeightAboveMSL, maxHeightAboveMSL := 0, 0;
      posts := null;
      statisticsGathered := false;
    }

    /** covers: the point lies in the half-open one-degree square north-east of the origin. */
    function Covers(targetLoc: GeoLocation): (r: bool)
      ensures r <==> CellCovers(swCorner, targetLoc)
    {
      var deltaLat := targetLoc.lat - swCorner.lat;
      var deltaLon := targetLoc.lon - swCorner.lon;
      0.0 <= deltaLat < 1.0 && 0.0 <= deltaLon < 1.0
    }

    /**
     * loadCellFromDisk: a zeroed buffer of 2nm bytes; for each record the
     * 8 bytes before the posts are skipped, the 2m post bytes are read to
     * offset 2mi and the 4 checksum bytes are skipped.
     */
    method LoadCellFromDisk()
      requires Valid() && numLonLines >= 0 && numLatPoints >= 0
      modifies this`posts
      ensures Valid() && posts != null && fresh(posts)
      ensures posts[..] == MemoryImage(file, offsetToFirstDataRecord, numLonLines, numLatPoints)
    {
      posts := ReadPosts(file, offsetToFirstDataRecord, numLonLines, numLatPoints);
    }

    /** setBilinearInterpActive. */
    method SetBilinearInterpActive(newState: bool)
      requires Valid()
      modifies this`bilinearInterpActive
      ensures Valid() && bilinearInterpActive == newState
    {
      bilinearInterpActive := newState;
    }

    /**
     * Two bytes of the buffer copied into an unsigned short in host order
     * and decoded by convertSignedMagnitude; bytes outside the buffer read
     * as zero.
     */
    function MemoryPost(offset: int): (v: int)
      reads this, posts
      requires Coherent() && Loaded() && posts != null
      ensures offset % 2 == 0 ==> v as real == Word(file, Geometry(), offset / 2)
    {
      if offset % 2 == 0 then
        MemoryBytesDecode(file, offsetToFirstDataRecord, numLonLines, numLatPoints, offset);
        MemoryShort(offset)
      else MemoryShort(offset)
    }

    function MemoryShort(offset: int): (v: int)
      reads this, posts
      requires Coherent() && posts != null
      ensures v == ImagePost(posts[..], offset)
    {
      if 0 <= offset && offset + 1 < posts.Length then
        DecodeOnEitherHost(posts[offset], posts[offset + 1], hostLittleEndian);
        ConvertSignedMagnitude(Endian.Load16(posts[offset], posts[offset + 1], hostLittleEndian), byteSwap).0
      else 0
    }

    /** Two bytes of the file read into an unsigned short and decoded by convertSignedMagnitude. */
    function DiskPost(offset: int): (v: int)
      requires Coherent()
      ensures v == PostValueOf(ByteAt(file, offset), ByteAt(file, offset + 1))
    {
      StreamPost(file, offset, hostLittleEndian, byteSwap)
    }

    /**
     * getHeightAboveMSL: the height at a point from the in-memory copy, as
     * MemoryHeight describes for the tile's header.
     */
    function GetHeightAboveMSL(gpt: GeoLocation): (r: real)
      reads this, posts
      requires Valid() && posts != null
      ensures r == MemoryHeight(file, Geometry(), bilinearInterpActive, gpt)
    {
      var h := Geometry();
      var xi := Abs(gpt.lon - swCorner.lon) * (numLonLines - 1) as real;
      var yi := Abs(gpt.lat - swCorner.lat) * (numLatPoints - 1) as real;
      assert xi == GridX(h, gpt) && yi == GridY(h, gpt);
      var x0 := Trunc(xi);
      var y0 := Trunc(yi);
      if gpt.lon < swCorner.lon || gpt.lat < swCorner.lat || x0 >= numLonLines - 1 || y0 >= numLatPoints - 1 then
        assert MemoryOutside(h, gpt);
        nullHeightValue
      else
        assert !MemoryOutside(h, gpt);
        MemoryLookup(gpt, xi, yi, x0, y0)
    }

    /**
     * The part of getHeightAboveMSL inside the grid: word m*x0 + y0 of the
     * in-memory copy, or the interpolation of it, the word after it and the
     * two n words on.
     */
    function MemoryLookup(gpt: GeoLocation, xi: real, yi: real, x0: int, y0: int): (r: real)
      reads this, posts
      requires Coherent() && Loaded() && posts != null && !MemoryOutside(Geometry(), gpt)
      requires xi == GridX(Geometry(), gpt) && yi == GridY(Geometry(), gpt) && x0 == Trunc(xi) && y0 == Trunc(yi)
      ensures r == MemoryHeight(file, Geometry(), bilinearInterpActive, gpt)
    {
      var h := Geometry();
      var k := numLatPoints * x0 + y0;
      var offset := x0 * numLatPoints * POST_SIZE + y0 * POST_SIZE;
      ScaledIndex(x0, numLatPoints, y0);
      var o01 := offset + POST_SIZE;
      var off3 := o01 + numLonLines * POST_SIZE - POST_SIZE;
      var o11 := off3 + POST_SIZE;
      assert offset == 2 * k && o01 == 2 * (k + 1) && off3 == 2 * (k + numLonLines) && o11 == 2 * (k + numLonLines + 1);
      var p00 := MemoryShort(offset) as real;
      if !bilinearInterpActive then
        MemoryHeightFromImage(file, h, false, gpt, k, posts[..], offset, o01, off3, o11,
                              p00, ImagePost(posts[..], o01) as real, ImagePost(posts[..], off3) as real,
                              ImagePost(posts[..], o11) as real);
        p00
      else
        var p01 := MemoryShort(o01) as real;
        var p10 := MemoryShort(off3) as real;
        var p11 := MemoryShort(o11) as real;
        MemoryHeightFromImage(file, h, true, gpt, k, posts[..], offset, o01, off3, o11, p00, p01, p10, p11);
        BilinearInterpolate(xi, yi, p00, p01, p10, p11)
    }

    /**
     * getHeightAboveMSLFromDisk: the height at a point read from the file,
     * as DiskHeight describes for the tile's header.
     */
    function GetHeightAboveMSLFromDisk(gpt: GeoLocation): (r: real)
      reads this
      requires Coherent()
      ensures r == DiskHeight(file, Geometry(), bilinearInterpActive, gpt)
    {
      var h := Geometry();
      var xi := Abs(gpt.lon - swCorner.lon) * (numLonLines - 1) as real;
      var yi := Abs(gpt.lat - swCorner.lat) * (numLatPoints - 1) as real;
      assert xi == GridX(h, gpt) && yi == GridY(h, gpt);
      var x0 := Trunc(xi);
      var y0 := Trunc(yi);
      if xi < 0.0 || yi < 0.0 || x0 >= numLonLines - 1 || y0 >= numLatPoints - 1 then
        assert DiskOutside(h, gpt);
        nullHeightValue
      else
        assert !DiskOutside(h, gpt);
        var offset := offsetToFirstDataRecord + x0 * recordSize + DATA_RECORD_OFFSET_TO_POST + y0 * POST_SIZE;
        var off3 := offset + recordSize - POST_SIZE;
        assert recordSize == RecordSize(h.numLatPoints) && offsetToFirstDataRecord == h.firstDataRecord;
        NeighbourOffsets(h.firstDataRecord, RecordSize(h.numLatPoints), x0, y0);
        var p00 := DiskPost(offset) as real;
        assert p00 == Post(file, h, x0, y0);
        if !bilinearInterpActive then
          DiskHeightInside(file, h, false, gpt, x0, y0, p00, Post(file, h, x0, y0 + 1),
                           Post(file, h, x0 + 1, y0 - 1), Post(file, h, x0 + 1, y0));
          p00
        else
          var p01 := DiskPost(offset + POST_SIZE) as real;
          assert p01 == Post(file, h, x0, y0 + 1);
          var p10 := DiskPost(off3) as real;
          assert p10 == Post(file, h, x0 + 1, y0 - 1);
          var p11 := DiskPost(off3 + POST_SIZE) as real;
          assert p11 == Post(file, h, x0 + 1, y0);
          DiskHeightInside(file, h, true, gpt, x0, y0, p00, p01, p10, p11);
          BilinearInterpolate(xi, yi, p00, p01, p10, p11)
    }

    /** getPostValue at integer grid indices: post (x, y) from the in-memory copy, 0.0 off the grid. */
    function GetPostValue(x: int, y: int): (r: real)
      reads this, posts
      requires Valid() && posts != null
      ensures r == PostLookup(file, Geometry(), x, y)
    {
      if x < 0 || y < 0 || x > numLonLines - 1 || y > numLatPoints - 1 then nullHeightValue
      else
        var offset := x * (numLatPoints * POST_SIZE) + y * POST_SIZE;
        assert offset == 2 * (numLatPoints * x + y);
        PostLookupIsWord(file, Geometry(), x, y);
        MemoryPost(offset) as real
    }

    /** getPostValueFromDisk at integer grid indices: post (x, y) read from the file, 0.0 off the grid. */
    function GetPostValueFromDisk(x: int, y: int): (r: real)
      requires Coherent()
      ensures r == PostLookup(file, Geometry(), x, y)
    {
      if x < 0 || y < 0 || x > numLonLines - 1 || y > numLatPoints - 1 then nullHeightValue
      else
        var offset := offsetToFirstDataRecord + x * recordSize + y * POST_SIZE + DATA_RECORD_OFFSET_TO_POST;
        assert offset == PostOffset(offsetToFirstDataRecord, recordSize, x, y);
        DiskPost(offset) as real
    }

    /**
     * gatherStatistics: every post read from the file record by record;
     * the minimum starts at 32767 and takes smaller non-null posts, the
     * maximum starts at -32767 and takes larger posts.
     */
    method GatherStatistics()
      requires Valid()
      modifies this`minHeightAboveMSL, this`maxHeightAboveMSL, this`statisticsGathered
      ensures Valid() && statisticsGathered
      ensures minHeightAboveMSL == MinHeight(file, Geometry()) && maxHeightAboveMSL == MaxHeight(file, Geometry())
    {
      var lo, hi := ScanPosts(file, offsetToFirstDataRecord, numLonLines, numLatPoints, hostLittleEndian, byteSwap);
      minHeightAboveMSL, maxHeightAboveMSL := lo, hi;
      statisticsGathered := true;
    }

    /** getSizeOfElevCell: the counts of the UHL record. */
    function GetSizeOfElevCell(): (r: CellSize)
      requires HeaderParsed()
      ensures r == CellSize(HeaderOf(file).numLonLines, HeaderOf(file).numLatPoints)
    {
      CellSize(numLonLines, numLatPoints)
    }

    /** edition: the DSI edition field. */
    function Edition(): (r: string)
      requires HeaderParsed()
      ensures r == HeaderOf(file).edition
    {
      edition
    }

    /** productLevel: the DSI series designator. */
    function ProductLevel(): (r: string)
      requires HeaderParsed()
      ensures r == HeaderOf(file).productLevel
    {
      productLevel
    }

    /** compilationDate: the DSI compilation date. */
    function CompilationDate(): (r: string)
      requires HeaderParsed()
      ensures r == HeaderOf(file).compilationDate
    {
      compilationDate
    }

    /** minHeightAboveMSL: once gathered, the least non-null post, or 32767. */
    function MinHeightAboveMSL(): (r: real)
      reads this, posts
      requires Valid()
      ensures statisticsGathered ==> r == MinHeight(file, Geometry()) as real
    {
      minHeightAboveMSL as real
    }

    /** maxHeightAboveMSL: once gathered, the greatest post, or -32767. */
    function MaxHeightAboveMSL(): (r: real)
      reads this, posts
      requires Valid()
      ensures statisticsGathered ==> r == MaxHeight(file, Geometry()) as real
    {
      maxHeightAboveMSL as real
    }
  }

  /**
   * The header part of the Dted_Cell constructor: VOL parsed at 0, then
   * HDR, UHL, DSI and ACC each at the previous stop offset, and the values
   * the tile takes from them through their accessors.
   */
  method ReadHeader(file: seq<bv8>) returns (h: Header)
    ensures h == HeaderOf(file)
  {
    var vol := new DtedVol.DtedVol(file, 0);
    var hdr := new DtedHdr.DtedHdr(file, vol.stopOffset);
    var uhl := new DtedUhl.DtedUhl(file, hdr.stopOffset);
    var dsi := new DtedDsi.DtedDsi(file, uhl.stopOffset);
    var acc := new DtedAcc.DtedAcc(file, dsi.stopOffset);
    var lonLines, latPoints := uhl.NumLonLines(), uhl.NumLatPoints();
    var latInterval, lonInterval := uhl.LatInterval(), uhl.LonInterval();
    var dataEdition, level, date := dsi.Edition(), dsi.ProductLevel(), dsi.CompilationDate();
    var origin := GeoLocation(uhl.LatOrigin(), uhl.LonOrigin());
    h := Header(lonLines, latPoints, latInterval, lonInterval, dataEdition, level, date, acc.stopOffset, origin);
  }

  /** The byte offset x*m*2 + y*2 of word m*x + y. */
  lemma ScaledIndex(x: int, m: int, y: int)
    ensures x * m * POST_SIZE + y * POST_SIZE == 2 * (m * x + y)
  {
  }

  /**
   * The loop of loadCellFromDisk: a zeroed buffer of 2nm bytes; for each
   * record the 8 bytes before the posts are skipped, the 2m post bytes are
   * read to offset 2mi and the 4 checksum bytes are skipped.
   */
  method ReadPosts(file: seq<bv8>, first: nat, n: nat, m: nat) returns (buf: array<bv8>)
    ensures fresh(buf) && buf[..] == MemoryImage(file, first, n, m)
  {
    var size := (n * m) * POST_SIZE;
    var rowBytes := m * POST_SIZE;
    BufferSize(n, m, size, rowBytes);
    buf := new bv8[size](_ => 0);
    var cursor := first;
    var filled := 0;
    var i := 0;
    assert buf[..0] == [];
    while i < n
      invariant 0 <= i <= n
      invariant cursor == first + i * RecordSize(m)
      invariant filled == i * rowBytes <= buf.Length
      invariant buf[..filled] == MemoryImage(file, first, i, m)
    {
      cursor := cursor + DATA_RECORD_OFFSET_TO_POST;
      var offset := i * rowBytes;
      RecordSlot(i, n, rowBytes);
      ghost var before := buf[..];
      ReadBytes(file, cursor, buf, offset, rowBytes);
      RecordCopied(file, before, buf[..], first, i, m, offset, cursor);
      cursor := cursor + rowBytes + DATA_RECORD_CHECKSUM_SIZE;
      NextRecord(first, RecordSize(m), i);
      filled := offset + rowBytes;
      i := i + 1;
    }
    assert buf[..] == buf[..filled];
  }

  /** The buffer of n records of m posts holds n rows of 2m bytes. */
  lemma BufferSize(n: nat, m: nat, size: int, rowBytes: int)
    requires size == (n * m) * POST_SIZE && rowBytes == m * POST_SIZE
    ensures size == n * rowBytes == 2 * m * n
  {
  }

  /** Row i of n ends within the buffer. */
  lemma RecordSlot(i: nat, n: nat, rowBytes: nat)
    requires i < n
    ensures i * rowBytes + rowBytes == (i + 1) * rowBytes <= n * rowBytes
  {
    MulMonotoneNat(rowBytes, i + 1, n);
  }

  /** Skipping a record from the start of record i reaches the start of record i + 1. */
  lemma NextRecord(first: int, recordSize: int, i: int)
    ensures first + i * recordSize + recordSize == first + (i + 1) * recordSize
  {
  }

  /** A stream read of count bytes at file position cursor into the buffer at offset. */
  method ReadBytes(file: seq<bv8>, cursor: int, buf: array<bv8>, offset: nat, count: nat)
    requires offset + count <= buf.Length
    modifies buf
    ensures forall t :: 0 <= t < buf.Length ==>
              buf[t] == if offset <= t < offset + count then ByteAt(file, cursor + t - offset) else old(buf[t])
  {
    forall t | 0 <= t < count {
      buf[offset + t] := ByteAt(file, cursor + t);
    }
  }

  /**
   * Two bytes at a file offset read into an unsigned short in host order
   * and decoded by convertSignedMagnitude, which swaps them on a
   * little-endian host.
   */
  function StreamPost(file: seq<bv8>, offset: int, hostLittleEndian: bool, byteSwap: bool): (v: int)
    requires byteSwap == hostLittleEndian
    ensures v == PostValueOf(ByteAt(file, offset), ByteAt(file, offset + 1))
  {
    var b0, b1 := ByteAt(file, offset), ByteAt(file, offset + 1);
    DecodeOnEitherHost(b0, b1, hostLittleEndian);
    ConvertSignedMagnitude(Endian.Load16(b0, b1, hostLittleEndian), byteSwap).0
  }

  /**
   * The loops of gatherStatistics: from 32767 and -32767, for each record
   * the 8 bytes before the posts are skipped, each post is read and taken
   * into the minimum when it is below it and not null and into the maximum
   * when it is above it, and the 4 checksum bytes are skipped.
   */
  method ScanPosts(file: seq<bv8>, first: nat, numLonLines: int, numLatPoints: int,
                   hostLittleEndian: bool, byteSwap: bool) returns (lo: int, hi: int)
    requires byteSwap == hostLittleEndian
    ensures lo == MinNonNull(CellPosts(file, first, RecordSize(numLatPoints), Count(numLonLines), Count(numLatPoints)), 32767)
    ensures hi == MaxOf(CellPosts(file, first, RecordSize(numLatPoints), Count(numLonLines), Count(numLatPoints)), -32767)
  {
    lo, hi := 32767, -32767;
    var n, m := Count(numLonLines), Count(numLatPoints);
    var cursor := first;
    var i := 0;
    ghost var seen: seq<int> := [];
    while i < numLonLines
      invariant 0 <= i <= n
      invariant cursor == first + i * RecordSize(m)
      invariant seen == CellPosts(file, first, RecordSize(m), i, m)
      invariant lo == MinNonNull(seen, 32767) && hi == MaxOf(seen, -32767)
    {
      cursor := cursor + DATA_RECORD_OFFSET_TO_POST;
      lo, hi, cursor := ScanRecord(file, cursor, m, lo, hi, hostLittleEndian, byteSwap, first, RecordSize(m), i, seen);
      seen := seen + RecordPosts(file, first, RecordSize(m), i, m);
      cursor := cursor + DATA_RECORD_CHECKSUM_SIZE;
      NextRecord(first, RecordSize(m), i);
      i := i + 1;
    }
    assert i == n;
    if m != numLatPoints {
      assert |CellPosts(file, first, RecordSize(numLatPoints), n, m)| == 0;
    }
  }

  /**
   * The inner loop of gatherStatistics over the m posts of record i, which
   * start at cursor0: each post decoded is folded into the running minimum
   * and maximum, and the cursor ends past the last post.
   */
  method ScanRecord(file: seq<bv8>, cursor0: int, m: nat, lo0: int, hi0: int,
                    hostLittleEndian: bool, byteSwap: bool,
                    ghost first: int, ghost recordSize: int, ghost i: int, ghost seen0: seq<int>)
    returns (lo: int, hi: int, cursor: int)
    requires byteSwap == hostLittleEndian
    requires cursor0 == PostOffset(first, recordSize, i, 0)
    requires lo0 == MinNonNull(seen0, 32767) && hi0 == MaxOf(seen0, -32767)
    ensures lo == MinNonNull(seen0 + RecordPosts(file, first, recordSize, i, m), 32767)
    ensures hi == MaxOf(seen0 + RecordPosts(file, first, recordSize, i, m), -32767)
    ensures cursor == cursor0 + m * POST_SIZE
  {
    lo, hi, cursor := lo0, hi0, cursor0;
    ghost var record := RecordPosts(file, first, recordSize, i, m);
    ghost var seen := seen0;
    assert seen0 + record[..0] == seen0;
    var j := 0;
    while j < m
      invariant 0 <= j <= m
      invariant cursor == PostOffset(first, recordSize, i, j)
      invariant seen == seen0 + record[..j]
      invariant lo == MinNonNull(seen, 32767) && hi == MaxOf(seen, -32767)
    {
      var ss := StreamPost(file, cursor, hostLittleEndian, byteSwap);
      assert ss == record[j];
      FoldsStep(seen, ss, 32767, -32767);
      PrefixStep(seen0, record, j);
      if ss < lo && ss != NULL_POST {
        lo := ss;
      }
      if ss > hi {
        hi := ss;
      }
      seen := seen + [ss];
      cursor := cursor + POST_SIZE;
      j := j + 1;
    }
    assert record[..m] == record;
  }

  lemma PrefixStep(s: seq<int>, r: seq<int>, j: nat)
    requires j < |r|
    ensures s + r[..j + 1] == s + r[..j] + [r[j]]
  {
    assert r[..j + 1] == r[..j] + [r[j]];
  }

  /**
   * One iteration of loadCellFromDisk: writing the post bytes of record i
   * to offset 2mi extends the copied prefix by that record.
   */
  lemma RecordCopied(file: seq<bv8>, before: seq<bv8>, after: seq<bv8>, first: int, i: nat, m: nat,
                     offset: nat, cursor: int)
    requires |before| == |after| && offset + m * POST_SIZE <= |after|
    requires before[..offset] == MemoryImage(file, first, i, m)
    requires cursor == first + i * RecordSize(m) + DATA_RECORD_OFFSET_TO_POST
    requires forall t :: 0 <= t < |after| ==>
               after[t] == if offset <= t < offset + m * POST_SIZE then ByteAt(file, cursor + t - offset)
                           else before[t]
    ensures after[..offset + m * POST_SIZE] == MemoryImage(file, first, i + 1, m)
  {
    var record := RecordPostBytes(file, first + i * RecordSize(m), m);
    var end := offset + m * POST_SIZE;
    assert after[..offset] == before[..offset];
    assert after[offset..end] == record;
    assert after[..end] == after[..offset] + after[offset..end];
  }
}
