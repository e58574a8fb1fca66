/**
 * Dted_Database: the entry point of the library. For each of DTED levels 1
 * and 2 it keeps a directory of the tile files found on disk and the set of
 * tiles opened so far. An elevation query keys the location to its
 * one-degree tile, answers from an open tile that covers the location, and
 * otherwise opens the tile the directory lists under that key and asks
 * again; a key the directory does not list is remembered as the last
 * failure and answered with 0.0 without searching.
 *
 * The file system is the map `files` from a path to the bytes of that
 * file; the directory tree is a DtedDirectory.Listing value.
 */
module DtedDatabase {
  import opened DtedCommon
  import opened DtedPathEntry
  import opened DtedCellLayout
  import opened DtedLookup
  import DtedCell
  import DtedDirectory

  /** The files the library can open, by path; a path that names no file reads as an empty file. */
  type FileSystem = map<string, seq<bv8>>

  function FileAt(files: FileSystem, path: string): seq<bv8> {
    if path in files then files[path] else []
  }

  // Tile keys.

  /**
   * One key coordinate as Get_Geo_Elev_Dted1 computes it: the coordinate
   * cast to a short, less one when the coordinate itself is negative.
   */
  function KeyBySignOfCoordinate(v: real): int {
    var t := Wrap16(Trunc(v));
    if v < 0.0 then Wrap16(t - 1) else t
  }

  /**
   * One key coordinate as the three other query paths compute it: the
   * coordinate cast to a short, less one when the cast value is negative.
   */
  function KeyBySignOfCast(v: real): int {
    var t := Wrap16(Trunc(v));
    if t < 0 then Wrap16(t - 1) else t
  }

  /** The key of the level 1 geographic query. */
  function GeoKeyDted1(loc: GeoLocation): PathEntry {
    PathEntry(KeyBySignOfCoordinate(loc.lat), KeyBySignOfCoordinate(loc.lon), "")
  }

  /** The key of the level 1 post query and of both level 2 queries. */
  function CastKey(loc: GeoLocation): PathEntry {
    PathEntry(KeyBySignOfCast(loc.lat), KeyBySignOfCast(loc.lon), "")
  }

  /** A real that is a whole number. */
  predicate IsWhole(v: real) {
    v == v.Floor as real
  }

  /**
   * Within the range of a short, the first key rule gives the floor of the
   * coordinate except at the negative whole numbers, where it gives one less.
   */
  lemma KeyBySignOfCoordinateIsFloor(v: real)
    requires -32768.0 < v < 32768.0
    ensures KeyBySignOfCoordinate(v) == if v < 0.0 && IsWhole(v) then v.Floor - 1 else v.Floor
  {
    var t := Trunc(v);
    assert -32768 < t < 32768;
    if v < 0.0 {
      if IsWhole(v) {
        assert t == v.Floor;
      } else {
        assert t == v.Floor + 1;
      }
    }
  }

  /**
   * The second key rule gives the floor of the coordinate except at the
   * negative whole numbers, where it gives one less, and strictly between -1
   * and 0, where it gives 0.
   */
  lemma KeyBySignOfCastIsFloor(v: real)
    requires -32768.0 < v < 32768.0
    ensures KeyBySignOfCast(v) ==
            if v < 0.0 && IsWhole(v) then v.Floor - 1
            else if -1.0 < v < 0.0 then 0
            else v.Floor
  {
    var t := Trunc(v);
    assert -32768 < t < 32768;
    if v < 0.0 {
      if IsWhole(v) {
        assert t == v.Floor;
      } else {
        assert t == v.Floor + 1;
      }
    }
  }

  /** The two rules disagree exactly on the coordinates strictly between -1 and 0. */
  lemma KeyRulesDisagree(v: real)
    requires -32768.0 < v < 32768.0
    ensures KeyBySignOfCoordinate(v) != KeyBySignOfCast(v) <==> -1.0 < v < 0.0
  {
    KeyBySignOfCoordinateIsFloor(v);
    KeyBySignOfCastIsFloor(v);
  }

  /** The south-west corner of the tile a key names. */
  function KeyOrigin(key: PathEntry): GeoLocation {
    GeoLocation(key.latitude as real, key.longitude as real)
  }

  /** A location within the range of a short on both axes. */
  predicate InShortRange(loc: GeoLocation) {
    -32768.0 < loc.lat < 32768.0 && -32768.0 < loc.lon < 32768.0
  }

  /**
   * The tile named by the level 1 geographic key covers the location unless
   * a coordinate is a negative whole number: the key of latitude -1.0 names
   * the tile from -2 to -1, which leaves -1.0 out.
   */
  lemma GeoKeyTileCovers(loc: GeoLocation)
    requires InShortRange(loc)
    ensures CellCovers(KeyOrigin(GeoKeyDted1(loc)), loc) <==>
            !(loc.lat < 0.0 && IsWhole(loc.lat)) && !(loc.lon < 0.0 && IsWhole(loc.lon))
  {
    KeyBySignOfCoordinateIsFloor(loc.lat);
    KeyBySignOfCoordinateIsFloor(loc.lon);
    CoversIffFloorOrigin(KeyOrigin(GeoKeyDted1(loc)), loc);
  }

  /**
   * The tile named by the cast key covers the location unless a coordinate
   * is a negative whole number or lies strictly between -1 and 0.
   */
  lemma CastKeyTileCovers(loc: GeoLocation)
    requires InShortRange(loc)
    ensures CellCovers(KeyOrigin(CastKey(loc)), loc) <==>
            !(loc.lat < 0.0 && IsWhole(loc.lat)) && !(-1.0 < loc.lat < 0.0) &&
            !(loc.lon < 0.0 && IsWhole(loc.lon)) && !(-1.0 < loc.lon < 0.0)
  {
    KeyBySignOfCastIsFloor(loc.lat);
    KeyBySignOfCastIsFloor(loc.lon);
    CoversIffFloorOrigin(KeyOrigin(CastKey(loc)), loc);
  }

  // Finding an open tile.

  /** The first tile in set order that covers the location. */
  function FirstCovering(cells: seq<DtedCell.DtedCell>, loc: GeoLocation): (r: Option<nat>)
    ensures r.Some? ==> r.value < |cells| && cells[r.value].Covers(loc) &&
                        forall j :: 0 <= j < r.value ==> !cells[j].Covers(loc)
    ensures r.None? ==> forall j :: 0 <= j < |cells| ==> !cells[j].Covers(loc)
    decreases |cells|
  {
    if |cells| == 0 then None
    else if cells[0].Covers(loc) then Some(0)
    else match FirstCovering(cells[1..], loc)
      case None => None
      case Some(j) => Some(j + 1)
  }

  /** The remembered tile covers the location. */
  predicate CachedCovers(cells: seq<DtedCell.DtedCell>, prev: Option<nat>, loc: GeoLocation) {
    prev.Some? && prev.value < |cells| && cells[prev.value].Covers(loc)
  }

  /** The tile a query answers from: the remembered one if it covers, else the first that covers. */
  function Locate(cells: seq<DtedCell.DtedCell>, prev: Option<nat>, loc: GeoLocation): (r: Option<nat>)
    ensures r.Some? ==> r.value < |cells| && cells[r.value].Covers(loc)
    ensures r.None? <==> forall j :: 0 <= j < |cells| ==> !cells[j].Covers(loc)
  {
    if CachedCovers(cells, prev, loc) then prev else FirstCovering(cells, loc)
  }

  /**
   * The remembered tile only saves the search: when no two open tiles cover
   * the same point, the query answers from the first covering tile whatever
   * tile was remembered.
   */
  lemma CacheIsTransparent(cells: seq<DtedCell.DtedCell>, prev: Option<nat>, loc: GeoLocation)
    requires forall i, j :: 0 <= i < j < |cells| && cells[i].Covers(loc) ==> !cells[j].Covers(loc)
    ensures Locate(cells, prev, loc) == FirstCovering(cells, loc)
  {
    if CachedCovers(cells, prev, loc) {
      var f := FirstCovering(cells, loc);
      assert f.Some?;
    }
  }

  /** A tile appended to tiles none of which covers the location is the first covering tile exactly when it covers it. */
  lemma FirstCoveringAppended(cells: seq<DtedCell.DtedCell>, c: DtedCell.DtedCell, loc: GeoLocation)
    requires FirstCovering(cells, loc).None?
    ensures FirstCovering(cells + [c], loc) == if c.Covers(loc) then Some(|cells|) else None
  {
    var all := cells + [c];
    var f := FirstCovering(all, loc);
    assert forall j :: 0 <= j < |cells| ==> all[j] == cells[j];
    assert all[|cells|] == c;
    if c.Covers(loc) {
      assert f.Some?;
    }
  }

  /**
   * The search of Get_Geo_Elev_Dted1 and its siblings: the remembered tile
   * is tried first; unless it covers, the set is scanned from its start and
   * the tile found is remembered.
   */
  method LocateCell(cells: seq<DtedCell.DtedCell>, prev: Option<nat>, loc: GeoLocation)
    returns (found: bool, k: nat, scanned: bool)
    requires prev.Some? ==> prev.value < |cells|
    ensures found <==> Locate(cells, prev, loc).Some?
    ensures found ==> k == Locate(cells, prev, loc).value
    ensures scanned <==> found && !CachedCovers(cells, prev, loc)
  {
    found, k, scanned := false, 0, false;
    if prev.Some? {
      k := prev.value;
      found := cells[k].Covers(loc);
    }
    var i := 0;
    while i < |cells| && !found
      invariant 0 <= i <= |cells|
      invariant found ==> k < |cells| && cells[k].Covers(loc)
      invariant found <==> CachedCovers(cells, prev, loc) || scanned
      invariant CachedCovers(cells, prev, loc) ==> found && !scanned && k == prev.value
      invariant scanned ==> !CachedCovers(cells, prev, loc) && FirstCovering(cells, loc) == Some(k)
      invariant !found ==> forall j :: 0 <= j < i ==> !cells[j].Covers(loc)
    {
      k := i;
      found := cells[i].Covers(loc);
      if found {
        scanned := true;
      }
      i := i + 1;
    }
  }

  // Answers.

  /** What a query reads: a geographic elevation with or without interpolation, or post (x, y). */
  datatype Request = GeoRequest(loc: GeoLocation, interp: bool) | PostRequest(loc: GeoLocation, x: int, y: int)

  /**
   * The value a tile gives for a request: getHeightAboveMSL or
   * getHeightAboveMSLFromDisk for a location, getPostValue or
   * getPostValueFromDisk for a post.
   */
  function ElevOf(c: DtedCell.DtedCell, access: AccessMethod, req: Request): real {
    match req
    case GeoRequest(loc, interp) =>
      if access == MemoryAccess then MemoryHeight(c.file, c.Geometry(), interp, loc)
      else DiskHeight(c.file, c.Geometry(), interp, loc)
    case PostRequest(_, x, y) => PostLookup(c.file, c.Geometry(), x, y)
  }

  /** The null post comes back as 0.0. */
  function Nulled(v: real): (r: real)
    ensures r != NULL_POST as real
    ensures v != NULL_POST as real ==> r == v
  {
    if v == NULL_POST as real then 0.0 else v
  }

  /** Everything a query depends on, as it stands when the query starts. */
  datatype Query = Query(cells: seq<DtedCell.DtedCell>, prev: Option<nat>, failed: PathEntry,
                         entries: seq<PathEntry>, files: FileSystem, access: AccessMethod,
                         key: PathEntry, req: Request)

  /**
   * The outcome of a query: its value, the open tiles, the remembered tile
   * and the remembered failure afterwards.
   *  - The key of the last failure: 0.0 and nothing changes.
   *  - An open tile covers: its value, and it is remembered.
   *  - Otherwise, when the directory lists the key, the tile file is opened
   *    and added after the others; the repeated query answers from it.
   *  - Otherwise the key becomes the last failure and the value is 0.0.
   */
  predicate Answered(q: Query, elev: real, cells: seq<DtedCell.DtedCell>, prev: Option<nat>, failed: PathEntry) {
    if Equal(q.key, q.failed) then
      elev == 0.0 && cells == q.cells && prev == q.prev && failed == q.failed
    else match Locate(q.cells, q.prev, q.req.loc)
      case Some(k) =>
        elev == Nulled(ElevOf(q.cells[k], q.access, q.req)) &&
        cells == q.cells && prev == Some(k) && failed == q.failed
      case None =>
        match DtedDirectory.Find(q.entries, q.key)
        case Some(j) =>
          |cells| == |q.cells| + 1 && cells[..|q.cells|] == q.cells &&
          cells[|q.cells|].file == FileAt(q.files, q.entries[j].cellPath) &&
          prev == Some(|q.cells|) && failed == q.failed &&
          elev == Nulled(ElevOf(cells[|q.cells|], q.access, q.req))
        case None =>
          elev == 0.0 && cells == q.cells && prev == q.prev && failed == q.key
  }

  /** The listed case of Answered: no open tile covers, and the tile opened on the listed file answers. */
  lemma AnsweredByOpening(q: Query, elev: real, cells: seq<DtedCell.DtedCell>, prev: Option<nat>)
    requires !Equal(q.key, q.failed) && Locate(q.cells, q.prev, q.req.loc).None?
    requires DtedDirectory.Find(q.entries, q.key).Some?
    requires |cells| == |q.cells| + 1 && cells[..|q.cells|] == q.cells
    requires cells[|q.cells|].file == FileAt(q.files, q.entries[DtedDirectory.Find(q.entries, q.key).value].cellPath)
    requires prev == Some(|q.cells|) && elev == Nulled(ElevOf(cells[|q.cells|], q.access, q.req))
    ensures Answered(q, elev, cells, prev, q.failed)
  {
  }

  /** The tile that answers a query, if any: the located one, or the one opened. */
  function AnsweringTile(q: Query): Option<nat> {
    if Equal(q.key, q.failed) then None
    else match Locate(q.cells, q.prev, q.req.loc)
      case Some(k) => Some(k)
      case None => if DtedDirectory.Find(q.entries, q.key).Some? then Some(|q.cells|) else None
  }

  /**
   * The header a tile opened on the file at path parses. The predicates
   * below quantify over the directory's entries and name this function as
   * their trigger, so that they only come into play where a tile is opened.
   */
  function TileHeader(files: FileSystem, path: string): Header {
    HeaderOf(FileAt(files, path))
  }

  /** loadCellFromDisk needs counts that are not negative. */
  predicate CountsLoadable(h: Header) {
    h.numLonLines >= 0 && h.numLatPoints >= 0
  }

  /**
   * The tile the directory lists under the key, once opened, covers the
   * location, so that the repeated query finds it; in memory mode its
   * counts allow it to be loaded.
   */
  predicate RetryFinds(files: FileSystem, entries: seq<PathEntry>, key: PathEntry,
                       access: AccessMethod, loc: GeoLocation) {
    forall j {:trigger TileHeader(files, entries[j].cellPath)} ::
      0 <= j < |entries| && DtedDirectory.Find(entries, key) == Some(j) ==>
        CellCovers(TileHeader(files, entries[j].cellPath).swCorner, loc) &&
        (access == MemoryAccess ==> CountsLoadable(TileHeader(files, entries[j].cellPath)))
  }

  /**
   * A remembered failure answers every later query with the same key with
   * 0.0, whatever the level and the location: the failure is shared by
   * both levels and by both kinds of request.
   */
  lemma FailureAnswersZero(q: Query, elev: real, cells: seq<DtedCell.DtedCell>, prev: Option<nat>,
                           failed: PathEntry, next: Query, elev2: real,
                           cells2: seq<DtedCell.DtedCell>, prev2: Option<nat>, failed2: PathEntry)
    requires Answered(q, elev, cells, prev, failed) && AnsweringTile(q).None?
    requires next.failed == failed && Key(next.key) == Key(q.key)
    requires Answered(next, elev2, cells2, prev2, failed2)
    ensures elev == 0.0 && elev2 == 0.0 && cells2 == next.cells
  {
  }

  // Statistics.

  /** A tile's lowest and highest post, as gatherStatistics computes them. */
  function CellMin(c: DtedCell.DtedCell): real {
    MinHeight(c.file, c.Geometry()) as real
  }

  function CellMax(c: DtedCell.DtedCell): real {
    MaxHeight(c.file, c.Geometry()) as real
  }

  /**
   * The fold of Gather_Stats over the tiles in order: the running value
   * starts at base and becomes key(c) whenever key(c) is below it.
   */
  function LeastOf(cells: seq<DtedCell.DtedCell>, key: DtedCell.DtedCell -> real, base: real): real
    decreases |cells|
  {
    if |cells| == 0 then base
    else
      var lo := LeastOf(cells[..|cells| - 1], key, base);
      var m := key(cells[|cells| - 1]);
      if m < lo then m else lo
  }

  /** The same fold keeping the running value whenever key(c) is not above it. */
  function GreatestOf(cells: seq<DtedCell.DtedCell>, key: DtedCell.DtedCell -> real, base: real): real
    decreases |cells|
  {
    if |cells| == 0 then base
    else
      var hi := GreatestOf(cells[..|cells| - 1], key, base);
      var m := key(cells[|cells| - 1]);
      if m > hi then m else hi
  }

  /**
   * The lowest of the tiles' minima as Gather_Stats folds it, starting from
   * 65536, and the highest of their maxima, starting from 0.
   */
  function LowestOf(cells: seq<DtedCell.DtedCell>): real {
    LeastOf(cells, CellMin, 65536.0)
  }

  function HighestOf(cells: seq<DtedCell.DtedCell>): real {
    GreatestOf(cells, CellMax, 0.0)
  }

  /** The fold is at most every key, and is base or one of them. */
  lemma {:induction false} LeastOfIsLeast(cells: seq<DtedCell.DtedCell>, key: DtedCell.DtedCell -> real, base: real)
    ensures forall i :: 0 <= i < |cells| ==> LeastOf(cells, key, base) <= key(cells[i])
    ensures LeastOf(cells, key, base) == base ||
            exists i :: 0 <= i < |cells| && LeastOf(cells, key, base) == key(cells[i])
    decreases |cells|
  {
    if |cells| > 0 {
      var n := |cells| - 1;
      var init := cells[..n];
      LeastOfIsLeast(init, key, base);
      forall i | 0 <= i < n
        ensures LeastOf(cells, key, base) <= key(cells[i])
      {
        assert cells[i] == init[i];
      }
      if !(key(cells[n]) < LeastOf(init, key, base)) && LeastOf(init, key, base) != base {
        var i :| 0 <= i < n && LeastOf(init, key, base) == key(init[i]);
        assert cells[i] == init[i];
      }
    }
  }

  /** The fold is at least every key, and is base or one of them. */
  lemma {:induction false} GreatestOfIsGreatest(cells: seq<DtedCell.DtedCell>, key: DtedCell.DtedCell -> real, base: real)
    ensures forall i :: 0 <= i < |cells| ==> GreatestOf(cells, key, base) >= key(cells[i])
    ensures GreatestOf(cells, key, base) == base ||
            exists i :: 0 <= i < |cells| && GreatestOf(cells, key, base) == key(cells[i])
    decreases |cells|
  {
    if |cells| > 0 {
      var n := |cells| - 1;
      var init := cells[..n];
      GreatestOfIsGreatest(init, key, base);
      forall i | 0 <= i < n
        ensures GreatestOf(cells, key, base) >= key(cells[i])
      {
        assert cells[i] == init[i];
      }
      if !(key(cells[n]) > GreatestOf(init, key, base)) && GreatestOf(init, key, base) != base {
        var i :| 0 <= i < n && GreatestOf(init, key, base) == key(init[i]);
        assert cells[i] == init[i];
      }
    }
  }

  /** The folded minimum is at most every tile's minimum, and is 65536 or one of them. */
  lemma LowestIsLeast(cells: seq<DtedCell.DtedCell>)
    ensures forall i :: 0 <= i < |cells| ==> LowestOf(cells) <= CellMin(cells[i])
    ensures LowestOf(cells) == 65536.0 || exists i :: 0 <= i < |cells| && LowestOf(cells) == CellMin(cells[i])
  {
    LeastOfIsLeast(cells, CellMin, 65536.0);
  }

  /** The folded maximum is at least every tile's maximum, and is 0 or one of them. */
  lemma HighestIsGreatest(cells: seq<DtedCell.DtedCell>)
    ensures forall i :: 0 <= i < |cells| ==> HighestOf(cells) >= CellMax(cells[i])
    ensures HighestOf(cells) == 0.0 || exists i :: 0 <= i < |cells| && HighestOf(cells) == CellMax(cells[i])
  {
    GreatestOfIsGreatest(cells, CellMax, 0.0);
  }

  /**
   * Since the maximum starts from 0 rather than from the null value, tiles
   * lying wholly below sea level report a maximum of 0.
   */
  lemma HighestNotNegative(cells: seq<DtedCell.DtedCell>)
    ensures HighestOf(cells) >= 0.0
  {
    GreatestOfAtLeastBase(cells, CellMax, 0.0);
  }

  /** The running maximum never drops below where it started. */
  lemma {:induction false} GreatestOfAtLeastBase(cells: seq<DtedCell.DtedCell>, key: DtedCell.DtedCell -> real, base: real)
    ensures GreatestOf(cells, key, base) >= base
    decreases |cells|
  {
    if |cells| > 0 {
      GreatestOfAtLeastBase(cells[..|cells| - 1], key, base);
    }
  }

  /** A prefix of a prefix is a prefix. */
  lemma PrefixOfPrefix(a: seq<DtedCell.DtedCell>, b: seq<DtedCell.DtedCell>, c: seq<DtedCell.DtedCell>)
    requires |a| <= |b| <= |c| && b[..|a|] == a && c[..|b|] == b
    ensures c[..|a|] == a
  {
    assert c[..|a|] == c[..|b|][..|a|];
  }

  /** Preloading: every tile the directory lists can be loaded. */
  predicate AllLoadable(files: FileSystem, entries: seq<PathEntry>) {
    forall i {:trigger TileHeader(files, entries[i].cellPath)} :: 0 <= i < |entries| ==>
      CountsLoadable(TileHeader(files, entries[i].cellPath))
  }

  /**
   * new Dted_Cell(cellPath), then loadCellFromDisk when the tile is to be
   * held in memory. The tile's uninitialised interpolation flag starts
   * false: every query that reads it sets it first.
   */
  method OpenTile(files: FileSystem, hostLittleEndian: bool, path: string, load: bool) returns (c: DtedCell.DtedCell)
    requires load ==> CountsLoadable(TileHeader(files, path))
    ensures fresh(c) && c.Valid() && c.file == FileAt(files, path) && c.Geometry() == TileHeader(files, path)
    ensures (c.posts != null <==> load) && (c.posts != null ==> fresh(c.posts)) && !c.bilinearInterpActive
  {
    c := new DtedCell.DtedCell(FileAt(files, path), hostLittleEndian, false);
    if load {
      c.LoadCellFromDisk();
    }
  }

  /** The tile on entry i of a directory whose tiles can all be loaded, opened and loaded. */
  method OpenListedLoaded(files: FileSystem, hostLittleEndian: bool, ghost entries: seq<PathEntry>, ghost i: nat,
                          path: string) returns (c: DtedCell.DtedCell)
    requires i < |entries| && path == entries[i].cellPath && AllLoadable(files, entries)
    ensures fresh(c) && c.Valid() && c.file == FileAt(files, path)
    ensures c.posts != null && fresh(c.posts)
  {
    assert CountsLoadable(TileHeader(files, entries[i].cellPath));
    c := OpenTile(files, hostLittleEndian, path, true);
  }

  /** The tile the directory lists under the key, opened for a repeated query: it covers the location. */
  method OpenForRetry(files: FileSystem, hostLittleEndian: bool, ghost entries: seq<PathEntry>, ghost key: PathEntry,
                      access: AccessMethod, ghost loc: GeoLocation, path: string) returns (c: DtedCell.DtedCell)
    requires DtedDirectory.Find(entries, key).Some? && path == entries[DtedDirectory.Find(entries, key).value].cellPath
    requires RetryFinds(files, entries, key, access, loc)
    ensures fresh(c) && c.Valid() && c.file == FileAt(files, path) && c.Covers(loc) && !c.bilinearInterpActive
    ensures (c.posts != null <==> access == MemoryAccess) && (c.posts != null ==> fresh(c.posts))
  {
    ghost var j := DtedDirectory.Find(entries, key).value;
    assert CellCovers(TileHeader(files, entries[j].cellPath).swCorner, loc);
    c := OpenTile(files, hostLittleEndian, path, access == MemoryAccess);
  }

  /**
   * The directory, the open tiles and the remembered tile of one DTED
   * level: dted1_dir, dted1CellSet and prevCellItDted1 for level 1, their
   * dted2 counterparts for level 2.
   */
  class CellStore {
    const dir: DtedDirectory.DtedDirectory
    /** The open tiles, in the order they were added. */
    var cells: seq<DtedCell.DtedCell>
    /** The position of the remembered tile; None while no tile has been found. */
    var prevCell: Option<nat>
    ghost var Repr: set<object>

    /** The store and its directory are consistent. */
    ghost predicate Valid()
      reads this, Repr, dir
    {
      CellsValid() && dir.Valid()
    }

    /**
     * The open tiles are valid and distinct, and Repr holds the store, the
     * tiles and their buffers but not the directory, which has a state of
     * its own.
     */
    ghost predicate CellsValid()
      reads this, Repr
    {
      this in Repr && dir !in Repr &&
      (prevCell.Some? ==> prevCell.value < |cells|) &&
      (forall i :: 0 <= i < |cells| ==> cells[i] in Repr && (cells[i].posts != null ==> cells[i].posts in Repr)) &&
      (forall i :: 0 <= i < |cells| ==> cells[i].Valid()) &&
      (forall i, j :: 0 <= i < j < |cells| ==> cells[i] != cells[j])
    }

    constructor(meridian: int)
      ensures Valid() && fresh(Repr) && fresh(dir)
      ensures cells == [] && prevCell == None && dir.State() == DtedDirectory.InitialState(meridian)
    {
      dir := new DtedDirectory.DtedDirectory(meridian);
      cells := [];
      prevCell := None;
      new;
      Repr := {this};
    }

    /** dtedNCellSet.insert(cell): the tile is added after the others. */
    method Add(cell: DtedCell.DtedCell)
      requires Valid() && cell !in Repr && cell.Valid()
      requires cell.posts != null ==> cell.posts !in Repr
      modifies this`cells, this`Repr
      ensures Valid() && cells == old(cells) + [cell]
      ensures Repr == old(Repr) + {cell} + (if cell.posts != null then {cell.posts} else {})
    {
      cells := cells + [cell];
      Repr := Repr + {cell} + (if cell.posts != null then {cell.posts} else {});
    }

    /** The query this level would answer for the key and the request, as things stand. */
    function QueryOf(files: FileSystem, access: AccessMethod, failed: PathEntry,
                     key: PathEntry, req: Request): Query
      reads this, dir
    {
      Query(cells, prevCell, failed, dir.pathEntrySet, files, access, key, req)
    }

    /**
     * What a query needs of its caller: in memory mode the tile it answers
     * from has been loaded, and a tile it has to open covers the location
     * (otherwise the source repeats the query without end).
     */
    ghost predicate CanAnswer(files: FileSystem, access: AccessMethod, failed: PathEntry,
                              key: PathEntry, req: Request)
      reads this, cells, dir
    {
      var l := Locate(cells, prevCell, req.loc);
      !Equal(key, failed) ==>
        (access == MemoryAccess && l.Some? ==> cells[l.value].posts != null) &&
        (l.None? ==> RetryFinds(files, dir.pathEntrySet, key, access, req.loc))
    }

    /**
     * Get_Geo_Elev_Dted1, Get_Post_Elev_Dted1, Get_Geo_Elev_Dted2 and
     * Get_Post_Elev_Dted2, which differ only in the level, the key and the
     * tile accessor. The outcome is Answered; a geographic request first
     * sets the answering tile's interpolation flag, and no other tile
     * changes. The last failure, a field of the database shared by both
     * levels, comes in as failed and goes out as failedOut.
     */
    method Elevation(files: FileSystem, hostLittleEndian: bool, access: AccessMethod,
                     failed: PathEntry, key: PathEntry, req: Request) returns (elev: real, failedOut: PathEntry)
      requires Valid() && CanAnswer(files, access, failed, key, req)
      modifies Repr
      ensures Valid() && fresh(Repr - old(Repr)) && unchanged(dir)
      ensures Answered(old(QueryOf(files, access, failed, key, req)), elev, cells, prevCell, failedOut)
      ensures |cells| >= |old(cells)| && cells[..|old(cells)|] == old(cells)
      ensures forall i :: 0 <= i < |old(cells)| ==> cells[i].posts == old(cells[i].posts)
      ensures forall i :: 0 <= i < |old(cells)| && AnsweringTile(old(QueryOf(files, access, failed, key, req))) != Some(i) ==>
                cells[i].bilinearInterpActive == old(cells[i].bilinearInterpActive)
      ensures |cells| > |old(cells)| ==> (cells[|old(cells)|].posts != null <==> access == MemoryAccess)
      ensures req.GeoRequest? && AnsweringTile(old(QueryOf(files, access, failed, key, req))).Some? ==>
                cells[AnsweringTile(old(QueryOf(files, access, failed, key, req))).value].bilinearInterpActive == req.interp
    {
      ghost var q := QueryOf(files, access, failed, key, req);
      if Equal(key, failed) {
        elev, failedOut := NULL_POST as real, failed;
        assert AnsweringTile(q).None?;
      } else {
        elev, failedOut := Search(files, hostLittleEndian, access, failed, key, req);
      }
      if elev == NULL_POST as real {
        elev := 0.0;
      }
    }

    /**
     * The branch of Elevation where the key is not the last failure: the
     * remembered tile, then the whole set, then the directory. The value is
     * the tile's, before the null post becomes 0.0.
     */
    method Search(files: FileSystem, hostLittleEndian: bool, access: AccessMethod,
                  failed: PathEntry, key: PathEntry, req: Request) returns (elev: real, failedOut: PathEntry)
      requires Valid() && CanAnswer(files, access, failed, key, req) && !Equal(key, failed)
      modifies Repr
      ensures Valid() && fresh(Repr - old(Repr)) && unchanged(dir)
      ensures Answered(old(QueryOf(files, access, failed, key, req)), Nulled(elev), cells, prevCell, failedOut)
      ensures |cells| >= |old(cells)| && cells[..|old(cells)|] == old(cells)
      ensures forall i :: 0 <= i < |old(cells)| ==> cells[i].posts == old(cells[i].posts)
      ensures forall i :: 0 <= i < |old(cells)| && AnsweringTile(old(QueryOf(files, access, failed, key, req))) != Some(i) ==>
                cells[i].bilinearInterpActive == old(cells[i].bilinearInterpActive)
      ensures |cells| > |old(cells)| ==> (cells[|old(cells)|].posts != null <==> access == MemoryAccess)
      ensures req.GeoRequest? && AnsweringTile(old(QueryOf(files, access, failed, key, req))).Some? ==>
                cells[AnsweringTile(old(QueryOf(files, access, failed, key, req))).value].bilinearInterpActive == req.interp
    {
      ghost var q := QueryOf(files, access, failed, key, req);
      failedOut := failed;
      var found, k, scanned := LocateCell(cells, prevCell, req.loc);
      if found {
        assert AnsweringTile(q) == Some(k);
        elev := ReadTile(k, scanned, cells[k], access, req);
      } else {
        elev, failedOut := OpenAndRetry(files, hostLittleEndian, access, failed, key, req);
      }
    }

    /**
     * The branch where an open tile covers the location: it is remembered
     * if the scan found it; the geographic paths set its interpolation
     * flag; it is read by the access method.
     */
    method ReadTile(k: nat, scanned: bool, cell: DtedCell.DtedCell, access: AccessMethod, req: Request)
      returns (elev: real)
      requires Valid() && k < |cells| && cell == cells[k]
      requires access == MemoryAccess ==> cell.posts != null
      modifies this`prevCell, cell`bilinearInterpActive
      ensures Valid() && elev == ElevOf(cell, access, req)
      ensures prevCell == if scanned then Some(k) else old(prevCell)
      ensures req.GeoRequest? ==> cell.bilinearInterpActive == req.interp
      ensures forall i :: 0 <= i < |cells| && i != k ==> cells[i].bilinearInterpActive == old(cells[i].bilinearInterpActive)
    {
      if scanned {
        prevCell := Some(k);
      }
      match req {
        case GeoRequest(loc, interp) =>
          cell.SetBilinearInterpActive(interp);
          if access == MemoryAccess {
            elev := cell.GetHeightAboveMSL(loc);
          } else {
            elev := cell.GetHeightAboveMSLFromDisk(loc);
          }
        case PostRequest(_, x, y) =>
          if access == MemoryAccess {
            elev := cell.GetPostValue(x, y);
          } else {
            elev := cell.GetPostValueFromDisk(x, y);
          }
      }
    }

    /**
     * The branch where no open tile covers the location: when the directory
     * lists the key, the tile is opened and the query repeated; otherwise
     * the key becomes the last failure and the value is the null post. The
     * repeated query is written out as the one path it can take: the key is
     * still not the last failure, no earlier tile covers the location, so
     * the scan finds the new tile, remembers it and reads it.
     */
    method OpenAndRetry(files: FileSystem, hostLittleEndian: bool, access: AccessMethod,
                        failed: PathEntry, key: PathEntry, req: Request) returns (elev: real, failedOut: PathEntry)
      requires Valid() && !Equal(key, failed) && Locate(cells, prevCell, req.loc).None?
      requires RetryFinds(files, dir.pathEntrySet, key, access, req.loc)
      modifies this`cells, this`Repr, this`prevCell
      ensures Valid() && fresh(Repr - old(Repr))
      ensures Answered(old(QueryOf(files, access, failed, key, req)), Nulled(elev), cells, prevCell, failedOut)
      ensures |cells| >= |old(cells)| && cells[..|old(cells)|] == old(cells)
      ensures |cells| > |old(cells)| ==> (cells[|old(cells)|].posts != null <==> access == MemoryAccess)
      ensures req.GeoRequest? && |cells| > |old(cells)| ==> cells[|old(cells)|].bilinearInterpActive == req.interp
      ensures |cells| > |old(cells)| <==> DtedDirectory.Find(dir.pathEntrySet, key).Some?
    {
      var retrieved, entry := dir.RetrieveDtedEntry(key);
      if retrieved {
        elev := OpenListed(files, hostLittleEndian, access, failed, key, req, entry);
        failedOut := failed;
      } else {
        elev, failedOut := NULL_POST as real, key;
      }
    }

    /** The listed branch of OpenAndRetry: the entry's tile is opened, added, found by the scan and read. */
    method OpenListed(files: FileSystem, hostLittleEndian: bool, access: AccessMethod,
                      failed: PathEntry, key: PathEntry, req: Request, entry: PathEntry) returns (elev: real)
      requires Valid() && !Equal(key, failed) && Locate(cells, prevCell, req.loc).None?
      requires RetryFinds(files, dir.pathEntrySet, key, access, req.loc)
      requires DtedDirectory.Find(dir.pathEntrySet, key).Some?
      requires entry == dir.pathEntrySet[DtedDirectory.Find(dir.pathEntrySet, key).value]
      modifies this`cells, this`Repr, this`prevCell
      ensures Valid() && fresh(Repr - old(Repr))
      ensures Answered(old(QueryOf(files, access, failed, key, req)), Nulled(elev), cells, prevCell, failed)
      ensures |cells| == |old(cells)| + 1 && cells[..|old(cells)|] == old(cells)
      ensures cells[|old(cells)|].posts != null <==> access == MemoryAccess
      ensures req.GeoRequest? ==> cells[|old(cells)|].bilinearInterpActive == req.interp
    {
      ghost var q := QueryOf(files, access, failed, key, req);
      var cell := AddForRetry(files, hostLittleEndian, access, key, req.loc, entry);
      elev := RetryAppended(q, cell, access, req);
    }

    /** The query repeated once the tile on the listed file is appended: it is answered from that tile. */
    method RetryAppended(ghost q: Query, cell: DtedCell.DtedCell, access: AccessMethod, req: Request)
      returns (elev: real)
      requires Valid() && cells == q.cells + [cell] && prevCell == q.prev
      requires q.prev.Some? ==> q.prev.value < |q.cells|
      requires q.access == access && q.req == req
      requires !Equal(q.key, q.failed) && Locate(q.cells, q.prev, req.loc).None?
      requires DtedDirectory.Find(q.entries, q.key).Some?
      requires cell.file == FileAt(q.files, q.entries[DtedDirectory.Find(q.entries, q.key).value].cellPath)
      requires cell.Covers(req.loc) && (access == MemoryAccess ==> cell.posts != null)
      modifies this`prevCell, cell`bilinearInterpActive
      ensures Valid() && Answered(q, Nulled(elev), cells, prevCell, q.failed)
      ensures req.GeoRequest? ==> cell.bilinearInterpActive == req.interp
    {
      FirstCoveringAppended(q.cells, cell, req.loc);
      assert cells[..|cells| - 1] == q.cells;
      elev := ReadAppended(cell, access, req);
      AnsweredByOpening(q, Nulled(elev), cells, prevCell);
    }

    /**
     * The repeated query after the tile was added: no earlier tile covers
     * the location, so the scan finds the new tile, remembers it and reads it.
     */
    method ReadAppended(cell: DtedCell.DtedCell, access: AccessMethod, req: Request) returns (elev: real)
      requires Valid() && |cells| >= 1 && cell == cells[|cells| - 1]
      requires prevCell.Some? ==> prevCell.value < |cells| - 1
      requires Locate(cells[..|cells| - 1], prevCell, req.loc).None?
      requires FirstCovering(cells, req.loc) == Some(|cells| - 1)
      requires access == MemoryAccess ==> cell.posts != null
      modifies this`prevCell, cell`bilinearInterpActive
      ensures Valid() && elev == ElevOf(cell, access, req) && prevCell == Some(|cells| - 1)
      ensures req.GeoRequest? ==> cell.bilinearInterpActive == req.interp
    {
      ghost var n := |cells| - 1;
      assert prevCell.Some? ==> cells[prevCell.value] == cells[..n][prevCell.value];
      var found, k, scanned := LocateCell(cells, prevCell, req.loc);
      assert found && scanned && k == n;
      elev := ReadTile(k, scanned, cell, access, req);
    }

    /** dtedNCellSet.insert(new Dted_Cell(...)) for the listed entry: the tile covers the location. */
    method AddForRetry(files: FileSystem, hostLittleEndian: bool, access: AccessMethod,
                       key: PathEntry, ghost loc: GeoLocation, entry: PathEntry) returns (cell: DtedCell.DtedCell)
      requires Valid() && RetryFinds(files, dir.pathEntrySet, key, access, loc)
      requires DtedDirectory.Find(dir.pathEntrySet, key).Some?
      requires entry == dir.pathEntrySet[DtedDirectory.Find(dir.pathEntrySet, key).value]
      modifies this`cells, this`Repr
      ensures Valid() && fresh(Repr - old(Repr)) && fresh(cell) && cells == old(cells) + [cell]
      ensures cell.file == FileAt(files, entry.cellPath) && cell.Covers(loc)
      ensures (cell.posts != null <==> access == MemoryAccess) && !cell.bilinearInterpActive
    {
      cell := OpenForRetry(files, hostLittleEndian, dir.pathEntrySet, key, access, loc, entry.cellPath);
      Add(cell);
    }

    /** The tiles after those of before are loaded tiles on the files of the first n entries, in order. */
    ghost predicate Preloaded(before: seq<DtedCell.DtedCell>, files: FileSystem, entries: seq<PathEntry>, n: nat)
      reads this, cells
      requires n <= |entries|
    {
      |cells| == |before| + n && cells[..|before|] == before &&
      forall i :: 0 <= i < n ==>
        cells[|before| + i].file == FileAt(files, entries[i].cellPath) && cells[|before| + i].posts != null
    }

    /**
     * Populate_Dted1_Directory and Populate_Dted2_Directory: the directory
     * scans the tree; when preloading, every entry it holds is opened and
     * loaded, in the directory's order. The source returns true; ok is false
     * when instead a std::out_of_range escapes the scan, in which case
     * nothing is preloaded.
     */
    method Populate(files: FileSystem, hostLittleEndian: bool, path: string,
                    listing: DtedDirectory.Listing, preLoad: bool) returns (ok: bool)
      requires Valid()
      requires preLoad ==> AllLoadable(files, DtedDirectory.ScanListing(dir.State(), path, listing).entries)
      modifies Repr, dir
      ensures Valid() && fresh(Repr - old(Repr)) && prevCell == old(prevCell)
      ensures ok <==> !DtedDirectory.ScanListing(old(dir.State()), path, listing).thrown
      ensures dir.State() == DtedDirectory.ScanListing(old(dir.State()), path, listing).(thrown := false)
      ensures preLoad && ok ==> Preloaded(old(cells), files, dir.pathEntrySet, |dir.pathEntrySet|)
      ensures !preLoad || !ok ==> cells == old(cells)
    {
      var _, thrown := dir.PopulateDirectory(path, listing);
      if thrown {
        return false;
      }
      if preLoad {
        Preload(files, hostLittleEndian);
      }
      ok := true;
    }

    /** The preloading loop: QueryReset, then a tile for every entry Query yields. */
    method Preload(files: FileSystem, hostLittleEndian: bool)
      requires Valid() && AllLoadable(files, dir.pathEntrySet)
      modifies this`cells, this`Repr, dir`queryPos
      ensures Valid() && fresh(Repr - old(Repr)) && dir.State() == old(dir.State())
      ensures Preloaded(old(cells), files, dir.pathEntrySet, |dir.pathEntrySet|)
    {
      ghost var before := cells;
      ghost var entries := dir.pathEntrySet;
      dir.QueryReset();
      var more, entry := dir.Query(PathEntry(0, 0, ""));
      ghost var n := 0;
      while more
        invariant Valid() && fresh(Repr - old(Repr)) && dir.State() == old(dir.State())
        invariant 0 <= n <= |entries| && Preloaded(before, files, entries, n)
        invariant more ==> n < |entries| && dir.queryPos == n + 1 && entry == entries[n]
        invariant !more ==> n == |entries|
        decreases |entries| - n
      {
        ghost var grown := Repr;
        more, entry := PreloadStep(files, hostLittleEndian, before, entries, n, entry);
        assert Repr - old(Repr) <= (Repr - grown) + (grown - old(Repr));
        n := n + 1;
      }
    }

    /** One turn of the preloading loop and the Query that ends it. */
    method PreloadStep(files: FileSystem, hostLittleEndian: bool, ghost before: seq<DtedCell.DtedCell>,
                       ghost entries: seq<PathEntry>, ghost n: nat, entry: PathEntry)
      returns (more: bool, next: PathEntry)
      requires Valid() && n < |entries| && entry == entries[n] && AllLoadable(files, entries)
      requires Preloaded(before, files, entries, n)
      requires dir.pathEntrySet == entries && dir.queryPos == n + 1
      modifies this`cells, this`Repr, dir`queryPos
      ensures Valid() && fresh(Repr - old(Repr)) && dir.State() == old(dir.State())
      ensures Preloaded(before, files, entries, n + 1)
      ensures more ==> n + 1 < |entries| && dir.queryPos == n + 2 && next == entries[n + 1]
      ensures !more ==> n + 1 == |entries|
    {
      PreloadNext(files, hostLittleEndian, before, entries, n, entry);
      more, next := dir.Query(entry);
    }

    /** One turn of the preloading loop: the tile on the next entry is opened and loaded. */
    method PreloadNext(files: FileSystem, hostLittleEndian: bool, ghost before: seq<DtedCell.DtedCell>,
                       ghost entries: seq<PathEntry>, ghost n: nat, entry: PathEntry)
      requires Valid() && n < |entries| && entry == entries[n] && AllLoadable(files, entries)
      requires Preloaded(before, files, entries, n)
      modifies this`cells, this`Repr
      ensures Valid() && fresh(Repr - old(Repr)) && prevCell == old(prevCell)
      ensures Preloaded(before, files, entries, n + 1)
    {
      ghost var prior := cells;
      var cell := OpenListedLoaded(files, hostLittleEndian, entries, n, entry.cellPath);
      Add(cell);
      PrefixOfPrefix(before, prior, cells);
      assert forall i :: 0 <= i < |prior| ==> cells[i] == prior[i];
    }

    /** Gather_Stats_Dted1 and Gather_Stats_Dted2: every tile gathers its statistics, folded from 65536 and 0. */
    method GatherStats() returns (lo: real, hi: real)
      requires Valid()
      modifies set i | 0 <= i < |cells| :: cells[i]
      ensures Valid() && lo == LowestOf(cells) && hi == HighestOf(cells)
      ensures forall i :: 0 <= i < |cells| ==> cells[i].statisticsGathered && cells[i].posts == old(cells[i].posts)
    {
      lo, hi := 65536.0, 0.0;
      var i := 0;
      while i < |cells|
        invariant 0 <= i <= |cells| && Valid()
        invariant lo == LowestOf(cells[..i]) && hi == HighestOf(cells[..i])
        invariant forall j :: 0 <= j < i ==> cells[j].statisticsGathered
        invariant forall j :: 0 <= j < |cells| ==> cells[j].posts == old(cells[j].posts)
      {
        var m, x := GatherAt(i);
        if m < lo {
          lo := m;
        }
        if x > hi {
          hi := x;
        }
        assert cells[..i + 1][..i] == cells[..i];
        i := i + 1;
      }
      assert cells[..i] == cells;
    }

    /** One tile of Gather_Stats: it gathers its statistics and reports its lowest and highest post. */
    method GatherAt(i: nat) returns (m: real, x: real)
      requires Valid() && i < |cells|
      modifies cells[i]
      ensures Valid() && cells[i].statisticsGathered
      ensures m == CellMin(cells[i]) && x == CellMax(cells[i])
      ensures cells[i].posts == old(cells[i].posts)
      ensures forall j :: 0 <= j < |cells| && j != i ==> cells[j].statisticsGathered == old(cells[j].statisticsGathered)
    {
      var cell := cells[i];
      cell.GatherStatistics();
      assert forall j :: 0 <= j < |cells| && j != i ==> cells[j] != cell;
      m := cell.MinHeightAboveMSL();
      x := cell.MaxHeightAboveMSL();
    }

    /** The part of Clear_Database for one level: no tiles, no remembered tile, the directory cleared. */
    method Clear()
      requires Valid()
      modifies this`cells, this`prevCell, dir`minMeridian, dir`maxMeridian, dir`minParallel,
               dir`maxParallel, dir`pathEntrySet
      ensures Valid() && cells == [] && prevCell == None
      ensures dir.State() == DtedDirectory.InitialState(old(dir.currPathMeridian))
    {
      cells := [];
      dir.ClearDtedDirectory();
      prevCell := None;
    }
  }

  class DtedDatabase {
    const files: FileSystem
    const hostLittleEndian: bool
    const dted1: CellStore
    const dted2: CellStore
    var dtedLevel: DtedLevel
    /** The key of the last query the directory could not serve, at either level. */
    var prevFailed: PathEntry
    var bilinearInterpActive: bool
    var accessMethod: AccessMethod

    ghost predicate Valid()
      reads this, dted1, dted1.Repr, dted1.dir, dted2, dted2.Repr, dted2.dir
    {
      dted1.Valid() && dted2.Valid() && dted1.Repr !! dted2.Repr && dted1.dir != dted2.dir &&
      dted1.dir !in dted2.Repr && dted2.dir !in dted1.Repr &&
      this !in dted1.Repr && this !in dted2.Repr
    }

    /**
     * Dted_Database(): no tiles, both directories cleared, memory access,
     * level 1, no interpolation and the failure key (-32767, -32767). The
     * directories' current meridians, which their constructor leaves
     * uninitialised, are the parameters meridian1 and meridian2.
     */
    constructor(files: FileSystem, hostLittleEndian: bool, meridian1: int, meridian2: int)
      ensures Valid() && fresh(dted1.Repr) && fresh(dted2.Repr)
      ensures this.files == files && this.hostLittleEndian == hostLittleEndian
      ensures dted1.cells == [] && dted2.cells == [] && dted1.prevCell == None && dted2.prevCell == None
      ensures dted1.dir.State() == DtedDirectory.InitialState(meridian1) && dted2.dir.State() == DtedDirectory.InitialState(meridian2)
      ensures accessMethod == MemoryAccess && dtedLevel == Level1 && !bilinearInterpActive
      ensures prevFailed == PathEntry(NULL_POST, NULL_POST, "")
    {
      this.files := files;
      this.hostLittleEndian := hostLittleEndian;
      dted1 := new CellStore(meridian1);
      dted2 := new CellStore(meridian2);
      accessMethod := MemoryAccess;
      dtedLevel := Level1;
      bilinearInterpActive := false;
      prevFailed := PathEntry(NULL_POST, NULL_POST, "");
      new;
      dted1.dir.ClearDtedDirectory();
      dted2.dir.ClearDtedDirectory();
    }

    /** The store of a level with tiles. */
    function StoreOf(level: DtedLevel): CellStore
      reads this
      requires level != Level0
    {
      if level == Level1 then dted1 else dted2
    }

    /** The query a level would answer for the key and the request, as things stand. */
    ghost function QueryAt(level: DtedLevel, key: PathEntry, req: Request): Query
      reads this, StoreOf(level), StoreOf(level).dir
      requires level != Level0
    {
      StoreOf(level).QueryOf(files, accessMethod, prevFailed, key, req)
    }

    /** What a query at the current level needs of its caller (nothing at level 0). */
    ghost predicate CanAsk(key: PathEntry, req: Request)
      reads this, dted1, dted1.cells, dted1.dir, dted2, dted2.cells, dted2.dir
    {
      dtedLevel != Level0 ==> StoreOf(dtedLevel).CanAnswer(files, accessMethod, prevFailed, key, req)
    }

    /** One query at a level with tiles, against that level's store and the shared failure key. */
    method Ask(level: DtedLevel, key: PathEntry, req: Request) returns (elev: real)
      requires Valid() && level != Level0 && StoreOf(level).CanAnswer(files, accessMethod, prevFailed, key, req)
      modifies StoreOf(level).Repr, this`prevFailed
      ensures Valid() && fresh(StoreOf(level).Repr - old(StoreOf(level).Repr))
      ensures Answered(old(QueryAt(level, key, req)), elev, StoreOf(level).cells, StoreOf(level).prevCell, prevFailed)
    {
      var store := StoreOf(level);
      elev, prevFailed := store.Elevation(files, hostLittleEndian, accessMethod, prevFailed, key, req);
    }

    /**
     * Get_Geo_Elev: the geographic query of the current level, with the
     * database's interpolation flag; 0.0 at level 0. The other level's tiles
     * do not change.
     */
    method GetGeoElev(loc: GeoLocation) returns (elev: real)
      requires Valid() && CanAsk(GeoKey(dtedLevel, loc), GeoRequest(loc, bilinearInterpActive))
      modifies dted1.Repr, dted2.Repr, this`prevFailed
      ensures Valid() && fresh(dted1.Repr - old(dted1.Repr)) && fresh(dted2.Repr - old(dted2.Repr))
      ensures dtedLevel == Level0 ==> elev == 0.0 && prevFailed == old(prevFailed)
      ensures dtedLevel != Level0 ==>
                Answered(old(QueryAt(dtedLevel, GeoKey(dtedLevel, loc), GeoRequest(loc, bilinearInterpActive))),
                         elev, StoreOf(dtedLevel).cells, StoreOf(dtedLevel).prevCell, prevFailed)
      ensures dtedLevel != Level1 ==> unchanged(old(dted1.Repr))
      ensures dtedLevel != Level2 ==> unchanged(old(dted2.Repr))
    {
      elev := 0.0;
      if dtedLevel == Level1 {
        elev := Ask(Level1, GeoKeyDted1(loc), GeoRequest(loc, bilinearInterpActive));
      } else if dtedLevel == Level2 {
        elev := Ask(Level2, CastKey(loc), GeoRequest(loc, bilinearInterpActive));
      }
    }

    /** Get_Post_Elev: post (x, y) of the tile covering the location at the current level; 0.0 at level 0. */
    method GetPostElev(loc: GeoLocation, x: int, y: int) returns (elev: real)
      requires Valid() && CanAsk(CastKey(loc), PostRequest(loc, x, y))
      modifies dted1.Repr, dted2.Repr, this`prevFailed
      ensures Valid() && fresh(dted1.Repr - old(dted1.Repr)) && fresh(dted2.Repr - old(dted2.Repr))
      ensures dtedLevel == Level0 ==> elev == 0.0 && prevFailed == old(prevFailed)
      ensures dtedLevel != Level0 ==>
                Answered(old(QueryAt(dtedLevel, CastKey(loc), PostRequest(loc, x, y))),
                         elev, StoreOf(dtedLevel).cells, StoreOf(dtedLevel).prevCell, prevFailed)
      ensures dtedLevel != Level1 ==> unchanged(old(dted1.Repr))
      ensures dtedLevel != Level2 ==> unchanged(old(dted2.Repr))
    {
      elev := 0.0;
      if dtedLevel == Level1 {
        elev := Ask(Level1, CastKey(loc), PostRequest(loc, x, y));
      } else if dtedLevel == Level2 {
        elev := Ask(Level2, CastKey(loc), PostRequest(loc, x, y));
      }
    }

    /** Set_Bilinear_Interp_Active. */
    method SetBilinearInterpActive(newState: bool)
      modifies this`bilinearInterpActive
      ensures bilinearInterpActive == newState
    {
      bilinearInterpActive := newState;
    }

    /** Set_Dted_Level. */
    method SetDtedLevel(newDtedLevel: DtedLevel)
      modifies this`dtedLevel
      ensures dtedLevel == newDtedLevel
    {
      dtedLevel := newDtedLevel;
    }

    /** Set_Access_Method. */
    method SetAccessMethod(newMethod: AccessMethod)
      modifies this`accessMethod
      ensures accessMethod == newMethod
    {
      accessMethod := newMethod;
    }

    /**
     * Clear_Database: both levels lose their tiles and their remembered
     * tile, both directories are cleared, and the failure key goes back to
     * (-32767, -32767); its path is left as it was.
     */
    method ClearDatabase()
      requires Valid()
      modifies dted1`cells, dted1`prevCell, dted2`cells, dted2`prevCell, this`prevFailed,
               dted1.dir`minMeridian, dted1.dir`maxMeridian, dted1.dir`minParallel, dted1.dir`maxParallel,
               dted1.dir`pathEntrySet, dted2.dir`minMeridian, dted2.dir`maxMeridian, dted2.dir`minParallel,
               dted2.dir`maxParallel, dted2.dir`pathEntrySet
      ensures Valid() && dted1.cells == [] && dted2.cells == [] && dted1.prevCell == None && dted2.prevCell == None
      ensures dted1.dir.State() == DtedDirectory.InitialState(old(dted1.dir.currPathMeridian))
      ensures dted2.dir.State() == DtedDirectory.InitialState(old(dted2.dir.currPathMeridian))
      ensures prevFailed == old(prevFailed).(latitude := NULL_POST, longitude := NULL_POST)
    {
      dted1.Clear();
      dted2.Clear();
      prevFailed := prevFailed.(latitude := NULL_POST, longitude := NULL_POST);
    }

    /**
     * Populate_Dted1_Directory and Populate_Dted2_Directory: the level's
     * directory scans the tree and, when preloading, a loaded tile is added
     * for each of its entries; the answer is true, or false when a
     * std::out_of_range escapes the scan.
     */
    method PopulateDirectory(level: DtedLevel, path: string, listing: DtedDirectory.Listing, preLoad: bool)
      returns (ok: bool)
      requires Valid() && level != Level0
      requires preLoad ==> AllLoadable(files, DtedDirectory.ScanListing(StoreOf(level).dir.State(), path, listing).entries)
      modifies StoreOf(level).Repr, StoreOf(level).dir
      ensures Valid() && fresh(StoreOf(level).Repr - old(StoreOf(level).Repr))
      ensures ok <==> !DtedDirectory.ScanListing(old(StoreOf(level).dir.State()), path, listing).thrown
      ensures StoreOf(level).dir.State() ==
              DtedDirectory.ScanListing(old(StoreOf(level).dir.State()), path, listing).(thrown := false)
      ensures preLoad && ok ==> StoreOf(level).Preloaded(old(StoreOf(level).cells), files, StoreOf(level).dir.pathEntrySet,
                                                         |StoreOf(level).dir.pathEntrySet|)
      ensures !preLoad || !ok ==> StoreOf(level).cells == old(StoreOf(level).cells)
    {
      var store := StoreOf(level);
      ok := store.Populate(files, hostLittleEndian, path, listing, preLoad);
    }

    /**
     * Gather_Stats_Dted1 and Gather_Stats_Dted2: every tile of the level
     * gathers its statistics; the lowest minimum (from 65536) and the
     * highest maximum (from 0) are the values reported.
     */
    method GatherStats(level: DtedLevel) returns (lo: real, hi: real)
      requires Valid() && level != Level0
      modifies StoreOf(level).Repr
      ensures Valid() && lo == LowestOf(StoreOf(level).cells) && hi == HighestOf(StoreOf(level).cells)
      ensures forall i :: 0 <= i < |StoreOf(level).cells| ==> StoreOf(level).cells[i].statisticsGathered
    {
      var store := StoreOf(level);
      lo, hi := store.GatherStats();
    }
  }

  /** The key of a geographic query at a level with tiles. */
  function GeoKey(level: DtedLevel, loc: GeoLocation): PathEntry {
    if level == Level1 then GeoKeyDted1(loc) else CastKey(loc)
  }
}
