/**
 * Dted_Directory: an index of the DTED files below a directory. The scan
 * walks the tree; a directory whose name starts with a hemisphere letter E
 * or W sets the current meridian, and each DTED file found adds an entry
 * keyed by the latitude in its name and the current meridian. Along the way
 * the scan widens four text bounds: the western and eastern meridian and the
 * southern and northern parallel seen.
 *
 * The file system is an input value: a listing is what opendir/readdir
 * return for a directory, or Unreadable when opendir fails; lstat's
 * directory test is the choice between FileEntry and DirEntry.
 */
module DtedDirectory {
  import opened DtedCommon
  import opened CText
  import opened DtedPathEntry

  datatype Entry = FileEntry(name: string) | DirEntry(name: string, listing: Listing)
  datatype Listing = Unreadable | Listing(entries: seq<Entry>)

  /** Sizes that decrease along the scan's recursion. */
  function EntrySize(e: Entry): (n: nat)
    ensures n >= 1
  {
    match e
    case FileEntry(_) => 1
    case DirEntry(_, listing) => 1 + ListingSize(listing)
  }

  function ListingSize(l: Listing): nat {
    match l
    case Unreadable => 0
    case Listing(es) => ListSize(es)
  }

  function ListSize(es: seq<Entry>): nat {
    if es == [] then 0 else EntrySize(es[0]) + ListSize(es[1..])
  }

  /** Each entry of a listing is no larger than the listing. */
  lemma {:induction false} EntryWithinList(es: seq<Entry>, i: nat)
    requires i < |es|
    ensures EntrySize(es[i]) <= ListSize(es)
    ensures EntrySize(es[i]) + ListSize(es[i + 1..]) <= ListSize(es[i..])
    decreases i
  {
    if i > 0 {
      EntryWithinList(es[1..], i - 1);
      assert es[1..][i - 1] == es[i];
      assert es[1..][i - 1 + 1..] == es[i + 1..];
      assert es[1..][i - 1..] == es[i..];
    } else {
      assert es[0..] == es;
      assert es[1..] == es[i + 1..];
    }
  }

  // The std::string operations the scan uses.

  /** find_first_of(c): the first index of c, or |s| (npos, which substr clamps) when absent. */
  function FirstIndexOf(s: string, c: char): (i: nat)
    ensures i <= |s| && c !in s[..i]
    ensures i < |s| ==> s[i] == c
  {
    if |s| == 0 then 0
    else if s[0] == c then 0
    else 1 + FirstIndexOf(s[1..], c)
  }

  /** find_last_of(c): the last index of c, or -1 (npos, to which erase's + 1 adds up to 0) when absent. */
  function LastIndexOf(s: string, c: char): (i: int)
    ensures -1 <= i < |s| && c !in s[i + 1..]
    ensures i >= 0 ==> s[i] == c
  {
    if |s| == 0 then -1
    else if s[|s| - 1] == c then |s| - 1
    else LastIndexOf(s[..|s| - 1], c)
  }

  /** substr(pos, len): the part from pos of at most len characters; pos past the end throws. */
  function Substr(s: string, pos: nat, len: nat): (r: string)
    requires pos <= |s|
    ensures |r| <= len && pos + |r| <= |s| && r == s[pos..pos + |r|]
    ensures pos + len <= |s| ==> |r| == len
  {
    if pos + len <= |s| then s[pos..pos + len] else s[pos..]
  }

  /** compare: the sign of the lexicographic comparison of the character codes. */
  function Compare(a: string, b: string): (r: int)
    ensures -1 <= r <= 1
  {
    if |a| == 0 && |b| == 0 then 0
    else if |a| == 0 then -1
    else if |b| == 0 then 1
    else if a[0] < b[0] then -1
    else if a[0] > b[0] then 1
    else Compare(a[1..], b[1..])
  }

  /**
   * rfind(t): the last position at which t occurs in s, or -1. It is only
   * used on a search name that ends with t.
   */
  function RFind(s: string, t: string): (i: int)
    ensures i == -1 || 0 <= i <= |s| - |t|
    ensures i >= 0 ==> s[i..i + |t|] == t
    decreases |s|
  {
    if |s| < |t| then -1
    else if s[|s| - |t|..] == t then |s| - |t|
    else RFind(s[..|s| - 1], t)
  }

  /** Cutting the search name at its last "/name" removes the "/name" just appended. */
  lemma RemoveAppended(s: string, t: string)
    ensures RFind(s + t, t) == |s|
    ensures (s + t)[..RFind(s + t, t)] == s
  {
    assert (s + t)[|s|..] == t;
  }

  /** s.compare(0, 1, [c]) == 0: the first character is c. */
  function Starts(s: string, c: char): (r: bool)
    ensures r <==> |s| >= 1 && s[0] == c
  {
    Substr(s, 0, 1) == [c]
  }

  // Is_Dted_File.

  /** The name with everything up to its last '.' erased; a name without '.' is kept whole. */
  function Extension(name: string): (ext: string)
    ensures '.' !in ext
    ensures '.' !in name ==> ext == name
  {
    name[LastIndexOf(name, '.') + 1..]
  }

  /** Is_Dted_File: the extension is one of the twelve spellings of dt0, dt1 and dt2 listed. */
  function IsDtedFile(name: string): bool {
    var ext := Extension(name);
    ext == "DT0" || ext == "Dt0" || ext == "dT0" || ext == "dt0" ||
    ext == "DT1" || ext == "Dt1" || ext == "dT1" || ext == "dt1" ||
    ext == "DT2" || ext == "Dt2" || ext == "dT2" || ext == "dt2"
  }

  /** A DTED file name is one whose extension is d or D, then t or T, then a level digit 0, 1 or 2. */
  lemma DtedFileExtension(name: string)
    ensures IsDtedFile(name) <==>
            var ext := Extension(name);
            |ext| == 3 && (ext[0] == 'd' || ext[0] == 'D') && (ext[1] == 't' || ext[1] == 'T') &&
            (ext[2] == '0' || ext[2] == '1' || ext[2] == '2')
  {
    var ext := Extension(name);
    if |ext| == 3 {
      assert ext == [ext[0], ext[1], ext[2]];
    }
  }

  /** The extension of a name ending in "." and a dot-free text is that text. */
  lemma ExtensionAfterDot(base: string, ext: string)
    requires '.' !in ext
    ensures Extension(base + "." + ext) == ext
  {
    var name := base + "." + ext;
    assert name[|base|] == '.';
    LastIndexAt(name, '.', |base|);
  }

  /** The last '.' is at i when it is one and none follows. */
  lemma {:induction false} LastIndexAt(s: string, c: char, i: nat)
    requires i < |s| && s[i] == c && c !in s[i + 1..]
    ensures LastIndexOf(s, c) == i
    decreases |s|
  {
    if s[|s| - 1] != c {
      assert i < |s| - 1;
      assert s[..|s| - 1][i + 1..] == s[i + 1..|s| - 1];
      LastIndexAt(s[..|s| - 1], c, i);
    }
  }

  /** A DTED file name has at least its three extension characters. */
  lemma DtedFileLength(name: string)
    requires IsDtedFile(name)
    ensures |name| >= 3
  {
    assert |Extension(name)| <= |name|;
  }

  // Key derivation.

  /** The part of a file name before its first '.', the text the parallel bounds compare. */
  function ParallelText(name: string): string {
    name[..FirstIndexOf(name, '.')]
  }

  /** The parallel text is empty exactly when the name starts with '.'. */
  lemma ParallelTextEmpty(name: string)
    requires |name| >= 1
    ensures ParallelText(name) == [] <==> name[0] == '.'
  {
  }

  /** The characters after the first up to the first '.', the digits of the latitude. */
  function LatitudeText(name: string): string
    requires |name| >= 1
  {
    name[1..FirstIndexOf(name[1..], '.') + 1]
  }

  /** The latitude key of a DTED file: atoi of the latitude text stored into a short, negated for S or s. */
  function FileLatitude(name: string): (lat: int)
    requires |name| >= 1
    ensures -0x8000 <= lat < 0x8000
  {
    var latitude := Wrap16(Atoi(LatitudeText(name)));
    if name[0] == 'S' || name[0] == 's' then Wrap16(latitude * -1) else latitude
  }

  /** The meridian of a directory named after one: atoi of the rest of the name, negated for W or w. */
  function DirectoryMeridian(name: string): (lon: int)
    requires |name| >= 1
    ensures -0x8000 <= lon < 0x8000
  {
    var meridian := Wrap16(Atoi(name[1..]));
    if name[0] == 'W' || name[0] == 'w' then Wrap16(meridian * -1) else meridian
  }

  /** Whether a directory name sets the current meridian. */
  predicate IsMeridianName(name: string) {
    |name| >= 1 && (name[0] == 'E' || name[0] == 'e' || name[0] == 'W' || name[0] == 'w')
  }

  /** The latitude text of a name hemisphere letter, digits, '.', extension is the digits. */
  lemma LatitudeTextOfName(h: char, ds: string, ext: string)
    requires AllDigits(ds)
    ensures LatitudeText([h] + ds + "." + ext) == ds
  {
    var name := [h] + ds + "." + ext;
    var rest := ds + "." + ext;
    assert name[1..] == rest;
    assert rest[..|ds|] == ds && rest[|ds|] == '.';
    assert '.' !in ds by {
      forall k | 0 <= k < |ds| ensures ds[k] != '.' {
        assert IsDigit(ds[k]);
      }
    }
    FirstIndexAt(rest, '.', |ds|);
    assert name[1..|ds| + 1] == ds;
  }

  /**
   * A file named hemisphere letter, digits, '.', extension has as latitude
   * the value of the digits, negated for S or s, within the range of a short.
   */
  lemma FileLatitudeOfName(h: char, ds: string, ext: string)
    requires AllDigits(ds) && DigitsValue(ds) < 0x8000
    ensures FileLatitude([h] + ds + "." + ext) ==
            if h == 'S' || h == 's' then -DigitsValue(ds) else DigitsValue(ds)
  {
    LatitudeTextOfName(h, ds, ext);
    AtoiOfDigits(ds);
    DigitsNonNegative(ds);
    assert ([h] + ds + "." + ext)[0] == h;
  }

  /** A directory named hemisphere letter and digits has as meridian their value, negated for W or w. */
  lemma DirectoryMeridianOfName(h: char, ds: string)
    requires AllDigits(ds) && DigitsValue(ds) < 0x8000
    ensures DirectoryMeridian([h] + ds) == if h == 'W' || h == 'w' then -DigitsValue(ds) else DigitsValue(ds)
  {
    assert ([h] + ds)[1..] == ds;
    AtoiOfDigits(ds);
    DigitsNonNegative(ds);
  }

  lemma {:induction false} DigitsNonNegative(ds: string)
    requires AllDigits(ds)
    ensures DigitsValue(ds) >= 0
    decreases |ds|
  {
    if |ds| > 0 {
      DigitsNonNegative(ds[..|ds| - 1]);
    }
  }

  // The four bounds.

  /** The southernmost parallel: a southern name replaces a northern bound, or a southern one with smaller digits. */
  function NextMinParallel(minParallel: string, parallelTxt: string): (r: string)
    requires |minParallel| >= 1
    requires |parallelTxt| >= 1 || !(Starts(minParallel, 'N') || Starts(minParallel, 'n'))
    ensures r == minParallel || r == parallelTxt
  {
    if Starts(parallelTxt, 'S') || Starts(parallelTxt, 's') then
      if Starts(minParallel, 'N') || Starts(minParallel, 'n') then parallelTxt
      else if Compare(Substr(parallelTxt, 1, 2), Substr(minParallel, 1, 2)) > 0 then parallelTxt
      else minParallel
    else if Starts(minParallel, 'N') || Starts(minParallel, 'n') then
      if Compare(Substr(parallelTxt, 1, 2), Substr(minParallel, 1, 2)) < 0 then parallelTxt else minParallel
    else minParallel
  }

  /** The northernmost parallel, mirroring NextMinParallel with the hemispheres exchanged. */
  function NextMaxParallel(maxParallel: string, parallelTxt: string): (r: string)
    requires |maxParallel| >= 1
    requires |parallelTxt| >= 1 || !(Starts(maxParallel, 'S') || Starts(maxParallel, 's'))
    ensures r == maxParallel || r == parallelTxt
  {
    if Starts(parallelTxt, 'N') || Starts(parallelTxt, 'n') then
      if Starts(maxParallel, 'S') || Starts(maxParallel, 's') then parallelTxt
      else if Compare(Substr(parallelTxt, 1, 2), Substr(maxParallel, 1, 2)) > 0 then parallelTxt
      else maxParallel
    else if Starts(maxParallel, 'S') || Starts(maxParallel, 's') then
      if Compare(Substr(parallelTxt, 1, 2), Substr(maxParallel, 1, 2)) < 0 then parallelTxt else maxParallel
    else maxParallel
  }

  /** The westernmost meridian, compared on three digits. */
  function NextMinMeridian(minMeridian: string, meridianTxt: string): (r: string)
    requires |minMeridian| >= 1 && |meridianTxt| >= 1
    ensures r == minMeridian || r == meridianTxt
  {
    if Starts(meridianTxt, 'W') || Starts(meridianTxt, 'w') then
      if Starts(minMeridian, 'E') || Starts(minMeridian, 'e') then meridianTxt
      else if Compare(Substr(meridianTxt, 1, 3), Substr(minMeridian, 1, 3)) > 0 then meridianTxt
      else minMeridian
    else if Starts(minMeridian, 'E') || Starts(minMeridian, 'e') then
      if Compare(Substr(meridianTxt, 1, 3), Substr(minMeridian, 1, 3)) < 0 then meridianTxt else minMeridian
    else minMeridian
  }

  /** The easternmost meridian. */
  function NextMaxMeridian(maxMeridian: string, meridianTxt: string): (r: string)
    requires |maxMeridian| >= 1 && |meridianTxt| >= 1
    ensures r == maxMeridian || r == meridianTxt
  {
    if Starts(meridianTxt, 'E') || Starts(meridianTxt, 'e') then
      if Starts(maxMeridian, 'W') || Starts(maxMeridian, 'w') then meridianTxt
      else if Compare(Substr(meridianTxt, 1, 3), Substr(maxMeridian, 1, 3)) > 0 then meridianTxt
      else maxMeridian
    else if Starts(maxMeridian, 'W') || Starts(maxMeridian, 'w') then
      if Compare(Substr(meridianTxt, 1, 3), Substr(maxMeridian, 1, 3)) < 0 then meridianTxt else maxMeridian
    else maxMeridian
  }

  // The intended meaning of the bounds.

  /** A hemisphere letter followed by w digits. */
  predicate WellFormedBound(t: string, w: nat, positive: string, negative: string) {
    |t| >= 1 + w && (t[0] in positive || t[0] in negative) && AllDigits(t[1..1 + w])
  }

  /** The signed degrees such a text stands for. */
  function BoundValue(t: string, w: nat, negative: string): int
    requires |t| >= 1 + w
  {
    if t[0] in negative then -DigitsValue(t[1..1 + w]) else DigitsValue(t[1..1 + w])
  }

  function Min(a: int, b: int): int {
    if a <= b then a else b
  }

  function Max(a: int, b: int): int {
    if a >= b then a else b
  }

  /** The value of two digits. */
  lemma TwoDigitsValue(a: string)
    requires |a| == 2
    ensures DigitsValue(a) == 10 * DigitValue(a[0]) + DigitValue(a[1])
  {
    var head := a[..1];
    assert head[..0] == [] && head[0] == a[0];
    assert DigitsValue(head) == DigitValue(a[0]);
    assert a[..|a| - 1] == head;
  }

  /** The value of three digits. */
  lemma ThreeDigitsValue(a: string)
    requires |a| == 3
    ensures DigitsValue(a) == 100 * DigitValue(a[0]) + 10 * DigitValue(a[1]) + DigitValue(a[2])
  {
    var init := a[..2];
    TwoDigitsValue(init);
    assert init[0] == a[0] && init[1] == a[1];
    assert a[..|a| - 1] == init;
  }

  /** On two-digit strings compare orders as the values do. */
  lemma CompareTwoDigits(a: string, b: string)
    requires |a| == |b| == 2 && AllDigits(a) && AllDigits(b)
    ensures Compare(a, b) < 0 <==> DigitsValue(a) < DigitsValue(b)
    ensures Compare(a, b) > 0 <==> DigitsValue(a) > DigitsValue(b)
  {
    TwoDigitsValue(a);
    TwoDigitsValue(b);
    assert IsDigit(a[0]) && IsDigit(a[1]) && IsDigit(b[0]) && IsDigit(b[1]);
    assert Compare(a[1..][1..], b[1..][1..]) == 0;
  }

  /** On three-digit strings compare orders as the values do. */
  lemma CompareThreeDigits(a: string, b: string)
    requires |a| == |b| == 3 && AllDigits(a) && AllDigits(b)
    ensures Compare(a, b) < 0 <==> DigitsValue(a) < DigitsValue(b)
    ensures Compare(a, b) > 0 <==> DigitsValue(a) > DigitsValue(b)
  {
    ThreeDigitsValue(a);
    ThreeDigitsValue(b);
    TwoDigitsValue(a[1..]);
    TwoDigitsValue(b[1..]);
    assert IsDigit(a[0]) && IsDigit(a[1]) && IsDigit(a[2]) && IsDigit(b[0]) && IsDigit(b[1]) && IsDigit(b[2]);
    CompareTwoDigits(a[1..], b[1..]);
  }

  /** A letter of one of two two-letter hemisphere sets is one of the four letters. */
  lemma HemisphereLetter(c: char, positive: string, negative: string)
    requires |positive| == 2 && |negative| == 2
    requires c in positive || c in negative
    ensures c in negative <==> c == negative[0] || c == negative[1]
    ensures c == positive[0] || c == positive[1] || c == negative[0] || c == negative[1]
  {
  }

  /** With well-formed texts the minimum parallel is the southernmost of the two. */
  lemma MinParallelSouthernmost(minParallel: string, parallelTxt: string)
    requires WellFormedBound(minParallel, 2, "Nn", "Ss") && WellFormedBound(parallelTxt, 2, "Nn", "Ss")
    ensures BoundValue(NextMinParallel(minParallel, parallelTxt), 2, "Ss") ==
            Min(BoundValue(minParallel, 2, "Ss"), BoundValue(parallelTxt, 2, "Ss"))
  {
    var a, b := parallelTxt[1..3], minParallel[1..3];
    assert Substr(parallelTxt, 1, 2) == a && Substr(minParallel, 1, 2) == b;
    HemisphereLetter(parallelTxt[0], "Nn", "Ss");
    HemisphereLetter(minParallel[0], "Nn", "Ss");
    CompareTwoDigits(a, b);
    DigitsNonNegative(a);
    DigitsNonNegative(b);
  }

  /** With well-formed texts the maximum parallel is the northernmost of the two. */
  lemma MaxParallelNorthernmost(maxParallel: string, parallelTxt: string)
    requires WellFormedBound(maxParallel, 2, "Nn", "Ss") && WellFormedBound(parallelTxt, 2, "Nn", "Ss")
    ensures BoundValue(NextMaxParallel(maxParallel, parallelTxt), 2, "Ss") ==
            Max(BoundValue(maxParallel, 2, "Ss"), BoundValue(parallelTxt, 2, "Ss"))
  {
    var a, b := parallelTxt[1..3], maxParallel[1..3];
    assert Substr(parallelTxt, 1, 2) == a && Substr(maxParallel, 1, 2) == b;
    HemisphereLetter(parallelTxt[0], "Nn", "Ss");
    HemisphereLetter(maxParallel[0], "Nn", "Ss");
    CompareTwoDigits(a, b);
    DigitsNonNegative(a);
    DigitsNonNegative(b);
  }

  /** With well-formed texts the minimum meridian is the westernmost of the two. */
  lemma MinMeridianWesternmost(minMeridian: string, meridianTxt: string)
    requires WellFormedBound(minMeridian, 3, "Ee", "Ww") && WellFormedBound(meridianTxt, 3, "Ee", "Ww")
    ensures BoundValue(NextMinMeridian(minMeridian, meridianTxt), 3, "Ww") ==
            Min(BoundValue(minMeridian, 3, "Ww"), BoundValue(meridianTxt, 3, "Ww"))
  {
    var a, b := meridianTxt[1..4], minMeridian[1..4];
    assert Substr(meridianTxt, 1, 3) == a && Substr(minMeridian, 1, 3) == b;
    HemisphereLetter(meridianTxt[0], "Ee", "Ww");
    HemisphereLetter(minMeridian[0], "Ee", "Ww");
    CompareThreeDigits(a, b);
    DigitsNonNegative(a);
    DigitsNonNegative(b);
  }

  /** With well-formed texts the maximum meridian is the easternmost of the two. */
  lemma MaxMeridianEasternmost(maxMeridian: string, meridianTxt: string)
    requires WellFormedBound(maxMeridian, 3, "Ee", "Ww") && WellFormedBound(meridianTxt, 3, "Ee", "Ww")
    ensures BoundValue(NextMaxMeridian(maxMeridian, meridianTxt), 3, "Ww") ==
            Max(BoundValue(maxMeridian, 3, "Ww"), BoundValue(meridianTxt, 3, "Ww"))
  {
    var a, b := meridianTxt[1..4], maxMeridian[1..4];
    assert Substr(meridianTxt, 1, 3) == a && Substr(maxMeridian, 1, 3) == b;
    HemisphereLetter(meridianTxt[0], "Ee", "Ww");
    HemisphereLetter(maxMeridian[0], "Ee", "Ww");
    CompareThreeDigits(a, b);
    DigitsNonNegative(a);
    DigitsNonNegative(b);
  }

  // The entry set.

  /** The first entry whose key equals that of key, the one Retrieve_Dted_Entry's scan stops at. */
  function Find(entries: seq<PathEntry>, key: PathEntry): (r: Option<nat>)
    ensures r.Some? ==> r.value < |entries| && Equal(entries[r.value], key) &&
                        forall j :: 0 <= j < r.value ==> !Equal(entries[j], key)
    ensures r.None? ==> forall j :: 0 <= j < |entries| ==> !Equal(entries[j], key)
  {
    if |entries| == 0 then None
    else if Equal(entries[0], key) then Some(0)
    else match Find(entries[1..], key)
      case None => None
      case Some(i) => Some(i + 1)
  }

  /** No two entries share a key. */
  predicate KeysUnique(entries: seq<PathEntry>) {
    forall i, j :: 0 <= i < j < |entries| ==> Key(entries[i]) != Key(entries[j])
  }

  /**
   * std::set::insert: the entry is added unless an entry with an equivalent
   * key, which for this comparator is an equal key, is already there; the
   * entries are kept in insertion order.
   */
  function Insert(entries: seq<PathEntry>, e: PathEntry): seq<PathEntry> {
    if Find(entries, e).Some? then entries else entries + [e]
  }

  /** Inserting keeps the keys unique, and afterwards the key is found, on the entry already held when there was one. */
  lemma InsertProperties(entries: seq<PathEntry>, e: PathEntry)
    requires KeysUnique(entries)
    ensures KeysUnique(Insert(entries, e))
    ensures Find(Insert(entries, e), e).Some?
    ensures Find(entries, e).Some? ==> Insert(entries, e) == entries
    ensures Find(entries, e).None? ==> Insert(entries, e) == entries + [e]
  {
    var r := Insert(entries, e);
    if Find(entries, e).None? {
      assert Equal(r[|entries|], e);
      assert Find(r, e).Some?;
    } else {
      assert Find(r, e).Some?;
    }
  }

  // The scan.

  /**
   * The directory's members during a scan. thrown: a std::out_of_range has
   * been thrown and is propagating out of every Populate_Directory call
   * still active, so nothing more is scanned; the members keep the values
   * they had when it was thrown.
   */
  datatype DirState = DirState(currPathMeridian: int, minMeridian: string, maxMeridian: string,
                               minParallel: string, maxParallel: string, entries: seq<PathEntry>,
                               thrown: bool)

  /** The four bounds are never empty and the keys are unique. */
  predicate Sound(st: DirState) {
    |st.minMeridian| >= 1 && |st.maxMeridian| >= 1 && |st.minParallel| >= 1 && |st.maxParallel| >= 1 &&
    KeysUnique(st.entries)
  }

  /** The bounds of an empty directory. */
  function InitialState(meridian: int): DirState {
    DirState(meridian, "E180", "W180", "N90", "S90", [], false)
  }

  /**
   * Whether the parallel update throws for a DTED file: a name starting
   * with '.' has an empty parallel text (see ParallelTextEmpty), and compare(1, 2, ...) on it throws
   * std::out_of_range; that compare is reached while the minimum parallel is
   * northern or the maximum parallel is southern.
   */
  predicate FileThrows(st: DirState, name: string) {
    |name| >= 1 && name[0] == '.' &&
    (Starts(st.minParallel, 'N') || Starts(st.minParallel, 'n') ||
     Starts(st.maxParallel, 'S') || Starts(st.maxParallel, 's'))
  }

  /**
   * A DTED file: both parallel bounds take its name's prefix, and its entry
   * is inserted; or std::out_of_range is thrown before anything changes.
   */
  function AddFile(st: DirState, searchName: string, name: string): (r: DirState)
    requires Sound(st) && |name| >= 1
    ensures Sound(r)
  {
    if FileThrows(st, name) then st.(thrown := true)
    else
      var parallelTxt := ParallelText(name);
      ParallelTextEmpty(name);
      var e := PathEntry(FileLatitude(name), st.currPathMeridian, searchName);
      InsertProperties(st.entries, e);
      st.(minParallel := NextMinParallel(st.minParallel, parallelTxt),
          maxParallel := NextMaxParallel(st.maxParallel, parallelTxt),
          entries := Insert(st.entries, e))
  }

  /**
   * A DTED file throws exactly when its name starts with '.' while a bound
   * still holds its far-hemisphere start; otherwise its entry, keyed by the
   * latitude read from the name and the current meridian, is inserted.
   */
  lemma AddFileEntries(st: DirState, searchName: string, name: string)
    requires Sound(st) && |name| >= 1
    ensures AddFile(st, searchName, name).thrown <==>
            st.thrown || (name[0] == '.' &&
                          (Starts(st.minParallel, 'N') || Starts(st.minParallel, 'n') ||
                           Starts(st.maxParallel, 'S') || Starts(st.maxParallel, 's')))
    ensures FileThrows(st, name) ==> AddFile(st, searchName, name) == st.(thrown := true)
    ensures !FileThrows(st, name) ==>
              AddFile(st, searchName, name).entries ==
              Insert(st.entries, PathEntry(FileLatitude(name), st.currPathMeridian, searchName))
  {
  }

  /**
   * A name starting with '.' is accepted once neither bound holds its
   * far-hemisphere start: both parallel bounds are kept and the entry is
   * inserted at the latitude atoi reads after the '.'.
   */
  lemma DotFileAccepted(st: DirState, searchName: string, name: string)
    requires Sound(st) && |name| >= 1 && name[0] == '.'
    requires !(Starts(st.minParallel, 'N') || Starts(st.minParallel, 'n'))
    requires !(Starts(st.maxParallel, 'S') || Starts(st.maxParallel, 's'))
    ensures var r := AddFile(st, searchName, name);
            r.thrown == st.thrown && r.minParallel == st.minParallel && r.maxParallel == st.maxParallel &&
            r.entries == Insert(st.entries, PathEntry(FileLatitude(name), st.currPathMeridian, searchName))
  {
    ParallelTextEmpty(name);
  }

  /** The name "._n35.dt1", which macOS writes beside "n35.dt1", is keyed at latitude atoi("_n35") == 0. */
  lemma DotFileLatitude()
    ensures FileLatitude("._n35.dt1") == 0
  {
    var name := "._n35.dt1";
    assert name[1] == '_';
    NonNumericLatitude(name);
  }

  /** A name whose second character starts no number, as '_' does not, is keyed at latitude 0. */
  lemma NonNumericLatitude(name: string)
    requires |name| >= 2 && name[1] != '.' && !IsSpace(name[1]) && !IsDigit(name[1])
    requires name[1] != '-' && name[1] != '+'
    ensures FileLatitude(name) == 0
  {
    var t := LatitudeText(name);
    assert name[1..][0] == name[1];
    assert |t| >= 1 && t[0] == name[1];
    assert SkipSpaces(t) == t;
    assert LeadingDigits(t) == [];
    assert Atoi(t) == 0;
  }

  /** The same name in a fresh directory throws, and the scan stops there. */
  lemma DotFileThrowsAtStart(meridian: int, searchName: string)
    ensures AddFile(InitialState(meridian), searchName, "._n35.dt1") == InitialState(meridian).(thrown := true)
  {
  }

  /** A meridian directory: both meridian bounds take its name, and its value is the current meridian. */
  function EnterMeridian(st: DirState, name: string): (r: DirState)
    requires Sound(st) && IsMeridianName(name)
    ensures Sound(r)
  {
    st.(minMeridian := NextMinMeridian(st.minMeridian, name),
        maxMeridian := NextMaxMeridian(st.maxMeridian, name),
        currPathMeridian := DirectoryMeridian(name))
  }

  /** Populate_Directory on a path whose listing is l: an unreadable directory changes nothing. */
  function ScanListing(st: DirState, pathName: string, l: Listing): (r: DirState)
    requires Sound(st)
    ensures Sound(r)
    decreases ListingSize(l), 2
  {
    match l
    case Unreadable => st
    case Listing(es) => ScanList(st, pathName, es)
  }

  /** The entries of a listing in readdir order, until an exception is thrown. */
  function ScanList(st: DirState, pathName: string, es: seq<Entry>): (r: DirState)
    requires Sound(st)
    ensures Sound(r)
    decreases ListSize(es), 1
  {
    if es == [] || st.thrown then st else ScanList(ScanEntry(st, pathName, es[0]), pathName, es[1..])
  }

  /** One step of the scan from position i: the entry there, then the rest unless it threw. */
  lemma ScanListStep(st: DirState, pathName: string, es: seq<Entry>, i: nat)
    requires Sound(st) && !st.thrown && i < |es|
    ensures var r := ScanEntry(st, pathName, es[i]);
            ScanList(st, pathName, es[i..]) == if r.thrown then r else ScanList(r, pathName, es[i + 1..])
  {
    assert es[i..][0] == es[i] && es[i..][1..] == es[i + 1..];
  }

  /**
   * One entry: a DTED file is added with the search name pathName + "/" +
   * name as its path; a directory other than "." and ".." first updates the
   * meridian if its name is one, then is scanned under that search name.
   */
  function ScanEntry(st: DirState, pathName: string, e: Entry): (r: DirState)
    requires Sound(st)
    ensures Sound(r)
    decreases EntrySize(e), 0
  {
    match e
    case FileEntry(name) =>
      if IsDtedFile(name) then DtedFileLength(name); AddFile(st, pathName + "/" + name, name) else st
    case DirEntry(name, listing) =>
      if name == "." || name == ".." then st
      else
        var st1 := if IsMeridianName(name) then EnterMeridian(st, name) else st;
        ScanListing(st1, pathName + "/" + name, listing)
  }

  /** The scan only adds entries: every entry held before is still there. */
  lemma {:induction false} ScanListKeepsEntries(st: DirState, pathName: string, es: seq<Entry>)
    requires Sound(st)
    ensures st.entries <= ScanList(st, pathName, es).entries
    decreases ListSize(es), 1
  {
    if es != [] {
      ScanEntryKeepsEntries(st, pathName, es[0]);
      ScanListKeepsEntries(ScanEntry(st, pathName, es[0]), pathName, es[1..]);
    }
  }

  lemma {:induction false} ScanEntryKeepsEntries(st: DirState, pathName: string, e: Entry)
    requires Sound(st)
    ensures st.entries <= ScanEntry(st, pathName, e).entries
    decreases EntrySize(e), 0
  {
    match e
    case FileEntry(name) =>
      FileEntryKeepsEntries(st, pathName, name);
    case DirEntry(name, listing) =>
      if name != "." && name != ".." {
        var st1 := if IsMeridianName(name) then EnterMeridian(st, name) else st;
        if listing.Listing? {
          assert EntrySize(e) == 1 + ListSize(listing.entries);
          ScanListKeepsEntries(st1, pathName + "/" + name, listing.entries);
        }
      }
  }

  /** A file entry adds at most its own entry, in place of none of those held. */
  lemma FileEntryKeepsEntries(st: DirState, pathName: string, name: string)
    requires Sound(st)
    ensures st.entries <= ScanEntry(st, pathName, FileEntry(name)).entries
  {
    if IsDtedFile(name) {
      DtedFileLength(name);
      AddFileEntries(st, pathName + "/" + name, name);
    }
  }

  /** A direct entry of a listing that is a meridian directory scanned by the loop. */
  predicate NoMeridianList(es: seq<Entry>)
    decreases ListSize(es), 1
  {
    es == [] || (NoMeridianEntry(es[0]) && NoMeridianList(es[1..]))
  }

  /** No directory below sets the meridian. */
  predicate NoMeridianEntry(e: Entry)
    decreases EntrySize(e), 0
  {
    match e
    case FileEntry(_) => true
    case DirEntry(name, listing) =>
      name == "." || name == ".." ||
      (!IsMeridianName(name) && NoMeridianListing(listing))
  }

  predicate NoMeridianListing(l: Listing)
    decreases ListingSize(l), 2
  {
    l.Listing? ==> NoMeridianList(l.entries)
  }

  /** Without meridian directories below, a scan leaves the current meridian as it was. */
  lemma {:induction false} ScanListKeepsMeridian(st: DirState, pathName: string, es: seq<Entry>)
    requires Sound(st) && NoMeridianList(es)
    ensures ScanList(st, pathName, es).currPathMeridian == st.currPathMeridian
    decreases ListSize(es), 1
  {
    if es != [] {
      ScanEntryKeepsMeridian(st, pathName, es[0]);
      ScanListKeepsMeridian(ScanEntry(st, pathName, es[0]), pathName, es[1..]);
    }
  }

  lemma {:induction false} ScanEntryKeepsMeridian(st: DirState, pathName: string, e: Entry)
    requires Sound(st) && NoMeridianEntry(e)
    ensures ScanEntry(st, pathName, e).currPathMeridian == st.currPathMeridian
    decreases EntrySize(e), 0
  {
    match e
    case FileEntry(name) =>
    case DirEntry(name, listing) =>
      if name != "." && name != ".." && listing.Listing? {
        assert EntrySize(e) == 1 + ListSize(listing.entries);
        ScanListKeepsMeridian(st, pathName + "/" + name, listing.entries);
      }
  }

  /**
   * The current meridian is not restored when the scan of a meridian
   * directory returns: after a directory such as W005 with no meridian
   * directory below it, the meridian is that of W005, whatever it was
   * before, and files listed after it are entered with it.
   */
  lemma MeridianNotRestored(st: DirState, pathName: string, name: string, listing: Listing)
    requires Sound(st) && IsMeridianName(name) && name != "." && name != ".."
    requires NoMeridianListing(listing)
    ensures ScanEntry(st, pathName, DirEntry(name, listing)).currPathMeridian == DirectoryMeridian(name)
  {
    if listing.Listing? {
      ScanListKeepsMeridian(EnterMeridian(st, name), pathName + "/" + name, listing.entries);
    }
  }

  /** From position from on, every entry's path starts with prefix. */
  predicate PathsUnder(entries: seq<PathEntry>, from: nat, prefix: string) {
    forall k :: from <= k < |entries| ==> prefix <= entries[k].cellPath
  }

  /** Every entry the scan of pathName adds has a path under pathName + "/". */
  lemma {:induction false} ScanListPaths(st: DirState, pathName: string, es: seq<Entry>)
    requires Sound(st)
    ensures PathsUnder(ScanList(st, pathName, es).entries, |st.entries|, pathName + "/")
    decreases ListSize(es), 1
  {
    if es != [] {
      var st1 := ScanEntry(st, pathName, es[0]);
      ScanEntryPaths(st, pathName, es[0]);
      ScanEntryKeepsEntries(st, pathName, es[0]);
      ScanListPaths(st1, pathName, es[1..]);
      ScanListKeepsEntries(st1, pathName, es[1..]);
    }
  }

  lemma {:induction false} ScanEntryPaths(st: DirState, pathName: string, e: Entry)
    requires Sound(st)
    ensures PathsUnder(ScanEntry(st, pathName, e).entries, |st.entries|, pathName + "/")
    decreases EntrySize(e), 0
  {
    match e
    case FileEntry(name) =>
      FileEntryPaths(st, pathName, name);
    case DirEntry(name, listing) =>
      if name != "." && name != ".." && listing.Listing? {
        var st1 := if IsMeridianName(name) then EnterMeridian(st, name) else st;
        var sub := pathName + "/" + name;
        assert EntrySize(e) == 1 + ListSize(listing.entries);
        ScanListPaths(st1, sub, listing.entries);
        assert (pathName + "/") <= sub + "/";
      }
  }

  /** A file entry adds at most one entry, whose path is pathName + "/" + name. */
  lemma FileEntryPaths(st: DirState, pathName: string, name: string)
    requires Sound(st)
    ensures PathsUnder(ScanEntry(st, pathName, FileEntry(name)).entries, |st.entries|, pathName + "/")
  {
    if IsDtedFile(name) {
      DtedFileLength(name);
      var searchName := pathName + "/" + name;
      var added := PathEntry(FileLatitude(name), st.currPathMeridian, searchName);
      AddFileEntries(st, searchName, name);
      InsertProperties(st.entries, added);
    }
  }

  /**
   * The starting bounds are well formed and stand for the far ends of the
   * opposite hemispheres: the minimum parallel 90 degrees north, the maximum
   * 90 south, the minimum meridian 180 east and the maximum 180 west, so the
   * first tile seen replaces each of them.
   */
  lemma InitialBounds(meridian: int)
    ensures var st := InitialState(meridian);
            WellFormedBound(st.minParallel, 2, "Nn", "Ss") && BoundValue(st.minParallel, 2, "Ss") == 90 &&
            WellFormedBound(st.maxParallel, 2, "Nn", "Ss") && BoundValue(st.maxParallel, 2, "Ss") == -90 &&
            WellFormedBound(st.minMeridian, 3, "Ee", "Ww") && BoundValue(st.minMeridian, 3, "Ww") == 180 &&
            WellFormedBound(st.maxMeridian, 3, "Ee", "Ww") && BoundValue(st.maxMeridian, 3, "Ww") == -180
  {
    TwoDigitsValue("90");
    ThreeDigitsValue("180");
    assert "N90"[1..3] == "90" && "S90"[1..3] == "90";
    assert "E180"[1..4] == "180" && "W180"[1..4] == "180";
  }

  class DtedDirectory {
    /** The meridian of the last meridian directory entered. */
    var currPathMeridian: int
    var minMeridian: string
    var maxMeridian: string
    var minParallel: string
    var maxParallel: string
    /** pathEntrySet: the entries, deduplicated by key, in insertion order. */
    var pathEntrySet: seq<PathEntry>
    /** querytIt: the position of the query iterator in the entries. */
    var queryPos: nat

    /** The members as a scan state; outside a scan no exception is propagating. */
    function State(): DirState
      reads this
    {
      DirState(currPathMeridian, minMeridian, maxMeridian, minParallel, maxParallel, pathEntrySet, false)
    }

    ghost predicate Valid()
      reads this
    {
      Sound(State())
    }

    /**
     * Dted_Directory(): the four bounds start at E180, W180, N90 and S90.
     * The current meridian and the query iterator are left uninitialised by
     * the constructor; here they are a parameter and the start.
     */
    constructor(meridian: int)
      ensures Valid() && State() == InitialState(meridian) && queryPos == 0
    {
      currPathMeridian := meridian;
      minMeridian, maxMeridian, minParallel, maxParallel := "E180", "W180", "N90", "S90";
      pathEntrySet := [];
      queryPos := 0;
    }

    /**
     * Populate_Directory(pathName) on the directory whose listing is given.
     * Found is assigned only from the recursive calls, which start from
     * false, so the result is always false. thrown: a std::out_of_range
     * escapes the call, leaving the members as they were when it was thrown.
     */
    method PopulateDirectory(pathName: string, listing: Listing) returns (found: bool, thrown: bool)
      requires Valid()
      modifies this`currPathMeridian, this`minMeridian, this`maxMeridian, this`minParallel,
               this`maxParallel, this`pathEntrySet
      ensures Valid() && !found
      ensures thrown == ScanListing(old(State()), pathName, listing).thrown
      ensures State() == ScanListing(old(State()), pathName, listing).(thrown := false)
      decreases ListingSize(listing), 2
    {
      if listing.Unreadable? {
        return false, false;
      }
      var es := listing.entries;
      found, thrown := false, false;
      var searchName := pathName;
      var i := 0;
      while i < |es|
        invariant 0 <= i <= |es| && !found && !thrown && searchName == pathName
        invariant Valid()
        invariant ScanList(State(), pathName, es[i..]) == ScanList(old(State()), pathName, es)
      {
        var e := es[i];
        EntryWithinList(es, i);
        var fileName := "/" + e.name;
        searchName := searchName + fileName;
        ghost var st0 := State();
        ScanListStep(st0, pathName, es, i);
        found, thrown := VisitEntry(pathName, searchName, e);
        ghost var r := ScanEntry(st0, pathName, e);
        if thrown {
          assert State() == r.(thrown := false);
          return;
        }
        assert State() == r;
        RemoveAppended(pathName, fileName);
        searchName := searchName[..RFind(searchName, fileName)];
        i := i + 1;
      }
      assert es[i..] == [];
    }

    /**
     * The body of Populate_Directory's loop for one entry, whose search name
     * is the path followed by "/" and the entry's name.
     */
    method VisitEntry(pathName: string, searchName: string, e: Entry) returns (found: bool, thrown: bool)
      requires Valid() && searchName == pathName + "/" + e.name
      modifies this`currPathMeridian, this`minMeridian, this`maxMeridian, this`minParallel,
               this`maxParallel, this`pathEntrySet
      ensures Valid() && !found
      ensures thrown == ScanEntry(old(State()), pathName, e).thrown
      ensures State() == ScanEntry(old(State()), pathName, e).(thrown := false)
      decreases EntrySize(e), 1
    {
      match e {
        case FileEntry(name) =>
          found := false;
          thrown := VisitFile(pathName, searchName, name);
        case DirEntry(name, sub) =>
          found, thrown := VisitDirectory(pathName, searchName, name, sub);
      }
    }

    /** A file entry: a DTED file is added, anything else is passed over. */
    method VisitFile(pathName: string, searchName: string, name: string) returns (thrown: bool)
      requires Valid() && searchName == pathName + "/" + name
      modifies this`minParallel, this`maxParallel, this`pathEntrySet
      ensures Valid() && thrown == ScanEntry(old(State()), pathName, FileEntry(name)).thrown
      ensures State() == ScanEntry(old(State()), pathName, FileEntry(name)).(thrown := false)
    {
      thrown := false;
      if IsDtedFile(name) {
        DtedFileLength(name);
        thrown := AddDtedFile(name, searchName);
      }
    }

    /**
     * A directory entry other than "." and "..": a meridian directory first
     * sets the meridian, then the directory is scanned under its search name.
     */
    method VisitDirectory(pathName: string, searchName: string, name: string, sub: Listing)
      returns (found: bool, thrown: bool)
      requires Valid() && searchName == pathName + "/" + name
      modifies this`currPathMeridian, this`minMeridian, this`maxMeridian, this`minParallel,
               this`maxParallel, this`pathEntrySet
      ensures Valid() && !found
      ensures thrown == ScanEntry(old(State()), pathName, DirEntry(name, sub)).thrown
      ensures State() == ScanEntry(old(State()), pathName, DirEntry(name, sub)).(thrown := false)
      decreases EntrySize(DirEntry(name, sub)), 0
    {
      found, thrown := false, false;
      if name != "." && name != ".." {
        ghost var st0 := State();
        if IsMeridianName(name) {
          EnterMeridianDirectory(name);
        }
        assert State() == if IsMeridianName(name) then EnterMeridian(st0, name) else st0;
        found, thrown := PopulateDirectory(searchName, sub);
      }
    }

    /** The meridian branch of Populate_Directory: both meridian bounds and the current meridian. */
    method EnterMeridianDirectory(name: string)
      requires Valid() && IsMeridianName(name)
      modifies this`currPathMeridian, this`minMeridian, this`maxMeridian
      ensures Valid() && State() == EnterMeridian(old(State()), name)
    {
      minMeridian := NextMinMeridian(minMeridian, name);
      maxMeridian := NextMaxMeridian(maxMeridian, name);
      currPathMeridian := DirectoryMeridian(name);
    }

    /**
     * The file branch of Populate_Directory: the bounds, the latitude read
     * from the name, the insertion; thrown when compare(1, 2, ...) throws.
     */
    method AddDtedFile(name: string, searchName: string) returns (thrown: bool)
      requires Valid() && |name| >= 1
      modifies this`minParallel, this`maxParallel, this`pathEntrySet
      ensures Valid() && thrown == AddFile(old(State()), searchName, name).thrown
      ensures State() == AddFile(old(State()), searchName, name).(thrown := false)
    {
      ghost var st := State();
      ghost var r := AddFile(st, searchName, name);
      var newMin, newMax, newEntries, t :=
        FileBranch(minParallel, maxParallel, pathEntrySet, currPathMeridian, name, searchName, st);
      minParallel, maxParallel, pathEntrySet, thrown := newMin, newMax, newEntries, t;
      assert State() == DirState(st.currPathMeridian, st.minMeridian, st.maxMeridian, newMin, newMax, newEntries, false);
      assert State() == r.(thrown := false);
      assert Sound(r);
    }

    /**
     * Retrieve_Dted_Entry: the entries are scanned in order for one equal
     * to the argument; the first found is copied out, otherwise the
     * argument comes back unchanged.
     */
    method RetrieveDtedEntry(entry: PathEntry) returns (found: bool, result: PathEntry)
      ensures found <==> Find(pathEntrySet, entry).Some?
      ensures found ==> result == pathEntrySet[Find(pathEntrySet, entry).value] && Equal(result, entry)
      ensures !found ==> result == entry
    {
      var k := 0;
      while k < |pathEntrySet|
        invariant 0 <= k <= |pathEntrySet|
        invariant forall j :: 0 <= j < k ==> !Equal(pathEntrySet[j], entry)
      {
        if Equal(pathEntrySet[k], entry) {
          return true, pathEntrySet[k];
        }
        k := k + 1;
      }
      return false, entry;
    }

    /** QueryReset: the iterator goes back to the first entry. */
    method QueryReset()
      modifies this`queryPos
      ensures queryPos == 0
    {
      queryPos := 0;
    }

    /** Query: the entry at the iterator, which then advances; false at the end, the argument unchanged. */
    method Query(entry: PathEntry) returns (found: bool, result: PathEntry)
      modifies this`queryPos
      ensures found <==> old(queryPos) < |pathEntrySet|
      ensures found ==> result == pathEntrySet[old(queryPos)] && queryPos == old(queryPos) + 1
      ensures !found ==> result == entry && queryPos == old(queryPos)
    {
      if queryPos >= |pathEntrySet| {
        return false, entry;
      }
      result := pathEntrySet[queryPos];
      queryPos := queryPos + 1;
      found := true;
    }

    /** Clear_Dted_Directory: the four bounds back to their sentinels and no entries; the meridian stays. */
    method ClearDtedDirectory()
      modifies this`minMeridian, this`maxMeridian, this`minParallel, this`maxParallel, this`pathEntrySet
      ensures Valid() && State() == InitialState(currPathMeridian)
    {
      minMeridian, maxMeridian, minParallel, maxParallel := "E180", "W180", "N90", "S90";
      pathEntrySet := [];
    }
  }

  /**
   * The statements of the file branch of Populate_Directory: the parallel
   * bounds, the latitude read from the name, the insertion of the entry.
   */
  method FileBranch(minParallel0: string, maxParallel0: string, entries0: seq<PathEntry>, meridian: int,
                    name: string, searchName: string, ghost st: DirState)
    returns (minParallel: string, maxParallel: string, entries: seq<PathEntry>, thrown: bool)
    requires st == DirState(meridian, st.minMeridian, st.maxMeridian, minParallel0, maxParallel0, entries0, false)
    requires Sound(st) && |name| >= 1
    ensures AddFile(st, searchName, name) ==
            st.(minParallel := minParallel, maxParallel := maxParallel, entries := entries, thrown := thrown)
  {
    minParallel, maxParallel, entries, thrown := minParallel0, maxParallel0, entries0, false;
    var parallelTxt := name[..FirstIndexOf(name, '.')];
    assert parallelTxt == ParallelText(name);
    ParallelTextEmpty(name);
    if |parallelTxt| == 0 && (Starts(minParallel0, 'N') || Starts(minParallel0, 'n')) {
      // compare(1, 2, ...) on the empty text throws std::out_of_range.
      return minParallel0, maxParallel0, entries0, true;
    }
    minParallel := NextMinParallel(minParallel0, parallelTxt);
    if |parallelTxt| == 0 && (Starts(maxParallel0, 'S') || Starts(maxParallel0, 's')) {
      return minParallel0, maxParallel0, entries0, true;
    }
    maxParallel := NextMaxParallel(maxParallel0, parallelTxt);
    var latitudeTxt := ReadLatitudeText(name);
    var latitude := Wrap16(Atoi(latitudeTxt));
    if name[0] == 'S' || name[0] == 's' {
      latitude := Wrap16(latitude * -1);
    }
    assert latitude == FileLatitude(name);
    var pathEntry := PathEntry(latitude, meridian, searchName);
    entries := Insert(entries0, pathEntry);
  }

  /**
   * The loop of Populate_Directory that collects the latitude digits: the
   * characters of the name from the second up to the first '.'.
   */
  method ReadLatitudeText(name: string) returns (latitudeTxt: string)
    requires |name| >= 1
    ensures latitudeTxt == LatitudeText(name)
  {
    latitudeTxt := "";
    var n := 1;
    while n < |name| && name[n] != '.'
      invariant 1 <= n <= |name| && latitudeTxt == name[1..n]
      invariant '.' !in name[1..n]
    {
      latitudeTxt := latitudeTxt + [name[n]];
      n := n + 1;
    }
    LatitudeTextEnds(name, n);
  }

  lemma LatitudeTextEnds(name: string, n: nat)
    requires 1 <= n <= |name| && '.' !in name[1..n] && (n == |name| || name[n] == '.')
    ensures name[1..n] == LatitudeText(name)
  {
    FirstIndexAt(name[1..], '.', n - 1);
  }

  /** The first '.' is at i when none comes before it and it is one or the text ends there. */
  lemma {:induction false} FirstIndexAt(s: string, c: char, i: nat)
    requires i <= |s| && c !in s[..i] && (i == |s| || s[i] == c)
    ensures FirstIndexOf(s, c) == i
    decreases i
  {
    if i > 0 {
      assert s[0] == s[..i][0];
      assert s[1..][..i - 1] == s[..i][1..];
      FirstIndexAt(s[1..], c, i - 1);
    }
  }
}
