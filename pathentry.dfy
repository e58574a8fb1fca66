/**
 * Dted_Cell_Path_Entry: the key of a tile in a directory, its south-west
 * corner in whole degrees, together with the path of the tile's file. The
 * two comparison operators look only at the key.
 */
module DtedPathEntry {

  /** latitude and longitude are shorts; cellPath is the file's path. */
  datatype PathEntry = PathEntry(latitude: int, longitude: int, cellPath: string)

  /** The key of an entry: what both operators compare. */
  function Key(e: PathEntry): (int, int) {
    (e.latitude, e.longitude)
  }

  /**
   * operator<: true when this latitude is smaller; the test that should
   * return false for a larger latitude repeats the first test with its
   * operands exchanged, so every other case falls through to the longitude
   * comparison. The result is therefore "smaller latitude or smaller
   * longitude".
   */
  function Less(a: PathEntry, b: PathEntry): (r: bool)
    ensures r <==> a.latitude < b.latitude || a.longitude < b.longitude
  {
    if a.latitude < b.latitude then true
    else if b.latitude > a.latitude then false
    else a.longitude < b.longitude
  }

  /** operator==: both key components agree; the path is not compared. */
  function Equal(a: PathEntry, b: PathEntry): (r: bool)
    ensures r <==> Key(a) == Key(b)
  {
    a.latitude == b.latitude && a.longitude == b.longitude
  }

  /** The early "return false" for a larger latitude can never be taken. */
  lemma SecondTestUnreachable(a: PathEntry, b: PathEntry)
    ensures !(a.latitude < b.latitude) ==> !(b.latitude > a.latitude)
  {
  }

  /** A smaller latitude always orders first. */
  lemma LessBySmallerLatitude(a: PathEntry, b: PathEntry)
    requires a.latitude < b.latitude
    ensures Less(a, b)
  {
  }

  /** With equal latitudes the order is that of the longitudes. */
  lemma LessOnEqualLatitude(a: PathEntry, b: PathEntry)
    requires a.latitude == b.latitude
    ensures Less(a, b) <==> a.longitude < b.longitude
  {
  }

  /** No entry is less than itself. */
  lemma LessIrreflexive(a: PathEntry)
    ensures !Less(a, a)
  {
  }

  /**
   * The comparator is not a strict weak order: it is not asymmetric, since
   * (2, 0) and (1, 5) are each less than the other.
   */
  lemma LessNotAsymmetric()
    ensures var a, b := PathEntry(2, 0, ""), PathEntry(1, 5, "");
            Less(a, b) && Less(b, a)
  {
  }

  /** The lexicographic order on (latitude, longitude) that the operator was evidently meant to be. */
  function LexLess(a: PathEntry, b: PathEntry): bool {
    a.latitude < b.latitude || (a.latitude == b.latitude && a.longitude < b.longitude)
  }

  /**
   * The operator agrees with the lexicographic order whenever the first
   * latitude is not the larger one, and it orders everything the
   * lexicographic order orders.
   */
  lemma LessAgreesBelow(a: PathEntry, b: PathEntry)
    ensures a.latitude <= b.latitude ==> (Less(a, b) <==> LexLess(a, b))
    ensures LexLess(a, b) ==> Less(a, b)
  {
  }

  /**
   * Two entries neither of which is less than the other are those that
   * compare equal: the set's notion of equivalence coincides with
   * operator== despite the broken order.
   */
  lemma IncomparableIffEqual(a: PathEntry, b: PathEntry)
    ensures !Less(a, b) && !Less(b, a) <==> Equal(a, b)
  {
  }
}
