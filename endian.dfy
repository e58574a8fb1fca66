/**
 * Endian.cpp: the host byte-order probe and the byte swap routines. Memory
 * is a byte array; a swapped value occupies `width` consecutive bytes of it
 * starting at `at`. The array routines view the bytes as host-order
 * unsigned shorts or unsigned ints, as the C++ reinterpret_cast does, so
 * their effect on the bytes is proved for either host byte order.
 */
module Endian {
  import opened DtedCommon

  /** The C++ types the swap overloads accept (LP64: long is 8 bytes). */
  datatype CType = Short | UShort | Int | UInt | Long | ULong | Float | Double

  function SizeOf(t: CType): nat {
    match t
    case Short | UShort => 2
    case Int | UInt | Float => 4
    case Long | ULong | Double => 8
  }

  /**
   * The bytes s[p..p+w] reversed in place by exchanging the outermost pair
   * and then reversing what lies between; a group that does not fit
   * leaves s as it is.
   */
  function ReverseAt(s: seq<bv8>, p: nat, w: nat): (r: seq<bv8>)
    ensures |r| == |s|
    decreases w
  {
    if w < 2 || p + w > |s| then s
    else ReverseAt(s[p := s[p + w - 1]][p + w - 1 := s[p]], p + 1, w - 2)
  }

  /** ReverseAt mirrors the group and leaves every other byte alone. */
  lemma {:induction false} ReverseAtIndex(s: seq<bv8>, p: nat, w: nat)
    requires p + w <= |s|
    ensures forall k :: 0 <= k < |s| && !(p <= k < p + w) ==> ReverseAt(s, p, w)[k] == s[k]
    ensures forall k :: p <= k < p + w ==> ReverseAt(s, p, w)[k] == s[2 * p + w - 1 - k]
    decreases w
  {
    if w >= 2 {
      var t := s[p := s[p + w - 1]][p + w - 1 := s[p]];
      ReverseAtIndex(t, p + 1, w - 2);
    }
  }

  /**
   * count consecutive w-byte groups starting at `at`, each reversed in
   * place, the first group first.
   */
  function ReverseGroups(s: seq<bv8>, at: nat, w: nat, count: nat): (r: seq<bv8>)
    ensures |r| == |s|
    decreases count
  {
    if count == 0 then s else ReverseGroups(ReverseAt(s, at, w), at + w, w, count - 1)
  }

  /** The first of n > 0 groups is reversed before the others. */
  lemma ReverseGroupsStep(s: seq<bv8>, p: nat, w: nat, n: nat)
    requires n > 0
    ensures ReverseGroups(s, p, w, n) == ReverseGroups(ReverseAt(s, p, w), p + w, w, n - 1)
  {
  }

  /** Reversing a group twice restores it. */
  lemma ReverseAtInvolution(s: seq<bv8>, p: nat, w: nat)
    ensures ReverseAt(ReverseAt(s, p, w), p, w) == s
  {
    if p + w <= |s| {
      var t := ReverseAt(ReverseAt(s, p, w), p, w);
      ReverseAtIndex(s, p, w);
      ReverseAtIndex(ReverseAt(s, p, w), p, w);
      assert forall k :: 0 <= k < |s| ==> t[k] == s[k];
    }
  }

  /** Reversals of two disjoint groups commute. */
  lemma ReverseAtCommute(s: seq<bv8>, p: nat, q: nat, w: nat)
    requires q + w <= p
    ensures ReverseAt(ReverseAt(s, p, w), q, w) == ReverseAt(ReverseAt(s, q, w), p, w)
  {
    if p + w <= |s| {
      var a := ReverseAt(ReverseAt(s, p, w), q, w);
      var b := ReverseAt(ReverseAt(s, q, w), p, w);
      ReverseAtIndex(s, p, w);
      ReverseAtIndex(s, q, w);
      ReverseAtIndex(ReverseAt(s, p, w), q, w);
      ReverseAtIndex(ReverseAt(s, q, w), p, w);
      assert forall k :: 0 <= k < |s| ==> a[k] == b[k];
    }
  }

  /** Reversing a group before the first of the groups commutes with reversing the groups. */
  lemma {:induction false} ReverseGroupsCommute(s: seq<bv8>, at: nat, w: nat, n: nat, p: nat)
    requires p + w <= at
    ensures ReverseGroups(ReverseAt(s, p, w), at, w, n) == ReverseAt(ReverseGroups(s, at, w, n), p, w)
    decreases n
  {
    if n > 0 {
      calc {
        ReverseGroups(ReverseAt(s, p, w), at, w, n);
        ReverseGroups(ReverseAt(ReverseAt(s, p, w), at, w), at + w, w, n - 1);
        { ReverseAtCommute(s, at, p, w); }
        ReverseGroups(ReverseAt(ReverseAt(s, at, w), p, w), at + w, w, n - 1);
        { ReverseGroupsCommute(ReverseAt(s, at, w), at + w, w, n - 1, p); }
        ReverseAt(ReverseGroups(s, at, w, n), p, w);
      }
    }
  }

  /** Swapping the same groups twice restores the buffer: every swap routine is its own inverse. */
  lemma {:induction false} ReverseGroupsInvolution(s: seq<bv8>, at: nat, w: nat, count: nat)
    ensures ReverseGroups(ReverseGroups(s, at, w, count), at, w, count) == s
    decreases count
  {
    if count > 0 {
      var t := ReverseAt(s, at, w);
      var x := ReverseGroups(t, at + w, w, count - 1);
      calc {
        ReverseGroups(ReverseGroups(s, at, w, count), at, w, count);
        ReverseGroups(ReverseAt(x, at, w), at + w, w, count - 1);
        { ReverseGroupsCommute(t, at + w, w, count - 1, at); }
        ReverseGroups(ReverseGroups(ReverseAt(t, at, w), at + w, w, count - 1), at + w, w, count - 1);
        { ReverseAtInvolution(s, at, w); }
        ReverseGroups(ReverseGroups(s, at + w, w, count - 1), at + w, w, count - 1);
        { ReverseGroupsInvolution(s, at + w, w, count - 1); }
        s;
      }
    }
  }

  /** Where the g-th of the w-byte groups starting at `at` begins: at + g * w. */
  function GroupStart(at: nat, w: nat, g: nat): (p: nat)
    ensures p >= at
  {
    if g == 0 then at else GroupStart(at, w, g - 1) + w
  }

  /** The g-th group from `at` is the (g-1)-th group from the next one. */
  lemma {:induction false} GroupStartShift(at: nat, w: nat, g: nat)
    requires g > 0
    ensures GroupStart(at, w, g) == GroupStart(at + w, w, g - 1)
    decreases g
  {
    if g > 1 {
      GroupStartShift(at, w, g - 1);
    }
  }

  /** GroupStart is the start of the g-th group: at + g * w. */
  lemma {:induction false} GroupStartIsOffset(at: nat, w: nat, g: nat)
    ensures GroupStart(at, w, g) == at + g * w
    decreases g
  {
    if g > 0 {
      GroupStartIsOffset(at, w, g - 1);
      assert (g - 1) * w + w == g * w;
    }
  }

  /** ReverseGroups leaves every byte outside its count groups alone. */
  lemma {:induction false} ReverseGroupsOutside(s: seq<bv8>, at: nat, w: nat, count: nat, k: nat)
    requires k < |s| && !(at <= k < GroupStart(at, w, count))
    ensures ReverseGroups(s, at, w, count)[k] == s[k]
    decreases count
  {
    if count > 0 {
      var t := ReverseAt(s, at, w);
      GroupStartShift(at, w, count);
      ReverseGroupsOutside(t, at + w, w, count - 1, k);
      if at + w <= |s| {
        ReverseAtIndex(s, at, w);
      }
    }
  }

  /** ReverseGroups mirrors the bytes of each of its count groups. */
  lemma {:induction false} ReverseGroupsInside(s: seq<bv8>, at: nat, w: nat, count: nat, g: nat, k: nat)
    requires g < count && GroupStart(at, w, g) + w <= |s|
    requires GroupStart(at, w, g) <= k < GroupStart(at, w, g) + w
    ensures ReverseGroups(s, at, w, count)[k] == s[2 * GroupStart(at, w, g) + w - 1 - k]
    decreases count
  {
    var t := ReverseAt(s, at, w);
    if g > 0 {
      GroupStartShift(at, w, g);
    }
    ReverseAtIndex(s, at, w);
    if g == 0 {
      ReverseGroupsOutside(t, at + w, w, count - 1, k);
    } else {
      ReverseGroupsInside(t, at + w, w, count - 1, g - 1, k);
    }
  }

  /** A host-order load of an unsigned short from two memory bytes. */
  function Load16(b0: bv8, b1: bv8, littleEndian: bool): bv16 {
    if littleEndian then ((b1 as bv16) << 8) | (b0 as bv16) else ((b0 as bv16) << 8) | (b1 as bv16)
  }

  /** The two memory bytes of an unsigned short stored in host order. */
  function Store16(x: bv16, littleEndian: bool): (bytes: seq<bv8>)
    ensures |bytes| == 2
  {
    var lo := (x & 0xFF) as bv8;
    var hi := (x >> 8) as bv8;
    if littleEndian then [lo, hi] else [hi, lo]
  }

  /** A host-order load of an unsigned int from four memory bytes. */
  function Load32(b0: bv8, b1: bv8, b2: bv8, b3: bv8, littleEndian: bool): bv32 {
    if littleEndian then
      ((b3 as bv32) << 24) | ((b2 as bv32) << 16) | ((b1 as bv32) << 8) | (b0 as bv32)
    else
      ((b0 as bv32) << 24) | ((b1 as bv32) << 16) | ((b2 as bv32) << 8) | (b3 as bv32)
  }

  function Store32(x: bv32, littleEndian: bool): (bytes: seq<bv8>)
    ensures |bytes| == 4
  {
    var c0 := (x & 0xFF) as bv8;
    var c1 := ((x >> 8) & 0xFF) as bv8;
    var c2 := ((x >> 16) & 0xFF) as bv8;
    var c3 := (x >> 24) as bv8;
    if littleEndian then [c0, c1, c2, c3] else [c3, c2, c1, c0]
  }

  /** buf[i] = (buf[i] << 8) | (buf[i] >> 8) on an unsigned short promoted to int and stored back. */
  function SwapShortExpr(x: bv16): bv16 {
    ((((x as bv32) << 8) | ((x as bv32) >> 8)) & 0xFFFF) as bv16
  }

  /** The mask-and-shift expression of the four-byte array swap. */
  function SwapIntExpr(x: bv32): bv32 {
    ((x & 0xff000000) >> 24) | ((x & 0x00ff0000) >> 8) | ((x & 0x0000ff00) << 8) | ((x & 0x000000ff) << 24)
  }

  /** On either host, the shift expression exchanges the two bytes of the value in memory. */
  lemma SwapShortExprSwapsBytes(b0: bv8, b1: bv8, littleEndian: bool)
    ensures Store16(SwapShortExpr(Load16(b0, b1, littleEndian)), littleEndian) == [b1, b0]
  {
  }

  /** On either host, the mask expression reverses the four bytes of the value in memory. */
  lemma SwapIntExprReversesBytes(b0: bv8, b1: bv8, b2: bv8, b3: bv8, littleEndian: bool)
    ensures Store32(SwapIntExpr(Load32(b0, b1, b2, b3, littleEndian)), littleEndian) == [b3, b2, b1, b0]
  {
  }

  class Endian {
    const systemEndianType: ByteOrder

    /** The probe: the low byte of the short 0x0001 comes first on a little-endian host. */
    constructor (hostLittleEndian: bool)
      ensures systemEndianType == (if hostLittleEndian then ArchLittleEndian else ArchBigEndian)
    {
      systemEndianType := if hostLittleEndian then ArchLittleEndian else ArchBigEndian;
    }

    /** swap(c1, c2): exchange two bytes. */
    method SwapBytes(buf: array<bv8>, i: nat, j: nat)
      requires i < buf.Length && j < buf.Length
      modifies buf
      ensures buf[..] == old(buf[..])[i := old(buf[j])][j := old(buf[i])]
    {
      buf[i], buf[j] := buf[j], buf[i];
    }

    method SwapTwoBytes(buf: array<bv8>, at: nat)
      requires at + 2 <= buf.Length
      modifies buf
      ensures buf[..] == ReverseAt(old(buf[..]), at, 2)
    {
      SwapBytes(buf, at, at + 1);
      ReverseAtIndex(old(buf[..]), at, 2);
    }

    method SwapFourBytes(buf: array<bv8>, at: nat)
      requires at + 4 <= buf.Length
      modifies buf
      ensures buf[..] == ReverseAt(old(buf[..]), at, 4)
    {
      SwapBytes(buf, at, at + 3);
      SwapBytes(buf, at + 1, at + 2);
      ReverseAtIndex(old(buf[..]), at, 4);
    }

    method SwapEightBytes(buf: array<bv8>, at: nat)
      requires at + 8 <= buf.Length
      modifies buf
      ensures buf[..] == ReverseAt(old(buf[..]), at, 8)
    {
      SwapBytes(buf, at, at + 7);
      SwapBytes(buf, at + 1, at + 6);
      SwapBytes(buf, at + 2, at + 5);
      SwapBytes(buf, at + 3, at + 4);
      ReverseAtIndex(old(buf[..]), at, 8);
    }

    /** The single-value overloads: the value's sizeof(T) bytes are reversed. */
    method SwapValue(t: CType, buf: array<bv8>, at: nat)
      requires t != Long && t != ULong
      requires at + SizeOf(t) <= buf.Length
      modifies buf
      ensures buf[..] == ReverseAt(old(buf[..]), at, SizeOf(t))
    {
      match t
      case Short | UShort => SwapTwoBytes(buf, at);
      case Int | UInt | Float => SwapFourBytes(buf, at);
      case Double => SwapEightBytes(buf, at);
    }

    /** One element of swapTwoBytes(data, size): buf[i] = (buf[i] << 8) | (buf[i] >> 8). */
    method SwapShortElement(buf: array<bv8>, p: nat)
      requires p + 2 <= buf.Length
      modifies buf
      ensures buf[..] == ReverseAt(old(buf[..]), p, 2)
    {
      var little := systemEndianType == ArchLittleEndian;
      var b0, b1 := buf[p], buf[p + 1];
      var bytes := Store16(SwapShortExpr(Load16(b0, b1, little)), little);
      SwapShortExprSwapsBytes(b0, b1, little);
      ReverseAtIndex(buf[..], p, 2);
      buf[p], buf[p + 1] := bytes[0], bytes[1];
    }

    /** One element of swapFourBytes(data, size): the mask-and-shift expression. */
    method SwapIntElement(buf: array<bv8>, p: nat)
      requires p + 4 <= buf.Length
      modifies buf
      ensures buf[..] == ReverseAt(old(buf[..]), p, 4)
    {
      var little := systemEndianType == ArchLittleEndian;
      var b0, b1, b2, b3 := buf[p], buf[p + 1], buf[p + 2], buf[p + 3];
      var bytes := Store32(SwapIntExpr(Load32(b0, b1, b2, b3, little)), little);
      SwapIntExprReversesBytes(b0, b1, b2, b3, little);
      ReverseAtIndex(buf[..], p, 4);
      buf[p], buf[p + 1], buf[p + 2], buf[p + 3] := bytes[0], bytes[1], bytes[2], bytes[3];
    }

    /** swapTwoBytes(data, size): each of size unsigned shorts has its bytes exchanged. */
    method SwapTwoBytesArray(buf: array<bv8>, at: nat, size: nat)
      requires at + 2 * size <= buf.Length
      modifies buf
      ensures buf[..] == ReverseGroups(old(buf[..]), at, 2, size)
    {
      var i := 0;
      while i < size
        invariant 0 <= i <= size
        invariant ReverseGroups(buf[..], at + 2 * i, 2, size - i) == ReverseGroups(old(buf[..]), at, 2, size)
      {
        ghost var before := buf[..];
        SwapShortElement(buf, at + 2 * i);
        ReverseGroupsStep(before, at + 2 * i, 2, size - i);
        i := i + 1;
      }
    }

    /** swapFourBytes(data, size): each of size unsigned ints has its bytes reversed. */
    method SwapFourBytesArray(buf: array<bv8>, at: nat, size: nat)
      requires at + 4 * size <= buf.Length
      modifies buf
      ensures buf[..] == ReverseGroups(old(buf[..]), at, 4, size)
    {
      var i := 0;
      while i < size
        invariant 0 <= i <= size
        invariant ReverseGroups(buf[..], at + 4 * i, 4, size - i) == ReverseGroups(old(buf[..]), at, 4, size)
      {
        ghost var before := buf[..];
        SwapIntElement(buf, at + 4 * i);
        ReverseGroupsStep(before, at + 4 * i, 4, size - i);
        i := i + 1;
      }
    }

    /**
     * swapEightBytes(data, size), in the form compiled when HAS_LONG_LONG is
     * not defined: the single-value eight-byte swap on each element.
     */
    method SwapEightBytesArray(buf: array<bv8>, at: nat, size: nat)
      requires at + 8 * size <= buf.Length
      modifies buf
      ensures buf[..] == ReverseGroups(old(buf[..]), at, 8, size)
    {
      var i := 0;
      while i < size
        invariant 0 <= i <= size
        invariant ReverseGroups(buf[..], at + 8 * i, 8, size - i) == ReverseGroups(old(buf[..]), at, 8, size)
      {
        ghost var before := buf[..];
        SwapEightBytes(buf, at + 8 * i);
        ReverseGroupsStep(before, at + 8 * i, 8, size - i);
        i := i + 1;
      }
    }

    /** The array overloads: each of the size elements has its sizeof(T) bytes reversed. */
    method SwapArray(t: CType, buf: array<bv8>, at: nat, size: nat)
      requires at + SizeOf(t) * size <= buf.Length
      modifies buf
      ensures buf[..] == ReverseGroups(old(buf[..]), at, SizeOf(t), size)
    {
      match t
      case Short | UShort => SwapTwoBytesArray(buf, at, size);
      case Int | UInt | Float => SwapFourBytesArray(buf, at, size);
      case Long | ULong | Double => SwapEightBytesArray(buf, at, size);
    }
  }
}
