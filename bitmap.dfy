/**
 A set of integer positions stored as a packed bit array. Position `pos` is kept at
 bit index (pos - offset) / step, so a bitmap covers the positions
 offset, offset + step, ..., offset + (size - 1) * step. Bit i lives in byte i / 8
 at bit i % 8 of that byte.
 */
module Bitmap {
  import opened Wrappers
  import GoInt
  import Bits

  /** Stride used by the constructors that take no step. */
  const DefaultStep := 1

  /** The error both `tryEncodePos` checks report. */
  datatype BitmapError = PositionOutOfBounds

  /** Go's `(n + 7) / 8`: the number of bytes that hold n bits, rounded up.
      Go's `make` accepts it exactly when it is not negative, i.e. n >= -14. */
  function ByteCount(n: int): (r: int)
    ensures r >= 0 <==> n >= -14
    ensures n >= 0 ==> n <= 8 * r < n + 8
    ensures -14 <= n < 0 ==> r == 0
  {
    GoInt.Div(n + 7, 8)
  }

  /** Go's `(end - begin + step - 1) / step`: the number of stride steps from begin
      up to but not including end, rounded up. */
  function RangeSize(begin: int, end: int, step: int): (r: int)
    requires step > 0
    ensures end >= begin ==> 0 <= r <= end - begin
    ensures end >= begin ==> (r - 1) * step < end - begin <= r * step
    ensures end < begin ==> r <= 0
  {
    RangeSizeBounds(end - begin, step);
    GoInt.Div(end - begin + step - 1, step)
  }

  lemma RangeSizeBounds(d: int, step: int)
    requires step > 0
    ensures var r := GoInt.Div(d + step - 1, step);
      && (d >= 0 ==> 0 <= r <= d && (r - 1) * step < d <= r * step)
      && (d < 0 ==> r <= 0)
  {
    var n := d + step - 1;
    if n < 0 {
      NegativeQuotient(n, step);
    } else {
      GoInt.AgreeOnNonNegative(n, step);
      var r, m := n / step, n % step;
      assert n == r * step + m;
      if d < 0 {
        Bits.DivModUnique(n, step, 0, n);
      } else {
        CeilingQuotient(d, step, r, m);
      }
    }
  }

  lemma NegativeQuotient(n: int, step: int)
    requires n < 0 && step > 0
    ensures GoInt.Div(n, step) <= 0
  {
  }

  /** r * step + m == d + step - 1 with 0 <= m < step makes r the rounded-up quotient. */
  lemma CeilingQuotient(d: int, step: int, r: int, m: int)
    requires step > 0 && d >= 0 && 0 <= m < step && r * step + m == d + step - 1
    ensures 0 <= r <= d && (r - 1) * step < d <= r * step
  {
    assert (r - 1) * step == r * step - step;
    if r < 0 {
      Bits.MulAtLeastDivisor(-r, step);
      assert false;
    }
    if r >= 1 {
      MulAtLeastFactor(r - 1, step);
    }
  }

  lemma MulAtLeastFactor(k: nat, step: int)
    requires step >= 1
    ensures k * step >= k
  {
  }

  /** Go's byte `1 << j`, written out bit by bit (BitMaskIsShift checks it against
      the shift) so that proofs need not convert integers to bit-vectors. */
  function BitMask(j: nat): bv8
    requires j < 8
  {
    if j == 0 then 1 else if j == 1 then 2 else if j == 2 then 4 else if j == 3 then 8
    else if j == 4 then 16 else if j == 5 then 32 else if j == 6 then 64 else 128
  }

  lemma BitMaskIsShift(j: nat)
    requires j < 8
    ensures BitMask(j) == 1 << j
  {
  }

  /** Bit j of byte b, counting from the least significant bit: bit 0 is the lowest
      bit, and bit j of b is bit j - 1 of b shifted right once. */
  function ByteBit(b: bv8, j: nat): bool
    requires j < 8
    decreases j
  {
    if j == 0 then b & 1 == 1 else ByteBit(b >> 1, j - 1)
  }

  /** The Go code's test `b & (1 << j) != 0` reads bit j. */
  lemma ByteBitIsMask(b: bv8, j: nat)
    requires j < 8
    ensures ByteBit(b, j) == (b & BitMask(j) != 0)
  {
    if j == 0 {
    } else if j == 1 {
    } else if j == 2 {
    } else if j == 3 {
    } else if j == 4 {
    } else if j == 5 {
    } else if j == 6 {
    } else {
    }
  }

  /** Bit `bit` of a packed byte buffer: bit bit % 8 of byte bit / 8. */
  function BitAt(s: seq<bv8>, bit: nat): bool
    requires bit < 8 * |s|
  {
    ByteBit(s[bit / 8], bit % 8)
  }

  /** `x | (1 << j)` turns on bit j and keeps the other bits. */
  lemma ByteOr(x: bv8, j: nat, k: nat)
    requires j < 8 && k < 8
    ensures ByteBit(x | BitMask(j), k) <==> j == k || ByteBit(x, k)
  {
    ByteBitIsMask(x | BitMask(j), k);
    ByteBitIsMask(x, k);
  }

  /** `x &^ (1 << j)` turns off bit j and keeps the other bits. */
  lemma ByteAndNot(x: bv8, j: nat, k: nat)
    requires j < 8 && k < 8
    ensures ByteBit(x & !BitMask(j), k) <==> j != k && ByteBit(x, k)
  {
    ByteBitIsMask(x & !BitMask(j), k);
    ByteBitIsMask(x, k);
  }

  lemma SameByteSameBit(b: nat, bit: nat)
    requires b / 8 == bit / 8
    ensures (b == bit) == (b % 8 == bit % 8)
  {
  }

  /** Go's `data[bit / 8] |= 1 << (bit % 8)`: turns on exactly one bit. */
  function SetBit(s: seq<bv8>, bit: nat): (r: seq<bv8>)
    requires bit < 8 * |s|
    ensures |r| == |s|
    ensures forall b :: 0 <= b < 8 * |s| ==> BitAt(r, b) == (b == bit || BitAt(s, b))
  {
    var r := s[bit / 8 := s[bit / 8] | BitMask(bit % 8)];
    forall b | 0 <= b < 8 * |s|
      ensures BitAt(r, b) == (b == bit || BitAt(s, b))
    {
      if b / 8 == bit / 8 {
        ByteOr(s[bit / 8], bit % 8, b % 8);
        SameByteSameBit(b, bit);
      }
    }
    r
  }

  /** Go's `data[bit / 8] &^= 1 << (bit % 8)`: turns off exactly one bit. */
  function ClearBit(s: seq<bv8>, bit: nat): (r: seq<bv8>)
    requires bit < 8 * |s|
    ensures |r| == |s|
    ensures forall b :: 0 <= b < 8 * |s| ==> BitAt(r, b) == (b != bit && BitAt(s, b))
  {
    var r := s[bit / 8 := s[bit / 8] & !BitMask(bit % 8)];
    forall b | 0 <= b < 8 * |s|
      ensures BitAt(r, b) == (b != bit && BitAt(s, b))
    {
      ClearBitAt(s, bit, b);
    }
    r
  }

  lemma ClearBitAt(s: seq<bv8>, bit: nat, b: nat)
    requires bit < 8 * |s| && b < 8 * |s|
    ensures BitAt(s[bit / 8 := s[bit / 8] & !BitMask(bit % 8)], b) == (b != bit && BitAt(s, b))
  {
    if b / 8 == bit / 8 {
      ByteAndNot(s[bit / 8], bit % 8, b % 8);
      SameByteSameBit(b, bit);
    }
  }

  /** The indices, in increasing order, of the bits before bit j of byte i whose
      value is `want`; indices at or past `size` are skipped. ListedBits(size, s, |s|, 0, want)
      covers the whole buffer. The recursion follows the loops of GetPos and GetNoPos. */
  function ListedBits(size: int, s: seq<bv8>, i: nat, j: nat, want: bool): seq<int>
    requires i <= |s| && j <= 8 && (i == |s| ==> j == 0)
    decreases i, j
  {
    if j == 0 then
      if i == 0 then [] else ListedBits(size, s, i - 1, 8, want)
    else
      ListedBits(size, s, i, j - 1, want) +
        (if i * 8 + j - 1 < size && ByteBit(s[i], j - 1) == want then [i * 8 + j - 1] else [])
  }

  /** Bit index a * 8 + b names byte a and bit b of that byte, and nothing else. */
  lemma SameIndex(a: nat, b: nat, c: nat, d: nat)
    requires b < 8 && d < 8 && a * 8 + b == c * 8 + d
    ensures a == c && b == d
  {
  }

  /** A listed index (bit bj of byte bi) lies below i * 8 + j and size, and its bit has
      the wanted value. */
  lemma {:induction false} ListedBitsSound(size: int, s: seq<bv8>, i: nat, j: nat, want: bool, bi: nat, bj: nat)
    requires i <= |s| && j <= 8 && (i == |s| ==> j == 0) && bj < 8
    requires bi * 8 + bj in ListedBits(size, s, i, j, want)
    ensures bi * 8 + bj < i * 8 + j && bi * 8 + bj < size && bi < |s|
    ensures ByteBit(s[bi], bj) == want
    decreases i, j
  {
    if j == 0 {
      ListedBitsSound(size, s, i - 1, 8, want, bi, bj);
    } else if bi * 8 + bj in ListedBits(size, s, i, j - 1, want) {
      ListedBitsSound(size, s, i, j - 1, want, bi, bj);
    } else {
      SameIndex(bi, bj, i, j - 1);
    }
  }

  /** Every index (bit bj of byte bi) below i * 8 + j and size whose bit has the
      wanted value is listed. */
  lemma {:induction false} ListedBitsComplete(size: int, s: seq<bv8>, i: nat, j: nat, want: bool, bi: nat, bj: nat)
    requires i <= |s| && j <= 8 && (i == |s| ==> j == 0) && bj < 8
    requires bi * 8 + bj < i * 8 + j && bi * 8 + bj < size && bi < |s|
    requires ByteBit(s[bi], bj) == want
    ensures bi * 8 + bj in ListedBits(size, s, i, j, want)
    decreases i, j
  {
    if j == 0 {
      ListedBitsComplete(size, s, i - 1, 8, want, bi, bj);
    } else if bi * 8 + bj < i * 8 + j - 1 {
      ListedBitsComplete(size, s, i, j - 1, want, bi, bj);
    } else {
      SameIndex(bi, bj, i, j - 1);
    }
  }

  /** The listed indices are strictly increasing and lie below i * 8 + j. */
  lemma {:induction false} ListedBitsIncreasing(size: int, s: seq<bv8>, i: nat, j: nat, want: bool)
    requires i <= |s| && j <= 8 && (i == |s| ==> j == 0)
    ensures forall k :: k in ListedBits(size, s, i, j, want) ==> 0 <= k < i * 8 + j
    ensures forall m, n :: 0 <= m < n < |ListedBits(size, s, i, j, want)| ==>
      ListedBits(size, s, i, j, want)[m] < ListedBits(size, s, i, j, want)[n]
    decreases i, j
  {
    if j == 0 {
      if i > 0 {
        ListedBitsIncreasing(size, s, i - 1, 8, want);
      }
    } else {
      var prev := ListedBits(size, s, i, j - 1, want);
      ListedBitsIncreasing(size, s, i, j - 1, want);
      var l := ListedBits(size, s, i, j, want);
      forall m, n | 0 <= m < n < |l|
        ensures l[m] < l[n]
      {
        assert l[m] == prev[m];
        if n < |prev| {
          assert l[n] == prev[n];
        } else {
          assert prev[m] in prev;
        }
      }
    }
  }

  /** The set and the clear lists together hold one entry per index below both
      i * 8 + j and size. */
  lemma {:induction false} ListedPartition(size: int, s: seq<bv8>, i: nat, j: nat)
    requires i <= |s| && j <= 8 && (i == |s| ==> j == 0)
    ensures |ListedBits(size, s, i, j, true)| + |ListedBits(size, s, i, j, false)|
            == if size <= 0 then 0 else if i * 8 + j <= size then i * 8 + j else size
    decreases i, j
  {
    if j == 0 {
      if i > 0 {
        ListedPartition(size, s, i - 1, 8);
      }
    } else {
      ListedPartition(size, s, i, j - 1);
    }
  }

  class Bitmap {
    /** The byte buffer. The slice is allocated once; its bytes change in place. */
    const data: array<bv8>
    /** Number of bits in use. */
    const size: int
    /** Distance between two neighbouring positions. */
    const step: int
    /** Position of bit 0. */
    const offset: int

    /** Every constructor leaves a positive stride and enough bytes for `size` bits. */
    predicate Valid() {
      step >= 1 && size <= 8 * data.Length
    }

    /** NewBitmap: `size` bits for positions 0 .. size - 1. Go's `make` panics on a
        negative byte count. */
    constructor NewBitmap(size: int)
      requires ByteCount(size) >= 0
      ensures Valid() && fresh(data)
      ensures data.Length == ByteCount(size) && forall i :: 0 <= i < data.Length ==> data[i] == 0
      ensures this.size == size && step == DefaultStep && offset == 0
    {
      data := new bv8[ByteCount(size)](_ => 0);
      this.size := size;
      step := DefaultStep;
      offset := 0;
    }

    /** NewBitmapWithOffset: `size` bits for positions offset .. offset + size - 1. */
    constructor NewBitmapWithOffset(size: int, offset: int)
      requires ByteCount(size) >= 0
      ensures Valid() && fresh(data)
      ensures data.Length == ByteCount(size) && forall i :: 0 <= i < data.Length ==> data[i] == 0
      ensures this.size == size && step == DefaultStep && this.offset == offset
    {
      data := new bv8[ByteCount(size)](_ => 0);
      this.size := size;
      step := DefaultStep;
      this.offset := offset;
    }

    /** NewBitmapWithRang: positions begin, begin + step, ... below end. Panics when
        step <= 0; Go's `make` panics on a negative byte count. The buffer is sized by
        end - begin, not by the number of positions. */
    constructor NewBitmapWithRang(begin: int, end: int, step: int)
      requires step > 0
      requires ByteCount(end - begin) >= 0
      ensures Valid() && fresh(data)
      ensures data.Length == ByteCount(end - begin) && forall i :: 0 <= i < data.Length ==> data[i] == 0
      ensures size == RangeSize(begin, end, step) && this.step == step && offset == begin
    {
      data := new bv8[ByteCount(end - begin)](_ => 0);
      size := RangeSize(begin, end, step);
      this.offset := begin;
      this.step := step;
    }

    /** The accessors Size, Step and Offset. */
    function Size(): int { size }
    function Step(): int { step }
    function Offset(): int { offset }

    /** The positions encodePos accepts without panicking: on the stride (checked
        with Go's truncating `%`) and with an index in [0, size). */
    predicate Encodable(pos: int)
      requires Valid()
    {
      GoInt.Rem(pos - offset, step) == 0 && 0 <= GoInt.Div(pos - offset, step) < size
    }

    /** decodePos: the position stored at bit index `bit`. */
    function DecodePos(bit: int): int {
      bit * step + offset
    }

    /** encodePos: the bit index of an accepted position; decodePos undoes it. */
    function EncodePos(pos: int): (bit: int)
      requires Valid() && Encodable(pos)
      ensures 0 <= bit < size
      ensures DecodePos(bit) == pos
    {
      GoInt.Div(pos - offset, step)
    }

    /** tryEncodePos: the same two checks, reporting (-1, error) instead of panicking. */
    function TryEncodePos(pos: int): (r: (int, Option<BitmapError>))
      requires Valid()
      ensures r.1.None? <==> Encodable(pos)
      ensures r.1.None? ==> r.0 == EncodePos(pos)
      ensures r.1.Some? ==> r.0 == -1
    {
      var bit := pos - offset;
      if GoInt.Rem(bit, step) != 0 then
        (-1, Some(PositionOutOfBounds))
      else
        var bit := GoInt.Div(bit, step);
        if bit < 0 || bit >= size then (-1, Some(PositionOutOfBounds)) else (bit, None)
    }

    /** Every bit index in [0, size) is the encoding of exactly its decoded position. */
    lemma DecodeThenEncode(bit: int)
      requires Valid() && 0 <= bit < size
      ensures Encodable(DecodePos(bit)) && EncodePos(DecodePos(bit)) == bit
    {
      var x := bit * step;
      assert DecodePos(bit) - offset == x;
      GoInt.AgreeOnNonNegative(x, step);
      Bits.DivModUnique(x, step, bit, 0);
    }

    /** The positions encodePos accepts are exactly the grid offset + k * step,
        0 <= k < size, whatever the sign of pos - offset. */
    lemma EncodableIffOnGrid(pos: int)
      requires Valid()
      ensures Encodable(pos) <==> offset <= pos && (pos - offset) % step == 0 && (pos - offset) / step < size
    {
      var x := pos - offset;
      if x >= 0 {
        GoInt.AgreeOnNonNegative(x, step);
      } else {
        var q := GoInt.Abs(x) / step;
        GoInt.RemIsSignedModulus(x, step);
        if GoInt.Abs(x) % step == 0 {
          assert GoInt.Abs(x) == q * step;
          assert q != 0;
          assert GoInt.Div(x, step) < 0;
        }
      }
    }

    /** IsSet: whether the bit of an accepted position is 1 (panics otherwise). */
    function IsSet(pos: int): bool
      reads data
      requires Valid() && Encodable(pos)
    {
      IsSetIn(data[..], pos)
    }

    /** The bit of an accepted position in a buffer of the bitmap's shape. */
    function IsSetIn(s: seq<bv8>, pos: int): bool
      requires Valid() && size <= 8 * |s| && Encodable(pos)
    {
      BitAt(s, EncodePos(pos))
    }

    /** IsSetWithErr: IsSet, or (false, error) for a position encodePos rejects. */
    function IsSetWithErr(pos: int): (r: (bool, Option<BitmapError>))
      reads data
      requires Valid()
      ensures r.1.None? <==> Encodable(pos)
      ensures Encodable(pos) ==> r.0 == IsSet(pos)
      ensures !Encodable(pos) ==> !r.0
    {
      var (bit, err) := TryEncodePos(pos);
      if err.Some? then
        (false, err)
      else
        ByteBitIsMask(data[bit / 8], bit % 8);
        (data[bit / 8] & BitMask(bit % 8) != 0, None)
    }

    /** Set: turns on the bit of `pos` and no other bit. Panics on a rejected pos.
        The bit index is non-negative, so Go's `/` and `%` by 8 agree with Dafny's. */
    method Set(pos: int)
      requires Valid() && Encodable(pos)
      modifies data
      ensures data[..] == SetBit(old(data[..]), EncodePos(pos))
    {
      var bit := EncodePos(pos);
      var byteIndex := bit / 8;
      var bitIndex := bit % 8;
      data[byteIndex] := data[byteIndex] | BitMask(bitIndex);
    }

    /** Clear: turns off the bit of `pos` and no other bit. Panics on a rejected pos. */
    method Clear(pos: int)
      requires Valid() && Encodable(pos)
      modifies data
      ensures data[..] == ClearBit(old(data[..]), EncodePos(pos))
    {
      var bit := EncodePos(pos);
      var byteIndex := bit / 8;
      var bitIndex := bit % 8;
      data[byteIndex] := data[byteIndex] & !BitMask(bitIndex);
    }

    /** TrySet: Set for an accepted pos; otherwise the error and no change. */
    method TrySet(pos: int) returns (err: Option<BitmapError>)
      requires Valid()
      modifies data
      ensures err.None? <==> Encodable(pos)
      ensures err.None? ==> data[..] == SetBit(old(data[..]), EncodePos(pos))
      ensures err.Some? ==> data[..] == old(data[..])
    {
      var r := TryEncodePos(pos);
      var bit := r.0;
      err := r.1;
      if err.Some? {
        return err;
      }
      var byteIndex := bit / 8;
      var bitIndex := bit % 8;
      data[byteIndex] := data[byteIndex] | BitMask(bitIndex);
      return err;
    }

    /** TryClear: Clear for an accepted pos; otherwise the error and no change. */
    method TryClear(pos: int) returns (err: Option<BitmapError>)
      requires Valid()
      modifies data
      ensures err.None? <==> Encodable(pos)
      ensures err.None? ==> data[..] == ClearBit(old(data[..]), EncodePos(pos))
      ensures err.Some? ==> data[..] == old(data[..])
    {
      var r := TryEncodePos(pos);
      var bit := r.0;
      err := r.1;
      if err.Some? {
        return err;
      }
      var byteIndex := bit / 8;
      var bitIndex := bit % 8;
      data[byteIndex] := data[byteIndex] & !BitMask(bitIndex);
      return None;
    }

    /** After Set(pos) (or TrySet(pos) without error) exactly `pos` is added:
        every other accepted position keeps its bit. */
    lemma SetTouchesOnlyPos(s: seq<bv8>, pos: int)
      requires Valid() && size <= 8 * |s| && Encodable(pos)
      ensures IsSetIn(SetBit(s, EncodePos(pos)), pos)
      ensures forall q :: Encodable(q) ==> IsSetIn(SetBit(s, EncodePos(pos)), q) == (q == pos || IsSetIn(s, q))
    {
    }

    /** After Clear(pos) (or TryClear(pos) without error) exactly `pos` is removed:
        every other accepted position keeps its bit. */
    lemma ClearTouchesOnlyPos(s: seq<bv8>, pos: int)
      requires Valid() && size <= 8 * |s| && Encodable(pos)
      ensures !IsSetIn(ClearBit(s, EncodePos(pos)), pos)
      ensures forall q :: Encodable(q) ==> IsSetIn(ClearBit(s, EncodePos(pos)), q) == (q != pos && IsSetIn(s, q))
    {
    }

    /** `poses` holds, entry by entry, the positions of the bit indices `bits`. */
    predicate DecodesTo(poses: seq<int>, bits: seq<int>) {
      |poses| == |bits| && forall m :: 0 <= m < |bits| ==> poses[m] == DecodePos(bits[m])
    }

    /** decodePos preserves the order of indices: a positive stride. */
    lemma DecodeMonotone(a: int, b: int)
      requires Valid() && a < b
      ensures DecodePos(a) < DecodePos(b)
    {
      Bits.MulAtLeastDivisor(b - a, step);
      assert b * step - a * step == (b - a) * step;
    }

    /** GetPos: the positions whose bit is 1, in increasing order. */
    method GetPos() returns (poses: seq<int>)
      requires Valid()
      ensures DecodesTo(poses, ListedBits(size, data[..], data.Length, 0, true))
      ensures forall m, n :: 0 <= m < n < |poses| ==> poses[m] < poses[n]
      ensures forall p :: p in poses <==> Encodable(p) && IsSet(p)
    {
      ghost var s := data[..];
      poses := [];
      for i := 0 to data.Length
        invariant DecodesTo(poses, ListedBits(size, s, i, 0, true))
      {
        for j := 0 to 8
          invariant DecodesTo(poses, ListedBits(size, s, i, j, true))
        {
          ByteBitIsMask(data[i], j);
          if i * 8 + j < size && data[i] & BitMask(j) != 0 {
            poses := poses + [DecodePos(i * 8 + j)];
          }
        }
      }
      ListedMeaning(poses, true);
    }

    /** GetNoPos: the positions whose bit is 0, in increasing order. */
    method GetNoPos() returns (poses: seq<int>)
      requires Valid()
      ensures DecodesTo(poses, ListedBits(size, data[..], data.Length, 0, false))
      ensures forall m, n :: 0 <= m < n < |poses| ==> poses[m] < poses[n]
      ensures forall p :: p in poses <==> Encodable(p) && !IsSet(p)
    {
      ghost var s := data[..];
      poses := [];
      for i := 0 to data.Length
        invariant DecodesTo(poses, ListedBits(size, s, i, 0, false))
      {
        for j := 0 to 8
          invariant DecodesTo(poses, ListedBits(size, s, i, j, false))
        {
          ByteBitIsMask(data[i], j);
          if i * 8 + j < size && data[i] & BitMask(j) == 0 {
            poses := poses + [DecodePos(i * 8 + j)];
          }
        }
      }
      ListedMeaning(poses, false);
    }

    /** Listing the whole buffer gives, in increasing order, exactly the accepted
        positions whose bit is `want`. */
    lemma ListedMeaning(l: seq<int>, want: bool)
      requires Valid() && DecodesTo(l, ListedBits(size, data[..], data.Length, 0, want))
      ensures forall m, n :: 0 <= m < n < |l| ==> l[m] < l[n]
      ensures forall p :: p in l <==> Encodable(p) && IsSet(p) == want
    {
      var s := data[..];
      var bits := ListedBits(size, s, |s|, 0, want);
      ListedBitsIncreasing(size, s, |s|, 0, want);
      forall m, n | 0 <= m < n < |l|
        ensures l[m] < l[n]
      {
        DecodeMonotone(bits[m], bits[n]);
      }
      forall p
        ensures p in l <==> Encodable(p) && IsSet(p) == want
      {
        if p in l {
          var k :| 0 <= k < |l| && l[k] == p;
          var b := bits[k];
          assert b in bits;
          assert b == (b / 8) * 8 + b % 8;
          ListedBitsSound(size, s, |s|, 0, want, b / 8, b % 8);
          DecodeThenEncode(b);
        }
        if Encodable(p) && IsSet(p) == want {
          var b := EncodePos(p);
          assert b == (b / 8) * 8 + b % 8;
          ListedBitsComplete(size, s, |s|, 0, want, b / 8, b % 8);
          var k :| 0 <= k < |bits| && bits[k] == b;
          assert l[k] == p;
        }
      }
    }

    /** GetPos and GetNoPos together list each of the `size` positions once. */
    lemma PositionsPartition()
      requires Valid()
      ensures |ListedBits(size, data[..], data.Length, 0, true)| + |ListedBits(size, data[..], data.Length, 0, false)|
              == if size <= 0 then 0 else size
    {
      ListedPartition(size, data[..], data.Length, 0);
    }
  }
}
