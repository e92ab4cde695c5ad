/**
 * Package i128: a 128-bit signed integer stored as two int64 halves.  Only
 * the bitwise operations and addition have bodies in the package; the other
 * operations only panic and are not part of this model.
 *
 * The integer an `Int128` stands for is `hi * 2^64 + uint64(lo)`.
 */
module I128 {
  import opened GoBase
  import opened GoBits

  const TwoTo128: int := 0x1_0000_0000_0000_0000_0000_0000_0000_0000

  datatype Int128 = Int128(lo: Int64, hi: Int64)

  /** The signed 128-bit value of `x`. */
  function Value(x: Int128): int {
    x.hi * TwoTo64 + ToUint64(x.lo)
  }

  /** Bit `k` (0 <= k < 128) of the two's-complement pattern of `x`. */
  predicate Bit128(x: Int128, k: nat) {
    if k < 64 then Bit(ToUint64(x.lo), k) else Bit(ToUint64(x.hi), k - 64)
  }

  /** Go's `a op b` on two int64 values: the operator on their bit patterns. */
  function Bitwise64(op: BitOp, a: Int64, b: Int64): (r: Int64)
    ensures forall k: nat {:trigger Bit(ToUint64(r), k)} :: Bit(ToUint64(r), k) == Apply(op, Bit(ToUint64(a), k), Bit(ToUint64(b), k))
  {
    Pow2Of64();
    BitwiseBound(op, ToUint64(a), ToUint64(b), 64);
    var u := Bitwise(op, ToUint64(a), ToUint64(b));
    forall k: nat
      ensures Bit(u, k) == Apply(op, Bit(ToUint64(a), k), Bit(ToUint64(b), k))
    {
      BitwiseBit(op, ToUint64(a), ToUint64(b), k);
    }
    ToInt64(u)
  }

  /** The operator `op` applied to each half, as `And`, `Or`, `Xor` and `AndNot` do. */
  function Halves(op: BitOp, i: Int128, j: Int128): (r: Int128)
    ensures forall k: nat :: k < 128 ==> Bit128(r, k) == Apply(op, Bit128(i, k), Bit128(j, k))
  {
    Int128(Bitwise64(op, i.lo, j.lo), Bitwise64(op, i.hi, j.hi))
  }

  /** `i.And(j)`. */
  function And(i: Int128, j: Int128): (r: Int128)
    ensures forall k: nat :: k < 128 ==> (Bit128(r, k) <==> Bit128(i, k) && Bit128(j, k))
  {
    Halves(AndOp, i, j)
  }

  /** `i.Or(j)`. */
  function Or(i: Int128, j: Int128): (r: Int128)
    ensures forall k: nat :: k < 128 ==> (Bit128(r, k) <==> Bit128(i, k) || Bit128(j, k))
  {
    Halves(OrOp, i, j)
  }

  /** `i.Xor(j)`. */
  function Xor(i: Int128, j: Int128): (r: Int128)
    ensures forall k: nat :: k < 128 ==> (Bit128(r, k) <==> Bit128(i, k) != Bit128(j, k))
  {
    Halves(XorOp, i, j)
  }

  /** `i.AndNot(j)`: Go's `&^`. */
  function AndNot(i: Int128, j: Int128): (r: Int128)
    ensures forall k: nat :: k < 128 ==> (Bit128(r, k) <==> Bit128(i, k) && !Bit128(j, k))
  {
    Halves(AndNotOp, i, j)
  }

  /** Two `Int128` values with the same 128 bits are equal. */
  lemma BitsDetermine128(x: Int128, y: Int128)
    requires forall k: nat :: k < 128 ==> Bit128(x, k) == Bit128(y, k)
    ensures x == y
  {
    Pow2Of64();
    forall k | 0 <= k < 64
      ensures Bit(ToUint64(x.lo), k) == Bit(ToUint64(y.lo), k)
    {
      assert Bit128(x, k) == Bit128(y, k);
    }
    forall k | 0 <= k < 64
      ensures Bit(ToUint64(x.hi), k) == Bit(ToUint64(y.hi), k)
    {
      assert Bit128(x, k + 64) == Bit128(y, k + 64);
    }
    BitsDetermine(ToUint64(x.lo), ToUint64(y.lo), 64);
    BitsDetermine(ToUint64(x.hi), ToUint64(y.hi), 64);
    ToInt64OfToUint64(x.lo);
    ToInt64OfToUint64(y.lo);
    ToInt64OfToUint64(x.hi);
    ToInt64OfToUint64(y.hi);
  }

  lemma BitwiseCommute(i: Int128, j: Int128)
    ensures And(i, j) == And(j, i)
    ensures Or(i, j) == Or(j, i)
    ensures Xor(i, j) == Xor(j, i)
  {
    BitsDetermine128(And(i, j), And(j, i));
    BitsDetermine128(Or(i, j), Or(j, i));
    BitsDetermine128(Xor(i, j), Xor(j, i));
  }

  /** `x ^ x == 0` and `x &^ x == 0`. */
  lemma SelfCancel(x: Int128)
    ensures Xor(x, x) == Int128(0, 0)
    ensures AndNot(x, x) == Int128(0, 0)
  {
    forall k: nat | k < 128
      ensures !Bit128(Int128(0, 0), k)
    {
      if k < 64 { BitOfZero(k); } else { BitOfZero(k - 64); }
    }
    BitsDetermine128(Xor(x, x), Int128(0, 0));
    BitsDetermine128(AndNot(x, x), Int128(0, 0));
  }

  /**
   * `i.Add(j)` as written: both halves are added with int64 wrap-around, and
   * the upper half is incremented when `(k.lo < i.lo) != (j.lo < 0)`.
   */
  function Add(i: Int128, j: Int128): (k: Int128)
  {
    var lo := Wrap64(i.lo + j.lo);
    AddWith(i, j, (lo < i.lo) != (j.lo < 0))
  }

  /** Both halves added with int64 wrap-around, and the upper half incremented when `bump` is set. */
  function AddWith(i: Int128, j: Int128, bump: bool): (k: Int128)
    ensures k.lo == Wrap64(i.lo + j.lo)
  {
    var lo := Wrap64(i.lo + j.lo);
    var hi := Wrap64(i.hi + j.hi);
    if bump then Int128(lo, Wrap64(hi + 1)) else Int128(lo, hi)
  }

  /** Whether the upper half was incremented shows in the result. */
  lemma AddWithDiffers(i: Int128, j: Int128, b: bool, c: bool)
    ensures AddWith(i, j, b) == AddWith(i, j, c) <==> b == c
  {
    var hi: int := Wrap64(i.hi + j.hi);
    assert Wrap64(hi + 1) != hi;
  }

  /**
   * What `Add` tests is signed overflow of the lower halves: the upper half
   * gains one exactly when `i.lo + j.lo` leaves the int64 range.
   */
  lemma AddBumpsOnSignedOverflow(i: Int128, j: Int128)
    ensures Add(i, j).lo == Wrap64(i.lo + j.lo)
    ensures Add(i, j).hi == if MinInt64 <= i.lo + j.lo <= MaxInt64
                            then Wrap64(i.hi + j.hi) else Wrap64(i.hi + j.hi + 1)
  {
    SignedOverflow(i.lo, j.lo);
    var hi: int := Wrap64(i.hi + j.hi);
    WrapCongruent(hi + 1, i.hi + j.hi + 1);
  }

  /** Adding zero returns the input unchanged. */
  lemma AddZero(x: Int128)
    ensures Add(x, Int128(0, 0)) == x
  {
  }

  /** Wrap64 only depends on its argument modulo 2^64. */
  lemma WrapCongruent(x: int, y: int)
    requires (x - y) % TwoTo64 == 0
    ensures Wrap64(x) == Wrap64(y)
  {
    assert x % TwoTo64 == y % TwoTo64 by {
      var q := (x - y) / TwoTo64;
      assert x == y + q * TwoTo64;
    }
  }

  /** The 128-bit two's-complement wrap-around of an exact result. */
  function Wrap128(x: int): (r: int)
    ensures -TwoTo128 / 2 <= r < TwoTo128 / 2
    ensures (r - x) % TwoTo128 == 0
  {
    var m := x % TwoTo128;
    if m < TwoTo128 / 2 then m else m - TwoTo128
  }

  /**
   * The as-written carry misses the unsigned carry of the lower halves:
   * (2^64 - 1) + 1, that is {lo: -1, hi: 0} plus {lo: 1, hi: 0}, yields 0
   * instead of 2^64.
   */
  lemma AddMissesUnsignedCarry()
    ensures Value(Int128(-1, 0)) == TwoTo64 - 1 && Value(Int128(1, 0)) == 1
    ensures Add(Int128(-1, 0), Int128(1, 0)) == Int128(0, 0)
    ensures Value(Add(Int128(-1, 0), Int128(1, 0))) != Wrap128(TwoTo64)
  {
  }

  /**
   * Addition with the carry that 128-bit addition needs: the upper half
   * gains one when the lower halves, read as uint64, wrap around.
   */
  function AddCarry(i: Int128, j: Int128): (k: Int128)
    ensures Value(k) == Wrap128(Value(i) + Value(j))
  {
    var carry := ToUint64(Wrap64(i.lo + j.lo)) < ToUint64(i.lo);
    var k := AddWith(i, j, carry);
    AddCarryValue(i, j, k, carry);
    k
  }

  lemma AddCarryValue(i: Int128, j: Int128, k: Int128, carry: bool)
    requires k.lo == Wrap64(i.lo + j.lo)
    requires carry == (ToUint64(k.lo) < ToUint64(i.lo))
    requires k.hi == Wrap64(i.hi + j.hi + (if carry then 1 else 0))
    ensures Value(k) == Wrap128(Value(i) + Value(j))
  {
    var ul := ToUint64(i.lo) + ToUint64(j.lo);
    assert ToUint64(k.lo) == ul - (if carry then TwoTo64 else 0);
    var h := i.hi + j.hi + (if carry then 1 else 0);
    assert Value(i) + Value(j) == h * TwoTo64 + ToUint64(k.lo);
    WrapShift(h, k.hi, ToUint64(k.lo));
  }

  /** Wrapping the upper half wraps the whole value. */
  lemma WrapShift(h: int, w: Int64, l: Uint64)
    requires w == Wrap64(h)
    ensures w * TwoTo64 + l == Wrap128(h * TwoTo64 + l)
  {
    var k := h / TwoTo64;
    var q := if h % TwoTo64 <= MaxInt64 then -k else -k - 1;
    assert w == h + q * TwoTo64;
    var x := w * TwoTo64 + l;
    var r := if x >= 0 then x else x + TwoTo128;
    var d := if x >= 0 then -q else -q - 1;
    assert h * TwoTo64 + l == r + d * TwoTo128;
    ModOf(h * TwoTo64 + l, r, d);
  }

  /** The remainder modulo 2^128 of a value written as `r + d * 2^128`, with `r` in range. */
  lemma ModOf(x: int, r: int, d: int)
    requires 0 <= r < TwoTo128 && x == r + d * TwoTo128
    ensures x % TwoTo128 == r
  {
    var e := x / TwoTo128;
    assert (d - e) * TwoTo128 == x % TwoTo128 - r;
  }

  /**
   * The as-written `Add` yields the 128-bit sum exactly when the signed
   * overflow it tests and the unsigned carry agree.
   */
  lemma AddAgreesWithCarryIff(i: Int128, j: Int128)
    ensures Add(i, j) == AddCarry(i, j) <==>
            (MinInt64 <= i.lo + j.lo <= MaxInt64) == (ToUint64(i.lo) + ToUint64(j.lo) <= MaxUint64)
  {
    var lo := Wrap64(i.lo + j.lo);
    SignedOverflow(i.lo, j.lo);
    UnsignedCarry(i.lo, j.lo);
    AddWithDiffers(i, j, (lo < i.lo) != (j.lo < 0), ToUint64(lo) < ToUint64(i.lo));
  }

  /** The as-written test `(lo < i.lo) != (j.lo < 0)` holds exactly on signed overflow. */
  lemma SignedOverflow(a: Int64, b: Int64)
    ensures (Wrap64(a + b) < a) != (b < 0) <==> !(MinInt64 <= a + b <= MaxInt64)
  {
    if a + b > MaxInt64 {
      assert Wrap64(a + b) == a + b - TwoTo64;
    } else if a + b < MinInt64 {
      assert Wrap64(a + b) == a + b + TwoTo64;
    } else {
      assert Wrap64(a + b) == a + b;
    }
  }

  /** The lower halves carry, read as uint64, exactly when their wrapped sum is below the first. */
  lemma UnsignedCarry(a: Int64, b: Int64)
    ensures ToUint64(Wrap64(a + b)) < ToUint64(a) <==> ToUint64(a) + ToUint64(b) > MaxUint64
  {
    var u := ToUint64(a) + ToUint64(b);
    WrapCongruent(a + b, u);
    if u > MaxUint64 {
      assert Wrap64(u) == ToInt64(u - TwoTo64);
    } else {
      assert Wrap64(u) == ToInt64(u);
    }
  }
}
