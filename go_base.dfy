/**
 * Value types shared by the models of the repository's Go programs:
 * Go's fixed-width integers as ranges of Dafny's unbounded `int`, with the
 * two's-complement conversions written out, and the Option/Result wrappers
 * that stand for Go's `(value, ok)` and `(value, error)` returns.
 */
module GoBase {

  datatype Option<T> = None | Some(value: T)

  datatype Result<T, E> = Ok(value: T) | Err(error: E) {
    predicate IsFailure() { Err? }

    function PropagateFailure<U>(): Result<U, E>
      requires Err?
    {
      Err(error)
    }

    function Extract(): T
      requires Ok?
    {
      value
    }
  }

  const TwoTo63: int := 0x8000_0000_0000_0000
  const TwoTo64: int := 0x1_0000_0000_0000_0000
  const MinInt64: int := -TwoTo63
  const MaxInt64: int := TwoTo63 - 1
  const MaxUint64: int := TwoTo64 - 1

  /** Go's `int64` (and `int`, which is 64 bits on the platforms the programs target). */
  type Int64 = x: int | MinInt64 <= x <= MaxInt64

  /** Go's `uint64`. */
  type Uint64 = x: int | 0 <= x <= MaxUint64

  /** Go's `byte`. */
  type Byte = x: int | 0 <= x < 256

  /** The int64 value Go's wrapping arithmetic produces for the exact result `x`. */
  function Wrap64(x: int): (r: Int64)
    ensures MinInt64 <= x <= MaxInt64 ==> r == x
  {
    var m := x % TwoTo64;
    if m <= MaxInt64 then m else m - TwoTo64
  }

  /** Go's conversion `uint64(x)` of an int64. */
  function ToUint64(x: Int64): (u: Uint64)
    ensures x >= 0 ==> u == x
    ensures x < 0 ==> u == x + TwoTo64
  {
    if x >= 0 then x else x + TwoTo64
  }

  /** Go's conversion `int64(u)` of a uint64. */
  function ToInt64(u: Uint64): (x: Int64)
    ensures ToUint64(x) == u
  {
    if u <= MaxInt64 then u else u - TwoTo64
  }

  lemma ToInt64OfToUint64(x: Int64)
    ensures ToInt64(ToUint64(x)) == x
  {
  }

  /** Results of Go's wrapping arithmetic agree when the exact values agree modulo 2^64. */
  lemma Wrap64Congruent(x: int, y: int)
    requires (x - y) % TwoTo64 == 0
    ensures Wrap64(x) == Wrap64(y)
  {
    var k := (x - y) / TwoTo64;
    assert x - y == TwoTo64 * k;
    var dx, dy := x / TwoTo64, y / TwoTo64;
    assert x == TwoTo64 * dx + x % TwoTo64 && y == TwoTo64 * dy + y % TwoTo64;
    var j := dx - dy - k;
    assert y % TwoTo64 - x % TwoTo64 == TwoTo64 * j;
    assert j == 0;
  }

  /** Adding wrapped int64 values wraps the exact sum. */
  lemma Wrap64Add(x: int, y: int)
    ensures Wrap64(Wrap64(x) + y) == Wrap64(x + y)
  {
    Wrap64Congruent(Wrap64(x) + y, x + y);
  }

  /** Adding two wrapped int64 values wraps the exact sum. */
  lemma Wrap64AddBoth(x: int, y: int)
    ensures Wrap64(Wrap64(x) + Wrap64(y)) == Wrap64(x + y)
  {
    Wrap64Add(x, Wrap64(y));
    Wrap64Add(y, x);
  }

  /** Go's `/` on integers: the quotient truncated toward zero. */
  function Quo(a: int, b: int): (q: int)
    requires b != 0
  {
    var m := (if a < 0 then -a else a) / (if b < 0 then -b else b);
    if (a < 0) == (b < 0) then m else -m
  }

  /** Go's `%` on integers: the remainder takes the sign of the dividend. */
  function Rem(a: int, b: int): (r: int)
    requires b != 0
    ensures a == b * Quo(a, b) + r
    ensures (if b < 0 then -b else b) > (if r < 0 then -r else r)
    ensures r != 0 ==> (r < 0 <==> a < 0)
  {
    var m := (if a < 0 then -a else a) % (if b < 0 then -b else b);
    if a < 0 then -m else m
  }
}
