/**
 * sliceresponse: a client asks a server for `n` random numbers in
 * [min, max) in one of three wire formats, and the server answers with a
 * slice of uint64.  This module models the byte formats: Go's unsigned
 * varints (`encoding/binary`), 8-byte big-endian integers, and the
 * "unsafe" format that sends the slice's memory as it is (8 little-endian
 * bytes per element on the little-endian machines the program runs on).
 *
 * A stream is modelled by a byte sequence: a `Writer` appends to `out`
 * and never fails, a `Reader` reads `data` from `pos`.  A Go panic is
 * modelled as an `Error` the operation returns, with the state it had
 * reached when it panicked.
 */
module SliceResponse {
  import opened GoBase

  const FormatUvarint: Byte := 0
  const FormatBigEndian: Byte := 1
  const FormatUnsafe: Byte := 2

  /** `binary.MaxVarintLen64`. */
  const MaxVarintLen64: nat := 10

  datatype Error =
    | EOF              // io.EOF: no byte left
    | UnexpectedEOF    // io.ErrUnexpectedEOF: the input ends inside a value
    | Overflow         // the overflow error of binary.ReadUvarint
    | BadFormat        // panic("bad format")
    | IndexOutOfRange  // the runtime panic of `&rsp.s[0]` on an empty slice
    | SliceBounds      // the runtime panic of `rsp.s[:n]` with a negative n

  /** The outcome of reading from position `p`: the value or error, and the position reached. */
  datatype Read<T> = Read(result: Result<T, Error>, end: nat)

  /** `d << 7i`: `d` shifted past `i` seven-bit groups. */
  function Shl7(d: nat, i: nat): nat {
    if i == 0 then d else 128 * Shl7(d, i - 1)
  }

  /** `1 << 7i`. */
  function Pow128(i: nat): nat {
    Shl7(1, i)
  }

  function Pow256(i: nat): (p: nat)
    ensures p >= 1
  {
    if i == 0 then 1 else 256 * Pow256(i - 1)
  }

  lemma {:induction false} Shl7Positive(i: nat)
    ensures Pow128(i) >= 1
  {
    if i > 0 {
      Shl7Positive(i - 1);
    }
  }

  lemma {:induction false} Shl7Mono(a: nat, b: nat, i: nat)
    requires a <= b
    ensures Shl7(a, i) <= Shl7(b, i)
  {
    if i > 0 {
      Shl7Mono(a, b, i - 1);
    }
  }

  lemma {:induction false} Shl7Add(a: nat, b: nat, i: nat)
    ensures Shl7(a + b, i) == Shl7(a, i) + Shl7(b, i)
  {
    if i > 0 {
      Shl7Add(a, b, i - 1);
    }
  }

  /** Shifting by one more group is shifting `128 d`. */
  lemma {:induction false} Shl7Next(d: nat, i: nat)
    ensures Shl7(d, i + 1) == Shl7(128 * d, i)
  {
    if i > 0 {
      Shl7Next(d, i - 1);
    }
  }

  lemma {:induction false} Pow128Mono(i: nat, j: nat)
    requires i <= j
    ensures Pow128(i) <= Pow128(j)
    decreases j
  {
    if i < j {
      Pow128Mono(i, j - 1);
      Shl7Positive(j - 1);
    }
  }

  lemma Pow128Nine()
    ensures Pow128(9) == TwoTo63 && Pow128(10) > MaxUint64
  {
  }

  lemma Pow256Eight()
    ensures Pow256(8) == TwoTo64
  {
  }

  /** One more seven-bit group stays below the next power of 128. */
  lemma AddDigit(i: nat, x: nat, d: nat)
    requires x < Pow128(i) && d < 128
    ensures x + Shl7(d, i) < Pow128(i + 1)
  {
    Shl7Mono(d, 127, i);
    Shl7Add(127, 1, i);
    Shl7Next(1, i);
  }

  /** The value of a varint of at most ten bytes fits in a uint64 when its tenth byte is 0 or 1. */
  lemma DigitFits(i: nat, x: nat, d: nat)
    requires i <= 9 && x < Pow128(i) && d < 128 && (i == 9 ==> d <= 1)
    ensures x + Shl7(d, i) <= MaxUint64
  {
    Pow128Nine();
    if i < 9 {
      AddDigit(i, x, d);
      Pow128Mono(i + 1, 9);
    } else {
      Shl7Mono(d, 1, 9);
    }
  }

  /** `y << 7i` is its low group shifted by `i` plus the rest shifted by `i + 1`. */
  lemma SplitDigit(y: nat, i: nat)
    ensures Shl7(y, i) == Shl7(y % 128, i) + Shl7(y / 128, i + 1)
  {
    Shl7Add(y % 128, 128 * (y / 128), i);
    Shl7Next(y / 128, i);
  }

  // ---------------------------------------------------------------------
  // Unsigned varints

  /**
   * The bytes `binary.PutUvarint` writes for `x`: seven bits at a time, low
   * group first, with the high bit set on every byte but the last.  It is
   * the shortest such encoding.
   */
  function Uvarint(x: nat): (r: seq<Byte>)
    ensures 1 <= |r|
    decreases x
  {
    if x < 128 then [x] else [x % 128 + 128] + Uvarint(x / 128)
  }

  /**
   * The varint of `x` ends at its only byte below 128, and it is as short
   * as a base-128 representation of `x` can be.
   */
  lemma {:induction false} UvarintShape(x: nat)
    ensures var r := Uvarint(x);
      r[|r| - 1] < 128 && (forall k :: 0 <= k < |r| - 1 ==> r[k] >= 128) &&
      x < Pow128(|r|) && (|r| > 1 ==> Pow128(|r| - 1) <= x)
    decreases x
  {
    if x >= 128 {
      UvarintShape(x / 128);
      var t := Uvarint(x / 128);
      assert Uvarint(x) == [x % 128 + 128] + t;
      Shl7Next(1, |t|);
      if |t| > 1 {
        Shl7Next(1, |t| - 1);
      }
    }
  }

  /** A uint64 takes at most `MaxVarintLen64` bytes. */
  lemma UvarintLength(x: Uint64)
    ensures |Uvarint(x)| <= MaxVarintLen64
  {
    var n := |Uvarint(x)|;
    UvarintShape(x);
    if n > 10 {
      Pow128Mono(10, n - 1);
      Pow128Nine();
    }
  }

  /**
   * The loop of `binary.ReadUvarint` reading from `data` at `p`, with `i`
   * bytes read so far whose value is `x`.  At most ten bytes are read; a
   * tenth byte above 1 would not fit in 64 bits.
   */
  function UvarintLoop(data: seq<Byte>, p: nat, i: nat, x: nat): (r: Read<Uint64>)
    requires p + i <= |data| && i <= MaxVarintLen64 && x < Pow128(i)
    ensures p + i <= r.end <= |data| && r.end <= p + MaxVarintLen64
    decreases MaxVarintLen64 - i
  {
    if i == MaxVarintLen64 then Read(Err(Overflow), p + i)
    else if p + i == |data| then Read(Err(if i > 0 then UnexpectedEOF else EOF), p + i)
    else
      var b := data[p + i];
      if b < 128 then
        if i == 9 && b > 1 then Read(Err(Overflow), p + i + 1)
        else
          // x | uint64(b)<<s: the bits of `x` lie below bit 7i, so OR adds.
          DigitFits(i, x, b);
          Read(Ok(x + Shl7(b, i)), p + i + 1)
      else
        // x |= uint64(b&0x7f) << s
        AddDigit(i, x, b - 128);
        UvarintLoop(data, p, i + 1, x + Shl7(b - 128, i))
  }

  /** `binary.ReadUvarint` on the bytes of `data` from `p`. */
  function UvarintAt(data: seq<Byte>, p: nat): (r: Read<Uint64>)
    requires p <= |data|
    ensures p <= r.end <= |data|
  {
    UvarintLoop(data, p, 0, 0)
  }

  /** `data` holds the bytes `b` at position `p`. */
  predicate HoldsAt(data: seq<Byte>, p: nat, b: seq<Byte>) {
    p + |b| <= |data| && data[p..p + |b|] == b
  }

  /** A uint64 has one bit in its tenth seven-bit group. */
  lemma TenthGroupSmall(y: nat)
    requires Shl7(y, 9) <= MaxUint64
    ensures y <= 1
  {
    if y > 1 {
      Shl7Mono(2, y, 9);
    }
  }

  /** A uint64 with a group above its `i`-th needs `i` to be below 9. */
  lemma GroupsBelowTen(y: nat, i: nat)
    requires Shl7(y, i) <= MaxUint64 && y >= 128
    ensures i < 9
  {
    Shl7Mono(128, y, i);
    Shl7Next(1, i);
    if i >= 9 {
      Pow128Mono(10, i + 1);
      Pow128Nine();
    }
  }

  /** The loop meets a byte with the high bit set: it adds its group and goes on. */
  lemma UvarintLoopContinue(data: seq<Byte>, p: nat, i: nat, x: nat, d: nat)
    requires p + i < |data| && i < MaxVarintLen64 && x < Pow128(i) && data[p + i] == d + 128
    ensures x + Shl7(d, i) < Pow128(i + 1)
    ensures UvarintLoop(data, p, i, x) == UvarintLoop(data, p, i + 1, x + Shl7(d, i))
  {
    AddDigit(i, x, d);
  }

  /** The loop meets a last byte that fits: it returns the value with that group added. */
  lemma UvarintLoopStop(data: seq<Byte>, p: nat, i: nat, x: nat)
    requires p + i < |data| && i < MaxVarintLen64 && x < Pow128(i) && data[p + i] < 128
    requires i == 9 ==> data[p + i] <= 1
    ensures x + Shl7(data[p + i], i) <= MaxUint64
    ensures UvarintLoop(data, p, i, x) == Read(Ok(x + Shl7(data[p + i], i)), p + i + 1)
  {
    DigitFits(i, x, data[p + i]);
  }

  /** `UvarintLoopReads` for a one-byte varint. */
  lemma UvarintLoopReadsLast(data: seq<Byte>, p: nat, i: nat, x: nat, y: nat)
    requires i <= 9 && x < Pow128(i) && x + Shl7(y, i) <= MaxUint64 && y < 128
    requires p + i < |data| && data[p + i] == y
    ensures UvarintLoop(data, p, i, x) == Read(Ok(x + Shl7(y, i)), p + i + 1)
  {
    if i == 9 {
      TenthGroupSmall(y);
    }
    UvarintLoopStop(data, p, i, x);
  }

  /** Bytes held at `p` hold their two parts at `p` and after the first. */
  lemma HoldsAtSplit(data: seq<Byte>, p: nat, a: seq<Byte>, b: seq<Byte>)
    requires HoldsAt(data, p, a + b)
    ensures HoldsAt(data, p, a) && HoldsAt(data, p + |a|, b)
  {
    assert data[p..p + |a|] == (a + b)[..|a|];
    assert data[p + |a|..p + |a| + |b|] == (a + b)[|a|..];
  }

  /** A varint of more than one byte is its first byte followed by the varint of the rest. */
  lemma UvarintHoldsFirst(data: seq<Byte>, p: nat, y: nat)
    requires y >= 128 && HoldsAt(data, p, Uvarint(y))
    ensures p < |data| && data[p] == y % 128 + 128
    ensures HoldsAt(data, p + 1, Uvarint(y / 128)) && |Uvarint(y)| == 1 + |Uvarint(y / 128)|
  {
    var u, t := Uvarint(y), Uvarint(y / 128);
    assert u == [y % 128 + 128] + t;
    assert data[p] == u[0];
    assert data[p + 1..p + 1 + |t|] == data[p..p + |u|][1..];
  }

  /** Reading the varint of `y` after `i` bytes worth `x` adds `y` shifted past them. */
  lemma {:induction false} UvarintLoopReads(data: seq<Byte>, p: nat, i: nat, x: nat, y: nat)
    requires i <= 9 && x < Pow128(i) && x + Shl7(y, i) <= MaxUint64
    requires HoldsAt(data, p + i, Uvarint(y))
    ensures UvarintLoop(data, p, i, x) == Read(Ok(x + Shl7(y, i)), p + i + |Uvarint(y)|)
    decreases y
  {
    if y < 128 {
      assert Uvarint(y) == [y];
      assert data[p + i] == data[p + i..p + i + 1][0];
      UvarintLoopReadsLast(data, p, i, x, y);
    } else {
      UvarintHoldsFirst(data, p + i, y);
      var d := y % 128;
      var x' := x + Shl7(d, i);
      SplitDigit(y, i);
      GroupsBelowTen(y, i);
      UvarintLoopContinue(data, p, i, x, d);
      UvarintLoopReads(data, p, i + 1, x', y / 128);
      assert x' + Shl7(y / 128, i + 1) == x + Shl7(y, i);
    }
  }

  /** `binary.ReadUvarint` reads back what `binary.PutUvarint` wrote, whatever follows. */
  lemma UvarintRoundTrip(data: seq<Byte>, p: nat, y: Uint64)
    requires HoldsAt(data, p, Uvarint(y))
    ensures UvarintAt(data, p) == Read(Ok(y), p + |Uvarint(y)|)
  {
    UvarintLoopReads(data, p, 0, 0, y);
  }

  /** `v / 256` is below `P` when `v` is below `256 P`. */
  lemma DivBound(v: nat, p: nat)
    requires v < 256 * p
    ensures v / 256 < p
  {
  }

  // ---------------------------------------------------------------------
  // Fixed-width integers

  /** The `n` low bytes of `v`, most significant first (`binary.BigEndian.PutUint64` for n = 8). */
  function BigEndian(v: nat, n: nat): (r: seq<Byte>)
    ensures |r| == n
  {
    if n == 0 then [] else BigEndian(v / 256, n - 1) + [v % 256]
  }

  /** The number the bytes spell, most significant first (`binary.BigEndian.Uint64` for 8 bytes). */
  function BigEndianValue(b: seq<Byte>): (v: nat)
    ensures v < Pow256(|b|)
  {
    if b == [] then 0 else BigEndianValue(b[..|b| - 1]) * 256 + b[|b| - 1]
  }

  /** The `n` low bytes of `v`, least significant first: a uint64's memory on a little-endian machine. */
  function LittleEndian(v: nat, n: nat): (r: seq<Byte>)
    ensures |r| == n
  {
    if n == 0 then [] else [v % 256] + LittleEndian(v / 256, n - 1)
  }

  /** The number the bytes spell, least significant first. */
  function LittleEndianValue(b: seq<Byte>): (v: nat)
    ensures v < Pow256(|b|)
  {
    if b == [] then 0 else b[0] + 256 * LittleEndianValue(b[1..])
  }

  lemma {:induction false} BigEndianRoundTrip(v: nat, n: nat)
    requires v < Pow256(n)
    ensures BigEndianValue(BigEndian(v, n)) == v
  {
    if n > 0 {
      var b := BigEndian(v, n);
      assert b[..n - 1] == BigEndian(v / 256, n - 1);
      DivBound(v, Pow256(n - 1));
      BigEndianRoundTrip(v / 256, n - 1);
    }
  }

  lemma {:induction false} BigEndianOfValue(b: seq<Byte>)
    ensures BigEndian(BigEndianValue(b), |b|) == b
  {
    if b != [] {
      var w := BigEndianValue(b[..|b| - 1]);
      var v := w * 256 + b[|b| - 1];
      assert v / 256 == w && v % 256 == b[|b| - 1];
      BigEndianOfValue(b[..|b| - 1]);
      assert b == b[..|b| - 1] + [b[|b| - 1]];
    }
  }

  lemma {:induction false} LittleEndianRoundTrip(v: nat, n: nat)
    requires v < Pow256(n)
    ensures LittleEndianValue(LittleEndian(v, n)) == v
  {
    if n > 0 {
      var b := LittleEndian(v, n);
      assert b[1..] == LittleEndian(v / 256, n - 1);
      DivBound(v, Pow256(n - 1));
      LittleEndianRoundTrip(v / 256, n - 1);
    }
  }

  lemma {:induction false} LittleEndianOfValue(b: seq<Byte>)
    ensures LittleEndian(LittleEndianValue(b), |b|) == b
  {
    if b != [] {
      var w := LittleEndianValue(b[1..]);
      var v := b[0] + 256 * w;
      assert v / 256 == w && v % 256 == b[0];
      LittleEndianOfValue(b[1..]);
      assert b == [b[0]] + b[1..];
    }
  }

  /** A uint64 survives each fixed-width encoding of 8 bytes. */
  lemma FixedRoundTrip(v: Uint64)
    ensures BigEndianValue(BigEndian(v, 8)) == v
    ensures LittleEndianValue(LittleEndian(v, 8)) == v
  {
    Pow256Eight();
    BigEndianRoundTrip(v, 8);
    LittleEndianRoundTrip(v, 8);
  }

  // ---------------------------------------------------------------------
  // Streams

  /** An `io.Writer` that keeps everything written to it. */
  class Writer {
    var out: seq<Byte>

    constructor ()
      ensures out == []
    {
      out := [];
    }

    /** `Write`: appends `b`. */
    method Write(b: seq<Byte>)
      modifies this
      ensures out == old(out) + b
    {
      out := out + b;
    }
  }

  /** The `reader` the decoders take (an `io.Reader` and `io.ByteReader`) over the bytes `data`. */
  class Reader {
    const data: seq<Byte>
    var pos: nat

    ghost predicate Valid()
      reads this
    {
      pos <= |data|
    }

    constructor (data: seq<Byte>)
      ensures Valid() && this.data == data && pos == 0
    {
      this.data := data;
      pos := 0;
    }

    /** `ReadByte`: the next byte, or `EOF` at the end. */
    method ReadByte() returns (r: Result<Byte, Error>)
      requires Valid()
      modifies this
      ensures Valid()
      ensures old(pos) < |data| ==> r == Ok(data[old(pos)]) && pos == old(pos) + 1
      ensures old(pos) == |data| ==> r == Err(EOF) && pos == old(pos)
    {
      if pos == |data| {
        return Err(EOF);
      }
      r := Ok(data[pos]);
      pos := pos + 1;
    }

    /**
     * `io.ReadFull` of `n` bytes: `got` holds the bytes it placed in the
     * buffer, all `n` of them unless it failed.
     */
    method ReadFull(n: nat) returns (got: seq<Byte>, err: Option<Error>)
      requires Valid()
      modifies this
      ensures Valid() && pos == FullAt(data, old(pos), n).end && got == data[old(pos)..pos]
      ensures err.None? ==> FullAt(data, old(pos), n).result == Ok(got)
      ensures err.Some? ==> FullAt(data, old(pos), n).result == Err(err.value)
    {
      if n == 0 {
        return [], None;
      }
      if pos == |data| {
        return [], Some(EOF);
      }
      if |data| - pos < n {
        got := data[pos..];
        pos := |data|;
        return got, Some(UnexpectedEOF);
      }
      got := data[pos..pos + n];
      pos := pos + n;
      err := None;
    }
  }

  /**
   * `io.ReadFull` of `n` bytes from `p`: nothing left is `EOF`, fewer than
   * `n` bytes is `UnexpectedEOF` after consuming them.
   */
  function FullAt(data: seq<Byte>, p: nat, n: nat): (r: Read<seq<Byte>>)
    requires p <= |data|
    ensures p <= r.end <= |data| && r.end <= p + n
    ensures r.result.Ok? <==> n == 0 || p + n <= |data|
    ensures r.result.Ok? ==> |r.result.value| == n && HoldsAt(data, p, r.result.value) && r.end == p + n
  {
    if n == 0 then Read(Ok([]), p)
    else if p == |data| then Read(Err(EOF), p)
    else if |data| - p < n then Read(Err(UnexpectedEOF), |data|)
    else Read(Ok(data[p..p + n]), p + n)
  }

  /** Reading the bytes that are there succeeds and returns them. */
  lemma FullAtHolds(data: seq<Byte>, p: nat, b: seq<Byte>)
    requires HoldsAt(data, p, b)
    ensures FullAt(data, p, |b|) == Read(Ok(b), p + |b|)
  {
  }

  /** `readByte`: one byte through `io.ReadFull`; on error the byte is 0. */
  method ReadOneByte(r: Reader) returns (b: Byte, err: Option<Error>)
    requires r.Valid()
    modifies r
    ensures r.Valid()
    ensures old(r.pos) < |r.data| ==> b == r.data[old(r.pos)] && err == None && r.pos == old(r.pos) + 1
    ensures old(r.pos) == |r.data| ==> b == 0 && err == Some(EOF) && r.pos == old(r.pos)
  {
    var got, e := r.ReadFull(1);
    if e.Some? {
      return 0, e;
    }
    return got[0], None;
  }

  /**
   * `binary.PutUvarint`: writes the varint of `x` at the start of `buf`
   * and returns its length.
   */
  method PutUvarint(buf: array<Byte>, x: Uint64) returns (n: nat)
    requires buf.Length >= MaxVarintLen64
    modifies buf
    ensures n <= buf.Length && buf[..n] == Uvarint(x)
    ensures forall k :: n <= k < buf.Length ==> buf[k] == old(buf[k])
  {
    UvarintLength(x);
    var y: nat := x;
    var i := 0;
    while y >= 128
      invariant i + |Uvarint(y)| <= MaxVarintLen64
      invariant buf[..i] + Uvarint(y) == Uvarint(x)
      invariant forall k :: i <= k < buf.Length ==> buf[k] == old(buf[k])
      decreases y
    {
      ghost var written := buf[..i];
      buf[i] := y % 128 + 128;  // byte(x) | 0x80
      assert buf[..i + 1] == written + [y % 128 + 128];
      y := y / 128;             // x >>= 7
      i := i + 1;
    }
    ghost var written := buf[..i];
    buf[i] := y;
    assert buf[..i + 1] == written + [y];
    n := i + 1;
  }

  /** `writeUvarint`. */
  method WriteUvarint(w: Writer, u: Uint64)
    modifies w
    ensures w.out == old(w.out) + Uvarint(u)
  {
    var b := new Byte[MaxVarintLen64];
    var n := PutUvarint(b, u);
    w.Write(b[..n]);
  }

  /**
   * What `binary.ReadUvarint` has read from `p` after `i` bytes worth `x`,
   * when reading on gives `t`.
   */
  ghost predicate ReadingAt(data: seq<Byte>, p: nat, i: nat, x: nat, t: Read<Uint64>) {
    p + i <= |data| && i <= MaxVarintLen64 && x < Pow128(i) && UvarintLoop(data, p, i, x) == t
  }

  /**
   * The loop state of `binary.ReadUvarint`: `ReadingAt`, stated so that the
   * verifier unfolds it only where a proof names `ReadingAt` itself.
   */
  ghost predicate Reading(data: seq<Byte>, p: nat, i: nat, x: nat, t: Read<Uint64>) {
    forall j: nat :: j == i ==> ReadingAt(data, p, j, x, t)
  }

  lemma ReadingStarts(data: seq<Byte>, p: nat)
    requires p <= |data|
    ensures Reading(data, p, 0, 0, UvarintAt(data, p))
  {
    assert ReadingAt(data, p, 0, 0, UvarintAt(data, p));
  }

  /**
   * The next byte decides: the input ends, the tenth byte overflows, a byte
   * below 128 ends the varint, or a byte with the high bit set adds its group.
   */
  lemma ReadingNext(data: seq<Byte>, p: nat, i: nat, x: nat, t: Read<Uint64>)
    requires Reading(data, p, i, x, t) && i < MaxVarintLen64
    ensures p + i == |data| ==> t == Read(Err(if i > 0 then UnexpectedEOF else EOF), p + i)
    ensures p + i < |data| && data[p + i] < 128 && i == 9 && data[p + i] > 1 ==>
      t == Read(Err(Overflow), p + i + 1)
    ensures p + i < |data| && data[p + i] < 128 && !(i == 9 && data[p + i] > 1) ==>
      x + Shl7(data[p + i], i) <= MaxUint64 && t == Read(Ok(x + Shl7(data[p + i], i)), p + i + 1)
    ensures p + i < |data| && data[p + i] >= 128 ==> Reading(data, p, i + 1, x + Shl7(data[p + i] - 128, i), t)
  {
    assert ReadingAt(data, p, i, x, t);
    if p + i < |data| {
      if data[p + i] < 128 {
        if !(i == 9 && data[p + i] > 1) {
          UvarintLoopStop(data, p, i, x);
        }
      } else {
        UvarintLoopContinue(data, p, i, x, data[p + i] - 128);
        assert ReadingAt(data, p, i + 1, x + Shl7(data[p + i] - 128, i), t);
      }
    }
  }

  /** Ten bytes with the high bit set overflow. */
  lemma ReadingTen(data: seq<Byte>, p: nat, x: nat, t: Read<Uint64>)
    requires Reading(data, p, MaxVarintLen64, x, t)
    ensures t == Read(Err(Overflow), p + MaxVarintLen64)
  {
    assert ReadingAt(data, p, MaxVarintLen64, x, t);
  }

  /** `binary.ReadUvarint`. */
  method ReadUvarint(r: Reader) returns (res: Result<Uint64, Error>)
    requires r.Valid()
    modifies r
    ensures r.Valid() && Read(res, r.pos) == UvarintAt(r.data, old(r.pos))
  {
    ghost var p, data := r.pos, r.data;
    ghost var t := UvarintAt(data, p);
    var x: nat := 0;
    ReadingStarts(data, p);
    for i := 0 to MaxVarintLen64
      invariant r.Valid() && r.pos == p + i && Reading(data, p, i, x, t)
    {
      ReadingNext(data, p, i, x, t);
      var b := r.ReadByte();
      if b.Err? {
        return Err(if i > 0 then UnexpectedEOF else b.error);
      }
      if b.value < 128 {
        if i == 9 && b.value > 1 {
          return Err(Overflow);
        }
        return Ok(x + Shl7(b.value, i));  // x | uint64(b)<<s
      }
      x := x + Shl7(b.value - 128, i);    // x |= uint64(b&0x7f) << s
    }
    ReadingTen(data, p, x, t);
    return Err(Overflow);
  }

  // ---------------------------------------------------------------------
  // Requests

  /** The fields of a `request`. */
  datatype RequestFields = RequestFields(min: Int64, max: Int64, n: Int64, format: Byte)

  /** What a decoder leaves behind: the fields it reached, its error if any, and the reader's position. */
  datatype Decoded<T> = Decoded(value: T, err: Option<Error>, end: nat)

  /** The bytes `request.encode` writes: min, max and n as uvarints of their uint64 conversions, then the format byte. */
  function EncodedRequest(q: RequestFields): seq<Byte> {
    Uvarint(ToUint64(q.min)) + Uvarint(ToUint64(q.max)) + Uvarint(ToUint64(q.n)) + [q.format]
  }

  /**
   * `request.decode` from `p` on a request holding `before`: each field is
   * assigned as soon as it is read, so an error leaves the earlier ones
   * set; a missing format byte sets the format to 0.
   */
  function DecodeRequest(data: seq<Byte>, p: nat, before: RequestFields): (d: Decoded<RequestFields>)
    requires p <= |data|
    ensures p <= d.end <= |data|
  {
    var a := UvarintAt(data, p);
    if a.result.Err? then Decoded(before, Some(a.result.error), a.end)
    else DecodeMax(data, a.end, before.(min := ToInt64(a.result.value)))
  }

  /** The rest of `request.decode` once `min` is set. */
  function DecodeMax(data: seq<Byte>, p: nat, f: RequestFields): (d: Decoded<RequestFields>)
    requires p <= |data|
    ensures p <= d.end <= |data|
  {
    var a := UvarintAt(data, p);
    if a.result.Err? then Decoded(f, Some(a.result.error), a.end)
    else DecodeN(data, a.end, f.(max := ToInt64(a.result.value)))
  }

  /** The rest of `request.decode` once `max` is set. */
  function DecodeN(data: seq<Byte>, p: nat, f: RequestFields): (d: Decoded<RequestFields>)
    requires p <= |data|
    ensures p <= d.end <= |data|
  {
    var a := UvarintAt(data, p);
    if a.result.Err? then Decoded(f, Some(a.result.error), a.end)
    else DecodeFormat(data, a.end, f.(n := ToInt64(a.result.value)))
  }

  /** The last step of `request.decode`: `readByte` into `format`. */
  function DecodeFormat(data: seq<Byte>, p: nat, f: RequestFields): (d: Decoded<RequestFields>)
    requires p <= |data|
    ensures p <= d.end <= |data|
  {
    var e := FullAt(data, p, 1);
    if e.result.Err? then Decoded(f.(format := 0), Some(e.result.error), e.end)
    else Decoded(f.(format := e.result.value[0]), None, e.end)
  }

  /** The varint of an int64 converted to uint64 reads back, and what follows it is left. */
  lemma Int64VarintAt(data: seq<Byte>, p: nat, v: Int64, rest: seq<Byte>, e: nat)
    requires HoldsAt(data, p, Uvarint(ToUint64(v)) + rest) && e == p + |Uvarint(ToUint64(v))|
    ensures p < e <= |data| && UvarintAt(data, p) == Read(Ok(ToUint64(v)), e)
    ensures HoldsAt(data, e, rest)
  {
    HoldsAtSplit(data, p, Uvarint(ToUint64(v)), rest);
    UvarintRoundTrip(data, p, ToUint64(v));
  }

  lemma DecodeFormatOf(data: seq<Byte>, p: nat, f: RequestFields)
    requires p < |data|
    ensures DecodeFormat(data, p, f) == Decoded(f.(format := data[p]), None, p + 1)
  {
    assert data[p..p + 1] == [data[p]];
  }

  lemma DecodeNOf(data: seq<Byte>, p: nat, f: RequestFields, n: Int64, p1: nat)
    requires p <= p1 < |data| && UvarintAt(data, p) == Read(Ok(ToUint64(n)), p1)
    ensures DecodeN(data, p, f) == Decoded(f.(n := n, format := data[p1]), None, p1 + 1)
  {
    ToInt64OfToUint64(n);
    DecodeFormatOf(data, p1, f.(n := n));
  }

  lemma DecodeMaxOf(data: seq<Byte>, p: nat, f: RequestFields, max: Int64, p1: nat, n: Int64, p2: nat)
    requires p <= p1 <= p2 < |data|
    requires UvarintAt(data, p) == Read(Ok(ToUint64(max)), p1)
    requires UvarintAt(data, p1) == Read(Ok(ToUint64(n)), p2)
    ensures DecodeMax(data, p, f) == Decoded(f.(max := max, n := n, format := data[p2]), None, p2 + 1)
  {
    ToInt64OfToUint64(max);
    DecodeNOf(data, p1, f.(max := max), n, p2);
  }

  /** Three varints and a byte decode to the request they spell. */
  lemma DecodeRequestOf(data: seq<Byte>, p: nat, before: RequestFields, q: RequestFields, p1: nat, p2: nat, p3: nat)
    requires p <= p1 <= p2 <= p3 < |data| && data[p3] == q.format
    requires UvarintAt(data, p) == Read(Ok(ToUint64(q.min)), p1)
    requires UvarintAt(data, p1) == Read(Ok(ToUint64(q.max)), p2)
    requires UvarintAt(data, p2) == Read(Ok(ToUint64(q.n)), p3)
    ensures DecodeRequest(data, p, before) == Decoded(q, None, p3 + 1)
  {
    ToInt64OfToUint64(q.min);
    DecodeMaxOf(data, p1, before.(min := q.min), q.max, p2, q.n, p3);
  }

  /** A request decodes to the one that was encoded, whatever the request held before and whatever follows. */
  lemma RequestRoundTrip(data: seq<Byte>, p: nat, q: RequestFields, before: RequestFields)
    requires HoldsAt(data, p, EncodedRequest(q))
    ensures DecodeRequest(data, p, before) == Decoded(q, None, p + |EncodedRequest(q)|)
  {
    var u1, u2, u3 := Uvarint(ToUint64(q.min)), Uvarint(ToUint64(q.max)), Uvarint(ToUint64(q.n));
    var p1, p2, p3 := p + |u1|, p + |u1| + |u2|, p + |u1| + |u2| + |u3|;
    assert EncodedRequest(q) == u1 + (u2 + (u3 + [q.format]));
    Int64VarintAt(data, p, q.min, u2 + (u3 + [q.format]), p1);
    Int64VarintAt(data, p1, q.max, u3 + [q.format], p2);
    Int64VarintAt(data, p2, q.n, [q.format], p3);
    assert p3 < |data| && data[p3] == data[p3..p3 + 1][0];
    DecodeRequestOf(data, p, before, q, p1, p2, p3);
  }

  /** A `request`: the range and count of numbers asked for and the format wanted. */
  class Request {
    var min: Int64
    var max: Int64
    var n: Int64
    var format: Byte

    constructor (q: RequestFields)
      ensures Fields() == q
    {
      min, max, n, format := q.min, q.max, q.n, q.format;
    }

    function Fields(): RequestFields
      reads this
    {
      RequestFields(min, max, n, format)
    }

    /** `request.encode`. */
    method Encode(w: Writer)
      modifies w
      ensures w.out == old(w.out) + EncodedRequest(Fields())
    {
      WriteUvarint(w, ToUint64(min));
      WriteUvarint(w, ToUint64(max));
      WriteUvarint(w, ToUint64(n));
      w.Write([format]);
    }

    /** `request.decode`. */
    method Decode(r: Reader) returns (err: Option<Error>)
      requires r.Valid()
      modifies this, r
      ensures r.Valid()
      ensures var d := DecodeRequest(r.data, old(r.pos), old(Fields()));
        Fields() == d.value && err == d.err && r.pos == d.end
    {
      var x := ReadUvarint(r);
      if x.Err? {
        return Some(x.error);
      }
      min := ToInt64(x.value);
      x := ReadUvarint(r);
      if x.Err? {
        return Some(x.error);
      }
      max := ToInt64(x.value);
      x := ReadUvarint(r);
      if x.Err? {
        return Some(x.error);
      }
      n := ToInt64(x.value);
      format, err := ReadOneByte(r);
    }
  }

  // ---------------------------------------------------------------------
  // Responses

  /** The bytes one element takes in `format` 0, 1 or 2. */
  function Element(format: Byte, v: Uint64): (r: seq<Byte>)
    requires format <= FormatUnsafe
    ensures format != FormatUvarint ==> |r| == 8
  {
    if format == FormatUvarint then Uvarint(v)
    else if format == FormatBigEndian then BigEndian(v, 8)
    else LittleEndian(v, 8)
  }

  /** The elements of `s` one after another. */
  function Elements(format: Byte, s: seq<Uint64>): (r: seq<Byte>)
    requires format <= FormatUnsafe
    ensures format != FormatUvarint ==> |r| == 8 * |s|
  {
    if s == [] then [] else Element(format, s[0]) + Elements(format, s[1..])
  }

  lemma {:induction false} ElementsSnoc(format: Byte, s: seq<Uint64>, v: Uint64)
    requires format <= FormatUnsafe
    ensures Elements(format, s + [v]) == Elements(format, s) + Element(format, v)
  {
    if s == [] {
      assert [v][1..] == [];
    } else {
      assert (s + [v])[1..] == s[1..] + [v];
      ElementsSnoc(format, s[1..], v);
    }
  }

  /** The uint64s whose little-endian memory is `mem`, 8 bytes each. */
  function Unpack(mem: seq<Byte>, n: nat): (s: seq<Uint64>)
    requires |mem| == 8 * n
    ensures |s| == n
  {
    if n == 0 then []
    else
      Pow256Eight();
      [LittleEndianValue(mem[..8])] + Unpack(mem[8..], n - 1)
  }

  /** A slice's memory, read back as uint64s, is the slice. */
  lemma {:induction false} UnpackElements(s: seq<Uint64>)
    ensures Unpack(Elements(FormatUnsafe, s), |s|) == s
  {
    if s != [] {
      var m := Elements(FormatUnsafe, s);
      assert m[..8] == LittleEndian(s[0], 8) && m[8..] == Elements(FormatUnsafe, s[1..]);
      FixedRoundTrip(s[0]);
      UnpackElements(s[1..]);
    }
  }

  lemma ConcatAssoc(a: seq<Byte>, b: seq<Byte>, c: seq<Byte>)
    ensures a + b + c == a + (b + c)
  {
  }

  /** What a writer receives, and the error or panic that ended the writing. */
  datatype Written = Written(out: seq<Byte>, err: Option<Error>)

  /**
   * `response.encode`: the format byte and the length as a varint, then the
   * elements.  An unknown format panics after the header is written, and so
   * does the unsafe format on an empty slice (`&rsp.s[0]`).
   */
  function EncodeResponse(format: Byte, s: seq<Uint64>): Written
    requires |s| <= MaxUint64
  {
    var header := [format] + Uvarint(|s|);
    if format > FormatUnsafe then Written(header, Some(BadFormat))
    else if format == FormatUnsafe && s == [] then Written(header, Some(IndexOutOfRange))
    else Written(header + Elements(format, s), None)
  }

  /**
   * A response's state: its format, the backing array of its slice (whose
   * length is the slice's capacity), and the slice's length.
   */
  datatype ResponseFields = ResponseFields(format: Byte, backing: seq<Uint64>, len: nat)

  predicate WellFormed(f: ResponseFields) {
    f.len <= |f.backing|
  }

  /** One element in format 0 or 1 read from `q`: `binary.ReadUvarint`, or `io.ReadFull` of 8 bytes. */
  function ElementAt(format: Byte, data: seq<Byte>, q: nat): (r: Read<Uint64>)
    requires format <= FormatBigEndian && q <= |data|
    ensures q <= r.end <= |data|
  {
    if format == FormatUvarint then UvarintAt(data, q)
    else
      var f := FullAt(data, q, 8);
      if f.result.Err? then Read(Err(f.result.error), f.end)
      else
        Pow256Eight();
        Read(Ok(BigEndianValue(f.result.value)), f.end)
  }

  /**
   * The element loop of `response.decode` for formats 0 and 1 from element
   * `i` on: each element read is stored at once, and the first error stops it.
   */
  function Fill(data: seq<Byte>, q: nat, f: ResponseFields, i: nat): (d: Decoded<ResponseFields>)
    requires q <= |data| && f.format <= FormatBigEndian && i <= f.len <= |f.backing|
    ensures q <= d.end <= |data|
    ensures d.value.format == f.format && d.value.len == f.len && |d.value.backing| == |f.backing|
    decreases f.len - i
  {
    if i == f.len then Decoded(f, None, q)
    else
      var e := ElementAt(f.format, data, q);
      if e.result.Err? then Decoded(f, Some(e.result.error), e.end)
      else Fill(data, e.end, f.(backing := f.backing[i := e.result.value]), i + 1)
  }

  /**
   * The unsafe format: `io.ReadFull` straight into the slice's memory.  The
   * bytes it gets overwrite the start of the memory, the rest keeps its old
   * contents.
   */
  function ReadMemory(data: seq<Byte>, q: nat, f: ResponseFields): (d: Decoded<ResponseFields>)
    requires q <= |data| && f.len <= |f.backing|
    ensures q <= d.end <= |data|
    ensures d.value.format == f.format && d.value.len == f.len && |d.value.backing| == |f.backing|
  {
    var r := FullAt(data, q, 8 * f.len);
    var got := data[q..r.end];
    var mem := Elements(FormatUnsafe, f.backing[..f.len]);
    var s := Unpack(got + mem[|got|..], f.len);
    var err := if r.result.Ok? then None else Some(r.result.error);
    Decoded(f.(backing := s + f.backing[f.len..]), err, r.end)
  }

  /** The `switch` of `response.decode`, once the slice has its length. */
  function DecodeElements(data: seq<Byte>, q: nat, f: ResponseFields): (d: Decoded<ResponseFields>)
    requires q <= |data| && WellFormed(f)
    ensures q <= d.end <= |data| && WellFormed(d.value)
  {
    if f.format <= FormatBigEndian then Fill(data, q, f, 0)
    else if f.format == FormatUnsafe then
      if f.len == 0 then Decoded(f, Some(IndexOutOfRange), q)
      else ReadMemory(data, q, f)
    else Decoded(f, Some(BadFormat), q)
  }

  function Zeros(n: nat): (s: seq<Uint64>)
    ensures |s| == n && forall i :: 0 <= i < n ==> s[i] == 0
  {
    seq(n, _ => 0)
  }

  /**
   * `response.decode` from `p` on a response in state `before`: the format
   * byte (0 when it cannot be read), the length, then the elements.  The
   * slice is resliced when the capacity allows, else newly made; a length
   * that is negative as an `int` panics in the reslice.
   */
  function DecodeResponse(data: seq<Byte>, p: nat, before: ResponseFields): (d: Decoded<ResponseFields>)
    requires p <= |data| && WellFormed(before)
    ensures p <= d.end <= |data| && WellFormed(d.value)
  {
    var b := FullAt(data, p, 1);
    if b.result.Err? then Decoded(before.(format := 0), Some(b.result.error), b.end)
    else DecodeLength(data, b.end, before.(format := b.result.value[0]))
  }

  /** The rest of `response.decode` once the format is set. */
  function DecodeLength(data: seq<Byte>, p: nat, f: ResponseFields): (d: Decoded<ResponseFields>)
    requires p <= |data| && WellFormed(f)
    ensures p <= d.end <= |data| && WellFormed(d.value)
  {
    var a := UvarintAt(data, p);
    if a.result.Err? then Decoded(f, Some(a.result.error), a.end)
    else
      var n := ToInt64(a.result.value);
      if n < 0 then Decoded(f, Some(SliceBounds), a.end)
      else
        var backing := if n <= |f.backing| then f.backing else Zeros(n);
        DecodeElements(data, a.end, ResponseFields(f.format, backing, n))
  }

  /** An element in format 0 or 1 reads back as itself, and what follows it is left. */
  lemma ElementAtReads(format: Byte, data: seq<Byte>, q: nat, v: Uint64, rest: seq<Byte>, e: nat)
    requires format <= FormatBigEndian && HoldsAt(data, q, Element(format, v) + rest)
    requires e == q + |Element(format, v)|
    ensures q <= e <= |data| && ElementAt(format, data, q) == Read(Ok(v), e)
    ensures HoldsAt(data, e, rest)
  {
    HoldsAtSplit(data, q, Element(format, v), rest);
    if format == FormatUvarint {
      UvarintRoundTrip(data, q, v);
    } else {
      FullAtHolds(data, q, BigEndian(v, 8));
      FixedRoundTrip(v);
    }
  }

  /** One turn of the element loop stores the element read. */
  lemma FillStep(data: seq<Byte>, q: nat, f: ResponseFields, i: nat, v: Uint64, q1: nat)
    requires f.format <= FormatBigEndian && i < f.len <= |f.backing| && q <= q1 <= |data|
    requires ElementAt(f.format, data, q) == Read(Ok(v), q1)
    ensures Fill(data, q, f, i) == Fill(data, q1, f.(backing := f.backing[i := v]), i + 1)
  {
  }

  /** The element loop reads back element `i` and is left with the ones after it. */
  lemma FillReadsNext(data: seq<Byte>, q: nat, f: ResponseFields, i: nat, s: seq<Uint64>, q1: nat)
    requires f.format <= FormatBigEndian && i < f.len == |s| <= |f.backing| && q <= |data|
    requires f.backing[..i] == s[..i]
    requires HoldsAt(data, q, Elements(f.format, s[i..])) && q1 == q + |Element(f.format, s[i])|
    ensures q1 <= |data| && Fill(data, q, f, i) == Fill(data, q1, f.(backing := f.backing[i := s[i]]), i + 1)
    ensures f.backing[i := s[i]][..i + 1] == s[..i + 1]
    ensures HoldsAt(data, q1, Elements(f.format, s[i + 1..]))
    ensures q + |Elements(f.format, s[i..])| == q1 + |Elements(f.format, s[i + 1..])|
  {
    var v, rest := s[i], Elements(f.format, s[i + 1..]);
    assert s[i..][1..] == s[i + 1..];
    ElementAtReads(f.format, data, q, v, rest, q1);
    FillStep(data, q, f, i, v, q1);
    assert f.backing[i := v][..i + 1] == s[..i + 1];
  }

  /** The element loop reads back the elements written from `i` on. */
  lemma {:induction false} FillReads(data: seq<Byte>, q: nat, f: ResponseFields, i: nat, s: seq<Uint64>, e: nat)
    requires f.format <= FormatBigEndian && i <= f.len == |s| <= |f.backing| && q <= |data|
    requires f.backing[..i] == s[..i]
    requires HoldsAt(data, q, Elements(f.format, s[i..])) && e == q + |Elements(f.format, s[i..])|
    ensures var d := Fill(data, q, f, i);
      d.err == None && d.value.backing[..|s|] == s && d.end == e
    decreases |s| - i
  {
    if i == |s| {
      assert s[..i] == s;
    } else {
      var q1 := q + |Element(f.format, s[i])|;
      FillReadsNext(data, q, f, i, s, q1);
      FillReads(data, q1, f.(backing := f.backing[i := s[i]]), i + 1, s, e);
    }
  }

  /** The unsafe format reads back the memory written. */
  lemma ReadMemoryReads(data: seq<Byte>, q: nat, f: ResponseFields, s: seq<Uint64>)
    requires f.len == |s| <= |f.backing| && q <= |data|
    requires HoldsAt(data, q, Elements(FormatUnsafe, s))
    ensures var d := ReadMemory(data, q, f);
      d.err == None && d.value.backing[..|s|] == s && d.end == q + 8 * |s|
  {
    var n := |s|;
    FullAtHolds(data, q, Elements(FormatUnsafe, s));
    var r := FullAt(data, q, 8 * n);
    var got := data[q..r.end];
    assert got == Elements(FormatUnsafe, s);
    var mem := Elements(FormatUnsafe, f.backing[..n]);
    assert mem[|got|..] == [];
    assert got + mem[|got|..] == got;
    UnpackElements(s);
    var d := ReadMemory(data, q, f);
    assert d.value.backing == s + f.backing[n..];
  }

  /** With a good header, `response.decode` goes on to the elements of the length read. */
  lemma DecodeLengthOf(data: seq<Byte>, p: nat, g: ResponseFields, f: ResponseFields, q: nat)
    requires p <= q <= |data| && WellFormed(g) && f.len <= MaxInt64 && f.format == g.format
    requires f.backing == if f.len <= |g.backing| then g.backing else Zeros(f.len)
    requires UvarintAt(data, p) == Read(Ok(f.len), q)
    ensures DecodeLength(data, p, g) == DecodeElements(data, q, f)
  {
    assert ToInt64(f.len) == f.len;
    assert ResponseFields(g.format, f.backing, f.len) == f;
  }

  lemma DecodeResponseHeader(data: seq<Byte>, p: nat, before: ResponseFields, f: ResponseFields, q: nat, rest: seq<Byte>)
    requires WellFormed(before) && f.len <= MaxInt64
    requires f.backing == if f.len <= |before.backing| then before.backing else Zeros(f.len)
    requires HoldsAt(data, p, [f.format] + (Uvarint(f.len) + rest)) && q == p + 1 + |Uvarint(f.len)|
    ensures q <= |data| && DecodeResponse(data, p, before) == DecodeElements(data, q, f)
    ensures HoldsAt(data, q, rest)
  {
    HoldsAtSplit(data, p, [f.format], Uvarint(f.len) + rest);
    FullAtHolds(data, p, [f.format]);
    var g := before.(format := f.format);
    assert DecodeResponse(data, p, before) == DecodeLength(data, p + 1, g);
    HoldsAtSplit(data, p + 1, Uvarint(f.len), rest);
    UvarintRoundTrip(data, p + 1, f.len);
    DecodeLengthOf(data, p + 1, g, f, q);
  }

  /** The elements of a slice of the length read decode to the slice. */
  lemma DecodeElementsReads(data: seq<Byte>, q: nat, f: ResponseFields, s: seq<Uint64>)
    requires f.len == |s| <= |f.backing| && q <= |data|
    requires f.format <= FormatUnsafe && (f.format == FormatUnsafe ==> s != [])
    requires HoldsAt(data, q, Elements(f.format, s))
    ensures var d := DecodeElements(data, q, f);
      d.err == None && d.value.format == f.format && d.value.len == |s| && d.value.backing[..|s|] == s &&
      d.end == q + |Elements(f.format, s)|
  {
    if f.format <= FormatBigEndian {
      assert s[0..] == s;
      FillReads(data, q, f, 0, s, q + |Elements(f.format, s)|);
    } else {
      ReadMemoryReads(data, q, f, s);
    }
  }

  /**
   * A response decodes to the one that was encoded, whatever state the
   * decoding response had: same format, same elements, all bytes consumed.
   */
  lemma ResponseRoundTrip(data: seq<Byte>, p: nat, format: Byte, s: seq<Uint64>, before: ResponseFields)
    requires WellFormed(before) && |s| <= MaxInt64
    requires format <= FormatUnsafe && (format == FormatUnsafe ==> s != [])
    requires HoldsAt(data, p, EncodeResponse(format, s).out)
    ensures var d := DecodeResponse(data, p, before);
      d.err == None && d.value.format == format && d.value.len == |s| && d.value.backing[..|s|] == s &&
      d.end == p + |EncodeResponse(format, s).out|
  {
    var n := |s|;
    var u, e := Uvarint(n), Elements(format, s);
    assert EncodeResponse(format, s).out == [format] + u + e;
    ConcatAssoc([format], u, e);
    var backing := if n <= |before.backing| then before.backing else Zeros(n);
    var f := ResponseFields(format, backing, n);
    var q := p + 1 + |u|;
    DecodeResponseHeader(data, p, before, f, q, e);
    DecodeElementsReads(data, q, f, s);
  }

  /** A `response`: the format and the slice of numbers, with its backing array. */
  class Response {
    var format: Byte
    var buf: array<Uint64>  // the slice's backing array: its length is the capacity
    var len: nat

    /** The slice fits its backing array, whose length is an `int`. */
    predicate Valid()
      reads this
    {
      len <= buf.Length <= MaxInt64
    }

    function Fields(): ResponseFields
      reads this, buf
    {
      ResponseFields(format, buf[..], len)
    }

    /** `rsp.s`. */
    function Slice(): (s: seq<Uint64>)
      reads this, buf
      requires Valid()
      ensures |s| == len
    {
      buf[..len]
    }

    constructor (format: Byte, s: seq<Uint64>)
      requires |s| <= MaxInt64
      ensures Valid() && this.format == format && Slice() == s
    {
      this.format := format;
      buf := new Uint64[|s|](i requires 0 <= i < |s| => s[i]);
      len := |s|;
    }

    /** The loop of `response.encode` for format 0: `binary.PutUvarint` and a write per element. */
    method WriteUvarints(w: Writer)
      requires Valid()
      modifies w
      ensures w.out == old(w.out) + Elements(FormatUvarint, Slice())
    {
      var b := new Byte[MaxVarintLen64];
      for i := 0 to len
        invariant w.out == old(w.out) + Elements(FormatUvarint, buf[..i])
      {
        var n := PutUvarint(b, buf[i]);
        w.Write(b[..n]);
        ElementsSnoc(FormatUvarint, buf[..i], buf[i]);
        ConcatAssoc(old(w.out), Elements(FormatUvarint, buf[..i]), Uvarint(buf[i]));
        assert buf[..i + 1] == buf[..i] + [buf[i]];
      }
    }

    /** The loop of `response.encode` for format 1: `binary.BigEndian.PutUint64` and a write per element. */
    method WriteBigEndians(w: Writer)
      requires Valid()
      modifies w
      ensures w.out == old(w.out) + Elements(FormatBigEndian, Slice())
    {
      for i := 0 to len
        invariant w.out == old(w.out) + Elements(FormatBigEndian, buf[..i])
      {
        w.Write(BigEndian(buf[i], 8));  // binary.BigEndian.PutUint64, then Write
        ElementsSnoc(FormatBigEndian, buf[..i], buf[i]);
        ConcatAssoc(old(w.out), Elements(FormatBigEndian, buf[..i]), BigEndian(buf[i], 8));
        assert buf[..i + 1] == buf[..i] + [buf[i]];
      }
    }

    /** `response.encode`. */
    method Encode(w: Writer) returns (err: Option<Error>)
      requires Valid()
      modifies w
      ensures w.out == old(w.out) + EncodeResponse(format, Slice()).out
      ensures err == EncodeResponse(format, Slice()).err
    {
      ghost var w0, header := w.out, [format] + Uvarint(len);
      ghost var e := EncodeResponse(format, Slice());
      w.Write([format]);
      WriteUvarint(w, len);
      ConcatAssoc(w0, [format], Uvarint(len));
      if format > FormatUnsafe || (format == FormatUnsafe && len == 0) {
        assert e.out == header;
      } else {
        assert e == Written(header + Elements(format, Slice()), None);
        ConcatAssoc(w0, header, Elements(format, Slice()));
      }
      if format == FormatUvarint {
        WriteUvarints(w);
      } else if format == FormatBigEndian {
        WriteBigEndians(w);
      } else if format == FormatUnsafe {
        if len == 0 {
          return Some(IndexOutOfRange);  // &rsp.s[0]
        }
        w.Write(Elements(FormatUnsafe, buf[..len]));  // the slice's memory, 8 bytes per element
      } else {
        return Some(BadFormat);
      }
      return None;
    }

    /** The element loop of `response.decode` for formats 0 and 1. */
    method ReadElements(r: Reader) returns (err: Option<Error>)
      requires Valid() && r.Valid() && format <= FormatBigEndian
      modifies buf, r
      ensures Valid() && r.Valid()
      ensures var d := Fill(r.data, old(r.pos), old(Fields()), 0);
        Fields() == d.value && err == d.err && r.pos == d.end
    {
      ghost var p0, f0 := r.pos, Fields();
      for i := 0 to len
        invariant r.Valid() && Fields().len == f0.len && Fields().format == f0.format
        invariant |Fields().backing| == |f0.backing|
        invariant Fill(r.data, r.pos, Fields(), i) == Fill(r.data, p0, f0, 0)
      {
        ghost var q := r.pos;
        var v: Uint64;
        if format == FormatUvarint {
          var x := ReadUvarint(r);
          if x.Err? {
            return Some(x.error);
          }
          v := x.value;
        } else {
          var got, e := r.ReadFull(8);
          if e.Some? {
            return e;
          }
          Pow256Eight();
          v := BigEndianValue(got);  // binary.BigEndian.Uint64
        }
        ghost var f := Fields();
        FillStep(r.data, q, f, i, v, r.pos);
        buf[i] := v;
        assert Fields() == f.(backing := f.backing[i := v]);
      }
      return None;
    }

    /** The unsafe format of `response.decode`: `io.ReadFull` into the slice's memory. */
    method ReadMemoryInto(r: Reader) returns (err: Option<Error>)
      requires Valid() && r.Valid()
      modifies buf, r
      ensures Valid() && r.Valid()
      ensures var d := ReadMemory(r.data, old(r.pos), old(Fields()));
        Fields() == d.value && err == d.err && r.pos == d.end
    {
      ghost var f0 := Fields();
      var mem := Elements(FormatUnsafe, buf[..len]);  // the bytes `b` views
      var got, e := r.ReadFull(8 * len);
      var s := Unpack(got + mem[|got|..], len);
      forall i | 0 <= i < len {
        buf[i] := s[i];
      }
      assert buf[..] == s + f0.backing[len..];
      return e;
    }

    /** The `switch` of `response.decode`. */
    method ReadSlice(r: Reader) returns (err: Option<Error>)
      requires Valid() && r.Valid()
      modifies buf, r
      ensures Valid() && r.Valid()
      ensures var d := DecodeElements(r.data, old(r.pos), old(Fields()));
        Fields() == d.value && err == d.err && r.pos == d.end
    {
      if format == FormatUvarint || format == FormatBigEndian {
        err := ReadElements(r);
      } else if format == FormatUnsafe {
        if len == 0 {
          return Some(IndexOutOfRange);  // &rsp.s[0]
        }
        err := ReadMemoryInto(r);
      } else {
        return Some(BadFormat);
      }
    }

    /** `response.decode`. */
    method Decode(r: Reader) returns (err: Option<Error>)
      requires Valid() && r.Valid()
      modifies this, buf, r
      ensures Valid() && r.Valid()
      ensures var d := DecodeResponse(r.data, old(r.pos), old(Fields()));
        Fields() == d.value && err == d.err && r.pos == d.end
      ensures buf == old(buf) || fresh(buf)
      ensures buf != old(buf) ==> old(buf).Length < len
    {
      ghost var p0, f0 := r.pos, Fields();
      format, err := ReadOneByte(r);
      if err.Some? {
        return;
      }
      ghost var f1 := Fields();
      assert DecodeResponse(r.data, p0, f0) == DecodeLength(r.data, r.pos, f1);
      ghost var p1 := r.pos;
      var x := ReadUvarint(r);
      if x.Err? {
        return Some(x.error);
      }
      var n := ToInt64(x.value);
      if n < 0 {
        return Some(SliceBounds);  // cap(rsp.s) >= n holds, and rsp.s[:n] panics
      }
      if n <= buf.Length {
        len := n;
      } else {
        buf := new Uint64[n](_ => 0);  // make([]uint64, n)
        len := n;
        assert buf[..] == Zeros(n);
      }
      assert DecodeLength(r.data, p1, f1) == DecodeElements(r.data, r.pos, Fields());
      err := ReadSlice(r);
    }
  }
}
