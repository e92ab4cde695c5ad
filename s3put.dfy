/**
 * s3put's multipart arithmetic: how `Upload` defaults its options and picks
 * the single-object or multipart path, how `uploadMulti` sizes the parts
 * (S3 accepts at most 10000 parts of at least 5 MiB), and the retry
 * counter with its doubling delay.  The S3 calls, the goroutines and the
 * channel of chunks are not modelled; a chunk is its offset and size.
 */
module S3Put {
  import opened GoBase

  const MinChunkSize: int := 1024 * 1024 * 5
  const DefaultChunkSize: int := 20_000_000
  const MaxNumChunks: int := 10000
  const DefaultConcurrency: int := 8

  datatype UploadOptions = UploadOptions(partSize: Int64, concurrency: Int64)

  /** The option defaulting at the top of `Upload`. */
  function WithDefaults(opts: UploadOptions): (r: UploadOptions)
    ensures r.partSize >= MinChunkSize && r.concurrency >= 1
    ensures opts.partSize == 0 ==> r.partSize == DefaultChunkSize
    ensures opts.partSize > MinChunkSize ==> r.partSize == opts.partSize
    ensures opts.partSize != 0 && opts.partSize <= MinChunkSize ==> r.partSize == MinChunkSize
    ensures opts.concurrency > 0 ==> r.concurrency == opts.concurrency
    ensures opts.concurrency <= 0 ==> r.concurrency == DefaultConcurrency
  {
    var p := if opts.partSize == 0 then DefaultChunkSize else opts.partSize;
    var p' := if p <= MinChunkSize then MinChunkSize else p;
    var c := if opts.concurrency <= 0 then DefaultConcurrency else opts.concurrency;
    UploadOptions(p', c)
  }

  /** Defaulting twice changes nothing more. */
  lemma WithDefaultsIdempotent(opts: UploadOptions)
    ensures WithDefaults(WithDefaults(opts)) == WithDefaults(opts)
  {
  }

  /** The part sizing `uploadMulti` settles on. */
  datatype Plan = Plan(partSize: int, numChunks: int, lastPartSize: int)

  /**
   * `uploadMulti`'s arithmetic for a file of `size` bytes, reached only when
   * `size > partSize`: ceil(size / partSize) chunks, and when that exceeds
   * 10000 the part size is raised to ceil(size / 10000) and the count fixed
   * at 10000.  The last part holds whatever remains.
   */
  function PlanChunks(size: Int64, partSize: Int64): (p: Plan)
    requires MinChunkSize <= partSize < size
    ensures 2 <= p.numChunks <= MaxNumChunks
    ensures p.partSize >= partSize && 1 <= p.lastPartSize <= p.partSize
    ensures (p.numChunks - 1) * p.partSize + p.lastPartSize == size
    ensures p.partSize > partSize ==> p.numChunks == MaxNumChunks
    ensures p.partSize == partSize ==> p.numChunks == (size - 1) / partSize + 1
  {
    var n := (size - 1) / partSize + 1;
    if n > MaxNumChunks then
      var ps := (size - 1) / MaxNumChunks + 1;
      RaisedPartSize(size, partSize, ps);
      DivisionParts(size, ps);
      Plan(ps, MaxNumChunks, (size - 1) % ps + 1)
    else
      DivisionParts(size, partSize);
      Plan(partSize, n, (size - 1) % partSize + 1)
  }

  /** ceil(size / d) parts of `d` bytes, the last holding the rest, make up `size`. */
  lemma DivisionParts(size: int, d: int)
    requires 0 < d < size
    ensures (size - 1) / d >= 1
    ensures 1 <= (size - 1) % d + 1 <= d
    ensures ((size - 1) / d) * d + (size - 1) % d + 1 == size
  {
    assert size - 1 == ((size - 1) / d) * d + (size - 1) % d;
  }

  /**
   * With the raised part size, the first 9999 parts are full and the last
   * one is not empty: (size - 1) / ps is exactly 9999.
   */
  lemma RaisedPartSize(size: int, partSize: int, ps: int)
    requires MinChunkSize <= partSize < size
    requires (size - 1) / partSize + 1 > MaxNumChunks
    requires ps == (size - 1) / MaxNumChunks + 1
    ensures ps > partSize
    ensures (size - 1) / ps == MaxNumChunks - 1
  {
    var k := (size - 1) / partSize;
    DivBetween(size - 1, partSize, k);
    MulMono(MaxNumChunks, k, partSize);
    DivAtLeast(size - 1, MaxNumChunks, partSize);
    var q := (size - 1) / MaxNumChunks;
    assert size - 1 == q * 10000 + (size - 1) % 10000;
    assert 9999 * ps <= size - 1 < 10000 * ps;
    DivBetween(size - 1, ps, 9999);
  }

  lemma MulMono(x: int, y: int, d: int)
    requires d > 0 && x <= y
    ensures x * d <= y * d
  {
  }

  /** `a / d` is at least `m` when `m * d` fits in `a`. */
  lemma DivAtLeast(a: int, d: int, m: int)
    requires d > 0 && m * d <= a
    ensures a / d >= m
  {
    var q := a / d;
    assert a == q * d + a % d;
    if q < m {
      MulMono(q + 1, m, d);
    }
  }

  lemma DivBetween(a: int, d: int, m: int)
    requires d > 0 && m * d <= a < (m + 1) * d
    ensures a / d == m
  {
    var q := a / d;
    assert a == q * d + a % d;
    MulCancel(m, q + 1, d);
    MulCancel(q, m + 1, d);
  }

  lemma MulCancel(x: int, y: int, d: int)
    requires d > 0 && x * d < y * d
    ensures x < y
  {
  }

  /** Offset and length of one part: the `io.NewSectionReader` arguments. */
  datatype Section = Section(offset: int, length: int)

  /** Part `i` of a plan: full-sized except the last. */
  function PartSection(p: Plan, i: nat): (s: Section)
    requires i < p.numChunks
  {
    Section(p.partSize * i, if i == p.numChunks - 1 then p.lastPartSize else p.partSize)
  }

  /**
   * The parts of a plan tile the file: part 0 starts at 0, each part ends
   * where the next begins, every part is non-empty, and the last ends at
   * `size`.
   */
  lemma PartsCoverFile(size: Int64, partSize: Int64, i: nat)
    requires MinChunkSize <= partSize < size
    requires i < PlanChunks(size, partSize).numChunks
    ensures var p := PlanChunks(size, partSize);
      PartSection(p, 0).offset == 0 &&
      PartSection(p, i).length >= 1 &&
      (i + 1 < p.numChunks ==> PartSection(p, i).offset + PartSection(p, i).length == PartSection(p, i + 1).offset) &&
      (i + 1 == p.numChunks ==> PartSection(p, i).offset + PartSection(p, i).length == size)
  {
  }

  /** The path `Upload` takes for a file of `size` bytes. */
  datatype Path = Single | Multi(plan: Plan)

  /** `Upload` after the options are defaulted: one PutObject when the file fits in a part. */
  function ChoosePath(size: Int64, opts: UploadOptions): (r: Path)
    ensures r.Single? <==> size <= WithDefaults(opts).partSize
    ensures r.Multi? ==> r.plan.numChunks <= MaxNumChunks &&
                         r.plan.partSize >= MinChunkSize &&
                         (r.plan.numChunks - 1) * r.plan.partSize + r.plan.lastPartSize == size
  {
    var o := WithDefaults(opts);
    if size <= o.partSize then Single else Multi(PlanChunks(size, o.partSize))
  }

  const MaxAttempts: int := 5
  /** 500 ms and 10 s, in nanoseconds as `time.Duration` counts. */
  const BaseDelay: int := 500_000_000
  const MaxDelay: int := 10_000_000_000

  /** The delay after the `k`-th successful attempt (k >= 1). */
  function DelayAfter(k: nat): int
    requires k >= 1
  {
    if k == 1 then BaseDelay
    else
      var d := DelayAfter(k - 1);
      if d < MaxDelay then 2 * d else d
  }

  /** The delay never exceeds twice the maximum, however many attempts. */
  lemma {:induction false} DelayBounded(k: nat)
    requires k >= 1
    ensures BaseDelay <= DelayAfter(k) < 2 * MaxDelay
  {
    if k > 1 {
      DelayBounded(k - 1);
    }
  }

  /** Within the five attempts the delay simply doubles: 0.5 s, 1 s, 2 s, 4 s, 8 s. */
  lemma DelaysWithinAttempts()
    ensures DelayAfter(1) == 500_000_000 && DelayAfter(2) == 1_000_000_000
    ensures DelayAfter(3) == 2_000_000_000 && DelayAfter(4) == 4_000_000_000
    ensures DelayAfter(5) == 8_000_000_000
  {
  }

  /** `retries`: the attempt counter and the current delay. */
  class Retries {
    var attempts: int
    var delay: int

    ghost predicate Valid()
      reads this
    {
      0 <= attempts <= MaxAttempts && (attempts >= 1 ==> delay == DelayAfter(attempts))
    }

    /** `new(retries)`: the zero value. */
    constructor ()
      ensures Valid() && attempts == 0 && delay == 0
    {
      attempts := 0;
      delay := 0;
    }

    /**
     * `attempt`: false once five attempts were made; otherwise the delay is
     * set to 500 ms on the first attempt or doubled while below 10 s, and the
     * count goes up by one.
     */
    method Attempt() returns (ok: bool)
      requires Valid()
      modifies this
      ensures Valid()
      ensures ok <==> old(attempts) < MaxAttempts
      ensures ok ==> attempts == old(attempts) + 1
      ensures !ok ==> attempts == old(attempts) && delay == old(delay)
    {
      if attempts >= MaxAttempts {
        return false;
      }
      if attempts == 0 {
        delay := BaseDelay;
      } else if delay < MaxDelay {
        delay := delay * 2;
      }
      attempts := attempts + 1;
      return true;
    }
  }
}
