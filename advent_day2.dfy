/**
 * Day 2, "Corruption Checksum": a spreadsheet of int64 rows read from
 * text; 2a sums each row's largest minus smallest value, 2b sums, per row,
 * the quotient of the first pair of values where one divides the other.
 */
module AdventDay2 {
  import opened GoBase
  import opened GoStrings

  datatype Day2Error =
    | BadNumber(e: NumError)  // the error of strconv.ParseInt
    | EmptyRow                // "empty row"
    | DivideByZero            // the runtime panic of `n1 % n0` with n0 == 0

  // ---------------------------------------------------------------------
  // parseMatrix

  /** The values of a run of results, or the error of the first that failed. */
  function Collect<T>(rs: seq<Result<T, NumError>>): Result<seq<T>, NumError> {
    if rs == [] then Ok([])
    else
      match Collect(rs[..|rs| - 1])
      case Err(e) => Err(e)
      case Ok(vs) =>
        match rs[|rs| - 1]
        case Err(e) => Err(e)
        case Ok(v) => Ok(vs + [v])
  }

  /** Result `i` is the first that failed. */
  ghost predicate FirstFailure<T>(rs: seq<Result<T, NumError>>, i: nat) {
    i < |rs| && rs[i].Err? && forall k :: 0 <= k < i ==> rs[k].Ok?
  }

  /**
   * A run of results collects when each of them succeeded, into their values
   * in order; otherwise into the error of the first that failed.
   */
  lemma {:induction false} CollectMeaning<T>(rs: seq<Result<T, NumError>>)
    ensures Collect(rs).Ok? <==> forall i :: 0 <= i < |rs| ==> rs[i].Ok?
    ensures Collect(rs).Ok? ==> |Collect(rs).value| == |rs|
    ensures Collect(rs).Ok? ==> forall i :: 0 <= i < |rs| ==> rs[i] == Ok(Collect(rs).value[i])
    ensures Collect(rs).Err? ==> exists i: nat :: FirstFailure(rs, i) && rs[i] == Err(Collect(rs).error)
  {
    if rs != [] {
      var f := rs[..|rs| - 1];
      CollectMeaning(f);
      assert forall i :: 0 <= i < |f| ==> f[i] == rs[i];
      if Collect(f).Err? {
        var i: nat :| FirstFailure(f, i) && f[i] == Err(Collect(f).error);
        assert FirstFailure(rs, i);
      } else if rs[|rs| - 1].Err? {
        assert FirstFailure(rs, |rs| - 1);
      }
    }
  }

  /** Once a prefix of the results fails, the whole run fails the same way. */
  lemma {:induction false} CollectFails<T>(rs: seq<Result<T, NumError>>, i: nat)
    requires i <= |rs| && Collect(rs[..i]).Err?
    ensures Collect(rs) == Collect(rs[..i])
    decreases |rs| - i
  {
    if i < |rs| {
      assert rs[..i + 1][..i] == rs[..i];
      CollectFails(rs, i + 1);
    } else {
      assert rs[..i] == rs;
    }
  }

  /** One line's fields parsed as int64s. */
  function FieldResults(fields: seq<string>): (rs: seq<Result<Int64, NumError>>)
    ensures |rs| == |fields| && forall i :: 0 <= i < |fields| ==> rs[i] == ParseInt(fields[i])
  {
    seq(|fields|, i requires 0 <= i < |fields| => ParseInt(fields[i]))
  }

  /** One line's row: its fields parsed as int64s. */
  function LineRow(line: string): Result<seq<Int64>, NumError> {
    Collect(FieldResults(Fields(line)))
  }

  /** Each line's row. */
  function LineResults(lines: seq<string>): (rs: seq<Result<seq<Int64>, NumError>>)
    ensures |rs| == |lines| && forall i :: 0 <= i < |lines| ==> rs[i] == LineRow(lines[i])
  {
    seq(|lines|, i requires 0 <= i < |lines| => LineRow(lines[i]))
  }

  /** What `parseMatrix` returns on `text`. */
  function Matrix(text: string): Result<seq<seq<Int64>>, NumError> {
    Collect(LineResults(Lines(text)))
  }

  /**
   * A line's row holds, in order, the values of the line's fields, and
   * exists exactly when every field is an int64.
   */
  lemma FieldsMeaning(fields: seq<string>)
    ensures var r := Collect(FieldResults(fields));
      (r.Ok? <==> forall i :: 0 <= i < |fields| ==> ParseInt(fields[i]).Ok?) &&
      (r.Ok? ==> |r.value| == |fields| && forall i :: 0 <= i < |fields| ==> ParseInt(fields[i]) == Ok(r.value[i]))
  {
    var rs := FieldResults(fields);
    CollectMeaning(rs);
    assert (forall i :: 0 <= i < |fields| ==> ParseInt(fields[i]).Ok?) <==> (forall i :: 0 <= i < |rs| ==> rs[i].Ok?);
  }

  /**
   * The matrix of the scanned lines has one row per line, that line's row,
   * and exists exactly when every line's row does; otherwise its error is
   * that of the first line that fails.
   */
  lemma RowsMeaning(lines: seq<string>)
    ensures var m := Collect(LineResults(lines));
      (m.Ok? <==> forall l :: 0 <= l < |lines| ==> LineRow(lines[l]).Ok?) &&
      (m.Ok? ==> |m.value| == |lines| && forall l :: 0 <= l < |lines| ==> LineRow(lines[l]) == Ok(m.value[l])) &&
      (m.Err? ==> exists l: nat :: l < |lines| && LineRow(lines[l]) == Err(m.error) && forall k :: 0 <= k < l ==> LineRow(lines[k]).Ok?)
  {
    var rs := LineResults(lines);
    CollectMeaning(rs);
    if Collect(rs).Err? {
      var l: nat :| FirstFailure(rs, l) && rs[l] == Err(Collect(rs).error);
    }
  }

  /** Collecting one more successful result appends its value. */
  lemma CollectStep<T>(rs: seq<Result<T, NumError>>, i: nat, vs: seq<T>, v: T)
    requires i < |rs| && Collect(rs[..i]) == Ok(vs) && rs[i] == Ok(v)
    ensures Collect(rs[..i + 1]) == Ok(vs + [v])
  {
    assert rs[..i + 1][..i] == rs[..i];
  }

  /** The body of `parseMatrix`'s line loop: the line's fields parsed into a fresh row. */
  method ParseFields(fields: seq<string>) returns (r: Result<seq<Int64>, NumError>)
    ensures r == Collect(FieldResults(fields))
  {
    ghost var frs := FieldResults(fields);
    var row := new Int64[|fields|];
    for i := 0 to |fields|
      invariant Collect(frs[..i]) == Ok(row[..i])
    {
      var n := ParseInt(fields[i]);
      if n.Err? {
        assert frs[..i + 1][..i] == frs[..i];
        CollectFails(frs, i + 1);
        return Err(n.error);
      }
      CollectStep(frs, i, row[..i], n.value);
      row[i] := n.value;
      assert row[..i + 1] == row[..i] + [n.value];
    }
    assert frs[..|fields|] == frs && row[..|fields|] == row[..];
    return Ok(row[..]);
  }

  /** `parseMatrix`: the lines of the text, each split into fields parsed as int64s. */
  method ParseMatrix(text: string) returns (r: Result<seq<seq<Int64>>, NumError>)
    ensures r == Matrix(text)
  {
    r := ScanRows(Lines(text));
  }

  /** The scanner loop of `parseMatrix`, over the lines the scanner yields. */
  method ScanRows(lines: seq<string>) returns (r: Result<seq<seq<Int64>>, NumError>)
    ensures r == Collect(LineResults(lines))
  {
    ghost var lrs := LineResults(lines);
    var mat: seq<seq<Int64>> := [];
    for l := 0 to |lines|
      invariant Collect(lrs[..l]) == Ok(mat)
    {
      var row := ParseFields(Fields(lines[l]));
      if row.Err? {
        assert lrs[..l + 1][..l] == lrs[..l];
        CollectFails(lrs, l + 1);
        return Err(row.error);
      }
      CollectStep(lrs, l, mat, row.value);
      mat := mat + [row.value];
    }
    assert lrs[..|lines|] == lrs;
    return Ok(mat);
  }

  // ---------------------------------------------------------------------
  // day2a: the checksum

  /** The smallest value of a non-empty row, as a left-to-right scan keeps it. */
  function MinOf(row: seq<Int64>): Int64
    requires row != []
  {
    if |row| == 1 then row[0]
    else
      var m := MinOf(row[..|row| - 1]);
      if row[|row| - 1] < m then row[|row| - 1] else m
  }

  /** The largest value of a non-empty row, as a left-to-right scan keeps it. */
  function MaxOf(row: seq<Int64>): Int64
    requires row != []
  {
    if |row| == 1 then row[0]
    else
      var m := MaxOf(row[..|row| - 1]);
      if row[|row| - 1] > m then row[|row| - 1] else m
  }

  /** The scan's minimum is a value of the row that no value of the row undercuts. */
  lemma {:induction false} MinOfMeaning(row: seq<Int64>)
    requires row != []
    ensures MinOf(row) in row && forall k :: 0 <= k < |row| ==> MinOf(row) <= row[k]
  {
    if |row| > 1 {
      var p := row[..|row| - 1];
      MinOfMeaning(p);
      assert forall k :: 0 <= k < |p| ==> p[k] == row[k];
    }
  }

  /** The scan's maximum is a value of the row that no value of the row exceeds. */
  lemma {:induction false} MaxOfMeaning(row: seq<Int64>)
    requires row != []
    ensures MaxOf(row) in row && forall k :: 0 <= k < |row| ==> row[k] <= MaxOf(row)
  {
    if |row| > 1 {
      var p := row[..|row| - 1];
      MaxOfMeaning(p);
      assert forall k :: 0 <= k < |p| ==> p[k] == row[k];
    }
  }

  /**
   * The exact sum, over the rows, of the largest minus the smallest value,
   * or the empty-row error at the first empty row.
   */
  function Spreads(mat: seq<seq<Int64>>): Result<int, Day2Error> {
    if mat == [] then Ok(0)
    else
      match Spreads(mat[..|mat| - 1])
      case Err(e) => Err(e)
      case Ok(s) =>
        var row := mat[|mat| - 1];
        if row == [] then Err(EmptyRow) else Ok(s + (MaxOf(row) - MinOf(row)))
  }

  /** The sum exists exactly when no row is empty, and is never negative. */
  lemma {:induction false} SpreadsMeaning(mat: seq<seq<Int64>>)
    ensures Spreads(mat).Ok? <==> forall i :: 0 <= i < |mat| ==> mat[i] != []
    ensures Spreads(mat).Ok? ==> Spreads(mat).value >= 0
    ensures Spreads(mat).Err? ==> Spreads(mat).error == EmptyRow
  {
    if mat != [] {
      var m := mat[..|mat| - 1];
      SpreadsMeaning(m);
      assert forall i :: 0 <= i < |m| ==> m[i] == mat[i];
    }
  }

  lemma {:induction false} SpreadsFails(mat: seq<seq<Int64>>, i: nat)
    requires i <= |mat| && Spreads(mat[..i]).Err?
    ensures Spreads(mat) == Spreads(mat[..i])
    decreases |mat| - i
  {
    if i < |mat| {
      assert mat[..i + 1][..i] == mat[..i];
      SpreadsFails(mat, i + 1);
    } else {
      assert mat[..i] == mat;
    }
  }

  /** One more non-empty row adds its spread. */
  lemma SpreadsStep(mat: seq<seq<Int64>>, k: nat, s: int)
    requires k < |mat| && Spreads(mat[..k]) == Ok(s) && mat[k] != []
    ensures Spreads(mat[..k + 1]) == Ok(s + (MaxOf(mat[k]) - MinOf(mat[k])))
  {
    assert mat[..k + 1][..k] == mat[..k];
  }

  /** The inner loop of `day2a`: the smallest and the largest value of a non-empty row. */
  method MinMax(row: seq<Int64>) returns (min: Int64, max: Int64)
    requires row != []
    ensures min == MinOf(row) && max == MaxOf(row)
  {
    min, max := row[0], row[0];
    for i := 0 to |row|
      invariant min == MinOf(row[..if i == 0 then 1 else i])
      invariant max == MaxOf(row[..if i == 0 then 1 else i])
    {
      var n := row[i];
      if i > 0 {
        assert row[..i + 1][..i] == row[..i];
      }
      if n < min {
        min := n;
      }
      if n > max {
        max := n;
      }
    }
    assert row[..|row|] == row;
  }

  /** The checksum loop of `day2a`: int64 arithmetic, so the sum wraps. */
  method Checksum(mat: seq<seq<Int64>>) returns (r: Result<Int64, Day2Error>)
    ensures Spreads(mat).Err? ==> r == Err(Spreads(mat).error)
    ensures Spreads(mat).Ok? ==> r == Ok(Wrap64(Spreads(mat).value))
  {
    var checksum: Int64 := 0;
    ghost var s: int := 0;
    for k := 0 to |mat|
      invariant Spreads(mat[..k]) == Ok(s) && checksum == Wrap64(s)
    {
      var row := mat[k];
      if |row| == 0 {
        assert mat[..k + 1][..k] == mat[..k];
        SpreadsFails(mat, k + 1);
        return Err(EmptyRow);
      }
      var min, max := MinMax(row);
      var spread: int := max as int - min as int;
      SpreadsStep(mat, k, s);
      Wrap64AddBoth(s, spread);
      checksum := Wrap64(checksum + Wrap64(spread));
      s := s + spread;
    }
    assert mat[..|mat|] == mat;
    return Ok(checksum);
  }

  /** The checksum is the exact sum when that fits in an int64. */
  lemma ChecksumExact(mat: seq<seq<Int64>>)
    requires Spreads(mat).Ok? && Spreads(mat).value <= MaxInt64
    ensures Wrap64(Spreads(mat).value) == Spreads(mat).value >= 0
  {
    SpreadsMeaning(mat);
  }

  // ---------------------------------------------------------------------
  // day2b: the quotients

  /** The pair `(a, b)` comes at or after `(i, j)` in the order `day2b` visits pairs. */
  predicate FromPair(n: nat, i: nat, j: nat, a: nat, b: nat) {
    a < b < n && (a > i || (a == i && b >= j))
  }

  /** The pair `(a, b)` comes before `(c, d)`. */
  predicate Earlier(a: nat, b: nat, c: nat, d: nat) {
    a < c || (a == c && b < d)
  }

  /** The pair stops the search of its row: its smaller value is 0 or divides the larger. */
  predicate Decisive(row: seq<Int64>, a: nat, b: nat)
    requires a < b < |row|
  {
    var n0, n1 := if row[a] > row[b] then row[b] else row[a], if row[a] > row[b] then row[a] else row[b];
    n0 == 0 || Rem(n1, n0) == 0
  }

  /** What a decisive pair yields: the divide-by-zero panic, or the quotient. */
  function Outcome(row: seq<Int64>, a: nat, b: nat): Result<Option<int>, Day2Error>
    requires a < b < |row|
  {
    var n0, n1 := if row[a] > row[b] then row[b] else row[a], if row[a] > row[b] then row[a] else row[b];
    if n0 == 0 then Err(DivideByZero) else Ok(Some(Quo(n1, n0)))
  }

  /**
   * The search of one row from the pair `(i, j)` on: the first decisive
   * pair decides, and a row without one adds nothing.
   */
  function PairScan(row: seq<Int64>, i: nat, j: nat): Result<Option<int>, Day2Error>
    requires i < j
    decreases |row| - i, |row| - j
  {
    if i >= |row| then Ok(None)
    else if j >= |row| then PairScan(row, i + 1, i + 2)
    else
      var n0, n1 := if row[i] > row[j] then row[j] else row[i], if row[i] > row[j] then row[i] else row[j];
      if n0 == 0 then Err(DivideByZero)
      else if Rem(n1, n0) == 0 then Ok(Some(Quo(n1, n0)))
      else PairScan(row, i, j + 1)
  }

  /** A search that adds nothing met no decisive pair. */
  lemma {:induction false} PairScanNone(row: seq<Int64>, i: nat, j: nat)
    requires i < j && PairScan(row, i, j) == Ok(None)
    ensures forall a, b :: FromPair(|row|, i, j, a, b) ==> !Decisive(row, a, b)
    decreases |row| - i, |row| - j
  {
    if i < |row| {
      if j >= |row| {
        PairScanNone(row, i + 1, i + 2);
      } else {
        PairScanNone(row, i, j + 1);
      }
    }
  }

  /** Otherwise the search stopped at the first decisive pair `(a, b)`, whose outcome it returns. */
  lemma {:induction false} PairScanFirst(row: seq<Int64>, i: nat, j: nat) returns (a: nat, b: nat)
    requires i < j && PairScan(row, i, j) != Ok(None)
    ensures FromPair(|row|, i, j, a, b) && Decisive(row, a, b) && PairScan(row, i, j) == Outcome(row, a, b)
    ensures forall c, d :: FromPair(|row|, i, j, c, d) && Earlier(c, d, a, b) ==> !Decisive(row, c, d)
    decreases |row| - i, |row| - j
  {
    if j >= |row| {
      a, b := PairScanFirst(row, i + 1, i + 2);
    } else if Decisive(row, i, j) {
      a, b := i, j;
    } else {
      a, b := PairScanFirst(row, i, j + 1);
    }
  }

  /** The exact sum of the rows' quotients, or the first row's panic. */
  function QuotientSum(mat: seq<seq<Int64>>): Result<int, Day2Error> {
    if mat == [] then Ok(0)
    else
      match QuotientSum(mat[..|mat| - 1])
      case Err(e) => Err(e)
      case Ok(s) =>
        match PairScan(mat[|mat| - 1], 0, 1)
        case Err(e) => Err(e)
        case Ok(None) => Ok(s)
        case Ok(Some(q)) => Ok(s + q)
  }

  lemma {:induction false} QuotientSumFails(mat: seq<seq<Int64>>, i: nat)
    requires i <= |mat| && QuotientSum(mat[..i]).Err?
    ensures QuotientSum(mat) == QuotientSum(mat[..i])
    decreases |mat| - i
  {
    if i < |mat| {
      assert mat[..i + 1][..i] == mat[..i];
      QuotientSumFails(mat, i + 1);
    } else {
      assert mat[..i] == mat;
    }
  }

  /**
   * The pair loops of `day2b` over one row: the first decisive pair ends
   * the row (`continue rowLoop`) with its quotient, or panics on a zero.
   */
  method RowSearch(row: seq<Int64>) returns (q: Result<Option<int>, Day2Error>)
    ensures q == PairScan(row, 0, 1)
  {
    for i := 0 to |row|
      invariant PairScan(row, i, i + 1) == PairScan(row, 0, 1)
    {
      for j := i + 1 to |row|
        invariant PairScan(row, i, j) == PairScan(row, 0, 1)
      {
        var n0, n1 := row[i], row[j];
        if n0 > n1 {
          n0, n1 := n1, n0;
        }
        if n0 == 0 {
          return Err(DivideByZero);
        }
        if Rem(n1, n0) == 0 {
          return Ok(Some(Quo(n1, n0)));
        }
      }
    }
    return Ok(None);
  }

  /** The row loop of `day2b`: int64 arithmetic, so the sum wraps. */
  method DivisibleSum(mat: seq<seq<Int64>>) returns (r: Result<Int64, Day2Error>)
    ensures QuotientSum(mat).Err? ==> r == Err(QuotientSum(mat).error)
    ensures QuotientSum(mat).Ok? ==> r == Ok(Wrap64(QuotientSum(mat).value))
  {
    var sum: Int64 := 0;
    ghost var s: int := 0;
    for k := 0 to |mat|
      invariant QuotientSum(mat[..k]) == Ok(s) && sum == Wrap64(s)
    {
      assert mat[..k + 1][..k] == mat[..k];
      var q := RowSearch(mat[k]);
      if q.Err? {
        QuotientSumFails(mat, k + 1);
        return Err(q.error);
      }
      if q.value.Some? {
        Wrap64Add(s, q.value.value);
        sum := Wrap64(sum + q.value.value);
        s := s + q.value.value;
      }
    }
    assert mat[..|mat|] == mat;
    return Ok(sum);
  }

  /**
   * A row adds at most one quotient, that of its first pair whose smaller
   * value divides the larger; a 0 among the values panics only when its
   * pair comes first.
   */
  lemma RowQuotient(row: seq<Int64>)
    ensures PairScan(row, 0, 1) == Ok(None) ==> forall a: nat, b: nat :: a < b < |row| ==> !Decisive(row, a, b)
    ensures PairScan(row, 0, 1) != Ok(None) ==>
      exists a, b :: FirstDecisive(row, a, b) && PairScan(row, 0, 1) == Outcome(row, a, b)
  {
    if PairScan(row, 0, 1) == Ok(None) {
      PairScanNone(row, 0, 1);
    } else {
      var a, b := PairScanFirst(row, 0, 1);
      assert FirstDecisive(row, a, b);
    }
  }

  /** `(a, b)` is the first pair of the row, in `day2b`'s order, that stops the search. */
  predicate FirstDecisive(row: seq<Int64>, a: nat, b: nat) {
    a < b < |row| && Decisive(row, a, b) &&
    forall c, d :: 0 <= c < d < |row| && Earlier(c, d, a, b) ==> !Decisive(row, c, d)
  }
}
