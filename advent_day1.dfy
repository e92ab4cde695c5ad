/**
 * Day 1, "Inverse Captcha": the sum of the digits of a circular digit
 * string that match the digit a fixed distance further round the circle —
 * the next digit (1a) or the digit halfway round (1b).
 */
module AdventDay1 {
  import opened GoBase
  import opened GoStrings

  datatype Day1Error =
    | Usage                  // "need 1 arg"
    | OddLength              // "need even number of digits"
    | NonDigit(c: char)      // "input contained non-digit"

  /** What digit `i` contributes: its value when it equals the digit `off` places further round. */
  function Match(d: string, off: nat, i: nat): (v: nat)
    requires i < |d| && IsDigit(d[i])
    ensures v <= 9
    ensures v > 0 ==> d[i] == d[(i + off) % |d|]
  {
    if d[i] == d[(i + off) % |d|] then DigitValue(d[i]) else 0
  }

  /** The contributions of the first `k` digits. */
  function MatchSum(d: string, off: nat, k: nat): nat
    requires k <= |d| && AllDigits(d[..k])
  {
    if k == 0 then 0
    else
      assert d[..k - 1] == d[..k][..k - 1];
      MatchSum(d, off, k - 1) + Match(d, off, k - 1)
  }

  /** The index of the first non-digit of `d`, if any. */
  function FirstNonDigit(d: string): (r: Option<nat>)
    ensures r.None? <==> AllDigits(d)
    ensures r.Some? ==> r.value < |d| && !IsDigit(d[r.value]) && AllDigits(d[..r.value])
  {
    if d == [] then None
    else if !IsDigit(d[|d| - 1]) then
      match FirstNonDigit(d[..|d| - 1])
      case Some(k) => Some(k)
      case None => Some(|d| - 1)
    else
      match FirstNonDigit(d[..|d| - 1])
      case Some(k) => assert d[..|d| - 1][..k] == d[..k]; Some(k)
      case None => assert d == d[..|d| - 1] + [d[|d| - 1]]; None
  }

  /**
   * The outcome of a solution run on `args` with distance `off`: a usage
   * error unless there is exactly one argument, the first non-digit as an
   * error, or the sum.
   */
  function Captcha(d: string, off: nat): Result<nat, Day1Error> {
    match FirstNonDigit(d)
    case Some(k) => Err(NonDigit(d[k]))
    case None => assert d[..|d|] == d; Ok(MatchSum(d, off, |d|))
  }

  /** `day1a`: every digit is compared with the next one, the last with the first. */
  method Day1a(args: seq<string>) returns (r: Result<nat, Day1Error>)
    ensures |args| != 1 ==> r == Err(Usage)
    ensures |args| == 1 ==> r == Captcha(args[0], 1)
  {
    if |args| != 1 {
      return Err(Usage);
    }
    var digits := args[0];
    var sum := 0;
    for i := 0 to |digits|
      invariant AllDigits(digits[..i]) && sum == MatchSum(digits, 1, i)
    {
      var j := (i + 1) % |digits|;
      if i == |digits| - 1 {
        j := 0;
      }
      var c := digits[i];
      if c < '0' || c > '9' {
        FirstNonDigitAt(digits, i);
        return Err(NonDigit(c));
      }
      assert digits[..i + 1] == digits[..i] + [c];
      if c == digits[j] {
        sum := sum + DigitValue(c);
      }
    }
    assert digits[..|digits|] == digits;
    return Ok(sum);
  }

  /** `day1b`: every digit is compared with the one halfway round. */
  method Day1b(args: seq<string>) returns (r: Result<nat, Day1Error>)
    ensures |args| != 1 ==> r == Err(Usage)
    ensures |args| == 1 && |args[0]| % 2 != 0 ==> r == Err(OddLength)
    ensures |args| == 1 && |args[0]| % 2 == 0 ==> r == Captcha(args[0], |args[0]| / 2)
  {
    if |args| != 1 {
      return Err(Usage);
    }
    var digits := args[0];
    if |digits| % 2 != 0 {
      return Err(OddLength);
    }
    var sum := 0;
    for i := 0 to |digits|
      invariant AllDigits(digits[..i]) && sum == MatchSum(digits, |digits| / 2, i)
    {
      var j := (i + |digits| / 2) % |digits|;
      var c := digits[i];
      if c < '0' || c > '9' {
        FirstNonDigitAt(digits, i);
        return Err(NonDigit(c));
      }
      assert digits[..i + 1] == digits[..i] + [c];
      if c == digits[j] {
        sum := sum + DigitValue(c);
      }
    }
    assert digits[..|digits|] == digits;
    return Ok(sum);
  }

  /** A non-digit after only digits is the first non-digit. */
  lemma FirstNonDigitAt(d: string, i: nat)
    requires i < |d| && AllDigits(d[..i]) && !IsDigit(d[i])
    ensures FirstNonDigit(d) == Some(i)
  {
    var r := FirstNonDigit(d);
    assert forall j :: 0 <= j < i ==> d[..i][j] == d[j];
    assert r.value >= i;
    assert forall j :: 0 <= j < r.value ==> d[..r.value][j] == d[j];
  }

  /** The sum is at most nine per digit. */
  lemma {:induction false} MatchSumBound(d: string, off: nat, k: nat)
    requires k <= |d| && AllDigits(d[..k])
    ensures MatchSum(d, off, k) <= 9 * k
  {
    if k > 0 {
      assert d[..k - 1] == d[..k][..k - 1];
      MatchSumBound(d, off, k - 1);
    }
  }

  /** A captcha never exceeds nine times the number of digits. */
  lemma CaptchaBound(d: string, off: nat)
    ensures Captcha(d, off).Ok? ==> Captcha(d, off).value <= 9 * |d|
    ensures Captcha(d, off).Ok? <==> AllDigits(d)
  {
    if AllDigits(d) {
      assert d[..|d|] == d;
      MatchSumBound(d, off, |d|);
    }
  }

  /**
   * Halfway round, digit `h + i` faces digit `i` again, so the digits past
   * the half contribute what the first half does.
   */
  lemma {:induction false} SecondHalf(d: string, h: nat, k: nat)
    requires |d| == 2 * h && AllDigits(d) && k <= h
    ensures MatchSum(d, h, h + k) == MatchSum(d, h, h) + MatchSum(d, h, k)
  {
    AllDigitsPrefix(d, h + k);
    AllDigitsPrefix(d, h);
    AllDigitsPrefix(d, k);
    if k > 0 {
      AllDigitsPrefix(d, h + k - 1);
      AllDigitsPrefix(d, k - 1);
      SecondHalf(d, h, k - 1);
      ModOnce(h + k - 1 + h, |d|);
      ModOnce(k - 1 + h, |d|);
    }
  }

  lemma AllDigitsPrefix(d: string, n: nat)
    requires AllDigits(d) && n <= |d|
    ensures AllDigits(d[..n])
  {
  }

  /** Below twice the modulus, `%` takes the modulus off at most once. */
  lemma ModOnce(a: nat, n: nat)
    requires 0 < n && a < 2 * n
    ensures a % n == if a < n then a else a - n
  {
    if a >= n {
      assert a == 1 * n + (a - n);
    }
  }

  /** The halfway captcha counts every matching pair twice, so it is even. */
  lemma HalfwayTwice(d: string)
    requires |d| % 2 == 0 && AllDigits(d)
    ensures Captcha(d, |d| / 2) == Ok(2 * MatchSum(d, |d| / 2, |d| / 2))
  {
    var h := |d| / 2;
    assert |d| == 2 * h;
    assert d[..|d|] == d;
    assert FirstNonDigit(d) == None;
    assert Captcha(d, h) == Ok(MatchSum(d, h, h + h));
    SecondHalf(d, h, h);
  }

  /** An example of the puzzle text: in 1122 the first and the second pair match. */
  lemma Example()
    ensures Captcha("1122", 1) == Ok(3)
  {
    var d := "1122";
    assert AllDigits(d);
    assert d[..4] == d;
    forall k | 0 <= k <= 4
      ensures AllDigits(d[..k])
    {
      AllDigitsPrefix(d, k);
    }
    assert Match(d, 1, 0) == 1 && Match(d, 1, 1) == 0 && Match(d, 1, 2) == 2 && Match(d, 1, 3) == 0;
    assert MatchSum(d, 1, 4) == 3;
  }
}
