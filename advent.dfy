/**
 * The driver of the Advent of Code solutions: every solution registers
 * under a name such as "3a" or "10", and names are listed in the order of
 * their leading number, then of the rest of the name.
 */
module Advent {
  import opened GoBase
  import opened GoStrings

  /** The table of registered solutions; `F` stands for the solution functions. */
  class Registry<F> {
    var solutions: map<string, F>

    constructor ()
      ensures solutions == map[]
    {
      solutions := map[];
    }

    /**
     * `register`: a second solution under a name already taken panics
     * (`ok` is false and the table is left as it was); otherwise exactly
     * that entry is added.
     */
    method Register(name: string, fn: F) returns (ok: bool)
      modifies this
      ensures ok <==> name !in old(solutions)
      ensures solutions == if ok then old(solutions)[name := fn] else old(solutions)
    {
      if name in solutions {
        return false;
      }
      solutions := solutions[name := fn];
      return true;
    }
  }

  /** The length of the run of decimal digits that `name` starts with. */
  function DigitRun(name: string): (k: nat)
    ensures k <= |name| && AllDigits(name[..k])
    ensures k < |name| ==> !IsDigit(name[k])
  {
    if name == [] || !IsDigit(name[0]) then 0
    else
      var k := 1 + DigitRun(name[1..]);
      assert name[..k] == [name[0]] + name[1..][..k - 1];
      k
  }

  /**
   * What `splitName` returns: the leading digits as an int and the rest of
   * the name; `strconv.Atoi` fails, and `splitName` panics, when there are
   * no leading digits or they do not fit in an int.
   */
  function SplitNameOf(name: string): Result<(Int64, string), NumError> {
    var k := DigitRun(name);
    match ParseInt(name[..k])
    case Err(e) => Err(e)
    case Ok(n) => Ok((n, name[k..]))
  }

  /** `splitName`: the scan for the first non-digit, then `strconv.Atoi`. */
  method SplitName(name: string) returns (r: Result<(Int64, string), NumError>)
    ensures r == SplitNameOf(name)
  {
    var i := 0;
    while i < |name|
      invariant i <= DigitRun(name)
    {
      var c := name[i];
      if c < '0' || c > '9' {
        break;
      }
      i := i + 1;
    }
    var n := ParseInt(name[..i]);
    if n.Err? {
      return Err(n.error);
    }
    return Ok((n.value, name[i..]));
  }

  /**
   * A name splits into its leading digits, worth the returned number, and
   * the rest, which does not start with a digit; it fails exactly when it
   * has no leading digit (a syntax error) or the number does not fit in an
   * int64 (a range error).
   */
  lemma SplitNameParts(name: string)
    ensures var r := SplitNameOf(name);
      r.Ok? <==> DigitRun(name) > 0 && DecimalValue(name[..DigitRun(name)]) <= MaxInt64
    ensures var r := SplitNameOf(name);
      r.Ok? ==> var k := |name| - |r.value.1|;
        0 < k && AllDigits(name[..k]) && name == name[..k] + r.value.1 && r.value.0 == DecimalValue(name[..k]) &&
        (r.value.1 != [] ==> !IsDigit(r.value.1[0]))
    ensures var r := SplitNameOf(name);
      r.Err? ==> (r.error == ErrSyntax <==> DigitRun(name) == 0)
  {
    var k := DigitRun(name);
    if k > 0 {
      ParseIntDigits(name[..k]);
      assert name == name[..k] + name[k..];
    }
  }

  /**
   * `nameLess`: `None` when either name panics in `splitName`; otherwise
   * whether the first name's number is smaller, or equal with a smaller
   * rest.
   */
  function NameLess(name0: string, name1: string): (r: Option<bool>)
    ensures r.Some? <==> SplitNameOf(name0).Ok? && SplitNameOf(name1).Ok?
  {
    match (SplitNameOf(name0), SplitNameOf(name1))
    case (Ok((n0, s0)), Ok((n1, s1))) =>
      if n0 < n1 then Some(true)
      else if n0 > n1 then Some(false)
      else Some(StrLess(s0, s1))
    case _ => None
  }

  /**
   * On the names that split, `nameLess` is a strict order: irreflexive,
   * asymmetric and transitive.
   */
  lemma NameLessStrictOrder(a: string, b: string, c: string)
    ensures NameLess(a, a) != Some(true)
    ensures NameLess(a, b) == Some(true) ==> NameLess(b, a) == Some(false)
    ensures NameLess(a, b) == Some(true) && NameLess(b, c) == Some(true) ==> NameLess(a, c) == Some(true)
  {
    if SplitNameOf(a).Ok? {
      StrLessIrreflexive(SplitNameOf(a).value.1);
    }
    if NameLess(a, b) == Some(true) {
      var sa, sb := SplitNameOf(a).value.1, SplitNameOf(b).value.1;
      if SplitNameOf(a).value.0 == SplitNameOf(b).value.0 && StrLess(sb, sa) {
        StrLessTransitive(sa, sb, sa);
        StrLessIrreflexive(sa);
      }
      if NameLess(b, c) == Some(true) && SplitNameOf(a).value.0 == SplitNameOf(b).value.0 == SplitNameOf(c).value.0 {
        StrLessTransitive(sa, sb, SplitNameOf(c).value.1);
      }
    }
  }

  /**
   * Names with the same number and the same rest are tied, so different
   * spellings of one number ("07a" and "7a") are neither less than the
   * other; apart from those, any two names that split are ordered.
   */
  lemma NameLessTotal(a: string, b: string)
    requires SplitNameOf(a).Ok? && SplitNameOf(b).Ok?
    ensures NameLess(a, b) == Some(false) && NameLess(b, a) == Some(false) <==> SplitNameOf(a) == SplitNameOf(b)
  {
    var sa, sb := SplitNameOf(a).value.1, SplitNameOf(b).value.1;
    StrLessTotal(sa, sb);
    StrLessIrreflexive(sa);
    if StrLess(sa, sb) && StrLess(sb, sa) {
      StrLessTransitive(sa, sb, sa);
    }
  }

  /** "9b" comes before "10a", although as strings "10a" is the smaller. */
  lemma NameLessNumeric()
    ensures NameLess("9b", "10a") == Some(true) && StrLess("10a", "9b")
  {
    assert DigitRun("9b") == 1 && DigitRun("10a") == 2;
    assert "10a"[..2] == "10" && "9b"[..1] == "9";
    ParseIntDigits("9");
    ParseIntDigits("10");
  }
}
