/**
 * The parts of Go's standard library (`strings`, `strconv`, `bufio.ScanLines`,
 * `unicode.IsSpace`) that the modelled programs call, written as functions
 * over Dafny strings.  A Dafny `char` stands for a rune; where a program
 * indexes the bytes of a string, each char stands for one byte.
 */
module GoStrings {
  import opened GoBase

  /** `unicode.IsSpace`: the Latin-1 spaces and Unicode's White_Space set. */
  predicate IsSpace(c: char) {
    c == '\t' || c == '\n' || c == '\U{000B}' || c == '\U{000C}' || c == '\r' || c == ' ' ||
    c == '\U{0085}' || c == '\U{00A0}' || c == '\U{1680}' ||
    ('\U{2000}' <= c <= '\U{200A}') || c == '\U{2028}' || c == '\U{2029}' ||
    c == '\U{202F}' || c == '\U{205F}' || c == '\U{3000}'
  }

  predicate NoSpace(s: string) {
    forall i :: 0 <= i < |s| ==> !IsSpace(s[i])
  }

  /** Length of the longest prefix of `s` made of spaces. */
  function SpacePrefix(s: string): (n: nat)
    ensures n <= |s|
    ensures forall i :: 0 <= i < n ==> IsSpace(s[i])
    ensures n < |s| ==> !IsSpace(s[n])
  {
    if s == [] || !IsSpace(s[0]) then 0 else 1 + SpacePrefix(s[1..])
  }

  /** Length of the longest prefix of `s` free of spaces. */
  function WordPrefix(s: string): (n: nat)
    ensures n <= |s|
    ensures NoSpace(s[..n])
    ensures n < |s| ==> IsSpace(s[n])
  {
    if s == [] || IsSpace(s[0]) then 0 else 1 + WordPrefix(s[1..])
  }

  /** `strings.Fields`: the maximal runs of non-space runes, in order. */
  function Fields(s: string): (r: seq<string>)
    ensures forall i :: 0 <= i < |r| ==> r[i] != [] && NoSpace(r[i])
    decreases |s|
  {
    var t := s[SpacePrefix(s)..];
    if t == [] then []
    else
      var w := WordPrefix(t);
      [t[..w]] + Fields(t[w..])
  }

  /** `strings.TrimSpace`. */
  function TrimSpace(s: string): (r: string)
    ensures |r| <= |s|
    ensures r != [] ==> !IsSpace(r[0]) && !IsSpace(r[|r| - 1])
    decreases |s|
  {
    if s == [] then []
    else if IsSpace(s[0]) then TrimSpace(s[1..])
    else if IsSpace(s[|s| - 1]) then TrimSpace(s[..|s| - 1])
    else s
  }

  /** `sep` occurs in `s` at index `k`. */
  predicate At(s: string, k: nat, sep: string) {
    k + |sep| <= |s| && s[k..k + |sep|] == sep
  }

  /** Index of the first occurrence of `sep` in `s` at or after `i`, if any. */
  function IndexFrom(s: string, sep: string, i: nat): (r: Option<nat>)
    requires i <= |s|
    ensures r.Some? ==> i <= r.value && At(s, r.value, sep)
    ensures r.Some? ==> forall k :: i <= k < r.value ==> !At(s, k, sep)
    ensures r.None? ==> forall k :: i <= k <= |s| ==> !At(s, k, sep)
    decreases |s| - i
  {
    if i + |sep| > |s| then None
    else if s[i..i + |sep|] == sep then Some(i)
    else if i == |s| then None
    else IndexFrom(s, sep, i + 1)
  }

  /** Index of the first occurrence of `sep` in `s`, if any (`strings.Index`). */
  function IndexOf(s: string, sep: string): (r: Option<nat>)
    ensures r.Some? ==> At(s, r.value, sep) && forall k :: 0 <= k < r.value ==> !At(s, k, sep)
    ensures r.None? ==> forall k :: 0 <= k <= |s| ==> !At(s, k, sep)
  {
    IndexFrom(s, sep, 0)
  }

  /** `strings.SplitN(s, sep, 2)`. */
  function SplitN2(s: string, sep: string): (r: seq<string>)
    requires sep != []
    ensures 1 <= |r| <= 2
    ensures |r| == 1 <==> IndexOf(s, sep).None?
    ensures |r| == 1 ==> r[0] == s
    ensures |r| == 2 ==> s == r[0] + sep + r[1]
  {
    match IndexOf(s, sep)
    case None => [s]
    case Some(i) =>
      assert s == s[..i] + s[i..i + |sep|] + s[i + |sep|..];
      [s[..i], s[i + |sep|..]]
  }

  /** `strings.Split(s, sep)` for a non-empty separator. */
  function Split(s: string, sep: string): (r: seq<string>)
    requires sep != []
    ensures |r| >= 1
    decreases |s|
  {
    match IndexOf(s, sep)
    case None => [s]
    case Some(i) => [s[..i]] + Split(s[i + |sep|..], sep)
  }

  /** `bytes.LastIndexByte`/`strings.LastIndexByte`: the last index holding `c`. */
  function LastIndexOf(s: string, c: char): (r: Option<nat>)
    ensures r.Some? ==> r.value < |s| && s[r.value] == c && forall k :: r.value < k < |s| ==> s[k] != c
    ensures r.None? ==> forall k :: 0 <= k < |s| ==> s[k] != c
  {
    if s == [] then None
    else if s[|s| - 1] == c then Some(|s| - 1)
    else LastIndexOf(s[..|s| - 1], c)
  }

  function DropCR(line: string): string {
    if line != [] && line[|line| - 1] == '\r' then line[..|line| - 1] else line
  }

  /**
   * The lines a `bufio.Scanner` with the default `ScanLines` yields: the text
   * split at each '\n', one trailing '\r' dropped from every line, and a last
   * line without '\n' kept when it is not empty.  The scanner's limit on the
   * length of a line is not part of this function: lines of any length are
   * split.
   */
  function Lines(s: string): (r: seq<string>)
    ensures s == [] <==> r == []
    decreases |s|
  {
    if s == [] then []
    else
      match IndexOf(s, "\n")
      case None => [DropCR(s)]
      case Some(k) => [DropCR(s[..k])] + Lines(s[k + 1..])
  }

  predicate IsDigit(c: char) { '0' <= c <= '9' }

  predicate AllDigits(s: string) {
    forall i :: 0 <= i < |s| ==> IsDigit(s[i])
  }

  function DigitValue(c: char): (d: nat)
    requires IsDigit(c)
    ensures d < 10
  {
    (c as int) - ('0' as int)
  }

  /** The value of a string of decimal digits. */
  function DecimalValue(s: string): (v: nat)
    requires forall i :: 0 <= i < |s| ==> IsDigit(s[i])
  {
    if s == [] then 0 else 10 * DecimalValue(s[..|s| - 1]) + DigitValue(s[|s| - 1])
  }

  /** The two kinds of error `strconv` reports. */
  datatype NumError = ErrSyntax | ErrRange

  const CutoffUint64: int := MaxUint64 / 10 + 1

  /**
   * The digit loop of `strconv.ParseUint(s, 10, 64)` from index `i` with the
   * value `n` read so far: a non-digit is a syntax error, and going past the
   * largest uint64 is a range error, whichever comes first.
   */
  function ParseUintFrom(s: string, i: nat, n: Uint64): (r: Result<Uint64, NumError>)
    requires i <= |s|
    requires forall k :: 0 <= k < i ==> IsDigit(s[k])
    requires n == DecimalValue(s[..i])
    ensures r.Ok? ==> (forall k :: 0 <= k < |s| ==> IsDigit(s[k])) && r.value == DecimalValue(s)
    ensures (forall k :: 0 <= k < |s| ==> IsDigit(s[k])) && DecimalValue(s) <= MaxUint64 ==> r.Ok?
    ensures (forall k :: 0 <= k < |s| ==> IsDigit(s[k])) ==> r != Err(ErrSyntax)
    decreases |s| - i
  {
    if i == |s| then
      assert s[..i] == s;
      Ok(n)
    else if !IsDigit(s[i]) then Err(ErrSyntax)
    else if n >= CutoffUint64 then
      assert s[..i + 1][..i] == s[..i];
      DecimalPrefixBound(s, i + 1);
      Err(ErrRange)
    else
      var n1 := n * 10 + DigitValue(s[i]);
      assert s[..i + 1][..i] == s[..i];
      if n1 > MaxUint64 then
        DecimalPrefixBound(s, i + 1);
        Err(ErrRange)
      else ParseUintFrom(s, i + 1, n1)
  }

  /** A digit string is worth at least as much as any of its prefixes. */
  lemma {:induction false} DecimalPrefixBound(s: string, i: nat)
    requires i <= |s|
    ensures (forall k :: 0 <= k < |s| ==> IsDigit(s[k])) ==> DecimalValue(s[..i]) <= DecimalValue(s)
    decreases |s| - i
  {
    if forall k :: 0 <= k < |s| ==> IsDigit(s[k]) {
      if i < |s| {
        assert s[..i + 1][..i] == s[..i];
        DecimalPrefixBound(s, i + 1);
      } else {
        assert s[..i] == s;
      }
    }
  }

  /** `strconv.ParseUint(s, 10, 64)`. */
  function ParseUint(s: string): (r: Result<Uint64, NumError>)
    ensures r.Ok? <==> s != [] && (forall k :: 0 <= k < |s| ==> IsDigit(s[k])) && DecimalValue(s) <= MaxUint64
    ensures r.Ok? ==> r.value == DecimalValue(s)
    ensures s != [] && (forall k :: 0 <= k < |s| ==> IsDigit(s[k])) ==> r != Err(ErrSyntax)
  {
    if s == [] then Err(ErrSyntax) else ParseUintFrom(s, 0, 0)
  }

  /**
   * `strconv.ParseInt(s, 10, 64)` (and `strconv.Atoi`, which agrees with it
   * for 64-bit `int`): an optional sign, then digits, in the int64 range.
   */
  function ParseInt(s: string): (r: Result<Int64, NumError>)
    ensures r.Ok? ==> s != []
  {
    if s == [] then Err(ErrSyntax)
    else
      var neg := s[0] == '-';
      var digits := if s[0] == '+' || s[0] == '-' then s[1..] else s;
      match ParseUint(digits)
      case Err(e) => Err(e)
      case Ok(u) =>
        if !neg && u >= TwoTo63 then Err(ErrRange)
        else if neg && u > TwoTo63 then Err(ErrRange)
        else if neg then Ok(0 - u)
        else Ok(u)
  }

  /**
   * On a non-empty run of digits `strconv.ParseInt` (and `Atoi`) succeeds
   * exactly when the value fits in an int64, and yields that value.
   */
  lemma ParseIntDigits(s: string)
    requires s != [] && AllDigits(s)
    ensures ParseInt(s).Ok? <==> DecimalValue(s) <= MaxInt64
    ensures ParseInt(s).Ok? ==> ParseInt(s).value == DecimalValue(s)
    ensures ParseInt(s).Err? ==> ParseInt(s).error == ErrRange
  {
  }

  function DigitChar(d: nat): (c: char)
    requires d < 10
    ensures IsDigit(c) && DigitValue(c) == d
  {
    (('0' as int) + d) as char
  }

  /** The decimal digits of a natural number, without leading zeros. */
  function Digits(n: nat): (r: string)
    ensures r != [] && forall i :: 0 <= i < |r| ==> IsDigit(r[i])
    ensures DecimalValue(r) == n
  {
    if n < 10 then [DigitChar(n)]
    else
      var r := Digits(n / 10) + [DigitChar(n % 10)];
      assert r[..|r| - 1] == Digits(n / 10);
      r
  }

  /** `strconv.Itoa` / `fmt`'s `%d`. */
  function FormatInt(x: int): (r: string)
    ensures r != []
  {
    if x < 0 then "-" + Digits(-x) else Digits(x)
  }

  /** `unicode.ToUpper` on ASCII: lower-case letters mapped to upper case, everything else unchanged. */
  function UpperRune(c: char): (u: char)
    ensures 'a' <= c <= 'z' ==> u as int == c as int - 32
    ensures !('a' <= c <= 'z') ==> u == c
  {
    if 'a' <= c <= 'z' then (c as int - 'a' as int + 'A' as int) as char else c
  }

  /** `strings.ToUpper`, for ASCII text. */
  function ToUpper(s: string): (r: string)
    ensures |r| == |s| && forall i :: 0 <= i < |s| ==> r[i] == UpperRune(s[i])
  {
    seq(|s|, i requires 0 <= i < |s| => UpperRune(s[i]))
  }

  /** `strings.ReplaceAll(s, string(c), "")`: `s` with every `c` removed. */
  function RemoveAll(s: string, c: char): (r: string)
    ensures |r| <= |s| && forall i :: 0 <= i < |r| ==> r[i] != c
    ensures forall x :: x != c ==> multiset(r)[x] == multiset(s)[x]
  {
    if s == [] then []
    else
      assert s == s[..|s| - 1] + [s[|s| - 1]];
      var t := RemoveAll(s[..|s| - 1], c);
      if s[|s| - 1] == c then t else t + [s[|s| - 1]]
  }

  /** Go's `<` on strings: the lexicographic order of their bytes. */
  predicate StrLess(a: string, b: string)
    decreases |a|
  {
    if a == [] then b != []
    else b != [] && (a[0] < b[0] || (a[0] == b[0] && StrLess(a[1..], b[1..])))
  }

  lemma {:induction false} StrLessIrreflexive(a: string)
    ensures !StrLess(a, a)
    decreases |a|
  {
    if a != [] {
      StrLessIrreflexive(a[1..]);
    }
  }

  lemma {:induction false} StrLessTransitive(a: string, b: string, c: string)
    requires StrLess(a, b) && StrLess(b, c)
    ensures StrLess(a, c)
    decreases |a|
  {
    if a != [] && a[0] == b[0] && b[0] == c[0] {
      StrLessTransitive(a[1..], b[1..], c[1..]);
    }
  }

  /** Two different strings are ordered one way or the other. */
  lemma {:induction false} StrLessTotal(a: string, b: string)
    ensures a == b || StrLess(a, b) || StrLess(b, a)
    decreases |a|
  {
    if a != [] && b != [] && a[0] == b[0] {
      StrLessTotal(a[1..], b[1..]);
      assert a == [a[0]] + a[1..] && b == [b[0]] + b[1..];
    }
  }

  // ---------------------------------------------------------------------
  // Facts about the functions above, for reading back formatted text

  /** A space at the front of a text does not change its fields. */
  lemma FieldsSpace(c: char, s: string)
    requires IsSpace(c)
    ensures Fields([c] + s) == Fields(s)
  {
    var t := [c] + s;
    assert t[1..] == s;
    assert t[SpacePrefix(t)..] == s[SpacePrefix(s)..];
  }

  lemma {:induction false} WordPrefixWord(w: string, rest: string)
    requires NoSpace(w) && (rest == [] || IsSpace(rest[0]))
    ensures WordPrefix(w + rest) == |w|
  {
    if w == [] {
      assert w + rest == rest;
    } else {
      assert (w + rest)[1..] == w[1..] + rest;
      WordPrefixWord(w[1..], rest);
    }
  }

  /** A word followed by a space, or by nothing, is the first field. */
  lemma FieldsWord(w: string, rest: string)
    requires w != [] && NoSpace(w) && (rest == [] || IsSpace(rest[0]))
    ensures Fields(w + rest) == [w] + Fields(rest)
  {
    var s := w + rest;
    assert s[0] == w[0];
    assert s[0..] == s;
    WordPrefixWord(w, rest);
    assert s[..|w|] == w && s[|w|..] == rest;
  }

  /** `strings.TrimSpace` leaves a text without spaces alone, and drops one space before it. */
  lemma TrimSpaceWord(w: string)
    requires NoSpace(w)
    ensures TrimSpace(w) == w && TrimSpace(" " + w) == w
  {
    assert (" " + w)[1..] == w;
  }

  /** `sep` of one rune occurs at `k` exactly when that rune is there. */
  lemma AtRune(s: string, k: nat, c: char)
    ensures At(s, k, [c]) <==> k < |s| && s[k] == c
  {
    if k < |s| {
      assert s[k..k + 1] == [s[k]];
    }
  }

  /** Splitting at a rune that occurs after a piece free of it. */
  lemma SplitRune(a: string, c: char, b: string)
    requires c !in a
    ensures Split(a + [c] + b, [c]) == [a] + Split(b, [c])
  {
    var s := a + [c] + b;
    forall k | 0 <= k < |a|
      ensures !At(s, k, [c])
    {
      AtRune(s, k, c);
      assert s[k] == a[k];
    }
    AtRune(s, |a|, c);
    assert s[..|a|] == a && s[|a| + 1..] == b;
  }

  /** Splitting a text free of the rune gives the text. */
  lemma SplitNoRune(a: string, c: char)
    requires c !in a
    ensures Split(a, [c]) == [a]
  {
    forall k | 0 <= k <= |a|
      ensures !At(a, k, [c])
    {
      AtRune(a, k, c);
    }
  }

  /** The runes of `FormatInt(x)`: an optional minus sign, then digits. */
  lemma FormatIntRunes(x: int)
    ensures forall i :: 0 <= i < |FormatInt(x)| ==> FormatInt(x)[i] == '-' || IsDigit(FormatInt(x)[i])
  {
    var d := Digits(if x < 0 then -x else x);
    assert forall i :: 0 <= i < |d| ==> IsDigit(d[i]);
  }

  /** `strconv.ParseInt` (and `Atoi`) reads back what `strconv.FormatInt` writes. */
  lemma ParseFormatInt(x: Int64)
    ensures ParseInt(FormatInt(x)) == Ok(x)
  {
    if x < 0 {
      var d := Digits(-(x as int));
      assert FormatInt(x) == "-" + d && ("-" + d)[1..] == d;
      assert ParseUint(d).Ok? && ParseUint(d).value == -(x as int);
    } else {
      var d := Digits(x);
      assert IsDigit(d[0]);
      assert ParseUint(d) == Ok(x);
    }
  }

  /** `strings.Join(ws, " ")` for a non-empty list. */
  function JoinSpace(ws: seq<string>): string
    requires ws != []
  {
    if |ws| == 1 then ws[0] else ws[0] + " " + JoinSpace(ws[1..])
  }

  /** Words joined by single spaces are split back into the same words by `strings.Fields`. */
  lemma {:induction false} FieldsJoinSpace(ws: seq<string>)
    requires ws != [] && forall i :: 0 <= i < |ws| ==> ws[i] != [] && NoSpace(ws[i])
    ensures Fields(JoinSpace(ws)) == ws
  {
    if |ws| == 1 {
      FieldsWord(ws[0], []);
      assert ws[0] + [] == ws[0];
    } else {
      FieldsWordSpace(ws[0], JoinSpace(ws[1..]));
      FieldsJoinSpace(ws[1..]);
      assert ws == [ws[0]] + ws[1..];
    }
  }

  /** A word and then a space is the first field. */
  lemma FieldsWordSpace(a: string, u: string)
    requires a != [] && NoSpace(a)
    ensures Fields(a + " " + u) == [a] + Fields(u)
  {
    var t := [' '] + u;
    assert a + " " + u == a + t;
    FieldsWord(a, t);
    FieldsSpace(' ', u);
  }

  /** `strconv.FormatInt` writes a non-empty text without spaces. */
  lemma FormatIntWord(x: int)
    ensures FormatInt(x) != [] && NoSpace(FormatInt(x))
  {
    FormatIntRunes(x);
  }
}
