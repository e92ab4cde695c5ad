/**
 * bee: a Spelling Bee helper.  A puzzle is seven distinct letters, the first
 * of which (the center) every answer must use; a word's letters are kept
 * as a `letterSet`, a uint32 whose bit `c - 'A'` stands for letter `c`.
 * Each char of a word stands for one byte.
 */
module Bee {
  import opened GoBase
  import opened GoBits
  import opened GoStrings

  const GameSize: nat := 7
  const TwoTo32: nat := 0x1_0000_0000

  /** `letterSet`, a uint32. */
  type LetterSet = x: nat | x < TwoTo32

  /** The bit positions set in `x`. */
  function Members(x: LetterSet): set<nat> {
    set k | 0 <= k < 32 && Bit(x, k)
  }

  /** `word[i] - 'A'` as a byte: the subtraction wraps modulo 256. */
  function BitIndex(c: char): nat
    requires c as int < 256
  {
    (c as int - 'A' as int) % 256
  }

  /** Distinct bytes have distinct indexes. */
  lemma BitIndexInjective(a: char, b: char)
    requires a as int < 256 && b as int < 256
    requires BitIndex(a) == BitIndex(b)
    ensures a == b
  {
    var x, y := a as int - 'A' as int, b as int - 'A' as int;
    assert x % 256 == if x >= 0 then x else x + 256;
    assert y % 256 == if y >= 0 then y else y + 256;
  }

  /** `letterSet(1) << n`: a shift by 32 or more leaves nothing of a uint32. */
  function Shl1(n: nat): (r: LetterSet)
    ensures Members(r) == if n < 32 then {n} else {}
  {
    Pow2Of64();
    if n < 32 then
      Pow2Less(n, 32);
      forall k | 0 <= k < 32 ensures Bit(Pow2(n), k) <==> k == n {
        Pow2Bit(n, k);
      }
      Pow2(n)
    else
      forall k | 0 <= k < 32 ensures !Bit(0, k) {
        BitOfZero(k);
      }
      0
  }

  function Or32(a: LetterSet, b: LetterSet): (r: LetterSet)
    ensures Members(r) == Members(a) + Members(b)
  {
    Pow2Of64();
    BitwiseBound(OrOp, a, b, 32);
    forall k | 0 <= k < 32 ensures Bit(Bitwise(OrOp, a, b), k) <==> Bit(a, k) || Bit(b, k) {
      BitwiseBit(OrOp, a, b, k);
    }
    Bitwise(OrOp, a, b)
  }

  function And32(a: LetterSet, b: LetterSet): (r: LetterSet)
    ensures Members(r) == Members(a) * Members(b)
  {
    Pow2Of64();
    BitwiseBound(AndOp, a, b, 32);
    forall k | 0 <= k < 32 ensures Bit(Bitwise(AndOp, a, b), k) <==> Bit(a, k) && Bit(b, k) {
      BitwiseBit(AndOp, a, b, k);
    }
    Bitwise(AndOp, a, b)
  }

  /** A letter set is determined by its members. */
  lemma MembersDetermine(a: LetterSet, b: LetterSet)
    requires Members(a) == Members(b)
    ensures a == b
  {
    Pow2Of64();
    forall k | 0 <= k < 32 ensures Bit(a, k) == Bit(b, k) {
      assert Bit(a, k) <==> k in Members(a);
    }
    BitsDetermine(a, b, 32);
  }

  predicate IsByteString(w: string) {
    forall i :: 0 <= i < |w| ==> w[i] as int < 256
  }

  /** The bit positions the bytes of `w` select (those below 32). */
  function Indexes(w: string): set<nat>
    requires IsByteString(w)
  {
    set i | 0 <= i < |w| && BitIndex(w[i]) < 32 :: BitIndex(w[i])
  }

  /** The letter set of `w`, one byte at a time from the left. */
  function LetterSetOf(w: string): (r: LetterSet)
    requires IsByteString(w)
    ensures Members(r) == Indexes(w)
  {
    if w == [] then
      forall k | 0 <= k < 32 ensures !Bit(0, k) {
        BitOfZero(k);
      }
      0
    else
      IndexesSnoc(w);
      Or32(LetterSetOf(w[..|w| - 1]), Shl1(BitIndex(w[|w| - 1])))
  }

  lemma IndexesSnoc(w: string)
    requires IsByteString(w) && w != []
    ensures Indexes(w) == Indexes(w[..|w| - 1]) + (if BitIndex(w[|w| - 1]) < 32 then {BitIndex(w[|w| - 1])} else {})
  {
    forall x | x in Indexes(w) ensures x in Indexes(w[..|w| - 1]) || x == BitIndex(w[|w| - 1]) {
      var i :| 0 <= i < |w| && BitIndex(w[i]) < 32 && x == BitIndex(w[i]);
      if i < |w| - 1 {
        assert w[..|w| - 1][i] == w[i];
      }
    }
    forall x | x in Indexes(w[..|w| - 1]) ensures x in Indexes(w) {
      var i :| 0 <= i < |w| - 1 && BitIndex(w[..|w| - 1][i]) < 32 && x == BitIndex(w[..|w| - 1][i]);
      assert w[..|w| - 1][i] == w[i];
    }
  }

  /** Only which bytes occur matters, not their order or repetition. */
  lemma LetterSetOfSameBytes(v: string, w: string)
    requires IsByteString(v) && IsByteString(w)
    requires forall c :: c in v <==> c in w
    ensures LetterSetOf(v) == LetterSetOf(w)
  {
    assert Indexes(v) == Indexes(w) by {
      forall x | x in Indexes(v) ensures x in Indexes(w) {
        var i :| 0 <= i < |v| && BitIndex(v[i]) < 32 && x == BitIndex(v[i]);
        assert v[i] in w;
        var j :| 0 <= j < |w| && w[j] == v[i];
      }
      forall x | x in Indexes(w) ensures x in Indexes(v) {
        var i :| 0 <= i < |w| && BitIndex(w[i]) < 32 && x == BitIndex(w[i]);
        assert w[i] in v;
        var j :| 0 <= j < |v| && v[j] == w[i];
      }
    }
    MembersDetermine(LetterSetOf(v), LetterSetOf(w));
  }

  /** `makeLetterSet`. */
  method MakeLetterSet(word: string) returns (s: LetterSet)
    requires IsByteString(word)
    ensures s == LetterSetOf(word)
  {
    s := 0;
    var i := 0;
    while i < |word|
      invariant 0 <= i <= |word|
      invariant s == LetterSetOf(word[..i])
    {
      var n := BitIndex(word[i]);
      assert word[..i + 1][..i] == word[..i];
      s := Or32(s, Shl1(n));
      i := i + 1;
    }
    assert word[..i] == word;
  }

  datatype Puzzle = Puzzle(center: LetterSet, all: LetterSet)

  /** `p.matches(letters)`: `center & letters == center && all & letters == letters`. */
  predicate Matches(p: Puzzle, letters: LetterSet) {
    And32(p.center, letters) == p.center && And32(p.all, letters) == letters
  }

  /** A word set matches exactly when it holds the center and nothing outside the puzzle. */
  lemma MatchesIff(p: Puzzle, letters: LetterSet)
    ensures Matches(p, letters) <==> Members(p.center) <= Members(letters) <= Members(p.all)
  {
    if Members(p.center) <= Members(letters) {
      MembersDetermine(And32(p.center, letters), p.center);
    }
    if Members(letters) <= Members(p.all) {
      MembersDetermine(And32(p.all, letters), letters);
    }
  }

  /** `bits.OnesCount32(uint32(letters)) == gameSize`: the word uses all seven letters. */
  predicate IsPangram(letters: LetterSet) {
    |Members(letters)| == GameSize
  }

  /** A matching pangram uses exactly the puzzle's letters. */
  lemma MatchingPangramUsesAll(p: Puzzle, letters: LetterSet)
    requires |Members(p.all)| == GameSize
    requires Matches(p, letters) && IsPangram(letters)
    ensures letters == p.all
  {
    MatchesIff(p, letters);
    SubsetSameSize(Members(letters), Members(p.all));
    MembersDetermine(letters, p.all);
  }

  lemma SubsetSameSize(a: set<nat>, b: set<nat>)
    requires a <= b && |a| == |b|
    ensures a == b
  {
    assert |b - a| == |b| - |a|;
    assert b - a == {};
  }

  /** The score of a solution: length less three, plus seven for a pangram. */
  function Score(word: string, pangram: bool): int {
    |word| - 3 + (if pangram then 7 else 0)
  }

  /** A word selects at most as many bit positions as it has bytes. */
  lemma {:induction false} IndexesAtMostLength(w: string)
    requires IsByteString(w)
    ensures |Indexes(w)| <= |w|
    decreases |w|
  {
    if w != [] {
      IndexesSnoc(w);
      IndexesAtMostLength(w[..|w| - 1]);
    }
  }

  /** A pangram has at least seven bytes, so it scores at least 4 + 7. */
  lemma PangramScore(w: string)
    requires IsByteString(w) && IsPangram(LetterSetOf(w))
    ensures Score(w, true) >= 11
  {
    IndexesAtMostLength(w);
  }

  /** A solution line: the word, whether it is a pangram, and its corpus rank. */
  datatype Solution = Solution(word: string, pangram: bool, freqScore: int)

  /** The sum of the scores of `sols`. */
  function ScoreSum(sols: seq<Solution>): int {
    if sols == [] then 0
    else ScoreSum(sols[..|sols| - 1]) + Score(sols[|sols| - 1].word, sols[|sols| - 1].pangram)
  }

  function PangramCount(sols: seq<Solution>): nat {
    if sols == [] then 0
    else PangramCount(sols[..|sols| - 1]) + (if sols[|sols| - 1].pangram then 1 else 0)
  }

  function LengthSum(sols: seq<Solution>): int {
    if sols == [] then 0 else LengthSum(sols[..|sols| - 1]) + |sols[|sols| - 1].word|
  }

  /** The total is the letters of all words, less three per word, plus seven per pangram. */
  lemma {:induction false} ScoreSumSplit(sols: seq<Solution>)
    ensures ScoreSum(sols) == LengthSum(sols) - 3 * |sols| + 7 * PangramCount(sols)
  {
    if sols != [] {
      ScoreSumSplit(sols[..|sols| - 1]);
    }
  }

  /** The `totalScore` loop of `main`. */
  method TotalScore(sols: seq<Solution>) returns (total: int)
    ensures total == ScoreSum(sols)
  {
    total := 0;
    for k := 0 to |sols|
      invariant total == ScoreSum(sols[..k])
    {
      assert sols[..k + 1][..k] == sols[..k];
      var score := |sols[k].word| - 3;
      if sols[k].pangram {
        score := score + 7;
      }
      total := total + score;
    }
    assert sols[..|sols|] == sols;
  }

  /** The `sort.Slice` comparator of `main`. */
  predicate SolutionLess(sortByScore: bool, s0: Solution, s1: Solution) {
    if s0.pangram != s1.pangram then s0.pangram
    else if sortByScore && |s0.word| != |s1.word| then |s0.word| > |s1.word|
    else s0.freqScore < s1.freqScore
  }

  /** The comparator is a strict order that puts pangrams first. */
  lemma SolutionLessIsStrictOrder(sortByScore: bool, a: Solution, b: Solution, c: Solution)
    ensures !SolutionLess(sortByScore, a, a)
    ensures SolutionLess(sortByScore, a, b) ==> !SolutionLess(sortByScore, b, a)
    ensures SolutionLess(sortByScore, a, b) && SolutionLess(sortByScore, b, c) ==> SolutionLess(sortByScore, a, c)
    ensures a.pangram && !b.pangram ==> SolutionLess(sortByScore, a, b)
  {
  }

  /** What classifying one rune of the arguments yields. */
  datatype RuneClass = Letter(b: char) | Skip | NotAllowed

  /**
   * Which switch `loadPuzzle` uses on each rune: the one as written, where
   * among capitals only 'A' passes `r >= 'A' && r <= 'A'`, or the evidently
   * intended one, where every capital passes.
   */
  datatype Rule = AsWritten | Intended

  function Classify(rule: Rule, r: char): (c: RuneClass)
    ensures c.Letter? ==> 'A' <= c.b <= 'Z'
  {
    if 'a' <= r <= 'z' then Letter((r as int - 'a' as int + 'A' as int) as char)
    else if 'A' <= r <= (if rule == AsWritten then 'A' else 'Z') then Letter(r)
    else if IsSpace(r) then Skip
    else NotAllowed
  }

  datatype PuzzleError =
    | DisallowedLetter(r: char)
    | WrongCount(n: nat)
    | DuplicateLetter(l: char)

  /** The arguments' runes one after the other, as the two `range` loops visit them. */
  function Concat(args: seq<string>): string {
    if args == [] then [] else Concat(args[..|args| - 1]) + args[|args| - 1]
  }

  /** The letters collected from `s`, or the first rune that is not allowed. */
  function Collect(s: string, rule: Rule): (r: Result<string, PuzzleError>)
    ensures r.Ok? ==> forall i :: 0 <= i < |r.value| ==> 'A' <= r.value[i] <= 'Z'
  {
    if s == [] then Ok([])
    else
      match Collect(s[..|s| - 1], rule)
      case Err(e) => Err(e)
      case Ok(ls) =>
        match Classify(rule, s[|s| - 1])
        case Letter(b) => Ok(ls + [b])
        case Skip => Ok(ls)
        case NotAllowed => Err(DisallowedLetter(s[|s| - 1]))
  }

  /** The letter `l0` at the first index that recurs later, if any. */
  function FirstDuplicate(ls: string): Option<char> {
    if ls == [] then None
    else if ls[0] in ls[1..] then Some(ls[0])
    else FirstDuplicate(ls[1..])
  }

  /** `FirstDuplicate` finds nothing exactly when the letters are distinct. */
  lemma {:induction false} FirstDuplicateSpec(ls: string)
    ensures FirstDuplicate(ls).None? <==> forall i, j :: 0 <= i < j < |ls| ==> ls[i] != ls[j]
  {
    if ls != [] {
      var t := ls[1..];
      FirstDuplicateSpec(t);
      if ls[0] in t {
        var j :| 0 <= j < |t| && t[j] == ls[0];
        assert ls[0] == ls[j + 1];
      } else {
        forall i, j | 0 <= i < j < |ls| && FirstDuplicate(t).None? ensures ls[i] != ls[j] {
          if i == 0 {
            assert ls[j] == t[j - 1];
          } else {
            assert ls[i] == t[i - 1] && ls[j] == t[j - 1];
          }
        }
        if FirstDuplicate(t).Some? {
          var i, j :| 0 <= i < j < |t| && t[i] == t[j];
          assert ls[i + 1] == ls[j + 1];
        }
      }
    }
  }

  /** The puzzle built from the collected letters, or why there is none. */
  function PuzzleOf(ls: string): (r: Result<Puzzle, PuzzleError>)
    requires IsByteString(ls)
  {
    if |ls| != GameSize then Err(WrongCount(|ls|))
    else if FirstDuplicate(ls).Some? then Err(DuplicateLetter(FirstDuplicate(ls).value))
    else Ok(Puzzle(LetterSetOf(ls[..1]), LetterSetOf(ls)))
  }

  /** The result of `loadPuzzle` with a given rune switch. */
  function LoadPuzzleWith(args: seq<string>, rule: Rule): Result<Puzzle, PuzzleError> {
    match Collect(Concat(args), rule)
    case Err(e) => Err(e)
    case Ok(ls) => PuzzleOf(ls)
  }

  /** `loadPuzzle` as the corrected switch would behave. */
  function LoadPuzzleIntended(args: seq<string>): (r: Result<Puzzle, PuzzleError>)
    ensures r.Ok? ==> |Members(r.value.all)| == GameSize && |Members(r.value.center)| == 1
    ensures r.Ok? ==> Members(r.value.center) <= Members(r.value.all)
  {
    var r := LoadPuzzleWith(args, Intended);
    if r.Ok? then
      var ls := Collect(Concat(args), Intended).value;
      PuzzleMembers(ls);
      r
    else r
  }

  /** Seven distinct capitals give a seven-letter set whose center is one of them. */
  lemma PuzzleMembers(ls: string)
    requires |ls| == GameSize && FirstDuplicate(ls).None?
    requires forall i :: 0 <= i < |ls| ==> 'A' <= ls[i] <= 'Z'
    ensures |Members(LetterSetOf(ls))| == GameSize
    ensures Members(LetterSetOf(ls[..1])) == {BitIndex(ls[0])}
    ensures Members(LetterSetOf(ls[..1])) <= Members(LetterSetOf(ls))
  {
    FirstDuplicateSpec(ls);
    assert Indexes(ls[..1]) == {BitIndex(ls[0])};
    DistinctCapitals(ls);
  }

  /** Distinct capitals select as many distinct bits. */
  lemma {:induction false} DistinctCapitals(ls: string)
    requires forall i :: 0 <= i < |ls| ==> 'A' <= ls[i] <= 'Z'
    requires forall i, j :: 0 <= i < j < |ls| ==> ls[i] != ls[j]
    ensures |Indexes(ls)| == |ls|
  {
    if ls != [] {
      var t := ls[..|ls| - 1];
      DistinctCapitals(t);
      IndexesSnoc(ls);
      forall i | 0 <= i < |t|
        ensures BitIndex(t[i]) != BitIndex(ls[|ls| - 1])
      {
        assert t[i] == ls[i] != ls[|ls| - 1];
        if BitIndex(t[i]) == BitIndex(ls[|ls| - 1]) {
          BitIndexInjective(t[i], ls[|ls| - 1]);
        }
      }
    }
  }

  /** Once collecting fails, more runes do not change the error. */
  lemma {:induction false} CollectErrExtends(s: string, t: string, rule: Rule)
    requires Collect(s, rule).Err?
    ensures Collect(s + t, rule) == Collect(s, rule)
    decreases |t|
  {
    if t != [] {
      var u := t[..|t| - 1];
      CollectErrExtends(s, u, rule);
      assert (s + t)[..|s + t| - 1] == s + u;
    } else {
      assert s + t == s;
    }
  }

  /** The runes of the first `a` arguments come first. */
  lemma {:induction false} ConcatPrefix(args: seq<string>, a: nat)
    requires a <= |args|
    ensures Concat(args[..a]) <= Concat(args)
    decreases |args| - a
  {
    if a < |args| {
      ConcatPrefix(args, a + 1);
      assert args[..a + 1][..a] == args[..a];
    } else {
      assert args[..a] == args;
    }
  }

  lemma ConcatStep(args: seq<string>, a: nat)
    requires a < |args|
    ensures Concat(args[..a + 1]) == Concat(args[..a]) + args[a]
  {
    assert args[..a + 1][..a] == args[..a];
  }

  /** One more rune extends the collection by its class. */
  lemma CollectSnoc(s: string, c: char, rule: Rule)
    ensures Collect(s + [c], rule) ==
      match Collect(s, rule)
      case Err(e) => Err(e)
      case Ok(ls) =>
        match Classify(rule, c)
        case Letter(b) => Ok(ls + [b])
        case Skip => Ok(ls)
        case NotAllowed => Err(DisallowedLetter(c))
  {
    assert (s + [c])[..|s|] == s;
  }

  /** An error within argument `a` is the error of the whole collection. */
  lemma CollectStops(args: seq<string>, a: nat, rule: Rule)
    requires a < |args|
    requires Collect(Concat(args[..a]) + args[a], rule).Err?
    ensures Collect(Concat(args), rule) == Collect(Concat(args[..a]) + args[a], rule)
  {
    var done := Concat(args[..a]) + args[a];
    ConcatStep(args, a);
    ConcatPrefix(args, a + 1);
    CollectErrExtends(done, Concat(args)[|done|..], rule);
    assert done + Concat(args)[|done|..] == Concat(args);
  }

  /** The inner `range` loop of `loadPuzzle`: the letters of one more argument, or the first rune not allowed. */
  method CollectArg(ghost before: string, arg: string, collected: string) returns (r: Result<string, PuzzleError>)
    requires Collect(before, AsWritten) == Ok(collected)
    ensures r == Collect(before + arg, AsWritten)
  {
    var letters := collected;
    var k := 0;
    assert before + arg[..k] == before;
    while k < |arg|
      invariant 0 <= k <= |arg|
      invariant Collect(before + arg[..k], AsWritten) == Ok(letters)
    {
      assert before + arg[..k + 1] == (before + arg[..k]) + [arg[k]];
      CollectSnoc(before + arg[..k], arg[k], AsWritten);
      match Classify(AsWritten, arg[k]) {
        case Letter(b) =>
          letters := letters + [b];
        case Skip =>
        case NotAllowed =>
          CollectErrExtends(before + arg[..k + 1], arg[k + 1..], AsWritten);
          assert before + arg[..k + 1] + arg[k + 1..] == before + arg;
          return Err(DisallowedLetter(arg[k]));
      }
      k := k + 1;
    }
    assert arg[..k] == arg;
    return Ok(letters);
  }

  /** The two `range` loops of `loadPuzzle`: the letters of all arguments, or the first rune not allowed. */
  method CollectLetters(args: seq<string>) returns (r: Result<string, PuzzleError>)
    ensures r == Collect(Concat(args), AsWritten)
  {
    var letters: string := [];
    var a := 0;
    while a < |args|
      invariant 0 <= a <= |args|
      invariant Collect(Concat(args[..a]), AsWritten) == Ok(letters)
    {
      var next := CollectArg(Concat(args[..a]), args[a], letters);
      if next.Err? {
        CollectStops(args, a, AsWritten);
        return next;
      }
      letters := next.value;
      ConcatStep(args, a);
      a := a + 1;
    }
    assert args[..a] == args;
    return Ok(letters);
  }

  /** The nested loops of `loadPuzzle` that look for a repeated letter. */
  method FindDuplicate(letters: string) returns (d: Option<char>)
    ensures d == FirstDuplicate(letters)
  {
    var i := 0;
    while i < |letters|
      invariant 0 <= i <= |letters|
      invariant forall i', j' :: 0 <= i' < i && i' < j' < |letters| ==> letters[i'] != letters[j']
    {
      var j := i + 1;
      while j < |letters|
        invariant i + 1 <= j <= |letters|
        invariant forall j' :: i < j' < j ==> letters[i] != letters[j']
      {
        if letters[i] == letters[j] {
          FirstDuplicateAt(letters, i, j);
          return Some(letters[i]);
        }
        j := j + 1;
      }
      i := i + 1;
    }
    FirstDuplicateSpec(letters);
    return None;
  }

  /** `loadPuzzle`, with its switch as written. */
  method LoadPuzzle(args: seq<string>) returns (r: Result<Puzzle, PuzzleError>)
    ensures r == LoadPuzzleWith(args, AsWritten)
  {
    var collected := CollectLetters(args);
    if collected.Err? {
      return Err(collected.error);
    }
    var letters := collected.value;
    if |letters| != GameSize {
      return Err(WrongCount(|letters|));
    }
    var dup := FindDuplicate(letters);
    if dup.Some? {
      return Err(DuplicateLetter(dup.value));
    }
    var center := MakeLetterSet(letters[..1]);
    var all := MakeLetterSet(letters);
    return Ok(Puzzle(center, all));
  }

  /**
   * `FirstDuplicate` reports the letter at the first index that recurs: a
   * repeat at `i`, with no repeat starting at an earlier index, is the one.
   */
  lemma {:induction false} FirstDuplicateAt(ls: string, i: nat, j: nat)
    requires i < j < |ls| && ls[i] == ls[j]
    requires forall i', j' :: 0 <= i' < i && i' < j' < |ls| ==> ls[i'] != ls[j']
    ensures FirstDuplicate(ls) == Some(ls[i])
  {
    if i == 0 {
      assert ls[1..][j - 1] == ls[0];
    } else {
      assert ls[0] !in ls[1..] by {
        forall k | 0 <= k < |ls[1..]| ensures ls[1..][k] != ls[0] {
          assert ls[1..][k] == ls[k + 1];
        }
      }
      var t := ls[1..];
      forall i', j' | 0 <= i' < i - 1 && i' < j' < |t| ensures t[i'] != t[j'] {
        assert t[i'] == ls[i' + 1] && t[j'] == ls[j' + 1];
      }
      FirstDuplicateAt(t, i - 1, j - 1);
    }
  }

  /** The as-written switch and the intended one part exactly on the capitals other than 'A'. */
  lemma ClassifiersDiffer(r: char)
    ensures Classify(AsWritten, r) != Classify(Intended, r) <==> 'B' <= r <= 'Z'
  {
  }

  /** As written, "ABCDEFG" is refused at its 'B'. */
  lemma CapitalsRejectedAsWritten()
    ensures LoadPuzzleWith(["ABCDEFG"], AsWritten) == Err(DisallowedLetter('B'))
  {
    assert Concat(["ABCDEFG"]) == "ABCDEFG";
    assert Classify(AsWritten, 'A') == Letter('A');
    assert Classify(AsWritten, 'B') == NotAllowed;
    assert "AB"[..1] == "A" && "A"[..0] == [];
    assert Collect([], AsWritten) == Ok([]);
    assert Collect("A", AsWritten) == Ok([] + ['A']);
    assert Collect("AB", AsWritten) == Err(DisallowedLetter('B'));
    CollectErrExtends("AB", "CDEFG", AsWritten);
    assert "AB" + "CDEFG" == "ABCDEFG";
  }

  /**
   * As written, a word in lower case is collected as its capitals, which is
   * what the intended switch collects from the capital spelling itself.
   */
  lemma LowerCaseCollectedAsWritten(s: string)
    requires forall i :: 0 <= i < |s| ==> 'a' <= s[i] <= 'z'
    ensures Collect(s, AsWritten) == Ok(ToUpper(s))
    ensures Collect(ToUpper(s), Intended) == Ok(ToUpper(s))
  {
    CollectLower(s);
    CollectIgnoresCase(s);
    CollectSameOnLower(s);
  }

  /** On lower-case letters the two switches agree. */
  lemma {:induction false} CollectSameOnLower(s: string)
    requires forall i :: 0 <= i < |s| ==> 'a' <= s[i] <= 'z'
    ensures Collect(s, Intended) == Collect(s, AsWritten)
  {
    if s != [] {
      CollectSameOnLower(s[..|s| - 1]);
    }
  }

  /** Lower-case letters are collected as their capitals. */
  lemma {:induction false} CollectLower(s: string)
    requires forall i :: 0 <= i < |s| ==> 'a' <= s[i] <= 'z'
    ensures Collect(s, AsWritten) == Ok(ToUpper(s))
  {
    if s != [] {
      CollectLower(s[..|s| - 1]);
      assert ToUpper(s) == ToUpper(s[..|s| - 1]) + [UpperRune(s[|s| - 1])];
    }
  }

  lemma {:induction false} CollectIgnoresCase(s: string)
    ensures Collect(ToUpper(s), Intended) == Collect(s, Intended)
    decreases |s|
  {
    if s != [] {
      var t := s[..|s| - 1];
      CollectIgnoresCase(t);
      assert ToUpper(s)[..|s| - 1] == ToUpper(t);
      assert Classify(Intended, UpperRune(s[|s| - 1])) == Classify(Intended, s[|s| - 1]);
    }
  }

  lemma {:induction false} ConcatUpper(args: seq<string>)
    ensures Concat(seq(|args|, i requires 0 <= i < |args| => ToUpper(args[i]))) == ToUpper(Concat(args))
  {
    var up := seq(|args|, i requires 0 <= i < |args| => ToUpper(args[i]));
    if args != [] {
      var t := args[..|args| - 1];
      ConcatUpper(t);
      assert up[..|up| - 1] == seq(|t|, i requires 0 <= i < |t| => ToUpper(t[i]));
    }
  }

  /** With the intended switch, the puzzle does not depend on the case of its letters. */
  lemma LoadPuzzleIgnoresCase(args: seq<string>)
    ensures LoadPuzzleIntended(seq(|args|, i requires 0 <= i < |args| => ToUpper(args[i]))) == LoadPuzzleIntended(args)
  {
    ConcatUpper(args);
    CollectIgnoresCase(Concat(args));
  }
}
