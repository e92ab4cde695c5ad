/**
 * Day 6, "Memory Reallocation": a row of memory banks holds blocks; a
 * redistribution cycle empties the fullest bank (the first one on a tie)
 * and hands its blocks out one at a time to the banks after it, wrapping
 * round.  Configurations are remembered by their string form.
 */
module AdventDay6 {
  import opened GoBase
  import opened GoStrings
  import AdventDay2

  // ---------------------------------------------------------------------
  // The string form

  /** `String`: every bank as its decimal value followed by a comma. */
  function Encode(s: seq<Int64>): string {
    if s == [] then "" else Encode(s[..|s| - 1]) + FormatInt(s[|s| - 1]) + ","
  }

  /** No comma appears in a formatted number. */
  lemma FormatIntNoComma(x: int)
    ensures ',' !in FormatInt(x)
  {
    var d := Digits(if x < 0 then -x else x);
    assert forall i :: 0 <= i < |d| ==> IsDigit(d[i]);
  }

  /** A formatted number starts with a minus sign exactly when it is negative. */
  lemma FormatIntSign(x: int)
    ensures FormatInt(x)[0] == '-' <==> x < 0
  {
    if x >= 0 {
      assert IsDigit(Digits(x)[0]);
    }
  }

  /** Different numbers format differently. */
  lemma FormatIntInjective(x: int, y: int)
    requires FormatInt(x) == FormatInt(y)
    ensures x == y
  {
    FormatIntSign(x);
    FormatIntSign(y);
    if x < 0 {
      assert FormatInt(x)[1..] == Digits(-x);
      assert FormatInt(y)[1..] == Digits(-y);
    }
  }

  /** Only no banks give the empty string; any other string form ends in a comma. */
  lemma EncodeEnds(s: seq<Int64>)
    ensures Encode(s) == "" <==> s == []
    ensures s != [] ==> Encode(s)[|Encode(s)| - 1] == ','
  {
  }

  /**
   * Two strings that are each empty or end in a comma, followed by comma-free
   * strings, split the same way when the whole strings agree.
   */
  lemma LastField(a: string, u: string, b: string, v: string)
    requires ',' !in u && ',' !in v && a + u == b + v
    requires a == [] || a[|a| - 1] == ','
    requires b == [] || b[|b| - 1] == ','
    ensures a == b && u == v
  {
    if |u| < |v| {
      CommaInLonger(a, u, b, v);
    } else if |v| < |u| {
      CommaInLonger(b, v, a, u);
    } else {
      var w := a + u;
      assert a == w[..|a|] && b == w[..|b|];
      assert u == w[|a|..] && v == w[|b|..];
    }
  }

  /** Of two such splits, the longer comma-free tail reaches the comma that ends the other head. */
  lemma CommaInLonger(a: string, u: string, b: string, v: string)
    requires a + u == b + v && |u| < |v| && (a == [] || a[|a| - 1] == ',')
    ensures ',' in v
  {
    var w := a + u;
    assert w[|a| - 1] == ',';
    assert v[|a| - 1 - |b|] == w[|a| - 1];
  }

  /** A string followed by a comma determines the string. */
  lemma DropComma(x: string, y: string)
    requires x + "," == y + ","
    ensures x == y
  {
    assert x == (x + ",")[..|x|];
    assert y == (y + ",")[..|y|];
  }

  /**
   * The string form determines the banks, so the set of strings `day6`
   * remembers stands for the set of configurations.
   */
  lemma {:induction false} EncodeInjective(s: seq<Int64>, t: seq<Int64>)
    requires Encode(s) == Encode(t)
    ensures s == t
  {
    EncodeEnds(s);
    EncodeEnds(t);
    if s != [] {
      var s', t' := s[..|s| - 1], t[..|t| - 1];
      var u, v := FormatInt(s[|s| - 1]), FormatInt(t[|t| - 1]);
      FormatIntNoComma(s[|s| - 1]);
      FormatIntNoComma(t[|t| - 1]);
      EncodeEnds(s');
      EncodeEnds(t');
      DropComma(Encode(s') + u, Encode(t') + v);
      LastField(Encode(s'), u, Encode(t'), v);
      FormatIntInjective(s[|s| - 1], t[|t| - 1]);
      EncodeInjective(s', t');
      SplitLast(s);
      SplitLast(t);
    }
  }

  lemma SplitLast(s: seq<Int64>)
    requires s != []
    ensures s == s[..|s| - 1] + [s[|s| - 1]]
  {
  }

  // ---------------------------------------------------------------------
  // A redistribution cycle

  /** The bank chosen and the blocks it held, as `cycle`'s first loop leaves them. */
  datatype Choice = Choice(j: int, max: int)

  /** The scan of the banks for the first maximum, starting from index 0 and -1 blocks. */
  function Pick(s: seq<Int64>): (c: Choice)
    ensures s == [] ==> c == Choice(0, -1)
    ensures s != [] ==> 0 <= c.j < |s|
  {
    if s == [] then Choice(0, -1)
    else
      var c := Pick(s[..|s| - 1]);
      if s[|s| - 1] > c.max then Choice(|s| - 1, s[|s| - 1]) else c
  }

  /**
   * The bank picked holds the most blocks and no bank before it holds as
   * many; when every bank is negative, bank 0 is picked with -1 blocks.
   */
  lemma {:induction false} PickIsFirstMax(s: seq<Int64>)
    ensures var c := Pick(s);
      (c.max == -1 && c.j == 0 && forall i :: 0 <= i < |s| ==> s[i] < 0) ||
      (0 <= c.j < |s| && s[c.j] == c.max >= 0 &&
       (forall i :: 0 <= i < |s| ==> s[i] <= c.max) && (forall i :: 0 <= i < c.j ==> s[i] < c.max))
  {
    if s != [] {
      var p := s[..|s| - 1];
      PickIsFirstMax(p);
      assert forall i :: 0 <= i < |p| ==> p[i] == s[i];
    }
  }

  /**
   * The second loop of `cycle`: `m` blocks handed out one each to the banks
   * after bank `j`, wrapping round; each increment is an int64 one.
   */
  function Deal(s: seq<Int64>, j: int, m: int): (r: seq<Int64>)
    requires 0 <= j < |s|
    ensures |r| == |s|
    decreases m
  {
    if m <= 0 then s
    else
      var k := if j + 1 < |s| then j + 1 else 0;
      Deal(s[k := Wrap64(s[k] as int + 1)], k, m - 1)
  }

  /** The bank after `j`, wrapping round. */
  lemma NextIndex(j: int, n: int)
    requires 0 <= j < n
    ensures (j + 1) % n == if j + 1 < n then j + 1 else 0
  {
    if j + 1 == n {
      assert (j + 1) % n == 0;
    }
  }

  /** `cycle` on the values of the banks. */
  function CycleOf(s: seq<Int64>): (r: seq<Int64>)
    requires s != []
    ensures |r| == |s|
  {
    var c := Pick(s);
    Deal(s[c.j := 0], c.j, c.max)
  }

  /** The total number of blocks. */
  function Sum(s: seq<Int64>): int {
    if s == [] then 0 else Sum(s[..|s| - 1]) + s[|s| - 1]
  }

  predicate NonNegative(s: seq<Int64>) {
    forall i :: 0 <= i < |s| ==> s[i] >= 0
  }

  /** Changing one bank changes the total by the difference. */
  lemma {:induction false} SumUpdate(s: seq<Int64>, k: int, x: Int64)
    requires 0 <= k < |s|
    ensures Sum(s[k := x]) == Sum(s) - s[k] + x
  {
    if k < |s| - 1 {
      assert s[k := x][..|s| - 1] == s[..|s| - 1][k := x];
      SumUpdate(s[..|s| - 1], k, x);
    } else {
      assert s[k := x][..|s| - 1] == s[..|s| - 1];
    }
  }

  /** With no negative bank, every bank holds at most the total. */
  lemma {:induction false} BankAtMostSum(s: seq<Int64>, k: int)
    requires NonNegative(s) && 0 <= k < |s|
    ensures s[k] <= Sum(s)
  {
    if k < |s| - 1 {
      BankAtMostSum(s[..|s| - 1], k);
    } else {
      SumNonNegative(s[..|s| - 1]);
    }
  }

  lemma {:induction false} SumNonNegative(s: seq<Int64>)
    requires NonNegative(s)
    ensures Sum(s) >= 0
  {
    if s != [] {
      SumNonNegative(s[..|s| - 1]);
    }
  }

  /**
   * Handing out `m` blocks adds `m` to the total and no bank wraps round,
   * as long as the total stays within int64.
   */
  lemma {:induction false} DealAdds(s: seq<Int64>, j: int, m: int)
    requires 0 <= j < |s| && NonNegative(s) && 0 <= m && Sum(s) + m <= MaxInt64
    ensures Sum(Deal(s, j, m)) == Sum(s) + m && NonNegative(Deal(s, j, m))
    decreases m
  {
    if m > 0 {
      var k := if j + 1 < |s| then j + 1 else 0;
      BankAtMostSum(s, k);
      var s' := s[k := Wrap64(s[k] as int + 1)];
      assert s'[k] == s[k] + 1;
      SumUpdate(s, k, s'[k]);
      DealAdds(s', k, m - 1);
    }
  }

  /**
   * A cycle keeps the number of banks and, when no bank is negative and
   * the total fits in an int64, the total number of blocks.
   */
  lemma CycleKeepsTotal(s: seq<Int64>)
    requires s != [] && NonNegative(s) && Sum(s) <= MaxInt64
    ensures |CycleOf(s)| == |s| && Sum(CycleOf(s)) == Sum(s) && NonNegative(CycleOf(s))
  {
    var c := Pick(s);
    PickIsFirstMax(s);
    SumNonNegative(s);
    assert s[0] >= 0;
    SumUpdate(s, c.j, 0);
    DealAdds(s[c.j := 0], c.j, c.max);
  }

  /** `memory`: the banks, changed in place by `cycle`. */
  class Memory {
    var banks: array<Int64>

    constructor (input: array<Int64>)
      ensures banks == input
    {
      banks := input;
    }

    /** `String`: the string form of the banks, built up bank by bank. */
    method String() returns (r: string)
      ensures r == Encode(banks[..])
    {
      r := "";
      for i := 0 to banks.Length
        invariant r == Encode(banks[..i])
      {
        assert banks[..i + 1][..i] == banks[..i];
        r := r + FormatInt(banks[i]) + ",";
      }
      assert banks[..banks.Length] == banks[..];
    }

    /**
     * `cycle`: find the first fullest bank, empty it and hand its blocks
     * out round-robin from the next bank; with no banks, the write to bank
     * 0 panics, so there must be one.
     */
    method Cycle()
      requires banks.Length > 0
      modifies banks
      ensures banks[..] == CycleOf(old(banks[..]))
    {
      var max: int := -1;
      var j := 0;
      for i := 0 to banks.Length
        invariant Choice(j, max) == Pick(banks[..i])
      {
        assert banks[..i + 1][..i] == banks[..i];
        if banks[i] > max {
          j := i;
          max := banks[i];
        }
      }
      assert banks[..banks.Length] == banks[..];
      banks[j] := 0;
      while max > 0
        invariant 0 <= j < banks.Length
        invariant Deal(banks[..], j, max) == CycleOf(old(banks[..]))
        decreases max
      {
        NextIndex(j, banks.Length);
        j := (j + 1) % banks.Length;
        banks[j] := Wrap64(banks[j] as int + 1);
        max := max - 1;
      }
    }
  }

  // ---------------------------------------------------------------------
  // Finding the loop

  /** `cycle` as a total step on configurations; no banks stay no banks. */
  function Next(s: seq<Int64>): (r: seq<Int64>)
    ensures |r| == |s|
  {
    if s == [] then s else CycleOf(s)
  }

  /** The configuration after `n` steps of `f`. */
  function Iterate(f: seq<Int64> -> seq<Int64>, s: seq<Int64>, n: nat): seq<Int64>
    decreases n
  {
    if n == 0 then s else Iterate(f, f(s), n - 1)
  }

  /** The last of `n + 1` steps is a step from the configuration after `n`. */
  lemma {:induction false} IterateLast(f: seq<Int64> -> seq<Int64>, s: seq<Int64>, n: nat)
    ensures Iterate(f, s, n + 1) == f(Iterate(f, s, n))
    decreases n
  {
    if n > 0 {
      IterateLast(f, f(s), n - 1);
    }
  }

  /** Stepping `m` times and then `n` times is stepping `m + n` times. */
  lemma {:induction false} IterateAdd(f: seq<Int64> -> seq<Int64>, s: seq<Int64>, m: nat, n: nat)
    ensures Iterate(f, Iterate(f, s, m), n) == Iterate(f, s, m + n)
    decreases m
  {
    if m > 0 {
      IterateAdd(f, f(s), m - 1, n);
    }
  }

  /** Cycling keeps no bank negative and the total, while the total fits in an int64. */
  lemma {:induction false} IterateKeepsTotal(s: seq<Int64>, n: nat)
    requires s != [] && NonNegative(s) && Sum(s) <= MaxInt64
    ensures |Iterate(Next, s, n)| == |s|
    ensures NonNegative(Iterate(Next, s, n)) && Sum(Iterate(Next, s, n)) == Sum(s)
    decreases n
  {
    if n > 0 {
      CycleKeepsTotal(s);
      IterateKeepsTotal(Next(s), n - 1);
    }
  }

  /** After `i` steps the configuration is one seen before. */
  ghost predicate Repeats(f: seq<Int64> -> seq<Int64>, s: seq<Int64>, i: nat) {
    Occurs(f, s, i, Iterate(f, s, i))
  }

  /** `x` is one of the configurations after 0 to `k - 1` steps. */
  ghost predicate Occurs(f: seq<Int64> -> seq<Int64>, s: seq<Int64>, k: nat, x: seq<Int64>) {
    k > 0 && (Iterate(f, s, k - 1) == x || Occurs(f, s, k - 1, x))
  }

  lemma {:induction false} OccursMeaning(f: seq<Int64> -> seq<Int64>, s: seq<Int64>, k: nat, x: seq<Int64>)
    ensures Occurs(f, s, k, x) <==> exists j :: 0 <= j < k && Iterate(f, s, j) == x
  {
    if k > 0 {
      OccursMeaning(f, s, k - 1, x);
      if Iterate(f, s, k - 1) == x {
        assert 0 <= k - 1 < k && Iterate(f, s, k - 1) == x;
      }
    }
  }

  /** `a` is the first answer of `day6`: the first step that produces a configuration seen before. */
  ghost predicate FirstRepeat(f: seq<Int64> -> seq<Int64>, s: seq<Int64>, a: nat) {
    a >= 1 && Repeats(f, s, a) && forall i :: 1 <= i < a ==> !Repeats(f, s, i)
  }

  /** `j` steps bring `s` back to itself. */
  ghost predicate Returns(f: seq<Int64> -> seq<Int64>, s: seq<Int64>, j: nat) {
    Iterate(f, s, j) == s
  }

  /** `b` is the second answer: the fewest steps, at least one, that bring `s` back to itself. */
  ghost predicate LoopLength(f: seq<Int64> -> seq<Int64>, s: seq<Int64>, b: nat) {
    b >= 1 && Returns(f, s, b) && forall j :: 1 <= j < b ==> !Returns(f, s, j)
  }

  /**
   * The second answer is the size of the loop found by the first: the
   * configuration that repeats at step `a` had first appeared `b` steps
   * earlier, and at no other step before `a`.
   */
  lemma LoopIsDistance(f: seq<Int64> -> seq<Int64>, s: seq<Int64>, a: nat, k: nat, b: nat)
    requires FirstRepeat(f, s, a) && k < a && Iterate(f, s, k) == Iterate(f, s, a)
    requires LoopLength(f, Iterate(f, s, a), b)
    ensures b == a - k
  {
    LoopNotLonger(f, s, a, k);
    if b < a - k {
      EarlierRepeat(f, s, a, k, b);
    }
  }

  /** A configuration repeated `a - k` steps later comes back after `a - k` steps. */
  lemma LoopNotLonger(f: seq<Int64> -> seq<Int64>, s: seq<Int64>, a: nat, k: nat)
    requires k < a && Iterate(f, s, k) == Iterate(f, s, a)
    ensures Returns(f, Iterate(f, s, a), a - k)
  {
    IterateAdd(f, s, k, a - k);
    IterateAdd(f, s, a, a - k);
  }

  /** A return after fewer than `a - k` steps would have made a configuration repeat before step `a`. */
  lemma EarlierRepeat(f: seq<Int64> -> seq<Int64>, s: seq<Int64>, a: nat, k: nat, b: nat)
    requires k < a && Iterate(f, s, k) == Iterate(f, s, a) && 1 <= b && Returns(f, Iterate(f, s, a), b)
    ensures Repeats(f, s, k + b)
  {
    IterateAdd(f, s, k, b);
    IterateAdd(f, s, a, b);
    OccursMeaning(f, s, k + b, Iterate(f, s, k));
  }

  /** One more cycle of banks that are not empty. */
  lemma IterateCycle(s: seq<Int64>, i: nat)
    requires Iterate(Next, s, i) != []
    ensures Iterate(Next, s, i + 1) == CycleOf(Iterate(Next, s, i))
  {
    IterateLast(Next, s, i);
  }

  /**
   * `key` gives every configuration its string form.  The loops of `day6`
   * are proved for any such `key`, so that their proofs need not look
   * inside the string forms.
   */
  ghost predicate IsString(key: seq<Int64> -> string) {
    forall x {:trigger Encode(x)} :: key(x) == Encode(x)
  }

  lemma EncodeIsString()
    ensures IsString(Encode)
  {
  }

  /** Configurations with the same key are the same. */
  lemma KeyInjective(key: seq<Int64> -> string, x: seq<Int64>, y: seq<Int64>)
    requires IsString(key) && key(x) == key(y)
    ensures x == y
  {
    assert Encode(x) == key(x);
    assert Encode(y) == key(y);
    EncodeInjective(x, y);
  }

  /** The keys of the first `i` configurations. */
  ghost function SeenUpTo(key: seq<Int64> -> string, s: seq<Int64>, i: nat): set<string> {
    if i == 0 then {} else SeenUpTo(key, s, i - 1) + {key(Iterate(Next, s, i - 1))}
  }

  /** The key of `x` is remembered exactly when `x` is one of the first `i` configurations. */
  lemma {:induction false} SeenUpToMeaning(key: seq<Int64> -> string, s: seq<Int64>, i: nat, x: seq<Int64>)
    requires IsString(key)
    ensures key(x) in SeenUpTo(key, s, i) <==> Occurs(Next, s, i, x)
  {
    if i > 0 {
      SeenUpToMeaning(key, s, i - 1, x);
      if key(x) == key(Iterate(Next, s, i - 1)) {
        KeyInjective(key, x, Iterate(Next, s, i - 1));
      }
    }
  }

  /**
   * The keys remembered after `i` configurations hold the key of the one
   * after cycle `i` exactly when it repeats; adding it gives the keys
   * remembered after `i + 1`.
   */
  lemma SeenIff(key: seq<Int64> -> string, s: seq<Int64>, i: nat, seen: set<string>, str: string)
    requires IsString(key) && seen == SeenUpTo(key, s, i) && str == key(Iterate(Next, s, i))
    ensures str in seen <==> Repeats(Next, s, i)
    ensures seen + {str} == SeenUpTo(key, s, i + 1)
  {
    SeenUpToMeaning(key, s, i, Iterate(Next, s, i));
  }

  /** None of steps 1 to `n` returns to `s`. */
  ghost predicate NoReturnWithin(f: seq<Int64> -> seq<Int64>, s: seq<Int64>, n: nat) {
    n == 0 || (!Returns(f, s, n) && NoReturnWithin(f, s, n - 1))
  }

  lemma {:induction false} NoReturnWithinMeaning(f: seq<Int64> -> seq<Int64>, s: seq<Int64>, n: nat)
    ensures NoReturnWithin(f, s, n) <==> forall j :: 1 <= j <= n ==> !Returns(f, s, j)
  {
    if n > 0 {
      NoReturnWithinMeaning(f, s, n - 1);
    }
  }

  /** None of steps 1 to `n` repeats a configuration. */
  ghost predicate NoRepeatWithin(f: seq<Int64> -> seq<Int64>, s: seq<Int64>, n: nat) {
    n == 0 || (!Repeats(f, s, n) && NoRepeatWithin(f, s, n - 1))
  }

  lemma {:induction false} NoRepeatWithinMeaning(f: seq<Int64> -> seq<Int64>, s: seq<Int64>, n: nat)
    ensures NoRepeatWithin(f, s, n) <==> forall i :: 1 <= i <= n ==> !Repeats(f, s, i)
  {
    if n > 0 {
      NoRepeatWithinMeaning(f, s, n - 1);
    }
  }

  /** The first repeat is one after none. */
  lemma FoundFirst(f: seq<Int64> -> seq<Int64>, s: seq<Int64>, i: nat)
    requires i >= 1 && NoRepeatWithin(f, s, i - 1) && Repeats(f, s, i)
    ensures FirstRepeat(f, s, i)
  {
    NoRepeatWithinMeaning(f, s, i - 1);
  }

  /** A `cycle` call on the banks after `i` cycles of `s` leaves them after `i + 1`. */
  method CycleAgain(m: Memory, ghost s: seq<Int64>, ghost i: nat)
    requires m.banks.Length > 0 && m.banks[..] == Iterate(Next, s, i)
    modifies m.banks
    ensures m.banks[..] == Iterate(Next, s, i + 1)
  {
    IterateCycle(s, i);
    m.Cycle();
  }

  /**
   * One round of the first loop of `day6`: a `cycle` call and the string
   * form of the result, which the strings remembered so far hold exactly
   * when the configuration repeats.
   */
  method Probe(m: Memory, ghost key: seq<Int64> -> string, ghost s: seq<Int64>, ghost i: nat, seen: set<string>) returns (str: string)
    requires IsString(key) && i >= 1 && m.banks.Length > 0 && m.banks[..] == Iterate(Next, s, i - 1) && seen == SeenUpTo(key, s, i)
    modifies m.banks
    ensures m.banks[..] == Iterate(Next, s, i) && str == key(m.banks[..])
    ensures str in seen <==> Repeats(Next, s, i)
    ensures seen + {str} == SeenUpTo(key, s, i + 1)
  {
    CycleAgain(m, s, i - 1);
    str := m.String();
    SeenIff(key, s, i, seen, str);
  }

  /** `String` on the banks, whose result is their key. */
  method KeyOf(m: Memory, ghost key: seq<Int64> -> string) returns (str: string)
    requires IsString(key)
    ensures str == key(m.banks[..])
  {
    str := m.String();
  }

  /**
   * The first loop of `day6`: cycle, remembering every string form, until a
   * string comes round again; at most `fuel` cycles.  The number of cycles
   * and the repeated string are returned.
   */
  method FindRepeat(m: Memory, fuel: nat, ghost key: seq<Int64> -> string) returns (a: Option<nat>, first: string)
    requires IsString(key) && m.banks.Length > 0
    modifies m.banks
    ensures a.Some? ==> FirstRepeat(Next, old(m.banks[..]), a.value) && m.banks[..] == Iterate(Next, old(m.banks[..]), a.value)
    ensures a.Some? ==> first == key(m.banks[..])
    ensures a.None? ==> forall i :: 1 <= i <= fuel ==> !Repeats(Next, old(m.banks[..]), i)
  {
    ghost var s := m.banks[..];
    var start := KeyOf(m, key);
    var seen: set<string> := {start};
    var i := 1;
    while i <= fuel
      invariant 1 <= i <= fuel + 1
      invariant m.banks[..] == Iterate(Next, s, i - 1)
      invariant seen == SeenUpTo(key, s, i)
      invariant NoRepeatWithin(Next, s, i - 1)
    {
      var str := Probe(m, key, s, i, seen);
      if str in seen {
        FoundFirst(Next, s, i);
        return Some(i), str;
      }
      seen := seen + {str};
      i := i + 1;
    }
    NoRepeatWithinMeaning(Next, s, fuel);
    return None, "";
  }

  /**
   * The second loop of `day6`: cycle until the string form is `first` again;
   * at most `fuel` cycles.
   */
  method MeasureLoop(m: Memory, first: string, fuel: nat, ghost key: seq<Int64> -> string) returns (b: Option<nat>)
    requires IsString(key) && m.banks.Length > 0 && first == key(m.banks[..])
    modifies m.banks
    ensures b.Some? ==> LoopLength(Next, old(m.banks[..]), b.value)
    ensures b.None? ==> forall j :: 1 <= j <= fuel ==> !Returns(Next, old(m.banks[..]), j)
  {
    ghost var s := m.banks[..];
    var j := 1;
    while j <= fuel
      invariant 1 <= j <= fuel + 1
      invariant m.banks[..] == Iterate(Next, s, j - 1)
      invariant NoReturnWithin(Next, s, j - 1)
    {
      CycleAgain(m, s, j - 1);
      var str := KeyOf(m, key);
      if str == first {
        KeyInjective(key, m.banks[..], s);
        NoReturnWithinMeaning(Next, s, j - 1);
        return Some(j);
      }
      assert !Returns(Next, s, j);
      j := j + 1;
    }
    NoReturnWithinMeaning(Next, s, fuel);
    return None;
  }

  /**
   * What `day6` reports: the parse error, the index panic of no banks, both
   * answers, no repeat within the fuel, or the first answer (already printed
   * by then) with no loop length within the fuel.
   */
  datatype Outcome =
    | ParseError(e: NumError)
    | EmptyPanic
    | Answer(first: nat, loop: nat)
    | OutOfFuel
    | LoopOutOfFuel(first: nat)

  /**
   * `day6`: one int64 bank per argument, then the first cycle that repeats a
   * configuration and the length of the loop it closes.  Each of the two
   * unbounded loops is cut off after `fuel` cycles.
   */
  method Day6(args: seq<string>, fuel: nat) returns (r: Outcome)
    ensures AdventDay2.Collect(AdventDay2.FieldResults(args)).Err? ==>
      r == ParseError(AdventDay2.Collect(AdventDay2.FieldResults(args)).error)
    ensures AdventDay2.Collect(AdventDay2.FieldResults(args)) == Ok([]) ==> r == EmptyPanic
    ensures var p := AdventDay2.Collect(AdventDay2.FieldResults(args));
      p.Ok? && p.value != [] ==>
        (r.Answer? && FirstRepeat(Next, p.value, r.first) && LoopLength(Next, Iterate(Next, p.value, r.first), r.loop)) ||
        (r.OutOfFuel? && forall i :: 1 <= i <= fuel ==> !Repeats(Next, p.value, i)) ||
        (r.LoopOutOfFuel? && FirstRepeat(Next, p.value, r.first) &&
         forall j :: 1 <= j <= fuel ==> !Returns(Next, Iterate(Next, p.value, r.first), j))
  {
    var parsed := AdventDay2.ParseFields(args);
    if parsed.Err? {
      return ParseError(parsed.error);
    }
    var v := parsed.value;
    if v == [] {
      return EmptyPanic;
    }
    var banks := new Int64[|v|](k requires 0 <= k < |v| => v[k]);
    assert banks[..] == v;
    var mem := new Memory(banks);
    // The loops see the string forms only through a key that agrees with `Encode`.
    EncodeIsString();
    ghost var key: seq<Int64> -> string :| IsString(key);
    var a, first := FindRepeat(mem, fuel, key);
    if a.None? {
      return OutOfFuel;
    }
    var b := MeasureLoop(mem, first, fuel, key);
    if b.None? {
      return LoopOutOfFuel(a.value);
    }
    return Answer(a.value, b.value);
  }
}
