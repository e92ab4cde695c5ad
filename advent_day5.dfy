/**
 * Day 5, "A Maze of Twisty Trampolines": a list of jump offsets is run from
 * the first entry; each step jumps by the offset under the program counter
 * and then changes that offset, by one up (5a) or, for the "strange" rule
 * of 5b, one down when it was at least three and one up otherwise.  The
 * answer is the number of steps until a jump leaves the list.
 */
module AdventDay5 {
  import opened GoBase
  import opened GoStrings
  import AdventDay2

  /** How a machine changes the offset it jumped by: `machine1` and `machine2`. */
  datatype Rule = Increment | Strange

  /** The new offset, before int64 wrap-around. */
  function Bump(rule: Rule, off: Int64): int {
    match rule
    case Increment => off + 1
    case Strange => if off >= 3 then off - 1 else off + 1
  }

  /** Where the jump at `pc` lands, computed in int64 arithmetic. */
  function Target(s: seq<Int64>, pc: int): Int64
    requires 0 <= pc < |s|
  {
    Wrap64(pc + s[pc])
  }

  /** The jump at `pc` leaves the list. */
  predicate Exits(s: seq<Int64>, pc: int)
    requires 0 <= pc < |s|
  {
    Target(s, pc) < 0 || Target(s, pc) >= |s|
  }

  /** The offsets after the jump at `pc`: only that offset changes. */
  function Bumped(rule: Rule, s: seq<Int64>, pc: int): (r: seq<Int64>)
    requires 0 <= pc < |s|
    ensures |r| == |s|
  {
    s[pc := Wrap64(Bump(rule, s[pc]))]
  }

  /**
   * A jump that stays in a list of at most `MaxInt64` offsets never makes
   * the offset wrap around: the change is exact.
   */
  lemma BumpExact(rule: Rule, s: seq<Int64>, pc: int)
    requires 0 <= pc < |s| <= MaxInt64 && !Exits(s, pc)
    ensures Bumped(rule, s, pc)[pc] == Bump(rule, s[pc])
  {
    if s[pc] == MaxInt64 && pc > 0 {
      Wrap64Over(pc + s[pc]);
    }
  }

  /** A sum just past `MaxInt64` of two int64s, one non-negative, wraps to a negative value. */
  lemma Wrap64Over(x: int)
    requires MaxInt64 < x <= 2 * MaxInt64
    ensures Wrap64(x) < 0
  {
    assert x % TwoTo64 == x;
  }

  /**
   * The strange rule moves every offset one towards the band 2..3, and
   * keeps offsets that are in it there.
   */
  lemma StrangeSettles(off: Int64)
    ensures 2 <= off <= 3 ==> 2 <= Bump(Strange, off) <= 3
    ensures off < 2 ==> Bump(Strange, off) == off + 1
    ensures off > 3 ==> Bump(Strange, off) == off - 1
  {
  }

  /**
   * The answer a run gives: the number of `step` calls, the last being the
   * one that leaves the list, or `None` when more than `fuel` jumps stay in
   * the list.
   */
  function Steps(rule: Rule, s: seq<Int64>, pc: int, fuel: nat): Option<nat>
    requires 0 <= pc < |s|
    decreases fuel
  {
    if Exits(s, pc) then Some(1)
    else if fuel == 0 then None
    else Shift(Steps(rule, Bumped(rule, s, pc), Target(s, pc), fuel - 1), 1)
  }

  function Shift(o: Option<nat>, k: nat): Option<nat> {
    match o
    case Some(n) => Some(n + k)
    case None => None
  }

  /** A run that finishes within some fuel gives the same answer with more. */
  lemma {:induction false} StepsMoreFuel(rule: Rule, s: seq<Int64>, pc: int, fuel: nat, more: nat)
    requires 0 <= pc < |s| && fuel <= more && Steps(rule, s, pc, fuel).Some?
    ensures Steps(rule, s, pc, more) == Steps(rule, s, pc, fuel)
    decreases fuel
  {
    if !Exits(s, pc) {
      StepsMoreFuel(rule, Bumped(rule, s, pc), Target(s, pc), fuel - 1, more - 1);
    }
  }

  /** A run that finishes takes at most one step more than its fuel. */
  lemma {:induction false} StepsBound(rule: Rule, s: seq<Int64>, pc: int, fuel: nat)
    requires 0 <= pc < |s|
    ensures Steps(rule, s, pc, fuel).Some? ==> 1 <= Steps(rule, s, pc, fuel).value <= fuel + 1
    decreases fuel
  {
    if !Exits(s, pc) && fuel > 0 {
      StepsBound(rule, Bumped(rule, s, pc), Target(s, pc), fuel - 1);
    }
  }

  /** The example of the puzzle: the offsets 0, 3, 0, 1, -3 are left after five steps. */
  lemma Example()
    ensures Steps(Increment, [0, 3, 0, 1, -3], 0, 10) == Some(5)
  {
    var s0: seq<Int64> := [0, 3, 0, 1, -3];
    var s1: seq<Int64> := [1, 3, 0, 1, -3];
    var s2: seq<Int64> := [2, 3, 0, 1, -3];
    var s3: seq<Int64> := [2, 4, 0, 1, -3];
    var s4: seq<Int64> := [2, 4, 0, 1, -2];
    assert Target(s0, 0) == 0 && Bumped(Increment, s0, 0) == s1;
    assert Target(s1, 0) == 1 && Bumped(Increment, s1, 0) == s2;
    assert Target(s2, 1) == 4 && Bumped(Increment, s2, 1) == s3;
    assert Target(s3, 4) == 1 && Bumped(Increment, s3, 4) == s4;
    assert Target(s4, 1) == 5 && Exits(s4, 1);
    assert Steps(Increment, s4, 1, 6) == Some(1);
  }

  /** `machine1`: offsets go up by one after every jump. */
  class Machine1 {
    var insns: array<Int64>
    var pc: int

    constructor (input: array<Int64>)
      ensures insns == input && pc == 0
    {
      insns := input;
      pc := 0;
    }

    /**
     * `step`: jump and bump the offset, or report `false` and change
     * nothing when the jump would leave the list; `pc` stays in bounds.
     */
    method Step() returns (ok: bool)
      requires 0 <= pc < insns.Length
      modifies this, insns
      ensures insns == old(insns) && 0 <= pc < insns.Length
      ensures ok <==> !Exits(old(insns[..]), old(pc))
      ensures ok ==> insns[..] == Bumped(Increment, old(insns[..]), old(pc)) && pc == Target(old(insns[..]), old(pc))
      ensures !ok ==> insns[..] == old(insns[..]) && pc == old(pc)
    {
      var next := Wrap64(pc + insns[pc]);
      if next < 0 || next >= insns.Length {
        return false;
      }
      insns[pc] := Wrap64(insns[pc] as int + 1);
      pc := next;
      return true;
    }
  }

  /** `machine2`: offsets of three or more go down by one after a jump, the others up. */
  class Machine2 {
    var insns: array<Int64>
    var pc: int

    constructor (input: array<Int64>)
      ensures insns == input && pc == 0
    {
      insns := input;
      pc := 0;
    }

    /** `step` of `machine2`, as `Machine1.Step` with the strange rule. */
    method Step() returns (ok: bool)
      requires 0 <= pc < insns.Length
      modifies this, insns
      ensures insns == old(insns) && 0 <= pc < insns.Length
      ensures ok <==> !Exits(old(insns[..]), old(pc))
      ensures ok ==> insns[..] == Bumped(Strange, old(insns[..]), old(pc)) && pc == Target(old(insns[..]), old(pc))
      ensures !ok ==> insns[..] == old(insns[..]) && pc == old(pc)
    {
      var off := insns[pc];
      var next := Wrap64(pc + off);
      if next < 0 || next >= insns.Length {
        return false;
      }
      var off': Int64;
      if off >= 3 {
        off' := Wrap64(off as int - 1);
      } else {
        off' := Wrap64(off as int + 1);
      }
      insns[pc] := off';
      pc := next;
      return true;
    }
  }

  /** What a solution reports: the parse error, the index panic of an empty list, the answer, or no answer within the fuel. */
  datatype Outcome = ParseError(e: NumError) | EmptyPanic | Answer(steps: nat) | OutOfFuel

  /** The outcome of running the offsets parsed from `text` under `rule`. */
  function Solve(rule: Rule, text: string, fuel: nat): Outcome {
    match AdventDay2.Collect(AdventDay2.FieldResults(Lines(text)))
    case Err(e) => ParseError(e)
    case Ok(s) =>
      if s == [] then EmptyPanic
      else match Steps(rule, s, 0, fuel)
        case Some(n) => Answer(n)
        case None => OutOfFuel
  }

  /** The loop of `day5a`: step the machine, counting the calls to `step`, until one reports `false`. */
  method Run1(m: Machine1, fuel: nat) returns (r: Option<nat>)
    requires 0 <= m.pc < m.insns.Length
    modifies m, m.insns
    ensures r == Steps(Increment, old(m.insns[..]), old(m.pc), fuel)
  {
    var i := 1;
    var left := fuel;
    while true
      invariant m.insns == old(m.insns) && 0 <= m.pc < m.insns.Length
      invariant Shift(Steps(Increment, m.insns[..], m.pc, left), i - 1) == Steps(Increment, old(m.insns[..]), old(m.pc), fuel)
      invariant i >= 1
      decreases left
    {
      var ok := m.Step();
      if !ok {
        return Some(i);
      }
      if left == 0 {
        return None;
      }
      i := i + 1;
      left := left - 1;
    }
  }

  /** `day5a`: one int64 per line, then `machine1` stepped until it leaves the list. */
  method Day5a(text: string, fuel: nat) returns (r: Outcome)
    ensures r == Solve(Increment, text, fuel)
  {
    var input := AdventDay2.ParseFields(Lines(text));
    if input.Err? {
      return ParseError(input.error);
    }
    if input.value == [] {
      return EmptyPanic;
    }
    var insns := new Int64[|input.value|](k requires 0 <= k < |input.value| => input.value[k]);
    assert insns[..] == input.value;
    var m := new Machine1(insns);
    var n := Run1(m, fuel);
    if n.None? {
      return OutOfFuel;
    }
    return Answer(n.value);
  }

  /** The loop of `day5b`: step the machine, counting the calls to `step`, until one reports `false`. */
  method Run2(m: Machine2, fuel: nat) returns (r: Option<nat>)
    requires 0 <= m.pc < m.insns.Length
    modifies m, m.insns
    ensures r == Steps(Strange, old(m.insns[..]), old(m.pc), fuel)
  {
    var i := 1;
    var left := fuel;
    while true
      invariant m.insns == old(m.insns) && 0 <= m.pc < m.insns.Length
      invariant Shift(Steps(Strange, m.insns[..], m.pc, left), i - 1) == Steps(Strange, old(m.insns[..]), old(m.pc), fuel)
      invariant i >= 1
      decreases left
    {
      var ok := m.Step();
      if !ok {
        return Some(i);
      }
      if left == 0 {
        return None;
      }
      i := i + 1;
      left := left - 1;
    }
  }

  /** `day5b`: as `day5a` with `machine2`. */
  method Day5b(text: string, fuel: nat) returns (r: Outcome)
    ensures r == Solve(Strange, text, fuel)
  {
    var input := AdventDay2.ParseFields(Lines(text));
    if input.Err? {
      return ParseError(input.error);
    }
    if input.value == [] {
      return EmptyPanic;
    }
    var insns := new Int64[|input.value|](k requires 0 <= k < |input.value| => input.value[k]);
    assert insns[..] == input.value;
    var m := new Machine2(insns);
    var n := Run2(m, fuel);
    if n.None? {
      return OutOfFuel;
    }
    return Answer(n.value);
  }
}
