/**
 * Day 8, "I Heard You Like Registers": each line is an instruction such as
 * "b inc 5 if a > 1", which adds to (or, with "dec", takes from) a register
 * when a comparison of another register with a constant holds.  Registers
 * start at zero.  The answers are the largest register value at the end and
 * the largest value any register held while the program ran.
 */
module AdventDay8 {
  import opened GoBase
  import opened GoStrings

  /** The condition of an instruction: a register, a comparison operator and a constant. */
  datatype Cond = Cond(reg: string, op: string, val: Int64)

  /** An `instruction`: the register to change and the amount to add, under a condition. */
  datatype Instruction = Instruction(reg: string, delta: Int64, cond: Cond)

  /** The comparison operators `parseInstruction` accepts. */
  predicate ValidOp(op: string) {
    op == "==" || op == "!=" || op == "<" || op == "<=" || op == ">" || op == ">="
  }

  /**
   * `parseInstruction`: seven fields, the register, "inc" or "dec", an
   * int64 amount (negated, in int64 arithmetic, for "dec"), "if", the
   * condition's register, one of the six operators and an int64 constant;
   * `None` for anything else.
   */
  function InstructionOf(s: string): (r: Option<Instruction>)
    ensures r.Some? ==> r.value.reg != [] && NoSpace(r.value.reg) && r.value.cond.reg != [] && NoSpace(r.value.cond.reg)
    ensures r.Some? ==> ValidOp(r.value.cond.op)
  {
    FromFields(Fields(s))
  }

  /** The instruction the fields of a line make, if any. */
  function FromFields(parts: seq<string>): Option<Instruction> {
    if |parts| != 7 then None
    else
      match ParseInt(parts[2])
      case Err(_) => None
      case Ok(amount) =>
        if parts[1] != "inc" && parts[1] != "dec" then None
        else if parts[3] != "if" then None
        else if !ValidOp(parts[5]) then None
        else
          match ParseInt(parts[6])
          case Err(_) => None
          case Ok(val) =>
            var delta := if parts[1] == "dec" then Wrap64(-(amount as int)) else amount;
            Some(Instruction(parts[0], delta, Cond(parts[4], parts[5], val)))
  }

  /** An instruction as a line of text, with the given verb and amount. */
  function Written(reg: string, verb: string, amount: Int64, cond: Cond): string {
    JoinSpace([reg, verb, FormatInt(amount), "if", cond.reg, cond.op, FormatInt(cond.val)])
  }

  /** A register name an instruction line can carry: a non-empty word. */
  predicate RegName(r: string) {
    r != [] && NoSpace(r)
  }

  lemma WrittenFields(reg: string, verb: string, amount: Int64, cond: Cond)
    requires RegName(reg) && RegName(cond.reg) && ValidOp(cond.op) && (verb == "inc" || verb == "dec")
    ensures Fields(Written(reg, verb, amount, cond)) == [reg, verb, FormatInt(amount), "if", cond.reg, cond.op, FormatInt(cond.val)]
  {
    FormatIntWord(amount);
    FormatIntWord(cond.val);
    var ws := [reg, verb, FormatInt(amount), "if", cond.reg, cond.op, FormatInt(cond.val)];
    assert forall i :: 0 <= i < |ws| ==> ws[i] != [] && NoSpace(ws[i]);
    FieldsJoinSpace(ws);
  }

  /** Writing an instruction with "inc" and reading it back gives the instruction. */
  lemma ParseInc(insn: Instruction)
    requires RegName(insn.reg) && RegName(insn.cond.reg) && ValidOp(insn.cond.op)
    ensures InstructionOf(Written(insn.reg, "inc", insn.delta, insn.cond)) == Some(insn)
  {
    WrittenFields(insn.reg, "inc", insn.delta, insn.cond);
    ParseFormatInt(insn.delta);
    ParseFormatInt(insn.cond.val);
  }

  /**
   * An instruction written with "dec" reads back as adding the negated
   * amount; only the smallest int64, which has no negation, wraps to itself.
   */
  lemma ParseDec(reg: string, amount: Int64, cond: Cond)
    requires RegName(reg) && RegName(cond.reg) && ValidOp(cond.op)
    ensures InstructionOf(Written(reg, "dec", amount, cond)) ==
      Some(Instruction(reg, if amount == MinInt64 then amount else -amount, cond))
  {
    WrittenFields(reg, "dec", amount, cond);
    ParseFormatInt(amount);
    ParseFormatInt(cond.val);
    DecFields(reg, FormatInt(amount), amount, cond, FormatInt(cond.val));
  }

  lemma DecFields(reg: string, a: string, amount: Int64, cond: Cond, v: string)
    requires ValidOp(cond.op) && ParseInt(a) == Ok(amount) && ParseInt(v) == Ok(cond.val)
    ensures FromFields([reg, "dec", a, "if", cond.reg, cond.op, v]) ==
      Some(Instruction(reg, if amount == MinInt64 then amount else -amount, cond))
  {
    Negate64(amount);
  }

  /** Negation in int64 arithmetic: exact, except for the smallest int64, which stays as it is. */
  lemma Negate64(x: Int64)
    ensures Wrap64(-(x as int)) == if x == MinInt64 then x else -x
  {
    if x == MinInt64 {
      assert -(x as int) == TwoTo63;
      assert TwoTo63 % TwoTo64 == TwoTo63;
    }
  }

  /** A line with an operator outside the six, or with another word than "if", is rejected. */
  lemma RejectsBadOp(reg: string, verb: string, amount: Int64, cond: Cond)
    requires RegName(reg) && RegName(cond.reg) && RegName(cond.op) && !ValidOp(cond.op) && (verb == "inc" || verb == "dec")
    ensures InstructionOf(Written(reg, verb, amount, cond)) == None
  {
    FormatIntWord(amount);
    FormatIntWord(cond.val);
    var ws := [reg, verb, FormatInt(amount), "if", cond.reg, cond.op, FormatInt(cond.val)];
    assert forall i :: 0 <= i < |ws| ==> ws[i] != [] && NoSpace(ws[i]);
    FieldsJoinSpace(ws);
  }

  /** A line of any other number of fields than seven is rejected. */
  lemma RejectsFieldCount(ws: seq<string>)
    requires ws != [] && |ws| != 7 && forall i :: 0 <= i < |ws| ==> RegName(ws[i])
    ensures InstructionOf(JoinSpace(ws)) == None
  {
    FieldsJoinSpace(ws);
  }

  // ---------------------------------------------------------------------
  // The registers

  /** A register's value: a missing register reads as zero, as a Go map does. */
  function Get(regs: map<string, Int64>, r: string): Int64 {
    if r in regs then regs[r] else 0
  }

  /** Whether `cv op val` holds; an operator outside the six never holds. */
  predicate Holds(op: string, cv: Int64, val: Int64) {
    if op == "==" then cv == val
    else if op == "!=" then cv != val
    else if op == "<" then cv < val
    else if op == "<=" then cv <= val
    else if op == ">" then cv > val
    else if op == ">=" then cv >= val
    else false
  }

  /** The state of a `cpu`: its registers and the largest value written so far. */
  datatype State = State(regs: map<string, Int64>, max: Int64)

  /**
   * What `run` does to a `cpu`: the condition's register is created with
   * zero when missing; when the condition holds, the register gets its old
   * value plus the amount, in int64 arithmetic, and `max` rises to it.
   */
  function Step(st: State, insn: Instruction): State {
    var regs := if insn.cond.reg in st.regs then st.regs else st.regs[insn.cond.reg := 0];
    if Holds(insn.cond.op, Get(st.regs, insn.cond.reg), insn.cond.val) then
      var v := Wrap64(Get(regs, insn.reg) + insn.delta);
      State(regs[insn.reg := v], if v > st.max then v else st.max)
    else
      State(regs, st.max)
  }

  /** The registers `run` has: the old ones, the condition's register, and the changed one if the condition held. */
  lemma StepKeys(st: State, insn: Instruction)
    ensures Step(st, insn).regs.Keys ==
      st.regs.Keys + {insn.cond.reg} + (if Holds(insn.cond.op, Get(st.regs, insn.cond.reg), insn.cond.val) then {insn.reg} else {})
  {
  }

  /**
   * `run` changes one register at most: the instruction's register gains
   * the amount when the condition holds and keeps its value otherwise;
   * every other register reads as before.
   */
  lemma StepValues(st: State, insn: Instruction)
    ensures var h := Holds(insn.cond.op, Get(st.regs, insn.cond.reg), insn.cond.val);
      Get(Step(st, insn).regs, insn.reg) == (if h then Wrap64(Get(st.regs, insn.reg) + insn.delta) else Get(st.regs, insn.reg)) &&
      forall r :: r != insn.reg ==> Get(Step(st, insn).regs, r) == Get(st.regs, r)
  {
  }

  /** `max` never falls, and it is at least every value `run` writes. */
  lemma StepMax(st: State, insn: Instruction)
    ensures Step(st, insn).max >= st.max
    ensures Holds(insn.cond.op, Get(st.regs, insn.cond.reg), insn.cond.val) ==> Step(st, insn).max >= Step(st, insn).regs[insn.reg]
  {
  }

  /** `max` is non-negative and at least every register's value. */
  predicate Bounded(st: State) {
    st.max >= 0 && forall r :: r in st.regs ==> st.regs[r] <= st.max
  }

  /** `run` keeps `max` an upper bound of the registers. */
  lemma StepBounded(st: State, insn: Instruction)
    requires Bounded(st)
    ensures Bounded(Step(st, insn))
  {
    var st' := Step(st, insn);
    forall r | r in st'.regs
      ensures st'.regs[r] <= st'.max
    {
      if r in st.regs && r != insn.reg {
        assert st'.regs[r] == st.regs[r];
      }
    }
  }

  /** A `cpu` as `newCPU` makes it and `run` changes it. */
  class Cpu {
    var regs: map<string, Int64>
    var max: Int64

    /** `newCPU`: no registers, and `max` zero. */
    constructor ()
      ensures regs == map[] && max == 0
    {
      regs := map[];
      max := 0;
    }

    /** `run` one instruction. */
    method Run(insn: Instruction)
      modifies this
      ensures State(regs, max) == Step(old(State(regs, max)), insn)
    {
      var cv := if insn.cond.reg in regs then regs[insn.cond.reg] else 0;
      if insn.cond.reg !in regs {
        regs := regs[insn.cond.reg := 0];
      }
      var cond := false;
      if insn.cond.op == "==" {
        cond := cv == insn.cond.val;
      } else if insn.cond.op == "!=" {
        cond := cv != insn.cond.val;
      } else if insn.cond.op == "<" {
        cond := cv < insn.cond.val;
      } else if insn.cond.op == "<=" {
        cond := cv <= insn.cond.val;
      } else if insn.cond.op == ">" {
        cond := cv > insn.cond.val;
      } else if insn.cond.op == ">=" {
        cond := cv >= insn.cond.val;
      }
      if cond {
        var prev := if insn.reg in regs then regs[insn.reg] else 0;
        var v := Wrap64(prev as int + insn.delta as int);
        if v > max {
          max := v;
        }
        regs := regs[insn.reg := v];
      }
    }
  }

  /** The state after running every instruction in order from `st`. */
  function RunAll(st: State, insns: seq<Instruction>): State {
    if insns == [] then st else Step(RunAll(st, insns[..|insns| - 1]), insns[|insns| - 1])
  }

  /** Running a program from a bounded state leaves it bounded. */
  lemma {:induction false} RunAllBounded(st: State, insns: seq<Instruction>)
    requires Bounded(st)
    ensures Bounded(RunAll(st, insns))
  {
    if insns != [] {
      RunAllBounded(st, insns[..|insns| - 1]);
      StepBounded(RunAll(st, insns[..|insns| - 1]), insns[|insns| - 1]);
    }
  }

  /** The answer of the first part: zero, or the largest register value if larger. */
  predicate IsLargest(regs: map<string, Int64>, m: Int64) {
    m >= 0 && (forall r :: r in regs ==> regs[r] <= m) && (m == 0 || exists r :: r in regs && regs[r] == m)
  }

  /** The largest value is at most the largest value ever written: the first answer never exceeds the second. */
  lemma LargestAtMostMax(insns: seq<Instruction>, m: Int64)
    requires IsLargest(RunAll(State(map[], 0), insns).regs, m)
    ensures m <= RunAll(State(map[], 0), insns).max
  {
    RunAllBounded(State(map[], 0), insns);
  }

  /** The loop of `day8` over the registers, starting from zero. */
  method Largest(regs: map<string, Int64>) returns (m: Int64)
    ensures IsLargest(regs, m)
  {
    m := 0;
    var left := regs.Keys;
    while left != {}
      invariant left <= regs.Keys
      invariant m >= 0 && forall r :: r in regs && r !in left ==> regs[r] <= m
      invariant m == 0 || exists r :: r in regs && regs[r] == m
      decreases left
    {
      var r :| r in left;
      if regs[r] > m {
        m := regs[r];
      }
      left := left - {r};
    }
  }

  /** Every line parsed, or the first line `parseInstruction` rejects. */
  function ParseAll(lines: seq<string>): (r: Result<seq<Instruction>, string>)
    ensures r.Ok? ==> |r.value| == |lines|
  {
    if lines == [] then Ok([])
    else
      match ParseAll(lines[..|lines| - 1])
      case Err(l) => Err(l)
      case Ok(insns) =>
        match InstructionOf(lines[|lines| - 1])
        case None => Err(lines[|lines| - 1])
        case Some(insn) => Ok(insns + [insn])
  }

  /** What `day8` reports: the line it stopped at, or the two answers. */
  datatype Outcome = BadInstruction(line: string) | Answer(largest: Int64, highest: Int64)

  /**
   * `day8`: parse every line, stopping at a bad one; run the instructions
   * on a new `cpu`; report the largest register value and `max`.
   */
  method Day8(text: string) returns (r: Outcome)
    ensures ParseAll(Lines(text)).Err? ==> r == BadInstruction(ParseAll(Lines(text)).error)
    ensures ParseAll(Lines(text)).Ok? ==>
      (r.Answer? &&
       r.highest == RunAll(State(map[], 0), ParseAll(Lines(text)).value).max &&
       IsLargest(RunAll(State(map[], 0), ParseAll(Lines(text)).value).regs, r.largest))
  {
    var insns := ParseLines(Lines(text));
    if insns.Err? {
      return BadInstruction(insns.error);
    }
    var c := new Cpu();
    RunProgram(c, insns.value);
    var largest := Largest(c.regs);
    return Answer(largest, c.max);
  }

  /** The reading loop of `day8`: parse line by line, stopping at the first bad one. */
  method ParseLines(lines: seq<string>) returns (r: Result<seq<Instruction>, string>)
    ensures r == ParseAll(lines)
  {
    var insns: seq<Instruction> := [];
    for l := 0 to |lines|
      invariant ParseAll(lines[..l]) == Ok(insns)
    {
      assert lines[..l + 1][..l] == lines[..l];
      var insn := InstructionOf(lines[l]);
      if insn.None? {
        ParseStops(lines, l + 1);
        return Err(lines[l]);
      }
      insns := insns + [insn.value];
    }
    assert lines[..|lines|] == lines;
    return Ok(insns);
  }

  /** The loop of `day8` running every instruction on the `cpu`. */
  method RunProgram(c: Cpu, insns: seq<Instruction>)
    modifies c
    ensures State(c.regs, c.max) == RunAll(old(State(c.regs, c.max)), insns)
  {
    ghost var start := State(c.regs, c.max);
    for i := 0 to |insns|
      invariant State(c.regs, c.max) == RunAll(start, insns[..i])
    {
      assert insns[..i + 1][..i] == insns[..i];
      c.Run(insns[i]);
    }
    assert insns[..|insns|] == insns;
  }

  /** A bad line stops the parse whatever follows it. */
  lemma {:induction false} ParseStops(lines: seq<string>, l: nat)
    requires 0 < l <= |lines| && ParseAll(lines[..l - 1]).Ok? && InstructionOf(lines[l - 1]).None?
    ensures ParseAll(lines) == Err(lines[l - 1])
    decreases |lines|
  {
    if l < |lines| {
      assert lines[..|lines| - 1][..l - 1] == lines[..l - 1];
      ParseStops(lines[..|lines| - 1], l);
    } else {
      assert lines[..l - 1] == lines[..|lines| - 1];
    }
  }
}
