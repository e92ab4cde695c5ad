/**
 * Day 9, "Stream Processing": the input is one group, written between '{'
 * and '}', whose comma-separated children are groups or garbage; garbage
 * runs from '<' to '>', and inside it '!' cancels the byte after it.  The
 * stream is read byte by byte by a state machine with a stack of open
 * groups.  The answers are the total score (each group scores its depth)
 * and the number of garbage bytes kept.
 */
module AdventDay9 {
  import opened GoBase
  import opened GoStrings

  /** A child of a `group`: a group, or a string of garbage; bytes are modelled as chars. */
  datatype Node = Group(children: seq<Node>) | Garbage(text: string)

  // ---------------------------------------------------------------------
  // score and count

  /** `score(n)` of a group: `n` plus the scores, at `n + 1`, of its child groups; garbage scores nothing. */
  function Score(g: Node, n: int): int
    decreases g
  {
    match g
    case Garbage(_) => 0
    case Group(cs) => n + ScoreAll(cs, n + 1)
  }

  function ScoreAll(cs: seq<Node>, n: int): int
    decreases cs
  {
    if cs == [] then 0 else ScoreAll(cs[..|cs| - 1], n) + Score(cs[|cs| - 1], n)
  }

  /** `count`: the garbage bytes of a group and of all the groups in it. */
  function Count(g: Node): nat
    decreases g
  {
    match g
    case Garbage(t) => |t|
    case Group(cs) => CountAll(cs)
  }

  function CountAll(cs: seq<Node>): nat
    decreases cs
  {
    if cs == [] then 0 else CountAll(cs[..|cs| - 1]) + Count(cs[|cs| - 1])
  }

  /** The number of groups in a tree, itself included. */
  function Groups(g: Node): nat
    decreases g
  {
    match g
    case Garbage(_) => 0
    case Group(cs) => 1 + GroupsAll(cs)
  }

  function GroupsAll(cs: seq<Node>): nat
    decreases cs
  {
    if cs == [] then 0 else GroupsAll(cs[..|cs| - 1]) + Groups(cs[|cs| - 1])
  }

  /** Starting one level deeper adds one to the score of every group. */
  lemma {:induction false} ScoreShift(g: Node, n: int)
    ensures Score(g, n + 1) == Score(g, n) + Groups(g)
    decreases g, 1
  {
    match g
    case Garbage(_) =>
    case Group(cs) => ScoreAllShift(cs, n + 1);
  }

  lemma {:induction false} ScoreAllShift(cs: seq<Node>, n: int)
    ensures ScoreAll(cs, n + 1) == ScoreAll(cs, n) + GroupsAll(cs)
    decreases cs, 0
  {
    if cs != [] {
      ScoreAllShift(cs[..|cs| - 1], n);
      ScoreShift(cs[|cs| - 1], n);
    }
  }

  /** A group at depth `n` scores at least `n` for each group in it, when `n` is positive. */
  lemma {:induction false} ScoreAtLeast(g: Node, n: int)
    requires n >= 1
    ensures Score(g, n) >= n * Groups(g)
    decreases g, 1
  {
    match g
    case Garbage(_) =>
    case Group(cs) =>
      ScoreAllAtLeast(cs, n + 1);
      assert (n + 1) * GroupsAll(cs) >= n * GroupsAll(cs);
  }

  lemma {:induction false} ScoreAllAtLeast(cs: seq<Node>, n: int)
    requires n >= 1
    ensures ScoreAll(cs, n) >= n * GroupsAll(cs)
    decreases cs, 0
  {
    if cs != [] {
      ScoreAllAtLeast(cs[..|cs| - 1], n);
      ScoreAtLeast(cs[|cs| - 1], n);
    }
  }

  /** The garbage count of a group is the sum of its children's counts. */
  lemma {:induction false} CountAllAppend(a: seq<Node>, b: seq<Node>)
    ensures CountAll(a + b) == CountAll(a) + CountAll(b)
    decreases |b|
  {
    if b != [] {
      assert (a + b)[..|a + b| - 1] == a + b[..|b| - 1];
      CountAllAppend(a, b[..|b| - 1]);
    } else {
      assert a + b == a;
    }
  }

  /** The count of a group splits over its children, and a child garbage counts its length. */
  lemma CountSplits(a: seq<Node>, b: seq<Node>, t: string)
    ensures Count(Group(a + b)) == Count(Group(a)) + Count(Group(b))
    ensures Count(Group([Garbage(t)])) == |t|
    ensures Count(Group([Group(a)])) == Count(Group(a))
  {
    CountAllAppend(a, b);
    assert [Garbage(t)][..0] == [];
    assert CountAll([Garbage(t)]) == CountAll([]) + Count(Garbage(t));
    assert [Group(a)][..0] == [];
    assert CountAll([Group(a)]) == CountAll([]) + Count(Group(a));
  }

  /** `score`: the loop over the children, calling itself for each child group. */
  method GroupScore(g: Node, n: int) returns (score: int)
    requires g.Group?
    ensures score == Score(g, n)
    decreases g
  {
    score := n;
    var cs := g.children;
    for i := 0 to |cs|
      invariant score == n + ScoreAll(cs[..i], n + 1)
    {
      assert cs[..i + 1][..i] == cs[..i];
      if cs[i].Group? {
        var s := GroupScore(cs[i], n + 1);
        score := score + s;
      }
    }
    assert cs[..|cs|] == cs;
  }

  /** `count`: the loop over the children, adding garbage lengths and the counts of child groups. */
  method GroupCount(g: Node) returns (count: nat)
    requires g.Group?
    ensures count == Count(g)
    decreases g
  {
    count := 0;
    var cs := g.children;
    for i := 0 to |cs|
      invariant count == CountAll(cs[..i])
    {
      assert cs[..i + 1][..i] == cs[..i];
      match cs[i]
      case Group(_) =>
        var c := GroupCount(cs[i]);
        count := count + c;
      case Garbage(t) =>
        count := count + |t|;
    }
    assert cs[..|cs|] == cs;
  }

  // ---------------------------------------------------------------------
  // The state machine of parseStream

  /** `parseState`. */
  datatype ParseState = StateOuter | StateClosed | StateGarbage | StateEscaped

  /**
   * The variables of `parseStream`: the state, the children of the open
   * groups above the current one, the children of the current group `g`
   * (`None` while `g` is nil), the garbage read so far and `complete`.
   */
  datatype Machine = Machine(state: ParseState, stack: seq<seq<Node>>, g: Option<seq<Node>>, garbage: string, complete: bool)

  /** The errors `parseStream` returns. */
  datatype StreamError =
    | UnexpectedEOF
    | EmptyStream
    | NotSingle          // "stream must contain a single group"
    | NotAGroup          // "stream must be a group"
    | StartsWithClose    // "stream starts with }"
    | Unexpected(c: char, pos: nat)

  const Start := Machine(StateOuter, [], None, [], false)

  /**
   * What holds of the variables between two bytes: there is a current group
   * outside the outer state and once the stream is complete, and the
   * garbage buffer is empty outside garbage.
   */
  predicate Sane(m: Machine) {
    (m.state != StateOuter ==> m.g.Some?) &&
    (m.complete ==> m.g.Some?) &&
    (m.state != StateGarbage && m.state != StateEscaped ==> m.garbage == [])
  }

  /** A '}' closes the current group: the stream is complete, or the group joins its parent's children. */
  function Close(m: Machine): (r: Machine)
    requires m.g.Some?
    ensures r.g.Some? && r.state == StateClosed
  {
    if m.stack == [] then m.(complete := true, state := StateClosed)
    else m.(stack := m.stack[..|m.stack| - 1], g := Some(m.stack[|m.stack| - 1] + [Group(m.g.value)]), state := StateClosed)
  }

  /** One byte `c`, read at position `pos`, of `parseStream`'s loop. */
  function Step(m: Machine, c: char, pos: nat): (r: Result<Machine, StreamError>)
    requires Sane(m)
    ensures r.Ok? ==> Sane(r.value)
    ensures r != Err(EmptyStream)
  {
    if c == '\n' then Ok(m)
    else if m.complete then Err(NotSingle)
    else
      match m.state
      case StateOuter =>
        if c == '{' then
          Ok(m.(stack := if m.g.Some? then m.stack + [m.g.value] else m.stack, g := Some([])))
        else if c == '<' then
          if m.g.None? then Err(NotAGroup) else Ok(m.(state := StateGarbage))
        else if c == '}' then
          if m.g.None? then Err(StartsWithClose) else Ok(Close(m))
        else Err(Unexpected(c, pos))
      case StateClosed =>
        if c == ',' then Ok(m.(state := StateOuter))
        else if c == '}' then Ok(Close(m))
        else Err(Unexpected(c, pos))
      case StateGarbage =>
        if c == '!' then Ok(m.(state := StateEscaped))
        else if c == '>' then Ok(m.(g := Some(m.g.value + [Garbage(m.garbage)]), garbage := [], state := StateClosed))
        else Ok(m.(garbage := m.garbage + [c]))
      case StateEscaped =>
        Ok(m.(state := StateGarbage))
  }

  /** The machine after the bytes `s`, the first read at position `pos`, or the error that stopped it. */
  function Run(m: Machine, s: string, pos: nat): (r: Result<Machine, StreamError>)
    requires Sane(m)
    ensures r.Ok? ==> Sane(r.value)
    ensures r != Err(EmptyStream)
  {
    if s == [] then Ok(m)
    else Then(Run(m, s[..|s| - 1], pos), s[|s| - 1], pos + |s| - 1)
  }

  /** One more byte after `r`: an error stays, a machine steps. */
  function Then(r: Result<Machine, StreamError>, c: char, pos: nat): (r': Result<Machine, StreamError>)
    requires r.Ok? ==> Sane(r.value)
    ensures r'.Ok? ==> Sane(r'.value)
    ensures r != Err(EmptyStream) ==> r' != Err(EmptyStream)
  {
    match r
    case Err(e) => Err(e)
    case Ok(m) => Step(m, c, pos)
  }

  /** At the end of the input: the group, once the stream is complete. */
  function Finish(m: Machine): Result<Node, StreamError> {
    if !m.complete then Err(UnexpectedEOF)
    else if m.g.None? then Err(EmptyStream)
    else Ok(Group(m.g.value))
  }

  /** What `parseStream` returns for the bytes `s`. */
  function ParseResult(s: string): Result<Node, StreamError> {
    match Run(Start, s, 0)
    case Err(e) => Err(e)
    case Ok(m) => Finish(m)
  }

  /** `parseStream`: the byte loop with the variables of the source, and the checks at the end of the input. */
  method ParseStream(input: string) returns (r: Result<Node, StreamError>)
    ensures r == ParseResult(input)
  {
    var state := StateOuter;
    var stack: seq<seq<Node>> := [];
    var g: Option<seq<Node>> := None;
    var garbage: string := [];
    var complete := false;
    for i := 0 to |input|
      invariant Sane(Machine(state, stack, g, garbage, complete))
      invariant Run(Start, input[..i], 0) == Ok(Machine(state, stack, g, garbage, complete))
    {
      assert input[..i + 1][..i] == input[..i];
      var err;
      state, stack, g, garbage, complete, err := Feed(state, stack, g, garbage, complete, input[i], i);
      if err.Some? {
        RunStops(input, i + 1);
        return Err(err.value);
      }
    }
    assert input[..|input|] == input;
    if !complete {
      return Err(UnexpectedEOF);
    }
    if g.None? {
      return Err(EmptyStream);
    }
    return Ok(Group(g.value));
  }

  /** The body of `parseStream`'s loop for one byte: the newline and completion checks, then the switch on the state. */
  method Feed(state: ParseState, stack: seq<seq<Node>>, g: Option<seq<Node>>, garbage: string, complete: bool, c: char, i: nat)
    returns (state': ParseState, stack': seq<seq<Node>>, g': Option<seq<Node>>, garbage': string, complete': bool, err: Option<StreamError>)
    requires Sane(Machine(state, stack, g, garbage, complete))
    ensures err.None? <==> Step(Machine(state, stack, g, garbage, complete), c, i).Ok?
    ensures err.Some? ==> Step(Machine(state, stack, g, garbage, complete), c, i) == Err(err.value)
    ensures err.None? ==> Step(Machine(state, stack, g, garbage, complete), c, i) == Ok(Machine(state', stack', g', garbage', complete'))
  {
    state', stack', g', garbage', complete', err := state, stack, g, garbage, complete, None;
    if c == '\n' {
      return;
    }
    if complete {
      err := Some(NotSingle);
      return;
    }
    match state
    case StateOuter =>
      if c == '{' {
        if g.Some? {
          stack' := stack + [g.value];
        }
        g' := Some([]);
      } else if c == '<' {
        if g.None? {
          err := Some(NotAGroup);
          return;
        }
        state' := StateGarbage;
      } else if c == '}' {
        if g.None? {
          err := Some(StartsWithClose);
          return;
        }
        if stack == [] {
          complete' := true;
        } else {
          var parent := stack[|stack| - 1];
          stack' := stack[..|stack| - 1];
          g' := Some(parent + [Group(g.value)]);
        }
        state' := StateClosed;
      } else {
        err := Some(Unexpected(c, i));
      }
    case StateClosed =>
      if c == ',' {
        state' := StateOuter;
      } else if c == '}' {
        if stack == [] {
          complete' := true;
        } else {
          var parent := stack[|stack| - 1];
          stack' := stack[..|stack| - 1];
          g' := Some(parent + [Group(g.value)]);
        }
      } else {
        err := Some(Unexpected(c, i));
      }
    case StateGarbage =>
      if c == '!' {
        state' := StateEscaped;
      } else if c == '>' {
        g' := Some(g.value + [Garbage(garbage)]);
        garbage' := [];
        state' := StateClosed;
      } else {
        garbage' := garbage + [c];
      }
    case StateEscaped =>
      state' := StateGarbage;
  }

  /** An error stops the machine: the bytes after it are never looked at. */
  lemma {:induction false} RunStops(s: string, i: nat)
    requires 0 < i <= |s| && Run(Start, s[..i], 0).Err?
    ensures Run(Start, s, 0) == Run(Start, s[..i], 0)
    decreases |s|
  {
    if i < |s| {
      assert s[..|s| - 1][..i] == s[..i];
      RunStops(s[..|s| - 1], i);
    } else {
      assert s[..i] == s;
    }
  }

  /** Reading `a` and then `b` is reading `a + b`. */
  lemma {:induction false} RunConcat(m: Machine, a: string, b: string, pos: nat)
    requires Sane(m)
    ensures Run(m, a + b, pos) ==
      match Run(m, a, pos)
      case Err(e) => Err(e)
      case Ok(m') => Run(m', b, pos + |a|)
    decreases |b|
  {
    if b == [] {
      assert a + b == a;
    } else {
      var b' := b[..|b| - 1];
      assert (a + b)[..|a + b| - 1] == a + b';
      RunConcat(m, a, b', pos);
    }
  }

  // ---------------------------------------------------------------------
  // Writing a tree as a stream and reading it back

  /** A group as `{child,child,...}`, garbage as `<text>`. */
  function Render(n: Node): string
    decreases n
  {
    match n
    case Garbage(t) => "<" + t + ">"
    case Group(cs) => "{" + Body(cs) + "}"
  }

  function Body(cs: seq<Node>): string
    decreases cs
  {
    if cs == [] then ""
    else if |cs| == 1 then Render(cs[0])
    else Render(cs[0]) + "," + Body(cs[1..])
  }

  /** Garbage that can be written without escapes: no '!', '>' or newline in it. */
  predicate PlainText(t: string) {
    forall k :: 0 <= k < |t| ==> t[k] != '!' && t[k] != '>' && t[k] != '\n'
  }

  predicate Plain(n: Node)
    decreases n
  {
    match n
    case Garbage(t) => PlainText(t)
    case Group(cs) => forall k :: 0 <= k < |cs| ==> Plain(cs[k])
  }

  /** Plain garbage bytes are collected one by one. */
  lemma {:induction false} RunGarbage(m: Machine, t: string, pos: nat)
    requires Sane(m) && m.state == StateGarbage && !m.complete && PlainText(t)
    ensures Run(m, t, pos) == Ok(m.(garbage := m.garbage + t))
    decreases |t|
  {
    if t != [] {
      RunGarbage(m, t[..|t| - 1], pos);
      assert m.garbage + t[..|t| - 1] + [t[|t| - 1]] == m.garbage + t;
    } else {
      assert m.garbage + t == m.garbage;
    }
  }

  /** Machines about to read a child: in the outer state, with a current group and not complete. */
  predicate Ready(m: Machine) {
    Sane(m) && m.state == StateOuter && m.g.Some? && !m.complete
  }

  /** Reading one more byte. */
  lemma RunSnoc(m: Machine, a: string, c: char, pos: nat)
    requires Sane(m)
    ensures Run(m, a + [c], pos) == Then(Run(m, a, pos), c, pos + |a|)
  {
    assert (a + [c])[..|a + [c]| - 1] == a;
  }

  /** Reading a single byte is one step. */
  lemma RunOne(m: Machine, c: char, pos: nat)
    requires Sane(m)
    ensures Run(m, [c], pos) == Step(m, c, pos)
  {
    assert [c][..0] == [];
  }

  /** Reading a written child adds it to the current group's children. */
  lemma {:induction false} RunRender(m: Machine, n: Node, pos: nat)
    requires Ready(m) && Plain(n)
    ensures Run(m, Render(n), pos) == Ok(m.(state := StateClosed, g := Some(m.g.value + [n])))
    decreases n, 2
  {
    match n
    case Garbage(t) => RunRenderGarbage(m, t, pos);
    case Group(cs) => RunRenderGroup(m, cs, pos);
  }

  lemma RunRenderGarbage(m: Machine, t: string, pos: nat)
    requires Ready(m) && PlainText(t)
    ensures Run(m, Render(Garbage(t)), pos) == Ok(m.(state := StateClosed, g := Some(m.g.value + [Garbage(t)])))
  {
    var m1 := m.(state := StateGarbage);
    RunOne(m, '<', pos);
    assert Run(m, "<", pos) == Ok(m1);
    RunGarbage(m1, t, pos + 1);
    assert m.garbage + t == t;
    RunConcat(m, "<", t, pos);
    var m2 := m1.(garbage := t);
    assert Run(m, "<" + t, pos) == Ok(m2);
    RunSnoc(m, "<" + t, '>', pos);
    assert Render(Garbage(t)) == "<" + t + ['>'];
  }

  lemma {:induction false} RunRenderGroup(m: Machine, cs: seq<Node>, pos: nat)
    requires Ready(m) && Plain(Group(cs))
    ensures Run(m, Render(Group(cs)), pos) == Ok(m.(state := StateClosed, g := Some(m.g.value + [Group(cs)])))
    decreases Group(cs), 1
  {
    RunOpenAt(m, cs, pos);
    assert (m.stack + [m.g.value])[..|m.stack|] == m.stack;
    RunSnoc(m, "{" + Body(cs), '}', pos);
    assert Render(Group(cs)) == "{" + Body(cs) + ['}'];
  }

  /** The machine once a '{' and the written children are read: a new current group holding them. */
  function Opened(m: Machine, cs: seq<Node>): Machine {
    m.(stack := if m.g.Some? then m.stack + [m.g.value] else m.stack, g := Some(cs), state := if cs == [] then StateOuter else StateClosed)
  }

  lemma {:induction false} RunOpenAt(m: Machine, cs: seq<Node>, pos: nat)
    requires Sane(m) && m.state == StateOuter && !m.complete && Plain(Group(cs))
    ensures Run(m, "{" + Body(cs), pos) == Ok(Opened(m, cs))
    decreases Group(cs), 0
  {
    var m1 := Opened(m, []);
    RunOne(m, '{', pos);
    RunBody(m1, cs, pos + 1);
    assert [] + cs == cs;
    RunConcat(m, "{", Body(cs), pos);
  }

  /** Reading the written children adds all of them; the state is closed after at least one. */
  lemma {:induction false} RunBody(m: Machine, cs: seq<Node>, pos: nat)
    requires Ready(m) && forall k :: 0 <= k < |cs| ==> Plain(cs[k])
    ensures Run(m, Body(cs), pos) == Ok(m.(state := if cs == [] then StateOuter else StateClosed, g := Some(m.g.value + cs)))
    decreases cs, 2
  {
    if cs == [] {
      assert m.g.value + cs == m.g.value;
    } else if |cs| == 1 {
      RunRender(m, cs[0], pos);
      assert [cs[0]] == cs;
    } else {
      RunBodyMore(m, cs, pos);
    }
  }

  /** A written child and its ',' add the child and leave the machine ready for the next one. */
  lemma {:induction false} RunChild(m: Machine, n: Node, pos: nat)
    requires Ready(m) && Plain(n)
    ensures Run(m, Render(n) + [','], pos) == Ok(m.(g := Some(m.g.value + [n])))
    decreases n, 3
  {
    RunRender(m, n, pos);
    RunSnoc(m, Render(n), ',', pos);
  }

  lemma {:induction false} RunBodyMore(m: Machine, cs: seq<Node>, pos: nat)
    requires Ready(m) && |cs| > 1 && forall k :: 0 <= k < |cs| ==> Plain(cs[k])
    ensures Run(m, Body(cs), pos) == Ok(m.(state := StateClosed, g := Some(m.g.value + cs)))
    decreases cs, 1
  {
    var a := Render(cs[0]) + [','];
    RunChild(m, cs[0], pos);
    var m2 := m.(g := Some(m.g.value + [cs[0]]));
    RunBody(m2, cs[1..], pos + |a|);
    assert m.g.value + [cs[0]] + cs[1..] == m.g.value + cs;
    RunConcat(m, a, Body(cs[1..]), pos);
    assert a + Body(cs[1..]) == Body(cs);
  }

  /** A written group is read back as itself. */
  lemma ParseRender(cs: seq<Node>)
    requires Plain(Group(cs))
    ensures ParseResult(Render(Group(cs))) == Ok(Group(cs))
  {
    RunOpenAt(Start, cs, 0);
    RunSnoc(Start, "{" + Body(cs), '}', 0);
    assert Render(Group(cs)) == "{" + Body(cs) + ['}'];
  }

  /** Without its last '}', a written group is cut short: "unexpected EOF". */
  lemma RejectsUnclosed(cs: seq<Node>)
    requires Plain(Group(cs))
    ensures ParseResult("{" + Body(cs)) == Err(UnexpectedEOF)
  {
    RunOpenAt(Start, cs, 0);
  }

  /** Anything but newlines after a written group: "stream must contain a single group". */
  lemma RejectsTrailing(cs: seq<Node>, c: char, rest: string)
    requires Plain(Group(cs)) && c != '\n'
    ensures ParseResult(Render(Group(cs)) + [c] + rest) == Err(NotSingle)
  {
    var s := Render(Group(cs));
    RunOpenAt(Start, cs, 0);
    RunSnoc(Start, "{" + Body(cs), '}', 0);
    assert s == "{" + Body(cs) + ['}'];
    RunSnoc(Start, s, c, 0);
    RunConcat(Start, s + [c], rest, 0);
  }

  /** A stream that opens with '}' or '<', or with any byte but '{' and newline, is rejected at once. */
  lemma RejectsFirstByte(c: char, rest: string)
    requires c != '{' && c != '\n'
    ensures ParseResult([c] + rest) ==
      Err(if c == '}' then StartsWithClose else if c == '<' then NotAGroup else Unexpected(c, 0))
  {
    RunOne(Start, c, 0);
    RunConcat(Start, [c], rest, 0);
  }

  /** The empty input, or one of newlines only, ends before the group closes. */
  lemma {:induction false} RejectsBlank(s: string)
    requires forall k :: 0 <= k < |s| ==> s[k] == '\n'
    ensures Run(Start, s, 0) == Ok(Start) && ParseResult(s) == Err(UnexpectedEOF)
  {
    if s != [] {
      RejectsBlank(s[..|s| - 1]);
    }
  }

  /** The "empty stream" error is never returned: a complete stream always has its group. */
  lemma NeverEmptyStream(s: string)
    ensures ParseResult(s) != Err(EmptyStream)
  {
    var r := Run(Start, s, 0);
    if r.Ok? {
      assert Sane(r.value);
    }
  }

  // ---------------------------------------------------------------------
  // Newlines

  /** An error with the position forgotten. */
  function EraseError(e: StreamError): StreamError {
    if e.Unexpected? then Unexpected(e.c, 0) else e
  }

  function Erase(r: Result<Machine, StreamError>): Result<Machine, StreamError> {
    if r.Err? then Err(EraseError(r.error)) else r
  }

  /**
   * Newlines make no difference: the bytes without them are read to the
   * same machine or the same error, but for the position an error reports.
   */
  lemma {:induction false} RunIgnoresNewlines(m: Machine, s: string, p: nat, q: nat)
    requires Sane(m)
    ensures Erase(Run(m, s, p)) == Erase(Run(m, RemoveAll(s, '\n'), q))
    decreases |s|
  {
    if s != [] {
      var init := s[..|s| - 1];
      var c := s[|s| - 1];
      RunIgnoresNewlines(m, init, p, q);
      var t := RemoveAll(init, '\n');
      assert s == init + [c];
      if c != '\n' {
        assert RemoveAll(s, '\n') == t + [c];
        KeepByte(m, init, t, c, p, q);
      } else {
        assert RemoveAll(s, '\n') == t;
        DropNewline(m, init, t, p, q);
      }
    }
  }

  /** A byte after bytes that agree, but for error positions, keeps them agreeing. */
  lemma KeepByte(m: Machine, a: string, t: string, c: char, p: nat, q: nat)
    requires Sane(m) && Erase(Run(m, a, p)) == Erase(Run(m, t, q))
    ensures Erase(Run(m, a + [c], p)) == Erase(Run(m, t + [c], q))
  {
    RunSnoc(m, a, c, p);
    RunSnoc(m, t, c, q);
    ThenAnywhere(Run(m, a, p), Run(m, t, q), c, p + |a|, q + |t|);
  }

  /** A newline after bytes that agree, but for error positions, keeps them agreeing. */
  lemma DropNewline(m: Machine, a: string, t: string, p: nat, q: nat)
    requires Sane(m) && Erase(Run(m, a, p)) == Erase(Run(m, t, q))
    ensures Erase(Run(m, a + ['\n'], p)) == Erase(Run(m, t, q))
  {
    RunSnoc(m, a, '\n', p);
  }

  /** A byte read at another position, after results that agree but for error positions, keeps them agreeing. */
  lemma ThenAnywhere(r1: Result<Machine, StreamError>, r2: Result<Machine, StreamError>, c: char, p: nat, q: nat)
    requires (r1.Ok? ==> Sane(r1.value)) && (r2.Ok? ==> Sane(r2.value)) && Erase(r1) == Erase(r2)
    ensures Erase(Then(r1, c, p)) == Erase(Then(r2, c, q))
  {
    if r1.Ok? {
      StepAnywhere(r1.value, c, p, q);
    }
  }

  /** A byte read at another position has the same effect, or the same error but for its position. */
  lemma StepAnywhere(m: Machine, c: char, p: nat, q: nat)
    requires Sane(m)
    ensures Erase(Step(m, c, p)) == Erase(Step(m, c, q))
  {
  }

  /** `parseStream` gives the same group, or the same error but for its position, with the newlines removed. */
  lemma ParseIgnoresNewlines(s: string)
    ensures ParseResult(s).Ok? <==> ParseResult(RemoveAll(s, '\n')).Ok?
    ensures ParseResult(s).Ok? ==> ParseResult(s) == ParseResult(RemoveAll(s, '\n'))
    ensures ParseResult(s).Err? ==> EraseError(ParseResult(s).error) == EraseError(ParseResult(RemoveAll(s, '\n')).error)
  {
    RunIgnoresNewlines(Start, s, 0, 0);
  }

  // ---------------------------------------------------------------------
  // The solution

  /** `day9`: the score of the group at depth one and its garbage count, or the parse error. */
  method Day9(input: string) returns (r: Result<(int, nat), StreamError>)
    ensures ParseResult(input).Err? ==> r == Err(ParseResult(input).error)
    ensures ParseResult(input).Ok? ==> r == Ok((Score(ParseResult(input).value, 1), Count(ParseResult(input).value)))
  {
    var g := ParseStream(input);
    if g.Err? {
      return Err(g.error);
    }
    var score := GroupScore(g.value, 1);
    var count := GroupCount(g.value);
    return Ok((score, count));
  }
}
