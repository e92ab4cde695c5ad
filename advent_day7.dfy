/**
 * Day 7, "Recursive Circus": every input line names a program, its weight
 * in parentheses and, after "->", the programs it holds up.  The solution
 * reads the programs, finds the one program no other holds (the bottom of
 * the tower), links every program to its children and computes the weight
 * of each sub-tower, memoised in the program, to find the odd one out among
 * a program's children.
 */
module AdventDay7 {
  import opened GoBase
  import opened GoStrings

  /** The parsed part of a `towerProg`: its name, its weight and the names of its children. */
  datatype TowerProg = TowerProg(name: string, weight: Int64, children: seq<string>)

  /** Why `parseTowerProg` rejects a line. */
  datatype ParseError =
    | BadSelf(part: string)     // "bad self part"
    | BadWeight(part: string)   // "bad weight part"
    | BadNumber(e: NumError)    // the error of `strconv.Atoi`

  // ---------------------------------------------------------------------
  // Parsing one line

  /** Every name with the spaces around it trimmed. */
  function TrimAll(names: seq<string>): (r: seq<string>)
    ensures |r| == |names|
  {
    if names == [] then [] else TrimAll(names[..|names| - 1]) + [TrimSpace(names[|names| - 1])]
  }

  /**
   * What `parseTowerProg` makes of a line: the part before the first "->"
   * must be two fields, a name and a weight of at least three bytes in
   * parentheses that `strconv.Atoi` accepts; the part after it, if any, is
   * split at every ',' into names with the spaces around them trimmed.
   */
  function TowerProgOf(s: string): (r: Result<TowerProg, ParseError>)
    ensures r.Ok? ==> r.value.name != [] && NoSpace(r.value.name)
  {
    var parts := SplitN2(s, "->");
    var selfParts := Fields(parts[0]);
    if |selfParts| != 2 then Err(BadSelf(parts[0]))
    else
      var weightStr := selfParts[1];
      if |weightStr| < 3 || weightStr[0] != '(' || weightStr[|weightStr| - 1] != ')' then Err(BadWeight(weightStr))
      else
        match ParseInt(weightStr[1..|weightStr| - 1])
        case Err(e) => Err(BadNumber(e))
        case Ok(w) => Ok(TowerProg(selfParts[0], w, if |parts| > 1 then TrimAll(Split(parts[1], ",")) else []))
  }

  /** `parseTowerProg`: the children are appended one by one as the split names are trimmed. */
  method ParseTowerProg(s: string) returns (r: Result<TowerProg, ParseError>)
    ensures r == TowerProgOf(s)
  {
    var parts := SplitN2(s, "->");
    var selfParts := Fields(parts[0]);
    if |selfParts| != 2 {
      return Err(BadSelf(parts[0]));
    }
    var name := selfParts[0];
    var weightStr := selfParts[1];
    if |weightStr| < 3 || weightStr[0] != '(' || weightStr[|weightStr| - 1] != ')' {
      return Err(BadWeight(weightStr));
    }
    var weight := ParseInt(weightStr[1..|weightStr| - 1]);
    if weight.Err? {
      return Err(BadNumber(weight.error));
    }
    var children: seq<string> := [];
    if |parts| > 1 {
      children := TrimNames(Split(parts[1], ","));
    }
    return Ok(TowerProg(name, weight.value, children));
  }

  /** The loop of `parseTowerProg` appending each child name with its spaces trimmed. */
  method TrimNames(names: seq<string>) returns (children: seq<string>)
    ensures children == TrimAll(names)
  {
    children := [];
    for k := 0 to |names|
      invariant children == TrimAll(names[..k])
    {
      assert names[..k + 1][..k] == names[..k];
      children := children + [TrimSpace(names[k])];
    }
    assert names[..|names|] == names;
  }

  // The line a program is written as: "name (weight)" or "name (weight) -> a, b, c".

  function SelfPart(p: TowerProg): string {
    p.name + " (" + FormatInt(p.weight) + ")"
  }

  /** The children after the arrow: each one after a space, separated by commas. */
  function ListPart(cs: seq<string>): string
    requires cs != []
  {
    if |cs| == 1 then " " + cs[0] else " " + cs[0] + "," + ListPart(cs[1..])
  }

  function Line(p: TowerProg): string {
    if p.children == [] then SelfPart(p) else SelfPart(p) + " ->" + ListPart(p.children)
  }

  /** A name `Line` can carry: a non-empty word without '>'. */
  predicate ProgName(n: string) {
    n != [] && NoSpace(n) && '>' !in n
  }

  /** A child name `Line` can carry: no spaces and no commas. */
  predicate ChildName(c: string) {
    NoSpace(c) && ',' !in c
  }

  /** The split and trimmed children part gives back the children. */
  lemma {:induction false} ListPartRoundTrip(cs: seq<string>)
    requires cs != [] && forall k :: 0 <= k < |cs| ==> ChildName(cs[k])
    ensures TrimAll(Split(ListPart(cs), ",")) == cs
  {
    TrimSpaceWord(cs[0]);
    assert ',' !in " " + cs[0];
    if |cs| == 1 {
      SplitNoRune(" " + cs[0], ',');
    } else {
      ListPartRoundTrip(cs[1..]);
      SplitRune(" " + cs[0], ',', ListPart(cs[1..]));
      TrimAllFront(" " + cs[0], Split(ListPart(cs[1..]), ","));
      assert cs == [cs[0]] + cs[1..];
    }
  }

  lemma {:induction false} TrimAllFront(a: string, names: seq<string>)
    ensures TrimAll([a] + names) == [TrimSpace(a)] + TrimAll(names)
    decreases |names|
  {
    if names != [] {
      var init := names[..|names| - 1];
      assert ([a] + names)[..|names|] == [a] + init;
      TrimAllFront(a, init);
    } else {
      assert [a] + names == [a];
    }
  }

  /** Two texts without spaces make one without spaces. */
  lemma NoSpaceConcat(a: string, b: string)
    requires NoSpace(a) && NoSpace(b)
    ensures NoSpace(a + b)
  {
    forall i | 0 <= i < |a + b|
      ensures !IsSpace((a + b)[i])
    {
      if i < |a| {
        assert (a + b)[i] == a[i];
      } else {
        assert (a + b)[i] == b[i - |a|];
      }
    }
  }

  /** The weight part "(weight)" of a line: in parentheses, with the weight written inside. */
  lemma WeightShape(x: Int64)
    ensures var w := "(" + FormatInt(x) + ")";
      |w| >= 3 && w[0] == '(' && w[|w| - 1] == ')' && ParseInt(w[1..|w| - 1]) == Ok(x)
  {
    var w := "(" + FormatInt(x) + ")";
    assert w[1..|w| - 1] == FormatInt(x);
    ParseFormatInt(x);
  }

  /** The weight part is one field, without '>' or ','. */
  lemma WeightWord(x: Int64)
    ensures var w := "(" + FormatInt(x) + ")";
      NoSpace(w) && '>' !in w && ',' !in w
  {
    var f := FormatInt(x);
    FormatIntRunes(x);
    assert NoSpace(f) && '>' !in f && ',' !in f;
    NoSpaceConcat("(", f);
    NoSpaceConcat("(" + f, ")");
  }

  /** The self part of a line has no '>' in it. */
  lemma SelfNoArrow(p: TowerProg)
    requires '>' !in p.name
    ensures '>' !in SelfPart(p)
  {
    WeightWord(p.weight);
    assert SelfPart(p) == p.name + " " + ("(" + FormatInt(p.weight) + ")");
  }

  /** "->" sits at `k` only when '>' is at `k + 1`. */
  lemma ArrowAt(s: string, k: nat)
    ensures At(s, k, "->") ==> k + 1 < |s| && s[k + 1] == '>'
  {
    if At(s, k, "->") {
      assert s[k..k + 2][1] == s[k + 1];
    }
  }

  /** No "->" starts in a prefix of `s` that, with the rune after it, is free of '>'. */
  lemma NoArrowBefore(s: string, n: nat)
    requires n < |s| && '>' !in s[..n + 1]
    ensures forall k :: 0 <= k < n ==> !At(s, k, "->")
  {
    forall k | 0 <= k < n
      ensures !At(s, k, "->")
    {
      ArrowAt(s, k);
      assert s[k + 1] == s[..n + 1][k + 1];
    }
  }

  /** A word and then nothing or a space is one field. */
  lemma LastField(w: string, rest: string)
    requires w != [] && NoSpace(w) && (rest == [] || rest == " ")
    ensures Fields(w + rest) == [w]
  {
    FieldsWord(w, rest);
    if rest == " " {
      FieldsSpace(' ', []);
      assert rest == [' '] + [];
    }
  }

  /** Two words separated by a space, followed by nothing or by a space, are two fields. */
  lemma TwoFields(a: string, w: string, rest: string)
    requires a != [] && NoSpace(a) && w != [] && NoSpace(w) && (rest == [] || rest == " ")
    ensures Fields(a + " " + w + rest) == [a, w]
  {
    assert a + " " + w + rest == a + " " + (w + rest);
    FieldsWordSpace(a, w + rest);
    LastField(w, rest);
  }

  /** The two fields of the self part, followed by nothing or by a space: the name and the weight part. */
  lemma SelfFields(p: TowerProg, rest: string)
    requires ProgName(p.name) && (rest == [] || rest == " ")
    ensures Fields(SelfPart(p) + rest) == [p.name, "(" + FormatInt(p.weight) + ")"]
  {
    var w := "(" + FormatInt(p.weight) + ")";
    WeightWord(p.weight);
    assert SelfPart(p) == p.name + " " + w;
    TwoFields(p.name, w, rest);
  }

  /** How `strings.SplitN` cuts a written line at its arrow. */
  lemma SplitLine(p: TowerProg)
    requires ProgName(p.name)
    ensures p.children == [] ==> SplitN2(Line(p), "->") == [SelfPart(p)]
    ensures p.children != [] ==> SplitN2(Line(p), "->") == [SelfPart(p) + " ", ListPart(p.children)]
  {
    var s := Line(p);
    var sp := SelfPart(p);
    SelfNoArrow(p);
    if p.children == [] {
      forall k | 0 <= k <= |s|
        ensures !At(s, k, "->")
      {
        ArrowAt(s, k);
        if k + 1 < |s| {
          assert s[k + 1] in sp;
        }
      }
    } else {
      var n := |sp| + 1;
      assert s == sp + " " + "->" + ListPart(p.children);
      assert s[..n + 1] == sp + " " + "-";
      NoArrowBefore(s, n);
      assert s[n..n + 2] == "->";
      assert At(s, n, "->");
      assert IndexOf(s, "->") == Some(n);
      assert s[..n] == sp + " ";
      assert s[n + 2..] == ListPart(p.children);
    }
  }

  /**
   * Reading back a written program gives the program: `parseTowerProg`
   * inverts `Line` for every program whose name is a word without '>' and
   * whose children's names have no spaces or commas.
   */
  lemma ParseLine(p: TowerProg)
    requires ProgName(p.name) && forall k :: 0 <= k < |p.children| ==> ChildName(p.children[k])
    ensures TowerProgOf(Line(p)) == Ok(p)
  {
    if p.children == [] {
      ParseLineAlone(p);
    } else {
      ParseLineHolding(p);
    }
  }

  lemma ParseLineAlone(p: TowerProg)
    requires ProgName(p.name) && p.children == []
    ensures TowerProgOf(Line(p)) == Ok(p)
  {
    SplitLine(p);
    WeightShape(p.weight);
    SelfFields(p, []);
    assert SelfPart(p) + [] == SelfPart(p);
  }

  lemma ParseLineHolding(p: TowerProg)
    requires ProgName(p.name) && p.children != [] && forall k :: 0 <= k < |p.children| ==> ChildName(p.children[k])
    ensures TowerProgOf(Line(p)) == Ok(p)
  {
    SplitLine(p);
    WeightShape(p.weight);
    SelfFields(p, " ");
    ListPartRoundTrip(p.children);
  }

  /** A text without '>' has no arrow to split at. */
  lemma NoArrow(s: string)
    requires '>' !in s
    ensures SplitN2(s, "->") == [s]
  {
    forall k | 0 <= k <= |s|
      ensures !At(s, k, "->")
    {
      ArrowAt(s, k);
      if k + 1 < |s| {
        assert s[k + 1] in s;
      }
    }
  }

  /** A line whose weight is not in parentheses is rejected. */
  lemma RejectsBareWeight(name: string, weight: string)
    requires ProgName(name) && weight != [] && NoSpace(weight) && '>' !in weight && weight[0] != '('
    ensures TowerProgOf(name + " " + weight) == Err(BadWeight(weight))
  {
    NoArrow(name + " " + weight);
    FieldsWordSpace(name, weight);
    LastField(weight, []);
    assert weight + [] == weight;
  }

  // ---------------------------------------------------------------------
  // The bottom program

  /** Every name some program lists as a child (`hasParent`). */
  function ChildNames(progs: seq<TowerProg>): set<string> {
    if progs == [] then {}
    else
      var last := progs[|progs| - 1].children;
      ChildNames(progs[..|progs| - 1]) + set c | c in last
  }

  /** A name is marked exactly when some program lists it as a child. */
  lemma {:induction false} ChildNamesMeaning(progs: seq<TowerProg>, n: string)
    ensures n in ChildNames(progs) <==> exists i :: 0 <= i < |progs| && n in progs[i].children
  {
    if progs != [] {
      var init := progs[..|progs| - 1];
      ChildNamesMeaning(init, n);
      if exists i :: 0 <= i < |init| && n in init[i].children {
        var i :| 0 <= i < |init| && n in init[i].children;
        assert progs[i] == init[i];
      }
    }
  }

  /** The names of the programs not listed as a child by any, in input order (`noParents`). */
  function Orphans(progs: seq<TowerProg>, parented: set<string>): seq<string> {
    if progs == [] then []
    else Orphans(progs[..|progs| - 1], parented) + (if progs[|progs| - 1].name in parented then [] else [progs[|progs| - 1].name])
  }

  /** The bottom of the tower: the only program no other holds, or the number of such programs. */
  function RootOf(progs: seq<TowerProg>): Result<string, nat> {
    var o := Orphans(progs, ChildNames(progs));
    if |o| == 1 then Ok(o[0]) else Err(|o|)
  }

  /** The root detection of `day7`: mark every child name, then collect the unmarked program names. */
  method FindRoot(progs: seq<TowerProg>) returns (r: Result<string, nat>)
    ensures r == RootOf(progs)
  {
    var hasParent: map<string, bool> := map[];
    for i := 0 to |progs|
      invariant hasParent.Keys == ChildNames(progs[..i])
      invariant forall n :: n in hasParent ==> hasParent[n]
    {
      var children := progs[i].children;
      assert progs[..i + 1][..i] == progs[..i];
      for k := 0 to |children|
        invariant hasParent.Keys == ChildNames(progs[..i]) + set c | c in children[..k]
        invariant forall n :: n in hasParent ==> hasParent[n]
      {
        assert children[..k + 1] == children[..k] + [children[k]];
        hasParent := hasParent[children[k] := true];
      }
      assert children[..|children|] == children;
    }
    assert progs[..|progs|] == progs;
    var noParents: seq<string> := [];
    for i := 0 to |progs|
      invariant noParents == Orphans(progs[..i], ChildNames(progs))
    {
      assert progs[..i + 1][..i] == progs[..i];
      if !(progs[i].name in hasParent && hasParent[progs[i].name]) {
        noParents := noParents + [progs[i].name];
      }
    }
    if |noParents| != 1 {
      return Err(|noParents|);
    }
    return Ok(noParents[0]);
  }

  /** A program is an orphan when no program lists its name as a child. */
  predicate IsOrphan(progs: seq<TowerProg>, i: int)
    requires 0 <= i < |progs|
  {
    progs[i].name !in ChildNames(progs)
  }

  /** The orphan list holds one name per orphan program, in order. */
  lemma {:induction false} OrphansAt(progs: seq<TowerProg>, parented: set<string>, i: nat)
    requires i < |progs| && progs[i].name !in parented
    ensures |Orphans(progs[..i], parented)| < |Orphans(progs, parented)|
    ensures Orphans(progs, parented)[|Orphans(progs[..i], parented)|] == progs[i].name
    decreases |progs|
  {
    var init := progs[..|progs| - 1];
    if i < |progs| - 1 {
      assert init[..i] == progs[..i];
      OrphansAt(init, parented, i);
    } else {
      assert init == progs[..i];
    }
  }

  lemma {:induction false} OrphansNone(progs: seq<TowerProg>, parented: set<string>)
    requires forall i :: 0 <= i < |progs| ==> progs[i].name in parented
    ensures Orphans(progs, parented) == []
  {
    if progs != [] {
      OrphansNone(progs[..|progs| - 1], parented);
    }
  }

  lemma {:induction false} OrphansMonotone(progs: seq<TowerProg>, parented: set<string>, i: nat)
    requires i <= |progs|
    ensures |Orphans(progs[..i], parented)| <= |Orphans(progs, parented)|
    decreases |progs|
  {
    if i < |progs| {
      var init := progs[..|progs| - 1];
      assert init[..i] == progs[..i];
      OrphansMonotone(init, parented, i);
    } else {
      assert progs[..i] == progs;
    }
  }

  /** Every name in the orphan list is the name of a program and is not marked. */
  lemma {:induction false} OrphansSound(progs: seq<TowerProg>, parented: set<string>, n: string)
    requires n in Orphans(progs, parented)
    ensures n !in parented && exists i :: 0 <= i < |progs| && progs[i].name == n
  {
    var init := progs[..|progs| - 1];
    if n in Orphans(init, parented) {
      OrphansSound(init, parented, n);
      var i :| 0 <= i < |init| && init[i].name == n;
      assert progs[i] == init[i];
    }
  }

  /**
   * `day7` reports program `i` as the bottom exactly when it is an orphan
   * and no other program is.
   */
  lemma RootIsTheOrphan(progs: seq<TowerProg>, i: nat)
    requires i < |progs|
    ensures RootOf(progs) == Ok(progs[i].name) <==>
      IsOrphan(progs, i) && forall j :: 0 <= j < |progs| && j != i ==> !IsOrphan(progs, j)
  {
    var c := ChildNames(progs);
    if IsOrphan(progs, i) {
      OrphansAt(progs, c, i);
      if forall j :: 0 <= j < |progs| && j != i ==> !IsOrphan(progs, j) {
        forall j | 0 <= j < |progs| && j != i
          ensures progs[j].name in c
        {
          assert !IsOrphan(progs, j);
        }
        OnlyOrphan(progs, c, i);
      } else {
        var j :| 0 <= j < |progs| && j != i && IsOrphan(progs, j);
        TwoOrphans(progs, c, i, j);
      }
    } else if RootOf(progs).Ok? {
      OrphansSound(progs, c, RootOf(progs).value);
    }
  }

  /** What `day7` prints is the name of a program no program lists as a child. */
  lemma RootIsUnheld(progs: seq<TowerProg>)
    requires RootOf(progs).Ok?
    ensures exists i :: 0 <= i < |progs| && progs[i].name == RootOf(progs).value
    ensures forall i :: 0 <= i < |progs| ==> RootOf(progs).value !in progs[i].children
  {
    OrphansSound(progs, ChildNames(progs), RootOf(progs).value);
    ChildNamesMeaning(progs, RootOf(progs).value);
  }

  lemma {:induction false} OnlyOrphan(progs: seq<TowerProg>, parented: set<string>, i: nat)
    requires i < |progs| && progs[i].name !in parented
    requires forall j :: 0 <= j < |progs| && j != i ==> progs[j].name in parented
    ensures Orphans(progs, parented) == [progs[i].name]
    decreases |progs|
  {
    var init := progs[..|progs| - 1];
    if i < |progs| - 1 {
      OnlyOrphan(init, parented, i);
    } else {
      OrphansNone(init, parented);
    }
  }

  lemma TwoOrphans(progs: seq<TowerProg>, parented: set<string>, i: nat, j: nat)
    requires i < |progs| && j < |progs| && i != j && progs[i].name !in parented && progs[j].name !in parented
    ensures |Orphans(progs, parented)| >= 2
  {
    var lo, hi := if i < j then i else j, if i < j then j else i;
    OrphansAt(progs, parented, hi);
    OrphansAt(progs[..hi], parented, lo);
    assert progs[..hi][..lo] == progs[..lo];
    OrphansMonotone(progs[..hi], parented, lo);
  }

  // ---------------------------------------------------------------------
  // diffWeights

  /** The weight at least two of the first three weights share, if any. */
  function Majority(w0: int, w1: int, w2: int): (r: Option<int>)
    ensures r.Some? ==> (r.value == w0 && (w0 == w1 || w0 == w2)) || (r.value == w1 && w1 == w2)
    ensures r.None? <==> w0 != w1 && w0 != w2 && w1 != w2
  {
    if w0 == w1 then Some(w0) else if w0 == w2 then Some(w0) else if w1 == w2 then Some(w1) else None
  }

  /** The first index whose weight is not `w`. */
  function FirstOther(ws: seq<int>, w: int): (r: Option<nat>)
    ensures r.Some? ==> r.value < |ws| && ws[r.value] != w && forall k :: 0 <= k < r.value ==> ws[k] == w
    ensures r.None? ==> forall k :: 0 <= k < |ws| ==> ws[k] == w
  {
    if ws == [] then None
    else if ws[0] != w then Some(0)
    else match FirstOther(ws[1..], w)
      case None => None
      case Some(i) => Some(i + 1)
  }

  /**
   * What `diffWeights` returns: (-2, 0) for fewer than two weights or equal
   * ones, (-1, 0) for two different weights, otherwise the first index whose
   * weight is not the one most of the first three share, with that weight;
   * `None` is the panic when the first three all differ.
   */
  function Diff(ws: seq<int>): Option<(int, int)> {
    if |ws| < 2 then Some((-2, 0))
    else if |ws| == 2 then (if ws[0] == ws[1] then Some((-2, 0)) else Some((-1, 0)))
    else
      match Majority(ws[0], ws[1], ws[2])
      case None => None
      case Some(w) =>
        match FirstOther(ws, w)
        case Some(i) => Some((i, w))
        case None => Some((-2, 0))
  }

  /** `diffWeights`: the majority of the first three weights, then a scan for the first weight differing from it. */
  method DiffWeights(weights: seq<int>) returns (r: Option<(int, int)>)
    ensures r == Diff(weights)
  {
    if |weights| < 2 {
      return Some((-2, 0));
    }
    if |weights| == 2 {
      if weights[0] == weights[1] {
        return Some((-2, 0));
      }
      return Some((-1, 0));
    }
    var w0, w1, w2 := weights[0], weights[1], weights[2];
    var w;
    if w0 == w1 {
      w := w0;
    } else if w0 == w2 {
      w := w0;
    } else if w1 == w2 {
      w := w1;
    } else {
      return None;
    }
    for i := 0 to |weights|
      invariant forall k :: 0 <= k < i ==> weights[k] == w
    {
      if weights[i] != w {
        FirstOtherIs(weights, w, i);
        return Some((i, w));
      }
    }
    FirstOtherNone(weights, w);
    return Some((-2, 0));
  }

  lemma FirstOtherIs(ws: seq<int>, w: int, i: nat)
    requires i < |ws| && ws[i] != w && forall k :: 0 <= k < i ==> ws[k] == w
    ensures FirstOther(ws, w) == Some(i)
  {
  }

  lemma FirstOtherNone(ws: seq<int>, w: int)
    requires forall k :: 0 <= k < |ws| ==> ws[k] == w
    ensures FirstOther(ws, w) == None
  {
  }

  /** `diffWeights` reports (-2, 0) exactly when all the weights are equal. */
  lemma DiffAllEqual(ws: seq<int>)
    ensures Diff(ws) == Some((-2, 0)) <==> forall j, k :: 0 <= j < |ws| && 0 <= k < |ws| ==> ws[j] == ws[k]
  {
    if |ws| >= 3 && Majority(ws[0], ws[1], ws[2]).Some? {
      var w := Majority(ws[0], ws[1], ws[2]).value;
      if forall j, k :: 0 <= j < |ws| && 0 <= k < |ws| ==> ws[j] == ws[k] {
        FirstOtherNone(ws, w);
      }
    }
  }

  /** `diffWeights` panics exactly when there are three or more weights and the first three all differ. */
  lemma DiffPanics(ws: seq<int>)
    ensures Diff(ws).None? <==> |ws| >= 3 && ws[0] != ws[1] && ws[0] != ws[2] && ws[1] != ws[2]
  {
  }

  /** When all weights but one agree, among three or more, `diffWeights` finds the odd one and the common weight. */
  lemma DiffFindsOddOne(ws: seq<int>, i: nat, w: int)
    requires |ws| >= 3 && i < |ws| && ws[i] != w
    requires forall k :: 0 <= k < |ws| && k != i ==> ws[k] == w
    ensures Diff(ws) == Some((i, w))
  {
    assert Majority(ws[0], ws[1], ws[2]) == Some(w);
    FirstOtherIs(ws, w, i);
  }

  /**
   * An index reported by `diffWeights` holds a weight different from the
   * reported one, every weight before it is the reported one, and at least
   * two of the first three weights are the reported one.
   */
  lemma DiffIndexMeaning(ws: seq<int>)
    requires Diff(ws).Some? && Diff(ws).value.0 >= 0
    ensures var (i, w) := Diff(ws).value;
      |ws| >= 3 && i < |ws| && ws[i] != w && (forall k :: 0 <= k < i ==> ws[k] == w) &&
      ((ws[0] == w && ws[1] == w) || (ws[0] == w && ws[2] == w) || (ws[1] == w && ws[2] == w))
  {
  }

  // ---------------------------------------------------------------------
  // The tower and treeWeight

  /** Index of the last program with each name: `byName` is filled in input order. */
  function ByName(progs: seq<TowerProg>): (m: map<string, nat>)
    ensures forall n :: n in m ==> m[n] < |progs| && progs[m[n]].name == n
    ensures forall i :: 0 <= i < |progs| ==> progs[i].name in m && i <= m[progs[i].name]
  {
    if progs == [] then map[]
    else
      var init := progs[..|progs| - 1];
      var m := ByName(init);
      assert forall i :: 0 <= i < |init| ==> init[i] == progs[i];
      m[progs[|progs| - 1].name := |progs| - 1]
  }

  /** The loop filling `byName`: a later program of the same name replaces an earlier one. */
  method IndexByName(progs: seq<TowerProg>) returns (byName: map<string, nat>)
    ensures byName == ByName(progs)
  {
    byName := map[];
    for i := 0 to |progs|
      invariant byName == ByName(progs[..i])
    {
      assert progs[..i + 1][..i] == progs[..i];
      byName := byName[progs[i].name := i];
    }
    assert progs[..|progs|] == progs;
  }

  /** The loops of `addRefs`: every child name looked up in `byName`. */
  method Link(progs: seq<TowerProg>, byName: map<string, nat>) returns (links: seq<seq<nat>>)
    requires forall i, k :: 0 <= i < |progs| && 0 <= k < |progs[i].children| ==> progs[i].children[k] in byName
    ensures |links| == |progs|
    ensures forall i :: 0 <= i < |progs| ==> |links[i]| == |progs[i].children|
    ensures forall i, k :: 0 <= i < |progs| && 0 <= k < |progs[i].children| ==> links[i][k] == byName[progs[i].children[k]]
  {
    links := [];
    for i := 0 to |progs|
      invariant |links| == i
      invariant forall j :: 0 <= j < i ==> |links[j]| == |progs[j].children|
      invariant forall j, k :: 0 <= j < i && 0 <= k < |progs[j].children| ==> links[j][k] == byName[progs[j].children[k]]
    {
      var row := LinkRow(progs[i].children, byName);
      links := links + [row];
    }
  }

  method LinkRow(children: seq<string>, byName: map<string, nat>) returns (row: seq<nat>)
    requires forall k :: 0 <= k < |children| ==> children[k] in byName
    ensures |row| == |children| && forall k :: 0 <= k < |children| ==> row[k] == byName[children[k]]
  {
    row := [];
    for k := 0 to |children|
      invariant |row| == k && forall j :: 0 <= j < k ==> row[j] == byName[children[j]]
    {
      row := row + [byName[children[k]]];
    }
  }

  /**
   * The programs form a forest under `byName`: every child names a program,
   * and `rank` falls from a program to each of its children.
   */
  ghost predicate Forest(progs: seq<TowerProg>, rank: seq<nat>) {
    |rank| == |progs| &&
    forall i, k :: 0 <= i < |progs| && 0 <= k < |progs[i].children| ==>
      progs[i].children[k] in ByName(progs) && rank[ByName(progs)[progs[i].children[k]]] < rank[i]
  }

  /**
   * The programs of `day7`: `refs` holds each program's children as the
   * indexes `addRefs` links them to, and `memo` each program's
   * `treeWeight` field, -1 until it is computed.
   */
  class Tower {
    const progs: seq<TowerProg>
    const refs: seq<seq<nat>>
    const memo: array<int>
    ghost const rank: seq<nat>

    /** The links make a forest, whatever the memo holds. */
    ghost predicate Linked() {
      |refs| == |progs| == |rank| &&
      forall i, k :: 0 <= i < |refs| && 0 <= k < |refs[i]| ==> refs[i][k] < |progs| && rank[refs[i][k]] < rank[i]
    }

    /** Every memoised weight is the weight of its sub-tower. */
    ghost predicate Valid()
      reads this, memo
    {
      Linked() && memo.Length == |progs| &&
      forall i :: 0 <= i < memo.Length && memo[i] != -1 ==> memo[i] == Weight(i)
    }

    /** The weight of the sub-tower on program `i`: its own and its children's sub-towers'. */
    ghost function Weight(i: nat): int
      requires Linked() && i < |progs|
      decreases rank[i], 1
    {
      progs[i].weight + ChildSum(i, |refs[i]|)
    }

    /** The weights of the sub-towers on the first `k` children of program `i`. */
    ghost function ChildSum(i: nat, k: nat): int
      requires Linked() && i < |progs| && k <= |refs[i]|
      decreases rank[i], 0, k
    {
      if k == 0 then 0 else ChildSum(i, k - 1) + Weight(refs[i][k - 1])
    }

    /** Builds `byName` and links every program's children to the last program of that name. */
    constructor (input: seq<TowerProg>, ghost order: seq<nat>)
      requires Forest(input, order)
      ensures progs == input && rank == order && Valid() && fresh(memo)
      ensures forall i :: 0 <= i < memo.Length ==> memo[i] == -1
      ensures forall i :: 0 <= i < |refs| ==> |refs[i]| == |input[i].children|
      ensures forall i, k :: 0 <= i < |refs| && 0 <= k < |refs[i]| ==> input[refs[i][k]].name == input[i].children[k]
    {
      var byName := IndexByName(input);
      var links := Link(input, byName);
      progs := input;
      refs := links;
      rank := order;
      memo := new int[|input|](_ => -1);
    }

    /**
     * `treeWeight`: the memoised weight when there is one, otherwise the
     * program's weight plus its children's tree weights, stored in the memo.
     * Memoised weights stay as they are.
     */
    method TreeWeight(i: nat) returns (w: int)
      requires Valid() && i < |progs|
      modifies memo
      ensures Valid() && w == Weight(i)
      ensures memo[i] == w
      ensures forall j :: 0 <= j < memo.Length && old(memo[j]) != -1 ==> memo[j] == old(memo[j])
      decreases rank[i]
    {
      if memo[i] != -1 {
        return memo[i];
      }
      w := progs[i].weight;
      for k := 0 to |refs[i]|
        invariant Valid() && w == progs[i].weight + ChildSum(i, k)
        invariant forall j :: 0 <= j < memo.Length && old(memo[j]) != -1 ==> memo[j] == old(memo[j])
      {
        var c := TreeWeight(refs[i][k]);
        w := w + c;
      }
      memo[i] := w;
    }
  }

  /** A sub-tower of programs of non-negative weight weighs at least as much as each child's sub-tower. */
  lemma {:induction false} ChildSumBound(t: Tower, i: nat, k: nat, j: nat)
    requires t.Linked() && i < |t.progs| && j < k <= |t.refs[i]|
    requires forall q :: 0 <= q < |t.progs| ==> t.progs[q].weight >= 0
    ensures t.ChildSum(i, k) >= t.Weight(t.refs[i][j])
    decreases k
  {
    NonNegativeWeight(t, t.refs[i][k - 1]);
    if j < k - 1 {
      ChildSumBound(t, i, k - 1, j);
    } else {
      NonNegativeSum(t, i, k - 1);
    }
  }

  lemma {:induction false} NonNegativeWeight(t: Tower, i: nat)
    requires t.Linked() && i < |t.progs|
    requires forall q :: 0 <= q < |t.progs| ==> t.progs[q].weight >= 0
    ensures t.Weight(i) >= t.progs[i].weight
    decreases t.rank[i], 1
  {
    NonNegativeSum(t, i, |t.refs[i]|);
  }

  lemma {:induction false} NonNegativeSum(t: Tower, i: nat, k: nat)
    requires t.Linked() && i < |t.progs| && k <= |t.refs[i]|
    requires forall q :: 0 <= q < |t.progs| ==> t.progs[q].weight >= 0
    ensures t.ChildSum(i, k) >= 0
    decreases t.rank[i], 0, k
  {
    if k > 0 {
      NonNegativeSum(t, i, k - 1);
      NonNegativeWeight(t, t.refs[i][k - 1]);
    }
  }

  /** A sub-tower outweighs the sub-tower on any one of its children by at least its own program's weight. */
  lemma TowerOutweighsChild(t: Tower, i: nat, j: nat)
    requires t.Linked() && i < |t.progs| && j < |t.refs[i]|
    requires forall q :: 0 <= q < |t.progs| ==> t.progs[q].weight >= 0
    ensures t.Weight(i) >= t.progs[i].weight + t.Weight(t.refs[i][j])
  {
    ChildSumBound(t, i, |t.refs[i]|, j);
  }
}
