/**
 * usemon's reader of `/proc/[pid]/stat` lines.  As proc(5) describes the
 * line, the second field, the command name in parentheses, may itself hold
 * spaces and parentheses, so the scan starts after the last ')'.  Counted
 * from there, field 2 is the process group (field 5 of the line) and field
 * 21 is the resident set size in pages (field 24).  Each char of the
 * string stands for one byte.
 */
module UseMon {
  import opened GoBase
  import opened GoStrings

  datatype StatError =
    | WrongProcessGroup      // errWrongProcessGroup
    | Malformed              // errProcStatMalformed
    | BadNumber(e: NumError) // the error of strconv.Atoi or ParseInt

  const PageSize: int := 4096

  /** The index just after the last space of `t`, or 0. */
  function FieldStart(t: string): (k: nat)
    ensures k <= |t|
    ensures forall j :: k <= j < |t| ==> t[j] != ' '
  {
    match LastIndexOf(t, ' ')
    case None => 0
    case Some(j) => j + 1
  }

  /** The fields of `s` that a space terminates, in order (a last field without a space is not one). */
  function TerminatedFields(s: string): (r: seq<string>)
    ensures forall k :: 0 <= k < |r| ==> ' ' !in r[k]
    decreases |s|
  {
    if s == [] then []
    else
      var t := s[..|s| - 1];
      if s[|s| - 1] == ' ' then TerminatedFields(t) + [t[FieldStart(t)..]] else TerminatedFields(t)
  }

  /** Extending a string only adds terminated fields at the end. */
  lemma {:induction false} TerminatedFieldsPrefix(s: string, i: nat)
    requires i <= |s|
    ensures TerminatedFields(s[..i]) <= TerminatedFields(s)
    decreases |s| - i
  {
    if i < |s| {
      assert s[..i + 1][..i] == s[..i];
      TerminatedFieldsPrefix(s, i + 1);
      assert TerminatedFields(s[..i]) <= TerminatedFields(s[..i + 1]);
    } else {
      assert s[..i] == s;
    }
  }

  /** The part of the line after the last ')' and one following space, if there is a ')'. */
  function AfterComm(b: string): (r: Option<string>)
    ensures r.Some? ==> ')' !in r.value
  {
    match LastIndexOf(b, ')')
    case None => None
    case Some(i) =>
      var rest := b[i + 1..];
      Some(if |rest| > 0 && rest[0] == ' ' then rest[1..] else rest)
  }

  /**
   * Whatever precedes the last ')' (a command name holding spaces or
   * parentheses included) does not affect where the fields start.
   */
  lemma AfterLastParen(head: string, tail: string)
    requires ')' !in tail
    ensures AfterComm(head + ")" + tail) == Some(if |tail| > 0 && tail[0] == ' ' then tail[1..] else tail)
  {
    var b := head + ")" + tail;
    assert b[|head|] == ')';
    assert b[|head| + 1..] == tail;
    assert forall k :: |head| < k < |b| ==> b[k] == tail[k - |head| - 1];
  }

  /**
   * What `parseStatRSS(pgid, b)` computes: the process group must parse and
   * equal `pgid`, and the RSS field is returned times the page size (with
   * int64 wrap-around); a missing ')' or too few fields is a malformed line.
   */
  function StatRSS(pgid: Int64, b: string): Result<Int64, StatError> {
    match AfterComm(b)
    case None => Err(Malformed)
    case Some(rest) =>
      var fs := TerminatedFields(rest);
      if |fs| <= 2 then Err(Malformed)
      else if ParseInt(fs[2]).Err? then Err(BadNumber(ParseInt(fs[2]).error))
      else if ParseInt(fs[2]).value != pgid then Err(WrongProcessGroup)
      else if |fs| <= 21 then Err(Malformed)
      else if ParseInt(fs[21]).Err? then Err(BadNumber(ParseInt(fs[21]).error))
      else Ok(Wrap64(ParseInt(fs[21]).value * PageSize))
  }

  /** Reading one more char of `t`: a space ends the field that began at `FieldStart`. */
  lemma FieldsStep(t: string, i: nat)
    requires i < |t|
    ensures t[i] == ' ' ==> TerminatedFields(t[..i + 1]) == TerminatedFields(t[..i]) + [t[FieldStart(t[..i])..i]]
    ensures t[i] == ' ' ==> FieldStart(t[..i + 1]) == i + 1
    ensures t[i] != ' ' ==> TerminatedFields(t[..i + 1]) == TerminatedFields(t[..i])
    ensures t[i] != ' ' ==> FieldStart(t[..i + 1]) == FieldStart(t[..i])
  {
    assert t[..i + 1][..i] == t[..i];
    if t[i] != ' ' {
      LastIndexOfSkip(t[..i + 1]);
    }
  }

  /** A last char that is not a space does not move the last space. */
  lemma LastIndexOfSkip(u: string)
    requires u != [] && u[|u| - 1] != ' '
    ensures LastIndexOf(u, ' ') == LastIndexOf(u[..|u| - 1], ' ')
  {
  }

  /** What the scan knows after `i` chars of `rest`, with `n` fields ended and the current one at `start`. */
  ghost predicate Scanned(pgid: Int64, rest: string, i: int, start: int, n: int) {
    0 <= i <= |rest| &&
    n == |TerminatedFields(rest[..i])| && start == FieldStart(rest[..i]) && n <= 21 &&
    (n > 2 ==> ParseInt(TerminatedFields(rest[..i])[2]) == Ok(pgid))
  }

  /** Before the first char, no field has ended. */
  lemma ScanStart(pgid: Int64, rest: string)
    ensures Scanned(pgid, rest, 0, 0, 0)
  {
    assert rest[..0] == [];
  }

  /**
   * One char more: a space ends field `n`, which must be the right process
   * group when it is field 2; field 21 ends the scan and is not covered here.
   */
  lemma ScanAdvance(pgid: Int64, rest: string, i: int, start: int, n: int)
    requires Scanned(pgid, rest, i, start, n) && i < |rest|
    requires rest[i] == ' ' ==> n != 21 && (n == 2 ==> ParseInt(rest[start..i]) == Ok(pgid))
    ensures rest[i] == ' ' ==> Scanned(pgid, rest, i + 1, i + 1, n + 1)
    ensures rest[i] != ' ' ==> Scanned(pgid, rest, i + 1, start, n)
  {
    FieldsStep(rest, i);
  }

  /** The first `|TerminatedFields(rest[..i])|` fields of `rest` are those of its prefix. */
  lemma FieldsOfPrefix(rest: string, i: nat, k: nat)
    requires i <= |rest| && k < |TerminatedFields(rest[..i])|
    ensures k < |TerminatedFields(rest)| && TerminatedFields(rest)[k] == TerminatedFields(rest[..i])[k]
  {
    TerminatedFieldsPrefix(rest, i);
  }

  /** A space ending field 2 with a value other than `pgid` decides the result. */
  lemma GroupDecides(pgid: Int64, b: string, rest: string, i: int, start: int)
    requires AfterComm(b) == Some(rest) && Scanned(pgid, rest, i, start, 2) && i < |rest| && rest[i] == ' '
    requires ParseInt(rest[start..i]) != Ok(pgid)
    ensures var id := ParseInt(rest[start..i]);
      StatRSS(pgid, b) == if id.Err? then Err(BadNumber(id.error)) else Err(WrongProcessGroup)
  {
    FieldsStep(rest, i);
    assert TerminatedFields(rest[..i + 1])[2] == rest[start..i];
    FieldsOfPrefix(rest, i + 1, 2);
    GroupField(pgid, b, rest, rest[start..i]);
  }

  /** Field 2 other than `pgid` decides the result. */
  lemma GroupField(pgid: Int64, b: string, rest: string, f: string)
    requires AfterComm(b) == Some(rest) && |TerminatedFields(rest)| > 2 && TerminatedFields(rest)[2] == f
    requires ParseInt(f) != Ok(pgid)
    ensures StatRSS(pgid, b) == if ParseInt(f).Err? then Err(BadNumber(ParseInt(f).error)) else Err(WrongProcessGroup)
  {
  }

  /** A space ending field 21, after a matching group, decides the result. */
  lemma RSSDecides(pgid: Int64, b: string, rest: string, i: int, start: int)
    requires AfterComm(b) == Some(rest) && Scanned(pgid, rest, i, start, 21) && i < |rest| && rest[i] == ' '
    ensures var rss := ParseInt(rest[start..i]);
      StatRSS(pgid, b) == if rss.Err? then Err(BadNumber(rss.error)) else Ok(Wrap64(rss.value * PageSize))
  {
    FieldsStep(rest, i);
    FieldsOfPrefix(rest, i + 1, 2);
    FieldsOfPrefix(rest, i + 1, 21);
  }

  /** Fewer than 22 fields with a matching group is a malformed line. */
  lemma ShortIsMalformed(pgid: Int64, b: string, rest: string, start: int, n: int)
    requires AfterComm(b) == Some(rest) && Scanned(pgid, rest, |rest|, start, n)
    ensures StatRSS(pgid, b) == Err(Malformed)
  {
    assert rest[..|rest|] == rest;
  }

  /** `parseStatRSS`: one pass over the bytes after the comm, counting space-terminated fields. */
  method ParseStatRSS(pgid: Int64, b: string) returns (r: Result<Int64, StatError>)
    ensures r == StatRSS(pgid, b)
  {
    var last := LastIndexOf(b, ')');
    if last.None? {
      return Err(Malformed);
    }
    var rest := b[last.value + 1..];
    if |rest| > 0 && rest[0] == ' ' {
      rest := rest[1..];
    }
    assert AfterComm(b) == Some(rest);
    var start, n := 0, 0;
    var i := 0;
    ScanStart(pgid, rest);
    while i < |rest|
      invariant Scanned(pgid, rest, i, start, n)
    {
      if rest[i] == ' ' {
        if n == 2 {
          var err := CheckGroup(pgid, b, rest, i, start);
          if err.Some? {
            return Err(err.value);
          }
        } else if n == 21 {
          r := ReadRSS(pgid, b, rest, i, start);
          return;
        }
        ScanAdvance(pgid, rest, i, start, n);
        start := i + 1;
        n := n + 1;
      } else {
        ScanAdvance(pgid, rest, i, start, n);
      }
      i := i + 1;
    }
    ShortIsMalformed(pgid, b, rest, start, n);
    return Err(Malformed);
  }

  /** Field 2 of `parseStatRSS`'s loop: the error it returns, if the field is not the process group `pgid`. */
  method CheckGroup(pgid: Int64, b: string, rest: string, i: int, start: int) returns (err: Option<StatError>)
    requires AfterComm(b) == Some(rest) && Scanned(pgid, rest, i, start, 2) && i < |rest| && rest[i] == ' '
    ensures err.Some? ==> StatRSS(pgid, b) == Err(err.value)
    ensures err.None? <==> ParseInt(rest[start..i]) == Ok(pgid)
  {
    var id := ParseInt(rest[start..i]);
    if id.Err? {
      GroupDecides(pgid, b, rest, i, start);
      return Some(BadNumber(id.error));
    }
    if id.value != pgid {
      GroupDecides(pgid, b, rest, i, start);
      return Some(WrongProcessGroup);
    }
    return None;
  }

  /** Field 21 of `parseStatRSS`'s loop: the RSS in pages, returned in bytes. */
  method ReadRSS(pgid: Int64, b: string, rest: string, i: int, start: int) returns (r: Result<Int64, StatError>)
    requires AfterComm(b) == Some(rest) && Scanned(pgid, rest, i, start, 21) && i < |rest| && rest[i] == ' '
    ensures r == StatRSS(pgid, b)
  {
    var rss := ParseInt(rest[start..i]);
    RSSDecides(pgid, b, rest, i, start);
    if rss.Err? {
      return Err(BadNumber(rss.error));
    }
    return Ok(Wrap64(rss.value * PageSize));
  }

  /** `isDigits`. */
  method IsDigits(s: string) returns (r: bool)
    ensures r <==> forall k :: 0 <= k < |s| ==> IsDigit(s[k])
  {
    var i := 0;
    while i < |s|
      invariant 0 <= i <= |s|
      invariant forall k :: 0 <= k < i ==> IsDigit(s[k])
    {
      if s[i] < '0' || s[i] > '9' {
        return false;
      }
      i := i + 1;
    }
    return true;
  }
}
