/**
 * goldmarkpos: the 1-based line and column of a byte offset in a source
 * text (each char of the string stands for one byte).
 */
module GoldmarkPos {
  import opened GoBase
  import opened GoStrings

  /** The number of '\n' bytes in `s`. */
  function NewlineCount(s: string): nat {
    if s == [] then 0 else NewlineCount(s[..|s| - 1]) + (if s[|s| - 1] == '\n' then 1 else 0)
  }

  /** The 1-based column of the position just after `s`: one plus the bytes after its last '\n'. */
  function ColumnAfter(s: string): (col: nat)
    ensures 1 <= col <= |s| + 1
  {
    match LastIndexOf(s, '\n')
    case None => |s| + 1
    case Some(k) => |s| - k
  }

  /**
   * `lineColFromOffset(source, offset)`.  The loop reads `source[i]` for
   * every `i < offset`, so an offset past the end is out of range; a
   * negative offset runs no iteration and gives line 1, column 1.
   */
  method LineColFromOffset(source: string, offset: int) returns (line: int, col: int)
    requires offset <= |source|
    ensures offset <= 0 ==> line == 1 && col == 1
    ensures 0 <= offset ==> line == 1 + NewlineCount(source[..offset])
    ensures 0 <= offset ==> col == ColumnAfter(source[..offset])
  {
    line := 1;
    col := 1;
    var i := 0;
    while i < offset
      invariant 0 <= i && (i <= offset || i == 0)
      invariant line == 1 + NewlineCount(source[..i])
      invariant col == ColumnAfter(source[..i])
    {
      assert source[..i + 1][..i] == source[..i];
      if source[i] == '\n' {
        line := line + 1;
        col := 1;
      } else {
        col := col + 1;
      }
      i := i + 1;
    }
  }

  /** Offset 0 is line 1, column 1. */
  lemma StartIsOneOne(source: string)
    ensures NewlineCount(source[..0]) == 0 && ColumnAfter(source[..0]) == 1
  {
  }

  /**
   * The line and column determine the offset: it is `col - 1` bytes past the
   * byte after the `(line - 1)`-th newline.
   */
  lemma {:induction false} LineStartOffset(s: string)
    ensures NewlineCount(s) == 0 ==> ColumnAfter(s) == |s| + 1
    ensures NewlineCount(s) > 0 ==>
              (exists k :: 0 <= k < |s| && s[k] == '\n' &&
                 NewlineCount(s[..k]) == NewlineCount(s) - 1 && ColumnAfter(s) == |s| - k)
  {
    if s != [] {
      var t := s[..|s| - 1];
      LineStartOffset(t);
      if s[|s| - 1] == '\n' {
        assert s[..|s| - 1] == t;
      } else if NewlineCount(t) > 0 {
        var k :| 0 <= k < |t| && t[k] == '\n' && NewlineCount(t[..k]) == NewlineCount(t) - 1 && ColumnAfter(t) == |t| - k;
        assert s[..k] == t[..k];
        assert s[k] == '\n';
      }
    }
  }
}
