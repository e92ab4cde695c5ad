/**
 * Day 4, "High-Entropy Passphrases": a passphrase is a line of
 * space-separated words; it is valid when no word repeats (4a), or when no
 * two words are anagrams of each other (4b).  The solutions count the valid
 * lines of their input.
 */
module AdventDay4 {
  import opened GoStrings

  /** The two policies: no repeated word (4a) and no two anagrams (4b). */
  datatype Policy = NoRepeat | NoAnagram

  /** No two positions of `ws` hold the same word. */
  predicate Distinct(ws: seq<string>) {
    forall i, j :: 0 <= i < j < |ws| ==> ws[i] != ws[j]
  }

  /** No two positions of `ws` hold words made of the same runes. */
  predicate NoAnagrams(ws: seq<string>) {
    forall i, j :: 0 <= i < j < |ws| ==> multiset(ws[i]) != multiset(ws[j])
  }

  // ---------------------------------------------------------------------
  // Sorting the runes of a word

  /** Each rune is at most the next one. */
  predicate Sorted(s: string) {
    |s| <= 1 || (s[0] <= s[1] && Sorted(s[1..]))
  }

  /** `c` inserted into the sorted `s` before the first rune not below it. */
  function Insert(c: char, s: string): string {
    if s == [] || c <= s[0] then [c] + s else [s[0]] + Insert(c, s[1..])
  }

  /**
   * The runes of `w` in ascending order, as `sort.Slice` with `<` on runes
   * leaves them; sorting runes gives one result whatever the sort's
   * stability, so the function sorts by insertion.
   */
  function SortRunes(w: string): string {
    if w == [] then [] else Insert(w[0], SortRunes(w[1..]))
  }

  /** Inserting adds exactly the one rune. */
  lemma {:induction false} InsertRunes(c: char, s: string)
    ensures multiset(Insert(c, s)) == multiset(s) + multiset{c}
  {
    if s != [] && c > s[0] {
      InsertRunes(c, s[1..]);
      assert s == [s[0]] + s[1..];
    }
  }

  /** Inserting into a sorted string keeps it sorted, and puts the smaller of `c` and the old first rune first. */
  lemma {:induction false} InsertSorted(c: char, s: string)
    requires Sorted(s)
    ensures Sorted(Insert(c, s))
    ensures Insert(c, s) != [] && Insert(c, s)[0] == (if s != [] && s[0] < c then s[0] else c)
  {
    if s != [] && c > s[0] {
      InsertSorted(c, s[1..]);
    }
  }

  /** `SortRunes` orders the runes of the word and keeps every one of them. */
  lemma SortRunesSpec(w: string)
    ensures Sorted(SortRunes(w)) && multiset(SortRunes(w)) == multiset(w)
  {
    SortRunesSorted(w);
    SortRunesKeeps(w);
  }

  lemma {:induction false} SortRunesSorted(w: string)
    ensures Sorted(SortRunes(w))
  {
    if w != [] {
      SortRunesSorted(w[1..]);
      InsertSorted(w[0], SortRunes(w[1..]));
    }
  }

  lemma {:induction false} SortRunesKeeps(w: string)
    ensures multiset(SortRunes(w)) == multiset(w)
  {
    if w != [] {
      SortRunesKeeps(w[1..]);
      InsertRunes(w[0], SortRunes(w[1..]));
      assert w == [w[0]] + w[1..];
    }
  }

  /** Two sorted strings with the same runes are equal. */
  lemma {:induction false} SortedUnique(a: string, b: string)
    requires Sorted(a) && Sorted(b) && multiset(a) == multiset(b)
    ensures a == b
    decreases |a|
  {
    SameLength(a, b);
    if a != [] {
      SameFirst(a, b);
      Tail(a);
      Tail(b);
      SortedUnique(a[1..], b[1..]);
    }
  }

  lemma SameLength(a: string, b: string)
    requires multiset(a) == multiset(b)
    ensures |a| == |b|
  {
    assert |a| == |multiset(a)|;
    assert |b| == |multiset(b)|;
  }

  /** Dropping the first rune drops one copy of it from the runes. */
  lemma Tail(s: string)
    requires s != []
    ensures multiset(s[1..]) == multiset(s) - multiset{s[0]}
    ensures Sorted(s) ==> Sorted(s[1..])
  {
    assert s == [s[0]] + s[1..];
  }

  /** Sorted strings with the same runes start with the same, smallest, rune. */
  lemma SameFirst(a: string, b: string)
    requires Sorted(a) && Sorted(b) && multiset(a) == multiset(b) && a != [] && b != []
    ensures a[0] == b[0]
  {
    assert a[0] in multiset(a);
    assert b[0] in multiset(b);
    MinOfSorted(a, b[0]);
    MinOfSorted(b, a[0]);
  }

  /** The first rune of a sorted string is its smallest. */
  lemma {:induction false} MinOfSorted(s: string, c: char)
    requires Sorted(s) && c in multiset(s)
    ensures s[0] <= c
  {
    if s[0] != c {
      assert s == [s[0]] + s[1..];
      assert c in multiset(s[1..]);
      MinOfSorted(s[1..], c);
    }
  }

  /** Sorting maps two words to the same string exactly when they are anagrams. */
  lemma SortRunesAnagram(a: string, b: string)
    ensures SortRunes(a) == SortRunes(b) <==> multiset(a) == multiset(b)
  {
    SortRunesSpec(a);
    SortRunesSpec(b);
    if multiset(a) == multiset(b) {
      SortedUnique(SortRunes(a), SortRunes(b));
    }
  }

  /** Every word with its runes sorted. */
  function SortAll(ws: seq<string>): (r: seq<string>)
    ensures |r| == |ws|
  {
    if ws == [] then [] else SortAll(ws[..|ws| - 1]) + [SortRunes(ws[|ws| - 1])]
  }

  lemma {:induction false} SortAllAt(ws: seq<string>, i: int)
    requires 0 <= i < |ws|
    ensures SortAll(ws)[i] == SortRunes(ws[i])
  {
    if i < |ws| - 1 {
      SortAllAt(ws[..|ws| - 1], i);
    }
  }

  /** The sorted words are distinct exactly when no two words are anagrams. */
  lemma DistinctSortedIff(ws: seq<string>)
    ensures Distinct(SortAll(ws)) <==> NoAnagrams(ws)
  {
    forall i, j | 0 <= i < j < |ws|
      ensures SortAll(ws)[i] == SortAll(ws)[j] <==> multiset(ws[i]) == multiset(ws[j])
    {
      SortAllAt(ws, i);
      SortAllAt(ws, j);
      SortRunesAnagram(ws[i], ws[j]);
    }
  }

  // ---------------------------------------------------------------------
  // The validity of one line

  /**
   * The inner loop of `day4a`: the words seen so far are kept in a set, and
   * the line is rejected as soon as a word is seen twice.
   */
  method NoRepeatLine(ws: seq<string>) returns (ok: bool)
    ensures ok <==> Distinct(ws)
  {
    var seen: set<string> := {};
    for i := 0 to |ws|
      invariant seen == set k | 0 <= k < i :: ws[k]
      invariant Distinct(ws[..i])
    {
      if ws[i] in seen {
        return false;
      }
      seen := seen + {ws[i]};
    }
    assert ws[..|ws|] == ws;
    return true;
  }

  /**
   * The inner loop of `day4b`: each word's runes are sorted and the sorted
   * words seen so far are kept in a set, so the line is rejected at the
   * first word whose sorted runes were seen before.
   */
  method NoAnagramLine(ws: seq<string>) returns (ok: bool)
    ensures ok <==> NoAnagrams(ws)
  {
    ghost var words := SortAll(ws);
    var seen: set<string> := {};
    for i := 0 to |ws|
      invariant seen == set k | 0 <= k < i :: words[k]
      invariant Distinct(words[..i])
    {
      var word := SortRunes(ws[i]);
      SortAllAt(ws, i);
      if word in seen {
        ok := false;
        DistinctSortedIff(ws);
        return;
      }
      seen := seen + {word};
    }
    assert words[..|ws|] == words;
    DistinctSortedIff(ws);
    return true;
  }

  /** Whether a line of words is a valid passphrase under `p`. */
  predicate ValidUnder(p: Policy, ws: seq<string>) {
    match p
    case NoRepeat => Distinct(ws)
    case NoAnagram => NoAnagrams(ws)
  }

  /** A passphrase without anagrams has no repeated word either. */
  lemma AnagramFreeIsRepeatFree(ws: seq<string>)
    requires ValidUnder(NoAnagram, ws)
    ensures ValidUnder(NoRepeat, ws)
  {
  }

  // ---------------------------------------------------------------------
  // Counting the valid lines

  /** The number of lines of `lines` that are valid under `p`. */
  function CountValid(p: Policy, lines: seq<string>): nat {
    if lines == [] then 0
    else CountValid(p, lines[..|lines| - 1]) + (if ValidUnder(p, Fields(lines[|lines| - 1])) then 1 else 0)
  }

  /** `day4a` and `day4b`: scan the lines of the input and count those valid under the policy. */
  method CountPassphrases(p: Policy, input: string) returns (numValid: nat)
    ensures numValid == CountValid(p, Lines(input))
  {
    var lines := Lines(input);
    numValid := 0;
    for l := 0 to |lines|
      invariant numValid == CountValid(p, lines[..l])
    {
      var ok;
      if p == NoRepeat {
        ok := NoRepeatLine(Fields(lines[l]));
      } else {
        ok := NoAnagramLine(Fields(lines[l]));
      }
      CountStep(p, lines, l);
      if ok {
        numValid := numValid + 1;
      }
    }
    assert lines[..|lines|] == lines;
  }

  lemma CountStep(p: Policy, lines: seq<string>, l: nat)
    requires l < |lines|
    ensures CountValid(p, lines[..l + 1]) == CountValid(p, lines[..l]) + if ValidUnder(p, Fields(lines[l])) then 1 else 0
  {
    assert lines[..l + 1][..l] == lines[..l];
  }

  /** No more lines are valid than there are lines. */
  lemma {:induction false} CountAtMostLines(p: Policy, lines: seq<string>)
    ensures CountValid(p, lines) <= |lines|
  {
    if lines != [] {
      CountAtMostLines(p, lines[..|lines| - 1]);
    }
  }

  /** Every line valid under 4b is valid under 4a, so 4b never counts more. */
  lemma {:induction false} AnagramCountAtMostRepeatCount(lines: seq<string>)
    ensures CountValid(NoAnagram, lines) <= CountValid(NoRepeat, lines)
  {
    if lines != [] {
      AnagramCountAtMostRepeatCount(lines[..|lines| - 1]);
      var ws := Fields(lines[|lines| - 1]);
      if ValidUnder(NoAnagram, ws) {
        AnagramFreeIsRepeatFree(ws);
      }
    }
  }
}
