/**
 * btregression: a 256-bit set of bytes held in four uint64 words.  Byte `b`
 * is bit `b & 63` of word `b >> 6`; for a byte these are `b % 64` and
 * `b / 64`, so the word index is always in 0..3.
 */
module BtRegression {
  import opened GoBase
  import opened GoBits

  /** The bytes the program's `init` puts in the set. */
  const Members: string := "qz:}t"

  /** The global `charSet [4]uint64`. */
  class CharSet {
    const words: array<nat>

    ghost predicate Valid()
      reads this, words
    {
      words.Length == 4 && forall i :: 0 <= i < 4 ==> words[i] < TwoTo64
    }

    /** `inCharSet(b)`. */
    predicate Contains(b: Byte)
      requires Valid()
      reads this, words
    {
      Bit(words[b / 64], b % 64)
    }

    /** The zero value of the global: no byte is a member. */
    constructor ()
      ensures Valid() && fresh(words)
      ensures forall b: Byte :: !Contains(b)
    {
      words := new nat[4](_ => 0);
      new;
      forall b: Byte
        ensures !Contains(b)
      {
        BitOfZero(b % 64);
      }
    }

    /** `charSet[b>>6] |= 1 << (b & 63)`: adds `b` and keeps every other member and non-member. */
    method Insert(b: Byte)
      requires Valid()
      modifies words
      ensures Valid()
      ensures forall c: Byte :: Contains(c) <==> old(Contains(c)) || c == b
    {
      var w := b / 64;
      Pow2Of64();
      Pow2Less(b % 64, 64);
      BitwiseBound(OrOp, words[w], Pow2(b % 64), 64);
      words[w] := Bitwise(OrOp, words[w], Pow2(b % 64));
      forall c: Byte
        ensures Contains(c) <==> old(Contains(c)) || c == b
      {
        if c / 64 == w {
          BitwiseBit(OrOp, old(words[w]), Pow2(b % 64), c % 64);
          Pow2Bit(b % 64, c % 64);
        }
      }
    }

    /** The loop of `init`: every byte of `chars` is added in turn. */
    method InsertAll(chars: string)
      requires Valid()
      requires forall i :: 0 <= i < |chars| ==> chars[i] as int < 256
      modifies words
      ensures Valid()
      ensures forall c: Byte :: Contains(c) <==> old(Contains(c)) || c as char in chars
    {
      var i := 0;
      while i < |chars|
        invariant 0 <= i <= |chars|
        invariant Valid()
        invariant forall c: Byte :: Contains(c) <==> old(Contains(c)) || c as char in chars[..i]
      {
        Insert(chars[i] as int);
        assert chars[..i + 1] == chars[..i] + [chars[i]];
        i := i + 1;
      }
      assert chars[..i] == chars;
    }
  }

  /** The package's `init`: after it, `inCharSet(b)` holds exactly for the bytes of "qz:}t". */
  method Init() returns (cs: CharSet)
    ensures cs.Valid()
    ensures forall b: Byte :: cs.Contains(b) <==> b as char in Members
  {
    cs := new CharSet();
    cs.InsertAll(Members);
  }

  /** No byte of "yellow submarine" is in the initialised set. */
  lemma YellowSubmarineNotInSet(cs: CharSet, j: nat)
    requires cs.Valid()
    requires forall b: Byte :: cs.Contains(b) <==> b as char in Members
    requires j < |"yellow submarine"|
    ensures !cs.Contains("yellow submarine"[j] as int)
  {
  }
}
