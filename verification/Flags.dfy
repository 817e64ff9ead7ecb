/** `GenericFlags`: a 32-bit word of flags, composed from a list and decomposed into its bits. */
module Flags {
  import opened Sorting

  type Word = bv32

  // ---------- the specification ----------

  predicate SingleBit(f: Word) { f != 0 && f & (f - 1) == 0 }

  /** Flag `f` is set in `value`. */
  predicate Has(value: Word, f: Word) { SingleBit(f) && value & f != 0 }

  predicate Below(x: Word, y: Word) { x < y }

  ghost predicate Increasing(list: seq<Word>) { Sorted(Below, list) }

  /** The canonical list of a word: its bits, each once, smallest first. */
  ghost predicate BitsOf(list: seq<Word>, value: Word) {
    Increasing(list) && forall f :: f in list <==> Has(value, f)
  }

  function OrAll(list: seq<Word>): Word {
    if list == [] then 0 else OrAll(list[..|list| - 1]) | list[|list| - 1]
  }

  // ---------- the code ----------

  /** `GenericFlags(initializer_list)` */
  method Compose(list: seq<Word>) returns (value: Word)
    ensures value == OrAll(list)
  {
    value := 0;
    var i := 0;
    while i < |list|
      invariant 0 <= i <= |list| && value == OrAll(list[..i])
    {
      value := value | list[i];
      assert list[..i + 1][..i] == list[..i];
      i := i + 1;
    }
    assert list[..i] == list;
  }

  /** `operator vector<unsigned int>`.  `DecompositionEndsIff` shows the precondition to be exactly
      when the loop ends. */
  method Decompose(value: Word) returns (result: seq<Word>)
    requires value < 0x8000_0000
    ensures BitsOf(result, value)
  {
    result := [];
    var f: Word := 1;
    while f <= value
      invariant SingleBit(f)
      invariant BitsBefore(result, value, f)
      decreases 0x8000_0000 - f
    {
      NextBit(f, f);
      BitsUpTo(value, result, f);
      if value & f != 0 {
        result := result + [f];
      }
      f := f << 1;
    }
    forall g
      ensures Has(value, g) ==> g < f
    {
      BitIsBelow(value, g);
    }
  }

  ghost predicate BitsBefore(result: seq<Word>, value: Word, f: Word) {
    Increasing(result) && forall g :: g in result <==> Has(value, g) && g < f
  }

  lemma BitsUpTo(value: Word, result: seq<Word>, f: Word)
    requires SingleBit(f) && f < 0x8000_0000 && BitsBefore(result, value, f)
    ensures BitsBefore(if value & f != 0 then result + [f] else result, value, f << 1)
  {
    var longer := if value & f != 0 then result + [f] else result;
    forall g
      ensures g in longer <==> Has(value, g) && g < f << 1
    {
      NextBit(f, g);
      assert g in longer <==> g in result || (value & f != 0 && g == f);
    }
    if value & f != 0 {
      SortedAppend(Below, result, f);
    }
  }

  lemma NextBit(f: Word, g: Word)
    requires SingleBit(f) && f < 0x8000_0000
    ensures SingleBit(f << 1) && f < f << 1
    ensures SingleBit(g) ==> (g < f << 1 <==> g < f || g == f)
  {
  }

  lemma BitIsBelow(value: Word, g: Word)
    ensures Has(value, g) ==> g <= value
  {
  }

  // ---------- when the loop ends ----------

  datatype LoopState = LoopState(f: Word, result: seq<Word>)

  /** The loop variables after `n` rounds, whether or not the guard let them happen.  Shifting the top
      bit out leaves 0. */
  function Rounds(value: Word, n: nat): LoopState {
    if n == 0 then LoopState(1, [])
    else
      var s := Rounds(value, n - 1);
      LoopState(s.f << 1, if value & s.f != 0 then s.result + [s.f] else s.result)
  }

  ghost predicate Ends(value: Word) {
    exists n :: Rounds(value, n).f > value
  }

  lemma {:induction false} BitOrZero(value: Word, n: nat)
    ensures Rounds(value, n).f == 0 || SingleBit(Rounds(value, n).f)
  {
    if 0 < n {
      BitOrZero(value, n - 1);
    }
  }

  lemma {:induction false} ReachesTheEnd(value: Word, n: nat)
    requires value < 0x8000_0000 && SingleBit(Rounds(value, n).f)
    ensures Ends(value)
    decreases 0xFFFF_FFFF - Rounds(value, n).f
  {
    var f := Rounds(value, n).f;
    if f <= value {
      assert Rounds(value, n + 1).f == f << 1;
      NextBit(f, f);
      ReachesTheEnd(value, n + 1);
    }
  }

  lemma AtMostTopBit(value: Word, f: Word)
    requires 0x8000_0000 <= value && (f == 0 || SingleBit(f))
    ensures f <= value
  {
  }

  /** The loop ends exactly for words without the top bit.  With it, the bit shifted past the top
      becomes 0, which is never above the value. */
  lemma DecompositionEndsIff(value: Word)
    ensures Ends(value) <==> value < 0x8000_0000
  {
    if value < 0x8000_0000 {
      assert Rounds(value, 0).f == 1;
      ReachesTheEnd(value, 0);
    } else {
      forall n: nat
        ensures Rounds(value, n).f <= value
      {
        BitOrZero(value, n);
        AtMostTopBit(value, Rounds(value, n).f);
      }
    }
  }

  // ---------- the algebra ----------

  /** A flag is set in the union exactly when it is set in some member. */
  lemma {:induction false} OrAllHas(list: seq<Word>, f: Word)
    ensures Has(OrAll(list), f) <==> exists i :: 0 <= i < |list| && Has(list[i], f)
  {
    if list != [] {
      var n := |list| - 1;
      OrAllHas(list[..n], f);
      HasOr(OrAll(list[..n]), list[n], f);
      if Has(OrAll(list[..n]), f) {
        var i :| 0 <= i < n && Has(list[..n][i], f);
        assert Has(list[i], f);
      }
      if i :| 0 <= i < |list| && Has(list[i], f) {
        assert i < n ==> Has(list[..n][i], f);
      }
    }
  }

  lemma HasOr(a: Word, b: Word, f: Word)
    ensures Has(a | b, f) <==> Has(a, f) || Has(b, f)
  {
  }

  lemma DifferentBit(a: Word, b: Word) returns (f: Word)
    requires a != b
    ensures Has(a, f) != Has(b, f)
  {
    var x := a ^ b;
    f := x & (0 - x);
    LowestBit(x);
    BitOfXor(a, b, f);
  }

  lemma LowestBit(x: Word)
    requires x != 0
    ensures SingleBit(x & (0 - x)) && x & (x & (0 - x)) != 0
  {
  }

  lemma BitOfXor(a: Word, b: Word, f: Word)
    requires SingleBit(f) && (a ^ b) & f != 0
    ensures (a & f != 0) != (b & f != 0)
  {
  }

  /** Words with the same flags are the same word. */
  lemma SameBitsSameWord(a: Word, b: Word)
    requires forall f :: Has(a, f) <==> Has(b, f)
    ensures a == b
  {
    if a != b {
      var f := DifferentBit(a, b);
    }
  }

  /** A canonical list names one word, and composing it gives that word back. */
  lemma ComposeDecomposed(list: seq<Word>, value: Word)
    requires BitsOf(list, value)
    ensures OrAll(list) == value
  {
    forall f
      ensures Has(OrAll(list), f) <==> Has(value, f)
    {
      OrAllHas(list, f);
      if i :| 0 <= i < |list| && Has(list[i], f) {
        assert list[i] in list;
        SharedBit(list[i], f);
      }
      if Has(value, f) {
        var i :| 0 <= i < |list| && list[i] == f;
        HasItself(f);
      }
    }
    SameBitsSameWord(OrAll(list), value);
  }

  lemma SharedBit(a: Word, f: Word)
    requires SingleBit(a) && Has(a, f)
    ensures a == f
  {
  }

  lemma HasItself(f: Word)
    requires SingleBit(f)
    ensures Has(f, f)
  {
  }

  /** There is only one canonical list. */
  lemma CanonicalIsUnique(a: seq<Word>, b: seq<Word>, value: Word)
    requires BitsOf(a, value) && BitsOf(b, value)
    ensures a == b
  {
    BelowIsStrict();
    forall f
      ensures f in a <==> f in b
    {
      assert f in a <==> Has(value, f);
    }
    SortedIsUnique(Below, a, b);
  }

  lemma BelowIsStrict()
    ensures StrictOrder(Below)
  {
  }

  /** The union depends only on which words occur, so order, repetition and grouping do not matter. */
  lemma UnionOfSameWords(a: seq<Word>, b: seq<Word>)
    requires forall w :: w in a <==> w in b
    ensures OrAll(a) == OrAll(b)
  {
    forall f
      ensures Has(OrAll(a), f) <==> Has(OrAll(b), f)
    {
      OrAllHas(a, f);
      OrAllHas(b, f);
      if i :| 0 <= i < |a| && Has(a[i], f) {
        assert a[i] in b;
      }
      if i :| 0 <= i < |b| && Has(b[i], f) {
        assert b[i] in a;
      }
    }
    SameBitsSameWord(OrAll(a), OrAll(b));
  }

  lemma {:induction false} UnionOfGroups(a: seq<Word>, b: seq<Word>)
    ensures OrAll(a + b) == OrAll(a) | OrAll(b)
  {
    var n := |b| - 1;
    if b == [] {
      assert a + b == a;
      OrZero(OrAll(a));
    } else {
      UnionOfGroups(a, b[..n]);
      assert (a + b)[..|a + b| - 1] == a + b[..n];
      OrAssociative(OrAll(a), OrAll(b[..n]), b[n]);
    }
  }

  lemma OrZero(x: Word)
    ensures x | 0 == x
  {
  }

  lemma OrAssociative(x: Word, y: Word, z: Word)
    ensures (x | y) | z == x | (y | z)
  {
  }

  /** Composing any list and decomposing the result gives the bits occurring anywhere in it, sorted and
      without repetition; composing those again changes nothing. */
  method Normalize(list: seq<Word>) returns (bits: seq<Word>, value: Word)
    requires OrAll(list) < 0x8000_0000
    ensures Increasing(bits)
    ensures forall f :: f in bits <==> exists i :: 0 <= i < |list| && Has(list[i], f)
    ensures value == OrAll(list) == OrAll(bits)
  {
    value := Compose(list);
    bits := Decompose(value);
    forall f
      ensures f in bits <==> exists i :: 0 <= i < |list| && Has(list[i], f)
    {
      OrAllHas(list, f);
    }
    ComposeDecomposed(bits, value);
  }
}
