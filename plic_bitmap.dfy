/**
 * Bit-group arithmetic of the PLIC enable and pending bitmaps.
 *
 * A 32-bit bitmap register is represented exactly by the set of the
 * positions (0 .. 31) of its one bits: `w |= m` is `w + m`, `w &= ~m` is
 * `w - m` and `(w & m) != 0` is `w * m != {}`.
 *
 * A bitmap over interrupt sources is a run of such words: source `index` is
 * bit `index % 32` of word `index / 32`.  The PLIC enable region is one flat
 * run of words in which each hart context owns a block of `WordsPerBlock`
 * words; a block is named by the offset of its first word (the `plic_m_ie`
 * pointer of a processor).
 */
module PlicBitmap {

  /** A 32-bit register, as the set of the positions of its one bits. */
  type Word = set<nat>

  /** A register word with every bit zero. */
  const Zero: Word := {}

  /** 32 words of 32 bits: the 1024 sources a PLIC context can enable. */
  const WordsPerBlock: nat := 32
  const MaxSources: nat := 1024

  /** The word holding a source's bit: `interrupt_index / 32`. */
  function Group(index: nat): nat
  {
    index / 32
  }

  /** The mask of a source within its word: `UINT32_C(1) << (interrupt_index % 32)`. */
  function Bit(index: nat): (m: Word)
    ensures m == {index % 32} && index % 32 < 32
  {
    {index % 32}
  }

  /** Is the bit of source `index` set in the block starting at word `base`? */
  predicate IsSet(words: seq<Word>, base: nat, index: nat)
    requires base + Group(index) < |words|
  {
    words[base + Group(index)] * Bit(index) != {}
  }

  /** Word j holds the bit of source `index` in one of the blocks `bases`. */
  predicate Targeted(bases: set<nat>, index: nat, j: nat)
  {
    j >= Group(index) && j - Group(index) in bases
  }

  /** `enable[group] |= bit` applied to every block in `bases`. */
  function SetSource(words: seq<Word>, bases: set<nat>, index: nat): (r: seq<Word>)
    ensures |r| == |words|
  {
    seq(|words|, j requires 0 <= j < |words| =>
      if Targeted(bases, index, j) then words[j] + Bit(index) else words[j])
  }

  /** `enable[group] &= ~bit` applied to every block in `bases`. */
  function ClearSource(words: seq<Word>, bases: set<nat>, index: nat): (r: seq<Word>)
    ensures |r| == |words|
  {
    seq(|words|, j requires 0 <= j < |words| =>
      if Targeted(bases, index, j) then words[j] - Bit(index) else words[j])
  }

  /** Two sources share a bit of a word iff they are equal modulo 32. */
  lemma BitsDistinct(a: nat, b: nat)
    ensures (Bit(a) * Bit(b) != {}) <==> a % 32 == b % 32
  {
    if a % 32 == b % 32 {
      assert a % 32 in Bit(a) * Bit(b);
    }
  }

  /** Distinct sources below 1024 in aligned blocks never share a word and bit. */
  lemma SameWordAndBit(b: nat, i: nat, b': nat, i': nat)
    requires b % WordsPerBlock == 0 && b' % WordsPerBlock == 0
    requires i < MaxSources && i' < MaxSources
    requires b + Group(i) == b' + Group(i')
    ensures (Bit(i) * Bit(i') != {}) <==> (b == b' && i == i')
  {
    BitsDistinct(i, i');
  }

  /**
   * Setting source `index` in the blocks `bases` sets exactly that source in
   * exactly those blocks: every other (block, source) bit keeps its value.
   */
  lemma SetSourceEffect(words: seq<Word>, bases: set<nat>, index: nat, b: nat, i: nat)
    requires index < MaxSources && i < MaxSources
    requires forall x | x in bases :: x % WordsPerBlock == 0
    requires b % WordsPerBlock == 0 && b + Group(i) < |words|
    ensures IsSet(SetSource(words, bases, index), b, i) <==>
              (b in bases && i == index) || IsSet(words, b, i)
  {
    var j := b + Group(i);
    if Targeted(bases, index, j) {
      SameWordAndBit(j - Group(index), index, b, i);
      if b in bases && i == index {
        assert index % 32 in SetSource(words, bases, index)[j] * Bit(i);
      }
    }
  }

  /**
   * Clearing source `index` in the blocks `bases` clears exactly that source
   * in exactly those blocks: every other (block, source) bit keeps its value.
   */
  lemma ClearSourceEffect(words: seq<Word>, bases: set<nat>, index: nat, b: nat, i: nat)
    requires index < MaxSources && i < MaxSources
    requires forall x | x in bases :: x % WordsPerBlock == 0
    requires b % WordsPerBlock == 0 && b + Group(i) < |words|
    ensures IsSet(ClearSource(words, bases, index), b, i) <==>
              !(b in bases && i == index) && IsSet(words, b, i)
  {
    var j := b + Group(i);
    if Targeted(bases, index, j) {
      SameWordAndBit(j - Group(index), index, b, i);
      if !(b in bases && i == index) && IsSet(words, b, i) {
        assert i % 32 in ClearSource(words, bases, index)[j] * Bit(i);
      }
    }
  }

  /** Adding bits that are all clear and then clearing them leaves the word as it was. */
  lemma DisjointUnionMinus(w: Word, m: Word)
    requires w * m == {}
    ensures (w + m) - m == w
  {
    forall x
      ensures x in (w + m) - m <==> x in w
    {
      assert x in w * m <==> x in w && x in m;
    }
  }

  /** Clearing a bit that is set and then setting it again leaves the word as it was. */
  lemma SingletonMinusUnion(w: Word, x: nat)
    requires w * {x} != {}
    ensures (w - {x}) + {x} == w
  {
  }

  /** Clearing after setting restores the words if the source was clear in every target block. */
  lemma ClearAfterSet(words: seq<Word>, bases: set<nat>, index: nat)
    requires forall b | b in bases :: b + Group(index) < |words| && !IsSet(words, b, index)
    ensures ClearSource(SetSource(words, bases, index), bases, index) == words
  {
    var r := ClearSource(SetSource(words, bases, index), bases, index);
    forall j | 0 <= j < |words|
      ensures r[j] == words[j]
    {
      if Targeted(bases, index, j) {
        var b := j - Group(index);
        assert b + Group(index) == j && !IsSet(words, b, index);
        assert words[j] * Bit(index) == {};
        DisjointUnionMinus(words[j], Bit(index));
      }
    }
  }

  /** Setting after clearing restores the words if the source was set in every target block. */
  lemma SetAfterClear(words: seq<Word>, bases: set<nat>, index: nat)
    requires forall b | b in bases :: b + Group(index) < |words| && IsSet(words, b, index)
    ensures SetSource(ClearSource(words, bases, index), bases, index) == words
  {
    var r := SetSource(ClearSource(words, bases, index), bases, index);
    forall j | 0 <= j < |words|
      ensures r[j] == words[j]
    {
      if Targeted(bases, index, j) {
        var b := j - Group(index);
        assert b + Group(index) == j && IsSet(words, b, index);
        assert words[j] * Bit(index) != {};
        SingletonMinusUnion(words[j], index % 32);
      }
    }
  }

  /** Adding one more block to the targets is one more `|=` on that block's word. */
  lemma SetSourceAddBlock(words: seq<Word>, bases: set<nat>, index: nat, b: nat)
    requires b + Group(index) < |words|
    ensures SetSource(words, bases + {b}, index) ==
              SetSource(words, bases, index)[b + Group(index) := SetSource(words, bases, index)[b + Group(index)] + Bit(index)]
  {
    var g := b + Group(index);
    var before := SetSource(words, bases, index);
    var after := SetSource(words, bases + {b}, index);
    var updated := before[g := before[g] + Bit(index)];
    forall j | 0 <= j < |words|
      ensures after[j] == updated[j]
    {
    }
    assert after == updated;
  }

  /** Adding one more block to the targets is one more `&= ~bit` on that block's word. */
  lemma ClearSourceAddBlock(words: seq<Word>, bases: set<nat>, index: nat, b: nat)
    requires b + Group(index) < |words|
    ensures ClearSource(words, bases + {b}, index) ==
              ClearSource(words, bases, index)[b + Group(index) := ClearSource(words, bases, index)[b + Group(index)] - Bit(index)]
  {
    var g := b + Group(index);
    var before := ClearSource(words, bases, index);
    var after := ClearSource(words, bases + {b}, index);
    var updated := before[g := before[g] - Bit(index)];
    forall j | 0 <= j < |words|
      ensures after[j] == updated[j]
    {
    }
    assert after == updated;
  }

  /** No target blocks, no change. */
  lemma NoBlocks(words: seq<Word>, index: nat)
    ensures SetSource(words, {}, index) == words && ClearSource(words, {}, index) == words
  {
  }
}
