/** Predicate tables: the generator's stage 2 packed into 64-bit words, and the shift-and-mask
    lookup the emitted code runs on them. */
module UnicodeTable {
  import opened Wrappers
  import opened Bits
  import opened UnicodeGenerator

  /** Bit p%64 of word p/64 is entry p; the padding of the last word is clear. */
  ghost predicate Packed(bits: seq<nat>, words: seq<nat>) {
    && |words| == (|bits| + 63) / 64
    && (forall w :: 0 <= w < |words| ==> words[w] < Pow2(64))
    && forall w: nat, k: nat :: w < |words| && k < 64 ==>
         (Bit(words[w], k) <==> 64 * w + k < |bits| && bits[64 * w + k] != 0)
  }

  /** Packs `bits[i..i+64]`, or what there is of it, into one word. */
  method PackWord(bits: seq<nat>, i: nat) returns (value: nat)
    requires i < |bits|
    ensures value < Pow2(64)
    ensures forall k: nat :: k < 64 ==> (Bit(value, k) <==> i + k < |bits| && bits[i + k] != 0)
  {
    hide Or, Shl, Bit, Pow2;
    value := 0;
    var j := 0;
    Pow2Monotone(0, 0);
    ClearWord();
    while j < 64 && i + j < |bits|
      invariant j <= 64 && i + j <= |bits|
      invariant value < Pow2(j)
      invariant forall k: nat :: Bit(value, k) <==> k < j && bits[i + k] != 0
    {
      SetBit(value, j);
      Pow2Monotone(j, j + 1);
      if bits[i + j] != 0 {
        value := Or(value, Shl(1, j));
      }
      j := j + 1;
    }
    Pow2Monotone(j, 64);
  }

  lemma ClearWord()
    ensures 0 < Pow2(0)
    ensures forall k: nat :: !Bit(0, k)
  {
    forall k: nat
      ensures !Bit(0, k)
    {
      ZeroBit(k);
    }
  }

  lemma SetBit(value: nat, j: nat)
    requires value < Pow2(j)
    ensures Or(value, Shl(1, j)) < Pow2(j + 1)
    ensures forall k: nat :: Bit(Or(value, Shl(1, j)), k) <==> Bit(value, k) || k == j
  {
    hide Or, Shl, Bit;
    OrDisjoint(value, 1, j);
    ShlOne(j);
    forall k: nat
      ensures Bit(Or(value, Shl(1, j)), k) <==> Bit(value, k) || k == j
    {
      OrBit(value, Shl(1, j), k);
      Pow2Bit(j, k);
    }
  }

  method BitsToU64Array(bits: seq<nat>) returns (result: seq<nat>)
    ensures Packed(bits, result)
  {
    hide Bit, Pow2;
    result := [];
    var i := 0;
    while i < |bits|
      invariant i == 64 * |result| && |result| <= (|bits| + 63) / 64
      invariant forall w :: 0 <= w < |result| ==> result[w] < Pow2(64)
      invariant forall w: nat, k: nat :: w < |result| && k < 64 ==>
        (Bit(result[w], k) <==> 64 * w + k < |bits| && bits[64 * w + k] != 0)
    {
      var value := PackWord(bits, i);
      result := result + [value];
      i := i + 64;
    }
  }

  /** Every stage-1 entry leaves room for a whole block in the packed words. */
  ghost predicate InBounds(stage1: seq<nat>, words: seq<nat>) {
    && |stage1| == BLOCKS
    && forall h :: 0 <= h < BLOCKS ==> stage1[h] <= 0xffff && stage1[h] + 256 <= 64 * |words|
  }

  /** The emitted function on a 21-bit code point. */
  function EmittedLookup(stage1: seq<nat>, words: seq<nat>, cp: nat): bool
    requires InBounds(stage1, words) && cp < 0x20_0000
  {
    if cp > 0x10_FFFF then false
    else
      HighLow(cp);
      var stage2Idx := stage1[Shr(cp, 8)];
      var bitPos := stage2Idx + And(cp, 0xFF);
      WordBit(bitPos);
      And(words[Shr(bitPos, 6)], Shl(1, And(bitPos, 63))) != 0
  }

  lemma HighLow(cp: nat)
    ensures Shr(cp, 8) == cp / 256 && And(cp, 0xFF) == cp % 256
  {
    hide *;
    Pow2Values();
    AndMask(cp, 8);
    Width8(cp);
  }

  lemma WordBit(bitPos: nat)
    ensures Shr(bitPos, 6) == bitPos / 64 && And(bitPos, 63) == bitPos % 64
  {
    hide *;
    Pow2Values();
    AndMask(bitPos, 6);
    Width6(bitPos);
  }

  /** Reading a packed table back through shifts and masks gives the two-stage lookup. */
  lemma EmittedReadsStage2(stage1: seq<nat>, stage2: seq<nat>, words: seq<nat>, cp: nat)
    requires InBounds(stage1, words) && Packed(stage2, words) && cp < CODE_POINTS
    requires stage1[cp / 256] + 256 <= |stage2|
    ensures EmittedLookup(stage1, words, cp) <==> stage2[stage1[cp / 256] + cp % 256] != 0
  {
    hide And, Shl, Shr, Bit;
    var bitPos := stage1[cp / 256] + cp % 256;
    var w, k := bitPos / 64, bitPos % 64;
    HighLow(cp);
    WordBit(bitPos);
    ShlOne(k);
    AndSingle(words[w], k);
  }

  /** A predicate has at most two elements: its value at 0 first, then the other. */
  lemma {:induction false} PredicateElements(check: nat -> bool, n: nat)
    requires n >= 1
    ensures var items := Elements(check, Same, n);
      items == [check(0)] || items == [check(0), !check(0)]
  {
    if n > 1 {
      PredicateElements(check, n - 1);
      var items := Elements(check, Same, n - 1);
      assert FindIndex(items, Same, check(n - 1)) == 0 <==> check(n - 1) == check(0);
    } else {
      assert Elements(check, Same, 0) == [];
    }
  }

  function Same(a: bool, b: bool): bool {
    a == b
  }

  /** A code point's stage-3 index says whether the predicate differs from its value at 0. */
  lemma PredicateCode(check: nat -> bool, cp: nat)
    ensures Code(check, Same, cp) == if check(cp) == check(0) then 0 else 1
  {
    PredicateElements(check, cp + 1);
    CodeFinds(check, Same, cp, cp + 1);
    var items, k := Elements(check, Same, cp + 1), Code(check, Same, cp);
    assert items[0] == check(0);
    if k > 0 {
      assert !Same(items[0], check(cp));
    }
  }

  /** Generates and packs the tables of a predicate. The lookup tells where the predicate differs
      from its value at 0, so it is the predicate exactly when that value is false. Generation
      throws exactly when there are more than 256 different blocks. */
  method GenerateTable<H(==,!new)>(check: nat -> bool, hash: seq<nat> -> H)
    returns (r: Result<(seq<nat>, seq<nat>), GenerateError>)
    requires CollisionFree(hash)
    ensures r.Ok? <==> |NewBlocks(check, Same, BLOCKS, iset{})| <= 256
    ensures r.Ok? ==> InBounds(r.value.0, r.value.1)
    ensures r.Ok? ==> forall cp: nat :: cp < 0x20_0000 ==>
      EmittedLookup(r.value.0, r.value.1, cp) == (cp <= 0x10_FFFF && check(cp) != check(0))
    ensures r.Ok? ==>
      ((forall cp: nat :: cp <= 0x10_FFFF ==> EmittedLookup(r.value.0, r.value.1, cp) == check(cp)) <==> !check(0))
  {
    hide NewBlocks, Elements, EmittedLookup, Filed;
    PredicateElements(check, CODE_POINTS);
    var generator := new Generator(check, Same, hash);
    var tables :- generator.Generate();
    var words := BitsToU64Array(tables.stage2);
    ghost var known := generator.blockMap;
    TablesInBounds(check, hash, tables.stage1, tables.stage2, words, known);
    forall cp: nat | cp < 0x20_0000
      ensures EmittedLookup(tables.stage1, words, cp) == (cp <= 0x10_FFFF && check(cp) != check(0))
    {
      if cp <= 0x10_FFFF {
        FiledCodes(check, Same, hash, BLOCKS, tables.stage1, tables.stage2, known, cp);
        EmittedReadsStage2(tables.stage1, tables.stage2, words, cp);
        PredicateCode(check, cp);
      } else {
        OutOfRange(tables.stage1, words, cp);
      }
    }
    assert EmittedLookup(tables.stage1, words, 0) == false;
    return Ok((tables.stage1, words));
  }

  lemma OutOfRange(stage1: seq<nat>, words: seq<nat>, cp: nat)
    requires InBounds(stage1, words) && 0x10_FFFF < cp < 0x20_0000
    ensures !EmittedLookup(stage1, words, cp)
  {
  }

  lemma TablesInBounds<H(!new)>(
    check: nat -> bool, hash: seq<nat> -> H, stage1: seq<nat>, stage2: seq<nat>, words: seq<nat>, now: map<H, nat>)
    requires CollisionFree(hash) && Filed(check, Same, hash, BLOCKS, stage1, stage2, now, map[])
    requires Packed(stage2, words) && |Elements(check, Same, CODE_POINTS)| <= 0x1_0000
    ensures InBounds(stage1, words)
  {
    hide Filed, Packed, Elements;
    assert |stage1| == BLOCKS by {
      FiledLength(check, Same, hash, BLOCKS, stage1, stage2, now);
    }
    forall h | 0 <= h < BLOCKS
      ensures stage1[h] <= 0xffff && stage1[h] + 256 <= |stage2|
    {
      FiledCodes(check, Same, hash, BLOCKS, stage1, stage2, now, 256 * h);
    }
    PackedLength(stage2, words);
  }

  lemma PackedLength(bits: seq<nat>, words: seq<nat>)
    requires Packed(bits, words)
    ensures |bits| <= 64 * |words|
  {
  }
}
