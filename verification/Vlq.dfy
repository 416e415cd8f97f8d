/** The Base64 VLQ numbers of the source-map `mappings` string ("Base64 VLQ" section of
    ECMA-426): the decoder as the program computes it, in 32-bit words, and the encoder
    the format defines. */
module Vlq {
  import opened Wrappers
  import opened Bits

  /** What `charCodeAt` returns. */
  type CodeUnit = c: int | 0 <= c < 0x1_0000
  type Text = seq<CodeUnit>

  const SEMICOLON: CodeUnit := 59
  const COMMA: CodeUnit := 44
  const INVALID := 0xff
  const UPPER_CASE := "ABCDEFGHIJKLM" + "NOPQRSTUVWXYZ"
  const LOWER_CASE := "abcdefghijklm" + "nopqrstuvwxyz"
  const VLQ_CHARS := UPPER_CASE + LOWER_CASE + "0123456789+/"

  datatype Reason =
    | ExpectedExtraData
    | InvalidCharacter
    | InvalidGeneratedColumn
    | InvalidOriginalSource
    | InvalidOriginalLine
    | InvalidOriginalColumn
    | InvalidOriginalName
    | InvalidCharacterAfterMapping

  datatype DecodeError = DecodeError(index: nat, reason: Reason)

  /** The code unit of a base-64 digit. */
  function DigitChar(d: nat): (c: CodeUnit)
    requires d < 64
  {
    if d < 26 then 65 + d
    else if d < 52 then 97 + (d - 26)
    else if d < 62 then 48 + (d - 52)
    else if d == 62 then 43
    else 47
  }

  /** What the lookup table holds for an ASCII code. */
  function Digit(c: int): (d: nat)
    ensures d < 64 || d == INVALID
  {
    if 65 <= c <= 90 then c - 65
    else if 97 <= c <= 122 then c - 97 + 26
    else if 48 <= c <= 57 then c - 48 + 52
    else if c == 43 then 62
    else if c == 47 then 63
    else INVALID
  }

  lemma DigitOfDigitChar(d: nat)
    requires d < 64
    ensures Digit(DigitChar(d)) == d
    ensures DigitChar(d) < 128 && DigitChar(d) != SEMICOLON && DigitChar(d) != COMMA
  {
  }

  lemma VlqCharsAreDigits(d: nat)
    requires d < 64
    ensures |VLQ_CHARS| == 64 && VLQ_CHARS[d] as int == DigitChar(d)
  {
    if d < 26 {
      assert VLQ_CHARS[d] == UPPER_CASE[d];
    } else if d < 52 {
      assert VLQ_CHARS[d] == LOWER_CASE[d - 26];
    } else {
      assert VLQ_CHARS[d] == "0123456789+/"[d - 52];
    }
  }

  /** No other character is a digit. */
  lemma OnlyVlqChars(c: CodeUnit)
    ensures Digit(c) == INVALID <==> forall d: nat :: d < 64 ==> |VLQ_CHARS| == 64 && VLQ_CHARS[d] as int != c
  {
    forall d: nat | d < 64
      ensures |VLQ_CHARS| == 64 && VLQ_CHARS[d] as int == DigitChar(d) && Digit(DigitChar(d)) == d
    {
      VlqCharsAreDigits(d);
      DigitOfDigitChar(d);
    }
    assert Digit(c) < 64 ==> DigitChar(Digit(c)) == c;
  }

  /** The lookup table, filled with 0xff and then with each digit at its character's code. */
  method BuildVlqTable() returns (table: array<int>)
    ensures fresh(table) && table.Length == 128
    ensures forall c :: 0 <= c < 128 ==> table[c] == Digit(c)
  {
    VlqCharsAreDigits(0);
    table := new int[128](_ => INVALID);
    for i := 0 to |VLQ_CHARS|
      invariant forall c :: 0 <= c < 128 ==> table[c] == if Digit(c) < i then Digit(c) else INVALID
    {
      VlqCharsAreDigits(i);
      DigitOfDigitChar(i);
      table[VLQ_CHARS[i] as int] := i;
    }
  }

  /** `word |= (index & 31) << shift` on an unsigned view of the 32-bit word; JavaScript takes
      the shift count modulo 32. */
  function Accumulate(word: nat, index: nat, shift: nat): nat {
    Or(word, Shl(And(index, 31), shift % 32) % TWO_32)
  }

  /** The signed value of a finished word: bit 0 is the sign, `>>` keeps the word's own sign. */
  function SignedValue(word: nat): int {
    var half := ToInt32(word) / 2;
    if And(word, 1) != 0 then -half else half
  }

  /** Bit 0 of a word is the sign of the 31-bit value above it, which counts as negative from 2^30 on. */
  lemma SignedWord(word: nat)
    requires word < TWO_32
    ensures var value := if word < TWO_31 then word / 2 else word / 2 - TWO_31;
      SignedValue(word) == if word % 2 == 1 then -value else value
  {
    SignBit(word);
  }

  /** Decoding from index `i` on: the value and the index just past it. */
  function DecodeFrom(text: Text, i: nat, shift: nat, word: nat): (r: Result<(int, nat), DecodeError>)
    ensures r.Ok? ==> i < r.value.1 <= |text|
    decreases |text| - i
  {
    if i >= |text| then Err(DecodeError(i, ExpectedExtraData))
    else if And(text[i], 0x7f) != text[i] then Err(DecodeError(i, InvalidCharacter))
    else
      var index := Digit(And(text[i], 0x7f));
      if index == INVALID then Err(DecodeError(i, InvalidCharacter))
      else
        var next := Accumulate(word, index, shift);
        if And(index, 32) == 0 then Ok((SignedValue(next), i + 1))
        else DecodeFrom(text, i + 1, shift + 5, next)
  }

  function Decode(text: Text, i: nat): (r: Result<(int, nat), DecodeError>)
    ensures r.Ok? ==> i < r.value.1 <= |text|
  {
    DecodeFrom(text, i, 0, 0)
  }

  // ----- The format's encoder -----

  function Magnitude(v: int): nat {
    if v < 0 then -2 * v + 1 else 2 * v
  }

  function EncodeWord(word: nat): (s: Text)
    ensures |s| >= 1
    ensures word >= 32 ==> |s| >= 2
    ensures forall k :: 0 <= k < |s| ==> s[k] != SEMICOLON && s[k] != COMMA
  {
    if word < 32 then [DigitChar(word)] else [DigitChar(32 + word % 32)] + EncodeWord(word / 32)
  }

  function Encode(v: int): (s: Text)
    ensures |s| >= 1
    ensures forall k :: 0 <= k < |s| ==> s[k] != SEMICOLON && s[k] != COMMA
  {
    EncodeWord(Magnitude(v))
  }

  /** `s` stands in `text` at index `i`. */
  predicate At(text: Text, i: nat, s: Text) {
    i + |s| <= |text| && text[i..i + |s|] == s
  }

  lemma AtConcat(text: Text, i: nat, a: Text, b: Text)
    ensures At(text, i, a + b) <==> At(text, i, a) && At(text, i + |a|, b)
  {
    if At(text, i, a + b) {
      assert text[i..i + |a|] == text[i..i + |a + b|][..|a|] == a;
      assert text[i + |a|..i + |a| + |b|] == text[i..i + |a + b|][|a|..] == b;
    }
    if At(text, i, a) && At(text, i + |a|, b) {
      assert text[i..i + |a + b|] == text[i..i + |a|] + text[i + |a|..i + |a| + |b|];
    }
  }

  /** Masks of a digit: the low five bits and the continuation bit. */
  lemma DigitMasks(index: nat)
    requires index < 64
    ensures And(index, 31) == index % 32
    ensures And(index, 32) == 0 <==> index < 32
  {
    hide *;
    Pow2Values();
    AndMask(index, 5);
    Width5(index);
    AndSingle(index, 5);
    FifthBit(index);
  }

  lemma FifthBit(index: nat)
    requires index < 64
    ensures Bit(index, 5) <==> index >= 32
  {
    assert Bit(index, 5) == Bit(index / 2 / 2, 3) == Bit(index / 2 / 2 / 2 / 2, 1);
  }

  lemma CharMask(c: CodeUnit)
    ensures And(c, 0x7f) == c % 128
  {
    hide *;
    Pow2Values();
    AndMask(c, 7);
    Width7(c);
  }

  lemma SignBit(word: nat)
    ensures And(word, 1) == word % 2
  {
    hide *;
    Pow2Values();
    AndMask(word, 1);
    Width1(word);
  }

  // ----- Or/shift accumulation is base-32 positional value -----

  /** The positional value of little-endian base-32 digits. */
  function Positional(digits: seq<nat>): nat {
    if digits == [] then 0 else digits[0] + 32 * Positional(digits[1..])
  }

  /** The word the decoder's loop builds from the digits it reads. */
  function Word(digits: seq<nat>, shift: nat, word: nat): nat {
    if digits == [] then word
    else Word(digits[1..], shift + 5, Accumulate(word, digits[0], shift))
  }

  ghost predicate Base32(digits: seq<nat>) {
    forall k :: 0 <= k < |digits| ==> digits[k] < 32
  }

  /** The digits' value, added in at `shift`. */
  lemma {:induction false} WordIsPositional(digits: seq<nat>, shift: nat, word: nat)
    requires Base32(digits) && shift % 5 == 0 && word < Pow2(shift)
    requires word + Shl(Positional(digits), shift) < TWO_32
    ensures Word(digits, shift, word) == word + Shl(Positional(digits), shift)
  {
    hide Accumulate, Or, And, Shl, Pow2;
    if digits == [] {
      ShlOne(shift);
    } else {
      var d, rest := digits[0], Positional(digits[1..]);
      SplitDigit(d, rest, shift);
      AccumulateAdds(word, d, shift);
      WordIsPositional(digits[1..], shift + 5, Accumulate(word, d, shift));
    }
  }

  lemma SplitDigit(d: nat, rest: nat, shift: nat)
    requires d < 32
    ensures Shl(d + 32 * rest, shift) == Shl(d, shift) + Shl(rest, shift + 5)
    ensures Shl(d, shift) + Pow2(shift) <= Pow2(shift + 5)
  {
    hide *;
    ShlSum(d, 32 * rest, shift);
    ShlWidths(rest);
    ShlShl(rest, 5, shift);
    ShlSum(d, 1, shift);
    ShlOne(shift);
    ShlMonotone(d + 1, 32, shift);
    ShlWidths(1);
    ShlShl(1, 5, shift);
    ShlOne(shift + 5);
  }

  lemma AccumulateDigit(word: nat, index: nat, shift: nat)
    requires index < 64
    ensures Accumulate(word, index, shift) == Or(word, Shl(index % 32, shift % 32) % TWO_32)
  {
    hide Or, And, Shl, Bit;
    DigitMasks(index);
  }

  lemma AccumulateAdds(word: nat, d: nat, shift: nat)
    requires d < 32 && shift % 5 == 0 && word < Pow2(shift)
    requires word + Shl(d, shift) < TWO_32
    ensures Accumulate(word, d, shift) == word + Shl(d, shift)
  {
    hide Or, And, Shl, Pow2, Accumulate;
    AccumulateDigit(word, d, shift);
    if shift < 32 {
      OrDisjoint(word, d, shift);
    } else if d == 0 {
      ShlOne(shift);
      ShlOne(shift % 32);
      OrZero(word);
    } else {
      TooFar(d, shift);
    }
  }

  lemma TooFar(d: nat, shift: nat)
    requires d > 0 && shift >= 32
    ensures Shl(d, shift) >= TWO_32
  {
    Pow2Values();
    ShlMonotone(1, d, shift);
    ShlOne(shift);
    Pow2Monotone(32, shift);
  }

  lemma WholeWord(digits: seq<nat>)
    requires Base32(digits) && Positional(digits) < TWO_32
    ensures Word(digits, 0, 0) == Positional(digits)
  {
    WordIsPositional(digits, 0, 0);
  }

  /** Read as a signed word, the accumulation is the positional value exactly below 2^31. */
  lemma AccumulationExact(digits: seq<nat>)
    requires Base32(digits)
    ensures ToInt32(Word(digits, 0, 0)) == Positional(digits) <==> Positional(digits) < TWO_31
  {
    if Positional(digits) < TWO_31 {
      WholeWord(digits);
    }
  }

  /** Bit `b` of what one digit adds: its five bits stand from `shift` modulo 32 on, up to bit 31. */
  predicate DigitBit(digit: nat, shift: nat, b: nat) {
    var at := shift % 32;
    at <= b < 32 && b < at + 5 && Bit(digit, b - at)
  }

  lemma AccumulateBit(word: nat, index: nat, shift: nat, b: nat)
    ensures Bit(Accumulate(word, index, shift), b) <==> Bit(word, b) || DigitBit(index, shift, b)
  {
    hide Or, And, Shl, Bit, Low;
    var at, low := shift % 32, And(index, 31);
    assert low == Low(index, 5) by {
      Pow2Values();
      AndMask(index, 5);
    }
    assert Shl(low, at) % TWO_32 == Low(Shl(low, at), 32) by {
      Width32(Shl(low, at));
    }
    OrBit(word, Low(Shl(low, at), 32), b);
    LowBit(Shl(low, at), 32, b);
    ShlBit(low, at, b);
    if b >= at {
      LowBit(index, 5, b - at);
    }
  }

  ghost predicate SomeDigitBit(digits: seq<nat>, shift: nat, b: nat) {
    exists k :: 0 <= k < |digits| && DigitBit(digits[k], shift + 5 * k, b)
  }

  /** For any digits, however many: a bit of the word is set exactly when some digit sets it, each digit's
      five bits standing five places after the one's before, modulo 32, and cut off at bit 31. */
  lemma {:induction false} WordBits(digits: seq<nat>, shift: nat, word: nat, b: nat)
    ensures Bit(Word(digits, shift, word), b) <==> Bit(word, b) || SomeDigitBit(digits, shift, b)
  {
    hide Accumulate, DigitBit, Bit;
    if digits != [] {
      var next := Accumulate(word, digits[0], shift);
      AccumulateBit(word, digits[0], shift, b);
      WordBits(digits[1..], shift + 5, next, b);
      FirstDigitBit(digits, shift, b);
    }
  }

  lemma FirstDigitBit(digits: seq<nat>, shift: nat, b: nat)
    requires digits != []
    ensures SomeDigitBit(digits, shift, b) <==> DigitBit(digits[0], shift, b) || SomeDigitBit(digits[1..], shift + 5, b)
  {
    hide DigitBit;
    if SomeDigitBit(digits[1..], shift + 5, b) {
      var k :| 0 <= k < |digits[1..]| && DigitBit(digits[1..][k], shift + 5 + 5 * k, b);
      assert DigitBit(digits[k + 1], shift + 5 * (k + 1), b);
    }
    if SomeDigitBit(digits, shift, b) && !DigitBit(digits[0], shift, b) {
      var k :| 0 <= k < |digits| && DigitBit(digits[k], shift + 5 * k, b);
      assert DigitBit(digits[1..][k - 1], shift + 5 + 5 * (k - 1), b);
    }
    assert DigitBit(digits[0], shift, b) ==> DigitBit(digits[0], shift + 5 * 0, b);
  }

  // ----- Decoding what the encoder wrote -----

  function Digits(word: nat): (digits: seq<nat>)
    ensures Base32(digits)
  {
    if word < 32 then [word] else [word % 32] + Digits(word / 32)
  }

  lemma {:induction false} DigitsValue(word: nat)
    ensures Positional(Digits(word)) == word
  {
    if word >= 32 {
      DigitsValue(word / 32);
      assert Digits(word)[1..] == Digits(word / 32);
    } else {
      assert Digits(word)[1..] == [];
    }
  }

  lemma DigitStep(c: CodeUnit, d: nat, more: bool, word: nat, shift: nat)
    requires d < 32 && c == DigitChar(if more then 32 + d else d)
    ensures var index := Digit(And(c, 0x7f));
      && And(c, 0x7f) == c
      && index != INVALID
      && (And(index, 32) == 0 <==> !more)
      && Accumulate(word, index, shift) == Accumulate(word, d, shift)
  {
    hide Or, And, Shl, Accumulate, Digit, DigitChar;
    var index := if more then 32 + d else d;
    CharMask(c);
    DigitOfDigitChar(index);
    DigitMasks(index);
    AccumulateDigit(word, index, shift);
    AccumulateDigit(word, d, shift);
  }

  lemma {:induction false} DecodeEncodedWord(text: Text, i: nat, w: nat, shift: nat, word: nat)
    requires At(text, i, EncodeWord(w))
    ensures DecodeFrom(text, i, shift, word)
         == Ok((SignedValue(Word(Digits(w), shift, word)), i + |EncodeWord(w)|))
    decreases w
  {
    hide Or, And, Shl, Accumulate, Digit, DigitChar, SignedValue;
    var s := EncodeWord(w);
    assert text[i] == text[i..i + |s|][0] == s[0];
    DigitStep(text[i], w % 32, w >= 32, word, shift);
    if w >= 32 {
      AtConcat(text, i, [s[0]], EncodeWord(w / 32));
      DecodeEncodedWord(text, i + 1, w / 32, shift + 5, Accumulate(word, w % 32, shift));
      assert Digits(w)[1..] == Digits(w / 32);
    } else {
      assert Digits(w)[1..] == [];
    }
  }

  lemma CharIsDigit(c: CodeUnit)
    requires Digit(c) < 64
    ensures And(c, 0x7f) == c && (And(Digit(c), 32) == 0 <==> Digit(c) < 32)
  {
    hide And;
    CharMask(c);
    DigitMasks(Digit(c));
  }

  /** Any digits, the encoder's or not, all but the last asking for more, read as the word they build. */
  lemma {:induction false} DecodeDigits(text: Text, i: nat, digits: seq<nat>, shift: nat, word: nat)
    requires digits != [] && i + |digits| <= |text|
    requires forall k :: 0 <= k < |digits| ==> Digit(text[i + k]) == digits[k] < 64
    requires forall k :: 0 <= k < |digits| ==> (digits[k] < 32 <==> k == |digits| - 1)
    ensures DecodeFrom(text, i, shift, word) == Ok((SignedValue(Word(digits, shift, word)), i + |digits|))
    decreases |digits|
  {
    hide And, Accumulate, Digit, SignedValue;
    assert Digit(text[i + 0]) == digits[0] < 64;
    CharIsDigit(text[i]);
    if |digits| > 1 {
      var rest := digits[1..];
      forall k | 0 <= k < |rest|
        ensures Digit(text[i + 1 + k]) == rest[k] < 64 && (rest[k] < 32 <==> k == |rest| - 1)
      {
        assert rest[k] == digits[k + 1] && text[i + 1 + k] == text[i + (k + 1)];
      }
      DecodeDigits(text, i + 1, rest, shift + 5, Accumulate(word, digits[0], shift));
    } else {
      assert digits[1..] == [];
    }
  }

  /** Decoding an encoded value always stops just past the encoding, and gives the value back
      for exactly the magnitudes below 2^30. */
  lemma DecodeEncoded(text: Text, i: nat, v: int)
    requires At(text, i, Encode(v))
    ensures Decode(text, i).Ok? && Decode(text, i).value.1 == i + |Encode(v)|
    ensures Decode(text, i).value.0 == v <==> -TWO_30 < v < TWO_30
  {
    hide Or, And, Shl, DecodeFrom, Word, Digits, Positional, EncodeWord;
    var w := Magnitude(v);
    var digits := Digits(w);
    DecodeEncodedWord(text, i, w, 0, 0);
    DigitsValue(w);
    SignBit(Word(digits, 0, 0));
    if -TWO_30 <= v <= TWO_30 {
      WholeWord(digits);
    }
  }

  /** From 2^30 on the word's top bit is set, and the value comes back 2^31 off towards the other sign. */
  lemma DecodeFar(text: Text, i: nat, v: int)
    requires At(text, i, Encode(v)) && (TWO_30 <= v < TWO_31 || -TWO_31 < v <= -TWO_30)
    ensures Decode(text, i) == Ok((if v > 0 then v - TWO_31 else v + TWO_31, i + |Encode(v)|))
  {
    hide Or, And, Shl, DecodeFrom, Word, Digits, Positional, EncodeWord;
    var w := Magnitude(v);
    DecodeEncodedWord(text, i, w, 0, 0);
    DigitsValue(w);
    WholeWord(Digits(w));
    SignBit(w);
  }
}
