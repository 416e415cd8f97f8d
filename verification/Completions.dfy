/** The package-name completions: the serialised list, its index by first letter, and the code that
    reads both back. */
module Completions {
  import opened Wrappers
  import opened LittleEndian

  /** A JavaScript string's code unit. */
  type Unit = u: int | 0 <= u < 0x1_0000
  type Name = n: seq<Unit> | n != [] witness [97]

  const LETTERS: nat := 26

  /** The first character, lower-cased. Outside ASCII only the Kelvin sign becomes a letter from a to
      z; the other characters are told apart without changing their case. */
  function FirstLetter(name: Name): (c: int) {
    if 65 <= name[0] <= 90 then name[0] + 32 else if name[0] == 0x212a then 107 else name[0]
  }

  /** The letter's place in the alphabet; 26 for any other character. */
  function Rank(name: Name): (r: nat)
    ensures r <= LETTERS
  {
    var c := FirstLetter(name);
    if 97 <= c <= 122 then c - 97 else LETTERS
  }

  // ----- UTF-8 -----

  predicate IsHigh(u: Unit) {
    0xd800 <= u < 0xdc00
  }

  predicate IsLow(u: Unit) {
    0xdc00 <= u < 0xe000
  }

  function CodePoint(c: nat): (b: Bytes)
    requires c < 0x11_0000
    ensures 1 <= |b| <= 4
  {
    if c < 0x80 then [c]
    else if c < 0x800 then [0xc0 + c / 0x40, 0x80 + c % 0x40]
    else if c < 0x1_0000 then [0xe0 + c / 0x1000, 0x80 + c / 0x40 % 0x40, 0x80 + c % 0x40]
    else [0xf0 + c / 0x4_0000, 0x80 + c / 0x1000 % 0x40, 0x80 + c / 0x40 % 0x40, 0x80 + c % 0x40]
  }

  /** A surrogate pair is one code point; one without its partner becomes U+FFFD. */
  function Utf8(s: seq<Unit>): Bytes {
    if s == [] then []
    else if |s| >= 2 && IsHigh(s[0]) && IsLow(s[1]) then
      CodePoint(0x1_0000 + 0x400 * (s[0] as int - 0xd800) + (s[1] as int - 0xdc00)) + Utf8(s[2..])
    else CodePoint(if IsHigh(s[0]) || IsLow(s[0]) then 0xfffd else s[0]) + Utf8(s[1..])
  }

  predicate Ascii(s: seq<Unit>) {
    forall k :: 0 <= k < |s| ==> s[k] < 0x80
  }

  /** The encoding is longer than the string, unless the string is ASCII. */
  lemma {:induction false} Utf8Length(s: seq<Unit>)
    ensures |Utf8(s)| >= |s|
    ensures |Utf8(s)| == |s| <==> Ascii(s)
    decreases |s|
  {
    if s != [] {
      if |s| >= 2 && IsHigh(s[0]) && IsLow(s[1]) {
        Utf8Length(s[2..]);
      } else {
        Utf8Length(s[1..]);
      }
    }
  }

  // ----- Reading UTF-8 -----

  predicate IsTail(b: Byte) {
    0x80 <= b < 0xc0
  }

  /** The code unit or the surrogate pair of a code point. */
  function Units(c: nat): (u: seq<Unit>)
    requires c < 0x11_0000
    ensures 1 <= |u| <= 2
  {
    if c < 0x1_0000 then [c] else [0xd800 + (c - 0x1_0000) / 0x400, 0xdc00 + (c - 0x1_0000) % 0x400]
  }

  /** The first code point of a byte string and how many bytes it takes: the leading bits of the first byte
      tell their number, each later one adds six bits, and no shorter form would do. */
  function FirstCodePoint(b: Bytes): (r: Option<(nat, nat)>)
    requires b != []
    ensures r.Some? ==> r.value.0 < 0x11_0000 && 1 <= r.value.1 <= |b|
  {
    if b[0] < 0x80 then Some((b[0], 1))
    else if 0xc0 <= b[0] < 0xe0 && |b| >= 2 && IsTail(b[1]) then
      var c := (b[0] as int - 0xc0) * 0x40 + (b[1] as int - 0x80);
      if c >= 0x80 then Some((c, 2)) else None
    else if 0xe0 <= b[0] < 0xf0 && |b| >= 3 && IsTail(b[1]) && IsTail(b[2]) then
      var c := (b[0] as int - 0xe0) * 0x1000 + (b[1] as int - 0x80) * 0x40 + (b[2] as int - 0x80);
      if c >= 0x800 && !(0xd800 <= c < 0xe000) then Some((c, 3)) else None
    else if 0xf0 <= b[0] < 0xf8 && |b| >= 4 && IsTail(b[1]) && IsTail(b[2]) && IsTail(b[3]) then
      var c := (b[0] as int - 0xf0) * 0x4_0000 + (b[1] as int - 0x80) * 0x1000 + (b[2] as int - 0x80) * 0x40
               + (b[3] as int - 0x80);
      if 0x1_0000 <= c < 0x11_0000 then Some((c, 4)) else None
    else None
  }

  /** The string a byte string stands for, if it is well-formed UTF-8. */
  function DecodeUtf8(b: Bytes): (r: Option<seq<Unit>>)
    ensures r.Some? && b != [] ==> r.value != []
    decreases |b|
  {
    if b == [] then Some([])
    else
      match FirstCodePoint(b)
      case None => None
      case Some((c, n)) =>
        match DecodeUtf8(b[n..])
        case None => None
        case Some(rest) => Some(Units(c) + rest)
  }

  /** The string with every surrogate that has no partner replaced by U+FFFD. */
  function Mended(s: seq<Unit>): (r: seq<Unit>)
    ensures |r| == |s|
  {
    seq<Unit>(|s|, k requires 0 <= k < |s| => MendedUnit(s, k))
  }

  function MendedUnit(s: seq<Unit>, k: nat): Unit
    requires k < |s|
  {
    if IsHigh(s[k]) && !(k + 1 < |s| && IsLow(s[k + 1])) then 0xfffd
    else if IsLow(s[k]) && !(k > 0 && IsHigh(s[k - 1])) then 0xfffd
    else s[k]
  }

  lemma SplitCode(c: nat)
    ensures c == c / 0x1000 * 0x1000 + c / 0x40 % 0x40 * 0x40 + c % 0x40
    ensures c == c / 0x4_0000 * 0x4_0000 + c / 0x1000 % 0x40 * 0x1000 + c / 0x40 % 0x40 * 0x40 + c % 0x40
  {
    var a := c / 0x40;
    var b := a / 0x40;
    assert a == c / 0x40 && b == c / 0x1000 && b / 0x40 == c / 0x4_0000;
    assert c == a * 0x40 + c % 0x40;
    assert a == b * 0x40 + a % 0x40;
    assert b == b / 0x40 * 0x40 + b % 0x40;
  }

  /** The encoding of a code point reads back as that code point. */
  lemma CodePointReads(c: nat)
    requires c < 0x11_0000 && !(0xd800 <= c < 0xe000)
    ensures FirstCodePoint(CodePoint(c)) == Some((c, |CodePoint(c)|))
  {
    SplitCode(c);
  }

  /** So it does whatever follows it. */
  lemma SameFirst(a: Bytes, b: Bytes)
    requires a != [] && FirstCodePoint(a).Some?
    ensures FirstCodePoint(a + b) == FirstCodePoint(a)
  {
    assert forall k :: 0 <= k < |a| ==> (a + b)[k] == a[k];
  }

  lemma DecodeFirst(c: nat, rest: Bytes)
    requires c < 0x11_0000 && !(0xd800 <= c < 0xe000)
    ensures DecodeUtf8(CodePoint(c) + rest)
         == if DecodeUtf8(rest).None? then None else Some(Units(c) + DecodeUtf8(rest).value)
  {
    hide CodePoint, FirstCodePoint, Units;
    CodePointReads(c);
    SameFirst(CodePoint(c), rest);
    assert (CodePoint(c) + rest)[|CodePoint(c)|..] == rest;
  }

  /** Decoding the bytes of a string gives the string, its unpaired surrogates replaced. */
  lemma {:induction false} Utf8RoundTrips(s: seq<Unit>)
    ensures DecodeUtf8(Utf8(s)) == Some(Mended(s))
    decreases |s|
  {
    hide CodePoint, DecodeUtf8;
    if s == [] {
      assert DecodeUtf8([]) == Some([]) by {
        DecodeNothing();
      }
      assert Mended(s) == [];
    } else if |s| >= 2 && IsHigh(s[0]) && IsLow(s[1]) {
      var c := 0x1_0000 + 0x400 * (s[0] as int - 0xd800) + (s[1] as int - 0xdc00);
      Utf8RoundTrips(s[2..]);
      DecodeFirst(c, Utf8(s[2..]));
      assert Units(c) == [s[0], s[1]];
      assert Mended(s) == [s[0], s[1]] + Mended(s[2..]);
    } else {
      var c := if IsHigh(s[0]) || IsLow(s[0]) then 0xfffd else s[0];
      Utf8RoundTrips(s[1..]);
      DecodeFirst(c, Utf8(s[1..]));
      assert Units(c) == [c];
      assert Mended(s) == [c] + Mended(s[1..]);
    }
  }

  lemma DecodeNothing()
    ensures DecodeUtf8([]) == Some([])
  {
  }

  /** The bytes of an ASCII string are its code units. */
  lemma {:induction false} AsciiBytes(s: seq<Unit>)
    requires Ascii(s)
    ensures |Utf8(s)| == |s| && forall k :: 0 <= k < |s| ==> Utf8(s)[k] as int == s[k] as int
  {
    if s != [] {
      AsciiBytes(s[1..]);
      assert Utf8(s) == [s[0]] + Utf8(s[1..]);
    }
  }

  /** Bytes that are a string followed by more are a longer string, if they are one at all. */
  lemma {:induction false} DecodeLonger(a: Bytes, b: Bytes)
    requires DecodeUtf8(a).Some? && DecodeUtf8(a + b).Some?
    ensures DecodeUtf8(b).Some? && DecodeUtf8(a + b).value == DecodeUtf8(a).value + DecodeUtf8(b).value
    decreases |a|
  {
    hide Units, FirstCodePoint;
    if a == [] {
      assert a + b == b;
    } else {
      var (_, n) := FirstCodePoint(a).value;
      SameFirst(a, b);
      assert (a + b)[n..] == a[n..] + b;
      DecodeLonger(a[n..], b);
    }
  }

  // ----- Serialising the list and reading it back -----

  /** The length field counts the string's code units, the bytes behind it are its UTF-8. */
  function EncodeName(name: Name): (b: Bytes)
    requires |name| < 0x1_0000
    ensures |b| == 2 + |Utf8(name)| && U16(b, 0) == |name| && b[2..] == Utf8(name)
  {
    Le16(|name|) + Utf8(name)
  }

  ghost predicate Fit(names: seq<Name>) {
    forall k :: 0 <= k < |names| ==> |names[k]| < 0x1_0000
  }

  function EncodeNames(names: seq<Name>): Bytes
    requires Fit(names)
  {
    if names == [] then [] else EncodeNames(names[..|names| - 1]) + EncodeName(names[|names| - 1])
  }

  function Encoded(names: seq<Name>): Bytes
    requires Fit(names) && |names| < 0x1_0000_0000
  {
    Le32(|names|) + EncodeNames(names)
  }

  /** What the size constant adds up. */
  function Counted(names: seq<Name>): nat {
    if names == [] then 0 else Counted(names[..|names| - 1]) + 2 + |names[|names| - 1]|
  }

  datatype Serialised = Serialised(data: Bytes, uncompressedSize: nat)

  /** The list's bytes and their size as announced to the reader. Writing a length throws when it does
      not fit, which the error says of the first such name. An array's own length always fits. */
  method Serialise(packages: seq<Name>) returns (r: Result<Serialised, nat>)
    requires |packages| < 0x1_0000_0000
    ensures r.Ok? <==> Fit(packages)
    ensures r.Ok? ==> r.value == Serialised(Encoded(packages), 4 + Counted(packages))
    ensures r.Err? ==> r.error < |packages| && |packages[r.error]| >= 0x1_0000 && Fit(packages[..r.error])
  {
    hide EncodeName, Le32, Utf8;
    var data := Le32(|packages|);
    var totalUncompressed := 4;
    assert packages[..0] == [];
    for i := 0 to |packages|
      invariant Fit(packages[..i])
      invariant data == Le32(|packages|) + EncodeNames(packages[..i])
      invariant totalUncompressed == 4 + Counted(packages[..i])
    {
      assert packages[..i + 1][..i] == packages[..i];
      if |packages[i]| >= 0x1_0000 {
        return Err(i);
      }
      data := data + EncodeName(packages[i]);
      totalUncompressed := totalUncompressed + 2 + |packages[i]|;
    }
    assert packages[..|packages|] == packages;
    return Ok(Serialised(data, totalUncompressed));
  }

  /** The announced size is that of the bytes exactly when every name is ASCII; it is never more. */
  lemma {:induction false} SizeExact(names: seq<Name>)
    requires Fit(names)
    ensures Counted(names) <= |EncodeNames(names)|
    ensures Counted(names) == |EncodeNames(names)| <==> AllAscii(names)
  {
    hide EncodeName, Ascii;
    if names != [] {
      var front, last := names[..|names| - 1], names[|names| - 1];
      SizeExact(front);
      Utf8Length(last);
      assert AllAscii(names) <==> AllAscii(front) && Ascii(last) by {
        assert names == front + [last];
      }
    }
  }

  ghost predicate AllAscii(names: seq<Name>) {
    forall k :: 0 <= k < |names| ==> Ascii(names[k])
  }

  /** `count` more names from `pos` on, after those in `list`; `None` when the bytes run out. */
  function ParseFrom(data: Bytes, pos: nat, count: nat, list: seq<Bytes>): Option<seq<Bytes>>
    decreases count
  {
    if count == 0 then Some(list)
    else if pos + 2 > |data| then None
    else
      var end := pos + 2 + U16(data, pos);
      if end > |data| then None else ParseFrom(data, end, count - 1, list + [data[pos + 2..end]])
  }

  function Parse(data: Bytes): Option<seq<Bytes>> {
    if |data| < 4 then None else ParseFrom(data, 4, U32(data, 0), [])
  }

  /** The emitted `init` on any bytes; a slice out of range traps, which is `None`. */
  method Init(data: Bytes) returns (packages: Option<seq<Bytes>>)
    ensures packages == Parse(data)
  {
    hide U16, U32;
    if |data| < 4 {
      return None;
    }
    var totalCount := U32(data, 0);
    var list: seq<Bytes> := [];
    var pos: nat := 4;
    var i: nat := 0;
    while i < totalCount
      invariant i <= totalCount
      invariant ParseFrom(data, pos, totalCount - i, list) == Parse(data)
    {
      if pos + 2 > |data| {
        return None;
      }
      var len := U16(data, pos);
      pos := pos + 2;
      if pos + len > |data| {
        return None;
      }
      list := list + [data[pos..pos + len]];
      pos := pos + len;
      i := i + 1;
    }
    return Some(list);
  }

  /** Byte strings one after the other, each behind its length. */
  ghost function Frames(list: seq<Bytes>): Bytes
    requires AllShort(list)
  {
    if list == [] then [] else Le16(|list[0]|) + list[0] + Frames(list[1..])
  }

  ghost predicate AllShort(list: seq<Bytes>) {
    forall k :: 0 <= k < |list| ==> |list[k]| < 0x1_0000
  }

  lemma FirstFrame(data: Bytes, pos: nat, first: Bytes, more: Bytes)
    requires pos <= |data| && |first| < 0x1_0000 && data[pos..] == Le16(|first|) + first + more
    ensures pos + 2 + |first| <= |data| && U16(data, pos) == |first|
    ensures data[pos + 2..pos + 2 + |first|] == first && data[pos + 2 + |first|..] == more
  {
    hide U16;
    var own := Le16(|first|) + first + more;
    assert data[pos..pos + 2] == data[pos..][..2] == own[..2] == Le16(|first|);
    U16At(data, pos, 0, Le16(|first|));
    assert data[pos + 2..pos + 2 + |first|] == data[pos..][2..2 + |first|] == own[2..2 + |first|];
    assert data[pos + 2 + |first|..] == data[pos..][2 + |first|..] == own[2 + |first|..];
  }

  lemma {:induction false} FramesRead(
    data: Bytes, pos: nat, list: seq<Bytes>, rest: Bytes, before: seq<Bytes>)
    requires AllShort(list) && pos <= |data| && data[pos..] == Frames(list) + rest
    ensures ParseFrom(data, pos, |list|, before) == Some(before + list)
    decreases |list|
  {
    hide U16, Le16;
    if list == [] {
      assert before + list == before;
    } else {
      assert Frames(list) + rest == Le16(|list[0]|) + list[0] + (Frames(list[1..]) + rest);
      FirstFrame(data, pos, list[0], Frames(list[1..]) + rest);
      FramesRead(data, pos + 2 + |list[0]|, list[1..], rest, before + [list[0]]);
      assert before + [list[0]] + list[1..] == before + list;
    }
  }

  lemma FrameRead(data: Bytes, pos: nat)
    requires pos + 2 <= |data| && pos + 2 + U16(data, pos) <= |data|
    ensures var end := pos + 2 + U16(data, pos);
      data[pos..] == Le16(U16(data, pos)) + data[pos + 2..end] + data[end..]
  {
    var n := U16(data, pos);
    assert [data[pos], data[pos + 1]] == Le16(n);
    assert data[pos..] == [data[pos], data[pos + 1]] + data[pos + 2..pos + 2 + n] + data[pos + 2 + n..];
  }

  lemma {:induction false} ReadWasFrames(data: Bytes, pos: nat, count: nat, before: seq<Bytes>)
    returns (list: seq<Bytes>, rest: Bytes)
    requires pos <= |data| && ParseFrom(data, pos, count, before).Some?
    ensures ParseFrom(data, pos, count, before).value == before + list && |list| == count
    ensures AllShort(list) && data[pos..] == Frames(list) + rest
    decreases count
  {
    hide U16, Le16;
    if count == 0 {
      list, rest := [], data[pos..];
    } else {
      var end := pos + 2 + U16(data, pos);
      var first := data[pos + 2..end];
      FrameRead(data, pos);
      var more;
      more, rest := ReadWasFrames(data, end, count - 1, before + [first]);
      list := [first] + more;
      assert list[1..] == more && before + [first] + more == before + list;
      assert Frames(list) + rest == Le16(|first|) + first + (Frames(more) + rest);
    }
  }

  /** Exactly which bytes are read as a list: its count and its strings behind their lengths, whatever
      follows. On all others the reader runs out and traps. */
  lemma ParseExactly(data: Bytes, list: seq<Bytes>)
    requires |list| < 0x1_0000_0000
    ensures Parse(data) == Some(list) <==>
      AllShort(list) && exists rest :: data == Le32(|list|) + Frames(list) + rest
  {
    hide Le32, U32, Frames, Parse;
    if Parse(data) == Some(list) {
      var rest := ReadList(data, list);
      assert data == Le32(|list|) + Frames(list) + rest;
    }
    if rest :| AllShort(list) && data == Le32(|list|) + Frames(list) + rest {
      ListRead(data, list, rest);
    }
  }

  lemma ReadList(data: Bytes, list: seq<Bytes>) returns (rest: Bytes)
    requires Parse(data) == Some(list) && |list| < 0x1_0000_0000
    ensures AllShort(list) && data == Le32(|list|) + Frames(list) + rest
  {
    hide Le32, U32, Frames, ParseFrom;
    var read;
    read, rest := ReadWasFrames(data, 4, U32(data, 0), []);
    assert [] + read == read;
    CountRead(data);
    assert data == data[..4] + data[4..];
    assert Le32(|list|) + (Frames(list) + rest) == Le32(|list|) + Frames(list) + rest;
  }

  lemma ListRead(data: Bytes, list: seq<Bytes>, rest: Bytes)
    requires |list| < 0x1_0000_0000 && AllShort(list) && data == Le32(|list|) + Frames(list) + rest
    ensures Parse(data) == Some(list)
  {
    hide Le32, U32, Frames, ParseFrom;
    var count, more := Le32(|list|), Frames(list) + rest;
    assert data == count + more;
    assert data[..4] == count && data[4..] == more;
    U32At(data, 0, 0, count);
    FramesRead(data, 4, list, rest, []);
    assert [] + list == list;
  }

  lemma CountRead(data: Bytes)
    requires |data| >= 4
    ensures data[..4] == Le32(U32(data, 0))
  {
    var low, high := U16(data, 0), U16(data, 2);
    assert Le16(low) == [data[0], data[1]] && Le16(high) == [data[2], data[3]];
    HighLow(low, high);
    assert U32(data, 0) == low + 0x1_0000 * high;
  }

  lemma HighLow(low: nat, high: nat)
    requires low < 0x1_0000
    ensures (low + 0x1_0000 * high) % 0x1_0000 == low && (low + 0x1_0000 * high) / 0x1_0000 == high
  {
  }

  /** The list as bytes. */
  function Utf8All(names: seq<Name>): (r: seq<Bytes>)
    ensures |r| == |names|
    ensures forall k :: 0 <= k < |names| ==> r[k] == Utf8(names[k])
  {
    seq(|names|, k requires 0 <= k < |names| => Utf8(names[k]))
  }

  lemma {:induction false} EncodePrefix(names: seq<Name>, i: nat)
    requires Fit(names) && i <= |names|
    ensures EncodeNames(names[..i]) <= EncodeNames(names)
  {
    hide EncodeName;
    if i < |names| {
      EncodePrefix(names[..|names| - 1], i);
      assert names[..|names| - 1][..i] == names[..i];
    } else {
      assert names[..i] == names;
    }
  }

  /** The next name, after the bytes of the ones before it. */
  lemma NextName(data: Bytes, names: seq<Name>, i: nat)
    requires |names| < 0x1_0000_0000 && i < |names| && Fit(names) && data == Encoded(names)
    ensures var pos := 4 + |EncodeNames(names[..i])|; var end := pos + 2 + |Utf8(names[i])|;
      && end == 4 + |EncodeNames(names[..i + 1])| <= |data|
      && U16(data, pos) == |names[i]| && data[pos + 2..end] == Utf8(names[i])
  {
    hide Le32, EncodeName, EncodeNames, U16, Utf8;
    EncodePrefix(names, i + 1);
    EncodeNext(names, i);
    var front, own := Le32(|names|) + EncodeNames(names[..i]), EncodeName(names[i]);
    assert front + own == Le32(|names|) + EncodeNames(names[..i + 1]);
    assert front + own <= data;
    OwnPart(data, front, own);
  }

  lemma EncodeNext(names: seq<Name>, i: nat)
    requires i < |names| && Fit(names)
    ensures EncodeNames(names[..i + 1]) == EncodeNames(names[..i]) + EncodeName(names[i])
  {
    hide EncodeName;
    assert names[..i + 1][..i] == names[..i];
  }

  lemma OwnPart(data: Bytes, front: Bytes, own: Bytes)
    requires front + own <= data && |own| >= 2
    ensures data[|front| + 2..|front| + |own|] == own[2..]
    ensures U16(data, |front|) == U16(own, 0)
  {
    assert data[..|front + own|] == front + own;
    assert data[|front|..|front| + |own|] == own;
    U16At(data, |front|, 0, own);
  }

  /** Reading past an ASCII name is right. */
  lemma ParseAscii(data: Bytes, names: seq<Name>, i: nat)
    requires |names| < 0x1_0000_0000 && i < |names| && Fit(names) && data == Encoded(names) && Ascii(names[i])
    ensures ParseFrom(data, 4 + |EncodeNames(names[..i])|, |names| - i, Utf8All(names[..i]))
         == ParseFrom(data, 4 + |EncodeNames(names[..i + 1])|, |names| - i - 1, Utf8All(names[..i + 1]))
  {
    hide EncodeNames, Encoded, U16, Utf8;
    NextName(data, names, i);
    Utf8Length(names[i]);
    assert Utf8All(names[..i + 1]) == Utf8All(names[..i]) + [Utf8(names[i])];
  }

  lemma {:induction false} ParseUpTo(data: Bytes, names: seq<Name>, i: nat)
    requires |names| < 0x1_0000_0000 && i <= |names| && Fit(names) && data == Encoded(names)
    requires forall k :: 0 <= k < i ==> Ascii(names[k])
    ensures Parse(data) == ParseFrom(data, 4 + |EncodeNames(names[..i])|, |names| - i, Utf8All(names[..i]))
  {
    hide Ascii, Utf8, EncodeNames, Encoded, Parse, ParseFrom, Utf8All;
    if i == 0 {
      ParseBegins(names);
    } else {
      ParseUpTo(data, names, i - 1);
      ParseAscii(data, names, i - 1);
    }
  }

  lemma ParseBegins(names: seq<Name>)
    requires |names| < 0x1_0000_0000 && Fit(names)
    ensures Parse(Encoded(names))
         == ParseFrom(Encoded(names), 4 + |EncodeNames(names[..0])|, |names|, Utf8All(names[..0]))
  {
    hide Le32, U32, ParseFrom;
    U32At(Encoded(names), 0, 0, Le32(|names|));
    assert Utf8All(names[..0]) == [];
  }

  /** What is read stays read. */
  lemma {:induction false} ParseKeeps(data: Bytes, pos: nat, count: nat, list: seq<Bytes>)
    ensures var r := ParseFrom(data, pos, count, list); r.Some? ==> list <= r.value
    decreases count
  {
    hide U16;
    if count > 0 && pos + 2 <= |data| && pos + 2 + U16(data, pos) <= |data| {
      var end := pos + 2 + U16(data, pos);
      ParseKeeps(data, end, count - 1, list + [data[pos + 2..end]]);
    }
  }

  /** The list read back stands for the names, as far as UTF-8 can. */
  ghost predicate ComesBack(list: seq<Bytes>, names: seq<Name>) {
    |list| == |names| && forall k :: 0 <= k < |names| ==> DecodeUtf8(list[k]) == Some(Mended(names[k]))
  }

  /** The list read back is the names, unit for unit. */
  ghost predicate SameUnits(list: seq<Bytes>, names: seq<Name>) {
    && |list| == |names|
    && forall k :: 0 <= k < |names| ==>
         |list[k]| == |names[k]| && forall j :: 0 <= j < |names[k]| ==> list[k][j] as int == names[k][j] as int
  }

  /** The emitted `init` recovers the generator's list exactly when every name is ASCII: the length of
      another one is not that of its bytes. */
  lemma ListComesBack(names: seq<Name>)
    requires |names| < 0x1_0000_0000 && Fit(names)
    ensures var r := Parse(Encoded(names));
      && (r.Some? && ComesBack(r.value, names) <==> AllAscii(names))
      && (AllAscii(names) ==> r.Some? && SameUnits(r.value, names))
  {
    hide Encoded, EncodeNames, Utf8, Parse, Ascii, U16, DecodeUtf8, Mended;
    var data := Encoded(names);
    if AllAscii(names) {
      ParseUpTo(data, names, |names|);
      assert names[..|names|] == names;
      forall k | 0 <= k < |names|
        ensures DecodeUtf8(Utf8(names[k])) == Some(Mended(names[k]))
        ensures |Utf8(names[k])| == |names[k]|
        ensures forall j :: 0 <= j < |names[k]| ==> Utf8(names[k])[j] as int == names[k][j] as int
      {
        Utf8RoundTrips(names[k]);
        AsciiBytes(names[k]);
      }
    } else {
      var i := FirstNotAscii(names);
      ParseUpTo(data, names, i);
      NextName(data, names, i);
      Utf8Length(names[i]);
      var pos := 4 + |EncodeNames(names[..i])|;
      var read := data[pos + 2..pos + 2 + |names[i]|];
      var list := Utf8All(names[..i]) + [read];
      ParseKeeps(data, pos + 2 + |names[i]|, |names| - i - 1, list);
      assert data[pos + 2..pos + 2 + |Utf8(names[i])|][..|names[i]|] == read;
      CutShort(names[i]);
      assert list[i] == read;
    }
  }

  /** What is left of a name that is cut short does not stand for it. */
  lemma CutShort(name: Name)
    requires |name| < |Utf8(name)|
    ensures DecodeUtf8(Utf8(name)[..|name|]) != Some(Mended(name))
  {
    hide Utf8, Mended;
    var a, b := Utf8(name)[..|name|], Utf8(name)[|name|..];
    assert Utf8(name) == a + b && b != [];
    Utf8RoundTrips(name);
    if DecodeUtf8(a).Some? {
      DecodeLonger(a, b);
    }
  }

  lemma FirstNotAscii(names: seq<Name>) returns (i: nat)
    requires !AllAscii(names)
    ensures i < |names| && !Ascii(names[i]) && forall k :: 0 <= k < i ==> Ascii(names[k])
  {
    hide Ascii;
    i := 0;
    while Ascii(names[i])
      invariant i < |names| && forall k :: 0 <= k < i ==> Ascii(names[k])
      decreases |names| - i
    {
      i := i + 1;
    }
  }

  // ----- The index by first letter -----

  /** The names of one first letter, in order. */
  function OfLetter(names: seq<Name>, c: int): seq<Name> {
    if names == [] then []
    else
      var last := names[|names| - 1];
      OfLetter(names[..|names| - 1], c) + if FirstLetter(last) == c then [last] else []
  }

  /** How many names have a lower rank. */
  function Below(names: seq<Name>, r: nat): (n: nat)
    ensures n <= |names|
  {
    if names == [] then 0
    else Below(names[..|names| - 1], r) + if Rank(names[|names| - 1]) < r then 1 else 0
  }

  datatype IndexEntry = IndexEntry(offset: nat, length: nat)

  /** Groups the names by lower-cased first character. */
  method GroupByLetter(packages: seq<Name>) returns (groups: map<int, seq<Name>>)
    ensures forall c :: c in groups <==> OfLetter(packages, c) != []
    ensures forall c :: c in groups ==> groups[c] == OfLetter(packages, c)
  {
    groups := map[];
    for i := 0 to |packages|
      invariant forall c :: c in groups <==> OfLetter(packages[..i], c) != []
      invariant forall c :: c in groups ==> groups[c] == OfLetter(packages[..i], c)
    {
      var pkg := packages[i];
      var letter := FirstLetter(pkg);
      assert packages[..i + 1][..i] == packages[..i];
      ghost var before := packages[..i];
      assert forall c :: OfLetter(packages[..i + 1], c) == OfLetter(before, c) + (if letter == c then [pkg] else []);
      if letter !in groups {
        groups := groups[letter := []];
      }
      groups := groups[letter := groups[letter] + [pkg]];
    }
    assert packages[..|packages|] == packages;
  }

  /** One entry for each letter: how many names come under earlier letters, and how many under it. */
  ghost predicate Indexes(index: seq<IndexEntry>, names: seq<Name>) {
    && |index| == LETTERS
    && forall l :: 0 <= l < LETTERS ==>
         index[l] == IndexEntry(Below(names, l), |OfLetter(names, 97 + l)|)
  }

  method BuildIndex(packages: seq<Name>) returns (index: seq<IndexEntry>)
    ensures Indexes(index, packages)
  {
    hide Below, OfLetter;
    var groups := GroupByLetter(packages);
    index := [];
    var offset := 0;
    NoneBelow(packages);
    for l := 0 to LETTERS
      invariant |index| == l && offset == Below(packages, l)
      invariant forall k :: 0 <= k < l ==>
        index[k] == IndexEntry(Below(packages, k), |OfLetter(packages, 97 + k)|)
    {
      NextBelow(packages, l);
      if 97 + l in groups {
        index := index + [IndexEntry(offset, |groups[97 + l]|)];
        offset := offset + |groups[97 + l]|;
      } else {
        index := index + [IndexEntry(offset, 0)];
      }
    }
  }

  lemma {:induction false} NoneBelow(names: seq<Name>)
    ensures Below(names, 0) == 0
  {
    if names != [] {
      NoneBelow(names[..|names| - 1]);
    }
  }

  lemma {:induction false} NextBelow(names: seq<Name>, l: nat)
    requires l < LETTERS
    ensures Below(names, l + 1) == Below(names, l) + |OfLetter(names, 97 + l)|
  {
    if names != [] {
      NextBelow(names[..|names| - 1], l);
    }
  }

  function GetPackages(index: seq<IndexEntry>, packages: seq<Name>, l: nat): seq<Name>
    requires l < LETTERS && Indexes(index, packages)
  {
    NextBelow(packages, l);
    var entry := index[l];
    if entry.length == 0 then [] else packages[entry.offset..entry.offset + entry.length]
  }

  // ----- When the index is right -----

  /** Names stand by letter, those with none at the end. */
  predicate Grouped(names: seq<Name>) {
    forall i, j :: 0 <= i < j < |names| ==> Rank(names[i]) <= Rank(names[j])
  }

  lemma {:induction false} OfLetterConcat(a: seq<Name>, b: seq<Name>, c: int)
    ensures OfLetter(a + b, c) == OfLetter(a, c) + OfLetter(b, c)
  {
    if b == [] {
      assert a + b == a;
    } else {
      assert (a + b)[..|a + b| - 1] == a + b[..|b| - 1];
      OfLetterConcat(a, b[..|b| - 1], c);
    }
  }

  lemma {:induction false} OfLetterUniform(names: seq<Name>, l: nat, own: bool)
    requires l < LETTERS && forall k :: 0 <= k < |names| ==> (Rank(names[k]) == l <==> own)
    ensures OfLetter(names, 97 + l) == if own then names else []
  {
    if names != [] {
      OfLetterUniform(names[..|names| - 1], l, own);
    }
  }

  /** In a grouped list the names below a rank come first. */
  lemma {:induction false} GroupedBelow(names: seq<Name>, r: nat, k: nat)
    requires Grouped(names) && k < |names|
    ensures Rank(names[k]) < r <==> k < Below(names, r)
  {
    var n := |names| - 1;
    var front := names[..n];
    if k < n {
      GroupedBelow(front, r, k);
      if Rank(names[n]) < r {
        AllBelow(front, r);
      }
    } else if Rank(names[n]) < r {
      AllBelow(front, r);
    }
  }

  lemma {:induction false} AllBelow(names: seq<Name>, r: nat)
    ensures Below(names, r) == |names| <==> forall k :: 0 <= k < |names| ==> Rank(names[k]) < r
  {
    if names != [] {
      AllBelow(names[..|names| - 1], r);
    }
  }

  lemma GroupedSlice(names: seq<Name>, l: nat)
    requires Grouped(names) && l < LETTERS
    ensures Below(names, l) <= Below(names, l + 1) <= |names|
    ensures names[Below(names, l)..Below(names, l + 1)] == OfLetter(names, 97 + l)
  {
    hide Rank, OfLetter, Below, Grouped;
    NextBelow(names, l);
    var i, j := Below(names, l), Below(names, l + 1);
    forall k | 0 <= k < |names|
      ensures Rank(names[k]) == l <==> i <= k < j
    {
      GroupedBelow(names, l, k);
      GroupedBelow(names, l + 1, k);
    }
    var a, b, c := names[..i], names[i..j], names[j..];
    assert names == a + (b + c);
    OfLetterConcat(a, b + c, 97 + l);
    OfLetterConcat(b, c, 97 + l);
    OfLetterUniform(a, l, false);
    OfLetterUniform(b, l, true);
    OfLetterUniform(c, l, false);
  }

  lemma {:induction false} OfLetterMember(names: seq<Name>, l: nat, x: Name)
    requires l < LETTERS && x in OfLetter(names, 97 + l)
    ensures Rank(x) == l
  {
    var last := names[|names| - 1];
    if x in OfLetter(names[..|names| - 1], 97 + l) {
      OfLetterMember(names[..|names| - 1], l, x);
    } else {
      assert x == last;
    }
  }

  lemma {:induction false} BelowMonotone(names: seq<Name>, r: nat, s: nat)
    requires r <= s
    ensures Below(names, r) <= Below(names, s)
  {
    if names != [] {
      BelowMonotone(names[..|names| - 1], r, s);
    }
  }

  lemma {:induction false} BelowConcat(a: seq<Name>, b: seq<Name>, r: nat)
    ensures Below(a + b, r) == Below(a, r) + Below(b, r)
  {
    if b == [] {
      assert a + b == a;
    } else {
      assert (a + b)[..|a + b| - 1] == a + b[..|b| - 1];
      BelowConcat(a, b[..|b| - 1], r);
    }
  }

  /** Every letter's slice of the list is that letter's names. */
  ghost predicate SlicesRight(names: seq<Name>) {
    forall l: nat :: l < LETTERS ==> SliceRight(names, l)
  }

  ghost predicate SliceRight(names: seq<Name>, l: nat) {
    var i, j := Below(names, l), Below(names, l + 1);
    i <= j && names[i..j] == OfLetter(names, 97 + l)
  }

  /** Names before the r-th letter's slice have its earlier letters. */
  lemma {:induction false} SlicedRank(names: seq<Name>, r: nat, k: nat)
    requires SlicesRight(names) && r <= LETTERS && k < Below(names, r)
    ensures Rank(names[k]) < r && Below(names, Rank(names[k])) <= k < Below(names, Rank(names[k]) + 1)
  {
    hide OfLetter, Below, Rank;
    NoneBelow(names);
    var i, j := Below(names, r - 1), Below(names, r);
    assert SliceRight(names, r - 1);
    if k < i {
      SlicedRank(names, r - 1, k);
    } else {
      assert names[k] == names[i..j][k - i];
      OfLetterMember(names, r - 1, names[k]);
    }
  }

  lemma {:induction false} ZeroBelow(names: seq<Name>, r: nat)
    requires Below(names, r) == 0
    ensures forall k :: 0 <= k < |names| ==> Rank(names[k]) >= r
  {
    hide Rank;
    if names != [] {
      ZeroBelow(names[..|names| - 1], r);
    }
  }

  lemma UnlistedRank(names: seq<Name>, k: nat)
    requires SlicesRight(names) && Below(names, LETTERS) <= k < |names|
    ensures Rank(names[k]) == LETTERS
  {
    hide Rank, Below;
    var t := Below(names, LETTERS);
    var a, b := names[..t], names[t..];
    assert names == a + b;
    forall i | 0 <= i < t
      ensures Rank(a[i]) < LETTERS
    {
      SlicedRank(names, LETTERS, i);
    }
    AllBelow(a, LETTERS);
    BelowConcat(a, b, LETTERS);
    ZeroBelow(b, LETTERS);
    assert b[k - t] == names[k];
  }

  lemma SlicesGroup(names: seq<Name>)
    requires SlicesRight(names)
    ensures Grouped(names)
  {
    hide Rank, Below, SlicesRight;
    forall i, j | 0 <= i < j < |names|
      ensures Rank(names[i]) <= Rank(names[j])
    {
      if j < Below(names, LETTERS) {
        SlicedRank(names, LETTERS, i);
        SlicedRank(names, LETTERS, j);
        if Rank(names[j]) < Rank(names[i]) {
          BelowMonotone(names, Rank(names[j]) + 1, Rank(names[i]));
        }
      } else {
        UnlistedRank(names, j);
      }
    }
  }

  /** The emitted lookup gives each letter its own names exactly when the list stands by letter,
      names with no letter last. */
  lemma IndexExact(names: seq<Name>, index: seq<IndexEntry>)
    requires Indexes(index, names)
    ensures (forall l: nat :: l < LETTERS ==> GetPackages(index, names, l) == OfLetter(names, 97 + l))
       <==> Grouped(names)
  {
    hide Below, OfLetter, Rank;
    forall l: nat | l < LETTERS
      ensures GetPackages(index, names, l) == OfLetter(names, 97 + l) <==> SliceRight(names, l)
    {
      NextBelow(names, l);
    }
    if Grouped(names) {
      forall l: nat | l < LETTERS
        ensures SliceRight(names, l)
      {
        GroupedSlice(names, l);
      }
    }
    if SlicesRight(names) {
      SlicesGroup(names);
    }
  }

  // ----- Sorted lists -----

  /** Order by code unit, as `sort()` compares. */
  predicate NotAfter(a: seq<Unit>, b: seq<Unit>) {
    a == [] || (b != [] && (a[0] < b[0] || (a[0] == b[0] && NotAfter(a[1..], b[1..]))))
  }

  /** A sorted list of names that start with a to z is grouped, so its index is right and its 26
      slices are the whole list. */
  lemma SortedIsGrouped(names: seq<Name>)
    requires forall i, j :: 0 <= i < j < |names| ==> NotAfter(names[i], names[j])
    requires forall k :: 0 <= k < |names| ==> 97 <= names[k][0] <= 122
    ensures Grouped(names) && Below(names, LETTERS) == |names|
  {
    AllBelow(names, LETTERS);
    forall i, j | 0 <= i < j < |names|
      ensures Rank(names[i]) <= Rank(names[j])
    {
      assert NotAfter(names[i], names[j]);
    }
  }

  /** The two cases of one ASCII letter, or the Kelvin sign and a k. */
  predicate CasePair(u: Unit, v: Unit) {
    (65 <= u <= 90 && v == u + 32) || (u == 0x212a && (v == 75 || v == 107))
  }

  /** Names share a group exactly when they start with the same character up to its case. */
  lemma SameGroup(a: Name, b: Name)
    ensures FirstLetter(a) == FirstLetter(b) <==> a[0] == b[0] || CasePair(a[0], b[0]) || CasePair(b[0], a[0])
  {
  }

  /** Which names are a letter's: those that start with it in either case, and with the Kelvin sign for k. */
  lemma LetterNames(names: seq<Name>, l: nat, name: Name)
    requires l < LETTERS
    ensures name in OfLetter(names, 97 + l) <==>
      name in names && (name[0] == 97 + l || name[0] == 65 + l || (l == 10 && name[0] == 0x212a))
  {
    if names != [] {
      var n := |names| - 1;
      LetterNames(names[..n], l, name);
      assert names == names[..n] + [names[n]];
    }
  }

  /** A scoped name sorts before the letters and shifts every slice by one. */
  lemma ScopedNameShiftsSlices()
    ensures var names: seq<Name> := [[64, 97], [97]]; !Grouped(names) && OfLetter(names, 97) == [names[1]]
    ensures var names: seq<Name> := [[64, 97], [97]];
      forall index :: Indexes(index, names) ==> GetPackages(index, names, 0) == [names[0]]
  {
    var names: seq<Name> := [[64, 97], [97]];
    assert Rank(names[0]) == LETTERS && Rank(names[1]) == 0;
    assert names[..1] == [names[0]];
    assert OfLetter(names[..1], 97) == [];
    NoneBelow(names);
  }

  lemma AccentedBytes(name: Name)
    requires name == [0xe9]
    ensures Utf8(name) == [0xc3, 0xa9] && EncodeName(name) == [1, 0, 0xc3, 0xa9] && Le32(1) == [1, 0, 0, 0]
  {
    hide U16, U32;
    assert name[1..] == [] && CodePoint(0xe9) == [0xc3, 0xa9];
    assert Utf8(name[1..]) == [];
    assert Le16(1) == [1, 0] && Le16(0) == [0, 0];
  }

  lemma ReadAccented(data: Bytes)
    requires data == [1, 0, 0, 0, 1, 0, 0xc3, 0xa9]
    ensures Parse(data) == Some([[0xc3]])
  {
    assert U32(data, 0) == 1 && U16(data, 4) == 1;
    assert data[6..7] == [0xc3];
    assert ParseFrom(data, 7, 0, [[0xc3]]) == Some([[0xc3]]);
    assert [] + [data[6..7]] == [[0xc3]];
  }

  /** One name of one letter outside ASCII: its bytes are not what the size says, and reading them back
      gives half a letter. */
  lemma AccentedNameIsCut()
    ensures var names: seq<Name> := [[0xe9]];
      && Fit(names) && Encoded(names) == [1, 0, 0, 0, 1, 0, 0xc3, 0xa9]
      && 4 + Counted(names) == 7 && Parse(Encoded(names)) == Some([[0xc3]])
      && Utf8All(names) == [[0xc3, 0xa9]]
  {
    hide Utf8, EncodeName, Le32, U16, U32, Parse;
    var names: seq<Name> := [[0xe9]];
    AccentedBytes(names[0]);
    assert names[..0] == [];
    assert EncodeNames(names) == [] + EncodeName(names[0]);
    assert Encoded(names) == [1, 0, 0, 0] + [1, 0, 0xc3, 0xa9];
    ReadAccented(Encoded(names));
    assert Utf8All(names) == [Utf8(names[0])];
  }
}
