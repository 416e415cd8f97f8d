/** The decoder against the format's own reading: a text is lines split at `;`, a line is segments split
    at `,`, empty segments are nothing, and a segment is 1, 4 or 5 values. */
module Segments {
  import opened Wrappers
  import opened Bits
  import opened Records
  import opened Vlq
  import opened Mappings
  import opened RoundTrip

  predicate IsSeparator(c: CodeUnit) {
    c == COMMA || c == SEMICOLON
  }

  /** How far the text goes before its first separator. */
  function Reach(text: Text): (n: nat)
    ensures n <= |text|
    ensures forall k :: 0 <= k < n ==> !IsSeparator(text[k])
    ensures n < |text| ==> IsSeparator(text[n])
  {
    if text == [] || IsSeparator(text[0]) then 0 else 1 + Reach(text[1..])
  }

  /** The non-empty segments of each line. */
  function Lines(text: Text): (lines: seq<seq<Text>>)
    ensures lines != []
    decreases |text|
  {
    if text == [] then [[]]
    else if text[0] == SEMICOLON then [[]] + Lines(text[1..])
    else if text[0] == COMMA then Lines(text[1..])
    else
      var n := Reach(text);
      var rest := Lines(text[n..]);
      [[text[..n]] + rest[0]] + rest[1..]
  }

  /** A segment's values; `None` when it is not a list of whole values. */
  function Values(segment: Text, k: nat): Option<seq<int>>
    requires k <= |segment|
    decreases |segment| - k
  {
    if k == |segment| then Some([])
    else
      match Vlq.Decode(segment, k)
      case Err(_) => None
      case Ok((value, next)) =>
        match Values(segment, next)
        case None => None
        case Some(values) => Some([value] + values)
  }

  datatype Reading = Reading(previous: Previous, record: Record, descends: bool)

  /** A segment's mapping, relative to the values before it. */
  function ReadMapping(sourcesCount: nat, line: nat, p: Previous, segment: Text): Option<Reading> {
    match Values(segment, 0)
    case None => None
    case Some(v) =>
      if |v| != 1 && |v| != 4 && |v| != 5 then None
      else
        var column := p.column + v[0];
        if column < 0 then None
        else if |v| == 1 then
          Some(Reading(p.(column := column), Record(ToInt32(line), ToInt32(column), -1, -1, -1, -1), v[0] < 0))
        else
          var source, originalLine, originalColumn := p.source + v[1], p.originalLine + v[2], p.originalColumn + v[3];
          var name := p.name + if |v| == 5 then v[4] else 0;
          if !(0 <= source < sourcesCount) || originalLine < 0 || originalColumn < 0 || (|v| == 5 && name < 0) then None
          else
            var record := Record(ToInt32(line), ToInt32(column), ToInt32(source), ToInt32(originalLine),
                                 ToInt32(originalColumn), if |v| == 5 then ToInt32(name) else -1);
            Some(Reading(Previous(column, source, originalLine, originalColumn, name), record, v[0] < 0))
  }

  datatype LineReading = LineReading(previous: Previous, records: seq<Record>, descends: bool)

  /** A line's mappings in turn, and whether some column goes back. */
  function ReadLine(sourcesCount: nat, line: nat, p: Previous, segments: seq<Text>): Option<LineReading>
    decreases |segments|
  {
    if segments == [] then Some(LineReading(p, [], false))
    else
      match ReadMapping(sourcesCount, line, p, segments[0])
      case None => None
      case Some(first) =>
        match ReadLine(sourcesCount, line, first.previous, segments[1..])
        case None => None
        case Some(rest) =>
          Some(LineReading(rest.previous, [first.record] + rest.records, first.descends || rest.descends))
  }

  function Sorted(records: seq<Record>, descends: bool): seq<Record> {
    if descends then InsertionSort(records) else records
  }

  datatype TextReading = TextReading(previous: Previous, line: nat, records: seq<Record>, descends: bool)

  /** The lines in turn; each but the last is sorted if its columns go back. */
  function ReadLines(sourcesCount: nat, line: nat, p: Previous, lines: seq<seq<Text>>): Option<TextReading>
    requires lines != []
    decreases |lines|
  {
    match ReadLine(sourcesCount, line, p, lines[0])
    case None => None
    case Some(first) =>
      if |lines| == 1 then Some(TextReading(first.previous, line, first.records, first.descends))
      else
        match ReadLines(sourcesCount, line + 1, first.previous.(column := 0), lines[1..])
        case None => None
        case Some(rest) => Some(rest.(records := Sorted(first.records, first.descends) + rest.records))
  }

  function ReadText(text: Text, sourcesCount: nat): Option<TextReading> {
    ReadLines(sourcesCount, 0, START, Lines(text))
  }

  // ----- One value, one segment -----

  lemma SeparatorIsNoDigit(c: CodeUnit)
    requires IsSeparator(c)
    ensures Digit(And(c, 0x7f)) == INVALID
  {
    hide And;
    CharMask(c);
  }

  /** A value is read from the text as from its segment alone. */
  lemma {:induction false} ValueInSegment(
    text: Text, base: nat, segment: Text, k: nat, shift: nat, word: nat)
    requires At(text, base, segment) && k <= |segment|
    requires base + |segment| == |text| || IsSeparator(text[base + |segment|])
    ensures match DecodeFrom(segment, k, shift, word)
      case Ok((value, next)) => DecodeFrom(text, base + k, shift, word) == Ok((value, base + next))
      case Err(_) => DecodeFrom(text, base + k, shift, word).Err?
    decreases |segment| - k
  {
    hide And, Accumulate, Digit, SignedValue;
    if k == |segment| {
      if base + k < |text| {
        SeparatorIsNoDigit(text[base + k]);
      }
    } else {
      assert text[base + k] == text[base..base + |segment|][k];
      var index := Digit(And(segment[k], 0x7f));
      if And(segment[k], 0x7f) == segment[k] && index != INVALID && And(index, 32) != 0 {
        ValueInSegment(text, base, segment, k + 1, shift + 5, Accumulate(word, index, shift));
      }
    }
  }

  function PreviousOf(st: State): Previous {
    Previous(st.column, st.source, st.originalLine, st.originalColumn, st.name)
  }

  /** The segment stands in the text at `base`, up to a separator or the end. */
  predicate Stands(text: Text, base: nat, segment: Text) {
    && At(text, base, segment) && (base + |segment| == |text| || IsSeparator(text[base + |segment|]))
    && forall k :: 0 <= k < |segment| ==> !IsSeparator(segment[k])
  }

  lemma FieldInSegment(
    text: Text, base: nat, segment: Text, k: nat, previous: int, limit: Option<nat>, reason: Reason)
    requires Stands(text, base, segment) && k <= |segment|
    ensures var r := ReadField(text, base + k, previous, limit, reason);
      match Vlq.Decode(segment, k)
      case Ok((value, next)) =>
        if previous + value < 0 || (limit.Some? && previous + value >= limit.value) then r.Err?
        else r == Ok((previous + value, base + next))
      case Err(_) => r.Err?
  {
    hide DecodeFrom, At;
    ValueInSegment(text, base, segment, k, 0, 0);
  }

  /** A mapping ends where its segment does. */
  lemma EndsWithSegment(text: Text, base: nat, segment: Text, k: nat)
    requires Stands(text, base, segment) && k <= |segment|
    ensures MappingEnds(text, base + k) <==> k == |segment|
  {
    if k < |segment| {
      assert text[base + k] == text[base..base + |segment|][k];
    }
  }

  lemma NextValue(segment: Text, k: nat)
    requires k <= |segment|
    ensures k == |segment| ==> Values(segment, k) == Some([])
    ensures k < |segment| && Vlq.Decode(segment, k).Err? ==> Values(segment, k) == None
    ensures k < |segment| && Vlq.Decode(segment, k).Ok? ==>
      var (value, next) := Vlq.Decode(segment, k).value; var rest := Values(segment, next);
      Values(segment, k) == if rest.None? then None else Some([value] + rest.value)
  {
    hide Vlq.Decode;
  }

  lemma NoValueAtEnd(segment: Text)
    ensures Vlq.Decode(segment, |segment|).Err?
  {
  }

  /** A name, which must be the segment's last value. */
  lemma NameReads(text: Text, base: nat, segment: Text, k: nat, st: State)
    requires st.Valid() && Stands(text, base, segment) && k < |segment| && st.i == base + k
    ensures var r, v := ParseName(text, st), Values(segment, k);
      if v.Some? && |v.value| == 1 && st.name + v.value[0] >= 0
      then r == Ok(Mapping(SkipComma(text, st.(i := base + |segment|, name := st.name + v.value[0])), true, true))
      else r.Err?
  {
    hide ReadField, Values, Stands, Vlq.Decode, MappingEnds;
    FieldInSegment(text, base, segment, k, st.name, None, InvalidOriginalName);
    NextValue(segment, k);
    if Vlq.Decode(segment, k).Ok? {
      var next := Vlq.Decode(segment, k).value.1;
      EndsWithSegment(text, base, segment, next);
      NextValue(segment, next);
    }
  }

  predicate PositionIn(sourcesCount: nat, source: int, originalLine: int, originalColumn: int) {
    0 <= source < sourcesCount && originalLine >= 0 && originalColumn >= 0
  }

  /** The values [a, b, c] of a position, and where the next one starts. */
  lemma PositionReads(text: Text, sourcesCount: nat, base: nat, segment: Text, k: nat, st: State)
    returns (next: nat, a: int, b: int, c: int)
    requires st.Valid() && Stands(text, base, segment) && k <= |segment| && st.i == base + k
    ensures var r, v := ParsePosition(text, sourcesCount, st), Values(segment, k);
      if r.Ok? then
        && next <= |segment|
        && r.value == st.(i := base + next, source := st.source + a, originalLine := st.originalLine + b,
                          originalColumn := st.originalColumn + c)
        && PositionIn(sourcesCount, st.source + a, st.originalLine + b, st.originalColumn + c)
        && v == if Values(segment, next).None? then None else Some([a, b, c] + Values(segment, next).value)
      else v.Some? && |v.value| >= 3 ==>
        !PositionIn(sourcesCount, st.source + v.value[0], st.originalLine + v.value[1], st.originalColumn + v.value[2])
  {
    hide ReadField, Values, Stands, Vlq.Decode;
    next, a, b, c := k, 0, 0, 0;
    NoValueAtEnd(segment);
    FieldInSegment(text, base, segment, k, st.source, Some(sourcesCount), InvalidOriginalSource);
    NextValue(segment, k);
    if Vlq.Decode(segment, k).Ok? {
      a, next := Vlq.Decode(segment, k).value.0, Vlq.Decode(segment, k).value.1;
      FieldInSegment(text, base, segment, next, st.originalLine, None, InvalidOriginalLine);
      NextValue(segment, next);
      if Vlq.Decode(segment, next).Ok? {
        b, next := Vlq.Decode(segment, next).value.0, Vlq.Decode(segment, next).value.1;
        FieldInSegment(text, base, segment, next, st.originalColumn, None, InvalidOriginalColumn);
        NextValue(segment, next);
        if Vlq.Decode(segment, next).Ok? {
          c, next := Vlq.Decode(segment, next).value.0, Vlq.Decode(segment, next).value.1;
          var rest := Values(segment, next);
          assert rest.Some? ==> [a] + ([b] + ([c] + rest.value)) == [a, b, c] + rest.value;
        }
      }
    }
  }

  /** An original position, with a name or without. */
  lemma OriginalReads(text: Text, sourcesCount: nat, base: nat, segment: Text, k: nat, st: State)
    requires st.Valid() && Stands(text, base, segment) && k < |segment| && st.i == base + k
    ensures var r, v := ParseOriginal(text, sourcesCount, st), Values(segment, k);
      if v.Some? && (|v.value| == 3 || |v.value| == 4)
         && PositionIn(sourcesCount, st.source + v.value[0], st.originalLine + v.value[1],
                       st.originalColumn + v.value[2])
         && (|v.value| == 4 ==> st.name + v.value[3] >= 0)
      then
        var next := st.(i := base + |segment|, source := st.source + v.value[0],
                        originalLine := st.originalLine + v.value[1], originalColumn := st.originalColumn + v.value[2],
                        name := st.name + if |v.value| == 4 then v.value[3] else 0);
        r == Ok(Mapping(SkipComma(text, next), true, |v.value| == 4))
      else r.Err?
  {
    hide ParsePosition, ParseName, Values, Stands, Vlq.Decode, MappingEnds, PositionIn;
    var next, a, b, c := PositionReads(text, sourcesCount, base, segment, k, st);
    var r := ParsePosition(text, sourcesCount, st);
    if r.Ok? {
      EndsWithSegment(text, base, segment, next);
      NextValue(segment, next);
      if next < |segment| {
        NameReads(text, base, segment, next, r.value);
      }
    }
  }

  /** A whole segment is read as its mapping, or refused. */
  lemma SegmentReads(text: Text, sourcesCount: nat, st: State, segment: Text)
    requires st.Valid() && Stands(text, st.i, segment) && segment != []
    ensures var r := ParseSegment(text, sourcesCount, st);
      var m := ReadMapping(sourcesCount, st.line, PreviousOf(st), segment);
      if m.None? then r.Err?
      else
        && r.Ok? && r.value.st == SkipComma(text, Moved(st, m.value.previous, st.i + |segment|, m.value.descends))
        && Append(r.value.st, r.value.hasSource, r.value.hasName).records == st.records + [m.value.record]
  {
    hide ReadField, ParseOriginal, Values, Stands, Vlq.Decode, MappingEnds, ToInt32, At;
    FieldInSegment(text, st.i, segment, 0, st.column, None, InvalidGeneratedColumn);
    NextValue(segment, 0);
    if Vlq.Decode(segment, 0).Ok? {
      var (delta, next) := Vlq.Decode(segment, 0).value;
      EndsWithSegment(text, st.i, segment, next);
      NextValue(segment, next);
      if st.column + delta >= 0 && next < |segment| {
        var after := st.(i := st.i + next, column := st.column + delta, needSort := st.needSort || delta < 0);
        OriginalReads(text, sourcesCount, st.i, segment, next, after);
      }
    }
  }

  // ----- The whole text -----

  /** The reading of what is left of a text, on top of what a state holds. */
  ghost function Continued(st: State, sourcesCount: nat, lines: seq<seq<Text>>): Option<TextReading>
    requires st.Valid() && lines != []
  {
    match ReadLine(sourcesCount, st.line, PreviousOf(st), lines[0])
    case None => None
    case Some(first) =>
      var records, descends := st.Current() + first.records, st.needSort || first.descends;
      if |lines| == 1 then
        Some(TextReading(first.previous, st.line, st.records[..st.lineStart] + records, descends))
      else
        match ReadLines(sourcesCount, st.line + 1, first.previous.(column := 0), lines[1..])
        case None => None
        case Some(rest) =>
          Some(rest.(records := st.records[..st.lineStart] + Sorted(records, descends) + rest.records))
  }

  ghost predicate Agrees(r: Result<State, DecodeError>, t: Option<TextReading>) {
    match r
    case Err(_) => t.None?
    case Ok(end) => t == Some(TextReading(PreviousOf(end), end.line, end.records, end.needSort))
  }

  lemma ContinuedAtEnd(st: State, sourcesCount: nat)
    requires st.Valid()
    ensures Continued(st, sourcesCount, [[]]) == Some(TextReading(PreviousOf(st), st.line, st.records, st.needSort))
  {
    assert st.records[..st.lineStart] + (st.Current() + []) == st.records;
  }

  lemma ContinuedAtBreak(st: State, sourcesCount: nat, lines: seq<seq<Text>>)
    requires st.Valid() && lines != []
    ensures Continued(st, sourcesCount, [[]] + lines) == Continued(LineBreak(st), sourcesCount, lines)
  {
    hide InsertionSort, ReadMapping;
    var next := LineBreak(st);
    assert ([[]] + lines)[1..] == lines;
    assert st.Current() + [] == st.Current() && next.Current() == [];
    assert next.records == st.records[..st.lineStart] + Sorted(st.Current(), st.needSort);
    assert next.records[..next.lineStart] == next.records;
    FirstLineRead(sourcesCount, next, lines);
  }

  lemma FirstLineRead(sourcesCount: nat, st: State, lines: seq<seq<Text>>)
    requires st.Valid() && lines != [] && st.Current() == [] && !st.needSort && st.column == 0
    ensures var r := ReadLines(sourcesCount, st.line, PreviousOf(st), lines);
      Continued(st, sourcesCount, lines)
        == if r.None? then None else Some(r.value.(records := st.records + r.value.records))
  {
    hide InsertionSort, ReadMapping, ReadLine;
    assert st.records[..st.lineStart] == st.records;
    var first := ReadLine(sourcesCount, st.line, PreviousOf(st), lines[0]);
    if first.Some? {
      assert [] + first.value.records == first.value.records;
      if |lines| > 1 {
        var rest := ReadLines(sourcesCount, st.line + 1, first.value.previous.(column := 0), lines[1..]);
        if rest.Some? {
          var sorted := Sorted(first.value.records, first.value.descends);
          assert st.records + sorted + rest.value.records == st.records + (sorted + rest.value.records);
        }
      }
    }
  }

  lemma ContinuedAtSegment(st: State, sourcesCount: nat, segment: Text, rest: seq<seq<Text>>, next: State)
    requires st.Valid() && next.Valid() && rest != []
    requires var m := ReadMapping(sourcesCount, st.line, PreviousOf(st), segment);
      && m.Some?
      && next == Moved(st, m.value.previous, next.i, m.value.descends).(records := st.records + [m.value.record])
    ensures Continued(st, sourcesCount, [[segment] + rest[0]] + rest[1..]) == Continued(next, sourcesCount, rest)
  {
    hide InsertionSort, ReadMapping;
    var lines := [[segment] + rest[0]] + rest[1..];
    assert lines[1..] == rest[1..] && lines[0][1..] == rest[0];
    var m := ReadMapping(sourcesCount, st.line, PreviousOf(st), segment).value;
    assert next.Current() == st.Current() + [m.record];
    assert next.records[..next.lineStart] == st.records[..st.lineStart];
    assert PreviousOf(next) == m.previous;
    var tail := ReadLine(sourcesCount, st.line, m.previous, rest[0]);
    if tail.Some? {
      assert st.Current() + ([m.record] + tail.value.records) == next.Current() + tail.value.records;
    }
  }

  /** The next segment of the text, up to a separator or the end. */
  lemma SegmentStands(text: Text, i: nat)
    requires i < |text| && !IsSeparator(text[i])
    ensures var n := Reach(text[i..]); n > 0 && i + n <= |text| && Stands(text, i, text[i..][..n])
    ensures var n := Reach(text[i..]); i + n == |text| || IsSeparator(text[i + n])
  {
    var n := Reach(text[i..]);
    assert text[i..][..n] == text[i..i + n];
    if i + n < |text| {
      assert text[i..][n] == text[i + n];
    }
  }

  /** A segment in front, and what follows it, with or without the comma. */
  lemma LinesAtSegment(text: Text, i: nat)
    requires i < |text| && !IsSeparator(text[i])
    ensures var n := Reach(text[i..]); var rest := Lines(text[i + n..]);
      && Lines(text[i..]) == [[text[i..][..n]] + rest[0]] + rest[1..]
      && (i + n < |text| && text[i + n] == COMMA ==> Lines(text[i + n + 1..]) == rest)
  {
    hide Lines, Reach, Stands;
    SegmentStands(text, i);
    var n := Reach(text[i..]);
    SegmentFirst(text[i..]);
    assert text[i..][n..] == text[i + n..];
    if i + n < |text| && text[i + n] == COMMA {
      CommaFirst(text[i + n..]);
      assert text[i + n..][1..] == text[i + n + 1..];
    }
  }

  lemma SegmentFirst(text: Text)
    requires text != [] && !IsSeparator(text[0])
    ensures var n := Reach(text); var rest := Lines(text[n..]); Lines(text) == [[text[..n]] + rest[0]] + rest[1..]
  {
    hide Reach;
  }

  lemma CommaFirst(text: Text)
    requires text != [] && text[0] == COMMA
    ensures Lines(text) == Lines(text[1..])
  {
  }

  lemma StepReads(text: Text, sourcesCount: nat, st: State)
    requires st.Valid() && st.i < |text|
    ensures var lines := Lines(text[st.i..]); var r := Step(text, sourcesCount, st);
      if r.Err? then Continued(st, sourcesCount, lines) == None
      else Continued(st, sourcesCount, lines) == Continued(r.value, sourcesCount, Lines(text[r.value.i..]))
  {
    hide InsertionSort, ParseSegment, ReadMapping, Stands, Append, Reach, ReadLines, Continued, Lines;
    var suffix := text[st.i..];
    assert suffix[1..] == text[st.i + 1..];
    if IsSeparator(text[st.i]) {
      SeparatorFirst(suffix);
    }
    if text[st.i] == SEMICOLON {
      ContinuedAtBreak(st, sourcesCount, Lines(suffix[1..]));
    } else if text[st.i] == COMMA {
      var next := st.(i := st.i + 1);
      ContinuedSkips(st, next, sourcesCount, Lines(suffix));
    } else {
      SegmentStands(text, st.i);
      LinesAtSegment(text, st.i);
      var n := Reach(suffix);
      var segment, rest := suffix[..n], Lines(text[st.i + n..]);
      SegmentReads(text, sourcesCount, st, segment);
      var m := ReadMapping(sourcesCount, st.line, PreviousOf(st), segment);
      if m.None? {
        ContinuedRefuses(st, sourcesCount, segment, rest);
      } else {
        AppendedState(text, sourcesCount, st, segment);
        var next := Step(text, sourcesCount, st).value;
        ContinuedAtSegment(st, sourcesCount, segment, rest, next);
      }
    }
  }

  lemma ContinuedSkips(st: State, next: State, sourcesCount: nat, lines: seq<seq<Text>>)
    requires st.Valid() && next == st.(i := next.i) && lines != []
    ensures Continued(st, sourcesCount, lines) == Continued(next, sourcesCount, lines)
  {
  }

  lemma ContinuedRefuses(st: State, sourcesCount: nat, segment: Text, rest: seq<seq<Text>>)
    requires st.Valid() && rest != [] && ReadMapping(sourcesCount, st.line, PreviousOf(st), segment) == None
    ensures Continued(st, sourcesCount, [[segment] + rest[0]] + rest[1..]) == None
  {
    hide ReadMapping;
  }

  lemma AppendedState(text: Text, sourcesCount: nat, st: State, segment: Text)
    requires st.Valid() && st.i < |text| && !IsSeparator(text[st.i])
    requires Stands(text, st.i, segment) && segment != []
    requires ReadMapping(sourcesCount, st.line, PreviousOf(st), segment).Some?
    ensures Step(text, sourcesCount, st).Ok?
    ensures var next, m, end := Step(text, sourcesCount, st).value,
                                ReadMapping(sourcesCount, st.line, PreviousOf(st), segment).value, st.i + |segment|;
      && next.i == (if end < |text| && text[end] == COMMA then end + 1 else end)
      && next == Moved(st, m.previous, next.i, m.descends).(records := st.records + [m.record])
  {
    hide ParseSegment, ReadMapping, Stands, ToInt32;
    SegmentReads(text, sourcesCount, st, segment);
  }

  lemma {:induction false} RunReads(text: Text, sourcesCount: nat, st: State)
    requires st.Valid() && st.i <= |text|
    ensures Agrees(Run(text, sourcesCount, st), Continued(st, sourcesCount, Lines(text[st.i..])))
    decreases |text| - st.i
  {
    hide Step, Continued;
    if st.i < |text| {
      StepReads(text, sourcesCount, st);
      var r := Step(text, sourcesCount, st);
      if r.Ok? {
        RunReads(text, sourcesCount, r.value);
      }
    } else {
      assert text[st.i..] == [];
      ContinuedAtEnd(st, sourcesCount);
    }
  }

  /** For every text: the decoder accepts it exactly when splitting it at `;` and `,` gives segments of 1,
      4 or 5 good values, and then has those mappings' records, accumulators, line and debt of a sort. */
  lemma RunIsReading(text: Text, sourcesCount: nat)
    ensures Agrees(Run(text, sourcesCount, INITIAL), ReadText(text, sourcesCount))
  {
    hide Run, ReadLines, Continued, Lines;
    RunReads(text, sourcesCount, INITIAL);
    assert text[0..] == text;
    FirstLineRead(sourcesCount, INITIAL, Lines(text));
    var t := ReadText(text, sourcesCount);
    assert t.Some? ==> [] + t.value.records == t.value.records;
  }

  // ----- Stray commas -----

  /** A mapping, a break or the end stands here. */
  predicate Gap(before: Text, after: Text) {
    || before == [] || IsSeparator(before[|before| - 1])
    || after == [] || IsSeparator(after[0])
  }

  lemma ReachAcross(before: Text, after: Text)
    ensures Reach(before) < |before| ==> Reach(before + after) == Reach(before)
    ensures Reach(before) == |before| && (after == [] || IsSeparator(after[0])) ==> Reach(before + after) == |before|
  {
    if before != [] && !IsSeparator(before[0]) {
      assert (before + after)[1..] == before[1..] + after;
      ReachAcross(before[1..], after);
    } else {
      assert before == [] ==> before + after == after;
    }
  }

  /** A comma more there changes no line. */
  lemma {:induction false} CommaIgnored(before: Text, after: Text)
    requires Gap(before, after)
    ensures Lines(before + [COMMA] + after) == Lines(before + after)
    decreases |before|
  {
    hide Reach, Lines;
    var a, b := before + after, before + ([COMMA] + after);
    assert before + [COMMA] + after == b;
    if before == [] {
      CommaFirst(b);
      assert b[1..] == after == a;
    } else if IsSeparator(before[0]) {
      assert a[1..] == before[1..] + after && b[1..] == before[1..] + [COMMA] + after;
      CommaIgnored(before[1..], after);
      SeparatorFirst(a);
      SeparatorFirst(b);
    } else {
      var n := Reach(before);
      ReachAcross(before, after);
      ReachAcross(before, [COMMA] + after);
      SegmentFirst(a);
      SegmentFirst(b);
      assert a[..n] == before[..n] == b[..n];
      if n < |before| {
        assert a[n..] == before[n..] + after && b[n..] == before[n..] + [COMMA] + after;
        ReachIsPositive(before);
        CommaIgnored(before[n..], after);
      } else {
        assert a[n..] == after && b[n..] == [COMMA] + after;
        CommaFirst([COMMA] + after);
        assert ([COMMA] + after)[1..] == after;
      }
    }
  }

  lemma SeparatorFirst(text: Text)
    requires text != [] && IsSeparator(text[0])
    ensures Lines(text) == if text[0] == COMMA then Lines(text[1..]) else [[]] + Lines(text[1..])
  {
  }

  lemma ReachIsPositive(text: Text)
    requires text != [] && !IsSeparator(text[0])
    ensures Reach(text) > 0
  {
  }

  /** `b` is `a` with `n` commas put in, each where a mapping, a break or the end stands. */
  ghost predicate Padded(a: Text, b: Text, n: nat)
    decreases n
  {
    if n == 0 then a == b
    else exists before, after :: Gap(before, after) && a == before + after && Padded(before + [COMMA] + after, b, n - 1)
  }

  lemma {:induction false} PaddedSameLines(a: Text, b: Text, n: nat)
    requires Padded(a, b, n)
    ensures Lines(a) == Lines(b)
    decreases n
  {
    hide Lines, Gap;
    if n > 0 {
      var before, after :| Gap(before, after) && a == before + after && Padded(before + [COMMA] + after, b, n - 1);
      CommaIgnored(before, after);
      PaddedSameLines(before + [COMMA] + after, b, n - 1);
    }
  }

  /** Stray commas are ignored: with any number of them put in, a text is accepted exactly when it was,
      with the same records, accumulators, line and debt of a sort. */
  lemma StrayCommasIgnored(a: Text, b: Text, n: nat, sourcesCount: nat)
    requires Padded(a, b, n)
    ensures var x, y := Run(a, sourcesCount, INITIAL), Run(b, sourcesCount, INITIAL);
      && (x.Ok? <==> y.Ok?)
      && (x.Ok? ==> y.value == x.value.(i := y.value.i, lineStart := y.value.lineStart))
  {
    hide Run, Lines, ReadLines, Padded;
    PaddedSameLines(a, b, n);
    RunIsReading(a, sourcesCount);
    RunIsReading(b, sourcesCount);
  }

  /** An encoding with stray commas decodes like the encoding. */
  lemma PaddedRoundTrips(lines: seq<seq<Entry>>, sourcesCount: nat, text: Text, n: nat)
    requires ValidLines(lines, sourcesCount) && NearLines(START, lines) && |lines| <= TWO_31
    requires Padded(EncodeLines(START, lines), text, n)
    ensures Run(text, sourcesCount, INITIAL).Ok?
    ensures Run(text, sourcesCount, INITIAL).value.records == DecodedLines(0, lines)
  {
    hide Run, EncodeLines, DecodedLines, Padded, ValidLines, NearLines;
    RoundTrips(lines, sourcesCount);
    StrayCommasIgnored(EncodeLines(START, lines), text, n, sourcesCount);
  }

  // ----- Errors -----

  /** The k-th value from `i` on, and the index just past it. */
  function ValueAt(text: Text, i: nat, k: nat): Result<(int, nat), DecodeError>
    decreases k
  {
    if k == 0 then Vlq.Decode(text, i)
    else
      match Vlq.Decode(text, i)
      case Err(error) => Err(error)
      case Ok((_, next)) => ValueAt(text, next, k - 1)
  }

  /** A value breaks off at a character that is no digit, or at the end, after digits that go on. */
  lemma {:induction false} BrokenValue(text: Text, i: nat, shift: nat, word: nat)
    requires DecodeFrom(text, i, shift, word).Err?
    ensures var error := DecodeFrom(text, i, shift, word).error;
      && i <= error.index
      && (forall k :: i <= k < error.index && k < |text| ==> 32 <= Digit(text[k]) < 64)
      && if error.index < |text| then error.reason == InvalidCharacter && Digit(text[error.index]) == INVALID
         else error.reason == ExpectedExtraData
    decreases |text| - i
  {
    hide And, Accumulate, Digit, SignedValue;
    if i < |text| {
      CharDigit(text[i]);
      if Digit(text[i]) != INVALID {
        DigitGoesOn(Digit(text[i]));
        BrokenValue(text, i + 1, shift + 5, Accumulate(word, Digit(text[i]), shift));
      }
    }
  }

  lemma CharDigit(c: CodeUnit)
    ensures And(c, 0x7f) == c ==> Digit(And(c, 0x7f)) == Digit(c)
    ensures And(c, 0x7f) != c ==> Digit(c) == INVALID
  {
    hide And;
    CharMask(c);
  }

  lemma DigitGoesOn(index: nat)
    ensures index < 64 ==> (And(index, 32) == 0 <==> index < 32)
  {
    hide And;
    if index < 64 {
      DigitMasks(index);
    }
  }

  /** What an error says of the mapping it was met in: which value is out of range, and that the index is
      just past it; or which value broke off; or that a fifth value was not the last. */
  ghost predicate Explains(error: DecodeError, text: Text, sourcesCount: nat, st: State) {
    match error.reason
    case InvalidGeneratedColumn => OutOfRange(text, st.i, 0, st.column, error.index)
    case InvalidOriginalSource =>
      var value := ValueAt(text, st.i, 1);
      value.Ok? && value.value.1 == error.index && !(0 <= st.source + value.value.0 < sourcesCount)
    case InvalidOriginalLine => OutOfRange(text, st.i, 2, st.originalLine, error.index)
    case InvalidOriginalColumn => OutOfRange(text, st.i, 3, st.originalColumn, error.index)
    case InvalidOriginalName => OutOfRange(text, st.i, 4, st.name, error.index)
    case InvalidCharacterAfterMapping =>
      var value := ValueAt(text, st.i, 4);
      value.Ok? && value.value.1 == error.index && error.index < |text| && !IsSeparator(text[error.index])
    case _ => exists k: nat :: k < 5 && ValueAt(text, st.i, k) == Err(error)
  }

  predicate OutOfRange(text: Text, i: nat, k: nat, previous: int, index: nat) {
    var value := ValueAt(text, i, k);
    value.Ok? && value.value.1 == index && previous + value.value.0 < 0
  }

  /** Every error the decoder reports of a mapping is one that is there. */
  lemma ErrorsExplained(text: Text, sourcesCount: nat, st: State)
    requires st.Valid() && ParseSegment(text, sourcesCount, st).Err?
    ensures Explains(ParseSegment(text, sourcesCount, st).error, text, sourcesCount, st)
  {
    hide Vlq.Decode, ValueAt, MappingEnds;
    assert ValueAt(text, st.i, 0) == Vlq.Decode(text, st.i) by {
      FirstValue(text, st.i);
    }
    forall k: nat | ValueAt(text, st.i, k).Ok?
      ensures ValueAt(text, st.i, k + 1) == Vlq.Decode(text, ValueAt(text, st.i, k).value.1)
    {
      NextValueAt(text, st.i, k);
    }
    assert ValueAt(text, st.i, 0 + 1) == ValueAt(text, st.i, 1);
    assert ValueAt(text, st.i, 1 + 1) == ValueAt(text, st.i, 2);
    assert ValueAt(text, st.i, 2 + 1) == ValueAt(text, st.i, 3);
    assert ValueAt(text, st.i, 3 + 1) == ValueAt(text, st.i, 4);
    NotEnded(text);
    forall j: nat | Vlq.Decode(text, j).Err?
      ensures Vlq.Decode(text, j).error.reason.InvalidCharacter? || Vlq.Decode(text, j).error.reason.ExpectedExtraData?
    {
      BrokenOffAt(text, j);
    }
  }

  lemma BrokenOffAt(text: Text, i: nat)
    requires Vlq.Decode(text, i).Err?
    ensures var reason := Vlq.Decode(text, i).error.reason; reason.InvalidCharacter? || reason.ExpectedExtraData?
  {
    BrokenValue(text, i, 0, 0);
  }

  lemma FirstValue(text: Text, i: nat)
    ensures ValueAt(text, i, 0) == Vlq.Decode(text, i)
  {
  }

  lemma {:induction false} NextValueAt(text: Text, i: nat, k: nat)
    requires ValueAt(text, i, k).Ok?
    ensures ValueAt(text, i, k + 1) == Vlq.Decode(text, ValueAt(text, i, k).value.1)
    decreases k
  {
    hide Vlq.Decode;
    if k > 0 {
      NextValueAt(text, Vlq.Decode(text, i).value.1, k - 1);
    }
  }

  lemma NotEnded(text: Text)
    ensures forall i: nat :: !MappingEnds(text, i) ==> i < |text| && !IsSeparator(text[i])
  {
  }
}
