/** The `mappings` encoding of ECMA-426 ("Mappings structure" section), and that decoding it
    recovers every mapping. */
module RoundTrip {
  import opened Wrappers
  import opened Bits
  import opened Records
  import opened Vlq
  import opened Mappings
  import opened MappingsOrder

  /** A mapping of 1, 4 or 5 fields. */
  datatype Entry =
    | Generated(column: int)
    | Sourced(column: int, source: int, originalLine: int, originalColumn: int)
    | Named(column: int, source: int, originalLine: int, originalColumn: int, name: int)

  /** The previous value of each field, which the next one is written relative to. */
  datatype Previous = Previous(column: int, source: int, originalLine: int, originalColumn: int, name: int)

  function After(p: Previous, e: Entry): Previous {
    match e
    case Generated(column) => p.(column := column)
    case Sourced(column, source, line, originalColumn) => Previous(column, source, line, originalColumn, p.name)
    case Named(column, source, line, originalColumn, name) => Previous(column, source, line, originalColumn, name)
  }

  function EncodePosition(p: Previous, e: Entry): Text
    requires !e.Generated?
  {
    Encode(e.source - p.source) + (Encode(e.originalLine - p.originalLine)
      + Encode(e.originalColumn - p.originalColumn))
  }

  function EncodeOriginal(p: Previous, e: Entry): (s: Text)
    ensures !e.Generated? ==> s != [] && s[0] != COMMA && s[0] != SEMICOLON
  {
    match e
    case Generated(_) => []
    case Sourced(_, _, _, _) => EncodePosition(p, e)
    case Named(_, _, _, _, name) => EncodePosition(p, e) + Encode(name - p.name)
  }

  function EncodeEntry(p: Previous, e: Entry): (s: Text)
    ensures s != [] && s[0] != COMMA && s[0] != SEMICOLON
  {
    Encode(e.column - p.column) + EncodeOriginal(p, e)
  }

  function EncodeLine(p: Previous, line: seq<Entry>): Text
    decreases |line|, 1
  {
    if line == [] then [] else EncodeEntry(p, line[0]) + EncodeMore(After(p, line[0]), line[1..])
  }

  function EncodeMore(p: Previous, line: seq<Entry>): Text
    decreases |line|, 2
  {
    if line == [] then [] else [COMMA] + EncodeLine(p, line)
  }

  function AfterLine(p: Previous, line: seq<Entry>): Previous
    decreases |line|
  {
    if line == [] then p else AfterLine(After(p, line[0]), line[1..])
  }

  /** Lines are separated by `;`, and the column starts over on each. */
  function EncodeLines(p: Previous, lines: seq<seq<Entry>>): Text
    decreases |lines|, 1
  {
    if lines == [] then []
    else EncodeLine(p, lines[0]) + EncodeMoreLines(AfterLine(p, lines[0]).(column := 0), lines[1..])
  }

  function EncodeMoreLines(p: Previous, lines: seq<seq<Entry>>): Text
    decreases |lines|, 2
  {
    if lines == [] then [] else [SEMICOLON] + EncodeLines(p, lines)
  }

  const START := Previous(0, 0, 0, 0, 0)

  /** What an `Int32Array` holds as it is. */
  predicate Field(v: int) {
    0 <= v < TWO_31
  }

  predicate FieldsIn(p: Previous) {
    Field(p.column) && Field(p.source) && Field(p.originalLine) && Field(p.originalColumn) && Field(p.name)
  }

  predicate ValidEntry(e: Entry, sourcesCount: nat) {
    && FieldsIn(After(START, e))
    && (!e.Generated? ==> e.source < sourcesCount)
  }

  ghost predicate ValidLines(lines: seq<seq<Entry>>, sourcesCount: nat) {
    forall l, k :: 0 <= l < |lines| && 0 <= k < |lines[l]| ==> ValidEntry(lines[l][k], sourcesCount)
  }

  /** The difference survives the encoding. */
  predicate Near(a: int, b: int) {
    -TWO_30 < b - a < TWO_30
  }

  predicate NearTo(p: Previous, q: Previous) {
    && Near(p.column, q.column) && Near(p.source, q.source) && Near(p.originalLine, q.originalLine)
    && Near(p.originalColumn, q.originalColumn) && Near(p.name, q.name)
  }

  predicate NearLine(p: Previous, line: seq<Entry>)
    decreases |line|
  {
    line != [] ==> NearTo(p, After(p, line[0])) && NearLine(After(p, line[0]), line[1..])
  }

  /** Each field is less than 2^30 away from the one it is written relative to. */
  predicate NearLines(p: Previous, lines: seq<seq<Entry>>)
    decreases |lines|
  {
    lines != [] ==> NearLine(p, lines[0]) && NearLines(AfterLine(p, lines[0]).(column := 0), lines[1..])
  }

  ghost predicate ValidLine(line: seq<Entry>, sourcesCount: nat) {
    forall k :: 0 <= k < |line| ==> ValidEntry(line[k], sourcesCount)
  }

  /** The six numbers that stand for an entry. */
  function RecordOf(line: nat, e: Entry): Record {
    match e
    case Generated(column) => Record(line, column, -1, -1, -1, -1)
    case Sourced(column, source, originalLine, originalColumn) =>
      Record(line, column, source, originalLine, originalColumn, -1)
    case Named(column, source, originalLine, originalColumn, name) =>
      Record(line, column, source, originalLine, originalColumn, name)
  }

  function LineRecords(line: nat, entries: seq<Entry>): (r: seq<Record>)
    ensures |r| == |entries|
    ensures forall k :: 0 <= k < |r| ==> r[k] == RecordOf(line, entries[k])
  {
    if entries == [] then [] else [RecordOf(line, entries[0])] + LineRecords(line, entries[1..])
  }

  /** The records of the lines in turn, each line but the last stably sorted. */
  function DecodedLines(line: nat, lines: seq<seq<Entry>>): seq<Record>
    decreases |lines|
  {
    if lines == [] then []
    else if |lines| == 1 then LineRecords(line, lines[0])
    else InsertionSort(LineRecords(line, lines[0])) + DecodedLines(line + 1, lines[1..])
  }

  function Flattened(line: nat, lines: seq<seq<Entry>>): seq<Record>
    decreases |lines|
  {
    if lines == [] then [] else LineRecords(line, lines[0]) + Flattened(line + 1, lines[1..])
  }

  /** Some column on the line is below the one before it. */
  predicate Descends(column: int, line: seq<Entry>)
    decreases |line|
  {
    line != [] && (line[0].column < column || Descends(line[0].column, line[1..]))
  }

  // ----- One field, one mapping -----

  lemma FieldDecodes(text: Text, i: nat, previous: int, value: int, limit: Option<nat>, reason: Reason)
    requires Field(previous) && Field(value) && Near(previous, value) && (limit.Some? ==> value < limit.value)
    requires At(text, i, Encode(value - previous))
    ensures ReadField(text, i, previous, limit, reason) == Ok((value, i + |Encode(value - previous)|))
  {
    hide Encode, Vlq.Decode;
    DecodeEncoded(text, i, value - previous);
  }

  lemma PositionDecodes(text: Text, sourcesCount: nat, st: State, p: Previous, e: Entry)
    requires st.Valid() && !e.Generated? && ValidEntry(e, sourcesCount)
    requires FieldsIn(p) && NearTo(p, After(p, e)) && st.source == p.source && st.originalLine == p.originalLine
    requires st.originalColumn == p.originalColumn
    requires At(text, st.i, EncodePosition(p, e))
    ensures ParsePosition(text, sourcesCount, st)
         == Ok(st.(i := st.i + |EncodePosition(p, e)|, source := e.source, originalLine := e.originalLine,
                   originalColumn := e.originalColumn))
  {
    hide Encode, ReadField, At;
    var a, b, c := Encode(e.source - p.source), Encode(e.originalLine - p.originalLine),
                   Encode(e.originalColumn - p.originalColumn);
    AtConcat(text, st.i, a, b + c);
    AtConcat(text, st.i + |a|, b, c);
    FieldDecodes(text, st.i, p.source, e.source, Some(sourcesCount), InvalidOriginalSource);
    FieldDecodes(text, st.i + |a|, p.originalLine, e.originalLine, None, InvalidOriginalLine);
    FieldDecodes(text, st.i + |a| + |b|, p.originalColumn, e.originalColumn, None, InvalidOriginalColumn);
  }

  /** The decoder's accumulators are the encoder's previous values. */
  predicate Tracks(st: State, p: Previous) {
    && FieldsIn(p) && st.column == p.column && st.source == p.source && st.originalLine == p.originalLine
    && st.originalColumn == p.originalColumn && st.name == p.name
  }

  function Moved(st: State, p: Previous, i: nat, descends: bool): State {
    st.(i := i, column := p.column, source := p.source, originalLine := p.originalLine,
        originalColumn := p.originalColumn, name := p.name, needSort := st.needSort || descends)
  }

  lemma AtFirst(text: Text, i: nat, s: Text)
    requires At(text, i, s) && s != []
    ensures i < |text| && text[i] == s[0]
  {
    assert text[i] == text[i..i + |s|][0];
  }

  lemma OriginalDecodes(text: Text, sourcesCount: nat, st: State, p: Previous, e: Entry)
    requires st.Valid() && !e.Generated? && ValidEntry(e, sourcesCount)
    requires NearTo(p, After(p, e)) && Tracks(st, p.(column := e.column)) && At(text, st.i, EncodeOriginal(p, e))
    requires MappingEnds(text, st.i + |EncodeOriginal(p, e)|)
    ensures ParseOriginal(text, sourcesCount, st)
         == Ok(Mapping(SkipComma(text, Moved(st, After(p, e), st.i + |EncodeOriginal(p, e)|, false)), true, e.Named?))
  {
    hide Encode, ReadField, At, ParsePosition, EncodePosition;
    var position := EncodePosition(p, e);
    if e.Named? {
      var name := Encode(e.name - p.name);
      AtConcat(text, st.i, position, name);
      SamePosition(p, e);
      PositionDecodes(text, sourcesCount, st, p.(column := e.column), e);
      AtFirst(text, st.i + |position|, name);
      FieldDecodes(text, st.i + |position|, p.name, e.name, None, InvalidOriginalName);
    } else {
      SamePosition(p, e);
      PositionDecodes(text, sourcesCount, st, p.(column := e.column), e);
    }
  }

  lemma SamePosition(p: Previous, e: Entry)
    requires !e.Generated?
    ensures EncodePosition(p.(column := e.column), e) == EncodePosition(p, e)
  {
  }

  lemma EntryDecodes(text: Text, sourcesCount: nat, st: State, p: Previous, e: Entry)
    requires st.Valid() && Tracks(st, p) && ValidEntry(e, sourcesCount) && NearTo(p, After(p, e))
    requires At(text, st.i, EncodeEntry(p, e)) && MappingEnds(text, st.i + |EncodeEntry(p, e)|)
    ensures ParseSegment(text, sourcesCount, st)
         == Ok(Mapping(SkipComma(text, Moved(st, After(p, e), st.i + |EncodeEntry(p, e)|, e.column < p.column)),
                       !e.Generated?, e.Named?))
  {
    hide Encode, ReadField, At, ParseOriginal, EncodeOriginal;
    var column, original := Encode(e.column - p.column), EncodeOriginal(p, e);
    AtConcat(text, st.i, column, original);
    FieldDecodes(text, st.i, p.column, e.column, None, InvalidGeneratedColumn);
    if e.Generated? {
      assert original == [] by {
        EmptyOriginal(p, e);
      }
    } else {
      AtFirst(text, st.i + |column|, original);
      var next := st.(i := st.i + |column|, column := e.column, needSort := st.needSort || e.column < p.column);
      OriginalDecodes(text, sourcesCount, next, p, e);
    }
  }

  lemma EmptyOriginal(p: Previous, e: Entry)
    ensures e.Generated? ==> EncodeOriginal(p, e) == []
  {
  }

  // ----- One line, all lines -----

  /** The state at the end of an encoded line, which starts at `p`. */
  function AtLineEnd(st: State, p: Previous, line: seq<Entry>, i: nat): State {
    Moved(st, AfterLine(p, line), i, Descends(p.column, line)).(
      records := st.records + LineRecords(st.line, line))
  }

  /** One encoded entry, with the comma that may follow it, is one step. */
  lemma EntryRuns(text: Text, sourcesCount: nat, st: State, p: Previous, e: Entry, next: State)
    requires st.Valid() && st.line < TWO_31 && Tracks(st, p) && ValidEntry(e, sourcesCount) && NearTo(p, After(p, e))
    requires At(text, st.i, EncodeEntry(p, e)) && MappingEnds(text, st.i + |EncodeEntry(p, e)|)
    requires next == SkipComma(text, Moved(st, After(p, e), st.i + |EncodeEntry(p, e)|, e.column < p.column).(
                                       records := st.records + [RecordOf(st.line, e)]))
    ensures Run(text, sourcesCount, st) == Run(text, sourcesCount, next)
    ensures next.Valid() && Tracks(next, After(p, e))
    ensures BreaksFit(text, sourcesCount, next) ==> BreaksFit(text, sourcesCount, st)
  {
    hide At, ParseSegment, EncodeEntry;
    AtFirst(text, st.i, EncodeEntry(p, e));
    EntryDecodes(text, sourcesCount, st, p, e);
    assert Step(text, sourcesCount, st) == Ok(next);
  }

  /** An encoded line is its first entry, and behind a comma the rest of the line. */
  lemma LineSplits(text: Text, i: nat, p: Previous, line: seq<Entry>)
    requires line != [] && At(text, i, EncodeLine(p, line))
    requires var end := i + |EncodeLine(p, line)|; end == |text| || text[end] == SEMICOLON
    ensures var j := i + |EncodeEntry(p, line[0])|; var next := After(p, line[0]);
      && At(text, i, EncodeEntry(p, line[0])) && MappingEnds(text, j)
      && (if line[1..] != [] then j < |text| && text[j] == COMMA else j < |text| ==> text[j] == SEMICOLON)
      && var k := if line[1..] == [] then j else j + 1;
         At(text, k, EncodeLine(next, line[1..])) && i + |EncodeLine(p, line)| == k + |EncodeLine(next, line[1..])|
  {
    hide At, EncodeEntry, After;
    var rest, s := line[1..], EncodeEntry(p, line[0]);
    var more := EncodeMore(After(p, line[0]), rest);
    AtConcat(text, i, s, more);
    if rest != [] {
      AtFirst(text, i + |s|, more);
      AtConcat(text, i + |s|, [COMMA], EncodeLine(After(p, line[0]), rest));
    } else {
      AtEnd(text, i, s);
    }
  }

  lemma AtEnd(text: Text, i: nat, s: Text)
    requires At(text, i, s)
    ensures At(text, i + |s|, [])
  {
  }

  lemma {:induction false} LineDecodes(text: Text, sourcesCount: nat, st: State, p: Previous, line: seq<Entry>)
    requires st.Valid() && st.line < TWO_31 && Tracks(st, p) && ValidLine(line, sourcesCount) && NearLine(p, line)
    requires At(text, st.i, EncodeLine(p, line))
    requires var i := st.i + |EncodeLine(p, line)|; i == |text| || text[i] == SEMICOLON
    ensures Run(text, sourcesCount, st)
         == Run(text, sourcesCount, AtLineEnd(st, p, line, st.i + |EncodeLine(p, line)|))
    ensures FieldsIn(AfterLine(p, line))
    ensures BreaksFit(text, sourcesCount, AtLineEnd(st, p, line, st.i + |EncodeLine(p, line)|))
        ==> BreaksFit(text, sourcesCount, st)
    decreases |line|
  {
    hide At, Run, BreaksFit, EncodeEntry, LineRecords, RecordOf, After, NearTo;
    if line == [] {
      assert AtLineEnd(st, p, line, st.i) == st by {
        NoRecords(st.line);
      }
    } else {
      var e, rest := line[0], line[1..];
      var s := EncodeEntry(p, e);
      LineSplits(text, st.i, p, line);
      var next := Moved(st, After(p, e), st.i + |s| + (if rest == [] then 0 else 1), e.column < p.column).(
        records := st.records + [RecordOf(st.line, e)]);
      EntryRuns(text, sourcesCount, st, p, e, next);
      LineDecodes(text, sourcesCount, next, After(p, e), rest);
      SameLineEnd(st, p, line, next, st.i + |EncodeLine(p, line)|);
    }
  }

  lemma NoRecords(line: nat)
    ensures LineRecords(line, []) == []
  {
  }

  /** A line's end is its tail's end, from the state after its first entry. */
  lemma SameLineEnd(st: State, p: Previous, line: seq<Entry>, next: State, i: nat)
    requires line != []
    requires next == Moved(st, After(p, line[0]), next.i, line[0].column < p.column).(
                       records := st.records + [RecordOf(st.line, line[0])])
    ensures AtLineEnd(next, After(p, line[0]), line[1..], i) == AtLineEnd(st, p, line, i)
  {
    hide LineRecords, RecordOf;
    FirstRecord(st.line, line);
    EntryColumn(p, line[0]);
    assert next.records + LineRecords(st.line, line[1..]) == st.records + LineRecords(st.line, line);
  }

  lemma EntryColumn(p: Previous, e: Entry)
    ensures After(p, e).column == e.column
  {
  }

  lemma FirstRecord(line: nat, entries: seq<Entry>)
    requires entries != []
    ensures LineRecords(line, entries) == [RecordOf(line, entries[0])] + LineRecords(line, entries[1..])
  {
  }

  lemma {:induction false} AscendingLine(n: nat, column: int, line: seq<Entry>)
    requires !Descends(column, line)
    ensures Ordered(LineRecords(n, line))
    ensures forall r :: r in LineRecords(n, line) ==> r.column >= column
    decreases |line|
  {
    if line != [] {
      AscendingLine(n, line[0].column, line[1..]);
      var first, rest := RecordOf(n, line[0]), LineRecords(n, line[1..]);
      assert forall k :: 0 <= k < |rest| ==> rest[k] in rest;
    }
  }

  /** At a line break the line's records end up stably sorted, whether or not a sort was owed. */
  lemma BreakSorts(st: State, p: Previous, line: seq<Entry>, i: nat)
    requires st.Valid() && st.Current() == [] && !st.needSort && p.column == 0
    ensures var next := LineBreak(AtLineEnd(st, p, line, i));
      && next.records == st.records + InsertionSort(LineRecords(st.line, line))
      && next.Current() == [] && !next.needSort && next.i == i + 1 && next.line == st.line + 1
  {
    hide InsertionSort, LineRecords;
    var end, records := AtLineEnd(st, p, line, i), LineRecords(st.line, line);
    assert end.records[..end.lineStart] == st.records && end.Current() == records;
    if !end.needSort {
      AscendingLine(st.line, 0, line);
      InsertionSortOfOrdered(records);
    }
  }

  /** At the start of a line: nothing on it yet, no sort owed. */
  ghost predicate AtLineStart(st: State, p: Previous) {
    st.Valid() && st.Current() == [] && !st.needSort && Tracks(st, p) && p.column == 0
  }

  lemma LineAndBreak(text: Text, sourcesCount: nat, st: State, p: Previous, line: seq<Entry>) returns (next: State)
    requires AtLineStart(st, p) && st.Valid() && st.line < TWO_31 && ValidLine(line, sourcesCount) && NearLine(p, line)
    requires At(text, st.i, EncodeLine(p, line))
    requires var i := st.i + |EncodeLine(p, line)|; i < |text| && text[i] == SEMICOLON
    ensures next.Valid() && AtLineStart(next, AfterLine(p, line).(column := 0))
    ensures next.i == st.i + |EncodeLine(p, line)| + 1 && next.line == st.line + 1
    ensures next.records == st.records + InsertionSort(LineRecords(st.line, line))
    ensures Run(text, sourcesCount, st) == Run(text, sourcesCount, next)
    ensures BreaksFit(text, sourcesCount, next) ==> BreaksFit(text, sourcesCount, st)
  {
    hide At, EncodeLine, LineRecords, InsertionSort, Descends, AfterLine, NearLine;
    var i := st.i + |EncodeLine(p, line)|;
    LineDecodes(text, sourcesCount, st, p, line);
    BreakSorts(st, p, line, i);
    var end := AtLineEnd(st, p, line, i);
    next := LineBreak(end);
    assert Step(text, sourcesCount, end) == Ok(next);
  }

  /** Whether the last line ends with its columns out of order. */
  predicate LastDescends(lines: seq<seq<Entry>>) {
    lines != [] && Descends(0, lines[|lines| - 1])
  }

  lemma LastLineDecodes(text: Text, sourcesCount: nat, st: State, p: Previous, line: seq<Entry>)
    requires AtLineStart(st, p) && ValidLine(line, sourcesCount) && NearLine(p, line) && st.line < TWO_31
    requires At(text, st.i, EncodeLine(p, line)) && st.i + |EncodeLine(p, line)| == |text|
    ensures Run(text, sourcesCount, st).Ok?
    ensures var end := Run(text, sourcesCount, st).value;
      && end.records == st.records + LineRecords(st.line, line) && (end.needSort <==> Descends(0, line))
      && end.line == st.line && end.column < TWO_31
    ensures BreaksFit(text, sourcesCount, st)
  {
    hide At, EncodeLine, LineRecords, AfterLine, Step, Descends, NearLine;
    LineDecodes(text, sourcesCount, st, p, line);
  }

  /** Encoded lines are the first, and behind a semicolon the rest. */
  lemma LinesSplit(text: Text, i: nat, p: Previous, lines: seq<seq<Entry>>)
    requires lines != [] && At(text, i, EncodeLines(p, lines)) && i + |EncodeLines(p, lines)| == |text|
    ensures var j := i + |EncodeLine(p, lines[0])|; var next := AfterLine(p, lines[0]).(column := 0);
      && At(text, i, EncodeLine(p, lines[0]))
      && if lines[1..] == [] then j == |text|
         else j < |text| && text[j] == SEMICOLON && At(text, j + 1, EncodeLines(next, lines[1..]))
              && j + 1 + |EncodeLines(next, lines[1..])| == |text|
  {
    hide At, EncodeLine, AfterLine;
    var rest, next, s := lines[1..], AfterLine(p, lines[0]).(column := 0), EncodeLine(p, lines[0]);
    var more := EncodeMoreLines(next, rest);
    AtConcat(text, i, s, more);
    if rest != [] {
      AtFirst(text, i + |s|, more);
      AtConcat(text, i + |s|, [SEMICOLON], EncodeLines(next, rest));
    }
  }

  lemma {:induction false} LinesDecode(
    text: Text, sourcesCount: nat, st: State, p: Previous, lines: seq<seq<Entry>>)
    requires AtLineStart(st, p) && ValidLines(lines, sourcesCount) && NearLines(p, lines)
    requires st.line + |lines| <= TWO_31
    requires At(text, st.i, EncodeLines(p, lines)) && st.i + |EncodeLines(p, lines)| == |text|
    requires lines != [] && st.Valid()
    ensures Run(text, sourcesCount, st).Ok?
    ensures var end := Run(text, sourcesCount, st).value;
      && end.records == st.records + DecodedLines(st.line, lines) && (end.needSort <==> LastDescends(lines))
      && end.line == st.line + |lines| - 1 && end.column < TWO_31
    ensures BreaksFit(text, sourcesCount, st)
    decreases |lines|
  {
    hide At, EncodeLine, LineRecords, InsertionSort, AfterLine, Step, Descends, AtLineStart, Run, BreaksFit,
         ValidEntry, MappingEnds, NearLine, EncodeLines;
    var line, rest, after := lines[0], lines[1..], AfterLine(p, lines[0]).(column := 0);
    LinesSplit(text, st.i, p, lines);
    if rest == [] {
      LastLineDecodes(text, sourcesCount, st, p, line);
    } else {
      var next := LineAndBreak(text, sourcesCount, st, p, line);
      LinesDecode(text, sourcesCount, next, after, rest);
    }
  }

  /** Decoding an encoding gives every line's records back: in a stable sort by column for each
      terminated line, and as written for the last. No position overflows on the way, and a sort is
      owed at the end exactly when the last line's columns descend somewhere. */
  lemma RoundTrips(lines: seq<seq<Entry>>, sourcesCount: nat)
    requires ValidLines(lines, sourcesCount) && NearLines(START, lines) && |lines| <= TWO_31
    ensures var text := EncodeLines(START, lines); var r := Run(text, sourcesCount, INITIAL);
      && r.Ok? && r.value.records == DecodedLines(0, lines)
      && BreaksFit(text, sourcesCount, INITIAL) && r.value.column < TWO_31
      && (r.value.needSort <==> LastDescends(lines))
      && r.value.line == if lines == [] then 0 else |lines| - 1
  {
    hide EncodeLines, DecodedLines, LastDescends;
    var text := EncodeLines(START, lines);
    if lines == [] {
      NoLines();
    } else {
      assert At(text, 0, text);
      LinesDecode(text, sourcesCount, INITIAL, START, lines);
    }
  }

  lemma NoLines()
    ensures EncodeLines(START, []) == [] && DecodedLines(0, []) == [] && !LastDescends([])
  {
  }

  /** Lines whose columns ascend come back exactly as written. */
  lemma {:induction false} AscendingLinesDecodeFlat(line: nat, lines: seq<seq<Entry>>)
    requires forall l :: 0 <= l < |lines| - 1 ==> Ordered(LineRecords(0, lines[l]))
    ensures DecodedLines(line, lines) == Flattened(line, lines)
    decreases |lines|
  {
    hide InsertionSort, Ordered;
    if |lines| > 1 {
      AscendingLinesDecodeFlat(line + 1, lines[1..]);
      OrderIgnoresLine(line, lines[0]);
      InsertionSortOfOrdered(LineRecords(line, lines[0]));
    } else if |lines| == 1 {
      assert Flattened(line + 1, lines[1..]) == [];
    }
  }

  lemma OrderIgnoresLine(line: nat, entries: seq<Entry>)
    ensures Ordered(LineRecords(0, entries)) <==> Ordered(LineRecords(line, entries))
  {
    var a, b := LineRecords(0, entries), LineRecords(line, entries);
    assert forall k :: 0 <= k < |entries| ==> a[k].column == b[k].column;
  }
}
