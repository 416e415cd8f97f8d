/** What becomes of fields that are 2^30 or more away from the one before: the decoder refuses them or
    stores them below -1, so the round trip holds exactly when there is none. */
module FarFields {
  import opened Wrappers
  import opened Bits
  import opened Records
  import opened Vlq
  import opened Mappings
  import opened MappingsOrder
  import opened RoundTrip

  /** A record no encoded entry stands for. */
  predicate Torn(r: Record) {
    r.column < -1 || r.source < -1 || r.originalLine < -1 || r.originalColumn < -1 || r.name < -1
  }

  ghost predicate SomeTorn(records: seq<Record>) {
    exists r :: r in records && Torn(r)
  }

  /** The run ends in an error, or with a torn record. */
  ghost predicate Fails(text: Text, sourcesCount: nat, st: State)
    requires st.Valid()
  {
    match Run(text, sourcesCount, st)
    case Ok(end) => SomeTorn(end.records)
    case Err(_) => true
  }

  // ----- A torn record stays -----

  lemma BreakKeepsTorn(st: State)
    requires st.Valid() && SomeTorn(st.records)
    ensures SomeTorn(LineBreak(st).records)
  {
    hide InsertionSort, Torn;
    var r :| r in st.records && Torn(r);
    var front, line := st.records[..st.lineStart], st.Current();
    assert st.records == front + line;
    InsertionSortPermutes(line);
    assert r in line ==> r in multiset(InsertionSort(line));
    assert r in LineBreak(st).records;
  }

  lemma AppendKeepsTorn(records: seq<Record>, r: Record)
    requires SomeTorn(records) || Torn(r)
    ensures SomeTorn(records + [r])
  {
    hide Torn;
    if SomeTorn(records) {
      var torn :| torn in records && Torn(torn);
      assert torn in records + [r];
    } else {
      assert r in records + [r];
    }
  }

  lemma ParseKeepsRecords(text: Text, sourcesCount: nat, st: State)
    requires st.Valid() && ParseSegment(text, sourcesCount, st).Ok?
    ensures ParseSegment(text, sourcesCount, st).value.st.records == st.records
  {
    hide Vlq.Decode;
  }

  lemma StepKeepsTorn(text: Text, sourcesCount: nat, st: State)
    requires st.Valid() && st.i < |text| && SomeTorn(st.records) && Step(text, sourcesCount, st).Ok?
    ensures SomeTorn(Step(text, sourcesCount, st).value.records)
  {
    hide ParseSegment, SomeTorn, ToInt32, LineBreak;
    if text[st.i] == SEMICOLON {
      BreakKeepsTorn(st);
    } else if text[st.i] != COMMA {
      ParseKeepsRecords(text, sourcesCount, st);
      var m := ParseSegment(text, sourcesCount, st).value;
      var next := Append(m.st, m.hasSource, m.hasName);
      AppendKeepsTorn(st.records, next.records[|st.records|]);
    }
  }

  lemma {:induction false} RunKeepsTorn(text: Text, sourcesCount: nat, st: State)
    requires st.Valid() && SomeTorn(st.records)
    ensures Fails(text, sourcesCount, st)
    decreases |text| - st.i
  {
    hide Step, SomeTorn;
    if st.i < |text| && Step(text, sourcesCount, st).Ok? {
      StepKeepsTorn(text, sourcesCount, st);
      RunKeepsTorn(text, sourcesCount, Step(text, sourcesCount, st).value);
    }
  }

  // ----- A far field -----

  /** An accumulator that is stored below -1. */
  predicate Over(v: int) {
    TWO_31 <= v < TWO_31 + TWO_30
  }

  /** A field that rises too far is refused; one that falls too far is refused or ends up over. */
  lemma FarField(text: Text, i: nat, previous: int, value: int, limit: Option<nat>, reason: Reason)
    requires Field(previous) && Field(value) && !Near(previous, value)
    requires At(text, i, Encode(value - previous))
    ensures var r := ReadField(text, i, previous, limit, reason);
      && (value > previous ==> r.Err?)
      && (r.Ok? ==> Over(r.value.0))
  {
    hide Encode, Vlq.Decode, At;
    DecodeFar(text, i, value - previous);
  }

  predicate OverPosition(st: State) {
    Over(st.source) || Over(st.originalLine) || Over(st.originalColumn)
  }

  predicate OverMapping(m: Mapping) {
    Over(m.st.column) || (m.hasSource && OverPosition(m.st)) || (m.hasName && Over(m.st.name))
  }

  predicate NearPosition(p: Previous, e: Entry)
    requires !e.Generated?
  {
    Near(p.source, e.source) && Near(p.originalLine, e.originalLine) && Near(p.originalColumn, e.originalColumn)
  }

  lemma FarPosition(text: Text, sourcesCount: nat, st: State, p: Previous, e: Entry)
    requires st.Valid() && !e.Generated? && ValidEntry(e, sourcesCount) && !NearPosition(p, e)
    requires FieldsIn(p) && st.source == p.source && st.originalLine == p.originalLine
    requires st.originalColumn == p.originalColumn
    requires At(text, st.i, EncodePosition(p, e))
    ensures var r := ParsePosition(text, sourcesCount, st); r.Ok? ==> OverPosition(r.value)
  {
    hide Encode, ReadField, At, Near, Over;
    var a, b, c := Encode(e.source - p.source), Encode(e.originalLine - p.originalLine),
                   Encode(e.originalColumn - p.originalColumn);
    AtConcat(text, st.i, a, b + c);
    AtConcat(text, st.i + |a|, b, c);
    if !Near(p.source, e.source) {
      FarField(text, st.i, p.source, e.source, Some(sourcesCount), InvalidOriginalSource);
    } else {
      FieldDecodes(text, st.i, p.source, e.source, Some(sourcesCount), InvalidOriginalSource);
      if !Near(p.originalLine, e.originalLine) {
        FarField(text, st.i + |a|, p.originalLine, e.originalLine, None, InvalidOriginalLine);
      } else {
        FieldDecodes(text, st.i + |a|, p.originalLine, e.originalLine, None, InvalidOriginalLine);
        FarField(text, st.i + |a| + |b|, p.originalColumn, e.originalColumn, None, InvalidOriginalColumn);
      }
    }
  }

  /** What is read after a field leaves it alone. */
  lemma ParseNameKeeps(text: Text, st: State)
    requires st.Valid() && ParseName(text, st).Ok?
    ensures var m := ParseName(text, st).value;
      && m.hasSource && m.st.column == st.column && m.st.source == st.source
      && m.st.originalLine == st.originalLine && m.st.originalColumn == st.originalColumn
  {
    hide ReadField;
  }

  lemma ParseOriginalKeeps(text: Text, sourcesCount: nat, st: State)
    requires st.Valid() && ParseOriginal(text, sourcesCount, st).Ok?
    ensures var m := ParseOriginal(text, sourcesCount, st).value;
      var next := ParsePosition(text, sourcesCount, st);
      && m.hasSource && m.st.column == st.column && next.Ok?
      && m.st.source == next.value.source && m.st.originalLine == next.value.originalLine
      && m.st.originalColumn == next.value.originalColumn
  {
    hide ReadField, ParseName;
    var next := ParsePosition(text, sourcesCount, st).value;
    if !MappingEnds(text, next.i) {
      ParseNameKeeps(text, next);
    }
  }

  /** A near position whose name is far. */
  lemma FarName(text: Text, sourcesCount: nat, st: State, p: Previous, e: Entry)
    requires st.Valid() && e.Named? && ValidEntry(e, sourcesCount) && NearPosition(p, e) && !Near(p.name, e.name)
    requires Tracks(st, p.(column := e.column)) && At(text, st.i, EncodeOriginal(p, e))
    ensures var r := ParseOriginal(text, sourcesCount, st); r.Ok? ==> OverMapping(r.value)
  {
    hide Encode, ReadField, At, ParsePosition, EncodePosition, Near, Over;
    var position, name := EncodePosition(p, e), Encode(e.name - p.name);
    AtConcat(text, st.i, position, name);
    NearSourced(p, e);
    SamePosition(p, e);
    var sourced := Sourced(e.column, e.source, e.originalLine, e.originalColumn);
    assert EncodePosition(p.(column := e.column), sourced) == position by {
      SameSourced(p.(column := e.column), e);
    }
    PositionDecodes(text, sourcesCount, st, p.(column := e.column), sourced);
    AtFirst(text, st.i + |position|, name);
    FarField(text, st.i + |position|, p.name, e.name, None, InvalidOriginalName);
  }

  lemma SameSourced(p: Previous, e: Entry)
    requires e.Named?
    ensures EncodePosition(p, Sourced(e.column, e.source, e.originalLine, e.originalColumn)) == EncodePosition(p, e)
  {
  }

  lemma NearSourced(p: Previous, e: Entry)
    requires e.Named? && NearPosition(p, e)
    ensures var q := p.(column := e.column);
      NearTo(q, After(q, Sourced(e.column, e.source, e.originalLine, e.originalColumn)))
  {
  }

  lemma FarOriginal(text: Text, sourcesCount: nat, st: State, p: Previous, e: Entry)
    requires st.Valid() && !e.Generated? && ValidEntry(e, sourcesCount) && Near(p.column, e.column)
    requires !NearTo(p, After(p, e))
    requires Tracks(st, p.(column := e.column)) && At(text, st.i, EncodeOriginal(p, e))
    ensures var r := ParseOriginal(text, sourcesCount, st); r.Ok? ==> OverMapping(r.value)
  {
    hide ReadField, At, ParsePosition, ParseOriginal, EncodePosition, Over;
    if NearPosition(p, e) {
      FarName(text, sourcesCount, st, p, e);
    } else {
      if e.Named? {
        AtConcat(text, st.i, EncodePosition(p, e), Encode(e.name - p.name));
      }
      SamePosition(p, e);
      FarPosition(text, sourcesCount, st, p.(column := e.column), e);
      if ParseOriginal(text, sourcesCount, st).Ok? {
        ParseOriginalKeeps(text, sourcesCount, st);
      }
    }
  }

  /** An entry with a far field is refused, or read with an accumulator that is over. */
  lemma FarEntry(text: Text, sourcesCount: nat, st: State, p: Previous, e: Entry)
    requires st.Valid() && Tracks(st, p) && ValidEntry(e, sourcesCount) && !NearTo(p, After(p, e))
    requires At(text, st.i, EncodeEntry(p, e))
    ensures var r := ParseSegment(text, sourcesCount, st); r.Ok? ==> OverMapping(r.value)
  {
    hide Encode, ReadField, At, ParseOriginal, EncodeOriginal, Over, OverPosition;
    var column, original := Encode(e.column - p.column), EncodeOriginal(p, e);
    AtConcat(text, st.i, column, original);
    EntryColumn(p, e);
    if !Near(p.column, e.column) {
      FarField(text, st.i, p.column, e.column, None, InvalidGeneratedColumn);
      ParseSegmentKeeps(text, sourcesCount, st);
    } else {
      FieldDecodes(text, st.i, p.column, e.column, None, InvalidGeneratedColumn);
      AtFirst(text, st.i + |column|, original);
      var next := st.(i := st.i + |column|, column := e.column, needSort := st.needSort || e.column < p.column);
      FarOriginal(text, sourcesCount, next, p, e);
    }
  }

  lemma ParseSegmentKeeps(text: Text, sourcesCount: nat, st: State)
    requires st.Valid()
    ensures ParseSegment(text, sourcesCount, st).Ok? ==>
      var column := ReadField(text, st.i, st.column, None, InvalidGeneratedColumn);
      column.Ok? && ParseSegment(text, sourcesCount, st).value.st.column == column.value.0
  {
    hide ReadField, ParseOriginal;
    var r := ReadField(text, st.i, st.column, None, InvalidGeneratedColumn);
    if r.Ok? {
      var (column, i) := r.value;
      var next := st.(i := i, column := column, needSort := st.needSort || column < st.column);
      if ParseOriginal(text, sourcesCount, next).Ok? {
        ParseOriginalKeeps(text, sourcesCount, next);
      }
    }
  }

  lemma OverIsTorn(m: Mapping)
    requires m.st.Valid() && OverMapping(m)
    ensures var next := Append(m.st, m.hasSource, m.hasName);
      |next.records| == |m.st.records| + 1 && next.records[..|m.st.records|] == m.st.records
      && Torn(next.records[|m.st.records|])
  {
    hide ToInt32;
    OverStored(m.st.column);
    OverStored(m.st.source);
    OverStored(m.st.originalLine);
    OverStored(m.st.originalColumn);
    OverStored(m.st.name);
  }

  lemma OverStored(v: int)
    ensures Over(v) ==> ToInt32(v) < -1
  {
  }

  lemma FarEntryFails(text: Text, sourcesCount: nat, st: State, p: Previous, e: Entry)
    requires st.Valid() && Tracks(st, p) && ValidEntry(e, sourcesCount) && !NearTo(p, After(p, e))
    requires At(text, st.i, EncodeEntry(p, e))
    ensures Fails(text, sourcesCount, st)
  {
    hide EncodeEntry, At, ParseSegment, Append, OverMapping, NearTo, SomeTorn, Torn;
    AtFirst(text, st.i, EncodeEntry(p, e));
    FarEntry(text, sourcesCount, st, p, e);
    var r := ParseSegment(text, sourcesCount, st);
    if r.Ok? {
      var m := r.value;
      var next := Append(m.st, m.hasSource, m.hasName);
      OverIsTorn(m);
      assert next.records == m.st.records + [next.records[|m.st.records|]];
      AppendKeepsTorn(m.st.records, next.records[|m.st.records|]);
      assert Step(text, sourcesCount, st) == Ok(next);
      RunKeepsTorn(text, sourcesCount, next);
    }
  }

  // ----- A far line, far lines -----

  lemma {:induction false} FarLine(text: Text, sourcesCount: nat, st: State, p: Previous, line: seq<Entry>)
    requires st.Valid() && st.line < TWO_31 && Tracks(st, p) && ValidLine(line, sourcesCount) && !NearLine(p, line)
    requires At(text, st.i, EncodeLine(p, line))
    requires var i := st.i + |EncodeLine(p, line)|; i == |text| || text[i] == SEMICOLON
    ensures Fails(text, sourcesCount, st)
    decreases |line|
  {
    hide At, Run, EncodeEntry, EncodeLine, RecordOf, After, NearTo, ValidEntry, SomeTorn;
    var e, rest := line[0], line[1..];
    LineSplits(text, st.i, p, line);
    if NearTo(p, After(p, e)) {
      var i := st.i + |EncodeEntry(p, e)| + if rest == [] then 0 else 1;
      var next := Moved(st, After(p, e), i, e.column < p.column).(records := st.records + [RecordOf(st.line, e)]);
      EntryRuns(text, sourcesCount, st, p, e, next);
      FarLine(text, sourcesCount, next, After(p, e), rest);
    } else {
      FarEntryFails(text, sourcesCount, st, p, e);
    }
  }

  lemma {:induction false} FarLines(
    text: Text, sourcesCount: nat, st: State, p: Previous, lines: seq<seq<Entry>>)
    requires AtLineStart(st, p) && st.Valid() && ValidLines(lines, sourcesCount) && !NearLines(p, lines)
    requires st.line + |lines| <= TWO_31
    requires At(text, st.i, EncodeLines(p, lines)) && st.i + |EncodeLines(p, lines)| == |text|
    ensures Fails(text, sourcesCount, st)
    decreases |lines|
  {
    hide At, Run, EncodeLine, EncodeLines, LineRecords, InsertionSort, AfterLine, NearLine, ValidEntry, SomeTorn;
    LinesSplit(text, st.i, p, lines);
    if NearLine(p, lines[0]) {
      var next := LineAndBreak(text, sourcesCount, st, p, lines[0]);
      FarLines(text, sourcesCount, next, AfterLine(p, lines[0]).(column := 0), lines[1..]);
    } else {
      FarLine(text, sourcesCount, st, p, lines[0]);
    }
  }

  // ----- The round trip, exactly -----

  lemma EntryWhole(line: nat, e: Entry, sourcesCount: nat)
    requires ValidEntry(e, sourcesCount)
    ensures !Torn(RecordOf(line, e))
  {
  }

  lemma {:induction false} LinesWhole(line: nat, lines: seq<seq<Entry>>, sourcesCount: nat)
    requires ValidLines(lines, sourcesCount)
    ensures !SomeTorn(DecodedLines(line, lines))
    decreases |lines|
  {
    hide InsertionSort, Torn, RecordOf, ValidEntry;
    if lines != [] {
      var records := LineRecords(line, lines[0]);
      InsertionSortMembers(records);
      forall r | r in records
        ensures !Torn(r)
      {
        var k :| 0 <= k < |records| && records[k] == r;
        EntryWhole(line, lines[0][k], sourcesCount);
      }
      LinesWhole(line + 1, lines[1..], sourcesCount);
    }
  }

  /** For all lines of 32-bit fields: decoding the encoding gives the lines' records back exactly when
      each field is less than 2^30 away from the one before it. */
  lemma RoundTripsExactly(lines: seq<seq<Entry>>, sourcesCount: nat)
    requires ValidLines(lines, sourcesCount) && |lines| <= TWO_31
    ensures var r := Run(EncodeLines(START, lines), sourcesCount, INITIAL);
      r.Ok? && r.value.records == DecodedLines(0, lines) <==> NearLines(START, lines)
  {
    hide EncodeLines, DecodedLines, NearLines, ValidLines, Run, SomeTorn, BreaksFit, LastDescends;
    if NearLines(START, lines) {
      RoundTrips(lines, sourcesCount);
    } else {
      WholeText(EncodeLines(START, lines));
      StartsLine();
      FarLines(EncodeLines(START, lines), sourcesCount, INITIAL, START, lines);
      LinesWhole(0, lines, sourcesCount);
    }
  }

  lemma WholeText(text: Text)
    ensures At(text, 0, text)
  {
  }

  lemma StartsLine()
    ensures AtLineStart(INITIAL, START)
  {
  }

  /** One mapping at column 2^30 is refused. */
  lemma FarColumnRefused()
    ensures var lines := [[Generated(TWO_30)]];
      ValidLines(lines, 0) && Run(EncodeLines(START, lines), 0, INITIAL).Err?
  {
    hide Vlq.Encode, Vlq.Decode, At;
    var e := Generated(TWO_30);
    var lines := [[e]];
    var text := EncodeLines(START, lines);
    assert EncodeLine(START, lines[0]) == EncodeEntry(START, e) by {
      assert lines[0][1..] == [] && EncodeMore(After(START, e), []) == [];
    }
    assert EncodeMoreLines(AfterLine(START, lines[0]).(column := 0), []) == [];
    assert lines[1..] == [];
    assert EncodeEntry(START, e) == Encode(TWO_30 - 0) + [];
    WholeText(text);
    AtFirst(text, 0, Encode(TWO_30));
    FarField(text, 0, 0, TWO_30, None, InvalidGeneratedColumn);
  }
}
