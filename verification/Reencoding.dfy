/** The other direction of the round trip: when what the decoder yields can be encoded again and
    decodes to the same records. */
module Reencoding {
  import opened Wrappers
  import opened Bits
  import opened Records
  import opened Vlq
  import opened Mappings
  import opened MappingsOrder
  import opened RoundTrip
  import opened FarFields

  /** A record that stands for a mapping of 1, 4 or 5 fields, none of which wrapped. */
  predicate Shaped(r: Record, sourcesCount: nat) {
    && r.line >= 0 && Field(r.column)
    && if r.source == -1 then r.originalLine == -1 && r.originalColumn == -1 && r.name == -1
       else 0 <= r.source < sourcesCount && Field(r.source) && Field(r.originalLine) && Field(r.originalColumn)
            && (r.name == -1 || Field(r.name))
  }

  function EntryOf(r: Record): Entry {
    if r.source == -1 then Generated(r.column)
    else if r.name == -1 then Sourced(r.column, r.source, r.originalLine, r.originalColumn)
    else Named(r.column, r.source, r.originalLine, r.originalColumn, r.name)
  }

  lemma EntryStandsFor(r: Record, sourcesCount: nat)
    requires Shaped(r, sourcesCount)
    ensures RecordOf(r.line, EntryOf(r)) == r && ValidEntry(EntryOf(r), sourcesCount)
  {
  }

  function Entries(records: seq<Record>): (r: seq<Entry>)
    ensures |r| == |records| && forall k :: 0 <= k < |r| ==> r[k] == EntryOf(records[k])
  {
    seq(|records|, k requires 0 <= k < |records| => EntryOf(records[k]))
  }

  /** How many records come before the first one past `line`. */
  function Split(records: seq<Record>, line: int): (k: nat)
    ensures k <= |records|
    ensures forall j :: 0 <= j < k ==> records[j].line <= line
    ensures k < |records| ==> records[k].line > line
  {
    if records == [] || records[0].line > line then 0 else 1 + Split(records[1..], line)
  }

  /** The entries of each generated line from `line` up to `n`, for records in order. */
  function LinesOf(records: seq<Record>, line: nat, n: nat): (lines: seq<seq<Entry>>)
    requires line <= n
    ensures |lines| == n - line
    decreases n - line
  {
    if line == n then []
    else
      var k := Split(records, line);
      [Entries(records[..k])] + LinesOf(records[k..], line + 1, n)
  }

  ghost predicate ShapedFrom(records: seq<Record>, sourcesCount: nat, line: int, n: int) {
    forall k :: 0 <= k < |records| ==> Shaped(records[k], sourcesCount) && line <= records[k].line < n
  }

  /** In order, but for the columns of one line. */
  ghost predicate InOrderBut(records: seq<Record>, last: int) {
    forall i, j :: 0 <= i < j < |records| ==>
      NotAfter(records[i], records[j]) || records[i].line == records[j].line == last
  }

  lemma FirstLine(records: seq<Record>, sourcesCount: nat, line: nat, n: nat)
    requires ShapedFrom(records, sourcesCount, line, n) && InOrderBut(records, n - 1) && line < n
    ensures var k := Split(records, line);
      && LineRecords(line, Entries(records[..k])) == records[..k]
      && (line < n - 1 ==> Ordered(records[..k]))
      && ValidLine(Entries(records[..k]), sourcesCount)
  {
    hide Shaped, EntryOf, RecordOf;
    var k := Split(records, line);
    var a := records[..k];
    forall j | 0 <= j < k
      ensures RecordOf(line, Entries(a)[j]) == a[j] && ValidEntry(Entries(a)[j], sourcesCount)
    {
      EntryStandsFor(records[j], sourcesCount);
    }
    forall i, j | 0 <= i < j < k && line < n - 1
      ensures a[i].column <= a[j].column
    {
      assert NotAfter(records[i], records[j]);
    }
  }

  lemma OtherLines(records: seq<Record>, sourcesCount: nat, line: nat, n: nat)
    requires ShapedFrom(records, sourcesCount, line, n) && InOrderBut(records, n - 1) && line < n
    ensures var rest := records[Split(records, line)..];
      ShapedFrom(rest, sourcesCount, line + 1, n) && InOrderBut(rest, n - 1)
  {
    hide Shaped;
    var k := Split(records, line);
    var rest := records[k..];
    forall j | 0 <= j < |rest|
      ensures Shaped(rest[j], sourcesCount) && line + 1 <= rest[j].line < n
    {
      assert Shaped(records[k + j], sourcesCount);
      if j > 0 {
        assert NotAfter(records[k], records[k + j]) || records[k].line == records[k + j].line;
      }
    }
  }

  lemma DecodedStep(line: nat, first: seq<Entry>, rest: seq<seq<Entry>>)
    ensures DecodedLines(line, [first] + rest)
         == if rest == [] then LineRecords(line, first)
            else InsertionSort(LineRecords(line, first)) + DecodedLines(line + 1, rest)
  {
    assert ([first] + rest)[1..] == rest;
  }

  lemma ValidStep(first: seq<Entry>, rest: seq<seq<Entry>>, sourcesCount: nat)
    requires ValidLine(first, sourcesCount) && ValidLines(rest, sourcesCount)
    ensures ValidLines([first] + rest, sourcesCount)
  {
    hide ValidEntry;
  }

  /** Records in order, but for the last line's columns, are what their entries' lines decode to. */
  lemma {:induction false} LinesOfRecords(records: seq<Record>, sourcesCount: nat, line: nat, n: nat)
    requires ShapedFrom(records, sourcesCount, line, n) && InOrderBut(records, n - 1) && line <= n
    ensures DecodedLines(line, LinesOf(records, line, n)) == records
    ensures ValidLines(LinesOf(records, line, n), sourcesCount)
    decreases n - line
  {
    hide InOrderBut, LineRecords, InsertionSort, ShapedFrom, Ordered, DecodedLines, ValidLines, ValidLine, Entries,
         Split;
    if line < n {
      var k := Split(records, line);
      var first, rest := Entries(records[..k]), LinesOf(records[k..], line + 1, n);
      FirstLine(records, sourcesCount, line, n);
      OtherLines(records, sourcesCount, line, n);
      LinesOfRecords(records[k..], sourcesCount, line + 1, n);
      Rejoin(records, k);
      DecodedStep(line, first, rest);
      ValidStep(first, rest, sourcesCount);
      if line + 1 == n {
        NoneLeft(records[k..], sourcesCount, n);
      } else {
        InsertionSortOfOrdered(records[..k]);
      }
    } else {
      NoneLeft(records, sourcesCount, n);
      NoLinesDecode(line, sourcesCount);
    }
  }

  lemma Rejoin(records: seq<Record>, k: nat)
    requires k <= |records|
    ensures records == records[..k] + records[k..]
    ensures records[k..] == [] ==> records == records[..k]
  {
  }

  lemma NoLinesDecode(line: nat, sourcesCount: nat)
    ensures DecodedLines(line, []) == [] && ValidLines([], sourcesCount)
  {
  }

  lemma FirstRecordLine(records: seq<Record>, sourcesCount: nat, line: int, n: int)
    requires ShapedFrom(records, sourcesCount, line, n)
    ensures records != [] ==> line < n
  {
    if records != [] {
      assert line <= records[0].line < n;
    }
  }

  lemma NoneLeft(records: seq<Record>, sourcesCount: nat, n: nat)
    requires ShapedFrom(records, sourcesCount, n, n)
    ensures records == []
  {
    FirstRecordLine(records, sourcesCount, n, n);
  }

  /** Every list of well-shaped records, in order but for the last line's columns, is what its canonical
      encoding decodes to, exactly when no field is 2^30 or more away from the one before it. */
  lemma RecordsReencode(records: seq<Record>, sourcesCount: nat, n: nat)
    requires ShapedFrom(records, sourcesCount, 0, n) && InOrderBut(records, n - 1) && n <= TWO_31
    ensures var lines := LinesOf(records, 0, n);
      var r := Run(EncodeLines(START, lines), sourcesCount, INITIAL);
      r.Ok? && r.value.records == records <==> NearLines(START, lines)
  {
    hide EncodeLines, NearLines, Run;
    LinesOfRecords(records, sourcesCount, 0, n);
    RoundTripsExactly(LinesOf(records, 0, n), sourcesCount);
  }

  // ----- What the decoder yields is well shaped -----

  /** The accumulators are below 2^31, so that nothing wraps when it is stored. */
  predicate Small(st: State) {
    && st.line < TWO_31 && st.column < TWO_31 && st.source < TWO_31 && st.originalLine < TWO_31
    && st.originalColumn < TWO_31 && st.name < TWO_31
  }

  predicate RunSmall(text: Text, sourcesCount: nat, st: State)
    requires st.Valid()
    decreases |text| - st.i
  {
    Small(st) && (st.i < |text| ==>
      match Step(text, sourcesCount, st)
      case Ok(next) => RunSmall(text, sourcesCount, next)
      case Err(_) => true)
  }

  /** A break that does not fit leaves a record with a column below -1. */
  lemma {:induction false} UnfitBreakFails(text: Text, sourcesCount: nat, st: State)
    requires st.Valid() && LoopInvariant(st) && st.i <= |text| && st.line + |text| - st.i < TWO_31
    requires !BreaksFit(text, sourcesCount, st)
    ensures Fails(text, sourcesCount, st)
    decreases |text| - st.i
  {
    hide Step, Ordered, SomeTorn, LineFits, LineOverflowed, LoopInvariant;
    if text[st.i] == SEMICOLON && !st.needSort && st.column >= TWO_31 {
      OverflowIsTorn(st);
      RunKeepsTorn(text, sourcesCount, st);
    } else if Step(text, sourcesCount, st).Ok? {
      StepOrder(text, sourcesCount, st);
      StepLines(text, sourcesCount, st);
      UnfitBreakFails(text, sourcesCount, Step(text, sourcesCount, st).value);
    }
  }

  lemma OverflowIsTorn(st: State)
    requires LoopInvariant(st) && st.column >= TWO_31
    ensures SomeTorn(st.records)
  {
    hide Ordered;
    var r :| r in st.Current() && r.column < -1;
    assert r in st.records && Torn(r);
  }

  ghost predicate AllShaped(records: seq<Record>, sourcesCount: nat, line: nat) {
    forall r :: r in records ==> Shaped(r, sourcesCount) && r.line <= line
  }

  lemma ParsedSource(text: Text, sourcesCount: nat, st: State)
    requires st.Valid() && ParseSegment(text, sourcesCount, st).Ok?
    ensures var m := ParseSegment(text, sourcesCount, st).value;
      && m.st.records == st.records && m.st.line == st.line
      && m.st.column >= 0 && (m.hasName ==> m.hasSource && m.st.name >= 0)
      && (m.hasSource ==> 0 <= m.st.source < sourcesCount && m.st.originalLine >= 0 && m.st.originalColumn >= 0)
  {
    hide Vlq.Decode;
  }

  lemma StepKeepsShape(text: Text, sourcesCount: nat, st: State)
    requires st.Valid() && st.i < |text| && Step(text, sourcesCount, st).Ok?
    requires Small(Step(text, sourcesCount, st).value) && AllShaped(st.records, sourcesCount, st.line)
    ensures var next := Step(text, sourcesCount, st).value;
      AllShaped(next.records, sourcesCount, next.line) && next.line >= st.line
  {
    hide ParseSegment, InsertionSort;
    if text[st.i] == SEMICOLON {
      InsertionSortMembers(st.Current());
    } else if text[st.i] != COMMA {
      ParsedSource(text, sourcesCount, st);
    }
  }

  lemma {:induction false} RunKeepsShape(text: Text, sourcesCount: nat, st: State)
    requires st.Valid() && RunSmall(text, sourcesCount, st) && Run(text, sourcesCount, st).Ok?
    requires AllShaped(st.records, sourcesCount, st.line)
    ensures var end := Run(text, sourcesCount, st).value;
      AllShaped(end.records, sourcesCount, end.line) && end.line < TWO_31
    decreases |text| - st.i
  {
    hide Step, AllShaped, Small;
    if st.i < |text| {
      var next := Step(text, sourcesCount, st).value;
      StepKeepsShape(text, sourcesCount, st);
      RunKeepsShape(text, sourcesCount, next);
    } else {
      SmallLine(st);
    }
  }

  lemma SmallLine(st: State)
    requires Small(st)
    ensures st.line < TWO_31
  {
  }

  ghost predicate NoneWrapped(records: seq<Record>, sourcesCount: nat) {
    forall r :: r in records ==> Shaped(r, sourcesCount)
  }

  lemma WholeBreaksFit(text: Text, sourcesCount: nat)
    requires Run(text, sourcesCount, INITIAL).Ok? && |text| < TWO_31
    requires NoneWrapped(Run(text, sourcesCount, INITIAL).value.records, sourcesCount)
    ensures BreaksFit(text, sourcesCount, INITIAL)
  {
    hide Run, BreaksFit, LoopInvariant, SomeTorn, NoneWrapped;
    InitialInvariant();
    NotTorn(Run(text, sourcesCount, INITIAL).value.records, sourcesCount);
    if !BreaksFit(text, sourcesCount, INITIAL) {
      UnfitBreakFails(text, sourcesCount, INITIAL);
    }
  }

  lemma NotTorn(records: seq<Record>, sourcesCount: nat)
    requires NoneWrapped(records, sourcesCount)
    ensures !SomeTorn(records)
  {
  }

  /** For every accepted text none of whose records wrapped: encoding what it decoded to in the canonical
      form and decoding that gives the same records exactly when no field of the canonical form is 2^30
      or more away from the one before it. */
  lemma AcceptedTextReencodes(text: Text, sourcesCount: nat)
    requires Run(text, sourcesCount, INITIAL).Ok? && |text| < TWO_31
    requires NoneWrapped(Run(text, sourcesCount, INITIAL).value.records, sourcesCount)
    ensures var end := Run(text, sourcesCount, INITIAL).value;
      var lines := LinesOf(end.records, 0, end.line + 1);
      var again := Run(EncodeLines(START, lines), sourcesCount, INITIAL);
      again.Ok? && again.value.records == end.records <==> NearLines(START, lines)
  {
    hide Run, BreaksFit, EncodeLines, NearLines, LinesOf, Shaped, LoopInvariant, FinishedInOrder;
    WholeBreaksFit(text, sourcesCount);
    TextLines(text, sourcesCount);
    OrderedExactly(text, sourcesCount);
    var end := Run(text, sourcesCount, INITIAL).value;
    LinesInOrder(end);
    ShapedLines(end, sourcesCount);
    RecordsReencode(end.records, sourcesCount, end.line + 1);
  }

  lemma ShapedLines(st: State, sourcesCount: nat)
    requires LoopInvariant(st) && NoneWrapped(st.records, sourcesCount)
    ensures ShapedFrom(st.records, sourcesCount, 0, st.line + 1)
  {
    hide LineFits, LineOverflowed;
    var front, line := st.records[..st.lineStart], st.Current();
    forall k | 0 <= k < |st.records|
      ensures Shaped(st.records[k], sourcesCount) && 0 <= st.records[k].line < st.line + 1
    {
      assert st.records[k] in st.records;
      if k < st.lineStart {
        assert front[k] in front;
      } else {
        assert line[k - st.lineStart] in line;
      }
    }
  }

  lemma LinesInOrder(st: State)
    requires LoopInvariant(st) && FinishedInOrder(st)
    ensures InOrderBut(st.records, st.line)
  {
    hide LineFits, LineOverflowed;
    var front, line := st.records[..st.lineStart], st.Current();
    forall i, j | 0 <= i < j < |st.records|
      ensures NotAfter(st.records[i], st.records[j]) || st.records[i].line == st.records[j].line == st.line
    {
      if j < st.lineStart {
        assert NotAfter(front[i], front[j]);
      } else {
        assert line[j - st.lineStart] in line;
        assert i < st.lineStart ==> front[i] in front;
        assert i >= st.lineStart ==> line[i - st.lineStart] in line;
      }
    }
  }

  // ----- Positions that overflow -----

  const LARGEST: int := TWO_30 - 1

  /** Three mappings on one line, each 2^30 - 1 columns after the one before. */
  function FarApart(): Text {
    Encode(LARGEST) + ([COMMA] + (Encode(LARGEST) + ([COMMA] + Encode(LARGEST))))
  }

  lemma AdvanceStep(text: Text, st: State)
    requires st.Valid() && At(text, st.i, Encode(LARGEST)) && st.column >= 0
    requires MappingEnds(text, st.i + |Encode(LARGEST)|)
    ensures st.i < |text|
    ensures Step(text, 0, st)
         == Ok(SkipComma(text, Append(st.(i := st.i + |Encode(LARGEST)|, column := st.column + LARGEST), false, false)))
  {
    hide Vlq.Encode, Vlq.Decode, Append;
    AtFirst(text, st.i, Encode(LARGEST));
    DecodeEncoded(text, st.i, LARGEST);
    var next := st.(i := st.i + |Encode(LARGEST)|, column := st.column + LARGEST);
    assert ReadField(text, st.i, st.column, None, InvalidGeneratedColumn) == Ok((next.column, next.i));
    assert next.(needSort := st.needSort || next.column < st.column) == next;
    assert ParseSegment(text, 0, st) == Ok(Mapping(SkipComma(text, next), false, false));
    AppendAfterComma(text, next);
  }

  lemma AppendAfterComma(text: Text, st: State)
    requires st.Valid()
    ensures Append(SkipComma(text, st), false, false) == SkipComma(text, Append(st, false, false))
  {
  }

  /** Without the bound, ascending columns can be stored out of order: the third column wraps around
      below zero, and no sort is owed. */
  lemma OverflowBreaksOrder()
    ensures var r := Run(FarApart(), 0, INITIAL);
      r.Ok? && !r.value.needSort && !InOrder(r.value.records)
  {
    hide Vlq.Encode, At, Step, InOrder;
    var text, e := FarApart(), Encode(LARGEST);
    var n := |e|;
    var tail := e + ([COMMA] + e);
    assert At(text, 0, text) by {
      WholeAt(text);
    }
    AtConcat(text, 0, e, [COMMA] + tail);
    AtConcat(text, n, [COMMA], tail);
    AtConcat(text, n + 1, e, [COMMA] + e);
    AtConcat(text, 2 * n + 1, [COMMA], e);
    AtFirst(text, n, [COMMA]);
    AtFirst(text, 2 * n + 1, [COMMA]);
    AdvanceStep(text, INITIAL);
    var a := Step(text, 0, INITIAL).value;
    AdvanceStep(text, a);
    var b := Step(text, 0, a).value;
    AdvanceStep(text, b);
    var c := Step(text, 0, b).value;
    assert Run(text, 0, INITIAL) == Run(text, 0, a) == Run(text, 0, b) == Run(text, 0, c) == Ok(c);
    assert c.records[1].column == 2 * LARGEST && c.records[2].column == 3 * LARGEST - TWO_32;
    OutOfOrder(c.records);
  }

  lemma WholeAt(text: Text)
    ensures At(text, 0, text)
  {
  }

  lemma OutOfOrder(records: seq<Record>)
    requires |records| > 2 && !NotAfter(records[1], records[2])
    ensures !InOrder(records)
  {
  }
}
