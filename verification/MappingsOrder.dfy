/** The order in which decoded records stand, over every run of the decoder. */
module MappingsOrder {
  import opened Wrappers
  import opened Bits
  import opened Records
  import opened Vlq
  import opened Mappings

  /** By generated line, then by generated column. */
  predicate NotAfter(a: Record, b: Record) {
    a.line < b.line || (a.line == b.line && a.column <= b.column)
  }

  ghost predicate InOrder(records: seq<Record>) {
    forall i, j :: 0 <= i < j < |records| ==> NotAfter(records[i], records[j])
  }

  /** Every line break that is reached with no sort owed leaves a column an Int32Array can hold. */
  predicate BreaksFit(text: Text, sourcesCount: nat, st: State)
    requires st.Valid()
    decreases |text| - st.i
  {
    st.i < |text| ==>
      (text[st.i] == SEMICOLON ==> st.needSort || st.column < TWO_31)
      && match Step(text, sourcesCount, st)
         case Ok(next) => BreaksFit(text, sourcesCount, next)
         case Err(_) => true
  }

  function LastColumn(line: seq<Record>): int {
    if line == [] then 0 else line[|line| - 1].column
  }

  /** A line whose columns so far are stored unchanged: a sort is owed exactly when it needs one. */
  ghost predicate LineFits(st: State)
    requires st.Valid()
  {
    && 0 <= st.column < TWO_31 && st.column == LastColumn(st.Current())
    && (st.needSort <==> !Ordered(st.Current()))
  }

  /** A line that went past 2^31: a record of it was stored below -1 and stands out of order, and
      unless a sort is owed the column is still past 2^31. */
  ghost predicate LineOverflowed(st: State)
    requires st.Valid()
  {
    && !Ordered(st.Current()) && (st.needSort || st.column >= TWO_31)
    && exists r :: r in st.Current() && r.column < -1
  }

  /** What every loop head keeps. */
  ghost predicate LoopInvariant(st: State) {
    && st.Valid() && (LineFits(st) || LineOverflowed(st))
    && (forall r :: r in st.records[..st.lineStart] ==> r.line < st.line)
    && (forall r :: r in st.Current() ==> r.line == st.line)
  }

  ghost predicate FinishedInOrder(st: State)
    requires st.Valid()
  {
    InOrder(st.records[..st.lineStart])
  }

  lemma InitialInvariant()
    ensures LoopInvariant(INITIAL) && FinishedInOrder(INITIAL)
  {
  }

  // ----- Lines one after the other -----

  lemma ConcatInOrder(a: seq<Record>, b: seq<Record>, line: int)
    requires InOrder(a) && Ordered(b)
    requires forall r :: r in a ==> r.line < line
    requires forall r :: r in b ==> r.line == line
    ensures InOrder(a + b)
  {
    forall i, j | 0 <= i < j < |a + b|
      ensures NotAfter((a + b)[i], (a + b)[j])
    {
      if j < |a| {
        assert NotAfter(a[i], a[j]);
      } else if i < |a| {
        assert a[i] in a && b[j - |a|] in b;
      } else {
        assert b[i - |a|] in b && b[j - |a|] in b;
      }
    }
  }

  lemma PartsInOrder(a: seq<Record>, b: seq<Record>, line: int)
    requires InOrder(a + b) && forall r :: r in b ==> r.line == line
    ensures InOrder(a) && Ordered(b)
  {
    forall i, j | 0 <= i < j < |a|
      ensures NotAfter(a[i], a[j])
    {
      assert NotAfter((a + b)[i], (a + b)[j]);
    }
    forall i, j | 0 <= i < j < |b|
      ensures b[i].column <= b[j].column
    {
      assert NotAfter((a + b)[|a| + i], (a + b)[|a| + j]);
      assert b[i] in b && b[j] in b;
    }
  }

  /** Earlier lines followed by one line are in order exactly when both are. */
  lemma SplitInOrder(a: seq<Record>, b: seq<Record>, line: int)
    requires forall r :: r in a ==> r.line < line
    requires forall r :: r in b ==> r.line == line
    ensures InOrder(a + b) <==> InOrder(a) && Ordered(b)
  {
    hide InOrder, Ordered;
    if InOrder(a + b) {
      PartsInOrder(a, b, line);
    }
    if InOrder(a) && Ordered(b) {
      ConcatInOrder(a, b, line);
    }
  }

  // ----- One step -----

  /** A line break puts its line in order exactly when a sort was owed or nothing overflowed. */
  lemma BreakOrder(st: State)
    requires LoopInvariant(st)
    ensures LoopInvariant(LineBreak(st))
    ensures FinishedInOrder(LineBreak(st)) <==> FinishedInOrder(st) && (st.needSort || st.column < TWO_31)
  {
    hide InsertionSort, InOrder;
    var front, line := st.records[..st.lineStart], st.Current();
    assert st.records == front + line;
    var line' := if st.needSort then InsertionSort(line) else line;
    InsertionSortOrders(line);
    InsertionSortMembers(line);
    SplitInOrder(front, line', st.line);
    var next := LineBreak(st);
    assert next.records == front + line';
    assert next.records[..next.lineStart] == next.records && next.Current() == [];
  }

  /** A new last record keeps the line in order exactly when its column does not descend. */
  lemma OrderedAppend(line: seq<Record>, x: Record)
    ensures Ordered(line + [x])
       <==> Ordered(line) && (line == [] || line[|line| - 1].column <= x.column)
  {
    var all := line + [x];
    if Ordered(all) {
      forall i, j | 0 <= i < j < |line|
        ensures line[i].column <= line[j].column
      {
        assert all[i].column <= all[j].column;
      }
      if line != [] {
        assert all[|line| - 1].column <= all[|line|].column;
      }
    }
  }

  /** A column that passes 2^31 in a step of at most 2^30 is stored below zero. */
  lemma StoredBelowZero(column: int)
    requires TWO_31 <= column < TWO_31 + TWO_30
    ensures ToInt32(column) < -1
  {
  }

  /** The first column past 2^31 is stored below its neighbour, so an overflow always shows. */
  lemma AppendKeepsInvariant(st: State, m: Mapping)
    requires LoopInvariant(st) && st.line < TWO_31
    requires 0 <= m.st.column <= st.column + TWO_30
    requires m.st.line == st.line && m.st.lineStart == st.lineStart && m.st.records == st.records
    requires m.st.needSort == (st.needSort || m.st.column < st.column)
    ensures LoopInvariant(Append(m.st, m.hasSource, m.hasName))
  {
    hide ToInt32, Ordered, LineFits, LineOverflowed;
    var next := Append(m.st, m.hasSource, m.hasName);
    var x := next.records[|st.records|];
    assert x.line == st.line && x.column == ToInt32(m.st.column);
    assert next.records[..st.lineStart] == st.records[..st.lineStart];
    assert next.Current() == st.Current() + [x];
    AppendFits(st, next, x);
  }

  lemma AppendFits(st: State, next: State, x: Record)
    requires st.Valid() && next.Valid() && (LineFits(st) || LineOverflowed(st))
    requires 0 <= next.column <= st.column + TWO_30 && x.column == ToInt32(next.column)
    requires next.Current() == st.Current() + [x]
    requires next.needSort == (st.needSort || next.column < st.column)
    ensures LineFits(next) || LineOverflowed(next)
  {
    hide ToInt32, Ordered;
    OrderedAppend(st.Current(), x);
    Stored(next.column);
    if LineFits(st) && next.column >= TWO_31 {
      StoredBelowZero(next.column);
    }
    assert x in next.Current();
    assert forall r :: r in st.Current() ==> r in next.Current();
  }

  lemma Stored(column: int)
    requires 0 <= column
    ensures column < TWO_31 ==> ToInt32(column) == column
  {
  }

  lemma DecodedMagnitude(text: Text, i: nat, shift: nat, word: nat)
    requires DecodeFrom(text, i, shift, word).Ok?
    ensures -TWO_30 <= DecodeFrom(text, i, shift, word).value.0 <= TWO_30
    decreases |text| - i
  {
    hide And, Accumulate, Digit, ToInt32;
    if i < |text| {
      var index := Digit(And(text[i], 0x7f));
      if And(index, 32) != 0 {
        DecodedMagnitude(text, i + 1, shift + 5, Accumulate(word, index, shift));
      }
    }
  }

  /** What a mapping's fields leave alone, and how far the column can move. */
  lemma ParseKeeps(text: Text, sourcesCount: nat, st: State)
    requires st.Valid() && ParseSegment(text, sourcesCount, st).Ok?
    ensures var m := ParseSegment(text, sourcesCount, st).value;
      && m.st.line == st.line && m.st.lineStart == st.lineStart && m.st.records == st.records
      && 0 <= m.st.column <= st.column + TWO_30
      && m.st.needSort == (st.needSort || m.st.column < st.column)
  {
    hide DecodeFrom;
    DecodedMagnitude(text, st.i, 0, 0);
  }

  lemma StepOrder(text: Text, sourcesCount: nat, st: State)
    requires LoopInvariant(st) && st.i < |text| && st.line < TWO_31
    requires Step(text, sourcesCount, st).Ok?
    ensures var next := Step(text, sourcesCount, st).value;
      && LoopInvariant(next) && st.line <= next.line
      && (FinishedInOrder(next) <==>
            FinishedInOrder(st) && (text[st.i] == SEMICOLON ==> st.needSort || st.column < TWO_31))
  {
    hide ParseSegment, InOrder, Ordered, ToInt32, InsertionSort;
    if text[st.i] == SEMICOLON {
      BreakOrder(st);
    } else if text[st.i] != COMMA {
      ParseKeeps(text, sourcesCount, st);
      var m := ParseSegment(text, sourcesCount, st).value;
      AppendKeepsInvariant(st, m);
      assert Append(m.st, m.hasSource, m.hasName).records[..st.lineStart] == st.records[..st.lineStart];
    }
  }

  // ----- Whole runs -----

  lemma {:induction false} RunLines(text: Text, sourcesCount: nat, st: State)
    requires st.Valid() && Run(text, sourcesCount, st).Ok? && st.i <= |text|
    ensures st.line <= Run(text, sourcesCount, st).value.line <= st.line + |text| - st.i
    decreases |text| - st.i
  {
    if st.i < |text| {
      StepLines(text, sourcesCount, st);
      RunLines(text, sourcesCount, Step(text, sourcesCount, st).value);
    }
  }

  lemma StepLines(text: Text, sourcesCount: nat, st: State)
    requires st.Valid() && st.i < |text| && Step(text, sourcesCount, st).Ok?
    ensures var next := Step(text, sourcesCount, st).value;
      st.line <= next.line <= st.line + next.i - st.i
  {
    hide Vlq.Decode, InsertionSort;
  }

  lemma {:induction false} RunOrder(text: Text, sourcesCount: nat, st: State)
    requires st.Valid() && LoopInvariant(st) && st.i <= |text|
    requires Run(text, sourcesCount, st).Ok? && Run(text, sourcesCount, st).value.line < TWO_31
    ensures var end := Run(text, sourcesCount, st).value;
      && LoopInvariant(end)
      && (FinishedInOrder(end) <==> FinishedInOrder(st) && BreaksFit(text, sourcesCount, st))
    decreases |text| - st.i
  {
    hide LoopInvariant, FinishedInOrder, Step;
    if st.i < |text| {
      RunLines(text, sourcesCount, st);
      StepOrder(text, sourcesCount, st);
      RunOrder(text, sourcesCount, Step(text, sourcesCount, st).value);
    }
  }

  /** At any loop head, all the records are in order exactly when the finished lines are, no sort is
      owed and the column fits. */
  lemma EndOrder(st: State)
    requires LoopInvariant(st)
    ensures InOrder(st.records) <==> FinishedInOrder(st) && !st.needSort && st.column < TWO_31
  {
    hide InOrder, Ordered;
    var front, line := st.records[..st.lineStart], st.Current();
    assert st.records == front + line;
    SplitInOrder(front, line, st.line);
  }

  /** A run of fewer than 2^31 lines: its finished lines are in order exactly when the breaks fit, and
      all its records when besides no sort is owed at the end and the last column fits. */
  lemma OrderedExactly(text: Text, sourcesCount: nat)
    requires Run(text, sourcesCount, INITIAL).Ok? && Run(text, sourcesCount, INITIAL).value.line < TWO_31
    ensures var end := Run(text, sourcesCount, INITIAL).value;
      && LoopInvariant(end)
      && (FinishedInOrder(end) <==> BreaksFit(text, sourcesCount, INITIAL))
      && (InOrder(end.records) <==> BreaksFit(text, sourcesCount, INITIAL) && !end.needSort && end.column < TWO_31)
  {
    hide Run, BreaksFit, LoopInvariant, InOrder, FinishedInOrder;
    InitialInvariant();
    RunOrder(text, sourcesCount, INITIAL);
    EndOrder(Run(text, sourcesCount, INITIAL).value);
  }

  /** A text has fewer line breaks than characters. */
  lemma TextLines(text: Text, sourcesCount: nat)
    requires Run(text, sourcesCount, INITIAL).Ok? && |text| < TWO_31
    ensures Run(text, sourcesCount, INITIAL).value.line < TWO_31
  {
    RunLines(text, sourcesCount, INITIAL);
  }

  /** For every accepted text as long as a string can be: the decoded records are in order exactly
      when no sort is owed at the end and no unsorted line overflowed. */
  lemma DecodedInOrder(text: Text, sourcesCount: nat)
    requires Run(text, sourcesCount, INITIAL).Ok? && |text| < TWO_31
    ensures var end := Run(text, sourcesCount, INITIAL).value;
      InOrder(end.records) <==> !end.needSort && end.column < TWO_31 && BreaksFit(text, sourcesCount, INITIAL)
  {
    hide Run, BreaksFit, InOrder;
    TextLines(text, sourcesCount);
    OrderedExactly(text, sourcesCount);
  }

  // ----- A text ending in `;` owes no sort -----

  lemma {:induction false} VlqEndsInDigit(text: Text, i: nat, shift: nat, word: nat)
    requires DecodeFrom(text, i, shift, word).Ok?
    ensures text[DecodeFrom(text, i, shift, word).value.1 - 1] != SEMICOLON
    decreases |text| - i
  {
    CharMask(text[i]);
    var index := Digit(And(text[i], 0x7f));
    if And(index, 32) != 0 {
      VlqEndsInDigit(text, i + 1, shift + 5, Accumulate(word, index, shift));
    }
  }

  lemma FieldEndsInDigit(text: Text, i: nat, previous: int, limit: Option<nat>, reason: Reason)
    requires ReadField(text, i, previous, limit, reason).Ok?
    ensures text[ReadField(text, i, previous, limit, reason).value.1 - 1] != SEMICOLON
  {
    VlqEndsInDigit(text, i, 0, 0);
  }

  lemma MappingEndsInDigitOrComma(text: Text, sourcesCount: nat, st: State)
    requires st.Valid() && ParseSegment(text, sourcesCount, st).Ok?
    ensures text[ParseSegment(text, sourcesCount, st).value.st.i - 1] != SEMICOLON
  {
    hide ReadField;
    var (column, i) := ReadField(text, st.i, st.column, None, InvalidGeneratedColumn).value;
    FieldEndsInDigit(text, st.i, st.column, None, InvalidGeneratedColumn);
    if !MappingEnds(text, i) {
      var a := st.(i := i, column := column, needSort := st.needSort || column < st.column);
      var b := ParsePosition(text, sourcesCount, a).value;
      var (_, j) := ReadField(text, i, a.source, Some(sourcesCount), InvalidOriginalSource).value;
      var (_, k) := ReadField(text, j, a.originalLine, None, InvalidOriginalLine).value;
      FieldEndsInDigit(text, k, a.originalColumn, None, InvalidOriginalColumn);
      if !MappingEnds(text, b.i) {
        FieldEndsInDigit(text, b.i, b.name, None, InvalidOriginalName);
      }
    }
  }

  lemma {:induction false} TerminatedOwesNoSort(text: Text, sourcesCount: nat, st: State)
    requires st.Valid() && st.i < |text| && text[|text| - 1] == SEMICOLON
    requires Run(text, sourcesCount, st).Ok?
    ensures !Run(text, sourcesCount, st).value.needSort
    decreases |text| - st.i
  {
    hide ParseSegment, InsertionSort, ToInt32;
    if text[st.i] != SEMICOLON && text[st.i] != COMMA {
      MappingEndsInDigitOrComma(text, sourcesCount, st);
    }
    var next := Step(text, sourcesCount, st).value;
    assert Run(text, sourcesCount, st) == Run(text, sourcesCount, next);
    if next.i < |text| {
      TerminatedOwesNoSort(text, sourcesCount, next);
    }
  }
}
