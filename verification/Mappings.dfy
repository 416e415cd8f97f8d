/** The `mappings` decoder as a state machine over the text: each step consumes a line break,
    a stray comma or one mapping. `Decoder` runs it on a growable buffer. */
module Mappings {
  import opened Wrappers
  import opened Bits
  import opened Records
  import opened Vlq

  datatype State = State(
    i: nat,
    line: nat,
    lineStart: nat,
    column: int,
    source: int,
    originalLine: int,
    originalColumn: int,
    name: int,
    needSort: bool,
    records: seq<Record>)
  {
    /** The current line's records are those from `lineStart` on. */
    predicate Valid() {
      lineStart <= |records|
    }

    function Current(): seq<Record>
      requires Valid()
    {
      records[lineStart..]
    }
  }

  const INITIAL := State(0, 0, 0, 0, 0, 0, 0, 0, false, [])

  function LineBreak(st: State): (next: State)
    requires st.Valid()
    ensures next.Valid()
  {
    var records := if st.needSort then st.records[..st.lineStart] + InsertionSort(st.Current()) else st.records;
    st.(i := st.i + 1, line := st.line + 1, lineStart := |records|, column := 0, needSort := false, records := records)
  }

  /** Appending a mapping to an Int32Array stores each number modulo 2^32. */
  function Append(st: State, hasSource: bool, hasName: bool): (next: State)
    requires st.Valid()
    ensures next.Valid()
  {
    var record := Record(
      ToInt32(st.line),
      ToInt32(st.column),
      if hasSource then ToInt32(st.source) else -1,
      if hasSource then ToInt32(st.originalLine) else -1,
      if hasSource then ToInt32(st.originalColumn) else -1,
      if hasName then ToInt32(st.name) else -1);
    st.(records := st.records + [record])
  }

  /** A delta added to its accumulator, which must stay in `0..limit`. */
  function ReadField(text: Text, i: nat, previous: int, limit: Option<nat>, reason: Reason)
    : (r: Result<(int, nat), DecodeError>)
    ensures r.Ok? ==> i < r.value.1 <= |text| && r.value.0 >= 0
  {
    var (delta, next) :- Vlq.Decode(text, i);
    var value := previous + delta;
    if value < 0 || (limit.Some? && value >= limit.value) then Err(DecodeError(next, reason))
    else Ok((value, next))
  }

  /** Whether the mapping stops here: at a comma, which it swallows, at the end or before `;`. */
  predicate MappingEnds(text: Text, i: nat) {
    i >= |text| || text[i] == COMMA || text[i] == SEMICOLON
  }

  function SkipComma(text: Text, st: State): State {
    if st.i < |text| && text[st.i] == COMMA then st.(i := st.i + 1) else st
  }

  /** A mapping's fields as read: the accumulators, and which optional fields it had. */
  datatype Mapping = Mapping(st: State, hasSource: bool, hasName: bool)

  ghost predicate Advances(text: Text, st: State, r: Result<Mapping, DecodeError>) {
    r.Ok? ==> r.value.st.Valid() && st.i < r.value.st.i <= |text|
  }

  function ParseSegment(text: Text, sourcesCount: nat, st: State): (r: Result<Mapping, DecodeError>)
    requires st.Valid()
    ensures Advances(text, st, r)
  {
    var (column, i) :- ReadField(text, st.i, st.column, None, InvalidGeneratedColumn);
    var next := st.(i := i, column := column, needSort := st.needSort || column < st.column);
    if MappingEnds(text, i) then Ok(Mapping(SkipComma(text, next), false, false))
    else ParseOriginal(text, sourcesCount, next)
  }

  function ParsePosition(text: Text, sourcesCount: nat, st: State): (r: Result<State, DecodeError>)
    requires st.Valid()
    ensures r.Ok? ==> r.value.Valid() && st.i < r.value.i <= |text|
  {
    var (source, i) :- ReadField(text, st.i, st.source, Some(sourcesCount), InvalidOriginalSource);
    var (originalLine, j) :- ReadField(text, i, st.originalLine, None, InvalidOriginalLine);
    var (originalColumn, k) :- ReadField(text, j, st.originalColumn, None, InvalidOriginalColumn);
    Ok(st.(i := k, source := source, originalLine := originalLine, originalColumn := originalColumn))
  }

  function ParseOriginal(text: Text, sourcesCount: nat, st: State): (r: Result<Mapping, DecodeError>)
    requires st.Valid()
    ensures Advances(text, st, r)
  {
    var next :- ParsePosition(text, sourcesCount, st);
    if MappingEnds(text, next.i) then Ok(Mapping(SkipComma(text, next), true, false))
    else ParseName(text, next)
  }

  function ParseName(text: Text, st: State): (r: Result<Mapping, DecodeError>)
    requires st.Valid()
    ensures Advances(text, st, r)
  {
    var (name, i) :- ReadField(text, st.i, st.name, None, InvalidOriginalName);
    if MappingEnds(text, i) then Ok(Mapping(SkipComma(text, st.(i := i, name := name)), true, true))
    else Err(DecodeError(i, InvalidCharacterAfterMapping))
  }

  function Step(text: Text, sourcesCount: nat, st: State): (r: Result<State, DecodeError>)
    requires st.Valid() && st.i < |text|
    ensures r.Ok? ==> r.value.Valid() && st.i < r.value.i <= |text|
  {
    if text[st.i] == SEMICOLON then Ok(LineBreak(st))
    else if text[st.i] == COMMA then Ok(st.(i := st.i + 1))
    else
      var m :- ParseSegment(text, sourcesCount, st);
      Ok(Append(m.st, m.hasSource, m.hasName))
  }

  function Run(text: Text, sourcesCount: nat, st: State): (r: Result<State, DecodeError>)
    requires st.Valid()
    ensures r.Ok? ==> r.value.Valid()
    decreases |text| - st.i
  {
    if st.i >= |text| then Ok(st)
    else
      var next :- Step(text, sourcesCount, st);
      Run(text, sourcesCount, next)
  }
}
