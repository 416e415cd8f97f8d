/** Looking a generated position up in decoded mappings. */
module Remap {
  import opened Wrappers
  import opened Bits
  import opened Records
  import opened Vlq
  import opened Mappings
  import opened MappingsOrder
  import Decoder

  /** A JavaScript number: finite, or one of NaN and the infinities. */
  datatype Number = Finite(value: real) | NotFinite

  datatype RemapError = LineNotFinite | ColumnNotFinite

  /** The record stands at or before the query. */
  predicate Reached(r: Record, line: real, column: real) {
    r.line as real < line || (r.line as real == line && r.column as real <= column)
  }

  /** The record is on the queried line, at or before the queried column. */
  predicate Covers(r: Record, line: real, column: real) {
    r.line as real == line && r.column as real <= column
  }

  /** The last covering record, by scanning every record from the end. */
  function LinearScan(records: seq<Record>, line: real, column: real): (r: Option<nat>)
    ensures match r
      case Some(k) => k < |records| && Covers(records[k], line, column)
                      && forall j :: k < j < |records| ==> !Covers(records[j], line, column)
      case None => forall j :: 0 <= j < |records| ==> !Covers(records[j], line, column)
  {
    if records == [] then None
    else if Covers(records[|records| - 1], line, column) then Some(|records| - 1)
    else LinearScan(records[..|records| - 1], line, column)
  }

  /** What a binary search can rely on: the records the query has reached stand before the others, and
      after one that covers it they all do. */
  ghost predicate Findable(records: seq<Record>, line: real, column: real) {
    && (forall i, j :: 0 <= i < j < |records| && Reached(records[j], line, column) ==>
          Reached(records[i], line, column))
    && (forall i, j :: 0 <= i < j < |records| && Reached(records[j], line, column) ==>
          (Covers(records[i], line, column) ==> Covers(records[j], line, column)))
  }

  /** Records in order answer every query. */
  lemma InOrderFindable(records: seq<Record>, line: real, column: real)
    requires InOrder(records)
    ensures Findable(records, line, column)
  {
    forall i, j | 0 <= i < j < |records| && Reached(records[j], line, column)
      ensures Reached(records[i], line, column)
      ensures Covers(records[i], line, column) ==> Covers(records[j], line, column)
    {
      assert NotAfter(records[i], records[j]);
    }
  }

  /** With a last line in any order, the others can still be queried. */
  lemma FinishedFindable(front: seq<Record>, last: seq<Record>, n: int, line: real, column: real)
    requires InOrder(front) && line != n as real
    requires forall r :: r in front ==> r.line < n
    requires forall r :: r in last ==> r.line == n
    ensures Findable(front + last, line, column)
  {
    var records := front + last;
    forall i, j | 0 <= i < j < |records| && Reached(records[j], line, column)
      ensures Reached(records[i], line, column)
      ensures Covers(records[i], line, column) ==> Covers(records[j], line, column)
    {
      if j < |front| {
        assert NotAfter(front[i], front[j]);
      } else {
        assert last[j - |front|] in last;
        assert i < |front| ==> front[i] in front;
        assert i >= |front| ==> last[i - |front|] in last;
      }
    }
  }

  /** The records up to `b` end in one the query has reached, the others begin with one it has not. */
  ghost predicate Boundary(records: seq<Record>, b: nat, line: real, column: real) {
    && b <= |records|
    && (b > 0 ==> Reached(records[b - 1], line, column))
    && (b < |records| ==> !Reached(records[b], line, column))
  }

  /** What a search that stops at `b` finds: the record before it, if that is on the line. */
  function FoundAt(records: seq<Record>, b: nat, line: real): (r: Option<nat>)
    requires b <= |records|
    ensures r.Some? ==> r.value < |records|
  {
    if b > 0 && records[b - 1].line as real == line then Some(b - 1) else None
  }

  /** Where a record starts in the flat buffer. */
  function Offset(record: Option<nat>): Option<nat> {
    match record
    case Some(k) => Some(6 * k)
    case None => None
  }

  /** The binary search over whole records. On any records it stops at a boundary, so that a hit covers
      the query; where the query is findable the search finds just what a full scan would. */
  method IndexOfMapping(mappings: seq<int>, line: real, column: real) returns (r: Option<nat>)
    requires |mappings| % 6 == 0
    ensures r.Some? ==> r.value % 6 == 0 && r.value < |mappings|
                        && Covers(RecordAt(mappings, r.value), line, column)
    ensures var records := Unflatten(mappings);
      && (exists b: nat :: Boundary(records, b, line, column) && r == Offset(FoundAt(records, b, line)))
      && (Findable(records, line, column) ==> r == Offset(LinearScan(records, line, column)))
  {
    hide LinearScan, Findable;
    ghost var records := Unflatten(mappings);
    var count := |mappings| / 6;
    var index := 0;
    while count > 0
      invariant 0 <= index <= index + count <= |records|
      invariant index > 0 ==> Reached(records[index - 1], line, column)
      invariant index + count < |records| ==> !Reached(records[index + count], line, column)
    {
      var step := count / 2;
      var i := index + step;
      var j := i * 6;
      assert records[i] == RecordAt(mappings, j);
      if mappings[j] as real < line || (mappings[j] as real == line && mappings[j + 1] as real <= column) {
        index := i + 1;
        count := count - (step + 1);
      } else {
        count := step;
      }
    }
    assert Boundary(records, index, line, column);
    if Findable(records, line, column) {
      BoundaryIsScan(records, index, line, column);
    }
    if index > 0 {
      assert records[index - 1] == RecordAt(mappings, 6 * (index - 1));
      if mappings[(index - 1) * 6] as real == line {
        return Some((index - 1) * 6);
      }
    }
    return None;
  }

  /** Findable records have one boundary, where the scan's answer is. */
  lemma BoundaryIsScan(records: seq<Record>, b: nat, line: real, column: real)
    requires Findable(records, line, column) && Boundary(records, b, line, column)
    ensures LinearScan(records, line, column) == FoundAt(records, b, line)
  {
    forall j | 0 <= j < |records|
      ensures j >= b ==> !Reached(records[j], line, column)
      ensures j < b && Covers(records[j], line, column) ==> Covers(records[b - 1], line, column)
    {
    }
  }

  /** What the caller gets: on a miss the search's `null` slips past the `-1` test and indexes the
      buffer as 0, so the first record answers. */
  function AnswerAt(records: seq<Record>, found: Option<nat>, line: real, column: real): Option<(int, int)>
    requires found.Some? ==> found.value < |records|
  {
    if records == [] || line < 0.0 || column < 0.0 then None
    else
      var r := match found case Some(k) => records[k] case None => records[0];
      Some((r.originalLine + 1, r.originalColumn))
  }

  function Answer(records: seq<Record>, line: real, column: real): Option<(int, int)> {
    AnswerAt(records, LinearScan(records, line, column), line, column)
  }

  /** What a position lookup means: the last covering record's original position, or nothing. */
  function Intended(records: seq<Record>, line: real, column: real): Option<(int, int)> {
    if line < 0.0 || column < 0.0 then None
    else match LinearScan(records, line, column)
      case Some(k) => Some((records[k].originalLine + 1, records[k].originalColumn))
      case None => None
  }

  method RemapPosition(decodedMappings: seq<int>, line: Number, column: Number)
    returns (r: Result<Option<(int, int)>, RemapError>)
    requires |decodedMappings| % 6 == 0
    ensures r.Err? <==> line.NotFinite? || column.NotFinite?
    ensures r.Err? ==> r.error == if line.NotFinite? then LineNotFinite else ColumnNotFinite
    ensures r.Ok? ==> (r.value.None? <==> decodedMappings == [] || line.value < 0.0 || column.value < 0.0)
    ensures r.Ok? && r.value.Some? ==>
      var records := Unflatten(decodedMappings);
      exists b: nat :: Boundary(records, b, line.value, column.value)
                       && r.value == AnswerAt(records, FoundAt(records, b, line.value), line.value, column.value)
    ensures r.Ok? && Findable(Unflatten(decodedMappings), line.value, column.value) ==>
      r.value == Answer(Unflatten(decodedMappings), line.value, column.value)
  {
    hide LinearScan, Findable;
    if line.NotFinite? {
      return Err(LineNotFinite);
    }
    if column.NotFinite? {
      return Err(ColumnNotFinite);
    }
    if |decodedMappings| == 0 || line.value < 0.0 || column.value < 0.0 {
      return Ok(None);
    }
    var index := IndexOfMapping(decodedMappings, line.value, column.value);
    // `null === -1` is false, and `null + 3` is 3.
    var at := match index case Some(k) => k case None => 0;
    ghost var records := Unflatten(decodedMappings);
    assert records[at / 6] == RecordAt(decodedMappings, at);
    return Ok(Some((decodedMappings[at + 3] + 1, decodedMappings[at + 4])));
  }

  /** The lookup means what it should exactly when some record covers the query, or the query or
      the mappings are refused up front. */
  lemma AnswerIntended(records: seq<Record>, line: real, column: real)
    ensures Answer(records, line, column) == Intended(records, line, column)
       <==> records == [] || line < 0.0 || column < 0.0 || exists r :: r in records && Covers(r, line, column)
  {
    var scan := LinearScan(records, line, column);
    if scan.Some? {
      assert records[scan.value] in records;
    }
  }

  /** The texts and lines a search can rely on: no finished line overflowed unsorted, and the last
      line is asked about only when it owes no sort and fits. */
  ghost predicate Searchable(text: Text, sourcesCount: nat, line: real) {
    && BreaksFit(text, sourcesCount, INITIAL)
    && match Run(text, sourcesCount, INITIAL)
       case Ok(end) => end.line < TWO_31 && (line == end.line as real ==> !end.needSort && end.column < TWO_31)
       case Err(_) => false
  }

  lemma SearchableFindable(text: Text, sourcesCount: nat, line: real, column: real)
    requires Searchable(text, sourcesCount, line)
    ensures Findable(Run(text, sourcesCount, INITIAL).value.records, line, column)
  {
    hide Run, BreaksFit, InOrder, Findable, LineFits, LineOverflowed;
    OrderedExactly(text, sourcesCount);
    var end := Run(text, sourcesCount, INITIAL).value;
    if line == end.line as real {
      InOrderFindable(end.records, line, column);
    } else {
      assert end.records == end.records[..end.lineStart] + end.Current();
      FinishedFindable(end.records[..end.lineStart], end.Current(), end.line, line, column);
    }
  }

  /** Decoding a text and looking a position up in the result. */
  method RemapThroughText(text: Text, sourcesCount: nat, line: Number, column: Number)
    returns (r: Result<Result<Option<(int, int)>, RemapError>, DecodeError>)
    ensures r.Err? <==> Run(text, sourcesCount, INITIAL).Err?
    ensures r.Err? ==> r.error == Run(text, sourcesCount, INITIAL).error
    ensures r.Ok? && (line.NotFinite? || column.NotFinite?) ==>
      r.value == Err(if line.NotFinite? then LineNotFinite else ColumnNotFinite)
    ensures r.Ok? && line.Finite? && column.Finite? ==>
      var records := Run(text, sourcesCount, INITIAL).value.records;
      && r.value.Ok? && (r.value.value.None? <==> records == [] || line.value < 0.0 || column.value < 0.0)
      && (r.value.value.Some? ==>
            exists b: nat :: Boundary(records, b, line.value, column.value)
              && r.value.value == AnswerAt(records, FoundAt(records, b, line.value), line.value, column.value))
    ensures line.Finite? && column.Finite? && Searchable(text, sourcesCount, line.value) ==>
      r == Ok(Ok(Answer(Run(text, sourcesCount, INITIAL).value.records, line.value, column.value)))
  {
    hide Run, Findable, Answer, BreaksFit, Boundary, AnswerAt;
    var data :- Decoder.DecodeMappings(text, sourcesCount);
    if line.Finite? && Searchable(text, sourcesCount, line.value) {
      SearchableFindable(text, sourcesCount, line.value, if column.Finite? then column.value else 0.0);
    }
    var position := RemapPosition(data, line, column);
    return Ok(position);
  }

  /** A lookup before the first mapping of its line: the code answers with an unrelated record. */
  lemma MissAnswersFirstRecord()
    ensures var records := [Record(0, 5, 0, 41, 7, -1)];
      && InOrder(records)
      && Intended(records, 0.0, 0.0) == None
      && Answer(records, 0.0, 0.0) == Some((42, 7))
  {
    var records := [Record(0, 5, 0, 41, 7, -1)];
    assert LinearScan(records, 0.0, 0.0) == None;
  }
}
