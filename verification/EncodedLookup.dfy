/** From an encoder's lines, through the text, the decoder and the search, to the original position
    of one of their entries. */
module EncodedLookup {
  import opened Wrappers
  import opened Bits
  import opened Records
  import opened Mappings
  import opened MappingsOrder
  import opened RoundTrip
  import opened Remap

  /** Entry `k` is the one a query at `column` means: of the entries at or before it the furthest
      along, and the last written among those at the same column. */
  ghost predicate Meant(line: seq<Entry>, k: nat, column: real) {
    && k < |line| && line[k].column as real <= column
    && forall j :: 0 <= j < |line| && line[j].column as real <= column ==>
         line[j].column < line[k].column || (line[j].column == line[k].column && j <= k)
  }

  /** What a lookup reports for an entry; one without an original position has line and column -1. */
  function Reported(e: Entry): (int, int) {
    match e
    case Generated(_) => (0, -1)
    case Sourced(_, _, originalLine, originalColumn) => (originalLine + 1, originalColumn)
    case Named(_, _, originalLine, originalColumn, _) => (originalLine + 1, originalColumn)
  }

  lemma ReportedIsRecord(line: nat, e: Entry)
    ensures var r := RecordOf(line, e);
      r.line == line && r.column == e.column && Reported(e) == (r.originalLine + 1, r.originalColumn)
  {
  }

  /** The records line `l` decodes to. */
  function LineOf(line: nat, lines: seq<seq<Entry>>, l: nat): seq<Record>
    requires l < |lines|
  {
    var records := LineRecords(line + l, lines[l]);
    if l == |lines| - 1 then records else InsertionSort(records)
  }

  lemma LineOfLines(line: nat, lines: seq<seq<Entry>>, l: nat)
    requires l < |lines|
    ensures forall r :: r in LineOf(line, lines, l) ==> r.line == line + l
    ensures forall r :: r in LineOf(line, lines, l) ==>
      exists j :: 0 <= j < |lines[l]| && r == RecordOf(line + l, lines[l][j])
  {
    hide InsertionSort;
    var records := LineRecords(line + l, lines[l]);
    InsertionSortMembers(records);
    forall r | r in records
      ensures r.line == line + l && exists j :: 0 <= j < |lines[l]| && r == RecordOf(line + l, lines[l][j])
    {
      var j :| 0 <= j < |records| && records[j] == r;
    }
  }

  lemma DecodedTail(line: nat, lines: seq<seq<Entry>>)
    requires lines != []
    ensures DecodedLines(line, lines) == LineOf(line, lines, 0) + DecodedLines(line + 1, lines[1..])
  {
    hide InsertionSort;
    if |lines| == 1 {
      assert DecodedLines(line + 1, lines[1..]) == [];
    }
  }

  lemma {:induction false} DecodedRange(line: nat, lines: seq<seq<Entry>>)
    ensures forall r :: r in DecodedLines(line, lines) ==> line <= r.line < line + |lines|
    decreases |lines|
  {
    hide LineOf, DecodedLines;
    if lines == [] {
      NoneDecoded(line);
    } else {
      DecodedTail(line, lines);
      LineOfLines(line, lines, 0);
      DecodedRange(line + 1, lines[1..]);
    }
  }

  lemma NoneDecoded(line: nat)
    ensures DecodedLines(line, []) == []
  {
  }

  /** Line `l`'s records stand together, between those of the lines before and after it. */
  lemma {:induction false} Segment(line: nat, lines: seq<seq<Entry>>, l: nat)
    returns (before: seq<Record>, after: seq<Record>)
    requires l < |lines|
    ensures DecodedLines(line, lines) == before + LineOf(line, lines, l) + after
    ensures forall r :: r in before ==> r.line < line + l
    ensures forall r :: r in after ==> r.line > line + l
    decreases l
  {
    hide InsertionSort, DecodedLines;
    DecodedTail(line, lines);
    if l == 0 {
      before, after := [], DecodedLines(line + 1, lines[1..]);
      DecodedRange(line + 1, lines[1..]);
    } else {
      LineOfLines(line, lines, 0);
      var rest;
      rest, after := Segment(line + 1, lines[1..], l - 1);
      before := LineOf(line, lines, 0) + rest;
      assert LineOf(line + 1, lines[1..], l - 1) == LineOf(line, lines, l);
    }
  }

  // ----- The last covering record of a stably sorted line -----

  /** The last record of a column ends the list of that column's records. */
  lemma {:induction false} LastAt(s: seq<Record>, q: nat)
    requires q < |s| && forall j :: q < j < |s| ==> s[j].column != s[q].column
    ensures var f := WithColumn(s, s[q].column); f != [] && f[|f| - 1] == s[q]
  {
    if q < |s| - 1 {
      LastAt(s[..|s| - 1], q);
    }
  }

  /** In a stable sort, the last record not past the query is the meant one. */
  lemma LastCoveringIsMeant(s: seq<Record>, original: seq<Record>, k: nat, q: nat, column: real)
    requires StableSortOf(s, original) && k < |original| && q < |s|
    requires original[k].column as real <= column && s[q].column as real <= column
    requires forall j :: 0 <= j < |original| && original[j].column as real <= column ==>
      original[j].column < original[k].column || (original[j].column == original[k].column && j <= k)
    requires forall j :: q < j < |s| ==> s[j].column as real > column
    ensures s[q] == original[k]
  {
    hide WithColumn;
    var x := original[k];
    WithColumnMember(original, x.column, x);
    WithColumnMember(s, x.column, x);
    assert WithColumn(s, x.column) == WithColumn(original, x.column);
    var p :| 0 <= p < |s| && s[p] == x;
    assert p <= q && s[p].column <= s[q].column;
    WithColumnMember(s, s[q].column, s[q]);
    WithColumnMember(original, s[q].column, s[q]);
    assert WithColumn(s, s[q].column) == WithColumn(original, s[q].column);
    var j :| 0 <= j < |original| && original[j] == s[q];
    assert s[q].column == x.column;
    LastAt(s, q);
    LastAt(original, k);
  }

  /** A line's decoded records are its stable sort, also when it is the last one and ascends. */
  lemma LineOfIsStable(line: nat, lines: seq<seq<Entry>>, l: nat)
    requires l < |lines| && (l < |lines| - 1 || !LastDescends(lines))
    ensures StableSortOf(LineOf(line, lines, l), LineRecords(line + l, lines[l]))
  {
    hide InsertionSort, LineRecords, Descends, StableSortOf, Ordered;
    var records := LineRecords(line + l, lines[l]);
    InsertionSortIsStable(records);
    if l == |lines| - 1 {
      AscendingLine(line + l, 0, lines[l]);
      InsertionSortOfOrdered(records);
    }
  }

  /** A scan of the decoded lines ends at the meant entry's record. */
  lemma ScanFindsMeant(lines: seq<seq<Entry>>, l: nat, k: nat, column: real)
    requires l < |lines| && (l < |lines| - 1 || !LastDescends(lines)) && Meant(lines[l], k, column)
    ensures var records := DecodedLines(0, lines); var scan := LinearScan(records, l as real, column);
      scan.Some? && records[scan.value] == RecordOf(l, lines[l][k])
  {
    hide LinearScan, DecodedLines, LineOf, StableSortOf, LastDescends, RecordOf;
    var records, s, original := DecodedLines(0, lines), LineOf(0, lines, l), LineRecords(l, lines[l]);
    var before, after := Segment(0, lines, l);
    LineOfLines(0, lines, l);
    LineOfIsStable(0, lines, l);
    forall j | 0 <= j < |original|
      ensures original[j].column == lines[l][j].column && original[j].line == l
    {
      ReportedIsRecord(l, lines[l][j]);
    }
    SortedHas(s, original, original[k]);
    var p :| 0 <= p < |s| && s[p] == original[k];
    assert Covers(records[|before| + p], l as real, column);
    var scan := LinearScan(records, l as real, column).value;
    var q := InSegment(before, s, after, l, scan);
    forall j | q < j < |s|
      ensures s[j].column as real > column
    {
      assert records[|before| + j] == s[j] && s[j] in s;
      assert !Covers(records[|before| + j], l as real, column);
    }
    LastCoveringIsMeant(s, original, k, q, column);
  }

  lemma SortedHas(s: seq<Record>, original: seq<Record>, x: Record)
    requires StableSortOf(s, original) && x in original
    ensures x in s
  {
    hide WithColumn, Ordered;
    WithColumnMember(original, x.column, x);
    WithColumnMember(s, x.column, x);
    assert WithColumn(s, x.column) == WithColumn(original, x.column);
  }

  /** A record of line `l` lies in that line's segment. */
  lemma InSegment(before: seq<Record>, s: seq<Record>, after: seq<Record>, l: int, i: nat) returns (q: nat)
    requires i < |before + s + after| && (before + s + after)[i].line == l
    requires forall r :: r in before ==> r.line < l
    requires forall r :: r in after ==> r.line > l
    ensures q < |s| && i == |before| + q && (before + s + after)[i] == s[q]
  {
    PartOf(before, s, after, i);
    q := i - |before|;
  }

  lemma PartOf(a: seq<Record>, b: seq<Record>, c: seq<Record>, i: nat)
    requires i < |a + b + c|
    ensures i < |a| ==> (a + b + c)[i] in a
    ensures |a| <= i < |a| + |b| ==> (a + b + c)[i] == b[i - |a|]
    ensures i >= |a| + |b| ==> (a + b + c)[i] in c
  {
    if i >= |a| + |b| {
      assert (a + b + c)[i] == c[i - |a| - |b|];
    }
  }

  /** No entry of the queried line stands at or before the query. */
  ghost predicate NoneMeant(lines: seq<seq<Entry>>, line: real, column: real) {
    forall l, j :: 0 <= l < |lines| && l as real == line && 0 <= j < |lines[l]| ==>
      lines[l][j].column as real > column
  }

  /** Then a scan of the decoded lines finds nothing. */
  lemma ScanFindsNone(lines: seq<seq<Entry>>, line: real, column: real)
    requires NoneMeant(lines, line, column)
    ensures LinearScan(DecodedLines(0, lines), line, column) == None
  {
    hide DecodedLines, LineOf, RecordOf;
    var records := DecodedLines(0, lines);
    var scan := LinearScan(records, line, column);
    if scan.Some? {
      var r := records[scan.value];
      DecodedRange(0, lines);
      assert r in records;
      var l: nat := r.line;
      var before, after := Segment(0, lines, l);
      LineOfLines(0, lines, l);
      var q := InSegment(before, LineOf(0, lines, l), after, l, scan.value);
      assert r in LineOf(0, lines, l);
      var j :| 0 <= j < |lines[l]| && r == RecordOf(l, lines[l][j]);
      ReportedIsRecord(l, lines[l][j]);
    }
  }

  /** On a line where an entry is meant, the lookup answers what it is for: that entry's original
      position. */
  lemma AnswersMeant(lines: seq<seq<Entry>>, l: nat, k: nat, column: real)
    requires column >= 0.0 && l < |lines| && (l < |lines| - 1 || !LastDescends(lines)) && Meant(lines[l], k, column)
    ensures var records := DecodedLines(0, lines);
      Answer(records, l as real, column) == Intended(records, l as real, column) == Some(Reported(lines[l][k]))
  {
    hide DecodedLines, LinearScan, RecordOf, Reported, LastDescends;
    ScanFindsMeant(lines, l, k, column);
    ReportedIsRecord(l, lines[l][k]);
  }

  /** On each line some entry is meant, unless all stand past the query. */
  lemma {:induction false} SomeMeant(line: seq<Entry>, column: real)
    ensures (exists k :: Meant(line, k, column)) || forall j :: 0 <= j < |line| ==> line[j].column as real > column
  {
    if line != [] {
      var n: nat := |line| - 1;
      var front := line[..n];
      SomeMeant(front, column);
      if k: nat :| Meant(front, k, column) {
        if line[n].column as real <= column && line[n].column >= line[k].column {
          assert Meant(line, n, column);
        } else {
          assert Meant(line, k, column);
        }
      } else if line[n].column as real <= column {
        assert Meant(line, n, column);
      }
    }
  }

  /** An encoding can be searched on every line, except a last one whose columns descend. */
  lemma EncodingSearchable(lines: seq<seq<Entry>>, sourcesCount: nat, line: real)
    requires ValidLines(lines, sourcesCount) && NearLines(START, lines) && |lines| <= TWO_31
    ensures (line == |lines| as real - 1.0 ==> !LastDescends(lines)) ==>
      Searchable(EncodeLines(START, lines), sourcesCount, line)
    ensures Run(EncodeLines(START, lines), sourcesCount, INITIAL).Ok?
    ensures Run(EncodeLines(START, lines), sourcesCount, INITIAL).value.records == DecodedLines(0, lines)
  {
    hide EncodeLines, DecodedLines, NearLines, Run, BreaksFit, ValidLines;
    RoundTrips(lines, sourcesCount);
  }

  // ----- A last line in any order -----

  /** A search of the line can stop behind entry `k`: it is not past the query, but the next one is. */
  ghost predicate StopsAt(line: seq<Entry>, k: nat, column: real) {
    k < |line| && line[k].column as real <= column && (k + 1 < |line| ==> line[k + 1].column as real > column)
  }

  /** The entries not past the query come before those past it. */
  ghost predicate Parted(line: seq<Entry>, column: real) {
    forall i, j :: 0 <= i < j < |line| && line[j].column as real <= column ==> line[i].column as real <= column
  }

  /** Wherever the search stops on the last line, it has found an entry there that is followed by one
      past the query, or nothing because the line begins past it. */
  lemma BoundaryOnLast(lines: seq<seq<Entry>>, b: nat, column: real)
    requires lines != []
    requires var l := |lines| - 1; Boundary(DecodedLines(0, lines), b, l as real, column)
    ensures var l := |lines| - 1; var records := DecodedLines(0, lines); var found := FoundAt(records, b, l as real);
      match found
      case Some(i) => exists k: nat :: StopsAt(lines[l], k, column) && records[i] == RecordOf(l, lines[l][k])
      case None => lines[l] == [] || lines[l][0].column as real > column
  {
    hide DecodedLines, RecordOf, Boundary;
    var l := |lines| - 1;
    var before, after := Segment(0, lines, l);
    NothingAfterLast(lines, before, after);
    var s := LineRecords(l, lines[l]);
    forall k | 0 <= k < |s|
      ensures s[k] == RecordOf(l, lines[l][k]) && s[k].column == lines[l][k].column && s[k].line == l
    {
      ReportedIsRecord(l, lines[l][k]);
    }
    BoundaryBehind(before, s, l, b, column);
    if b > |before| {
      assert StopsAt(lines[l], b - 1 - |before|, column);
    }
  }

  /** A boundary lies behind all records of earlier lines. */
  lemma BoundaryBehind(before: seq<Record>, s: seq<Record>, l: int, b: nat, column: real)
    requires Boundary(before + s, b, l as real, column)
    requires forall r :: r in before ==> r.line < l
    requires forall r :: r in s ==> r.line == l
    ensures |before| <= b <= |before| + |s|
    ensures var found := FoundAt(before + s, b, l as real);
      if b > |before| then
        var k := b - 1 - |before|;
        && found == Some(b - 1) && (before + s)[b - 1] == s[k] && s[k].column as real <= column
        && (k + 1 < |s| ==> s[k + 1].column as real > column)
      else found == None && (s != [] ==> s[0].column as real > column)
  {
    assert forall i :: 0 <= i < |before| ==> (before + s)[i] in before;
    assert b > |before| ==> s[b - 1 - |before|] in s;
    assert |before| <= b < |before| + |s| ==> s[b - |before|] in s;
    assert 0 < b <= |before| ==> before[b - 1] in before;
  }

  lemma NothingAfterLast(lines: seq<seq<Entry>>, before: seq<Record>, after: seq<Record>)
    requires lines != []
    requires var l := |lines| - 1;
      && DecodedLines(0, lines) == before + LineOf(0, lines, l) + after
      && forall r :: r in after ==> r.line > l
    ensures DecodedLines(0, lines) == before + LineRecords(|lines| - 1, lines[|lines| - 1])
  {
    hide DecodedLines, InsertionSort;
    assert after != [] ==> after[0] in after && after[0] in DecodedLines(0, lines);
    DecodedRange(0, lines);
  }

  /** On a parted line the search stops at the last written entry not past the query, which is the meant
      one exactly when no earlier entry has a greater column. */
  lemma StopIsMeant(line: seq<Entry>, k: nat, column: real)
    requires Parted(line, column) && StopsAt(line, k, column)
    ensures forall j: nat :: StopsAt(line, j, column) ==> j == k
    ensures forall j :: 0 <= j < |line| ==> (line[j].column as real <= column <==> j <= k)
    ensures Meant(line, k, column) <==> forall j :: 0 <= j < k ==> line[j].column <= line[k].column
  {
    forall j | 0 <= j < |line|
      ensures line[j].column as real <= column <==> j <= k
    {
    }
  }

  /** A last line whose columns descend is left unsorted, and a query past both its entries gets the
      position of the second although it means the first. */
  lemma DescendingAnswersLast()
    ensures var lines := [[Sourced(5, 0, 10, 0), Sourced(3, 0, 20, 0)]];
      && ValidLines(lines, 1) && NearLines(START, lines) && Meant(lines[0], 0, 5.0)
      && Findable(DecodedLines(0, lines), 0.0, 5.0)
      && Answer(DecodedLines(0, lines), 0.0, 5.0) == Some((21, 0)) && Reported(lines[0][0]) == (11, 0)
  {
    var line := [Sourced(5, 0, 10, 0), Sourced(3, 0, 20, 0)];
    var records := LineRecords(0, line);
    assert records == [Record(0, 5, 0, 10, 0, -1), Record(0, 3, 0, 20, 0, -1)];
    assert line[1..] == [Sourced(3, 0, 20, 0)] && line[1..][1..] == [];
    assert LinearScan(records, 0.0, 5.0) == Some(1);
  }

  // ----- Looking a position up through the text -----

  /** What the code reports when it has found nothing. */
  function FirstAnswer(lines: seq<seq<Entry>>): Option<(int, int)> {
    var records := DecodedLines(0, lines);
    if records == [] then None else Some((records[0].originalLine + 1, records[0].originalColumn))
  }

  /** Where the search can rely on the records. */
  lemma MeantAnswered(lines: seq<seq<Entry>>, line: real, column: real)
    requires line >= 0.0 && column >= 0.0 && (line == |lines| as real - 1.0 ==> !LastDescends(lines))
    ensures var r := Answer(DecodedLines(0, lines), line, column);
      && (forall l: nat, k: nat :: l < |lines| && l as real == line && Meant(lines[l], k, column) ==>
            r == Some(Reported(lines[l][k])))
      && (NoneMeant(lines, line, column) ==> r == FirstAnswer(lines))
  {
    hide DecodedLines, LinearScan, RecordOf, Reported, LastDescends;
    forall l: nat, k: nat | l < |lines| && l as real == line && Meant(lines[l], k, column)
      ensures Answer(DecodedLines(0, lines), line, column) == Some(Reported(lines[l][k]))
    {
      AnswersMeant(lines, l, k, column);
    }
    if NoneMeant(lines, line, column) {
      ScanFindsNone(lines, line, column);
    }
  }

  /** On the last line, in any order. */
  lemma LastAnswered(lines: seq<seq<Entry>>, b: nat, line: real, column: real)
    requires lines != [] && line == |lines| as real - 1.0 && column >= 0.0
    requires DecodedLines(0, lines) != [] && Boundary(DecodedLines(0, lines), b, line, column)
    ensures var records, last := DecodedLines(0, lines), lines[|lines| - 1];
      var r := AnswerAt(records, FoundAt(records, b, line), line, column);
      && ((exists k: nat :: StopsAt(last, k, column) && r == Some(Reported(last[k])))
          || ((last == [] || last[0].column as real > column) && r == FirstAnswer(lines)))
      && (NoneMeant(lines, line, column) ==> r == FirstAnswer(lines))
  {
    hide DecodedLines, RecordOf, Reported;
    var l: nat, records := |lines| - 1, DecodedLines(0, lines);
    BoundaryOnLast(lines, b, column);
    var found := FoundAt(records, b, line);
    if found.Some? {
      var k: nat :| StopsAt(lines[l], k, column) && records[found.value] == RecordOf(l, lines[l][k]);
      ReportedIsRecord(l, lines[l][k]);
    }
  }

  /** With no record there is no entry to stop at. */
  lemma NothingDecoded(lines: seq<seq<Entry>>)
    requires lines != [] && DecodedLines(0, lines) == []
    ensures lines[|lines| - 1] == [] && FirstAnswer(lines) == None
  {
    hide DecodedLines, LineOf;
    var l := |lines| - 1;
    var before, after := Segment(0, lines, l);
    NothingAfterLast(lines, before, after);
  }

  /** Encoding, decoding and looking up. A query gets the original position of the entry it means; if its
      line has none not past it, that of the first record of all, or nothing if there is no record. On
      a last line whose columns descend it gets that of an entry where the search can stop, or the first
      record's if the line begins past it. */
  method LookUpEncoded(lines: seq<seq<Entry>>, sourcesCount: nat, line: real, column: real)
    returns (r: Option<(int, int)>)
    requires ValidLines(lines, sourcesCount) && NearLines(START, lines) && |lines| <= TWO_31
    requires line >= 0.0 && column >= 0.0
    ensures (line == |lines| as real - 1.0 ==> !LastDescends(lines)) ==>
      forall l: nat, k: nat :: l < |lines| && l as real == line && Meant(lines[l], k, column) ==>
        r == Some(Reported(lines[l][k]))
    ensures NoneMeant(lines, line, column) ==> r == FirstAnswer(lines)
    ensures line == |lines| as real - 1.0 ==>
      var last := lines[|lines| - 1];
      || (exists k: nat :: StopsAt(last, k, column) && r == Some(Reported(last[k])))
      || ((last == [] || last[0].column as real > column) && r == FirstAnswer(lines))
  {
    hide EncodeLines, DecodedLines, NearLines, Run, Searchable, LinearScan, RecordOf, Reported, LastDescends,
         ValidLines, Reached, StopsAt;
    var text := EncodeLines(START, lines);
    EncodingSearchable(lines, sourcesCount, line);
    var result := RemapThroughText(text, sourcesCount, Finite(line), Finite(column));
    r := result.value.value;
    ghost var records := DecodedLines(0, lines);
    if line == |lines| as real - 1.0 {
      if records == [] {
        NothingDecoded(lines);
      } else {
        ghost var b: nat :| Boundary(records, b, line, column)
                      && r == AnswerAt(records, FoundAt(records, b, line), line, column);
        LastAnswered(lines, b, line, column);
      }
    }
    if line != |lines| as real - 1.0 || !LastDescends(lines) {
      MeantAnswered(lines, line, column);
    }
  }
}
