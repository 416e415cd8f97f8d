/** The six-integer records of decoded mappings, and what it means to sort a line of them
    stably by generated column. */
module Records {

  datatype Record = Record(line: int, column: int, source: int, originalLine: int, originalColumn: int, name: int)

  function RecordAt(data: seq<int>, at: nat): Record
    requires at + 6 <= |data|
  {
    Record(data[at], data[at + 1], data[at + 2], data[at + 3], data[at + 4], data[at + 5])
  }

  /** The records laid out in a flat buffer. */
  function Unflatten(data: seq<int>): (records: seq<Record>)
    requires |data| % 6 == 0
    ensures 6 * |records| == |data|
    ensures forall k :: 0 <= k < |records| ==> records[k] == RecordAt(data, 6 * k)
  {
    seq(|data| / 6, k requires 0 <= k < |data| / 6 => RecordAt(data, 6 * k))
  }

  function Fields(r: Record): (s: seq<int>)
    ensures |s| == 6 && RecordAt(s, 0) == r
  {
    [r.line, r.column, r.source, r.originalLine, r.originalColumn, r.name]
  }

  /** The buffer after writing a record at `at`. */
  function Put(data: seq<int>, at: nat, r: Record): (s: seq<int>)
    requires at + 6 <= |data|
    ensures |s| == |data|
  {
    data[..at] + Fields(r) + data[at + 6..]
  }

  method ReadRecord(data: array<int>, at: nat) returns (r: Record)
    requires at + 6 <= data.Length
    ensures r == RecordAt(data[..], at)
  {
    r := Record(data[at], data[at + 1], data[at + 2], data[at + 3], data[at + 4], data[at + 5]);
  }

  method WriteRecord(data: array<int>, at: nat, r: Record)
    requires at + 6 <= data.Length
    modifies data
    ensures data[..] == Put(old(data[..]), at, r)
  {
    data[at] := r.line;
    data[at + 1] := r.column;
    data[at + 2] := r.source;
    data[at + 3] := r.originalLine;
    data[at + 4] := r.originalColumn;
    data[at + 5] := r.name;
  }

  lemma UnflattenConcat(a: seq<int>, b: seq<int>)
    requires |a| % 6 == 0 && |b| % 6 == 0
    ensures Unflatten(a + b) == Unflatten(a) + Unflatten(b)
  {
    var s, x, y := Unflatten(a + b), Unflatten(a), Unflatten(b);
    forall k | 0 <= k < |s|
      ensures s[k] == (x + y)[k]
    {
      assert s[k] == RecordAt(a + b, 6 * k);
      if k >= |x| {
        assert y[k - |x|] == RecordAt(b, 6 * (k - |x|));
      }
    }
  }

  /** The flat form loses nothing. */
  lemma UnflattenInjective(a: seq<int>, b: seq<int>)
    requires |a| % 6 == 0 && |b| % 6 == 0 && Unflatten(a) == Unflatten(b)
    ensures a == b
  {
    forall m | 0 <= m < |a|
      ensures a[m] == b[m]
    {
      var k := m / 6;
      assert Fields(RecordAt(a, 6 * k))[m - 6 * k] == Fields(Unflatten(b)[k])[m - 6 * k];
    }
  }

  // ----- Stable sorting -----

  ghost predicate Ordered(s: seq<Record>) {
    forall i, j :: 0 <= i < j < |s| ==> s[i].column <= s[j].column
  }

  /** The records of one column, in the order they stand. */
  function WithColumn(s: seq<Record>, c: int): seq<Record> {
    if s == [] then []
    else
      var last := s[|s| - 1];
      WithColumn(s[..|s| - 1], c) + if last.column == c then [last] else []
  }

  /** `r` is `s` sorted by column with ties left in their order. */
  ghost predicate StableSortOf(r: seq<Record>, s: seq<Record>) {
    Ordered(r) && forall c :: WithColumn(r, c) == WithColumn(s, c)
  }

  /** Insertion scanning down from the end past the strictly greater columns. */
  function Insert(s: seq<Record>, x: Record): seq<Record> {
    if s == [] || s[|s| - 1].column <= x.column then s + [x]
    else Insert(s[..|s| - 1], x) + [s[|s| - 1]]
  }

  function InsertionSort(s: seq<Record>): (r: seq<Record>)
    ensures |r| == |s|
  {
    if s == [] then []
    else
      InsertLength(InsertionSort(s[..|s| - 1]), s[|s| - 1]);
      Insert(InsertionSort(s[..|s| - 1]), s[|s| - 1])
  }

  lemma {:induction false} InsertLength(s: seq<Record>, x: Record)
    ensures |Insert(s, x)| == |s| + 1
  {
    if s != [] {
      InsertLength(s[..|s| - 1], x);
    }
  }

  /** Where the new record lands. */
  lemma {:induction false} InsertAt(s: seq<Record>, x: Record, p: nat)
    requires p <= |s|
    requires p > 0 ==> s[p - 1].column <= x.column
    requires forall t :: p <= t < |s| ==> s[t].column > x.column
    ensures Insert(s, x) == s[..p] + [x] + s[p..]
  {
    if p == |s| {
      assert s[..p] == s && s[p..] == [];
    } else {
      var front := s[..|s| - 1];
      InsertAt(front, x, p);
      assert front[..p] == s[..p];
      assert front[p..] + [s[|s| - 1]] == s[p..];
    }
  }

  lemma {:induction false} InsertMembers(s: seq<Record>, x: Record)
    ensures forall r :: r in Insert(s, x) ==> r == x || r in s
  {
    if s != [] {
      InsertMembers(s[..|s| - 1], x);
    }
  }

  lemma {:induction false} InsertOrdered(s: seq<Record>, x: Record)
    requires Ordered(s)
    ensures Ordered(Insert(s, x))
  {
    if s != [] && s[|s| - 1].column > x.column {
      var front, last := s[..|s| - 1], s[|s| - 1];
      InsertOrdered(front, x);
      InsertMembers(front, x);
      assert forall r :: r in Insert(front, x) ==> r.column <= last.column;
    }
  }

  lemma WithColumnAppend(s: seq<Record>, x: Record, c: int)
    ensures WithColumn(s + [x], c) == WithColumn(s, c) + if x.column == c then [x] else []
  {
    assert (s + [x])[..|s|] == s;
  }

  lemma InsertBelowLast(s: seq<Record>, x: Record)
    requires s != [] && s[|s| - 1].column > x.column
    ensures Insert(s, x) == Insert(s[..|s| - 1], x) + [s[|s| - 1]]
  {
  }

  lemma InsertAtEnd(s: seq<Record>, x: Record)
    requires s == [] || s[|s| - 1].column <= x.column
    ensures Insert(s, x) == s + [x]
  {
  }

  lemma {:induction false} InsertKeepsColumns(s: seq<Record>, x: Record, c: int)
    ensures WithColumn(Insert(s, x), c) == WithColumn(s + [x], c)
  {
    hide Insert, WithColumn;
    if s != [] && s[|s| - 1].column > x.column {
      var front, last := s[..|s| - 1], s[|s| - 1];
      assert s == front + [last];
      InsertBelowLast(s, x);
      InsertKeepsColumns(front, x, c);
      WithColumnAppend(s, x, c);
      WithColumnAppend(front, last, c);
      WithColumnAppend(front, x, c);
      WithColumnAppend(Insert(front, x), last, c);
    } else {
      InsertAtEnd(s, x);
    }
  }

  lemma {:induction false} InsertionSortIsStable(s: seq<Record>)
    ensures StableSortOf(InsertionSort(s), s)
  {
    if s != [] {
      var front, last := s[..|s| - 1], s[|s| - 1];
      InsertionSortIsStable(front);
      var r := InsertionSort(front);
      InsertOrdered(r, last);
      forall c
        ensures WithColumn(Insert(r, last), c) == WithColumn(s, c)
      {
        InsertKeepsColumns(r, last, c);
        WithColumnAppend(r, last, c);
      }
    }
  }

  lemma InsertionSortOrders(s: seq<Record>)
    ensures Ordered(InsertionSort(s))
  {
    InsertionSortIsStable(s);
  }

  /** A line already in order is left alone. */
  lemma {:induction false} InsertionSortOfOrdered(s: seq<Record>)
    requires Ordered(s)
    ensures InsertionSort(s) == s
  {
    if s != [] {
      InsertionSortOfOrdered(s[..|s| - 1]);
    }
  }

  // ----- The stable sort is unique, and a permutation -----

  lemma {:induction false} WithColumnMember(s: seq<Record>, c: int, x: Record)
    ensures x in WithColumn(s, c) <==> x in s && x.column == c
  {
    if s != [] {
      WithColumnMember(s[..|s| - 1], c, x);
      assert s == s[..|s| - 1] + [s[|s| - 1]];
    }
  }

  lemma LastWithColumn(s: seq<Record>)
    requires s != []
    ensures var x := s[|s| - 1]; var f := WithColumn(s, x.column); f != [] && f[|f| - 1] == x
  {
  }

  lemma ColumnAtMostLast(s: seq<Record>, x: Record)
    requires Ordered(s) && x in s
    ensures x.column <= s[|s| - 1].column
  {
    var j :| 0 <= j < |s| && s[j] == x;
  }

  /** The last column of one list is at most that of an ordered list with the same records there. */
  lemma LastColumnAtMost(r: seq<Record>, s: seq<Record>)
    requires Ordered(s) && r != []
    requires WithColumn(r, r[|r| - 1].column) == WithColumn(s, r[|r| - 1].column)
    ensures s != [] && r[|r| - 1].column <= s[|s| - 1].column
  {
    hide WithColumn, Ordered;
    var x := r[|r| - 1];
    WithColumnMember(r, x.column, x);
    WithColumnMember(s, x.column, x);
    ColumnAtMostLast(s, x);
  }

  lemma {:induction false} StableSortUnique(r: seq<Record>, s: seq<Record>)
    requires Ordered(r) && Ordered(s)
    requires forall c :: WithColumn(r, c) == WithColumn(s, c)
    ensures r == s
  {
    if r != [] || s != [] {
      SameLast(r, s);
      var r', s' := r[..|r| - 1], s[..|s| - 1];
      forall c
        ensures WithColumn(r', c) == WithColumn(s', c)
      {
        assert WithColumn(r, c) == WithColumn(s, c);
        SameFront(r, s, c);
      }
      StableSortUnique(r', s');
      assert r == r' + [r[|r| - 1]] && s == s' + [s[|s| - 1]];
    }
  }

  lemma SameLast(r: seq<Record>, s: seq<Record>)
    requires Ordered(r) && Ordered(s) && (r != [] || s != [])
    requires forall c :: WithColumn(r, c) == WithColumn(s, c)
    ensures r != [] && s != [] && r[|r| - 1] == s[|s| - 1]
  {
    hide WithColumn, Ordered;
    if r != [] {
      LastColumnAtMost(r, s);
    }
    LastColumnAtMost(s, r);
    LastColumnAtMost(r, s);
    LastWithColumn(r);
    LastWithColumn(s);
  }

  lemma SameFront(r: seq<Record>, s: seq<Record>, c: int)
    requires r != [] && s != [] && r[|r| - 1] == s[|s| - 1] && WithColumn(r, c) == WithColumn(s, c)
    ensures WithColumn(r[..|r| - 1], c) == WithColumn(s[..|s| - 1], c)
  {
    var a, b := WithColumn(r[..|r| - 1], c), WithColumn(s[..|s| - 1], c);
    assert a == WithColumn(r, c)[..|a|];
    assert b == WithColumn(s, c)[..|b|];
  }

  /** Being the stable sort pins the result down. */
  lemma StableSortIsInsertionSort(r: seq<Record>, s: seq<Record>)
    ensures StableSortOf(r, s) <==> r == InsertionSort(s)
  {
    InsertionSortIsStable(s);
    if StableSortOf(r, s) {
      forall c
        ensures WithColumn(r, c) == WithColumn(InsertionSort(s), c)
      {
        assert WithColumn(r, c) == WithColumn(s, c);
      }
      StableSortUnique(r, InsertionSort(s));
    }
  }

  lemma {:induction false} InsertPermutes(s: seq<Record>, x: Record)
    ensures multiset(Insert(s, x)) == multiset(s) + multiset{x}
  {
    if s != [] && s[|s| - 1].column > x.column {
      InsertPermutes(s[..|s| - 1], x);
      assert s == s[..|s| - 1] + [s[|s| - 1]];
    }
  }

  lemma {:induction false} InsertionSortPermutes(s: seq<Record>)
    ensures multiset(InsertionSort(s)) == multiset(s)
  {
    if s != [] {
      InsertionSortPermutes(s[..|s| - 1]);
      InsertPermutes(InsertionSort(s[..|s| - 1]), s[|s| - 1]);
      assert s == s[..|s| - 1] + [s[|s| - 1]];
    }
  }

  lemma InsertionSortMembers(s: seq<Record>)
    ensures forall r :: r in InsertionSort(s) ==> r in s
  {
    hide InsertionSort;
    InsertionSortPermutes(s);
    assert forall r :: r in InsertionSort(s) ==> r in multiset(InsertionSort(s));
  }

  // ----- The in-place sort -----

  /** Midway through a pass: the records from `at` on stand one place up, leaving a gap at `at`. */
  ghost predicate Gap(was: seq<int>, now: seq<int>, at: nat, j: nat, c: int) {
    && at <= j && j + 6 <= |was| && (j - at) % 6 == 0
    && now == was[..at + 6] + was[at..j] + was[j + 6..]
    && forall r :: r in Unflatten(was[at..j]) ==> r.column > c
  }

  lemma GapStart(was: seq<int>, j: nat, c: int)
    requires j + 6 <= |was|
    ensures Gap(was, was, j, j, c)
  {
    assert was == was[..j + 6] + was[j..j] + was[j + 6..];
  }

  /** The pieces of a buffer with a gap. */
  lemma GapPieces(was: seq<int>, now: seq<int>, at: nat, j: nat)
    requires at <= j && j + 6 <= |was| && now == was[..at + 6] + was[at..j] + was[j + 6..]
    ensures |now| == |was| && now[..at] == was[..at] && now[at + 6..] == was[at..j] + was[j + 6..]
  {
  }

  lemma GapStep(was: seq<int>, now: seq<int>, at: nat, j: nat, c: int)
    requires Gap(was, now, at, j, c) && at >= 6 && now[at - 5] > c
    ensures Gap(was, Put(now, at, RecordAt(now, at - 6)), at - 6, j, c)
  {
    hide Unflatten;
    var r, k := RecordAt(now, at - 6), at - 6;
    GapPieces(was, now, at, j);
    assert Fields(r) == was[k..at] by {
      assert Fields(r) == now[k..at] == now[..at][k..];
    }
    assert was[k..j] == Fields(r) + was[at..j];
    assert Put(now, at, r) == was[..k + 6] + was[k..j] + was[j + 6..];
    UnflattenConcat(Fields(r), was[at..j]);
    OneRecord(r);
  }

  lemma OneRecord(r: Record)
    ensures Unflatten(Fields(r)) == [r]
  {
  }

  lemma GapFill(was: seq<int>, now: seq<int>, start: nat, at: nat, j: nat, x: Record)
    requires Gap(was, now, at, j, x.column) && start <= at && (at - start) % 6 == 0
    requires at > start ==> now[at - 5] <= x.column
    ensures var done := Put(now, at, x);
      && Unflatten(done[start..j + 6]) == Insert(Unflatten(was[start..j]), x)
      && done[..start] == was[..start] && done[j + 6..] == was[j + 6..]
  {
    hide Insert, Unflatten;
    var done := Put(now, at, x);
    var front, back := was[start..at], was[at..j];
    assert done == was[..at] + Fields(x) + back + was[j + 6..] by {
      assert now[..at] == was[..at] && now[at + 6..] == back + was[j + 6..];
    }
    assert done[start..j + 6] == front + Fields(x) + back;
    assert was[start..j] == front + back;
    if front != [] {
      assert front[|front| - 5] == was[at - 5] == now[at - 5];
    }
    FillRecords(front, back, x);
  }

  lemma FillRecords(front: seq<int>, back: seq<int>, x: Record)
    requires |front| % 6 == 0 && |back| % 6 == 0
    requires front != [] ==> front[|front| - 5] <= x.column
    requires forall r :: r in Unflatten(back) ==> r.column > x.column
    ensures Unflatten(front + Fields(x) + back) == Insert(Unflatten(front + back), x)
  {
    hide Insert, Unflatten, Fields, RecordAt;
    UnflattenConcat(front, back);
    UnflattenConcat(front, Fields(x));
    UnflattenConcat(front + Fields(x), back);
    OneRecord(x);
    LastColumn(front);
    InsertBetween(Unflatten(front), Unflatten(back), x);
  }

  lemma LastColumn(data: seq<int>)
    requires |data| % 6 == 0
    ensures data != [] ==>
      var records := Unflatten(data); records != [] && records[|records| - 1].column == data[|data| - 5]
  {
    hide Unflatten;
    var records := Unflatten(data);
    if data != [] {
      assert records[|records| - 1] == RecordAt(data, 6 * (|records| - 1));
    }
  }

  lemma InsertBetween(f: seq<Record>, b: seq<Record>, x: Record)
    requires f != [] ==> f[|f| - 1].column <= x.column
    requires forall r :: r in b ==> r.column > x.column
    ensures Insert(f + b, x) == f + [x] + b
  {
    hide Insert;
    assert forall t :: |f| <= t < |f + b| ==> (f + b)[t] in b;
    InsertAt(f + b, x, |f|);
    assert (f + b)[..|f|] == f && (f + b)[|f|..] == b;
  }

  /** One pass of the outer loop: the record at `j` moves down past the greater columns. */
  method InsertRecord(data: array<int>, start: nat, j: nat)
    requires start <= j && (j - start) % 6 == 0 && j + 6 <= data.Length
    modifies data
    ensures var was, done := old(data[..]), data[..];
      && Unflatten(done[start..j + 6]) == Insert(Unflatten(was[start..j]), RecordAt(was, j))
      && done[..start] == was[..start] && done[j + 6..] == was[j + 6..]
  {
    hide Insert, Unflatten, Gap, Put, Fields, RecordAt;
    var x := ReadRecord(data, j);
    var k := j - 6;
    ghost var was := data[..];
    GapStart(was, j, x.column);
    while k >= start && data[k + 1] > x.column
      invariant start - 6 <= k <= j - 6 && (k - start) % 6 == 0
      invariant Gap(was, data[..], k + 6, j, x.column)
    {
      MoveUp(was, data, k, j, x.column);
      k := k - 6;
    }
    GapFill(was, data[..], start, k + 6, j, x);
    WriteRecord(data, k + 6, x);
  }

  /** One step of a pass: the record at `k` moves up into the gap above it. */
  method MoveUp(ghost was: seq<int>, data: array<int>, k: nat, ghost j: nat, ghost c: int)
    requires k + 12 <= data.Length && Gap(was, data[..], k + 6, j, c) && data[k + 1] > c
    modifies data
    ensures data[..] == Put(old(data[..]), k + 6, RecordAt(old(data[..]), k))
    ensures Gap(was, data[..], k, j, c)
  {
    hide *;
    GapStep(was, data[..], k + 6, j, c);
    var moving := ReadRecord(data, k);
    WriteRecord(data, k + 6, moving);
  }

  /** The sort of one line, run in place over `data[start..end]`. */
  method SortLine(data: array<int>, start: nat, end: nat)
    requires start <= end <= data.Length && (end - start) % 6 == 0
    modifies data
    ensures var was, done := old(data[..]), data[..];
      && Unflatten(done[start..end]) == InsertionSort(Unflatten(was[start..end]))
      && done[..start] == was[..start] && done[end..] == was[end..]
  {
    hide Insert, InsertionSort, Unflatten, RecordAt, SortedUpTo;
    ghost var was := data[..];
    var j := start + 6;
    ghost var sorted := if start < end then j else start;
    FirstRecord(was, start, sorted);
    while j < end
      invariant sorted == if start < end then j else start
      invariant start <= sorted <= end && (j - start) % 6 == 0
      invariant SortedUpTo(was, data[..], start, sorted)
    {
      ghost var now := data[..];
      InsertRecord(data, start, j);
      NextRecord(was, now, data[..], start, j);
      j := j + 6;
      sorted := j;
    }
    SortedAll(was, data[..], start, end);
  }

  /** The records from `start` up to `sorted` have been sorted in place; nothing else has changed. */
  ghost predicate SortedUpTo(was: seq<int>, now: seq<int>, start: nat, sorted: nat) {
    && start <= sorted <= |was| == |now| && (sorted - start) % 6 == 0
    && now[..start] == was[..start] && now[sorted..] == was[sorted..]
    && Unflatten(now[start..sorted]) == InsertionSort(Unflatten(was[start..sorted]))
  }

  lemma SortedAll(was: seq<int>, now: seq<int>, start: nat, end: nat)
    requires SortedUpTo(was, now, start, end)
    ensures |was| == |now| && start <= end <= |now| && (end - start) % 6 == 0
    ensures Unflatten(now[start..end]) == InsertionSort(Unflatten(was[start..end]))
    ensures now[..start] == was[..start] && now[end..] == was[end..]
  {
  }

  lemma SameTail(now: seq<int>, was: seq<int>, j: nat)
    requires j + 6 <= |now| == |was| && now[j..] == was[j..]
    ensures RecordAt(now, j) == RecordAt(was, j)
    ensures now[j + 6..] == was[j + 6..]
  {
    assert forall m :: j <= m < |now| ==> now[m] == now[j..][m - j] == was[j..][m - j] == was[m];
  }

  /** One record, or none, is sorted. */
  lemma FirstRecord(was: seq<int>, start: nat, sorted: nat)
    requires sorted <= |was| && (sorted == start || sorted == start + 6)
    ensures SortedUpTo(was, was, start, sorted)
  {
    InsertionSortOfOrdered(Unflatten(was[start..sorted]));
  }

  /** After the pass for the record at `j`. */
  lemma NextRecord(was: seq<int>, now: seq<int>, done: seq<int>, start: nat, j: nat)
    requires start <= j && j + 6 <= |now| == |done| && SortedUpTo(was, now, start, j)
    requires Unflatten(done[start..j + 6]) == Insert(Unflatten(now[start..j]), RecordAt(now, j))
    requires done[..start] == now[..start] && done[j + 6..] == now[j + 6..]
    ensures SortedUpTo(was, done, start, j + 6)
  {
    hide Unflatten, InsertionSort, Insert, RecordAt;
    SameTail(now, was, j);
    SortOneMore(was, start, j);
  }

  lemma SortOneMore(was: seq<int>, start: nat, j: nat)
    requires start <= j && j + 6 <= |was| && (j - start) % 6 == 0
    ensures InsertionSort(Unflatten(was[start..j + 6]))
         == Insert(InsertionSort(Unflatten(was[start..j])), RecordAt(was, j))
  {
    var s, r := Unflatten(was[start..j]), Unflatten(was[start..j + 6]);
    assert r[..|s|] == s;
    assert r[|s|] == RecordAt(was, j);
  }
}
