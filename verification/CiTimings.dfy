/** Per-file timings of a CI job: durations read out of its log's headers. */
module CiTimings {
  import opened Wrappers

  /** A group header line: its timestamp, and the trimmed file name. */
  datatype Header = Header(ts: int, name: string)

  type Durations = map<string, int>

  function Get<K>(m: map<K, int>, k: K): int {
    if k in m then m[k] else 0
  }

  /** The time from a header with a name to the next one. */
  function Between(header: Header, next: Header, clean: string -> string): seq<(string, int)> {
    if header.name == "" then [] else [(clean(header.name), next.ts - header.ts)]
  }

  function Intervals(headers: seq<Header>, clean: string -> string): seq<(string, int)> {
    if |headers| < 2 then []
    else
      var n := |headers|;
      Intervals(headers[..n - 1], clean) + Between(headers[n - 2], headers[n - 1], clean)
  }

  /** What the intervals charge to one name. */
  function Charged(intervals: seq<(string, int)>, name: string): int {
    if intervals == [] then 0
    else
      var last := intervals[|intervals| - 1];
      Charged(intervals[..|intervals| - 1], name) + if last.0 == name then last.1 else 0
  }

  function TotalTime(intervals: seq<(string, int)>): int {
    if intervals == [] then 0
    else TotalTime(intervals[..|intervals| - 1]) + intervals[|intervals| - 1].1
  }

  /** The lines that match the header pattern. */
  function Headers(lines: seq<Option<Header>>): seq<Header> {
    if lines == [] then []
    else
      var last := lines[|lines| - 1];
      Headers(lines[..|lines| - 1]) + if last.Some? then [last.value] else []
  }

  ghost predicate Charges(out: Durations, intervals: seq<(string, int)>) {
    && (forall name :: name in out ==> out[name] == Charged(intervals, name))
    && (forall name :: name in out <==> exists k :: 0 <= k < |intervals| && intervals[k].0 == name)
  }

  lemma ChargesOne(out: Durations, intervals: seq<(string, int)>, name: string, ms: int)
    requires Charges(out, intervals)
    ensures Charges(out[name := Get(out, name) + ms], intervals + [(name, ms)])
  {
    var more := intervals + [(name, ms)];
    assert more[..|intervals|] == intervals;
    assert forall other :: Charged(more, other) == Charged(intervals, other) + if name == other then ms else 0;
    if name !in out {
      NeverCharged(intervals, name);
    }
    forall other | other in out
      ensures exists k :: 0 <= k < |more| && more[k].0 == other
    {
      var k :| 0 <= k < |intervals| && intervals[k].0 == other;
      assert more[k].0 == other;
    }
    assert more[|intervals|].0 == name;
  }

  lemma {:induction false} NeverCharged(intervals: seq<(string, int)>, name: string)
    requires forall k :: 0 <= k < |intervals| ==> intervals[k].0 != name
    ensures Charged(intervals, name) == 0
  {
    if intervals != [] {
      NeverCharged(intervals[..|intervals| - 1], name);
    }
  }

  method ParseLog(lines: seq<Option<Header>>, clean: string -> string) returns (out: Durations)
    ensures Charges(out, Intervals(Headers(lines), clean))
    ensures AllDistinct(Headers(lines), clean) ==> OwnCharges(out, Headers(lines), clean)
  {
    hide Charges, Intervals, Headers, AllDistinct, OwnCharges;
    assert Headers([]) == [] by {
      NoHeaders();
    }
    assert lines[..0] == [];
    assert Intervals([], clean) == [] by {
      NoIntervals(clean);
    }
    out := map[];
    NoCharges();
    var curName: Option<string> := None;
    var curStart := 0;
    for i := 0 to |lines|
      invariant var headers := Headers(lines[..i]);
        && Charges(out, Intervals(headers, clean))
        && (headers == [] ==> curName == None)
        && (headers != [] ==> var last := headers[|headers| - 1]; curName == Some(last.name) && curStart == last.ts)
    {
      NextLine(lines, i);
      if lines[i].Some? {
        var header := lines[i].value;
        ghost var headers := Headers(lines[..i]);
        NextHeader(headers, header, clean);
        assert Intervals(headers, clean) + [] == Intervals(headers, clean);
        // A null or empty name is falsy.
        if curName.Some? && curName.value != "" {
          var name := clean(curName.value);
          ChargesOne(out, Intervals(headers, clean), name, header.ts - curStart);
          out := out[name := Get(out, name) + (header.ts - curStart)];
        }
        curStart := header.ts;
        curName := Some(header.name);
      }
    }
    assert lines[..|lines|] == lines;
    if AllDistinct(Headers(lines), clean) {
      ChargedFromOwnHeader(out, Headers(lines), clean);
    }
  }

  lemma NextHeader(headers: seq<Header>, header: Header, clean: string -> string)
    ensures Intervals(headers + [header], clean)
         == Intervals(headers, clean) + if headers == [] then [] else Between(headers[|headers| - 1], header, clean)
  {
    hide Between;
    var all := headers + [header];
    assert all[..|all| - 1] == headers;
    if headers != [] {
      assert all[|all| - 2] == headers[|headers| - 1];
    }
  }

  lemma NextLine(lines: seq<Option<Header>>, i: nat)
    requires i < |lines|
    ensures Headers(lines[..i + 1])
         == if lines[i].Some? then Headers(lines[..i]) + [lines[i].value] else Headers(lines[..i])
  {
    assert lines[..i + 1][..i] == lines[..i];
    assert Headers(lines[..i]) + [] == Headers(lines[..i]);
  }

  lemma NoHeaders()
    ensures Headers([]) == []
  {
  }

  lemma NoIntervals(clean: string -> string)
    ensures Intervals([], clean) == []
  {
  }

  lemma NoCharges()
    ensures Charges(map[], [])
  {
  }

  // ----- Which name is charged -----

  /** Only lines that match the pattern count, in their order. */
  lemma {:induction false} HeadersOfLines(headers: seq<Header>, lines: seq<Option<Header>>)
    requires |lines| == |headers| && forall k :: 0 <= k < |lines| ==> lines[k] == Some(headers[k])
    ensures Headers(lines) == headers
  {
    if lines != [] {
      var n := |lines| - 1;
      HeadersOfLines(headers[..n], lines[..n]);
    }
  }

  lemma {:induction false} OtherLinesIgnored(before: seq<Option<Header>>, after: seq<Option<Header>>)
    ensures Headers(before + [None] + after) == Headers(before + after)
    decreases |after|
  {
    var all := before + [None] + after;
    if after == [] {
      assert before + after == before && all[..|all| - 1] == before;
    } else {
      var n := |after| - 1;
      OtherLinesIgnored(before, after[..n]);
      assert all[..|all| - 1] == before + [None] + after[..n];
      assert (before + after)[..|before + after| - 1] == before + after[..n];
    }
  }

  /** A header more charges the name of the one before it, and no other, with the time between the two;
      nothing when that name is empty or there is no header before. */
  lemma HeaderCharges(
    out: Durations, more: Durations, headers: seq<Header>, header: Header, clean: string -> string)
    requires Charges(out, Intervals(headers, clean)) && Charges(more, Intervals(headers + [header], clean))
    ensures more ==
      if headers == [] || headers[|headers| - 1].name == "" then out
      else
        var last := headers[|headers| - 1];
        out[clean(last.name) := Get(out, clean(last.name)) + (header.ts - last.ts)]
  {
    hide Charges, Intervals;
    var intervals := Intervals(headers, clean);
    NextHeader(headers, header, clean);
    assert intervals + [] == intervals;
    if headers == [] || headers[|headers| - 1].name == "" {
      OneCharge(out, more, intervals);
    } else {
      var last := headers[|headers| - 1];
      var name, ms := clean(last.name), header.ts - last.ts;
      ChargesOne(out, intervals, name, ms);
      OneCharge(out[name := Get(out, name) + ms], more, intervals + [(name, ms)]);
    }
  }

  lemma OneCharge(a: Durations, b: Durations, intervals: seq<(string, int)>)
    requires Charges(a, intervals) && Charges(b, intervals)
    ensures a == b
  {
  }

  lemma {:induction false} SomeCharges(intervals: seq<(string, int)>) returns (out: Durations)
    ensures Charges(out, intervals)
  {
    out := map[];
    if intervals != [] {
      var n := |intervals| - 1;
      var front := SomeCharges(intervals[..n]);
      ChargesOne(front, intervals[..n], intervals[n].0, intervals[n].1);
      assert intervals == intervals[..n] + [intervals[n]];
      out := front[intervals[n].0 := Get(front, intervals[n].0) + intervals[n].1];
    }
  }

  ghost predicate AllDistinct(headers: seq<Header>, clean: string -> string) {
    && (forall k :: 0 <= k < |headers| ==> headers[k].name != "")
    && forall j, k :: 0 <= j < k < |headers| ==> clean(headers[j].name) != clean(headers[k].name)
  }

  /** A header with this name is not the last one. */
  ghost predicate Ends(headers: seq<Header>, clean: string -> string, name: string) {
    exists k :: 0 <= k < |headers| - 1 && clean(headers[k].name) == name
  }

  ghost predicate ChargedAt(out: Durations, headers: seq<Header>, clean: string -> string, k: nat) {
    k < |headers| - 1 ==>
      clean(headers[k].name) in out && out[clean(headers[k].name)] == headers[k + 1].ts - headers[k].ts
  }

  /** Each file but the last is charged the time from its own header to the next one, and nothing else is. */
  ghost predicate OwnCharges(out: Durations, headers: seq<Header>, clean: string -> string) {
    (forall k: nat :: ChargedAt(out, headers, clean, k)) && forall name :: name in out ==> Ends(headers, clean, name)
  }

  lemma EndsMore(front: seq<Header>, header: Header, clean: string -> string, name: string)
    requires Ends(front, clean, name) || (front != [] && clean(front[|front| - 1].name) == name)
    ensures Ends(front + [header], clean, name)
  {
    var headers := front + [header];
    if Ends(front, clean, name) {
      var k :| 0 <= k < |front| - 1 && clean(front[k].name) == name;
      assert clean(headers[k].name) == name;
    } else {
      assert clean(headers[|front| - 1].name) == name;
    }
  }

  lemma ChargedAtMore(
    before: Durations, front: seq<Header>, header: Header, clean: string -> string, k: nat)
    requires ChargedAt(before, front, clean, k) && AllDistinct(front, clean) && front != []
    ensures var last := front[|front| - 1];
      ChargedAt(before[clean(last.name) := header.ts - last.ts], front + [header], clean, k)
  {
    if k < |front| - 1 {
      assert clean(front[k].name) != clean(front[|front| - 1].name);
    }
  }

  lemma OwnChargesMore(
    before: Durations, front: seq<Header>, header: Header, clean: string -> string)
    requires OwnCharges(before, front, clean) && AllDistinct(front, clean) && front != []
    ensures var last := front[|front| - 1];
      OwnCharges(before[clean(last.name) := header.ts - last.ts], front + [header], clean)
  {
    hide AllDistinct, ChargedAt, Ends;
    var last := front[|front| - 1];
    var out, headers := before[clean(last.name) := header.ts - last.ts], front + [header];
    forall k: nat
      ensures ChargedAt(out, headers, clean, k)
    {
      ChargedAtMore(before, front, header, clean, k);
    }
    forall name | name in out
      ensures Ends(headers, clean, name)
    {
      EndsMore(front, header, clean, name);
    }
  }

  lemma LastNotCharged(out: Durations, headers: seq<Header>, clean: string -> string)
    requires OwnCharges(out, headers, clean) && AllDistinct(headers, clean) && headers != []
    ensures clean(headers[|headers| - 1].name) !in out
  {
  }

  /** With names that are all different, each file is charged the time from its own header to the next one,
      and the last file, whose end the log does not show, nothing. */
  lemma {:induction false} ChargedFromOwnHeader(out: Durations, headers: seq<Header>, clean: string -> string)
    requires Charges(out, Intervals(headers, clean)) && AllDistinct(headers, clean)
    ensures OwnCharges(out, headers, clean)
    ensures headers != [] ==> clean(headers[|headers| - 1].name) !in out
    decreases |headers|
  {
    hide Charges, Intervals, OwnCharges;
    if headers == [] {
      NoIntervals(clean);
      NoCharges();
      OneCharge(out, map[], []);
      NothingOwned(headers, clean);
    } else {
      var n := |headers| - 1;
      var front := headers[..n];
      var before := SomeCharges(Intervals(front, clean));
      assert headers == front + [headers[n]];
      HeaderCharges(before, out, front, headers[n], clean);
      ChargedFromOwnHeader(before, front, clean);
      if n > 0 {
        OwnChargesMore(before, front, headers[n], clean);
        assert out == before[clean(front[n - 1].name) := headers[n].ts - front[n - 1].ts];
      } else {
        NoIntervals(clean);
        NoCharges();
        OneCharge(before, map[], []);
        NothingOwned(headers, clean);
      }
      LastNotCharged(out, headers, clean);
    }
  }

  lemma NothingOwned(headers: seq<Header>, clean: string -> string)
    requires |headers| < 2
    ensures OwnCharges(map[], headers, clean)
  {
  }

  /** With no empty name, the durations together span the first header to the last. */
  lemma {:induction false} IntervalsTelescope(headers: seq<Header>, clean: string -> string)
    requires headers != [] && forall k :: 0 <= k < |headers| ==> headers[k].name != ""
    ensures TotalTime(Intervals(headers, clean)) == headers[|headers| - 1].ts - headers[0].ts
  {
    if |headers| > 1 {
      IntervalsTelescope(headers[..|headers| - 1], clean);
    }
  }

  /** The charges of each listed name, added up. */
  function SumCharged(intervals: seq<(string, int)>, names: seq<string>): int {
    if names == [] then 0 else Charged(intervals, names[0]) + SumCharged(intervals, names[1..])
  }

  lemma {:induction false} NothingCharged(names: seq<string>)
    ensures SumCharged([], names) == 0
  {
    if names != [] {
      NothingCharged(names[1..]);
    }
  }

  lemma {:induction false} ChargeMore(intervals: seq<(string, int)>, last: (string, int), names: seq<string>)
    requires forall j, k :: 0 <= j < k < |names| ==> names[j] != names[k]
    ensures SumCharged(intervals + [last], names)
         == SumCharged(intervals, names) + if last.0 in names then last.1 else 0
  {
    var more := intervals + [last];
    assert more[..|intervals|] == intervals;
    if names != [] {
      ChargeMore(intervals, last, names[1..]);
      assert last.0 in names <==> last.0 == names[0] || last.0 in names[1..];
    }
  }

  /** Listing each charged name once, the charges add up to all the intervals' time. */
  lemma {:induction false} ChargesSum(intervals: seq<(string, int)>, names: seq<string>)
    requires forall j, k :: 0 <= j < k < |names| ==> names[j] != names[k]
    requires forall k :: 0 <= k < |intervals| ==> intervals[k].0 in names
    ensures SumCharged(intervals, names) == TotalTime(intervals)
  {
    if intervals == [] {
      NothingCharged(names);
    } else {
      var front, last := intervals[..|intervals| - 1], intervals[|intervals| - 1];
      assert intervals == front + [last];
      ChargesSum(front, names);
      ChargeMore(front, last, names);
    }
  }

  /** A log's charges, over a listing of its names, come to its last header's time less its first's. */
  lemma LogSpansHeaders(headers: seq<Header>, clean: string -> string, names: seq<string>)
    requires headers != [] && forall k :: 0 <= k < |headers| ==> headers[k].name != ""
    requires forall j, k :: 0 <= j < k < |names| ==> names[j] != names[k]
    requires forall i :: i in Intervals(headers, clean) ==> i.0 in names
    ensures SumCharged(Intervals(headers, clean), names) == headers[|headers| - 1].ts - headers[0].ts
  {
    hide Intervals, SumCharged;
    IntervalsTelescope(headers, clean);
    ChargesSum(Intervals(headers, clean), names);
  }

  ghost predicate NeverBack(headers: seq<Header>) {
    forall i, j :: 0 <= i < j < |headers| ==> headers[i].ts <= headers[j].ts
  }

  /** Timestamps that never go back charge no name a negative time. */
  lemma {:induction false} ChargesNotNegative(headers: seq<Header>, clean: string -> string, name: string)
    requires NeverBack(headers)
    ensures Charged(Intervals(headers, clean), name) >= 0
  {
    hide Charged;
    if |headers| < 2 {
      NothingToCharge(name);
    } else {
      var n := |headers|;
      var front := headers[..n - 1];
      ChargesNotNegative(front, clean, name);
      NextHeader(front, headers[n - 1], clean);
      assert headers == front + [headers[n - 1]];
      NotNegativeWith(Intervals(front, clean), Between(front[n - 2], headers[n - 1], clean), name);
    }
  }

  /** The entries of a parsed log for the listed names, added up. */
  function Sum(out: Durations, names: seq<string>): int {
    if names == [] then 0 else Get(out, names[0]) + Sum(out, names[1..])
  }

  ghost predicate Distinct(names: seq<string>) {
    forall j, k :: 0 <= j < k < |names| ==> names[j] != names[k]
  }

  lemma {:induction false} SumIsCharged(out: Durations, intervals: seq<(string, int)>, names: seq<string>)
    requires Charges(out, intervals)
    ensures Sum(out, names) == SumCharged(intervals, names)
  {
    hide Charged;
    if names != [] {
      if names[0] !in out {
        NeverCharged(intervals, names[0]);
      }
      SumIsCharged(out, intervals, names[1..]);
    }
  }

  ghost predicate Named(headers: seq<Header>) {
    forall k :: 0 <= k < |headers| ==> headers[k].name != ""
  }

  function Span(headers: seq<Header>): int {
    if headers == [] then 0 else headers[|headers| - 1].ts - headers[0].ts
  }

  /** The entries of a log with no empty name, over any listing of names that has them all, come to its
      span. */
  lemma ParsedSpans(out: Durations, headers: seq<Header>, clean: string -> string, names: seq<string>)
    requires Charges(out, Intervals(headers, clean)) && Named(headers)
    requires Distinct(names) && forall name :: name in out ==> name in names
    ensures Sum(out, names) == Span(headers)
  {
    hide Intervals, SumCharged, Sum;
    var intervals := Intervals(headers, clean);
    SumIsCharged(out, intervals, names);
    if headers == [] {
      NoIntervalsIn(headers, clean);
      NothingCharged(names);
    } else {
      forall k | 0 <= k < |intervals|
        ensures intervals[k].0 in names
      {
        assert intervals[k].0 in out;
      }
      LogSpansHeaders(headers, clean, names);
    }
  }

  lemma NoIntervalsIn(headers: seq<Header>, clean: string -> string)
    requires |headers| < 2
    ensures Intervals(headers, clean) == []
  {
  }

  /** The entries of a log whose timestamps never go back are not negative. */
  lemma ParsedNotNegative(out: Durations, headers: seq<Header>, clean: string -> string)
    requires Charges(out, Intervals(headers, clean)) && NeverBack(headers)
    ensures forall name :: name in out ==> out[name] >= 0
  {
    hide Intervals, Charged;
    forall name | name in out
      ensures out[name] >= 0
    {
      ChargesNotNegative(headers, clean, name);
    }
  }

  lemma NothingToCharge(name: string)
    ensures Charged([], name) == 0
  {
  }

  lemma NotNegativeWith(before: seq<(string, int)>, between: seq<(string, int)>, name: string)
    requires Charged(before, name) >= 0 && |between| <= 1
    requires between != [] ==> between[0].1 >= 0
    ensures Charged(before + between, name) >= 0
  {
    if between == [] {
      assert before + between == before;
    } else {
      assert (before + between)[..|before|] == before;
    }
  }
}
