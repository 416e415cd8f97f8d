/** From the jobs' logs to the table: parsing each log and merging it on whatever schedule. */
module CiLogs {
  import opened Wrappers
  import opened CiTimings
  import opened CiWorkers

  /** What a worker fetches for a job: the header matches of the log's lines, unless fetching fails. */
  datatype Fetched = Fetched(platform: string, lines: Option<seq<Option<Header>>>)
  {
    function Log(): seq<Header> {
      if lines.Some? then Headers(lines.value) else []
    }
  }

  ghost predicate ParsedFrom(job: Job, fetched: Fetched, clean: string -> string) {
    && job.platform == fetched.platform && (job.log.Some? <==> fetched.lines.Some?)
    && (job.log.Some? ==> Charges(job.log.value, Intervals(fetched.Log(), clean)))
  }

  method ParseJob(fetched: Fetched, clean: string -> string) returns (job: Job)
    ensures ParsedFrom(job, fetched, clean)
  {
    if fetched.lines.Some? {
      var log := ParseLog(fetched.lines.value, clean);
      return Job(fetched.platform, Some(log));
    }
    return Job(fetched.platform, None);
  }

  ghost predicate AllParsed(jobs: seq<Job>, fetched: seq<Fetched>, clean: string -> string) {
    |jobs| == |fetched| && forall k :: 0 <= k < |jobs| ==> ParsedFrom(jobs[k], fetched[k], clean)
  }

  /** The time a platform's logs span, added up. */
  function Spans(fetched: seq<Fetched>, platform: string): int {
    if fetched == [] then 0
    else
      var last := fetched[|fetched| - 1];
      Spans(fetched[..|fetched| - 1], platform) + if last.platform == platform then Span(last.Log()) else 0
  }

  /** A platform's totals in the table for the listed files, added up. */
  function Totals(t: Table, files: seq<string>, platform: string): int {
    if files == [] then 0 else Get(Entry(t, files[0]).perPlat, platform) + Totals(t, files[1..], platform)
  }

  function Times(jobs: seq<Job>, files: seq<string>, platform: string): int {
    if files == [] then 0 else Time(jobs, files[0], platform) + Times(jobs, files[1..], platform)
  }

  lemma TimeMore(jobs: seq<Job>, job: Job, file: string, platform: string)
    ensures Time(jobs + [job], file, platform)
         == Time(jobs, file, platform) + if Reports(job, file, platform) then job.log.value[file] else 0
  {
    assert (jobs + [job])[..|jobs|] == jobs;
  }

  lemma {:induction false} TimesMore(jobs: seq<Job>, job: Job, files: seq<string>, platform: string)
    ensures Times(jobs + [job], files, platform)
         == Times(jobs, files, platform)
            + if job.platform == platform && job.log.Some? then Sum(job.log.value, files) else 0
  {
    hide Time;
    if files != [] {
      TimeMore(jobs, job, files[0], platform);
      TimesMore(jobs, job, files[1..], platform);
    }
  }

  lemma {:induction false} NoTimes(files: seq<string>, platform: string)
    ensures Times([], files, platform) == 0
  {
    if files != [] {
      NoTimes(files[1..], platform);
    }
  }

  /** Listing every file of every log, the jobs' times on a platform come to what its logs span. */
  lemma {:induction false} TimesAreSpans(
    jobs: seq<Job>, fetched: seq<Fetched>, clean: string -> string, files: seq<string>, platform: string)
    requires AllParsed(jobs, fetched, clean) && Distinct(files)
    requires forall f :: f in fetched ==> Named(f.Log())
    requires forall j, file :: j in jobs && j.log.Some? && file in j.log.value ==> file in files
    ensures Times(jobs, files, platform) == Spans(fetched, platform)
    decreases |jobs|
  {
    hide Times, Span, Sum, Charges, Named, Distinct, Intervals;
    if jobs == [] {
      NoTimes(files, platform);
    } else {
      var n := |jobs| - 1;
      var job, log := jobs[n], fetched[n];
      assert jobs == jobs[..n] + [job];
      assert job in jobs && log in fetched && ParsedFrom(job, log, clean);
      assert forall j :: j in jobs[..n] ==> j in jobs;
      assert forall f :: f in fetched[..n] ==> f in fetched;
      TimesAreSpans(jobs[..n], fetched[..n], clean, files, platform);
      TimesMore(jobs[..n], job, files, platform);
      if job.log.Some? {
        ParsedSpans(job.log.value, log.Log(), clean, files);
      } else {
        NoSpan();
      }
    }
  }

  lemma NoSpan()
    ensures Span([]) == 0
  {
  }

  ghost predicate Completes(jobs: seq<Job>, steps: seq<Step>) {
    Run(Start(jobs), steps).Some? && Complete(Run(Start(jobs), steps).value)
  }

  lemma {:induction false} TotalsAreTimes(jobs: seq<Job>, steps: seq<Step>, files: seq<string>, platform: string)
    requires Completes(jobs, steps)
    ensures Totals(Run(Start(jobs), steps).value.agg, files, platform) == Times(jobs, files, platform)
  {
    hide Time, Run, Reported, IsMax, Complete;
    if files != [] {
      CompleteRun(jobs, steps, files[0], platform);
      if !Reported(jobs, files[0], platform) {
        Unreported(jobs, files[0], platform);
      }
      TotalsAreTimes(jobs, steps, files[1..], platform);
    }
  }

  /** Whatever the schedule: over any listing of the table's files, a platform's totals add up to the time
      from the first to the last header of each of its logs. */
  lemma CompleteRunSpans(
    jobs: seq<Job>, fetched: seq<Fetched>, clean: string -> string, steps: seq<Step>,
    files: seq<string>, platform: string)
    requires Completes(jobs, steps) && AllParsed(jobs, fetched, clean)
    requires forall f :: f in fetched ==> Named(f.Log())
    requires Distinct(files) && forall file :: file in Run(Start(jobs), steps).value.agg ==> file in files
    ensures Totals(Run(Start(jobs), steps).value.agg, files, platform) == Spans(fetched, platform)
  {
    hide Time, Run, Reported, IsMax, Complete, Totals, Times, Spans, AllParsed, Named, Distinct;
    TotalsAreTimes(jobs, steps, files, platform);
    forall j, file | j in jobs && j.log.Some? && file in j.log.value
      ensures file in files
    {
      CompleteRun(jobs, steps, file, j.platform);
      ReportsOwn(jobs, j, file);
    }
    TimesAreSpans(jobs, fetched, clean, files, platform);
  }

  lemma ReportsOwn(jobs: seq<Job>, job: Job, file: string)
    requires job in jobs && job.log.Some? && file in job.log.value
    ensures Reported(jobs, file, job.platform)
  {
    assert Reports(job, file, job.platform);
  }

  lemma ForwardLogs(jobs: seq<Job>, fetched: seq<Fetched>, clean: string -> string)
    requires AllParsed(jobs, fetched, clean) && forall f :: f in fetched ==> NeverBack(f.Log())
    ensures NoNegative(jobs)
  {
    hide Charges, Intervals, NeverBack;
    forall j, file | j in jobs && j.log.Some? && file in j.log.value
      ensures j.log.value[file] >= 0
    {
      var k :| 0 <= k < |jobs| && jobs[k] == j;
      assert fetched[k] in fetched && ParsedFrom(jobs[k], fetched[k], clean);
      ParsedNotNegative(j.log.value, fetched[k].Log(), clean);
    }
  }

  /** With logs whose timestamps never go back, whatever the schedule, each file's maximum is the largest
      of its totals, and every schedule gives the same. */
  lemma CompleteRunMaxima(
    jobs: seq<Job>, fetched: seq<Fetched>, clean: string -> string, steps: seq<Step>, others: seq<Step>, file: string)
    requires Completes(jobs, steps) && Completes(jobs, others) && AllParsed(jobs, fetched, clean)
    requires forall f :: f in fetched ==> NeverBack(f.Log())
    ensures var a, b := Run(Start(jobs), steps).value.agg, Run(Start(jobs), others).value.agg;
      (file in a <==> file in b) && (file in a ==> IsMax(a[file]) && a[file].maxMs == b[file].maxMs)
  {
    hide Run, IsMax, Complete, AllParsed, NoNegative, Reported, Time;
    ForwardLogs(jobs, fetched, clean);
    CompleteRun(jobs, steps, file, "");
    SchedulesAgree(jobs, steps, others, file);
  }
}
