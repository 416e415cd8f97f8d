/** Sixteen workers taking jobs off a shared queue and adding each log's durations to one table.
    Code between two awaits runs undisturbed, so a schedule interleaves whole steps. */
module CiWorkers {
  import opened Wrappers
  import opened CiTimings

  const WORKERS: nat := 16

  /** A job: the platform its name stands for, and its parsed log unless fetching failed. */
  datatype Job = Job(platform: string, log: Option<Durations>)

  /** A file's entry: the total per platform, and the largest total with its platform. */
  datatype Agg = Agg(maxMs: int, maxPlat: string, perPlat: map<string, int>)

  type Table = map<string, Agg>

  const NEW_AGG := Agg(0, "", map[])

  function Bump(a: Agg, platform: string, ms: int): Agg {
    var total := Get(a.perPlat, platform) + ms;
    var perPlat := a.perPlat[platform := total];
    if total > a.maxMs then Agg(total, platform, perPlat) else Agg(a.maxMs, a.maxPlat, perPlat)
  }

  function Entry(t: Table, file: string): Agg {
    if file in t then t[file] else NEW_AGG
  }

  /** The table after adding the entries of `log` whose files are listed. */
  function Merged(t: Table, platform: string, log: Durations, files: set<string>): Table
    requires files <= log.Keys
  {
    t + map file | file in files :: Bump(Entry(t, file), platform, log[file])
  }

  lemma MergeOne(t: Table, platform: string, log: Durations, files: set<string>, file: string)
    requires files <= log.Keys && file in log && file !in files
    ensures var r := Merged(t, platform, log, files);
      Merged(t, platform, log, files + {file}) == r[file := Bump(Entry(r, file), platform, log[file])]
  {
    hide Bump;
  }

  // ----- The loop over one log's entries -----

  method MergeLog(agg: Table, platform: string, log: Durations) returns (r: Table)
    ensures r == Merged(agg, platform, log, log.Keys)
  {
    hide Merged;
    r := agg;
    var rest := log.Keys;
    assert log.Keys - rest == {};
    assert Merged(agg, platform, log, {}) == agg by {
      MergeNone(agg, platform, log);
    }
    while rest != {}
      invariant rest <= log.Keys
      invariant r == Merged(agg, platform, log, log.Keys - rest)
    {
      var file :| file in rest;
      MergeOne(agg, platform, log, log.Keys - rest, file);
      assert log.Keys - (rest - {file}) == log.Keys - rest + {file};
      var a := if file in r then r[file] else NEW_AGG;
      var total := Get(a.perPlat, platform) + log[file];
      a := a.(perPlat := a.perPlat[platform := total]);
      if total > a.maxMs {
        a := a.(maxMs := total, maxPlat := platform);
      }
      r := r[file := a];
      rest := rest - {file};
    }
    assert log.Keys - rest == log.Keys;
  }

  lemma MergeNone(t: Table, platform: string, log: Durations)
    ensures Merged(t, platform, log, {}) == t
  {
  }

  // ----- Schedules -----

  /** `running[k]` is the job worker `k` is waiting for. */
  datatype World = World(queue: seq<Job>, running: seq<Option<Job>>, finished: seq<Job>, agg: Table)

  datatype Step = Take(worker: nat) | Finish(worker: nat)

  predicate Enabled(w: World, s: Step) {
    s.worker < |w.running| && match s
      case Take(k) => w.running[k].None? && w.queue != []
      case Finish(k) => w.running[k].Some?
  }

  function MergeJob(t: Table, job: Job): Table {
    match job.log
    case None => t
    case Some(log) => Merged(t, job.platform, log, log.Keys)
  }

  function Next(w: World, s: Step): World
    requires Enabled(w, s)
  {
    match s
    case Take(k) => w.(queue := w.queue[1..], running := w.running[k := Some(w.queue[0])])
    case Finish(k) =>
      var job := w.running[k].value;
      w.(running := w.running[k := None], finished := w.finished + [job], agg := MergeJob(w.agg, job))
  }

  function Start(jobs: seq<Job>): World {
    World(jobs, seq(WORKERS, _ => None), [], map[])
  }

  /** The world after a schedule, or `None` when some step was not possible. */
  function Run(w: World, steps: seq<Step>): Option<World> {
    if steps == [] then Some(w)
    else
      match Run(w, steps[..|steps| - 1])
      case None => None
      case Some(before) =>
        var last := steps[|steps| - 1];
        if Enabled(before, last) then Some(Next(before, last)) else None
  }

  ghost predicate Complete(w: World) {
    w.queue == [] && forall k :: 0 <= k < |w.running| ==> w.running[k].None?
  }

  // ----- The workers' shared variables -----

  class Board {
    var queue: seq<Job>
    var running: seq<Option<Job>>
    var agg: Table
    ghost var finished: seq<Job>

    ghost function View(): World
      reads this
    {
      World(queue, running, finished, agg)
    }

    constructor (jobs: seq<Job>)
      ensures View() == Start(jobs)
    {
      queue, running, agg := jobs, seq(WORKERS, _ => None), map[];
      finished := [];
    }

    /** A worker's loop up to its await: `queue.shift()`, or stop when there is no job. */
    method TakeJob(k: nat) returns (taken: bool)
      requires k < |running| && running[k].None?
      modifies this
      ensures taken == Enabled(old(View()), Take(k))
      ensures View() == if taken then Next(old(View()), Take(k)) else old(View())
    {
      if queue == [] {
        return false;
      }
      var job := queue[0];
      queue := queue[1..];
      running := running[k := Some(job)];
      return true;
    }

    /** From the await on: a fetched log is merged, a failed one skipped. */
    method FinishJob(k: nat)
      requires k < |running| && running[k].Some?
      modifies this
      ensures View() == Next(old(View()), Finish(k))
    {
      var job := running[k].value;
      if job.log.Some? {
        agg := MergeLog(agg, job.platform, job.log.value);
      }
      running := running[k := None];
      finished := finished + [job];
    }
  }

  // ----- What the table holds -----

  /** The jobs' time for a file on a platform, added up. */
  function Time(jobs: seq<Job>, file: string, platform: string): int {
    if jobs == [] then 0
    else
      var last := jobs[|jobs| - 1];
      Time(jobs[..|jobs| - 1], file, platform)
        + if Reports(last, file, platform) then last.log.value[file] else 0
  }

  predicate Reports(job: Job, file: string, platform: string) {
    job.platform == platform && job.log.Some? && file in job.log.value
  }

  ghost predicate Reported(jobs: seq<Job>, file: string, platform: string) {
    exists j :: j in jobs && Reports(j, file, platform)
  }

  ghost predicate NoNegative(jobs: seq<Job>) {
    forall j, file :: j in jobs && j.log.Some? && file in j.log.value ==> j.log.value[file] >= 0
  }

  /** Totals are the finished jobs' times. */
  ghost predicate TotalsRight(t: Table, finished: seq<Job>) {
    && (forall file :: file in t ==> t[file].perPlat != map[])
    && forall file, platform :: TotalRight(t, finished, file, platform)
  }

  ghost predicate TotalRight(t: Table, finished: seq<Job>, file: string, platform: string) {
    var totals := Entry(t, file).perPlat;
    && (Reported(finished, file, platform) <==> platform in totals)
    && (platform in totals ==> totals[platform] == Time(finished, file, platform))
  }

  /** The maximum is the largest total, or 0, and the platform named has it. */
  ghost predicate IsMax(a: Agg) {
    && (forall p :: p in a.perPlat ==> 0 <= a.perPlat[p] <= a.maxMs)
    && (a.maxMs == 0 || (a.maxPlat in a.perPlat && a.perPlat[a.maxPlat] == a.maxMs))
    && a.maxMs >= 0
  }

  lemma BumpKeepsMax(a: Agg, platform: string, ms: int)
    requires IsMax(a) && ms >= 0
    ensures IsMax(Bump(a, platform, ms))
  {
  }

  /** A file's maximum never falls, and the platform named changes only with it, to the one that has it. */
  lemma MaxOnlyGrows(t: Table, job: Job, file: string)
    ensures var a, b := Entry(t, file), Entry(MergeJob(t, job), file);
      && a.maxMs <= b.maxMs
      && (b.maxMs == a.maxMs ==> b.maxPlat == a.maxPlat)
      && (b.maxMs > a.maxMs ==>
            b.maxPlat == job.platform && job.platform in b.perPlat && b.perPlat[job.platform] == b.maxMs)
  {
    hide Get;
    MergedEntry(t, job, file);
  }

  lemma MergeKeepsMax(t: Table, job: Job)
    requires (forall file :: file in t ==> IsMax(t[file])) && NoNegative([job])
    ensures forall file :: file in MergeJob(t, job) ==> IsMax(MergeJob(t, job)[file])
  {
    hide IsMax, Bump;
    NewIsMax();
    var r := MergeJob(t, job);
    forall file | file in r
      ensures IsMax(r[file])
    {
      if job.log.Some? && file in job.log.value {
        assert job in [job];
        BumpKeepsMax(Entry(t, file), job.platform, job.log.value[file]);
      }
    }
  }

  lemma NewIsMax()
    ensures IsMax(NEW_AGG)
  {
  }

  lemma MergedEntry(t: Table, job: Job, file: string)
    ensures var r := MergeJob(t, job);
      Entry(r, file) == if job.log.Some? && file in job.log.value
                        then Bump(Entry(t, file), job.platform, job.log.value[file])
                        else Entry(t, file)
  {
    hide Bump;
  }

  lemma MergeKeepsTotals(t: Table, finished: seq<Job>, job: Job)
    requires TotalsRight(t, finished)
    ensures TotalsRight(MergeJob(t, job), finished + [job])
  {
    hide TotalRight, Reported, Time, MergeJob;
    var r, all := MergeJob(t, job), finished + [job];
    forall file | file in r
      ensures r[file].perPlat != map[]
    {
      MergedFiles(t, job, file);
    }
    forall file, platform
      ensures TotalRight(r, all, file, platform)
    {
      assert TotalRight(t, finished, file, platform);
      MergeKeepsTotal(t, finished, job, file, platform);
    }
  }

  lemma MergedFiles(t: Table, job: Job, file: string)
    requires file in t ==> t[file].perPlat != map[]
    requires file in MergeJob(t, job)
    ensures MergeJob(t, job)[file].perPlat != map[]
  {
    hide Get;
    MergedEntry(t, job, file);
    assert job.log.Some? && file in job.log.value ==>
      job.platform in Bump(Entry(t, file), job.platform, job.log.value[file]).perPlat;
  }

  lemma MergeKeepsTotal(t: Table, finished: seq<Job>, job: Job, file: string, platform: string)
    requires TotalRight(t, finished, file, platform)
    ensures TotalRight(MergeJob(t, job), finished + [job], file, platform)
  {
    hide MergeJob, Reported;
    assert (finished + [job])[..|finished|] == finished;
    MergedEntry(t, job, file);
    ReportedMore(finished, job, file, platform);
    if !Reported(finished, file, platform) {
      Unreported(finished, file, platform);
    }
  }

  lemma ReportedMore(jobs: seq<Job>, job: Job, file: string, platform: string)
    ensures Reported(jobs + [job], file, platform) <==>
      Reported(jobs, file, platform) || Reports(job, file, platform)
  {
    assert forall j :: j in jobs + [job] <==> j in jobs || j == job;
  }

  lemma {:induction false} Unreported(jobs: seq<Job>, file: string, platform: string)
    requires !Reported(jobs, file, platform)
    ensures Time(jobs, file, platform) == 0
  {
    if jobs != [] {
      var front, last := jobs[..|jobs| - 1], jobs[|jobs| - 1];
      assert jobs == front + [last];
      ReportedMore(front, last, file, platform);
      Unreported(front, file, platform);
    }
  }

  // ----- Every schedule -----

  function One(job: Option<Job>): multiset<Job> {
    if job.Some? then multiset{job.value} else multiset{}
  }

  function InFlight(running: seq<Option<Job>>): multiset<Job> {
    if running == [] then multiset{}
    else InFlight(running[..|running| - 1]) + One(running[|running| - 1])
  }

  lemma SwapOne(rest: multiset<Job>, a: multiset<Job>, b: multiset<Job>)
    ensures rest + b + a == rest + a + b
  {
  }

  lemma AddOne(x: multiset<Job>, a: multiset<Job>, y: multiset<Job>, b: multiset<Job>, last: multiset<Job>)
    requires x + a == y + b
    ensures x + last + a == y + last + b
  {
    assert x + last + a == x + a + last;
    assert y + last + b == y + b + last;
  }

  lemma {:induction false} InFlightUpdate(running: seq<Option<Job>>, k: nat, job: Option<Job>)
    requires k < |running|
    ensures InFlight(running[k := job]) + One(running[k]) == InFlight(running) + One(job)
  {
    hide One;
    var n := |running| - 1;
    var front, next := running[..n], running[k := job];
    if k == n {
      assert next[..n] == front;
      SwapOne(InFlight(front), One(running[k]), One(job));
    } else {
      assert next[..n] == front[k := job] && next[n] == running[n];
      InFlightUpdate(front, k, job);
      AddOne(InFlight(front[k := job]), One(running[k]), InFlight(front), One(job), One(running[n]));
    }
  }

  lemma {:induction false} NoneInFlight(running: seq<Option<Job>>)
    requires forall k :: 0 <= k < |running| ==> running[k].None?
    ensures InFlight(running) == multiset{}
  {
    if running != [] {
      NoneInFlight(running[..|running| - 1]);
    }
  }

  /** No job is lost or taken twice; totals and maxima are right for the finished jobs; each step
      moves one job one place. */
  ghost predicate WorldRight(jobs: seq<Job>, w: World, steps: nat) {
    && multiset(w.queue) + InFlight(w.running) + multiset(w.finished) == multiset(jobs)
    && steps + 2 * |w.queue| + |InFlight(w.running)| == 2 * |jobs|
    && TotalsRight(w.agg, w.finished)
    && (NoNegative(jobs) ==> forall file :: file in w.agg ==> IsMax(w.agg[file]))
  }

  lemma StartRight(jobs: seq<Job>)
    ensures WorldRight(jobs, Start(jobs), 0)
  {
    NoneInFlight(Start(jobs).running);
    assert |InFlight(Start(jobs).running)| == 0;
    forall file, platform
      ensures TotalRight(map[], [], file, platform)
    {
    }
  }

  lemma NoNegativeOne(jobs: seq<Job>, job: Job)
    requires NoNegative(jobs) && job in jobs
    ensures NoNegative([job])
  {
  }

  lemma TakeKeepsRight(jobs: seq<Job>, w: World, steps: nat, k: nat)
    requires WorldRight(jobs, w, steps) && Enabled(w, Take(k))
    ensures WorldRight(jobs, Next(w, Take(k)), steps + 1)
  {
    hide TotalsRight, IsMax, InFlight, NoNegative;
    var job, rest := w.queue[0], w.queue[1..];
    InFlightUpdate(w.running, k, Some(job));
    assert w.queue == [job] + rest;
    assert multiset(w.queue) == multiset{job} + multiset(rest);
    var next := Next(w, Take(k));
    assert One(w.running[k]) == multiset{} && One(Some(job)) == multiset{job};
    assert InFlight(next.running) == InFlight(w.running) + multiset{job} by {
      assert InFlight(next.running) + multiset{} == InFlight(next.running);
    }
    assert |InFlight(next.running)| == |InFlight(w.running)| + 1;
  }

  lemma FinishKeepsRight(jobs: seq<Job>, w: World, steps: nat, k: nat)
    requires WorldRight(jobs, w, steps) && Enabled(w, Finish(k))
    ensures WorldRight(jobs, Next(w, Finish(k)), steps + 1)
  {
    hide TotalsRight, IsMax, InFlight, MergeJob;
    var job := w.running[k].value;
    InFlightUpdate(w.running, k, None);
    MergeKeepsTotals(w.agg, w.finished, job);
    assert multiset(w.finished + [job]) == multiset(w.finished) + multiset{job};
    assert One(w.running[k]) == multiset{job} && One(None) == multiset{};
    var next := Next(w, Finish(k));
    assert InFlight(next.running) + multiset{job} == InFlight(w.running);
    assert job in multiset(jobs) by {
      assert job in InFlight(w.running);
    }
    if NoNegative(jobs) {
      NoNegativeOne(jobs, job);
      MergeKeepsMax(w.agg, job);
    }
  }

  lemma {:induction false} RunKeepsRight(jobs: seq<Job>, steps: seq<Step>)
    requires Run(Start(jobs), steps).Some?
    ensures WorldRight(jobs, Run(Start(jobs), steps).value, |steps|)
  {
    hide WorldRight;
    if steps == [] {
      StartRight(jobs);
    } else {
      var front := steps[..|steps| - 1];
      RunKeepsRight(jobs, front);
      var w, last := Run(Start(jobs), front).value, steps[|steps| - 1];
      if last.Take? {
        TakeKeepsRight(jobs, w, |front|, last.worker);
      } else {
        FinishKeepsRight(jobs, w, |front|, last.worker);
      }
    }
  }

  lemma {:induction false} InFlightAtMost(running: seq<Option<Job>>)
    ensures |InFlight(running)| <= |running|
  {
    if running != [] {
      InFlightAtMost(running[..|running| - 1]);
    }
  }

  lemma {:induction false} RunKeepsWorkers(jobs: seq<Job>, steps: seq<Step>)
    requires Run(Start(jobs), steps).Some?
    ensures |Run(Start(jobs), steps).value.running| == 16
  {
    if steps != [] {
      RunKeepsWorkers(jobs, steps[..|steps| - 1]);
    }
  }

  /** Jobs are taken in their order: what is queued is always the end of the list, and a job taken next is
      the first one behind those taken before. */
  lemma {:induction false} TakenInOrder(jobs: seq<Job>, steps: seq<Step>)
    requires Run(Start(jobs), steps).Some?
    ensures var w := Run(Start(jobs), steps).value;
      && |w.queue| <= |jobs| && w.queue == jobs[|jobs| - |w.queue|..]
      && forall k: nat :: Enabled(w, Take(k)) ==>
           Next(w, Take(k)).running[k] == Some(jobs[|jobs| - |w.queue|])
  {
    if steps != [] {
      TakenInOrder(jobs, steps[..|steps| - 1]);
    }
  }

  /** Never more than sixteen jobs are under way, and while there are fewer and some are queued another one
      can be taken. */
  lemma SixteenAtOnce(jobs: seq<Job>, steps: seq<Step>)
    requires Run(Start(jobs), steps).Some?
    ensures var w := Run(Start(jobs), steps).value;
      && |InFlight(w.running)| <= 16
      && (|InFlight(w.running)| < 16 && w.queue != [] ==> exists k: nat :: Enabled(w, Take(k)))
  {
    hide Run, InFlight;
    RunKeepsWorkers(jobs, steps);
    var w := Run(Start(jobs), steps).value;
    InFlightAtMost(w.running);
    if |InFlight(w.running)| < 16 && w.queue != [] {
      var k := FreeWorker(w.running);
      assert Enabled(w, Take(k));
    }
  }

  lemma {:induction false} FreeWorker(running: seq<Option<Job>>) returns (k: nat)
    requires |InFlight(running)| < |running|
    ensures k < |running| && running[k].None?
  {
    k := |running| - 1;
    if running[k].Some? {
      k := FreeWorker(running[..k]);
    }
  }

  /** A world with work left can always go on. */
  lemma NeverStuck(w: World)
    requires |w.running| > 0 && !Complete(w)
    ensures exists s :: Enabled(w, s)
  {
    if k: nat :| k < |w.running| && w.running[k].Some? {
      assert Enabled(w, Finish(k));
    } else {
      assert w.running[0].None?;
      assert Enabled(w, Take(0));
    }
  }

  lemma {:induction false} TimeAppend(a: seq<Job>, b: seq<Job>, file: string, platform: string)
    ensures Time(a + b, file, platform) == Time(a, file, platform) + Time(b, file, platform)
  {
    if b == [] {
      assert a + b == a;
    } else {
      assert (a + b)[..|a + b| - 1] == a + b[..|b| - 1];
      TimeAppend(a, b[..|b| - 1], file, platform);
    }
  }

  function Without(jobs: seq<Job>, i: nat): seq<Job>
    requires i < |jobs|
  {
    jobs[..i] + jobs[i + 1..]
  }

  lemma TimeWithout(jobs: seq<Job>, i: nat, file: string, platform: string)
    requires i < |jobs|
    ensures multiset(Without(jobs, i)) == multiset(jobs) - multiset{jobs[i]}
    ensures Time(jobs, file, platform) == Time(Without(jobs, i), file, platform) + Time([jobs[i]], file, platform)
  {
    hide Time;
    var left, right := jobs[..i], jobs[i + 1..];
    assert jobs == left + ([jobs[i]] + right);
    TimeAppend(left, [jobs[i]] + right, file, platform);
    TimeAppend([jobs[i]], right, file, platform);
    TimeAppend(left, right, file, platform);
  }

  /** The order in which jobs finish does not matter to their total time. */
  lemma {:induction false} TimePermutes(a: seq<Job>, b: seq<Job>, file: string, platform: string)
    requires multiset(a) == multiset(b)
    ensures Time(a, file, platform) == Time(b, file, platform)
    decreases |a|
  {
    if a == [] {
      assert |multiset(b)| == 0;
    } else {
      hide Time, Without;
      var n := |a| - 1;
      assert a[n] in multiset(b);
      var i :| 0 <= i < |b| && b[i] == a[n];
      TimeWithout(a, n, file, platform);
      TimeWithout(b, i, file, platform);
      ShorterWithout(a, n);
      TimePermutes(Without(a, n), Without(b, i), file, platform);
    }
  }

  lemma ShorterWithout(jobs: seq<Job>, i: nat)
    requires i < |jobs|
    ensures |Without(jobs, i)| == |jobs| - 1
  {
  }

  lemma ReportedPermutes(a: seq<Job>, b: seq<Job>, file: string, platform: string)
    requires multiset(a) == multiset(b)
    ensures Reported(a, file, platform) <==> Reported(b, file, platform)
  {
    assert forall j :: j in a <==> j in multiset(a);
    assert forall j :: j in b <==> j in multiset(b);
  }

  /** A complete schedule has two steps a job, finishes each job once, and its totals are the jobs'
      own, whatever the interleaving. */
  lemma CompleteRun(jobs: seq<Job>, steps: seq<Step>, file: string, platform: string)
    requires Run(Start(jobs), steps).Some? && Complete(Run(Start(jobs), steps).value)
    ensures var w := Run(Start(jobs), steps).value;
      && |steps| == 2 * |jobs| && multiset(w.finished) == multiset(jobs)
      && (Reported(jobs, file, platform) <==> file in w.agg && platform in w.agg[file].perPlat)
      && (Reported(jobs, file, platform) ==> w.agg[file].perPlat[platform] == Time(jobs, file, platform))
      && (NoNegative(jobs) && file in w.agg ==> IsMax(w.agg[file]))
      && (file in w.agg ==> w.agg[file].perPlat != map[])
  {
    hide Time, Run, Reported, IsMax;
    RunKeepsRight(jobs, steps);
    var w := Run(Start(jobs), steps).value;
    NoneInFlight(w.running);
    assert TotalRight(w.agg, w.finished, file, platform);
    TimePermutes(w.finished, jobs, file, platform);
    ReportedPermutes(w.finished, jobs, file, platform);
  }

  /** Any two complete schedules agree on every file's totals and, when no duration is negative, on
      its maximum. */
  lemma SchedulesAgree(jobs: seq<Job>, steps: seq<Step>, others: seq<Step>, file: string)
    requires Run(Start(jobs), steps).Some? && Complete(Run(Start(jobs), steps).value)
    requires Run(Start(jobs), others).Some? && Complete(Run(Start(jobs), others).value)
    ensures var a, b := Run(Start(jobs), steps).value.agg, Run(Start(jobs), others).value.agg;
      && Entry(a, file).perPlat == Entry(b, file).perPlat && (file in a <==> file in b)
      && (NoNegative(jobs) ==> Entry(a, file).maxMs == Entry(b, file).maxMs)
  {
    hide Time, Run, Reported, NoNegative;
    var a, b := Run(Start(jobs), steps).value.agg, Run(Start(jobs), others).value.agg;
    forall platform: string
      ensures platform in Entry(a, file).perPlat <==> platform in Entry(b, file).perPlat
      ensures platform in Entry(a, file).perPlat ==>
        Entry(a, file).perPlat[platform] == Entry(b, file).perPlat[platform]
    {
      CompleteRun(jobs, steps, file, platform);
      CompleteRun(jobs, others, file, platform);
    }
    assert Entry(a, file).perPlat == Entry(b, file).perPlat;
    CompleteRun(jobs, steps, file, "");
    CompleteRun(jobs, others, file, "");
    if NoNegative(jobs) && file in a {
      SameMax(a[file], b[file]);
    }
  }

  lemma SameMax(a: Agg, b: Agg)
    requires IsMax(a) && IsMax(b) && a.perPlat == b.perPlat
    ensures a.maxMs == b.maxMs
  {
  }
}
