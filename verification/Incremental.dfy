/** RunIncrementalCreateJob: step after step, create everything up to the next total,
    verify it, and collect it again. */
module Incremental {
  import opened Decimal
  import opened Options
  import opened Workload
  import opened Cluster
  import opened Lifecycle
  import opened Calculators
  import opened Executor

  /** What the world outside the model answers in one step: waiting errors of the
      creation run, the health check, and stopping the measurements. */
  datatype Outcome = Outcome(createErrors: seq<string>, healthError: Option<string>, stopErrors: seq<string>)

  /** A job handed to metric scraping: a step's work, or its garbage collection. */
  datatype StepJob = StepJob(uuid: string, stepRunId: string, isGc: bool, iterations: int)

  datatype Settings = Settings(verifyObjects: bool, errorOnVerify: bool, gcMetrics: bool)

  function JobsOfStep(uuid: string, stepRunId: string, end: int, gcMetrics: bool): seq<StepJob> {
    [StepJob(uuid, stepRunId, false, end)] + if gcMetrics then [StepJob(uuid, stepRunId, true, end)] else []
  }

  /** The scrape jobs of a whole run, in window order. */
  function StepJobs(ws: seq<Window>, uuid: string, runIds: nat -> string, gcMetrics: bool): seq<StepJob> {
    if ws == [] then []
    else StepJobs(ws[..|ws| - 1], uuid, runIds, gcMetrics)
         + JobsOfStep(uuid, runIds(|ws| - 1), ws[|ws| - 1].end, gcMetrics)
  }

  /** A step: the state it starts from and the state its creation run ends in. */
  datatype Step = Step(before: State, after: State)

  /** Step k starts on a clean cluster with a clean cache under its own run id, and
      creates [0, end) there. */
  ghost predicate StepOk(job: Job, step: Step, stepRunId: string, end: nat)
    requires ValidJob(job)
  {
    && Clean(step.before) && step.before.runid == stepRunId && step.before.jobIterations == end
    && Ran(job, step.before, step.after, 0, end)
  }

  /** Every live object of a step carries the step's run id, and Verify expects
      exactly the step's creates. */
  lemma StepVerifies(job: Job, step: Step, stepRunId: string, end: nat)
    requires ValidJob(job) && StepOk(job, step, stepRunId, end) && end >= 1
    ensures forall c :: c in step.after.live ==> step.after.live[c] == stepRunId
    ensures forall c :: c in step.after.live <==> IsCreate(job, c, 0, end) && Survives(job, step.after.flags, c)
    ensures VerifyOk(job, step.after, end)
       <==> forall c :: IsCreate(job, c, 0, end) && !job.objects[c.index].gc ==> c in step.after.live
  {
    VerifyAfterRun(job, step.before, step.after, end);
    hide Survives, VerifyOk, Needed;
  }

  /** The job's namespaces for up to n iterations are its own, and the namespaces its
      templates fix exist. */
  ghost predicate OwnGround(job: Job, st: State, n: nat)
    requires ValidJob(job)
  {
    FixedExist(job, st) && Needed(job, 0, n) !! st.foreign
  }

  /** The windows still to come when k have been taken. */
  ghost predicate Remaining(ws: seq<Window>, k: nat, c: Calculator, current: int) {
    && Usable(c) && 0 <= current <= c.total && k <= |ws|
    && ws[k..] == Run(c, current, k)
    && (k > 0 ==> current == ws[k - 1].end) && (k == 0 ==> current == 0)
  }

  lemma TakeWindow(ws: seq<Window>, k: nat, c: Calculator, current: int)
    requires Remaining(ws, k, c, current)
    ensures 0 <= current <= c.total
    ensures Next(c, current).1.None? ==> k == |ws|
    ensures Next(c, current).1.Some? ==>
      && k < |ws| && Next(c, current).1 == Some((ws[k].start, ws[k].end)) && current < ws[k].end <= c.total
      && Remaining(ws, k + 1, Next(c, current).0, ws[k].end) && Next(c, current).0.total == c.total
  {
    if current != c.total {
      StepsForward(c, current);
      assert ws[k..][0] == ws[k];
      assert ws[k + 1..] == ws[k..][1..];
    }
  }

  /** A step goes on to the next one: creation, verification and the health check all
      came out well. */
  ghost predicate Passes(job: Job, settings: Settings, answer: Outcome, after: State, end: nat)
    requires ValidJob(job)
  {
    && answer.createErrors == [] && answer.healthError.None?
    && (settings.verifyObjects ==> VerifyOk(job, after, end))
  }

  /** The errors of a step at which the driver stops: those of the first check that failed.
      Stopping the measurements adds its own, except after verification. */
  ghost function ExitErrors(job: Job, settings: Settings, answer: Outcome, after: State, end: nat): seq<string>
    requires ValidJob(job) && !Passes(job, settings, answer, after, end)
  {
    if answer.createErrors != [] then answer.createErrors + answer.stopErrors
    else if settings.verifyObjects && !VerifyOk(job, after, end) then
      if settings.errorOnVerify then ["object verification failed at total iterations: " + Itoa(end)] else []
    else [answer.healthError.value] + answer.stopErrors
  }

  /** One pass of the driver: create up to the new total under a fresh run id, verify,
      check the cluster's health, and collect. `proceed` is false when the driver stops;
      then nothing is collected and the step's run id stays. */
  method RunStep(ex: JobExecutor, settings: Settings, answer: Outcome, stepRunId: string, end: nat)
    returns (errs: seq<string>, jobs: seq<StepJob>, proceed: bool, ghost step: Step)
    requires ValidJob(ex.job)
    modifies ex
    ensures step.before == old(ex.Snapshot()).(runid := stepRunId, jobIterations := end)
    ensures step.after == RunCreate(step.before, ex.job, 0, end)
    ensures proceed <==> Passes(ex.job, settings, answer, step.after, end)
    ensures proceed ==> ex.Snapshot() == Collect(step.after, ex.job) && errs == answer.stopErrors
    ensures proceed ==> jobs == JobsOfStep(old(ex.uuid), stepRunId, end, settings.gcMetrics)
    ensures !proceed ==> ex.Snapshot() == step.after && jobs == []
    ensures !proceed ==> errs == ExitErrors(ex.job, settings, answer, step.after, end)
  {
    errs, jobs, proceed := [], [], false;
    ex.runid := stepRunId;
    ex.jobIterations := end;
    ghost var before := ex.Snapshot();
    ex.RunCreateJob(0, end);
    step := Step(before, ex.Snapshot());
    RunIdentity(before, ex.job, 0, end);
    hide RunCreate, VerifyOk, Collect, ValidJob, Itoa;
    if answer.createErrors != [] {
      errs := answer.createErrors + answer.stopErrors;
      return;
    }
    if settings.verifyObjects {
      var verified := ex.Verify(end);
      if !verified {
        if settings.errorOnVerify {
          errs := ["object verification failed at total iterations: " + Itoa(end)];
        }
        return;
      }
    }
    if answer.healthError.Some? {
      errs := [answer.healthError.value] + answer.stopErrors;
      return;
    }
    errs := answer.stopErrors;
    jobs := [StepJob(ex.uuid, ex.runid, false, end)];
    if settings.gcMetrics {
      jobs := jobs + [StepJob(ex.uuid, ex.runid, true, end)];
    }
    ex.Gc();
    proceed := true;
  }

  // ----- The run as a whole -----

  /** The state before step k when all steps before it went through. */
  ghost function StateAt(st: State, job: Job, ws: seq<Window>, runIds: nat -> string, k: nat): State
    requires ValidJob(job) && k <= |ws| && forall j :: 0 <= j < |ws| ==> ws[j].end >= 0
    decreases k, 0
  {
    if k == 0 then st else Collect(CreatedAt(st, job, ws, runIds, k - 1), job)
  }

  /** The state that the creation run of step k ends in. */
  ghost function CreatedAt(st: State, job: Job, ws: seq<Window>, runIds: nat -> string, k: nat): State
    requires ValidJob(job) && k < |ws| && forall j :: 0 <= j < |ws| ==> ws[j].end >= 0
    decreases k, 1
  {
    RunCreate(StateAt(st, job, ws, runIds, k).(runid := runIds(k), jobIterations := ws[k].end), job, 0, ws[k].end)
  }

  ghost predicate PassesAt(st: State, job: Job, ws: seq<Window>, runIds: nat -> string, settings: Settings,
                           outcome: nat -> Outcome, k: nat)
    requires ValidJob(job) && k < |ws| && forall j :: 0 <= j < |ws| ==> ws[j].end >= 0
  {
    Passes(job, settings, outcome(k), CreatedAt(st, job, ws, runIds, k), ws[k].end)
  }

  /** What stopping the measurements of the first k steps reported. */
  ghost function StopErrors(outcome: nat -> Outcome, k: nat): seq<string> {
    if k == 0 then [] else StopErrors(outcome, k - 1) + outcome(k - 1).stopErrors
  }

  /** What is known after k steps. */
  ghost predicate Progress(job: Job, ws: seq<Window>, k: nat, steps: seq<Step>, runIds: nat -> string,
                           verified: bool, grounded: bool, now: State)
    requires ValidJob(job)
  {
    && |steps| == k <= |ws|
    && (forall j :: 0 <= j < k ==> 0 <= ws[j].end)
    && (grounded ==> Clean(now) && forall j :: 0 <= j < k ==> StepOk(job, steps[j], runIds(j), ws[j].end))
    && (verified ==> forall j :: 0 <= j < k ==> VerifyOk(job, steps[j].after, ws[j].end))
  }

  lemma Relabelled(job: Job, now: State, total: nat, stepRunId: string, end: int)
    requires ValidJob(job)
    ensures var before := now.(runid := stepRunId, jobIterations := end);
            && (Clean(now) ==> Clean(before)) && (OwnGround(job, now, total) ==> OwnGround(job, before, total))
  {
    hide Needed;
    var before := now.(runid := stepRunId, jobIterations := end);
    assert forall ns :: Flagged(before, ns) <==> Flagged(now, ns);
  }

  lemma SameGround(job: Job, st: State, st2: State, total: nat)
    requires ValidJob(job) && OwnGround(job, st, total) && st2.foreign == st.foreign
    ensures OwnGround(job, st2, total)
  {
    hide Needed;
  }

  lemma StepIdentity(job: Job, before: State, end: nat)
    requires ValidJob(job)
    ensures SameIdentity(before, Collect(RunCreate(before, job, 0, end), job))
  {
    RunIdentity(before, job, 0, end);
    hide RunCreate, CollectedLive;
  }

  lemma ProgressStep(job: Job, ws: seq<Window>, k: nat, steps: seq<Step>, runIds: nat -> string,
                     verified: bool, grounded: bool, now: State, total: int, step: Step)
    requires ValidJob(job) && k < |ws| && 0 <= ws[k].end <= total
    requires Progress(job, ws, k, steps, runIds, verified, grounded, now)
    requires grounded ==> OwnGround(job, now, total)
    requires step.before == now.(runid := runIds(k), jobIterations := ws[k].end)
    requires step.after == RunCreate(step.before, job, 0, ws[k].end)
    requires verified ==> VerifyOk(job, step.after, ws[k].end)
    ensures Progress(job, ws, k + 1, steps + [step], runIds, verified, grounded, Collect(step.after, job))
    ensures Collect(step.after, job).uuid == now.uuid
    ensures grounded ==> OwnGround(job, Collect(step.after, job), total)
  {
    hide RunCreate, StepOk, VerifyOk, ValidJob, Clean, Collect, OwnGround;
    var end := ws[k].end;
    StepIdentity(job, step.before, end);
    if grounded {
      Relabelled(job, now, total, runIds(k), end);
      StepGrounded(job, step.before, step.after, total, end, runIds(k));
      SameGround(job, now, Collect(step.after, job), total);
    }
    var more := steps + [step];
    assert forall j :: 0 <= j < k ==> more[j] == steps[j];
    assert more[k] == step;
  }

  lemma StepJobsMore(ws: seq<Window>, k: nat, uuid: string, runIds: nat -> string, gcMetrics: bool)
    requires k < |ws|
    ensures StepJobs(ws[..k + 1], uuid, runIds, gcMetrics)
         == StepJobs(ws[..k], uuid, runIds, gcMetrics) + JobsOfStep(uuid, runIds(k), ws[k].end, gcMetrics)
  {
    assert ws[..k + 1][..k] == ws[..k];
  }

  lemma RunStart(job: Job, c: Calculator, runIds: nat -> string, settings: Settings, grounded: bool, now: State,
                 outcome: nat -> Outcome)
    requires ValidJob(job) && Usable(c) && (grounded ==> Grounded(job, now, c.total))
    ensures grounded ==> OwnGround(job, now, c.total)
    ensures Progress(job, Windows(c), 0, [], runIds, settings.verifyObjects, grounded, now)
    ensures Remaining(Windows(c), 0, c, 0)
    ensures WentThrough(now, job, Windows(c), runIds, settings, outcome, 0, [], now, [])
    ensures StopErrors(outcome, 0) == []
  {
    hide Clean, ValidJob;
  }

  /** Everything stands for the incremental theorem: a clean cluster that is the job's own. */
  ghost predicate Grounded(job: Job, st: State, total: int)
    requires ValidJob(job) && total >= 0
  {
    Clean(st) && OwnGround(job, st, total)
  }

  /** The incremental run, from state `st` with calculator `c`: its steps are the
      calculator's windows, each created on a clean cluster under its own run id, verified
      and collected, and the scrape jobs come out in window order. It completes if and only
      if every step passes; then the identifiers are as before. Otherwise it stops at the
      first step that does not, with that step's errors and the cluster as its creation
      left it. */
  method RunIncrementalCreateJob(ex: JobExecutor, calculator: IterationCalculator, settings: Settings,
                                 runIds: nat -> string, outcome: nat -> Outcome, ghost st: State, ghost c: Calculator)
    returns (errs: seq<string>, stepJobs: seq<StepJob>, completed: bool, ghost steps: seq<Step>, ghost reached: State)
    requires ValidJob(ex.job) && Usable(calculator.inner)
    requires st == ex.Snapshot() && c == calculator.inner
    modifies ex, calculator
    ensures Progress(ex.job, Windows(c), |steps|, steps, runIds, settings.verifyObjects,
                     Grounded(ex.job, st, c.total), reached)
    ensures WentThrough(st, ex.job, Windows(c), runIds, settings, outcome, |steps|, steps, reached, stepJobs)
    ensures completed <==> |steps| == |Windows(c)|
    ensures completed <==>
      forall k: nat :: k < |Windows(c)| ==> PassesAt(st, ex.job, Windows(c), runIds, settings, outcome, k)
    ensures completed ==> errs == StopErrors(outcome, |steps|) && reached.uuid == st.uuid
    ensures completed ==> ex.Snapshot() == reached.(runid := st.runid, jobIterations := st.jobIterations)
    ensures !completed ==> !PassesAt(st, ex.job, Windows(c), runIds, settings, outcome, |steps|)
    ensures !completed ==> ex.Snapshot() == CreatedAt(st, ex.job, Windows(c), runIds, |steps|)
    ensures !completed ==>
      errs == StopErrors(outcome, |steps|)
              + ExitErrors(ex.job, settings, outcome(|steps|), ex.Snapshot(), Windows(c)[|steps|].end)
  {
    hide Run, Next, RunCreate, Collect, StepJobs, JobsOfStep, Remaining, Progress, Windows, StepOk, VerifyOk;
    hide OwnGround, Clean, ExitErrors, StopErrors, Passes;
    ghost var ws, total := Windows(c), c.total;
    ghost var grounded := Grounded(ex.job, st, total);
    reached := st;
    var originalUuid, originalRunId, originalIterations := ex.uuid, ex.runid, ex.jobIterations;
    var current, k := 0, 0;
    errs, stepJobs, completed, steps := [], [], false, [];
    RunStart(ex.job, c, runIds, settings, grounded, reached, outcome);
    hide Usable, ValidJob, Grounded, StateAt, CreatedAt;
    while true
      invariant Remaining(ws, k, calculator.inner, current) && calculator.inner.total == total
      invariant reached == ex.Snapshot() && reached.uuid == originalUuid && |steps| == k <= |ws|
      invariant WentThrough(st, ex.job, ws, runIds, settings, outcome, k, steps, reached, stepJobs)
      invariant errs == StopErrors(outcome, k)
      invariant grounded ==> OwnGround(ex.job, reached, total)
      invariant Progress(ex.job, ws, k, steps, runIds, settings.verifyObjects, grounded, reached)
      decreases total - current
    {
      hide PassesAt, WentThrough;
      TakeWindow(ws, k, calculator.inner, current);
      var _, end, done := calculator.NextWindow(current);
      if done {
        ex.uuid, ex.runid, ex.jobIterations := originalUuid, originalRunId, originalIterations;
        completed := true;
        return;
      }
      var stepErrs, jobs, proceed;
      ghost var step;
      stepErrs, jobs, proceed, step := RunStep(ex, settings, outcome(k), runIds(k), end);
      errs := errs + stepErrs;
      StepAt(st, ex.job, ws, runIds, settings, outcome, k, steps, reached, stepJobs, step);
      if !proceed {
        return;
      }
      ProgressStep(ex.job, ws, k, steps, runIds, settings.verifyObjects, grounded, reached, total, step);
      OneMoreThrough(st, ex.job, ws, runIds, settings, outcome, k, steps, reached, stepJobs, step);
      reached := ex.Snapshot();
      stepJobs := stepJobs + jobs;
      steps := steps + [step];
      current := end;
      k := k + 1;
    }
  }

  /** Steps 0 to k - 1 of the run have passed, and this is what they left. */
  ghost predicate WentThrough(st: State, job: Job, ws: seq<Window>, runIds: nat -> string, settings: Settings,
                              outcome: nat -> Outcome, k: nat, steps: seq<Step>, reached: State,
                              stepJobs: seq<StepJob>)
    requires ValidJob(job) && forall j :: 0 <= j < |ws| ==> ws[j].end >= 0
  {
    && |steps| == k <= |ws| && reached == StateAt(st, job, ws, runIds, k)
    && stepJobs == StepJobs(ws[..k], st.uuid, runIds, settings.gcMetrics)
    && forall j :: 0 <= j < k ==>
         steps[j].after == CreatedAt(st, job, ws, runIds, j) && PassesAt(st, job, ws, runIds, settings, outcome, j)
  }

  lemma OneMoreThrough(st: State, job: Job, ws: seq<Window>, runIds: nat -> string, settings: Settings,
                       outcome: nat -> Outcome, k: nat, steps: seq<Step>, reached: State, stepJobs: seq<StepJob>,
                       step: Step)
    requires ValidJob(job) && forall j :: 0 <= j < |ws| ==> ws[j].end >= 0
    requires WentThrough(st, job, ws, runIds, settings, outcome, k, steps, reached, stepJobs)
    requires k < |ws| && step.after == CreatedAt(st, job, ws, runIds, k)
    requires PassesAt(st, job, ws, runIds, settings, outcome, k)
    ensures WentThrough(st, job, ws, runIds, settings, outcome, k + 1, steps + [step], Collect(step.after, job),
                        stepJobs + JobsOfStep(st.uuid, runIds(k), ws[k].end, settings.gcMetrics))
  {
    hide PassesAt, CreatedAt, Collect, JobsOfStep, StepJobs;
    StepJobsMore(ws, k, st.uuid, runIds, settings.gcMetrics);
  }

  /** One more step of the run. */
  lemma StepAt(st: State, job: Job, ws: seq<Window>, runIds: nat -> string, settings: Settings,
               outcome: nat -> Outcome, k: nat, steps: seq<Step>, reached: State, stepJobs: seq<StepJob>, step: Step)
    requires ValidJob(job) && k < |ws| && forall j :: 0 <= j < |ws| ==> ws[j].end >= 0
    requires WentThrough(st, job, ws, runIds, settings, outcome, k, steps, reached, stepJobs)
    requires step.before == reached.(runid := runIds(k), jobIterations := ws[k].end)
    requires step.after == RunCreate(step.before, job, 0, ws[k].end)
    ensures step.after == CreatedAt(st, job, ws, runIds, k)
    ensures PassesAt(st, job, ws, runIds, settings, outcome, k)
       <==> Passes(job, settings, outcome(k), step.after, ws[k].end)
    ensures settings.verifyObjects && Passes(job, settings, outcome(k), step.after, ws[k].end) ==>
      VerifyOk(job, step.after, ws[k].end)
    ensures StopErrors(outcome, k + 1) == StopErrors(outcome, k) + outcome(k).stopErrors
  {
    hide RunCreate, Collect, VerifyOk;
  }

  lemma StepGrounded(job: Job, before: State, after: State, total: int, end: int, stepRunId: string)
    requires ValidJob(job) && 0 <= end <= total && Clean(before) && OwnGround(job, before, total)
    requires before.runid == stepRunId && before.jobIterations == end && after == RunCreate(before, job, 0, end)
    ensures StepOk(job, Step(before, after), stepRunId, end) && Clean(Collect(after, job))
  {
    RunCreateRan(before, job, 0, end);
    RunThenCollect(job, before, end);
  }
}
