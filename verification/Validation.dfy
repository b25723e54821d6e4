/** validateRepeatEveryNIterations: the check that makes one churn interval per job. */
module Validation {
  import opened Options
  import opened Workload
  import opened NamespaceChurn

  datatype ChurnMode = Namespaces | Objects

  /** A configured job, as far as the check looks at it. */
  datatype JobConfig = JobConfig(job: Job, churnDuration: int, churnCycles: int, mode: ChurnMode)

  datatype Problem =
    | TooSmall(jobIndex: nat, objectIndex: nat)
    | Inconsistent(jobIndex: nat, objectIndex: nat)
    | WithObjectChurn(jobIndex: nat)

  predicate IsChurnEnabled(c: JobConfig) { c.churnDuration > 0 || c.churnCycles > 0 }

  /** An object that repeats and is churned. */
  predicate ChurnedRepeat(o: Object) { o.repeatEvery > 1 && o.churn }

  /** What the documentation asks of a job. */
  ghost predicate JobAccepted(c: JobConfig) {
    && (forall k :: 0 <= k < |c.job.objects| ==> c.job.objects[k].repeatEvery >= 1)
    && UniformRepeat(c.job)
    && ((c.churnDuration > 0 || c.churnCycles > 0) && c.mode == Objects ==>
          forall k :: 0 <= k < |c.job.objects| ==> !(c.job.objects[k].repeatEvery > 1 && c.job.objects[k].churn))
  }

  /** The first n templates have intervals of at least 1 and no two different ones above 1. */
  ghost predicate FineUpTo(job: Job, n: nat)
    requires n <= |job.objects|
  {
    && (forall k :: 0 <= k < n ==> job.objects[k].repeatEvery >= 1)
    && forall j, k | 0 <= j < n && 0 <= k < n && job.objects[j].repeatEvery > 1 && job.objects[k].repeatEvery > 1 ::
         job.objects[j].repeatEvery == job.objects[k].repeatEvery
  }

  /** What a problem reported for a job says: it names the first template whose interval is
      below 1 or different from an earlier one, and object churn is complained about only
      when there is no such template. */
  ghost predicate Reports(c: JobConfig, jobIndex: nat, problem: Problem) {
    var objects := c.job.objects;
    match problem
    case TooSmall(j, n) => j == jobIndex && n < |objects| && FineUpTo(c.job, n) && objects[n].repeatEvery < 1
    case Inconsistent(j, n) =>
      j == jobIndex && n < |objects| && FineUpTo(c.job, n) && objects[n].repeatEvery >= 1 && !FineUpTo(c.job, n + 1)
    case WithObjectChurn(j) => j == jobIndex && FineUpTo(c.job, |objects|)
  }

  /** The state of the object loop after n objects without a problem. */
  ghost predicate Scanned(job: Job, n: nat, interval: int, churned: bool)
    requires n <= |job.objects|
  {
    && (forall k :: 0 <= k < n ==> job.objects[k].repeatEvery >= 1)
    && (forall k :: 0 <= k < n && job.objects[k].repeatEvery > 1 ==> job.objects[k].repeatEvery == interval)
    && (interval == 0 || exists k :: 0 <= k < n && job.objects[k].repeatEvery == interval > 1)
    && (churned <==> exists k :: 0 <= k < n && ChurnedRepeat(job.objects[k]))
  }

  ghost predicate FirstRefused(jobs: seq<JobConfig>, j: nat) {
    j < |jobs| && !JobAccepted(jobs[j]) && forall i :: 0 <= i < j ==> JobAccepted(jobs[i])
  }

  /** One job. */
  method ValidateJob(c: JobConfig, jobIndex: nat) returns (problem: Option<Problem>)
    ensures problem.None? <==> JobAccepted(c)
    ensures problem.Some? ==> Reports(c, jobIndex, problem.value)
  {
    var interval, churned := 0, false;
    hide FineUpTo, JobAccepted, IsChurnEnabled;
    for n := 0 to |c.job.objects|
      invariant Scanned(c.job, n, interval, churned)
    {
      ScannedSoFar(c, n, interval, churned);
      var o := c.job.objects[n];
      if o.repeatEvery < 1 {
        return Some(TooSmall(jobIndex, n));
      }
      if o.repeatEvery > 1 {
        if interval == 0 {
          interval := o.repeatEvery;
        } else if o.repeatEvery != interval {
          return Some(Inconsistent(jobIndex, n));
        }
        if o.churn {
          churned := true;
        }
      }
    }
    ScannedAll(c, interval, churned);
    if churned && IsChurnEnabled(c) && c.mode == Objects {
      return Some(WithObjectChurn(jobIndex));
    }
    return None;
  }

  /** What the scan knows when it comes to template n. */
  lemma ScannedSoFar(c: JobConfig, n: nat, interval: int, churned: bool)
    requires n < |c.job.objects| && Scanned(c.job, n, interval, churned)
    ensures FineUpTo(c.job, n)
    ensures c.job.objects[n].repeatEvery < 1 ==> !JobAccepted(c)
    ensures c.job.objects[n].repeatEvery > 1 && interval != 0 && c.job.objects[n].repeatEvery != interval ==>
      !FineUpTo(c.job, n + 1) && !JobAccepted(c)
  {
  }

  lemma ScannedAll(c: JobConfig, interval: int, churned: bool)
    requires Scanned(c.job, |c.job.objects|, interval, churned)
    ensures FineUpTo(c.job, |c.job.objects|)
    ensures JobAccepted(c) <==> !(churned && IsChurnEnabled(c) && c.mode == Objects)
  {
  }

  /** The validator accepts a configuration exactly when every job is acceptable, and
      otherwise reports the first one that is not. */
  method ValidateRepeatEveryNIterations(jobs: seq<JobConfig>) returns (problem: Option<Problem>)
    ensures problem.None? <==> forall j :: 0 <= j < |jobs| ==> JobAccepted(jobs[j])
    ensures problem.Some? ==> exists j: nat :: FirstRefused(jobs, j) && Reports(jobs[j], j, problem.value)
  {
    hide JobAccepted, Reports;
    for j := 0 to |jobs|
      invariant forall i :: 0 <= i < j ==> JobAccepted(jobs[i])
    {
      problem := ValidateJob(jobs[j], j);
      if problem.Some? {
        assert FirstRefused(jobs, j);
        return;
      }
    }
    return None;
  }

  /** For every accepted job the churn loop's early break finds its largest interval. */
  lemma AcceptedInterval(c: JobConfig)
    requires JobAccepted(c)
    ensures forall k :: 0 <= k < |c.job.objects| ==>
      c.job.objects[k].repeatEvery == 1 || c.job.objects[k].repeatEvery == FirstRepeat(c.job, |c.job.objects|)
    ensures FirstRepeat(c.job, |c.job.objects|) > 1 ==>
      exists k :: 0 <= k < |c.job.objects| && c.job.objects[k].repeatEvery == FirstRepeat(c.job, |c.job.objects|)
  {
    FirstIsLargest(c.job, |c.job.objects|);
    hide FirstRepeat;
  }
}
