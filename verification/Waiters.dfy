/** waitForCompletion: one waiter goroutine per namespace behind a counting semaphore,
    and an error channel that keeps one error and drops the others. */
module Waiters {
  import opened Options
  import opened Sequences
  import opened Workload

  // ----- Which namespaces are waited on -----

  /** The namespaces waiters are launched for, in order, and the marks afterwards. */
  function Plan(job: Job, start: nat, end: nat, ns: string, waited: map<string, bool>): (seq<string>, map<string, bool>)
    requires job.iterationsPerNamespace >= 1
    decreases end
  {
    if end <= start then ([], waited)
    else
      var (before, marks) := Plan(job, start, end - 1, ns, waited);
      if NamespacesRequired(job) && job.namespacedIterations then
        var name := GenerateNamespace(job, end - 1);
        if name in marks && marks[name] then (before, marks) else (before + [name], marks[name := true])
      else if !job.namespacedIterations && before != [] then (before, marks)
      else (before + [ns], marks)
  }

  /** The launching loop, with its continue and break. */
  method LaunchAll(job: Job, start: nat, end: nat, ns: string, waited: map<string, bool>)
    returns (launched: seq<string>, marks: map<string, bool>)
    requires job.iterationsPerNamespace >= 1
    ensures (launched, marks) == Plan(job, start, end, ns, waited)
  {
    launched, marks := [], waited;
    var i := start;
    while i < end
      invariant start <= i && (i <= end || i == start)
      invariant (launched, marks) == Plan(job, start, i, ns, waited)
      invariant !job.namespacedIterations ==> launched == []
    {
      var target := ns;
      if NamespacesRequired(job) && job.namespacedIterations {
        target := GenerateNamespace(job, i);
        if target in marks && marks[target] {
          i := i + 1;
          continue;
        }
        marks := marks[target := true];
      }
      launched := launched + [target];
      i := i + 1;
      if !job.namespacedIterations {
        OneIsEnough(job, start, i, end, ns, waited);
        break;
      }
    }
  }

  lemma {:induction false} OneIsEnough(job: Job, start: nat, i: nat, end: nat, ns: string, waited: map<string, bool>)
    requires job.iterationsPerNamespace >= 1 && !job.namespacedIterations && start < i <= end
    ensures Plan(job, start, i, ns, waited) == Plan(job, start, end, ns, waited)
    ensures Plan(job, start, end, ns, waited).0 == [ns]
    decreases end
  {
    if i < end {
      OneIsEnough(job, start, i, end - 1, ns, waited);
    } else if i - 1 > start {
      OneIsEnough(job, start, i - 1, end - 1, ns, waited);
    }
  }

  /** A namespaced job waits on each namespace of the range that was not waited on
      before, exactly once, and marks it; nothing else is waited on. */
  lemma {:induction false} WaitsOnce(job: Job, start: nat, end: nat, ns: string, waited: map<string, bool>,
                                     name: string)
    requires job.iterationsPerNamespace >= 1 && NamespacesRequired(job) && job.namespacedIterations
    ensures
      var (launched, marks) := Plan(job, start, end, ns, waited);
      var inRange := exists i :: start <= i < end && GenerateNamespace(job, i) == name;
      && Count(launched, name) == One(inRange && !(name in waited && waited[name]))
      && ((name in marks && marks[name]) <==> inRange || (name in waited && waited[name]))
    decreases end
  {
    hide NamespacesRequired, GenerateNamespace, Count;
    if end <= start {
      CountNone(name);
    } else {
      WaitsOnce(job, start, end - 1, ns, waited, name);
      var latest := GenerateNamespace(job, end - 1);
      WaitsOnce(job, start, end - 1, ns, waited, latest);
      var before := Plan(job, start, end - 1, ns, waited).0;
      CountConcat(before, [latest], name);
      CountSingle(latest, name);
    }
  }

  /** A job in one namespace waits on it once; a job that needs no namespace but keeps
      NamespacedIterations (its default) launches the same wait for every iteration. */
  lemma {:induction false} OtherWaits(job: Job, start: nat, end: nat, ns: string, waited: map<string, bool>)
    requires job.iterationsPerNamespace >= 1 && start < end
    requires !(NamespacesRequired(job) && job.namespacedIterations)
    ensures Plan(job, start, end, ns, waited).1 == waited
    ensures |Plan(job, start, end, ns, waited).0| == (if job.namespacedIterations then end - start else 1)
    ensures forall k :: 0 <= k < |Plan(job, start, end, ns, waited).0| ==> Plan(job, start, end, ns, waited).0[k] == ns
    decreases end
  {
    hide NamespacesRequired;
    if start < end - 1 {
      OtherWaits(job, start, end - 1, ns, waited);
    }
  }

  /** One cluster-scoped template, three iterations and namespacedIterations left on: the
      same wait three times. */
  lemma SameWaitCase()
    ensures
      var job := Job("ns", true, 1, false, [Object(0, 0, false, 1, false, 1, false, "", true)]);
      Plan(job, 0, 3, "", map[]).0 == ["", "", ""]
  {
    var job := Job("ns", true, 1, false, [Object(0, 0, false, 1, false, 1, false, "", true)]);
    OtherWaits(job, 0, 3, "", map[]);
  }

  // ----- The waiters as interleaved goroutines -----

  /** `launched` waiters have been started out of n; `running` of them hold a slot of
      the semaphore and have not reported yet, `reported` have tried to send their
      error, `over` have given their slot back. `errors[k]` is waiter k's error. */
  datatype State = State(
    launched: nat,
    slots: nat,
    running: set<nat>,
    reported: set<nat>,
    over: set<nat>,
    channel: Option<nat>,
    returned: Option<Option<nat>>)

  /** What waitForObjects answers for each of the n waiters: whether it failed. */
  type Fates = seq<bool>

  /** sem <- 1 (which needs a free slot), wg.Add(1), go func ... */
  ghost predicate Launch(fates: Fates, capacity: nat, s: State, s2: State) {
    && s.launched < |fates| && s.slots < capacity
    && s2 == s.(launched := s.launched + 1, slots := s.slots + 1, running := s.running + {s.launched})
  }

  /** waitForObjects ends; an error goes to the channel if it is empty. */
  ghost predicate Report(fates: Fates, s: State, s2: State, w: nat) {
    && w in s.running && w < |fates|
    && s2 == s.(running := s.running - {w}, reported := s.reported + {w},
                channel := if fates[w] && s.channel.None? then Some(w) else s.channel)
  }

  /** The deferred <-sem and wg.Done. */
  ghost predicate Finish(s: State, s2: State, w: nat) {
    && w in s.reported && s.slots > 0
    && s2 == s.(reported := s.reported - {w}, over := s.over + {w}, slots := s.slots - 1)
  }

  /** wg.Wait() passes and the channel is read. */
  ghost predicate Collect(fates: Fates, s: State, s2: State) {
    && s.launched == |fates| && s.running == {} && s.reported == {} && s.returned.None?
    && s2 == s.(returned := Some(s.channel))
  }

  ghost predicate Next(fates: Fates, capacity: nat, s: State, s2: State) {
    || Launch(fates, capacity, s, s2) || Collect(fates, s, s2)
    || exists w :: Report(fates, s, s2, w) || Finish(s, s2, w)
  }

  ghost predicate Behaviour(fates: Fates, capacity: nat, run: seq<State>) {
    && run != [] && run[0] == State(0, 0, {}, {}, {}, None, None)
    && forall k :: 0 < k < |run| ==> Next(fates, capacity, run[k - 1], run[k])
  }

  ghost predicate Inv(fates: Fates, capacity: nat, s: State) {
    && s.launched <= |fates| && s.slots <= capacity
    && s.slots == |s.running| + |s.reported|
    && (forall w: nat :: w in s.running || w in s.reported || w in s.over <==> w < s.launched)
    && (forall w: nat :: w in s.running ==> w !in s.reported && w !in s.over)
    && (forall w: nat :: w in s.reported ==> w !in s.over)
    && (forall w: nat :: (w in s.reported || w in s.over) && fates[w] ==> s.channel.Some?)
    && (s.channel.Some? ==> s.channel.value < |fates| && fates[s.channel.value])
    && (s.channel.Some? ==> s.channel.value in s.reported || s.channel.value in s.over)
    && (s.returned.Some? ==>
          s.launched == |fates| && s.running == {} && s.reported == {} && s.returned.value == s.channel)
  }

  lemma LaunchKeeps(fates: Fates, capacity: nat, s: State, s2: State)
    requires Inv(fates, capacity, s) && Launch(fates, capacity, s, s2)
    ensures Inv(fates, capacity, s2)
  {
    assert s.launched !in s.running && s.launched !in s.reported && s.launched !in s.over;
  }

  lemma ReportKeeps(fates: Fates, capacity: nat, s: State, s2: State, w: nat)
    requires Inv(fates, capacity, s) && Report(fates, s, s2, w)
    ensures Inv(fates, capacity, s2)
  {
  }

  lemma FinishKeeps(fates: Fates, capacity: nat, s: State, s2: State, w: nat)
    requires Inv(fates, capacity, s) && Finish(s, s2, w)
    ensures Inv(fates, capacity, s2)
  {
  }

  lemma NextKeeps(fates: Fates, capacity: nat, s: State, s2: State)
    requires Inv(fates, capacity, s) && Next(fates, capacity, s, s2)
    ensures Inv(fates, capacity, s2)
  {
    if Collect(fates, s, s2) {
    } else {
      hide Inv, Launch, Report, Finish;
      if Launch(fates, capacity, s, s2) {
        LaunchKeeps(fates, capacity, s, s2);
      } else {
        var w :| Report(fates, s, s2, w) || Finish(s, s2, w);
        if Report(fates, s, s2, w) {
          ReportKeeps(fates, capacity, s, s2, w);
        } else {
          FinishKeeps(fates, capacity, s, s2, w);
        }
      }
    }
  }

  lemma InitialInv(fates: Fates, capacity: nat)
    ensures Inv(fates, capacity, State(0, 0, {}, {}, {}, None, None))
  {
  }

  lemma {:induction false} AlwaysInv(fates: Fates, capacity: nat, run: seq<State>, k: nat)
    requires Behaviour(fates, capacity, run) && k < |run|
    ensures Inv(fates, capacity, run[k])
    decreases k
  {
    hide Inv, Next;
    if k == 0 {
      InitialInv(fates, capacity);
    } else {
      AlwaysInv(fates, capacity, run, k - 1);
      NextKeeps(fates, capacity, run[k - 1], run[k]);
    }
  }

  /** Never more than int(QPS) waits at once. */
  lemma BoundedConcurrency(fates: Fates, capacity: nat, run: seq<State>, k: nat)
    requires Behaviour(fates, capacity, run) && k < |run|
    ensures |run[k].running| <= capacity
  {
    AlwaysInv(fates, capacity, run, k);
  }

  /** The lossy channel loses no verdict: when the function returns, every waiter has
      finished, and the result is an error exactly when some wait failed. */
  lemma ErrorIffFailed(fates: Fates, capacity: nat, run: seq<State>, k: nat)
    requires Behaviour(fates, capacity, run) && k < |run| && run[k].returned.Some?
    ensures forall w :: 0 <= w < |fates| ==> w in run[k].over
    ensures run[k].returned.value.Some? <==> exists w :: 0 <= w < |fates| && fates[w]
    ensures run[k].returned.value.Some? ==>
      run[k].returned.value.value < |fates| && fates[run[k].returned.value.value]
  {
    AlwaysInv(fates, capacity, run, k);
  }

  /** It is the first error reported: whatever the channel holds stays in it until it is
      returned. */
  lemma {:induction false} FirstErrorStays(fates: Fates, capacity: nat, run: seq<State>, j: nat, k: nat, w: nat)
    requires Behaviour(fates, capacity, run) && j < k < |run|
    requires Report(fates, run[j], run[j + 1], w) && fates[w] && run[j].channel.None?
    ensures run[k].channel == Some(w) && (run[k].returned.Some? ==> run[k].returned == Some(Some(w)))
    decreases k
  {
    AlwaysInv(fates, capacity, run, k);
    ReturnedChannel(fates, capacity, run[k]);
    hide Inv;
    if k > j + 1 {
      FirstErrorStays(fates, capacity, run, j, k - 1, w);
      assert Next(fates, capacity, run[k - 1], run[k]);
    }
  }

  lemma ReturnedChannel(fates: Fates, capacity: nat, s: State)
    requires Inv(fates, capacity, s)
    ensures s.returned.Some? ==> s.returned.value == s.channel
  {
  }

  /** Waiter w waits on the w-th launched namespace. When the function returns, every
      namespace of the range is waited on, now or before, by a waiter that is over, and an
      error is that of a launched namespace whose wait failed. */
  lemma RangeWaited(job: Job, start: nat, end: nat, ns: string, waited: map<string, bool>,
                    fates: Fates, capacity: nat, run: seq<State>, k: nat)
    requires job.iterationsPerNamespace >= 1 && NamespacesRequired(job) && job.namespacedIterations
    requires |fates| == |Plan(job, start, end, ns, waited).0|
    requires Behaviour(fates, capacity, run) && k < |run| && run[k].returned.Some?
    ensures
      var launched := Plan(job, start, end, ns, waited).0;
      && (forall i :: start <= i < end ==>
            var name := GenerateNamespace(job, i);
            || (name in waited && waited[name])
            || exists w :: 0 <= w < |launched| && launched[w] == name && w in run[k].over)
      && (run[k].returned.value.Some? <==> exists w :: 0 <= w < |launched| && fates[w])
      && (run[k].returned.value.Some? ==>
            var w := run[k].returned.value.value;
            w < |launched| && fates[w] && exists i :: start <= i < end && GenerateNamespace(job, i) == launched[w])
  {
    var launched := Plan(job, start, end, ns, waited).0;
    ErrorIffFailed(fates, capacity, run, k);
    hide Behaviour, NamespacesRequired, GenerateNamespace, Plan;
    forall i | start <= i < end
      ensures
        var name := GenerateNamespace(job, i);
        (name in waited && waited[name]) || exists w :: 0 <= w < |launched| && launched[w] == name && w in run[k].over
    {
      var name := GenerateNamespace(job, i);
      WaitsOnce(job, start, end, ns, waited, name);
      CountPositive(launched, name);
    }
    if run[k].returned.value.Some? {
      var w := run[k].returned.value.value;
      WaitsOnce(job, start, end, ns, waited, launched[w]);
      CountPositive(launched, launched[w]);
    }
  }

  /** It cannot deadlock, exactly when int(QPS) is at least 1 or there is nothing to
      wait for: with a rate below one the semaphore has no slot and the first send
      blocks for good. */
  lemma DeadlockFreeIff(fates: Fates, capacity: nat)
    ensures (forall run: seq<State>, k | Behaviour(fates, capacity, run) && 0 <= k < |run| && run[k].returned.None? ::
               exists s2 :: Next(fates, capacity, run[k], s2))
       <==> capacity >= 1 || fates == []
  {
    if capacity >= 1 || fates == [] {
      forall run: seq<State>, k | Behaviour(fates, capacity, run) && 0 <= k < |run| && run[k].returned.None?
        ensures exists s2 :: Next(fates, capacity, run[k], s2)
      {
        AlwaysInv(fates, capacity, run, k);
        Enabled(fates, capacity, run[k]);
      }
    } else {
      var s := State(0, 0, {}, {}, {}, None, None);
      assert Behaviour(fates, capacity, [s]) && [s][0].returned.None?;
      assert forall s2 :: !Next(fates, capacity, s, s2);
    }
  }

  /** One namespace and a QPS below 1: the run stands at its first state for good. */
  lemma SlowCase()
    ensures
      var s := State(0, 0, {}, {}, {}, None, None);
      Behaviour([false], 0, [s]) && s.returned.None? && forall s2 :: !Next([false], 0, s, s2)
  {
  }

  lemma Enabled(fates: Fates, capacity: nat, s: State)
    requires Inv(fates, capacity, s) && s.returned.None? && (capacity >= 1 || fates == [])
    ensures exists s2 :: Next(fates, capacity, s, s2)
  {
    if w :| w in s.running {
      var s2 := s.(running := s.running - {w}, reported := s.reported + {w},
                   channel := if fates[w] && s.channel.None? then Some(w) else s.channel);
      assert Report(fates, s, s2, w) && Next(fates, capacity, s, s2);
    } else if w :| w in s.reported {
      var s2 := s.(reported := s.reported - {w}, over := s.over + {w}, slots := s.slots - 1);
      assert Finish(s, s2, w) && Next(fates, capacity, s, s2);
    } else {
      assert s.running == {} && s.reported == {};
      if s.launched < |fates| {
        var s2 := s.(launched := s.launched + 1, slots := s.slots + 1, running := s.running + {s.launched});
        assert Launch(fates, capacity, s, s2) && Next(fates, capacity, s, s2);
      } else {
        var s2 := s.(returned := Some(s.channel));
        assert Collect(fates, s, s2) && Next(fates, capacity, s, s2);
      }
    }
  }
}
