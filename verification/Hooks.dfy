/** Background hooks: processes started by the job's goroutine, a monitor for each, a
    result channel of fixed capacity, and the drain that waits for them all. */
module Hooks {
  import opened Arithmetic
  import opened Sequences

  /** A hook of the job. `ok` says whether a background hook's process can be started, or
      whether a foreground hook succeeds. */
  datatype Hook = Hook(stage: int, background: bool, ok: bool)

  /** Monitors by what they are doing: waiting for their process, about to call Done,
      or gone. `channel` holds the results sent, `logged` the results that found it
      full. `wg` is backgrounWg and `drained` the results of the drain in progress. */
  datatype State = State(
    started: nat,
    waiting: set<nat>,
    finishing: set<nat>,
    wg: int,
    capacity: nat,
    channel: seq<nat>,
    logged: set<nat>,
    draining: bool,
    drained: seq<nat>,
    results: seq<seq<nat>>)

  /** executeBackgroundHook: cmd.Start, backgrounWg.Add(1), go monitor. The job's own
      goroutine is the only one that starts hooks, so not during a drain. */
  ghost predicate Start(s: State, s2: State) {
    && !s.draining
    && s2 == s.(started := s.started + 1, waiting := s.waiting + {s.started}, wg := s.wg + 1)
  }

  /** The process ends and the monitor's non-blocking send: into the channel when it
      has room, into the log otherwise. */
  ghost predicate Report(s: State, s2: State, h: nat) {
    && h in s.waiting
    && s2 == if |s.channel| < s.capacity
             then s.(waiting := s.waiting - {h}, finishing := s.finishing + {h}, channel := s.channel + [h])
             else s.(waiting := s.waiting - {h}, finishing := s.finishing + {h}, logged := s.logged + {h})
  }

  /** The deferred backgrounWg.Done. */
  ghost predicate Done(s: State, s2: State, h: nat) {
    && h in s.finishing
    && s2 == s.(finishing := s.finishing - {h}, wg := s.wg - 1)
  }

  /** WaitBackgroundHooks: backgrounWg.Wait() passes. */
  ghost predicate BeginDrain(s: State, s2: State) {
    && !s.draining && s.wg == 0
    && s2 == s.(draining := true, drained := [])
  }

  /** One receive. */
  ghost predicate Receive(s: State, s2: State) {
    && s.draining && s.channel != []
    && s2 == s.(channel := s.channel[1..], drained := s.drained + [s.channel[0]])
  }

  /** The channel is empty: it is replaced by one of the same capacity and the results
      are returned. */
  ghost predicate EndDrain(s: State, s2: State) {
    && s.draining && s.channel == []
    && s2 == s.(draining := false, channel := [], drained := [], results := s.results + [s.drained])
  }

  ghost predicate Next(s: State, s2: State) {
    || Start(s, s2) || BeginDrain(s, s2) || Receive(s, s2) || EndDrain(s, s2)
    || exists h :: Report(s, s2, h) || Done(s, s2, h)
  }

  /** NewHookManager, then any interleaving. */
  ghost predicate Behaviour(hookCount: nat, run: seq<State>) {
    && run != [] && run[0] == State(0, {}, {}, 0, hookCount, [], {}, false, [], [])
    && forall k :: 0 < k < |run| ==> Next(run[k - 1], run[k])
  }

  // ----- Conservation -----

  /** The hooks started in [from, started) and not waiting are accounted for, each exactly
      once: in `list`, which holds what the channel and the drain in progress have, or in
      the log, and in the log only when the list is full. */
  ghost predicate Accounted(hookCount: nat, from: nat, started: nat, waiting: set<nat>, logged: set<nat>,
                            list: seq<nat>) {
    && NoRepeats(list) && |list| <= hookCount
    && (forall h: nat :: from <= h < started ==> h in waiting || h in list || h in logged)
    && (forall h: nat :: h in list ==> from <= h < started && h !in waiting && h !in logged)
    && (forall h: nat :: h in logged ==> h < started && h !in waiting)
    && ((exists h: nat :: h in logged && from <= h) ==> |list| == hookCount)
  }

  /** The WaitGroup counts the monitors, and none waits during a drain. */
  ghost predicate Counted(hookCount: nat, from: nat, s: State) {
    && s.capacity == hookCount && from <= s.started
    && s.wg == |s.waiting| + |s.finishing|
    && (forall h :: h in s.waiting ==> from <= h < s.started)
    && (forall h :: h in s.finishing ==> h < s.started && h !in s.waiting)
    && (s.draining ==> s.waiting == {})
    && (!s.draining ==> s.drained == [])
  }

  ghost predicate Inv(hookCount: nat, from: nat, s: State) {
    && Counted(hookCount, from, s)
    && Accounted(hookCount, from, s.started, s.waiting, s.logged, s.drained + s.channel)
  }

  /** The number of hooks started when the last drain before state k ended. */
  ghost function DrainPoint(run: seq<State>, k: nat): nat
    requires k < |run|
    decreases k
  {
    if k == 0 then 0
    else if EndDrain(run[k - 1], run[k]) then run[k].started
    else DrainPoint(run, k - 1)
  }

  lemma StartKeeps(hookCount: nat, from: nat, s: State, s2: State)
    requires Inv(hookCount, from, s) && Start(s, s2)
    ensures Inv(hookCount, from, s2)
  {
    assert s.started !in s.waiting;
  }

  lemma SentAccounted(hookCount: nat, from: nat, started: nat, waiting: set<nat>, logged: set<nat>,
                      list: seq<nat>, h: nat)
    requires Accounted(hookCount, from, started, waiting, logged, list)
    requires h in waiting && from <= h < started && |list| < hookCount
    ensures Accounted(hookCount, from, started, waiting - {h}, logged, list + [h])
  {
  }

  lemma LoggedAccounted(hookCount: nat, from: nat, started: nat, waiting: set<nat>, logged: set<nat>,
                        list: seq<nat>, h: nat)
    requires Accounted(hookCount, from, started, waiting, logged, list)
    requires h in waiting && from <= h < started && |list| == hookCount
    ensures Accounted(hookCount, from, started, waiting - {h}, logged + {h}, list)
  {
    hide NoRepeats;
  }

  lemma ReportKeeps(hookCount: nat, from: nat, s: State, s2: State, h: nat)
    requires Inv(hookCount, from, s) && Report(s, s2, h)
    ensures Inv(hookCount, from, s2)
  {
    assert !s.draining && s.drained + s.channel == s.channel;
    assert |s.channel| <= hookCount;
    hide Accounted;
    if |s.channel| < s.capacity {
      SentAccounted(hookCount, from, s.started, s.waiting, s.logged, s.channel, h);
      assert s2.drained + s2.channel == s.channel + [h];
    } else {
      LoggedAccounted(hookCount, from, s.started, s.waiting, s.logged, s.channel, h);
    }
  }

  lemma DoneKeeps(hookCount: nat, from: nat, s: State, s2: State, h: nat)
    requires Inv(hookCount, from, s) && Done(s, s2, h)
    ensures Inv(hookCount, from, s2)
  {
  }

  lemma BeginKeeps(hookCount: nat, from: nat, s: State, s2: State)
    requires Inv(hookCount, from, s) && BeginDrain(s, s2)
    ensures Inv(hookCount, from, s2)
  {
    assert s.waiting == {};
  }

  lemma ReceiveKeeps(hookCount: nat, from: nat, s: State, s2: State)
    requires Inv(hookCount, from, s) && Receive(s, s2)
    ensures Inv(hookCount, from, s2)
  {
    assert s2.drained + s2.channel == s.drained + s.channel;
  }

  lemma StepKeeps(hookCount: nat, from: nat, s: State, s2: State)
    requires Inv(hookCount, from, s) && Next(s, s2) && !EndDrain(s, s2)
    ensures Inv(hookCount, from, s2)
  {
    hide Inv, Start, Report, Done, BeginDrain, Receive, EndDrain;
    if Start(s, s2) {
      StartKeeps(hookCount, from, s, s2);
    } else if BeginDrain(s, s2) {
      BeginKeeps(hookCount, from, s, s2);
    } else if Receive(s, s2) {
      ReceiveKeeps(hookCount, from, s, s2);
    } else {
      var h :| Report(s, s2, h) || Done(s, s2, h);
      if Report(s, s2, h) {
        ReportKeeps(hookCount, from, s, s2, h);
      } else {
        DoneKeeps(hookCount, from, s, s2, h);
      }
    }
  }

  lemma {:induction false} AlwaysInv(hookCount: nat, run: seq<State>, k: nat)
    requires Behaviour(hookCount, run) && k < |run|
    ensures Inv(hookCount, DrainPoint(run, k), run[k])
    decreases k
  {
    if k > 0 {
      hide Inv, Next, EndDrain;
      AlwaysInv(hookCount, run, k - 1);
      if !EndDrain(run[k - 1], run[k]) {
        StepKeeps(hookCount, DrainPoint(run, k - 1), run[k - 1], run[k]);
      }
    }
  }

  /** The drain's results are exactly min(k, hookCount) of the results of the k hooks
      started from number `from` on, each once, and every other one was logged. */
  ghost predicate Complete(hookCount: nat, from: nat, s: State) {
    && from <= s.started && NoRepeats(s.drained)
    && |s.drained| == Min(s.started - from, hookCount)
    && (forall h: nat :: from <= h < s.started ==> (h in s.drained <==> h !in s.logged))
    && forall h: nat :: h in s.drained ==> from <= h < s.started
  }

  /** A drain that ends at state k returns the complete results of the hooks started since
      the drain before it, and the new channel has the old capacity. So nothing is lost
      when no more than hookCount were started. */
  lemma DrainReturns(hookCount: nat, run: seq<State>, k: nat)
    requires Behaviour(hookCount, run) && 0 < k < |run| && EndDrain(run[k - 1], run[k])
    ensures Complete(hookCount, DrainPoint(run, k - 1), run[k - 1])
    ensures run[k].results == run[k - 1].results + [run[k - 1].drained] && run[k].capacity == hookCount
  {
    AlwaysInv(hookCount, run, k - 1);
    hide Behaviour, DrainPoint, Inv, Complete;
    DrainHolds(hookCount, DrainPoint(run, k - 1), run[k - 1]);
  }

  lemma DrainHolds(hookCount: nat, from: nat, s: State)
    requires Inv(hookCount, from, s) && s.draining && s.channel == []
    ensures s.capacity == hookCount && Complete(hookCount, from, s)
  {
    assert s.drained + s.channel == s.drained;
    CountResults(hookCount, from, s.started, s.logged, s.drained);
    hide NoRepeats;
  }

  lemma CountResults(hookCount: nat, from: nat, started: nat, logged: set<nat>, list: seq<nat>)
    requires Accounted(hookCount, from, started, {}, logged, list) && from <= started
    ensures |list| == Min(started - from, hookCount)
  {
    ElementsCard(list);
    hide NoRepeats;
    var all := Range(from, started);
    var lost := all - Elements(list);
    assert Elements(list) <= all;
    assert all == Elements(list) + lost;
    assert |all| == |list| + |lost|;
    if h :| h in lost {
      assert h in logged && from <= h;
    }
  }

  /** The results of the drain in progress, and those it will take next, in order. */
  ghost function Pending(s: State): seq<nat> { s.drained + s.channel }

  ghost predicate NoDrainEnds(run: seq<State>, j: nat, k: nat)
    requires k < |run|
  {
    forall m :: j <= m < k ==> !EndDrain(run[m], run[m + 1])
  }

  /** Until the next drain ends, results are only added behind those that are there: the
      drain returns them in the order in which they were sent. */
  lemma {:induction false} OrderKept(hookCount: nat, run: seq<State>, j: nat, k: nat)
    requires Behaviour(hookCount, run) && j <= k < |run| && NoDrainEnds(run, j, k)
    ensures Pending(run[j]) <= Pending(run[k])
    decreases k
  {
    hide Pending, Inv, Next, EndDrain;
    if j < k {
      var before, after := run[k - 1], run[k];
      AlwaysInv(hookCount, run, k - 1);
      assert Next(before, after) && !EndDrain(before, run[k - 1 + 1]);
      StepAppends(hookCount, DrainPoint(run, k - 1), before, after);
      hide Behaviour;
      OrderKept(hookCount, run, j, k - 1);
    }
  }

  lemma StepAppends(hookCount: nat, from: nat, s: State, s2: State)
    requires Inv(hookCount, from, s) && Next(s, s2) && !EndDrain(s, s2)
    ensures Pending(s) <= Pending(s2)
  {
    assert !s.draining ==> s.drained == [];
    hide Inv, EndDrain, Start, BeginDrain, Receive, Report, Done;
    if Start(s, s2) || BeginDrain(s, s2) || Receive(s, s2) {
      MainAppends(s, s2);
    } else {
      var h :| Report(s, s2, h) || Done(s, s2, h);
      MonitorAppends(s, s2, h);
    }
  }

  lemma MainAppends(s: State, s2: State)
    requires (Start(s, s2) || BeginDrain(s, s2) || Receive(s, s2)) && (!s.draining ==> s.drained == [])
    ensures Pending(s) == Pending(s2)
  {
  }

  lemma MonitorAppends(s: State, s2: State, h: nat)
    requires Report(s, s2, h) || Done(s, s2, h)
    ensures Pending(s) <= Pending(s2)
  {
  }

  /** No monitor ever blocks, so a drain always gets through: as long as monitors or a
      drain are at work some step of theirs is enabled. */
  lemma NeverBlocks(hookCount: nat, run: seq<State>, k: nat)
    requires Behaviour(hookCount, run) && k < |run|
    ensures forall h :: h in run[k].waiting ==> exists s2 :: Report(run[k], s2, h)
    ensures forall h :: h in run[k].finishing ==> exists s2 :: Done(run[k], s2, h)
    ensures !run[k].draining && run[k].waiting == {} && run[k].finishing == {} ==> exists s2 :: BeginDrain(run[k], s2)
    ensures run[k].draining ==> exists s2 :: Receive(run[k], s2) || EndDrain(run[k], s2)
  {
    var s := run[k];
    AlwaysInv(hookCount, run, k);
    forall h | h in s.waiting ensures exists s2 :: Report(s, s2, h) {
      var s2 := if |s.channel| < s.capacity
                then s.(waiting := s.waiting - {h}, finishing := s.finishing + {h}, channel := s.channel + [h])
                else s.(waiting := s.waiting - {h}, finishing := s.finishing + {h}, logged := s.logged + {h});
      assert Report(s, s2, h);
    }
    forall h | h in s.finishing ensures exists s2 :: Done(s, s2, h) {
      assert Done(s, s.(finishing := s.finishing - {h}, wg := s.wg - 1), h);
    }
    if !s.draining && s.waiting == {} && s.finishing == {} {
      assert BeginDrain(s, s.(draining := true, drained := []));
    }
    if s.draining {
      if s.channel != [] {
        assert Receive(s, s.(channel := s.channel[1..], drained := s.drained + [s.channel[0]]));
      } else {
        assert EndDrain(s, s.(draining := false, channel := [], drained := [], results := s.results + [s.drained]));
      }
    }
  }

  // ----- The hooks of a stage -----

  predicate Concerns(hook: Hook, stage: int, background: bool) {
    hook.stage == stage && hook.background == background
  }

  /** One of the stage's first k hooks, of that kind, fails. */
  predicate FailsBefore(hooks: seq<Hook>, stage: int, background: bool, k: int)
    requires k <= |hooks|
  {
    exists j :: 0 <= j < k && Concerns(hooks[j], stage, background) && !hooks[j].ok
  }

  ghost predicate Increasing(ks: seq<nat>) {
    forall i, j :: 0 <= i < j < |ks| ==> ks[i] < ks[j]
  }

  lemma IncreasingMore(ks: seq<nat>, k: nat)
    requires Increasing(ks) && forall j :: j in ks ==> j < k
    ensures Increasing(ks + [k])
  {
    assert forall i :: 0 <= i < |ks| ==> ks[i] in ks;
  }

  /** executeHooks: the stage's background hooks are started in order up to the first that
      does not start. If all did, its foreground hooks are run in order up to and with the
      first that fails. */
  method ExecuteHooks(hooks: seq<Hook>, stage: int) returns (started: seq<nat>, ran: seq<nat>, failed: bool)
    ensures Increasing(started) && Increasing(ran)
    ensures forall k: nat :: k in started <==>
      k < |hooks| && Concerns(hooks[k], stage, true) && hooks[k].ok && !FailsBefore(hooks, stage, true, k)
    ensures forall k: nat :: k in ran <==>
      k < |hooks| && Concerns(hooks[k], stage, false) && !FailsBefore(hooks, stage, true, |hooks|)
      && !FailsBefore(hooks, stage, false, k)
    ensures failed <==> FailsBefore(hooks, stage, true, |hooks|) || FailsBefore(hooks, stage, false, |hooks|)
  {
    started, ran, failed := [], [], false;
    for k := 0 to |hooks|
      invariant Increasing(started) && !FailsBefore(hooks, stage, true, k)
      invariant forall j: nat :: j in started <==> j < k && Concerns(hooks[j], stage, true)
    {
      if hooks[k].stage == stage && hooks[k].background {
        if !hooks[k].ok {
          return started, ran, true;
        }
        IncreasingMore(started, k);
        started := started + [k];
      }
    }
    for k := 0 to |hooks|
      invariant Increasing(ran) && !FailsBefore(hooks, stage, false, k)
      invariant forall j: nat :: j in ran <==> j < k && Concerns(hooks[j], stage, false)
    {
      if hooks[k].stage == stage && !hooks[k].background {
        IncreasingMore(ran, k);
        ran := ran + [k];
        if !hooks[k].ok {
          return started, ran, true;
        }
      }
    }
  }
}
